/** `normalize_wrapped_script`: a shell call whose script codex recorded as adjacent quoted pieces is
    replaced by the joined script, and the joined script is what the call runs. */
module NormalizedScript {
  import opened Text
  import opened ShellSplit
  import opened ReadParser
  import opened ShellSemantics
  import opened ReadSoundness
  import opened ShellWrapper
  import J = QuoteJoin

  function NormalizeWrappedScript(cmd: string): string {
    match ShellCScript(cmd)
    case None => cmd
    case Some(rest) =>
      if |Unwrap(cmd)| != |cmd| then cmd
      else match J.Join(rest, J.Between) case None => cmd case Some(text) => text
  }

  /** `SHELL FLAG WORD` as text. */
  datatype WordCall = WordCall(prog: string, gap1: string, flag: string, gap2: string, word: string) {
    predicate Shaped() {
      && IsShellName(prog) && IsFlagWord(flag) && IsGap(gap1) && IsGap(gap2) && !Contains(prog, flag)
      && word != [] && J.Join(word, J.Between).Some?
    }
    function Render(): string { prog + (gap1 + (flag + (gap2 + word))) }
  }

  /** The quote a place is inside of. */
  function QuoteOf(p: J.Place): Option<char> {
    match p case Between => None case InSingle => Some('\'') case InDouble => Some('"')
  }

  /** An accepted word that escapes nothing is, to the shell, its joined text. */
  lemma {:induction false} JoinedLexes(s: string, p: J.Place)
    requires J.Join(s, p).Some? && NoEscape(s, QuoteOf(p))
    ensures LexWord(s, QuoteOf(p)) == Some((J.Join(s, p).value, []))
    decreases |s|
  {
    if s == [] {
    } else if p.Between? {
      JoinedLexes(s[1..], if s[0] == '\'' then J.InSingle else J.InDouble);
    } else if Some(s[0]) == QuoteOf(p) {
      JoinedLexes(s[1..], J.Between);
    } else {
      JoinedLexes(s[1..], p);
    }
  }

  lemma {:induction false} JoinedEnds(s: string, p: J.Place)
    requires J.Join(s, p).Some? && (s != [] || !p.Between?)
    ensures s != [] && IsQuote(s[|s| - 1])
    decreases |s|
  {
    var n := if p.InDouble? && s[0] == '\\' then 2 else 1;
    var next := if p.Between? then (if s[0] == '\'' then J.InSingle else J.InDouble)
                else if Some(s[0]) == QuoteOf(p) then J.Between else p;
    if s[n..] != [] || !next.Between? { JoinedEnds(s[n..], next); }
  }

  lemma JoinedWord(word: string)
    requires word != [] && J.Join(word, J.Between).Some?
    ensures IsQuote(word[0]) && IsQuote(word[|word| - 1]) && Trim(word) == word
  {
    JoinedEnds(word, J.Between);
    TrimmedByEnds(word);
  }

  lemma CallIsTrimmed(c: WordCall)
    requires c.Shaped()
    ensures Trim(c.Render()) == c.Render() && c.Render() != []
  {
    var s := c.Render();
    JoinedWord(c.word);
    assert c.prog[0] in c.prog && s[0] == c.prog[0];
    assert s[|s| - 1] == c.word[|c.word| - 1];
    TrimmedByEnds(s);
  }

  lemma ScriptOfCall(c: WordCall)
    requires c.Shaped()
    ensures ShellCScript(c.Render()) == Some(c.word)
  {
    assert c.gap2[0] in c.gap2;
    JoinedWord(c.word);
    SkipGap(c.gap2, c.word);
    CallOfParts(c.Render(), c.prog, c.gap1, c.flag, c.gap2 + c.word, c.word);
  }

  /** The escapes of a call are those of its script word. */
  lemma CallEscapes(c: WordCall)
    requires c.Shaped()
    ensures NoEscape(c.Render(), None) <==> NoEscape(c.word, None)
  {
    InertWord([], c.prog);
    InertWord([], c.flag);
    InertGap([], c.gap1);
    InertGap([], c.gap2);
    InertPrefix([], c.prog, c.gap1 + (c.flag + (c.gap2 + c.word)));
    InertPrefix([], c.gap1, c.flag + (c.gap2 + c.word));
    InertPrefix([], c.flag, c.gap2 + c.word);
    InertPrefix([], c.gap2, c.word);
  }

  lemma WordLexes(word: string)
    requires word != [] && J.Join(word, J.Between).Some? && NoEscape(word, None)
    ensures Lex(word) == Some([J.Join(word, J.Between).value])
  {
    JoinedWord(word);
    JoinedLexes(word, J.Between);
    assert [J.Join(word, J.Between).value] + [] == [J.Join(word, J.Between).value];
  }

  lemma CallLexes(c: WordCall, text: string)
    requires c.Shaped() && J.Join(c.word, J.Between) == Some(text) && NoEscape(c.word, None)
    ensures Lex(c.Render()) == Some([c.prog, c.flag, text])
  {
    WordLexes(c.word);
    BareIsUnquoted(c.prog);
    BareIsUnquoted(c.flag);
    LexTail(c.flag, c.gap2, c.word);
    LexTail(c.prog, c.gap1, c.flag + (c.gap2 + c.word));
    assert [c.prog] + ([c.flag] + [text]) == [c.prog, c.flag, text];
  }

  lemma CallKeepsShell(c: WordCall)
    requires c.Shaped()
    ensures !CommandChanges(CommandOf(c.Render()))
  {
    assert c.gap1[0] in c.gap1;
    CommandOfBare(c.prog, c.gap1 + (c.flag + (c.gap2 + c.word)));
    KnownKeepsShell(c.prog);
  }

  /** What a recorded call is replaced by: its joined script, unless the plain unwrapper takes it. */
  lemma NormalizedExactly(c: WordCall, text: string)
    requires c.Shaped() && J.Join(c.word, J.Between) == Some(text)
    ensures NormalizeWrappedScript(c.Render())
         == if IsOneQuoted(c.word, '\'') || IsOneQuoted(c.word, '"') then c.Render() else text
    ensures J.QuoteRemoval(c.word, J.Between) == Some(text)
  {
    ScriptOfCall(c);
    J.JoinExact(c.word, text);
  }

  /** A call in the modelled fragment does, to the files and in its status, what its joined script
      does, and shows the same; so what is judged in its place is what was run. */
  lemma NormalizedRuns(w: World, c: WordCall, text: string, st: State)
    requires c.Shaped() && J.Join(c.word, J.Between) == Some(text) && RunsScript(c.flag, text)
    requires Modelled(c.Render()) && st.intact
    ensures var o, i := ExecText(w, c.Render(), st), ExecText(w, text, st);
            o.status == i.status && o.state.files == i.state.files && AllShown(o.trace) == AllShown(i.trace)
  {
    CallEscapes(c);
    CallIsTrimmed(c);
    CallLexes(c, text);
    CallKeepsShell(c);
    CallTextRuns(w, c.Render(), st, [c.prog, c.flag, text]);
  }

  /** Two pieces, the first in single quotes and the second in double. */
  function TwoPieces(a: string, b: string): string { J.Render([J.Single(a), J.Double(b)]) }

  lemma OnePiece(p: J.Piece)
    ensures J.Contents([p]) == p.text && J.Render([p]) == J.RenderPiece(p)
  {
    var none: seq<J.Piece> := [p][1..];
    assert none == [] && p.text + [] == p.text && J.RenderPiece(p) + [] == J.RenderPiece(p);
  }

  lemma TwoPiecesJoin(a: string, b: string)
    requires '\'' !in a
    ensures J.Join(TwoPieces(a, b), J.Between) == Some(a + b)
    ensures var word := TwoPieces(a, b); word != [] && word[0] == '\'' && word[|word| - 1] == '"'
  {
    var ps := [J.Single(a), J.Double(b)];
    OnePiece(J.Double(b));
    assert ps[1..] == [J.Double(b)];
    J.JoinInvertsRender(ps);
  }

  /** The comment that unwrapping the result is the identity does not hold of a script that is itself
      a shell call, as `sh -c 'sh -c '"'cat F'"` records: the result is unwrapped once more. */
  lemma NormalizedUnwrapsAgain(c: WordCall, v: Wrapper, a: string, b: string)
    requires c.Shaped() && c.word == TwoPieces(a, b) && '\'' !in a
    requires v.Shaped() && !Contains(v.prog, v.flag) && a + b == v.Render()
    ensures NormalizeWrappedScript(c.Render()) == v.Render() && Unwrap(v.Render()) == v.script != v.Render()
  {
    TwoPiecesJoin(a, b);
    NormalizedExactly(c, a + b);
    UnwrapExactly(v);
    assert |v.Render()| > |v.script|;
  }
}
