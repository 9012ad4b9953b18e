/** The `sh -c` wrapper: what unwrapping takes from it, and when that is what the call runs. */
module ShellWrapper {
  import opened Text
  import opened ShellSplit
  import opened ReadParser
  import opened ShellSemantics
  import opened ReadSoundness

  // ----- unwrapping -----

  lemma WordThen(w: string, rest: string)
    requires w != [] && NoSpace(w) && rest != [] && IsSpace(rest[0])
    ensures Words(w + rest) == [w] + Words(rest)
  {
    FirstWordOf(w, rest);
    var s := w + rest;
    assert w[0] in w && s[0] == w[0];
    assert s[..|w|] == w && s[|w|..] == rest;
  }

  ghost predicate NoneBefore(s: string, sub: string, n: nat) { forall k: nat :: k < n ==> !HasAt(s, sub, k) }

  lemma {:induction false} FindFirstIs(s: string, sub: string, n: nat)
    requires HasAt(s, sub, n) && sub != [] && NoneBefore(s, sub, n)
    ensures FindFirst(s, sub) == Some(n)
  {
    if n == 0 {
      assert s[0..|sub|] == sub;
    } else {
      assert !HasAt(s, sub, 0);
      var t := s[1..];
      assert t[n - 1..n - 1 + |sub|] == s[n..n + |sub|];
      forall k: nat | k < n - 1 ensures !HasAt(t, sub, k) {
        assert !HasAt(s, sub, k + 1);
        assert k + |sub| <= |t| ==> t[k..k + |sub|] == s[k + 1..k + 1 + |sub|];
      }
      FindFirstIs(t, sub, n - 1);
    }
  }

  lemma {:induction false} FindFirstReaches(s: string, sub: string, n: nat)
    requires HasAt(s, sub, n)
    ensures FindFirst(s, sub).Some? && FindFirst(s, sub).value <= n
  {
    if n == 0 {
      assert s[0..|sub|] == sub;
    } else if !(sub <= s) {
      assert s != [] && s[1..][n - 1..n - 1 + |sub|] == s[n..n + |sub|];
      FindFirstReaches(s[1..], sub, n - 1);
    }
  }

  /** A bare flag does not occur before its own place, unless the program's name holds it. */
  lemma NotEarlier(prog: string, gap: string, flag: string, rest: string, k: nat)
    requires BareWord(flag) && IsShellFlag(flag) && IsGap(gap) && !Contains(prog, flag) && k < |prog| + |gap|
    ensures !HasAt(prog + (gap + (flag + rest)), flag, k)
  {
    var s := prog + (gap + (flag + rest));
    if k + |flag| <= |prog| {
      assert s[k..k + |flag|] == prog[k..k + |flag|];
      assert !HasAt(prog, flag, k);
    } else {
      var at := if k < |prog| then |prog| else k;
      assert s[at] == gap[at - |prog|] && gap[at - |prog|] in gap;
      assert flag[at - k] in flag && IsOrdinary(flag[at - k]);
      assert k + |flag| <= |s| ==> s[k..k + |flag|][at - k] == s[at];
    }
  }

  lemma Parts(a: string, b: string, c: string, d: string)
    ensures var s, n := a + (b + (c + d)), |a| + |b|;
            HasAt(s, c, n) && s[n + |c|..] == d
  {
    var s, n := a + (b + (c + d)), |a| + |b|;
    assert s[n..n + |c|] == c;
  }

  lemma FlagAt(prog: string, gap: string, flag: string, rest: string)
    requires BareWord(flag) && IsShellFlag(flag) && IsGap(gap) && !Contains(prog, flag)
    ensures FindFirst(prog + (gap + (flag + rest)), flag) == Some(|prog| + |gap|)
  {
    var s, n := prog + (gap + (flag + rest)), |prog| + |gap|;
    Parts(prog, gap, flag, rest);
    assert NoneBefore(s, flag, n) by {
      forall k: nat | k < n ensures !HasAt(s, flag, k) {
        NotEarlier(prog, gap, flag, rest, k);
      }
    }
    FindFirstIs(s, flag, n);
  }

  /** The words the unwrapper looks at. */
  predicate StartsCall(cmd: string, prog: string, flag: string) {
    var ws := Words(cmd);
    |ws| >= 2 && ws[0] == prog && ws[1] == flag
  }

  /** The first `flag` is at `i`, and `rest` is what follows it, trimmed. */
  predicate FlagThen(cmd: string, flag: string, i: nat, rest: string) {
    FindFirst(cmd, flag) == Some(i) && Trim(cmd[i + |flag|..]) == rest
  }

  lemma ScriptIs(cmd: string, prog: string, flag: string, i: nat, rest: string)
    requires FoundCall(cmd, prog, flag, i, rest)
    ensures ShellCScript(cmd) == Some(rest)
  {
  }

  predicate FoundCall(cmd: string, prog: string, flag: string, i: nat, rest: string) {
    IsShellName(prog) && IsFlagWord(flag) && IsCallText(cmd, prog, flag, i, rest)
  }

  predicate IsCallText(cmd: string, prog: string, flag: string, i: nat, rest: string) {
    StartsCall(cmd, prog, flag) && FlagThen(cmd, flag, i, rest)
  }

  lemma PartsStart(prog: string, gap: string, flag: string, rest: string)
    requires IsShellName(prog) && IsFlagWord(flag) && IsGap(gap) && rest != [] && IsSpace(rest[0])
    ensures StartsCall(prog + (gap + (flag + rest)), prog, flag)
  {
    assert gap[0] in gap;
    WordThen(flag, rest);
    SkipGap(gap, flag + rest);
    WordThen(prog, gap + (flag + rest));
  }

  lemma QuotedIsTrimmed(v: Wrapper)
    requires v.Shaped()
    ensures Trim(v.gap2 + v.Quoted()) == v.Quoted() && IsOneQuoted(v.Quoted(), v.quote) && Inner(v.Quoted()) == v.script
  {
    var q := v.Quoted();
    assert q[0] == v.quote && q[|q| - 1] == v.quote && Inner(q) == v.script;
    SkipGap(v.gap2, q);
  }

  lemma FlagThenIs(prog: string, gap: string, flag: string, rest: string, trimmed: string)
    requires BareWord(flag) && IsShellFlag(flag) && IsGap(gap) && !Contains(prog, flag) && Trim(rest) == trimmed
    ensures FlagThen(prog + (gap + (flag + rest)), flag, |prog| + |gap|, trimmed)
  {
    FlagAt(prog, gap, flag, rest);
    Parts(prog, gap, flag, rest);
  }

  predicate Spells(cmd: string, prog: string, gap: string, flag: string, rest: string) {
    cmd == prog + (gap + (flag + rest))
  }

  predicate NamesCall(prog: string, flag: string) { IsShellName(prog) && IsFlagWord(flag) && !Contains(prog, flag) }

  predicate EndsCall(gap: string, rest: string, trimmed: string) {
    IsGap(gap) && rest != [] && IsSpace(rest[0]) && Trim(rest) == trimmed
  }

  /** The parts of a call whose flag is where it is first found. */
  predicate IsCall(cmd: string, prog: string, gap: string, flag: string, rest: string, trimmed: string) {
    Spells(cmd, prog, gap, flag, rest) && NamesCall(prog, flag) && EndsCall(gap, rest, trimmed)
  }

  lemma PartsAreFound(cmd: string, prog: string, gap: string, flag: string, rest: string, trimmed: string)
      returns (i: nat)
    requires IsCall(cmd, prog, gap, flag, rest, trimmed)
    ensures FoundCall(cmd, prog, flag, i, trimmed)
  {
    i := |prog| + |gap|;
    PartsStart(prog, gap, flag, rest);
    FlagThenIs(prog, gap, flag, rest, trimmed);
  }

  lemma CallOfParts(cmd: string, prog: string, gap: string, flag: string, rest: string, trimmed: string)
    requires IsCall(cmd, prog, gap, flag, rest, trimmed)
    ensures ShellCScript(cmd) == Some(trimmed)
  {
    var i := PartsAreFound(cmd, prog, gap, flag, rest, trimmed);
    ScriptIs(cmd, prog, flag, i, trimmed);
  }

  lemma CallOfWrapper(v: Wrapper)
    requires v.Shaped() && !Contains(v.prog, v.flag)
    ensures ShellCScript(v.Render()) == Some(v.Quoted())
  {
    assert v.gap2[0] in v.gap2;
    QuotedIsTrimmed(v);
    CallOfParts(v.Render(), v.prog, v.gap1, v.flag, v.gap2 + v.Quoted(), v.Quoted());
  }

  lemma ScriptOfWrapper(v: Wrapper)
    requires v.Shaped() && !Contains(v.prog, v.flag)
    ensures Unwrap(v.Render()) == v.script
  {
    CallOfWrapper(v);
    QuotedIsTrimmed(v);
    UnwrapIs(v.Render(), v.Quoted(), v.quote);
  }

  lemma UnwrapIs(cmd: string, rest: string, q: char)
    requires ShellCScript(cmd) == Some(rest) && IsQuote(q) && IsOneQuoted(rest, q)
    ensures Unwrap(cmd) == Inner(rest)
  {
  }

  lemma ProgramEndsInH(prog: string)
    requires BaseName(prog) in SHELLS
    ensures prog != [] && prog[|prog| - 1] == 'h'
  {
    var base := BaseName(prog);
    ShellsEndInH(base);
    assert prog[|prog| - |base|..][|base| - 1] == prog[|prog| - 1];
  }

  /** The flag's text inside the program's name ends before the name does. */
  lemma FlagInsideName(prog: string, flag: string, i: nat)
    requires prog != [] && prog[|prog| - 1] == 'h' && flag != [] && flag[|flag| - 1] == 'c' && HasAt(prog, flag, i)
    ensures i + |flag| < |prog|
  {
    LastOfSub(prog, flag, i);
  }

  lemma LastOfSub(s: string, sub: string, i: nat)
    requires HasAt(s, sub, i) && sub != []
    ensures s[i + |sub| - 1] == sub[|sub| - 1]
  {
    assert s[i..i + |sub|][|sub| - 1] == s[i + |sub| - 1];
  }

  lemma {:induction false} TrimStartKeepsFirst(s: string)
    requires s != [] && !IsSpace(s[0])
    ensures Trim(s) != [] && Trim(s)[0] == s[0]
    decreases |s|
  {
    TrimEndKeepsFirst(s);
  }

  lemma {:induction false} TrimEndKeepsFirst(s: string)
    requires s != [] && !IsSpace(s[0])
    ensures TrimEnd(s) != [] && TrimEnd(s)[0] == s[0]
  {
    if IsSpace(s[|s| - 1]) { TrimEndKeepsFirst(s[..|s| - 1]); }
  }

  lemma NotQuoted(cmd: string, rest: string)
    requires ShellCScript(cmd) == Some(rest) && rest != [] && !IsQuote(rest[0])
    ensures Unwrap(cmd) == cmd
  {
  }

  /** The text after a flag found inside the program's name starts with the rest of that name. */
  lemma AfterName(prog: string, tail: string, j: nat)
    requires IsShellName(prog) && j < |prog|
    ensures var rest := Trim((prog + tail)[j..]); rest != [] && !IsQuote(rest[0])
  {
    var s := (prog + tail)[j..];
    assert s[0] == prog[j] && prog[j] in prog && IsOrdinary(prog[j]);
    TrimStartKeepsFirst(s);
  }

  lemma WrongPlace(prog: string, gap: string, flag: string, rest: string, i: nat, cmd: string)
    requires IsShellName(prog) && IsFlagWord(flag) && IsGap(gap) && rest != [] && IsSpace(rest[0])
    requires cmd == prog + (gap + (flag + rest)) && FindFirst(cmd, flag) == Some(i) && i + |flag| < |prog|
    ensures Unwrap(cmd) == cmd
  {
    PartsStart(prog, gap, flag, rest);
    AfterName(prog, gap + (flag + rest), i + |flag|);
    ScriptIs(cmd, prog, flag, i, Trim(cmd[i + |flag|..]));
    NotQuoted(cmd, Trim(cmd[i + |flag|..]));
  }

  /** Unwrapping a wrapper gives back its script, whatever the script says, unless the program's
      name holds the flag's text; then it gives back the whole command. */
  lemma UnwrapExactly(v: Wrapper)
    requires v.Shaped()
    ensures Unwrap(v.Render()) == if Contains(v.prog, v.flag) then v.Render() else v.script
  {
    if Contains(v.prog, v.flag) {
      var i := FlagInName(v.prog, v.flag, v.gap1 + (v.flag + (v.gap2 + v.Quoted())));
      assert v.gap2[0] in v.gap2;
      WrongPlace(v.prog, v.gap1, v.flag, v.gap2 + v.Quoted(), i, v.Render());
    } else {
      ScriptOfWrapper(v);
    }
  }

  lemma FlagInName(prog: string, flag: string, rest: string) returns (i: nat)
    requires IsShellName(prog) && IsFlagWord(flag) && Contains(prog, flag)
    ensures FindFirst(prog + rest, flag) == Some(i) && i + |flag| < |prog|
  {
    var k: nat :| k <= |prog| && HasAt(prog, flag, k);
    ProgramEndsInH(prog);
    FlagInsideName(prog, flag, k);
    HasAtPrefix(prog, rest, flag, k);
    FindFirstReaches(prog + rest, flag, k);
    i := FindFirst(prog + rest, flag).value;
  }

  lemma HasAtPrefix(a: string, b: string, sub: string, k: nat)
    requires HasAt(a, sub, k)
    ensures HasAt(a + b, sub, k)
  {
    assert (a + b)[k..k + |sub|] == a[k..k + |sub|];
  }

  // ----- a wrapper as text -----

  /** What the scans of a text look for, from a quote state. */
  datatype Scan = Scan(uncut: bool, after: Option<char>, grouping: bool, noEscape: bool)

  ghost function ScanOf(seps: seq<string>, s: string, q: Option<char>): Scan {
    Scan(Uncut(seps, s, q), QuoteAfter(s, q), HasGrouping(s, q), NoEscape(s, q))
  }

  /** A character no scan stops at, and no separator starts with. */
  predicate IsInert(seps: seq<string>, c: char) {
    !IsQuote(c) && !IsGrouping(c) && c != '\\' && forall x :: x in seps ==> x != [] && x[0] != c
  }

  lemma InertStep(seps: seq<string>, s: string)
    requires s != [] && IsInert(seps, s[0])
    ensures ScanOf(seps, s, None) == ScanOf(seps, s[1..], None)
  {
    InertIsNotCut(seps, s);
  }

  lemma InertIsNotCut(seps: seq<string>, s: string)
    requires s != [] && IsInert(seps, s[0])
    ensures MatchLen(seps, s) == 0
  {
    assert forall n :: 0 < n <= |s| ==> s[..n][0] == s[0];
  }

  lemma {:induction false} InertPrefix(seps: seq<string>, a: string, b: string)
    requires forall c :: c in a ==> IsInert(seps, c)
    ensures ScanOf(seps, a + b, None) == ScanOf(seps, b, None)
  {
    if a == [] {
      assert a + b == b;
    } else {
      assert (a + b)[0] == a[0] && (a + b)[1..] == a[1..] + b;
      InertStep(seps, a + b);
      InertPrefix(seps, a[1..], b);
    }
  }

  /** Inside quotes nothing is cut or grouped; whether anything is escaped is the text's own affair. */
  lemma {:induction false} InsideQuotes(seps: seq<string>, x: string, q: char)
    requires IsQuote(q) && q !in x
    ensures ScanOf(seps, x + [q], Some(q)) == Scan(true, None, false, NoEscape(x + [q], Some(q)))
  {
    var s := x + [q];
    if x == [] {
      assert s == [q] && s[1..] == [];
      assert Uncut(seps, s, Some(q)) && QuoteAfter(s, Some(q)) == None && !HasGrouping(s, Some(q));
    } else {
      assert s[0] == x[0] && s[1..] == x[1..] + [q];
      InsideQuotes(seps, x[1..], q);
    }
  }

  /** Text that is literal in its quotes escapes nothing there. */
  lemma {:induction false} LiteralEscapesNothing(x: string, q: char)
    requires LiteralIn(q, x)
    ensures NoEscape(x + [q], Some(q))
  {
    var s := x + [q];
    if x == [] {
      assert s == [q] && s[1..] == [];
    } else {
      assert s[0] == x[0] && s[1..] == x[1..] + [q];
      LiteralEscapesNothing(x[1..], q);
    }
  }

  predicate AreOperators(seps: seq<string>) {
    SepsOk(seps) && forall x :: x in seps ==> x != [] && (IsSpecial(x[0]) || x[0] == '#')
  }

  lemma QuotedScan(seps: seq<string>, v: Wrapper)
    requires v.Shaped() && AreOperators(seps)
    ensures ScanOf(seps, v.Quoted(), None) == Scan(true, None, false, NoEscape(v.Quoted(), None))
  {
    var s := v.Quoted();
    assert s[0] == v.quote && s[1..] == v.script + [v.quote];
    InsideQuotes(seps, v.script, v.quote);
    QuoteIsNotCut(seps, s);
  }

  lemma QuoteIsNotCut(seps: seq<string>, s: string)
    requires s != [] && IsQuote(s[0]) && AreOperators(seps)
    ensures MatchLen(seps, s) == 0
  {
    assert forall n :: 0 < n <= |s| ==> s[..n][0] == s[0];
  }

  lemma InertWord(seps: seq<string>, t: string)
    requires AreOperators(seps) && AllOrdinary(t) && '#' !in t
    ensures forall c :: c in t ==> IsInert(seps, c)
  {
    forall c | c in t ensures IsInert(seps, c) { assert IsOrdinary(c); }
  }

  lemma InertGap(seps: seq<string>, gap: string)
    requires AreOperators(seps) && IsGap(gap)
    ensures forall c :: c in gap ==> IsInert(seps, c)
  {
  }

  /** To every scan a wrapper is one quoted piece of text. */
  lemma WrapperScan(seps: seq<string>, v: Wrapper)
    requires v.Shaped() && AreOperators(seps)
    ensures ScanOf(seps, v.Render(), None) == Scan(true, None, false, NoEscape(v.Quoted(), None))
  {
    InertWord(seps, v.prog);
    InertWord(seps, v.flag);
    InertGap(seps, v.gap1);
    InertGap(seps, v.gap2);
    InertPrefix(seps, v.prog, v.gap1 + (v.flag + (v.gap2 + v.Quoted())));
    InertPrefix(seps, v.gap1, v.flag + (v.gap2 + v.Quoted()));
    InertPrefix(seps, v.flag, v.gap2 + v.Quoted());
    InertPrefix(seps, v.gap2, v.Quoted());
    QuotedScan(seps, v);
  }

  lemma WrapperIsTrimmed(v: Wrapper)
    requires v.Shaped()
    ensures Trim(v.Render()) == v.Render() && v.Render() != []
  {
    RenderEnds(v);
    TrimmedByEnds(v.Render());
  }

  lemma RenderEnds(v: Wrapper)
    requires v.Shaped()
    ensures var s := v.Render(); s != [] && !IsSpace(s[0]) && !IsSpace(s[|s| - 1])
  {
    var s := v.Render();
    assert v.prog[0] in v.prog && s[0] == v.prog[0];
    assert s[|s| - 1] == v.quote;
  }

  lemma TrimmedByEnds(s: string)
    requires s != [] && !IsSpace(s[0]) && !IsSpace(s[|s| - 1])
    ensures Trim(s) == s
  {
  }

  lemma OperatorSets()
    ensures AreOperators(["||"]) && AreOperators(["#"]) && AreOperators(["&"]) && AreOperators(["|"])
    ensures AreOperators(["&&"]) && AreOperators([";", "\n"])
  {
    assert [";", "\n"][1..] == ["\n"];
  }

  lemma UncutLinks(seps: seq<string>, s: string)
    requires Uncut(seps, s, None) && Trim(s) == s && s != []
    ensures NonEmpty(Pieces(seps, s, None)) == [s]
  {
    OneLink(seps, s);
  }

  /** A wrapper is one list of one link, with nothing in it that changes the shell. */
  lemma WrapperIsOneLink(v: Wrapper)
    requires v.Shaped()
    ensures SeqLists(v.Render()) == [v.Render()] && AndLinks(v.Render()) == [v.Render()]
    ensures Pieces(["|"], v.Render(), None) == [v.Render()] && !MayChange(v.Render())
  {
    var s := v.Render();
    OperatorSets();
    WrapperIsTrimmed(v);
    WrapperScan([";", "\n"], v);
    UncutLinks([";", "\n"], s);
    WrapperScan(["&&"], v);
    UncutLinks(["&&"], s);
    WrapperScan(["|"], v);
    UncutIsOnePiece(["|"], s, None);
    WrapperKeepsShell(v);
    OneStageKeepsShell(s);
  }

  lemma RenderChars(v: Wrapper, c: char)
    requires v.Shaped() && c in v.Render() && IsSpace(c)
    ensures IsBlank(c) || c in v.script
  {
  }

  /** A wrapper is in the modelled fragment when its script's whitespace is, and nothing in its
      quotes is escaped. */
  lemma WrapperIsModelled(v: Wrapper)
    requires v.Shaped() && OnlyShellSpace(v.script) && NoEscape(v.Quoted(), None)
    ensures Modelled(v.Render())
  {
    var s := v.Render();
    OperatorSets();
    WrapperScan(["||"], v);
    WrapperScan(["#"], v);
    WrapperScan(["&"], v);
    WrapperScan(["&&"], v);
    UncutIsOnePiece(["&&"], s, None);
    forall c | c in s && IsSpace(c) ensures IsBlank(c) || c == '\n' { RenderChars(v, c); }
  }

  lemma WrapperRunsAlone(w: World, v: Wrapper, st: State)
    requires v.Shaped() && Modelled(v.Render())
    ensures ExecText(w, v.Render(), st) == ExecLink(w, v.Render(), st)
  {
    WrapperIsOneLink(v);
    OneListRuns(w, v.Render(), v.Render(), st);
  }

  // ----- running it -----

  /** A wrapper whose script is literal in its quotes does, to the files and in its status, what the
      script does, and shows the same. */
  lemma WrapperRunsScript(w: World, v: Wrapper, st: State)
    requires v.Valid() && OnlyShellSpace(v.script) && st.intact
    ensures var o, i := ExecText(w, v.Render(), st), ExecText(w, v.script, st);
            o.status == i.status && o.state.files == i.state.files && AllShown(o.trace) == AllShown(i.trace)
  {
    LiteralHasNoEscape(v);
    WrapperIsModelled(v);
    WrapperIsTrimmed(v);
    WrapperLexes(v);
    WrapperKeepsShell(v);
    CallTextRuns(w, v.Render(), st, [v.prog, v.flag, v.script]);
  }

  lemma LexedIsOneLink(s: string)
    requires Lex(s).Some? && Trim(s) == s && s != []
    ensures SeqLists(s) == [s] && AndLinks(s) == [s]
  {
    LexScan([";", "\n"], s);
    LexScan(["&&"], s);
    UncutLinks([";", "\n"], s);
    UncutLinks(["&&"], s);
  }

  lemma LexedKeepsShell(s: string)
    requires Lex(s).Some? && !CommandChanges(CommandOf(s))
    ensures ParseLink(s) == Simple(Lex(s).value) && !MayChange(s)
  {
    LexedParses(s);
    LexedIsOneStage(s);
    OneStageKeepsShell(s);
  }

  /** A text whose words are a shell call does what the script word says, and shows the same. */
  lemma CallTextRuns(w: World, s: string, st: State, words: seq<string>)
    requires Modelled(s) && Trim(s) == s && s != [] && st.intact
    requires Lex(s) == Some(words) && IsShellCall(words) && !CommandChanges(CommandOf(s))
    ensures var o, i := ExecText(w, s, st), ExecText(w, words[2], st);
            o.status == i.status && o.state.files == i.state.files && AllShown(o.trace) == AllShown(i.trace)
  {
    LexedIsOneLink(s);
    LexedKeepsShell(s);
    OneListRuns(w, s, s, st);
    CallRuns(w, s, st, words);
  }

  lemma CallRuns(w: World, link: string, st: State, words: seq<string>)
    requires !MayChange(link) && st.intact && ParseLink(link) == Simple(words) && IsShellCall(words)
    ensures var o, i := ExecLink(w, link, st), ExecText(w, words[2], st);
            o.status == i.status && o.state.files == i.state.files && AllShown(o.trace) == AllShown(i.trace)
  {
    ExecShellCall(w, link, st, words);
    OneTrace(ExecLink(w, link, st));
  }

  lemma LiteralHasNoEscape(v: Wrapper)
    requires v.Valid()
    ensures NoEscape(v.Quoted(), None)
  {
    QuotedEscapesNothing(v.quote, v.script);
  }

  lemma QuotedEscapesNothing(q: char, x: string)
    requires LiteralIn(q, x)
    ensures NoEscape([q] + x + [q], None)
  {
    var s := [q] + x + [q];
    assert s[0] == q && s[1..] == x + [q];
    LiteralEscapesNothing(x, q);
  }

  lemma {:induction false} ExpandsInQuotes(x: string)
    requires '"' !in x && !LiteralText(x)
    ensures LexWord(x + ['"'], Some('"')).None?
  {
    var s := x + ['"'];
    assert s[0] == x[0] && s[1..] == x[1..] + ['"'];
    if !ExpandsAt(s) { ExpandsInQuotes(x[1..]); }
  }

  lemma {:induction false} LexSkipsTo(gap: string, rest: string)
    requires (forall c :: c in gap ==> IsBlank(c)) && Lex(rest).None?
    ensures Lex(gap + rest).None?
  {
    LexSkipBlanks(gap, rest);
  }

  lemma LexTailFails(t: string, gap: string, rest: string)
    requires BareWord(t) && IsGap(gap) && Lex(rest).None?
    ensures Lex(t + (gap + rest)).None?
  {
    assert gap[0] in gap && (gap + rest)[0] == gap[0];
    LexPlainWord(t, gap + rest);
    LexSkipsTo(gap, rest);
    assert (t + (gap + rest))[0] == t[0];
  }

  lemma NotLiteralFails(v: Wrapper)
    requires v.Shaped() && !LiteralIn(v.quote, v.script)
    ensures Lex(v.Render()).None?
  {
    QuotedFails(v.quote, v.script);
    LexTailFails(v.flag, v.gap2, v.Quoted());
    LexTailFails(v.prog, v.gap1, v.flag + (v.gap2 + v.Quoted()));
  }

  lemma QuotedFails(q: char, x: string)
    requires IsQuote(q) && q !in x && !LiteralIn(q, x)
    ensures Lex([q] + x + [q]).None?
  {
    var s := [q] + x + [q];
    ExpandsInQuotes(x);
    assert s[0] == q && s[1..] == x + [q];
  }

  lemma ShellIsNoUtility(words: seq<string>, files: Files, blanks: bool)
    requires words != [] && BaseName(words[0]) in SHELLS
    ensures Utility(words, files, blanks).None?
  {
    ShellNames(BaseName(words[0]));
    assert BaseName("echo") == "echo";
    if words[0] == "echo" { NotAShell("echo"); }
  }

  lemma ExecOther(w: World, link: string, st: State)
    requires !MayChange(link) && st.intact && ParseLink(link).Other?
    ensures ExecLink(w, link, st) == Program(w, link, st)
  {
  }

  lemma ExecUnknown(w: World, link: string, st: State, words: seq<string>)
    requires !MayChange(link) && st.intact && ParseLink(link) == Simple(words)
    requires !IsShellCall(words) && Utility(words, st.files, w.blanks).None?
    ensures ExecLink(w, link, st) == Program(w, link, st)
  {
  }

  lemma UnlexedParses(link: string)
    requires Lex(link).None? && Pieces(["|"], link, None) == [link]
    ensures ParseLink(link) == Other
  {
  }

  /** Any other wrapper is, to the model, a program of its own: the outer shell changes the text
      before it runs, or the flag does not say to run it. */
  lemma WrapperIsAProgram(w: World, v: Wrapper, st: State)
    requires v.Shaped() && !v.Literal() && st.intact
    ensures ExecLink(w, v.Render(), st) == Program(w, v.Render(), st)
  {
    if LiteralIn(v.quote, v.script) { FlagIsNotCall(w, v, st); } else { ScriptIsExpanded(w, v, st); }
  }

  lemma FlagIsNotCall(w: World, v: Wrapper, st: State)
    requires v.Shaped() && LiteralIn(v.quote, v.script) && !RunsScript(v.flag, v.script) && st.intact
    ensures ExecLink(w, v.Render(), st) == Program(w, v.Render(), st)
  {
    LiteralParses(v);
    UnflaggedRuns(w, v.Render(), st, [v.prog, v.flag, v.script]);
  }

  lemma ScriptIsExpanded(w: World, v: Wrapper, st: State)
    requires v.Shaped() && !LiteralIn(v.quote, v.script) && st.intact
    ensures ExecLink(w, v.Render(), st) == Program(w, v.Render(), st)
  {
    ExpandedParses(v);
    ExecOther(w, v.Render(), st);
  }

  lemma UnflaggedRuns(w: World, link: string, st: State, words: seq<string>)
    requires !MayChange(link) && st.intact && ParseLink(link) == Simple(words) && !IsShellCall(words)
    requires words != [] && BaseName(words[0]) in SHELLS
    ensures ExecLink(w, link, st) == Program(w, link, st)
  {
    ShellIsNoUtility(words, st.files, w.blanks);
    ExecUnknown(w, link, st, words);
  }

  lemma ExpandedParses(v: Wrapper)
    requires v.Shaped() && !LiteralIn(v.quote, v.script)
    ensures ParseLink(v.Render()) == Other && !MayChange(v.Render())
  {
    WrapperIsOneLink(v);
    NotLiteralFails(v);
    UnlexedParses(v.Render());
  }
}
