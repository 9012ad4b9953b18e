/** The credit rules of `codex.rs` are sound: what the parsers credit from the text of a command
    that exited zero is what its links really showed, under `ShellSemantics`. */
module ReadSoundness {
  import opened Text
  import opened ShellSplit
  import opened ReadParser
  import opened ShellSemantics
  import opened Delivery

  // ----- plain links: text whose words mean what they say -----

  predicate IsOrdinary(c: char) { !IsSpecial(c) && !IsQuote(c) && !IsBlank(c) }

  predicate AllOrdinary(t: string) { forall c :: c in t ==> IsOrdinary(c) }

  predicate BareWord(t: string) { t != [] && !HidesWord(t[0]) && AllOrdinary(t) }

  /** Between double quotes the text means itself: the last character has the closing quote after it. */
  predicate LiteralText(x: string) { x == [] || (!ExpandsAt(x + ['"']) && LiteralText(x[1..])) }

  /** What may stand between the quotes `q` and mean itself. */
  predicate LiteralIn(q: char, x: string) {
    IsQuote(q) && q !in x && (q == '"' ==> LiteralText(x))
  }

  predicate QuotedWord(t: string) {
    |t| >= 2 && t[0] == t[|t| - 1] && LiteralIn(t[0], Inner(t))
  }

  predicate PlainWord(t: string) { BareWord(t) || QuotedWord(t) }

  /** One stage of a command: blanks between plain words, the program a bare word that assigns
      nothing. */
  predicate PlainStage(s: string) {
    && (forall c :: c in s ==> (IsSpace(c) ==> IsBlank(c)))
    && (forall t :: t in Words(s) ==> PlainWord(t))
    && Words(s) != [] && BareWord(Words(s)[0]) && '=' !in Words(s)[0]
  }

  predicate IsGap(gap: string) { gap != [] && forall c :: c in gap ==> IsBlank(c) }

  predicate IsShellName(prog: string) {
    BareWord(prog) && BaseName(prog) in SHELLS && '=' !in prog && '#' !in prog && NoSpace(prog)
  }

  predicate IsFlagWord(flag: string) { BareWord(flag) && IsShellFlag(flag) && '#' !in flag && NoSpace(flag) }

  /** `SHELL FLAG SCRIPT` as text, the script in one pair of quotes. */
  datatype Wrapper = Wrapper(prog: string, gap1: string, flag: string, gap2: string, quote: char, script: string) {
    /** The text has the shape `unwrap_shell_wrapper` looks for. */
    predicate Shaped() {
      IsShellName(prog) && IsFlagWord(flag) && IsGap(gap1) && IsGap(gap2) && IsQuote(quote) && quote !in script
    }
    /** The shell runs the script as it stands: nothing in it is expanded first, and the flag says
        to run it. */
    predicate Literal() { LiteralIn(quote, script) && RunsScript(flag, script) }
    predicate Valid() { Shaped() && Literal() }
    function Quoted(): string { [quote] + script + [quote] }
    function Render(): string { prog + (gap1 + (flag + (gap2 + Quoted()))) }
  }

  ghost predicate WrapperOf(link: string, script: string) {
    exists w: Wrapper :: w.Valid() && w.script == script && w.Render() == link
  }

  /** A link as the read parsers get it, trimmed: plain stages, or one shell call whose script is
      a modelled plain stage and no further shell call. */
  ghost predicate PlainLink(link: string) {
    && Trim(link) == link
    && if Unwrap(link) == link then forall s :: s in SplitOn(link, '|') ==> PlainStage(s)
       else var u := Unwrap(link);
            WrapperOf(link, u) && Modelled(u) && PlainStage(u) && '|' !in u && Unwrap(Trim(u)) == Trim(u)
  }

  /** The link, or the script its shell call runs, is not a pipeline. */
  predicate NotPiped(link: string) { '|' !in Unwrap(link) }

  // ----- the lexer on plain words -----

  predicate EndsWord(rest: string) { rest == [] || IsBlank(rest[0]) }

  lemma {:induction false} LexBare(t: string, rest: string)
    requires EndsWord(rest) && AllOrdinary(t)
    ensures LexWord(t + rest, None) == Some((t, rest))
  {
    if t == [] {
      assert t + rest == rest;
    } else {
      assert (t + rest)[1..] == t[1..] + rest;
      assert [t[0]] + t[1..] == t && IsOrdinary(t[0]);
      LexBare(t[1..], rest);
    }
  }

  lemma {:induction false} LexInQuote(x: string, q: char, rest: string)
    requires EndsWord(rest) && LiteralIn(q, x)
    ensures LexWord(x + [q] + rest, Some(q)) == Some((x, rest))
  {
    var s := x + [q] + rest;
    if x == [] {
      assert s[1..] == rest;
      LexBare([], rest);
      assert [] + rest == rest;
    } else {
      assert s[1..] == x[1..] + [q] + rest;
      assert [x[0]] + x[1..] == x;
      LexInQuote(x[1..], q, rest);
    }
  }

  lemma LexQuotedWord(t: string, rest: string)
    requires PlainWord(t) && !BareWord(t) && EndsWord(rest)
    ensures LexWord(t + rest, None) == Some((StripQuotes(t), rest))
  {
    var q := t[0];
    assert StripQuotes(t) == Inner(t);
    assert t == [q] + Inner(t) + [q];
    assert (t + rest)[0] == q && (t + rest)[1..] == Inner(t) + [q] + rest;
    LexInQuote(Inner(t), q, rest);
  }

  lemma LexPlainWord(t: string, rest: string)
    requires PlainWord(t) && EndsWord(rest)
    ensures LexWord(t + rest, None) == Some((StripQuotes(t), rest))
    ensures !HidesWord(t[0]) && !IsBlank(t[0])
  {
    if BareWord(t) {
      BareIsUnquoted(t);
      LexBare(t, rest);
    } else {
      LexQuotedWord(t, rest);
    }
  }

  function UnquoteAll(ws: seq<string>): (u: seq<string>)
    ensures |u| == |ws| && forall i :: 0 <= i < |ws| ==> u[i] == StripQuotes(ws[i])
  {
    seq(|ws|, i requires 0 <= i < |ws| => StripQuotes(ws[i]))
  }

  lemma UnquoteCons(t: string, ws: seq<string>)
    ensures UnquoteAll([t] + ws) == [StripQuotes(t)] + UnquoteAll(ws)
  {
  }

  lemma {:induction false} SkipGap(gap: string, x: string)
    requires forall c :: c in gap ==> IsBlank(c)
    ensures Words(gap + x) == Words(x)
    ensures x != [] && !IsSpace(x[0]) ==> TrimStart(gap + x) == x
  {
    if gap == [] {
      assert gap + x == x;
    } else {
      assert gap[0] in gap && (gap + x)[0] == gap[0];
      assert (gap + x)[1..] == gap[1..] + x;
      SkipGap(gap[1..], x);
    }
  }

  /** On plain words, splitting at whitespace and stripping quotes is what the shell does. */
  lemma {:induction false} LexPlain(s: string)
    requires forall c :: c in s ==> (IsSpace(c) ==> IsBlank(c))
    requires forall t :: t in Words(s) ==> PlainWord(t)
    ensures Lex(s) == Some(UnquoteAll(Words(s)))
    decreases |s|
  {
    if s == [] {
    } else {
      if IsSpace(s[0]) {
        LexPlain(s[1..]);
      } else {
        var n := WordLen(s);
        var t, rest := s[..n], s[n..];
        assert s == t + rest && Words(s) == [t] + Words(rest) && t in Words(s);
        assert n < |s| ==> s[n] in s && rest[0] == s[n];
        LexPlainWord(t, rest);
        LexPlain(rest);
        UnquoteCons(t, Words(rest));
      }
    }
  }

  /** Text the lexer takes holds no unquoted operator and no unquoted grouping. */
  lemma {:induction false} LexWordScan(seps: seq<string>, s: string, q: Option<char>)
    requires forall x :: x in seps ==> x != [] && IsSpecial(x[0])
    requires LexWord(s, q).Some?
    ensures var rest := LexWord(s, q).value.1;
            && EndsWord(rest)
            && (Uncut(seps, rest, None) ==> Uncut(seps, s, q))
            && (HasGrouping(s, q) ==> HasGrouping(rest, None))
  {
    if s != [] && !(q.None? && IsBlank(s[0])) {
      LexWordScan(seps, s[1..], StepQuote(q, s[0]));
      OrdinaryIsNotCut(seps, s);
    }
  }

  lemma OrdinaryIsNotCut(seps: seq<string>, s: string)
    requires forall x :: x in seps ==> x != [] && IsSpecial(x[0])
    requires s != []
    ensures MatchLen(seps, s) > 0 ==> IsSpecial(s[0])
  {
    var n := MatchLen(seps, s);
    if n > 0 { assert s[..n][0] == s[0]; }
  }

  lemma {:induction false} LexScan(seps: seq<string>, s: string)
    requires forall x :: x in seps ==> x != [] && IsSpecial(x[0])
    requires Lex(s).Some?
    ensures Uncut(seps, s, None) && !HasGrouping(s, None)
    decreases |s|
  {
    if s == [] {
    } else {
      OrdinaryIsNotCut(seps, s);
      if IsBlank(s[0]) {
        LexScan(seps, s[1..]);
      } else {
        LexWordScan(seps, s, None);
        LexScan(seps, LexWord(s, None).value.1);
      }
    }
  }

  // ----- what a plain stage is to the shell -----

  predicate KnownProgram(word: string) {
    || BaseName(word) == "cat" || BaseName(word) == "nl" || BaseName(word) == "sed"
    || BaseName(word) in SHELLS || word == "echo"
  }

  /** Not a path, and not the name of a reader, a shell or `echo`. */
  predicate IsOther(w: string) {
    '/' !in w && w != "cat" && w != "nl" && w != "sed" && w != "echo" && w !in SHELLS
  }

  lemma PosixBuiltinsAreOther(w: string) requires w in POSIX_BUILTINS ensures IsOther(w) {}
  lemma PosixIntrinsicsAreOther(w: string) requires w in POSIX_INTRINSICS ensures IsOther(w) {}
  lemma BashBuiltinsAreOther(w: string) requires w in BASH_BUILTINS ensures IsOther(w) {}
  lemma KshBuiltinsAreOther(w: string) requires w in KSH_BUILTINS ensures IsOther(w) {}
  lemma ZshBuiltinsAreOther(w: string) requires w in ZSH_BUILTINS ensures IsOther(w) {}
  lemma ZshModifiersAreOther(w: string) requires w in ZSH_MODIFIERS ensures IsOther(w) {}
  lemma ReservedAreOther(w: string) requires w in RESERVED ensures IsOther(w) {}
  lemma ReservedTooAreOther(w: string) requires w in RESERVED_TOO ensures IsOther(w) {}

  lemma ChangersAreOther(w: string)
    requires IsChanger(w) || IsReserved(w)
    ensures IsOther(w)
  {
    if w in POSIX_BUILTINS { PosixBuiltinsAreOther(w); }
    else if w in POSIX_INTRINSICS { PosixIntrinsicsAreOther(w); }
    else if w in BASH_BUILTINS { BashBuiltinsAreOther(w); }
    else if w in KSH_BUILTINS { KshBuiltinsAreOther(w); }
    else if w in ZSH_BUILTINS { ZshBuiltinsAreOther(w); }
    else if w in ZSH_MODIFIERS { ZshModifiersAreOther(w); }
    else if w in RESERVED { ReservedAreOther(w); }
    else { ReservedTooAreOther(w); }
  }

  lemma OtherIsNotKnown(w: string)
    requires IsOther(w)
    ensures !KnownProgram(w)
  {
  }

  lemma KnownIsNoChanger(word: string)
    requires KnownProgram(word)
    ensures !IsChanger(word) && !IsReserved(word)
  {
    if IsChanger(word) || IsReserved(word) {
      ChangersAreOther(word);
      OtherIsNotKnown(word);
      assert false;
    }
  }

  lemma KnownKeepsShell(word: string)
    requires KnownProgram(word) && '=' !in word
    ensures !CommandChanges(Literal(word, true))
  {
    KnownIsNoChanger(word);
  }

  /** The command word of a text that starts with a bare word. */
  lemma CommandOfBare(t: string, rest: string)
    requires BareWord(t) && EndsWord(rest)
    ensures CommandOf(t + rest) == Literal(t, true)
  {
    BareIsUnquoted(t);
    LexBare(t, rest);
    assert (t + rest)[0] == t[0];
  }

  lemma {:induction false} CommandOfPlain(s: string)
    requires forall c :: c in s ==> (IsSpace(c) ==> IsBlank(c))
    requires Words(s) != [] && BareWord(Words(s)[0])
    ensures CommandOf(s) == Literal(Words(s)[0], true)
    decreases |s|
  {
    if IsSpace(s[0]) {
      CommandOfPlain(s[1..]);
    } else {
      var n := WordLen(s);
      assert n < |s| ==> s[n] in s;
      CommandOfBare(s[..n], s[n..]);
      assert s == s[..n] + s[n..];
    }
  }

  lemma PlainStageLexes(s: string)
    requires PlainStage(s)
    ensures Lex(s) == Some(UnquoteAll(Words(s)))
    ensures ParseLink(s) == Simple(UnquoteAll(Words(s)))
    ensures UnquoteAll(Words(s))[0] == Words(s)[0]
  {
    LexPlain(s);
    LexedParses(s);
    BareIsUnquoted(Words(s)[0]);
  }

  /** A link whose stages all have unchanging command words, and that groups nothing. */
  lemma StagesKeepShell(link: string, stages: seq<string>)
    requires Pieces(["|"], link, None) == stages && !HasGrouping(link, None)
    requires forall p :: p in stages ==> !CommandChanges(CommandOf(p))
    ensures !MayChange(link)
  {
  }

  lemma OneStageKeepsShell(link: string)
    requires Pieces(["|"], link, None) == [link] && !HasGrouping(link, None) && !CommandChanges(CommandOf(link))
    ensures !MayChange(link)
  {
    StagesKeepShell(link, [link]);
  }

  lemma KnownStage(s: string)
    requires PlainStage(s) && KnownProgram(Words(s)[0])
    ensures !CommandChanges(CommandOf(s))
  {
    CommandOfPlain(s);
    KnownKeepsShell(Words(s)[0]);
  }

  lemma PlainStageKeepsShell(s: string)
    requires PlainStage(s) && KnownProgram(Words(s)[0])
    ensures !MayChange(s)
  {
    PlainStageText(s);
    KnownStage(s);
    OneStageKeepsShell(s);
  }

  lemma BareIsUnquoted(t: string)
    requires BareWord(t)
    ensures StripQuotes(t) == t && !IsBlank(t[0])
  {
    assert t[0] in t && IsOrdinary(t[0]);
  }

  lemma FlagIsBare(t: string)
    requires PlainWord(t) && IsFlag(t)
    ensures StripQuotes(t) == t
  {
    if BareWord(t) { BareIsUnquoted(t); }
  }

  lemma {:induction false} OperandsUnquoted(args: seq<string>)
    requires PlainArgs(args)
    ensures Operands(UnquoteAll(args)) == UnquoteAll(Operands(args))
  {
    if args == [] {
    } else {
      var front, last := args[..|args| - 1], args[|args| - 1];
      OperandsUnquoted(front);
      assert last in args;
      if IsFlag(last) { FlagIsBare(last); }
      assert UnquoteAll(args)[..|args| - 1] == UnquoteAll(front);
      assert UnquoteAll(Operands(front) + [last]) == UnquoteAll(Operands(front)) + [StripQuotes(last)];
    }
  }

  predicate PlainArgs(args: seq<string>) {
    forall a :: a in args ==> PlainWord(a) && (IsFlag(a) || IsOperand(StripQuotes(a)))
  }

  lemma CatFlagIsOption(tok: string)
    requires tok in CAT_FLAGS
    ensures IsCatOption(tok)
  {
    assert |tok| == 2 && tok[1..] == [tok[1]] && tok[1] in "nbvet";
  }

  lemma NlFlagIsOption(tok: string)
    requires NlFlagKeepsLines(tok)
    ensures IsNlOption(tok)
  {
    if tok !in NL_FLAGS { WidthIsOption(tok, U32_MAX); }
  }

  lemma WidthIsOption(tok: string, max: nat)
    requires IsWidthFlag(tok) && IsPositive(tok[2..], max) && max <= U64_MAX
    ensures IsNlOption(tok)
  {
    assert tok[..2] == "-w";
  }

  predicate IsOption(base: string, tok: string) { if base == "cat" then IsCatOption(tok) else IsNlOption(tok) }

  /** The parser's vetted flags are options of the utilities that keep lines. */
  lemma VettedFlagIsOption(base: string, tok: string)
    requires FlagKeepsLines(base, tok)
    ensures IsOption(base, tok)
  {
    if base == "cat" { CatFlagIsOption(tok); } else { NlFlagIsOption(tok); }
  }

  lemma FlagsUnquoted(base: string, args: seq<string>)
    requires PlainArgs(args) && FlagsKeepLines(base, args)
    ensures forall a :: a in UnquoteAll(args) && IsFlag(a) ==> IsOption(base, a)
  {
    var u := UnquoteAll(args);
    forall a | a in u && IsFlag(a) ensures IsOption(base, a) {
      var i :| 0 <= i < |u| && u[i] == a;
      UnquotedFlag(args[i], args, base);
    }
  }

  lemma UnquotedFlag(t: string, args: seq<string>, base: string)
    requires t in args && PlainArgs(args) && FlagsKeepLines(base, args) && IsFlag(StripQuotes(t))
    ensures IsOption(base, StripQuotes(t))
  {
    assert IsFlag(t);
    FlagIsBare(t);
    VettedFlagIsOption(base, t);
  }

  lemma ReaderArgs(toks: seq<string>)
    requires ReaderOf(toks).Some? && AllPlainWords(toks)
    ensures PlainArgs(toks[1..])
  {
    var args := toks[1..];
    OperandsAre(args);
    forall a | a in args ensures PlainWord(a) && (IsFlag(a) || IsOperand(StripQuotes(a))) {
      if !IsFlag(a) { assert a in Operands(args); }
    }
  }

  lemma ReaderOperand(toks: seq<string>)
    requires ReaderOf(toks).Some? && AllPlainWords(toks)
    ensures Operands(UnquoteAll(toks[1..])) == [ReaderOf(toks).value.operand]
  {
    ReaderArgs(toks);
    OperandsUnquoted(toks[1..]);
    var ops := Operands(toks[1..]);
    assert UnquoteAll(ops) == [StripQuotes(ops[0])];
  }

  predicate AllPlainWords(toks: seq<string>) { forall t :: t in toks ==> PlainWord(t) }

  lemma ReaderIsReader(words: seq<string>, base: string)
    requires words != [] && BaseName(words[0]) == base && (base == "cat" || base == "nl") && Operands(words[1..]) != []
    requires forall a :: a in words[1..] && IsFlag(a) ==> IsOption(base, a)
    ensures IsReader(words)
  {
  }

  /** A credited reader is, to the shell, that reader on that one operand. */
  lemma ReaderWords(toks: seq<string>)
    requires ReaderOf(toks).Some? && BareWord(toks[0]) && AllPlainWords(toks)
    ensures var read, words := ReaderOf(toks).value, UnquoteAll(toks);
            && IsReader(words) && Operands(words[1..]) == [read.operand]
            && read.viaNl == (BaseName(words[0]) == "nl") && words[0] == toks[0]
  {
    var words, base := UnquoteAll(toks), BaseName(toks[0]);
    ReaderArgs(toks);
    ReaderOperand(toks);
    FlagsUnquoted(base, toks[1..]);
    BareIsUnquoted(toks[0]);
    assert words[1..] == UnquoteAll(toks[1..]);
    ReaderIsReader(words, base);
  }

  // ----- sed scripts -----

  /** The script starts with a sign: the parser reads a number, `sed` rejects it. */
  predicate StartsWithSign(script: string) {
    var inner := StripQuotes(script);
    inner != [] && inner[0] == '+'
  }

  /** The second address is relative: the parser reads `N,M`, `sed` prints `N` to `N + M`. */
  predicate HasRelativeEnd(script: string) {
    var inner := StripQuotes(script);
    var i := IndexOf(inner, ',');
    i + 1 < |inner| && inner[i + 1] == '+'
  }

  lemma {:induction false} IndexOfLast(s: string, c: char, d: char)
    requires c != d
    ensures IndexOf(s + [d], c) == if IndexOf(s, c) == |s| then |s| + 1 else IndexOf(s, c)
  {
    if s != [] && s[0] != c {
      assert (s + [d])[1..] == s[1..] + [d];
      IndexOfLast(s[1..], c, d);
    } else if s == [] {
      assert s + [d] == [d] && [d][1..] == [];
    }
  }

  /** What is printed against what is credited, given which addresses carry a sign. */
  predicate MeaningAgrees(m: SedMeaning, r: LineRange, sign: bool, relative: bool) {
    && !m.Unmodelled? && (m.Invalid? <==> sign)
    && (m.Prints? ==> Covers(m.window, r) && m.window.start == r.start)
    && (m.Prints? && relative ==> r.end.Some? && m.window.end == Some(r.start + r.end.value))
    && (m == Prints(r) <==> !sign && !relative)
  }

  lemma SecondAddressAgrees(start: nat, b: string, r: LineRange)
    requires start > 0 && r.start == start
    requires b == "$" || (ParseU64(b).Some? && start <= ParseU64(b).value)
    requires r.end == if b == "$" then None else ParseU64(b)
    ensures MeaningAgrees(SecondAddress(start, b), r, false, b[0] == '+')
  {
    if b != "$" {
      if b[0] == '+' {
        assert '+' in b && !AllDigits(b);
      }
    }
  }

  /** The window the parser credits against the window `sed` prints, for every accepted script:
      never more is credited than printed; a relative second address prints that many lines more;
      and the two are equal exactly when neither address carries a sign. */
  lemma SedAgrees(script: string)
    requires ParseSedPrintRange(script).Some?
    ensures MeaningAgrees(SedMeaningOf(StripQuotes(script)), ParseSedPrintRange(script).value,
                          StartsWithSign(script), HasRelativeEnd(script))
  {
    var inner := StripQuotes(script);
    BodyOfScript(script, inner);
    BodyAgrees(inner, inner[..|inner| - 1], ParseSedPrintRange(script).value);
  }

  lemma BodyOfScript(script: string, inner: string)
    requires inner == StripQuotes(script) && ParseSedPrintRange(script).Some?
    ensures inner != [] && inner == inner[..|inner| - 1] + ['p']
    ensures BodyRange(inner[..|inner| - 1], ParseSedPrintRange(script).value)
  {
  }

  /** The parser's reading of a script's text before the `p`. */
  predicate BodyRange(body: string, r: LineRange) {
    var i := IndexOf(body, ',');
    var start := ParseU64(body[..i]);
    && start == Some(r.start) && r.start > 0
    && if i < |body| && body[i + 1..] == "$" then r.end.None?
       else ParseU64(if i < |body| then body[i + 1..] else body) == r.end && r.end.Some? && r.start <= r.end.value
  }

  lemma UnsignedNumber(a: string)
    requires ParseU64(a).Some?
    ensures a != [] && (a[0] != '+' ==> AllDigits(a) && Decimal(a) == ParseU64(a).value)
  {
  }

  lemma MeaningOfBody(inner: string, body: string)
    requires inner == body + ['p']
    ensures SedMeaningOf(inner) == AddressesOf(body)
  {
    assert inner[..|inner| - 1] == body;
  }

  /** A script that is `p` after one address, and after two. */
  lemma OneAddress(inner: string, body: string)
    requires inner == body + ['p'] && IndexOf(body, ',') == |body|
    ensures SedMeaningOf(inner) == FirstAddress(body, None)
  {
    MeaningOfBody(inner, body);
    assert body[..|body|] == body;
  }

  lemma TwoAddresses(inner: string, body: string, i: nat)
    requires inner == body + ['p'] && i == IndexOf(body, ',') < |body|
    ensures SedMeaningOf(inner) == FirstAddress(body[..i], Some(body[i + 1..]))
  {
    MeaningOfBody(inner, body);
  }

  lemma OneAgrees(inner: string, body: string, r: LineRange)
    requires inner == body + ['p'] && IndexOf(body, ',') == |body|
    requires r.start > 0 && ParseU64(body) == Some(r.start) == r.end
    ensures MeaningAgrees(SedMeaningOf(inner), r, body[0] == '+', false)
  {
    UnsignedNumber(body);
    OneAddress(inner, body);
  }

  lemma TwoAgree(inner: string, body: string, i: nat, r: LineRange, b: string)
    requires inner == body + ['p'] && i == IndexOf(body, ',') < |body| && b == body[i + 1..]
    requires r.start > 0 && ParseU64(body[..i]) == Some(r.start)
    requires b == "$" || (ParseU64(b).Some? && r.start <= ParseU64(b).value)
    requires r.end == if b == "$" then None else ParseU64(b)
    ensures MeaningAgrees(SedMeaningOf(inner), r, body[0] == '+', b[0] == '+')
  {
    UnsignedNumber(body[..i]);
    TwoAddresses(inner, body, i);
    SecondAddressAgrees(r.start, b, r);
  }

  lemma BodyAgrees(inner: string, body: string, r: LineRange)
    requires inner == body + ['p'] && BodyRange(body, r)
    ensures var i := IndexOf(inner, ',');
            MeaningAgrees(SedMeaningOf(inner), r, inner[0] == '+', i + 1 < |inner| && inner[i + 1] == '+')
  {
    var i := IndexOf(body, ',');
    IndexOfLast(body, ',', 'p');
    if i < |body| {
      TwoAgree(inner, body, i, r, body[i + 1..]);
    } else {
      assert body[..i] == body;
      OneAgrees(inner, body, r);
    }
  }

  // ----- one link -----

  lemma ExecUtility(w: World, link: string, st: State, words: seq<string>, u: UtilityRun)
    requires !MayChange(link) && st.intact && ParseLink(link) == Simple(words)
    requires !IsShellCall(words) && Utility(words, st.files, w.blanks) == Some(u)
    ensures ExecLink(w, link, st) == Ran(link, st, u)
  {
  }

  /** The link ran alone, changed nothing, and did not end the shell. */
  ghost predicate RanQuietly(o: Outcome, link: string, st: State) {
    && o.state == st && !o.exited && |o.trace| == 1
    && o.trace[0].link == link && o.trace[0].before == st.files && o.trace[0].status == o.status
  }

  /** What a credited whole read shows. */
  function WholeShown(read: WholeRead, files: Files, blanks: bool): seq<Shown> {
    if read.operand !in files then []
    else
      var file := files[read.operand];
      [Shown(read.operand, file, if read.viaNl then NlLines(file, 1, blanks) else CatLines(|file|))]
  }

  function WholeRun(read: WholeRead, files: Files, blanks: bool): UtilityRun {
    UtilityRun(if read.operand in files then 0 else 1, WholeShown(read, files, blanks))
  }

  lemma ReaderUtility(words: seq<string>, files: Files, read: WholeRead, blanks: bool)
    requires IsReader(words) && Operands(words[1..]) == [read.operand] && read.viaNl == (BaseName(words[0]) == "nl")
    ensures Utility(words, files, blanks) == Some(WholeRun(read, files, blanks))
  {
    OneOperand(read.operand, files);
    ReadsOne(words[0], read.operand, files, blanks);
  }

  lemma OneOperand(op: string, files: Files)
    ensures (forall o :: o in [op] ==> o in files) <==> op in files
  {
    assert op in [op];
  }

  lemma ReadsOne(prog: string, op: string, files: Files, blanks: bool)
    ensures ReadEach(prog, [op], files, blanks)
         == if op in files then [Shown(op, files[op], ReaderLines(prog, files[op], blanks))] else []
  {
    assert [op][1..] == [];
  }

  /** Running a plain `cat` or `nl` link: it shows the file exactly when it succeeds. */
  lemma RunReader(w: World, link: string, st: State)
    requires st.intact && PlainStage(link) && ReaderOf(Words(link)).Some?
    ensures ExecLink(w, link, st) == Ran(link, st, WholeRun(ReaderOf(Words(link)).value, st.files, w.blanks))
  {
    var toks := Words(link);
    var words, read := UnquoteAll(toks), ReaderOf(toks).value;
    ReaderWords(toks);
    PlainStageLexes(link);
    PlainStageKeepsShell(link);
    ReaderUtility(words, st.files, read, w.blanks);
    NotAShell(words[0]);
    ExecUtility(w, link, st, words, Utility(words, st.files, w.blanks).value);
  }

  lemma NotAShell(word: string)
    requires BaseName(word) == "cat" || BaseName(word) == "nl" || BaseName(word) == "sed" || BaseName(word) == "echo"
    ensures BaseName(word) !in SHELLS
  {
    if BaseName(word) in SHELLS {
      ShellsEndInH(BaseName(word));
      assert false;
    }
  }

  lemma SedWords(stage: string)
    requires PlainStage(stage) && SedWithOperand(stage).Some?
    ensures var toks, words := Words(stage), UnquoteAll(Words(stage));
            && |toks| == 4 && KnownProgram(toks[0]) && IsSedOn(words) && words[3] == SedWithOperand(stage).value.1
            && words[2] == StripQuotes(toks[2]) && words[0] == toks[0]
  {
    var toks := Words(stage);
    SedAgrees(toks[2]);
    assert toks[1] in toks;
    FlagIsBare(toks[1]);
    BareIsUnquoted(toks[0]);
  }

  lemma SedUtility(words: seq<string>, files: Files, blanks: bool)
    requires IsSedOn(words)
    ensures var shown := SedShown(SedMeaningOf(words[2]), words[3], files);
            Utility(words, files, blanks) == Some(UtilityRun(if shown == [] then 1 else 0, shown))
    ensures !IsShellCall(words)
  {
  }

  /** Running a plain `sed -n` link: it shows the window `sed` reads in its script. */
  lemma RunSed(w: World, link: string, st: State)
    requires st.intact && PlainStage(link) && SedWithOperand(link).Some?
    ensures var op, m := SedWithOperand(link).value.1, SedMeaningOf(StripQuotes(Words(link)[2]));
            var shown := SedShown(m, op, st.files);
            ExecLink(w, link, st) == Ran(link, st, UtilityRun(if shown == [] then 1 else 0, shown))
  {
    var words := UnquoteAll(Words(link));
    SedWords(link);
    PlainStageLexes(link);
    PlainStageKeepsShell(link);
    SedUtility(words, st.files, w.blanks);
    ExecUtility(w, link, st, words, Utility(words, st.files, w.blanks).value);
  }

  /** Running a plain echo. */
  lemma RunEcho(w: World, link: string, st: State)
    requires st.intact && PlainStage(link) && IsInertEcho(link)
    ensures ExecLink(w, link, st) == Ran(link, st, UtilityRun(0, []))
  {
    PlainStageLexes(link);
    var words := UnquoteAll(Words(link));
    EchoUtility(words, st.files, w.blanks);
    PlainStageKeepsShell(link);
    ExecUtility(w, link, st, words, UtilityRun(0, []));
  }

  lemma EchoUtility(words: seq<string>, files: Files, blanks: bool)
    requires words != [] && words[0] == "echo"
    ensures Utility(words, files, blanks) == Some(UtilityRun(0, [])) && !IsShellCall(words)
  {
    assert BaseName("echo") == "echo";
    NotAShell(words[0]);
  }

  // ----- pipelines -----

  lemma {:induction false} BarSplits(a: string, b: string, q: Option<char>)
    requires '|' !in a && QuoteAfter(a, q).None?
    ensures Pieces(["|"], a + ['|'] + b, q) == [a] + Pieces(["|"], b, None)
  {
    var s := a + ['|'] + b;
    OneSeparator("|", s);
    if a == [] {
      assert s[1..] == b && "|" <= s;
    } else {
      assert s[1..] == a[1..] + ['|'] + b && [a[0]] + a[1..] == a;
      assert s[0] == a[0];
      BarSplits(a[1..], b, StepQuote(q, a[0]));
    }
  }

  lemma {:induction false} LexWordBalanced(s: string, q: Option<char>)
    requires LexWord(s, q).Some?
    ensures QuoteAfter(s, q) == QuoteAfter(LexWord(s, q).value.1, None)
  {
    if s != [] && !(q.None? && IsBlank(s[0])) { LexWordBalanced(s[1..], StepQuote(q, s[0])); }
  }

  lemma {:induction false} LexBalanced(s: string)
    requires Lex(s).Some?
    ensures Balanced(s)
    decreases |s|
  {
    if s == [] {
    } else {
      if IsBlank(s[0]) {
        LexBalanced(s[1..]);
      } else {
        LexWordBalanced(s, None);
        LexBalanced(LexWord(s, None).value.1);
      }
    }
  }

  lemma OneStage(s: string)
    requires |SplitOn(s, '|')| == 1
    ensures SplitOn(s, '|') == [s] && '|' !in s
  {
    assert s[..|s|] == s;
  }

  lemma TwoStages(link: string, a: string, b: string)
    requires SplitOn(link, '|') == [a, b]
    ensures link == a + ['|'] + b && '|' !in a && '|' !in b
  {
    var i := IndexOf(link, '|');
    assert i < |link|;
    var rest := SplitOn(link[i + 1..], '|');
    assert SplitOn(link, '|') == [link[..i]] + rest;
    var all := [link[..i]] + rest;
    assert a == all[0] == link[..i] && rest == all[1..] == [b];
    OneStage(link[i + 1..]);
    assert link == link[..i] + ['|'] + link[i + 1..];
  }

  lemma PlainStageText(s: string)
    requires PlainStage(s)
    ensures Lex(s) == Some(UnquoteAll(Words(s))) && Balanced(s) && Pieces(["|"], s, None) == [s]
    ensures !HasGrouping(s, None)
  {
    LexPlain(s);
    LexBalanced(s);
    LexScan(["|"], s);
    UncutIsOnePiece(["|"], s, None);
  }

  /** A link of two plain stages is, to the shell, the pipeline of their words. */
  lemma PipedLexes(link: string, a: string, b: string)
    requires SplitOn(link, '|') == [a, b] && PlainStage(a) && PlainStage(b)
    ensures ParseLink(link) == Piped(UnquoteAll(Words(a)), UnquoteAll(Words(b)))
  {
    PipedPieces(link, a, b);
    PlainStageText(a);
    PlainStageText(b);
  }

  lemma PipedKeepsShell(link: string, a: string, b: string)
    requires SplitOn(link, '|') == [a, b] && PlainStage(a) && PlainStage(b)
    requires KnownProgram(Words(a)[0]) && KnownProgram(Words(b)[0])
    ensures !MayChange(link)
  {
    PipedHasNoGrouping(link, a, b);
    PipedPieces(link, a, b);
    KnownStage(a);
    KnownStage(b);
    StagesKeepShell(link, [a, b]);
  }

  lemma PipedPieces(link: string, a: string, b: string)
    requires SplitOn(link, '|') == [a, b] && PlainStage(a) && PlainStage(b)
    ensures Pieces(["|"], link, None) == [a, b]
  {
    TwoStages(link, a, b);
    PlainStageText(a);
    PlainStageText(b);
    BarSplits(a, b, None);
  }

  lemma PipedHasNoGrouping(link: string, a: string, b: string)
    requires SplitOn(link, '|') == [a, b] && PlainStage(a) && PlainStage(b)
    ensures !HasGrouping(link, None)
  {
    TwoStages(link, a, b);
    PlainStageText(a);
    PlainStageText(b);
    BarIsNoGrouping(a, b);
  }

  lemma BarIsNoGrouping(a: string, b: string)
    requires Balanced(a) && !HasGrouping(a, None) && !HasGrouping(b, None)
    ensures !HasGrouping(a + ['|'] + b, None)
  {
    var tail := ['|'] + b;
    GroupingAppend(a, tail, None);
    assert tail[1..] == b;
    assert a + ['|'] + b == a + tail;
  }

  lemma {:induction false} GroupingAppend(a: string, b: string, q: Option<char>)
    ensures HasGrouping(a + b, q) <==> HasGrouping(a, q) || HasGrouping(b, QuoteAfter(a, q))
  {
    if a == [] {
      assert a + b == b;
    } else {
      assert (a + b)[1..] == a[1..] + b;
      GroupingAppend(a[1..], b, StepQuote(q, a[0]));
    }
  }

  /** The token that holds the sed script of a windowed link. */
  function ScriptToken(link: string): string {
    var stages := SplitOn(Unwrap(link), '|');
    var sed := if SedWithOperand(stages[0]).Some? then stages[0] else stages[|stages| - 1];
    var ws := Words(sed);
    if |ws| > 2 then ws[2] else []
  }

  lemma ReaderIsNotSed(stage: string)
    requires ReaderOf(Words(stage)).Some?
    ensures SedWithOperand(stage).None?
  {
    assert BaseName(Words(stage)[0]) != "sed";
  }

  lemma StageTrim(s: string)
    ensures Words(Trim(s)) == Words(s) && SedWithOperand(Trim(s)) == SedWithOperand(s)
  {
    WordsTrim(s);
  }

  lemma ExecPipeline(w: World, link: string, st: State, a: seq<string>, b: seq<string>, u: UtilityRun)
    requires !MayChange(link) && st.intact && ParseLink(link) == Piped(a, b)
    requires Pipeline(a, b, st.files, w.blanks) == Some(u)
    ensures ExecLink(w, link, st) == Ran(link, st, u)
  {
  }

  lemma SedFilterWords(stage: string)
    requires PlainStage(stage) && SedFilter(stage).Some?
    ensures var toks, words := Words(stage), UnquoteAll(Words(stage));
            |toks| == 3 && IsSedFilter(words) && words[2] == StripQuotes(toks[2])
  {
    var toks := Words(stage);
    SedAgrees(toks[2]);
    assert toks[1] in toks;
    FlagIsBare(toks[1]);
    BareIsUnquoted(toks[0]);
  }

  lemma NlFlagWord(tok: string, start: nat)
    requires PlainWord(tok) && NlFilterFlag(tok, start)
    ensures StripQuotes(tok) == tok && IsNlOption(tok)
  {
    assert IsFlag(tok);
    FlagIsBare(tok);
    if tok !in NL_FLAGS {
      if IsWidthFlag(tok) {
        assert tok[1] == 'w' && !("-v" <= tok);
        WidthIsOption(tok, U64_MAX);
      } else {
        assert tok[..2] == "-v";
      }
    }
  }

  lemma NlFilterWords(stage: string, start: nat)
    requires PlainStage(stage) && NlFilter(stage, start).Some?
    ensures IsNlFilter(UnquoteAll(Words(stage)))
  {
    var toks := Words(stage);
    var words := UnquoteAll(toks);
    BareIsUnquoted(toks[0]);
    forall x | x in words[1..] ensures IsNlOption(x) {
      var i :| 0 <= i < |words[1..]| && words[1..][i] == x;
      var tok := toks[1..][i];
      assert tok in toks[1..] && tok in toks && x == StripQuotes(tok);
      NlFlagWord(tok, start);
    }
  }

  /** What a credited `reader | sed -n` shows. */
  function FilterShown(read: WholeRead, m: SedMeaning, files: Files, blanks: bool): seq<Shown> {
    if !m.Prints? || read.operand !in files then []
    else
      var file := files[read.operand];
      var out := if read.viaNl then NlLines(file, 1, blanks) else CatLines(|file|);
      [Shown(read.operand, file, WindowOf(out, m.window))]
  }

  lemma ReaderPipeline(a: seq<string>, b: seq<string>, files: Files, read: WholeRead, blanks: bool)
    requires IsReader(a) && Operands(a[1..]) == [read.operand] && read.viaNl == (BaseName(a[0]) == "nl")
    requires IsSedFilter(b)
    ensures var m := SedMeaningOf(b[2]);
            Pipeline(a, b, files, blanks)
            == Some(UtilityRun(if m.Prints? then 0 else 1, FilterShown(read, m, files, blanks)))
  {
  }

  /** `reader | sed -n`: it shows the window of what the reader printed of a file it could read. */
  lemma RunReaderPipe(w: World, link: string, st: State, a: string, b: string)
    requires st.intact && SplitOn(link, '|') == [a, b] && PlainStage(a) && PlainStage(b)
    requires ReaderOf(Words(a)).Some? && SedFilter(b).Some?
    ensures var read, m := ReaderOf(Words(a)).value, SedMeaningOf(StripQuotes(Words(b)[2]));
            ExecLink(w, link, st)
            == Ran(link, st, UtilityRun(if m.Prints? then 0 else 1, FilterShown(read, m, st.files, w.blanks)))
  {
    var x, y := UnquoteAll(Words(a)), UnquoteAll(Words(b));
    PipedLexes(link, a, b);
    ReaderWords(Words(a));
    SedFilterWords(b);
    PipedKeepsShell(link, a, b);
    ReaderPipeline(x, y, st.files, ReaderOf(Words(a)).value, w.blanks);
    ExecPipeline(w, link, st, x, y, Pipeline(x, y, st.files, w.blanks).value);
  }

  /** `sed -n SCRIPT FILE | nl`. */
  lemma RunSedPipe(w: World, link: string, st: State, a: string, b: string)
    requires st.intact && SplitOn(link, '|') == [a, b] && PlainStage(a) && PlainStage(b)
    requires SedWithOperand(a).Some? && NlFilter(b, SedWithOperand(a).value.0.start).Some?
    ensures var op, m := SedWithOperand(a).value.1, SedMeaningOf(StripQuotes(Words(a)[2]));
            ExecLink(w, link, st) == Ran(link, st, UtilityRun(0, SedPipeShown(m, op, st.files, w.blanks)))
  {
    var x, y := UnquoteAll(Words(a)), UnquoteAll(Words(b));
    PipedLexes(link, a, b);
    SedWords(a);
    NlFilterWords(b, SedWithOperand(a).value.0.start);
    SedIsNotAReader(x);
    PipedKeepsShell(link, a, b);
    ExecPipeline(w, link, st, x, y, Pipeline(x, y, st.files, w.blanks).value);
  }

  lemma SedIsNotAReader(words: seq<string>)
    requires words != [] && BaseName(words[0]) == "sed"
    ensures !IsReader(words)
  {
  }

  // ----- links in general -----

  lemma TrimTwice(s: string)
    ensures Trim(Trim(s)) == Trim(s)
  {
  }

  lemma LexTail(t: string, gap: string, rest: string)
    requires PlainWord(t) && IsGap(gap) && Lex(rest).Some?
    ensures Lex(t + (gap + rest)) == Some([StripQuotes(t)] + Lex(rest).value)
  {
    assert gap[0] in gap && (gap + rest)[0] == gap[0];
    LexPlainWord(t, gap + rest);
    LexSkipBlanks(gap, rest);
    assert (t + (gap + rest))[0] == t[0];
  }

  lemma {:induction false} LexSkipBlanks(gap: string, rest: string)
    requires forall c :: c in gap ==> IsBlank(c)
    ensures Lex(gap + rest) == Lex(rest)
  {
    if gap == [] {
      assert gap + rest == rest;
    } else {
      assert (gap + rest)[1..] == gap[1..] + rest;
      LexSkipBlanks(gap[1..], rest);
    }
  }

  lemma LexLast(q: char, x: string)
    requires LiteralIn(q, x)
    ensures Lex([q] + x + [q]) == Some([x])
  {
    var s := [q] + x + [q];
    assert s[1..] == x + [q] + [];
    LexInQuote(x, q, []);
    assert LexWord(s, None) == Some((x, []));
    assert [x] + [] == [x];
  }

  /** A rendered wrapper is, to the shell, its three words. */
  lemma WrapperLexes(v: Wrapper)
    requires v.Shaped() && LiteralIn(v.quote, v.script)
    ensures Lex(v.Render()) == Some([v.prog, v.flag, v.script])
  {
    LexLast(v.quote, v.script);
    BareIsUnquoted(v.prog);
    BareIsUnquoted(v.flag);
    LexTail(v.flag, v.gap2, v.Quoted());
    LexTail(v.prog, v.gap1, v.flag + (v.gap2 + v.Quoted()));
    assert [v.prog] + ([v.flag] + [v.script]) == [v.prog, v.flag, v.script];
  }

  lemma LexedIsOneStage(s: string)
    requires Lex(s).Some?
    ensures Pieces(["|"], s, None) == [s]
  {
    LexScan(["|"], s);
    UncutIsOnePiece(["|"], s, None);
  }

  lemma LexedParses(s: string)
    requires Lex(s).Some?
    ensures ParseLink(s) == Simple(Lex(s).value) && !HasGrouping(s, None)
  {
    LexScan(["|"], s);
    UncutIsOnePiece(["|"], s, None);
  }

  lemma {:induction false} FirstWordOf(w: string, rest: string)
    requires w != [] && NoSpace(w) && rest != [] && IsSpace(rest[0])
    ensures WordLen(w + rest) == |w| && FirstWord(w + rest) == w
  {
    var s := w + rest;
    assert w[0] in w && s[0] == w[0];
    if |w| == 1 {
      assert s[1..] == rest;
    } else {
      assert s[1..] == w[1..] + rest;
      FirstWordOf(w[1..], rest);
    }
    assert s[..|w|] == w;
  }

  lemma WrapperKeepsShell(v: Wrapper)
    requires v.Shaped()
    ensures CommandOf(v.Render()) == Literal(v.prog, true) && !CommandChanges(CommandOf(v.Render()))
  {
    assert v.gap1[0] in v.gap1;
    CommandOfBare(v.prog, v.gap1 + (v.flag + (v.gap2 + v.Quoted())));
    KnownKeepsShell(v.prog);
  }

  lemma OneLink(seps: seq<string>, s: string)
    requires Uncut(seps, s, None) && Trim(s) != []
    ensures NonEmpty(Pieces(seps, s, None)) == [Trim(s)]
  {
    UncutIsOnePiece(seps, s, None);
    NonEmptyCons(s, []);
    assert [s] + [] == [s];
  }

  lemma LinksCanRun(w: World, n: nat)
    ensures RunsUpTo(LinkRunner(w, n), n)
  {
  }

  lemma ChainRunnerIs(run: Runner, n: nat, l: string, st: State)
    requires RunsUpTo(run, n) && |l| <= n
    ensures ChainRunner(run, n).requires(l, st) && CanRun(run, AndLinks(l))
    ensures ChainRunner(run, n)(l, st) == AndList(run, AndLinks(l), st)
  {
  }

  lemma ListRunnerIs(w: World, n: nat, l: string, st: State)
    requires |l| <= n
    ensures ListRunner(w, n).requires(l, st) && CanRun(LinkRunner(w, n), AndLinks(l))
    ensures ListRunner(w, n)(l, st) == AndList(LinkRunner(w, n), AndLinks(l), st)
  {
    LinksCanRun(w, n);
    ChainRunnerIs(LinkRunner(w, n), n, l, st);
  }

  lemma ChainsCanRun(run: Runner, n: nat, lists: seq<string>)
    requires RunsUpTo(run, n) && forall l :: l in lists ==> |l| <= n
    ensures CanRun(ChainRunner(run, n), lists)
  {
  }

  lemma ListsCanRun(w: World, cmd: string)
    ensures CanRun(ListRunner(w, |cmd|), SeqLists(cmd))
  {
    LinksCanRun(w, |cmd|);
    ChainsCanRun(LinkRunner(w, |cmd|), |cmd|, SeqLists(cmd));
  }

  lemma TextIsSequence(w: World, cmd: string, links: seq<string>, st: State)
    requires Modelled(cmd) && SeqLists(cmd) == links
    ensures CanRun(ListRunner(w, |cmd|), links)
    ensures ExecText(w, cmd, st) == Sequence(ListRunner(w, |cmd|), links, st)
  {
    ListsCanRun(w, cmd);
  }

  lemma OneLinkRuns(w: World, n: nat, l: string, st: State)
    requires |l| <= n && AndLinks(l) == [l]
    ensures ListRunner(w, n).requires(l, st) && ListRunner(w, n)(l, st) == ExecLink(w, l, st)
  {
    ListRunnerIs(w, n, l, st);
    AndListOfOne(LinkRunner(w, n), l, st);
  }

  lemma OneListRuns(w: World, u: string, l: string, st: State)
    requires Modelled(u) && SeqLists(u) == [l] && AndLinks(l) == [l]
    ensures ExecText(w, u, st) == ExecLink(w, l, st)
  {
    assert l in SeqLists(u);
    TextIsSequence(w, u, [l], st);
    SequenceOfOne(ListRunner(w, |u|), l, st);
    OneLinkRuns(w, |u|, l, st);
  }

  lemma SequenceOfOne(run: Runner, l: string, st: State)
    requires CanRun(run, [l])
    ensures Sequence(run, [l], st) == run(l, st)
  {
    assert [l][0] == l && l in [l];
  }

  lemma AndListOfOne(run: Runner, l: string, st: State)
    requires CanRun(run, [l])
    ensures AndList(run, [l], st) == run(l, st)
  {
    assert [l][0] == l && l in [l];
  }

  /** A modelled text that is one plain stage runs as that one link. */
  lemma RunScript(w: World, u: string, st: State)
    requires Modelled(u) && PlainStage(u)
    ensures ExecText(w, u, st) == ExecLink(w, Trim(u), st)
  {
    PlainIsOneLink(u, [";", "\n"]);
    TrimPlain(u);
    PlainIsOneLink(Trim(u), ["&&"]);
    TrimTwice(u);
    OneListRuns(w, u, Trim(u), st);
  }

  lemma PlainIsOneLink(u: string, seps: seq<string>)
    requires PlainStage(u)
    requires forall x :: x in seps ==> x != [] && IsSpecial(x[0])
    ensures NonEmpty(Pieces(seps, u, None)) == [Trim(u)]
  {
    LexPlain(u);
    WordsTrim(u);
    LexScan(seps, u);
    OneLink(seps, u);
  }

  lemma TrimPlain(u: string)
    requires PlainStage(u)
    ensures PlainStage(Trim(u))
  {
    WordsTrim(u);
    TrimKeepsChars(u);
  }

  lemma TrimKeepsChars(s: string)
    ensures forall c :: c in Trim(s) ==> c in s
  {
    TrimStartKeepsChars(s);
  }

  lemma {:induction false} TrimStartKeepsChars(s: string)
    ensures forall c :: c in TrimStart(s) ==> c in s
  {
    if s != [] && IsSpace(s[0]) { TrimStartKeepsChars(s[1..]); }
  }

  lemma ExecShellCall(w: World, link: string, st: State, words: seq<string>)
    requires !MayChange(link) && st.intact && ParseLink(link) == Simple(words) && IsShellCall(words)
    ensures var o := ExecText(w, words[2], st);
            ExecLink(w, link, st)
            == Outcome(o.status, State(o.state.files, true), false,
                       [LinkRun(link, st.files, o.status, AllShown(o.trace))])
  {
  }

  lemma OneTrace(o: Outcome)
    requires |o.trace| == 1
    ensures AllShown(o.trace) == o.trace[0].shown
  {
    assert o.trace[1..] == [];
  }

  lemma LiteralParses(v: Wrapper)
    requires v.Shaped() && LiteralIn(v.quote, v.script)
    ensures ParseLink(v.Render()) == Simple([v.prog, v.flag, v.script]) && !MayChange(v.Render())
  {
    var link := v.Render();
    WrapperLexes(v);
    LexedParses(link);
    LexedIsOneStage(link);
    WrapperKeepsShell(v);
    OneStageKeepsShell(link);
  }

  lemma WrapperCalls(link: string, u: string) returns (words: seq<string>)
    requires WrapperOf(link, u)
    ensures ParseLink(link) == Simple(words) && IsShellCall(words) && words[2] == u && !MayChange(link)
  {
    var v: Wrapper :| v.Valid() && v.script == u && v.Render() == link;
    LiteralParses(v);
    words := [v.prog, v.flag, u];
  }

  lemma CallShows(w: World, link: string, st: State, words: seq<string>, i: Outcome)
    requires !MayChange(link) && st.intact && ParseLink(link) == Simple(words) && IsShellCall(words)
    requires ExecText(w, words[2], st) == i && |i.trace| == 1
    ensures ExecLink(w, link, st)
         == Outcome(i.status, State(i.state.files, true), false, [LinkRun(link, st.files, i.status, i.trace[0].shown)])
  {
    ExecShellCall(w, link, st, words);
    OneTrace(i);
  }

  /** A shell call runs its script and shows what the script shows. */
  lemma RunWrapped(w: World, link: string, u: string, st: State)
    requires st.intact && WrapperOf(link, u) && Modelled(u) && PlainStage(u)
    ensures var o, i := ExecLink(w, link, st), ExecLink(w, Trim(u), st);
            && o.status == i.status && o.state == State(i.state.files, true) && !o.exited
            && o.trace == [LinkRun(link, st.files, i.status, i.trace[0].shown)]
  {
    var words := WrapperCalls(link, u);
    RunScript(w, u, st);
    CallShows(w, link, st, words, ExecLink(w, Trim(u), st));
  }
}
