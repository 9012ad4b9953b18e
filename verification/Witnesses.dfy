/** Commands that the analyser credits and should not, or hides and should not: one real input for
    each condition of the soundness theorems. */
module Witnesses {
  import opened Text
  import opened ShellSplit
  import opened ReadParser
  import opened ShellSemantics
  import opened Delivery
  import opened ReadSoundness
  import opened GuardExact
  import opened ShellWrapper
  import opened ReadTheorems
  import S = SedScripts
  import C = CreditExact

  // ----- commands built from words -----

  /** Two words, a blank between them. */
  function Spaced(a: string, b: string): string { a + (" " + b) }

  /** Two links of an AND chain, and of a sequence. */
  function Chained(a: string, b: string): string { (a + " ") + ("&&" + (" " + b)) }

  function Sequenced(a: string, b: string): string { a + (";" + (" " + b)) }

  /** A character that is neither operator, comment, escape nor grouping. */
  predicate IsHarmless(c: char) {
    && c != '&' && c != ';' && c != '|' && c != '#' && c != '\\' && c != '<' && !IsGrouping(c)
    && (IsSpace(c) ==> c == ' ')
  }

  predicate AllHarmless(s: string) { forall c :: c in s ==> IsHarmless(c) }

  /** A link: trimmed, its quotes closed, every character harmless. */
  predicate IsLink(s: string) { s != [] && Trim(s) == s && Balanced(s) && AllHarmless(s) }

  lemma HarmlessJoin(a: string, b: string)
    requires AllHarmless(a) && AllHarmless(b)
    ensures AllHarmless(a + b)
  {
  }

  lemma SpacedIsLink(a: string, b: string)
    requires a != [] && b != [] && NoSpace(a) && NoSpace(b) && AllHarmless(a) && AllHarmless(b)
    requires Balanced(a) && Balanced(b)
    ensures IsLink(Spaced(a, b)) && Words(Spaced(a, b)) == [a, b]
  {
    HarmlessJoin(" ", b);
    HarmlessJoin(a, " " + b);
    BalancedJoin(a, " " + b);
    BalancedJoin(" ", b);
    TwoWords(a, b);
    TrimmedEnds(Spaced(a, b), a, b);
  }

  lemma TrimmedEnds(s: string, a: string, b: string)
    requires s == a + (" " + b) && a != [] && b != [] && NoSpace(a) && NoSpace(b)
    ensures Trim(s) == s
  {
    assert a[0] in a && b[|b| - 1] in b;
    assert s[0] == a[0] && s[|s| - 1] == b[|b| - 1];
  }

  lemma BalancedJoin(a: string, b: string)
    requires Balanced(a) && Balanced(b)
    ensures Balanced(a + b)
  {
    QuoteAfterJoin(a, b, None);
  }

  lemma {:induction false} QuoteAfterJoin(a: string, b: string, q: Option<char>)
    ensures QuoteAfter(a + b, q) == QuoteAfter(b, QuoteAfter(a, q))
  {
    if a == [] {
      assert a + b == b;
    } else {
      assert (a + b)[0] == a[0] && (a + b)[1..] == a[1..] + b;
      QuoteAfterJoin(a[1..], b, StepQuote(q, a[0]));
    }
  }

  lemma LastWord(w: string)
    requires w != [] && NoSpace(w)
    ensures Words(w) == [w]
  {
    assert w[0] in w;
    WordLenAtLeast(w, []);
    assert w + [] == w && w[..|w|] == w && w[|w|..] == [];
  }

  lemma NextWord(w: string, rest: string)
    requires w != [] && NoSpace(w)
    ensures Words(w + (" " + rest)) == [w] + Words(rest)
  {
    WordThen(w, " " + rest);
    SkipGap(" ", rest);
  }

  lemma TwoWords(a: string, b: string)
    requires a != [] && NoSpace(a) && b != [] && NoSpace(b)
    ensures Words(a + (" " + b)) == [a, b]
  {
    LastWord(b);
    NextWord(a, b);
  }

  // ----- scanning harmless text -----

  predicate NoneStart(seps: seq<string>, s: string) {
    forall x :: x in seps ==> x != [] && x[0] !in s
  }

  lemma {:induction false} AbsentIsUncut(seps: seq<string>, s: string, q: Option<char>)
    requires NoneStart(seps, s)
    ensures Uncut(seps, s, q)
  {
    if s == [] {
    } else {
      assert forall n :: 0 < n <= |s| ==> s[..n][0] == s[0];
      assert s == [s[0]] + s[1..];
      AbsentIsUncut(seps, s[1..], StepQuote(q, s[0]));
    }
  }

  lemma {:induction false} AbsentIsUngrouped(s: string, q: Option<char>)
    requires AllHarmless(s)
    ensures !HasGrouping(s, q) && NoEscape(s, q)
  {
    if s == [] {
    } else {
      assert s[0] in s;
      AbsentIsUngrouped(s[1..], StepQuote(q, s[0]));
    }
  }

  lemma NotContained(s: string, sub: string)
    requires sub != [] && sub[0] !in s
    ensures !Contains(s, sub)
  {
    forall i: nat | i <= |s| ensures !HasAt(s, sub, i) {
      assert i + |sub| <= |s| ==> s[i..i + |sub|][0] == s[i];
    }
  }

  lemma {:induction false} AndSplits(a: string, b: string, q: Option<char>)
    requires '&' !in a && QuoteAfter(a, q).None?
    ensures Pieces(["&&"], a + ("&&" + b), q) == [a] + Pieces(["&&"], b, None)
  {
    var s := a + ("&&" + b);
    OneSeparator("&&", s);
    if a == [] {
      assert s == "&&" + b && s[2..] == b;
    } else {
      assert s[0] == a[0] && s[1..] == a[1..] + ("&&" + b) && [a[0]] + a[1..] == a;
      AndSplits(a[1..], b, StepQuote(q, a[0]));
    }
  }

  lemma TrimPadded(a: string)
    requires a != [] && Trim(a) == a
    ensures Trim(a + " ") == a && Trim(" " + a) == a
  {
    TrimEndAppendSpace(a, ' ');
    assert (" " + a)[1..] == a;
  }

  lemma ChainedLinks(a: string, b: string)
    requires IsLink(a) && IsLink(b)
    ensures Pieces(["&&"], Chained(a, b), None) == [a + " ", " " + b] && ChainLinks(Chained(a, b)) == [a, b]
  {
    BalancedJoin(a, " ");
    AndSplits(a + " ", " " + b, None);
    AbsentIsUncut(["&&"], " " + b, None);
    UncutIsOnePiece(["&&"], " " + b, None);
    TrimPadded(a);
    TrimPadded(b);
    NonEmptyCons(" " + b, []);
    NonEmptyCons(a + " ", [" " + b]);
    assert [" " + b] + [] == [" " + b] && [a + " "] + [" " + b] == [a + " ", " " + b];
  }

  lemma ChainedChars(a: string, b: string, c: char)
    requires IsLink(a) && IsLink(b) && c in Chained(a, b)
    ensures c == '&' || IsHarmless(c)
  {
  }

  lemma ChainedIsBalanced(a: string, b: string)
    requires IsLink(a) && IsLink(b)
    ensures Balanced(Chained(a, b)) && OnlyShellSpace(Chained(a, b))
  {
    BalancedJoin(" ", b);
    BalancedJoin("&&", " " + b);
    BalancedJoin(a, " ");
    BalancedJoin(a + " ", "&&" + (" " + b));
    forall c | c in Chained(a, b) && IsSpace(c) ensures IsBlank(c) { ChainedChars(a, b, c); }
  }

  lemma {:induction false} AmpersandsUngrouped(s: string, q: Option<char>)
    requires forall c :: c in s ==> c == '&' || IsHarmless(c)
    ensures !HasGrouping(s, q) && NoEscape(s, q)
  {
    if s == [] {
    } else {
      assert s[0] in s;
      AmpersandsUngrouped(s[1..], StepQuote(q, s[0]));
    }
  }

  lemma ChainedScans(a: string, b: string)
    requires IsLink(a) && IsLink(b)
    ensures var s := Chained(a, b);
            && !HasGrouping(s, None) && NoEscape(s, None) && !Contains(s, "<<") && !Contains(s, "\\\n")
            && Uncut([";", "\n"], s, None) && Uncut(["||"], s, None) && Uncut(["#"], s, None)
  {
    var s := Chained(a, b);
    forall c | c in s ensures c == '&' || IsHarmless(c) { ChainedChars(a, b, c); }
    AmpersandsUngrouped(s, None);
    NotContained(s, "<<");
    NotContained(s, "\\\n");
    AbsentIsUncut([";", "\n"], s, None);
    AbsentIsUncut(["||"], s, None);
    AbsentIsUncut(["#"], s, None);
  }

  lemma ChainedIsModelled(a: string, b: string)
    requires IsLink(a) && IsLink(b)
    ensures Modelled(Chained(a, b)) && Uncut([";", "\n"], Chained(a, b), None)
  {
    ChainedIsBalanced(a, b);
    ChainedScans(a, b);
    ChainedLinks(a, b);
    AbsentIsUncut(["&"], a + " ", None);
    AbsentIsUncut(["&"], " " + b, None);
  }

  /** The guard passes a chain of two links when it passes their first words. */
  lemma ChainedIsPassed(a: string, b: string)
    requires IsLink(a) && IsLink(b) && !UnsafeLink(a) && !UnsafeLink(b)
    ensures !Unprovable(Chained(a, b))
  {
    ChainedScans(a, b);
    ChainedLinks(a, b);
    UncutMerge(Chained(a, b), None);
    TrimPadded(a);
    TrimPadded(b);
    UnsafeTrim(a + " ");
    UnsafeTrim(" " + b);
  }

  // ----- a chain whose first link ends the shell -----

  /** `'exit' 0` */
  const QUOTED_EXIT: string := Spaced("'exit'", "0")
  /** `cat F` */
  const CAT_F: string := Spaced("cat", "F")

  lemma ExitWord(t: string)
    requires t == "'exit'"
    ensures IsWord(t) && QuotedWord(t) && Inner(t) == "exit"
  {
    assert Inner(t) == "exit";
    QuotedIsBalanced(t);
  }

  lemma ExitLink()
    ensures IsLink(QUOTED_EXIT) && Words(QUOTED_EXIT) == ["'exit'", "0"] && FirstWord(QUOTED_EXIT) == "'exit'"
  {
    ExitWord("'exit'");
    AlnumIsUnrefused("0");
    SpacedIsLink("'exit'", "0");
  }

  lemma CatLink()
    ensures IsLink(CAT_F) && Words(CAT_F) == ["cat", "F"] && FirstWord(CAT_F) == "cat"
  {
    SpacedIsLink("cat", "F");
  }

  lemma NotListed(w: string)
    requires w == "'exit'" || w == "cat" || w == "sed"
    ensures w !in UNSAFE_FIRST_WORDS && '=' !in w
  {
    assert w !in RESERVED_WORDS;
    assert w !in RESERVED_MORE;
    assert w !in ENDS_OR_REDIRECTS;
    assert w !in CHANGES_MEANING;
    assert w !in CHANGES_NAMES;
  }

  lemma LinksArePassed()
    ensures !UnsafeLink(QUOTED_EXIT) && !UnsafeLink(CAT_F)
  {
    ExitLink();
    CatLink();
    NotListed("'exit'");
    NotListed("cat");
  }

  lemma QuotedCommand(t: string, rest: string)
    requires QuotedWord(t) && EndsWord(rest)
    ensures CommandOf(t + rest) == Literal(Inner(t), false)
  {
    LexQuotedOnly(t, rest);
    assert (t + rest)[0] == t[0] && !IsBlank(t[0]);
    assert |Inner(t) + rest| < |t + rest|;
  }

  lemma LexQuotedOnly(t: string, rest: string)
    requires QuotedWord(t) && EndsWord(rest)
    ensures LexWord(t + rest, None) == Some((Inner(t), rest))
  {
    var q := t[0];
    assert t == [q] + Inner(t) + [q];
    assert (t + rest)[0] == q && (t + rest)[1..] == Inner(t) + [q] + rest;
    LexInQuote(Inner(t), q, rest);
  }

  lemma ExitEvades()
    ensures Evades(QUOTED_EXIT)
  {
    ExitLink();
    ExitCommand();
    AbsentIsUncut(["|"], QUOTED_EXIT, None);
    UncutIsOnePiece(["|"], QUOTED_EXIT, None);
    QuotedChangerEvades(QUOTED_EXIT, "exit");
  }

  lemma ExitCommand()
    ensures CommandOf(QUOTED_EXIT) == Literal("exit", false) && IsChanger("exit")
  {
    var t: string, rest: string := "'exit'", " " + "0";
    ExitWord(t);
    QuotedCommand(t, rest);
  }

  lemma QuotedChangerEvades(link: string, word: string)
    requires Pieces(["|"], link, None) == [link] && CommandOf(link) == Literal(word, false) && IsChanger(word)
    ensures Evades(link)
  {
    assert EvadesAt([link], 0);
  }

  lemma NotAShellWord(w: string)
    requires w == "'exit'" || w == "cat" || w == "sed"
    ensures BaseName(w) == w && w !in SHELLS
  {
    assert '/' !in w;
  }

  lemma BareCommandIsItself(cmd: string, w: string)
    requires Words(cmd) != [] && Words(cmd)[0] == w && BaseName(w) !in SHELLS
    ensures Unwrap(cmd) == cmd
  {
  }

  lemma NoneOf(link: string, cs: set<char>)
    requires forall c :: c in link ==> c !in cs
    ensures !HasAny(link, cs)
  {
  }

  /** No character of the link is one a read parser refuses. */
  predicate IsUnrefused(c: char) { IsHarmless(c) && c != '>' && c != '`' && c != '$' }

  lemma UnrefusedLink(link: string)
    requires link != [] && forall c :: c in link ==> IsUnrefused(c)
    ensures !RefusedForRange(link) && !HasAny(link, NOT_ONE_READ)
  {
    NoneOf(link, {';', '&', '>', '<', '`'});
    NoneOf(link, NOT_ONE_READ);
    NotContained(link, "||");
    NotContained(link, "$(");
    NotContained(link, "$'");
  }

  lemma OneOperandAlone(op: string)
    requires !IsFlag(op)
    ensures Operands([op]) == [op]
  {
    assert [op][..0] == [];
    assert Operands([]) == [];
  }

  lemma CatOperand(toks: seq<string>, op: string)
    requires toks == ["cat", op] && BaseName("cat") == "cat" && StripQuotes(op) == op && IsOperand(op)
    ensures ReaderOf(toks).Some? && ReaderOf(toks).value.operand == op
  {
    OneOperandAlone(op);
    assert toks[1..] == [op];
    assert FlagsKeepLines("cat", [op]);
    ReaderIs(toks, [op], op);
  }

  lemma ReaderIs(toks: seq<string>, args: seq<string>, op: string)
    requires toks != [] && BaseName(toks[0]) == "cat" && toks[1..] == args
    requires FlagsKeepLines("cat", args) && Operands(args) == [op] && StripQuotes(op) == op && IsOperand(op)
    ensures ReaderOf(toks).Some? && ReaderOf(toks).value.operand == op
  {
  }

  lemma CatCredit(link: string, op: string)
    requires Words(link) == ["cat", op] && Unwrap(link) == link && Trim(link) == link && SplitOn(link, '|') == [link]
    requires !RefusedForRange(link) && !HasAny(link, NOT_ONE_READ) && StripQuotes(op) == op && IsOperand(op)
    ensures CreditOf(link) == Some(Credit(op, WHOLE))
  {
    NotAShellWord("cat");
    CatOperand(Words(link), op);
    NoWindow(link);
    WholeIs(link, ReaderOf(Words(link)).value);
  }

  lemma NoWindow(link: string)
    requires |Words(link)| != 4 && Unwrap(link) == link && Trim(link) == link && SplitOn(link, '|') == [link]
    ensures CommandReadRange(link).None?
  {
  }

  lemma WholeIs(link: string, read: WholeRead)
    requires CommandReadRange(link).None? && Unwrap(link) == link && Trim(link) == link
    requires !HasAny(link, NOT_ONE_READ) && ReaderOf(Words(link)) == Some(read)
    ensures CreditOf(link) == Some(Credit(read.operand, WHOLE))
  {
  }

  /** Letters and digits make bare words. */
  predicate IsAlnum(c: char) { 'a' <= c <= 'z' || 'A' <= c <= 'Z' || IsDigit(c) }

  lemma AlnumIsBare(t: string)
    requires t != [] && forall c :: c in t ==> IsAlnum(c)
    ensures BareWord(t) && StripQuotes(t) == t && NoSpace(t) && IsOperand(t)
  {
    assert t[0] in t;
    forall c | c in t ensures IsOrdinary(c) && !IsSpace(c) { assert IsAlnum(c); }
    BareIsUnquoted(t);
  }

  lemma CatPlain(link: string, prog: string, op: string)
    requires Words(link) == [prog, op] && Unwrap(link) == link && Trim(link) == link && SplitOn(link, '|') == [link]
    requires BareWord(prog) && '=' !in prog && BareWord(op) && AllHarmless(link)
    ensures PlainLink(link)
  {
    assert PlainStage(link);
  }

  /** `cat OPERAND` */
  function CatOf(op: string): string { Spaced("cat", op) }

  predicate AllUnrefused(s: string) { forall c :: c in s ==> IsUnrefused(c) }

  /** An unquoted word that the whole-read parser takes for an operand. */
  predicate IsCatWord(op: string) { IsWord(op) && AllUnrefused(op) && IsOperand(op) && StripQuotes(op) == op }

  lemma UnrefusedSpaced(a: string, b: string)
    requires AllUnrefused(a) && AllUnrefused(b)
    ensures AllUnrefused(Spaced(a, b))
  {
    forall c | c in Spaced(a, b) ensures IsUnrefused(c) { assert c in a || c == ' ' || c in b; }
  }

  lemma AlnumIsUnrefused(t: string)
    requires AllAlnum(t)
    ensures IsWord(t) && AllUnrefused(t)
  {
    forall c | c in t ensures IsUnrefused(c) && !IsSpace(c) && !IsQuote(c) { assert IsAlnum(c); }
    UnquotedIsBalanced(t);
  }

  lemma CatOfLink(op: string)
    requires IsCatWord(op)
    ensures IsLink(CatOf(op)) && Words(CatOf(op)) == ["cat", op] && AllUnrefused(CatOf(op)) && '|' !in CatOf(op)
  {
    AlnumIsUnrefused("cat");
    SpacedIsLink("cat", op);
    UnrefusedSpaced("cat", op);
  }

  lemma CatOfCredit(op: string)
    requires IsCatWord(op)
    ensures CreditOf(CatOf(op)) == Some(Credit(op, WHOLE))
  {
    CatOfLink(op);
    NotAShellWord("cat");
    BareCommandIsItself(CatOf(op), "cat");
    NoBarIsOneStage(CatOf(op));
    UnrefusedLink(CatOf(op));
    CatCredit(CatOf(op), op);
  }

  predicate AllAlnum(t: string) { t != [] && forall c :: c in t ==> IsAlnum(c) }

  lemma {:induction false} UnquotedIsBalanced(s: string)
    requires forall c :: c in s ==> !IsQuote(c)
    ensures Balanced(s)
  {
    if s == [] {
    } else {
      assert s[0] in s;
      UnquotedIsBalanced(s[1..]);
    }
  }

  /** `cat F` is credited with all of F. */
  lemma CatIsCredited()
    ensures PlainLink(CAT_F) && NotPiped(CAT_F) && CreditOf(CAT_F) == Some(Credit("F", WHOLE))
  {
    AlnumIsBare("F");
    AlnumIsBare("cat");
    AlnumIsUnrefused("F");
    CatOfLink("F");
    NotAShellWord("cat");
    BareCommandIsItself(CAT_F, "cat");
    NoBarIsOneStage(CAT_F);
    CatPlain(CAT_F, "cat", "F");
    CatOfCredit("F");
  }

  // ----- the guard's own failure -----

  /** `'exit' 0 && cat F`: the guard passes it and F is credited in whole, but the shell may exit
      zero having shown nothing. */
  lemma QuotedExitIsCredited(files: Files)
    ensures var cmd := Chained(QUOTED_EXIT, CAT_F);
            && !Unprovable(cmd) && ChainLinks(cmd) == [QUOTED_EXIT, CAT_F]
            && CreditOf(CAT_F) == Some(Credit("F", WHOLE))
            && ExecText(ESCAPE, cmd, State(files, true)).status == 0
            && AllShown(ExecText(ESCAPE, cmd, State(files, true)).trace) == []
  {
    ExitLink();
    CatLink();
    LinksArePassed();
    ExitEvades();
    CatIsCredited();
    EvadingFirst(QUOTED_EXIT, CAT_F, files);
  }

  /** A chain of two passed links, the first of which evades the guard. */
  lemma EvadingFirst(a: string, b: string, files: Files)
    requires IsLink(a) && IsLink(b) && !UnsafeLink(a) && !UnsafeLink(b) && Evades(a)
    ensures !Unprovable(Chained(a, b)) && ChainLinks(Chained(a, b)) == [a, b]
    ensures var o := ExecText(ESCAPE, Chained(a, b), State(files, true)); o.status == 0 && AllShown(o.trace) == []
  {
    ChainedIsPassed(a, b);
    ChainedIsModelled(a, b);
    ChainedLinks(a, b);
    EvadedAt(Chained(a, b), 0, files);
    OneTrace(ExecText(ESCAPE, Chained(a, b), State(files, true)));
  }

  // ----- a word the shell reads as a command's path -----

  lemma EqualsWord(t: string)
    requires AllAlnum(t)
    ensures IsCatWord("=" + t) && Lex("=" + t).None?
  {
    var w := "=" + t;
    forall c | c in w ensures IsUnrefused(c) && !IsSpace(c) && !IsQuote(c) { assert c == '=' || IsAlnum(c); }
    UnquotedIsBalanced(w);
    assert w[0] == '=';
  }

  lemma HarmlessIsModelled(s: string)
    requires IsLink(s)
    ensures Modelled(s) && SeqLists(s) == [s] && AndLinks(s) == [s] && Pieces(["|"], s, None) == [s]
  {
    AbsentIsUngrouped(s, None);
    AbsentIsUncut(["||"], s, None);
    AbsentIsUncut(["#"], s, None);
    AbsentIsUncut(["&"], s, None);
    AbsentIsUncut(["|"], s, None);
    AbsentIsUncut(["&&"], s, None);
    AbsentIsUncut([";", "\n"], s, None);
    UncutIsOnePiece(["&&"], s, None);
    UncutIsOnePiece(["|"], s, None);
    UncutLinks([";", "\n"], s);
    UncutLinks(["&&"], s);
  }

  lemma CatIsKnown()
    ensures BareWord("cat") && KnownProgram("cat") && '=' !in "cat"
  {
    AlnumIsBare("cat");
    NotAShellWord("cat");
  }

  lemma KnownKeepsLink(w: string, rest: string, link: string)
    requires link == w + rest && IsLink(link) && BareWord(w) && '=' !in w && KnownProgram(w) && EndsWord(rest)
    ensures !MayChange(link)
  {
    HarmlessIsModelled(link);
    AbsentIsUngrouped(link, None);
    CommandOfBare(w, rest);
    KnownKeepsShell(w);
    OneStageKeepsShell(link);
  }

  lemma UnknownParses(w: string, rest: string, link: string)
    requires link == w + (" " + rest) && Pieces(["|"], link, None) == [link] && BareWord(w) && Lex(rest).None?
    ensures ParseLink(link) == Other
  {
    LexTailFails(w, " ", rest);
    UnlexedParses(link);
  }

  lemma SilentUnknown(link: string, st: State)
    requires IsLink(link) && ParseLink(link) == Other && !MayChange(link) && st.intact
    ensures ExecText(SILENT, link, st).status == 0 && AllShown(ExecText(SILENT, link, st).trace) == []
  {
    HarmlessIsModelled(link);
    OneListRuns(SILENT, link, link, st);
    ExecOther(SILENT, link, st);
    OneTrace(Program(SILENT, link, st));
  }

  /** A known program before a word that is not literal may exit zero having shown nothing. */
  lemma SilentWords(w: string, rest: string, link: string, st: State)
    requires link == Spaced(w, rest) && IsLink(link) && BareWord(w) && '=' !in w && KnownProgram(w)
    requires Lex(rest).None? && st.intact
    ensures ExecText(SILENT, link, st).status == 0 && AllShown(ExecText(SILENT, link, st).trace) == []
  {
    HarmlessIsModelled(link);
    KnownKeepsLink(w, " " + rest, link);
    UnknownParses(w, rest, link);
    SilentUnknown(link, st);
  }

  lemma HiddenWordIsCredited(op: string, files: Files)
    requires IsCatWord(op) && Lex(op).None?
    ensures CreditOf(CatOf(op)) == Some(Credit(op, WHOLE))
    ensures ExecText(SILENT, CatOf(op), State(files, true)).status == 0
    ensures AllShown(ExecText(SILENT, CatOf(op), State(files, true)).trace) == []
  {
    CatOfCredit(op);
    CatOfLink(op);
    CatIsKnown();
    SilentWords("cat", op, CatOf(op), State(files, true));
  }

  /** `cat =ls`: the file `=ls` is credited, but zsh puts the path of the program `ls` there, so the
      command may exit zero having shown nothing of such a file. So for any name. */
  lemma EqualsWordIsCredited(t: string, files: Files)
    requires AllAlnum(t)
    ensures CreditOf(CatOf("=" + t)) == Some(Credit("=" + t, WHOLE))
    ensures ExecText(SILENT, CatOf("=" + t), State(files, true)).status == 0
    ensures AllShown(ExecText(SILENT, CatOf("=" + t), State(files, true)).trace) == []
  {
    EqualsWord(t);
    HiddenWordIsCredited("=" + t, files);
  }

  // ----- sequences built from links and pipelines -----

  predicate IsTame(c: char) { c == '|' || IsHarmless(c) }

  predicate AllTame(s: string) { forall c :: c in s ==> IsTame(c) }

  /** No two bars stand together. */
  predicate SingleBars(s: string) { forall i :: 0 <= i < |s| - 1 ==> s[i] != '|' || s[i + 1] != '|' }

  /** A link or a pipeline: trimmed, its quotes closed, every character tame. */
  predicate IsPiece(s: string) { s != [] && Trim(s) == s && Balanced(s) && AllTame(s) && SingleBars(s) }

  lemma LinkIsPiece(s: string)
    requires IsLink(s)
    ensures IsPiece(s)
  {
    assert forall i :: 0 <= i < |s| ==> s[i] in s;
  }

  lemma SingleBarsJoin(a: string, b: string)
    requires SingleBars(a) && SingleBars(b) && a != [] && b != [] && (a[|a| - 1] != '|' || b[0] != '|')
    ensures SingleBars(a + b)
  {
    var s := a + b;
    forall i | 0 <= i < |s| - 1 ensures s[i] != '|' || s[i + 1] != '|' {
      if i >= |a| { assert s[i] == b[i - |a|] && s[i + 1] == b[i + 1 - |a|]; }
    }
  }

  lemma NotDoubled(s: string)
    requires SingleBars(s)
    ensures !("||" <= s)
  {
    if |s| >= 2 { assert s[..2] == [s[0], s[1]]; }
  }

  lemma {:induction false} SingleBarsUncut(s: string, q: Option<char>)
    requires SingleBars(s)
    ensures Uncut(["||"], s, q)
  {
    if s == [] {
    } else {
      OneSeparator("||", s);
      NotDoubled(s);
      forall i | 0 <= i < |s[1..]| - 1 ensures s[1..][i] != '|' || s[1..][i + 1] != '|' {
        assert s[1..][i] == s[i + 1] && s[1..][i + 1] == s[i + 2];
      }
      SingleBarsUncut(s[1..], StepQuote(q, s[0]));
    }
  }

  lemma SingleBarsNotDoubled(s: string)
    requires SingleBars(s)
    ensures !Contains(s, "||")
  {
    forall i: nat | i <= |s| ensures !HasAt(s, "||", i) {
      assert i + 2 <= |s| ==> s[i..i + 2][0] == s[i] && s[i..i + 2][1] == s[i + 1];
    }
  }

  lemma SequencedBars(a: string, b: string)
    requires IsPiece(a) && IsPiece(b)
    ensures SingleBars(Sequenced(a, b))
  {
    SingleBarsJoin(" ", b);
    SingleBarsJoin(";", " " + b);
    SingleBarsJoin(a, ";" + (" " + b));
  }

  lemma {:induction false} SemicolonSplits(seps: seq<string>, a: string, x: string, q: Option<char>)
    requires NoneStart(seps, a) && QuoteAfter(a, q).None? && MatchLen(seps, ";" + x) == 1
    ensures Pieces(seps, a + (";" + x), q) == [a] + Pieces(seps, x, None)
  {
    var s := a + (";" + x);
    if a == [] {
      assert s == ";" + x && s[1..] == x;
    } else {
      assert forall n :: 0 < n <= |s| ==> s[..n][0] == s[0];
      assert s[0] == a[0] && a[0] in a && s[1..] == a[1..] + (";" + x) && [a[0]] + a[1..] == a;
      SemicolonSplits(seps, a[1..], x, StepQuote(q, a[0]));
    }
  }

  lemma SequencedPieces(a: string, b: string, seps: seq<string>)
    requires IsPiece(a) && IsPiece(b) && (seps == [";", "\n"] || seps == GUARD_SEPS)
    ensures Pieces(seps, Sequenced(a, b), None) == [a, " " + b]
  {
    SemicolonMatch(";" + (" " + b));
    GuardMatch(";" + (" " + b));
    CutInTwo(seps, a, b);
  }

  lemma CutInTwo(seps: seq<string>, a: string, b: string)
    requires Balanced(a) && NoneStart(seps, a) && NoneStart(seps, " " + b)
    requires MatchLen(seps, ";" + (" " + b)) == 1
    ensures Pieces(seps, Sequenced(a, b), None) == [a, " " + b]
  {
    var x := " " + b;
    SemicolonSplits(seps, a, x, None);
    AbsentIsUncut(seps, x, None);
    UncutIsOnePiece(seps, x, None);
    assert [a] + [x] == [a, x];
  }

  lemma SequencedBalanced(a: string, b: string)
    requires IsPiece(a) && IsPiece(b)
    ensures Balanced(Sequenced(a, b)) && forall c :: c in Sequenced(a, b) ==> c == ';' || IsTame(c)
  {
    BalancedJoin(" ", b);
    BalancedJoin(";", " " + b);
    BalancedJoin(a, ";" + (" " + b));
  }

  lemma {:induction false} SemicolonsUngrouped(s: string, q: Option<char>)
    requires forall c :: c in s ==> c == ';' || IsTame(c)
    ensures !HasGrouping(s, q) && NoEscape(s, q)
  {
    if s == [] {
    } else {
      assert s[0] in s;
      SemicolonsUngrouped(s[1..], StepQuote(q, s[0]));
    }
  }

  lemma SequencedLinks(a: string, b: string)
    requires IsPiece(a) && IsPiece(b)
    ensures SplitEach(Split(Sequenced(a, b), ";"), "\n") == [a, b]
  {
    SequencedBalanced(a, b);
    SequencedPieces(a, b, [";", "\n"]);
    SequenceLinks(Sequenced(a, b));
    TrimPadded(b);
    NonEmptyCons(" " + b, []);
    NonEmptyCons(a, [" " + b]);
    assert [" " + b] + [] == [" " + b] && [a] + [" " + b] == [a, " " + b];
  }

  lemma SequencedIsPassed(a: string, b: string)
    requires IsPiece(a) && IsPiece(b) && !UnsafeLink(a) && !UnsafeLink(b)
    ensures !Unprovable(Sequenced(a, b))
  {
    var s := Sequenced(a, b);
    SequencedBalanced(a, b);
    SemicolonsUngrouped(s, None);
    NotContained(s, "<<");
    NotContained(s, "\\\n");
    SequencedPieces(a, b, GUARD_SEPS);
    TrimPadded(b);
    UnsafeTrim(" " + b);
  }

  lemma SequencedIsModelled(a: string, b: string)
    requires IsPiece(a) && IsPiece(b)
    ensures Modelled(Sequenced(a, b))
  {
    var s := Sequenced(a, b);
    SequencedBalanced(a, b);
    SemicolonsUngrouped(s, None);
    SequencedBars(a, b);
    SingleBarsUncut(s, None);
    AbsentIsUncut(["#"], s, None);
    AbsentIsUncut(["&&"], s, None);
    AbsentIsUncut(["&"], s, None);
    UncutIsOnePiece(["&&"], s, None);
  }

  /** Two reads of one file make an accepted sequence. */
  lemma SequencedIsAccepted(a: string, b: string, op: string)
    requires IsPiece(a) && IsPiece(b) && !UnsafeLink(a) && !UnsafeLink(b)
    requires ReadOperand(a) == Some(op) && ReadOperand(b) == Some(op)
    ensures SequenceOfReads(Sequenced(a, b)) == Some([a, b])
  {
    SequencedLinks(a, b);
    SequencedIsPassed(a, b);
    NotContained(a, "&&");
    NotContained(b, "&&");
    SingleBarsNotDoubled(a);
    SingleBarsNotDoubled(b);
    assert ReadsOnly([a, b], op);
  }

  // ----- windows -----

  /** `sed -n SCRIPT F` */
  function SedLink(script: string): string { Spaced("sed", Spaced("-n", Spaced(script, "F"))) }

  /** `'1,$p'`, `'1,2p'` and `'+1p'` */
  const TO_END: string := S.InQuotes('\'', S.TwoAddresses("1", "$"))
  const FIRST_TWO: string := S.InQuotes('\'', S.TwoAddresses("1", "2"))
  const SIGNED: string := S.InQuotes('\'', S.OneAddress("+1"))

  lemma SmallNumbers()
    ensures ParseU64("1") == Some(1) && ParseU64("2") == Some(2) && ParseU64("+1") == Some(1)
  {
    S.ParseOfDigits(1);
    S.ParseOfDigits(2);
    assert Digits(1) == "1" && Digits(2) == "2";
    assert "+1"[1..] == "1";
  }

  lemma Windows()
    ensures ParseSedPrintRange(TO_END) == Some(LineRange(1, None))
    ensures ParseSedPrintRange(FIRST_TWO) == Some(LineRange(1, Some(2)))
    ensures ParseSedPrintRange(SIGNED) == Some(LineRange(1, Some(1)))
  {
    SmallNumbers();
    S.QuotesStrip('\'', S.TwoAddresses("1", "$"));
    S.QuotesStrip('\'', S.TwoAddresses("1", "2"));
    S.QuotesStrip('\'', S.OneAddress("+1"));
    S.TwoParse(TO_END, "1", "$");
    S.TwoParse(FIRST_TWO, "1", "2");
    S.OneParse(SIGNED, "+1");
  }

  /** A script token: one quoted word. */
  predicate IsToken(t: string) { t != [] && NoSpace(t) && AllHarmless(t) && QuotedWord(t) }

  lemma QuotedIsBalanced(t: string)
    requires QuotedWord(t)
    ensures Balanced(t)
  {
    var q := t[0];
    assert t[1..] == Inner(t) + [q];
    InsideQuotes([], Inner(t), q);
  }

  lemma SpacedWords(a: string, s: string)
    requires a != [] && NoSpace(a) && AllHarmless(a) && Balanced(a) && IsLink(s)
    ensures IsLink(Spaced(a, s)) && Words(Spaced(a, s)) == [a] + Words(s)
  {
    HarmlessJoin(" ", s);
    HarmlessJoin(a, " " + s);
    BalancedJoin(" ", s);
    BalancedJoin(a, " " + s);
    NextWord(a, s);
    var x := Spaced(a, s);
    assert a[0] in a && x[0] == a[0] && x[|x| - 1] == s[|s| - 1];
  }

  predicate IsWord(a: string) { a != [] && NoSpace(a) && AllHarmless(a) && Balanced(a) }

  lemma FixedWords()
    ensures IsWord("sed") && IsWord("-n") && IsWord("F")
  {
    assert Balanced("sed") && Balanced("-n") && Balanced("F");
  }

  lemma ThreeWords(b: string, c: string, d: string)
    requires IsWord(b) && IsWord(c) && IsWord(d)
    ensures IsLink(Spaced(b, Spaced(c, d))) && Words(Spaced(b, Spaced(c, d))) == [b, c, d]
  {
    SpacedIsLink(c, d);
    SpacedWords(b, Spaced(c, d));
    assert [b] + [c, d] == [b, c, d];
  }

  lemma WordThenLink(a: string, s: string, ws: seq<string>)
    requires IsWord(a) && IsLink(s) && Words(s) == ws
    ensures IsLink(Spaced(a, s)) && Words(Spaced(a, s)) == [a] + ws
  {
    SpacedWords(a, s);
  }

  lemma FourWords(a: string, b: string, c: string, d: string)
    requires IsWord(a) && IsWord(b) && IsWord(c) && IsWord(d)
    ensures IsLink(Spaced(a, Spaced(b, Spaced(c, d)))) && Words(Spaced(a, Spaced(b, Spaced(c, d)))) == [a, b, c, d]
  {
    var bcd, ws := Spaced(b, Spaced(c, d)), [b, c, d];
    ThreeWords(b, c, d);
    WordThenLink(a, bcd, ws);
    assert [a] + ws == [a, b, c, d];
  }

  lemma SedLinkWords(t: string)
    requires IsToken(t)
    ensures IsLink(SedLink(t)) && Words(SedLink(t)) == ["sed", "-n", t, "F"]
  {
    QuotedIsBalanced(t);
    FixedWords();
    FourWords("sed", "-n", t, "F");
  }

  /** No dollar sign of the text starts an expansion the window parser refuses. */
  predicate DollarsEnd(s: string) { forall i :: 0 <= i < |s| && s[i] == '$' ==> i + 1 < |s| && s[i + 1] == 'p' }

  lemma DollarsJoin(a: string, b: string)
    requires DollarsEnd(a) && DollarsEnd(b)
    ensures DollarsEnd(a + b)
  {
    var s := a + b;
    forall i | 0 <= i < |s| && s[i] == '$' ensures i + 1 < |s| && s[i + 1] == 'p' {
      if i >= |a| { assert b[i - |a|] == '$'; }
    }
  }

  lemma NoExpansion(s: string)
    requires DollarsEnd(s)
    ensures !Contains(s, "$(") && !Contains(s, "$'")
  {
    forall i: nat | i <= |s| ensures !HasAt(s, "$(", i) && !HasAt(s, "$'", i) {
      assert i + 2 <= |s| ==> s[i..i + 2][0] == s[i] && s[i..i + 2][1] == s[i + 1];
    }
  }

  lemma SedLinkUnrefused(t: string)
    requires IsToken(t) && DollarsEnd(t) && '>' !in t && '`' !in t
    ensures !RefusedForRange(SedLink(t)) && '|' !in SedLink(t)
  {
    var link := SedLink(t);
    SedLinkWords(t);
    DollarsJoin(" ", "F");
    DollarsJoin(t, " " + "F");
    DollarsJoin(" ", Spaced(t, "F"));
    DollarsJoin("-n", " " + Spaced(t, "F"));
    DollarsJoin(" ", Spaced("-n", Spaced(t, "F")));
    DollarsJoin("sed", " " + Spaced("-n", Spaced(t, "F")));
    NoExpansion(link);
    NotContained(link, "||");
    forall c | c in link ensures c !in {';', '&', '>', '<', '`'} {
      assert c in "sed" || c in "-n" || c in t || c == ' ' || c == 'F';
    }
    NoneOf(link, {';', '&', '>', '<', '`'});
  }

  lemma SedWithF(link: string, t: string, r: LineRange)
    requires Words(link) == ["sed", "-n", t, "F"] && BaseName("sed") == "sed" && ParseSedPrintRange(t) == Some(r)
    requires StripQuotes("F") == "F" && IsOperand("F")
    ensures SedWithOperand(link) == Some((r, "F"))
  {
  }

  lemma RangeIs(link: string, r: LineRange)
    requires Unwrap(link) == link && Trim(link) == link && SplitOn(link, '|') == [link] && !RefusedForRange(link)
    requires SedWithOperand(link) == Some((r, "F"))
    ensures CommandReadRange(link) == Some(RangedRead(r, "F", false, PLAIN))
  {
  }

  /** A quoted script the window parser reads as `r`, with nothing it refuses. */
  predicate IsWindowToken(t: string, r: LineRange) {
    IsToken(t) && DollarsEnd(t) && '>' !in t && '`' !in t && ParseSedPrintRange(t) == Some(r)
  }

  lemma SedLinkRange(t: string, r: LineRange)
    requires IsWindowToken(t, r)
    ensures var link := SedLink(t);
            && IsLink(link) && Unwrap(link) == link && !UnsafeLink(link) && NotPiped(link)
            && CommandReadRange(link) == Some(RangedRead(r, "F", false, PLAIN))
  {
    var link := SedLink(t);
    SedLinkWords(t);
    SedLinkUnrefused(t);
    SedIsPassed(link, t);
    AlnumIsBare("F");
    NoBarIsOneStage(link);
    SedWithF(link, t, r);
    RangeIs(link, r);
  }

  /** `sed -n SCRIPT F` is credited with the window of its script. */
  lemma SedIsCredited(t: string, r: LineRange)
    requires IsWindowToken(t, r)
    ensures IsLink(SedLink(t)) && !UnsafeLink(SedLink(t)) && NotPiped(SedLink(t))
    ensures CreditOf(SedLink(t)) == Some(Credit("F", r)) && ReadOperand(SedLink(t)) == Some("F")
  {
    SedLinkRange(t, r);
  }

  lemma SedLinkToken(t: string, r: LineRange)
    requires IsWindowToken(t, r)
    ensures ScriptToken(SedLink(t)) == t
  {
    SedLinkRange(t, r);
    SedLinkWords(t);
    TokenIs(SedLink(t), t);
  }

  lemma SedIsPassed(link: string, t: string)
    requires Words(link) == ["sed", "-n", t, "F"]
    ensures Unwrap(link) == link && !UnsafeLink(link) && BaseName("sed") == "sed"
  {
    NotAShellWord("sed");
    NotListed("sed");
    BareCommandIsItself(link, "sed");
  }

  // ----- a wrapper whose script the outer shell expands -----

  lemma TokenOf(x: string)
    requires x == "1,$p" || x == "1,2p" || x == "+1p"
    ensures IsToken(S.InQuotes('\'', x)) && DollarsEnd(S.InQuotes('\'', x))
    ensures '>' !in S.InQuotes('\'', x) && '`' !in S.InQuotes('\'', x)
  {
    assert forall c :: c in x ==> IsScriptChar(c);
    assert DollarsEnd(x);
    ScriptIsToken(x);
  }

  predicate IsScriptChar(c: char) { IsAlnum(c) || c == ',' || c == '$' || c == '+' }

  lemma ScriptIsToken(x: string)
    requires (forall c :: c in x ==> IsScriptChar(c)) && DollarsEnd(x)
    ensures IsToken(S.InQuotes('\'', x)) && DollarsEnd(S.InQuotes('\'', x))
    ensures '>' !in S.InQuotes('\'', x) && '`' !in S.InQuotes('\'', x)
  {
    var t := S.InQuotes('\'', x);
    assert Inner(t) == x && t[0] == '\'' && t[|t| - 1] == '\'';
    forall c | c in t ensures IsHarmless(c) && !IsSpace(c) && c != '>' && c != '`' {
      assert c == '\'' || c in x;
    }
    assert '\'' !in x;
    QuotedDollars(x);
  }

  lemma QuotedDollars(x: string)
    requires DollarsEnd(x)
    ensures DollarsEnd(S.InQuotes('\'', x))
  {
    DollarsJoin(x, "'");
    DollarsJoin("'", x + "'");
    assert S.InQuotes('\'', x) == "'" + (x + "'");
  }

  /** The link is one the guard passes, and is credited with this window of F. */
  predicate IsWindowOfF(link: string, r: LineRange) {
    && IsLink(link) && !UnsafeLink(link) && NotPiped(link)
    && CreditOf(link) == Some(Credit("F", r)) && ReadOperand(link) == Some("F")
  }

  lemma ToEndIsCredited()
    ensures IsWindowOfF(SedLink(TO_END), LineRange(1, None))
  {
    assert S.TwoAddresses("1", "$") == "1,$p";
    TokenOf("1,$p");
    Windows();
    SedIsCredited(TO_END, LineRange(1, None));
  }

  lemma FirstTwoIsCredited()
    ensures IsWindowOfF(SedLink(FIRST_TWO), LineRange(1, Some(2)))
  {
    assert S.TwoAddresses("1", "2") == "1,2p";
    TokenOf("1,2p");
    Windows();
    SedIsCredited(FIRST_TWO, LineRange(1, Some(2)));
  }

  lemma SignedIsCredited()
    ensures IsWindowOfF(SedLink(SIGNED), LineRange(1, Some(1)))
  {
    assert S.OneAddress("+1") == "+1p";
    TokenOf("+1p");
    Windows();
    SedIsCredited(SIGNED, LineRange(1, Some(1)));
  }

  /** `sed -n '1,$p' F; sed -n '1,2p' F` */
  const BOTH_WINDOWS: string := Sequenced(SedLink(TO_END), SedLink(FIRST_TWO))

  lemma BothAreAccepted()
    ensures SequenceOfReads(BOTH_WINDOWS) == Some([SedLink(TO_END), SedLink(FIRST_TWO)])
  {
    ToEndIsCredited();
    FirstTwoIsCredited();
    LinkIsPiece(SedLink(TO_END));
    LinkIsPiece(SedLink(FIRST_TWO));
    SequencedIsAccepted(SedLink(TO_END), SedLink(FIRST_TWO), "F");
  }

  /** `sh FLAG QscriptQ` */
  function ShCall(flag: string, q: char, script: string): Wrapper { Wrapper("sh", " ", flag, " ", q, script) }

  lemma ShCallIsShaped(flag: string, q: char, script: string)
    requires (flag == "-c" || flag == "-nc") && IsQuote(q) && q !in script
    ensures ShCall(flag, q, script).Shaped() && !Contains("sh", flag)
  {
    AlnumIsBare("sh");
    assert BaseName("sh") == "sh";
    assert IsShellName("sh");
    forall c | c in flag ensures IsOrdinary(c) && !IsSpace(c) && c != '#' { assert c == '-' || c == 'n' || c == 'c'; }
    assert BareWord(flag) && IsFlagWord(flag);
    NotContained("sh", flag);
  }

  lemma DollarInScript()
    ensures '"' !in BOTH_WINDOWS && '$' in BOTH_WINDOWS
  {
    assert '$' in TO_END by { assert TO_END == "'1,$p'"; }
    assert '$' in SedLink(TO_END);
    forall c | c in BOTH_WINDOWS ensures c != '"' {
      assert TO_END == "'1,$p'" && FIRST_TWO == "'1,2p'";
      assert c in "sed" || c in "-n" || c in TO_END || c in FIRST_TWO || c == ' ' || c == 'F' || c == ';';
    }
  }

  lemma {:induction false} DollarIsNotLiteral(x: string)
    requires '$' in x
    ensures !LiteralText(x)
  {
    if x[0] != '$' {
      assert x == [x[0]] + x[1..];
      DollarIsNotLiteral(x[1..]);
    }
  }

  /** `sh -c "sed -n '1,$p' F; sed -n '1,2p' F"`: all of F is credited, but the outer shell expands
      `$p` first, so the command may exit zero having shown nothing. */
  lemma ExpandedScriptIsCredited(files: Files)
    ensures var v := ShCall("-c", '"', BOTH_WINDOWS);
            && ReadSegments(v.Render()) == [SedLink(TO_END), SedLink(FIRST_TWO)]
            && CreditOf(SedLink(TO_END)) == Some(Credit("F", LineRange(1, None)))
            && ExecText(SILENT, v.Render(), State(files, true)).status == 0
            && AllShown(ExecText(SILENT, v.Render(), State(files, true)).trace) == []
  {
    var v := ShCall("-c", '"', BOTH_WINDOWS);
    DollarInScript();
    ShCallIsShaped("-c", '"', BOTH_WINDOWS);
    DollarIsNotLiteral(BOTH_WINDOWS);
    SilentWrapper(v, files);
    WrapperIsTrimmed(v);
    UnwrapExactly(v);
    BothAreAccepted();
    ToEndIsCredited();
  }

  /** `sh -nc 'cat F'`: the parser takes any flag that ends in `c`, and F is credited, but `-n` has
      the shell read its script and run none of it. */
  lemma UnrunScriptIsCredited(files: Files)
    ensures var v := ShCall("-nc", '\'', CAT_F);
            && Unwrap(v.Render()) == CAT_F && CreditOf(CAT_F) == Some(Credit("F", WHOLE)) && !v.Literal()
            && ExecText(SILENT, v.Render(), State(files, true)).status == 0
            && AllShown(ExecText(SILENT, v.Render(), State(files, true)).trace) == []
  {
    var v := ShCall("-nc", '\'', CAT_F);
    UnrunIsShaped();
    SilentWrapper(v, files);
    UnwrapExactly(v);
    CatIsCredited();
  }

  lemma UnrunIsShaped()
    ensures var v := ShCall("-nc", '\'', CAT_F); v.Shaped() && !v.Literal() && !Contains(v.prog, v.flag)
  {
    InnerChars();
    NoQuoteIn(CAT_F, '\'');
    ShCallIsShaped("-nc", '\'', CAT_F);
    NotACallFlag("-nc");
  }

  lemma NotACallFlag(flag: string)
    requires flag == "-nc"
    ensures !IsCallFlag(flag)
  {
    assert flag[1..][0] == 'n' && 'n' in flag[1..];
  }

  // ----- a script sed rejects, masked in a sequence -----

  lemma SedLinkIsPlain(t: string)
    requires IsToken(t)
    ensures PlainLink(SedLink(t))
  {
    var link := SedLink(t);
    SedLinkWords(t);
    NotAShellWord("sed");
    BareCommandIsItself(link, "sed");
    assert '|' !in link;
    NoBarIsOneStage(link);
    AlnumIsBare("sed");
    AlnumIsBare("F");
    assert BareWord("-n") by { assert IsOrdinary('-') && IsOrdinary('n'); }
    FourPlain(link, "sed", "-n", t, "F");
  }

  lemma FourPlain(link: string, a: string, b: string, c: string, d: string)
    requires Words(link) == [a, b, c, d] && Unwrap(link) == link && Trim(link) == link && SplitOn(link, '|') == [link]
    requires BareWord(a) && '=' !in a && PlainWord(b) && PlainWord(c) && PlainWord(d) && AllHarmless(link)
    ensures PlainLink(link)
  {
    assert PlainStage(link);
  }

  lemma SignedToken()
    ensures IsToken(SIGNED) && StartsWithSign(ScriptToken(SedLink(SIGNED)))
  {
    SignedIsAToken();
    Windows();
    SedLinkToken(SIGNED, LineRange(1, Some(1)));
    S.QuotesStrip('\'', S.OneAddress("+1"));
    SignStarts(SIGNED);
  }

  lemma SignedIsAToken()
    ensures IsToken(SIGNED) && DollarsEnd(SIGNED) && '>' !in SIGNED && '`' !in SIGNED
  {
    assert S.OneAddress("+1") == "+1p";
    TokenOf("+1p");
  }

  lemma SignStarts(t: string)
    requires StripQuotes(t) == S.OneAddress("+1")
    ensures StartsWithSign(t)
  {
    assert S.OneAddress("+1")[0] == '+';
  }

  lemma TokenIs(link: string, t: string)
    requires Words(link) == ["sed", "-n", t, "F"] && Trim(link) == link && NotPiped(link)
    requires CommandReadRange(link).Some?
    ensures Unwrap(link) == link ==> ScriptToken(link) == t
  {
    RangeOfUnpiped(link);
    SedScriptToken(link);
  }

  /** `sed -n '+1p' F; cat F` */
  const MASKED: string := Sequenced(SedLink(SIGNED), CAT_F)

  lemma CatIsPassed()
    ensures IsLink(CAT_F) && !UnsafeLink(CAT_F) && ReadOperand(CAT_F) == Some("F")
  {
    CatLink();
    LinksArePassed();
    CatIsCredited();
    OperandIsCredit(CAT_F);
  }

  lemma MaskedIsAccepted()
    ensures SequenceOfReads(MASKED) == Some([SedLink(SIGNED), CAT_F]) && Modelled(MASKED)
  {
    SignedIsCredited();
    CatIsPassed();
    LinkIsPiece(SedLink(SIGNED));
    LinkIsPiece(CAT_F);
    SequencedIsAccepted(SedLink(SIGNED), CAT_F, "F");
    SequencedIsModelled(SedLink(SIGNED), CAT_F);
  }

  lemma MaskedIsPlain()
    ensures AllPlain([SedLink(SIGNED), CAT_F]) && NotPiped(CAT_F)
  {
    SignedToken();
    SedLinkIsPlain(SIGNED);
    CatIsCredited();
  }

  lemma CatSucceeds(w: World, files: Files)
    requires "F" in files
    ensures ExecLink(w, CAT_F, State(files, true)).trace[0].status == 0
  {
    CatIsCredited();
    CatReadIs();
    RunCredited(w, CAT_F, State(files, true));
    WholeSucceeds(w, CAT_F, State(files, true));
  }

  lemma WholeSucceeds(w: World, link: string, st: State)
    requires CreditOf(link).Some? && RunsAsCredited(w, link, st) && NotPiped(link) && CommandReadRange(link).None?
    requires CreditOf(link).value.path in st.files
    ensures ExecLink(w, link, st).trace[0].status == 0
  {
  }

  lemma LastReadMasks(w: World, cmd: string, a: string, b: string, files: Files)
    requires Modelled(cmd) && SequenceOfReads(cmd) == Some([a, b]) && AllPlain([a, b]) && NotPiped(b)
    requires ExecLink(w, b, State(files, true)).trace[0].status == 0 && CreditOf(a).Some? && !ScriptIsValid(a)
    ensures var o := ExecText(w, cmd, State(files, true));
            o.status == 0 && |o.trace| == 2 && o.trace[0].link == a && o.trace[0].shown == []
  {
    SequenceStatus(w, cmd, [a, b], files);
    SequenceRanSound(w, cmd, [a, b], files);
    assert CreditIsTrue(w.blanks, [a, b][0], ExecText(w, cmd, State(files, true)).trace[0], files);
  }

  lemma SignedIsInvalid()
    ensures CreditOf(SedLink(SIGNED)) == Some(Credit("F", LineRange(1, Some(1)))) && !ScriptIsValid(SedLink(SIGNED))
  {
    SignedIsCredited();
    SignedToken();
  }

  /** `sed -n '+1p' F; cat F`: line 1 is credited to the first link, `sed` rejects its script, and
      whenever F is readable the sequence exits zero all the same. */
  lemma SignedScriptIsMasked(w: World, files: Files)
    requires "F" in files
    ensures var o := ExecText(w, MASKED, State(files, true));
            && CreditOf(SedLink(SIGNED)) == Some(Credit("F", LineRange(1, Some(1))))
            && o.status == 0 && |o.trace| == 2 && o.trace[0].link == SedLink(SIGNED) && o.trace[0].shown == []
  {
    MaskedIsAccepted();
    MaskedIsPlain();
    SignedIsInvalid();
    CatSucceeds(w, files);
    LastReadMasks(w, MASKED, SedLink(SIGNED), CAT_F, files);
  }

  // ----- a pipeline that hides a missing file -----

  /** Two stages. */
  function Barred(a: string, b: string): string { (a + " ") + ("|" + (" " + b)) }

  lemma BarredStages(a: string, b: string)
    requires IsLink(a) && IsLink(b)
    ensures SplitOn(Barred(a, b), '|') == [a + " ", " " + b]
    ensures Trim(a + " ") == a && Trim(" " + b) == b && Words(a + " ") == Words(a) && Words(" " + b) == Words(b)
  {
    C.SplitAtBar(a + " ", " " + b);
    TrimPadded(a);
    TrimPadded(b);
    WordsTrim(a + " ");
    WordsTrim(" " + b);
  }

  lemma BarredIsTame(a: string, b: string)
    requires IsPiece(a) && IsPiece(b) && '|' !in a && '|' !in b
    ensures AllTame(Barred(a, b)) && SingleBars(Barred(a, b))
  {
    SingleBarsJoin(" ", b);
    SingleBarsJoin("|", " " + b);
    SingleBarsJoin(a, " ");
    SingleBarsJoin(a + " ", "|" + (" " + b));
  }

  lemma BarredIsBalanced(a: string, b: string)
    requires Balanced(a) && Balanced(b)
    ensures Balanced(Barred(a, b))
  {
    BalancedJoin(" ", b);
    BalancedJoin("|", " " + b);
    BalancedJoin(a, " ");
    BalancedJoin(a + " ", "|" + (" " + b));
  }

  lemma BarredIsTrimmed(a: string, b: string)
    requires a != [] && b != [] && Trim(a) == a && Trim(b) == b
    ensures Trim(Barred(a, b)) == Barred(a, b) != []
  {
    var s := Barred(a, b);
    assert s[0] == a[0] && s[|s| - 1] == b[|b| - 1];
    EndsOfTrimmed(a);
    EndsOfTrimmed(b);
    TrimmedByEnds(s);
  }

  lemma BarredIsPiece(a: string, b: string)
    requires IsLink(a) && IsLink(b)
    ensures IsPiece(Barred(a, b))
  {
    LinkIsPiece(a);
    LinkIsPiece(b);
    BarredIsTame(a, b);
    BarredIsBalanced(a, b);
    BarredIsTrimmed(a, b);
  }

  lemma EndsOfTrimmed(s: string)
    requires s != [] && Trim(s) == s
    ensures !IsSpace(s[0]) && !IsSpace(s[|s| - 1])
  {
  }

  /** `sed -n '1,2p'` */
  const SED_FILTER: string := Spaced("sed", Spaced("-n", FIRST_TWO))

  /** `cat F | sed -n '1,2p'` */
  const CAT_PIPE: string := Barred(CAT_F, SED_FILTER)

  lemma FilterScript(x: string, t: string)
    requires x == "1,2p" && t == S.InQuotes('\'', x)
    ensures IsWord(t) && IsToken(t) && AllUnrefused(t) && !StartsWithSign(t)
  {
    TokenOf(x);
    QuotedIsBalanced(t);
    S.QuotesStrip('\'', x);
    forall c | c in t ensures c != '$' { assert c == '\'' || c in x; }
  }

  lemma FilterToken()
    ensures IsWord(FIRST_TWO) && IsToken(FIRST_TWO) && AllUnrefused(FIRST_TWO) && !StartsWithSign(FIRST_TWO)
  {
    assert S.TwoAddresses("1", "2") == "1,2p";
    FilterScript("1,2p", FIRST_TWO);
  }

  lemma FilterLink()
    ensures IsLink(SED_FILTER) && Words(SED_FILTER) == ["sed", "-n", FIRST_TWO] && AllUnrefused(SED_FILTER)
  {
    FilterToken();
    FixedWords();
    ThreeWords("sed", "-n", FIRST_TWO);
    AlnumIsUnrefused("sed");
    UnrefusedSpaced("-n", FIRST_TWO);
    UnrefusedSpaced("sed", Spaced("-n", FIRST_TWO));
  }

  lemma FilterIs(stage: string, t: string, r: LineRange)
    requires Words(stage) == ["sed", "-n", t] && BaseName("sed") == "sed" && ParseSedPrintRange(t) == Some(r)
    ensures SedFilter(stage) == Some(r)
  {
  }

  lemma FilterReads()
    ensures SedFilter(SED_FILTER) == Some(LineRange(1, Some(2)))
  {
    FilterLink();
    Windows();
    NotAShellWord("sed");
    FilterIs(SED_FILTER, FIRST_TWO, LineRange(1, Some(2)));
  }

  /** A pipeline of a plain reader of F and a plain window of it. */
  lemma PipeCredit(link: string, a: string, b: string, read: WholeRead, r: LineRange)
    requires Unwrap(link) == link && Trim(link) == link && SplitOn(link, '|') == [a, b] && !RefusedForRange(link)
    requires ReaderOf(Words(Trim(a))) == Some(read) && SedFilter(Trim(b)) == Some(r)
    ensures CommandReadRange(link) == Some(RangedRead(r, read.operand, read.viaNl, read.decoration))
    ensures CreditOf(link) == Some(Credit(read.operand, r)) && ReadOperand(link) == Some(read.operand)
  {
  }

  lemma PipeIsUnrefused(s: string)
    requires s != [] && SingleBars(s) && forall c :: c in s ==> c == '|' || IsUnrefused(c)
    ensures !RefusedForRange(s)
  {
    NoneOf(s, {';', '&', '>', '<', '`'});
    SingleBarsNotDoubled(s);
    NotContained(s, "$(");
    NotContained(s, "$'");
  }

  lemma CatPipeWords()
    ensures Words(CAT_PIPE) != [] && Words(CAT_PIPE)[0] == "cat"
  {
    var rest := "F" + (" " + ("|" + (" " + SED_FILTER)));
    assert CAT_PIPE == "cat" + (" " + rest);
    NextWord("cat", rest);
  }

  lemma BarredIsUnrefused(a: string, b: string)
    requires IsLink(a) && IsLink(b) && AllUnrefused(a) && AllUnrefused(b)
    ensures !RefusedForRange(Barred(a, b))
  {
    BarredIsPiece(a, b);
    forall c | c in Barred(a, b) ensures c == '|' || IsUnrefused(c) {
      assert c in a || c == ' ' || c == '|' || c in b;
    }
    PipeIsUnrefused(Barred(a, b));
  }

  lemma CatFLink()
    ensures IsLink(CAT_F) && AllUnrefused(CAT_F)
  {
    AlnumIsUnrefused("F");
    AlnumIsBare("F");
    CatOfLink("F");
  }

  lemma CatPipeIsClean()
    ensures IsPiece(CAT_PIPE) && !RefusedForRange(CAT_PIPE)
  {
    CatFLink();
    FilterLink();
    BarredIsPiece(CAT_F, SED_FILTER);
    BarredIsUnrefused(CAT_F, SED_FILTER);
  }

  lemma CatPipeIsPassed()
    ensures !UnsafeLink(CAT_PIPE) && Unwrap(CAT_PIPE) == CAT_PIPE
  {
    CatPipeWords();
    NotAShellWord("cat");
    NotListed("cat");
    BareCommandIsItself(CAT_PIPE, "cat");
  }

  lemma BarredCredit(a: string, b: string, read: WholeRead, r: LineRange)
    requires IsLink(a) && IsLink(b) && Unwrap(Barred(a, b)) == Barred(a, b) && !RefusedForRange(Barred(a, b))
    requires ReaderOf(Words(a)) == Some(read) && SedFilter(b) == Some(r)
    ensures CommandReadRange(Barred(a, b)).Some? && CreditOf(Barred(a, b)) == Some(Credit(read.operand, r))
    ensures ReadOperand(Barred(a, b)) == Some(read.operand)
  {
    BarredStages(a, b);
    BarredIsTrimmed(a, b);
    PipeCredit(Barred(a, b), a + " ", " " + b, read, r);
  }

  lemma CatReader() returns (read: WholeRead)
    ensures ReaderOf(Words(CAT_F)) == Some(read) && read.operand == "F"
  {
    CatLink();
    AlnumIsBare("F");
    NotAShellWord("cat");
    CatOperand(Words(CAT_F), "F");
    read := ReaderOf(Words(CAT_F)).value;
  }

  lemma CatPipeIsCredited()
    ensures CommandReadRange(CAT_PIPE).Some? && CreditOf(CAT_PIPE) == Some(Credit("F", LineRange(1, Some(2))))
    ensures ReadOperand(CAT_PIPE) == Some("F")
  {
    CatFLink();
    FilterLink();
    CatPipeIsClean();
    CatPipeIsPassed();
    FilterReads();
    var read := CatReader();
    BarredCredit(CAT_F, SED_FILTER, read, LineRange(1, Some(2)));
  }

  lemma StageIsPlain(s: string, ws: seq<string>)
    requires AllHarmless(s) && Words(s) == ws && ws != [] && (forall t :: t in ws ==> PlainWord(t))
    requires BareWord(ws[0]) && '=' !in ws[0]
    ensures PlainStage(s)
  {
  }

  predicate AllPlainWords(ws: seq<string>) {
    ws != [] && (forall t :: t in ws ==> PlainWord(t)) && BareWord(ws[0]) && '=' !in ws[0]
  }

  lemma PipeIsPlain(link: string, a: string, b: string)
    requires Unwrap(link) == link && Trim(link) == link && SplitOn(link, '|') == [a, b]
    requires PlainStage(a) && PlainStage(b)
    ensures PlainLink(link)
  {
  }

  lemma PaddedHarmless(a: string)
    requires AllHarmless(a)
    ensures AllHarmless(a + " ") && AllHarmless(" " + a)
  {
  }

  lemma BarredIsPlain(a: string, b: string)
    requires IsLink(a) && IsLink(b) && AllPlainWords(Words(a)) && AllPlainWords(Words(b))
    requires Unwrap(Barred(a, b)) == Barred(a, b)
    ensures PlainLink(Barred(a, b))
  {
    BarredStages(a, b);
    BarredIsTrimmed(a, b);
    PaddedHarmless(a);
    PaddedHarmless(b);
    StageIsPlain(a + " ", Words(a));
    StageIsPlain(" " + b, Words(b));
    PipeIsPlain(Barred(a, b), a + " ", " " + b);
  }

  lemma BarredIsPiped(a: string, b: string)
    requires Unwrap(Barred(a, b)) == Barred(a, b)
    ensures !NotPiped(Barred(a, b))
  {
    assert Barred(a, b)[|a| + 1] == '|';
  }

  lemma TwoPlainWords(a: string, b: string)
    requires BareWord(a) && '=' !in a && PlainWord(b)
    ensures AllPlainWords([a, b])
  {
  }

  lemma ThreePlainWords(a: string, b: string, c: string)
    requires BareWord(a) && '=' !in a && PlainWord(b) && PlainWord(c)
    ensures AllPlainWords([a, b, c])
  {
  }

  lemma CatStage()
    ensures AllPlainWords(["cat", "F"])
  {
    CatIsKnown();
    AlnumIsBare("F");
    TwoPlainWords("cat", "F");
  }

  lemma SedStage()
    ensures AllPlainWords(["sed", "-n", FIRST_TWO])
  {
    FilterToken();
    AlnumIsBare("sed");
    assert BareWord("-n") by { assert IsOrdinary('-') && IsOrdinary('n'); }
    ThreePlainWords("sed", "-n", FIRST_TWO);
  }

  lemma CatPipeIsPlain()
    ensures PlainLink(CAT_PIPE) && !NotPiped(CAT_PIPE)
  {
    CatLink();
    FilterLink();
    CatPipeIsPassed();
    CatStage();
    SedStage();
    BarredIsPlain(CAT_F, SED_FILTER);
    BarredIsPiped(CAT_F, SED_FILTER);
  }

  lemma PipeToken(link: string, a: string, b: string, t: string)
    requires Unwrap(link) == link && SplitOn(link, '|') == [a, b] && ReaderOf(Words(a)).Some?
    requires |Words(b)| == 3 && Words(b)[2] == t
    ensures ScriptToken(link) == t
  {
    ReaderIsNotSed(a);
  }

  lemma BarredToken(a: string, b: string, t: string)
    requires IsLink(a) && IsLink(b) && Unwrap(Barred(a, b)) == Barred(a, b) && ReaderOf(Words(a)).Some?
    requires |Words(b)| == 3 && Words(b)[2] == t
    ensures ScriptToken(Barred(a, b)) == t
  {
    BarredStages(a, b);
    PipeToken(Barred(a, b), a + " ", " " + b, t);
  }

  lemma CatPipeIsValid()
    ensures ScriptIsValid(CAT_PIPE)
  {
    CatFLink();
    FilterLink();
    FilterToken();
    CatPipeIsPassed();
    var read := CatReader();
    BarredToken(CAT_F, SED_FILTER, FIRST_TWO);
  }

  /** `cat F; cat F | sed -n '1,2p'` */
  const HIDING: string := Sequenced(CAT_F, CAT_PIPE)

  lemma HidingIsAccepted()
    ensures SequenceOfReads(HIDING) == Some([CAT_F, CAT_PIPE]) && Modelled(HIDING)
  {
    CatIsPassed();
    CatPipeIsClean();
    CatPipeIsPassed();
    CatPipeIsCredited();
    LinkIsPiece(CAT_F);
    SequencedIsAccepted(CAT_F, CAT_PIPE, "F");
    SequencedIsModelled(CAT_F, CAT_PIPE);
  }

  lemma PipeSucceeds(w: World, cmd: string, links: seq<string>, last: string, files: Files)
    requires Modelled(cmd) && SequenceOfReads(cmd) == Some(links) && AllPlain(links)
    requires links != [] && last == links[|links| - 1] && CreditOf(last).Some? && !NotPiped(last) && ScriptIsValid(last)
    ensures ExecText(w, cmd, State(files, true)).status == 0
  {
    SequenceSucceeds(w, cmd, links, files);
  }

  lemma BothPlain(a: string, b: string)
    requires PlainLink(a) && PlainLink(b)
    ensures AllPlain([a, b])
  {
  }

  /** `cat F; cat F | sed -n '1,2p'`: all of F is credited, and the status is that of the filter, so
      the call exits zero whatever files there are, F among them or not. */
  lemma PipelineHidesMissing(w: World, files: Files)
    ensures SequenceOfReads(HIDING) == Some([CAT_F, CAT_PIPE]) && CreditOf(CAT_F) == Some(Credit("F", WHOLE))
    ensures ExecText(w, HIDING, State(files, true)).status == 0
  {
    HidingIsAccepted();
    CatIsCredited();
    CatPipeIsCredited();
    CatPipeIsPlain();
    CatPipeIsValid();
    BothPlain(CAT_F, CAT_PIPE);
    PipeSucceeds(w, HIDING, [CAT_F, CAT_PIPE], CAT_PIPE, files);
  }

  // ----- an operand hidden from the classifier -----

  /** `sh -c 'cat F'`, and that inside another: `sh -c "sh -c 'cat F'"` */
  const INNER_CALL: Wrapper := ShCall("-c", '\'', CAT_F)
  const OUTER_CALL: Wrapper := ShCall("-c", '"', INNER_CALL.Render())

  /** The characters of a call of `sh` on letters and blanks. */
  predicate IsCallChar(c: char) { IsAlnum(c) || c == ' ' || c == '-' || c == '\'' }

  lemma RenderParts(v: Wrapper, c: char)
    requires c in v.Render()
    ensures c in v.prog || c in v.gap1 || c in v.flag || c in v.gap2 || c == v.quote || c in v.script
  {
  }

  lemma InnerChars()
    ensures forall c :: c in CAT_F ==> IsAlnum(c) || c == ' '
    ensures forall c :: c in INNER_CALL.Render() ==> IsCallChar(c)
  {
    forall c | c in CAT_F ensures IsAlnum(c) || c == ' ' { assert c in "cat" || c == ' ' || c == 'F'; }
    forall c | c in INNER_CALL.Render() ensures IsCallChar(c) { RenderParts(INNER_CALL, c); }
  }

  lemma CallsAreShaped()
    ensures INNER_CALL.Shaped() && OUTER_CALL.Shaped() && !Contains("sh", "-c")
  {
    InnerChars();
    NoQuoteIn(CAT_F, '\'');
    NoQuoteIn(INNER_CALL.Render(), '"');
    ShCallIsShaped("-c", '\'', CAT_F);
    ShCallIsShaped("-c", '"', INNER_CALL.Render());
  }

  lemma NoQuoteIn(s: string, q: char)
    requires || (q == '"' && forall c :: c in s ==> IsCallChar(c))
             || (q == '\'' && forall c :: c in s ==> IsAlnum(c) || c == ' ')
    ensures q !in s
  {
  }

  lemma CallsUnwrap()
    ensures Unwrap(OUTER_CALL.Render()) == INNER_CALL.Render() && Unwrap(INNER_CALL.Render()) == CAT_F
    ensures Trim(OUTER_CALL.Render()) == OUTER_CALL.Render() && Trim(INNER_CALL.Render()) == INNER_CALL.Render()
    ensures ShellCScript(INNER_CALL.Render()).Some?
  {
    CallsAreShaped();
    UnwrapExactly(OUTER_CALL);
    UnwrapExactly(INNER_CALL);
    WrapperIsTrimmed(OUTER_CALL);
    WrapperIsTrimmed(INNER_CALL);
    CallOfWrapper(INNER_CALL);
  }

  lemma NoWindowInCall(command: string, script: string)
    requires Unwrap(Trim(command)) == script && '|' !in script && ShellCScript(script).Some?
    ensures CommandReadRange(command).None?
  {
    NoBarIsOneStage(script);
    StageTrim(script);
    ShellNames(BaseName(Words(script)[0]));
  }

  lemma WholeOfCall(command: string, script: string)
    requires Unwrap(Trim(command)) == script && CreditOf(script) == Some(Credit("F", WHOLE))
    requires Unwrap(script) == script && Trim(script) == script && WholeFileRead(script).Some?
    requires CommandReadRange(script).None?
    ensures WholeFileRead(command) == WholeFileRead(script) && CommandReadRange(command).None?
  {
  }

  lemma OperandOfCall(seg: string, inner: string, read: WholeRead)
    requires Unwrap(Trim(seg)) == inner && CommandReadRange(seg).None? && !HasAny(inner, NOT_ONE_READ)
    requires WholeFileRead(inner) == Some(read)
    ensures WholeFileReadOperand(seg) == Some(read.operand)
  {
  }

  lemma CatReadIs()
    ensures Unwrap(CAT_F) == CAT_F && Trim(CAT_F) == CAT_F && CommandReadRange(CAT_F).None?
    ensures WholeFileRead(CAT_F).Some? && WholeFileRead(CAT_F).value.operand == "F"
  {
    CatLink();
    NotAShellWord("cat");
    BareCommandIsItself(CAT_F, "cat");
    CatIsCredited();
    NoBarIsOneStage(CAT_F);
    NoWindow(CAT_F);
  }

  lemma InnerCallReads()
    ensures WholeFileRead(INNER_CALL.Render()).Some? && WholeFileRead(INNER_CALL.Render()).value.operand == "F"
  {
    CallsUnwrap();
    CatReadIs();
    CatIsCredited();
    WholeOfCall(INNER_CALL.Render(), CAT_F);
  }

  lemma CallTextIsClean(s: string)
    requires forall c :: c in s ==> IsCallChar(c)
    ensures !HasAny(s, NOT_ONE_READ) && '|' !in s
  {
    forall c | c in s ensures c !in NOT_ONE_READ { assert IsCallChar(c); }
    NoneOf(s, NOT_ONE_READ);
  }

  /** `sh -c "sh -c 'cat F'"`: the operand parser names F, and the classifier sees no read. */
  lemma DoubleWrapIsHidden()
    ensures var seg := OUTER_CALL.Render();
            WholeFileReadOperand(seg) == Some("F") && !SegmentReadsFileContents(seg)
  {
    var seg, inner := OUTER_CALL.Render(), INNER_CALL.Render();
    CallsUnwrap();
    InnerCallReads();
    InnerChars();
    CallTextIsClean(inner);
    NoWindowInCall(seg, inner);
    OperandOfCall(seg, inner, WholeFileRead(inner).value);
    OperandHiddenExactly(seg);
  }
}
