/** The reads that the parsers credit, written out: readers, windows and numbering filters as
    structures with a rendering, and the token parsers proved to accept exactly the renderings. */
module ReadShapes {
  import opened Text
  import opened ReadParser
  import S = SedScripts

  // ----- quotes -----

  datatype Quoting = Bare | InSingle | InDouble

  function Quoted(q: Quoting, s: string): string {
    match q case Bare => s case InSingle => "'" + s + "'" case InDouble => "\"" + s + "\""
  }

  /** The text is quoted already. */
  ghost predicate IsQuoted(s: string) { exists x :: s == Quoted(InSingle, x) || s == Quoted(InDouble, x) }

  /** `tok` is `s`, in quotes, or bare where `s` itself looks like no quoted text. */
  ghost predicate Spells(tok: string, q: Quoting, s: string) { tok == Quoted(q, s) && (q.Bare? ==> !IsQuoted(s)) }

  lemma QuotedExactly(s: string, q: char, x: string)
    ensures s == [q] + x + [q] <==> WrappedIn(s, q) && Inner(s) == x
  {
    if WrappedIn(s, q) && Inner(s) == x { assert s == [q] + Inner(s) + [q]; }
    if s == [q] + x + [q] { assert s[1..|s| - 1] == x; }
  }

  lemma IsQuotedExactly(s: string)
    ensures IsQuoted(s) <==> WrappedIn(s, '\'') || WrappedIn(s, '"')
  {
    forall x ensures (s == Quoted(InSingle, x) <==> WrappedIn(s, '\'') && Inner(s) == x)
             ensures (s == Quoted(InDouble, x) <==> WrappedIn(s, '"') && Inner(s) == x)
    {
      QuotedExactly(s, '\'', x);
      QuotedExactly(s, '"', x);
    }
    if WrappedIn(s, '\'') { assert s == Quoted(InSingle, Inner(s)); }
    if WrappedIn(s, '"') { assert s == Quoted(InDouble, Inner(s)); }
  }

  lemma SpelledIsStripped(tok: string, q: Quoting, s: string)
    requires Spells(tok, q, s)
    ensures StripQuotes(tok) == s
  {
    IsQuotedExactly(s);
    QuotedExactly(tok, '\'', s);
    QuotedExactly(tok, '"', s);
  }

  lemma StrippedIsSpelled(tok: string) returns (q: Quoting)
    ensures Spells(tok, q, StripQuotes(tok))
  {
    IsQuotedExactly(tok);
    var s := StripQuotes(tok);
    if WrappedIn(tok, '\'') {
      q := InSingle;
      QuotedExactly(tok, '\'', s);
    } else if WrappedIn(tok, '"') {
      q := InDouble;
      QuotedExactly(tok, '"', s);
    } else {
      q := Bare;
    }
  }

  // ----- numbers -----

  /** A number as the parsers take it: decimal digits, a plus sign before them or not. */
  datatype Num = Num(plus: bool, digits: string) {
    predicate Valid(max: nat) { digits != [] && AllDigits(digits) && Decimal(digits) <= max }
    function Text(): string { (if plus then "+" else "") + digits }
    function Value(): nat { if AllDigits(digits) then Decimal(digits) else 0 }
  }

  lemma NumParses(n: Num, max: nat)
    requires n.Valid(max)
    ensures ParseUnsigned(n.Text(), max) == Some(n.Value())
  {
    assert n.digits[0] in n.digits;
    assert n.plus ==> n.Text()[1..] == n.digits;
    assert !n.plus ==> n.Text() == n.digits;
  }

  lemma ParsedIsNum(s: string, max: nat) returns (n: Num)
    requires ParseUnsigned(s, max).Some?
    ensures n.Valid(max) && n.Text() == s && Some(n.Value()) == ParseUnsigned(s, max)
  {
    if s[0] == '+' {
      n := Num(true, s[1..]);
      assert s == "+" + s[1..];
    } else {
      n := Num(false, s);
      assert [] + s == s;
    }
  }

  // ----- program names -----

  /** The program is `base`, alone or at the end of a path. */
  predicate Names(prog: string, base: string) { prog == base || EndsWith(prog, "/" + base) }

  lemma {:induction false} NamesExactly(prog: string, base: string)
    requires '/' !in base
    ensures BaseName(prog) == base <==> Names(prog, base)
  {
    if '/' in prog {
      NamesExactly(prog[1..], base);
      NamesTail(prog, base);
    } else {
      SuffixStarts(prog, "/" + base);
    }
  }

  lemma SuffixStarts(s: string, t: string)
    requires t != []
    ensures EndsWith(s, t) ==> t[0] in s
  {
    if EndsWith(s, t) { assert s[|s| - |t|..][0] == s[|s| - |t|]; }
  }

  lemma NamesTail(prog: string, base: string)
    requires '/' in prog && '/' !in base
    ensures Names(prog, base) <==> Names(prog[1..], base)
  {
    var t := prog[1..];
    if EndsWith(t, "/" + base) { assert prog[|prog| - |"/" + base|..] == t[|t| - |"/" + base|..]; }
    if EndsWith(prog, "/" + base) {
      if |prog| == |base| + 1 {
        assert prog == "/" + base;
      } else {
        assert t[|t| - |"/" + base|..] == prog[|prog| - |"/" + base|..];
      }
    }
    if t == base { assert prog == [prog[0]] + base; assert prog[0] == '/' || '/' in t; }
  }

  // ----- readers -----

  datatype CatFlag = Number | NonBlank | Visible | Ends | Tabs

  function CatText(f: CatFlag): string {
    match f case Number => "-n" case NonBlank => "-b" case Visible => "-v" case Ends => "-e" case Tabs => "-t"
  }

  datatype NlFlag = AllLines | TextLines | NoLines | Width(n: Num) | StartAt(k: Num)

  function NlText(f: NlFlag): string {
    match f
    case AllLines => "-ba"
    case TextLines => "-bt"
    case NoLines => "-bn"
    case Width(n) => "-w" + n.Text()
    case StartAt(k) => "-v" + k.Text()
  }

  /** An `nl` flag that a reader may have: widths from 1 to the largest 32-bit number, no first number. */
  predicate ReaderFlag(f: NlFlag) {
    match f
    case Width(n) => n.Valid(U32_MAX) && n.Value() > 0
    case StartAt(_) => false
    case _ => true
  }

  /** A flag that `nl` may have after a window that starts at line `first`. */
  predicate FilterFlag(f: NlFlag, first: nat) {
    match f
    case Width(n) => n.Valid(U64_MAX) && n.Value() > 0
    case StartAt(k) => k.Valid(U64_MAX) && k.Value() <= first
    case _ => true
  }

  function CatTexts(fs: seq<CatFlag>): (r: seq<string>)
    ensures |r| == |fs| && forall i :: 0 <= i < |fs| ==> r[i] == CatText(fs[i])
  {
    seq(|fs|, i requires 0 <= i < |fs| => CatText(fs[i]))
  }

  function NlTexts(fs: seq<NlFlag>): (r: seq<string>)
    ensures |r| == |fs| && forall i :: 0 <= i < |fs| ==> r[i] == NlText(fs[i])
  {
    seq(|fs|, i requires 0 <= i < |fs| => NlText(fs[i]))
  }

  /** The width the flags ask for, the last one counting, or six. */
  function WidthOf(fs: seq<NlFlag>): nat {
    if fs == [] then 6
    else if fs[|fs| - 1].Width? then fs[|fs| - 1].n.Value()
    else WidthOf(fs[..|fs| - 1])
  }

  /** A path as one operand: it is not empty and starts with no dash. */
  predicate IsPath(path: string) { path != [] && path[0] != '-' }

  /** `cat` or `nl`, flags before and after one operand. */
  datatype Reader =
    | CatReader(prog: string, before: seq<CatFlag>, quoting: Quoting, path: string, after: seq<CatFlag>)
    | NlReader(prog: string, nlBefore: seq<NlFlag>, quoting: Quoting, path: string, nlAfter: seq<NlFlag>)
  {
    ghost predicate Valid() {
      && IsPath(path) && (quoting.Bare? ==> !IsQuoted(path))
      && if CatReader? then Names(prog, "cat")
         else Names(prog, "nl") && forall f :: f in nlBefore + nlAfter ==> ReaderFlag(f)
    }

    function Tokens(): seq<string> {
      if CatReader? then [prog] + (CatTexts(before) + [Quoted(quoting, path)] + CatTexts(after))
      else [prog] + (NlTexts(nlBefore) + [Quoted(quoting, path)] + NlTexts(nlAfter))
    }

    /** What it adds to the lines it prints. */
    function Adds(): Decoration {
      if CatReader? then
        var fs := before + after;
        Decoration(if Number in fs || NonBlank in fs then Some(6) else None,
                   Ends in fs, Ends in fs || Visible in fs || Tabs in fs)
      else Decoration(Some(WidthOf(nlBefore + nlAfter)), false, false)
    }
  }

  lemma {:induction false} OperandsAppend(a: seq<string>, b: seq<string>)
    ensures Operands(a + b) == Operands(a) + Operands(b)
  {
    if b == [] {
      assert a + b == a;
    } else {
      var n := |b| - 1;
      assert a + b == (a + b[..n]) + [b[n]] && b == b[..n] + [b[n]];
      OperandsAppend(a, b[..n]);
      OperandsSnoc(a + b[..n], b[n]);
      OperandsSnoc(b[..n], b[n]);
    }
  }

  lemma {:induction false} FlagsAreNoOperands(fs: seq<string>)
    requires forall f :: f in fs ==> IsFlag(f)
    ensures Operands(fs) == []
  {
    if fs == [] {
    } else {
      FlagsAreNoOperands(fs[..|fs| - 1]);
      assert fs[|fs| - 1] in fs;
    }
  }

  lemma OneOperand(before: seq<string>, tok: string, after: seq<string>)
    requires (forall f :: f in before || f in after ==> IsFlag(f)) && !IsFlag(tok)
    ensures Operands(before + [tok] + after) == [tok]
  {
    FlagsAreNoOperands(before);
    FlagsAreNoOperands(after);
    OperandsAppend(before + [tok], after);
    OperandsSnoc(before, tok);
  }

  lemma PathTokenIsNoFlag(q: Quoting, path: string)
    requires IsPath(path)
    ensures !IsFlag(Quoted(q, path)) && Quoted(q, path) != []
  {
  }

  lemma CatTextKept(f: CatFlag)
    ensures IsFlag(CatText(f)) && CatText(f) != "-" && FlagKeepsLines("cat", CatText(f)) && !IsWidthFlag(CatText(f))
  {
    assert CatText(f)[1] != 'w' && CatText(f) in CAT_FLAGS;
  }

  lemma CatTextsAre(fs: seq<CatFlag>, f: CatFlag)
    ensures CatText(f) in CatTexts(fs) <==> f in fs
  {
    if f in fs {
      var i :| 0 <= i < |fs| && fs[i] == f;
      assert CatTexts(fs)[i] == CatText(f);
    }
    if CatText(f) in CatTexts(fs) {
      var i :| 0 <= i < |fs| && CatTexts(fs)[i] == CatText(f);
      assert fs[i] == f;
    }
  }

  lemma FlagsKept(base: string, before: seq<string>, tok: string, after: seq<string>)
    requires !IsFlag(tok) && forall f :: f in before || f in after ==> f != "-" && FlagKeepsLines(base, f)
    ensures FlagsKeepLines(base, before + [tok] + after)
  {
  }

  lemma ReaderIsOf(prog: string, base: string, args: seq<string>, tok: string, path: string)
    requires BaseName(prog) == base && (base == "cat" || base == "nl") && FlagsKeepLines(base, args)
    requires Operands(args) == [tok] && StripQuotes(tok) == path && IsPath(path)
    ensures ReaderOf([prog] + args) == Some(WholeRead(path, base == "nl", ReaderDecoration(base, args)))
  {
    assert ([prog] + args)[1..] == args;
  }

  /** A program, flags it keeps lines under, and one path between them. */
  lemma TokensAccepted(prog: string, base: string, before: seq<string>, tok: string, after: seq<string>, path: string)
    requires BaseName(prog) == base && (base == "cat" || base == "nl") && !IsFlag(tok)
    requires StripQuotes(tok) == path && IsPath(path)
    requires forall f :: f in before || f in after ==> IsFlag(f) && f != "-" && FlagKeepsLines(base, f)
    ensures ReaderOf([prog] + (before + [tok] + after))
         == Some(WholeRead(path, base == "nl", ReaderDecoration(base, before + [tok] + after)))
  {
    OneOperand(before, tok, after);
    FlagsKept(base, before, tok, after);
    ReaderIsOf(prog, base, before + [tok] + after, tok, path);
  }

  lemma CatAccepted(r: Reader)
    requires r.CatReader? && r.Valid()
    ensures ReaderOf(r.Tokens()) == Some(WholeRead(r.path, false, r.Adds()))
  {
    var before, tok, after := CatTexts(r.before), Quoted(r.quoting, r.path), CatTexts(r.after);
    NamesExactly(r.prog, "cat");
    PathTokenIsNoFlag(r.quoting, r.path);
    SpelledIsStripped(tok, r.quoting, r.path);
    forall f | f in before || f in after ensures IsFlag(f) && f != "-" && FlagKeepsLines("cat", f) {
      CatFlagIs(r.before, r.after, f);
    }
    TokensAccepted(r.prog, "cat", before, tok, after, r.path);
    CatDecorated(r, before + [tok] + after);
  }

  lemma CatFlagIs(a: seq<CatFlag>, b: seq<CatFlag>, t: string)
    requires t in CatTexts(a) || t in CatTexts(b)
    ensures IsFlag(t) && t != "-" && FlagKeepsLines("cat", t)
  {
    if t in CatTexts(a) {
      var i :| 0 <= i < |a| && CatTexts(a)[i] == t;
      CatTextKept(a[i]);
    } else {
      var i :| 0 <= i < |b| && CatTexts(b)[i] == t;
      CatTextKept(b[i]);
    }
  }

  lemma CatDecorated(r: Reader, args: seq<string>)
    requires r.CatReader? && IsPath(r.path)
    requires args == CatTexts(r.before) + [Quoted(r.quoting, r.path)] + CatTexts(r.after)
    ensures CatDecoration(args) == r.Adds()
  {
    PathTokenIsNoFlag(r.quoting, r.path);
    forall f: CatFlag ensures CatText(f) in args <==> f in r.before + r.after {
      CatTextsAre(r.before, f);
      CatTextsAre(r.after, f);
      CatTextKept(f);
    }
    assert CatText(Number) == "-n" && CatText(NonBlank) == "-b" && CatText(Visible) == "-v";
    assert CatText(Ends) == "-e" && CatText(Tabs) == "-t";
  }

  lemma NlTextKept(f: NlFlag)
    requires ReaderFlag(f)
    ensures IsFlag(NlText(f)) && NlText(f) != "-" && FlagKeepsLines("nl", NlText(f))
  {
    if f.Width? {
      NumParses(f.n, U32_MAX);
      assert NlText(f)[2..] == f.n.Text();
    }
  }

  /** One flag's effect on the width. */
  lemma NlTextWidth(f: NlFlag)
    requires f.Width? ==> f.n.Valid(U64_MAX)
    ensures IsWidthFlag(NlText(f)) <==> f.Width?
    ensures f.Width? ==> ParseU64(NlText(f)[2..]) == Some(f.n.Value())
  {
    if f.Width? {
      NumParses(f.n, U64_MAX);
      assert NlText(f)[2..] == f.n.Text();
    } else {
      assert NlText(f)[1] == 'b' || NlText(f)[1] == 'v';
    }
  }

  lemma NlTextsLast(fs: seq<NlFlag>)
    requires fs != []
    ensures NlTexts(fs) == NlTexts(fs[..|fs| - 1]) + [NlText(fs[|fs| - 1])]
  {
  }

  lemma {:induction false} NlWidths(fs: seq<NlFlag>)
    requires forall f :: f in fs && f.Width? ==> f.n.Valid(U64_MAX)
    ensures LastWidth(NlTexts(fs)) == Some(WidthOf(fs))
  {
    if fs == [] {
    } else {
      var n := |fs| - 1;
      assert fs[n] in fs && forall f :: f in fs[..n] ==> f in fs;
      NlWidths(fs[..n]);
      NlTextWidth(fs[n]);
      NlTextsLast(fs);
      LastWidthSnoc(NlTexts(fs[..n]), NlText(fs[n]));
    }
  }

  /** A token that asks for no width leaves the width as it is. */
  lemma {:induction false} WidthIgnores(a: seq<string>, tok: string, b: seq<string>)
    requires !IsWidthFlag(tok)
    ensures LastWidth(a + [tok] + b) == LastWidth(a + b)
  {
    if b == [] {
      assert a + [tok] + b == a + [tok] && a + b == a;
      LastWidthSnoc(a, tok);
    } else {
      var n := |b| - 1;
      WidthIgnores(a, tok, b[..n]);
      assert a + [tok] + b == (a + [tok] + b[..n]) + [b[n]] && a + b == (a + b[..n]) + [b[n]];
      LastWidthSnoc(a + [tok] + b[..n], b[n]);
      LastWidthSnoc(a + b[..n], b[n]);
    }
  }

  lemma NlFlagIs(fs: seq<NlFlag>, t: string)
    requires (forall f :: f in fs ==> ReaderFlag(f)) && t in NlTexts(fs)
    ensures IsFlag(t) && t != "-" && FlagKeepsLines("nl", t)
  {
    var i :| 0 <= i < |fs| && NlTexts(fs)[i] == t;
    NlTextKept(fs[i]);
  }

  lemma NlTextsAppend(a: seq<NlFlag>, b: seq<NlFlag>)
    ensures NlTexts(a + b) == NlTexts(a) + NlTexts(b)
  {
  }

  lemma ReaderWidths(fs: seq<NlFlag>)
    requires forall f :: f in fs ==> ReaderFlag(f)
    ensures LastWidth(NlTexts(fs)) == Some(WidthOf(fs))
  {
    forall f | f in fs && f.Width? ensures f.n.Valid(U64_MAX) { assert ReaderFlag(f); }
    NlWidths(fs);
  }

  lemma NlDecorated(a: seq<NlFlag>, tok: string, b: seq<NlFlag>)
    requires !IsFlag(tok) && forall f :: f in a + b ==> ReaderFlag(f)
    ensures LastWidth(NlTexts(a) + [tok] + NlTexts(b)) == Some(WidthOf(a + b))
  {
    WidthIgnores(NlTexts(a), tok, NlTexts(b));
    NlTextsAppend(a, b);
    ReaderWidths(a + b);
  }

  lemma NlAccepted(r: Reader)
    requires r.NlReader? && r.Valid()
    ensures ReaderOf(r.Tokens()) == Some(WholeRead(r.path, true, r.Adds()))
  {
    var before, tok, after := NlTexts(r.nlBefore), Quoted(r.quoting, r.path), NlTexts(r.nlAfter);
    NamesExactly(r.prog, "nl");
    PathTokenIsNoFlag(r.quoting, r.path);
    SpelledIsStripped(tok, r.quoting, r.path);
    forall f | f in before || f in after ensures IsFlag(f) && f != "-" && FlagKeepsLines("nl", f) {
      if f in before { NlFlagIs(r.nlBefore, f); } else { NlFlagIs(r.nlAfter, f); }
    }
    TokensAccepted(r.prog, "nl", before, tok, after, r.path);
    NlDecorated(r.nlBefore, tok, r.nlAfter);
  }

  // ----- nothing else is a reader -----

  /** Where the one operand stands. */
  lemma {:induction false} OperandAt(args: seq<string>) returns (i: nat)
    requires |Operands(args)| == 1
    ensures i < |args| && args[i] == Operands(args)[0] && !IsFlag(args[i])
    ensures forall f :: f in args[..i] || f in args[i + 1..] ==> IsFlag(f)
  {
    var n := |args| - 1;
    if IsFlag(args[n]) {
      i := OperandAt(args[..n]);
      assert args[..n][..i] == args[..i] && args[i + 1..] == args[..n][i + 1..] + [args[n]];
    } else {
      i := n;
      assert args[n + 1..] == [] && Operands(args[..n]) == [];
      OperandsAre(args[..n]);
    }
  }

  lemma {:induction false} CatFlagsOf(ts: seq<string>) returns (fs: seq<CatFlag>)
    requires forall t :: t in ts ==> t in CAT_FLAGS
    ensures CatTexts(fs) == ts
  {
    fs := [];
    if ts != [] {
      var n := |ts| - 1;
      assert ts[n] in ts;
      fs := CatFlagsOf(ts[..n]);
      var f := if ts[n] == "-n" then Number else if ts[n] == "-b" then NonBlank
               else if ts[n] == "-v" then Visible else if ts[n] == "-e" then Ends else Tabs;
      assert CatText(f) == ts[n];
      fs := fs + [f];
      assert ts == ts[..n] + [ts[n]];
    }
  }

  /** A flag of either kind of `nl`, with its number's value. */
  lemma NlFlagOf(t: string) returns (f: NlFlag)
    requires t in NL_FLAGS || (IsWidthFlag(t) && IsPositive(t[2..], U64_MAX)) || ("-v" <= t && ParseU64(t[2..]).Some?)
    ensures NlText(f) == t
    ensures f.Width? ==> f.n.Valid(U64_MAX) && f.n.Value() > 0 && ParseUnsigned(t[2..], U64_MAX) == Some(f.n.Value())
    ensures f.StartAt? ==> f.k.Valid(U64_MAX) && ParseU64(t[2..]) == Some(f.k.Value()) && "-v" <= t
    ensures f.Width? ==> IsWidthFlag(t)
  {
    if t in NL_FLAGS {
      f := if t == "-ba" then AllLines else if t == "-bt" then TextLines else NoLines;
    } else {
      var n := ParsedIsNum(t[2..], U64_MAX);
      assert t == t[..2] + t[2..];
      if IsWidthFlag(t) {
        assert t[1] == 'w';
        f := Width(n);
      } else {
        f := StartAt(n);
      }
    }
  }

  lemma SmallerNumber(s: string)
    ensures IsPositive(s, U32_MAX) ==> IsPositive(s, U64_MAX) && ParseUnsigned(s, U64_MAX).value <= U32_MAX
  {
  }

  lemma ReaderFlagOf(t: string) returns (f: NlFlag)
    requires NlFlagKeepsLines(t)
    ensures NlText(f) == t && ReaderFlag(f)
  {
    if IsWidthFlag(t) { SmallerNumber(t[2..]); }
    f := NlFlagOf(t);
    NotStart(t, f);
  }

  lemma {:induction false} NlFlagsOf(ts: seq<string>) returns (fs: seq<NlFlag>)
    requires forall t :: t in ts ==> NlFlagKeepsLines(t)
    ensures NlTexts(fs) == ts && forall f :: f in fs ==> ReaderFlag(f)
  {
    fs := [];
    if ts != [] {
      var n := |ts| - 1;
      assert ts[n] in ts && forall t :: t in ts[..n] ==> t in ts;
      var front := NlFlagsOf(ts[..n]);
      var f := ReaderFlagOf(ts[n]);
      fs := front + [f];
      NlTextsLast(fs);
      assert fs[..n] == front && ts == ts[..n] + [ts[n]];
    }
  }

  lemma NotStart(t: string, f: NlFlag)
    requires NlFlagKeepsLines(t) && NlText(f) == t && (f.StartAt? ==> "-v" <= t)
    requires f.Width? ==> IsWidthFlag(t) && f.n.Valid(U64_MAX) && f.n.Value() > 0
                          && ParseU64(t[2..]) == Some(f.n.Value())
    ensures ReaderFlag(f)
  {
    if t in NL_FLAGS { assert t[1] == 'b'; }
    if IsWidthFlag(t) { assert t[1] == 'w'; }
  }

  lemma CatShape(prog: string, before: seq<string>, tok: string, after: seq<string>) returns (r: Reader)
    requires BaseName(prog) == "cat" && IsPath(StripQuotes(tok))
    requires forall f :: f in before || f in after ==> f in CAT_FLAGS
    ensures r.Valid() && r.Tokens() == [prog] + (before + [tok] + after)
  {
    NamesExactly(prog, "cat");
    var q := StrippedIsSpelled(tok);
    var a := CatFlagsOf(before);
    var b := CatFlagsOf(after);
    r := CatReader(prog, a, q, StripQuotes(tok), b);
  }

  lemma NlShape(prog: string, before: seq<string>, tok: string, after: seq<string>) returns (r: Reader)
    requires BaseName(prog) == "nl" && IsPath(StripQuotes(tok))
    requires forall f :: f in before || f in after ==> NlFlagKeepsLines(f)
    ensures r.Valid() && r.Tokens() == [prog] + (before + [tok] + after)
  {
    NamesExactly(prog, "nl");
    var q := StrippedIsSpelled(tok);
    var a := NlFlagsOf(before);
    var b := NlFlagsOf(after);
    r := NlReader(prog, a, q, StripQuotes(tok), b);
  }

  lemma AcceptedArgs(toks: seq<string>)
    requires ReaderOf(toks).Some?
    ensures toks != [] && (BaseName(toks[0]) == "cat" || BaseName(toks[0]) == "nl")
    ensures FlagsKeepLines(BaseName(toks[0]), toks[1..])
    ensures |Operands(toks[1..])| == 1 && IsPath(StripQuotes(Operands(toks[1..])[0]))
  {
  }

  lemma ArgsParts(base: string, args: seq<string>) returns (before: seq<string>, tok: string, after: seq<string>)
    requires FlagsKeepLines(base, args) && |Operands(args)| == 1 && IsPath(StripQuotes(Operands(args)[0]))
    ensures args == before + [tok] + after && IsPath(StripQuotes(tok))
    ensures forall f :: f in before || f in after ==> FlagKeepsLines(base, f)
  {
    var i := OperandAt(args);
    before, tok, after := args[..i], args[i], args[i + 1..];
    assert args == before + [tok] + after;
    forall f | f in before || f in after ensures FlagKeepsLines(base, f) { assert f in args && IsFlag(f); }
  }

  /** The tokens of a reader the parser accepts are the rendering of one. */
  lemma ReaderShape(toks: seq<string>) returns (r: Reader)
    requires ReaderOf(toks).Some?
    ensures r.Valid() && r.Tokens() == toks
  {
    AcceptedArgs(toks);
    var before, tok, after := ArgsParts(BaseName(toks[0]), toks[1..]);
    assert toks == [toks[0]] + (before + [tok] + after);
    if BaseName(toks[0]) == "cat" {
      r := CatShape(toks[0], before, tok, after);
    } else {
      r := NlShape(toks[0], before, tok, after);
    }
  }

  /** Which tokens are a whole-file reader: exactly those of a `cat` or an `nl`, by any path, with any
      list of its portable flags around one operand in any quotes; and it is credited with that operand
      and with what its flags add. */
  lemma ReaderExactly(toks: seq<string>, read: WholeRead)
    ensures ReaderOf(toks) == Some(read)
            <==> exists r: Reader :: r.Valid() && r.Tokens() == toks && read == WholeRead(r.path, r.NlReader?, r.Adds())
  {
    forall r: Reader | r.Valid() && r.Tokens() == toks
      ensures ReaderOf(toks) == Some(WholeRead(r.path, r.NlReader?, r.Adds()))
    {
      if r.CatReader? { CatAccepted(r); } else { NlAccepted(r); }
    }
    if ReaderOf(toks) == Some(read) {
      var r := ReaderShape(toks);
    }
  }

  // ----- window scripts -----

  /** A `sed -n` script: one line, a range of lines, or from a line to the end. */
  datatype Script = OneLine(n: Num) | Span(a: Num, b: Num) | ToEnd(a: Num) {
    predicate Valid() {
      match this
      case OneLine(n) => n.Valid(U64_MAX) && n.Value() > 0
      case Span(a, b) => a.Valid(U64_MAX) && b.Valid(U64_MAX) && 0 < a.Value() <= b.Value()
      case ToEnd(a) => a.Valid(U64_MAX) && a.Value() > 0
    }
    function Text(): string {
      match this
      case OneLine(n) => n.Text() + "p"
      case Span(a, b) => (a.Text() + ("," + b.Text())) + "p"
      case ToEnd(a) => (a.Text() + ("," + "$")) + "p"
    }
    function Window(): LineRange {
      match this
      case OneLine(n) => LineRange(n.Value(), Some(n.Value()))
      case Span(a, b) => LineRange(a.Value(), Some(b.Value()))
      case ToEnd(a) => LineRange(a.Value(), None)
    }
  }

  lemma NumChars(n: Num, max: nat)
    requires n.Valid(max)
    ensures ',' !in n.Text() && n.Text() != "$"
  {
    forall c | c in n.Text() ensures c == '+' || IsDigit(c) { assert c == '+' || c in n.digits; }
    assert n.digits[0] in n.digits && n.digits[0] in n.Text();
  }

  lemma ScriptIsBare(s: Script)
    ensures !IsQuoted(s.Text())
  {
    IsQuotedExactly(s.Text());
    assert s.Text()[|s.Text()| - 1] == 'p';
  }

  lemma ScriptAccepted(tok: string, q: Quoting, s: Script)
    requires s.Valid() && tok == Quoted(q, s.Text())
    ensures ParseSedPrintRange(tok) == Some(s.Window())
  {
    ScriptIsBare(s);
    SpelledIsStripped(tok, q, s.Text());
    match s
    case OneLine(n) =>
      NumParses(n, U64_MAX);
      NumChars(n, U64_MAX);
      S.OneParse(tok, n.Text());
    case Span(a, b) =>
      NumParses(a, U64_MAX);
      NumParses(b, U64_MAX);
      NumChars(a, U64_MAX);
      NumChars(b, U64_MAX);
      S.TwoParse(tok, a.Text(), b.Text());
    case ToEnd(a) =>
      NumParses(a, U64_MAX);
      NumChars(a, U64_MAX);
      S.TwoParse(tok, a.Text(), "$");
  }

  lemma OneShape(a: string) returns (s: Script)
    requires ParseU64(a).Some? && ParseU64(a).value > 0
    ensures s.Valid() && s.Text() == a + "p" && s.Window() == LineRange(ParseU64(a).value, ParseU64(a))
  {
    var n := ParsedIsNum(a, U64_MAX);
    s := OneLine(n);
  }

  lemma ToEndShape(a: string) returns (s: Script)
    requires ParseU64(a).Some? && ParseU64(a).value > 0
    ensures s.Valid() && s.Text() == (a + ("," + "$")) + "p" && s.Window() == LineRange(ParseU64(a).value, None)
  {
    var n := ParsedIsNum(a, U64_MAX);
    s := ToEnd(n);
  }

  lemma SpanShape(a: string, b: string) returns (s: Script)
    requires ParseU64(a).Some? && ParseU64(a).value > 0 && ParseU64(b).Some? && ParseU64(b).value >= ParseU64(a).value
    ensures s.Valid() && s.Text() == (a + ("," + b)) + "p" && s.Window() == LineRange(ParseU64(a).value, ParseU64(b))
  {
    var m := ParsedIsNum(a, U64_MAX);
    var n := ParsedIsNum(b, U64_MAX);
    s := Span(m, n);
  }

  lemma OneBody(tok: string, a: string) returns (s: Script)
    requires StripQuotes(tok) == a + "p" && ',' !in a && ParseSedPrintRange(tok).Some?
    ensures s.Valid() && s.Text() == a + "p" && ParseSedPrintRange(tok) == Some(s.Window())
  {
    S.ParseOfInner(tok, a + "p", a);
    S.NoComma(a);
    assert a[..|a|] == a;
    s := OneShape(a);
  }

  lemma TwoBody(tok: string, a: string, b: string) returns (s: Script)
    requires StripQuotes(tok) == (a + ("," + b)) + "p" && ',' !in a && ParseSedPrintRange(tok).Some?
    ensures s.Valid() && s.Text() == (a + ("," + b)) + "p" && ParseSedPrintRange(tok) == Some(s.Window())
  {
    var body := a + ("," + b);
    S.ParseOfInner(tok, body + "p", body);
    S.FirstComma(a, b);
    assert body[..|a|] == a && body[|a| + 1..] == b;
    if b == "$" { s := ToEndShape(a); } else { s := SpanShape(a, b); }
  }

  /** The two addresses of a body, or its one address twice. */
  lemma BodyShape(tok: string, body: string) returns (s: Script)
    requires StripQuotes(tok) == body + "p" && ParseSedPrintRange(tok).Some?
    ensures s.Valid() && s.Text() == body + "p" && ParseSedPrintRange(tok) == Some(s.Window())
  {
    var i := IndexOf(body, ',');
    if i == |body| {
      assert body[..i] == body;
      s := OneBody(tok, body);
    } else {
      assert body == body[..i] + ("," + body[i + 1..]);
      s := TwoBody(tok, body[..i], body[i + 1..]);
    }
  }

  lemma ScriptEnds(tok: string) returns (body: string)
    requires ParseSedPrintRange(tok).Some?
    ensures StripQuotes(tok) == body + "p"
  {
    var inner := StripQuotes(tok);
    body := inner[..|inner| - 1];
    assert inner == body + [inner[|inner| - 1]];
  }

  lemma ScriptShape(tok: string) returns (q: Quoting, s: Script)
    requires ParseSedPrintRange(tok).Some?
    ensures s.Valid() && tok == Quoted(q, s.Text()) && ParseSedPrintRange(tok) == Some(s.Window())
  {
    q := StrippedIsSpelled(tok);
    var body := ScriptEnds(tok);
    s := BodyShape(tok, body);
  }

  /** Which scripts are windows: exactly a line, a range of lines or a line to the end, in any quotes
      or none. */
  lemma ScriptExactly(tok: string, r: LineRange)
    ensures ParseSedPrintRange(tok) == Some(r)
            <==> exists q: Quoting, s: Script :: s.Valid() && tok == Quoted(q, s.Text()) && r == s.Window()
  {
    forall q: Quoting, s: Script | s.Valid() && tok == Quoted(q, s.Text())
      ensures ParseSedPrintRange(tok) == Some(s.Window())
    {
      ScriptAccepted(tok, q, s);
    }
    if ParseSedPrintRange(tok) == Some(r) {
      var q, s := ScriptShape(tok);
    }
  }

  // ----- sed and nl as stages -----

  /** `sed -n SCRIPT`. */
  datatype Cut = Cut(prog: string, quoting: Quoting, script: Script) {
    predicate Valid() { Names(prog, "sed") && script.Valid() }
    function Tokens(): seq<string> { [prog, "-n", Quoted(quoting, script.Text())] }
  }

  /** `sed -n SCRIPT FILE`. */
  datatype FileCut = FileCut(cut: Cut, quoting: Quoting, path: string) {
    ghost predicate Valid() { cut.Valid() && IsPath(path) && (quoting.Bare? ==> !IsQuoted(path)) }
    function Tokens(): seq<string> { cut.Tokens() + [Quoted(quoting, path)] }
  }

  /** `nl` numbering what it is given. */
  datatype Numbering = Numbering(prog: string, flags: seq<NlFlag>) {
    predicate Valid(first: nat) { Names(prog, "nl") && forall f :: f in flags ==> FilterFlag(f, first) }
    function Tokens(): seq<string> { [prog] + NlTexts(flags) }
    function Adds(): Decoration { Decoration(Some(WidthOf(flags)), false, false) }
  }

  lemma CutOf(prog: string, tok: string) returns (c: Cut)
    requires BaseName(prog) == "sed" && ParseSedPrintRange(tok).Some?
    ensures c.Valid() && c.Tokens() == [prog, "-n", tok] && ParseSedPrintRange(tok) == Some(c.script.Window())
  {
    var q, s := ScriptShape(tok);
    NamesExactly(prog, "sed");
    c := Cut(prog, q, s);
  }

  lemma CutTokens(c: Cut)
    requires c.Valid()
    ensures |c.Tokens()| == 3 && BaseName(c.Tokens()[0]) == "sed" && c.Tokens()[1] == "-n"
    ensures ParseSedPrintRange(c.Tokens()[2]) == Some(c.script.Window())
  {
    NamesExactly(c.prog, "sed");
    ScriptAccepted(c.Tokens()[2], c.quoting, c.script);
  }

  lemma CutAccepted(stage: string, c: Cut)
    requires c.Valid() && Words(stage) == c.Tokens()
    ensures SedFilter(stage) == Some(c.script.Window())
  {
    CutTokens(c);
  }

  lemma CutShape(stage: string) returns (c: Cut)
    requires SedFilter(stage).Some?
    ensures c.Valid() && Words(stage) == c.Tokens()
  {
    var ws := Words(stage);
    c := CutOf(ws[0], ws[2]);
    assert ws == [ws[0], ws[1], ws[2]];
  }

  lemma FileCutAccepted(stage: string, c: FileCut)
    requires c.Valid() && Words(stage) == c.Tokens()
    ensures SedWithOperand(stage) == Some((c.cut.script.Window(), c.path))
  {
    CutTokens(c.cut);
    SpelledIsStripped(Words(stage)[3], c.quoting, c.path);
  }

  lemma FileCutWords(stage: string)
    requires SedWithOperand(stage).Some?
    ensures var ws := Words(stage);
            && |ws| == 4 && BaseName(ws[0]) == "sed" && ws[1] == "-n" && ParseSedPrintRange(ws[2]).Some?
            && IsPath(StripQuotes(ws[3]))
  {
  }

  lemma FileCutOf(prog: string, script: string, tok: string) returns (c: FileCut)
    requires BaseName(prog) == "sed" && ParseSedPrintRange(script).Some? && IsPath(StripQuotes(tok))
    ensures c.Valid() && c.Tokens() == [prog, "-n", script] + [tok]
  {
    var cut := CutOf(prog, script);
    var q := StrippedIsSpelled(tok);
    c := FileCut(cut, q, StripQuotes(tok));
  }

  lemma FourOf(ws: seq<string>)
    requires |ws| == 4
    ensures ws == [ws[0], ws[1], ws[2]] + [ws[3]]
  {
  }

  lemma FileCutShape(stage: string) returns (c: FileCut)
    requires SedWithOperand(stage).Some?
    ensures c.Valid() && Words(stage) == c.Tokens()
  {
    var ws := Words(stage);
    FileCutWords(stage);
    FourOf(ws);
    c := FileCutOf(ws[0], ws[2], ws[3]);
  }

  lemma FilterTextKept(f: NlFlag, first: nat)
    requires FilterFlag(f, first)
    ensures NlFilterFlag(NlText(f), first)
  {
    match f
    case Width(n) =>
      NumParses(n, U64_MAX);
      assert NlText(f)[2..] == n.Text();
    case StartAt(k) =>
      NumParses(k, U64_MAX);
      assert NlText(f)[2..] == k.Text();
    case _ =>
  }

  lemma NumberingAccepted(stage: string, first: nat, n: Numbering)
    requires n.Valid(first) && Words(stage) == n.Tokens()
    ensures NlFilter(stage, first) == Some(n.Adds())
  {
    NamesExactly(n.prog, "nl");
    var ts := NlTexts(n.flags);
    assert Words(stage)[1..] == ts;
    forall t | t in ts ensures NlFilterFlag(t, first) {
      var i :| 0 <= i < |ts| && ts[i] == t;
      FilterTextKept(n.flags[i], first);
    }
    forall f | f in n.flags && f.Width? ensures f.n.Valid(U64_MAX) { assert FilterFlag(f, first); }
    NlWidths(n.flags);
  }

  lemma FilterFlagOf(t: string, first: nat) returns (f: NlFlag)
    requires NlFilterFlag(t, first)
    ensures NlText(f) == t && FilterFlag(f, first)
  {
    f := NlFlagOf(t);
    if t in NL_FLAGS { assert t[1] == 'b'; }
    if IsWidthFlag(t) { assert t[1] == 'w'; }
  }

  lemma FilterFlagsFront(ts: seq<string>, first: nat)
    requires NlFilterFlags(ts, first) && ts != []
    ensures NlFilterFlags(ts[..|ts| - 1], first) && NlFilterFlag(ts[|ts| - 1], first)
  {
    assert ts[|ts| - 1] in ts;
  }

  lemma {:induction false} FilterFlagsOf(ts: seq<string>, first: nat) returns (fs: seq<NlFlag>)
    requires NlFilterFlags(ts, first)
    ensures NlTexts(fs) == ts && forall f :: f in fs ==> FilterFlag(f, first)
  {
    fs := [];
    if ts != [] {
      var n := |ts| - 1;
      FilterFlagsFront(ts, first);
      var front := FilterFlagsOf(ts[..n], first);
      var f := FilterFlagOf(ts[n], first);
      fs := front + [f];
      NlTextsLast(fs);
      assert fs[..n] == front && ts == ts[..n] + [ts[n]];
    }
  }

  /** Which stages number a window that starts at line `first`: exactly an `nl`, by any path, with any
      list of its body styles, widths of at least one and first numbers up to that line. */
  lemma NumberingExactly(stage: string, first: nat, d: Decoration)
    ensures NlFilter(stage, first) == Some(d)
            <==> exists n: Numbering :: n.Valid(first) && Words(stage) == n.Tokens() && d == n.Adds()
  {
    forall n: Numbering | n.Valid(first) && Words(stage) == n.Tokens()
      ensures NlFilter(stage, first) == Some(n.Adds())
    {
      NumberingAccepted(stage, first, n);
    }
    if NlFilter(stage, first) == Some(d) {
      var n := NumberingShape(stage, first);
      NumberingAccepted(stage, first, n);
    }
  }

  lemma NumberingShape(stage: string, first: nat) returns (n: Numbering)
    requires NlFilter(stage, first).Some?
    ensures n.Valid(first) && Words(stage) == n.Tokens()
  {
    var ws := Words(stage);
    NamesExactly(ws[0], "nl");
    var fs := FilterFlagsOf(ws[1..], first);
    n := Numbering(ws[0], fs);
    assert ws == [ws[0]] + ws[1..];
  }
}
