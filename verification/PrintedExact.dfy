/** When what a vetted command prints fits the budget of what it is credited with, exactly: for every
    script the parsers accept, as `sed` itself reads it, and for tools that end an open last line. */
module PrintedExact {
  import opened Text
  import opened ReadParser
  import opened ShellSemantics
  import opened Delivery
  import opened ReadSoundness
  import opened PrintedSize
  import S = SedScripts

  // ----- bytes written -----

  predicate EndsOpen(out: seq<Line>) { out != [] && (var l := out[|out| - 1]; l == [] || l[|l| - 1] != NL) }

  /** The newline a tool adds when it ends an open last line itself, as GNU `nl` and BSD `sed` do. */
  function Closing(out: seq<Line>, closes: bool): nat { if closes && EndsOpen(out) then 1 else 0 }

  function Written(out: seq<Line>, closes: bool): nat { Total(out) + Closing(out, closes) }

  lemma {:induction false} TotalAppend(a: seq<Line>, b: seq<Line>)
    ensures Total(a + b) == Total(a) + Total(b)
  {
    if a == [] {
      assert a + b == b;
    } else {
      assert (a + b)[1..] == a[1..] + b;
      TotalAppend(a[1..], b);
    }
  }

  lemma OneTotals(l: Line)
    ensures Total([l]) == |l|
  {
    var rest: seq<Line> := [l][1..];
    assert rest == [];
  }

  lemma {:induction false} NoBytesExactly(lines: seq<Line>)
    requires forall l :: l in lines ==> l != []
    ensures Total(lines) == 0 <==> lines == []
  {
    if lines != [] { assert lines[0] in lines; }
  }

  // ----- the two readings of a script -----

  /** The window the parser credits, and the one `sed` prints. */
  function Credited(script: string): LineRange
    requires ParseSedPrintRange(script).Some?
  {
    ParseSedPrintRange(script).value
  }

  /** A script the parser and `sed` both accept. */
  predicate BothAccept(script: string) { ParseSedPrintRange(script).Some? && !StartsWithSign(script) }

  function Printed(script: string): LineRange
    requires BothAccept(script)
  {
    SedAgrees(script);
    SedMeaningOf(StripQuotes(script)).window
  }

  /** The windows start together; what is printed goes on past what is credited exactly when the
      second address is relative. */
  lemma PrintedWindow(script: string)
    requires BothAccept(script)
    ensures var r, m := Credited(script), Printed(script);
            && m.start == r.start >= 1 && Proper(r) && Covers(m, r)
            && (if HasRelativeEnd(script) then r.end.Some? && m.end == Some(r.start + r.end.value) else m == r)
  {
    SedAgrees(script);
  }

  /** The printed lines of `out` past the credited window. */
  function Overrun<T>(out: seq<T>, r: LineRange, m: LineRange): seq<T>
    requires Stops(r, |out|) <= Stops(m, |out|)
  {
    out[Stops(r, |out|)..Stops(m, |out|)]
  }

  lemma WindowGoesOn<T>(out: seq<T>, script: string)
    requires BothAccept(script)
    ensures var r, m := Credited(script), Printed(script);
            && Skips(r, |out|) == Skips(m, |out|) && Stops(r, |out|) <= Stops(m, |out|)
            && WindowOf(out, m) == WindowOf(out, r) + Overrun(out, r, m)
  {
    PrintedWindow(script);
    WindowsJoin(out, Credited(script), Printed(script));
  }

  lemma WindowsJoin<T>(out: seq<T>, r: LineRange, m: LineRange)
    requires m.start == r.start && Covers(m, r)
    ensures Skips(r, |out|) == Skips(m, |out|) && Stops(r, |out|) <= Stops(m, |out|)
    ensures WindowOf(out, m) == WindowOf(out, r) + Overrun(out, r, m)
  {
  }

  /** Nothing is printed past the credited window exactly when the second address is not relative,
      or there are no lines there. */
  lemma NoOverrunExactly<T>(out: seq<T>, script: string)
    requires BothAccept(script)
    ensures var r, m := Credited(script), Printed(script);
            && Stops(r, |out|) <= Stops(m, |out|)
            && (Overrun(out, r, m) == [] <==> !HasRelativeEnd(script) || (r.end.Some? && |out| <= r.end.value))
  {
    PrintedWindow(script);
  }

  // ----- the verdict on a window -----

  /** What decides whether a window exceeds its budget: with nothing printed past the credited lines,
      it does exactly when those lines fill their bounds and the last one, open, is closed; with
      something printed past lines that fill their bounds, it always does. */
  predicate Decides(exceeds: bool, past: bool, full: bool, closed: bool) {
    if past then full ==> exceeds else exceeds <==> full && closed
  }

  /** `got` is printed of the credited lines and `over` past them. */
  lemma VerdictIs(got: seq<Line>, over: seq<Line>, budget: nat, full: bool, closes: bool)
    requires Total(got) <= budget && (Total(got) == budget <==> full) && forall l :: l in over ==> l != []
    ensures Decides(Written(got + over, closes) > budget, over != [], full, closes && EndsOpen(got))
  {
    TotalAppend(got, over);
    NoBytesExactly(over);
    if over == [] { assert got + over == got; }
  }

  lemma EndsOpenAppend(a: seq<Line>, b: seq<Line>)
    requires b != []
    ensures EndsOpen(a + b) <==> EndsOpen(b)
  {
    assert (a + b)[|a + b| - 1] == b[|b| - 1];
  }

  /** The printed window of a file: the credited lines, and those past them. */
  lemma PastExactly(file: seq<Line>, script: string)
    requires BothAccept(script)
    ensures var r, m := Credited(script), Printed(script);
            && Stops(r, |file|) <= Stops(m, |file|)
            && (Overrun(file, r, m) != [] <==> PrintsPast(script, |file|))
  {
    NoOverrunExactly(file, script);
    PrintedWindow(script);
  }

  /** The second address is relative, and the file has lines past the credited end. */
  predicate PrintsPast(script: string, n: nat)
    requires BothAccept(script)
  {
    HasRelativeEnd(script) && Credited(script).end.Some? && n > Credited(script).end.value
  }

  /** A window of a file, its credited lines and those past them. */
  lemma WindowParts(file: seq<Line>, script: string, lines: seq<Line>, over: seq<Line>)
    requires IsFile(file) && BothAccept(script) && lines == WindowOf(file, Credited(script))
    requires Stops(Credited(script), |file|) <= Stops(Printed(script), |file|)
    requires over == Overrun(file, Credited(script), Printed(script))
    ensures AllLines(lines) && AllLines(over) && WindowOf(file, Printed(script)) == lines + over
    ensures over != [] <==> PrintsPast(script, |file|)
    ensures Skips(Printed(script), |file|) == Skips(Credited(script), |file|)
    ensures Skips(Credited(script), |file|) + 1 + |lines| <= U64_SIZE
  {
    WindowGoesOn(file, script);
    PastExactly(file, script);
    forall l | l in lines || l in over ensures IsLine(l) { assert l in file; }
  }

  predicate AllLines(lines: seq<Line>) { forall l :: l in lines ==> IsLine(l) }

  /** A window whose cuts fall between `a`, `b` and `c` is `b`. */
  lemma WindowIsMiddle<T>(a: seq<T>, b: seq<T>, c: seq<T>, m: LineRange)
    requires Skips(m, |a| + |b| + |c|) == |a| && Stops(m, |a| + |b| + |c|) == |a| + |b|
    ensures WindowOf(a + (b + c), m) == b
  {
    assert |a + (b + c)| == |a| + |b| + |c|;
    assert (a + (b + c))[|a|..|a| + |b|] == b;
  }

  // ----- a bare window -----

  lemma {:induction false} PlainBudget(lines: seq<Line>, first: nat)
    ensures Budget(PLAIN, lines, first) == Total(lines)
  {
    if lines == [] {
    } else {
      PlainBudget(lines[1..], first + 1);
    }
  }

  /** `sed -n SCRIPT FILE`: over budget exactly when something is printed past the credited window or
      an open last line is closed. */
  lemma BareWindowExactly(script: string, file: seq<Line>, closes: bool)
    requires IsFile(file) && BothAccept(script)
    ensures var r, m := Credited(script), Printed(script);
            Written(WindowOf(file, m), closes) > WindowBudget(PLAIN, file, r)
            <==> PrintsPast(script, |file|) || (closes && EndsOpen(WindowOf(file, r)))
  {
    var r, m := Credited(script), Printed(script);
    WindowGoesOn(file, script);
    PastExactly(file, script);
    PlainBudget(WindowOf(file, r), Skips(r, |file|) + 1);
    var over := Overrun(file, r, m);
    forall l | l in over ensures l != [] { assert l in file; }
    VerdictIs(WindowOf(file, r), over, WindowBudget(PLAIN, file, r), true, closes);
  }

  // ----- cat -----

  /** The digits of a number. */
  function Wide(n: nat): nat { Ilog10(Max(n, 1)) + 1 }

  lemma WideFits(width: nat, lineNo: nat)
    requires width <= INT_MAX && lineNo <= U64_MAX
    ensures (Max(width, Wide(lineNo)) + 1) % U64_SIZE == Max(width, Wide(lineNo)) + 1
  {
    Ilog10Small(Max(lineNo, 1));
    assert Max(width, Wide(lineNo)) + 1 < U64_SIZE;
  }

  lemma ColumnWidth(no: nat, w: nat)
    ensures |NumberColumn(no, w)| == Max(w, Wide(no)) + 1
  {
    DigitCount(no);
  }

  /** `cat -v` needs four bytes for it. */
  predicate IsLong(b: Byte) { 128 <= b < 160 || b == 255 }

  /** Every byte that is no newline and no printable ASCII, to each of which the bound allows four,
      needs them. */
  predicate AllLong(line: Line) { forall b :: b in line && b != 10 && (b < 32 || b > 126) ==> IsLong(b) }

  /** The line fills its bound: every byte shown takes all the room allowed, an end is marked if ends
      are, and a number, if asked for, is printed and as wide as the source line's own. */
  predicate CatFills(fl: CatFlags, line: Line, no: nat, lineNo: nat)
    requires line != []
  {
    && (fl.visible ==> AllLong(line)) && (fl.ends ==> line[|line| - 1] == NL)
    && (fl.number || fl.nonblank ==> CatNumbers(fl, line) && Max(6, Wide(no)) == Max(6, Wide(lineNo)))
  }

  /** What a byte other than the newline leaves unused of its allowance. */
  function ByteSpare(fl: CatFlags, b: Byte): int {
    1 + (if fl.visible && IsUnprintable(b) then 3 else 0) - |ShowByte(fl, b)|
  }

  lemma ByteSpareExactly(fl: CatFlags, b: Byte)
    requires (fl.tabs ==> fl.visible) && b != NL
    ensures ByteSpare(fl, b) >= 0
    ensures ByteSpare(fl, b) == 0 <==> (fl.visible && IsUnprintable(b) ==> IsLong(b))
  {
  }

  /** The bytes of a line fill their allowance exactly when each one does and the end is marked. */
  lemma {:induction false} ShownExactly(fl: CatFlags, line: Line)
    requires (fl.tabs ==> fl.visible) && IsLine(line)
    ensures var allowed := |line| + (if fl.ends then 1 else 0) + (if fl.visible then 3 * Unprintable(line) else 0);
            && |ShowBytes(fl, line)| <= allowed
            && (|ShowBytes(fl, line)| == allowed
                <==> (fl.visible ==> AllLong(line)) && (fl.ends ==> line[|line| - 1] == NL))
  {
    var rest := line[1..];
    assert line == [line[0]] + rest;
    if |line| == 1 {
      assert rest == [] && ShowBytes(fl, rest) == [] && Unprintable(rest) == 0;
      if line[0] != NL { ByteSpareExactly(fl, line[0]); }
    } else {
      ByteSpareExactly(fl, line[0]);
      forall i | 0 <= i < |rest| - 1 ensures rest[i] != NL { assert rest[i] == line[i + 1]; }
      ShownExactly(fl, rest);
      assert rest[|rest| - 1] == line[|line| - 1];
      assert AllLong(line) <==> (IsUnprintable(line[0]) ==> IsLong(line[0])) && AllLong(rest);
    }
  }

  lemma CatColumnExactly(args: seq<string>, line: Line, no: nat, lineNo: nat)
    requires no <= lineNo <= U64_MAX
    ensures var fl := CatFlagsOf(args);
            var col := if CatNumbers(fl, line) then |NumberColumn(no, 6)| else 0;
            var allowed := if fl.number || fl.nonblank then Max(6, Wide(lineNo)) + 1 else 0;
            && col <= allowed
            && (col == allowed <==> (fl.number || fl.nonblank ==>
                                       CatNumbers(fl, line) && Max(6, Wide(no)) == Max(6, Wide(lineNo))))
  {
    ColumnWidth(no, 6);
    Ilog10Monotone(Max(no, 1), Max(lineNo, 1));
  }

  /** One line of `cat` leaves nothing unused exactly when it fills its bound. */
  lemma CatFillsExactly(args: seq<string>, line: Line, no: nat, lineNo: nat)
    requires IsLine(line) && no <= lineNo <= U64_MAX
    ensures var fl, d := CatFlagsOf(args), CatDecoration(args);
            && |CatLine(fl, line, no)| <= PrintedLen(d, line, lineNo)
            && (|CatLine(fl, line, no)| == PrintedLen(d, line, lineNo) <==> CatFills(fl, line, no, lineNo))
  {
    WideFits(6, lineNo);
    CatColumnExactly(args, line, no, lineNo);
    ShownExactly(CatFlagsOf(args), line);
  }

  predicate CatAllFill(fl: CatFlags, lines: seq<Line>, no: nat, first: nat)
    requires AllLines(lines)
  {
    if lines == [] then true
    else
      assert lines[0] in lines;
      CatFills(fl, lines[0], no, first) && CatAllFill(fl, lines[1..], CatNext(fl, lines[0], no), first + 1)
  }

  lemma AllLinesTail(lines: seq<Line>)
    requires AllLines(lines) && lines != []
    ensures IsLine(lines[0]) && AllLines(lines[1..])
  {
    assert lines[0] in lines;
  }

  lemma CatTotal(fl: CatFlags, lines: seq<Line>, no: nat)
    requires lines != []
    ensures Total(Cat(fl, lines, no))
         == |CatLine(fl, lines[0], no)| + Total(Cat(fl, lines[1..], CatNext(fl, lines[0], no)))
  {
    var rest := Cat(fl, lines[1..], CatNext(fl, lines[0], no));
    assert ([CatLine(fl, lines[0], no)] + rest)[1..] == rest;
  }

  /** What `cat` prints of lines it counts no higher than the source: it always fits, and leaves
      nothing unused exactly when every line fills its bound. */
  lemma {:induction false} CatTight(args: seq<string>, lines: seq<Line>, no: nat, first: nat)
    requires AllLines(lines) && no <= first && first + |lines| <= U64_SIZE
    ensures var got, budget := Total(Cat(CatFlagsOf(args), lines, no)), Budget(CatDecoration(args), lines, first);
            got <= budget && (got == budget <==> CatAllFill(CatFlagsOf(args), lines, no, first))
  {
    if lines == [] {
    } else {
      var fl, d := CatFlagsOf(args), CatDecoration(args);
      AllLinesTail(lines);
      CatFillsExactly(args, lines[0], no, first);
      CatTight(args, lines[1..], CatNext(fl, lines[0], no), first + 1);
      CatTotal(fl, lines, no);
    }
  }

  /** The number `cat` has come to after some lines. */
  function CatAfter(fl: CatFlags, lines: seq<Line>, no: nat): (r: nat)
    ensures no <= r <= no + |lines|
  {
    if lines == [] then no else CatAfter(fl, lines[1..], CatNext(fl, lines[0], no))
  }

  lemma {:induction false} CatAppend(fl: CatFlags, a: seq<Line>, b: seq<Line>, no: nat)
    ensures Cat(fl, a + b, no) == Cat(fl, a, no) + Cat(fl, b, CatAfter(fl, a, no))
  {
    if a == [] {
      assert a + b == b;
    } else {
      assert (a + b)[0] == a[0] && (a + b)[1..] == a[1..] + b;
      CatAppend(fl, a[1..], b, CatNext(fl, a[0], no));
    }
  }

  /** The end of a shown line is open exactly when the line's is. */
  lemma {:induction false} ShownEnds(fl: CatFlags, line: Line)
    requires line != []
    ensures var s := ShowBytes(fl, line); s != [] && (s[|s| - 1] == NL <==> line[|line| - 1] == NL)
  {
    var rest, s := line[1..], ShowBytes(fl, line);
    var head := ShowByte(fl, line[0]);
    if rest == [] {
      assert ShowBytes(fl, rest) == [] && s == head;
    } else {
      ShownEnds(fl, rest);
      var tail := ShowBytes(fl, rest);
      assert s[|s| - 1] == tail[|tail| - 1] && rest[|rest| - 1] == line[|line| - 1];
    }
  }

  lemma CatLineEnds(fl: CatFlags, line: Line, no: nat)
    requires line != []
    ensures var s := CatLine(fl, line, no); s != [] && (s[|s| - 1] == NL <==> line[|line| - 1] == NL)
  {
    ShownEnds(fl, line);
    var s, shown := CatLine(fl, line, no), ShowBytes(fl, line);
    assert s[|s| - 1] == shown[|shown| - 1];
  }

  lemma LastIsOpen(line: Line, shown: Line, lines: seq<Line>, out: seq<Line>)
    requires line != [] && shown != [] && (shown[|shown| - 1] == NL <==> line[|line| - 1] == NL)
    requires |out| == |lines| && (EndsOpen(out) <==> EndsOpen(lines))
    ensures EndsOpen([shown] + out) <==> EndsOpen([line] + lines)
  {
    if lines != [] {
      EndsOpenAppend([line], lines);
      EndsOpenAppend([shown], out);
    } else {
      assert [line] + lines == [line] && [shown] + out == [shown];
    }
  }

  lemma {:induction false} CatEnds(fl: CatFlags, lines: seq<Line>, no: nat)
    requires AllLines(lines)
    ensures EndsOpen(Cat(fl, lines, no)) <==> EndsOpen(lines)
  {
    if lines == [] {
    } else {
      AllLinesTail(lines);
      var rest, no', shown := lines[1..], CatNext(fl, lines[0], no), CatLine(fl, lines[0], no);
      CatLineEnds(fl, lines[0], no);
      CatEnds(fl, rest, no');
      LastIsOpen(lines[0], shown, rest, Cat(fl, rest, no'));
      assert [lines[0]] + rest == lines;
    }
  }

  lemma {:induction false} CatPrints(fl: CatFlags, lines: seq<Line>, no: nat)
    requires AllLines(lines)
    ensures forall l :: l in Cat(fl, lines, no) ==> l != []
  {
    if lines == [] {
    } else {
      AllLinesTail(lines);
      CatLineEnds(fl, lines[0], no);
      CatPrints(fl, lines[1..], CatNext(fl, lines[0], no));
    }
  }

  /** Lines through `cat`, and more lines after them. */
  lemma CatDecided(args: seq<string>, lines: seq<Line>, over: seq<Line>, no: nat, first: nat, closes: bool)
    requires AllLines(lines) && AllLines(over) && no <= first && first + |lines| <= U64_SIZE
    ensures var fl := CatFlagsOf(args);
            Decides(Written(Cat(fl, lines + over, no), closes) > Budget(CatDecoration(args), lines, first),
                    over != [], CatAllFill(fl, lines, no, first), closes && EndsOpen(lines))
  {
    var fl := CatFlagsOf(args);
    var got, more := Cat(fl, lines, no), Cat(fl, over, CatAfter(fl, lines, no));
    CatAppend(fl, lines, over, no);
    CatEnds(fl, lines, no);
    CatPrints(fl, over, CatAfter(fl, lines, no));
    CatTight(args, lines, no, first);
    VerdictIs(got, more, Budget(CatDecoration(args), lines, first), CatAllFill(fl, lines, no, first), closes);
  }

  lemma CatParts(fl: CatFlags, a: seq<Line>, b: seq<Line>, c: seq<Line>, no: nat)
    ensures Cat(fl, a + (b + c), no)
         == Cat(fl, a, no) + (Cat(fl, b, CatAfter(fl, a, no)) + Cat(fl, c, CatAfter(fl, b, CatAfter(fl, a, no))))
  {
    CatAppend(fl, a, b + c, no);
    CatAppend(fl, b, c, CatAfter(fl, a, no));
  }

  /** A window cuts what `cat` prints where it cuts the file. */
  lemma CatWindow(fl: CatFlags, file: seq<Line>, m: LineRange)
    ensures WindowOf(Cat(fl, file, 1), m) == Cat(fl, WindowOf(file, m), CatAfter(fl, file[..Skips(m, |file|)], 1))
  {
    var lo, hi := Skips(m, |file|), Stops(m, |file|);
    var a, b, c := file[..lo], file[lo..hi], file[hi..];
    assert file == a + (b + c);
    var no := CatAfter(fl, a, 1);
    CatParts(fl, a, b, c, 1);
    WindowIsMiddle(Cat(fl, a, 1), Cat(fl, b, no), Cat(fl, c, CatAfter(fl, b, no)), m);
  }

  /** The lines a window credits, in the state its reader has come to: do all fill their bounds? */
  predicate CatWindowFills(fl: CatFlags, file: seq<Line>, r: LineRange)
    requires AllLines(file)
  {
    AllLines(WindowOf(file, r))
    && CatAllFill(fl, WindowOf(file, r), CatAfter(fl, file[..Skips(r, |file|)], 1), Skips(r, |file|) + 1)
  }

  lemma CatWindowDecided(args: seq<string>, file: seq<Line>, script: string, closes: bool)
    requires IsFile(file) && BothAccept(script)
    ensures CatPipeDecided(args, script, file, closes)
  {
    var r, m, fl := Credited(script), Printed(script), CatFlagsOf(args);
    PastExactly(file, script);
    var lines, over, lo := WindowOf(file, r), Overrun(file, r, m), Skips(r, |file|);
    WindowParts(file, script, lines, over);
    CatWindow(fl, file, m);
    CatDecided(args, lines, over, CatAfter(fl, file[..lo], 1), lo + 1, closes);
  }

  // ----- nl -----

  /** The state after some lines. */
  function NlAfter(o: NlOptions, lines: seq<Line>, st: NlState): NlState
    decreases |lines|
  {
    if lines == [] then st else NlAfter(o, lines[1..], NlNext(o, lines[0], st))
  }

  lemma NlUnfolds(o: NlOptions, lines: seq<Line>, st: NlState)
    requires lines != []
    ensures Nl(o, lines, st) == NlPrinted(o, lines[0], st) + Nl(o, lines[1..], NlNext(o, lines[0], st))
    ensures NlAfter(o, lines, st) == NlAfter(o, lines[1..], NlNext(o, lines[0], st))
  {
  }

  lemma Reassociate<T>(a: seq<T>, b: seq<T>, c: seq<T>)
    ensures a + (b + c) == (a + b) + c
  {
  }

  lemma {:induction false} NlAppend(o: NlOptions, a: seq<Line>, b: seq<Line>, st: NlState)
    ensures Nl(o, a + b, st) == Nl(o, a, st) + Nl(o, b, NlAfter(o, a, st))
    decreases |a|
  {
    if a == [] {
      assert a + b == b;
    } else {
      var one, st' := NlPrinted(o, a[0], st), NlNext(o, a[0], st);
      assert (a + b)[0] == a[0] && (a + b)[1..] == a[1..] + b;
      NlAppend(o, a[1..], b, st');
      NlUnfolds(o, a, st);
      NlUnfolds(o, a + b, st);
      Reassociate(one, Nl(o, a[1..], st'), Nl(o, b, NlAfter(o, a, st)));
    }
  }

  lemma {:induction false} NlAfterCounts(o: NlOptions, lines: seq<Line>, st: NlState, first: nat)
    requires o.start <= first && st.no <= first
    ensures NlAfter(o, lines, st).no <= first + |lines|
    decreases |lines|
  {
    if lines == [] {
    } else {
      NlAfterCounts(o, lines[1..], NlNext(o, lines[0], st), first + 1);
    }
  }

  /** The line fills its bound: it is no delimiter, and its column is as wide as its source line's
      number would make it. */
  predicate Fills(o: NlOptions, line: Line, st: NlState, lineNo: nat) {
    && DelimiterOf(line).NoDelimiter?
    && (if st.inBody && o.numbers(line) then Max(o.width, Wide(st.no)) == Max(o.width, Wide(lineNo))
        else Wide(lineNo) <= o.width)
  }

  predicate AllFill(o: NlOptions, lines: seq<Line>, st: NlState, first: nat)
    decreases |lines|
  {
    lines == [] || (Fills(o, lines[0], st, first) && AllFill(o, lines[1..], NlNext(o, lines[0], st), first + 1))
  }

  /** One line of `nl` leaves nothing unused exactly when it fills its bound. */
  lemma FillsExactly(o: NlOptions, line: Line, st: NlState, lineNo: nat)
    requires o.width <= INT_MAX && st.no <= lineNo <= U64_MAX
    ensures Total(NlPrinted(o, line, st)) <= PrintedLen(NlDecoration(o), line, lineNo)
    ensures Total(NlPrinted(o, line, st)) == PrintedLen(NlDecoration(o), line, lineNo) <==> Fills(o, line, st, lineNo)
  {
    WideFits(o.width, lineNo);
    if DelimiterOf(line).NoDelimiter? {
      OneTotals(NlLine(o, line, st));
      ColumnWidth(st.no, o.width);
      Ilog10Monotone(Max(st.no, 1), Max(lineNo, 1));
    } else {
      assert |line| >= 2;
      OneTotals([NL]);
    }
  }

  /** What `nl` prints of lines it counts no higher than the source: it always fits, and leaves
      nothing unused exactly when every line fills its bound. */
  lemma {:induction false} NlTight(o: NlOptions, lines: seq<Line>, st: NlState, first: nat)
    requires o.width <= INT_MAX && o.start <= first && st.no <= first && first + |lines| <= U64_SIZE
    ensures var got, budget := Total(Nl(o, lines, st)), Budget(NlDecoration(o), lines, first);
            got <= budget && (got == budget <==> AllFill(o, lines, st, first))
    decreases |lines|
  {
    if lines == [] {
    } else {
      var st' := NlNext(o, lines[0], st);
      FillsExactly(o, lines[0], st, first);
      NlTight(o, lines[1..], st', first + 1);
      TotalAppend(NlPrinted(o, lines[0], st), Nl(o, lines[1..], st'));
    }
  }

  /** `nl` prints something for some line of these. */
  predicate PrintsAny(o: NlOptions, lines: seq<Line>) {
    exists l :: l in lines && IsPrinted(o, l)
  }

  predicate IsPrinted(o: NlOptions, line: Line) { o.blanks || DelimiterOf(line).NoDelimiter? }

  lemma NlPrintedExactly(o: NlOptions, line: Line, st: NlState)
    ensures NlPrinted(o, line, st) != [] <==> IsPrinted(o, line)
    ensures forall l :: l in NlPrinted(o, line, st) ==> l != []
  {
  }

  lemma {:induction false} PrintsAnyExactly(o: NlOptions, lines: seq<Line>, st: NlState)
    ensures Nl(o, lines, st) != [] <==> PrintsAny(o, lines)
    ensures forall l :: l in Nl(o, lines, st) ==> l != []
    decreases |lines|
  {
    if lines == [] {
    } else {
      PrintsAnyExactly(o, lines[1..], NlNext(o, lines[0], st));
      NlPrintedExactly(o, lines[0], st);
      PrintsAnyCons(o, lines);
    }
  }

  lemma PrintsAnyCons(o: NlOptions, lines: seq<Line>)
    requires lines != []
    ensures PrintsAny(o, lines) <==> IsPrinted(o, lines[0]) || PrintsAny(o, lines[1..])
  {
    assert lines == [lines[0]] + lines[1..];
    if IsPrinted(o, lines[0]) { assert lines[0] in lines; }
  }

  lemma NlLineEnds(o: NlOptions, line: Line, st: NlState)
    requires line != []
    ensures var l := NlLine(o, line, st); l != [] && l[|l| - 1] == line[|line| - 1]
  {
  }

  /** Of lines that all fill their bounds the last stays as open as it was. */
  lemma {:induction false} NlEnds(o: NlOptions, lines: seq<Line>, st: NlState, first: nat)
    requires AllLines(lines) && AllFill(o, lines, st, first)
    ensures EndsOpen(Nl(o, lines, st)) <==> EndsOpen(lines)
    ensures |Nl(o, lines, st)| == |lines|
    decreases |lines|
  {
    if lines == [] {
    } else {
      AllLinesTail(lines);
      var rest, st', l := lines[1..], NlNext(o, lines[0], st), NlLine(o, lines[0], st);
      assert Fills(o, lines[0], st, first) && AllFill(o, rest, st', first + 1);
      NlUnfolds(o, lines, st);
      NlLineEnds(o, lines[0], st);
      NlEnds(o, rest, st', first + 1);
      LastIsOpen(lines[0], l, rest, Nl(o, rest, st'));
      assert [lines[0]] + rest == lines;
    }
  }

  /** Lines through `nl`, and more lines after them. */
  lemma NlDecided(o: NlOptions, lines: seq<Line>, over: seq<Line>, st: NlState, first: nat, closes: bool)
    requires AllLines(lines) && o.width <= INT_MAX && o.start <= first && st.no <= first
    requires first + |lines| <= U64_SIZE
    ensures Decides(Written(Nl(o, lines + over, st), closes) > Budget(NlDecoration(o), lines, first),
                    PrintsAny(o, over), AllFill(o, lines, st, first), closes && EndsOpen(lines))
  {
    var got, more := Nl(o, lines, st), Nl(o, over, NlAfter(o, lines, st));
    NlAppend(o, lines, over, st);
    NlTight(o, lines, st, first);
    PrintsAnyExactly(o, over, NlAfter(o, lines, st));
    VerdictIs(got, more, Budget(NlDecoration(o), lines, first), AllFill(o, lines, st, first), closes);
    if AllFill(o, lines, st, first) { NlEnds(o, lines, st, first); }
  }

  /** `nl [flags] FILE`: over budget by the closing newline exactly when it is written and every
      line fills its bound. */
  lemma NlExactly(o: NlOptions, file: seq<Line>, closes: bool)
    requires IsFile(file) && o.start == 1
    ensures Written(RunNl(o, file), closes) <= Budget(NlDecoration(o), file, 1) + 1
    ensures Written(RunNl(o, file), closes) > Budget(NlDecoration(o), file, 1)
            <==> o.width <= INT_MAX && closes && EndsOpen(file) && AllFill(o, file, NlState(1, true), 1)
  {
    if o.width <= INT_MAX {
      NlTight(o, file, NlState(1, true), 1);
      NlDecided(o, file, [], NlState(1, true), 1, closes);
      assert file + [] == file;
    }
  }

  lemma {:induction false} NlLength(o: NlOptions, lines: seq<Line>, st: NlState)
    ensures |Nl(o, lines, st)| <= |lines|
    ensures KeepsPlaces(o, lines) ==> |Nl(o, lines, st)| == |lines|
    decreases |lines|
  {
    if lines == [] {
    } else {
      assert lines[0] in lines;
      NlLength(o, lines[1..], NlNext(o, lines[0], st));
    }
  }

  lemma SameCuts(m: LineRange, n: nat, k: nat)
    requires Stops(m, n) <= k <= n
    ensures Skips(m, k) == Skips(m, n) && Stops(m, k) == Stops(m, n)
  {
  }

  lemma NlParts(o: NlOptions, a: seq<Line>, b: seq<Line>, c: seq<Line>, st: NlState)
    ensures Nl(o, a + (b + c), st)
         == Nl(o, a, st) + (Nl(o, b, NlAfter(o, a, st)) + Nl(o, c, NlAfter(o, b, NlAfter(o, a, st))))
  {
    NlAppend(o, a, b + c, st);
    NlAppend(o, b, c, NlAfter(o, a, st));
  }

  /** Parts with no line dropped from the first two. */
  lemma NlMiddle(o: NlOptions, a: seq<Line>, b: seq<Line>, c: seq<Line>, m: LineRange, st: NlState)
    requires KeepsPlaces(o, a) && KeepsPlaces(o, b)
    requires Skips(m, |a| + |b| + |c|) == |a| && Stops(m, |a| + |b| + |c|) == |a| + |b|
    ensures WindowOf(Nl(o, a + (b + c), st), m) == Nl(o, b, NlAfter(o, a, st))
  {
    var st1 := NlAfter(o, a, st);
    var st2 := NlAfter(o, b, st1);
    NlParts(o, a, b, c, st);
    NlLength(o, a, st);
    NlLength(o, b, st1);
    NlLength(o, c, st2);
    SameCuts(m, |a| + |b| + |c|, |a| + |b| + |Nl(o, c, st2)|);
    WindowIsMiddle(Nl(o, a, st), Nl(o, b, st1), Nl(o, c, st2), m);
  }

  /** A window cuts what `nl` prints where it cuts the file, if no line up to its end is dropped. */
  lemma NlWindow(o: NlOptions, file: seq<Line>, m: LineRange, st: NlState)
    requires KeepsPlaces(o, file[..Stops(m, |file|)])
    ensures WindowOf(Nl(o, file, st), m) == Nl(o, WindowOf(file, m), NlAfter(o, file[..Skips(m, |file|)], st))
  {
    var lo, hi := Skips(m, |file|), Stops(m, |file|);
    var a, b, c := file[..lo], file[lo..hi], file[hi..];
    assert file == a + (b + c);
    KeepsPart(o, file[..hi], a);
    KeepsPart(o, file[..hi], b);
    NlMiddle(o, a, b, c, m, st);
  }

  lemma KeepsPart(o: NlOptions, lines: seq<Line>, part: seq<Line>)
    requires KeepsPlaces(o, lines) && forall l :: l in part ==> l in lines
    ensures KeepsPlaces(o, part)
  {
  }

  /** The lines a window credits, in the state `nl` has come to: do all fill their bounds? */
  predicate NlWindowFills(o: NlOptions, file: seq<Line>, r: LineRange) {
    var lo := Skips(r, |file|);
    AllFill(o, WindowOf(file, r), NlAfter(o, file[..lo], NlState(1, true)), lo + 1)
  }

  /** `nl [flags] FILE | sed -n SCRIPT`, where no line up to the window's end is dropped. */
  lemma NlWindowDecided(o: NlOptions, file: seq<Line>, script: string, closes: bool)
    requires IsFile(file) && o.start == 1 && o.width <= INT_MAX && BothAccept(script)
    requires KeepsPlaces(o, file[..Stops(Printed(script), |file|)])
    ensures var r, m := Credited(script), Printed(script);
            Decides(Written(WindowOf(RunNl(o, file), m), closes) > WindowBudget(NlDecoration(o), file, r),
                    PrintsPast(script, |file|), NlWindowFills(o, file, r), closes && EndsOpen(WindowOf(file, r)))
  {
    var r, m, lo, st := Credited(script), Printed(script), Skips(Credited(script), |file|), NlState(1, true);
    PastExactly(file, script);
    var lines, over := WindowOf(file, r), Overrun(file, r, m);
    WindowParts(file, script, lines, over);
    NlWindow(o, file, m, st);
    NlAfterCounts(o, file[..lo], st, 1);
    NlDecided(o, lines, over, NlAfter(o, file[..lo], st), lo + 1, closes);
    OverPrints(o, file, r, m);
  }

  lemma OverPrints(o: NlOptions, file: seq<Line>, r: LineRange, m: LineRange)
    requires Stops(r, |file|) <= Stops(m, |file|) && KeepsPlaces(o, file[..Stops(m, |file|)])
    ensures PrintsAny(o, Overrun(file, r, m)) <==> Overrun(file, r, m) != []
  {
    var over := Overrun(file, r, m);
    if over != [] {
      assert over[0] in over && over[0] in file[..Stops(m, |file|)];
    }
  }

  lemma NothingCredited(file: seq<Line>, r: LineRange, m: LineRange)
    requires Proper(r) && m.start == r.start >= 1 && Covers(m, r) && WindowOf(file, r) == []
    requires Stops(r, |file|) <= Stops(m, |file|)
    ensures Overrun(file, r, m) == [] && WindowOf(file, m) == []
  {
  }

  /** `sed -n SCRIPT FILE | nl -vK` with `K` at most the window's start. */
  lemma SedNlDecided(o: NlOptions, file: seq<Line>, script: string, closes: bool)
    requires IsFile(file) && BothAccept(script) && o.start <= Credited(script).start && o.width <= INT_MAX
    ensures var r, m := Credited(script), Printed(script);
            && Stops(r, |file|) <= Stops(m, |file|)
            && Decides(Written(RunNl(o, WindowOf(file, m)), closes) > WindowBudget(NlDecoration(o), file, r),
                       PrintsAny(o, Overrun(file, r, m)),
                       AllFill(o, WindowOf(file, r), NlState(o.start, true), Skips(r, |file|) + 1),
                       closes && EndsOpen(WindowOf(file, r)))
  {
    var r, m := Credited(script), Printed(script);
    PrintedWindow(script);
    PastExactly(file, script);
    var lines, over := WindowOf(file, r), Overrun(file, r, m);
    WindowParts(file, script, lines, over);
    if lines != [] {
      NlDecided(o, lines, over, NlState(o.start, true), Skips(r, |file|) + 1, closes);
    } else {
      NothingCredited(file, r, m);
    }
  }

  // ----- the parsers' own decorations -----

  /** The number the last `-v` asks for, or 1. */
  function LastStart(args: seq<string>): nat {
    if args == [] then 1
    else
      var tok := args[|args| - 1];
      if "-v" <= tok && ParseU64(tok[2..]).Some? then ParseU64(tok[2..]).value else LastStart(args[..|args| - 1])
  }

  lemma {:induction false} StartIsVetted(args: seq<string>, windowStart: nat)
    requires windowStart > 0 && NlFilterFlags(args, windowStart)
    ensures LastStart(args) <= windowStart
  {
    if args == [] {
    } else {
      var tok := args[|args| - 1];
      assert tok in args;
      if "-v" <= tok { assert tok[1] == 'v'; }
      StartIsVetted(args[..|args| - 1], windowStart);
    }
  }

  lemma {:induction false} FilterWidth(args: seq<string>, windowStart: nat)
    requires NlFilterFlags(args, windowStart)
    ensures LastWidth(args).Some?
  {
    if args == [] {
    } else {
      assert args[|args| - 1] in args;
      if args[|args| - 1] in NL_FLAGS { NlFlagIsNotWidth(args[|args| - 1]); }
      FilterWidth(args[..|args| - 1], windowStart);
    }
  }

  lemma {:induction false} ReaderWidth(args: seq<string>)
    requires FlagsKeepLines("nl", args)
    ensures LastWidth(args).Some?
  {
    if args == [] {
    } else {
      var tok := args[|args| - 1];
      assert tok in args;
      if IsWidthFlag(tok) { WidthParses(tok); }
      ReaderWidth(args[..|args| - 1]);
    }
  }

  lemma WidthParses(tok: string)
    requires IsWidthFlag(tok) && (IsFlag(tok) ==> FlagKeepsLines("nl", tok))
    ensures ParseU64(tok[2..]).Some?
  {
    assert IsFlag(tok);
    if tok in NL_FLAGS { NlFlagIsNotWidth(tok); }
  }

  // ----- pipelines, against the decoration the parser returns -----

  /** The command, unwrapped, is a pipeline of these two stages, credited with `read`. */
  predicate IsPipeline(command: string, reader: string, filter: string, read: RangedRead) {
    var stages := SplitOn(Unwrap(Trim(command)), '|');
    && |stages| == 2 && reader == Trim(stages[0]) && filter == Trim(stages[1])
    && CommandReadRange(command) == Some(read)
  }

  lemma PipelineIs(command: string, reader: string, filter: string, read: RangedRead)
    requires IsPipeline(command, reader, filter, read)
    ensures PipelineRange(reader, filter) == Some(read)
  {
  }

  /** What `cat [flags] FILE | sed -n SCRIPT` writes against the budget of the window. */
  predicate CatPipeDecided(args: seq<string>, script: string, file: seq<Line>, closes: bool)
    requires BothAccept(script) && AllLines(file)
  {
    var r, m, fl := Credited(script), Printed(script), CatFlagsOf(args);
    Decides(Written(WindowOf(Cat(fl, file, 1), m), closes) > WindowBudget(CatDecoration(args), file, r),
            PrintsPast(script, |file|), CatWindowFills(fl, file, r), closes && EndsOpen(WindowOf(file, r)))
  }

  lemma CatPipeIs(reader: string, filter: string, read: RangedRead)
    requires PipelineRange(reader, filter) == Some(read)
    requires ReaderOf(Words(reader)).Some? && !ReaderOf(Words(reader)).value.viaNl
    ensures |Words(filter)| == 3 && ParseSedPrintRange(Words(filter)[2]) == Some(read.range)
    ensures read.decoration == CatDecoration(Words(reader)[1..])
  {
  }

  /** `cat [flags] FILE | sed -n SCRIPT`. */
  lemma CatPipeExactly(command: string, reader: string, filter: string, read: RangedRead, file: seq<Line>, closes: bool)
    requires IsPipeline(command, reader, filter, read) && IsFile(file)
    requires ReaderOf(Words(reader)).Some? && !ReaderOf(Words(reader)).value.viaNl
    ensures |Words(filter)| == 3 && ParseSedPrintRange(Words(filter)[2]) == Some(read.range)
    ensures read.decoration == CatDecoration(Words(reader)[1..])
    ensures BothAccept(Words(filter)[2]) ==> CatPipeDecided(Words(reader)[1..], Words(filter)[2], file, closes)
  {
    PipelineIs(command, reader, filter, read);
    CatPipeIs(reader, filter, read);
    if BothAccept(Words(filter)[2]) { CatWindowDecided(Words(reader)[1..], file, Words(filter)[2], closes); }
  }

  /** The `nl` that the parser's decoration describes. */
  function OptionsOf(d: Decoration, start: nat, numbers: Line -> bool, blanks: bool): (o: NlOptions)
    requires d.numberWidth.Some?
    ensures o.width == d.numberWidth.value && o.start == start && o.blanks == blanks
  {
    NlOptions(d.numberWidth.value, start, numbers, blanks)
  }

  /** What `nl FILE | sed -n SCRIPT` writes against the budget of the window. A width `nl` cannot hold
      prints nothing. */
  predicate NlPipeDecided(o: NlOptions, script: string, file: seq<Line>, closes: bool)
    requires BothAccept(script)
  {
    var r, m := Credited(script), Printed(script);
    Decides(Written(WindowOf(RunNl(o, file), m), closes) > WindowBudget(NlDecoration(o), file, r),
            o.width <= INT_MAX && PrintsPast(script, |file|), o.width <= INT_MAX && NlWindowFills(o, file, r),
            closes && EndsOpen(WindowOf(file, r)))
  }

  lemma NlScriptDecided(o: NlOptions, script: string, file: seq<Line>, closes: bool)
    requires BothAccept(script) && o.start == 1 && IsFile(file)
    requires KeepsPlaces(o, file[..Stops(Printed(script), |file|)])
    ensures NlPipeDecided(o, script, file, closes)
  {
    if o.width <= INT_MAX { NlWindowDecided(o, file, script, closes); }
  }

  lemma NlPipeIs(reader: string, filter: string, read: RangedRead)
    requires PipelineRange(reader, filter) == Some(read)
    requires ReaderOf(Words(reader)).Some? && ReaderOf(Words(reader)).value.viaNl
    ensures |Words(filter)| == 3 && ParseSedPrintRange(Words(filter)[2]) == Some(read.range)
    ensures read.decoration.numberWidth.Some? && read.decoration == PLAIN.(numberWidth := read.decoration.numberWidth)
  {
    ReaderWidth(Words(reader)[1..]);
  }

  /** `nl [flags] FILE | sed -n SCRIPT`, where no line up to the window's end is dropped. */
  lemma NlPipeExactly(command: string, reader: string, filter: string, read: RangedRead,
                      numbers: Line -> bool, blanks: bool, file: seq<Line>, closes: bool)
    requires IsPipeline(command, reader, filter, read) && IsFile(file)
    requires ReaderOf(Words(reader)).Some? && ReaderOf(Words(reader)).value.viaNl
    ensures |Words(filter)| == 3 && ParseSedPrintRange(Words(filter)[2]) == Some(read.range)
    ensures read.decoration.numberWidth.Some?
    ensures var script, o := Words(filter)[2], OptionsOf(read.decoration, 1, numbers, blanks);
            && NlDecoration(o) == read.decoration
            && (BothAccept(script) && KeepsPlaces(o, file[..Stops(Printed(script), |file|)]) ==>
                  NlPipeDecided(o, script, file, closes))
  {
    PipelineIs(command, reader, filter, read);
    NlPipeIs(reader, filter, read);
    var script, o := Words(filter)[2], OptionsOf(read.decoration, 1, numbers, blanks);
    if BothAccept(script) && KeepsPlaces(o, file[..Stops(Printed(script), |file|)]) {
      NlScriptDecided(o, script, file, closes);
    }
  }

  /** What `sed -n SCRIPT FILE | nl` writes against the budget of the window. */
  predicate SedPipeDecided(o: NlOptions, script: string, file: seq<Line>, closes: bool)
    requires BothAccept(script)
  {
    var r, m, n := Credited(script), Printed(script), |file|;
    && Stops(r, n) <= Stops(m, n)
    && Decides(Written(RunNl(o, WindowOf(file, m)), closes) > WindowBudget(NlDecoration(o), file, r),
               o.width <= INT_MAX && PrintsAny(o, Overrun(file, r, m)),
               o.width <= INT_MAX && AllFill(o, WindowOf(file, r), NlState(o.start, true), Skips(r, n) + 1),
               closes && EndsOpen(WindowOf(file, r)))
  }

  lemma SedScriptDecided(o: NlOptions, script: string, file: seq<Line>, closes: bool)
    requires BothAccept(script) && o.start <= Credited(script).start && IsFile(file)
    ensures SedPipeDecided(o, script, file, closes)
  {
    WindowGoesOn(file, script);
    if o.width <= INT_MAX { SedNlDecided(o, file, script, closes); }
  }

  lemma SedPipeIs(reader: string, filter: string, read: RangedRead)
    requires PipelineRange(reader, filter) == Some(read) && ReaderOf(Words(reader)).None?
    ensures |Words(reader)| == 4 && ParseSedPrintRange(Words(reader)[2]) == Some(read.range)
    ensures Words(filter) != [] && NlFilterFlags(Words(filter)[1..], read.range.start)
    ensures read.decoration == PLAIN.(numberWidth := LastWidth(Words(filter)[1..]))
  {
  }

  /** `sed -n SCRIPT FILE | nl [flags]`, for every filter the parser accepts: its first number is at
      most the window's start. */
  lemma SedPipeExactly(command: string, reader: string, filter: string, read: RangedRead,
                       numbers: Line -> bool, blanks: bool, file: seq<Line>, closes: bool)
    requires IsPipeline(command, reader, filter, read) && IsFile(file) && ReaderOf(Words(reader)).None?
    ensures |Words(reader)| == 4 && ParseSedPrintRange(Words(reader)[2]) == Some(read.range) && Words(filter) != []
    ensures read.decoration.numberWidth.Some?
    ensures var script, start := Words(reader)[2], LastStart(Words(filter)[1..]);
            var o := OptionsOf(read.decoration, start, numbers, blanks);
            && NlDecoration(o) == read.decoration && start <= read.range.start
            && (BothAccept(script) ==> SedPipeDecided(o, script, file, closes))
  {
    PipelineIs(command, reader, filter, read);
    SedPipeIs(reader, filter, read);
    StartIsVetted(Words(filter)[1..], read.range.start);
    FilterWidth(Words(filter)[1..], read.range.start);
    var script, start := Words(reader)[2], LastStart(Words(filter)[1..]);
    if BothAccept(script) {
      SedScriptDecided(OptionsOf(read.decoration, start, numbers, blanks), script, file, closes);
    }
  }

  /** Every whole-file reader the parser accepts, with the decoration it returns: `cat` never exceeds
      its budget, and uses it up exactly when every line fills its bound; `nl` exactly as
      `NlExactly` says. */
  lemma VettedReaderExactly(toks: seq<string>, numbers: Line -> bool, blanks: bool, file: seq<Line>, closes: bool)
    requires IsFile(file) && ReaderOf(toks).Some?
    ensures var read, args := ReaderOf(toks).value, toks[1..];
            if !read.viaNl then
              var got, budget := Total(Cat(CatFlagsOf(args), file, 1)), Budget(read.decoration, file, 1);
              got <= budget && (got == budget <==> CatAllFill(CatFlagsOf(args), file, 1, 1))
            else
              && read.decoration.numberWidth.Some?
              && var o := OptionsOf(read.decoration, 1, numbers, blanks);
                 Written(RunNl(o, file), closes) > Budget(read.decoration, file, 1)
                 <==> o.width <= INT_MAX && closes && EndsOpen(file) && AllFill(o, file, NlState(1, true), 1)
  {
    var read, args := ReaderOf(toks).value, toks[1..];
    if read.viaNl {
      ReaderWidth(args);
      NlExactly(OptionsOf(read.decoration, 1, numbers, blanks), file, closes);
    } else {
      CatTight(args, file, 1, 1);
    }
  }

  // ----- inputs on which the bound fails -----

  /** The file `a`, with no newline, under a GNU `nl -ba -w1`: three bytes of budget, four written. */
  lemma ClosedLineExceeds(o: NlOptions)
    requires o.width == 1 && o.start == 1 && forall l: Line :: o.numbers(l)
    ensures IsFile([[97]]) && Budget(NlDecoration(o), [[97]], 1) == 3 && Written(RunNl(o, [[97]]), true) == 4
  {
    var line: Line := [97];
    var st, out := NlState(1, true), NlLine(o, line, NlState(1, true));
    NlOfOne(o, line, st);
    OneTotals(out);
    ColumnWidth(1, 1);
    OneBudget(NlDecoration(o), line);
    assert out[|out| - 1] == 97;
  }

  lemma NlOfOne(o: NlOptions, line: Line, st: NlState)
    requires |line| == 1
    ensures Nl(o, [line], st) == [NlLine(o, line, st)]
  {
    var rest: seq<Line> := [line][1..];
    assert rest == [];
    assert DelimiterOf(line).NoDelimiter?;
  }

  lemma OneBudget(d: Decoration, l: Line)
    ensures Budget(d, [l], 1) == PrintedLen(d, l, 1)
  {
    var rest: seq<Line> := [l][1..];
    assert rest == [];
  }

  /** The file `a` under `cat -n F | sed -n 1p` with a `sed` that ends an open last line: eight bytes
      of budget, nine written. */
  lemma ClosedPipeExceeds()
    ensures var fl, file, script := CatFlagsOf(["-n", "F"]), [[97]], S.OneAddress("1");
            && IsFile(file) && BothAccept(script) && Credited(script) == LineRange(1, Some(1))
            && Written(WindowOf(Cat(fl, file, 1), Printed(script)), true)
               > WindowBudget(CatDecoration(["-n", "F"]), file, Credited(script))
  {
    var args: seq<string> := ["-n", "F"];
    assert args[0] == "-n" && "-b" !in args && "-v" !in args && "-e" !in args && "-t" !in args;
    FirstLineScript();
    NumberedLineExceeds(args, [97], S.OneAddress("1"));
  }

  lemma OneLineFile(line: Line)
    requires IsLine(line)
    ensures var file := [line];
            && IsFile(file) && WindowOf(file, LineRange(1, Some(1))) == file
            && file[..Skips(LineRange(1, Some(1)), 1)] == []
  {
  }

  lemma OneLineFills(fl: CatFlags, line: Line)
    requires fl == CatFlags(true, false, false, false, false) && IsLine(line)
    ensures CatAllFill(fl, [line], 1, 1)
  {
    var none: seq<Line> := [line][1..];
    assert none == [] && CatFills(fl, line, 1, 1);
  }

  lemma NumberedLineExceeds(args: seq<string>, line: Line, script: string)
    requires CatFlagsOf(args) == CatFlags(true, false, false, false, false) && IsLine(line) && line[|line| - 1] != NL
    requires BothAccept(script) && !HasRelativeEnd(script) && Credited(script) == LineRange(1, Some(1))
    ensures IsFile([line])
    ensures Written(WindowOf(Cat(CatFlagsOf(args), [line], 1), Printed(script)), true)
            > WindowBudget(CatDecoration(args), [line], LineRange(1, Some(1)))
  {
    OneLineFile(line);
    OneLineFills(CatFlagsOf(args), line);
    FilledWindowExceeds(args, [line], script, LineRange(1, Some(1)));
  }

  lemma FilledWindowExceeds(args: seq<string>, file: seq<Line>, script: string, r: LineRange)
    requires IsFile(file) && BothAccept(script) && Credited(script) == r && !HasRelativeEnd(script)
    requires WindowOf(file, r) == file && file[..Skips(r, |file|)] == [] && EndsOpen(file)
    requires CatAllFill(CatFlagsOf(args), file, 1, 1)
    ensures Written(WindowOf(Cat(CatFlagsOf(args), file, 1), Printed(script)), true)
            > WindowBudget(CatDecoration(args), file, r)
  {
    assert Skips(r, |file|) == |file[..Skips(r, |file|)]| == 0;
    assert CatWindowFills(CatFlagsOf(args), file, r);
    CatWindowDecided(args, file, script, true);
  }

  lemma FirstLineScript()
    ensures var script := S.OneAddress("1");
            BothAccept(script) && !HasRelativeEnd(script) && Credited(script) == LineRange(1, Some(1))
  {
    S.ParseOfDigits(1);
    assert Digits(1) == "1";
    assert S.OneAddress("1") == "1p";
    assert StripQuotes("1p") == "1p";
    S.OneParse("1p", "1");
  }

  /** `1,+1p`, which the parser reads as line 1 and `sed` as lines 1 and 2. */
  const ONE_MORE: string := S.TwoAddresses("1", "+1")

  lemma OneMoreScript()
    ensures BothAccept(ONE_MORE) && HasRelativeEnd(ONE_MORE) && Credited(ONE_MORE) == LineRange(1, Some(1))
  {
    S.ParseOfDigits(1);
    assert Digits(1) == "1" && "+1"[1..] == "1";
    assert ONE_MORE == "1,+1p";
    assert StripQuotes(ONE_MORE) == ONE_MORE;
    S.TwoParse(ONE_MORE, "1", "+1");
  }

  /** `sed -n 1,+1p` on two lines: four bytes printed against a budget of two. */
  lemma RelativeEndExceeds(closes: bool)
    ensures var file: seq<Line> := [[97, NL], [98, NL]];
            && IsFile(file) && BothAccept(ONE_MORE) && HasRelativeEnd(ONE_MORE)
            && Written(WindowOf(file, Printed(ONE_MORE)), closes) > WindowBudget(PLAIN, file, Credited(ONE_MORE))
  {
    OneMoreScript();
    BareWindowExactly(ONE_MORE, [[97, NL], [98, NL]], closes);
  }

  const FOOTER: Line := [92, 58, NL]
  const TEXT: Line := [65, 65, 65, 65, 65, NL]

  lemma FooterLines()
    ensures DelimiterOf(FOOTER) == Footer && DelimiterOf(TEXT).NoDelimiter? && IsLine(FOOTER) && IsLine(TEXT)
  {
    assert FOOTER[..2] == [92, 58];
    assert |TEXT[..5]| == 5;
  }

  lemma NlOfTwo(o: NlOptions, f: Line, l: Line, st: NlState)
    requires DelimiterOf(f) == Footer && DelimiterOf(l).NoDelimiter? && !o.blanks
    ensures Nl(o, [f, l], st) == [NlLine(o, l, st.(inBody := false))]
  {
    var none: seq<Line> := [l][1..];
    assert none == [] && [f, l][1..] == [l];
    assert Nl(o, [l], st.(inBody := false)) == [NlLine(o, l, st.(inBody := false))];
  }

  lemma FirstOfEach(out: Line, f: Line, l: Line)
    ensures var r := LineRange(1, Some(1)); WindowOf([out], r) == [out] && WindowOf([f, l], r) == [f]
  {
  }

  /** An `nl` that prints nothing for a delimiter shifts the lines after it, and a window can then
      print more than its budget: the first line of this file is a footer delimiter. */
  lemma DroppedDelimiterExceeds(o: NlOptions)
    requires o.width == 1 && o.start == 1 && !o.blanks
    ensures var file, r := [FOOTER, TEXT], LineRange(1, Some(1));
            IsFile(file) && Total(WindowOf(RunNl(o, file), r)) > WindowBudget(NlDecoration(o), file, r)
  {
    var shifted := NlLine(o, TEXT, NlState(1, false));
    FooterLines();
    NlOfTwo(o, FOOTER, TEXT, NlState(1, true));
    FirstOfEach(shifted, FOOTER, TEXT);
    OneTotals(shifted);
    OneBudget(NlDecoration(o), FOOTER);
  }
}
