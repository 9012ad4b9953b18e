/** The span a completed grok `read_file` is credited (`grok_returned_lines`): credited exactly
    when the shown text is a rendering of the raw text, line by line. */
module GrokSpan {
  import opened Text
  import opened LineRuns

  /** The tool's own `offset` field, as decoded. */
  datatype Offset = Absent | Null | Whole(n: nat) | NotWhole

  /** `rawOutput.FileContent`, as decoded. */
  datatype FileContent = FileContent(raw: Option<string>, offset: Offset)

  const U64_SIZE: nat := U64_MAX + 1

  /** `line` with its leading `N→` or `N\t` removed. */
  function StripLineNumber(line: string): string {
    var t := line[Padding(line)..];
    var rest := t[DigitRun(t)..];
    if rest != [] && IsMark(rest[0]) then rest[1..] else rest
  }

  const CUT_MARK: string := "... (line truncated to "
  const CUT_END: string := " chars)"

  /** Where the last `sub` in `s` starts, or None. */
  function FindLast(s: string, sub: string): (r: Option<nat>)
    ensures r.Some? ==> HasAt(s, sub, r.value) && forall k: nat :: r.value < k <= |s| ==> !HasAt(s, sub, k)
    ensures r.None? ==> forall k: nat :: k <= |s| ==> !HasAt(s, sub, k)
  {
    FindLastFrom(s, sub, |s|)
  }

  function FindLastFrom(s: string, sub: string, n: nat): (r: Option<nat>)
    requires n <= |s|
    ensures r.Some? ==> r.value <= n && HasAt(s, sub, r.value)
    ensures r.Some? ==> forall k: nat :: r.value < k <= n ==> !HasAt(s, sub, k)
    ensures r.None? ==> forall k: nat :: k <= n ==> !HasAt(s, sub, k)
  {
    if HasAt(s, sub, n) then Some(n) else if n == 0 then None else FindLastFrom(s, sub, n - 1)
  }

  /** `is_grok_truncation_of`. */
  predicate IsTruncationOf(shown: string, raw: string) {
    match FindLast(shown, CUT_MARK)
    case None => false
    case Some(cut) =>
      var tail := shown[cut + |CUT_MARK|..];
      && EndsWith(tail, CUT_END)
      && |tail| > |CUT_END| && AllDigits(tail[..|tail| - |CUT_END|])
      && |raw| > cut && shown[..cut] <= raw
  }

  /** One shown line agrees with its raw line, at line number `pos`. */
  predicate LineAgrees(shown: string, raw: string, pos: nat) {
    var m := Marker(shown);
    var body := if m.Some? then StripLineNumber(shown) else shown;
    (m.Some? ==> m.value == pos) && (body == raw || IsTruncationOf(body, raw))
  }

  function StartOf(o: Offset): Option<nat> {
    match o
    case Absent => Some(1)
    case Null => Some(1)
    case Whole(n) => if 1 <= n <= U64_MAX then Some(n) else None
    case NotWhole => None
  }

  /** The line number `i` lines after `start`, in 64 bits. */
  function At(start: nat, i: nat): nat { (start + i) % U64_SIZE }

  predicate Consistent(start: nat, raws: seq<string>, showns: seq<string>) {
    && raws != [] && |showns| >= |raws|
    && Marker(showns[0]) == Some(start)
    && forall i :: 0 <= i < |raws| ==> LineAgrees(showns[i], raws[i], At(start, i))
  }

  /** `grok_returned_lines`. */
  function ReturnedLines(fc: Option<FileContent>, shown: string): Runs {
    if fc.None? || fc.value.raw.None? || StartOf(fc.value.offset).None? then NumberedRuns(shown)
    else
      var start, raws := StartOf(fc.value.offset).value, Lines(fc.value.raw.value);
      if Consistent(start, raws, Lines(shown)) then [(start, At(start, |raws| - 1))] else NumberedRuns(shown)
  }

  // ----- renderings -----

  /** The number a shown line carries: none, or padding, digits and an arrow or a tab. */
  datatype Mark = Unmarked | Marked(pad: nat, digits: string, sep: char) {
    predicate ValidAt(pos: nat) {
      Marked? ==> digits != [] && AllDigits(digits) && Decimal(digits) == pos <= U64_MAX && sep in ['\U{2192}', '\t']
    }
  }

  /** How much of the raw line is shown: all of it, or a proper prefix and the declared cut. */
  datatype Cut = Full | CutAt(keep: nat, count: string) {
    predicate ValidFor(raw: string) { CutAt? ==> keep < |raw| && count != [] && AllDigits(count) }
  }

  function Pad(n: nat): (s: string)
    ensures |s| == n && forall c :: c in s ==> c == ' '
  {
    if n == 0 then [] else [' '] + Pad(n - 1)
  }

  function ShowCut(cut: Cut, raw: string): string
    requires cut.ValidFor(raw)
  {
    match cut
    case Full => raw
    case CutAt(keep, count) => raw[..keep] + "... (line truncated to " + count + " chars)"
  }

  function Render(mark: Mark, cut: Cut, raw: string): string
    requires cut.ValidFor(raw)
  {
    match mark
    case Unmarked => ShowCut(cut, raw)
    case Marked(pad, digits, sep) => Pad(pad) + digits + [sep] + ShowCut(cut, raw)
  }

  lemma {:induction false} PadIs(s: string)
    requires forall c :: c in s ==> c == ' '
    ensures s == Pad(|s|)
  {
    if s == [] {
    } else {
      assert s[0] in s && forall c :: c in s[1..] ==> c in s;
      PadIs(s[1..]);
      assert s == [s[0]] + s[1..];
    }
  }

  lemma {:induction false} PaddingOf(pad: nat, rest: string)
    requires rest != [] && rest[0] != ' '
    ensures Padding(Pad(pad) + rest) == pad && (Pad(pad) + rest)[pad..] == rest
  {
    if pad == 0 {
      assert Pad(0) + rest == rest;
    } else {
      assert (Pad(pad) + rest)[1..] == Pad(pad - 1) + rest;
      PaddingOf(pad - 1, rest);
    }
  }

  lemma {:induction false} DigitRunOf(ds: string, rest: string)
    requires AllDigits(ds) && rest != [] && !IsDigit(rest[0])
    ensures DigitRun(ds + rest) == |ds| && (ds + rest)[..|ds|] == ds && (ds + rest)[|ds|..] == rest
  {
    if ds == [] {
      assert ds + rest == rest;
    } else {
      assert (ds + rest)[1..] == ds[1..] + rest;
      DigitRunOf(ds[1..], rest);
    }
  }

  /** A marked line carries its number, and stripping it leaves the body. */
  lemma MarkedLine(pad: nat, ds: string, sep: char, body: string)
    requires ds != [] && AllDigits(ds) && Decimal(ds) <= U64_MAX && sep in ['\U{2192}', '\t']
    ensures var line := Pad(pad) + ds + [sep] + body;
            Marker(line) == Some(Decimal(ds)) && StripLineNumber(line) == body
  {
    var rest := [sep] + body;
    var line := Pad(pad) + ds + [sep] + body;
    assert line == Pad(pad) + (ds + rest);
    assert ds[0] in ds && (ds + rest)[0] == ds[0];
    PaddingOf(pad, ds + rest);
    DigitRunOf(ds, rest);
    ParseDigits(ds);
    MarkerParts(line, pad, ds, rest);
    assert rest[1..] == body;
  }

  lemma MarkerParts(line: string, p: nat, ds: string, rest: string)
    requires p == Padding(line) && line[p..] == ds + rest && DigitRun(ds + rest) == |ds| > 0
    requires rest != [] && IsMark(rest[0])
    ensures Marker(line) == ParseU64(ds) && StripLineNumber(line) == rest[1..]
  {
    assert (ds + rest)[..|ds|] == ds && (ds + rest)[|ds|..] == rest;
  }

  /** A line with a marker is padding, digits, a mark and a body. */
  lemma MarkedShape(line: string) returns (mark: Mark)
    requires Marker(line).Some?
    ensures mark.Marked? && mark.ValidAt(Marker(line).value)
    ensures line == Pad(mark.pad) + mark.digits + [mark.sep] + StripLineNumber(line)
  {
    var p := Padding(line);
    var t := line[p..];
    var d := DigitRun(t);
    var ds, body := t[..d], t[d + 1..];
    PadIs(line[..p]);
    ParseDigits(ds);
    mark := Marked(p, ds, t[d]);
    JoinParts(line, p, d);
  }

  lemma JoinParts(line: string, p: nat, d: nat)
    requires p + d < |line|
    ensures var t := line[p..]; line == line[..p] + t[..d] + [t[d]] + t[d..][1..]
  {
  }

  lemma ParseDigits(ds: string)
    requires ds != [] && AllDigits(ds)
    ensures ParseU64(ds) == if Decimal(ds) <= U64_MAX then Some(Decimal(ds)) else None
  {
    assert ds[0] in ds;
  }

  /** The cut mark cannot start again inside its own tail. */
  lemma LastCut(prefix: string, count: string)
    requires AllDigits(count)
    ensures FindLast(prefix + CUT_MARK + count + CUT_END, CUT_MARK) == Some(|prefix|)
  {
    var s := prefix + CUT_MARK + count + CUT_END;
    assert s[|prefix|..|prefix| + |CUT_MARK|] == CUT_MARK;
    assert HasAt(s, CUT_MARK, |prefix|);
    forall k: nat | |prefix| < k <= |s| ensures !HasAt(s, CUT_MARK, k) {
      NoLaterCut(prefix, count, k, s);
    }
  }

  lemma NoLaterCut(prefix: string, count: string, k: nat, s: string)
    requires AllDigits(count) && k > |prefix| && s == prefix + CUT_MARK + count + CUT_END
    ensures !HasAt(s, CUT_MARK, k)
  {
    if k + |CUT_MARK| <= |s| {
      var tail := CUT_MARK + count + CUT_END;
      assert s == prefix + tail;
      DotsOnlyFirst(count, k - |prefix| + 2);
      assert s[k + 2] == tail[k - |prefix| + 2] != '.';
      assert s[k..k + |CUT_MARK|][2] == s[k + 2] && CUT_MARK[2] == '.';
    }
  }

  lemma DotsOnlyFirst(count: string, j: nat)
    requires AllDigits(count) && j < |CUT_MARK + count + CUT_END|
    ensures (CUT_MARK + count + CUT_END)[j] == '.' ==> j < 3
  {
    var tail := CUT_MARK + count + CUT_END;
    if |CUT_MARK| <= j < |CUT_MARK| + |count| {
      assert tail[j] == count[j - |CUT_MARK|] && tail[j] in count;
    } else if j >= |CUT_MARK| + |count| {
      assert tail[j] == CUT_END[j - |CUT_MARK| - |count|];
      assert '.' !in CUT_END;
    } else {
      assert tail[j] == CUT_MARK[j];
      assert forall i :: 3 <= i < |CUT_MARK| ==> CUT_MARK[i] != '.';
    }
  }

  lemma TruncationRenders(raw: string, keep: nat, count: string)
    requires CutAt(keep, count).ValidFor(raw)
    ensures IsTruncationOf(ShowCut(CutAt(keep, count), raw), raw)
  {
    var s := ShowCut(CutAt(keep, count), raw);
    LastCut(raw[..keep], count);
    var tail := s[keep + |CUT_MARK|..];
    assert tail == count + CUT_END;
    assert tail[|tail| - |CUT_END|..] == CUT_END && tail[..|tail| - |CUT_END|] == count;
    assert s[..keep] == raw[..keep];
  }

  lemma TruncationShape(body: string, raw: string) returns (cut: Cut)
    requires IsTruncationOf(body, raw)
    ensures cut.ValidFor(raw) && ShowCut(cut, raw) == body
  {
    var k := FindLast(body, CUT_MARK).value;
    var tail := body[k + |CUT_MARK|..];
    cut := CutAt(k, tail[..|tail| - |CUT_END|]);
    Reassemble(body, k, CUT_MARK, CUT_END);
    assert body[..k] == raw[..k];
  }

  lemma Reassemble(s: string, k: nat, mark: string, end: string)
    requires HasAt(s, mark, k) && EndsWith(s[k + |mark|..], end)
    ensures var tail := s[k + |mark|..]; s == s[..k] + mark + tail[..|tail| - |end|] + end
  {
    var tail := s[k + |mark|..];
    assert tail == tail[..|tail| - |end|] + end;
    assert s == s[..k] + s[k..k + |mark|] + tail;
  }

  /** An agreeing line is a rendering of its raw line at its true position. */
  lemma AgreesIsRendered(shown: string, raw: string, pos: nat) returns (mark: Mark, cut: Cut)
    requires LineAgrees(shown, raw, pos)
    ensures RendersLine(mark, cut, raw, shown, pos)
  {
    var body := if Marker(shown).Some? then StripLineNumber(shown) else shown;
    if body == raw {
      cut := Full;
    } else {
      cut := TruncationShape(body, raw);
    }
    if Marker(shown).Some? {
      mark := MarkedShape(shown);
    } else {
      mark := Unmarked;
    }
  }

  lemma RenderedAgrees(mark: Mark, cut: Cut, raw: string, shown: string, pos: nat)
    requires RendersLine(mark, cut, raw, shown, pos)
    ensures LineAgrees(shown, raw, pos)
    ensures mark.Marked? ==> Marker(shown) == Some(pos)
  {
    if cut.CutAt? { TruncationRenders(raw, cut.keep, cut.count); }
    if mark.Marked? { MarkedLine(mark.pad, mark.digits, mark.sep, ShowCut(cut, raw)); }
  }

  // ----- the two directions -----

  /** `shown` is `raw` at line `pos`: marked there or not at all, whole or cut as declared, and not
      looking marked when it is not. */
  predicate RendersLine(mark: Mark, cut: Cut, raw: string, shown: string, pos: nat) {
    && mark.ValidAt(pos) && cut.ValidFor(raw)
    && shown == Render(mark, cut, raw)
    && (mark.Unmarked? ==> Marker(shown).None?)
  }

  /** The first lines of `showns` are a rendering of `raws`, the first of them marked. */
  ghost predicate RendersSpan(start: nat, raws: seq<string>, showns: seq<string>, marks: seq<Mark>, cuts: seq<Cut>) {
    && raws != [] && |showns| >= |raws| == |marks| == |cuts| && marks[0].Marked?
    && forall i :: 0 <= i < |raws| ==> RendersLine(marks[i], cuts[i], raws[i], showns[i], At(start, i))
  }

  lemma StartFits(start: nat)
    requires start <= U64_MAX
    ensures At(start, 0) == start
  {
  }

  /** Credit is earned: a consistent span is a rendering of the raw lines. */
  lemma CreditIsRendered(start: nat, raws: seq<string>, showns: seq<string>) returns (marks: seq<Mark>, cuts: seq<Cut>)
    requires start <= U64_MAX && Consistent(start, raws, showns)
    ensures RendersSpan(start, raws, showns, marks, cuts)
  {
    marks, cuts := RenderEach(start, raws, showns, |raws|);
    assert RendersLine(marks[0], cuts[0], raws[0], showns[0], At(start, 0));
  }

  /** The first `n` lines are rendered by these marks and cuts. */
  ghost predicate RendersFirst(
      start: nat, raws: seq<string>, showns: seq<string>, marks: seq<Mark>, cuts: seq<Cut>, n: nat)
    requires n <= |raws| <= |showns|
  {
    && |marks| == |cuts| == n
    && forall i :: 0 <= i < n ==> RendersLine(marks[i], cuts[i], raws[i], showns[i], At(start, i))
  }

  ghost predicate SomeFit(fits: (nat, Mark, Cut) -> bool, i: nat) { exists m, c :: fits(i, m, c) }

  /** One mark and one cut for each of `n` lines, out of one for each line. */
  lemma {:induction false} CollectEach(fits: (nat, Mark, Cut) -> bool, n: nat)
      returns (marks: seq<Mark>, cuts: seq<Cut>)
    requires forall i: nat :: i < n ==> SomeFit(fits, i)
    ensures |marks| == |cuts| == n && forall i: nat :: i < n ==> fits(i, marks[i], cuts[i])
  {
    if n == 0 {
      marks, cuts := [], [];
    } else {
      var ms, cs := CollectEach(fits, n - 1);
      assert SomeFit(fits, n - 1);
      var m, c :| fits(n - 1, m, c);
      marks, cuts := ms + [m], cs + [c];
    }
  }

  lemma RenderEach(start: nat, raws: seq<string>, showns: seq<string>, n: nat)
      returns (marks: seq<Mark>, cuts: seq<Cut>)
    requires n <= |raws| <= |showns|
    requires forall i :: 0 <= i < n ==> LineAgrees(showns[i], raws[i], At(start, i))
    ensures RendersFirst(start, raws, showns, marks, cuts, n)
  {
    var fits := (i: nat, m: Mark, c: Cut) => i < n && RendersLine(m, c, raws[i], showns[i], At(start, i));
    forall i: nat | i < n ensures SomeFit(fits, i) {
      var m, c := AgreesIsRendered(showns[i], raws[i], At(start, i));
      assert fits(i, m, c);
    }
    marks, cuts := CollectEach(fits, n);
    forall i | 0 <= i < n ensures RendersLine(marks[i], cuts[i], raws[i], showns[i], At(start, i)) {
      assert fits(i, marks[i], cuts[i]);
    }
  }

  /** A rendering is credited. */
  lemma RenderedIsCredited(start: nat, raws: seq<string>, showns: seq<string>, marks: seq<Mark>, cuts: seq<Cut>)
    requires start <= U64_MAX && RendersSpan(start, raws, showns, marks, cuts)
    ensures Consistent(start, raws, showns)
  {
    StartFits(start);
    forall i | 0 <= i < |raws|
      ensures LineAgrees(showns[i], raws[i], At(start, i))
      ensures marks[i].Marked? ==> Marker(showns[i]) == Some(At(start, i))
    {
      RenderedAgrees(marks[i], cuts[i], raws[i], showns[i], At(start, i));
    }
  }

  /** The tool's offset, or 1 where it gives none; never 0, and within 64 bits. */
  predicate TellsStart(o: Offset, start: nat) {
    || ((o == Absent || o == Null) && start == 1)
    || (o == Whole(start) && start != 0 && start < 0x1_0000_0000_0000_0000)
  }

  lemma StartExactly(o: Offset, start: nat)
    ensures StartOf(o) == Some(start) <==> TellsStart(o, start)
  {
  }

  /** The shown text renders these raw lines, from this start, and the tool says both. */
  ghost predicate ShowsSpan(fc: Option<FileContent>, shown: string, start: nat, raws: seq<string>) {
    && fc.Some? && TellsStart(fc.value.offset, start) && fc.value.raw.Some? && raws == Lines(fc.value.raw.value)
    && exists marks, cuts :: RendersSpan(start, raws, Lines(shown), marks, cuts)
  }

  /** Both ways: the whole span is credited exactly when the shown text renders the raw text from the
      start the tool says; anything else is credited only the numbers it shows. */
  lemma SpanCreditExact(fc: Option<FileContent>, shown: string)
    ensures forall start: nat, raws: seq<string> :: ShowsSpan(fc, shown, start, raws) ==>
              raws != [] && ReturnedLines(fc, shown) == [(start, At(start, |raws| - 1))]
    ensures (forall start: nat, raws: seq<string> :: !ShowsSpan(fc, shown, start, raws)) ==>
              ReturnedLines(fc, shown) == NumberedRuns(shown)
  {
    if fc.Some? && fc.value.raw.Some? {
      forall start: nat ensures StartOf(fc.value.offset) == Some(start) <==> TellsStart(fc.value.offset, start) {
        StartExactly(fc.value.offset, start);
      }
      if StartOf(fc.value.offset).Some? {
        var start, raws := StartOf(fc.value.offset).value, Lines(fc.value.raw.value);
        ConsistentIffRendered(start, raws, Lines(shown));
        SpanOrRuns(fc.value, shown, start, raws);
        if Consistent(start, raws, Lines(shown)) { assert ShowsSpan(fc, shown, start, raws); }
      }
    }
  }

  lemma SpanOrRuns(fc: FileContent, shown: string, start: nat, raws: seq<string>)
    requires fc.raw.Some? && StartOf(fc.offset) == Some(start) && Lines(fc.raw.value) == raws
    ensures if Consistent(start, raws, Lines(shown))
            then raws != [] && ReturnedLines(Some(fc), shown) == [(start, At(start, |raws| - 1))]
            else ReturnedLines(Some(fc), shown) == NumberedRuns(shown)
  {
  }

  lemma ConsistentIffRendered(start: nat, raws: seq<string>, showns: seq<string>)
    requires start <= U64_MAX
    ensures Consistent(start, raws, showns) <==> exists marks, cuts :: RendersSpan(start, raws, showns, marks, cuts)
  {
    if Consistent(start, raws, showns) {
      var marks, cuts := CreditIsRendered(start, raws, showns);
    }
    forall marks, cuts | RendersSpan(start, raws, showns, marks, cuts) ensures Consistent(start, raws, showns) {
      RenderedIsCredited(start, raws, showns, marks, cuts);
    }
  }

  /** The runs hold these `n` lines and no others. */
  ghost predicate Holds(runs: Runs, first: nat, n: nat) {
    forall k: nat :: Covered(runs, k) <==> first <= k < first + n
  }

  lemma OneRun(first: nat, last: nat, k: nat)
    ensures Covered([(first, last)], k) <==> first <= k <= last
  {
    if first <= k <= last { assert [(first, last)][0].0 <= k <= [(first, last)][0].1; }
  }

  /** A span of `n` lines as `SpanCreditExact` has it credited: it holds the lines read, all of them
      and no others, exactly when the last number fits in 64 bits; otherwise that wraps, and the last
      line read is not among them. */
  lemma SpanLinesExactly(runs: Runs, start: nat, n: nat)
    requires n > 0 && runs == [(start, At(start, n - 1))]
    ensures Holds(runs, start, n) <==> start + n - 1 <= U64_MAX
    ensures Covered(runs, start + n - 1) <==> start + n - 1 <= U64_MAX
  {
    var last := start + n - 1;
    OneRun(start, At(start, n - 1), last);
    if last <= U64_MAX {
      forall k: nat ensures Covered([(start, last)], k) <==> start <= k < start + n { OneRun(start, last, k); }
    }
  }
}
