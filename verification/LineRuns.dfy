/** The line numbers a read tool's output shows (`types.rs`): the marker of one line, and the
    contiguous runs of all of them. */
module LineRuns {
  import opened Text
  import opened Positions

  const ARROW: char := '\U{2192}'

  predicate IsMark(c: char) { c == ARROW || c == '\t' }

  /** Leading spaces, and only spaces. */
  function Padding(s: string): (n: nat)
    ensures n <= |s| && (forall c :: c in s[..n] ==> c == ' ') && (n < |s| ==> s[n] != ' ')
  {
    if s == [] || s[0] != ' ' then 0
    else
      var n := 1 + Padding(s[1..]);
      assert s[..n] == [s[0]] + s[1..][..n - 1];
      n
  }

  /** Length of the leading run of digits. */
  function DigitRun(s: string): (n: nat)
    ensures n <= |s| && AllDigits(s[..n]) && (n < |s| ==> !IsDigit(s[n]))
  {
    if s == [] || !IsDigit(s[0]) then 0
    else
      var n := 1 + DigitRun(s[1..]);
      assert s[..n] == [s[0]] + s[1..][..n - 1];
      n
  }

  /** `line_number_marker`: spaces, digits, then an arrow or a tab. */
  function Marker(line: string): (r: Option<nat>)
    ensures r.Some? ==> r.value <= U64_MAX
  {
    var t := line[Padding(line)..];
    var d := DigitRun(t);
    if d > 0 && d < |t| && IsMark(t[d]) then ParseU64(t[..d]) else None
  }

  /** `filter_map(line_number_marker)`. */
  function Markers(lines: seq<string>): (ms: seq<nat>)
    ensures forall n :: n in ms <==> exists l :: l in lines && Marker(l) == Some(n)
  {
    if lines == [] then []
    else (match Marker(lines[0]) case None => [] case Some(n) => [n]) + Markers(lines[1..])
  }

  // ----- sorting, as the standard library does it -----

  lemma AscendingCons(n: nat, s: seq<nat>)
    requires Ascending(s) && forall x :: x in s ==> n < x
    ensures Ascending([n] + s)
  {
    var r := [n] + s;
    forall i, j | 0 <= i < j < |r| ensures r[i] < r[j] {
      assert r[j] == s[j - 1] && s[j - 1] in s;
      if i > 0 { assert r[i] == s[i - 1]; }
    }
  }

  function Insert(s: seq<nat>, n: nat): (r: seq<nat>)
    requires Ascending(s)
    ensures Ascending(r) && forall x :: x in r <==> x in s || x == n
  {
    if s == [] || n < s[0] then [n] + s
    else if n == s[0] then s
    else
      var rest := Insert(s[1..], n);
      assert s == [s[0]] + s[1..];
      assert forall j :: 0 <= j < |s[1..]| ==> s[0] < s[1..][j];
      assert forall x :: x in rest ==> s[0] < x;
      AscendingCons(s[0], rest);
      assert forall x :: x in s <==> x == s[0] || x in s[1..];
      [s[0]] + rest
  }

  /** `sort_unstable` then `dedup`. */
  function SortedDistinct(s: seq<nat>): (r: seq<nat>)
    ensures Ascending(r) && forall x :: x in r <==> x in s
  {
    if s == [] then [] else Insert(SortedDistinct(s[1..]), s[0])
  }

  // ----- runs -----

  type Runs = seq<(nat, nat)>

  /** Each run is a range, and a gap separates it from the next. */
  predicate Canonical(runs: Runs) {
    && (forall i :: 0 <= i < |runs| ==> runs[i].0 <= runs[i].1)
    && (forall i, j :: 0 <= i < j < |runs| ==> runs[i].1 + 1 < runs[j].0)
  }

  ghost predicate Covered(runs: Runs, n: nat) { exists i :: 0 <= i < |runs| && runs[i].0 <= n <= runs[i].1 }

  function Extend(runs: Runs, n: nat): Runs {
    if runs != [] && runs[|runs| - 1].1 + 1 == n
    then runs[..|runs| - 1] + [(runs[|runs| - 1].0, n)]
    else runs + [(n, n)]
  }

  function BuildRuns(seen: seq<nat>): Runs {
    if seen == [] then [] else Extend(BuildRuns(seen[..|seen| - 1]), seen[|seen| - 1])
  }

  function NumberedRuns(text: string): Runs { BuildRuns(SortedDistinct(Markers(Lines(text)))) }

  lemma GrowLast(runs: Runs, n: nat)
    requires Canonical(runs) && runs != [] && runs[|runs| - 1].1 + 1 == n
    ensures forall x: nat :: Covered(Extend(runs, n), x) <==> Covered(runs, x) || x == n
  {
    var r, k := Extend(runs, n), |runs| - 1;
    forall x: nat ensures Covered(r, x) <==> Covered(runs, x) || x == n {
      assert forall i :: 0 <= i < k ==> runs[i] == r[i];
      assert r[k].0 <= x <= r[k].1 <==> runs[k].0 <= x <= runs[k].1 || x == n;
      if Covered(runs, x) {
        var i :| 0 <= i < |runs| && runs[i].0 <= x <= runs[i].1;
        assert r[i].0 <= x <= r[i].1;
      }
    }
  }

  lemma AppendRun(runs: Runs, n: nat)
    ensures forall x: nat :: Covered(runs + [(n, n)], x) <==> Covered(runs, x) || x == n
  {
    var r := runs + [(n, n)];
    forall x: nat ensures Covered(r, x) <==> Covered(runs, x) || x == n {
      assert forall i :: 0 <= i < |runs| ==> runs[i] == r[i];
      assert r[|runs|].0 <= x <= r[|runs|].1 <==> x == n;
      if Covered(runs, x) {
        var i :| 0 <= i < |runs| && runs[i].0 <= x <= runs[i].1;
        assert r[i].0 <= x <= r[i].1;
      }
    }
  }

  lemma ExtendExact(runs: Runs, n: nat)
    requires Canonical(runs) && (runs != [] ==> runs[|runs| - 1].1 < n)
    ensures Canonical(Extend(runs, n)) && Extend(runs, n)[|Extend(runs, n)| - 1].1 == n
    ensures forall x: nat :: Covered(Extend(runs, n), x) <==> Covered(runs, x) || x == n
  {
    if runs != [] && runs[|runs| - 1].1 + 1 == n { GrowLast(runs, n); } else { AppendRun(runs, n); }
  }

  lemma {:induction false} BuildRunsExact(seen: seq<nat>)
    requires Ascending(seen)
    ensures Canonical(BuildRuns(seen)) && forall x: nat :: Covered(BuildRuns(seen), x) <==> x in seen
    ensures seen != [] ==> BuildRuns(seen) != [] && BuildRuns(seen)[|BuildRuns(seen)| - 1].1 == seen[|seen| - 1]
  {
    if seen == [] {
    } else {
      var front, n := seen[..|seen| - 1], seen[|seen| - 1];
      BuildRunsExact(front);
      assert seen == front + [n];
      ExtendExact(BuildRuns(front), n);
    }
  }

  /** The runs are exact: ascending, disjoint, separated by gaps, and together they are precisely
      the line numbers the text marks. */
  lemma RunsExact(text: string)
    ensures Canonical(NumberedRuns(text))
    ensures forall n: nat :: Covered(NumberedRuns(text), n) <==> exists l :: l in Lines(text) && Marker(l) == Some(n)
  {
    BuildRunsExact(SortedDistinct(Markers(Lines(text))));
  }

  /** No other list of runs says the same: a set of lines has one canonical form. */
  lemma {:induction false} CanonicalIsUnique(a: Runs, b: Runs)
    requires Canonical(a) && Canonical(b)
    requires forall n: nat :: Covered(a, n) <==> Covered(b, n)
    ensures a == b
  {
    if a == [] || b == [] {
      if a != [] { assert Covered(a, a[0].0); }
      if b != [] { assert Covered(b, b[0].0); }
    } else {
      FirstRunAgrees(a, b);
      FirstRunAgrees(b, a);
      forall n: nat ensures Covered(a[1..], n) <==> Covered(b[1..], n) {
        TailCovers(a, n);
        TailCovers(b, n);
      }
      CanonicalIsUnique(a[1..], b[1..]);
      assert a == [a[0]] + a[1..] && b == [b[0]] + b[1..];
    }
  }

  lemma TailCovers(a: Runs, n: nat)
    requires Canonical(a) && a != []
    ensures Covered(a[1..], n) <==> Covered(a, n) && n > a[0].1
  {
    if Covered(a[1..], n) {
      var i :| 0 <= i < |a[1..]| && a[1..][i].0 <= n <= a[1..][i].1;
      assert a[i + 1].0 <= n <= a[i + 1].1;
    }
    if Covered(a, n) && n > a[0].1 {
      var i :| 0 <= i < |a| && a[i].0 <= n <= a[i].1;
      assert a[1..][i - 1].0 <= n <= a[1..][i - 1].1;
    }
  }

  lemma FirstRunAgrees(a: Runs, b: Runs)
    requires Canonical(a) && Canonical(b) && a != [] && b != []
    requires forall n: nat :: Covered(a, n) <==> Covered(b, n)
    ensures a[0].0 >= b[0].0 && (a[0].0 == b[0].0 ==> a[0].1 <= b[0].1)
  {
    assert Covered(a, a[0].0);
    var n := b[0].1 + 1;
    assert !Covered(b, n);
    assert a[0].0 <= n <= a[0].1 ==> Covered(a, n);
  }

  method NumberedLineRuns(text: string) returns (runs: Runs)
    ensures runs == NumberedRuns(text)
  {
    var seen := SortedDistinct(Markers(Lines(text)));
    assert forall n :: n in seen ==> n <= U64_MAX;
    runs := JoinRuns(seen);
  }

  lemma BuildStep(seen: seq<nat>, i: nat)
    requires Ascending(seen) && i < |seen|
    ensures BuildRuns(seen[..i + 1]) == Extend(BuildRuns(seen[..i]), seen[i]) && seen[i] in seen
    ensures var runs := BuildRuns(seen[..i]); runs != [] ==> runs[|runs| - 1].1 < seen[i]
  {
    assert seen[..i + 1][..i] == seen[..i];
    BuildRunsExact(seen[..i]);
  }

  /** The loop of `numbered_line_runs`. */
  method JoinRuns(seen: seq<nat>) returns (runs: Runs)
    requires Ascending(seen) && forall n :: n in seen ==> n <= U64_MAX
    ensures runs == BuildRuns(seen)
  {
    runs := [];
    var i := 0;
    while i < |seen|
      invariant 0 <= i <= |seen|
      invariant runs == BuildRuns(seen[..i])
    {
      var n := seen[i];
      BuildStep(seen, i);
      // `*last + 1` cannot overflow: `last` is a smaller 64-bit number already seen.
      assert runs != [] ==> runs[|runs| - 1].1 < n <= U64_MAX;
      if runs != [] && runs[|runs| - 1].1 + 1 == n {
        runs := runs[..|runs| - 1] + [(runs[|runs| - 1].0, n)];
      } else {
        runs := runs + [(n, n)];
      }
      i := i + 1;
    }
    assert seen[..|seen|] == seen;
  }
}
