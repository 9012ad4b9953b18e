/** Which source lines the modelled readers put in front of the model: all of a window, except
    where `nl` meets a logical-page delimiter. */
module Delivery {
  import opened Text
  import opened ReadParser
  import opened ShellSemantics

  const WHOLE := LineRange(1, None)

  /** Line `n` of a file of `total` lines lies in the window. */
  predicate InWindow(n: nat, r: LineRange, total: nat) {
    1 <= n && r.start <= n <= total && (r.end.Some? ==> n <= r.end.value)
  }

  /** Every line of the window that the file has was shown. */
  ghost predicate Delivers(s: Shown, r: LineRange) {
    forall n: nat :: InWindow(n, r, |s.file|) ==> Some(n) in s.lines
  }

  predicate Covers(shown: LineRange, credited: LineRange) {
    && shown.start <= credited.start
    && (shown.end.None? || (credited.end.Some? && credited.end.value <= shown.end.value))
  }

  /** A window as the parsers give it. */
  predicate Proper(r: LineRange) { r.start >= 1 && (r.end.Some? ==> r.start <= r.end.value) }

  // ----- cat and sed -----

  lemma WindowPlace<T>(lines: seq<T>, m: LineRange, n: nat)
    requires InWindow(n, m, |lines|)
    ensures Skips(m, |lines|) <= n - 1 < Stops(m, |lines|)
    ensures WindowOf(lines, m)[n - 1 - Skips(m, |lines|)] == lines[n - 1]
  {
  }

  lemma CoversInWindow(m: LineRange, r: LineRange, n: nat, total: nat)
    requires Covers(m, r) && InWindow(n, r, total)
    ensures InWindow(n, m, total)
  {
  }

  lemma CatDelivers(path: string, file: seq<string>)
    ensures Delivers(Shown(path, file, CatLines(|file|)), WHOLE)
  {
    forall n: nat | InWindow(n, WHOLE, |file|) ensures Some(n) in CatLines(|file|) {
      assert CatLines(|file|)[n - 1] == Some(n);
    }
  }

  /** A window of what `cat` prints, or of the file itself, delivers every window it covers. */
  lemma SedDelivers(path: string, file: seq<string>, m: LineRange, r: LineRange)
    requires Covers(m, r)
    ensures Delivers(Shown(path, file, WindowOf(CatLines(|file|), m)), r)
  {
    var out := CatLines(|file|);
    forall n: nat | InWindow(n, r, |file|) ensures Some(n) in WindowOf(out, m) {
      CoversInWindow(m, r, n, |file|);
      WindowPlace(out, m, n);
    }
  }

  // ----- nl -----

  /** No line of the window is a logical-page delimiter. */
  predicate DelimiterFree(file: seq<string>, r: LineRange) {
    forall i :: 0 <= i < |file| && InWindow(i + 1, r, |file|) ==> !IsDelimiter(file[i])
  }

  /** `nl` prints the line of number `n` iff it is one of its lines and no delimiter. */
  lemma {:induction false} NlPrints(lines: seq<string>, first: nat, blanks: bool, n: nat)
    ensures Some(n) in NlLines(lines, first, blanks)
            <==> first <= n < first + |lines| && !IsDelimiter(lines[n - first])
  {
    if lines == [] {
    } else {
      NlPrints(lines[1..], first + 1, blanks, n);
      assert NlLines(lines, first, blanks) == NlOne(lines[0], first, blanks) + NlLines(lines[1..], first + 1, blanks);
      assert first < n < first + |lines| ==> lines[1..][n - first - 1] == lines[n - first];
    }
  }

  /** The window stands for itself: no delimiter in it. */
  lemma NlDeliversExactly(path: string, file: seq<string>, blanks: bool)
    ensures Delivers(Shown(path, file, NlLines(file, 1, blanks)), WHOLE) <==> DelimiterFree(file, WHOLE)
  {
    forall n: nat | InWindow(n, WHOLE, |file|)
      ensures Some(n) in NlLines(file, 1, blanks) <==> !IsDelimiter(file[n - 1])
    {
      NlPrints(file, 1, blanks, n);
    }
    if !DelimiterFree(file, WHOLE) {
      var i :| 0 <= i < |file| && InWindow(i + 1, WHOLE, |file|) && IsDelimiter(file[i]);
      assert InWindow(i + 1, WHOLE, |file|);
    }
  }

  /** `sed -n | nl`: `nl` numbers the window's own lines. */
  lemma SedNlDeliversExactly(path: string, file: seq<string>, m: LineRange, r: LineRange, blanks: bool)
    requires Covers(m, r)
    ensures var out := NlLines(WindowOf(file, m), Skips(m, |file|) + 1, blanks);
            Delivers(Shown(path, file, out), r) <==> DelimiterFree(file, r)
  {
    var first, window := Skips(m, |file|) + 1, WindowOf(file, m);
    var out := NlLines(window, first, blanks);
    forall n: nat | InWindow(n, r, |file|) ensures Some(n) in out <==> !IsDelimiter(file[n - 1]) {
      NlPrints(window, first, blanks, n);
      CoversInWindow(m, r, n, |file|);
      WindowPlace(file, m, n);
    }
    if !DelimiterFree(file, r) {
      var i :| 0 <= i < |file| && InWindow(i + 1, r, |file|) && IsDelimiter(file[i]);
      assert InWindow(i + 1, r, |file|);
    }
  }

  // ----- a window of what nl prints -----

  /** The lines a window of `nl`'s output depends on: the window itself, and, where `nl` prints
      nothing for a delimiter, every line before it. */
  predicate KeepsPlace(file: seq<string>, r: LineRange, blanks: bool) {
    |file| < r.start || DelimiterFree(file, if blanks then r else LineRange(1, r.end))
  }

  lemma {:induction false} BlankPlaces(file: seq<string>, first: nat, i: nat)
    requires i < |file|
    ensures |NlLines(file, first, true)| == |file|
    ensures NlLines(file, first, true)[i] == if IsDelimiter(file[i]) then None else Some(first + i)
  {
    if |file| > 1 || i > 0 {
      BlankPlaces(file[1..], first + 1, if i == 0 then 0 else i - 1);
    } else {
      assert file[1..] == [];
    }
  }

  lemma {:induction false} BlankLength(file: seq<string>, first: nat)
    ensures |NlLines(file, first, true)| == |file|
  {
    if file == [] {
    } else {
      BlankLength(file[1..], first + 1);
    }
  }

  lemma BlankWindowDelivers(path: string, file: seq<string>, m: LineRange, r: LineRange)
    requires Covers(m, r)
    ensures Delivers(Shown(path, file, WindowOf(NlLines(file, 1, true), m)), r) <==> DelimiterFree(file, r)
  {
    var out := NlLines(file, 1, true);
    BlankLength(file, 1);
    forall n: nat | InWindow(n, r, |file|) ensures Some(n) in WindowOf(out, m) <==> !IsDelimiter(file[n - 1]) {
      BlankPlaces(file, 1, n - 1);
      CoversInWindow(m, r, n, |file|);
      WindowPlace(out, m, n);
      NlPrints(file, 1, true, n);
    }
    if !DelimiterFree(file, r) {
      var i :| 0 <= i < |file| && InWindow(i + 1, r, |file|) && IsDelimiter(file[i]);
      assert InWindow(i + 1, r, |file|);
    }
  }

  predicate NoneDelimits(lines: seq<string>) { forall i :: 0 <= i < |lines| ==> !IsDelimiter(lines[i]) }

  /** Where nothing is dropped, line `i` is printed at its own place; where something before it is
      dropped, nothing at its place or after carries it. */
  lemma {:induction false} DroppedPlaces(file: seq<string>, first: nat, i: nat, j: nat)
    requires i < |file| && j < |NlLines(file, first, false)| && NlLines(file, first, false)[j] == Some(first + i)
    ensures j <= i && (j == i <==> NoneDelimits(file[..i]))
  {
    var rest := NlLines(file[1..], first + 1, false);
    if i == 0 {
      if j > 0 { NoEarlierNumber(file[1..], first + 1, first, j - |NlOne(file[0], first, false)|); }
    } else {
      var k := |NlOne(file[0], first, false)|;
      assert NlLines(file, first, false)[j] == rest[j - k];
      DroppedPlaces(file[1..], first + 1, i - 1, j - k);
      assert file[1..][..i - 1] == file[..i][1..];
      assert NoneDelimits(file[..i]) <==> !IsDelimiter(file[0]) && NoneDelimits(file[..i][1..]);
    }
  }

  lemma NoEarlierNumber(file: seq<string>, first: nat, n: nat, j: nat)
    requires n < first && j < |NlLines(file, first, false)|
    ensures NlLines(file, first, false)[j] != Some(n)
  {
    NlPrints(file, first, false, n);
  }

  lemma {:induction false} UndroppedPlace(file: seq<string>, first: nat, i: nat)
    requires i < |file| && NoneDelimits(file[..i + 1])
    ensures i < |NlLines(file, first, false)| && NlLines(file, first, false)[i] == Some(first + i)
  {
    assert !IsDelimiter(file[..i + 1][0]);
    if i == 0 {
    } else {
      assert file[1..][..i] == file[..i + 1][1..];
      UndroppedPlace(file[1..], first + 1, i - 1);
    }
  }

  lemma KeptLine(file: seq<string>, m: LineRange, n: nat)
    requires InWindow(n, m, |file|) && NoneDelimits(file[..n])
    ensures Some(n) in WindowOf(NlLines(file, 1, false), m)
  {
    var i := n - 1;
    assert file[..i + 1] == file[..n];
    UndroppedPlace(file, 1, i);
    PlaceShown(NlLines(file, 1, false), m, n);
  }

  lemma PlaceShown(out: seq<Option<nat>>, m: LineRange, n: nat)
    requires InWindow(n, m, |out|) && out[n - 1] == Some(n)
    ensures Some(n) in WindowOf(out, m)
  {
    WindowPlace(out, m, n);
  }

  /** A line carried at its own place or later has no delimiter up to it. */
  lemma CarriedInPlace(file: seq<string>, n: nat, j: nat)
    requires 1 <= n <= |file| && n - 1 <= j < |NlLines(file, 1, false)| && NlLines(file, 1, false)[j] == Some(n)
    ensures NoneDelimits(file[..n])
  {
    DroppedPlaces(file, 1, n - 1, j);
    NlPrints(file, 1, false, n);
    assert file[..n] == file[..n - 1] + [file[n - 1]];
  }

  lemma ShiftedLine(file: seq<string>, m: LineRange)
    requires 1 <= m.start <= |file| && !NoneDelimits(file[..m.start])
    ensures Some(m.start) !in WindowOf(NlLines(file, 1, false), m)
  {
    var out := NlLines(file, 1, false);
    var window := WindowOf(out, m);
    forall k | 0 <= k < |window| ensures window[k] != Some(m.start) {
      assert window[k] == out[k + Skips(m, |out|)];
      if out[k + Skips(m, |out|)] == Some(m.start) {
        CarriedInPlace(file, m.start, k + Skips(m, |out|));
        assert false;
      }
    }
  }

  lemma FreeBefore(file: seq<string>, r: LineRange, n: nat)
    requires InWindow(n, r, |file|) && DelimiterFree(file, LineRange(1, r.end))
    ensures NoneDelimits(file[..n])
  {
    forall i | 0 <= i < n ensures !IsDelimiter(file[..n][i]) {
      assert InWindow(i + 1, LineRange(1, r.end), |file|);
    }
  }

  /** Where `nl` prints nothing for a delimiter, the window is delivered exactly when no line up to
      its end is one. */
  lemma DroppedWindowDelivers(path: string, file: seq<string>, m: LineRange, r: LineRange)
    requires Covers(m, r) && m.start == r.start >= 1 && Proper(r)
    ensures Delivers(Shown(path, file, WindowOf(NlLines(file, 1, false), m)), r) <==> KeepsPlace(file, r, false)
  {
    var out := WindowOf(NlLines(file, 1, false), m);
    if KeepsPlace(file, r, false) {
      forall n: nat | InWindow(n, r, |file|) ensures Some(n) in out {
        CoversInWindow(m, r, n, |file|);
        FreeBefore(file, r, n);
        KeptLine(file, m, n);
      }
    } else {
      DroppedWindowFails(file, m, r);
    }
  }

  lemma InsideFails(file: seq<string>, m: LineRange, r: LineRange, i: nat)
    requires i < |file| && InWindow(i + 1, r, |file|) && IsDelimiter(file[i])
    ensures Some(i + 1) !in WindowOf(NlLines(file, 1, false), m)
  {
    NlPrints(file, 1, false, i + 1);
  }

  lemma BeforeFails(file: seq<string>, m: LineRange, i: nat)
    requires i < |file| && i + 1 < m.start <= |file| && IsDelimiter(file[i])
    ensures Some(m.start) !in WindowOf(NlLines(file, 1, false), m)
  {
    assert file[..m.start][i] == file[i];
    ShiftedLine(file, m);
  }

  lemma DroppedWindowFails(file: seq<string>, m: LineRange, r: LineRange)
    requires m.start == r.start && Proper(r) && !KeepsPlace(file, r, false)
    ensures exists n: nat :: InWindow(n, r, |file|) && Some(n) !in WindowOf(NlLines(file, 1, false), m)
  {
    var i :| 0 <= i < |file| && InWindow(i + 1, LineRange(1, r.end), |file|) && IsDelimiter(file[i]);
    if r.start <= i + 1 {
      assert InWindow(i + 1, r, |file|);
      InsideFails(file, m, r, i);
    } else {
      assert InWindow(r.start, r, |file|);
      BeforeFails(file, m, i);
    }
  }
}
