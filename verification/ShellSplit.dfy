/** The quote-aware splitters of `codex.rs`: `split_unquoted`, and the link scan and verdict of
    `chain_links_are_unprovable`.

    The specification is `Pieces`: one scan that carries the open quote and starts a new piece at
    every unquoted separator. The loops are proved against it; its meaning is then proved apart:
    the pieces rebuild the text, hold no unquoted separator, are quote-closed, and splitting at
    `&&`, then `;`, then newline finds the links the guard's single scan finds. */
module ShellSplit {
  import opened Text

  predicate IsQuote(c: char) { c == '\'' || c == '"' }

  predicate QuoteFree(s: string) { '\'' !in s && '"' !in s }

  /** The open quote after reading `c`. */
  function StepQuote(q: Option<char>, c: char): Option<char> {
    match q
    case Some(o) => if c == o then None else q
    case None => if IsQuote(c) then Some(c) else None
  }

  function QuoteAfter(s: string, q: Option<char>): Option<char> {
    if s == [] then q else QuoteAfter(s[1..], StepQuote(q, s[0]))
  }

  predicate Balanced(s: string) { QuoteAfter(s, None).None? }

  /** A separator is non-empty and holds no quote. */
  predicate SepsOk(seps: seq<string>) { forall x :: x in seps ==> x != [] && QuoteFree(x) }

  /** Length of the separator `s` starts with; 0 when it starts with none. */
  function MatchLen(seps: seq<string>, s: string): (n: nat)
    ensures n <= |s|
    ensures n > 0 ==> s[..n] in seps
  {
    if seps == [] then 0
    else if seps[0] <= s && seps[0] != [] then
      assert s[..|seps[0]|] == seps[0];
      |seps[0]|
    else MatchLen(seps[1..], s)
  }

  /** Does a new piece start here? */
  predicate CutHere(seps: seq<string>, s: string, q: Option<char>)
    requires s != []
  {
    q.None? && !IsQuote(s[0]) && MatchLen(seps, s) > 0
  }

  function Prepend(x: string, ps: seq<string>): (r: seq<string>)
    requires ps != []
    ensures |r| == |ps|
  {
    [x + ps[0]] + ps[1..]
  }

  function Pieces(seps: seq<string>, s: string, q: Option<char>): (ps: seq<string>)
    ensures ps != []
    decreases |s|
  {
    if s == [] then [[]]
    else if CutHere(seps, s, q) then [[]] + Pieces(seps, s[MatchLen(seps, s)..], None)
    else Prepend([s[0]], Pieces(seps, s[1..], StepQuote(q, s[0])))
  }

  /** The pieces trimmed, the empty ones dropped. */
  function NonEmpty(ps: seq<string>): seq<string> {
    if ps == [] then [] else Kept(ps[0]) + NonEmpty(ps[1..])
  }

  function Kept(p: string): seq<string> {
    if Trim(p) == [] then [] else [Trim(p)]
  }

  lemma NonEmptySnoc(ps: seq<string>, p: string)
    ensures NonEmpty(ps + [p]) == NonEmpty(ps) + Kept(p)
  {
    NonEmptyAppend(ps, [p]);
    NonEmptyCons(p, []);
    assert [p] + [] == [p];
  }

  lemma NonEmptyCons(p: string, ps: seq<string>)
    ensures NonEmpty([p] + ps) == Kept(p) + NonEmpty(ps)
  {
    assert ([p] + ps)[1..] == ps;
  }

  /** What `split_unquoted` returns. An unterminated quote is not split. */
  function Split(s: string, sep: string): seq<string> {
    if Balanced(s) then NonEmpty(Pieces([sep], s, None)) else [Trim(s)]
  }

  // ----- the loops -----

  lemma PrependNothing(ps: seq<string>)
    requires ps != []
    ensures [] + Prepend([], ps) == ps
  {
    assert [] + ps[0] == ps[0];
  }

  /** At a cut the text read so far becomes a piece of its own. */
  lemma CutStep(done: seq<string>, here: string, after: seq<string>)
    requires after != []
    ensures done + Prepend(here, [[]] + after) == (done + [here]) + Prepend([], after)
  {
    assert here + [] == here && [] + after[0] == after[0];
    assert Prepend(here, [[]] + after) == [here] + after;
    assert Prepend([], after) == after;
  }

  lemma PrependStep(x: string, c: char, ps: seq<string>)
    requires ps != []
    ensures Prepend(x, Prepend([c], ps)) == Prepend(x + [c], ps)
  {
    assert x + ([c] + ps[0]) == (x + [c]) + ps[0];
  }

  lemma {:induction false} QuoteAfterSkip(s: string, n: nat)
    requires n <= |s| && QuoteFree(s[..n])
    ensures QuoteAfter(s, None) == QuoteAfter(s[n..], None)
  {
    if n == 0 {
    } else {
      assert s[0] == s[..n][0] && s[..n][1..] == s[1..][..n - 1] && s[1..][n - 1..] == s[n..];
      QuoteAfterSkip(s[1..], n - 1);
    }
  }

  lemma NonEmptyAppend(a: seq<string>, b: seq<string>)
    ensures NonEmpty(a + b) == NonEmpty(a) + NonEmpty(b)
  {
    if a == [] {
      assert a + b == b;
    } else {
      assert (a + b)[1..] == a[1..] + b;
      NonEmptyAppend(a[1..], b);
    }
  }

  /** The scan of `s` has reached `i`: `done` are the pieces cut, `s[start..i]` the piece being
      read, and `q` the open quote. */
  ghost predicate ScannedTo(seps: seq<string>, s: string, done: seq<string>, start: nat, i: nat, q: Option<char>) {
    && start <= i <= |s|
    && Pieces(seps, s, None) == done + Prepend(s[start..i], Pieces(seps, s[i..], q))
    && QuoteAfter(s, None) == QuoteAfter(s[i..], q)
  }

  lemma ScanStart(seps: seq<string>, s: string)
    ensures ScannedTo(seps, s, [], 0, 0, None)
  {
    assert s[0..] == s;
    PrependNothing(Pieces(seps, s, None));
  }

  lemma ScanCut(seps: seq<string>, s: string, done: seq<string>, start: nat, i: nat, q: Option<char>)
    requires SepsOk(seps) && ScannedTo(seps, s, done, start, i, q)
    requires i < |s| && CutHere(seps, s[i..], q)
    ensures var n := i + MatchLen(seps, s[i..]); ScannedTo(seps, s, done + [s[start..i]], n, n, None)
  {
    var k := MatchLen(seps, s[i..]);
    assert s[i..][k..] == s[i + k..];
    QuoteAfterSkip(s[i..], k);
    CutStep(done, s[start..i], Pieces(seps, s[i + k..], None));
    assert s[i + k..i + k] == [];
  }

  lemma ScanStep(seps: seq<string>, s: string, done: seq<string>, start: nat, i: nat, q: Option<char>)
    requires ScannedTo(seps, s, done, start, i, q)
    requires i < |s| && !CutHere(seps, s[i..], q)
    ensures ScannedTo(seps, s, done, start, i + 1, StepQuote(q, s[i]))
  {
    assert s[i..][1..] == s[i + 1..];
    PrependStep(s[start..i], s[i], Pieces(seps, s[i + 1..], StepQuote(q, s[i])));
    assert s[start..i] + [s[i]] == s[start..i + 1];
  }

  lemma ScanEnd(seps: seq<string>, s: string, done: seq<string>, start: nat, q: Option<char>)
    requires ScannedTo(seps, s, done, start, |s|, q)
    ensures Pieces(seps, s, None) == done + [s[start..]] && QuoteAfter(s, None) == q
  {
    assert s[start..|s|] == s[start..] && s[start..] + [] == s[start..];
    assert s[|s|..] == [];
    assert Prepend(s[start..], [[]]) == [s[start..]];
  }

  lemma OneSeparator(sep: string, s: string)
    requires sep != []
    ensures MatchLen([sep], s) == if sep <= s then |sep| else 0
  {
  }

  /** A cut of the splitter stands at `i`. */
  predicate CutsAt(s: string, sep: string, i: nat, q: Option<char>)
    requires i < |s|
  {
    q.None? && !IsQuote(s[i]) && sep <= s[i..]
  }

  /** What the splitter still returns from `i` on, in the piece that began at `start`. */
  function SplitRest(s: string, sep: string, start: nat, i: nat, q: Option<char>): seq<string>
    requires sep != [] && start <= i <= |s|
    decreases |s| - i
  {
    if i == |s| then Kept(s[start..])
    else if CutsAt(s, sep, i, q) then Kept(s[start..i]) + SplitRest(s, sep, i + |sep|, i + |sep|, None)
    else SplitRest(s, sep, start, i + 1, StepQuote(q, s[i]))
  }

  /** The quote left open at the end. */
  function QuoteRest(s: string, sep: string, i: nat, q: Option<char>): Option<char>
    requires sep != [] && i <= |s|
    decreases |s| - i
  {
    if i == |s| then q
    else if CutsAt(s, sep, i, q) then QuoteRest(s, sep, i + |sep|, None)
    else QuoteRest(s, sep, i + 1, StepQuote(q, s[i]))
  }

  lemma CutIsCutHere(s: string, sep: string, i: nat, q: Option<char>)
    requires i < |s| && sep != [] && QuoteFree(sep)
    ensures CutsAt(s, sep, i, q) <==> CutHere([sep], s[i..], q)
    ensures CutsAt(s, sep, i, q) ==> MatchLen([sep], s[i..]) == |sep|
  {
    OneSeparator(sep, s[i..]);
    assert s[i..][0] == s[i];
    assert sep <= s[i..] ==> sep[0] == s[i] && sep[0] in sep;
  }

  lemma PiecesAtCut(s: string, sep: string, i: nat)
    requires i < |s| && sep != [] && QuoteFree(sep) && CutsAt(s, sep, i, None)
    ensures Pieces([sep], s[i..], None) == [[]] + Pieces([sep], s[i + |sep|..], None)
    ensures QuoteAfter(s[i..], None) == QuoteAfter(s[i + |sep|..], None)
  {
    CutIsCutHere(s, sep, i, None);
    assert s[i..][|sep|..] == s[i + |sep|..] && s[i..][..|sep|] == sep;
    QuoteAfterSkip(s[i..], |sep|);
  }

  lemma PiecesAtStep(s: string, sep: string, i: nat, q: Option<char>)
    requires i < |s| && sep != [] && QuoteFree(sep) && !CutsAt(s, sep, i, q)
    ensures var q' := StepQuote(q, s[i]);
            Pieces([sep], s[i..], q) == Prepend([s[i]], Pieces([sep], s[i + 1..], q'))
            && QuoteAfter(s[i..], q) == QuoteAfter(s[i + 1..], q')
  {
    CutIsCutHere(s, sep, i, q);
    assert s[i..][1..] == s[i + 1..];
  }

  lemma KeepCut(x: string, ps: seq<string>)
    requires ps != []
    ensures NonEmpty(Prepend(x, [[]] + ps)) == Kept(x) + NonEmpty(Prepend([], ps))
  {
    CutStep([], x, ps);
    PrependNothing(ps);
    NonEmptyCons(x, ps);
    assert [] + Prepend(x, [[]] + ps) == Prepend(x, [[]] + ps);
    assert ([] + [x]) + Prepend([], ps) == [x] + ps;
  }

  /** The index scan from `i` gives the pieces of the text from `i`. */
  ghost predicate RestAgrees(s: string, sep: string, start: nat, i: nat, q: Option<char>)
    requires sep != [] && start <= i <= |s|
  {
    && SplitRest(s, sep, start, i, q) == NonEmpty(Prepend(s[start..i], Pieces([sep], s[i..], q)))
    && QuoteRest(s, sep, i, q) == QuoteAfter(s[i..], q)
  }

  lemma RestAtCut(s: string, sep: string, start: nat, i: nat)
    requires sep != [] && QuoteFree(sep) && start <= i < |s| && CutsAt(s, sep, i, None)
    requires RestAgrees(s, sep, i + |sep|, i + |sep|, None)
    ensures RestAgrees(s, sep, start, i, None)
  {
    var n := i + |sep|;
    PiecesAtCut(s, sep, i);
    assert s[n..n] == [];
    var after := Pieces([sep], s[n..], None);
    assert SplitRest(s, sep, n, n, None) == NonEmpty(Prepend([], after));
    KeepCut(s[start..i], after);
    RestUnfolds(s, sep, start, i);
  }

  lemma RestUnfolds(s: string, sep: string, start: nat, i: nat)
    requires sep != [] && start <= i < |s| && CutsAt(s, sep, i, None)
    ensures SplitRest(s, sep, start, i, None) == Kept(s[start..i]) + SplitRest(s, sep, i + |sep|, i + |sep|, None)
    ensures QuoteRest(s, sep, i, None) == QuoteRest(s, sep, i + |sep|, None)
  {
  }

  lemma RestAtStep(s: string, sep: string, start: nat, i: nat, q: Option<char>)
    requires sep != [] && QuoteFree(sep) && start <= i < |s| && !CutsAt(s, sep, i, q)
    requires RestAgrees(s, sep, start, i + 1, StepQuote(q, s[i]))
    ensures RestAgrees(s, sep, start, i, q)
  {
    var q' := StepQuote(q, s[i]);
    PiecesAtStep(s, sep, i, q);
    PrependStep(s[start..i], s[i], Pieces([sep], s[i + 1..], q'));
    assert s[start..i] + [s[i]] == s[start..i + 1];
  }

  /** The index scan is the recursive specification. */
  lemma {:induction false} RestIsPieces(s: string, sep: string, start: nat, i: nat, q: Option<char>)
    requires sep != [] && QuoteFree(sep) && start <= i <= |s|
    ensures RestAgrees(s, sep, start, i, q)
    decreases |s| - i
  {
    if i == |s| {
      RestAtEnd(s, sep, start, q);
    } else if CutsAt(s, sep, i, q) {
      RestIsPieces(s, sep, i + |sep|, i + |sep|, None);
      RestAtCut(s, sep, start, i);
    } else {
      RestIsPieces(s, sep, start, i + 1, StepQuote(q, s[i]));
      RestAtStep(s, sep, start, i, q);
    }
  }

  lemma RestAtEnd(s: string, sep: string, start: nat, q: Option<char>)
    requires sep != [] && start <= |s|
    ensures RestAgrees(s, sep, start, |s|, q)
  {
    assert s[start..|s|] == s[start..] && s[start..] + [] == s[start..] && s[|s|..] == [];
    assert Prepend(s[start..], [[]]) == [s[start..]];
    NonEmptyCons(s[start..], []);
    assert [s[start..]] + [] == [s[start..]];
  }

  method SplitUnquoted(command: string, sep: string) returns (out: seq<string>)
    requires sep != [] && QuoteFree(sep)
    ensures out == Split(command, sep)
  {
    var start, i, quote := 0, 0, None;
    out := [];
    while i < |command|
      invariant 0 <= start <= i <= |command|
      invariant out + SplitRest(command, sep, start, i, quote) == SplitRest(command, sep, 0, 0, None)
      invariant QuoteRest(command, sep, i, quote) == QuoteRest(command, sep, 0, None)
    {
      var b := command[i];
      if quote.None? && !IsQuote(b) && sep <= command[i..] {
        var piece := Trim(command[start..i]);
        out := out + if piece == [] then [] else [piece];
        i := i + |sep|;
        start := i;
      } else {
        quote := StepQuote(quote, b);
        i := i + 1;
      }
    }
    SplitIsRest(command, sep);
    if quote.Some? {
      return [Trim(command)];
    }
    var last := Trim(command[start..]);
    out := out + if last == [] then [] else [last];
  }

  lemma SplitIsRest(command: string, sep: string)
    requires sep != [] && QuoteFree(sep)
    ensures QuoteRest(command, sep, 0, None).None? <==> Balanced(command)
    ensures Balanced(command) ==> Split(command, sep) == SplitRest(command, sep, 0, 0, None)
  {
    RestIsPieces(command, sep, 0, 0, None);
    assert command[0..] == command && command[0..0] == [];
    PrependNothing(Pieces([sep], command, None));
    assert [] + Prepend([], Pieces([sep], command, None)) == Prepend([], Pieces([sep], command, None));
  }

  // ----- what the pieces are -----

  /** The pieces with the separator put back between them. */
  function Rejoin(ps: seq<string>, sep: string): string {
    if ps == [] then [] else if |ps| == 1 then ps[0] else ps[0] + sep + Rejoin(ps[1..], sep)
  }

  /** Splitting loses nothing: the pieces and the separator rebuild the text. */
  lemma {:induction false} PiecesRebuild(s: string, sep: string, q: Option<char>)
    requires sep != []
    ensures Rejoin(Pieces([sep], s, q), sep) == s
    decreases |s|
  {
    if s == [] {
    } else if CutHere([sep], s, q) {
      OneSeparator(sep, s);
      PiecesRebuild(s[|sep|..], sep, None);
      RebuildCut(s, sep, Pieces([sep], s[|sep|..], None));
    } else {
      var q' := StepQuote(q, s[0]);
      PiecesRebuild(s[1..], sep, q');
      RebuildStep(s, sep, Pieces([sep], s[1..], q'));
    }
  }

  lemma RebuildCut(s: string, sep: string, ps: seq<string>)
    requires ps != [] && sep <= s && Rejoin(ps, sep) == s[|sep|..]
    ensures Rejoin([[]] + ps, sep) == s
  {
    RejoinCons([], ps, sep);
    assert [] + sep + s[|sep|..] == s;
  }

  lemma RebuildStep(s: string, sep: string, ps: seq<string>)
    requires ps != [] && s != [] && Rejoin(ps, sep) == s[1..]
    ensures Rejoin(Prepend([s[0]], ps), sep) == s
  {
    RejoinPrepend([s[0]], ps, sep);
    assert s == [s[0]] + s[1..];
  }

  lemma RejoinCons(p: string, ps: seq<string>, sep: string)
    requires ps != []
    ensures Rejoin([p] + ps, sep) == p + sep + Rejoin(ps, sep)
  {
    assert ([p] + ps)[1..] == ps;
  }

  lemma RejoinPrepend(x: string, ps: seq<string>, sep: string)
    requires ps != []
    ensures Rejoin(Prepend(x, ps), sep) == x + Rejoin(ps, sep)
  {
    if |ps| > 1 {
      RejoinCons(x + ps[0], ps[1..], sep);
      RejoinCons(ps[0], ps[1..], sep);
      assert [ps[0]] + ps[1..] == ps;
      assert (x + ps[0]) + sep + Rejoin(ps[1..], sep) == x + (ps[0] + sep + Rejoin(ps[1..], sep));
    }
  }

  /** No separator is left unquoted in `s`, read from quote state `q`. */
  predicate Uncut(seps: seq<string>, s: string, q: Option<char>) {
    s == [] || (!CutHere(seps, s, q) && Uncut(seps, s[1..], StepQuote(q, s[0])))
  }

  lemma {:induction false} UncutIsOnePiece(seps: seq<string>, s: string, q: Option<char>)
    ensures Uncut(seps, s, q) <==> Pieces(seps, s, q) == [s]
    decreases |s|
  {
    if s == [] {
    } else {
      if CutHere(seps, s, q) {
        assert Pieces(seps, s, q)[0] == [];
      } else {
        UncutIsOnePiece(seps, s[1..], StepQuote(q, s[0]));
        var ps := Pieces(seps, s[1..], StepQuote(q, s[0]));
        assert s == [s[0]] + s[1..];
        if Pieces(seps, s, q) == [s] {
          assert Prepend([s[0]], ps)[0][1..] == ps[0];
          assert |ps| == 1 && ps == [s[1..]];
        }
      }
    }
  }

  /** Every unquoted separator is cut: none is left inside a piece. */
  lemma {:induction false} PiecesAreUncut(s: string, sep: string, q: Option<char>)
    requires sep != []
    ensures var ps := Pieces([sep], s, q);
            Uncut([sep], ps[0], q) && forall i :: 0 < i < |ps| ==> Uncut([sep], ps[i], None)
    decreases |s|
  {
    if s == [] {
    } else if CutHere([sep], s, q) {
      PiecesAreUncut(s[|sep|..], sep, None);
    } else {
      var q' := StepQuote(q, s[0]);
      PiecesAreUncut(s[1..], sep, q');
      var ps := Pieces([sep], s[1..], q');
      var head := [s[0]] + ps[0];
      assert head[1..] == ps[0];
      FirstPieceIsPrefix([sep], s[1..], q');
      assert head <= s;
    }
  }

  lemma {:induction false} FirstPieceIsPrefix(seps: seq<string>, s: string, q: Option<char>)
    ensures Pieces(seps, s, q)[0] <= s
    decreases |s|
  {
    if s != [] && !CutHere(seps, s, q) {
      FirstPieceIsPrefix(seps, s[1..], StepQuote(q, s[0]));
      assert s == [s[0]] + s[1..];
    }
  }

  /** Every piece of a balanced text closes every quote it opens. */
  lemma {:induction false} PiecesAreClosed(seps: seq<string>, s: string, q: Option<char>)
    requires SepsOk(seps) && QuoteAfter(s, q).None?
    ensures var ps := Pieces(seps, s, q);
            QuoteAfter(ps[0], q).None? && forall i :: 0 < i < |ps| ==> Balanced(ps[i])
    decreases |s|
  {
    if s == [] {
    } else if CutHere(seps, s, q) {
      var n := MatchLen(seps, s);
      QuoteAfterSkip(s, n);
      PiecesAreClosed(seps, s[n..], None);
    } else {
      var q' := StepQuote(q, s[0]);
      PiecesAreClosed(seps, s[1..], q');
      var ps := Pieces(seps, s[1..], q');
      assert ([s[0]] + ps[0])[1..] == ps[0];
    }
  }

  /** `split_unquoted`, in one statement: a balanced text is cut at exactly its unquoted
      separators into quote-closed pieces that rebuild it, and the result is those pieces
      trimmed, the empty ones dropped; an unbalanced text comes back whole. */
  lemma SplitExact(s: string, sep: string)
    requires sep != [] && QuoteFree(sep)
    ensures !Balanced(s) ==> Split(s, sep) == [Trim(s)]
    ensures Balanced(s) ==>
              var ps := Pieces([sep], s, None);
              && Split(s, sep) == NonEmpty(ps)
              && Rejoin(ps, sep) == s
              && forall p :: p in ps ==> Balanced(p) && Uncut([sep], p, None)
  {
    PiecesRebuild(s, sep, None);
    PiecesAreUncut(s, sep, None);
    if Balanced(s) { PiecesAreClosed([sep], s, None); }
  }

  // ----- the guard's scan and the splitters agree -----

  /** Split each piece again at `sep`; `q` is the quote open at the start of the first. */
  function Resplit(sep: string, ps: seq<string>, q: Option<char>): seq<string> {
    if ps == [] then [] else Pieces([sep], ps[0], q) + Resplit(sep, ps[1..], None)
  }

  lemma PrependAppend(x: string, a: seq<string>, b: seq<string>)
    requires a != []
    ensures Prepend(x, a + b) == Prepend(x, a) + b
  {
    assert (a + b)[1..] == a[1..] + b;
  }

  /** Splitting at one set of separators and then at a further one-character separator is one
      scan for both. */
  lemma {:induction false} OneScanIsTwo(seps: seq<string>, c: char, s: string, q: Option<char>)
    requires SepsOk(seps) && !IsQuote(c)
    requires forall x :: x in seps ==> x[0] != c
    ensures Pieces(seps + [[c]], s, q) == Resplit([c], Pieces(seps, s, q), q)
    decreases |s|
  {
    if s == [] {
      assert Resplit([c], [[]], q) == [[]] + Resplit([c], [[]][1..], None);
    } else {
      MatchLenLast(seps, c, s);
      if CutHere(seps, s, q) {
        var tail := Pieces(seps, s[MatchLen(seps, s)..], None);
        OneScanIsTwo(seps, c, s[MatchLen(seps, s)..], None);
        assert ([[]] + tail)[1..] == tail;
      } else {
        var q' := StepQuote(q, s[0]);
        OneScanIsTwo(seps, c, s[1..], q');
        ResplitStep(s[0], c, Pieces(seps, s[1..], q'), q);
      }
    }
  }

  /** Splitting pieces further, one character earlier in the first of them. */
  lemma ResplitStep(b: char, c: char, r: seq<string>, q: Option<char>)
    requires r != [] && !IsQuote(c)
    ensures Resplit([c], Prepend([b], r), q) == Grown(b, c, Resplit([c], r, StepQuote(q, b)), q)
  {
    var ps, q' := Prepend([b], r), StepQuote(q, b);
    ResplitUnfolds(c, ps, q);
    ResplitUnfolds(c, r, q');
    assert ps[0] == [b] + r[0] && ps[1..] == r[1..];
    PiecesOfGrown(b, c, r[0], q);
    GrownAppend(b, c, Pieces([[c]], r[0], q'), Resplit([c], r[1..], None), q);
  }

  /** Pieces with one more character before them, which may be the separator itself. */
  function Grown(b: char, c: char, ps: seq<string>, q: Option<char>): seq<string>
    requires ps != []
  {
    if q.None? && b == c then [[]] + ps else Prepend([b], ps)
  }

  lemma GrownAppend(b: char, c: char, a: seq<string>, rest: seq<string>, q: Option<char>)
    requires a != []
    ensures Grown(b, c, a, q) + rest == Grown(b, c, a + rest, q)
  {
    PrependAppend([b], a, rest);
    assert [[]] + a + rest == [[]] + (a + rest);
  }

  lemma ResplitUnfolds(c: char, ps: seq<string>, q: Option<char>)
    requires ps != []
    ensures Resplit([c], ps, q) == Pieces([[c]], ps[0], q) + Resplit([c], ps[1..], None)
  {
  }

  lemma PiecesOfGrown(b: char, c: char, x: string, q: Option<char>)
    requires !IsQuote(c)
    ensures Pieces([[c]], [b] + x, q) == Grown(b, c, Pieces([[c]], x, StepQuote(q, b)), q)
  {
    var s := [b] + x;
    OneSeparator([c], s);
    assert s[0] == b && s[1..] == x && ([c] <= s <==> b == c);
  }

  lemma {:induction false} MatchLenLast(seps: seq<string>, c: char, s: string)
    requires s != []
    requires forall x :: x in seps ==> x != [] && x[0] != c
    ensures MatchLen(seps + [[c]], s) == if s[0] == c then 1 else MatchLen(seps, s)
    ensures s[0] == c ==> MatchLen(seps, s) == 0
  {
    if seps == [] {
      assert seps + [[c]] == [[c]];
      assert [c] <= s <==> s[0] == c;
    } else {
      assert (seps + [[c]])[1..] == seps[1..] + [[c]];
      assert forall x :: x in seps[1..] ==> x in seps;
      assert seps[0] in seps;
      MatchLenLast(seps[1..], c, s);
    }
  }

  /** Separators of which whitespace can only be a whole one. */
  predicate SpaceIsWhole(seps: seq<string>) {
    forall x :: x in seps ==> |x| == 1 || NoSpace(x)
  }

  lemma MatchLenSpace(seps: seq<string>, s: string)
    requires s != [] && IsSpace(s[0]) && SpaceIsWhole(seps)
    ensures MatchLen(seps, s) <= 1
  {
    var n := MatchLen(seps, s);
    if n > 0 { assert s[..n][0] == s[0]; }
  }

  lemma KeptSpaceFirst(c: char, p: string)
    requires IsSpace(c)
    ensures Kept([c] + p) == Kept(p)
  {
    assert ([c] + p)[1..] == p;
  }

  lemma NonEmptySpaceFirst(c: char, ps: seq<string>)
    requires IsSpace(c) && ps != []
    ensures NonEmpty(Prepend([c], ps)) == NonEmpty(ps)
  {
    KeptSpaceFirst(c, ps[0]);
    NonEmptyCons([c] + ps[0], ps[1..]);
  }

  lemma {:induction false} LeadingSpaceIsIgnored(seps: seq<string>, s: string)
    requires SpaceIsWhole(seps)
    ensures NonEmpty(Pieces(seps, TrimStart(s), None)) == NonEmpty(Pieces(seps, s, None))
  {
    if s == [] || !IsSpace(s[0]) {
    } else {
      LeadingSpaceIsIgnored(seps, s[1..]);
      OneSpaceIsIgnored(seps, s);
    }
  }

  lemma OneSpaceIsIgnored(seps: seq<string>, s: string)
    requires SpaceIsWhole(seps) && s != [] && IsSpace(s[0])
    ensures NonEmpty(Pieces(seps, s, None)) == NonEmpty(Pieces(seps, s[1..], None))
  {
    MatchLenSpace(seps, s);
    if CutHere(seps, s, None) {
      NonEmptyCons([], Pieces(seps, s[1..], None));
    } else {
      NonEmptySpaceFirst(s[0], Pieces(seps, s[1..], None));
    }
  }

  /** `ps'` is `ps` after one more whitespace character: the last piece grew by it, or it was a
      separator and an empty piece was added. */
  predicate GrewBy(ps: seq<string>, ps': seq<string>, c: char)
    requires ps != []
  {
    ps' == ps + [[]] || ps' == ps[..|ps| - 1] + [ps[|ps| - 1] + [c]]
  }

  lemma GrewByPrepend(x: string, ps: seq<string>, ps': seq<string>, c: char)
    requires ps != [] && ps' != [] && GrewBy(ps, ps', c)
    ensures GrewBy(Prepend(x, ps), Prepend(x, ps'), c)
  {
    var r := Prepend(x, ps);
    if ps' == ps + [[]] {
      PrependAppend(x, ps, [[]]);
    } else if |ps| == 1 {
      assert x + (ps[0] + [c]) == (x + ps[0]) + [c];
      assert Prepend(x, ps') == [(x + ps[0]) + [c]];
    } else {
      assert ps'[0] == ps[0];
      assert Prepend(x, ps') == r[..|r| - 1] + [r[|r| - 1] + [c]];
    }
  }

  lemma GrewByCut(ps: seq<string>, ps': seq<string>, c: char)
    requires ps != [] && GrewBy(ps, ps', c)
    ensures GrewBy([[]] + ps, [[]] + ps', c)
  {
    var r := [[]] + ps;
    if ps' == ps + [[]] {
      assert [[]] + ps' == r + [[]];
    } else {
      assert [[]] + ps' == r[..|r| - 1] + [r[|r| - 1] + [c]];
    }
  }

  lemma GrewByKeeps(ps: seq<string>, ps': seq<string>, c: char)
    requires ps != [] && GrewBy(ps, ps', c) && IsSpace(c)
    ensures NonEmpty(ps') == NonEmpty(ps)
  {
    var front, last := ps[..|ps| - 1], ps[|ps| - 1];
    assert ps == front + [last];
    NonEmptySnoc(front, last);
    if ps' == ps + [[]] {
      NonEmptySnoc(ps, []);
    } else {
      NonEmptySnoc(front, last + [c]);
      TrimEndAppendSpace(last, c);
    }
  }

  lemma SpaceAlone(seps: seq<string>, c: char)
    requires SpaceIsWhole(seps) && SepsOk(seps) && IsSpace(c)
    ensures GrewBy([[]], Pieces(seps, [c], None), c) && Pieces(seps, [], None) == [[]]
  {
    var s: string := [c];
    assert s[1..] == [] && [] + [c] == [c] && [c] + [] == [c];
    MatchLenSpace(seps, s);
    assert Prepend([c], [[]]) == [[c]];
  }

  lemma {:induction false} TrailingSpaceIsIgnored(seps: seq<string>, s: string, c: char, q: Option<char>)
    requires SpaceIsWhole(seps) && SepsOk(seps) && IsSpace(c) && QuoteAfter(s, q).None?
    ensures GrewBy(Pieces(seps, s, q), Pieces(seps, s + [c], q), c)
    decreases |s|
  {
    if s == [] {
      SpaceAlone(seps, c);
      assert s + [c] == [c];
    } else {
      var t := s + [c];
      MatchLenTail(seps, s, c);
      if CutHere(seps, s, q) {
        var n := MatchLen(seps, s);
        QuoteAfterSkip(s, n);
        TrailingSpaceIsIgnored(seps, s[n..], c, None);
        assert t[n..] == s[n..] + [c];
        GrewByCut(Pieces(seps, s[n..], None), Pieces(seps, t[n..], None), c);
      } else {
        var q' := StepQuote(q, s[0]);
        TrailingSpaceIsIgnored(seps, s[1..], c, q');
        assert t[1..] == s[1..] + [c];
        GrewByPrepend([s[0]], Pieces(seps, s[1..], q'), Pieces(seps, t[1..], q'), c);
      }
    }
  }

  lemma {:induction false} MatchLenTail(seps: seq<string>, s: string, c: char)
    requires s != [] && IsSpace(c) && SpaceIsWhole(seps)
    ensures MatchLen(seps, s + [c]) == MatchLen(seps, s)
  {
    if seps == [] {
    } else {
      MatchLenTail(seps[1..], s, c);
      var x := seps[0];
      assert |x| == |s| + 1 && x <= s + [c] ==> x == s + [c] && c in s + [c];
      assert |x| <= |s| && x <= s + [c] ==> x <= s;
    }
  }

  lemma TrimEndAppendSpace(s: string, c: char)
    requires IsSpace(c)
    ensures Trim(s + [c]) == Trim(s)
  {
    TrimStartAppend(s, c);
    if TrimStart(s) != [] {
      var t := TrimStart(s);
      assert (t + [c])[..|t|] == t;
    } else {
      assert [c][1..] == [];
    }
  }

  lemma {:induction false} TrimStartAppend(s: string, c: char)
    requires IsSpace(c)
    ensures TrimStart(s + [c]) == if TrimStart(s) == [] then [] else TrimStart(s) + [c]
  {
    if s == [] {
      assert s + [c] == [c] && [c][1..] == [];
    } else if IsSpace(s[0]) {
      assert (s + [c])[1..] == s[1..] + [c];
      TrimStartAppend(s[1..], c);
    }
  }

  lemma {:induction false} TrailingSpacesAreIgnored(seps: seq<string>, s: string)
    requires SpaceIsWhole(seps) && SepsOk(seps) && Balanced(s)
    ensures Balanced(TrimEnd(s)) && NonEmpty(Pieces(seps, TrimEnd(s), None)) == NonEmpty(Pieces(seps, s, None))
  {
    if s != [] && IsSpace(s[|s| - 1]) {
      var t, c := s[..|s| - 1], s[|s| - 1];
      assert s == t + [c];
      QuoteAfterAppendSpace(t, c, None);
      TrailingSpaceIsIgnored(seps, t, c, None);
      GrewByKeeps(Pieces(seps, t, None), Pieces(seps, s, None), c);
      TrailingSpacesAreIgnored(seps, t);
    }
  }

  lemma {:induction false} QuoteAfterAppendSpace(s: string, c: char, q: Option<char>)
    requires IsSpace(c) && (q.Some? ==> IsQuote(q.value))
    ensures QuoteAfter(s + [c], q) == QuoteAfter(s, q)
  {
    if s == [] {
      assert s + [c] == [c] && [c][1..] == [];
    } else {
      assert (s + [c])[1..] == s[1..] + [c];
      QuoteAfterAppendSpace(s[1..], c, StepQuote(q, s[0]));
    }
  }

  lemma {:induction false} QuoteAfterTrimStart(s: string)
    ensures QuoteAfter(TrimStart(s), None) == QuoteAfter(s, None)
  {
    if s != [] && IsSpace(s[0]) { QuoteAfterTrimStart(s[1..]); }
  }

  /** Trimming a balanced text first changes none of its links. */
  lemma TrimIsIgnored(seps: seq<string>, s: string)
    requires SpaceIsWhole(seps) && SepsOk(seps) && Balanced(s)
    ensures Balanced(Trim(s)) && NonEmpty(Pieces(seps, Trim(s), None)) == NonEmpty(Pieces(seps, s, None))
  {
    QuoteAfterTrimStart(s);
    LeadingSpaceIsIgnored(seps, s);
    TrailingSpacesAreIgnored(seps, TrimStart(s));
  }

  /** `flat_map(|l| split_unquoted(l, sep))`. */
  function SplitEach(ls: seq<string>, sep: string): seq<string> {
    if ls == [] then [] else Split(ls[0], sep) + SplitEach(ls[1..], sep)
  }

  /** Splitting the trimmed, non-empty links again is splitting the raw pieces again. */
  lemma KeptSplit(sep: string, p: string)
    requires |sep| == 1 && QuoteFree(sep) && Balanced(p)
    ensures NonEmpty(Pieces([sep], p, None)) == SplitEach(Kept(p), sep)
  {
    TrimIsIgnored([sep], p);
    if Trim(p) == [] {
      var nothing: seq<string> := [[]];
      NonEmptyCons([], []);
      assert nothing + [] == nothing;
    } else {
      SplitEachCons(Trim(p), [], sep);
      assert [Trim(p)] + [] == [Trim(p)];
    }
  }

  lemma SplitEachAppend(a: seq<string>, b: seq<string>, sep: string)
    ensures SplitEach(a + b, sep) == SplitEach(a, sep) + SplitEach(b, sep)
  {
    if a == [] {
      assert a + b == b;
    } else {
      assert (a + b)[1..] == a[1..] + b;
      SplitEachAppend(a[1..], b, sep);
    }
  }

  lemma {:induction false} ResplitIsSplitEach(sep: string, ps: seq<string>)
    requires |sep| == 1 && QuoteFree(sep)
    requires forall p :: p in ps ==> Balanced(p)
    ensures NonEmpty(Resplit(sep, ps, None)) == SplitEach(NonEmpty(ps), sep)
  {
    if ps == [] {
    } else {
      ResplitIsSplitEach(sep, ps[1..]);
      NonEmptyAppend(Pieces([sep], ps[0], None), Resplit(sep, ps[1..], None));
      KeptSplit(sep, ps[0]);
      SplitEachAppend(Kept(ps[0]), NonEmpty(ps[1..]), sep);
    }
  }

  lemma SplitEachCons(l: string, ls: seq<string>, sep: string)
    ensures SplitEach([l] + ls, sep) == Split(l, sep) + SplitEach(ls, sep)
  {
    assert ([l] + ls)[1..] == ls;
  }

  const GUARD_SEPS: seq<string> := ["&&", ";", "\n"]

  lemma AllBalanced(seps: seq<string>, s: string)
    requires SepsOk(seps) && Balanced(s)
    ensures forall p :: p in Pieces(seps, s, None) ==> Balanced(p)
  {
    PiecesAreClosed(seps, s, None);
  }

  lemma GuardSepsOk()
    ensures SepsOk(GUARD_SEPS) && SpaceIsWhole(GUARD_SEPS)
    ensures SepsOk(["&&"]) && SepsOk(["&&", ";"]) && SepsOk([";"]) && SepsOk([";", "\n"])
    ensures SpaceIsWhole(["&&"]) && SpaceIsWhole([";"]) && SpaceIsWhole([";", "\n"])
    ensures ["&&", ";"] == ["&&"] + [[';']] && GUARD_SEPS == ["&&", ";"] + [['\n']] && [";", "\n"] == [";"] + [['\n']]
  {
  }

  /** Two stages of `split_unquoted` are one scan, for any balanced text. */
  lemma TwoSplitsAreOneScan(seps: seq<string>, c: char, s: string)
    requires SepsOk(seps) && !IsQuote(c) && Balanced(s)
    requires forall x :: x in seps ==> x[0] != c
    ensures SplitEach(NonEmpty(Pieces(seps, s, None)), [c]) == NonEmpty(Pieces(seps + [[c]], s, None))
  {
    AllBalanced(seps, s);
    OneScanIsTwo(seps, c, s, None);
    ResplitIsSplitEach([c], Pieces(seps, s, None));
  }

  /** On balanced text, cutting at `&&`, then `;`, then newline gives exactly the links the
      guard's single scan judges. */
  lemma SplittersAgreeWithGuard(s: string)
    requires Balanced(s)
    ensures SplitEach(SplitEach(Split(s, "&&"), ";"), "\n") == NonEmpty(Pieces(GUARD_SEPS, s, None))
  {
    GuardSepsOk();
    TwoSplitsAreOneScan(["&&"], ';', s);
    TwoSplitsAreOneScan(["&&", ";"], '\n', s);
  }

  /** The links of a `;` or newline sequence, as `sequence_of_reads` cuts them. */
  lemma SequenceLinks(s: string)
    requires Balanced(s)
    ensures SplitEach(Split(s, ";"), "\n") == NonEmpty(Pieces([";", "\n"], s, None))
  {
    GuardSepsOk();
    TwoSplitsAreOneScan([";"], '\n', s);
  }

  // ----- the guard -----

  const RESERVED_WORDS: set<string> := {
    "if", "then", "else", "elif", "fi", "case", "esac", "for", "select", "while", "until"}
  const RESERVED_MORE: set<string> := {
    "do", "done", "function", "time", "coproc", "!", "[[", "{", "}"}
  const ENDS_OR_REDIRECTS: set<string> := {
    "exit", "return", "exec", "break", "continue", "eval", "source", ".", "trap", "kill"}
  const CHANGES_MEANING: set<string> := {
    "alias", "unalias", "cd", "pushd", "popd", "set", "shopt", "setopt", "builtin"}
  const CHANGES_NAMES: set<string> := {
    "command", "enable", "hash", "export", "unset", "declare", "typeset", "local", "readonly"}

  /** The source's one list, in parts. */
  const UNSAFE_FIRST_WORDS: set<string> :=
    RESERVED_WORDS + RESERVED_MORE + ENDS_OR_REDIRECTS + CHANGES_MEANING + CHANGES_NAMES

  /** A link whose first word is reserved, changes what later links mean, or assigns. */
  predicate UnsafeLink(l: string) {
    FirstWord(l) in UNSAFE_FIRST_WORDS || '=' in FirstWord(l)
  }

  predicate IsGrouping(c: char) { c == '(' || c == ')' || c == '{' || c == '}' }

  /** An unquoted parenthesis or brace somewhere in `s`, read from quote state `q`. */
  predicate HasGrouping(s: string, q: Option<char>) {
    s != [] && ((q.None? && IsGrouping(s[0])) || HasGrouping(s[1..], StepQuote(q, s[0])))
  }

  predicate Unprovable(command: string) {
    || Contains(command, "<<")
    || Contains(command, "\\\n")
    || HasGrouping(command, None)
    || exists l :: l in Pieces(GUARD_SEPS, command, None) && UnsafeLink(l)
  }

  method FindSub(s: string, sub: string) returns (found: bool)
    ensures found == Contains(s, sub)
  {
    var i := 0;
    while i + |sub| <= |s|
      invariant forall k: nat :: k < i ==> !HasAt(s, sub, k)
    {
      if s[i..i + |sub|] == sub {
        assert HasAt(s, sub, i);
        return true;
      }
      i := i + 1;
    }
    return false;
  }

  /** `chain_links_are_unprovable`. */
  method ChainLinksAreUnprovable(command: string) returns (refused: bool)
    ensures refused == Unprovable(command)
  {
    var heredoc := FindSub(command, "<<");
    var continued := FindSub(command, "\\\n");
    if heredoc || continued {
      return true;
    }
    var grouping, links := ScanLinks(command);
    refused := grouping || exists l :: l in links && UnsafeLink(l);
  }

  /** The scan has taken the text before `i`, and met no grouping there. */
  ghost predicate Guarded(command: string, links: seq<string>, linkStart: nat, i: nat, quote: Option<char>) {
    && linkStart <= i <= |command|
    && ScannedTo(GUARD_SEPS, command, links, linkStart, i, quote)
    && HasGrouping(command, None) == HasGrouping(command[i..], quote)
  }

  lemma GroupingStep(s: string, i: nat, q: Option<char>)
    requires i < |s| && !(q.None? && IsGrouping(s[i]))
    ensures HasGrouping(s[i..], q) == HasGrouping(s[i + 1..], StepQuote(q, s[i]))
  {
    assert s[i..][1..] == s[i + 1..];
  }

  lemma GuardStep(command: string, links: seq<string>, linkStart: nat, i: nat, quote: Option<char>)
    requires i < |command| && Guarded(command, links, linkStart, i, quote)
    requires !(quote.None? && IsGrouping(command[i])) && !CutHere(GUARD_SEPS, command[i..], quote)
    ensures Guarded(command, links, linkStart, i + 1, StepQuote(quote, command[i]))
  {
    GroupingStep(command, i, quote);
    ScanStep(GUARD_SEPS, command, links, linkStart, i, quote);
  }

  lemma GuardCut(command: string, links: seq<string>, linkStart: nat, i: nat)
    requires i < |command| && Guarded(command, links, linkStart, i, None)
    requires CutHere(GUARD_SEPS, command[i..], None)
    ensures var n := i + MatchLen(GUARD_SEPS, command[i..]);
            Guarded(command, links + [command[linkStart..i]], n, n, None)
  {
    GuardSepsOk();
    GuardMatch(command[i..]);
    ScanCut(GUARD_SEPS, command, links, linkStart, i, None);
    GroupingStep(command, i, None);
    if command[i] == '&' { GroupingStep(command, i + 1, None); }
  }

  /** The guard's one scan: it collects the links, and stops at an unquoted grouping. */
  method ScanLinks(command: string) returns (grouping: bool, links: seq<string>)
    ensures grouping == HasGrouping(command, None)
    ensures !grouping ==> links == Pieces(GUARD_SEPS, command, None)
  {
    var quote, linkStart, i := None, 0, 0;
    links := [];
    ScanStart(GUARD_SEPS, command);
    assert command[0..] == command;
    while i < |command|
      invariant 0 <= linkStart <= i <= |command|
      invariant Guarded(command, links, linkStart, i, quote)
    {
      var b := command[i];
      GuardMatch(command[i..]);
      if quote.None? && IsGrouping(b) {
        return true, links;
      }
      if quote.None? && (b == ';' || b == '\n') {
        GuardCut(command, links, linkStart, i);
        links := links + [command[linkStart..i]];
        i := i + 1;
        linkStart := i;
      } else if quote.None? && b == '&' && i + 1 < |command| && command[i + 1] == '&' {
        GuardCut(command, links, linkStart, i);
        links := links + [command[linkStart..i]];
        i := i + 2;
        linkStart := i;
      } else {
        GuardStep(command, links, linkStart, i, quote);
        quote := StepQuote(quote, b);
        i := i + 1;
      }
    }
    ScanEnd(GUARD_SEPS, command, links, linkStart, quote);
    links := links + [command[linkStart..]];
    grouping := false;
  }

  lemma GuardMatch(s: string)
    requires s != []
    ensures MatchLen(GUARD_SEPS, s)
         == if s[0] == ';' || s[0] == '\n' then 1
            else if s[0] == '&' && |s| > 1 && s[1] == '&' then 2 else 0
  {
    assert GUARD_SEPS[1..] == [";", "\n"] && [";", "\n"][1..] == ["\n"] && ["\n"][1..] == [];
    assert MatchLen(["\n"], s) == if "\n" <= s then 1 else 0;
    assert MatchLen([";", "\n"], s) == if ";" <= s then 1 else MatchLen(["\n"], s);
    assert "&&" <= s <==> s[0] == '&' && |s| > 1 && s[1] == '&';
    assert ";" <= s <==> s[0] == ';';
    assert "\n" <= s <==> s[0] == '\n';
  }
}
