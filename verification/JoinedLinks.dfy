/** Links joined into a command: splitting it gives exactly those links back, and every command is
    such a join of its links. And what the guard of chains refuses, over the text. */
module JoinedLinks {
  import opened Text
  import opened ShellSplit
  import opened ShellSemantics
  import opened ReadSoundness
  import opened GuardExact

  /** The separators of a sequence. */
  const SEQUENCE: seq<string> := [";", "\n"]

  predicate IsSequenceSep(c: char) { c == ';' || c == '\n' }

  /** Pieces with one separator between each two. */
  function Joined(ps: seq<string>, js: seq<char>): string
    requires |ps| == |js| + 1
  {
    if js == [] then ps[0] else ps[0] + ([js[0]] + Joined(ps[1..], js[1..]))
  }

  /** A piece closes its quotes and holds no separator outside them. */
  predicate IsPieceOf(seps: seq<string>, p: string) { Balanced(p) && Uncut(seps, p, None) }

  lemma {:induction false} CutAfterPiece(a: string, c: char, rest: string, q: Option<char>)
    requires IsSequenceSep(c) && Uncut(SEQUENCE, a, q) && QuoteAfter(a, q).None?
    ensures Pieces(SEQUENCE, a + ([c] + rest), q) == [a] + Pieces(SEQUENCE, rest, None)
    ensures QuoteAfter(a + ([c] + rest), q) == QuoteAfter(rest, None)
  {
    var s := a + ([c] + rest);
    SemicolonMatch(s);
    if a == [] {
      assert s == [c] + rest && s[1..] == rest;
    } else {
      SemicolonMatch(a);
      assert s[0] == a[0] && s[1..] == a[1..] + ([c] + rest) && [a[0]] + a[1..] == a;
      CutAfterPiece(a[1..], c, rest, StepQuote(q, a[0]));
    }
  }

  /** Splitting joined pieces gives them back. */
  lemma {:induction false} JoinedSplits(ps: seq<string>, js: seq<char>)
    requires |ps| == |js| + 1 && (forall c :: c in js ==> IsSequenceSep(c))
    requires forall p :: p in ps ==> IsPieceOf(SEQUENCE, p)
    ensures Pieces(SEQUENCE, Joined(ps, js), None) == ps && Balanced(Joined(ps, js))
  {
    assert ps[0] in ps;
    if js == [] {
      UncutIsOnePiece(SEQUENCE, ps[0], None);
    } else {
      assert js[0] in js && (forall c :: c in js[1..] ==> c in js) && forall p :: p in ps[1..] ==> p in ps;
      JoinedSplits(ps[1..], js[1..]);
      CutAfterPiece(ps[0], js[0], Joined(ps[1..], js[1..]), None);
    }
  }

  /** Every text is its pieces, joined. */
  lemma {:induction false} SplitIsJoined(s: string, q: Option<char>) returns (js: seq<char>)
    ensures |Pieces(SEQUENCE, s, q)| == |js| + 1 && (forall c :: c in js ==> IsSequenceSep(c))
    ensures Joined(Pieces(SEQUENCE, s, q), js) == s
    decreases |s|
  {
    js := [];
    if s != [] {
      SemicolonMatch(s);
      if CutHere(SEQUENCE, s, q) {
        var tail := SplitIsJoined(s[1..], None);
        js := [s[0]] + tail;
        JoinedCons([], s[0], Pieces(SEQUENCE, s[1..], None), tail);
        assert s == [s[0]] + s[1..];
      } else {
        js := SplitIsJoined(s[1..], StepQuote(q, s[0]));
        JoinedPrepend([s[0]], Pieces(SEQUENCE, s[1..], StepQuote(q, s[0])), js);
        assert s == [s[0]] + s[1..];
      }
    }
  }

  lemma JoinedCons(p: string, c: char, ps: seq<string>, js: seq<char>)
    requires |ps| == |js| + 1
    ensures Joined([p] + ps, [c] + js) == p + ([c] + Joined(ps, js))
  {
    assert ([p] + ps)[1..] == ps && ([c] + js)[1..] == js;
  }

  lemma JoinedPrepend(x: string, ps: seq<string>, js: seq<char>)
    requires |ps| == |js| + 1
    ensures Joined(Prepend(x, ps), js) == x + Joined(ps, js)
  {
    var r := Prepend(x, ps);
    assert r == [x + ps[0]] + ps[1..];
    if js != [] {
      assert r[1..] == ps[1..];
      var tail := [js[0]] + Joined(ps[1..], js[1..]);
      assert (x + ps[0]) + tail == x + (ps[0] + tail);
    }
  }

  lemma {:induction false} FirstPieceUncut(s: string, q: Option<char>)
    ensures Uncut(SEQUENCE, Pieces(SEQUENCE, s, q)[0], q)
    ensures forall i :: 0 < i < |Pieces(SEQUENCE, s, q)| ==> Uncut(SEQUENCE, Pieces(SEQUENCE, s, q)[i], None)
    decreases |s|
  {
    if s != [] {
      SemicolonMatch(s);
      var ps := Pieces(SEQUENCE, s, q);
      if CutHere(SEQUENCE, s, q) {
        var tail := Pieces(SEQUENCE, s[1..], None);
        FirstPieceUncut(s[1..], None);
        assert ps == [[]] + tail;
      } else {
        var tail := Pieces(SEQUENCE, s[1..], StepQuote(q, s[0]));
        FirstPieceUncut(s[1..], StepQuote(q, s[0]));
        assert ps == [[s[0]] + tail[0]] + tail[1..];
        SemicolonMatch(ps[0]);
        assert ps[0][0] == s[0] && ps[0][1..] == tail[0];
        forall i | 0 < i < |ps| ensures Uncut(SEQUENCE, ps[i], None) { assert ps[i] == tail[i]; }
      }
    }
  }

  lemma PiecesOfBalanced(s: string)
    requires Balanced(s)
    ensures forall p :: p in Pieces(SEQUENCE, s, None) ==> IsPieceOf(SEQUENCE, p)
  {
    GuardSepsOk();
    PiecesAreClosed(SEQUENCE, s, None);
    FirstPieceUncut(s, None);
    var ps := Pieces(SEQUENCE, s, None);
    forall p | p in ps ensures IsPieceOf(SEQUENCE, p) {
      var i :| 0 <= i < |ps| && ps[i] == p;
    }
  }

  /** The pieces of a balanced text: it is a join of exactly these. */
  lemma SplitExactly(s: string, ps: seq<string>)
    requires Balanced(s)
    ensures Pieces(SEQUENCE, s, None) == ps
            <==> && (forall p :: p in ps ==> IsPieceOf(SEQUENCE, p))
                 && exists js: seq<char> ::
                      (forall c :: c in js ==> IsSequenceSep(c)) && |ps| == |js| + 1 && Joined(ps, js) == s
  {
    var js := SplitIsJoined(s, None);
    PiecesOfBalanced(s);
    forall js: seq<char> | (forall c :: c in js ==> IsSequenceSep(c)) && |ps| == |js| + 1 && Joined(ps, js) == s
      ensures (forall p :: p in ps ==> IsPieceOf(SEQUENCE, p)) ==> Pieces(SEQUENCE, s, None) == ps
    {
      if forall p :: p in ps ==> IsPieceOf(SEQUENCE, p) { JoinedSplits(ps, js); }
    }
  }

  // ----- AND chains -----

  /** A link of a chain as it stands in the text: no `&&` outside quotes, and no `&` at its end to make
      one with what follows. */
  predicate IsChainPiece(p: string) { IsPieceOf(["&&"], p) && (p == [] || p[|p| - 1] != '&') }

  lemma {:induction false} AndAfterPiece(a: string, rest: string, q: Option<char>)
    requires Uncut(["&&"], a, q) && QuoteAfter(a, q).None? && (a == [] || a[|a| - 1] != '&')
    ensures Pieces(["&&"], a + ("&&" + rest), q) == [a] + Pieces(["&&"], rest, None)
    ensures QuoteAfter(a + ("&&" + rest), q) == QuoteAfter(rest, None)
  {
    var s := a + ("&&" + rest);
    OneSeparator("&&", s);
    if a == [] {
      assert s == "&&" + rest && s[2..] == rest && s[1..][1..] == rest;
    } else {
      OneSeparator("&&", a);
      assert s[0] == a[0] && s[1..] == a[1..] + ("&&" + rest) && [a[0]] + a[1..] == a;
      AndStaysOut(a, rest);
      AndAfterPiece(a[1..], rest, StepQuote(q, a[0]));
    }
  }

  lemma AndStaysOut(a: string, rest: string)
    requires a != [] && a[|a| - 1] != '&'
    ensures "&&" <= a + ("&&" + rest) <==> "&&" <= a
  {
    var s := a + ("&&" + rest);
    assert s[0] == a[0];
    if |a| >= 2 { assert s[1] == a[1] && s[..2] == a[..2]; }
    if "&&" <= s { assert s[..2][0] == s[0]; }
  }

  lemma RejoinMore(ps: seq<string>)
    requires |ps| > 1
    ensures Rejoin(ps, "&&") == ps[0] + ("&&" + Rejoin(ps[1..], "&&"))
  {
  }

  lemma {:induction false} ChainSplits(ps: seq<string>)
    requires ps != [] && forall p :: p in ps ==> IsChainPiece(p)
    ensures Pieces(["&&"], Rejoin(ps, "&&"), None) == ps && Balanced(Rejoin(ps, "&&"))
  {
    assert ps[0] in ps;
    if |ps| == 1 {
      UncutIsOnePiece(["&&"], ps[0], None);
      assert Rejoin(ps, "&&") == ps[0] && ps == [ps[0]];
    } else {
      var rest := ps[1..];
      assert forall p :: p in rest ==> p in ps;
      ChainSplits(rest);
      AndAfterPiece(ps[0], Rejoin(rest, "&&"), None);
      RejoinMore(ps);
      assert ps == [ps[0]] + rest;
    }
  }

  // ----- the guard, over the text -----

  lemma {:induction false} GroupingExactly(s: string, q: Option<char>)
    ensures HasGrouping(s, q)
            <==> exists i: nat :: i < |s| && QuoteAfter(s[..i], q).None? && s[i] in ['(', ')', '{', '}']
  {
    if s == [] {
    } else {
      var q' := StepQuote(q, s[0]);
      GroupingExactly(s[1..], q');
      forall i: nat | i < |s[1..]|
        ensures QuoteAfter(s[1..][..i], q') == QuoteAfter(s[..i + 1], q) && s[1..][i] == s[i + 1]
      {
        assert s[..i + 1][1..] == s[1..][..i];
      }
      if i: nat :| i < |s[1..]| && QuoteAfter(s[1..][..i], q').None? && s[1..][i] in ['(', ')', '{', '}'] {
        assert QuoteAfter(s[..i + 1], q).None? && s[i + 1] in ['(', ')', '{', '}'];
      }
      if i: nat :| i < |s| && QuoteAfter(s[..i], q).None? && s[i] in ['(', ')', '{', '}'] {
        if i > 0 { assert QuoteAfter(s[1..][..i - 1], q').None? && s[1..][i - 1] == s[i]; }
        if i == 0 { assert s[..0] == []; }
      }
    }
  }

  /** Words the shells reserve or run themselves that the guard does not list. */
  const UNGUARDED: set<string> := {
    "shift", "fc", "getopts", "read", "let", "logout", "mapfile", "readarray", "suspend", "integer", "float"}
  const UNGUARDED_TOO: set<string> := {
    "chdir", "whence", "foreach", "repeat", "end", "bye", "unsetopt", "emulate", "disable", "unhash", "rehash"}
  const UNGUARDED_MORE: set<string> := {"unfunction", "autoload", "zmodload", "noglob", "nocorrect", "-"}

  predicate IsUnguarded(word: string) { word in UNGUARDED || word in UNGUARDED_TOO || word in UNGUARDED_MORE }

  lemma ReservedAreKeywords(word: string)
    ensures word in RESERVED_WORDS || word in RESERVED_MORE ==> IsKeyword(word)
  {
  }

  lemma BuiltinsAreKeywords(word: string)
    ensures word in ENDS_OR_REDIRECTS || word in CHANGES_MEANING || word in CHANGES_NAMES ==> IsKeyword(word)
  {
  }

  lemma ReservedAreGuarded(word: string)
    requires word in RESERVED_WORDS || word in RESERVED_MORE
    ensures !IsUnguarded(word)
  {
  }

  lemma EndsAreGuarded(word: string)
    requires word in ENDS_OR_REDIRECTS
    ensures !IsUnguarded(word)
  {
  }

  lemma MeaningsAreGuarded(word: string)
    requires word in CHANGES_MEANING
    ensures !IsUnguarded(word)
  {
  }

  lemma NamesAreGuarded(word: string)
    requires word in CHANGES_NAMES
    ensures !IsUnguarded(word)
  {
  }

  /** The guard lists exactly the words that the shells reserve or run themselves, but for the ones above. */
  lemma GuardedWords(word: string)
    ensures word in UNSAFE_FIRST_WORDS <==> IsKeyword(word) && !IsUnguarded(word)
  {
    if word in RESERVED_WORDS || word in RESERVED_MORE { ReservedAreGuarded(word); }
    if word in ENDS_OR_REDIRECTS { EndsAreGuarded(word); }
    if word in CHANGES_MEANING { MeaningsAreGuarded(word); }
    if word in CHANGES_NAMES { NamesAreGuarded(word); }
    ReservedAreKeywords(word);
    BuiltinsAreKeywords(word);
  }

  /** The link's first word is one the guard lists, or holds an equals sign. */
  predicate StartsUnsafe(link: string) {
    var first := if Words(link) == [] then "" else Words(link)[0];
    first in UNSAFE_FIRST_WORDS || '=' in first
  }

  ghost predicate AnyUnsafe(ls: seq<string>) { exists l :: l in ls && StartsUnsafe(l) }

  lemma AnyUnsafeExactly(ls: seq<string>)
    ensures AnyUnsafe(ls) <==> exists l :: l in ls && UnsafeLink(l)
  {
    forall l ensures UnsafeLink(l) <==> StartsUnsafe(l) { }
  }

  /** A parenthesis or a brace outside quotes. */
  ghost predicate GroupsOpenly(cmd: string) {
    exists i: nat :: i < |cmd| && QuoteAfter(cmd[..i], None).None? && cmd[i] in ['(', ')', '{', '}']
  }

  /** What the guard refuses: a heredoc, a line continued, a parenthesis or brace outside quotes, and a
      link, at `&&`, a semicolon or a newline, that starts unsafely. */
  lemma GuardRefusesExactly(cmd: string)
    ensures Unprovable(cmd)
            <==> || Contains(cmd, "<<") || Contains(cmd, "\\\n") || GroupsOpenly(cmd)
                 || AnyUnsafe(Pieces(GUARD_SEPS, cmd, None))
  {
    GroupingExactly(cmd, None);
    AnyUnsafeExactly(Pieces(GUARD_SEPS, cmd, None));
  }
}
