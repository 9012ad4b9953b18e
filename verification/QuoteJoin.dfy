/** `join_adjacent_quotes`: one shell word made only of quoted pieces, joined as the shell joins
    them. Proved to invert the rendering of every list of pieces, to accept nothing else, and to
    agree with quote removal under sections 2.2.1 to 2.2.3 of the POSIX.1-2017 Shell Command
    Language on every word it accepts. */
module QuoteJoin {
  import opened Text

  /** The characters a backslash may escape inside double quotes. */
  predicate IsEscapable(c: char) { c == '"' || c == '\\' || c == '$' || c == '`' }

  /** Where the scan stands: between pieces, or inside a piece opened by `'` or `"`. */
  datatype Place = Between | InSingle | InDouble

  function Cons(c: char, r: Option<string>): Option<string> {
    match r case None => None case Some(x) => Some([c] + x)
  }

  function Join(s: string, p: Place): Option<string>
    decreases |s|
  {
    match p
    case Between =>
      if s == [] then Some([])
      else if s[0] == '\'' then Join(s[1..], InSingle)
      else if s[0] == '"' then Join(s[1..], InDouble)
      else None
    case InSingle =>
      if s == [] then None
      else if s[0] == '\'' then Join(s[1..], Between)
      else Cons(s[0], Join(s[1..], InSingle))
    case InDouble =>
      if s == [] then None
      else if s[0] == '"' then Join(s[1..], Between)
      else if s[0] == '$' || s[0] == '`' then None
      else if s[0] == '\\' then
        if |s| >= 2 && IsEscapable(s[1]) then Cons(s[1], Join(s[2..], InDouble)) else None
      else Cons(s[0], Join(s[1..], InDouble))
  }

  function After(out: string, r: Option<string>): Option<string> {
    match r case None => None case Some(x) => Some(out + x)
  }

  lemma AfterCons(out: string, c: char, r: Option<string>)
    ensures After(out, Cons(c, r)) == After(out + [c], r)
  {
    if r.Some? { assert out + ([c] + r.value) == (out + [c]) + r.value; }
  }

  /** The source's loop: an outer loop over pieces, an inner loop inside each. */
  method JoinAdjacentQuotes(word: string) returns (joined: Option<string>)
    ensures joined == Join(word, Between)
  {
    var out, i := "", 0;
    assert word[0..] == word;
    assert forall r: string :: "" + r == r;
    while i < |word|
      invariant 0 <= i <= |word|
      invariant Join(word, Between) == After(out, Join(word[i..], Between))
    {
      var c := word[i];
      assert word[i..][1..] == word[i + 1..];
      i := i + 1;
      if c == '\'' {
        while true
          invariant 0 < i <= |word|
          invariant Join(word, Between) == After(out, Join(word[i..], InSingle))
          decreases |word| - i
        {
          if i == |word| { return None; }
          var ch := word[i];
          assert word[i..][1..] == word[i + 1..];
          AfterCons(out, ch, Join(word[i + 1..], InSingle));
          i := i + 1;
          if ch == '\'' { break; }
          out := out + [ch];
        }
      } else if c == '"' {
        while true
          invariant 0 < i <= |word|
          invariant Join(word, Between) == After(out, Join(word[i..], InDouble))
          decreases |word| - i
        {
          if i == |word| { return None; }
          var ch := word[i];
          assert word[i..][1..] == word[i + 1..];
          AfterCons(out, ch, Join(word[i + 1..], InDouble));
          i := i + 1;
          if ch == '"' { break; }
          if ch == '$' || ch == '`' { return None; }
          if ch == '\\' {
            if i == |word| { return None; }
            var e := word[i];
            if !IsEscapable(e) { return None; }
            assert word[i - 1..][2..] == word[i + 1..];
            AfterCons(out, e, Join(word[i + 1..], InDouble));
            i := i + 1;
            out := out + [e];
          } else {
            out := out + [ch];
          }
        }
      } else {
        return None;
      }
    }
    assert word[i..] == [];
    assert out + [] == out;
    joined := Some(out);
  }

  // ----- rendering pieces -----

  /** A quoted piece: literal text in single quotes, which cannot hold one, or any text in double
      quotes with its special characters escaped. */
  datatype Piece = Single(text: string) | Double(text: string) {
    predicate Valid() { Single? ==> '\'' !in text }
  }

  predicate AllValid(ps: seq<Piece>) { forall p :: p in ps ==> p.Valid() }

  function Escaped(s: string): string {
    if s == [] then []
    else (if IsEscapable(s[0]) then ['\\', s[0]] else [s[0]]) + Escaped(s[1..])
  }

  function Render(ps: seq<Piece>): string {
    if ps == [] then []
    else RenderPiece(ps[0]) + Render(ps[1..])
  }

  function Contents(ps: seq<Piece>): string {
    if ps == [] then [] else ps[0].text + Contents(ps[1..])
  }

  lemma {:induction false} JoinSingle(x: string, rest: string)
    requires '\'' !in x
    ensures Join(x + ['\''] + rest, InSingle) == After(x, Join(rest, Between))
  {
    var s := x + ['\''] + rest;
    if x == [] {
      assert s[1..] == rest;
      assert forall r: string :: x + r == r;
    } else {
      assert s[1..] == x[1..] + ['\''] + rest;
      JoinSingle(x[1..], rest);
      AfterFirst(x, Join(rest, Between));
    }
  }

  lemma AfterFirst(x: string, r: Option<string>)
    requires x != []
    ensures Cons(x[0], After(x[1..], r)) == After(x, r)
  {
    if r.Some? { assert [x[0]] + (x[1..] + r.value) == x + r.value; }
  }

  lemma {:induction false} JoinDouble(x: string, rest: string)
    ensures Join(Escaped(x) + ['"'] + rest, InDouble) == After(x, Join(rest, Between))
  {
    var s := Escaped(x) + ['"'] + rest;
    if x == [] {
      assert s[1..] == rest;
      assert forall r: string :: x + r == r;
    } else {
      JoinDouble(x[1..], rest);
      AfterFirst(x, Join(rest, Between));
      var tail := Escaped(x[1..]) + ['"'] + rest;
      if IsEscapable(x[0]) {
        assert s == ['\\', x[0]] + tail;
        assert s[2..] == tail;
      } else {
        assert s == [x[0]] + tail;
        assert s[1..] == tail;
      }
    }
  }

  /** Round trip: joining the rendering of any pieces gives back their contents. */
  lemma {:induction false} JoinInvertsRender(ps: seq<Piece>)
    requires AllValid(ps)
    ensures Join(Render(ps), Between) == Some(Contents(ps))
  {
    if ps == [] {
    } else {
      JoinInvertsRender(ps[1..]);
      assert ps[0] in ps;
      JoinPiece(ps[0], Render(ps[1..]));
    }
  }

  function RenderPiece(p: Piece): string {
    match p case Single(x) => ['\''] + x + ['\''] case Double(x) => ['"'] + Escaped(x) + ['"']
  }

  lemma JoinPiece(p: Piece, rest: string)
    requires p.Valid()
    ensures Join(RenderPiece(p) + rest, Between) == After(p.text, Join(rest, Between))
  {
    match p
    case Single(x) =>
      OpensPiece(RenderPiece(p) + rest, '\'', x + ['\''] + rest);
      JoinSingle(x, rest);
    case Double(x) =>
      OpensPiece(RenderPiece(p) + rest, '"', Escaped(x) + ['"'] + rest);
      JoinDouble(x, rest);
  }

  lemma OpensPiece(s: string, q: char, inside: string)
    requires s == [q] + inside && (q == '\'' || q == '"')
    ensures Join(s, Between) == Join(inside, if q == '\'' then InSingle else InDouble)
  {
    assert s[1..] == inside;
  }

  /** Completeness: every accepted word is the rendering of some pieces, whose contents it gives. */
  lemma {:induction false} AcceptedIsRendered(s: string) returns (ps: seq<Piece>)
    requires Join(s, Between).Some?
    ensures AllValid(ps) && Render(ps) == s && Join(s, Between) == Some(Contents(ps))
    decreases |s|, 1
  {
    if s == [] {
      return [];
    }
    var x, rest := AcceptedPiece(s[1..], if s[0] == '\'' then InSingle else InDouble);
    var tail := AcceptedIsRendered(rest);
    var p := if s[0] == '\'' then Single(x) else Double(x);
    ps := [p] + tail;
    assert ps[1..] == tail;
    PieceText(s, p, rest);
  }

  lemma PieceText(s: string, p: Piece, rest: string)
    requires s != [] && (s[0] == '\'' <==> p.Single?) && (s[0] == '"' <==> p.Double?)
    requires s[1..] == (if p.Single? then p.text else Escaped(p.text)) + [s[0]] + rest
    ensures s == RenderPiece(p) + rest
  {
    assert s == [s[0]] + s[1..];
  }

  /** The rest of an accepted word, from inside a piece: the piece's text, then further pieces. */
  lemma {:induction false} AcceptedPiece(s: string, p: Place) returns (x: string, rest: string)
    requires !p.Between? && Join(s, p).Some?
    ensures (p.InSingle? ==> '\'' !in x) && s == Inside(p, x, rest)
    ensures Join(s, p) == After(x, Join(rest, Between)) && Join(rest, Between).Some?
    ensures |rest| < |s|
    decreases |s|, 0
  {
    var close := if p.InSingle? then '\'' else '"';
    if s[0] == close {
      x, rest := [], s[1..];
      ClosesPiece(s, p);
    } else {
      var n := if p.InDouble? && s[0] == '\\' then 2 else 1;
      var x', rest' := AcceptedPiece(s[n..], p);
      x, rest := [s[n - 1]] + x', rest';
      GrowsPiece(s, p, n, x', rest);
    }
  }

  lemma ClosesPiece(s: string, p: Place)
    requires !p.Between? && s != [] && s[0] == (if p.InSingle? then '\'' else '"') && Join(s, p).Some?
    ensures Join(s, p) == After([], Join(s[1..], Between))
    ensures s == Inside(p, [], s[1..])
  {
    assert s == [] + [s[0]] + s[1..];
    var r := Join(s[1..], Between);
    assert [] + r.value == r.value;
  }

  /** The text of a piece that holds `x`, closed, with `rest` after it. */
  function Inside(p: Place, x: string, rest: string): string
    requires !p.Between?
  {
    (if p.InSingle? then x else Escaped(x)) + [if p.InSingle? then '\'' else '"'] + rest
  }

  lemma JoinOne(s: string, p: Place, n: nat)
    requires !p.Between? && s != [] && s[0] != (if p.InSingle? then '\'' else '"') && Join(s, p).Some?
    requires n == (if p.InDouble? && s[0] == '\\' then 2 else 1)
    ensures n <= |s| && Join(s, p) == Cons(s[n - 1], Join(s[n..], p))
  {
  }

  lemma InsideGrows(s: string, p: Place, n: nat, x: string, rest: string)
    requires !p.Between? && s != [] && s[0] != (if p.InSingle? then '\'' else '"') && Join(s, p).Some?
    requires n == (if p.InDouble? && s[0] == '\\' then 2 else 1) && n <= |s| && s[n..] == Inside(p, x, rest)
    ensures s == Inside(p, [s[n - 1]] + x, rest)
  {
    var inner := if p.InSingle? then x else Escaped(x);
    Regroup(s, n, inner, [if p.InSingle? then '\'' else '"'], rest);
    if p.InDouble? { EscapedGrows(s, n, x); } else { assert s[..1] == [s[0]]; }
  }

  lemma Regroup(s: string, n: nat, inner: string, close: string, rest: string)
    requires n <= |s| && s[n..] == inner + close + rest
    ensures s == (s[..n] + inner) + close + rest
  {
    assert s == s[..n] + s[n..];
  }

  /** One more character of an accepted piece: escaped where it was. */
  lemma GrowsPiece(s: string, p: Place, n: nat, x: string, rest: string)
    requires !p.Between? && s != [] && s[0] != (if p.InSingle? then '\'' else '"') && Join(s, p).Some?
    requires n == (if p.InDouble? && s[0] == '\\' then 2 else 1) && n <= |s|
    requires Join(s[n..], p) == After(x, Join(rest, Between)) && s[n..] == Inside(p, x, rest)
    ensures Join(s, p) == After([s[n - 1]] + x, Join(rest, Between)) && s == Inside(p, [s[n - 1]] + x, rest)
  {
    var y := [s[n - 1]] + x;
    JoinOne(s, p, n);
    assert y[1..] == x && y[0] == s[n - 1];
    AfterFirst(y, Join(rest, Between));
    InsideGrows(s, p, n, x, rest);
  }

  lemma EscapedGrows(s: string, n: nat, x: string)
    requires s != [] && Join(s, InDouble).Some? && s[0] != '"' && n == (if s[0] == '\\' then 2 else 1) && n <= |s|
    ensures Escaped([s[n - 1]] + x) == s[..n] + Escaped(x)
  {
    assert ([s[n - 1]] + x)[1..] == x;
    if n == 2 { assert s[..2] == [s[0], s[1]]; }
  }

  // ----- the shell's own reading -----

  /** Quote removal of one word under sections 2.2.1 (escape character), 2.2.2 (single quotes) and
      2.2.3 (double quotes). `None` when a quote is unterminated or an expansion would happen. */
  function QuoteRemoval(s: string, p: Place): Option<string>
    decreases |s|
  {
    if s == [] then (if p.Between? then Some([]) else None)
    else match p
    case InSingle =>
      if s[0] == '\'' then QuoteRemoval(s[1..], Between) else Cons(s[0], QuoteRemoval(s[1..], InSingle))
    case InDouble =>
      if s[0] == '"' then QuoteRemoval(s[1..], Between)
      else if s[0] == '$' || s[0] == '`' then None
      else if s[0] == '\\' && |s| >= 2 && IsEscapable(s[1]) then Cons(s[1], QuoteRemoval(s[2..], InDouble))
      else if s[0] == '\\' && |s| >= 2 && s[1] == '\n' then QuoteRemoval(s[2..], InDouble)
      else Cons(s[0], QuoteRemoval(s[1..], InDouble))
    case Between =>
      if s[0] == '\'' then QuoteRemoval(s[1..], InSingle)
      else if s[0] == '"' then QuoteRemoval(s[1..], InDouble)
      else if s[0] == '$' || s[0] == '`' then None
      else if s[0] == '\\' then
        if |s| < 2 then None
        else if s[1] == '\n' then QuoteRemoval(s[2..], Between)
        else Cons(s[1], QuoteRemoval(s[2..], Between))
      else Cons(s[0], QuoteRemoval(s[1..], Between))
  }

  lemma {:induction false} JoinedAsTheShellReads(s: string, p: Place)
    ensures Join(s, p).Some? ==> QuoteRemoval(s, p) == Join(s, p)
    decreases |s|
  {
    if s == [] {
    } else {
      JoinedAsTheShellReads(s[1..], Between);
      JoinedAsTheShellReads(s[1..], InSingle);
      JoinedAsTheShellReads(s[1..], InDouble);
      if |s| >= 2 { JoinedAsTheShellReads(s[2..], InDouble); }
    }
  }

  /** The joiner, in one statement: it accepts exactly the renderings of quoted pieces, gives
      their contents, and that is what the shell's quote removal gives. */
  lemma JoinExact(word: string, text: string)
    ensures Join(word, Between) == Some(text)
            <==> exists ps: seq<Piece> :: AllValid(ps) && Render(ps) == word && Contents(ps) == text
    ensures Join(word, Between) == Some(text) ==> QuoteRemoval(word, Between) == Some(text)
  {
    JoinedAsTheShellReads(word, Between);
    if Join(word, Between) == Some(text) {
      var ps := AcceptedIsRendered(word);
      assert AllValid(ps) && Render(ps) == word && Contents(ps) == text;
    }
    forall ps: seq<Piece> | AllValid(ps) && Render(ps) == word && Contents(ps) == text
      ensures Join(word, Between) == Some(text)
    {
      JoinInvertsRender(ps);
    }
  }
}
