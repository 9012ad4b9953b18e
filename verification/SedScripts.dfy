/** Which window a `sed -n` script denotes to the parser (`parse_sed_print_range`): rendering a
    window and parsing it gives the window back. */
module SedScripts {
  import opened Text
  import opened ReadParser

  /** `a,bp` and `ap`. */
  function TwoAddresses(a: string, b: string): string { (a + ("," + b)) + "p" }

  function OneAddress(a: string): string { a + "p" }

  function InQuotes(q: char, s: string): string { [q] + s + [q] }

  lemma {:induction false} FirstComma(a: string, x: string)
    requires ',' !in a
    ensures IndexOf(a + ("," + x), ',') == |a|
  {
    if a == [] {
      assert (a + ("," + x))[0] == ',';
    } else {
      assert (a + ("," + x))[0] == a[0] && (a + ("," + x))[1..] == a[1..] + ("," + x);
      FirstComma(a[1..], x);
    }
  }

  lemma {:induction false} NoComma(a: string)
    requires ',' !in a
    ensures IndexOf(a, ',') == |a|
  {
    if a == [] {
    } else {
      NoComma(a[1..]);
    }
  }

  lemma QuotesStrip(q: char, s: string)
    requires q == '\'' || q == '"'
    ensures StripQuotes(InQuotes(q, s)) == s
  {
    var t := InQuotes(q, s);
    assert t[0] == q && t[|t| - 1] == q && Inner(t) == s;
  }

  /** The parser's reading of a script's text, quotes off. */
  lemma ParseOfInner(script: string, inner: string, body: string)
    requires StripQuotes(script) == inner && inner == body + "p"
    ensures ParseSedPrintRange(script)
         == (var i := IndexOf(body, ',');
             var start := ParseU64(body[..i]);
             if start.None? || start.value == 0 then None
             else if i < |body| && body[i + 1..] == "$" then Some(LineRange(start.value, None))
             else
               var end := ParseU64(if i < |body| then body[i + 1..] else body);
               if end.None? || end.value < start.value then None else Some(LineRange(start.value, end)))
  {
    assert inner[..|inner| - 1] == body;
  }

  lemma TwoParse(script: string, a: string, b: string)
    requires StripQuotes(script) == TwoAddresses(a, b) && ',' !in a
    requires ParseU64(a).Some? && ParseU64(a).value > 0
    requires b == "$" || (ParseU64(b).Some? && ParseU64(a).value <= ParseU64(b).value)
    ensures ParseSedPrintRange(script)
         == Some(LineRange(ParseU64(a).value, if b == "$" then None else ParseU64(b)))
  {
    var body := a + ("," + b);
    ParseOfInner(script, TwoAddresses(a, b), body);
    FirstComma(a, b);
    assert body[..|a|] == a && body[|a| + 1..] == b;
  }

  lemma OneParse(script: string, a: string)
    requires StripQuotes(script) == OneAddress(a) && ',' !in a && ParseU64(a).Some? && ParseU64(a).value > 0
    ensures ParseSedPrintRange(script) == Some(LineRange(ParseU64(a).value, ParseU64(a)))
  {
    ParseOfInner(script, OneAddress(a), a);
    NoComma(a);
    assert a[..|a|] == a;
  }

  // ----- windows, rendered -----

  predicate Renderable(r: LineRange) {
    1 <= r.start <= U64_MAX && (r.end.Some? ==> r.start <= r.end.value <= U64_MAX)
  }

  function ScriptOf(r: LineRange): string {
    TwoAddresses(Digits(r.start), match r.end case None => "$" case Some(e) => Digits(e))
  }

  lemma ParseOfDigits(n: nat)
    requires n <= U64_MAX
    ensures ParseU64(Digits(n)) == Some(n) && ',' !in Digits(n) && Digits(n) != "$" && !WrappedIn(Digits(n), '\'')
  {
    DecimalOfDigits(n);
    assert Digits(n)[0] in Digits(n);
    assert IsDigit(Digits(n)[0]) && !IsDigit('+') && !IsDigit(',') && !IsDigit('$');
  }

  lemma UnquotedScript(r: LineRange)
    requires Renderable(r)
    ensures StripQuotes(ScriptOf(r)) == ScriptOf(r)
  {
    ParseOfDigits(r.start);
    var s := ScriptOf(r);
    DecimalOfDigits(r.start);
    assert s[|s| - 1] == 'p';
  }

  /** Round trip: every window, written as a script, in either quotes or none, is read back. */
  lemma ParseInvertsScript(r: LineRange, q: char)
    requires Renderable(r) && (q == '\'' || q == '"')
    ensures ParseSedPrintRange(ScriptOf(r)) == Some(r)
    ensures ParseSedPrintRange(InQuotes(q, ScriptOf(r))) == Some(r)
  {
    var a, b := Digits(r.start), match r.end case None => "$" case Some(e) => Digits(e);
    ParseOfDigits(r.start);
    if r.end.Some? { ParseOfDigits(r.end.value); }
    UnquotedScript(r);
    QuotesStrip(q, ScriptOf(r));
    TwoParse(ScriptOf(r), a, b);
    TwoParse(InQuotes(q, ScriptOf(r)), a, b);
  }

  /** A single line `Np` is the window of that line. */
  lemma ParseInvertsLine(n: nat)
    requires 1 <= n <= U64_MAX
    ensures ParseSedPrintRange(OneAddress(Digits(n))) == Some(LineRange(n, Some(n)))
  {
    ParseOfDigits(n);
    DecimalOfDigits(n);
    var s := OneAddress(Digits(n));
    assert s[|s| - 1] == 'p';
    OneParse(s, Digits(n));
  }
}
