/** The string vocabulary the adapters share: Rust's whitespace, trimming, words, decimal
    parsing and line splitting, on sequences of characters. */
module Text {

  datatype Option<+T> = None | Some(value: T)

  const U64_MAX: nat := 0xFFFF_FFFF_FFFF_FFFF
  const U32_MAX: nat := 0xFFFF_FFFF

  // ----- characters -----

  /** `char::is_whitespace`: the Unicode White_Space property. */
  predicate IsSpace(c: char) {
    || '\U{0009}' <= c <= '\U{000D}' || c == ' ' || c == '\U{0085}' || c == '\U{00A0}'
    || c == '\U{1680}' || '\U{2000}' <= c <= '\U{200A}' || c == '\U{2028}' || c == '\U{2029}'
    || c == '\U{202F}' || c == '\U{205F}' || c == '\U{3000}'
  }

  predicate IsDigit(c: char) { '0' <= c <= '9' }

  function DigitValue(c: char): nat
    requires IsDigit(c)
  {
    c as int - '0' as int
  }

  predicate NoSpace(s: string) { forall c :: c in s ==> !IsSpace(c) }

  // ----- substrings -----

  predicate HasAt(s: string, sub: string, i: nat) { i + |sub| <= |s| && s[i..i + |sub|] == sub }

  predicate Contains(s: string, sub: string) { exists i: nat :: i <= |s| && HasAt(s, sub, i) }

  predicate EndsWith(s: string, t: string) { |t| <= |s| && s[|s| - |t|..] == t }

  /** The text after the last `/`, as `rsplit('/').next()` gives it. */
  function BaseName(s: string): (r: string)
    ensures '/' !in r && EndsWith(s, r)
  {
    if '/' !in s then s else BaseName(s[1..])
  }

  /** `tok` without one pair of surrounding quotes of the given kind. */
  predicate WrappedIn(tok: string, q: char) { |tok| >= 2 && tok[0] == q && tok[|tok| - 1] == q }

  function Inner(tok: string): (r: string)
    requires |tok| >= 2
    ensures |r| == |tok| - 2
  {
    tok[1..|tok| - 1]
  }

  // ----- trimming and words -----

  function TrimStart(s: string): (r: string)
    ensures |r| <= |s|
    ensures r == [] || !IsSpace(r[0])
  {
    if s != [] && IsSpace(s[0]) then TrimStart(s[1..]) else s
  }

  function TrimEnd(s: string): (r: string)
    ensures |r| <= |s| && r <= s
    ensures r == [] || !IsSpace(r[|r| - 1])
  {
    if s != [] && IsSpace(s[|s| - 1]) then TrimEnd(s[..|s| - 1]) else s
  }

  function Trim(s: string): (r: string)
    ensures |r| <= |s|
    ensures r == [] || (!IsSpace(r[0]) && !IsSpace(r[|r| - 1]))
  {
    TrimEnd(TrimStart(s))
  }

  /** Length of the leading run of non-whitespace. */
  function WordLen(s: string): (n: nat)
    ensures n <= |s|
    ensures NoSpace(s[..n])
    ensures n < |s| ==> IsSpace(s[n])
  {
    if s == [] || IsSpace(s[0]) then 0
    else
      var n := 1 + WordLen(s[1..]);
      assert s[..n] == [s[0]] + s[1..][..n - 1];
      n
  }

  /** `str::split_whitespace`. */
  function Words(s: string): (ws: seq<string>)
    ensures forall w :: w in ws ==> w != [] && NoSpace(w)
    decreases |s|
  {
    if s == [] then []
    else if IsSpace(s[0]) then Words(s[1..])
    else
      var n := WordLen(s);
      [s[..n]] + Words(s[n..])
  }

  function FirstWord(s: string): string {
    var ws := Words(s);
    if ws == [] then [] else ws[0]
  }

  lemma {:induction false} WordsTrimStart(s: string)
    ensures Words(TrimStart(s)) == Words(s)
  {
    if s != [] && IsSpace(s[0]) { WordsTrimStart(s[1..]); }
  }

  /** A whitespace character at the end adds no word. */
  lemma {:induction false} WordsDropLastSpace(s: string)
    requires s != [] && IsSpace(s[|s| - 1])
    ensures Words(s[..|s| - 1]) == Words(s)
    decreases |s|
  {
    var t := s[..|s| - 1];
    if IsSpace(s[0]) {
      if |s| > 1 {
        WordsDropLastSpace(s[1..]);
        assert s[1..][..|s| - 2] == t[1..];
      }
    } else {
      WordLenPrefix(s);
      var n := WordLen(s);
      assert s[..n] == t[..n];
      WordsDropLastSpace(s[n..]);
      assert s[n..][..|s| - n - 1] == t[n..];
    }
  }

  lemma {:induction false} WordLenPrefix(s: string)
    requires s != [] && IsSpace(s[|s| - 1])
    ensures WordLen(s) < |s| && WordLen(s[..|s| - 1]) == WordLen(s)
  {
    var t := s[..|s| - 1];
    if !IsSpace(s[0]) {
      WordLenPrefix(s[1..]);
      assert s[1..][..|s| - 2] == t[1..];
    }
  }

  lemma {:induction false} WordsTrimEnd(s: string)
    ensures Words(TrimEnd(s)) == Words(s)
  {
    if s != [] && IsSpace(s[|s| - 1]) {
      WordsDropLastSpace(s);
      WordsTrimEnd(s[..|s| - 1]);
    }
  }

  lemma WordsTrim(s: string)
    ensures Words(Trim(s)) == Words(s)
  {
    WordsTrimStart(s);
    WordsTrimEnd(TrimStart(s));
  }

  // ----- decimal numbers -----

  predicate AllDigits(s: string) { forall c :: c in s ==> IsDigit(c) }

  /** Value of a digit string, most significant first. */
  function Decimal(s: string): nat
    requires AllDigits(s)
  {
    if s == [] then 0 else 10 * Decimal(s[..|s| - 1]) + DigitValue(s[|s| - 1])
  }

  /** `str::parse` for an unsigned integer type whose largest value is `max`: an optional `+`,
      then at least one digit, and no overflow. */
  function ParseUnsigned(s: string, max: nat): (r: Option<nat>)
    ensures r.Some? ==> r.value <= max && s != []
  {
    var d := if s != [] && s[0] == '+' then s[1..] else s;
    if d != [] && AllDigits(d) && Decimal(d) <= max then Some(Decimal(d)) else None
  }

  function ParseU64(s: string): (r: Option<nat>) { ParseUnsigned(s, U64_MAX) }

  /** The decimal digits of `n`, as a program prints them. */
  function Digits(n: nat): (s: string)
    ensures s != [] && AllDigits(s)
  {
    if n < 10 then [('0' as int + n) as char] else Digits(n / 10) + [('0' as int + n % 10) as char]
  }

  lemma {:induction false} DecimalOfDigits(n: nat)
    ensures Decimal(Digits(n)) == n
  {
    if n >= 10 {
      DecimalOfDigits(n / 10);
      assert Digits(n)[..|Digits(n)| - 1] == Digits(n / 10);
    } else {
      assert Digits(n)[..0] == [];
    }
  }

  // ----- lines -----

  function StripCr(s: string): string { if s != [] && s[|s| - 1] == '\r' then s[..|s| - 1] else s }

  /** Index of the first `c`, or the length when there is none. */
  function IndexOf(s: string, c: char): (i: nat)
    ensures i <= |s| && c !in s[..i]
    ensures i < |s| ==> s[i] == c
  {
    if s == [] || s[0] == c then 0
    else
      var i := 1 + IndexOf(s[1..], c);
      assert s[..i] == [s[0]] + s[1..][..i - 1];
      i
  }

  /** `str::lines`: split at `\n`, a `\r` before it dropped, no empty last line. */
  function Lines(s: string): (ls: seq<string>)
    decreases |s|
  {
    if s == [] then []
    else
      var i := IndexOf(s, '\n');
      if i == |s| then [s] else [StripCr(s[..i])] + Lines(s[i + 1..])
  }

  // ----- bytes -----

  /** `str::len`: the bytes of the text in UTF-8. */
  function Utf8Len(s: string): (n: nat)
    ensures |s| <= n <= 4 * |s|
  {
    if s == [] then 0 else Utf8Len(s[1..]) + Utf8Bytes(s[0])
  }

  function Utf8Bytes(c: char): (n: nat)
    ensures 1 <= n <= 4
  {
    if c as int < 0x80 then 1 else if c as int < 0x800 then 2 else if c as int < 0x1_0000 then 3 else 4
  }

  // ----- joining -----

  /** `join(sep)`. */
  function Join(parts: seq<string>, sep: string): string {
    if parts == [] then "" else if |parts| == 1 then parts[0] else parts[0] + sep + Join(parts[1..], sep)
  }
}
