/** `Decoration::printed_len`, and what the vetted readers really print.

    The readers are modelled down to the bytes they write: `cat` with its portable flags, `nl` with
    any width, body style and start number, and `sed -n` windows before or after them. */
module PrintedSize {
  import opened Text
  import opened ReadParser
  import opened ShellSemantics

  type Byte = b: int | 0 <= b < 256
  /** A line of a file with its newline, if it has one. */
  type Line = seq<Byte>

  const NL: Byte := 10
  const TAB: Byte := 9
  const U64_SIZE: nat := U64_MAX + 1

  predicate IsLine(line: Line) { line != [] && forall i :: 0 <= i < |line| - 1 ==> line[i] != NL }

  predicate IsFile(file: seq<Line>) { |file| <= U64_MAX && forall l :: l in file ==> IsLine(l) }

  // ----- the bound -----

  function Max(a: nat, b: nat): nat { if a < b then b else a }

  function Ilog10(n: nat): nat
    requires n > 0
  {
    if n < 10 then 0 else 1 + Ilog10(n / 10)
  }

  predicate IsUnprintable(b: Byte) { b != NL && !(0x20 <= b < 0x7f) }

  function Unprintable(line: Line): nat {
    if line == [] then 0 else (if IsUnprintable(line[0]) then 1 else 0) + Unprintable(line[1..])
  }

  /** `printed_len`, with the width sum in 64 bits. */
  function PrintedLen(d: Decoration, line: Line, lineNo: nat): nat {
    |line|
    + (match d.numberWidth case None => 0 case Some(w) => (Max(w, Ilog10(Max(lineNo, 1)) + 1) + 1) % U64_SIZE)
    + (if d.dollar then 1 else 0)
    + (if d.visible then 3 * Unprintable(line) else 0)
  }

  /** The sum of the bound over lines, the first of which has number `first`. */
  function Budget(d: Decoration, lines: seq<Line>, first: nat): nat {
    if lines == [] then 0 else PrintedLen(d, lines[0], first) + Budget(d, lines[1..], first + 1)
  }

  function Total(out: seq<Line>): nat {
    if out == [] then 0 else |out[0]| + Total(out[1..])
  }

  // ----- numbers -----

  lemma {:induction false} Ilog10Monotone(a: nat, b: nat)
    requires 0 < a <= b
    ensures Ilog10(a) <= Ilog10(b)
  {
    if b >= 10 && a >= 10 { Ilog10Monotone(a / 10, b / 10); }
  }

  lemma {:induction false} DigitCount(n: nat)
    ensures |Digits(n)| == Ilog10(Max(n, 1)) + 1
  {
    if n >= 10 { DigitCount(n / 10); }
  }

  lemma {:induction false} Ilog10Small(n: nat)
    requires n > 0
    ensures Ilog10(n) <= n / 10
  {
    if n >= 10 { Ilog10Small(n / 10); }
  }

  function Spaces(n: nat): (s: Line)
    ensures |s| == n
  {
    if n == 0 then [] else [32] + Spaces(n - 1)
  }

  function DigitBytes(s: string): (r: Line)
    requires AllDigits(s)
    ensures |r| == |s|
  {
    if s == [] then []
    else
      assert IsDigit(s[0]);
      [s[0] as int as Byte] + DigitBytes(s[1..])
  }

  /** A number right-justified in a column of width `w`, wider when it needs to be, and a tab. */
  function NumberColumn(no: nat, w: nat): Line {
    var digits := DigitBytes(Digits(no));
    (if |digits| < w then Spaces(w - |digits|) else []) + digits + [TAB]
  }

  const INT_MAX: nat := 0x7FFF_FFFF

  // ----- cat -----

  datatype CatFlags = CatFlags(number: bool, nonblank: bool, visible: bool, ends: bool, tabs: bool)

  function CatFlagsOf(args: seq<string>): CatFlags {
    CatFlags("-n" in args, "-b" in args, "-v" in args || "-e" in args || "-t" in args, "-e" in args, "-t" in args)
  }

  /** A byte as `cat -v` shows it: `^X` for a control, `M-` before a byte with the high bit. */
  function ShowByte(fl: CatFlags, b: Byte): Line {
    if b == NL then (if fl.ends then [36, NL] else [NL])
    else if b == TAB then (if fl.tabs then [94, 73] else [TAB])
    else if !fl.visible then [b]
    else if b < 32 then [94, b + 64]
    else if b < 127 then [b]
    else if b == 127 then [94, 63]
    else if b < 160 then [77, 45, 94, b - 64]
    else if b < 255 then [77, 45, b - 128]
    else [77, 45, 94, 63]
  }

  function ShowBytes(fl: CatFlags, line: Line): Line {
    if line == [] then [] else ShowByte(fl, line[0]) + ShowBytes(fl, line[1..])
  }

  predicate CatNumbers(fl: CatFlags, line: Line) {
    if fl.nonblank then line != [NL] else fl.number
  }

  function CatLine(fl: CatFlags, line: Line, no: nat): Line {
    (if CatNumbers(fl, line) then NumberColumn(no, 6) else []) + ShowBytes(fl, line)
  }

  /** The lines `cat` prints; the next number printed is `no`. */
  function Cat(fl: CatFlags, lines: seq<Line>, no: nat): (out: seq<Line>)
    ensures |out| == |lines|
  {
    if lines == [] then []
    else [CatLine(fl, lines[0], no)] + Cat(fl, lines[1..], CatNext(fl, lines[0], no))
  }

  /** The next number after a line. */
  function CatNext(fl: CatFlags, line: Line, no: nat): nat { if CatNumbers(fl, line) then no + 1 else no }

  // ----- windows -----

  /** The budget the gate allows a window: the bound over its source lines. */
  function WindowBudget(d: Decoration, file: seq<Line>, r: LineRange): nat {
    Budget(d, WindowOf(file, r), Skips(r, |file|) + 1)
  }

  // ----- nl -----

  datatype Delimiter = NoDelimiter | Header | Body | Footer

  /** A line without its newline. */
  function Unended(line: Line): Line {
    if line != [] && line[|line| - 1] == NL then line[..|line| - 1] else line
  }

  /** A logical-page delimiter alone on a line: `\:\:\:`, `\:\:` or `\:`. */
  function DelimiterOf(line: Line): Delimiter {
    var body := Unended(line);
    if body == [92, 58, 92, 58, 92, 58] then Header
    else if body == [92, 58, 92, 58] then Body
    else if body == [92, 58] then Footer
    else NoDelimiter
  }

  /** Next number, and whether the current section's lines are numbered at all. */
  datatype NlState = NlState(no: nat, inBody: bool)

  /** What `nl` was asked for: column width, first number, and which body lines get a number; and
      whether this `nl` prints an empty line for a delimiter (GNU does) or nothing. */
  datatype NlOptions = NlOptions(width: nat, start: nat, numbers: Line -> bool, blanks: bool)

  function NlLine(o: NlOptions, line: Line, st: NlState): Line {
    (if st.inBody && o.numbers(line) then NumberColumn(st.no, o.width) else Spaces(o.width + 1)) + line
  }

  /** What stands for a delimiter line. */
  function Divider(o: NlOptions): seq<Line> { if o.blanks then [[NL]] else [] }

  function AfterDelimiter(o: NlOptions, d: Delimiter, st: NlState): NlState {
    match d
    case Header => NlState(o.start, false)
    case Body => st.(inBody := true)
    case Footer => st.(inBody := false)
    case NoDelimiter => st
  }

  /** The lines `nl` prints. A delimiter line starts a section; a header starts a logical page,
      whose numbers begin again. */
  function Nl(o: NlOptions, lines: seq<Line>, st: NlState): seq<Line>
    decreases |lines|
  {
    if lines == [] then []
    else NlPrinted(o, lines[0], st) + Nl(o, lines[1..], NlNext(o, lines[0], st))
  }

  /** What one source line becomes: nothing or one line. */
  function NlPrinted(o: NlOptions, line: Line, st: NlState): (out: seq<Line>)
    ensures |out| <= 1 && (o.blanks || DelimiterOf(line).NoDelimiter? ==> |out| == 1)
  {
    if DelimiterOf(line).NoDelimiter? then [NlLine(o, line, st)] else Divider(o)
  }

  function NlNext(o: NlOptions, line: Line, st: NlState): NlState {
    var d := DelimiterOf(line);
    if !d.NoDelimiter? then AfterDelimiter(o, d, st)
    else if st.inBody && o.numbers(line) then st.(no := st.no + 1) else st
  }

  /** `nl` as run: a width it cannot hold is an error, and nothing is printed. */
  function RunNl(o: NlOptions, lines: seq<Line>): seq<Line> {
    if o.width > INT_MAX then [] else Nl(o, lines, NlState(o.start, true))
  }

  function NlDecoration(o: NlOptions): Decoration { PLAIN.(numberWidth := Some(o.width)) }

  /** Every source line has its own place in what `nl` prints. */
  predicate KeepsPlaces(o: NlOptions, lines: seq<Line>) {
    o.blanks || forall l :: l in lines ==> DelimiterOf(l).NoDelimiter?
  }

  // ----- bytes and text -----

  /** The bytes of a line are this text, with a newline or without. */
  predicate IsText(line: Line, text: string) {
    var body := Unended(line);
    |body| == |text| && forall i :: 0 <= i < |text| ==> body[i] == text[i] as int
  }

  predicate AreTexts(lines: seq<Line>, file: seq<string>) {
    |lines| == |file| && forall i :: 0 <= i < |file| ==> IsText(lines[i], file[i])
  }

  lemma SpellsOut(body: Line, text: string)
    requires |body| == |text| && forall i :: 0 <= i < |text| ==> body[i] == text[i] as int
    ensures body == [92, 58] <==> text == "\\:"
    ensures body == [92, 58, 92, 58] <==> text == "\\:\\:"
    ensures body == [92, 58, 92, 58, 92, 58] <==> text == "\\:\\:\\:"
  {
  }

  /** The delimiters of the byte model are those of the text model. */
  lemma DelimitersAgree(line: Line, text: string)
    requires IsText(line, text)
    ensures IsDelimiter(text) <==> !DelimiterOf(line).NoDelimiter?
  {
    SpellsOut(Unended(line), text);
  }

  /** The printed line carries the source line the text model says, or is the empty line that stands
      for a delimiter. */
  predicate Carries(printed: Line, source: Option<nat>, lines: seq<Line>, first: nat) {
    match source
    case None => printed == [NL]
    case Some(k) => first <= k < first + |lines|
                    && (var line := lines[k - first]; |line| <= |printed| && printed[|printed| - |line|..] == line)
  }

  lemma CarriesCons(printed: Line, source: Option<nat>, lines: seq<Line>, first: nat)
    requires lines != [] && Carries(printed, source, lines[1..], first + 1)
    ensures Carries(printed, source, lines, first)
  {
    if source.Some? { assert lines[1..][source.value - (first + 1)] == lines[source.value - first]; }
  }

  lemma OneAgrees(o: NlOptions, line: Line, text: string, lines: seq<Line>, st: NlState, first: nat)
    requires IsText(line, text) && lines != [] && lines[0] == line
    ensures var one, source := NlPrinted(o, line, st), NlOne(text, first, o.blanks);
            |one| == |source| && forall i :: 0 <= i < |one| ==> Carries(one[i], source[i], lines, first)
  {
    DelimitersAgree(line, text);
    var l := NlLine(o, line, st);
    assert l[|l| - |line|..] == line;
  }

  /** The two models of `nl` agree: as many lines, and each carries the source line it should. */
  lemma {:induction false} NlAgrees(o: NlOptions, lines: seq<Line>, file: seq<string>, st: NlState, first: nat)
    requires AreTexts(lines, file)
    ensures var out, source := Nl(o, lines, st), NlLines(file, first, o.blanks);
            |out| == |source| && forall i :: 0 <= i < |out| ==> Carries(out[i], source[i], lines, first)
    decreases |lines|
  {
    if lines == [] {
    } else {
      var st' := NlNext(o, lines[0], st);
      var one, more := NlPrinted(o, lines[0], st), Nl(o, lines[1..], st');
      var source, rest := NlOne(file[0], first, o.blanks), NlLines(file[1..], first + 1, o.blanks);
      OneAgrees(o, lines[0], file[0], lines, st, first);
      NlAgrees(o, lines[1..], file[1..], st', first + 1);
      forall i | 0 <= i < |one + more| ensures Carries((one + more)[i], (source + rest)[i], lines, first) {
        if i >= |one| { CarriesCons(more[i - |one|], rest[i - |one|], lines, first); }
      }
    }
  }
}
