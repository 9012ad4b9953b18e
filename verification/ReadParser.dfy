/** The read parsers of `codex.rs`: from the text of a shell command to the files, and the line
    windows of them, that the command put in front of the model. */
module ReadParser {
  import opened Text
  import opened ShellSplit

  // ----- the shell wrapper -----

  const SHELLS: set<string> := {"sh", "bash", "zsh", "dash", "ksh"}

  /** Where the first `sub` in `s` starts, or None. */
  function FindFirst(s: string, sub: string): (r: Option<nat>)
    ensures r.Some? ==> HasAt(s, sub, r.value) && forall k: nat :: k < r.value ==> !HasAt(s, sub, k)
  {
    if sub <= s then
      assert s[0..|sub|] == sub;
      Some(0)
    else if s == [] then None
    else
      match FindFirst(s[1..], sub)
      case None => None
      case Some(i) =>
        assert s[1..][i..i + |sub|] == s[i + 1..i + 1 + |sub|];
        assert forall k: nat :: 0 < k < i + 1 ==> (HasAt(s, sub, k) ==> HasAt(s[1..], sub, k - 1)) by {
          forall k: nat | 0 < k < i + 1 && HasAt(s, sub, k) ensures HasAt(s[1..], sub, k - 1) {
            assert s[1..][k - 1..k - 1 + |sub|] == s[k..k + |sub|];
          }
        }
        Some(i + 1)
  }

  predicate IsShellFlag(flag: string) { flag != [] && flag[0] == '-' && flag[|flag| - 1] == 'c' }

  /** The raw script word of `SHELL -c SCRIPT`, quotes still on. */
  function ShellCScript(cmd: string): (r: Option<string>)
    ensures r.Some? ==> |r.value| <= |cmd|
  {
    var ws := Words(cmd);
    if |ws| < 2 || BaseName(ws[0]) !in SHELLS || !IsShellFlag(ws[1]) then None
    else
      match FindFirst(cmd, ws[1])
      case None => Some([])
      case Some(i) => Some(Trim(cmd[i + |ws[1]|..]))
  }

  predicate IsOneQuoted(rest: string, q: char) { WrappedIn(rest, q) && q !in Inner(rest) }

  function Unwrap(cmd: string): (r: string)
    ensures r == cmd || |r| + 2 <= |cmd|
  {
    match ShellCScript(cmd)
    case None => cmd
    case Some(rest) =>
      if IsOneQuoted(rest, '\'') || IsOneQuoted(rest, '"') then Inner(rest) else cmd
  }

  // ----- one stage of a command -----

  datatype LineRange = LineRange(start: nat, end: Option<nat>)

  datatype Decoration = Decoration(numberWidth: Option<nat>, dollar: bool, visible: bool)

  const PLAIN := Decoration(None, false, false)

  datatype RangedRead = RangedRead(range: LineRange, operand: string, viaNl: bool, decoration: Decoration)

  datatype WholeRead = WholeRead(operand: string, viaNl: bool, decoration: Decoration)

  function StripQuotes(tok: string): string {
    if WrappedIn(tok, '\'') || WrappedIn(tok, '"') then Inner(tok) else tok
  }

  predicate IsOperand(op: string) { op != [] && op[0] != '-' }

  /** `'N,Mp'`, `"N,$p"` or `Np`, with or without the quotes. */
  function ParseSedPrintRange(script: string): (r: Option<LineRange>)
    ensures r.Some? ==> r.value.start > 0 && (r.value.end.Some? ==> r.value.start <= r.value.end.value)
  {
    var inner := StripQuotes(script);
    if inner == [] || inner[|inner| - 1] != 'p' then None
    else
      var body := inner[..|inner| - 1];
      var i := IndexOf(body, ',');
      var start := ParseU64(body[..i]);
      if start.None? || start.value == 0 then None
      else if i < |body| && body[i + 1..] == "$" then Some(LineRange(start.value, None))
      else
        var end := ParseU64(if i < |body| then body[i + 1..] else body);
        if end.None? || end.value < start.value then None else Some(LineRange(start.value, end))
  }

  /** `sed -n SCRIPT FILE`: the window and the operand. */
  function SedWithOperand(stage: string): Option<(LineRange, string)> {
    var ws := Words(stage);
    if |ws| != 4 || BaseName(ws[0]) != "sed" || ws[1] != "-n" || !IsOperand(StripQuotes(ws[3])) then None
    else match ParseSedPrintRange(ws[2]) case None => None case Some(r) => Some((r, StripQuotes(ws[3])))
  }

  /** `sed -n SCRIPT` as a filter, with no operand. */
  function SedFilter(stage: string): Option<LineRange> {
    var ws := Words(stage);
    if |ws| != 3 || BaseName(ws[0]) != "sed" || ws[1] != "-n" then None else ParseSedPrintRange(ws[2])
  }

  const CAT_FLAGS: set<string> := {"-n", "-b", "-v", "-e", "-t"}
  const NL_FLAGS: set<string> := {"-ba", "-bt", "-bn"}

  predicate IsWidthFlag(tok: string) { "-w" <= tok }

  predicate IsFlag(tok: string) { tok != [] && tok[0] == '-' }

  predicate IsPositive(s: string, max: nat) { ParseUnsigned(s, max).Some? && ParseUnsigned(s, max).value > 0 }

  predicate NlFlagKeepsLines(tok: string) {
    tok in NL_FLAGS || (IsWidthFlag(tok) && IsPositive(tok[2..], U32_MAX))
  }

  predicate FlagKeepsLines(base: string, tok: string) {
    if base == "cat" then tok in CAT_FLAGS else NlFlagKeepsLines(tok)
  }

  function Operands(args: seq<string>): (ops: seq<string>) {
    if args == [] then []
    else Operands(args[..|args| - 1]) + if IsFlag(args[|args| - 1]) then [] else [args[|args| - 1]]
  }

  /** The value of the last `-w` flag, or the default column width 6. */
  function LastWidth(args: seq<string>): Option<nat> {
    if args == [] then Some(6)
    else if IsWidthFlag(args[|args| - 1]) then ParseU64(args[|args| - 1][2..])
    else LastWidth(args[..|args| - 1])
  }

  function CatDecoration(args: seq<string>): Decoration {
    Decoration(if "-n" in args || "-b" in args then Some(6) else None,
               "-e" in args, "-e" in args || "-v" in args || "-t" in args)
  }

  function ReaderDecoration(base: string, args: seq<string>): Decoration {
    if base == "nl" then PLAIN.(numberWidth := LastWidth(args)) else CatDecoration(args)
  }

  /** Every flag preserves lines and none is a bare `-`. */
  predicate FlagsKeepLines(base: string, args: seq<string>) {
    forall a :: a in args && IsFlag(a) ==> a != "-" && FlagKeepsLines(base, a)
  }

  /** `cat` or `nl` with line-preserving flags and exactly one operand. */
  function ReaderOf(toks: seq<string>): Option<WholeRead> {
    if toks == [] then None
    else
      var base, args := BaseName(toks[0]), toks[1..];
      var ops := Operands(args);
      if (base != "cat" && base != "nl") || !FlagsKeepLines(base, args) || |ops| != 1
         || !IsOperand(StripQuotes(ops[0])) then None
      else Some(WholeRead(StripQuotes(ops[0]), base == "nl", ReaderDecoration(base, args)))
  }

  /** The decoration after one more reader flag. */
  function Decorate(base: string, tok: string, d: Decoration): Decoration {
    if base == "nl" then (if IsWidthFlag(tok) then PLAIN.(numberWidth := ParseU64(tok[2..])) else d)
    else if tok == "-n" || tok == "-b" then d.(numberWidth := Some(6))
    else if tok == "-e" then d.(dollar := true, visible := true)
    else d.(visible := true)
  }

  lemma DecorationSnoc(base: string, args: seq<string>, tok: string)
    requires base == "cat" || base == "nl"
    requires FlagKeepsLines(base, tok)
    ensures ReaderDecoration(base, args + [tok]) == Decorate(base, tok, ReaderDecoration(base, args))
  {
    assert (args + [tok])[..|args|] == args;
    assert forall f: string :: f in args + [tok] <==> f in args || f == tok;
  }

  lemma OperandsSnoc(args: seq<string>, tok: string)
    ensures Operands(args + [tok]) == Operands(args) + if IsFlag(tok) then [] else [tok]
  {
    assert (args + [tok])[..|args|] == args;
  }

  lemma NonFlagSnoc(base: string, args: seq<string>, tok: string)
    requires !IsFlag(tok)
    ensures ReaderDecoration(base, args + [tok]) == ReaderDecoration(base, args)
  {
    assert (args + [tok])[..|args|] == args;
    assert forall f: string :: f in args + [tok] <==> f in args || f == tok;
  }

  lemma {:induction false} OperandsGrow(args: seq<string>, k: nat)
    requires k <= |args|
    ensures |Operands(args[..k])| <= |Operands(args)|
    ensures Operands(args[..k]) <= Operands(args)
  {
    if k < |args| {
      OperandsGrow(args[..|args| - 1], k);
      assert args[..|args| - 1][..k] == args[..k];
    } else {
      assert args[..k] == args;
    }
  }

  /** What the reader's loop has established once it has read `args`. */
  ghost predicate ReadSoFar(base: string, args: seq<string>, operand: Option<string>, d: Decoration) {
    && FlagsKeepLines(base, args)
    && d == ReaderDecoration(base, args)
    && match operand
       case None => Operands(args) == []
       case Some(op) => |Operands(args)| == 1 && op == StripQuotes(Operands(args)[0]) && IsOperand(op)
  }

  lemma ReadFlag(base: string, args: seq<string>, tok: string, operand: Option<string>, d: Decoration)
    requires base == "cat" || base == "nl"
    requires ReadSoFar(base, args, operand, d)
    requires IsFlag(tok) && tok != "-" && FlagKeepsLines(base, tok)
    ensures ReadSoFar(base, args + [tok], operand, ReaderDecoration(base, args + [tok]))
  {
    OperandsSnoc(args, tok);
  }

  lemma ReadOneOperand(base: string, args: seq<string>, tok: string, d: Decoration)
    requires ReadSoFar(base, args, None, d)
    requires !IsFlag(tok) && IsOperand(StripQuotes(tok))
    ensures ReadSoFar(base, args + [tok], Some(StripQuotes(tok)), d)
  {
    OperandsSnoc(args, tok);
    NonFlagSnoc(base, args, tok);
  }

  /** A token the loop stops at makes the whole stage no reader. */
  lemma StopsReading(toks: seq<string>, i: nat, operand: Option<string>, d: Decoration)
    requires 1 <= i < |toks| && ReadSoFar(BaseName(toks[0]), toks[1..][..i - 1], operand, d)
    requires Refuses(BaseName(toks[0]), toks[i], operand)
    ensures ReaderOf(toks).None?
  {
    var args, tok := toks[1..], toks[i];
    assert args[..i] == args[..i - 1] + [tok] && tok == args[i - 1] && tok in args;
    OperandsSnoc(args[..i - 1], tok);
    OperandsGrow(args, i);
  }

  lemma DoneReading(toks: seq<string>, operand: Option<string>, d: Decoration)
    requires toks != [] && (BaseName(toks[0]) == "cat" || BaseName(toks[0]) == "nl")
    requires ReadSoFar(BaseName(toks[0]), toks[1..], operand, d)
    ensures ReaderOf(toks) == match operand
                              case None => None
                              case Some(op) => Some(WholeRead(op, BaseName(toks[0]) == "nl", d))
  {
  }

  /** The reader's loop refuses this token. */
  predicate Refuses(base: string, tok: string, operand: Option<string>) {
    if IsFlag(tok) then tok == "-" || !FlagKeepsLines(base, tok)
    else operand.Some? || !IsOperand(StripQuotes(tok))
  }

  /** `whole_file_reader_with_one_operand`. */
  method WholeFileReaderWithOneOperand(stage: string) returns (read: Option<WholeRead>)
    ensures read == ReaderOf(Words(stage))
  {
    var toks := Words(stage);
    if toks == [] { return None; }
    var base := BaseName(toks[0]);
    if base != "cat" && base != "nl" { return None; }
    read := ReadTokens(toks, base);
  }

  method ReadTokens(toks: seq<string>, base: string) returns (read: Option<WholeRead>)
    requires toks != [] && base == BaseName(toks[0]) && (base == "cat" || base == "nl")
    ensures read == ReaderOf(toks)
  {
    var operand: Option<string> := None;
    var decoration := if base == "nl" then PLAIN.(numberWidth := Some(6)) else PLAIN;
    ghost var args := toks[1..];
    var i := 1;
    while i < |toks|
      invariant 1 <= i <= |toks|
      invariant ReadSoFar(base, args[..i - 1], operand, decoration)
    {
      var tok := toks[i];
      ghost var seen := args[..i - 1];
      assert args[..i] == seen + [tok];
      if Refuses(base, tok, operand) {
        StopsReading(toks, i, operand, decoration);
        return None;
      }
      if IsFlag(tok) {
        DecorationSnoc(base, seen, tok);
        ReadFlag(base, seen, tok, operand, decoration);
        decoration := Decorate(base, tok, decoration);
      } else {
        ReadOneOperand(base, seen, tok, decoration);
        operand := Some(StripQuotes(tok));
      }
      i := i + 1;
    }
    assert args[..|args|] == args;
    DoneReading(toks, operand, decoration);
    read := match operand case None => None case Some(op) => Some(WholeRead(op, base == "nl", decoration));
  }

  predicate NlFilterFlag(tok: string, windowStart: nat) {
    || tok in NL_FLAGS
    || (IsWidthFlag(tok) && IsPositive(tok[2..], U64_MAX))
    || ("-v" <= tok && ParseU64(tok[2..]).Some? && ParseU64(tok[2..]).value <= windowStart)
  }

  predicate NlFilterFlags(args: seq<string>, windowStart: nat) {
    forall a :: a in args ==> NlFilterFlag(a, windowStart)
  }

  /** `nl` as the second stage of `sed -n 'N,Mp' FILE | nl`, with no operand. */
  function NlFilter(stage: string, windowStart: nat): Option<Decoration> {
    var ws := Words(stage);
    if ws == [] || BaseName(ws[0]) != "nl" || !NlFilterFlags(ws[1..], windowStart) then None
    else Some(PLAIN.(numberWidth := LastWidth(ws[1..])))
  }

  lemma NlFlagIsNotWidth(tok: string)
    requires tok in NL_FLAGS
    ensures !IsWidthFlag(tok)
  {
    assert tok[1] == 'b';
  }

  lemma LastWidthSnoc(args: seq<string>, tok: string)
    ensures LastWidth(args + [tok]) == if IsWidthFlag(tok) then ParseU64(tok[2..]) else LastWidth(args)
  {
    assert (args + [tok])[..|args|] == args;
  }

  /** `nl_numbering_filter`. */
  method NlNumberingFilter(stage: string, windowStart: nat) returns (d: Option<Decoration>)
    ensures d == NlFilter(stage, windowStart)
  {
    var toks := Words(stage);
    if toks == [] || BaseName(toks[0]) != "nl" { return None; }
    var ok, width := ReadNlFlags(toks[1..], windowStart);
    d := if ok then Some(PLAIN.(numberWidth := width)) else None;
  }

  method ReadNlFlags(args: seq<string>, windowStart: nat) returns (ok: bool, width: Option<nat>)
    ensures ok == NlFilterFlags(args, windowStart)
    ensures ok ==> width == LastWidth(args)
  {
    width := Some(6);
    var i := 0;
    while i < |args|
      invariant 0 <= i <= |args|
      invariant NlFilterFlags(args[..i], windowStart)
      invariant width == LastWidth(args[..i])
    {
      var tok := args[i];
      assert tok in args && args[..i + 1] == args[..i] + [tok];
      LastWidthSnoc(args[..i], tok);
      if !NlFilterFlag(tok, windowStart) { return false, width; }
      if tok in NL_FLAGS { NlFlagIsNotWidth(tok); }
      if IsWidthFlag(tok) { width := ParseU64(tok[2..]); }
      i := i + 1;
    }
    assert args[..|args|] == args;
    ok := true;
  }

  // ----- one segment -----

  /** `str::split` at a character. */
  function SplitOn(s: string, c: char): (ps: seq<string>)
    ensures ps != []
    decreases |s|
  {
    var i := IndexOf(s, c);
    if i == |s| then [s] else [s[..i]] + SplitOn(s[i + 1..], c)
  }

  predicate HasAny(s: string, cs: set<char>) { exists c :: c in s && c in cs }

  predicate RefusedForRange(cmd: string) {
    || cmd == [] || HasAny(cmd, {';', '&', '>', '<', '`'})
    || Contains(cmd, "||") || Contains(cmd, "$(") || Contains(cmd, "$'")
  }

  function CommandReadRange(command: string): Option<RangedRead> {
    var cmd := Unwrap(Trim(command));
    if RefusedForRange(cmd) then None
    else
      var stages := SplitOn(cmd, '|');
      if |stages| == 1 then
        match SedWithOperand(Trim(stages[0]))
        case None => None
        case Some((range, op)) => Some(RangedRead(range, op, false, PLAIN))
      else if |stages| == 2 then PipelineRange(Trim(stages[0]), Trim(stages[1]))
      else None
  }

  function PipelineRange(reader: string, filter: string): Option<RangedRead> {
    match ReaderOf(Words(reader))
    case Some(read) =>
      (match SedFilter(filter)
       case None => None
       case Some(range) => Some(RangedRead(range, read.operand, read.viaNl, read.decoration)))
    case None =>
      match SedWithOperand(reader)
      case None => None
      case Some((range, op)) =>
        match NlFilter(filter, range.start)
        case None => None
        case Some(d) => Some(RangedRead(range, op, true, d))
  }

  const NOT_ONE_READ: set<char> := {'|', '<', '>', '#', ';', '&', '`', '$', '(', ')'}

  function WholeFileRead(command: string): Option<WholeRead> {
    var cmd := Unwrap(Trim(command));
    if CommandReadRange(command).Some? || HasAny(cmd, NOT_ONE_READ) then None else ReaderOf(Words(cmd))
  }

  /** `whole_file_read_operand`: the same checks, then the parser once more on the unwrapped text. */
  function WholeFileReadOperand(command: string): Option<string> {
    var cmd := Unwrap(Trim(command));
    if CommandReadRange(command).Some? || HasAny(cmd, NOT_ONE_READ) then None
    else match WholeFileRead(cmd) case None => None case Some(r) => Some(r.operand)
  }

  // ----- segments -----

  function AndChainSegments(command: string): seq<string> {
    if Unprovable(command) then [Trim(command)] else Split(command, "&&")
  }

  predicate IsEchoLiteral(c: char) {
    '0' <= c <= '9' || 'a' <= c <= 'z' || 'A' <= c <= 'Z' || c in "._/-:,+@%"
  }

  predicate IsInertEcho(link: string) {
    var ws := Words(link);
    ws != [] && ws[0] == "echo" && forall w :: w in ws[1..] ==> forall c :: c in w ==> IsEchoLiteral(c)
  }

  /** The file a link reads, when it is a vetted read of one. */
  function ReadOperand(link: string): Option<string> {
    match CommandReadRange(link)
    case Some(r) => Some(r.operand)
    case None => match WholeFileRead(link) case None => None case Some(r) => Some(r.operand)
  }

  predicate HasListOperator(link: string) { Contains(link, "&&") || Contains(link, "||") }

  /** At least two links, each an inert echo or a read of `op`, none with a list operator, the
      last one a read. `read`, `inert` and `joined` are the judgements of one link. */
  predicate OneFileOnly(links: seq<string>, op: string, read: string -> Option<string>,
                        inert: string -> bool, joined: string -> bool)
  {
    && |links| >= 2
    && read(links[|links| - 1]) == Some(op)
    && forall l :: l in links ==> !joined(l) && (read(l) == Some(op) || (read(l).None? && inert(l)))
  }

  predicate ReadsOnly(links: seq<string>, op: string) {
    OneFileOnly(links, op, ReadOperand, IsInertEcho, HasListOperator)
  }

  function SequenceOfReads(cmd: string): Option<seq<string>> {
    var links := SplitEach(Split(cmd, ";"), "\n");
    if Unprovable(cmd) || |links| < 2 then None
    else match ReadOperand(links[|links| - 1])
    case None => None
    case Some(op) => if ReadsOnly(links, op) then Some(links) else None
  }

  method SplitLinks(cmd: string) returns (links: seq<string>)
    ensures links == SplitEach(Split(cmd, ";"), "\n")
  {
    var outer := SplitUnquoted(cmd, ";");
    links := FlattenSplit(outer);
  }

  method FlattenSplit(outer: seq<string>) returns (links: seq<string>)
    ensures links == SplitEach(outer, "\n")
  {
    links := [];
    var i := 0;
    while i < |outer|
      invariant 0 <= i <= |outer|
      invariant links == SplitEach(outer[..i], "\n")
    {
      var inner := SplitUnquoted(outer[i], "\n");
      SplitEachStep(outer, i, "\n");
      links := links + inner;
      i := i + 1;
    }
    assert outer[..|outer|] == outer;
  }

  lemma SplitEachStep(ls: seq<string>, i: nat, sep: string)
    requires i < |ls|
    ensures SplitEach(ls[..i + 1], sep) == SplitEach(ls[..i], sep) + Split(ls[i], sep)
  {
    SplitEachSnoc(ls[..i], ls[i], sep);
    assert ls[..i + 1] == ls[..i] + [ls[i]];
  }

  lemma SplitEachSnoc(ls: seq<string>, l: string, sep: string)
    ensures SplitEach(ls + [l], sep) == SplitEach(ls, sep) + Split(l, sep)
  {
    SplitEachAppend(ls, [l], sep);
    SplitEachCons(l, [], sep);
    assert [l] + [] == [l];
  }

  /** The loop of `sequence_of_reads`: one operand, carried from link to link. */
  method JudgeLinks(links: seq<string>, read: string -> Option<string>, inert: string -> bool, joined: string -> bool)
      returns (accepted: bool)
    requires |links| >= 2
    ensures accepted <==> exists op: string :: OneFileOnly(links, op, read, inert, joined)
  {
    var operand: Option<string> := None;
    var lastIsRead := false;
    var i := 0;
    while i < |links|
      invariant 0 <= i <= |links|
      invariant forall k :: 0 <= k < i ==>
                  !joined(links[k]) && if read(links[k]).Some? then read(links[k]) == operand else inert(links[k])
      invariant operand.Some? <==> exists k :: 0 <= k < i && read(links[k]).Some?
      invariant lastIsRead <==> i > 0 && read(links[i - 1]).Some?
    {
      var link := links[i];
      assert link in links;
      if joined(link) { return false; }
      var r := read(link);
      if r.Some? {
        if operand.Some? && operand != r {
          ghost var k :| 0 <= k < i && read(links[k]).Some?;
          assert links[k] in links;
          return false;
        }
        operand := r;
        lastIsRead := true;
      } else if inert(link) {
        lastIsRead := false;
      } else {
        return false;
      }
      i := i + 1;
    }
    if lastIsRead {
      assert OneFileOnly(links, operand.value, read, inert, joined);
    }
    accepted := lastIsRead;
  }

  method FindSequenceOfReads(cmd: string) returns (accepted: Option<seq<string>>)
    ensures accepted == SequenceOfReads(cmd)
  {
    var refused := ChainLinksAreUnprovable(cmd);
    if refused { return None; }
    var links := SplitLinks(cmd);
    if |links| < 2 { return None; }
    var ok := JudgeLinks(links, ReadOperand, IsInertEcho, HasListOperator);
    accepted := if ok then Some(links) else None;
  }

  function ReadSegments(command: string): seq<string> {
    var cmd := Unwrap(Trim(command));
    match SequenceOfReads(cmd)
    case Some(links) => links
    case None => AndChainSegments(cmd)
  }

  // ----- the classifier -----

  const READERS: set<string> := {
    "cat", "head", "tail", "nl", "bat", "od", "xxd", "strings", "cut", "pr", "zcat", "more", "less"}

  predicate IsInPlaceFlag(tok: string) { ("-i" <= tok && Utf8Len(tok) <= 4) || "--in-place" <= tok }

  predicate SegmentReadsFileContents(command: string) {
    || CommandReadRange(command).Some?
    || (var cmd := Unwrap(Trim(command));
        var ws := Words(cmd);
        && !HasAny(cmd, {';', '|', '&', '>'})
        && ws != []
        && (forall w :: w in ws[1..] ==> !IsInPlaceFlag(w))
        && BaseName(ws[0]) in READERS)
  }

  predicate CommandReadsFileContents(command: string) {
    exists l :: l in ReadSegments(command) && SegmentReadsFileContents(l)
  }

  lemma {:induction false} OperandsAre(args: seq<string>)
    ensures forall a :: a in Operands(args) <==> a in args && !IsFlag(a)
  {
    if args == [] {
    } else {
      OperandsAre(args[..|args| - 1]);
      assert args == args[..|args| - 1] + [args[|args| - 1]];
    }
  }

  lemma ReaderFlagsAreNotInPlace(base: string, tok: string)
    requires FlagKeepsLines(base, tok)
    ensures !IsInPlaceFlag(tok)
  {
    if IsWidthFlag(tok) { assert tok[1] == 'w'; }
  }

  lemma ReaderIsListed(toks: seq<string>)
    requires ReaderOf(toks).Some?
    ensures BaseName(toks[0]) in READERS
    ensures forall w :: w in toks[1..] ==> !IsInPlaceFlag(w)
  {
    forall w | w in toks[1..] ensures !IsInPlaceFlag(w) {
      if IsFlag(w) { ReaderFlagsAreNotInPlace(BaseName(toks[0]), w); }
    }
  }

  lemma HasAnyMore(s: string, a: set<char>, b: set<char>)
    requires a <= b && !HasAny(s, b)
    ensures !HasAny(s, a)
  {
  }

  lemma WholeReadIsAReader(segment: string)
    requires WholeFileRead(segment).Some?
    ensures SegmentReadsFileContents(segment)
  {
    var cmd := Unwrap(Trim(segment));
    HasAnyMore(cmd, {';', '|', '&', '>'}, NOT_ONE_READ);
    ReaderIsListed(Words(cmd));
  }

  /** The classifier never hides a credited read: a command any segment of which yields a whole
      read or a window is kept as a file read. */
  lemma ClassifierKeepsCredits(command: string, segment: string)
    requires segment in ReadSegments(command)
    requires WholeFileRead(segment).Some? || CommandReadRange(segment).Some?
    ensures CommandReadsFileContents(command)
  {
    if WholeFileRead(segment).Some? { WholeReadIsAReader(segment); }
    assert SegmentReadsFileContents(segment);
  }

  lemma ShellsEndInH(base: string)
    requires base in SHELLS
    ensures base != [] && base[|base| - 1] == 'h'
  {
  }

  lemma ShellNames(base: string)
    requires base in SHELLS
    ensures base !in READERS && base != "cat" && base != "nl" && base != "sed"
  {
    ShellsEndInH(base);
    assert forall r :: r in READERS ==> r[|r| - 1] != 'h';
  }

  lemma ShellIsNotAReader(cmd: string)
    requires ShellCScript(cmd).Some?
    ensures Words(cmd) != [] && BaseName(Words(cmd)[0]) !in READERS
    ensures ReaderOf(Words(cmd)).None?
  {
    var base := BaseName(Words(cmd)[0]);
    ShellNames(base);
  }

  /** `whole_file_read_operand` unwraps twice and the classifier once, so the operand it names is
      hidden from the classifier exactly when the text is still a wrapped shell after one unwrap. */
  lemma OperandHiddenExactly(segment: string)
    requires WholeFileReadOperand(segment).Some?
    ensures SegmentReadsFileContents(segment) <==> ShellCScript(Trim(Unwrap(Trim(segment)))).None?
  {
    var cmd := Unwrap(Trim(segment));
    WordsTrim(cmd);
    if ShellCScript(Trim(cmd)).Some? {
      ShellIsNotAReader(Trim(cmd));
    } else {
      assert WholeFileRead(segment).Some?;
      WholeReadIsAReader(segment);
    }
  }
}
