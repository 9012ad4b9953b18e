/** What is credited, exactly: the commands the parsers take for a whole read, for a window or for a
    read of either kind, as the texts that render one; and the sequences and chains of them. */
module CreditExact {
  import opened Text
  import opened Positions
  import opened ShellSplit
  import opened ReadParser
  import opened ReadShapes
  import opened JoinedLinks

  // ----- two stages -----

  lemma {:induction false} IndexOfBar(x: string, y: string)
    requires '|' !in x
    ensures IndexOf(x + ("|" + y), '|') == |x|
  {
    var s := x + ("|" + y);
    if x == [] {
      assert s[0] == '|';
    } else {
      assert s[0] == x[0] && s[1..] == x[1..] + ("|" + y);
      IndexOfBar(x[1..], y);
    }
  }

  lemma OneStageExactly(t: string)
    ensures '|' !in t ==> SplitOn(t, '|') == [t]
    ensures '|' in t ==> |SplitOn(t, '|')| > 1
  {
    if '|' !in t { assert IndexOf(t, '|') == |t|; }
  }

  lemma SplitAtBar(x: string, y: string)
    requires '|' !in x && '|' !in y
    ensures SplitOn(x + ("|" + y), '|') == [x, y]
  {
    var s := x + ("|" + y);
    IndexOfBar(x, y);
    assert s[..|x|] == x && s[|x| + 1..] == y;
    OneStageExactly(y);
  }

  lemma TwoStages(t: string) returns (a: string, b: string)
    requires |SplitOn(t, '|')| == 2
    ensures SplitOn(t, '|') == [a, b] && t == a + ("|" + b) && '|' !in a && '|' !in b
  {
    var i := IndexOf(t, '|');
    a, b := t[..i], t[i + 1..];
    assert t == a + ("|" + b);
    OneStageExactly(b);
  }

  // ----- windows -----

  /** A read of a window: `sed` on a file, a reader cut by `sed`, or `sed` on a file numbered by `nl`. */
  datatype Read =
    | Window(file: FileCut)
    | ReadCut(reader: Reader, cut: Cut)
    | CutNumbered(file: FileCut, nl: Numbering)
  {
    ghost predicate Valid() {
      match this
      case Window(file) => file.Valid()
      case ReadCut(reader, cut) => reader.Valid() && cut.Valid()
      case CutNumbered(file, nl) => file.Valid() && nl.Valid(file.cut.script.Window().start)
    }
    function Path(): string { if ReadCut? then reader.path else file.path }
    function Range(): LineRange { if ReadCut? then cut.script.Window() else file.cut.script.Window() }
    function Adds(): Decoration {
      match this
      case Window(_) => Decoration(None, false, false)
      case ReadCut(reader, _) => reader.Adds()
      case CutNumbered(_, nl) => nl.Adds()
    }
    predicate ViaNl() { CutNumbered? || (ReadCut? && reader.NlReader?) }
    function Credit(): RangedRead { RangedRead(Range(), Path(), ViaNl(), Adds()) }
  }

  /** The two texts around the one bar. */
  predicate IsPiped(t: string, a: string, b: string) { t == a + ("|" + b) && '|' !in a && '|' !in b }

  /** The text's words, stage by stage, are those of the read. */
  ghost predicate Writes(t: string, read: Read) {
    match read
    case Window(file) => '|' !in t && Words(t) == file.Tokens()
    case ReadCut(reader, cut) =>
      exists a, b :: IsPiped(t, a, b) && Words(a) == reader.Tokens() && Words(b) == cut.Tokens()
    case CutNumbered(file, nl) =>
      exists a, b :: IsPiped(t, a, b) && Words(a) == file.Tokens() && Words(b) == nl.Tokens()
  }

  /** No separator, redirection, backquote or command substitution, and no `||`. */
  predicate IsCleanPipe(t: string) {
    && t != "" && (forall c :: c in t ==> c !in [';', '&', '>', '<', '`'])
    && !Contains(t, "||") && !Contains(t, "$(") && !Contains(t, "$'")
  }

  lemma CleanIsNotRefused(t: string)
    ensures IsCleanPipe(t) <==> !RefusedForRange(t)
  {
  }

  lemma StageTrims(s: string, first: nat)
    ensures Words(Trim(s)) == Words(s) && SedWithOperand(Trim(s)) == SedWithOperand(s)
    ensures SedFilter(Trim(s)) == SedFilter(s) && NlFilter(Trim(s), first) == NlFilter(s, first)
  {
    WordsTrim(s);
  }

  lemma SedTokensAreNoReader(s: string, file: FileCut)
    requires file.Valid() && Words(s) == file.Tokens()
    ensures ReaderOf(Words(s)).None?
  {
    CutTokens(file.cut);
    assert Words(s)[0] == file.cut.Tokens()[0];
  }

  lemma ReaderIsAccepted(r: Reader)
    requires r.Valid()
    ensures ReaderOf(r.Tokens()) == Some(WholeRead(r.path, r.NlReader?, r.Adds()))
  {
    if r.CatReader? { CatAccepted(r); } else { NlAccepted(r); }
  }

  lemma PipeAccepted(a: string, b: string, read: Read)
    requires read.Valid() && !read.Window?
    requires read.ReadCut? ==> Words(a) == read.reader.Tokens() && Words(b) == read.cut.Tokens()
    requires read.CutNumbered? ==> Words(a) == read.file.Tokens() && Words(b) == read.nl.Tokens()
    ensures PipelineRange(Trim(a), Trim(b)) == Some(read.Credit())
  {
    StageTrims(a, 0);
    StageTrims(b, read.Range().start);
    match read
    case ReadCut(reader, cut) =>
      ReaderIsAccepted(reader);
      CutAccepted(b, cut);
    case CutNumbered(file, nl) =>
      SedTokensAreNoReader(a, file);
      FileCutAccepted(a, file);
      NumberingAccepted(b, file.cut.script.Window().start, nl);
  }

  lemma RangeOfPiped(command: string, t: string, a: string, b: string)
    requires t == Unwrap(Trim(command)) && !RefusedForRange(t) && SplitOn(t, '|') == [a, b]
    ensures CommandReadRange(command) == PipelineRange(Trim(a), Trim(b))
  {
  }

  lemma RangeOfOne(command: string, t: string)
    requires t == Unwrap(Trim(command)) && !RefusedForRange(t) && SplitOn(t, '|') == [t]
    ensures CommandReadRange(command)
         == match SedWithOperand(Trim(t)) case None => None case Some((r, op)) => Some(RangedRead(r, op, false, PLAIN))
  {
  }

  lemma PipeIsCredited(command: string, t: string, a: string, b: string, read: Read)
    requires t == Unwrap(Trim(command)) && IsCleanPipe(t) && IsPiped(t, a, b) && read.Valid() && !read.Window?
    requires read.ReadCut? ==> Words(a) == read.reader.Tokens() && Words(b) == read.cut.Tokens()
    requires read.CutNumbered? ==> Words(a) == read.file.Tokens() && Words(b) == read.nl.Tokens()
    ensures CommandReadRange(command) == Some(read.Credit())
  {
    CleanIsNotRefused(t);
    SplitAtBar(a, b);
    RangeOfPiped(command, t, a, b);
    PipeAccepted(a, b, read);
  }

  lemma CutIsCredited(command: string, t: string, file: FileCut)
    requires t == Unwrap(Trim(command)) && IsCleanPipe(t) && '|' !in t && file.Valid() && Words(t) == file.Tokens()
    ensures CommandReadRange(command) == Some(Window(file).Credit())
  {
    CleanIsNotRefused(t);
    OneStageExactly(t);
    RangeOfOne(command, t);
    StageTrims(t, 0);
    FileCutAccepted(t, file);
  }

  /** A clean text that writes a read of a window is credited with it. */
  lemma WindowAccepted(command: string, t: string, read: Read)
    requires t == Unwrap(Trim(command)) && IsCleanPipe(t) && read.Valid() && Writes(t, read)
    ensures CommandReadRange(command) == Some(read.Credit())
  {
    match read
    case Window(file) => CutIsCredited(command, t, file);
    case ReadCut(reader, cut) =>
      var a, b :| IsPiped(t, a, b) && Words(a) == reader.Tokens() && Words(b) == cut.Tokens();
      PipeIsCredited(command, t, a, b, read);
    case CutNumbered(file, nl) =>
      var a, b :| IsPiped(t, a, b) && Words(a) == file.Tokens() && Words(b) == nl.Tokens();
      PipeIsCredited(command, t, a, b, read);
  }

  lemma PipeShape(t: string, a: string, b: string) returns (read: Read)
    requires IsPiped(t, a, b) && PipelineRange(Trim(a), Trim(b)).Some?
    ensures read.Valid() && !read.Window? && Writes(t, read)
  {
    StageTrims(a, 0);
    StageTrims(b, 0);
    if ReaderOf(Words(a)).Some? {
      var reader := ReaderShape(Words(a));
      var cut := CutShape(b);
      read := ReadCut(reader, cut);
      assert IsPiped(t, a, b) && Words(a) == reader.Tokens() && Words(b) == cut.Tokens();
    } else {
      var file := FileCutShape(a);
      FileCutAccepted(a, file);
      StageTrims(b, file.cut.script.Window().start);
      var nl := NumberingShape(b, file.cut.script.Window().start);
      read := CutNumbered(file, nl);
      assert IsPiped(t, a, b) && Words(a) == file.Tokens() && Words(b) == nl.Tokens();
    }
  }

  lemma WindowShape(command: string, t: string) returns (read: Read)
    requires t == Unwrap(Trim(command)) && CommandReadRange(command).Some?
    ensures IsCleanPipe(t) && read.Valid() && Writes(t, read)
  {
    CleanIsNotRefused(t);
    OneStageExactly(t);
    if '|' in t {
      var a, b := TwoStages(t);
      read := PipeShape(t, a, b);
    } else {
      StageTrims(t, 0);
      var file := FileCutShape(t);
      read := Window(file);
    }
  }

  /** Which commands are credited with a window, and with which: exactly those whose text, out of its
      wrapper, is clean and writes a read of one, credited with its file, its window and what its reader
      or its numbering adds. */
  lemma WindowExactly(command: string, credit: RangedRead)
    ensures CommandReadRange(command) == Some(credit)
            <==> IsCleanPipe(Unwrap(Trim(command)))
                 && exists read: Read :: read.Valid() && Writes(Unwrap(Trim(command)), read) && credit == read.Credit()
  {
    var t := Unwrap(Trim(command));
    if CommandReadRange(command) == Some(credit) {
      var read := WindowShape(command, t);
      WindowAccepted(command, t, read);
    }
    if IsCleanPipe(t) {
      forall read: Read | read.Valid() && Writes(t, read) ensures CommandReadRange(command) == Some(read.Credit()) {
        WindowAccepted(command, t, read);
      }
    }
  }

  // ----- whole reads -----

  /** No pipe, redirection, comment, separator, expansion or grouping. */
  predicate IsCleanRead(t: string) {
    forall c :: c in t ==> c !in ['|', '<', '>', '#', ';', '&', '`', '$', '(', ')']
  }

  lemma CleanReadIsOne(t: string)
    ensures IsCleanRead(t) <==> !HasAny(t, NOT_ONE_READ)
  {
  }

  lemma ReaderIsNoWindow(command: string, t: string)
    requires t == Unwrap(Trim(command)) && '|' !in t && ReaderOf(Words(t)).Some?
    ensures CommandReadRange(command).None?
  {
    OneStageExactly(t);
    StageTrims(t, 0);
    AcceptedArgs(Words(t));
  }

  /** Which commands are credited with a whole file: exactly those whose text, out of its wrapper, is
      clean and has the words of a reader, credited with its file and what its flags add. */
  lemma WholeExactly(command: string, credit: WholeRead)
    ensures WholeFileRead(command) == Some(credit)
            <==> IsCleanRead(Unwrap(Trim(command)))
                 && exists r: Reader :: r.Valid() && Words(Unwrap(Trim(command))) == r.Tokens()
                                        && credit == WholeRead(r.path, r.NlReader?, r.Adds())
  {
    var t := Unwrap(Trim(command));
    CleanReadIsOne(t);
    ReaderExactly(Words(t), credit);
    if IsCleanRead(t) && ReaderOf(Words(t)).Some? { ReaderIsNoWindow(command, t); }
  }

  // ----- the file a link reads -----

  /** The link is credited with a window of the file, or with the whole of it. */
  ghost predicate ReadsFile(link: string, path: string) {
    var t := Unwrap(Trim(link));
    || (IsCleanPipe(t) && exists read: Read :: read.Valid() && Writes(t, read) && read.Path() == path)
    || (IsCleanRead(t) && exists r: Reader :: r.Valid() && Words(t) == r.Tokens() && r.path == path)
  }

  lemma ReadsFileExactly(link: string, path: string)
    ensures ReadOperand(link) == Some(path) <==> ReadsFile(link, path)
  {
    var t := Unwrap(Trim(link));
    if IsCleanPipe(t) {
      forall read: Read | read.Valid() && Writes(t, read) ensures CommandReadRange(link) == Some(read.Credit()) {
        WindowAccepted(link, t, read);
      }
    }
    if IsCleanRead(t) {
      forall r: Reader | r.Valid() && Words(t) == r.Tokens()
        ensures WholeFileRead(link) == Some(WholeRead(r.path, r.NlReader?, r.Adds())) && CommandReadRange(link).None?
      {
        WholeExactly(link, WholeRead(r.path, r.NlReader?, r.Adds()));
      }
    }
    if CommandReadRange(link).Some? {
      WindowExactly(link, CommandReadRange(link).value);
    } else if WholeFileRead(link).Some? {
      WholeExactly(link, WholeFileRead(link).value);
    }
  }

  /** `echo` and words of letters, digits and `._/-:,+@%`. */
  predicate IsPlainEcho(link: string) {
    var ws := Words(link);
    && ws != [] && ws[0] == "echo"
    && forall w :: w in ws[1..] ==> forall c :: c in w ==>
         'a' <= c <= 'z' || 'A' <= c <= 'Z' || '0' <= c <= '9' || c in ['.', '_', '/', '-', ':', ',', '+', '@', '%']
  }

  lemma PlainEchoExactly(link: string)
    ensures IsInertEcho(link) <==> IsPlainEcho(link)
  {
    forall c: char
      ensures IsEchoLiteral(c)
              <==> 'a' <= c <= 'z' || 'A' <= c <= 'Z' || '0' <= c <= '9'
                   || c in ['.', '_', '/', '-', ':', ',', '+', '@', '%']
    {
    }
  }

  // ----- links -----

  function FullPieces(ps: seq<string>): (qs: seq<nat>) { Pick(|ps|, (q: nat) => q < |ps| && Trim(ps[q]) != "") }

  /** The links are the pieces trimmed, in order, the empty ones left out. */
  predicate AreLinks(links: seq<string>, ps: seq<string>) {
    var qs := FullPieces(ps);
    |links| == |qs| && forall i :: 0 <= i < |qs| ==> qs[i] < |ps| && links[i] == Trim(ps[qs[i]])
  }

  lemma FullSnoc(front: seq<string>, p: string)
    ensures FullPieces(front + [p]) == FullPieces(front) + if Trim(p) != "" then [|front|] else []
  {
    var more := front + [p];
    PickSame(|front|, (q: nat) => q < |front| && Trim(front[q]) != "", (q: nat) => q < |more| && Trim(more[q]) != "");
  }

  lemma LinksSnoc(links: seq<string>, front: seq<string>, p: string)
    requires AreLinks(links, front)
    ensures AreLinks(links + Kept(p), front + [p])
  {
    FullSnoc(front, p);
  }

  lemma {:induction false} LinksExactly(ps: seq<string>)
    ensures AreLinks(NonEmpty(ps), ps)
  {
    if ps == [] {
    } else {
      var n := |ps| - 1;
      LinksExactly(ps[..n]);
      LinksSnoc(NonEmpty(ps[..n]), ps[..n], ps[n]);
      NonEmptySnoc(ps[..n], ps[n]);
      assert ps == ps[..n] + [ps[n]];
    }
  }

  lemma LinksUnique(a: seq<string>, b: seq<string>, ps: seq<string>)
    requires AreLinks(a, ps) && AreLinks(b, ps)
    ensures a == b
  {
  }

  // ----- sequences -----

  /** The text is these pieces, joined by semicolons and newlines; each closes its quotes and holds
      neither outside them. */
  ghost predicate IsSequence(text: string, ps: seq<string>) {
    && (forall p :: p in ps ==> IsPieceOf(SEQUENCE, p))
    && exists js: seq<char> :: (forall c :: c in js ==> IsSequenceSep(c)) && |ps| == |js| + 1 && Joined(ps, js) == text
  }

  /** Every link reads this one file or is a plain echo that reads none, and the last one reads it;
      none has a list operator anywhere. */
  ghost predicate AllOfOneFile(links: seq<string>, path: string) {
    && |links| >= 2 && ReadsFile(links[|links| - 1], path)
    && forall l :: l in links ==>
         && !Contains(l, "&&") && !Contains(l, "||")
         && (ReadsFile(l, path) || (IsPlainEcho(l) && forall p :: !ReadsFile(l, p)))
  }

  lemma OneFileExactly(links: seq<string>, path: string)
    ensures ReadsOnly(links, path) <==> AllOfOneFile(links, path)
  {
    forall l ensures ReadOperand(l) == Some(path) <==> ReadsFile(l, path) { ReadsFileExactly(l, path); }
    forall l, p ensures ReadOperand(l) == Some(p) <==> ReadsFile(l, p) { ReadsFileExactly(l, p); }
    forall l ensures IsInertEcho(l) <==> IsPlainEcho(l) { PlainEchoExactly(l); }
    forall l ensures ReadOperand(l).None? <==> forall p :: !ReadsFile(l, p) {
      if ReadOperand(l).Some? { assert ReadsFile(l, ReadOperand(l).value); }
    }
  }

  lemma OpenIsOneLink(cmd: string)
    requires !Balanced(cmd)
    ensures |SplitEach(Split(cmd, ";"), "\n")| <= 1
  {
    TrimKeepsOpen(cmd);
    SplitEachCons(Trim(cmd), [], "\n");
    assert [Trim(cmd)] + [] == [Trim(cmd)];
  }

  lemma TrimKeepsOpen(cmd: string)
    requires !Balanced(cmd)
    ensures !Balanced(Trim(cmd))
  {
    QuoteAfterTrimStart(cmd);
    TrimEndQuotes(TrimStart(cmd));
  }

  lemma {:induction false} TrimEndQuotes(s: string)
    ensures QuoteAfter(TrimEnd(s), None) == QuoteAfter(s, None)
  {
    if s != [] && IsSpace(s[|s| - 1]) {
      TrimEndQuotes(s[..|s| - 1]);
      QuoteAfterAppendSpace(s[..|s| - 1], s[|s| - 1], None);
      assert s == s[..|s| - 1] + [s[|s| - 1]];
    }
  }

  ghost predicate IsSequenceOf(cmd: string, links: seq<string>) {
    exists ps :: IsSequence(cmd, ps) && AreLinks(links, ps)
  }

  lemma SequencePieces(cmd: string, qs: seq<string>)
    requires Balanced(cmd)
    ensures IsSequence(cmd, qs) <==> qs == Pieces(SEQUENCE, cmd, None)
  {
    SplitExactly(cmd, qs);
  }

  lemma SequenceHasLinks(cmd: string, links: seq<string>)
    requires Balanced(cmd)
    ensures IsSequenceOf(cmd, links) <==> links == SplitEach(Split(cmd, ";"), "\n")
  {
    var ps := Pieces(SEQUENCE, cmd, None);
    SequenceLinks(cmd);
    LinksExactly(ps);
    SequencePieces(cmd, ps);
    if IsSequenceOf(cmd, links) {
      var qs :| IsSequence(cmd, qs) && AreLinks(links, qs);
      SequencePieces(cmd, qs);
      LinksUnique(links, NonEmpty(ps), ps);
    }
  }

  ghost predicate SomeFile(links: seq<string>) { exists path :: AllOfOneFile(links, path) }

  ghost predicate SomeOperand(links: seq<string>) { exists op :: ReadsOnly(links, op) }

  lemma SameFile(links: seq<string>)
    ensures SomeFile(links) <==> SomeOperand(links)
  {
    forall path ensures ReadsOnly(links, path) <==> AllOfOneFile(links, path) { OneFileExactly(links, path); }
  }

  lemma SequenceIs(cmd: string, links: seq<string>)
    ensures SequenceOfReads(cmd) == Some(links)
            <==> !Unprovable(cmd) && links == SplitEach(Split(cmd, ";"), "\n") && |links| >= 2 && SomeOperand(links)
  {
    if |links| >= 2 {
      forall op | ReadsOnly(links, op) ensures ReadOperand(links[|links| - 1]) == Some(op) { }
    }
  }

  lemma FileNeedsTwo(links: seq<string>)
    ensures SomeFile(links) ==> |links| >= 2
  {
  }

  /** Which commands are sequences of reads, and of which links: exactly those the guard passes that are
      pieces joined by semicolons or newlines, two or more of them not blank, all of one file. */
  lemma SequenceExactly(cmd: string, links: seq<string>)
    ensures SequenceOfReads(cmd) == Some(links)
            <==> !Unprovable(cmd) && Balanced(cmd) && IsSequenceOf(cmd, links) && SomeFile(links)
  {
    SequenceIs(cmd, links);
    SameFile(links);
    FileNeedsTwo(links);
    if Balanced(cmd) { SequenceHasLinks(cmd, links); } else { OpenIsOneLink(cmd); }
  }

  // ----- segments -----

  lemma SeparatorFree(t: string)
    requires Uncut(SEQUENCE, t, None)
    ensures |SplitEach(Split(t, ";"), "\n")| <= 1
  {
    if Balanced(t) {
      SequenceLinks(t);
      UncutIsOnePiece(SEQUENCE, t, None);
      NonEmptyCons(t, []);
      assert [t] + [] == [t];
    } else {
      OpenIsOneLink(t);
    }
  }

  /** The command's text, out of its wrapper, is these pieces joined by `&&`; the guard passes it, and it
      is no sequence. */
  ghost predicate IsPassedJoin(command: string, ps: seq<string>) {
    && ps != [] && Unwrap(Trim(command)) == Rejoin(ps, "&&") && (forall p :: p in ps ==> IsChainPiece(p))
    && !Unprovable(Rejoin(ps, "&&")) && Uncut(SEQUENCE, Rejoin(ps, "&&"), None)
  }

  /** The segments of a command that is a chain the guard passes: the links joined, whatever they are. */
  lemma ChainExactly(command: string, ps: seq<string>)
    requires IsPassedJoin(command, ps)
    ensures AreLinks(ReadSegments(command), ps)
  {
    var t := Rejoin(ps, "&&");
    ChainSplits(ps);
    SeparatorFree(t);
    LinksExactly(ps);
  }

  /** The segments of a command that is a sequence of reads: its links. */
  lemma SequenceSegments(command: string, links: seq<string>)
    requires var t := Unwrap(Trim(command));
             !Unprovable(t) && Balanced(t) && IsSequenceOf(t, links) && SomeFile(links)
    ensures ReadSegments(command) == links
  {
    SequenceExactly(Unwrap(Trim(command)), links);
  }

  // ----- reads as they are typed -----

  /** The 25 white-space characters of Unicode. */
  const WHITE_SPACE: string :=
    "\t\n\U{000B}\U{000C}\r \U{0085}\U{00A0}\U{1680}\U{2000}\U{2001}\U{2002}\U{2003}\U{2004}\U{2005}\U{2006}"
    + "\U{2007}\U{2008}\U{2009}\U{200A}\U{2028}\U{2029}\U{202F}\U{205F}\U{3000}"

  lemma SpacesExactly(c: char)
    ensures IsSpace(c) <==> c in WHITE_SPACE
  {
  }

  predicate IsBlankRun(gap: string) { gap != [] && forall c :: c in gap ==> c in WHITE_SPACE }

  predicate IsWord(t: string) { t != [] && forall c :: c in t ==> c !in WHITE_SPACE }

  lemma BlankRunExactly(gap: string)
    ensures IsBlankRun(gap) <==> gap != [] && forall c :: c in gap ==> IsSpace(c)
  {
    forall c ensures IsSpace(c) <==> c in WHITE_SPACE { SpacesExactly(c); }
  }

  lemma WordExactly(t: string)
    ensures IsWord(t) <==> t != [] && NoSpace(t)
  {
    forall c ensures IsSpace(c) <==> c in WHITE_SPACE { SpacesExactly(c); }
  }

  /** Words with whitespace between them. */
  function Typed(toks: seq<string>, gaps: seq<string>): string
    requires |toks| == |gaps| + 1
  {
    if gaps == [] then toks[0] else toks[0] + (gaps[0] + Typed(toks[1..], gaps[1..]))
  }

  /** The text is these words, spaced out. */
  ghost predicate IsTyped(text: string, toks: seq<string>) {
    exists gaps: seq<string> ::
      (forall g :: g in gaps ==> IsBlankRun(g)) && |toks| == |gaps| + 1 && text == Typed(toks, gaps)
  }

  predicate AreWords(toks: seq<string>) { toks != [] && forall t :: t in toks ==> IsWord(t) }

  lemma {:induction false} WordLenThen(w: string, rest: string)
    requires NoSpace(w) && (rest == [] || IsSpace(rest[0]))
    ensures WordLen(w + rest) == |w|
  {
    if w == [] {
      assert w + rest == rest;
    } else {
      assert w[0] in w && (w + rest)[0] == w[0] && (w + rest)[1..] == w[1..] + rest;
      WordLenThen(w[1..], rest);
    }
  }

  lemma WordsOfOne(w: string, rest: string)
    requires w != [] && NoSpace(w) && (rest == [] || IsSpace(rest[0]))
    ensures Words(w + rest) == [w] + Words(rest)
  {
    WordLenThen(w, rest);
    assert w[0] in w && (w + rest)[0] == w[0];
    assert (w + rest)[..|w|] == w && (w + rest)[|w|..] == rest;
  }

  lemma {:induction false} WordsSkip(gap: string, rest: string)
    requires forall c :: c in gap ==> IsSpace(c)
    ensures Words(gap + rest) == Words(rest)
  {
    if gap == [] {
      assert gap + rest == rest;
    } else {
      assert gap[0] in gap && (gap + rest)[0] == gap[0] && (gap + rest)[1..] == gap[1..] + rest;
      WordsSkip(gap[1..], rest);
    }
  }

  predicate StartsAndEndsInWords(s: string) { s != [] && !IsSpace(s[0]) && !IsSpace(s[|s| - 1]) }

  lemma TypedOne(w: string)
    requires w != [] && NoSpace(w)
    ensures Words(w) == [w] && StartsAndEndsInWords(w)
  {
    assert w + [] == w && w[0] in w && w[|w| - 1] in w;
    WordsOfOne(w, []);
  }

  lemma TypedMore(w: string, gap: string, rest: string, s: string)
    requires w != [] && NoSpace(w) && IsBlankRun(gap) && StartsAndEndsInWords(rest) && s == w + (gap + rest)
    ensures Words(s) == [w] + Words(rest) && StartsAndEndsInWords(s)
  {
    BlankRunExactly(gap);
    assert gap[0] in gap && w[0] in w;
    WordsOfOne(w, gap + rest);
    WordsSkip(gap, rest);
    assert s[0] == w[0] && s[|s| - 1] == rest[|rest| - 1];
  }

  lemma {:induction false} TypedWords(toks: seq<string>, gaps: seq<string>)
    requires AreWords(toks) && |toks| == |gaps| + 1 && forall g :: g in gaps ==> IsBlankRun(g)
    ensures Words(Typed(toks, gaps)) == toks && StartsAndEndsInWords(Typed(toks, gaps))
  {
    assert toks[0] in toks;
    WordExactly(toks[0]);
    if gaps == [] {
      TypedOne(toks[0]);
    } else {
      var rest := Typed(toks[1..], gaps[1..]);
      assert gaps[0] in gaps && (forall t :: t in toks[1..] ==> t in toks) && forall g :: g in gaps[1..] ==> g in gaps;
      TypedWords(toks[1..], gaps[1..]);
      TypedMore(toks[0], gaps[0], rest, Typed(toks, gaps));
    }
  }

  lemma TypedIs(text: string, toks: seq<string>)
    requires IsTyped(text, toks) && AreWords(toks)
    ensures Words(text) == toks && Trim(text) == text && text != []
  {
    var gaps: seq<string> :|
      (forall g :: g in gaps ==> IsBlankRun(g)) && |toks| == |gaps| + 1 && text == Typed(toks, gaps);
    TypedWords(toks, gaps);
  }

  /** A command that starts with a reader's or `sed`'s name is in no wrapper. */
  lemma NoWrapper(text: string)
    requires Words(text) != [] && BaseName(Words(text)[0]) in {"cat", "nl", "sed"}
    ensures Unwrap(text) == text
  {
    if ShellCScript(text).Some? { ShellNames(BaseName(Words(text)[0])); }
  }

  lemma ReaderProgram(r: Reader)
    requires r.Valid()
    ensures r.Tokens() != [] && BaseName(r.Tokens()[0]) in {"cat", "nl"}
  {
    NamesExactly(r.prog, "cat");
    NamesExactly(r.prog, "nl");
  }

  /** Every `cat` and every `nl`, with any list of its portable flags around one file, typed with any
      spaces: credited with the whole of that file and with what its flags add. */
  lemma TypedReadIsCredited(text: string, r: Reader)
    requires r.Valid() && AreWords(r.Tokens()) && IsTyped(text, r.Tokens()) && IsCleanRead(text)
    ensures WholeFileRead(text) == Some(WholeRead(r.path, r.NlReader?, r.Adds())) && ReadsFile(text, r.path)
  {
    TypedIs(text, r.Tokens());
    ReaderProgram(r);
    NoWrapper(text);
    WholeExactly(text, WholeRead(r.path, r.NlReader?, r.Adds()));
  }

  /** Every `sed -n` of one window on one file. */
  lemma TypedCutIsCredited(text: string, file: FileCut)
    requires file.Valid() && AreWords(file.Tokens()) && IsTyped(text, file.Tokens())
    requires IsCleanPipe(text) && '|' !in text
    ensures CommandReadRange(text) == Some(Window(file).Credit()) && ReadsFile(text, file.path)
  {
    TypedIs(text, file.Tokens());
    CutTokens(file.cut);
    assert file.Tokens()[0] == file.cut.Tokens()[0];
    NoWrapper(text);
    CutIsCredited(text, text, file);
    assert Window(file).Valid() && Writes(text, Window(file)) && Window(file).Path() == file.path;
  }

  /** The words on both sides of a pipeline's bar. */
  predicate AreStages(read: Read, a: seq<string>, b: seq<string>) {
    match read
    case Window(_) => false
    case ReadCut(reader, cut) => a == reader.Tokens() && b == cut.Tokens()
    case CutNumbered(file, nl) => a == file.Tokens() && b == nl.Tokens()
  }

  lemma StageProgram(read: Read, a: seq<string>, b: seq<string>)
    requires read.Valid() && AreStages(read, a, b)
    ensures a != [] && BaseName(a[0]) in {"cat", "nl", "sed"}
  {
    match read
    case ReadCut(reader, cut) => ReaderProgram(reader);
    case CutNumbered(file, nl) =>
      CutTokens(file.cut);
      assert a[0] == file.cut.Tokens()[0];
  }

  /** Where a space parts two texts, so do their words. */
  lemma {:induction false} WordsJoin(a: string, y: string)
    requires y != [] && IsSpace(y[0])
    ensures Words(a + y) == Words(a) + Words(y)
    decreases |a|
  {
    var s := a + y;
    if a == [] {
      assert s == y;
    } else if IsSpace(a[0]) {
      assert s[0] == a[0] && s[1..] == a[1..] + y;
      WordsJoin(a[1..], y);
    } else {
      var n := WordLen(a);
      assert a == a[..n] + a[n..] && s == a[..n] + (a[n..] + y);
      assert a[0] == a[..n][0];
      WordsOfOne(a[..n], a[n..] + y);
      WordsOfOne(a[..n], a[n..]);
      WordsJoin(a[n..], y);
    }
  }

  lemma PipeStarts(a: string, b: string, text: string)
    requires text == (a + " ") + ("|" + (" " + b)) && Words(a) != []
    ensures Words(text) != [] && Words(text)[0] == Words(a)[0]
  {
    var y := " " + ("|" + (" " + b));
    assert text == a + y;
    WordsJoin(a, y);
  }

  lemma TypedEnds(a: string, b: string, text: string)
    requires a != [] && b != [] && Trim(a) == a && Trim(b) == b && text == (a + " ") + ("|" + (" " + b))
    ensures Trim(text) == text && Words(a + " ") == Words(a) && Words(" " + b) == Words(b)
  {
    assert text[0] == a[0] && text[|text| - 1] == b[|b| - 1];
    assert (a + " ")[..|a|] == a;
    assert (" " + b)[1..] == b;
    WordsTrim(a + " ");
    WordsTrim(" " + b);
  }

  lemma StagesOf(read: Read, a: string, b: string, left: seq<string>, right: seq<string>)
    requires AreStages(read, left, right) && Words(a) == left && Words(b) == right
    ensures !read.Window?
    ensures read.ReadCut? ==> Words(a) == read.reader.Tokens() && Words(b) == read.cut.Tokens()
    ensures read.CutNumbered? ==> Words(a) == read.file.Tokens() && Words(b) == read.nl.Tokens()
  {
  }

  lemma PipeReads(t: string, a: string, b: string, read: Read, left: seq<string>, right: seq<string>)
    requires Trim(t) == t && Unwrap(t) == t && IsCleanPipe(t) && IsPiped(t, a, b) && read.Valid()
    requires AreStages(read, left, right) && Words(a) == left && Words(b) == right
    ensures CommandReadRange(t) == Some(read.Credit()) && ReadsFile(t, read.Path())
  {
    StagesOf(read, a, b, left, right);
    PipeIsCredited(t, t, a, b, read);
    assert Writes(t, read);
  }

  /** Every reader cut by a `sed -n` window, and every such window on a file numbered by `nl`, typed
      with any spaces. */
  lemma TypedPipeIsCredited(text: string, read: Read, a: string, b: string, left: seq<string>, right: seq<string>)
    requires read.Valid() && AreStages(read, left, right) && AreWords(left) && AreWords(right)
    requires IsTyped(a, left) && IsTyped(b, right) && text == (a + " ") + ("|" + (" " + b))
    requires '|' !in a && '|' !in b && IsCleanPipe(text)
    ensures CommandReadRange(text) == Some(read.Credit()) && ReadsFile(text, read.Path())
  {
    TypedIs(a, left);
    TypedIs(b, right);
    TypedEnds(a, b, text);
    StageProgram(read, left, right);
    PipeStarts(a, b, text);
    NoWrapper(text);
    PipeReads(text, a + " ", " " + b, read, left, right);
  }

  lemma LinkIsThere(links: seq<string>, ps: seq<string>, i: nat)
    requires AreLinks(links, ps) && i < |ps| && Trim(ps[i]) != ""
    ensures Trim(ps[i]) in links
  {
    var qs := FullPieces(ps);
    assert i in qs;
    var k :| 0 <= k < |qs| && qs[k] == i;
    assert links[k] == Trim(ps[i]);
  }

  /** Every link of a chain the guard passes is a segment, so a read in it is credited as it is alone. */
  lemma ChainCredits(command: string, ps: seq<string>, i: nat) returns (links: seq<string>)
    requires IsPassedJoin(command, ps) && i < |ps| && Trim(ps[i]) != ""
    ensures links == ReadSegments(command) && Trim(ps[i]) in links
  {
    ChainExactly(command, ps);
    links := ReadSegments(command);
    LinkIsThere(links, ps, i);
  }

  // ----- the classifier -----

  /** A program whose output is its file's contents, by any path. */
  predicate IsReaderName(prog: string) {
    exists base ::
      base in ["cat", "head", "tail", "nl", "bat", "od", "xxd", "strings", "cut", "pr", "zcat", "more", "less"]
                   && Names(prog, base)
  }

  lemma ReaderNameExactly(prog: string)
    ensures BaseName(prog) in READERS <==> IsReaderName(prog)
  {
    var bases := ["cat", "head", "tail", "nl", "bat", "od", "xxd", "strings", "cut", "pr", "zcat", "more", "less"];
    forall base | base in bases ensures BaseName(prog) == base <==> Names(prog, base) { NamesExactly(prog, base); }
    assert forall base :: base in bases <==> base in READERS;
    if IsReaderName(prog) {
      var base :| base in bases && Names(prog, base);
      assert BaseName(prog) == base;
    }
  }

  /** Which segments the classifier takes for file reads: exactly those credited with a window, and
      those with no separator, pipe or output redirection whose program is a listed reader and none of
      whose words is an in-place flag; so no pipeline but such a window, no chain and no redirection. */
  lemma ClassifierExactly(segment: string)
    ensures SegmentReadsFileContents(segment)
            <==> var t := Unwrap(Trim(segment));
                 || (IsCleanPipe(t) && exists read: Read :: read.Valid() && Writes(t, read))
                 || (&& (forall c :: c in t ==> c !in [';', '|', '&', '>'])
                     && Words(t) != [] && IsReaderName(Words(t)[0])
                     && forall w :: w in Words(t)[1..] ==>
                          !("--in-place" <= w) && !("-i" <= w && Utf8Len(w) <= 4))
  {
    var t := Unwrap(Trim(segment));
    if CommandReadRange(segment).Some? { WindowExactly(segment, CommandReadRange(segment).value); }
    if IsCleanPipe(t) {
      forall read: Read | read.Valid() && Writes(t, read) ensures CommandReadRange(segment) == Some(read.Credit()) {
        WindowAccepted(segment, t, read);
      }
    }
    if Words(t) != [] { ReaderNameExactly(Words(t)[0]); }
    assert HasAny(t, {';', '|', '&', '>'}) <==> !(forall c :: c in t ==> c !in [';', '|', '&', '>']);
  }
}
