/** The two soundness theorems of the shell-read analyser: for AND chains, and for sequences of
    reads of one file. */
module ReadTheorems {
  import opened Text
  import opened ShellSplit
  import opened ReadParser
  import opened ShellSemantics
  import opened Delivery
  import opened ReadSoundness
  import opened GuardExact
  import opened GuardEscape
  import opened ShellWrapper

  // ----- what a link is credited, and what that depends on -----

  datatype Credit = Credit(path: string, range: LineRange)

  /** The file, and the window of it, that the parsers credit a link with. */
  function CreditOf(link: string): Option<Credit> {
    match CommandReadRange(link)
    case Some(r) => Some(Credit(r.operand, r.range))
    case None => match WholeFileRead(link) case Some(r) => Some(Credit(r.operand, WHOLE)) case None => None
  }

  /** A window's script that `sed` accepts; a whole read has none. */
  predicate ScriptIsValid(link: string) {
    CommandReadRange(link).Some? ==> !StartsWithSign(ScriptToken(link))
  }

  /** `sed` reads the file itself, before any `nl`. */
  predicate SedReads(link: string) { SedWithOperand(SplitOn(Unwrap(link), '|')[0]).Some? }

  /** The file has no logical-page delimiter where the link's `nl`, if it has one, would change the
      lines of the window: in it, or before it where `nl` prints nothing for one. */
  predicate Clear(blanks: bool, link: string, file: seq<string>) {
    match CommandReadRange(link)
    case Some(r) =>
      !r.viaNl || if SedReads(link) then DelimiterFree(file, r.range) else KeepsPlace(file, r.range, blanks)
    case None =>
      WholeFileRead(link).Some? && WholeFileRead(link).value.viaNl ==> DelimiterFree(file, WHOLE)
  }

  /** What was shown of the credited file bears the credit out exactly when the file is clear. */
  ghost predicate IsEvidence(blanks: bool, link: string, s: Shown)
    requires CreditOf(link).Some?
  {
    var c := CreditOf(link).value;
    s.path == c.path && (Delivers(s, c.range) <==> Clear(blanks, link, s.file))
  }

  /** The link changes nothing; it shows the credited file exactly when that is readable and `sed`
      accepts its script; and, unless it is a pipeline, it succeeds in exactly that case. */
  ghost predicate RunsAsCredited(w: World, link: string, st: State)
    requires CreditOf(link).Some?
  {
    var c, o := CreditOf(link).value, ExecLink(w, link, st);
    var shows := c.path in st.files && ScriptIsValid(link);
    && RanQuietly(o, link, st)
    && (NotPiped(link) ==> (o.status == 0 <==> shows))
    && (var shown := o.trace[0].shown;
        if shows then |shown| == 1 && shown[0].file == st.files[c.path] && IsEvidence(w.blanks, link, shown[0])
        else shown == [])
  }

  // ----- links and their scripts -----

  /** The text the parsers judge: the link, or the script of its shell call, trimmed. */
  function Script(link: string): string { Trim(Unwrap(link)) }

  lemma ScriptIsPlain(link: string)
    requires PlainLink(link) && NotPiped(link)
    ensures PlainStage(Script(link)) && Words(Script(link)) == Words(Unwrap(link))
    ensures Unwrap(link) == link ==> Script(link) == link
  {
    WordsTrim(Unwrap(link));
    if Unwrap(link) == link {
      NoBarIsOneStage(link);
      assert link in SplitOn(link, '|');
    } else {
      TrimPlain(Unwrap(link));
    }
  }

  lemma NoBarIsOneStage(s: string)
    requires '|' !in s
    ensures SplitOn(s, '|') == [s]
  {
    assert IndexOf(s, '|') == |s|;
  }

  /** A plain link that is not a pipeline does what its script does, under its own name. */
  lemma RunsItsScript(w: World, link: string, st: State, u: UtilityRun)
    requires st.intact && PlainLink(link) && NotPiped(link)
    requires ExecLink(w, Script(link), st) == Ran(Script(link), st, u)
    ensures ExecLink(w, link, st) == Ran(link, st, u)
  {
    ScriptIsPlain(link);
    if Unwrap(link) != link {
      RunWrapped(w, link, Unwrap(link), st);
    }
  }

  lemma RangeOfUnpiped(link: string)
    requires Trim(link) == link && NotPiped(link) && CommandReadRange(link).Some?
    ensures var r := CommandReadRange(link).value; SedWithOperand(Unwrap(link)) == Some((r.range, r.operand))
  {
    NoBarIsOneStage(Unwrap(link));
    StageTrim(Unwrap(link));
  }

  /** For plain links what the operand parser names, unwrapping twice, is the credited whole file. */
  lemma PlainOperandIsCredited(link: string)
    requires PlainLink(link) && WholeFileReadOperand(link).Some?
    ensures CreditOf(link) == Some(Credit(WholeFileReadOperand(link).value, WHOLE))
  {
    var u := Unwrap(link);
    WordsTrim(u);
    OperandOf(link, u);
  }

  lemma OperandOf(link: string, u: string)
    requires Trim(link) == link && u == Unwrap(link) && Unwrap(Trim(u)) == Trim(u) && Words(Trim(u)) == Words(u)
    requires WholeFileReadOperand(link).Some?
    ensures CommandReadRange(link).None? && WholeFileRead(link).Some?
    ensures WholeFileRead(link).value.operand == WholeFileReadOperand(link).value
  {
    OperandFromScript(link, u);
    WholeOfScript(u);
  }

  lemma OperandFromScript(link: string, u: string)
    requires Trim(link) == link && u == Unwrap(link) && WholeFileReadOperand(link).Some?
    ensures CommandReadRange(link).None? && WholeFileRead(link) == ReaderOf(Words(u))
    ensures WholeFileRead(u).Some? && WholeFileRead(u).value.operand == WholeFileReadOperand(link).value
  {
  }

  lemma WholeOfScript(u: string)
    requires Unwrap(Trim(u)) == Trim(u) && Words(Trim(u)) == Words(u) && WholeFileRead(u).Some?
    ensures WholeFileRead(u) == ReaderOf(Words(u))
  {
  }

  // ----- one credited link, run -----

  lemma WholeEvidence(blanks: bool, link: string, read: WholeRead, files: Files)
    requires CommandReadRange(link).None? && WholeFileRead(link) == Some(read) && read.operand in files
    ensures var shown := WholeShown(read, files, blanks);
            |shown| == 1 && shown[0].file == files[read.operand] && IsEvidence(blanks, link, shown[0])
  {
    if read.viaNl {
      NlDeliversExactly(read.operand, files[read.operand], blanks);
    } else {
      CatDelivers(read.operand, files[read.operand]);
    }
  }

  /** A credited whole read, run. */
  lemma RunWhole(w: World, link: string, st: State)
    requires st.intact && PlainLink(link) && CommandReadRange(link).None? && WholeFileRead(link).Some?
    ensures NotPiped(link) && RunsAsCredited(w, link, st)
  {
    assert '|' in NOT_ONE_READ;
    var s, read := Script(link), WholeFileRead(link).value;
    ScriptIsPlain(link);
    RunReader(w, s, st);
    RunsItsScript(w, link, st, WholeRun(read, st.files, w.blanks));
    if read.operand in st.files { WholeEvidence(w.blanks, link, read, st.files); }
  }

  lemma SedScriptToken(link: string)
    requires NotPiped(link) && SedWithOperand(Unwrap(link)).Some?
    ensures ScriptToken(link) == Words(Unwrap(link))[2]
  {
    NoBarIsOneStage(Unwrap(link));
  }

  lemma WindowEvidence(blanks: bool, link: string, r: RangedRead, m: SedMeaning, files: Files)
    requires CommandReadRange(link) == Some(r) && !r.viaNl && m.Prints? && Covers(m.window, r.range)
    requires r.operand in files
    ensures var shown := SedShown(m, r.operand, files);
            |shown| == 1 && shown[0].file == files[r.operand] && IsEvidence(blanks, link, shown[0])
  {
    SedDelivers(r.operand, files[r.operand], m.window, r.range);
  }

  /** A credited bare window, run. */
  lemma RunWindow(w: World, link: string, st: State)
    requires st.intact && PlainLink(link) && NotPiped(link) && CommandReadRange(link).Some?
    ensures RunsAsCredited(w, link, st)
  {
    RangeOfUnpiped(link);
    UnpipedIsNotNumbered(link);
    var s, r := Script(link), CommandReadRange(link).value;
    ScriptIsPlain(link);
    var token := Words(s)[2];
    var m := SedMeaningOf(StripQuotes(token));
    SedScriptToken(link);
    SedAgrees(token);
    RunSed(w, s, st);
    var shown := SedShown(m, r.operand, st.files);
    RunsItsScript(w, link, st, UtilityRun(if shown == [] then 1 else 0, shown));
    if m.Prints? && r.operand in st.files { WindowEvidence(w.blanks, link, r, m, st.files); }
  }

  lemma UnpipedIsNotNumbered(link: string)
    requires NotPiped(link) && Trim(link) == link && CommandReadRange(link).Some?
    ensures !CommandReadRange(link).value.viaNl
  {
    NoBarIsOneStage(Unwrap(link));
  }

  lemma PipedStages(link: string)
    requires PlainLink(link) && !NotPiped(link) && CommandReadRange(link).Some?
    ensures Unwrap(link) == link && |SplitOn(link, '|')| == 2
    ensures var stages := SplitOn(link, '|');
            CommandReadRange(link) == PipelineRange(Trim(stages[0]), Trim(stages[1]))
  {
    if |SplitOn(link, '|')| == 1 { OneStage(link); }
  }

  lemma FilterEvidence(blanks: bool, link: string, read: WholeRead, r: RangedRead, m: SedMeaning, files: Files)
    requires CommandReadRange(link) == Some(r) && r.operand == read.operand && r.viaNl == read.viaNl && !SedReads(link)
    requires m.Prints? && Covers(m.window, r.range) && m.window.start == r.range.start && Proper(r.range)
    requires r.operand in files
    ensures var shown := FilterShown(read, m, files, blanks);
            |shown| == 1 && shown[0].file == files[r.operand] && IsEvidence(blanks, link, shown[0])
  {
    var file := files[r.operand];
    if !read.viaNl {
      SedDelivers(r.operand, file, m.window, r.range);
    } else if blanks {
      BlankWindowDelivers(r.operand, file, m.window, r.range);
      NothingPastTheEnd(file, r.range);
    } else {
      DroppedWindowDelivers(r.operand, file, m.window, r.range);
    }
  }

  lemma NothingPastTheEnd(file: seq<string>, r: LineRange)
    ensures |file| < r.start ==> DelimiterFree(file, r)
  {
  }

  lemma SedFirstEvidence(blanks: bool, link: string, r: RangedRead, m: SedMeaning, files: Files)
    requires CommandReadRange(link) == Some(r) && r.viaNl && SedReads(link)
    requires m.Prints? && Covers(m.window, r.range) && r.operand in files
    ensures var shown := SedPipeShown(m, r.operand, files, blanks);
            |shown| == 1 && shown[0].file == files[r.operand] && IsEvidence(blanks, link, shown[0])
  {
    SedNlDeliversExactly(r.operand, files[r.operand], m.window, r.range, blanks);
  }

  /** A credited pipeline, run: its status is its filter's, so it says nothing of the reader. */
  lemma RunPiped(w: World, link: string, st: State)
    requires st.intact && PlainLink(link) && !NotPiped(link) && CommandReadRange(link).Some?
    ensures RunsAsCredited(w, link, st)
  {
    var stages := SplitOn(link, '|');
    PipedStages(link);
    var a, b := stages[0], stages[1];
    assert stages == [a, b] && a in stages && b in stages;
    StageTrim(a);
    StageTrim(b);
    if ReaderOf(Words(a)).Some? {
      ReaderIsNotSed(a);
      RunFilter(w, link, st, a, b);
    } else {
      RunNumbered(w, link, st, a, b);
    }
  }

  /** The parser's reading of a link of two stages. */
  predicate IsPipe(link: string, a: string, b: string) {
    && Unwrap(link) == link && SplitOn(link, '|') == [a, b] && PlainStage(a) && PlainStage(b) && '|' in link
    && CommandReadRange(link) == PipelineRange(Trim(a), Trim(b)) && CommandReadRange(link).Some?
    && Words(Trim(a)) == Words(a) && Words(Trim(b)) == Words(b) && SedWithOperand(Trim(a)) == SedWithOperand(a)
  }

  lemma RunFilter(w: World, link: string, st: State, a: string, b: string)
    requires st.intact && IsPipe(link, a, b) && ReaderOf(Words(a)).Some? && SedWithOperand(a).None?
    ensures RunsAsCredited(w, link, st)
  {
    var read, r := ReaderOf(Words(a)).value, CommandReadRange(link).value;
    var token := Words(b)[2];
    var m := SedMeaningOf(StripQuotes(token));
    assert ScriptToken(link) == token && !SedReads(link);
    SedAgrees(token);
    RunReaderPipe(w, link, st, a, b);
    if m.Prints? && r.operand in st.files { FilterEvidence(w.blanks, link, read, r, m, st.files); }
  }

  lemma RunNumbered(w: World, link: string, st: State, a: string, b: string)
    requires st.intact && IsPipe(link, a, b) && ReaderOf(Words(a)).None?
    ensures RunsAsCredited(w, link, st)
  {
    var r := CommandReadRange(link).value;
    var token := Words(a)[2];
    var m := SedMeaningOf(StripQuotes(token));
    assert ScriptToken(link) == token && SedReads(link);
    SedAgrees(token);
    RunSedPipe(w, link, st, a, b);
    if m.Prints? && r.operand in st.files { SedFirstEvidence(w.blanks, link, r, m, st.files); }
  }

  /** The status of a credited pipeline: zero, whatever its reader found, unless its last stage is a
      `sed` that rejects its script. */
  lemma PipedStatus(w: World, link: string, st: State)
    requires st.intact && PlainLink(link) && !NotPiped(link) && CommandReadRange(link).Some?
    ensures ExecLink(w, link, st).status == 0 <==> SedReads(link) || ScriptIsValid(link)
  {
    var stages := SplitOn(link, '|');
    PipedStages(link);
    var a, b := stages[0], stages[1];
    assert stages == [a, b] && a in stages && b in stages;
    StageTrim(a);
    StageTrim(b);
    if ReaderOf(Words(a)).Some? {
      ReaderIsNotSed(a);
      FilterStatus(w, link, st, a, b);
    } else {
      NumberedStatus(w, link, st, a, b);
    }
  }

  lemma FilterStatus(w: World, link: string, st: State, a: string, b: string)
    requires st.intact && IsPipe(link, a, b) && ReaderOf(Words(a)).Some? && SedWithOperand(a).None?
    ensures ExecLink(w, link, st).status == 0 <==> SedReads(link) || ScriptIsValid(link)
  {
    var token := Words(b)[2];
    assert ScriptToken(link) == token && !SedReads(link);
    SedAgrees(token);
    RunReaderPipe(w, link, st, a, b);
  }

  lemma NumberedStatus(w: World, link: string, st: State, a: string, b: string)
    requires st.intact && IsPipe(link, a, b) && ReaderOf(Words(a)).None?
    ensures ExecLink(w, link, st).status == 0 && SedReads(link)
  {
    RunSedPipe(w, link, st, a, b);
  }

  /** Every credited plain link runs as credited. */
  lemma RunCredited(w: World, link: string, st: State)
    requires st.intact && PlainLink(link) && CreditOf(link).Some?
    ensures RunsAsCredited(w, link, st)
  {
    if CommandReadRange(link).None? {
      RunWhole(w, link, st);
    } else if NotPiped(link) {
      RunWindow(w, link, st);
    } else {
      RunPiped(w, link, st);
    }
  }

  // ----- AND chains -----

  /** From an intact shell, each of the first `j` links leaves the shell intact and running; and
      every link leaves one record. */
  ghost predicate KeepsShell(run: Runner, links: seq<string>, j: nat)
    requires CanRun(run, links)
  {
    && (forall k: nat, st: State :: k < j && k < |links| && st.intact ==>
          (assert links[k] in links; var o := run(links[k], st); !o.exited && o.state.intact))
    && (forall l: string, st: State :: l in links ==>
          var o := run(l, st); |o.trace| == 1 && o.trace[0].before == st.files)
  }

  /** The `k`th link of the chain ran, from the files its predecessors left, and succeeded. */
  ghost predicate RanAt(run: Runner, links: seq<string>, trace: seq<LinkRun>, k: nat)
    requires k < |links| && k < |trace| && CanRun(run, links)
  {
    assert links[k] in links;
    var o := run(links[k], State(trace[k].before, true));
    o.status == 0 && o.trace == [trace[k]]
  }

  lemma KeepsShellTail(run: Runner, links: seq<string>, j: nat)
    requires CanRun(run, links) && KeepsShell(run, links, j) && links != [] && j > 0
    ensures CanRun(run, links[1..]) && KeepsShell(run, links[1..], j - 1)
  {
    assert forall l :: l in links[1..] ==> l in links;
    forall k: nat, st: State | k < j - 1 && k < |links[1..]| && st.intact
      ensures !run(links[1..][k], st).exited && run(links[1..][k], st).state.intact
    {
      assert links[1..][k] == links[k + 1] && links[k + 1] in links;
      assert !run(links[k + 1], st).exited;
    }
  }

  lemma FirstRan(run: Runner, links: seq<string>, st: State, j: nat)
    requires CanRun(run, links) && KeepsShell(run, links, j) && st.intact && links != []
    ensures links[0] in links && |run(links[0], st).trace| == 1
    ensures State(run(links[0], st).trace[0].before, true) == st
    ensures j > 0 ==> !run(links[0], st).exited && run(links[0], st).state.intact
  {
    assert links[0] in links;
  }

  /** An AND-list that exits zero, and none of whose links before the `j`th can end the shell, ran
      every link up to the `j`th, and each of them succeeded. */
  lemma {:induction false} ZeroRanTo(run: Runner, links: seq<string>, st: State, j: nat)
    requires CanRun(run, links) && j < |links| && KeepsShell(run, links, j) && st.intact
    requires AndList(run, links, st).status == 0
    ensures var trace := AndList(run, links, st).trace;
            |trace| > j && forall k :: 0 <= k <= j ==> RanAt(run, links, trace, k)
    ensures j == |links| - 1 ==> |AndList(run, links, st).trace| == |links|
  {
    FirstRan(run, links, st, j);
    var o := run(links[0], st);
    assert o.trace == [o.trace[0]];
    var trace := AndList(run, links, st).trace;
    if j == 0 {
      assert trace[0] == o.trace[0];
    } else {
      var rest := links[1..];
      KeepsShellTail(run, links, j);
      ZeroRanTo(run, rest, o.state, j - 1);
      var tail := AndList(run, rest, o.state).trace;
      assert trace == o.trace + tail;
      forall k | 0 < k <= j ensures RanAt(run, links, trace, k) {
        assert RanAt(run, rest, tail, k - 1);
        assert links[k] == rest[k - 1] && trace[k] == tail[k - 1];
      }
    }
  }

  lemma OneListOnly(cmd: string)
    requires Balanced(cmd) && Uncut([";", "\n"], cmd, None)
    ensures SeqLists(cmd) == Kept(cmd) && |Kept(cmd)| <= 1
    ensures SplitEach(Split(cmd, ";"), "\n") == Kept(cmd)
  {
    SequenceLinks(cmd);
    UncutIsOnePiece([";", "\n"], cmd, None);
    NonEmptyCons(cmd, []);
    assert [cmd] + [] == [cmd];
  }

  /** The links of a command that is one AND-list. */
  function ChainLinks(cmd: string): seq<string> { NonEmpty(Pieces(["&&"], cmd, None)) }

  lemma ChainIsSplit(cmd: string)
    requires Balanced(cmd) && !Unprovable(cmd) && Uncut([";", "\n"], cmd, None)
    ensures SequenceOfReads(cmd).None? && AndChainSegments(cmd) == ChainLinks(cmd)
  {
    OneListOnly(cmd);
  }

  lemma EmptyChainRuns(w: World, cmd: string, st: State)
    requires Modelled(cmd) && SeqLists(cmd) == []
    ensures ExecText(w, cmd, st) == AndList(LinkRunner(w, |cmd|), [], st)
  {
    TextIsSequence(w, cmd, [], st);
  }

  lemma OneChainRuns(w: World, cmd: string, list: string, st: State)
    requires Modelled(cmd) && SeqLists(cmd) == [list] && |list| <= |cmd|
    ensures CanRun(LinkRunner(w, |cmd|), AndLinks(list))
    ensures ExecText(w, cmd, st) == AndList(LinkRunner(w, |cmd|), AndLinks(list), st)
  {
    TextIsSequence(w, cmd, [list], st);
    SequenceOfOne(ListRunner(w, |cmd|), list, st);
    ListRunnerIs(w, |cmd|, list, st);
  }

  lemma ChainRuns(w: World, cmd: string, st: State)
    requires Modelled(cmd) && Uncut([";", "\n"], cmd, None)
    ensures forall l :: l in ChainLinks(cmd) ==> |l| <= |cmd|
    ensures CanRun(LinkRunner(w, |cmd|), ChainLinks(cmd))
    ensures ExecText(w, cmd, st) == AndList(LinkRunner(w, |cmd|), ChainLinks(cmd), st)
  {
    OneListOnly(cmd);
    GuardSepsOk();
    TrimIsIgnored(["&&"], cmd);
    LinksAreShorter(["&&"], cmd);
    if Trim(cmd) == [] {
      NothingToRun(["&&"]);
      EmptyChainRuns(w, cmd, st);
    } else {
      assert AndLinks(Trim(cmd)) == ChainLinks(cmd);
      OneChainRuns(w, cmd, Trim(cmd), st);
    }
  }

  lemma NothingToRun(seps: seq<string>)
    ensures NonEmpty(Pieces(seps, [], None)) == []
  {
    NonEmptyCons([], []);
    var nothing: seq<string> := [[]];
    assert nothing + [] == nothing;
  }

  /** A text that is one AND-list the guard passes. */
  predicate IsPassedChain(cmd: string) { Modelled(cmd) && !Unprovable(cmd) && Uncut([";", "\n"], cmd, None) }

  /** None of the first `j` links evades the guard. */
  predicate NoneEvades(links: seq<string>, j: nat) { forall k :: 0 <= k < j && k < |links| ==> !Evades(links[k]) }

  lemma LinkSpaces(cmd: string, l: string)
    requires OnlyShellSpace(cmd) && l in ChainLinks(cmd)
    ensures OnlyShellSpace(l)
  {
    var p := KeptFrom(Pieces(["&&"], cmd, None), l);
    PieceChars(["&&"], cmd, None, p);
    TrimKeepsChars(p);
  }

  lemma {:induction false} PieceChars(seps: seq<string>, s: string, q: Option<char>, p: string)
    requires p in Pieces(seps, s, q)
    ensures forall c :: c in p ==> c in s
    decreases |s|
  {
    if s == [] {
    } else {
      if CutHere(seps, s, q) {
        var n := MatchLen(seps, s);
        if p != [] { PieceChars(seps, s[n..], None, p); }
      } else {
        var tail := Pieces(seps, s[1..], StepQuote(q, s[0]));
        assert s == [s[0]] + s[1..];
        if p == [s[0]] + tail[0] {
          PieceChars(seps, s[1..], StepQuote(q, s[0]), tail[0]);
        } else {
          PieceChars(seps, s[1..], StepQuote(q, s[0]), p);
        }
      }
    }
  }

  lemma ChainLinkExact(cmd: string, k: nat)
    requires IsPassedChain(cmd) && k < |ChainLinks(cmd)|
    ensures MayChange(ChainLinks(cmd)[k]) <==> Evades(ChainLinks(cmd)[k])
  {
    var l := ChainLinks(cmd)[k];
    PassedLink(cmd, l);
    LinkSpaces(cmd, l);
    GuardedLinkExact(l);
  }

  lemma OneRecord(w: World, link: string, st: State)
    requires st.intact
    ensures ExecLink(w, link, st).trace[0].link == link
    ensures ExecLink(w, link, st).trace[0].before == st.files
    ensures ExecLink(w, link, st).trace[0].status == ExecLink(w, link, st).status
  {
    if !MayChange(link) { LinkKeepsShell(w, link, st); }
  }

  lemma ChainKeepsShell(w: World, cmd: string, n: nat, j: nat)
    requires IsPassedChain(cmd) && AllShort(ChainLinks(cmd), n) && NoneEvades(ChainLinks(cmd), j)
    ensures CanRun(LinkRunner(w, n), ChainLinks(cmd)) && KeepsShell(LinkRunner(w, n), ChainLinks(cmd), j)
  {
    var links := ChainLinks(cmd);
    forall k: nat, st: State | k < j && k < |links| && st.intact
      ensures links[k] in links && !LinkRunner(w, n)(links[k], st).exited && LinkRunner(w, n)(links[k], st).state.intact
    {
      ChainLinkExact(cmd, k);
      LinkKeepsShell(w, links[k], st);
    }
    forall l: string, st: State | l in links
      ensures |LinkRunner(w, n)(l, st).trace| == 1 && LinkRunner(w, n)(l, st).trace[0].before == st.files
    {
      RecordsBefore(w, l, st);
    }
  }

  lemma RecordsBefore(w: World, link: string, st: State)
    ensures ExecLink(w, link, st).trace[0].before == st.files
  {
    if st.intact { OneRecord(w, link, st); }
  }

  /** The link shows the credited file: it is readable, and `sed` accepts the script. */
  predicate Shows(link: string, files: Files)
    requires CreditOf(link).Some?
  {
    CreditOf(link).value.path in files && ScriptIsValid(link)
  }

  /** The segment ran and succeeded; and a plain credited one showed its file, to the extent the
      file is clear, exactly when that was readable and `sed` accepts the script, which unless it is
      a pipeline was so. */
  ghost predicate SegmentIsTrue(blanks: bool, seg: string, run: LinkRun) {
    && run.link == seg && run.status == 0
    && (PlainLink(seg) && CreditOf(seg).Some? ==>
          && (NotPiped(seg) ==> Shows(seg, run.before))
          && if Shows(seg, run.before) then exists s :: s in run.shown && IsEvidence(blanks, seg, s)
             else run.shown == [])
  }

  lemma CreditedLinkShowed(w: World, link: string, run: LinkRun)
    requires var o := ExecLink(w, link, State(run.before, true)); o.status == 0 && o.trace[0] == run
    ensures SegmentIsTrue(w.blanks, link, run)
  {
    var st := State(run.before, true);
    OneRecord(w, link, st);
    if PlainLink(link) && CreditOf(link).Some? {
      RunCredited(w, link, st);
      if run.shown != [] { assert run.shown[0] in run.shown; }
    }
  }

  /** Every segment up to the `j`th ran and is borne out. */
  ghost predicate TrueTo(blanks: bool, segs: seq<string>, trace: seq<LinkRun>, j: nat) {
    |trace| > j && forall k :: 0 <= k <= j && k < |segs| ==> SegmentIsTrue(blanks, segs[k], trace[k])
  }

  /** AND-chain soundness, segment by segment: if a passed AND-list exits zero and no link before the
      `j`th segment evades the guard, every segment up to it ran and its credit is borne out,
      whatever any link did to the files. */
  lemma ChainRanSound(w: World, cmd: string, j: nat, files: Files)
    requires IsPassedChain(cmd) && j < |AndChainSegments(cmd)| && NoneEvades(AndChainSegments(cmd), j)
    requires ExecText(w, cmd, State(files, true)).status == 0
    ensures TrueTo(w.blanks, AndChainSegments(cmd), ExecText(w, cmd, State(files, true)).trace, j)
  {
    var st, links := State(files, true), ChainLinks(cmd);
    ChainIsSplit(cmd);
    ChainRuns(w, cmd, st);
    ChainKeepsShell(w, cmd, |cmd|, j);
    ZeroRanTo(LinkRunner(w, |cmd|), links, st, j);
    var trace := ExecText(w, cmd, st).trace;
    forall k | 0 <= k <= j ensures SegmentIsTrue(w.blanks, links[k], trace[k]) {
      assert RanAt(LinkRunner(w, |cmd|), links, trace, k);
      assert links[k] in links;
      CreditedLinkShowed(w, links[k], trace[k]);
    }
  }

  // ----- where the guard fails -----

  /** `run` passes over the link: it succeeds, changes nothing and leaves one record. */
  ghost predicate PassesOver(run: Runner, l: string, st: State)
    requires run.requires(l, st)
  {
    var o := run(l, st); o.status == 0 && !o.exited && o.state == st && |o.trace| == 1
  }

  /** A list whose first `k` links pass, and whose next ends the shell, stops there. */
  lemma {:induction false} StopsAt(run: Runner, links: seq<string>, st: State, k: nat)
    requires CanRun(run, links) && k < |links|
    requires forall i :: 0 <= i < k ==> (assert links[i] in links; PassesOver(run, links[i], st))
    requires links[k] in links && run(links[k], st).exited && |run(links[k], st).trace| == 1
    ensures var o := AndList(run, links, st);
            o.status == run(links[k], st).status && |o.trace| == k + 1 && o.trace[k] == run(links[k], st).trace[0]
  {
    if k == 0 {
    } else {
      assert links[0] in links && PassesOver(run, links[0], st);
      var rest := links[1..];
      forall l | l in rest ensures l in links { }
      forall i | 0 <= i < k - 1 ensures PassesOver(run, rest[i], st) {
        assert rest[i] == links[i + 1] && PassesOver(run, links[i + 1], st);
      }
      assert rest[k - 1] == links[k];
      StopsAt(run, rest, st, k - 1);
    }
  }

  lemma EscapePasses(cmd: string, i: nat, st: State)
    requires IsPassedChain(cmd) && i < |ChainLinks(cmd)|
    requires !Evades(ChainLinks(cmd)[i]) && CanSucceed(ChainLinks(cmd)[i])
    requires st.intact && Needs(ChainLinks(cmd)[i]) <= st.files.Keys && AllShort(ChainLinks(cmd), |cmd|)
    ensures ChainLinks(cmd)[i] in ChainLinks(cmd) && PassesOver(LinkRunner(ESCAPE, |cmd|), ChainLinks(cmd)[i], st)
  {
    var l := ChainLinks(cmd)[i];
    ChainLinkExact(cmd, i);
    LinkKeepsShell(ESCAPE, l, st);
    SucceedsInEscape(l, st);
  }

  lemma EscapeEnds(cmd: string, k: nat, st: State)
    requires IsPassedChain(cmd) && k < |ChainLinks(cmd)| && Evades(ChainLinks(cmd)[k])
    ensures ChainLinks(cmd)[k] in ChainLinks(cmd)
    ensures ExecLink(ESCAPE, ChainLinks(cmd)[k], st)
         == Outcome(0, st, true, [LinkRun(ChainLinks(cmd)[k], st.files, 0, [])])
  {
    ChainLinkExact(cmd, k);
  }

  /** The first link that evades the guard is the `k`th, and every link before it can succeed. */
  ghost predicate EscapesAt(links: seq<string>, k: nat) {
    k < |links| && Evades(links[k]) && NoneEvades(links, k) && forall i :: 0 <= i < k ==> CanSucceed(links[i])
  }

  /** Where the guard fails: such a chain exits zero, in some world and on all files with the names
      those links use, having run no link after the `k`th. */
  lemma EvadedAt(cmd: string, k: nat, files: Files)
    requires IsPassedChain(cmd) && EscapesAt(ChainLinks(cmd), k)
    requires forall i :: 0 <= i < k ==> Needs(ChainLinks(cmd)[i]) <= files.Keys
    ensures var o := ExecText(ESCAPE, cmd, State(files, true));
            o.status == 0 && |o.trace| == k + 1 && o.trace[k] == LinkRun(ChainLinks(cmd)[k], files, 0, [])
  {
    var st, links := State(files, true), ChainLinks(cmd);
    ChainRuns(ESCAPE, cmd, st);
    EscapeEnds(cmd, k, st);
    forall i | 0 <= i < k ensures links[i] in links && PassesOver(LinkRunner(ESCAPE, |cmd|), links[i], st) {
      EscapePasses(cmd, i, st);
    }
    StopsAt(LinkRunner(ESCAPE, |cmd|), links, st, k);
  }

  /** Files with every name the first `k` links use. */
  function NeededFiles(links: seq<string>, k: nat): (files: Files)
    requires k <= |links|
    ensures forall i :: 0 <= i < k ==> Needs(links[i]) <= files.Keys
  {
    AllEmpty(set i, x | 0 <= i < k && x in Needs(links[i]) :: x)
  }

  /** In every world and on all files, a zero exit means that segment `j` and those before it ran and
      are borne out. */
  ghost predicate AlwaysTrueTo(cmd: string, j: nat) {
    forall w: World, files: Files :: ExecText(w, cmd, State(files, true)).status == 0
      ==> TrueTo(w.blanks, AndChainSegments(cmd), ExecText(w, cmd, State(files, true)).trace, j)
  }

  /** A zero exit says that every link before the first evader can succeed. */
  lemma ZeroSaysCanSucceed(w: World, cmd: string, k: nat, files: Files)
    requires IsPassedChain(cmd) && k < |ChainLinks(cmd)| && NoneEvades(ChainLinks(cmd), k)
    requires ExecText(w, cmd, State(files, true)).status == 0
    ensures forall i :: 0 <= i < k ==> CanSucceed(ChainLinks(cmd)[i])
  {
    var st, links := State(files, true), ChainLinks(cmd);
    ChainRuns(w, cmd, st);
    ChainKeepsShell(w, cmd, |cmd|, k);
    ZeroRanTo(LinkRunner(w, |cmd|), links, st, k);
    var trace := ExecText(w, cmd, st).trace;
    forall i | 0 <= i < k ensures CanSucceed(links[i]) {
      assert RanAt(LinkRunner(w, |cmd|), links, trace, i);
      assert links[i] in links && ExecLink(w, links[i], State(trace[i].before, true)).status == 0;
    }
  }

  lemma {:induction false} FirstOf(bad: string -> bool, links: seq<string>, j: nat) returns (k: nat)
    requires j <= |links| && exists i :: 0 <= i < j && bad(links[i])
    ensures k < j && bad(links[k]) && forall i :: 0 <= i < k ==> !bad(links[i])
  {
    if i :| 0 <= i < j - 1 && bad(links[i]) { k := FirstOf(bad, links, j - 1); } else { k := j - 1; }
  }

  lemma FirstEvader(links: seq<string>, j: nat) returns (k: nat)
    requires j <= |links| && !NoneEvades(links, j)
    ensures k < j && Evades(links[k]) && NoneEvades(links, k)
  {
    k := FirstOf(Evades, links, j);
  }

  /** When the guard suffices for a segment: a zero exit bears segment `j` out, in every world,
      exactly when no link before it escapes, that is, evades the guard behind links that can all
      succeed. */
  lemma SegmentSoundExactly(cmd: string, j: nat)
    requires IsPassedChain(cmd) && j < |AndChainSegments(cmd)|
    ensures AlwaysTrueTo(cmd, j) <==> forall k :: 0 <= k < j ==> !EscapesAt(AndChainSegments(cmd), k)
  {
    ChainIsSplit(cmd);
    var links := ChainLinks(cmd);
    if k :| 0 <= k < j && EscapesAt(links, k) {
      EvadedAt(cmd, k, NeededFiles(links, k));
      assert !TrueTo(true, links, ExecText(ESCAPE, cmd, State(NeededFiles(links, k), true)).trace, j);
    } else {
      forall w: World, files: Files | ExecText(w, cmd, State(files, true)).status == 0
        ensures TrueTo(w.blanks, links, ExecText(w, cmd, State(files, true)).trace, j)
      {
        if !NoneEvades(links, j) {
          var k := FirstEvader(links, j);
          ZeroSaysCanSucceed(w, cmd, k, files);
          assert EscapesAt(links, k);
        }
        ChainRanSound(w, cmd, j, files);
      }
    }
  }

  // ----- sequences of reads -----

  lemma EchoIsNotWrapped(link: string)
    requires IsInertEcho(link)
    ensures Unwrap(link) == link
  {
    assert BaseName("echo") == "echo";
    NotAShell(Words(link)[0]);
  }

  lemma EchoHasNoBar(link: string)
    requires IsInertEcho(link)
    ensures '|' !in link
  {
    CharsAreInWords(link);
    assert !IsSpace('|') && !IsEchoLiteral('|') && '|' !in "echo";
    forall w | w in Words(link) ensures '|' !in w {
      assert w == "echo" || w in Words(link)[1..];
    }
  }

  lemma {:induction false} CharsAreInWords(s: string)
    ensures forall c :: c in s && !IsSpace(c) ==> exists w :: w in Words(s) && c in w
    decreases |s|
  {
    if s == [] {
    } else {
      if IsSpace(s[0]) {
        CharsAreInWords(s[1..]);
        assert s == [s[0]] + s[1..];
      } else {
        var n := WordLen(s);
        CharsAreInWords(s[n..]);
        assert s == s[..n] + s[n..];
        assert Words(s) == [s[..n]] + Words(s[n..]);
        forall c | c in s && !IsSpace(c) ensures exists w :: w in Words(s) && c in w {
          if c in s[..n] {
            assert s[..n] in Words(s);
          } else {
            var w :| w in Words(s[n..]) && c in w;
            assert w in Words(s);
          }
        }
      }
    }
  }

  lemma {:induction false} NoAndIsUncut(s: string, q: Option<char>)
    requires !Contains(s, "&&")
    ensures Uncut(["&&"], s, q)
  {
    if s == [] {
    } else {
      OneSeparator("&&", s);
      PrefixIsContained(s, "&&");
      forall i: nat | i <= |s[1..]| && HasAt(s[1..], "&&", i) ensures false {
        assert s[1..][i..i + 2] == s[i + 1..i + 1 + 2];
        assert HasAt(s, "&&", i + 1);
      }
      NoAndIsUncut(s[1..], StepQuote(q, s[0]));
    }
  }

  lemma PrefixIsContained(s: string, sub: string)
    ensures sub <= s ==> Contains(s, sub)
  {
    if sub <= s { assert s[0..|sub|] == sub && HasAt(s, sub, 0); }
  }

  /** Run from `st`, the link changes nothing and leaves the record `rec(link)`. */
  ghost predicate Records(run: Runner, link: string, st: State, rec: string -> LinkRun) {
    run.requires(link, st) && run(link, st) == Outcome(rec(link).status, st, false, [rec(link)])
  }

  ghost predicate AllRecorded(run: Runner, links: seq<string>, st: State, rec: string -> LinkRun) {
    forall l :: l in links ==> Records(run, l, st, rec)
  }

  function RecordsOf(links: seq<string>, rec: string -> LinkRun): (rs: seq<LinkRun>)
    ensures |rs| == |links| && forall k :: 0 <= k < |links| ==> rs[k] == rec(links[k])
  {
    if links == [] then [] else [rec(links[0])] + RecordsOf(links[1..], rec)
  }

  /** A sequence of links that change nothing: each runs from the files the first one found, and
      the status is the last one's. */
  lemma {:induction false} QuietSequence(run: Runner, links: seq<string>, st: State, rec: string -> LinkRun)
    requires links != [] && CanRun(run, links) && AllRecorded(run, links, st, rec)
    ensures Sequence(run, links, st) == Outcome(rec(links[|links| - 1]).status, st, false, RecordsOf(links, rec))
  {
    assert links[0] in links;
    if |links| > 1 {
      assert forall l :: l in links[1..] ==> l in links;
      QuietSequence(run, links[1..], st, rec);
    } else {
      assert links[1..] == [];
    }
  }

  /** The link changes nothing, and a credited one runs as credited. */
  ghost predicate RunsAsJudged(w: World, link: string, st: State) {
    RanQuietly(ExecLink(w, link, st), link, st) && (CreditOf(link).Some? ==> RunsAsCredited(w, link, st))
  }

  lemma EchoLink(w: World, link: string, st: State)
    requires st.intact && PlainLink(link) && CreditOf(link).None? && IsInertEcho(link)
    ensures RunsAsJudged(w, link, st)
  {
    EchoIsNotWrapped(link);
    EchoHasNoBar(link);
    NoBarIsOneStage(link);
    assert link in SplitOn(link, '|');
    RunEcho(w, link, st);
  }

  lemma OperandIsCredit(link: string)
    ensures ReadOperand(link) == match CreditOf(link) case Some(c) => Some(c.path) case None => None
  {
  }

  lemma LinkReads(w: World, link: string, st: State)
    requires st.intact && PlainLink(link) && (ReadOperand(link).Some? || IsInertEcho(link))
    ensures RunsAsJudged(w, link, st)
  {
    OperandIsCredit(link);
    if CreditOf(link).Some? {
      RunCredited(w, link, st);
    } else {
      EchoLink(w, link, st);
    }
  }

  lemma SequenceShape(cmd: string, links: seq<string>) returns (op: string)
    requires Balanced(cmd) && SequenceOfReads(cmd) == Some(links)
    ensures SeqLists(cmd) == links && links != [] && ReadsOnly(links, op) && AllShort(links, |cmd|)
  {
    SequenceLinks(cmd);
    op := ReadOperand(links[|links| - 1]).value;
  }

  lemma SingleAndLink(l: string)
    requires !HasListOperator(l) && Trim(l) == l && l != []
    ensures AndLinks(l) == [l]
  {
    NoAndIsUncut(l, None);
    OneLink(["&&"], l);
  }

  /** How the sequence parser judged a link that reads `op` or is an inert echo. */
  ghost predicate Judged(l: string, op: string) {
    !HasListOperator(l) && (ReadOperand(l) == Some(op) || (ReadOperand(l).None? && IsInertEcho(l)))
  }

  lemma JudgedLink(links: seq<string>, op: string, l: string)
    requires ReadsOnly(links, op) && l in links
    ensures Judged(l, op)
  {
  }

  lemma LinkIsQuiet(w: World, l: string, op: string, st: State)
    requires st.intact && PlainLink(l) && Judged(l, op)
    ensures AndLinks(l) == [l] && RanQuietly(ExecLink(w, l, st), l, st)
  {
    PlainIsNotEmpty(l);
    SingleAndLink(l);
    LinkReads(w, l, st);
  }

  lemma QuietOutcome(o: Outcome, l: string, st: State)
    requires RanQuietly(o, l, st)
    ensures o == Outcome(o.trace[0].status, st, false, [o.trace[0]])
  {
  }

  /** The link ran from `files`; and it showed what it is credited with, borne out exactly when the
      file is clear, unless `sed` rejects its script, when it showed nothing. */
  ghost predicate CreditIsTrue(blanks: bool, link: string, run: LinkRun, files: Files) {
    && run.link == link && run.before == files
    && (CreditOf(link).Some? ==>
          var path := CreditOf(link).value.path;
          if !ScriptIsValid(link) then run.shown == []
          else exists s :: s in run.shown && path in files && s.file == files[path] && IsEvidence(blanks, link, s))
  }

  lemma LinkCreditIsTrue(w: World, link: string, op: string, st: State)
    requires st.intact && PlainLink(link) && Judged(link, op)
    requires CreditOf(link).Some? && ScriptIsValid(link) ==> op in st.files
    ensures CreditIsTrue(w.blanks, link, ExecLink(w, link, st).trace[0], st.files)
  {
    LinkReads(w, link, st);
    OperandIsCredit(link);
    var shown := ExecLink(w, link, st).trace[0].shown;
    if CreditOf(link).Some? && ScriptIsValid(link) { assert shown[0] in shown; }
  }

  ghost predicate AllPlain(links: seq<string>) { forall l :: l in links ==> PlainLink(l) }

  lemma PlainIsNotEmpty(l: string)
    requires PlainLink(l)
    ensures l != []
  {
    assert SplitOn([], '|') == [[]];
    assert [] in SplitOn([], '|') && Words([]) == [];
  }

  predicate AllShort(links: seq<string>, n: nat) { forall l :: l in links ==> |l| <= n }

  ghost predicate AreTheRuns(w: World, links: seq<string>, st: State, rec: string -> LinkRun) {
    forall l :: l in links ==> rec(l) == ExecLink(w, l, st).trace[0]
  }

  /** `run` runs each one-link list of `links` as that link. */
  ghost predicate RunsLinks(w: World, run: Runner, links: seq<string>, st: State) {
    forall l :: l in links ==> run.requires(l, st) && (AndLinks(l) == [l] ==> run(l, st) == ExecLink(w, l, st))
  }

  ghost predicate AllCreditsTrue(blanks: bool, links: seq<string>, rec: string -> LinkRun, files: Files) {
    forall l :: l in links ==> CreditIsTrue(blanks, l, rec(l), files)
  }

  lemma QuietRecord(run: Runner, l: string, st: State, rec: string -> LinkRun, o: Outcome)
    requires RanQuietly(o, l, st) && rec(l) == o.trace[0] && run.requires(l, st) && run(l, st) == o
    ensures Records(run, l, st, rec)
  {
    QuietOutcome(o, l, st);
  }

  lemma AllQuiet(w: World, run: Runner, links: seq<string>, op: string, st: State, rec: string -> LinkRun)
    requires st.intact && ReadsOnly(links, op) && AllPlain(links)
    requires AreTheRuns(w, links, st, rec) && RunsLinks(w, run, links, st)
    ensures AllRecorded(run, links, st, rec)
  {
    forall l | l in links ensures Records(run, l, st, rec) {
      JudgedLink(links, op, l);
      LinkIsQuiet(w, l, op, st);
      QuietRecord(run, l, st, rec, ExecLink(w, l, st));
    }
  }

  /** Some credited link has a script that `sed` accepts, or none at all. */
  predicate AnyValid(links: seq<string>) { exists l :: l in links && CreditOf(l).Some? && ScriptIsValid(l) }

  lemma AllCredited(w: World, links: seq<string>, op: string, st: State, rec: string -> LinkRun)
    requires st.intact && ReadsOnly(links, op) && (AnyValid(links) ==> op in st.files)
    requires AllPlain(links) && AreTheRuns(w, links, st, rec)
    ensures AllCreditsTrue(w.blanks, links, rec, st.files)
  {
    forall l | l in links ensures CreditIsTrue(w.blanks, l, rec(l), st.files) {
      JudgedLink(links, op, l);
      LinkCreditIsTrue(w, l, op, st);
    }
  }

  /** The trace of a sequence tells the truth about every link. */
  ghost predicate TraceIsTrue(blanks: bool, links: seq<string>, trace: seq<LinkRun>, files: Files) {
    |trace| == |links| && forall k :: 0 <= k < |links| ==> CreditIsTrue(blanks, links[k], trace[k], files)
  }

  lemma CreditsInTrace(blanks: bool, links: seq<string>, trace: seq<LinkRun>, files: Files, rec: string -> LinkRun)
    requires |trace| == |links| && forall k :: 0 <= k < |links| ==> trace[k] == rec(links[k])
    requires AllCreditsTrue(blanks, links, rec, files)
    ensures TraceIsTrue(blanks, links, trace, files)
  {
    forall k | 0 <= k < |links| ensures CreditIsTrue(blanks, links[k], trace[k], files) {
      assert links[k] in links;
    }
  }

  lemma SequenceCore(w: World, run: Runner, links: seq<string>, op: string, st: State, rec: string -> LinkRun)
    requires st.intact && links != [] && ReadsOnly(links, op) && (AnyValid(links) ==> op in st.files)
    requires AllPlain(links) && AreTheRuns(w, links, st, rec) && RunsLinks(w, run, links, st) && CanRun(run, links)
    ensures TraceIsTrue(w.blanks, links, Sequence(run, links, st).trace, st.files)
  {
    AllQuiet(w, run, links, op, st, rec);
    QuietSequence(run, links, st, rec);
    AllCredited(w, links, op, st, rec);
    CreditsInTrace(w.blanks, links, RecordsOf(links, rec), st.files, rec);
  }

  lemma ListRunnerRunsLinks(w: World, n: nat, links: seq<string>, st: State)
    requires AllShort(links, n)
    ensures RunsLinks(w, ListRunner(w, n), links, st)
  {
    forall l | l in links
      ensures ListRunner(w, n).requires(l, st) && (AndLinks(l) == [l] ==> ListRunner(w, n)(l, st) == ExecLink(w, l, st))
    {
      ListRunnerIs(w, n, l, st);
      if AndLinks(l) == [l] { AndListOfOne(LinkRunner(w, n), l, st); }
    }
  }

  lemma RunsExist(w: World, links: seq<string>, st: State) returns (rec: string -> LinkRun)
    ensures AreTheRuns(w, links, st, rec)
  {
    rec := (l: string) => ExecLink(w, l, st).trace[0];
  }

  /** What an accepted sequence of plain links shows, whatever its status: with the one file they name
      readable, or nothing that could show it, every link ran from the files as they were and showed
      what it is credited, borne out exactly when the file is clear; with that file missing, no
      link with a valid script did. */
  lemma SequenceRan(w: World, cmd: string, links: seq<string>, op: string, files: Files)
    requires Modelled(cmd) && SequenceOfReads(cmd) == Some(links) && AllPlain(links)
    requires ReadsOnly(links, op)
    ensures TraceIsTrue(w.blanks, links, ExecText(w, cmd, State(files, true)).trace, files)
            <==> (AnyValid(links) ==> op in files)
  {
    var st := State(files, true);
    var op' := SequenceShape(cmd, links);
    TextIsSequence(w, cmd, links, st);
    ListRunnerRunsLinks(w, |cmd|, links, st);
    if AnyValid(links) ==> op in files {
      var rec := RunsExist(w, links, st);
      SequenceCore(w, ListRunner(w, |cmd|), links, op, st, rec);
    } else if TraceIsTrue(w.blanks, links, ExecText(w, cmd, st).trace, files) {
      TrueMeansReadable(w.blanks, links, op, ExecText(w, cmd, st).trace, files);
    }
  }

  lemma TrueMeansReadable(blanks: bool, links: seq<string>, op: string, trace: seq<LinkRun>, files: Files)
    requires ReadsOnly(links, op) && AnyValid(links) && TraceIsTrue(blanks, links, trace, files)
    ensures op in files
  {
    var l :| l in links && CreditOf(l).Some? && ScriptIsValid(l);
    JudgedLink(links, op, l);
    OperandIsCredit(l);
    var k :| 0 <= k < |links| && links[k] == l;
    assert CreditIsTrue(blanks, links[k], trace[k], files);
  }

  /** The status of an accepted sequence of plain links is its last read's. */
  lemma SequenceStatus(w: World, cmd: string, links: seq<string>, files: Files)
    requires Modelled(cmd) && SequenceOfReads(cmd) == Some(links) && AllPlain(links)
    ensures links != []
    ensures ExecText(w, cmd, State(files, true)).status
         == ExecLink(w, links[|links| - 1], State(files, true)).trace[0].status
  {
    var st := State(files, true);
    var op := SequenceShape(cmd, links);
    TextIsSequence(w, cmd, links, st);
    ListRunnerRunsLinks(w, |cmd|, links, st);
    var rec := RunsExist(w, links, st);
    AllQuiet(w, ListRunner(w, |cmd|), links, op, st, rec);
    QuietSequence(ListRunner(w, |cmd|), links, st, rec);
    assert links[|links| - 1] in links;
  }

  /** The link succeeds when it shows its file; a pipeline also when its reader fails, as long as
      its last stage is no `sed` that rejects its script. */
  predicate Succeeds(link: string, files: Files)
    requires CreditOf(link).Some?
  {
    if NotPiped(link) then Shows(link, files) else SedReads(link) || ScriptIsValid(link)
  }

  lemma LinkSucceeds(w: World, link: string, st: State)
    requires st.intact && PlainLink(link) && CreditOf(link).Some?
    ensures ExecLink(w, link, st).trace[0].status == 0 <==> Succeeds(link, st.files)
  {
    RunCredited(w, link, st);
    if !NotPiped(link) {
      if CommandReadRange(link).None? { RunWhole(w, link, st); }
      PipedStatus(w, link, st);
    }
  }

  /** Such a sequence exits zero exactly when its last read succeeds. */
  lemma SequenceSucceeds(w: World, cmd: string, links: seq<string>, files: Files)
    requires Modelled(cmd) && SequenceOfReads(cmd) == Some(links) && AllPlain(links)
    ensures links != [] && CreditOf(links[|links| - 1]).Some?
    ensures ExecText(w, cmd, State(files, true)).status == 0 <==> Succeeds(links[|links| - 1], files)
  {
    var op := SequenceShape(cmd, links);
    var last := links[|links| - 1];
    assert last in links;
    SequenceStatus(w, cmd, links, files);
    OperandIsCredit(last);
    LinkSucceeds(w, last, State(files, true));
  }

  /** A zero exit of this last read says that it showed its file, or is impossible. */
  predicate TellsOfFile(last: string) { NotPiped(last) || (!SedReads(last) && !ScriptIsValid(last)) }

  ghost predicate SequenceAlwaysTrue(cmd: string, links: seq<string>) {
    forall w: World, files: Files :: ExecText(w, cmd, State(files, true)).status == 0
      ==> TraceIsTrue(w.blanks, links, ExecText(w, cmd, State(files, true)).trace, files)
  }

  lemma ReadableAtZero(last: string, op: string, files: Files)
    requires CreditOf(last).Some? && CreditOf(last).value.path == op && TellsOfFile(last) && Succeeds(last, files)
    ensures op in files
  {
  }

  lemma HidesMissing(last: string)
    requires CreditOf(last).Some? && !TellsOfFile(last)
    ensures Succeeds(last, map[])
  {
  }

  lemma ZeroIsTrue(w: World, cmd: string, links: seq<string>, files: Files)
    requires Modelled(cmd) && SequenceOfReads(cmd) == Some(links) && AllPlain(links) && links != []
    requires TellsOfFile(links[|links| - 1]) || !AnyValid(links)
    requires ExecText(w, cmd, State(files, true)).status == 0
    ensures TraceIsTrue(w.blanks, links, ExecText(w, cmd, State(files, true)).trace, files)
  {
    var op := SequenceShape(cmd, links);
    var last := links[|links| - 1];
    OperandIsCredit(last);
    SequenceSucceeds(w, cmd, links, files);
    if TellsOfFile(last) { ReadableAtZero(last, op, files); }
    SequenceRan(w, cmd, links, op, files);
  }

  /** Sequence soundness, link by link. For every accepted `;` or newline sequence of plain links
      whose last read's status tells of its file: if the call exits zero, the one file every read
      names is readable, no file changed, and each credited read, pipelines included, showed what it
      is credited exactly when `sed` accepts its script, borne out exactly when the file is clear. */
  lemma SequenceRanSound(w: World, cmd: string, links: seq<string>, files: Files)
    requires Modelled(cmd) && SequenceOfReads(cmd) == Some(links) && AllPlain(links)
    requires links != [] && TellsOfFile(links[|links| - 1])
    requires ExecText(w, cmd, State(files, true)).status == 0
    ensures TraceIsTrue(w.blanks, links, ExecText(w, cmd, State(files, true)).trace, files)
    ensures exists op: string :: op in files && ReadsOnly(links, op)
  {
    ZeroIsTrue(w, cmd, links, files);
    var op := SequenceShape(cmd, links);
    OperandIsCredit(links[|links| - 1]);
    SequenceSucceeds(w, cmd, links, files);
    ReadableAtZero(links[|links| - 1], op, files);
    assert op in files && ReadsOnly(links, op);
  }

  /** When a sequence is sound in every world: exactly when the status of its last read tells of the
      file, or no link has a script that `sed` accepts. A pipeline that ends it hides a missing file. */
  lemma SequenceSoundExactly(cmd: string, links: seq<string>)
    requires Modelled(cmd) && SequenceOfReads(cmd) == Some(links) && AllPlain(links)
    ensures links != []
    ensures SequenceAlwaysTrue(cmd, links) <==> TellsOfFile(links[|links| - 1]) || !AnyValid(links)
  {
    var op := SequenceShape(cmd, links);
    if TellsOfFile(links[|links| - 1]) || !AnyValid(links) {
      forall w: World, files: Files | ExecText(w, cmd, State(files, true)).status == 0
        ensures TraceIsTrue(w.blanks, links, ExecText(w, cmd, State(files, true)).trace, files)
      {
        ZeroIsTrue(w, cmd, links, files);
      }
    } else {
      SequenceSucceeds(ESCAPE, cmd, links, map[]);
      HidesMissing(links[|links| - 1]);
      SequenceRan(ESCAPE, cmd, links, op, map[]);
    }
  }

  // ----- the command itself -----

  lemma {:induction false} SameSequence(run: Runner, other: Runner, lists: seq<string>, st: State)
    requires CanRun(run, lists) && CanRun(other, lists)
    requires forall l: string, s: State :: l in lists ==> run(l, s) == other(l, s)
    ensures Sequence(run, lists, st) == Sequence(other, lists, st)
  {
    if lists == [] {
    } else {
      assert lists[0] in lists && forall l :: l in lists[1..] ==> l in lists;
      SameSequence(run, other, lists[1..], run(lists[0], st).state);
    }
  }

  lemma {:induction false} SameAndList(run: Runner, other: Runner, links: seq<string>, st: State)
    requires CanRun(run, links) && CanRun(other, links)
    requires forall l: string, s: State :: l in links ==> run(l, s) == other(l, s)
    ensures AndList(run, links, st) == AndList(other, links, st)
  {
    if links == [] {
    } else {
      assert links[0] in links && forall l :: l in links[1..] ==> l in links;
      SameAndList(run, other, links[1..], run(links[0], st).state);
    }
  }

  lemma SameList(w: World, n: nat, m: nat, list: string, st: State)
    requires |list| <= n && |list| <= m
    ensures ListRunner(w, n).requires(list, st) && ListRunner(w, m).requires(list, st)
    ensures ListRunner(w, n)(list, st) == ListRunner(w, m)(list, st)
  {
    ListRunnerIs(w, n, list, st);
    ListRunnerIs(w, m, list, st);
    SameAndList(LinkRunner(w, n), LinkRunner(w, m), AndLinks(list), st);
  }

  /** The spaces around a modelled text change nothing. */
  lemma TrimRunsTheSame(w: World, text: string, st: State)
    requires Modelled(text) && Modelled(Trim(text))
    ensures ExecText(w, text, st) == ExecText(w, Trim(text), st)
  {
    GuardSepsOk();
    TrimIsIgnored([";", "\n"], text);
    var n, m, lists := |text|, |Trim(text)|, SeqLists(text);
    assert SeqLists(Trim(text)) == lists;
    TextIsSequence(w, text, lists, st);
    TextIsSequence(w, Trim(text), lists, st);
    forall l: string, s: State | l in lists ensures ListRunner(w, n)(l, s) == ListRunner(w, m)(l, s) {
      SameList(w, n, m, l, s);
    }
    SameSequence(ListRunner(w, n), ListRunner(w, m), lists, st);
  }

  /** The command runs the text the parsers judge: it is in the modelled fragment, and is that text,
      or a wrapper whose script is literal in its quotes and whose flag says to run it. */
  ghost predicate RunsItsText(command: string) {
    var text := Trim(command);
    && Modelled(command)
    && (Unwrap(text) == text || exists v: Wrapper :: v.Valid() && v.Render() == text && v.script == Unwrap(text))
  }

  /** Such a command has the status of that text, and shows what it shows. */
  lemma CommandRuns(w: World, command: string, st: State)
    requires RunsItsText(command) && Modelled(Unwrap(Trim(command))) && st.intact
    ensures var o, i := ExecText(w, command, st), ExecText(w, Unwrap(Trim(command)), st);
            o.status == i.status && AllShown(o.trace) == AllShown(i.trace)
  {
    var text := Trim(command);
    if Unwrap(text) != text {
      var v: Wrapper :| v.Valid() && v.Render() == text && v.script == Unwrap(text);
      LiteralHasNoEscape(v);
      WrapperIsModelled(v);
      WrapperRunsScript(w, v, st);
    }
    TrimRunsTheSame(w, command, st);
  }

  lemma {:induction false} ShownInTrace(trace: seq<LinkRun>, k: nat, s: Shown)
    requires k < |trace| && s in trace[k].shown
    ensures s in AllShown(trace)
  {
    if k == 0 {
    } else {
      assert trace[k] == trace[1..][k - 1];
      ShownInTrace(trace[1..], k - 1, s);
    }
  }

  /** The credit of the segment, if it is a plain link that is no pipeline, is borne out by something
      shown. */
  ghost predicate CreditHolds(blanks: bool, seg: string, shown: seq<Shown>) {
    PlainLink(seg) && NotPiped(seg) && CreditOf(seg).Some? ==> exists s :: s in shown && IsEvidence(blanks, seg, s)
  }

  /** The command's text, unwrapped, is one AND-list the guard passes. */
  predicate IsChainCommand(command: string) { IsPassedChain(Unwrap(Trim(command))) }

  lemma ChainSegments(command: string)
    requires IsChainCommand(command)
    ensures ReadSegments(command) == AndChainSegments(Unwrap(Trim(command)))
  {
    ChainIsSplit(Unwrap(Trim(command)));
  }

  /** AND-chain soundness: a command that runs its text, one AND-list the guard passes, and exits
      zero, has shown the file or bare window each segment is credited with, up to the first link
      that evades the guard and that link itself. */
  lemma AndChainSound(w: World, command: string, j: nat, files: Files)
    requires RunsItsText(command) && IsChainCommand(command)
    requires j < |ReadSegments(command)| && NoneEvades(ReadSegments(command), j)
    requires ExecText(w, command, State(files, true)).status == 0
    ensures CreditHolds(w.blanks, ReadSegments(command)[j], AllShown(ExecText(w, command, State(files, true)).trace))
  {
    var cmd, st := Unwrap(Trim(command)), State(files, true);
    CommandRuns(w, command, st);
    ChainSegments(command);
    ChainRanSound(w, cmd, j, files);
    var trace, seg := ExecText(w, cmd, st).trace, AndChainSegments(cmd)[j];
    assert SegmentIsTrue(w.blanks, seg, trace[j]);
    if PlainLink(seg) && NotPiped(seg) && CreditOf(seg).Some? {
      var s :| s in trace[j].shown && IsEvidence(w.blanks, seg, s);
      ShownInTrace(trace, j, s);
    }
  }

  /** A world in which every program succeeds and shows nothing. */
  const SILENT := World((t, files) => (0, files), (t, st) => (0, st, false), true)

  lemma SilentWrapper(v: Wrapper, files: Files)
    requires v.Shaped() && !v.Literal()
    ensures var o := ExecText(SILENT, v.Render(), State(files, true)); o.status == 0 && AllShown(o.trace) == []
  {
    var st := State(files, true);
    if Modelled(v.Render()) {
      WrapperRunsAlone(SILENT, v, st);
      WrapperIsAProgram(SILENT, v, st);
      OneTrace(Program(SILENT, v.Render(), st));
    } else {
      OneTrace(Anything(SILENT, v.Render(), st));
    }
  }

  ghost predicate AlwaysSound(command: string, seg: string) {
    forall w: World, files: Files ::
      ExecText(w, command, State(files, true)).status == 0
      ==> CreditHolds(w.blanks, seg, AllShown(ExecText(w, command, State(files, true)).trace))
  }

  /** A chain is one list, so the flag alone decides whether it is run as it stands. */
  lemma ChainFlag(v: Wrapper)
    requires IsPassedChain(v.script)
    ensures v.Literal() <==> LiteralIn(v.quote, v.script) && IsCallFlag(v.flag)
  {
    OneListOnly(v.script);
  }

  lemma LiteralRunsItsText(v: Wrapper)
    requires v.Valid() && IsPassedChain(v.script) && !Contains(v.prog, v.flag)
    ensures RunsItsText(v.Render())
  {
    WrapperIsTrimmed(v);
    UnwrapExactly(v);
    LiteralHasNoEscape(v);
    WrapperIsModelled(v);
  }

  /** Of the wrapped chains the guard passes, exactly those bear out a credit that no evading link
      stands before, in every world, whose script is literal in its quotes and whose flag's letters
      all let the shell run it. */
  lemma WrapperSoundExactly(v: Wrapper, j: nat)
    requires v.Shaped() && !Contains(v.prog, v.flag) && IsPassedChain(v.script)
    requires j < |ReadSegments(v.Render())| && NoneEvades(ReadSegments(v.Render()), j)
    requires var seg := ReadSegments(v.Render())[j]; PlainLink(seg) && NotPiped(seg) && CreditOf(seg).Some?
    ensures AlwaysSound(v.Render(), ReadSegments(v.Render())[j])
            <==> LiteralIn(v.quote, v.script) && IsCallFlag(v.flag)
  {
    var command := v.Render();
    WrapperIsTrimmed(v);
    UnwrapExactly(v);
    ChainFlag(v);
    var seg := ReadSegments(command)[j];
    if v.Literal() {
      LiteralRunsItsText(v);
      forall w: World, files: Files | ExecText(w, command, State(files, true)).status == 0
        ensures CreditHolds(w.blanks, seg, AllShown(ExecText(w, command, State(files, true)).trace))
      {
        AndChainSound(w, command, j, files);
      }
    } else {
      SilentWrapper(v, map[]);
      assert !CreditHolds(true, seg, []);
    }
  }

  // ----- sequences, as commands -----

  predicate IsOfFile(s: Shown, path: string, files: Files) { path in files && s.file == files[path] }

  /** Every credit of the sequence whose script `sed` accepts is borne out by something shown of the
      file as it stands. */
  ghost predicate SequenceHolds(blanks: bool, links: seq<string>, shown: seq<Shown>, files: Files) {
    forall l :: l in links && CreditOf(l).Some? && ScriptIsValid(l) ==>
      exists s :: s in shown && IsEvidence(blanks, l, s) && IsOfFile(s, CreditOf(l).value.path, files)
  }

  /** Sequence soundness: a command that runs its text, an accepted sequence of plain links whose
      last read's status tells of its file, and exits zero, has shown every window `sed` accepts. */
  lemma SequenceSound(w: World, command: string, links: seq<string>, files: Files)
    requires RunsItsText(command) && Modelled(Unwrap(Trim(command)))
    requires SequenceOfReads(Unwrap(Trim(command))) == Some(links)
    requires AllPlain(links) && links != [] && TellsOfFile(links[|links| - 1])
    requires ExecText(w, command, State(files, true)).status == 0
    ensures ReadSegments(command) == links
    ensures SequenceHolds(w.blanks, links, AllShown(ExecText(w, command, State(files, true)).trace), files)
  {
    var cmd, st := Unwrap(Trim(command)), State(files, true);
    CommandRuns(w, command, st);
    ZeroIsTrue(w, cmd, links, files);
    TraceHolds(w.blanks, links, ExecText(w, cmd, st).trace, files);
  }

  lemma TraceHolds(blanks: bool, links: seq<string>, trace: seq<LinkRun>, files: Files)
    requires TraceIsTrue(blanks, links, trace, files)
    ensures SequenceHolds(blanks, links, AllShown(trace), files)
  {
    forall l | l in links && CreditOf(l).Some? && ScriptIsValid(l)
      ensures exists s :: && s in AllShown(trace) && IsEvidence(blanks, l, s)
                          && IsOfFile(s, CreditOf(l).value.path, files)
    {
      var k :| 0 <= k < |links| && links[k] == l;
      assert CreditIsTrue(blanks, links[k], trace[k], files);
      var path := CreditOf(l).value.path;
      var s :| s in trace[k].shown && path in files && s.file == files[path] && IsEvidence(blanks, l, s);
      ShownInTrace(trace, k, s);
    }
  }
}
