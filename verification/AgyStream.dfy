/** The agy stream parser's tool table (`AgyStreamParser::handle_tool`). Steps interleave; a later
    update of a step must land on that step's own record. */
module AgyStream {
  import opened Text
  import opened Positions
  import opened ToolCalls

  datatype Phase = Done | Errored | Running

  /** A `step_update` of a tool step, as decoded. */
  datatype Update = Update(
    index: int, name: string, kind: ToolKind, params: Option<Args>, durationMs: Option<nat>,
    phase: Phase, output: string, error: string)

  type Call = ToolCall<int>

  /** What the table holds: the records, and for each open step the position of its record. */
  datatype Table = Table(calls: seq<Call>, open: seq<(int, nat)>, firstError: Option<string>)

  function Verdict(u: Update): Option<bool> {
    match u.phase case Done => Some(true) case Errored => Some(false) case Running => None
  }

  function ShownBy(u: Update): Option<string> {
    if u.phase.Done? && u.name == "run_command" then Some(u.output) else None
  }

  /** The failure kept for an empty result: the tool and the start of its message. */
  function ErrorText(u: Update): string {
    u.name + ": " + if |u.error| <= 200 then u.error else u.error[..200]
  }

  function NewCall(classify: Classifier, u: Update): Call {
    var kind := Classify(classify, u.kind, u.params);
    ToolCall(Some(u.index), u.name, kind, Verdict(u), u.durationMs, u.params, [], ShownBy(u))
  }

  /** An open record after an update of its step. */
  function Updated(classify: Classifier, c: Call, u: Update): (c': Call)
    ensures c'.id == c.id
  {
    var c1 := if u.phase.Running? then c else c.(success := Verdict(u), shownOutput := ShownBy(u));
    var c2 := if u.params.None? then c1 else c1.(kind := Classify(classify, c1.kind, u.params), args := u.params);
    if u.durationMs.None? then c2 else c2.(durationMs := u.durationMs)
  }

  /** Position in the open table of a step index, or None. */
  function FindOpen(open: seq<(int, nat)>, index: int): (r: Option<nat>)
    ensures r.Some? ==> r.value < |open| && open[r.value].0 == index
    ensures r.None? ==> forall i :: 0 <= i < |open| ==> open[i].0 != index
  {
    if open == [] then None
    else if open[0].0 == index then Some(0)
    else match FindOpen(open[1..], index) case None => None case Some(i) => Some(i + 1)
  }

  function Removed(open: seq<(int, nat)>, i: nat): seq<(int, nat)>
    requires i < |open|
  {
    open[..i] + open[i + 1..]
  }

  /** Open entries point inside the table. */
  predicate InRange(t: Table) { forall i :: 0 <= i < |t.open| ==> t.open[i].1 < |t.calls| }

  function Handle(classify: Classifier, t: Table, u: Update): (t': Table)
    requires InRange(t)
    ensures InRange(t')
  {
    var err := if u.phase.Errored? && t.firstError.None? then Some(ErrorText(u)) else t.firstError;
    match FindOpen(t.open, u.index)
    case Some(i) =>
      var p := t.open[i].1;
      var open := if u.phase.Running? then t.open else Removed(t.open, i);
      Table(t.calls[p := Updated(classify, t.calls[p], u)], open, err)
    case None =>
      Table(t.calls + [NewCall(classify, u)],
            if u.phase.Running? then t.open + [(u.index, |t.calls|)] else t.open, err)
  }

  /** The parser object. */
  class AgyStreamParser {
    var toolCalls: seq<Call>
    var openSteps: seq<(int, nat)>
    var firstToolError: Option<string>

    ghost function View(): Table
      reads this
    {
      Table(toolCalls, openSteps, firstToolError)
    }

    constructor ()
      ensures View() == Table([], [], None)
    {
      toolCalls, openSteps, firstToolError := [], [], None;
    }

    method HandleTool(classify: Classifier, u: Update)
      requires InRange(View())
      modifies this
      ensures View() == Handle(classify, old(View()), u)
    {
      var done, errored := u.phase.Done?, u.phase.Errored?;
      var shown := if done && u.name == "run_command" then Some(u.output) else None;
      if errored && firstToolError.None? {
        firstToolError := Some(ErrorText(u));
      }
      var pos := FindOpen(openSteps, u.index);
      if pos.Some? {
        var callPos := openSteps[pos.value].1;
        var rec := toolCalls[callPos];
        if done || errored {
          rec := rec.(success := Some(!errored), shownOutput := shown);
          openSteps := openSteps[..pos.value] + openSteps[pos.value + 1..];
        }
        if u.params.Some? {
          rec := rec.(kind := classify(rec.kind, u.params.value), args := u.params);
        }
        if u.durationMs.Some? {
          rec := rec.(durationMs := u.durationMs);
        }
        toolCalls := toolCalls[callPos := rec];
        return;
      }
      var success := if done then Some(true) else if errored then Some(false) else None;
      var kind := if u.params.Some? then classify(u.kind, u.params.value) else u.kind;
      toolCalls := toolCalls + [ToolCall(Some(u.index), u.name, kind, success, u.durationMs, u.params, [], shown)];
      if !done && !errored {
        openSteps := openSteps + [(u.index, |toolCalls| - 1)];
      }
    }
  }

  // ----- the invariant of every run -----

  /** The open entries are exactly the unset records, each the last record of its step. */
  predicate Sound(t: Table) {
    && InRange(t)
    && (forall i :: 0 <= i < |t.open| ==>
          IsLastOf(t.calls, t.open[i].0, t.open[i].1) && t.calls[t.open[i].1].success.None?)
    && (forall i, j :: 0 <= i < j < |t.open| ==> t.open[i].0 != t.open[j].0)
    && (forall p :: 0 <= p < |t.calls| && t.calls[p].success.None? ==>
          exists i :: 0 <= i < |t.open| && t.open[i].1 == p)
    && (forall p :: 0 <= p < |t.calls| ==> t.calls[p].id.Some?)
  }

  lemma RunningKeeps(classify: Classifier, t: Table, u: Update, i: nat)
    requires Sound(t) && FindOpen(t.open, u.index) == Some(i) && u.phase.Running?
    ensures Sound(Handle(classify, t, u))
  {
    var t' := Handle(classify, t, u);
    assert t'.open == t.open;
    var p := t.open[i].1;
    forall k | 0 <= k < |t.open| ensures IsLastOf(t'.calls, t'.open[k].0, t'.open[k].1) {
      LastOfUpdate(t.calls, p, Updated(classify, t.calls[p], u), t.open[k].0, t.open[k].1);
    }
    forall p | 0 <= p < |t'.calls| && t'.calls[p].success.None?
      ensures exists k :: 0 <= k < |t'.open| && t'.open[k].1 == p
    {
      assert t.calls[p].success.None?;
    }
  }

  /** Where entry `k` of the shortened table was before. */
  function Was(i: nat, k: nat): nat { if k < i then k else k + 1 }

  lemma ClosingMoves(classify: Classifier, t: Table, u: Update, i: nat, k: nat)
    requires InRange(t) && FindOpen(t.open, u.index) == Some(i) && !u.phase.Running? && k < |t.open| - 1
    ensures var t' := Handle(classify, t, u);
            && |t'.open| == |t.open| - 1 && t'.open[k] == t.open[Was(i, k)]
            && t'.calls == t.calls[t.open[i].1 := Updated(classify, t.calls[t.open[i].1], u)]
  {
  }

  lemma DistinctSteps(t: Table, i: nat, m: nat)
    requires Sound(t) && i < |t.open| && m < |t.open| && i != m
    ensures t.open[i].0 != t.open[m].0 && t.open[i].1 != t.open[m].1
    ensures IsLastOf(t.calls, t.open[m].0, t.open[m].1) && IsLastOf(t.calls, t.open[i].0, t.open[i].1)
    ensures t.calls[t.open[m].1].success.None?
  {
  }

  lemma ClosingEntry(classify: Classifier, t: Table, u: Update, i: nat, k: nat)
    requires Sound(t) && FindOpen(t.open, u.index) == Some(i) && !u.phase.Running?
    requires k < |t.open| - 1
    ensures var t' := Handle(classify, t, u);
            && t'.open[k] == t.open[Was(i, k)]
            && IsLastOf(t'.calls, t'.open[k].0, t'.open[k].1) && t'.calls[t'.open[k].1].success.None?
  {
    var m := Was(i, k);
    var p := t.open[i].1;
    ClosingMoves(classify, t, u, i, k);
    DistinctSteps(t, i, m);
    LastOfUpdate(t.calls, p, Updated(classify, t.calls[p], u), t.open[m].0, t.open[m].1);
  }

  lemma ClosingCovers(classify: Classifier, t: Table, u: Update, i: nat, p: nat)
    requires Sound(t) && FindOpen(t.open, u.index) == Some(i) && !u.phase.Running?
    requires p < |t.calls| && Handle(classify, t, u).calls[p].success.None?
    ensures exists k :: 0 <= k < |t.open| - 1 && Handle(classify, t, u).open[k].1 == p
  {
    ClosedIsSet(classify, t, u, i, p);
    var m :| 0 <= m < |t.open| && t.open[m].1 == p;
    var k := if m < i then m else m - 1;
    assert m != i && Was(i, k) == m;
    ClosingEntry(classify, t, u, i, k);
  }

  lemma ClosedIsSet(classify: Classifier, t: Table, u: Update, i: nat, p: nat)
    requires Sound(t) && FindOpen(t.open, u.index) == Some(i) && !u.phase.Running?
    requires p < |t.calls| && Handle(classify, t, u).calls[p].success.None?
    ensures p != t.open[i].1 && t.calls[p].success.None?
  {
  }

  lemma ClosingKeeps(classify: Classifier, t: Table, u: Update, i: nat)
    requires Sound(t) && FindOpen(t.open, u.index) == Some(i) && !u.phase.Running?
    ensures Sound(Handle(classify, t, u))
  {
    var t' := Handle(classify, t, u);
    forall k | 0 <= k < |t'.open|
      ensures t'.open[k] == t.open[Was(i, k)]
      ensures IsLastOf(t'.calls, t'.open[k].0, t'.open[k].1) && t'.calls[t'.open[k].1].success.None?
    {
      ClosingEntry(classify, t, u, i, k);
    }
    forall p | 0 <= p < |t'.calls| && t'.calls[p].success.None?
      ensures exists k :: 0 <= k < |t'.open| && t'.open[k].1 == p
    {
      ClosingCovers(classify, t, u, i, p);
    }
  }

  lemma NewKeeps(classify: Classifier, t: Table, u: Update)
    requires Sound(t) && FindOpen(t.open, u.index).None?
    ensures Sound(Handle(classify, t, u))
  {
    var t' := Handle(classify, t, u);
    forall k | 0 <= k < |t.open|
      ensures IsLastOf(t'.calls, t.open[k].0, t.open[k].1) && t'.calls[t.open[k].1].success.None?
    {
      LastOfAppend(t.calls, NewCall(classify, u), t.open[k].0, t.open[k].1);
    }
    forall p | 0 <= p < |t'.calls| && t'.calls[p].success.None?
      ensures exists k :: 0 <= k < |t'.open| && t'.open[k].1 == p
    {
      NewCovers(classify, t, u, p);
    }
  }

  lemma NewCovers(classify: Classifier, t: Table, u: Update, p: nat)
    requires Sound(t) && FindOpen(t.open, u.index).None?
    requires p < |Handle(classify, t, u).calls| && Handle(classify, t, u).calls[p].success.None?
    ensures exists k :: 0 <= k < |Handle(classify, t, u).open| && Handle(classify, t, u).open[k].1 == p
  {
    var t' := Handle(classify, t, u);
    if p < |t.calls| {
      assert t.calls[p].success.None?;
      var m :| 0 <= m < |t.open| && t.open[m].1 == p;
      assert t'.open[m].1 == p;
    } else {
      assert t'.open[|t.open|].1 == p;
    }
  }

  /** Every update keeps the table sound. */
  lemma HandleKeepsSound(classify: Classifier, t: Table, u: Update)
    requires Sound(t)
    ensures Sound(Handle(classify, t, u))
  {
    match FindOpen(t.open, u.index)
    case None => NewKeeps(classify, t, u);
    case Some(i) => if u.phase.Running? { RunningKeeps(classify, t, u, i); } else { ClosingKeeps(classify, t, u, i); }
  }

  // ----- projection -----

  function Run(classify: Classifier, us: seq<Update>): (t: Table)
    ensures InRange(t)
  {
    if us == [] then Table([], [], None) else Handle(classify, Run(classify, us[..|us| - 1]), us[|us| - 1])
  }

  function Of(us: seq<Update>, k: int): seq<Update> {
    if us == [] then []
    else Of(us[..|us| - 1], k) + if us[|us| - 1].index == k then [us[|us| - 1]] else []
  }

  /** One step's own story: an update lands on its last record while that has no verdict, and
      starts a new record otherwise. */
  function KeyStep(classify: Classifier, own: seq<Call>, u: Update): seq<Call> {
    if own != [] && Last(own).success.None? then own[..|own| - 1] + [Updated(classify, Last(own), u)]
    else own + [NewCall(classify, u)]
  }

  lemma HandleProjects(classify: Classifier, t: Table, u: Update, k: int)
    requires Sound(t)
    ensures Only(Handle(classify, t, u).calls, k)
         == if u.index == k then KeyStep(classify, Only(t.calls, k), u) else Only(t.calls, k)
  {
    match FindOpen(t.open, u.index)
    case Some(i) =>
      var p := t.open[i].1;
      LastOfOnly(t.calls, u.index, p);
      OnlyUpdate(t.calls, u.index, p, Updated(classify, t.calls[p], u), k);
    case None =>
      OnlyAppend(t.calls, NewCall(classify, u), k);
      if Only(t.calls, u.index) != [] { ClosedLast(t, u.index); }
  }

  /** A step with no open entry has a verdict on its last record. */
  lemma ClosedLast(t: Table, k: int)
    requires Sound(t) && FindOpen(t.open, k).None? && Only(t.calls, k) != []
    ensures Last(Only(t.calls, k)).success.Some?
  {
    var p := FindLastOf(t.calls, k);
    LastOfOnly(t.calls, k, p);
  }

  lemma {:induction false} RunIsSound(classify: Classifier, us: seq<Update>)
    ensures Sound(Run(classify, us))
  {
    if us == [] {
    } else {
      RunIsSound(classify, us[..|us| - 1]);
      HandleKeepsSound(classify, Run(classify, us[..|us| - 1]), us[|us| - 1]);
    }
  }

  lemma {:induction false} SameRecords(classify: Classifier, us: seq<Update>, k: int)
    ensures Only(Run(classify, us).calls, k) == Only(Run(classify, Of(us, k)).calls, k)
  {
    if us == [] {
    } else {
      var front, u := us[..|us| - 1], us[|us| - 1];
      SameRecords(classify, front, k);
      RunIsSound(classify, front);
      HandleProjects(classify, Run(classify, front), u, k);
      if u.index == k {
        var own := Of(front, k);
        assert Of(us, k)[..|Of(us, k)| - 1] == own;
        RunIsSound(classify, own);
        HandleProjects(classify, Run(classify, own), u, k);
      } else {
        assert Of(us, k) == Of(front, k);
      }
    }
  }

  lemma {:induction false} AloneIsAllOwn(classify: Classifier, us: seq<Update>, k: int)
    requires forall u :: u in us ==> u.index == k
    ensures forall c :: c in Run(classify, us).calls ==> c.id == Some(k)
  {
    if us == [] {
    } else {
      var front := us[..|us| - 1];
      assert us[|us| - 1] in us;
      AloneIsAllOwn(classify, front, k);
      RunIsSound(classify, front);
    }
  }

  lemma {:induction false} OfIsOwn(us: seq<Update>, k: int)
    ensures forall u :: u in Of(us, k) ==> u.index == k
  {
    if us == [] {
    } else {
      OfIsOwn(us[..|us| - 1], k);
    }
  }

  /** Projection under interleaving: the records of one step are exactly those the parser makes
      from that step's updates alone. */
  lemma StepsDoNotInterfere(classify: Classifier, us: seq<Update>, k: int)
    ensures Only(Run(classify, us).calls, k) == Run(classify, Of(us, k)).calls
  {
    SameRecords(classify, us, k);
    OfIsOwn(us, k);
    AloneIsAllOwn(classify, Of(us, k), k);
    OnlyOfOneKey(Run(classify, Of(us, k)).calls, k);
  }

  /** In every run, a record has no verdict exactly while its step is open. */
  lemma UnsetIffOpen(classify: Classifier, us: seq<Update>, p: nat)
    requires p < |Run(classify, us).calls|
    ensures var t := Run(classify, us);
            t.calls[p].success.None? <==> exists i :: 0 <= i < |t.open| && t.open[i].1 == p
  {
    RunIsSound(classify, us);
  }

  lemma VerdictStandsOnce(classify: Classifier, t: Table, u: Update, p: nat)
    requires Sound(t) && p < |t.calls| && t.calls[p].success.Some?
    ensures p < |Handle(classify, t, u).calls| && Handle(classify, t, u).calls[p] == t.calls[p]
  {
  }

  /** A record that has a verdict is never changed again, whatever follows. */
  lemma {:induction false} VerdictsStand(classify: Classifier, us: seq<Update>, more: seq<Update>, p: nat)
    requires p < |Run(classify, us).calls| && Run(classify, us).calls[p].success.Some?
    ensures p < |Run(classify, us + more).calls| && Run(classify, us + more).calls[p] == Run(classify, us).calls[p]
  {
    if more == [] {
      assert us + more == us;
    } else {
      var front, u := more[..|more| - 1], more[|more| - 1];
      VerdictsStand(classify, us, front, p);
      RunIsSound(classify, us + front);
      assert (us + more)[..|us + more| - 1] == us + front;
      VerdictStandsOnce(classify, Run(classify, us + front), u, p);
    }
  }

  predicate OutputIsEarned(calls: seq<Call>) {
    forall p :: 0 <= p < |calls| && calls[p].shownOutput.Some? ==> calls[p].success == Some(true)
  }

  /** A failed or unfinished command is never kept with an output. */
  lemma {:induction false} OutputNeedsSuccess(classify: Classifier, us: seq<Update>)
    ensures OutputIsEarned(Run(classify, us).calls)
  {
    if us == [] {
    } else {
      OutputNeedsSuccess(classify, us[..|us| - 1]);
      OutputStaysEarned(classify, Run(classify, us[..|us| - 1]), us[|us| - 1]);
    }
  }

  lemma OutputStaysEarned(classify: Classifier, t: Table, u: Update)
    requires InRange(t) && OutputIsEarned(t.calls)
    ensures OutputIsEarned(Handle(classify, t, u).calls)
  {
  }

  // ----- every record, from the updates alone -----

  /** The last update of step `k` says that it is running. */
  predicate StillRuns(us: seq<Update>, k: int) {
    exists q :: 0 <= q < |us| && us[q].index == k && us[q].phase.Running?
                && forall r :: q < r < |us| ==> us[r].index != k
  }

  /** Update `p` starts a record: its step is not running when it comes. */
  predicate Starts(us: seq<Update>, p: nat) { p < |us| && !StillRuns(us[..p], us[p].index) }

  function StartsOf(us: seq<Update>): (ss: seq<nat>) { Pick(|us|, (p: nat) => Starts(us, p)) }

  /** Every update of the step from `s` on says that it is running. */
  predicate OpenAt(us: seq<Update>, s: nat)
    requires s < |us|
  {
    forall q :: s <= q < |us| && us[q].index == us[s].index ==> us[q].phase.Running?
  }

  /** The updates of the record started at `s`: those of its step from there on, up to one that says
      the step has ended. */
  function Own(us: seq<Update>, s: nat): seq<Update>
    decreases |us|
  {
    if |us| <= s then []
    else
      var n := |us| - 1;
      Own(us[..n], s) + if us[n].index == us[s].index && (n == s || OpenAt(us[..n], s)) then [us[n]] else []
  }

  /** What the last of these updates that gives anything gives. */
  function LastGiven<T>(own: seq<Update>, get: Update -> Option<T>): Option<T> {
    if own == [] then None
    else if get(own[|own| - 1]).Some? then get(own[|own| - 1]) else LastGiven(own[..|own| - 1], get)
  }

  /** The kind after these updates: that of the first, classified anew by each that has parameters. */
  function KindOver(classify: Classifier, own: seq<Update>): ToolKind
    requires own != []
  {
    var n := |own| - 1;
    var kind := if n == 0 then own[0].kind else KindOver(classify, own[..n]);
    match own[n].params case None => kind case Some(a) => classify(kind, a)
  }

  /** The record tells of these updates: the step and tool of the first; success exactly where the last
      says done, failure where it says error, and no verdict while it runs; the output where a
      `run_command` is done, and none otherwise; and the last duration and parameters given. */
  predicate Tells(classify: Classifier, c: Call, own: seq<Update>)
    requires own != []
  {
    var last := own[|own| - 1];
    && c.id == Some(own[0].index) && c.tool == own[0].name && c.returnedLines == []
    && (c.success == Some(true) <==> last.phase.Done?) && (c.success == Some(false) <==> last.phase.Errored?)
    && c.shownOutput == (if last.phase.Done? && last.name == "run_command" then Some(last.output) else None)
    && c.durationMs == LastGiven(own, (u: Update) => u.durationMs)
    && c.args == LastGiven(own, (u: Update) => u.params)
    && c.kind == KindOver(classify, own)
  }

  lemma GivenSnoc<T>(own: seq<Update>, u: Update, get: Update -> Option<T>)
    ensures LastGiven(own + [u], get) == if get(u).Some? then get(u) else LastGiven(own, get)
  {
    assert (own + [u])[..|own|] == own;
  }

  lemma TellsNew(classify: Classifier, u: Update)
    ensures Tells(classify, NewCall(classify, u), [u])
  {
    assert [u][..0] == [];
  }

  lemma TellsUpdated(classify: Classifier, c: Call, own: seq<Update>, u: Update)
    requires own != [] && Tells(classify, c, own) && c.success.None?
    ensures Tells(classify, Updated(classify, c, u), own + [u])
  {
    GivenSnoc(own, u, (x: Update) => x.durationMs);
    GivenSnoc(own, u, (x: Update) => x.params);
    assert (own + [u])[..|own|] == own;
  }

  lemma OwnSnoc(front: seq<Update>, u: Update, s: nat)
    requires s < |front|
    ensures Own(front + [u], s)
         == Own(front, s) + if u.index == front[s].index && OpenAt(front, s) then [u] else []
  {
    assert (front + [u])[..|front|] == front;
  }

  lemma OwnNew(front: seq<Update>, u: Update)
    ensures Own(front + [u], |front|) == [u]
  {
    assert (front + [u])[..|front|] == front && [] + [u] == [u];
  }

  lemma OpenAtSnoc(front: seq<Update>, u: Update, s: nat)
    requires s < |front|
    ensures OpenAt(front + [u], s) <==> OpenAt(front, s) && (u.index == front[s].index ==> u.phase.Running?)
  {
    var more := front + [u];
    assert more[|front|] == u && forall q :: 0 <= q < |front| ==> more[q] == front[q];
  }

  lemma RunsSnoc(front: seq<Update>, u: Update, k: int)
    ensures StillRuns(front + [u], k) <==> if u.index == k then u.phase.Running? else StillRuns(front, k)
  {
    var more := front + [u];
    assert more[|front|] == u && forall q :: 0 <= q < |front| ==> more[q] == front[q];
    if u.index != k && StillRuns(front, k) {
      var q :| 0 <= q < |front| && front[q].index == k && front[q].phase.Running?
               && forall r :: q < r < |front| ==> front[r].index != k;
      assert more[q].index == k;
    }
  }

  lemma StartsSnoc(front: seq<Update>, u: Update)
    ensures StartsOf(front + [u]) == StartsOf(front) + if !StillRuns(front, u.index) then [|front|] else []
  {
    var more := front + [u];
    forall p: nat | p < |front| ensures Starts(more, p) == Starts(front, p) {
      assert more[p] == front[p] && more[..p] == front[..p];
    }
    PickSame(|front|, (p: nat) => Starts(more, p), (p: nat) => Starts(front, p));
    assert more[..|front|] == front;
  }

  /** The open steps are those that still run. */
  ghost predicate OpenRuns(us: seq<Update>, open: seq<(int, nat)>) {
    forall k :: FindOpen(open, k).Some? <==> StillRuns(us, k)
  }

  lemma OpenMember(open: seq<(int, nat)>, k: int)
    ensures FindOpen(open, k).Some? <==> exists i :: 0 <= i < |open| && open[i].0 == k
  {
  }

  lemma OpenAdded(open: seq<(int, nat)>, x: (int, nat), k: int)
    ensures FindOpen(open + [x], k).Some? <==> FindOpen(open, k).Some? || x.0 == k
  {
    OpenMember(open, k);
    OpenMember(open + [x], k);
    assert (open + [x])[|open|] == x;
    if i :| 0 <= i < |open| && open[i].0 == k { assert (open + [x])[i].0 == k; }
  }

  lemma OpenRemoved(open: seq<(int, nat)>, m: nat, k: int)
    requires m < |open| && forall i, j :: 0 <= i < j < |open| ==> open[i].0 != open[j].0
    ensures FindOpen(Removed(open, m), k).Some? <==> FindOpen(open, k).Some? && k != open[m].0
  {
    var rest := Removed(open, m);
    OpenMember(open, k);
    OpenMember(rest, k);
    forall i | 0 <= i < |rest| ensures rest[i] == open[Was(m, i)] && rest[i].0 != open[m].0 { }
    if i :| 0 <= i < |open| && open[i].0 == k && i != m {
      assert rest[if i < m then i else i - 1] == open[i];
    }
  }

  lemma OpenAfter(classify: Classifier, t: Table, u: Update, k: int)
    requires Sound(t)
    ensures FindOpen(Handle(classify, t, u).open, k).Some?
            <==> if u.index == k then u.phase.Running? else FindOpen(t.open, k).Some?
  {
    match FindOpen(t.open, u.index)
    case None => if u.phase.Running? { OpenAdded(t.open, (u.index, |t.calls|), k); }
    case Some(m) => if !u.phase.Running? { OpenRemoved(t.open, m, k); }
  }

  /** The records tell of their own updates, and the open ones are those whose step still runs. */
  ghost predicate Accounts(classify: Classifier, us: seq<Update>, t: Table, ss: seq<nat>) {
    && Sound(t) && OpenRuns(us, t.open) && |t.calls| == |ss|
    && forall i :: 0 <= i < |ss| ==> ss[i] < |us| && IsTold(classify, us, t.calls[i], ss[i])
  }

  predicate IsTold(classify: Classifier, us: seq<Update>, c: Call, s: nat)
    requires s < |us|
  {
    && Own(us, s) != [] && Own(us, s)[0] == us[s] && Tells(classify, c, Own(us, s))
    && (c.success.None? <==> OpenAt(us, s))
  }

  lemma ToldSame(classify: Classifier, front: seq<Update>, u: Update, c: Call, s: nat)
    requires s < |front| && IsTold(classify, front, c, s) && (u.index == front[s].index ==> c.success.Some?)
    ensures IsTold(classify, front + [u], c, s)
  {
    OwnSnoc(front, u, s);
    OpenAtSnoc(front, u, s);
    assert Own(front, s) + [] == Own(front, s);
  }

  lemma ToldNow(classify: Classifier, front: seq<Update>, u: Update, c: Call, s: nat)
    requires s < |front| && IsTold(classify, front, c, s) && u.index == front[s].index && c.success.None?
    ensures IsTold(classify, front + [u], Updated(classify, c, u), s)
  {
    OwnSnoc(front, u, s);
    OpenAtSnoc(front, u, s);
    TellsUpdated(classify, c, Own(front, s), u);
  }

  lemma ToldNew(classify: Classifier, front: seq<Update>, u: Update)
    ensures IsTold(classify, front + [u], NewCall(classify, u), |front|)
  {
    OwnNew(front, u);
    TellsNew(classify, u);
    assert (front + [u])[|front|] == u;
  }

  /** An open record of a step is the one its open entry points at. */
  lemma OpenEntry(t: Table, k: int, i: nat)
    requires Sound(t) && i < |t.calls| && t.calls[i].id == Some(k) && t.calls[i].success.None?
    ensures FindOpen(t.open, k).Some? && t.open[FindOpen(t.open, k).value].1 == i
  {
    var m :| 0 <= m < |t.open| && t.open[m].1 == i;
    assert IsLastOf(t.calls, t.open[m].0, i);
  }

  lemma HandleOpen(classify: Classifier, front: seq<Update>, u: Update, t: Table)
    requires Sound(t) && OpenRuns(front, t.open)
    ensures OpenRuns(front + [u], Handle(classify, t, u).open)
  {
    forall k ensures FindOpen(Handle(classify, t, u).open, k).Some? <==> StillRuns(front + [u], k) {
      OpenAfter(classify, t, u, k);
      RunsSnoc(front, u, k);
    }
  }

  lemma HandleAccounts(classify: Classifier, front: seq<Update>, u: Update, t: Table, ss: seq<nat>)
    requires Accounts(classify, front, t, ss)
    ensures Accounts(classify, front + [u], Handle(classify, t, u),
                     ss + if StillRuns(front, u.index) then [] else [|front|])
  {
    var more, t' := front + [u], Handle(classify, t, u);
    var ss' := ss + if StillRuns(front, u.index) then [] else [|front|];
    HandleKeepsSound(classify, t, u);
    HandleOpen(classify, front, u, t);
    assert FindOpen(t.open, u.index).Some? <==> StillRuns(front, u.index);
    assert |t'.calls| == |ss'|;
    forall i | 0 <= i < |ss'| ensures ss'[i] < |more| && IsTold(classify, more, t'.calls[i], ss'[i]) {
      if i == |ss| {
        ToldNew(classify, front, u);
      } else {
        HandleOne(classify, front, u, t, ss, i);
      }
    }
  }

  lemma HandleOne(classify: Classifier, front: seq<Update>, u: Update, t: Table, ss: seq<nat>, i: nat)
    requires Accounts(classify, front, t, ss) && i < |ss|
    ensures IsTold(classify, front + [u], Handle(classify, t, u).calls[i], ss[i])
  {
    assert IsTold(classify, front, t.calls[i], ss[i]);
    var found := FindOpen(t.open, u.index);
    if found.Some? && t.open[found.value].1 == i {
      assert IsLastOf(t.calls, u.index, i) && t.calls[i].success.None?;
      ToldNow(classify, front, u, t.calls[i], ss[i]);
    } else {
      if front[ss[i]].index == u.index && t.calls[i].success.None? { OpenEntry(t, u.index, i); }
      ToldSame(classify, front, u, t.calls[i], ss[i]);
    }
  }

  /** Every record of every run, from its updates alone: one for each update that finds its step not
      running, in order, telling of its own updates. */
  lemma {:induction false} RecordsExact(classify: Classifier, us: seq<Update>)
    ensures Accounts(classify, us, Run(classify, us), StartsOf(us))
  {
    if us == [] {
    } else {
      var n := |us| - 1;
      RecordsExact(classify, us[..n]);
      HandleAccounts(classify, us[..n], us[n], Run(classify, us[..n]), StartsOf(us[..n]));
      StartsSnoc(us[..n], us[n]);
      assert us == us[..n] + [us[n]];
    }
  }

  // ----- the first failure -----

  predicate NoneErrored(us: seq<Update>, n: nat)
    requires n <= |us|
  {
    forall q :: 0 <= q < n ==> !us[q].phase.Errored?
  }

  /** The failure kept is that of the first update that says error: its tool, and its message cut to
      200 characters. */
  lemma {:induction false} FirstErrorExact(classify: Classifier, us: seq<Update>)
    ensures var kept := Run(classify, us).firstError;
            && (kept.None? <==> NoneErrored(us, |us|))
            && forall q: nat :: q < |us| && us[q].phase.Errored? && NoneErrored(us, q) ==>
                 kept == Some(us[q].name + ": " + if |us[q].error| <= 200 then us[q].error else us[q].error[..200])
  {
    if us == [] {
    } else {
      var front := us[..|us| - 1];
      FirstErrorExact(classify, front);
      assert forall q :: 0 <= q < |front| ==> front[q] == us[q];
      assert forall q: nat :: q <= |front| ==> (NoneErrored(us, q) <==> NoneErrored(front, q));
    }
  }
}
