/** The fleet workflow (`FleetWorkflow::run` and `drive`). Every activity is a step of the world
    that may succeed, fail or be cancelled; the workflow may be cancelled at any moment. */
module Fleet {
  import opened Text
  import opened Positions

  // ----- the world -----

  /** An activity's error: whether it is a cancel, the messages of its failure chain, outermost
      first, and how it displays. */
  datatype Failure = Failure(cancelled: bool, messages: seq<string>, display: string)

  /** The non-empty messages of a chain, each where it first stands. */
  function Parts(messages: seq<string>): seq<string> {
    if messages == [] then []
    else
      var parts, m := Parts(messages[..|messages| - 1]), messages[|messages| - 1];
      if m == "" || m in parts then parts else parts + [m]
  }

  /** `failure_text`. */
  function FailureText(e: Failure): string {
    if Parts(e.messages) == [] then e.display else Join(Parts(e.messages), ": ")
  }

  /** The loop of `failure_text`. */
  method CollectParts(messages: seq<string>) returns (parts: seq<string>)
    ensures parts == Parts(messages)
  {
    parts := [];
    var i := 0;
    while i < |messages|
      invariant 0 <= i <= |messages|
      invariant parts == Parts(messages[..i])
    {
      assert messages[..i + 1][..i] == messages[..i];
      if messages[i] != "" && messages[i] !in parts { parts := parts + [messages[i]]; }
      i := i + 1;
    }
    assert messages[..|messages|] == messages;
  }

  /** Message `p` says something, and no message before it says the same. */
  predicate FirstSaid(messages: seq<string>, p: nat) {
    p < |messages| && messages[p] != "" && messages[p] !in messages[..p]
  }

  /** Where the messages that say anything are first said, in order. */
  function SaidAt(messages: seq<string>): (ps: seq<nat>) {
    Pick(|messages|, (p: nat) => FirstSaid(messages, p))
  }

  /** `parts` are the messages at the positions `ps`. */
  predicate AreAt(parts: seq<string>, messages: seq<string>, ps: seq<nat>) {
    |parts| == |ps| && forall i :: 0 <= i < |ps| ==> ps[i] < |messages| && parts[i] == messages[ps[i]]
  }

  lemma SaidSnoc(front: seq<string>, m: string)
    ensures SaidAt(front + [m]) == SaidAt(front) + if m != "" && m !in front then [|front|] else []
  {
    var more := front + [m];
    assert more[..|front|] == front;
    forall p: nat | p < |front| ensures FirstSaid(more, p) == FirstSaid(front, p) {
      assert more[..p] == front[..p];
    }
    PickSame(|front|, (p: nat) => FirstSaid(more, p), (p: nat) => FirstSaid(front, p));
  }

  /** The whole chain reaches the text: every message that says anything, each once, in the order they
      are first said. */
  lemma {:induction false} PartsExact(messages: seq<string>)
    ensures AreAt(Parts(messages), messages, SaidAt(messages))
    ensures forall m :: m in Parts(messages) <==> m != "" && m in messages
  {
    if messages == [] {
    } else {
      var front, m := messages[..|messages| - 1], messages[|messages| - 1];
      PartsExact(front);
      SaidSnoc(front, m);
      assert messages == front + [m];
    }
  }

  /** The text of a failure: its display where no message says anything, and otherwise what is said,
      separated by colons. */
  lemma FailureTextExact(e: Failure)
    ensures (forall m :: m in e.messages ==> m == "") ==> FailureText(e) == e.display
    ensures (exists m :: m in e.messages && m != "") ==> FailureText(e) == Join(Parts(e.messages), ": ")
  {
    PartsExact(e.messages);
    if Parts(e.messages) != [] { assert Parts(e.messages)[0] in Parts(e.messages); }
  }

  datatype Outcome<+T> = Ok(value: T) | Err(error: Failure)

  datatype Plan = Plan(taskId: string, agent: string)

  datatype Output = Output(exitCode: Option<int>, adopted: bool)

  /** How every activity turns out, member by member, and what the cancellation token says when it
      is asked: once after the last recording, once when a run stops short. A recording answers
      whether the ledger judged the member done. */
  datatype World = World(
    prepare: Outcome<seq<Plan>>, runs: nat -> Outcome<Output>, records: nat -> Outcome<bool>,
    cancelSeen: bool, finalize: Outcome<string>, cancelAtEnd: bool, abort: Outcome<string>)

  datatype Activity =
    | Prepare
    | RunWorker(plan: Plan)
    | RecordTaskOutcome(taskId: string, agent: string, output: Option<Output>, error: Option<string>)
    | Finalize
    | AbortFleet(cancelled: bool, reason: string)

  // ----- the workflow's own state -----

  datatype MemberState = Pending | Running | Done | Failed | Cancelled

  datatype Member = Member(taskId: string, agent: string, state: MemberState, exitCode: Option<int>, adopted: bool)

  datatype FleetResult = FleetResult(ledgerState: string, members: seq<Member>)

  /** Why a run stopped short. */
  datatype Abort = Abort(cancelled: bool, reason: string, error: Option<Failure>)

  datatype Driven = Finished(result: FleetResult) | Stopped(abort: Abort)

  datatype Ending = Completed(result: FleetResult) | FailedWith(error: Failure) | EndedCancelled

  function AbortFor(e: Failure): Abort { Abort(e.cancelled, FailureText(e), if e.cancelled then None else Some(e)) }

  function Started(p: Plan): Member { Member(p.taskId, p.agent, Running, None, false) }

  function StartedAll(plans: seq<Plan>): (ms: seq<Member>)
    ensures |ms| == |plans| && forall i :: 0 <= i < |plans| ==> ms[i] == Started(plans[i])
  {
    seq(|plans|, i requires 0 <= i < |plans| => Started(plans[i]))
  }

  function Workers(plans: seq<Plan>): (as_: seq<Activity>)
    ensures |as_| == |plans| && forall i :: 0 <= i < |plans| ==> as_[i] == RunWorker(plans[i])
  {
    seq(|plans|, i requires 0 <= i < |plans| => RunWorker(plans[i]))
  }

  /** The member's run came to an end of its own, well or badly. */
  predicate Ended(w: World, i: nat) { w.runs(i).Ok? || !w.runs(i).error.cancelled }

  function OutputOf(w: World, i: nat): Option<Output> { match w.runs(i) case Ok(o) => Some(o) case Err(_) => None }

  function Recording(w: World, p: Plan, i: nat): Activity {
    var error := if w.runs(i).Ok? then None else Some(FailureText(w.runs(i).error));
    RecordTaskOutcome(p.taskId, p.agent, OutputOf(w, i), error)
  }

  function Judged(m: Member, done: bool, output: Option<Output>): Member {
    m.(state := if done then Done else Failed,
       exitCode := if output.Some? then output.value.exitCode else None,
       adopted := output.Some? && output.value.adopted)
  }

  /** Where the first member with this task id stands, or the length. */
  function FindMember(ms: seq<Member>, taskId: string): (i: nat)
    ensures i <= |ms| && (i < |ms| ==> ms[i].taskId == taskId)
    ensures forall j :: 0 <= j < i ==> ms[j].taskId != taskId
  {
    if ms == [] || ms[0].taskId == taskId then 0 else 1 + FindMember(ms[1..], taskId)
  }

  function JudgeFirst(ms: seq<Member>, taskId: string, done: bool, output: Option<Output>): seq<Member> {
    var i := FindMember(ms, taskId);
    if i < |ms| then ms[i := Judged(ms[i], done, output)] else ms
  }

  predicate InFlight(m: Member) { m.state.Running? || m.state.Pending? }

  function Swept(m: Member, cancelled: bool): Member {
    if InFlight(m) then m.(state := if cancelled then Cancelled else Failed) else m
  }

  function SweptAll(ms: seq<Member>, cancelled: bool): (r: seq<Member>)
    ensures |r| == |ms| && forall i :: 0 <= i < |ms| ==> r[i] == Swept(ms[i], cancelled)
  {
    seq(|ms|, i requires 0 <= i < |ms| => Swept(ms[i], cancelled))
  }

  // ----- the specification -----

  /** The recording loop after some members: a recording that failed ends it. */
  datatype Loop = Loop(
    members: seq<Member>, history: seq<Activity>, cancelled: Option<Failure>, broken: Option<Failure>)

  function LoopStart(plans: seq<Plan>): Loop {
    Loop(StartedAll(plans), [Prepare] + Workers(plans), None, None)
  }

  /** `get_or_insert`. */
  function FirstOf(c: Option<Failure>, e: Failure): Option<Failure> { if c.Some? then c else Some(e) }

  function LoopStep(w: World, p: Plan, i: nat, s: Loop): Loop {
    if s.broken.Some? then s
    else if !Ended(w, i) then s.(cancelled := FirstOf(s.cancelled, w.runs(i).error))
    else
      var s' := s.(history := s.history + [Recording(w, p, i)]);
      match w.records(i)
      case Err(e) => s'.(broken := Some(e))
      case Ok(done) => s'.(members := JudgeFirst(s.members, p.taskId, done, OutputOf(w, i)))
  }

  function LoopAfter(w: World, plans: seq<Plan>, k: nat): Loop
    requires k <= |plans|
  {
    if k == 0 then LoopStart(plans) else LoopStep(w, plans[k - 1], k - 1, LoopAfter(w, plans, k - 1))
  }

  datatype DriveState = DriveState(members: seq<Member>, history: seq<Activity>, out: Driven)

  const AFTER_FINISH := "cancelled after every member finished"

  function AfterLoop(w: World, s: Loop): DriveState {
    if s.broken.Some? then DriveState(s.members, s.history, Stopped(AbortFor(s.broken.value)))
    else if s.cancelled.Some? then DriveState(s.members, s.history, Stopped(AbortFor(s.cancelled.value)))
    else if w.cancelSeen then DriveState(s.members, s.history, Stopped(Abort(true, AFTER_FINISH, None)))
    else DriveState(s.members, s.history + [Finalize],
                    match w.finalize
                    case Err(e) => Stopped(AbortFor(e))
                    case Ok(state) => Finished(FleetResult(state, s.members)))
  }

  function DriveOf(w: World): DriveState {
    match w.prepare
    case Err(e) => DriveState([], [Prepare], Stopped(AbortFor(e)))
    case Ok(plans) => AfterLoop(w, LoopAfter(w, plans, |plans|))
  }

  datatype Run = Run(members: seq<Member>, history: seq<Activity>, ending: Ending)

  function RunOf(w: World): Run {
    var d := DriveOf(w);
    match d.out
    case Finished(result) => Run(d.members, d.history, Completed(result))
    case Stopped(a) =>
      var cancelled := a.cancelled || w.cancelAtEnd;
      Run(SweptAll(d.members, cancelled), d.history + [AbortFleet(cancelled, a.reason)],
          match w.abort
          case Err(e) => FailedWith(e)
          case Ok(_) => if a.error.Some? && !cancelled then FailedWith(a.error.value) else EndedCancelled)
  }

  // ----- the workflow -----

  class FleetWorkflow {
    var members: seq<Member>
    /** The activities invoked, in order: the workflow engine's history. */
    var history: seq<Activity>

    constructor ()
      ensures members == [] && history == []
    {
      members, history := [], [];
    }

    /** The recording loop of `drive`: `broken` is the recording error that ends it early. */
    method RecordOutcomes(w: World, plans: seq<Plan>) returns (cancelled: Option<Failure>, broken: Option<Failure>)
      requires LoopStart(plans) == Loop(members, history, None, None)
      modifies this
      ensures LoopAfter(w, plans, |plans|) == Loop(members, history, cancelled, broken)
    {
      cancelled, broken := None, None;
      var i := 0;
      while i < |plans|
        invariant 0 <= i <= |plans|
        invariant broken.None? && LoopAfter(w, plans, i) == Loop(members, history, cancelled, None)
      {
        var result := w.runs(i);
        LoopUnfolds(w, plans, i, Loop(members, history, cancelled, None));
        if result.Err? && result.error.cancelled {
          if cancelled.None? { cancelled := Some(result.error); }
        } else {
          broken := RecordMember(w, plans[i], i, cancelled);
          if broken.Some? {
            BrokenStays(w, plans, i + 1, |plans|);
            return;
          }
        }
        i := i + 1;
      }
    }

    /** One member's recording: its outcome reaches the ledger, and then its own state. */
    method RecordMember(w: World, plan: Plan, i: nat, ghost cancelled: Option<Failure>)
        returns (broken: Option<Failure>)
      requires Ended(w, i)
      modifies this
      ensures Loop(members, history, cancelled, broken)
           == LoopStep(w, plan, i, Loop(old(members), old(history), cancelled, None))
    {
      var result := w.runs(i);
      var output, error := OutputOf(w, i), if result.Ok? then None else Some(FailureText(result.error));
      history := history + [RecordTaskOutcome(plan.taskId, plan.agent, output, error)];
      if w.records(i).Err? { return Some(w.records(i).error); }
      members := JudgeFirst(members, plan.taskId, w.records(i).value, output);
      broken := None;
    }

    method Drive(w: World) returns (r: Driven)
      requires members == [] && history == []
      modifies this
      ensures DriveState(members, history, r) == DriveOf(w)
    {
      history := history + [Prepare];
      if w.prepare.Err? { return Stopped(AbortFor(w.prepare.error)); }
      var plans := w.prepare.value;
      members := StartedAll(plans);
      history := history + Workers(plans);
      var cancelled, broken := RecordOutcomes(w, plans);
      if broken.Some? { return Stopped(AbortFor(broken.value)); }
      if cancelled.Some? { return Stopped(AbortFor(cancelled.value)); }
      if w.cancelSeen { return Stopped(Abort(true, AFTER_FINISH, None)); }
      history := history + [Finalize];
      if w.finalize.Err? { return Stopped(AbortFor(w.finalize.error)); }
      r := Finished(FleetResult(w.finalize.value, members));
    }

    method Sweep(cancelled: bool)
      modifies this`members
      ensures members == SweptAll(old(members), cancelled)
    {
      ghost var was := members;
      var i := 0;
      while i < |members|
        invariant 0 <= i <= |members| == |was|
        invariant forall j :: 0 <= j < i ==> members[j] == Swept(was[j], cancelled)
        invariant forall j :: i <= j < |was| ==> members[j] == was[j]
      {
        if members[i].state.Running? || members[i].state.Pending? {
          members := members[i := members[i].(state := if cancelled then Cancelled else Failed)];
        }
        i := i + 1;
      }
    }

    method Execute(w: World) returns (ending: Ending)
      requires members == [] && history == []
      modifies this
      ensures Run(members, history, ending) == RunOf(w)
    {
      var r := Drive(w);
      if r.Finished? { return Completed(r.result); }
      var a := r.abort;
      var cancelled := a.cancelled || w.cancelAtEnd;
      Sweep(cancelled);
      history := history + [AbortFleet(cancelled, a.reason)];
      if w.abort.Err? { return FailedWith(w.abort.error); }
      if a.error.Some? && !cancelled { return FailedWith(a.error.value); }
      ending := EndedCancelled;
    }
  }

  lemma LoopUnfolds(w: World, plans: seq<Plan>, i: nat, s: Loop)
    requires i < |plans| && LoopAfter(w, plans, i) == s && s.broken.None?
    ensures LoopAfter(w, plans, i + 1) == LoopStep(w, plans[i], i, s)
    ensures !Ended(w, i) ==>
              LoopAfter(w, plans, i + 1) == s.(cancelled := FirstOf(s.cancelled, w.runs(i).error))
  {
  }

  lemma {:induction false} BrokenStays(w: World, plans: seq<Plan>, i: nat, k: nat)
    requires i <= k <= |plans| && LoopAfter(w, plans, i).broken.Some?
    ensures LoopAfter(w, plans, k) == LoopAfter(w, plans, i)
  {
    if i < k { BrokenStays(w, plans, i, k - 1); }
  }

  // ----- what the recording loop leaves -----

  /** The ledger step for member `i` was needed and failed. */
  predicate Broke(w: World, i: nat) { Ended(w, i) && w.records(i).Err? }

  predicate NoneBroke(w: World, k: nat) { forall i :: 0 <= i < k ==> !Broke(w, i) }

  lemma NoneBrokeStep(w: World, k: nat)
    requires k > 0
    ensures NoneBroke(w, k) <==> NoneBroke(w, k - 1) && !Broke(w, k - 1)
  {
  }

  predicate AllEnded(w: World, k: nat) { forall i :: 0 <= i < k ==> Ended(w, i) }

  lemma AllEndedStep(w: World, k: nat)
    requires k > 0
    ensures AllEnded(w, k) <==> AllEnded(w, k - 1) && Ended(w, k - 1)
  {
  }

  /** The recordings of the members that ended, among the first `k`. */
  function Recordings(w: World, plans: seq<Plan>, k: nat): seq<Activity>
    requires k <= |plans|
  {
    if k == 0 then []
    else Recordings(w, plans, k - 1) + if Ended(w, k - 1) then [Recording(w, plans[k - 1], k - 1)] else []
  }

  /** How many members the loop takes up: all, or those up to the first recording that fails. */
  function TakenUp(w: World, k: nat): (n: nat)
    ensures n <= k && (NoneBroke(w, k) ==> n == k)
    ensures !NoneBroke(w, k) ==> 0 < n && Broke(w, n - 1) && NoneBroke(w, n - 1)
  {
    if k == 0 then 0
    else
      NoneBrokeStep(w, k);
      if NoneBroke(w, k - 1) then k else TakenUp(w, k - 1)
  }

  /** Recordings happen for exactly the members that ended, in order, up to the first that fails. */
  lemma {:induction false} LoopHistory(w: World, plans: seq<Plan>, k: nat)
    requires k <= |plans|
    ensures HasRecorded(w, plans, k, LoopAfter(w, plans, k))
  {
    if k == 0 {
      assert [Prepare] + Workers(plans) + [] == [Prepare] + Workers(plans);
    } else {
      LoopHistory(w, plans, k - 1);
      HistoryStep(w, plans, k, LoopAfter(w, plans, k - 1));
    }
  }

  /** The loop has recorded the members that ended, up to one whose recording failed. */
  ghost predicate HasRecorded(w: World, plans: seq<Plan>, k: nat, s: Loop)
    requires k <= |plans|
  {
    && s.broken == (if NoneBroke(w, k) then None else Some(w.records(TakenUp(w, k) - 1).error))
    && s.history == [Prepare] + Workers(plans) + Recordings(w, plans, TakenUp(w, k))
  }

  lemma HistoryStep(w: World, plans: seq<Plan>, k: nat, s: Loop)
    requires 0 < k <= |plans| && HasRecorded(w, plans, k - 1, s)
    ensures HasRecorded(w, plans, k, LoopStep(w, plans[k - 1], k - 1, s))
  {
    NoneBrokeStep(w, k);
    if NoneBroke(w, k - 1) {
      assert TakenUp(w, k) == k && TakenUp(w, k - 1) == k - 1;
    }
  }

  /** The first member whose run was cancelled. */
  function FirstCancelled(w: World, k: nat): (i: nat)
    requires !AllEnded(w, k)
    ensures i < k && !Ended(w, i) && AllEnded(w, i)
  {
    AllEndedStep(w, k);
    if AllEnded(w, k - 1) then k - 1 else FirstCancelled(w, k - 1)
  }

  /** Without a broken recording, the loop keeps the first cancel it meets. */
  lemma {:induction false} LoopCancel(w: World, plans: seq<Plan>, k: nat)
    requires k <= |plans| && NoneBroke(w, k)
    ensures LoopAfter(w, plans, k).cancelled
         == if AllEnded(w, k) then None else Some(w.runs(FirstCancelled(w, k)).error)
  {
    if k == 0 {
    } else {
      NoneBrokeStep(w, k);
      AllEndedStep(w, k);
      LoopCancel(w, plans, k - 1);
      LoopHistory(w, plans, k - 1);
    }
  }

  /** No earlier plan has the same task id. */
  predicate FirstOfItsId(plans: seq<Plan>, j: nat)
    requires j < |plans|
  {
    forall i :: 0 <= i < j ==> plans[i].taskId != plans[j].taskId
  }

  predicate DistinctIds(plans: seq<Plan>) { forall j :: 0 <= j < |plans| ==> FirstOfItsId(plans, j) }

  predicate SameIds(plans: seq<Plan>, ms: seq<Member>) {
    |ms| == |plans| && forall j :: 0 <= j < |plans| ==> ms[j].taskId == plans[j].taskId && ms[j].agent == plans[j].agent
  }

  /** A recording reaches the first member of its id, and only that one. */
  lemma JudgeHits(plans: seq<Plan>, ms: seq<Member>, i: nat, done: bool, output: Option<Output>, j: nat)
    requires SameIds(plans, ms) && i < |plans| && j < |plans|
    ensures SameIds(plans, JudgeFirst(ms, plans[i].taskId, done, output))
    ensures JudgeFirst(ms, plans[i].taskId, done, output)[j]
         == if FirstOfItsId(plans, j) && plans[j].taskId == plans[i].taskId then Judged(ms[j], done, output) else ms[j]
  {
    var f := FindMember(ms, plans[i].taskId);
    assert ms[i].taskId == plans[i].taskId;
    assert f <= i;
    assert FirstOfItsId(plans, f);
  }

  /** Step `i` judges member `j`. */
  predicate Judges(w: World, plans: seq<Plan>, i: nat, j: nat)
    requires i < |plans| && j < |plans|
  {
    Ended(w, i) && w.records(i).Ok? && FirstOfItsId(plans, j) && plans[j].taskId == plans[i].taskId
  }

  lemma StepMember(w: World, plans: seq<Plan>, i: nat, s: Loop, j: nat)
    requires SameIds(plans, s.members) && i < |plans| && j < |plans|
    ensures var s' := LoopStep(w, plans[i], i, s);
            && SameIds(plans, s'.members)
            && s'.members[j] == if s.broken.None? && Judges(w, plans, i, j)
                                then Judged(s.members[j], w.records(i).value, OutputOf(w, i)) else s.members[j]
  {
    if Ended(w, i) && w.records(i).Ok? {
      JudgeHits(plans, s.members, i, w.records(i).value, OutputOf(w, i), j);
    }
  }

  lemma {:induction false} LoopIds(w: World, plans: seq<Plan>, k: nat)
    requires k <= |plans|
    ensures SameIds(plans, LoopAfter(w, plans, k).members)
  {
    if k == 0 {
    } else {
      LoopIds(w, plans, k - 1);
      StepMember(w, plans, k - 1, LoopAfter(w, plans, k - 1), k - 1);
    }
  }

  /** A member that is not the first of its id is never reached. */
  lemma {:induction false} LaterTwinUntouched(w: World, plans: seq<Plan>, k: nat, j: nat)
    requires k <= |plans| && j < |plans| && !FirstOfItsId(plans, j)
    ensures SameIds(plans, LoopAfter(w, plans, k).members)
    ensures LoopAfter(w, plans, k).members[j] == Started(plans[j])
  {
    LoopIds(w, plans, k);
    if k == 0 {
    } else {
      LaterTwinUntouched(w, plans, k - 1, j);
      StepMember(w, plans, k - 1, LoopAfter(w, plans, k - 1), j);
    }
  }

  /** The loop reaches member `i`'s recording, and it lands. */
  predicate Lands(w: World, i: nat) { NoneBroke(w, i) && Ended(w, i) && w.records(i).Ok? }

  /** The recording of plan `i` lands and is one of member `j`'s id. */
  predicate LandsOn(w: World, plans: seq<Plan>, i: nat, j: nat)
    requires i < |plans| && j < |plans|
  {
    Lands(w, i) && plans[i].taskId == plans[j].taskId
  }

  predicate NoneLandsOn(w: World, plans: seq<Plan>, lo: nat, k: nat, j: nat)
    requires lo <= k <= |plans| && j < |plans|
  {
    forall i :: lo <= i < k ==> !LandsOn(w, plans, i, j)
  }

  /** Of the first `k` recordings, `i` is the last to land on member `j`. */
  predicate LastLanding(w: World, plans: seq<Plan>, k: nat, j: nat, i: nat)
    requires k <= |plans| && j < |plans|
  {
    i < k && LandsOn(w, plans, i, j) && NoneLandsOn(w, plans, i + 1, k, j)
  }

  /** The member's state is the ledger's answer to recording `i`; its exit code and adoption are those
      of that run's output, if it gave one. */
  predicate TellsOf(m: Member, w: World, i: nat)
    requires w.records(i).Ok?
  {
    && (m.state.Done? <==> w.records(i).value) && (m.state.Failed? <==> !w.records(i).value)
    && m.exitCode == (match w.runs(i) case Ok(o) => o.exitCode case Err(_) => None)
    && (m.adopted <==> w.runs(i).Ok? && w.runs(i).value.adopted)
  }

  /** What the first `k` steps leave member `j`, the first of its id, as. */
  predicate LeftAs(w: World, plans: seq<Plan>, k: nat, j: nat, m: Member)
    requires k <= |plans| && j < |plans|
  {
    && (NoneLandsOn(w, plans, 0, k, j) ==> m == Started(plans[j]))
    && forall i :: 0 <= i < k && LastLanding(w, plans, k, j, i) ==> TellsOf(m, w, i)
  }

  lemma LeftAsStep(w: World, plans: seq<Plan>, k: nat, j: nat, m: Member, m': Member)
    requires 0 < k <= |plans| && j < |plans| && LeftAs(w, plans, k - 1, j, m)
    requires if LandsOn(w, plans, k - 1, j) then TellsOf(m', w, k - 1) else m' == m
    ensures LeftAs(w, plans, k, j, m')
  {
    forall i: nat | LastLanding(w, plans, k, j, i) ensures TellsOf(m', w, i) {
      if i < k - 1 { assert LastLanding(w, plans, k - 1, j, i); }
    }
  }

  lemma {:induction false} MemberAfter(w: World, plans: seq<Plan>, k: nat, j: nat)
    requires k <= |plans| && j < |plans| && FirstOfItsId(plans, j)
    ensures |LoopAfter(w, plans, k).members| == |plans|
    ensures LeftAs(w, plans, k, j, LoopAfter(w, plans, k).members[j])
  {
    if k == 0 {
    } else {
      var s := LoopAfter(w, plans, k - 1);
      MemberAfter(w, plans, k - 1, j);
      LoopIds(w, plans, k - 1);
      UnbrokenExactly(w, plans, k - 1);
      StepMember(w, plans, k - 1, s, j);
      LeftAsStep(w, plans, k, j, s.members[j], LoopAfter(w, plans, k).members[j]);
    }
  }

  /** Where some recording lands on a member, one is the last to. */
  lemma {:induction false} SomeIsLast(w: World, plans: seq<Plan>, k: nat, j: nat) returns (i: nat)
    requires k <= |plans| && j < |plans| && !NoneLandsOn(w, plans, 0, k, j)
    ensures LastLanding(w, plans, k, j, i)
  {
    i := k - 1;
    if !LandsOn(w, plans, k - 1, j) { i := SomeIsLast(w, plans, k - 1, j); }
  }

  lemma UnbrokenExactly(w: World, plans: seq<Plan>, k: nat)
    requires k <= |plans|
    ensures LoopAfter(w, plans, k).broken.None? <==> NoneBroke(w, k)
  {
    LoopHistory(w, plans, k);
  }

  // ----- the theorems -----

  /** Finalize is due: the fleet was prepared, every run ended, every recording landed, and no
      cancel was seen. */
  predicate FinalizeDue(w: World) {
    && w.prepare.Ok? && !w.cancelSeen
    && AllEnded(w, |w.prepare.value|) && NoneBroke(w, |w.prepare.value|)
  }

  /** The runs that complete. */
  predicate AllWell(w: World) { FinalizeDue(w) && w.finalize.Ok? }

  /** What stops a run, in terms of the world alone. */
  function StopCause(w: World): Abort
    requires !AllWell(w)
  {
    match w.prepare
    case Err(e) => AbortFor(e)
    case Ok(plans) =>
      var n := |plans|;
      if !NoneBroke(w, n) then AbortFor(w.records(TakenUp(w, n) - 1).error)
      else if !AllEnded(w, n) then AbortFor(w.runs(FirstCancelled(w, n)).error)
      else if w.cancelSeen then Abort(true, AFTER_FINISH, None)
      else AbortFor(w.finalize.error)
  }

  /** Whether the abort is one of a cancelled fleet. */
  predicate AsCancelled(w: World)
    requires !AllWell(w)
  {
    StopCause(w).cancelled || w.cancelAtEnd
  }

  function Opening(w: World): seq<Activity> {
    match w.prepare
    case Err(_) => [Prepare]
    case Ok(plans) => [Prepare] + Workers(plans) + Recordings(w, plans, TakenUp(w, |plans|))
  }

  function Closing(w: World): seq<Activity> {
    (if FinalizeDue(w) then [Finalize] else [])
    + (if AllWell(w) then [] else [AbortFleet(AsCancelled(w), StopCause(w).reason)])
  }

  lemma DriveExact(w: World)
    ensures var d := DriveOf(w);
            && (d.out.Finished? <==> AllWell(w))
            && (!AllWell(w) ==> d.out == Stopped(StopCause(w)))
            && d.history == Opening(w) + if FinalizeDue(w) then [Finalize] else []
  {
    if w.prepare.Ok? {
      var plans := w.prepare.value;
      LoopHistory(w, plans, |plans|);
      if NoneBroke(w, |plans|) { LoopCancel(w, plans, |plans|); }
    }
  }

  /** The whole history of every run: prepare, every worker, the recordings of the members that
      ended up to one that fails, finalize only when it is due, and one abort, last, on every run
      that does not complete. */
  lemma HistoryExact(w: World)
    ensures RunOf(w).history == Opening(w) + Closing(w)
  {
    DriveExact(w);
  }

  /** How every run ends: completed exactly when all went well, with the ledger's state and the members
      as they are; otherwise with the abort's own failure, or as cancelled exactly when the abort was
      told so, or with the cause. */
  lemma EndingExact(w: World)
    ensures RunOf(w).ending.Completed? <==> AllWell(w)
    ensures AllWell(w) ==> RunOf(w).ending == Completed(FleetResult(w.finalize.value, RunOf(w).members))
    ensures !AllWell(w) && w.abort.Err? ==> RunOf(w).ending == FailedWith(w.abort.error)
    ensures !AllWell(w) && w.abort.Ok?
            ==> if AsCancelled(w) then RunOf(w).ending.EndedCancelled?
                else StopCause(w).error.Some? && RunOf(w).ending == FailedWith(StopCause(w).error.value)
  {
    DriveExact(w);
  }

  /** The failure that stops a run; none where the cancel came after every member finished. */
  function StopError(w: World): Option<Failure>
    requires !AllWell(w)
  {
    match w.prepare
    case Err(e) => Some(e)
    case Ok(plans) =>
      var n := |plans|;
      if !NoneBroke(w, n) then Some(w.records(TakenUp(w, n) - 1).error)
      else if !AllEnded(w, n) then Some(w.runs(FirstCancelled(w, n)).error)
      else if w.cancelSeen then None
      else Some(w.finalize.error)
  }

  /** The abort's three parts: a cancel exactly where the failure is one, its whole text for the
      reason, and the failure itself to end with unless it is a cancel. */
  lemma CauseExact(w: World)
    requires !AllWell(w)
    ensures match StopError(w)
            case None => StopCause(w) == Abort(true, "cancelled after every member finished", None)
            case Some(e) => && (StopCause(w).cancelled <==> e.cancelled) && StopCause(w).reason == FailureText(e)
                            && StopCause(w).error == (if e.cancelled then None else Some(e))
    ensures RunOf(w).history[|RunOf(w).history| - 1]
         == AbortFleet(StopCause(w).cancelled || w.cancelAtEnd, StopCause(w).reason)
  {
    AbortOnceAndLast(w);
    HistoryExact(w);
    var h := RunOf(w).history;
    assert Closing(w)[|Closing(w)| - 1] == AbortFleet(AsCancelled(w), StopCause(w).reason);
    assert h[|h| - 1] == Closing(w)[|Closing(w)| - 1];
  }

  // ----- what follows from the history -----

  predicate Earlier(a: Activity) { a.Prepare? || a.RunWorker? || a.RecordTaskOutcome? }

  lemma {:induction false} RecordingsAreEarlier(w: World, plans: seq<Plan>, k: nat)
    requires k <= |plans|
    ensures forall a :: a in Recordings(w, plans, k) ==> a.RecordTaskOutcome?
  {
    if k == 0 {
    } else {
      RecordingsAreEarlier(w, plans, k - 1);
    }
  }

  lemma OpeningIsEarlier(w: World)
    ensures forall p :: 0 <= p < |Opening(w)| ==> Earlier(Opening(w)[p])
  {
    if w.prepare.Ok? {
      var plans := w.prepare.value;
      RecordingsAreEarlier(w, plans, TakenUp(w, |plans|));
      forall p | 0 <= p < |Opening(w)| ensures Earlier(Opening(w)[p]) {
        assert Opening(w)[p] in Opening(w);
        assert Opening(w)[p] in [Prepare] || Opening(w)[p] in Workers(plans)
            || Opening(w)[p] in Recordings(w, plans, TakenUp(w, |plans|));
      }
    }
  }

  /** Every run that does not complete aborts exactly once, as its last activity; a run that
      completes never does. Finalize is tried exactly when it is due, after everything but an abort. */
  lemma AbortOnceAndLast(w: World)
    ensures var h := RunOf(w).history;
            && (forall p :: 0 <= p < |h| ==> (h[p].AbortFleet? <==> !AllWell(w) && p == |h| - 1))
            && (forall p :: 0 <= p < |h| ==> (h[p].Finalize? <==> FinalizeDue(w) && p == |Opening(w)|))
            && |h| == |Opening(w)| + |Closing(w)|
  {
    HistoryExact(w);
    OpeningIsEarlier(w);
    var h := RunOf(w).history;
    assert forall p :: 0 <= p < |Opening(w)| ==> h[p] == Opening(w)[p];
    assert forall p :: |Opening(w)| <= p < |h| ==> h[p] == Closing(w)[p - |Opening(w)|];
  }

  /** The activity records run `i` of this plan: its output or, where it failed, the failure's text. */
  predicate Records(a: Activity, w: World, p: Plan, i: nat) {
    && a.RecordTaskOutcome? && a.taskId == p.taskId && a.agent == p.agent
    && match w.runs(i)
       case Ok(o) => a.output == Some(o) && a.error == None
       case Err(e) => a.output == None && a.error == Some(FailureText(e))
  }

  predicate WasCancelled(w: World, i: nat) { w.runs(i).Err? && w.runs(i).error.cancelled }

  /** Which of the first `k` members have a run that was not cancelled. */
  function Uncancelled(w: World, k: nat): (ps: seq<nat>) { Pick(k, (i: nat) => !WasCancelled(w, i)) }

  /** The recordings, in order: those of exactly the members whose run was not cancelled. */
  lemma {:induction false} RecordingsExact(w: World, plans: seq<Plan>, k: nat)
    requires k <= |plans|
    ensures AreRecords(Recordings(w, plans, k), w, plans, Uncancelled(w, k))
  {
    if k == 0 {
    } else {
      RecordingsExact(w, plans, k - 1);
    }
  }

  /** `rs` records the runs in `ps`, one for one. */
  predicate AreRecords(rs: seq<Activity>, w: World, plans: seq<Plan>, ps: seq<nat>) {
    |rs| == |ps| && forall q :: 0 <= q < |ps| ==> ps[q] < |plans| && Records(rs[q], w, plans[ps[q]], ps[q])
  }

  /** The history starts with prepare, a worker for each plan, and a recording of each run in `ps`. */
  predicate StartsWith(h: seq<Activity>, w: World, plans: seq<Plan>, ps: seq<nat>) {
    var n := 1 + |plans|;
    && |h| >= n + |ps| && h[0] == Prepare
    && (forall i :: 0 <= i < |plans| ==> h[1 + i] == RunWorker(plans[i]))
    && AreRecords(h[n..n + |ps|], w, plans, ps)
  }

  lemma ThreeParts<T>(x: T, a: seq<T>, b: seq<T>, c: seq<T>, s: seq<T>)
    requires s == ([x] + a + b) + c
    ensures s[0] == x && (forall i :: 0 <= i < |a| ==> s[1 + i] == a[i])
    ensures s[1 + |a|..1 + |a| + |b|] == b
  {
  }

  /** Every activity of the run of a prepared fleet before it finalizes or aborts, in order: prepare, a
      worker for each plan, and one recording of each member taken up whose run was not cancelled. */
  lemma OpeningExact(w: World)
    requires w.prepare.Ok?
    ensures var plans := w.prepare.value;
            var ps := Uncancelled(w, TakenUp(w, |plans|));
            StartsWith(RunOf(w).history, w, plans, ps) && |Opening(w)| == 1 + |plans| + |ps|
  {
    var plans := w.prepare.value;
    var k := TakenUp(w, |plans|);
    HistoryExact(w);
    RecordingsExact(w, plans, k);
    ThreeParts(Prepare, Workers(plans), Recordings(w, plans, k), Closing(w), RunOf(w).history);
  }

  lemma RecordOf(h: seq<Activity>, w: World, plans: seq<Plan>, ps: seq<nat>, i: nat) returns (p: nat)
    requires StartsWith(h, w, plans, ps) && i in ps
    ensures p < 1 + |plans| + |ps| && i < |plans| && Records(h[p], w, plans[i], i)
  {
    var n := 1 + |plans|;
    var q :| 0 <= q < |ps| && ps[q] == i;
    p := n + q;
    assert h[n..n + |ps|][q] == h[p];
  }

  /** Unless a recording fails, every member whose run was not cancelled is recorded before finalize
      or abort. */
  lemma EndedIsRecorded(w: World, i: nat) returns (p: nat)
    requires w.prepare.Ok? && NoneBroke(w, |w.prepare.value|) && i < |w.prepare.value| && !WasCancelled(w, i)
    ensures p < |Opening(w)| < |RunOf(w).history| && Records(RunOf(w).history[p], w, w.prepare.value[i], i)
  {
    var plans := w.prepare.value;
    HistoryExact(w);
    OpeningExact(w);
    p := RecordOf(RunOf(w).history, w, plans, Uncancelled(w, |plans|), i);
  }

  // ----- the members at the end -----

  predicate SomeInFlight(ms: seq<Member>) { exists j :: 0 <= j < |ms| && InFlight(ms[j]) }

  lemma FinalMembers(w: World)
    requires w.prepare.Ok?
    ensures var plans := w.prepare.value; var ms := LoopAfter(w, plans, |plans|).members;
            RunOf(w).members == if AllWell(w) then ms else SweptAll(ms, AsCancelled(w))
  {
    DriveExact(w);
  }

  /** No recording tells of the member: it is as it started, or how the fleet stopped. */
  predicate Untold(w: World, m: Member) {
    && m.exitCode == None && !m.adopted
    && m.state == if AllWell(w) then Running else if AsCancelled(w) then Cancelled else Failed
  }

  lemma SweptTells(m: Member, cancelled: bool, w: World, i: nat)
    requires w.records(i).Ok? && TellsOf(m, w, i)
    ensures Swept(m, cancelled) == m
  {
  }

  /** Every member at the end of every run of a prepared fleet. It keeps its plan's id and agent. If
      it is the first of its id, it tells of the last recording of that id to land; a later one of
      an id, and one on which none landed, is untold. */
  lemma MembersExact(w: World, j: nat)
    requires w.prepare.Ok? && j < |w.prepare.value|
    ensures |RunOf(w).members| == |w.prepare.value|
    ensures var plans, m := w.prepare.value, RunOf(w).members[j];
            && m.taskId == plans[j].taskId && m.agent == plans[j].agent
            && (!FirstOfItsId(plans, j) || NoneLandsOn(w, plans, 0, |plans|, j) ==> Untold(w, m))
            && (FirstOfItsId(plans, j) ==> forall i :: LastLanding(w, plans, |plans|, j, i) ==> TellsOf(m, w, i))
  {
    var plans := w.prepare.value;
    FinalMembers(w);
    LoopIds(w, plans, |plans|);
    if FirstOfItsId(plans, j) {
      MemberAfter(w, plans, |plans|, j);
      var m := LoopAfter(w, plans, |plans|).members[j];
      forall i | LastLanding(w, plans, |plans|, j, i) ensures TellsOf(RunOf(w).members[j], w, i) {
        SweptTells(m, AsCancelledOr(w), w, i);
      }
    } else {
      LaterTwinUntouched(w, plans, |plans|, j);
    }
  }

  predicate AsCancelledOr(w: World) { !AllWell(w) && AsCancelled(w) }

  lemma AllLandWhenWell(w: World, i: nat)
    requires AllWell(w) && i < |w.prepare.value|
    ensures Lands(w, i)
  {
    assert Ended(w, i) && !Broke(w, i);
  }

  /** A run leaves a member running exactly when it completes over repeated task ids: with distinct
      ids, no run of any kind leaves one pending or running. */
  lemma InFlightExactly(w: World)
    ensures SomeInFlight(RunOf(w).members) <==> AllWell(w) && !DistinctIds(w.prepare.value)
  {
    DriveExact(w);
    if w.prepare.Ok? {
      var plans := w.prepare.value;
      LoopIds(w, plans, |plans|);
      FinalMembers(w);
      forall j: nat | j < |plans|
        ensures InFlight(RunOf(w).members[j]) <==> AllWell(w) && !FirstOfItsId(plans, j)
      {
        OneInFlight(w, j);
      }
    }
  }

  lemma OneInFlight(w: World, j: nat)
    requires w.prepare.Ok? && j < |w.prepare.value|
    ensures |RunOf(w).members| == |w.prepare.value|
    ensures InFlight(RunOf(w).members[j]) <==> AllWell(w) && !FirstOfItsId(w.prepare.value, j)
  {
    var plans := w.prepare.value;
    MembersExact(w, j);
    if AllWell(w) { AllLandWhenWell(w, j); }
    if AllWell(w) { assert LandsOn(w, plans, j, j); }
    if FirstOfItsId(plans, j) && !NoneLandsOn(w, plans, 0, |plans|, j) {
      var i := SomeIsLast(w, plans, |plans|, j);
      assert TellsOf(RunOf(w).members[j], w, i);
    }
  }

  /** With distinct ids every member ends up telling its own truth: the recorded outcome of its own
      run, or how the fleet stopped. */
  lemma MembersTruthful(w: World, j: nat)
    requires w.prepare.Ok? && DistinctIds(w.prepare.value) && j < |w.prepare.value|
    ensures !Lands(w, j) ==> !AllWell(w)
    ensures |RunOf(w).members| == |w.prepare.value|
    ensures var plan, m := w.prepare.value[j], RunOf(w).members[j];
            && m.taskId == plan.taskId && m.agent == plan.agent
            && if Lands(w, j) then TellsOf(m, w, j)
               else m.exitCode == None && !m.adopted && m.state == if AsCancelled(w) then Cancelled else Failed
  {
    var plans := w.prepare.value;
    MembersExact(w, j);
    if AllWell(w) { AllLandWhenWell(w, j); }
    assert FirstOfItsId(plans, j);
    forall i: nat | i < |plans| && plans[i].taskId == plans[j].taskId ensures i == j {
      assert FirstOfItsId(plans, i);
    }
    if Lands(w, j) { assert LastLanding(w, plans, |plans|, j, j); }
  }

  /** Two members of one task id, all well: the second is left running. */
  lemma RepeatedIdLeavesRunning(agent: string, out: Output)
    ensures var plans := [Plan("t", agent), Plan("t", agent)];
            var w := World(Ok(plans), i => Ok(out), i => Ok(true), false, Ok("done"), false, Ok(""));
            RunOf(w).ending.Completed? && SomeInFlight(RunOf(w).members)
  {
    var plans := [Plan("t", agent), Plan("t", agent)];
    var w := World(Ok(plans), i => Ok(out), i => Ok(true), false, Ok("done"), false, Ok(""));
    assert AllWell(w);
    assert !FirstOfItsId(plans, 1) by { assert plans[0].taskId == plans[1].taskId; }
    InFlightExactly(w);
    EndingExact(w);
  }
}
