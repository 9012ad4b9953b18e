/** The ledger side of an abort (`record_abort`): two updates on the tables of one database, any of
    whose steps may fail, and what any sequence of aborts leaves there. */
module AbortLedger {
  import opened Text

  datatype FleetRow = FleetRow(state: string, reason: string)

  datatype TaskRow = TaskRow(fleetId: string, state: string)

  datatype Tables = Tables(fleets: map<string, FleetRow>, tasks: map<string, TaskRow>)

  /** The database step that fails, if any. */
  datatype Fault = NoFault | OpenFails | FleetUpdateFails | TaskUpdateFails

  datatype Call = Call(fleetId: string, cancelled: bool, reason: string, problems: seq<string>, fault: Fault)

  datatype Result = Ok(state: string) | Err(error: string)

  predicate Terminal(state: string) { state == "done" || state == "failed" || state == "cancelled" }

  predicate InFlight(state: string) { state == "pending" || state == "claimed" || state == "in_progress" }

  /** `r` is `s` cut to `n` characters. */
  predicate IsCut(r: string, s: string, n: nat) { r <= s && |r| == if |s| < n then |s| else n }

  function Take(s: string, n: nat): (r: string)
    ensures IsCut(r, s, n)
  {
    if |s| <= n then s else s[..n]
  }

  function StopReason(c: Call): string { "STOP FAILED, workers may still run: " + Join(c.problems, "; ") }

  function CleanState(c: Call): string { if c.cancelled then "cancelled" else "failed" }

  function CleanReason(c: Call): string {
    if c.cancelled then "cancelled through the Temporal engine" else "Temporal engine: " + Take(c.reason, 500)
  }

  /** The row an abort writes over a fleet that has not finished. */
  function AbortRow(c: Call): FleetRow {
    if c.problems != [] then FleetRow("stop_failed", Take(StopReason(c), 800))
    else FleetRow(CleanState(c), CleanReason(c))
  }

  // ----- the operation -----

  /** The fleet update of the abort takes effect. */
  predicate ReachesFleet(c: Call) { c.fault.NoFault? || c.fault.TaskUpdateFails? }

  /** Both updates take effect: no problems and no fault. */
  predicate ReachesTasks(c: Call) { c.problems == [] && c.fault.NoFault? }

  function FleetsAfter(fleets: map<string, FleetRow>, c: Call): map<string, FleetRow> {
    if ReachesFleet(c) && c.fleetId in fleets && !Terminal(fleets[c.fleetId].state)
    then fleets[c.fleetId := AbortRow(c)] else fleets
  }

  function TaskAfter(t: TaskRow, c: Call): TaskRow {
    if ReachesTasks(c) && t.fleetId == c.fleetId && InFlight(t.state) then t.(state := "failed") else t
  }

  function TasksAfter(tasks: map<string, TaskRow>, c: Call): map<string, TaskRow> {
    map k | k in tasks :: TaskAfter(tasks[k], c)
  }

  function After(t: Tables, c: Call): Tables { Tables(FleetsAfter(t.fleets, c), TasksAfter(t.tasks, c)) }

  class Ledger {
    var fleets: map<string, FleetRow>
    var tasks: map<string, TaskRow>

    constructor (fleets: map<string, FleetRow>, tasks: map<string, TaskRow>)
      ensures this.fleets == fleets && this.tasks == tasks
    {
      this.fleets, this.tasks := fleets, tasks;
    }

    ghost function View(): Tables
      reads this
    {
      Tables(fleets, tasks)
    }

    /** `UPDATE fleets ... WHERE fleet_id = ? AND state NOT IN ('done', 'failed', 'cancelled')`. */
    method UpdateFleet(fleetId: string, row: FleetRow)
      modifies this`fleets
      ensures fleets == if fleetId in old(fleets) && !Terminal(old(fleets)[fleetId].state)
                        then old(fleets)[fleetId := row] else old(fleets)
    {
      if fleetId in fleets && !Terminal(fleets[fleetId].state) { fleets := fleets[fleetId := row]; }
    }

    method RecordAbort(c: Call) returns (r: Result)
      modifies this
      ensures View() == After(old(View()), c)
      ensures r.Ok? <==> c.problems == [] && c.fault == NoFault
      ensures r.Ok? ==> r.state == if c.cancelled then "cancelled" else "failed"
      ensures c.problems != [] && ReachesFleet(c) ==>
                r.error == "fleet " + c.fleetId + " could not be stopped cleanly; " + StopReason(c)
    {
      if c.fault.OpenFails? { return Err("cannot open the ledger"); }
      if c.problems != [] {
        if c.fault.FleetUpdateFails? { return Err("fleet update failed"); }
        UpdateFleet(c.fleetId, FleetRow("stop_failed", Take(StopReason(c), 800)));
        return Err("fleet " + c.fleetId + " could not be stopped cleanly; " + StopReason(c));
      }
      var state := if c.cancelled then "cancelled" else "failed";
      if c.fault.FleetUpdateFails? { return Err("fleet update failed"); }
      UpdateFleet(c.fleetId, FleetRow(state, CleanReason(c)));
      if c.fault.TaskUpdateFails? { return Err("task update failed"); }
      tasks := map k | k in tasks ::
        if tasks[k].fleetId == c.fleetId && InFlight(tasks[k].state) then tasks[k].(state := "failed") else tasks[k];
      r := Ok(state);
    }
  }

  // ----- whole runs of aborts -----

  function AfterAll(t: Tables, calls: seq<Call>): Tables {
    if calls == [] then t else After(AfterAll(t, calls[..|calls| - 1]), calls[|calls| - 1])
  }

  /** The call could write to this fleet's row: nothing failed before its task update. */
  predicate Targets(c: Call, f: string) { c.fleetId == f && (c.fault == NoFault || c.fault == TaskUpdateFails) }

  predicate CleanOn(c: Call, f: string) { Targets(c, f) && c.problems == [] }

  /** The first abort of `f` that had no problems and reached the table, or the length. */
  function FirstClean(calls: seq<Call>, f: string): (i: nat)
    ensures i <= |calls| && (i < |calls| ==> CleanOn(calls[i], f))
    ensures forall j :: 0 <= j < i ==> !CleanOn(calls[j], f)
  {
    if calls == [] then 0
    else
      var i := FirstClean(calls[..|calls| - 1], f);
      if i < |calls| - 1 || CleanOn(calls[|calls| - 1], f) then i else i + 1
  }

  /** The last abort that reached the fleet's row, counted from one; zero if none did. */
  function LastTargeting(calls: seq<Call>, f: string): (n: nat)
    ensures n <= |calls| && (n > 0 ==> Targets(calls[n - 1], f))
    ensures forall j :: n <= j < |calls| ==> !Targets(calls[j], f)
  {
    if calls == [] then 0
    else if Targets(calls[|calls| - 1], f) then |calls| else LastTargeting(calls[..|calls| - 1], f)
  }

  /** A finished fleet keeps its row whatever aborts follow. */
  lemma {:induction false} TerminalAbsorbs(t: Tables, calls: seq<Call>, f: string)
    requires f in t.fleets && Terminal(t.fleets[f].state)
    ensures var t' := AfterAll(t, calls); f in t'.fleets && t'.fleets[f] == t.fleets[f]
  {
    if calls == [] {
    } else {
      TerminalAbsorbs(t, calls[..|calls| - 1], f);
    }
  }

  /** The row of an unfinished fleet after any aborts: the first clean abort decides it for good;
      before one, the last abort with problems has left it stop_failed. */
  function DecidedRow(row: FleetRow, calls: seq<Call>, f: string): FleetRow {
    var i, n := FirstClean(calls, f), LastTargeting(calls, f);
    if i < |calls| then AbortRow(calls[i]) else if n > 0 then AbortRow(calls[n - 1]) else row
  }

  lemma AbortRowTerminal(c: Call)
    ensures Terminal(AbortRow(c).state) <==> c.problems == []
  {
  }

  lemma {:induction false} RowIsDecided(t: Tables, calls: seq<Call>, f: string)
    requires f in t.fleets && !Terminal(t.fleets[f].state)
    ensures var t' := AfterAll(t, calls);
            && f in t'.fleets && t'.fleets[f] == DecidedRow(t.fleets[f], calls, f)
            && (Terminal(t'.fleets[f].state) <==> FirstClean(calls, f) < |calls|)
  {
    if calls == [] {
    } else {
      var front, c := calls[..|calls| - 1], calls[|calls| - 1];
      RowIsDecided(t, front, f);
      AbortRowTerminal(c);
    }
  }

  /** What an abort says of its fleet: with problems, that its stop failed, and all of them; without,
      that it was cancelled, or failed for the cause given; cut to 800 and 500 characters. */
  predicate SaysAbort(row: FleetRow, c: Call) {
    if c.problems != [] then
      && row.state == "stop_failed"
      && IsCut(row.reason, "STOP FAILED, workers may still run: " + Join(c.problems, "; "), 800)
    else if c.cancelled then row == FleetRow("cancelled", "cancelled through the Temporal engine")
    else row.state == "failed" && "Temporal engine: " <= row.reason && IsCut(row.reason[17..], c.reason, 500)
  }

  lemma AbortRowSays(c: Call)
    ensures SaysAbort(AbortRow(c), c)
  {
    if c.problems == [] && !c.cancelled {
      var prefix := "Temporal engine: ";
      assert |prefix| == 17 && (prefix + Take(c.reason, 500))[17..] == Take(c.reason, 500);
    }
  }

  /** A fleet not done, failed or cancelled, after any aborts: its row says what the first of them to
      find no problem and reach it says, or where none did the last to reach it, and is otherwise as it
      was; and it is finished exactly when there was such a first one. */
  lemma FleetRowExact(t: Tables, calls: seq<Call>, f: string)
    requires f in t.fleets && t.fleets[f].state !in {"done", "failed", "cancelled"}
    ensures f in AfterAll(t, calls).fleets
    ensures var row, i, n := AfterAll(t, calls).fleets[f], FirstClean(calls, f), LastTargeting(calls, f);
            && (if i < |calls| then SaysAbort(row, calls[i])
                else if n > 0 then SaysAbort(row, calls[n - 1]) else row == t.fleets[f])
            && (row.state in {"done", "failed", "cancelled"} <==> i < |calls|)
  {
    RowIsDecided(t, calls, f);
    forall c: Call ensures SaysAbort(AbortRow(c), c) { AbortRowSays(c); }
  }

  /** No fleet appears or disappears, and aborts of other fleets do not touch this one's row. */
  lemma {:induction false} FleetFrame(t: Tables, calls: seq<Call>, f: string)
    requires forall i :: 0 <= i < |calls| ==> !Targets(calls[i], f)
    ensures var t' := AfterAll(t, calls);
            (f in t'.fleets <==> f in t.fleets) && (f in t.fleets ==> t'.fleets[f] == t.fleets[f])
  {
    if calls == [] {
    } else {
      FleetFrame(t, calls[..|calls| - 1], f);
    }
  }

  /** `cancelled` never lies: it is written exactly when the first abort that found nothing still
      running was one of a cancelled fleet. */
  lemma CancelledExactly(t: Tables, calls: seq<Call>, f: string)
    requires f in t.fleets && !Terminal(t.fleets[f].state)
    ensures f in AfterAll(t, calls).fleets
    ensures AfterAll(t, calls).fleets[f].state == "cancelled"
            <==> FirstClean(calls, f) < |calls| && calls[FirstClean(calls, f)].cancelled
  {
    RowIsDecided(t, calls, f);
    var i := FirstClean(calls, f);
    if i < |calls| { assert AbortRow(calls[i]).state == CleanState(calls[i]); }
  }

  /** While every abort that reaches the fleet has problems, the fleet is stop_failed from the first
      of them on. */
  lemma ProblemsMeanStopFailed(t: Tables, calls: seq<Call>, f: string)
    requires f in t.fleets && !Terminal(t.fleets[f].state)
    requires LastTargeting(calls, f) > 0
    requires forall i :: 0 <= i < |calls| && Targets(calls[i], f) ==> calls[i].problems != []
    ensures f in AfterAll(t, calls).fleets && AfterAll(t, calls).fleets[f].state == "stop_failed"
  {
    RowIsDecided(t, calls, f);
    assert FirstClean(calls, f) == |calls|;
  }

  // ----- tasks -----

  /** Some abort of the fleet was clean. */
  predicate CleanedUp(calls: seq<Call>, f: string) {
    exists i :: 0 <= i < |calls| && IsClean(calls[i], f)
  }

  /** The abort is of this fleet, found nothing still running, and no step of it failed. */
  predicate IsClean(c: Call, f: string) { c.fleetId == f && c.problems == [] && c.fault == NoFault }

  /** Every task after any aborts: failed if it was pending, claimed or in progress and its fleet had a
      clean abort, otherwise untouched. */
  lemma {:induction false} TasksExact(t: Tables, calls: seq<Call>, k: string)
    requires k in t.tasks
    ensures var t' := AfterAll(t, calls);
            && k in t'.tasks
            && t'.tasks[k] == if t.tasks[k].state in {"pending", "claimed", "in_progress"}
                                 && CleanedUp(calls, t.tasks[k].fleetId)
                              then t.tasks[k].(state := "failed") else t.tasks[k]
  {
    if calls == [] {
    } else {
      var front, c := calls[..|calls| - 1], calls[|calls| - 1];
      TasksExact(t, front, k);
      CleanedUpStep(calls, t.tasks[k].fleetId);
    }
  }

  lemma CleanedUpStep(calls: seq<Call>, f: string)
    requires calls != []
    ensures var c := calls[|calls| - 1];
            CleanedUp(calls, f) <==> CleanedUp(calls[..|calls| - 1], f) || IsClean(c, f)
  {
    var front := calls[..|calls| - 1];
    if CleanedUp(front, f) {
      var i :| 0 <= i < |front| && IsClean(front[i], f);
      assert calls[i] == front[i];
    }
    if i :| 0 <= i < |calls| && IsClean(calls[i], f) {
      if i < |front| { assert front[i] == calls[i]; }
    }
  }

  predicate NoneInFlight(t: Tables, f: string) {
    forall k :: k in t.tasks && t.tasks[k].fleetId == f ==> !InFlight(t.tasks[k].state)
  }

  /** Once any abort of the fleet has answered Ok, no task of it is in flight, then or after any
      later aborts. */
  lemma OkLeavesNoneInFlight(t: Tables, calls: seq<Call>, f: string)
    requires CleanedUp(calls, f)
    ensures NoneInFlight(AfterAll(t, calls), f)
  {
    var t' := AfterAll(t, calls);
    KeysKept(t, calls);
    forall k | k in t'.tasks && t'.tasks[k].fleetId == f ensures !InFlight(t'.tasks[k].state) {
      TasksExact(t, calls, k);
    }
  }

  lemma {:induction false} KeysKept(t: Tables, calls: seq<Call>)
    ensures AfterAll(t, calls).tasks.Keys == t.tasks.Keys
  {
    if calls == [] {
    } else {
      KeysKept(t, calls[..|calls| - 1]);
    }
  }

  /** The fleet has finished, and a task of it is still in flight. */
  predicate Stranded(t: Tables, f: string) {
    f in t.fleets && Terminal(t.fleets[f].state) && !NoneInFlight(t, f)
  }

  /** An abort leaves a finished fleet with tasks in flight exactly when there were such tasks, its
      task update did not happen, and the fleet had finished before or its own row was written. */
  lemma StrandedExactly(t: Tables, c: Call)
    requires c.fleetId in t.fleets
    ensures Stranded(After(t, c), c.fleetId)
            <==> && !NoneInFlight(t, c.fleetId) && !ReachesTasks(c)
                 && (Terminal(t.fleets[c.fleetId].state) || (c.problems == [] && ReachesFleet(c)))
  {
    var f, t' := c.fleetId, After(t, c);
    AbortRowTerminal(c);
    TasksKeptExactly(t, c);
  }

  lemma TasksKeptExactly(t: Tables, c: Call)
    ensures NoneInFlight(After(t, c), c.fleetId) <==> NoneInFlight(t, c.fleetId) || ReachesTasks(c)
  {
    var f, t' := c.fleetId, After(t, c);
    if !NoneInFlight(t, f) {
      var k :| k in t.tasks && t.tasks[k].fleetId == f && InFlight(t.tasks[k].state);
      assert k in t'.tasks && t'.tasks[k] == TaskAfter(t.tasks[k], c);
    }
  }

  /** One running fleet with one task, whose task update fails. */
  lemma StrandedByFault()
    ensures var t := Tables(map["f" := FleetRow("running", "")], map["t" := TaskRow("f", "in_progress")]);
            Stranded(After(t, Call("f", true, "", [], TaskUpdateFails)), "f")
  {
    var t := Tables(map["f" := FleetRow("running", "")], map["t" := TaskRow("f", "in_progress")]);
    assert "t" in t.tasks && InFlight(t.tasks["t"].state);
    StrandedExactly(t, Call("f", true, "", [], TaskUpdateFails));
  }
}
