/** The workflow and the ledger together: what the ledger says of a fleet after its run, given what
    stopping its workers reported and which step of the abort's database work failed, if any. */
module FleetLedger {
  import F = Fleet
  import L = AbortLedger

  /** The call `abort_fleet` makes of `record_abort`, for the abort that ends this run. */
  function AbortCall(w: F.World, fleetId: string, problems: seq<string>, fault: L.Fault): L.Call
    requires !F.AllWell(w)
  {
    L.Call(fleetId, F.AsCancelled(w), F.StopCause(w).reason, problems, fault)
  }

  /** The abort activity answers as the ledger does. */
  predicate AnswersAsLedger(w: F.World, c: L.Call) { w.abort.Ok? <==> L.ReachesTasks(c) }

  /** The call is the run's own: the last activity of its history carries it. */
  lemma CallIsLastActivity(w: F.World, fleetId: string, problems: seq<string>, fault: L.Fault)
    requires !F.AllWell(w)
    ensures var h, c := F.RunOf(w).history, AbortCall(w, fleetId, problems, fault);
            h != [] && h[|h| - 1] == F.AbortFleet(c.cancelled, c.reason)
  {
    F.HistoryExact(w);
    var opening, closing := F.Opening(w), F.Closing(w);
    assert (opening + closing)[|opening + closing| - 1] == closing[|closing| - 1];
  }

  /** What the ledger should say of a run that stops short: stop_failed where a worker could not be
      proven stopped, and otherwise how the run ends. */
  function StateFor(w: F.World, problems: seq<string>): string
    requires !F.AllWell(w)
  {
    if problems != [] then "stop_failed" else if F.AsCancelled(w) then "cancelled" else "failed"
  }

  /** The abort may still write the fleet's row: it is there, not finished, and the update is reached. */
  predicate MayWrite(t: L.Tables, c: L.Call) {
    c.fleetId in t.fleets && !L.Terminal(t.fleets[c.fleetId].state) && L.ReachesFleet(c)
  }

  /** After every run that stops short, whatever the tables held before its abort and whichever step
      failed. The ledger says what it should exactly when it said so before or the abort could still
      write the row, and otherwise the row is as it was: one finished before, as by a finalize that
      wrote it and then failed, goes on saying what it said. The run ends cancelled, or fails with
      its own cause, exactly when nothing was left running and no step failed, and then no task is
      in flight; in any other case the tasks are untouched and it fails with the abort's error. */
  lemma LedgerTellsTheEnding(
      w: F.World, t: L.Tables, fleetId: string, problems: seq<string>, fault: L.Fault)
    requires !F.AllWell(w) && AnswersAsLedger(w, AbortCall(w, fleetId, problems, fault))
    ensures var c, state := AbortCall(w, fleetId, problems, fault), StateFor(w, problems);
            var t', ending := L.After(t, c), F.RunOf(w).ending;
            && t'.fleets.Keys == t.fleets.Keys
            && (fleetId in t.fleets ==>
                  var was, row := t.fleets[fleetId], t'.fleets[fleetId];
                  && (row.state == state <==> was.state == state || MayWrite(t, c))
                  && (!MayWrite(t, c) ==> row == was))
            && (ending.EndedCancelled? <==> state == "cancelled" && fault.NoFault?)
            && (state == "failed" && fault.NoFault? ==>
                  F.StopCause(w).error.Some? && ending == F.FailedWith(F.StopCause(w).error.value))
            && (if L.ReachesTasks(c) then L.NoneInFlight(t', fleetId)
                else t'.tasks == t.tasks && w.abort.Err? && ending == F.FailedWith(w.abort.error))
  {
    var c := AbortCall(w, fleetId, problems, fault);
    F.EndingExact(w);
    L.TasksKeptExactly(t, c);
    if !L.ReachesTasks(c) { UntouchedTasks(t, c); }
  }

  lemma UntouchedTasks(t: L.Tables, c: L.Call)
    requires !L.ReachesTasks(c)
    ensures L.After(t, c).tasks == t.tasks
  {
  }

  /** The ledger says cancelled exactly of a fleet it said so of before, and of an unfinished one
      whose stop was one of a cancelled run, left nothing running and reached the row; the run ends
      cancelled exactly when its stop was such and no step failed. */
  lemma CancelledAgrees(w: F.World, t: L.Tables, fleetId: string, problems: seq<string>, fault: L.Fault)
    requires !F.AllWell(w) && AnswersAsLedger(w, AbortCall(w, fleetId, problems, fault)) && fleetId in t.fleets
    ensures L.After(t, AbortCall(w, fleetId, problems, fault)).fleets[fleetId].state == "cancelled"
            <==> || t.fleets[fleetId].state == "cancelled"
                 || (MayWrite(t, AbortCall(w, fleetId, problems, fault)) && F.AsCancelled(w) && problems == [])
    ensures F.RunOf(w).ending.EndedCancelled?
            <==> F.AsCancelled(w) && problems == [] && fault.NoFault?
  {
    F.EndingExact(w);
  }

  /** A finalize that wrote the row and then failed: the run fails, and the ledger says done. */
  lemma DoneRowStays(plans: seq<F.Plan>, out: F.Output, e: F.Failure, t: L.Tables)
    requires !e.cancelled && "f" in t.fleets && t.fleets["f"].state == "done"
    ensures var w := F.World(F.Ok(plans), i => F.Ok(out), i => F.Ok(true), false, F.Err(e), false, F.Ok(""));
            && !F.AllWell(w) && AnswersAsLedger(w, AbortCall(w, "f", [], L.NoFault))
            && F.RunOf(w).ending == F.FailedWith(e)
            && L.After(t, AbortCall(w, "f", [], L.NoFault)).fleets["f"].state == "done"
  {
    var w := F.World(F.Ok(plans), i => F.Ok(out), i => F.Ok(true), false, F.Err(e), false, F.Ok(""));
    assert !F.AllWell(w);
    F.EndingExact(w);
  }
}
