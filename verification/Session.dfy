/** Publication of turns on a named session (`publish_turn`): a generation compare-and-set over
    turns that may overlap. */
module Session {
  import opened Text

  datatype Phase = Pending | Ready | Broken

  datatype TurnOutcome = Success(cliSessionId: Option<string>) | Failure(error: string)

  datatype PublishResult = Applied | NotResumable(reason: string) | Conflict

  datatype Record = Record(generation: nat, cliSessionId: Option<string>, phase: Phase, brokenReason: Option<string>)

  /** A turn as it publishes: the generation it captured when it started, its seat, its outcome. */
  datatype Turn = Turn(start: nat, seat: string, outcome: TurnOutcome)

  function FirstLine(error: string): string {
    var ls := Lines(error);
    if ls == [] then error else ls[0]
  }

  /** What a turn that holds the current generation writes. `rejects` is the vendor's refusal of a
      session id, read off the error text. */
  function Written(rejects: string -> bool, s: Record, t: Turn): (Record, PublishResult) {
    match t.outcome
    case Success(Some(id)) => (s.(cliSessionId := Some(id), phase := Ready, brokenReason := None), Applied)
    case Success(None) =>
      if s.phase.Pending? then
        var reason := "missing_session_id:" + t.seat;
        (s.(phase := Broken, brokenReason := Some(reason)), NotResumable(reason))
      else (s, Applied)
    case Failure(error) =>
      if s.phase.Pending? || (s.phase.Ready? && rejects(error))
      then (s.(phase := Broken, brokenReason := Some(FirstLine(error))), Applied)
      else (s, Applied)
  }

  function Publish(rejects: string -> bool, s: Record, t: Turn): (Record, PublishResult) {
    if s.generation != t.start then (s, Conflict)
    else var (s', r) := Written(rejects, s, t); (s'.(generation := s.generation + 1), r)
  }

  class SessionState {
    var generation: nat
    var cliSessionId: Option<string>
    var phase: Phase
    var brokenReason: Option<string>

    ghost function View(): Record
      reads this
    {
      Record(generation, cliSessionId, phase, brokenReason)
    }

    constructor Fresh(g: nat)
      ensures View() == Record(g, None, Pending, None)
    {
      generation, cliSessionId, phase, brokenReason := g, None, Pending, None;
    }

    method PublishTurn(rejects: string -> bool, startGeneration: nat, seat: string, outcome: TurnOutcome)
        returns (result: PublishResult)
      modifies this
      ensures (View(), result) == Publish(rejects, old(View()), Turn(startGeneration, seat, outcome))
    {
      if generation != startGeneration { return Conflict; }
      result := Applied;
      match outcome {
        case Success(Some(id)) =>
          cliSessionId, phase, brokenReason := Some(id), Ready, None;
        case Success(None) =>
          if phase == Pending {
            var reason := "missing_session_id:" + seat;
            phase, brokenReason, result := Broken, Some(reason), NotResumable(reason);
          }
        case Failure(error) =>
          if phase == Pending || (phase == Ready && rejects(error)) {
            phase, brokenReason := Broken, Some(FirstLine(error));
          }
      }
      generation := generation + 1;
    }
  }

  // ----- whole runs -----

  /** The session after the turns published in this order. */
  function After(rejects: string -> bool, s: Record, ts: seq<Turn>): Record {
    if ts == [] then s else Publish(rejects, After(rejects, s, ts[..|ts| - 1]), ts[|ts| - 1]).0
  }

  /** The result the `i`th publication got. */
  function ResultAt(rejects: string -> bool, s: Record, ts: seq<Turn>, i: nat): PublishResult
    requires i < |ts|
  {
    Publish(rejects, After(rejects, s, ts[..i]), ts[i]).1
  }

  predicate Won(rejects: string -> bool, s: Record, ts: seq<Turn>, i: nat)
    requires i < |ts|
  {
    !ResultAt(rejects, s, ts, i).Conflict?
  }

  lemma AfterStep(rejects: string -> bool, s: Record, ts: seq<Turn>, i: nat)
    requires i < |ts|
    ensures After(rejects, s, ts[..i + 1]) == Publish(rejects, After(rejects, s, ts[..i]), ts[i]).0
  {
    assert ts[..i + 1][..i] == ts[..i];
  }

  /** A conflict changes nothing; a win moves the generation on by exactly one. */
  lemma PublishMoves(rejects: string -> bool, s: Record, t: Turn)
    ensures var (s', r) := Publish(rejects, s, t);
            && (r.Conflict? <==> s.generation != t.start)
            && (r.Conflict? ==> s' == s)
            && (!r.Conflict? ==> s'.generation == s.generation + 1)
  {
  }

  lemma {:induction false} GenerationGrows(rejects: string -> bool, s: Record, ts: seq<Turn>, i: nat, j: nat)
    requires i <= j <= |ts|
    ensures After(rejects, s, ts[..i]).generation <= After(rejects, s, ts[..j]).generation
  {
    if i < j {
      GenerationGrows(rejects, s, ts, i, j - 1);
      AfterStep(rejects, s, ts, j - 1);
      PublishMoves(rejects, After(rejects, s, ts[..j - 1]), ts[j - 1]);
    }
  }

  /** No lost update: of the turns that captured one generation, at most one is ever applied;
      later wins hold strictly later generations. */
  lemma OneWinPerGeneration(rejects: string -> bool, s: Record, ts: seq<Turn>, i: nat, j: nat)
    requires i < j < |ts| && Won(rejects, s, ts, i) && Won(rejects, s, ts, j)
    ensures ts[i].start < ts[j].start
  {
    AfterStep(rejects, s, ts, i);
    PublishMoves(rejects, After(rejects, s, ts[..i]), ts[i]);
    GenerationGrows(rejects, s, ts, i + 1, j);
    PublishMoves(rejects, After(rejects, s, ts[..j]), ts[j]);
  }

  // ----- every state, from the turns alone -----

  predicate IsFresh(s: Record) { s.phase.Pending? && s.cliSessionId.None? && s.brokenReason.None? }

  /** The turns that win, in order: each captured the first generation and as many wins as there had
      been. */
  function Winners(first: nat, ts: seq<Turn>): seq<Turn> {
    if ts == [] then []
    else
      var n := |ts| - 1;
      var before := Winners(first, ts[..n]);
      before + if ts[n].start == first + |before| then [ts[n]] else []
  }

  predicate IsNamed(t: Turn) { t.outcome.Success? && t.outcome.cliSessionId.Some? }

  predicate IsRejected(rejects: string -> bool, t: Turn) { t.outcome.Failure? && rejects(t.outcome.error) }

  /** The last win that is a success with an id. */
  function LastNamed(ws: seq<Turn>): (r: Option<nat>)
    ensures r.Some? ==> r.value < |ws| && IsNamed(ws[r.value]) && forall b :: r.value < b < |ws| ==> !IsNamed(ws[b])
    ensures r.None? ==> forall b :: 0 <= b < |ws| ==> !IsNamed(ws[b])
  {
    if ws == [] then None
    else if IsNamed(ws[|ws| - 1]) then Some(|ws| - 1) else LastNamed(ws[..|ws| - 1])
  }

  /** The first win after `a` whose id the vendor rejects. */
  function FirstRejected(rejects: string -> bool, ws: seq<Turn>, a: nat): (r: Option<nat>)
    ensures r.Some? ==> a < r.value < |ws| && IsRejected(rejects, ws[r.value])
    ensures r.Some? ==> forall c :: a < c < r.value ==> !IsRejected(rejects, ws[c])
    ensures r.None? ==> forall c :: a < c < |ws| ==> !IsRejected(rejects, ws[c])
  {
    if |ws| <= a + 1 then None
    else
      var n := |ws| - 1;
      match FirstRejected(rejects, ws[..n], a)
      case Some(b) => Some(b)
      case None => if IsRejected(rejects, ws[n]) then Some(n) else None
  }

  /** `line` is the text up to the first line's end. */
  predicate IsFirstLine(line: string, text: string) {
    if '\n' !in text then line == text
    else '\n' !in line && (line + "\r\n" <= text || (line + "\n" <= text && !EndsWith(line, "\r")))
  }

  lemma FirstLineExact(text: string)
    ensures IsFirstLine(FirstLine(text), text)
  {
    var i := IndexOf(text, '\n');
    if '\n' in text {
      var cut := text[..i];
      assert i < |text| && text[..i + 1] == cut + "\n";
      if cut != [] && cut[i - 1] == '\r' {
        assert StripCr(cut) == cut[..i - 1] && cut == cut[..i - 1] + "\r";
        assert text[..i + 1] == cut[..i - 1] + "\r\n";
      }
    }
  }

  /** Why the first win breaks a session: a success with no id names its seat, a failure its error. */
  predicate SaysWhy(t: Turn, reason: Option<string>) {
    match t.outcome
    case Success(None) => reason == Some("missing_session_id:" + t.seat)
    case Success(_) => false
    case Failure(error) => reason.Some? && IsFirstLine(reason.value, error)
  }

  /** What these wins leave a fresh session as. None leave it pending. After a success with an id it is
      ready, with the last such id, until the vendor first rejects that id; with no such success the
      first win has broken it. */
  predicate LeftAs(rejects: string -> bool, ws: seq<Turn>, s: Record) {
    match LastNamed(ws)
    case None =>
      if ws == [] then IsFresh(s) else s.phase.Broken? && s.cliSessionId == None && SaysWhy(ws[0], s.brokenReason)
    case Some(a) =>
      && s.cliSessionId == ws[a].outcome.cliSessionId
      && match FirstRejected(rejects, ws, a)
         case None => s.phase.Ready? && s.brokenReason == None
         case Some(b) =>
           s.phase.Broken? && s.brokenReason.Some? && IsFirstLine(s.brokenReason.value, ws[b].outcome.error)
  }

  lemma SnocFront(ws: seq<Turn>, t: Turn)
    ensures (ws + [t])[..|ws|] == ws && (ws + [t])[|ws|] == t && (ws != [] ==> (ws + [t])[0] == ws[0])
  {
  }

  lemma WinLeaves(rejects: string -> bool, ws: seq<Turn>, s: Record, t: Turn)
    requires LeftAs(rejects, ws, s) && s.generation == t.start
    ensures LeftAs(rejects, ws + [t], Publish(rejects, s, t).0)
    ensures var r := Publish(rejects, s, t).1;
            if ws == [] && t.outcome == Success(None) then r == NotResumable("missing_session_id:" + t.seat)
            else r.Applied?
  {
    SnocFront(ws, t);
    if t.outcome.Failure? { FirstLineExact(t.outcome.error); }
    if IsNamed(t) {
      assert FirstRejected(rejects, ws + [t], |ws|) == None;
    }
  }

  lemma WinnersSnoc(first: nat, front: seq<Turn>, t: Turn)
    ensures Winners(first, front + [t])
         == Winners(first, front) + if t.start == first + |Winners(first, front)| then [t] else []
  {
    assert (front + [t])[..|front|] == front;
  }

  lemma TurnLeaves(rejects: string -> bool, first: nat, front: seq<Turn>, was: Record, t: Turn)
    requires was.generation == first + |Winners(first, front)| && LeftAs(rejects, Winners(first, front), was)
    ensures var s', ws := Publish(rejects, was, t).0, Winners(first, front + [t]);
            s'.generation == first + |ws| && LeftAs(rejects, ws, s')
  {
    WinnersSnoc(first, front, t);
    if was.generation == t.start {
      WinLeaves(rejects, Winners(first, front), was, t);
    } else {
      assert Winners(first, front) + [] == Winners(first, front);
    }
  }

  /** Every state reached from a fresh session: what its wins leave, its generation counting them. */
  lemma {:induction false} ReachableStates(rejects: string -> bool, s: Record, ts: seq<Turn>)
    requires IsFresh(s)
    ensures After(rejects, s, ts).generation == s.generation + |Winners(s.generation, ts)|
    ensures LeftAs(rejects, Winners(s.generation, ts), After(rejects, s, ts))
  {
    if ts == [] {
    } else {
      var n := |ts| - 1;
      ReachableStates(rejects, s, ts[..n]);
      TurnLeaves(rejects, s.generation, ts[..n], After(rejects, s, ts[..n]), ts[n]);
      assert ts == ts[..n] + [ts[n]];
    }
  }

  /** Every answer: a conflict exactly where the turn does not hold the generation the wins have come to;
      not resumable exactly for a first win that is a success with no id, naming its seat; and applied
      otherwise. */
  lemma AnswersExact(rejects: string -> bool, s: Record, ts: seq<Turn>, i: nat)
    requires IsFresh(s) && i < |ts|
    ensures var r, before := ResultAt(rejects, s, ts, i), |Winners(s.generation, ts[..i])|;
            if ts[i].start != s.generation + before then r.Conflict?
            else if before == 0 && ts[i].outcome == Success(None)
              then r == NotResumable("missing_session_id:" + ts[i].seat)
            else r.Applied?
  {
    ReachableStates(rejects, s, ts[..i]);
    var was := After(rejects, s, ts[..i]);
    if was.generation == ts[i].start { WinLeaves(rejects, Winners(s.generation, ts[..i]), was, ts[i]); }
  }

  predicate Coherent(s: Record) {
    match s.phase
    case Pending => s.cliSessionId.None? && s.brokenReason.None?
    case Ready => s.cliSessionId.Some? && s.brokenReason.None?
    case Broken => s.brokenReason.Some?
  }

  /** So in every reachable state ready means a stored id and no reason, broken a reason, and pending
      that no turn was applied. */
  lemma ReachableIsCoherent(rejects: string -> bool, s: Record, ts: seq<Turn>)
    requires IsFresh(s)
    ensures Coherent(After(rejects, s, ts))
    ensures After(rejects, s, ts).phase.Pending? <==> Winners(s.generation, ts) == []
  {
    ReachableStates(rejects, s, ts);
  }
}
