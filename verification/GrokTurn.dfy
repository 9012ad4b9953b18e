/** The grok stream parser over a whole turn (`GrokStreamParser::parse_line`): what the answer, the
    completion event, the usage and the termination are after any stream of events. */
module GrokTurn {
  import opened Text
  import opened Positions
  import opened ToolCalls
  import opened GrokSpan

  datatype Tokens = Tokens(
    input: Option<nat>, output: Option<nat>, cached: Option<nat>, thinking: Option<nat>, total: Option<nat>)

  /** A usage block with the number of tool calls seen when it arrived. */
  datatype Usage = Usage(tokens: Tokens, toolCalls: nat)

  datatype Termination = Incomplete | EndTurn | ErroredTurn | MaxTurnsReached | Stopped

  datatype WorkingState =
    | MessageDelta | ToolCallStarted | ToolCallCompleted | CommandCompleted | FileEditCompleted
    | Stuck | TurnCompleted | ErrorState | UnknownState

  datatype Recorded = Recorded(state: WorkingState, detail: string, usage: Option<Usage>)

  type Call = ToolCall<string>

  /** One line of the stream, as decoded. An update's `status` is None when the line has none. */
  datatype Event =
    | Thought
    | TextData(data: string)
    | ToolCallStart(id: Option<string>, tool: string, kind: ToolKind, args: Option<Args>)
    | ToolCallUpdate(updateId: Option<string>, status: Option<string>, content: Option<FileContent>, text: string)
    | UsageReport(usage: Option<Tokens>)
    | End(sessionId: Option<string>, endUsage: Option<Tokens>, stopReason: Option<string>)
    | ErrorReport(message: string)
    | MaxTurns
    | Note(detail: string)
    | CompactFailed(reason: string)
    | Inert

  datatype Parser = Parser(
    sessionId: Option<string>, chunks: seq<string>, events: seq<Recorded>, calls: seq<Call>,
    usage: Option<Usage>, termination: Termination, stopReason: Option<string>, ended: bool,
    errorDetail: Option<string>)

  const FRESH := Parser(None, [], [], [], None, Incomplete, None, false, None)

  function Record(p: Parser, state: WorkingState, detail: string): Parser {
    p.(events := p.events + [Recorded(state, detail, None)])
  }

  function Preview(s: string): string { if |s| <= 120 then s else s[..120] }

  predicate IsOf(c: Call, id: string, open: bool) { c.id == Some(id) && (open ==> c.success.None?) }

  /** Position of the last record with this id, open ones only when `open`. */
  function FindCall(calls: seq<Call>, id: string, open: bool): (r: Option<nat>)
    ensures r.Some? ==> r.value < |calls| && IsOf(calls[r.value], id, open)
    ensures r.Some? ==> forall q :: r.value < q < |calls| ==> !IsOf(calls[q], id, open)
    ensures r.None? ==> forall q :: 0 <= q < |calls| ==> !IsOf(calls[q], id, open)
  {
    if calls == [] then None
    else
      var last := calls[|calls| - 1];
      if IsOf(last, id, open) then Some(|calls| - 1)
      else FindCall(calls[..|calls| - 1], id, open)
  }

  /** The last open call with the id; failing that, the last call with it. */
  function Target(calls: seq<Call>, id: Option<string>): (r: Option<nat>)
    ensures r.Some? ==> r.value < |calls|
  {
    match id
    case None => None
    case Some(i) =>
      match FindCall(calls, i, true)
      case Some(p) => Some(p)
      case None => FindCall(calls, i, false)
  }

  function Judged(isShell: string -> bool, c: Call, completed: bool, content: Option<FileContent>, text: string)
    : (c': Call)
    ensures c'.id == c.id && c'.success == Some(completed)
  {
    var c1 := c.(success := Some(completed));
    if completed && c.kind.ReadFile? && !isShell(c.tool) then c1.(returnedLines := ReturnedLines(content, text))
    else if completed && isShell(c.tool) then c1.(shownOutput := Some(text))
    else c1
  }

  function UpdateCall(isShell: string -> bool, p: Parser, e: Event): Parser
    requires e.ToolCallUpdate?
  {
    if e.status.None? then Record(p, ToolCallStarted, "in progress")
    else
      var completed := e.status.value == "completed";
      var target := Target(p.calls, e.updateId);
      var p' := match target
        case None => p
        case Some(i) => p.(calls := p.calls[i := Judged(isShell, p.calls[i], completed, e.content, e.text)]);
      var kind := if target.Some? then p.calls[target.value].kind else UnknownKind;
      var state := if kind.Bash? then CommandCompleted
                   else if kind.EditFile? || kind.WriteFile? then FileEditCompleted else ToolCallCompleted;
      Record(p', state, if completed then "completed" else "failed")
  }

  /** Rewrite the usage of the last completion event. */
  function Backfill(events: seq<Recorded>, u: Usage): (r: seq<Recorded>)
    ensures |r| == |events|
    ensures forall i :: 0 <= i < |r| ==> r[i].state == events[i].state && r[i].detail == events[i].detail
  {
    if events == [] then []
    else
      var n := |events| - 1;
      if events[n].state.TurnCompleted? then events[n := events[n].(usage := Some(u))]
      else Backfill(events[..n], u) + [events[n]]
  }

  function TakeUsage(p: Parser, tokens: Option<Tokens>): Parser {
    match tokens
    case None => p
    case Some(t) =>
      var u := Usage(t, |p.calls|);
      p.(usage := Some(u), events := if p.ended then Backfill(p.events, u) else p.events)
  }

  function EndedAs(reason: string): Termination {
    if reason == "max_turn_requests" then MaxTurnsReached
    else if reason == "max_tokens" || reason == "refusal" || reason == "cancelled" then Stopped
    else EndTurn
  }

  function ReasonOf(e: Event): string
    requires e.End?
  {
    match e.stopReason case Some(r) => r case None => "end_turn"
  }

  function FinishTurn(p: Parser, e: Event): Parser
    requires e.End?
  {
    if p.ended then p
    else
      var usage := match e.endUsage case Some(t) => Some(Usage(t, |p.calls|)) case None => p.usage;
      p.(ended := true,
         sessionId := if e.sessionId.Some? then e.sessionId else p.sessionId,
         usage := usage,
         termination := if p.termination.Incomplete? then EndedAs(ReasonOf(e)) else p.termination,
         stopReason := Some(ReasonOf(e)),
         events := p.events + [Recorded(TurnCompleted, ReasonOf(e), usage)])
  }

  function Step(isShell: string -> bool, classify: Classifier, p: Parser, e: Event): Parser {
    match e
    case Thought => Record(p, MessageDelta, "thinking")
    case TextData(d) =>
      if d == [] || p.ended then p else Record(p.(chunks := p.chunks + [d]), MessageDelta, Preview(d))
    case ToolCallStart(id, tool, kind, args) =>
      Record(p.(calls := p.calls + [ToolCall(id, tool, Classify(classify, kind, args), None, None, args, [], None)]),
             ToolCallStarted, tool)
    case ToolCallUpdate(_, _, _, _) => UpdateCall(isShell, p, e)
    case UsageReport(t) => TakeUsage(p, t)
    case End(_, _, _) => FinishTurn(p, e)
    case ErrorReport(m) => Record(p.(termination := ErroredTurn, errorDetail := Some(m)), ErrorState, m)
    case MaxTurns => Record(p.(termination := MaxTurnsReached), Stuck, "max_turns_reached")
    case Note(d) => Record(p, UnknownState, d)
    case CompactFailed(r) => Record(p, ErrorState, "auto_compact_failed: " + r)
    case Inert => p
  }

  function Run(isShell: string -> bool, classify: Classifier, es: seq<Event>): Parser {
    if es == [] then FRESH else Step(isShell, classify, Run(isShell, classify, es[..|es| - 1]), es[|es| - 1])
  }

  /** The parser object: one method per line, each branch updating the fields in place. */
  class GrokStreamParser {
    var sessionId: Option<string>
    var responseChunks: seq<string>
    var events: seq<Recorded>
    var toolCalls: seq<Call>
    var tokenUsage: Option<Usage>
    var termination: Termination
    var stopReason: Option<string>
    var ended: bool
    var errorDetail: Option<string>

    ghost function View(): Parser
      reads this
    {
      Parser(sessionId, responseChunks, events, toolCalls, tokenUsage, termination, stopReason, ended, errorDetail)
    }

    constructor ()
      ensures View() == FRESH
    {
      sessionId, responseChunks, events, toolCalls, tokenUsage := None, [], [], [], None;
      termination, stopReason, ended, errorDetail := Incomplete, None, false, None;
    }

    method RecordEvent(state: WorkingState, detail: string)
      modifies this`events
      ensures events == old(events) + [Recorded(state, detail, None)]
    {
      events := events + [Recorded(state, detail, None)];
    }

    method ParseLine(isShell: string -> bool, classify: Classifier, e: Event)
      modifies this
      ensures View() == Step(isShell, classify, old(View()), e)
    {
      match e {
        case Thought => RecordEvent(MessageDelta, "thinking");
        case TextData(d) =>
          if d == [] || ended { return; }
          responseChunks := responseChunks + [d];
          RecordEvent(MessageDelta, Preview(d));
        case ToolCallStart(id, tool, kind, args) =>
          var k := if args.Some? then classify(kind, args.value) else kind;
          toolCalls := toolCalls + [ToolCall(id, tool, k, None, None, args, [], None)];
          RecordEvent(ToolCallStarted, tool);
        case ToolCallUpdate(id, status, content, text) => UpdateToolCall(isShell, e);
        case UsageReport(t) =>
          if t.Some? {
            var u := Usage(t.value, |toolCalls|);
            if ended { events := Backfill(events, u); }
            tokenUsage := Some(u);
          }
        case End(sid, t, reason) => OnEnd(isShell, classify, e);
        case ErrorReport(m) =>
          termination, errorDetail := ErroredTurn, Some(m);
          RecordEvent(ErrorState, m);
        case MaxTurns =>
          termination := MaxTurnsReached;
          RecordEvent(Stuck, "max_turns_reached");
        case Note(d) => RecordEvent(UnknownState, d);
        case CompactFailed(r) => RecordEvent(ErrorState, "auto_compact_failed: " + r);
        case Inert =>
      }
    }

    method OnEnd(isShell: string -> bool, classify: Classifier, e: Event)
      requires e.End?
      modifies this
      ensures View() == Step(isShell, classify, old(View()), e)
    {
      if ended { return; }
      ended := true;
      if e.sessionId.Some? { sessionId := e.sessionId; }
      if e.endUsage.Some? { tokenUsage := Some(Usage(e.endUsage.value, |toolCalls|)); }
      var detail := if e.stopReason.Some? then e.stopReason.value else "end_turn";
      if termination == Incomplete { termination := EndedAs(detail); }
      stopReason := Some(detail);
      events := events + [Recorded(TurnCompleted, detail, tokenUsage)];
    }

    method UpdateToolCall(isShell: string -> bool, e: Event)
      requires e.ToolCallUpdate?
      modifies this`toolCalls, this`events
      ensures View() == UpdateCall(isShell, old(View()), e)
    {
      if e.status.None? {
        RecordEvent(ToolCallStarted, "in progress");
        return;
      }
      var completed := e.status.value == "completed";
      var target := Target(toolCalls, e.updateId);
      var kind := UnknownKind;
      if target.Some? {
        var idx := target.value;
        kind := toolCalls[idx].kind;
        var rec := toolCalls[idx].(success := Some(completed));
        if completed && rec.kind == ReadFile && !isShell(rec.tool) {
          rec := rec.(returnedLines := ReturnedLines(e.content, e.text));
        } else if completed && isShell(rec.tool) {
          rec := rec.(shownOutput := Some(e.text));
        }
        toolCalls := toolCalls[idx := rec];
      }
      var state := if kind.Bash? then CommandCompleted
                   else if kind.EditFile? || kind.WriteFile? then FileEditCompleted else ToolCallCompleted;
      RecordEvent(state, if completed then "completed" else "failed");
    }
  }

  // ----- the answer -----

  function Concat(chunks: seq<string>): string {
    if chunks == [] then [] else Concat(chunks[..|chunks| - 1]) + chunks[|chunks| - 1]
  }

  predicate Ends(es: seq<Event>) { exists e :: e in es && e.End? }

  /** All text data that arrives before the first `end`. */
  function TextBeforeEnd(es: seq<Event>): string {
    if es == [] then []
    else
      var front, e := es[..|es| - 1], es[|es| - 1];
      TextBeforeEnd(front) + if e.TextData? && !Ends(front) then e.data else []
  }

  lemma ConcatSnoc(chunks: seq<string>, d: string)
    ensures Concat(chunks + [d]) == Concat(chunks) + d
  {
    assert (chunks + [d])[..|chunks|] == chunks;
  }

  lemma {:induction false} EndedIffEnds(isShell: string -> bool, classify: Classifier, es: seq<Event>)
    ensures Run(isShell, classify, es).ended <==> Ends(es)
  {
    if es == [] {
    } else {
      EndedIffEnds(isShell, classify, es[..|es| - 1]);
      assert es == es[..|es| - 1] + [es[|es| - 1]];
    }
  }

  lemma StepAnswers(isShell: string -> bool, classify: Classifier, p: Parser, e: Event)
    ensures Concat(Step(isShell, classify, p, e).chunks)
         == Concat(p.chunks) + if e.TextData? && !p.ended then e.data else []
  {
    if e.TextData? { ConcatSnoc(p.chunks, e.data); }
  }

  /** The answer is exactly the text before the first `end`. */
  lemma {:induction false} AnswerExact(isShell: string -> bool, classify: Classifier, es: seq<Event>)
    ensures Concat(Run(isShell, classify, es).chunks) == TextBeforeEnd(es)
  {
    if es == [] {
    } else {
      var front, e := es[..|es| - 1], es[|es| - 1];
      AnswerExact(isShell, classify, front);
      EndedIffEnds(isShell, classify, front);
      StepAnswers(isShell, classify, Run(isShell, classify, front), e);
    }
  }

  // ----- completion and usage -----

  /** The completion event at `i` is the only one, and carries the usage the parser now holds. */
  predicate CompletesAt(p: Parser, i: nat) {
    && i < |p.events| && p.events[i].state.TurnCompleted? && p.events[i].usage == p.usage
    && forall j :: 0 <= j < |p.events| && p.events[j].state.TurnCompleted? ==> j == i
  }

  /** No completion event before `end`; exactly one, with current usage, after it. */
  ghost predicate CompletionInv(p: Parser) {
    if p.ended then exists i: nat :: CompletesAt(p, i)
    else forall j :: 0 <= j < |p.events| ==> !p.events[j].state.TurnCompleted?
  }

  lemma {:induction false} BackfillHits(events: seq<Recorded>, u: Usage, i: nat)
    requires i < |events| && events[i].state.TurnCompleted?
    requires forall j :: 0 <= j < |events| && events[j].state.TurnCompleted? ==> j == i
    ensures Backfill(events, u) == events[i := events[i].(usage := Some(u))]
  {
    var n := |events| - 1;
    if !events[n].state.TurnCompleted? {
      BackfillHits(events[..n], u, i);
      assert events == events[..n] + [events[n]];
    }
  }

  lemma RecordKeeps(p: Parser, state: WorkingState, detail: string)
    requires CompletionInv(p) && !state.TurnCompleted?
    ensures CompletionInv(Record(p, state, detail))
  {
    var p' := Record(p, state, detail);
    if p.ended {
      var i: nat :| CompletesAt(p, i);
      assert CompletesAt(p', i);
    }
  }

  lemma UsageKeeps(p: Parser, tokens: Option<Tokens>)
    requires CompletionInv(p)
    ensures CompletionInv(TakeUsage(p, tokens))
  {
    if p.ended && tokens.Some? {
      var i: nat :| CompletesAt(p, i);
      BackfillHits(p.events, Usage(tokens.value, |p.calls|), i);
      assert CompletesAt(TakeUsage(p, tokens), i);
    }
  }

  lemma FinishKeeps(p: Parser, e: Event)
    requires CompletionInv(p) && e.End?
    ensures CompletionInv(FinishTurn(p, e))
  {
    if !p.ended { assert CompletesAt(FinishTurn(p, e), |p.events|); }
  }

  lemma UpdateKeeps(isShell: string -> bool, p: Parser, e: Event)
    requires CompletionInv(p) && e.ToolCallUpdate?
    ensures CompletionInv(UpdateCall(isShell, p, e))
  {
    var p' := UpdateCall(isShell, p, e);
    RecordKeeps(p, p'.events[|p.events|].state, p'.events[|p.events|].detail);
    if p.ended {
      var i: nat :| CompletesAt(p, i);
      assert CompletesAt(p', i);
    }
  }

  lemma OthersKeep(isShell: string -> bool, classify: Classifier, p: Parser, e: Event)
    requires CompletionInv(p) && !e.ToolCallUpdate? && !e.UsageReport? && !e.End?
    ensures CompletionInv(Step(isShell, classify, p, e))
  {
    var p' := Step(isShell, classify, p, e);
    if p.ended {
      var i: nat :| CompletesAt(p, i);
      assert CompletesAt(p', i);
    }
  }

  /** In every run there is at most one completion event; there is one exactly after `end`, and it
      carries the parser's current usage, also when usage arrives later. */
  lemma {:induction false} OneCompletion(isShell: string -> bool, classify: Classifier, es: seq<Event>)
    ensures CompletionInv(Run(isShell, classify, es)) && (Run(isShell, classify, es).ended <==> Ends(es))
  {
    EndedIffEnds(isShell, classify, es);
    if es == [] {
    } else {
      var front, e := es[..|es| - 1], es[|es| - 1];
      OneCompletion(isShell, classify, front);
      var p := Run(isShell, classify, front);
      match e
      case ToolCallUpdate(_, _, _, _) => UpdateKeeps(isShell, p, e);
      case UsageReport(t) => UsageKeeps(p, t);
      case End(_, _, _) => FinishKeeps(p, e);
      case _ => OthersKeep(isShell, classify, p, e);
    }
  }

  // ----- termination -----

  /** The last error or turn-limit event decides; without one, the first `end` does. */
  function TerminationOf(es: seq<Event>): Termination {
    if es == [] then Incomplete
    else
      var t, e := TerminationOf(es[..|es| - 1]), es[|es| - 1];
      if e.ErrorReport? then ErroredTurn
      else if e.MaxTurns? then MaxTurnsReached
      else if e.End? && t.Incomplete? then EndedAs(ReasonOf(e))
      else t
  }

  predicate IsTerminal(e: Event) { e.End? || e.ErrorReport? || e.MaxTurns? }

  predicate NoTerminal(es: seq<Event>) { forall e :: e in es ==> !IsTerminal(e) }

  lemma NoTerminalSnoc(front: seq<Event>, e: Event)
    ensures NoTerminal(front + [e]) <==> NoTerminal(front) && !IsTerminal(e)
  {
    assert e in front + [e] && forall x :: x in front ==> x in front + [e];
  }

  lemma {:induction false} IncompleteIffNoTerminal(es: seq<Event>)
    ensures TerminationOf(es).Incomplete? <==> NoTerminal(es)
  {
    if es == [] {
    } else {
      var front, e := es[..|es| - 1], es[|es| - 1];
      IncompleteIffNoTerminal(front);
      NoTerminalSnoc(front, e);
      assert es == front + [e];
    }
  }

  lemma EndsIsTerminal(es: seq<Event>)
    ensures Ends(es) ==> !NoTerminal(es)
  {
    if Ends(es) {
      var x :| x in es && x.End?;
      assert IsTerminal(x);
    }
  }

  lemma {:induction false} FoldsTermination(isShell: string -> bool, classify: Classifier, es: seq<Event>)
    ensures Run(isShell, classify, es).termination == TerminationOf(es)
  {
    if es == [] {
    } else {
      var front := es[..|es| - 1];
      FoldsTermination(isShell, classify, front);
      EndedIffEnds(isShell, classify, front);
      EndsIsTerminal(front);
      IncompleteIffNoTerminal(front);
    }
  }

  predicate IsFatal(e: Event) { e.ErrorReport? || e.MaxTurns? }

  predicate NoFatal(es: seq<Event>) { forall e :: e in es ==> !IsFatal(e) }

  /** Event `i` decides the turn: the last error or turn-limit event, or, where there is none, the
      first `end`. */
  predicate Decides(es: seq<Event>, i: nat) {
    && i < |es|
    && if IsFatal(es[i]) then NoFatal(es[i + 1..]) else NoFatal(es) && es[i].End? && !Ends(es[..i])
  }

  /** How a turn ends that this event decides: an `end` with no reason, or one that names no limit, no
      refusal and no cancel, is a full answer. */
  function VerdictOf(e: Event): Termination
    requires IsTerminal(e)
  {
    match e
    case ErrorReport(_) => ErroredTurn
    case MaxTurns => MaxTurnsReached
    case End(_, _, None) => EndTurn
    case End(_, _, Some(r)) =>
      if r == "max_turn_requests" then MaxTurnsReached
      else if r in ["max_tokens", "refusal", "cancelled"] then Stopped
      else EndTurn
  }

  lemma VerdictOfEnd(e: Event)
    requires e.End?
    ensures VerdictOf(e) == EndedAs(ReasonOf(e))
  {
  }

  lemma NoTerminalParts(es: seq<Event>)
    ensures NoTerminal(es) <==> NoFatal(es) && !Ends(es)
  {
  }

  lemma DecidesFront(es: seq<Event>, i: nat)
    requires Decides(es, i) && i < |es| - 1
    ensures Decides(es[..|es| - 1], i) && !IsFatal(es[|es| - 1])
  {
    var front, last := es[..|es| - 1], es[|es| - 1];
    assert last in es[i + 1..] && last in es;
    assert front[..i] == es[..i] && front[i + 1..] == es[i + 1..][..|es| - i - 2];
  }

  lemma LastDecides(es: seq<Event>)
    requires es != [] && Decides(es, |es| - 1)
    ensures TerminationOf(es) == VerdictOf(es[|es| - 1])
  {
    var front := es[..|es| - 1];
    if es[|es| - 1].End? {
      VerdictOfEnd(es[|es| - 1]);
      assert forall e :: e in front ==> e in es;
      NoTerminalParts(front);
      IncompleteIffNoTerminal(front);
    }
  }

  lemma {:induction false} DecisionStands(es: seq<Event>, i: nat)
    requires Decides(es, i)
    ensures TerminationOf(es) == VerdictOf(es[i])
  {
    if i == |es| - 1 {
      LastDecides(es);
    } else {
      DecidesFront(es, i);
      DecisionStands(es[..|es| - 1], i);
    }
  }

  lemma {:induction false} SomeDecides(es: seq<Event>) returns (i: nat)
    requires !NoTerminal(es)
    ensures Decides(es, i)
  {
    var n := |es| - 1;
    var front, last := es[..n], es[n];
    assert es == front + [last] && es[n + 1..] == [];
    if IsFatal(last) {
      i := n;
    } else if NoTerminal(front) {
      NoTerminalParts(front);
      i := n;
    } else {
      i := SomeDecides(front);
      assert es[i + 1..] == front[i + 1..] + [last] && es[..i] == front[..i];
    }
  }

  /** How every turn ends: incomplete exactly when no terminal event was seen; otherwise as the event
      that decides it says, and some event does. */
  lemma TerminationExact(isShell: string -> bool, classify: Classifier, es: seq<Event>)
    ensures Run(isShell, classify, es).termination.Incomplete? <==> NoTerminal(es)
    ensures NoTerminal(es) || exists i: nat :: Decides(es, i)
    ensures forall i: nat :: Decides(es, i) ==> Run(isShell, classify, es).termination == VerdictOf(es[i])
  {
    FoldsTermination(isShell, classify, es);
    IncompleteIffNoTerminal(es);
    if !NoTerminal(es) {
      var i := SomeDecides(es);
    }
    forall i: nat | Decides(es, i) ensures TerminationOf(es) == VerdictOf(es[i]) {
      DecisionStands(es, i);
    }
  }

  function Terminals(es: seq<Event>): seq<Event> {
    if es == [] then []
    else Terminals(es[..|es| - 1]) + if IsTerminal(es[|es| - 1]) then [es[|es| - 1]] else []
  }

  lemma {:induction false} FoldOfTerminals(es: seq<Event>)
    ensures TerminationOf(es) == TerminationOf(Terminals(es))
  {
    if es == [] {
    } else {
      var front := es[..|es| - 1];
      FoldOfTerminals(front);
      if IsTerminal(es[|es| - 1]) {
        assert Terminals(es)[..|Terminals(es)| - 1] == Terminals(front);
      } else {
        assert Terminals(es) == Terminals(front);
      }
    }
  }

  /** Neither text, usage nor tool events decide how a turn ends: the parser ends the same on the
      terminal events alone. */
  lemma OnlyTerminalsDecide(isShell: string -> bool, classify: Classifier, es: seq<Event>)
    ensures Run(isShell, classify, es).termination == Run(isShell, classify, Terminals(es)).termination
  {
    FoldsTermination(isShell, classify, es);
    FoldsTermination(isShell, classify, Terminals(es));
    FoldOfTerminals(es);
  }

  // ----- tool updates -----

  /** The record an update of `id` is for: the last open one of that id, or, when none is open, the
      last one. */
  predicate IsTarget(calls: seq<Call>, id: Option<string>, q: nat) {
    && q < |calls| && id.Some? && calls[q].id == id
    && (forall r :: q < r < |calls| && calls[r].id == id ==> calls[q].success.None? && calls[r].success.Some?)
    && (calls[q].success.Some? ==> forall r :: 0 <= r < |calls| && calls[r].id == id ==> calls[r].success.Some?)
  }

  lemma TargetIsIt(calls: seq<Call>, id: Option<string>, q: nat)
    requires q < |calls|
    ensures Target(calls, id) == Some(q) <==> IsTarget(calls, id, q)
  {
  }

  /** A verdict lands on its target as the verdict says, whenever a record of its id exists; no other
      record changes, and an update with no status changes none. */
  lemma UpdateExact(isShell: string -> bool, p: Parser, e: Event, q: nat)
    requires e.ToolCallUpdate? && q < |p.calls|
    ensures |UpdateCall(isShell, p, e).calls| == |p.calls|
    ensures UpdateCall(isShell, p, e).calls[q]
         == if e.status.Some? && IsTarget(p.calls, e.updateId, q)
            then Judged(isShell, p.calls[q], e.status.value == "completed", e.content, e.text) else p.calls[q]
    ensures e.updateId.Some? && p.calls[q].id == e.updateId ==> exists r :: IsTarget(p.calls, e.updateId, r)
  {
    TargetIsIt(p.calls, e.updateId, q);
    if e.updateId.Some? && p.calls[q].id == e.updateId {
      var t := Target(p.calls, e.updateId).value;
      TargetIsIt(p.calls, e.updateId, t);
    }
  }

  // ----- calls do not interfere -----

  /** The event is about calls with this id. */
  predicate Concerns(e: Event, k: string) {
    (e.ToolCallStart? && e.id == Some(k)) || (e.ToolCallUpdate? && e.updateId == Some(k))
  }

  function Of(es: seq<Event>, k: string): seq<Event> {
    if es == [] then []
    else Of(es[..|es| - 1], k) + if Concerns(es[|es| - 1], k) then [es[|es| - 1]] else []
  }

  /** How many records of `k` come before position `i`. */
  function Rank(calls: seq<Call>, k: string, i: nat): nat
    requires i <= |calls|
  {
    |Only(calls[..i], k)|
  }

  /** Record `i` of `k` stands at its rank among the records of `k`, and so does a change to it. */
  predicate StandsAt(calls: seq<Call>, k: string, i: nat, c: Call)
    requires i < |calls|
  {
    var only, r := Only(calls, k), Rank(calls, k, i);
    r < |only| && only[r] == calls[i] && Only(calls[i := c], k) == only[r := c]
  }

  lemma UpdateThenAppend<T>(a: seq<T>, i: nat, x: T, b: seq<T>)
    requires i < |a|
    ensures (a + b)[i := x] == a[i := x] + b && (a + b)[i] == a[i]
  {
  }

  lemma StandsSnoc(calls: seq<Call>, last: Call, k: string, i: nat, c: Call)
    requires i < |calls| && StandsAt(calls, k, i, c)
    ensures StandsAt(calls + [last], k, i, c)
  {
    OnlyAppend(calls, last, k);
    OnlyAppend(calls[i := c], last, k);
    RankSnoc(calls, last, k, i);
    UpdateThenAppend(calls, i, c, [last]);
    UpdateThenAppend(Only(calls, k), Rank(calls, k, i), c, if last.id == Some(k) then [last] else []);
  }

  lemma StandsLast(calls: seq<Call>, last: Call, k: string, c: Call)
    requires last.id == Some(k) && c.id == Some(k)
    ensures StandsAt(calls + [last], k, |calls|, c)
  {
    OnlyAppend(calls, last, k);
    OnlyAppend(calls, c, k);
    RankSnoc(calls, last, k, |calls|);
    assert (calls + [last])[|calls| := c] == calls + [c];
  }

  lemma {:induction false} RankOf(calls: seq<Call>, k: string, i: nat, c: Call)
    requires i < |calls| && calls[i].id == Some(k) && c.id == Some(k)
    ensures StandsAt(calls, k, i, c)
  {
    var n := |calls| - 1;
    assert calls == calls[..n] + [calls[n]];
    if i == n {
      StandsLast(calls[..n], calls[n], k, c);
    } else {
      RankOf(calls[..n], k, i, c);
      StandsSnoc(calls[..n], calls[n], k, i, c);
    }
  }

  lemma {:induction false} OthersKept(calls: seq<Call>, k: string, i: nat, c: Call)
    requires i < |calls| && calls[i].id != Some(k) && c.id == calls[i].id
    ensures Only(calls[i := c], k) == Only(calls, k)
  {
    var n := |calls| - 1;
    if i == n {
      assert calls[i := c][..n] == calls[..n];
    } else {
      OthersKept(calls[..n], k, i, c);
      assert calls[i := c][..n] == calls[..n][i := c];
    }
  }

  lemma FindSnoc(calls: seq<Call>, c: Call, k: string, open: bool)
    ensures FindCall(calls + [c], k, open) == if IsOf(c, k, open) then Some(|calls|) else FindCall(calls, k, open)
  {
    assert (calls + [c])[..|calls|] == calls;
  }

  lemma RankSnoc(calls: seq<Call>, c: Call, k: string, i: nat)
    requires i <= |calls|
    ensures Rank(calls + [c], k, i) == Rank(calls, k, i) && Rank(calls, k, |calls|) == |Only(calls, k)|
  {
    assert (calls + [c])[..i] == calls[..i] && calls[..|calls|] == calls;
  }

  /** The search among the records of `k` finds what the search among all finds. */
  predicate FindsAlike(calls: seq<Call>, k: string, open: bool) {
    FindCall(Only(calls, k), k, open)
    == match FindCall(calls, k, open) case None => None case Some(i) => Some(Rank(calls, k, i))
  }

  lemma FindsAlikeSnoc(calls: seq<Call>, c: Call, k: string, open: bool)
    requires FindsAlike(calls, k, open)
    ensures FindsAlike(calls + [c], k, open)
  {
    OnlyAppend(calls, c, k);
    FindSnoc(calls, c, k, open);
    RankSnoc(calls, c, k, |calls|);
    if c.id == Some(k) {
      FindSnoc(Only(calls, k), c, k, open);
    } else {
      assert Only(calls, k) + [] == Only(calls, k);
    }
    if !IsOf(c, k, open) && FindCall(calls, k, open).Some? {
      RankSnoc(calls, c, k, FindCall(calls, k, open).value);
    }
  }

  lemma {:induction false} FindAmongOnly(calls: seq<Call>, k: string, open: bool)
    ensures FindsAlike(calls, k, open)
  {
    if calls == [] {
    } else {
      var n := |calls| - 1;
      FindAmongOnly(calls[..n], k, open);
      FindsAlikeSnoc(calls[..n], calls[n], k, open);
      assert calls == calls[..n] + [calls[n]];
    }
  }

  lemma TargetAmongOnly(calls: seq<Call>, k: string)
    ensures Target(Only(calls, k), Some(k))
         == match Target(calls, Some(k)) case None => None case Some(i) => Some(Rank(calls, k, i))
  {
    FindAmongOnly(calls, k, true);
    FindAmongOnly(calls, k, false);
  }

  /** One event: the records of `k` change as they would alone, and only if it concerns `k`. */
  lemma StepOfOne(isShell: string -> bool, classify: Classifier, p: Parser, q: Parser, e: Event, k: string)
    requires q.calls == Only(p.calls, k)
    ensures Only(Step(isShell, classify, p, e).calls, k)
         == if Concerns(e, k) then Step(isShell, classify, q, e).calls else q.calls
  {
    match e
    case ToolCallStart(id, tool, kind, args) =>
      OnlyAppend(p.calls, ToolCall(id, tool, Classify(classify, kind, args), None, None, args, [], None), k);
    case ToolCallUpdate(id, status, content, text) =>
      if Concerns(e, k) {
        TargetAmongOnly(p.calls, k);
      }
      if status.Some? && Target(p.calls, id).Some? {
        var i := Target(p.calls, id).value;
        var c := Judged(isShell, p.calls[i], status.value == "completed", content, text);
        if Concerns(e, k) { RankOf(p.calls, k, i, c); } else { OthersKept(p.calls, k, i, c); }
      }
    case _ =>
  }

  lemma OfSnoc(es: seq<Event>, k: string)
    requires es != []
    ensures Concerns(es[|es| - 1], k) ==> Of(es, k) == Of(es[..|es| - 1], k) + [es[|es| - 1]]
    ensures !Concerns(es[|es| - 1], k) ==> Of(es, k) == Of(es[..|es| - 1], k)
  {
  }

  /** The records of one id after any stream are those of its own events alone. */
  lemma {:induction false} CallsDoNotInterfere(isShell: string -> bool, classify: Classifier, es: seq<Event>, k: string)
    ensures Only(Run(isShell, classify, es).calls, k) == Run(isShell, classify, Of(es, k)).calls
  {
    if es == [] {
    } else {
      var front, e := es[..|es| - 1], es[|es| - 1];
      var p, q := Run(isShell, classify, front), Run(isShell, classify, Of(front, k));
      CallsDoNotInterfere(isShell, classify, front, k);
      StepOfOne(isShell, classify, p, q, e, k);
      OfSnoc(es, k);
      RunSnoc(isShell, classify, Of(front, k), e);
    }
  }

  // ----- what a credit needs -----

  predicate HasCredit(c: Call) { c.returnedLines != [] || c.shownOutput.Some? }

  /** Lines or output only where the call succeeded. */
  predicate AllEarned(calls: seq<Call>) {
    forall q :: 0 <= q < |calls| && HasCredit(calls[q]) ==> calls[q].success == Some(true)
  }

  /** A failed verdict for a call that already has lines or output: the source keeps them. */
  predicate Overturns(calls: seq<Call>, e: Event) {
    && IsFailure(e)
    && exists q :: 0 <= q < |calls| && IsTarget(calls, e.updateId, q) && HasCredit(calls[q])
  }

  lemma UpdateEarnsExactly(isShell: string -> bool, p: Parser, e: Event)
    requires e.ToolCallUpdate? && AllEarned(p.calls)
    ensures AllEarned(UpdateCall(isShell, p, e).calls) <==> !Overturns(p.calls, e)
  {
    var calls' := UpdateCall(isShell, p, e).calls;
    forall q: nat | q < |p.calls|
      ensures |calls'| == |p.calls|
      ensures calls'[q] == if e.status.Some? && IsTarget(p.calls, e.updateId, q)
                           then Judged(isShell, p.calls[q], e.status.value == "completed", e.content, e.text)
                           else p.calls[q]
    {
      UpdateExact(isShell, p, e, q);
    }
    if Overturns(p.calls, e) {
      var q :| 0 <= q < |p.calls| && IsTarget(p.calls, e.updateId, q) && HasCredit(p.calls[q]);
      assert HasCredit(calls'[q]) && calls'[q].success == Some(false);
    }
  }

  /** One event keeps every credit earned exactly when it does not overturn one. */
  lemma StepEarnsExactly(isShell: string -> bool, classify: Classifier, p: Parser, e: Event)
    requires AllEarned(p.calls)
    ensures AllEarned(Step(isShell, classify, p, e).calls) <==> !Overturns(p.calls, e)
  {
    if e.ToolCallUpdate? { UpdateEarnsExactly(isShell, p, e); }
  }

  /** No event of the stream overturns a credit that stands when it arrives. */
  predicate NeverOverturns(isShell: string -> bool, classify: Classifier, es: seq<Event>) {
    forall i :: 0 <= i < |es| ==> !Overturns(Run(isShell, classify, es[..i]).calls, es[i])
  }

  predicate EarnedThroughout(isShell: string -> bool, classify: Classifier, es: seq<Event>) {
    forall i :: 0 <= i <= |es| ==> AllEarned(Run(isShell, classify, es[..i]).calls)
  }

  lemma EarnedSnoc(isShell: string -> bool, classify: Classifier, es: seq<Event>, e: Event)
    ensures EarnedThroughout(isShell, classify, es + [e])
            <==> EarnedThroughout(isShell, classify, es) && AllEarned(Run(isShell, classify, es + [e]).calls)
  {
    var more := es + [e];
    assert more[..|more|] == more && forall i :: 0 <= i <= |es| ==> more[..i] == es[..i];
  }

  lemma OverturnsSnoc(isShell: string -> bool, classify: Classifier, es: seq<Event>, e: Event)
    ensures NeverOverturns(isShell, classify, es + [e])
            <==> NeverOverturns(isShell, classify, es) && !Overturns(Run(isShell, classify, es).calls, e)
  {
    var more := es + [e];
    assert more[..|es|] == es && more[|es|] == e;
    assert forall i :: 0 <= i < |es| ==> more[..i] == es[..i] && more[i] == es[i];
  }

  /** Lines and output stand only with calls that succeeded, all through a stream, exactly when no
      event of it overturns a credit. */
  lemma {:induction false} EarnedThroughoutExactly(isShell: string -> bool, classify: Classifier, es: seq<Event>)
    ensures EarnedThroughout(isShell, classify, es) <==> NeverOverturns(isShell, classify, es)
    ensures EarnedThroughout(isShell, classify, es) ==> AllEarned(Run(isShell, classify, es).calls)
  {
    assert es[..|es|] == es;
    if es == [] {
      assert es[..0] == [];
    } else {
      var front, e := es[..|es| - 1], es[|es| - 1];
      assert es == front + [e];
      EarnedThroughoutExactly(isShell, classify, front);
      EarnedSnoc(isShell, classify, front, e);
      OverturnsSnoc(isShell, classify, front, e);
      RunSnoc(isShell, classify, front, e);
      if AllEarned(Run(isShell, classify, front).calls) {
        StepEarnsExactly(isShell, classify, Run(isShell, classify, front), e);
      }
    }
  }

  /** Calls of `k` still open after these events: a start opens one, a verdict closes one. */
  function OpenAfter(es: seq<Event>, k: string): nat {
    if es == [] then 0
    else
      var n, e := OpenAfter(es[..|es| - 1], k), es[|es| - 1];
      if e.ToolCallStart? && e.id == Some(k) then n + 1
      else if e.ToolCallUpdate? && e.updateId == Some(k) && e.status.Some? && n > 0 then n - 1
      else n
  }

  function CountOpen(calls: seq<Call>, k: string): nat {
    if calls == [] then 0
    else CountOpen(calls[..|calls| - 1], k) + if IsOf(calls[|calls| - 1], k, true) then 1 else 0
  }

  lemma {:induction false} NoneOpenExactly(calls: seq<Call>, k: string)
    ensures CountOpen(calls, k) == 0 <==> FindCall(calls, k, true).None?
  {
    if calls == [] {
    } else {
      NoneOpenExactly(calls[..|calls| - 1], k);
    }
  }

  /** A verdict on a record closes it if it was open and of this id, and no other. */
  lemma {:induction false} CountOpenUpdate(calls: seq<Call>, k: string, i: nat, c: Call)
    requires i < |calls| && c.id == calls[i].id && c.success.Some?
    ensures CountOpen(calls[i := c], k) == CountOpen(calls, k) - if IsOf(calls[i], k, true) then 1 else 0
  {
    var n := |calls| - 1;
    if i == n {
      assert calls[i := c][..n] == calls[..n];
    } else {
      CountOpenUpdate(calls[..n], k, i, c);
      assert calls[i := c][..n] == calls[..n][i := c];
    }
  }

  lemma OpenStep(isShell: string -> bool, classify: Classifier, p: Parser, e: Event, k: string)
    ensures CountOpen(Step(isShell, classify, p, e).calls, k)
         == (var n := CountOpen(p.calls, k);
             if e.ToolCallStart? && e.id == Some(k) then n + 1
             else if e.ToolCallUpdate? && e.updateId == Some(k) && e.status.Some? && n > 0 then n - 1
             else n)
  {
    match e
    case ToolCallStart(id, tool, kind, args) =>
      var c := ToolCall(id, tool, Classify(classify, kind, args), None, None, args, [], None);
      assert (p.calls + [c])[..|p.calls|] == p.calls;
    case ToolCallUpdate(id, status, content, text) =>
      NoneOpenExactly(p.calls, k);
      if status.Some? && Target(p.calls, id).Some? {
        var i := Target(p.calls, id).value;
        CountOpenUpdate(p.calls, k, i, Judged(isShell, p.calls[i], status.value == "completed", content, text));
      }
    case _ =>
  }

  /** The stream alone says how many calls of an id are open. */
  lemma {:induction false} OpenExact(isShell: string -> bool, classify: Classifier, es: seq<Event>, k: string)
    ensures CountOpen(Run(isShell, classify, es).calls, k) == OpenAfter(es, k)
  {
    if es == [] {
    } else {
      OpenExact(isShell, classify, es[..|es| - 1], k);
      OpenStep(isShell, classify, Run(isShell, classify, es[..|es| - 1]), es[|es| - 1], k);
    }
  }

  /** An open call has neither lines nor output. */
  predicate OpenIsBare(calls: seq<Call>) {
    forall q :: 0 <= q < |calls| && calls[q].success.None? ==> !HasCredit(calls[q])
  }

  lemma {:induction false} OpenStaysBare(isShell: string -> bool, classify: Classifier, es: seq<Event>)
    ensures OpenIsBare(Run(isShell, classify, es).calls)
  {
    if es == [] {
    } else {
      OpenStaysBare(isShell, classify, es[..|es| - 1]);
    }
  }

  /** Every failed verdict finds a call of its id open, by the stream alone: more starts than verdicts. */
  predicate FailsOnlyOpen(es: seq<Event>) {
    forall i :: 0 <= i < |es| && IsFailure(es[i]) && es[i].updateId.Some? ==>
      OpenAfter(es[..i], es[i].updateId.value) > 0
  }

  predicate IsFailure(e: Event) { e.ToolCallUpdate? && e.status.Some? && e.status.value != "completed" }

  lemma OpenIsNotOverturned(calls: seq<Call>, e: Event, k: string)
    requires OpenIsBare(calls) && CountOpen(calls, k) > 0 && e.ToolCallUpdate? && e.updateId == Some(k)
    ensures !Overturns(calls, e)
  {
    NoneOpenExactly(calls, k);
    forall q: nat | q < |calls| && IsTarget(calls, e.updateId, q) ensures !HasCredit(calls[q]) {
      TargetIsIt(calls, e.updateId, q);
    }
  }

  /** Lines and output are credited only to calls that succeeded, all through every stream whose
      failed verdicts each find a call of their id open. */
  lemma CreditNeedsSuccess(isShell: string -> bool, classify: Classifier, es: seq<Event>)
    requires FailsOnlyOpen(es)
    ensures EarnedThroughout(isShell, classify, es)
  {
    forall i | 0 <= i < |es| ensures !Overturns(Run(isShell, classify, es[..i]).calls, es[i]) {
      var calls, e := Run(isShell, classify, es[..i]).calls, es[i];
      if IsFailure(e) && e.updateId.Some? {
        OpenStaysBare(isShell, classify, es[..i]);
        OpenExact(isShell, classify, es[..i], e.updateId.value);
        OpenIsNotOverturned(calls, e, e.updateId.value);
      }
    }
    EarnedThroughoutExactly(isShell, classify, es);
  }

  const STARTED := ToolCallStart(Some("c"), "bash", Bash, None)
  const COMPLETED := ToolCallUpdate(Some("c"), Some("completed"), None, "x")
  const FAILED := ToolCallUpdate(Some("c"), Some("failed"), None, "")

  lemma RunOfOne(isShell: string -> bool, classify: Classifier, e: Event)
    ensures Run(isShell, classify, [e]) == Step(isShell, classify, FRESH, e)
  {
    assert [e][..0] == [];
  }

  lemma RunSnoc(isShell: string -> bool, classify: Classifier, es: seq<Event>, e: Event)
    ensures Run(isShell, classify, es + [e]) == Step(isShell, classify, Run(isShell, classify, es), e)
  {
    assert (es + [e])[..|es|] == es;
  }

  lemma UpdateOfOne(isShell: string -> bool, p: Parser, e: Event)
    requires |p.calls| == 1 && e.ToolCallUpdate? && e.updateId.Some? && p.calls[0].id == e.updateId && e.status.Some?
    ensures UpdateCall(isShell, p, e).calls
         == [Judged(isShell, p.calls[0], e.status.value == "completed", e.content, e.text)]
  {
    UpdateExact(isShell, p, e, 0);
    assert IsTarget(p.calls, e.updateId, 0);
  }

  /** A shell call reported completed and then failed: its output stays. */
  lemma OverturnedKeepsOutput(isShell: string -> bool, classify: Classifier)
    requires isShell("bash")
    ensures var calls := Run(isShell, classify, [STARTED] + [COMPLETED] + [FAILED]).calls;
            |calls| == 1 && calls[0].success == Some(false) && calls[0].shownOutput == Some("x")
  {
    var p1 := Run(isShell, classify, [STARTED]);
    RunOfOne(isShell, classify, STARTED);
    RunSnoc(isShell, classify, [STARTED], COMPLETED);
    RunSnoc(isShell, classify, [STARTED] + [COMPLETED], FAILED);
    assert p1.calls == [ToolCall(Some("c"), "bash", Bash, None, None, None, [], None)];
    UpdateOfOne(isShell, p1, COMPLETED);
    UpdateOfOne(isShell, Run(isShell, classify, [STARTED] + [COMPLETED]), FAILED);
  }

  // ----- the fields, from the events alone -----

  /** Event `q` brings usage: a report that has some, or the first `end` with some. */
  predicate Bears(es: seq<Event>, q: nat) {
    && q < |es|
    && ((es[q].UsageReport? && es[q].usage.Some?) || (es[q].End? && es[q].endUsage.Some? && !Ends(es[..q])))
  }

  function TokensOf(e: Event): Tokens
    requires (e.UsageReport? && e.usage.Some?) || (e.End? && e.endUsage.Some?)
  {
    if e.UsageReport? then e.usage.value else e.endUsage.value
  }

  function StartsIn(es: seq<Event>): (ss: seq<nat>) { Pick(|es|, (p: nat) => p < |es| && es[p].ToolCallStart?) }

  lemma StartsSnoc(front: seq<Event>, e: Event)
    ensures StartsIn(front + [e]) == StartsIn(front) + if e.ToolCallStart? then [|front|] else []
  {
    var more := front + [e];
    PickSame(|front|, (p: nat) => p < |front| && front[p].ToolCallStart?,
             (p: nat) => p < |more| && more[p].ToolCallStart?);
  }

  lemma {:induction false} CallsAreStarts(isShell: string -> bool, classify: Classifier, es: seq<Event>)
    ensures |Run(isShell, classify, es).calls| == |StartsIn(es)|
  {
    if es == [] {
    } else {
      var n := |es| - 1;
      CallsAreStarts(isShell, classify, es[..n]);
      StartsSnoc(es[..n], es[n]);
      assert es == es[..n] + [es[n]];
    }
  }

  predicate NoneBears(es: seq<Event>, lo: nat) { forall q: nat :: lo <= q < |es| ==> !Bears(es, q) }

  /** The usage is that of event `q`, with the number of calls started before it. */
  predicate IsUsageOf(u: Option<Usage>, es: seq<Event>, q: nat)
    requires Bears(es, q)
  {
    u == Some(Usage(TokensOf(es[q]), |StartsIn(es[..q])|))
  }

  predicate BringsUsage(e: Event, ended: bool) {
    (e.UsageReport? && e.usage.Some?) || (e.End? && e.endUsage.Some? && !ended)
  }

  /** Event `q` is the last to bring usage. */
  predicate LastBears(es: seq<Event>, q: nat) { Bears(es, q) && NoneBears(es, q + 1) }

  lemma BearsSnoc(front: seq<Event>, e: Event, q: nat)
    ensures Bears(front + [e], q) <==> if q == |front| then BringsUsage(e, Ends(front)) else Bears(front, q)
    ensures q <= |front| ==> (front + [e])[..q] == front[..q]
  {
    var more := front + [e];
    assert q <= |front| ==> more[..q] == front[..q];
  }

  lemma LastBearsSnoc(front: seq<Event>, e: Event, q: nat)
    ensures LastBears(front + [e], q)
            <==> if q == |front| then BringsUsage(e, Ends(front))
                 else LastBears(front, q) && !BringsUsage(e, Ends(front))
    ensures q < |front| ==> (front + [e])[q] == front[q] && (front + [e])[..q] == front[..q]
  {
    forall r: nat
      ensures Bears(front + [e], r) <==> if r == |front| then BringsUsage(e, Ends(front)) else Bears(front, r)
    {
      BearsSnoc(front, e, r);
    }
    BearsSnoc(front, e, q);
    if LastBears(front + [e], q) && q < |front| {
      forall r: nat | q + 1 <= r < |front| ensures !Bears(front, r) { assert !Bears(front + [e], r); }
      assert !Bears(front + [e], |front|);
    }
  }

  lemma UsageField(isShell: string -> bool, classify: Classifier, p: Parser, e: Event)
    ensures Step(isShell, classify, p, e).usage
         == if BringsUsage(e, p.ended) then Some(Usage(TokensOf(e), |p.calls|)) else p.usage
  {
  }

  /** The usage held is that of the last event to bring any, and there is none where none did. */
  lemma {:induction false} UsageExact(isShell: string -> bool, classify: Classifier, es: seq<Event>)
    ensures (forall q: nat :: !LastBears(es, q)) ==> Run(isShell, classify, es).usage == None
    ensures forall q: nat :: LastBears(es, q) ==> IsUsageOf(Run(isShell, classify, es).usage, es, q)
  {
    if es == [] {
    } else {
      var n := |es| - 1;
      var front, e := es[..n], es[n];
      UsageExact(isShell, classify, front);
      UsageStep(isShell, classify, front, e);
      assert es == front + [e];
    }
  }

  lemma UsageStep(isShell: string -> bool, classify: Classifier, front: seq<Event>, e: Event)
    requires (forall q: nat :: !LastBears(front, q)) ==> Run(isShell, classify, front).usage == None
    requires forall q: nat :: LastBears(front, q) ==> IsUsageOf(Run(isShell, classify, front).usage, front, q)
    ensures (forall q: nat :: !LastBears(front + [e], q)) ==> Run(isShell, classify, front + [e]).usage == None
    ensures forall q: nat :: LastBears(front + [e], q) ==>
              IsUsageOf(Run(isShell, classify, front + [e]).usage, front + [e], q)
  {
    var es, p, u := front + [e], Run(isShell, classify, front), Run(isShell, classify, front + [e]).usage;
    RunSnoc(isShell, classify, front, e);
    UsageField(isShell, classify, p, e);
    EndedIffEnds(isShell, classify, front);
    CallsAreStarts(isShell, classify, front);
    forall q: nat
      ensures LastBears(es, q)
              <==> if q == |front| then BringsUsage(e, Ends(front))
                 else LastBears(front, q) && !BringsUsage(e, Ends(front))
      ensures q < |front| ==> es[q] == front[q] && es[..q] == front[..q]
    {
      LastBearsSnoc(front, e, q);
    }
    if BringsUsage(e, Ends(front)) { assert LastBears(es, |front|) && es[..|front|] == front; }
  }

  // ----- the log -----

  /** The event is logged, given whether the turn has ended. */
  predicate IsLogged(e: Event, ended: bool) {
    match e
    case TextData(d) => d != [] && !ended
    case End(_, _, _) => !ended
    case UsageReport(_) => false
    case Inert => false
    case _ => true
  }

  function Logged(es: seq<Event>): (ls: seq<nat>) {
    Pick(|es|, (q: nat) => q < |es| && IsLogged(es[q], Ends(es[..q])))
  }

  /** The verdict's target, among the records as it finds them, is of one of these kinds. */
  predicate TargetIs(calls: seq<Call>, id: Option<string>, kinds: set<ToolKind>) {
    exists i: nat :: i < |calls| && IsTarget(calls, id, i) && calls[i].kind in kinds
  }

  /** What is logged of an event that finds these records. */
  predicate IsEntry(calls: seq<Call>, e: Event, r: Recorded) {
    match e
    case Thought => r.state == MessageDelta && r.detail == "thinking"
    case TextData(d) => r.state == MessageDelta && r.detail == if |d| <= 120 then d else d[..120]
    case ToolCallStart(_, tool, _, _) => r.state == ToolCallStarted && r.detail == tool
    case ToolCallUpdate(_, None, _, _) => r.state == ToolCallStarted && r.detail == "in progress"
    case ToolCallUpdate(id, Some(status), _, _) =>
      && r.detail == (if status == "completed" then "completed" else "failed")
      && (r.state.CommandCompleted? <==> TargetIs(calls, id, {ToolKind.Bash}))
      && (r.state.FileEditCompleted? <==> TargetIs(calls, id, {EditFile, WriteFile}))
      && (r.state.CommandCompleted? || r.state.FileEditCompleted? || r.state.ToolCallCompleted?)
    case End(_, _, reason) =>
      r.state == TurnCompleted && r.detail == (match reason case Some(s) => s case None => "end_turn")
    case ErrorReport(m) => r.state == ErrorState && r.detail == m
    case MaxTurns => r.state == Stuck && r.detail == "max_turns_reached"
    case Note(d) => r.state == UnknownState && r.detail == d
    case CompactFailed(why) => r.state == ErrorState && r.detail == "auto_compact_failed: " + why
    case _ => false
  }

  ghost predicate IsLog(
      isShell: string -> bool, classify: Classifier, es: seq<Event>, log: seq<Recorded>, ls: seq<nat>)
  {
    && |log| == |ls|
    && forall i :: 0 <= i < |ls| ==>
         ls[i] < |es| && IsEntry(Run(isShell, classify, es[..ls[i]]).calls, es[ls[i]], log[i])
  }

  lemma LoggedSnoc(front: seq<Event>, e: Event)
    ensures Logged(front + [e]) == Logged(front) + if IsLogged(e, Ends(front)) then [|front|] else []
  {
    var more := front + [e];
    forall q: nat | q < |front| ensures more[q] == front[q] && more[..q] == front[..q] { }
    PickSame(|front|, (q: nat) => q < |front| && IsLogged(front[q], Ends(front[..q])),
             (q: nat) => q < |more| && IsLogged(more[q], Ends(more[..q])));
    assert more[..|front|] == front;
  }

  lemma UpdateEntry(isShell: string -> bool, p: Parser, e: Event)
    requires e.ToolCallUpdate?
    ensures |UpdateCall(isShell, p, e).events| == |p.events| + 1
    ensures UpdateCall(isShell, p, e).events[..|p.events|] == p.events
    ensures IsEntry(p.calls, e, UpdateCall(isShell, p, e).events[|p.events|])
  {
    if e.status.Some? {
      var t := Target(p.calls, e.updateId);
      if t.Some? { TargetIsIt(p.calls, e.updateId, t.value); }
      forall i: nat | i < |p.calls| && IsTarget(p.calls, e.updateId, i) ensures t == Some(i) {
        TargetIsIt(p.calls, e.updateId, i);
      }
    }
  }

  /** The same log, completions' usage aside. */
  predicate SameLog(a: seq<Recorded>, b: seq<Recorded>) {
    |a| == |b| && forall i :: 0 <= i < |a| ==> a[i].state == b[i].state && a[i].detail == b[i].detail
  }

  lemma StepLogs(isShell: string -> bool, classify: Classifier, p: Parser, e: Event)
    ensures var log := Step(isShell, classify, p, e).events;
            if IsLogged(e, p.ended)
            then |log| == |p.events| + 1 && SameLog(log[..|p.events|], p.events) && IsEntry(p.calls, e, log[|p.events|])
            else SameLog(log, p.events)
  {
    if e.ToolCallUpdate? { UpdateEntry(isShell, p, e); }
  }

  lemma LogSame(isShell: string -> bool, classify: Classifier, front: seq<Event>, e: Event,
                log: seq<Recorded>, log': seq<Recorded>, ls: seq<nat>)
    requires IsLog(isShell, classify, front, log, ls) && SameLog(log', log)
    ensures IsLog(isShell, classify, front + [e], log', ls)
  {
    forall i | 0 <= i < |ls|
      ensures ls[i] < |front + [e]|
      ensures IsEntry(Run(isShell, classify, (front + [e])[..ls[i]]).calls, (front + [e])[ls[i]], log'[i])
    {
      assert (front + [e])[..ls[i]] == front[..ls[i]] && (front + [e])[ls[i]] == front[ls[i]];
    }
  }

  lemma LogGrows(
      isShell: string -> bool, classify: Classifier, es: seq<Event>, log: seq<Recorded>, ls: seq<nat>, q: nat)
    requires log != [] && q < |es| && IsLog(isShell, classify, es, log[..|log| - 1], ls)
    requires IsEntry(Run(isShell, classify, es[..q]).calls, es[q], log[|log| - 1])
    ensures IsLog(isShell, classify, es, log, ls + [q])
  {
    var front := log[..|log| - 1];
    assert log == front + [log[|log| - 1]];
  }

  /** The log of every stream: one entry for each event that is logged, in order, saying what that event
      came to. */
  lemma {:induction false} LogExact(isShell: string -> bool, classify: Classifier, es: seq<Event>)
    ensures IsLog(isShell, classify, es, Run(isShell, classify, es).events, Logged(es))
  {
    if es == [] {
    } else {
      var n := |es| - 1;
      LogExact(isShell, classify, es[..n]);
      LogStep(isShell, classify, es[..n], es[n]);
      assert es == es[..n] + [es[n]];
    }
  }

  lemma LogStep(isShell: string -> bool, classify: Classifier, front: seq<Event>, e: Event)
    requires IsLog(isShell, classify, front, Run(isShell, classify, front).events, Logged(front))
    ensures IsLog(isShell, classify, front + [e], Run(isShell, classify, front + [e]).events, Logged(front + [e]))
  {
    var p, log := Run(isShell, classify, front), Run(isShell, classify, front + [e]).events;
    RunSnoc(isShell, classify, front, e);
    EndedIffEnds(isShell, classify, front);
    LoggedSnoc(front, e);
    StepLogs(isShell, classify, p, e);
    assert (front + [e])[..|front|] == front && (front + [e])[|front|] == e;
    if IsLogged(e, p.ended) {
      LogSame(isShell, classify, front, e, p.events, log[..|p.events|], Logged(front));
      LogGrows(isShell, classify, front + [e], log, Logged(front), |front|);
    } else {
      LogSame(isShell, classify, front, e, p.events, log, Logged(front));
    }
  }

  // ----- how it ends -----

  predicate FirstEndAt(es: seq<Event>, q: nat) { q < |es| && es[q].End? && !Ends(es[..q]) }

  lemma FirstEndSnoc(front: seq<Event>, e: Event, q: nat)
    ensures FirstEndAt(front + [e], q) <==> if q == |front| then e.End? && !Ends(front) else FirstEndAt(front, q)
    ensures q < |front| ==> (front + [e])[q] == front[q]
  {
    var more := front + [e];
    if q <= |front| { assert more[..q] == front[..q]; }
  }

  lemma EndsSnoc(front: seq<Event>, e: Event)
    ensures Ends(front + [e]) <==> Ends(front) || e.End?
  {
    var more := front + [e];
    assert e in more && forall x :: x in front ==> x in more;
  }

  lemma FirstEndEnds(es: seq<Event>, q: nat)
    requires FirstEndAt(es, q)
    ensures Ends(es)
  {
    assert es[q] in es;
  }

  /** What the parser holds is what this `end` says: its reason, `end_turn` where it gives none, and the
      session it names. */
  predicate SaysEnd(p: Parser, e: Event)
    requires e.End?
  {
    && p.stopReason == Some(match e.stopReason case Some(r) => r case None => "end_turn")
    && p.sessionId == e.sessionId
  }

  /** The reason and the session are those of the first `end`, and there are none before one. */
  lemma {:induction false} EndExact(isShell: string -> bool, classify: Classifier, es: seq<Event>)
    ensures !Ends(es) ==> Run(isShell, classify, es).stopReason == None && Run(isShell, classify, es).sessionId == None
    ensures forall q: nat :: FirstEndAt(es, q) ==> SaysEnd(Run(isShell, classify, es), es[q])
  {
    if es == [] {
    } else {
      var n := |es| - 1;
      EndExact(isShell, classify, es[..n]);
      EndStep(isShell, classify, es[..n], es[n]);
      assert es == es[..n] + [es[n]];
    }
  }

  lemma EndStep(isShell: string -> bool, classify: Classifier, front: seq<Event>, e: Event)
    requires !Ends(front) ==> Run(isShell, classify, front).stopReason == None
                              && Run(isShell, classify, front).sessionId == None
    requires forall q: nat :: FirstEndAt(front, q) ==> SaysEnd(Run(isShell, classify, front), front[q])
    ensures var p := Run(isShell, classify, front + [e]);
            && (!Ends(front + [e]) ==> p.stopReason == None && p.sessionId == None)
            && forall q: nat :: FirstEndAt(front + [e], q) ==> SaysEnd(p, (front + [e])[q])
  {
    var p, p' := Run(isShell, classify, front), Run(isShell, classify, front + [e]);
    RunSnoc(isShell, classify, front, e);
    EndedIffEnds(isShell, classify, front);
    EndsSnoc(front, e);
    EndFields(isShell, classify, p, e);
    forall q: nat | FirstEndAt(front + [e], q) ensures SaysEnd(p', (front + [e])[q]) {
      FirstEndSnoc(front, e, q);
      if q < |front| { FirstEndEnds(front, q); }
    }
  }

  lemma EndFields(isShell: string -> bool, classify: Classifier, p: Parser, e: Event)
    ensures var p' := Step(isShell, classify, p, e);
            if e.End? && !p.ended
            then p'.stopReason == Some(match e.stopReason case Some(r) => r case None => "end_turn")
                 && p'.sessionId == (if e.sessionId.Some? then e.sessionId else p.sessionId)
            else p'.stopReason == p.stopReason && p'.sessionId == p.sessionId
  {
  }

  predicate LastErrorAt(es: seq<Event>, q: nat) {
    q < |es| && es[q].ErrorReport? && forall r :: q < r < |es| ==> !es[r].ErrorReport?
  }

  lemma LastErrorSnoc(front: seq<Event>, e: Event, q: nat)
    ensures LastErrorAt(front + [e], q)
            <==> if q == |front| then e.ErrorReport? else LastErrorAt(front, q) && !e.ErrorReport?
    ensures q < |front| ==> (front + [e])[q] == front[q]
  {
    var more := front + [e];
    assert more[|front|] == e && forall r :: 0 <= r < |front| ==> more[r] == front[r];
  }

  lemma ErrorFields(isShell: string -> bool, classify: Classifier, p: Parser, e: Event)
    ensures Step(isShell, classify, p, e).errorDetail == if e.ErrorReport? then Some(e.message) else p.errorDetail
  {
  }

  /** The error kept is the last one reported, and there is none where none was. */
  lemma {:induction false} ErrorExact(isShell: string -> bool, classify: Classifier, es: seq<Event>)
    ensures (forall q: nat :: !LastErrorAt(es, q)) ==> Run(isShell, classify, es).errorDetail == None
    ensures forall q: nat :: LastErrorAt(es, q) ==> Run(isShell, classify, es).errorDetail == Some(es[q].message)
  {
    if es == [] {
    } else {
      var n := |es| - 1;
      var front, e := es[..n], es[n];
      ErrorExact(isShell, classify, front);
      ErrorFields(isShell, classify, Run(isShell, classify, front), e);
      assert es == front + [e];
      forall q: nat
        ensures LastErrorAt(es, q) <==> if q == n then e.ErrorReport? else LastErrorAt(front, q) && !e.ErrorReport?
        ensures q < n ==> es[q] == front[q]
      {
        LastErrorSnoc(front, e, q);
      }
      if e.ErrorReport? { assert LastErrorAt(es, n); }
    }
  }

  // ----- every record, from the events -----

  /** The verdicts that land on record `i`, in order. */
  function Verdicts(isShell: string -> bool, classify: Classifier, es: seq<Event>, i: nat): seq<Event> {
    if es == [] then []
    else
      var n := |es| - 1;
      Verdicts(isShell, classify, es[..n], i)
      + if es[n].ToolCallUpdate? && es[n].status.Some?
           && IsTarget(Run(isShell, classify, es[..n]).calls, es[n].updateId, i)
        then [es[n]] else []
  }

  predicate IsCompletion(e: Event) { e.ToolCallUpdate? && e.status == Some("completed") }

  /** The last of these events that is a completion. */
  function LastCompletion(vs: seq<Event>): Option<Event> {
    if vs == [] then None
    else if IsCompletion(vs[|vs| - 1]) then Some(vs[|vs| - 1]) else LastCompletion(vs[..|vs| - 1])
  }

  /** The record tells of its start and of these verdicts: its success is what the last of them says,
      and none where there is none; its lines, for a file read by no shell tool, and its output, for a
      shell tool, are those of the last that completed it. */
  predicate Tells(isShell: string -> bool, classify: Classifier, c: Call, start: Event, vs: seq<Event>)
    requires start.ToolCallStart? && forall v :: v in vs ==> v.ToolCallUpdate? && v.status.Some?
  {
    var done := LastCompletion(vs);
    && c.id == start.id && c.tool == start.tool && c.args == start.args && c.durationMs == None
    && c.kind == (match start.args case Some(a) => classify(start.kind, a) case None => start.kind)
    && (c.success == if vs == [] then None else Some(vs[|vs| - 1].status == Some("completed")))
    && c.returnedLines == (if done.Some? && done.value.ToolCallUpdate? && c.kind.ReadFile? && !isShell(c.tool)
                           then ReturnedLines(done.value.content, done.value.text) else [])
    && c.shownOutput == (if done.Some? && done.value.ToolCallUpdate? && isShell(c.tool)
                         then Some(done.value.text) else None)
  }

  lemma {:induction false} VerdictsAre(isShell: string -> bool, classify: Classifier, es: seq<Event>, i: nat)
    ensures forall v :: v in Verdicts(isShell, classify, es, i) ==> v.ToolCallUpdate? && v.status.Some?
  {
    if es == [] {
    } else {
      VerdictsAre(isShell, classify, es[..|es| - 1], i);
    }
  }

  lemma TellsJudged(isShell: string -> bool, classify: Classifier, c: Call, start: Event, vs: seq<Event>, e: Event)
    requires start.ToolCallStart? && (forall v :: v in vs ==> v.ToolCallUpdate? && v.status.Some?)
    requires Tells(isShell, classify, c, start, vs) && e.ToolCallUpdate? && e.status.Some?
    ensures (forall v :: v in vs + [e] ==> v.ToolCallUpdate? && v.status.Some?)
    ensures Tells(isShell, classify, Judged(isShell, c, e.status.value == "completed", e.content, e.text),
                  start, vs + [e])
  {
    assert (vs + [e])[..|vs|] == vs;
  }

  /** Each record tells of its own start and verdicts. */
  ghost predicate AllTold(isShell: string -> bool, classify: Classifier, es: seq<Event>, calls: seq<Call>) {
    && |calls| == |StartsIn(es)|
    && forall i :: 0 <= i < |calls| ==> IsTold(isShell, classify, es, calls[i], i)
  }

  ghost predicate IsTold(isShell: string -> bool, classify: Classifier, es: seq<Event>, c: Call, i: nat)
    requires i < |StartsIn(es)|
  {
    var s, vs := StartsIn(es)[i], Verdicts(isShell, classify, es, i);
    && s < |es| && es[s].ToolCallStart? && (forall v :: v in vs ==> v.ToolCallUpdate? && v.status.Some?)
    && Tells(isShell, classify, c, es[s], vs)
  }

  lemma VerdictsSnoc(isShell: string -> bool, classify: Classifier, front: seq<Event>, e: Event, i: nat)
    ensures Verdicts(isShell, classify, front + [e], i)
         == Verdicts(isShell, classify, front, i)
            + if e.ToolCallUpdate? && e.status.Some? && IsTarget(Run(isShell, classify, front).calls, e.updateId, i)
              then [e] else []
  {
    assert (front + [e])[..|front|] == front;
  }

  lemma {:induction false} NoVerdictYet(isShell: string -> bool, classify: Classifier, es: seq<Event>, i: nat)
    requires i >= |StartsIn(es)|
    ensures Verdicts(isShell, classify, es, i) == []
  {
    if es == [] {
    } else {
      var n := |es| - 1;
      assert es == es[..n] + [es[n]];
      StartsSnoc(es[..n], es[n]);
      NoVerdictYet(isShell, classify, es[..n], i);
      CallsAreStarts(isShell, classify, es[..n]);
    }
  }

  lemma ToldOld(isShell: string -> bool, classify: Classifier, front: seq<Event>, e: Event, c: Call, i: nat)
    requires i < |StartsIn(front)| && IsTold(isShell, classify, front, c, i)
    ensures i < |StartsIn(front + [e])|
    ensures e.ToolCallUpdate? && e.status.Some? && IsTarget(Run(isShell, classify, front).calls, e.updateId, i)
            ==> IsTold(isShell, classify, front + [e],
                       Judged(isShell, c, e.status.value == "completed", e.content, e.text), i)
    ensures !(e.ToolCallUpdate? && e.status.Some? && IsTarget(Run(isShell, classify, front).calls, e.updateId, i))
            ==> IsTold(isShell, classify, front + [e], c, i)
  {
    StartsSnoc(front, e);
    VerdictsSnoc(isShell, classify, front, e, i);
    var s, vs := StartsIn(front)[i], Verdicts(isShell, classify, front, i);
    assert StartsIn(front + [e])[i] == s && (front + [e])[s] == front[s];
    if e.ToolCallUpdate? && e.status.Some? { TellsJudged(isShell, classify, c, front[s], vs, e); }
    assert vs + [] == vs;
  }

  lemma ToldNew(isShell: string -> bool, classify: Classifier, front: seq<Event>, e: Event, c: Call)
    requires e.ToolCallStart?
    requires c == ToolCall(e.id, e.tool, Classify(classify, e.kind, e.args), None, None, e.args, [], None)
    ensures |StartsIn(front)| < |StartsIn(front + [e])| && IsTold(isShell, classify, front + [e], c, |StartsIn(front)|)
  {
    var i := |StartsIn(front)|;
    StartsSnoc(front, e);
    VerdictsSnoc(isShell, classify, front, e, i);
    NoVerdictYet(isShell, classify, front, i);
    assert StartsIn(front + [e])[i] == |front| && (front + [e])[|front|] == e;
  }

  /** Every record of every stream, from the events: one for each start, in order, telling of it and of
      the verdicts that land on it. */
  lemma {:induction false} RecordsExact(isShell: string -> bool, classify: Classifier, es: seq<Event>)
    ensures AllTold(isShell, classify, es, Run(isShell, classify, es).calls)
  {
    if es == [] {
    } else {
      var n := |es| - 1;
      RecordsExact(isShell, classify, es[..n]);
      RecordsStep(isShell, classify, es[..n], es[n]);
      assert es == es[..n] + [es[n]];
    }
  }

  lemma StepCalls(isShell: string -> bool, classify: Classifier, p: Parser, e: Event)
    ensures var calls' := Step(isShell, classify, p, e).calls;
            if e.ToolCallStart?
            then calls' == p.calls
                          + [ToolCall(e.id, e.tool, Classify(classify, e.kind, e.args), None, None, e.args, [], None)]
            else calls' == if e.ToolCallUpdate? then UpdateCall(isShell, p, e).calls else p.calls
  {
  }

  lemma OneRecord(isShell: string -> bool, classify: Classifier, front: seq<Event>, e: Event, p: Parser, i: nat)
    requires p == Run(isShell, classify, front) && i < |p.calls| == |StartsIn(front)|
    requires IsTold(isShell, classify, front, p.calls[i], i)
    ensures i < |StartsIn(front + [e])| && i < |Step(isShell, classify, p, e).calls|
    ensures IsTold(isShell, classify, front + [e], Step(isShell, classify, p, e).calls[i], i)
  {
    StepCalls(isShell, classify, p, e);
    ToldOld(isShell, classify, front, e, p.calls[i], i);
    if e.ToolCallUpdate? { UpdateExact(isShell, p, e, i); }
  }

  lemma RecordsStep(isShell: string -> bool, classify: Classifier, front: seq<Event>, e: Event)
    requires AllTold(isShell, classify, front, Run(isShell, classify, front).calls)
    ensures AllTold(isShell, classify, front + [e], Run(isShell, classify, front + [e]).calls)
  {
    var p, calls' := Run(isShell, classify, front), Run(isShell, classify, front + [e]).calls;
    RunSnoc(isShell, classify, front, e);
    CallsAreStarts(isShell, classify, front + [e]);
    StartsSnoc(front, e);
    StepCalls(isShell, classify, p, e);
    if e.ToolCallStart? { ToldNew(isShell, classify, front, e, calls'[|p.calls|]); }
    forall i: nat | i < |p.calls|
      ensures i < |StartsIn(front + [e])| && IsTold(isShell, classify, front + [e], calls'[i], i)
    {
      OneRecord(isShell, classify, front, e, p, i);
    }
  }
}
