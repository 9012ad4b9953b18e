/** The claude stream parser's pairing of calls with results (`on_assistant`, `on_user`). Turns
    interleave, so a result is paired by call id through the pending map. */
module ClaudeStream {
  import opened Text
  import opened Positions
  import opened LineRuns
  import opened ToolCalls

  /** `is_error` as it may arrive. */
  datatype ErrorFlag = Absent | Flag(failed: bool) | Malformed

  datatype Block =
    | TextBlock(text: string)
    | ToolUse(useId: Option<string>, name: string, kind: ToolKind, args: Option<Args>)
    | ToolResult(resultId: Option<string>, flag: ErrorFlag, content: string)
    | OtherBlock

  datatype Message = Assistant(blocks: seq<Block>) | User(blocks: seq<Block>)

  type Call = ToolCall<string>

  datatype View = View(texts: seq<string>, calls: seq<Call>, pending: map<string, nat>)

  /** Absent means success; present and unreadable means failure. */
  predicate Succeeded(flag: ErrorFlag) {
    match flag case Absent => true case Flag(failed) => !failed case Malformed => false
  }

  function NewCall(classify: Classifier, b: Block): Call
    requires b.ToolUse?
  {
    ToolCall(b.useId, b.name, Classify(classify, b.kind, b.args), None, None, b.args, [], None)
  }

  function Resolved(c: Call, b: Block): (c': Call)
    requires b.ToolResult?
    ensures c' == c.(success := c'.success, returnedLines := c'.returnedLines, shownOutput := c'.shownOutput)
    ensures c'.success == Some(Succeeded(b.flag))
  {
    var c1 := c.(success := Some(Succeeded(b.flag)));
    if Succeeded(b.flag) && c.kind.ReadFile? && c.tool != "Bash" then c1.(returnedLines := NumberedRuns(b.content))
    else if Succeeded(b.flag) && c.tool == "Bash" then c1.(shownOutput := Some(b.content))
    else c1
  }

  predicate InRange(v: View) { forall k :: k in v.pending ==> v.pending[k] < |v.calls| }

  function AssistantBlock(classify: Classifier, v: View, b: Block): (v': View)
    requires InRange(v)
    ensures InRange(v')
  {
    match b
    case TextBlock(t) => if t == [] then v else v.(texts := v.texts + [t])
    case ToolUse(id, _, _, _) =>
      View(v.texts, v.calls + [NewCall(classify, b)], if id.Some? then v.pending[id.value := |v.calls|] else v.pending)
    case _ => v
  }

  function UserBlock(v: View, b: Block): (v': View)
    requires InRange(v)
    ensures InRange(v')
  {
    match b
    case ToolResult(Some(id), _, _) =>
      if id in v.pending then
        var p := v.pending[id];
        View(v.texts, v.calls[p := Resolved(v.calls[p], b)], v.pending - {id})
      else v
    case _ => v
  }

  /** One block of an assistant or a user message. */
  datatype Event = FromAssistant(block: Block) | FromUser(block: Block)

  function Step(classify: Classifier, v: View, e: Event): (v': View)
    requires InRange(v)
    ensures InRange(v')
  {
    match e case FromAssistant(b) => AssistantBlock(classify, v, b) case FromUser(b) => UserBlock(v, b)
  }

  function RunFrom(classify: Classifier, v: View, es: seq<Event>): (v': View)
    requires InRange(v)
    ensures InRange(v')
  {
    if es == [] then v else Step(classify, RunFrom(classify, v, es[..|es| - 1]), es[|es| - 1])
  }

  function Events(m: Message): (es: seq<Event>)
    ensures |es| == |m.blocks|
    ensures forall i :: 0 <= i < |es| ==>
              es[i] == if m.Assistant? then FromAssistant(m.blocks[i]) else FromUser(m.blocks[i])
  {
    seq(|m.blocks|, i requires 0 <= i < |m.blocks| =>
      if m.Assistant? then FromAssistant(m.blocks[i]) else FromUser(m.blocks[i]))
  }

  class ClaudeStreamParser {
    var textChunks: seq<string>
    var toolCalls: seq<Call>
    var pending: map<string, nat>

    ghost function Contents(): View
      reads this
    {
      View(textChunks, toolCalls, pending)
    }

    constructor ()
      ensures Contents() == View([], [], map[])
    {
      textChunks, toolCalls, pending := [], [], map[];
    }

    method OnAssistant(classify: Classifier, blocks: seq<Block>)
      requires InRange(Contents())
      modifies this
      ensures InRange(Contents())
      ensures Contents() == RunFrom(classify, old(Contents()), Events(Assistant(blocks)))
    {
      ghost var es := Events(Assistant(blocks));
      ghost var start := Contents();
      var i := 0;
      assert es[..0] == [];
      while i < |blocks|
        invariant 0 <= i <= |blocks|
        invariant InRange(Contents())
        invariant Contents() == RunFrom(classify, start, es[..i])
      {
        var block := blocks[i];
        assert es[..i + 1][..i] == es[..i];
        match block {
          case TextBlock(t) =>
            if t != [] { textChunks := textChunks + [t]; }
          case ToolUse(id, name, kind, args) =>
            if id.Some? { pending := pending[id.value := |toolCalls|]; }
            var k := if args.Some? then classify(kind, args.value) else kind;
            toolCalls := toolCalls + [ToolCall(id, name, k, None, None, args, [], None)];
          case _ =>
        }
        i := i + 1;
      }
      assert es[..|es|] == es;
    }

    method OnUser(classify: Classifier, blocks: seq<Block>)
      requires InRange(Contents())
      modifies this
      ensures InRange(Contents())
      ensures Contents() == RunFrom(classify, old(Contents()), Events(User(blocks)))
    {
      ghost var es := Events(User(blocks));
      ghost var start := Contents();
      var i := 0;
      assert es[..0] == [];
      while i < |blocks|
        invariant 0 <= i <= |blocks|
        invariant InRange(Contents())
        invariant Contents() == RunFrom(classify, start, es[..i])
      {
        RunSnoc(classify, start, es, i);
        Resolve(blocks[i]);
        i := i + 1;
      }
      assert es[..|es|] == es;
    }

    /** The body of `on_user`'s loop. */
    method Resolve(block: Block)
      requires InRange(Contents())
      modifies this
      ensures InRange(Contents())
      ensures Contents() == UserBlock(old(Contents()), block)
    {
      if block.ToolResult? && block.resultId.Some? && block.resultId.value in pending {
        var ok := Succeeded(block.flag);
        var idx := pending[block.resultId.value];
        pending := pending - {block.resultId.value};
        var rec := toolCalls[idx];
        rec := rec.(success := Some(ok));
        if ok && rec.kind == ReadFile && rec.tool != "Bash" {
          var runs := NumberedLineRuns(block.content);
          rec := rec.(returnedLines := runs);
        } else if ok && rec.tool == "Bash" {
          rec := rec.(shownOutput := Some(block.content));
        }
        toolCalls := toolCalls[idx := rec];
      }
    }
  }

  lemma RunSnoc(classify: Classifier, v: View, es: seq<Event>, i: nat)
    requires InRange(v) && i < |es|
    ensures RunFrom(classify, v, es[..i + 1]) == Step(classify, RunFrom(classify, v, es[..i]), es[i])
  {
    assert es[..i + 1][..i] == es[..i];
  }

  // ----- the invariant of every run -----

  /** An id is pending exactly when its last record has no verdict, and points at that record. */
  ghost predicate Sound(v: View) {
    && InRange(v)
    && (forall k :: k in v.pending ==> IsLastOf(v.calls, k, v.pending[k]) && v.calls[v.pending[k]].success.None?)
    && (forall k, p :: 0 <= p < |v.calls| && IsLastOf(v.calls, k, p) && v.calls[p].success.None? ==> k in v.pending)
  }

  lemma UseKeeps(classify: Classifier, v: View, b: Block)
    requires Sound(v) && b.ToolUse?
    ensures Sound(AssistantBlock(classify, v, b))
  {
    var v' := AssistantBlock(classify, v, b);
    forall k | k in v'.pending ensures IsLastOf(v'.calls, k, v'.pending[k]) && v'.calls[v'.pending[k]].success.None? {
      if b.useId != Some(k) { LastOfAppend(v.calls, NewCall(classify, b), k, v.pending[k]); }
    }
    forall k, p | 0 <= p < |v'.calls| && IsLastOf(v'.calls, k, p) && v'.calls[p].success.None? ensures k in v'.pending {
      if p < |v.calls| { LastOfAppend(v.calls, NewCall(classify, b), k, p); }
    }
  }

  lemma ResultKeeps(v: View, b: Block)
    requires Sound(v) && b.ToolResult? && b.resultId.Some? && b.resultId.value in v.pending
    ensures Sound(UserBlock(v, b))
  {
    var v', id := UserBlock(v, b), b.resultId.value;
    var q := v.pending[id];
    forall k | k in v'.pending ensures IsLastOf(v'.calls, k, v'.pending[k]) && v'.calls[v'.pending[k]].success.None? {
      assert IsLastOf(v.calls, k, v.pending[k]) && IsLastOf(v.calls, id, q);
      LastOfUpdate(v.calls, q, Resolved(v.calls[q], b), k, v.pending[k]);
    }
    forall k, p | 0 <= p < |v'.calls| && IsLastOf(v'.calls, k, p) && v'.calls[p].success.None? ensures k in v'.pending {
      LastOfUpdate(v.calls, q, Resolved(v.calls[q], b), k, p);
    }
  }

  lemma StepKeepsSound(classify: Classifier, v: View, e: Event)
    requires Sound(v)
    ensures Sound(Step(classify, v, e))
  {
    match e
    case FromAssistant(b) => if b.ToolUse? { UseKeeps(classify, v, b); }
    case FromUser(b) => if b.ToolResult? && b.resultId.Some? && b.resultId.value in v.pending { ResultKeeps(v, b); }
  }

  // ----- projection -----

  const EMPTY := View([], [], map[])

  function Run(classify: Classifier, es: seq<Event>): (v: View)
    ensures InRange(v)
  {
    RunFrom(classify, EMPTY, es)
  }

  lemma {:induction false} RunIsSound(classify: Classifier, es: seq<Event>)
    ensures Sound(Run(classify, es))
  {
    if es == [] {
    } else {
      RunIsSound(classify, es[..|es| - 1]);
      StepKeepsSound(classify, Run(classify, es[..|es| - 1]), es[|es| - 1]);
    }
  }

  predicate Concerns(e: Event, k: string) {
    match e
    case FromAssistant(b) => b.ToolUse? && b.useId == Some(k)
    case FromUser(b) => b.ToolResult? && b.resultId == Some(k)
  }

  function Of(es: seq<Event>, k: string): seq<Event> {
    if es == [] then []
    else Of(es[..|es| - 1], k) + if Concerns(es[|es| - 1], k) then [es[|es| - 1]] else []
  }

  /** One call id's own story: a use adds a record; a result resolves the last one, once. */
  function KeyStep(classify: Classifier, own: seq<Call>, e: Event): seq<Call> {
    match e
    case FromAssistant(b) => if b.ToolUse? then own + [NewCall(classify, b)] else own
    case FromUser(b) => if b.ToolResult? then KeyResult(own, b) else own
  }

  function KeyResult(own: seq<Call>, b: Block): seq<Call>
    requires b.ToolResult?
  {
    if own != [] && Last(own).success.None? then own[..|own| - 1] + [Resolved(Last(own), b)] else own
  }

  lemma ResultProjects(v: View, b: Block, k: string)
    requires Sound(v) && b.ToolResult? && b.resultId.Some?
    ensures Only(UserBlock(v, b).calls, k)
         == if b.resultId == Some(k) then KeyResult(Only(v.calls, k), b) else Only(v.calls, k)
  {
    var id := b.resultId.value;
    if id in v.pending {
      LastOfOnly(v.calls, id, v.pending[id]);
      OnlyUpdate(v.calls, id, v.pending[id], Resolved(v.calls[v.pending[id]], b), k);
    } else if Only(v.calls, id) != [] {
      var p := FindLastOf(v.calls, id);
      LastOfOnly(v.calls, id, p);
    }
  }

  lemma StepProjects(classify: Classifier, v: View, e: Event, k: string)
    requires Sound(v)
    ensures Only(Step(classify, v, e).calls, k)
         == if Concerns(e, k) then KeyStep(classify, Only(v.calls, k), e) else Only(v.calls, k)
  {
    match e
    case FromAssistant(b) => if b.ToolUse? { OnlyAppend(v.calls, NewCall(classify, b), k); }
    case FromUser(b) => if b.ToolResult? && b.resultId.Some? { ResultProjects(v, b, k); }
  }

  lemma {:induction false} SameRecords(classify: Classifier, es: seq<Event>, k: string)
    ensures Only(Run(classify, es).calls, k) == Only(Run(classify, Of(es, k)).calls, k)
  {
    if es == [] {
    } else {
      var front, e := es[..|es| - 1], es[|es| - 1];
      SameRecords(classify, front, k);
      RunIsSound(classify, front);
      StepProjects(classify, Run(classify, front), e, k);
      if Concerns(e, k) {
        var own := Of(front, k);
        assert Of(es, k)[..|Of(es, k)| - 1] == own;
        RunIsSound(classify, own);
        StepProjects(classify, Run(classify, own), e, k);
      } else {
        assert Of(es, k) == Of(front, k);
      }
    }
  }

  lemma {:induction false} AloneIsAllOwn(classify: Classifier, es: seq<Event>, k: string)
    requires forall e :: e in es ==> Concerns(e, k)
    ensures forall c :: c in Run(classify, es).calls ==> c.id == Some(k)
  {
    if es == [] {
    } else {
      var front := es[..|es| - 1];
      assert es[|es| - 1] in es;
      AloneIsAllOwn(classify, front, k);
      RunIsSound(classify, front);
    }
  }

  lemma {:induction false} OfIsOwn(es: seq<Event>, k: string)
    ensures forall e :: e in Of(es, k) ==> Concerns(e, k)
  {
    if es == [] {
    } else {
      OfIsOwn(es[..|es| - 1], k);
    }
  }

  /** Projection under interleaving: the records of one call id are exactly those the parser makes
      from that id's blocks alone. */
  lemma CallsDoNotInterfere(classify: Classifier, es: seq<Event>, k: string)
    ensures Only(Run(classify, es).calls, k) == Run(classify, Of(es, k)).calls
  {
    SameRecords(classify, es, k);
    OfIsOwn(es, k);
    AloneIsAllOwn(classify, Of(es, k), k);
    OnlyOfOneKey(Run(classify, Of(es, k)).calls, k);
  }

  lemma ResolvedStaysOnce(classify: Classifier, v: View, e: Event, p: nat)
    requires Sound(v) && p < |v.calls| && v.calls[p].success.Some?
    ensures p < |Step(classify, v, e).calls| && Step(classify, v, e).calls[p] == v.calls[p]
  {
  }

  /** A record that has a verdict is never changed again, whatever follows. */
  lemma {:induction false} VerdictsStand(classify: Classifier, es: seq<Event>, more: seq<Event>, p: nat)
    requires p < |Run(classify, es).calls| && Run(classify, es).calls[p].success.Some?
    ensures p < |Run(classify, es + more).calls| && Run(classify, es + more).calls[p] == Run(classify, es).calls[p]
  {
    if more == [] {
      assert es + more == es;
    } else {
      var front, e := more[..|more| - 1], more[|more| - 1];
      VerdictsStand(classify, es, front, p);
      RunIsSound(classify, es + front);
      assert (es + more)[..|es + more| - 1] == es + front;
      ResolvedStaysOnce(classify, Run(classify, es + front), e, p);
    }
  }

  /** A call is credited lines only by a result that reported no error. */
  lemma {:induction false} CreditNeedsSuccess(classify: Classifier, es: seq<Event>, p: nat)
    requires p < |Run(classify, es).calls|
    ensures var c := Run(classify, es).calls[p];
            c.returnedLines != [] || c.shownOutput.Some? ==> c.success == Some(true)
  {
    if es == [] {
    } else {
      var front := es[..|es| - 1];
      RunIsSound(classify, front);
      if p < |Run(classify, front).calls| { CreditNeedsSuccess(classify, front, p); }
    }
  }

  // ----- every record, from the events alone -----

  predicate IsUse(e: Event) { e.FromAssistant? && e.block.ToolUse? }

  predicate IsUseOf(e: Event, k: string) { IsUse(e) && e.block.useId == Some(k) }

  predicate IsResultOf(e: Event, k: string) { e.FromUser? && e.block.ToolResult? && e.block.resultId == Some(k) }

  /** Where the uses are. */
  function Uses(es: seq<Event>): (us: seq<nat>) { Pick(|es|, (p: nat) => p < |es| && IsUse(es[p])) }

  /** Nothing from `lo` on, before `hi`, uses `k` or gives a result of it. */
  predicate Quiet(es: seq<Event>, lo: nat, hi: nat, k: string)
    requires hi <= |es|
  {
    forall q :: lo <= q < hi ==> !IsUseOf(es[q], k) && !IsResultOf(es[q], k)
  }

  /** Event `r` is the first result of the id used at `u`, and no other use of it comes between. */
  predicate Resolves(es: seq<Event>, u: nat, r: nat)
    requires u < |es| && IsUse(es[u])
  {
    && u < r < |es| && es[u].block.useId.Some?
    && IsResultOf(es[r], es[u].block.useId.value) && Quiet(es, u + 1, r, es[u].block.useId.value)
  }

  /** The record has what its use said. */
  predicate IsRecordOf(classify: Classifier, c: Call, b: Block)
    requires b.ToolUse?
  {
    && c.id == b.useId && c.tool == b.name && c.args == b.args && c.durationMs == None
    && c.kind == match b.args case Some(a) => classify(b.kind, a) case None => b.kind
  }

  /** Neither verdict, lines nor output. */
  predicate IsBlank(c: Call) { c.success == None && c.returnedLines == [] && c.shownOutput == None }

  /** The record tells of this result: a success where it reports no error, and a failure where it
      does or is malformed. A successful file read that is not Bash has exactly the numbers marked
      in the content; a successful Bash call has the content; and neither has any other. */
  ghost predicate Tells(c: Call, b: Block)
    requires b.ToolResult?
  {
    var ok := b.flag == Absent || b.flag == Flag(false);
    && c.success == Some(ok)
    && (forall n: nat :: Covered(c.returnedLines, n)
                         <==> ok && c.kind.ReadFile? && c.tool != "Bash"
                               && exists l :: l in Lines(b.content) && Marker(l) == Some(n))
    && (!(ok && c.kind.ReadFile? && c.tool != "Bash") ==> c.returnedLines == [])
    && c.shownOutput == if ok && c.tool == "Bash" then Some(b.content) else None
  }

  lemma ResolvedTells(c: Call, b: Block)
    requires b.ToolResult? && IsBlank(c)
    ensures Tells(Resolved(c, b), b)
  {
    RunsExact(b.content);
  }

  /** What the events say of the record whose use is at `u`. */
  ghost predicate IsTold(classify: Classifier, es: seq<Event>, c: Call, u: nat)
    requires u < |es| && IsUse(es[u])
  {
    && IsRecordOf(classify, c, es[u].block)
    && (forall r: nat :: Resolves(es, u, r) ==> Tells(c, es[r].block))
    && ((forall r: nat :: !Resolves(es, u, r)) ==> IsBlank(c))
  }

  /** Each record is told by the events, and the records still open are the quiet ones. */
  ghost predicate AllTold(classify: Classifier, es: seq<Event>, calls: seq<Call>, us: seq<nat>) {
    && |calls| == |us|
    && forall i :: 0 <= i < |us| ==> us[i] < |es| && IsUse(es[us[i]]) && IsTold(classify, es, calls[i], us[i])
  }

  /** The record is the last of its id and has no verdict exactly when nothing has spoken of the id
      since its use. */
  ghost predicate OpenIsQuiet(es: seq<Event>, calls: seq<Call>, us: seq<nat>, i: nat)
    requires i < |us| == |calls| && us[i] < |es| && IsUse(es[us[i]])
  {
    forall k :: es[us[i]].block.useId == Some(k) ==>
      (IsLastOf(calls, k, i) && calls[i].success.None? <==> Quiet(es, us[i] + 1, |es|, k))
  }

  ghost predicate AllOpenQuiet(es: seq<Event>, calls: seq<Call>, us: seq<nat>) {
    |calls| == |us| && forall i :: 0 <= i < |us| ==> us[i] < |es| && IsUse(es[us[i]]) && OpenIsQuiet(es, calls, us, i)
  }

  lemma UsesSnoc(front: seq<Event>, e: Event)
    ensures Uses(front + [e]) == Uses(front) + if IsUse(e) then [|front|] else []
  {
    var more := front + [e];
    PickSame(|front|, (p: nat) => p < |front| && IsUse(front[p]), (p: nat) => p < |more| && IsUse(more[p]));
  }

  lemma QuietSnoc(front: seq<Event>, e: Event, lo: nat, k: string)
    requires lo <= |front|
    ensures Quiet(front + [e], lo, |front| + 1, k)
            <==> Quiet(front, lo, |front|, k) && !IsUseOf(e, k) && !IsResultOf(e, k)
  {
    var more := front + [e];
    assert more[|front|] == e && forall q :: 0 <= q < |front| ==> more[q] == front[q];
  }

  lemma ResolvesSnoc(front: seq<Event>, e: Event, u: nat, r: nat)
    requires u < |front| && IsUse(front[u])
    ensures Resolves(front + [e], u, r)
            <==> || Resolves(front, u, r)
                 || (r == |front| && front[u].block.useId.Some? && IsResultOf(e, front[u].block.useId.value)
                     && Quiet(front, u + 1, |front|, front[u].block.useId.value))
  {
    var more := front + [e];
    assert more[|front|] == e && forall q :: 0 <= q < |front| ==> more[q] == front[q];
  }

  /** The event is the result that resolves the record used at `u`. */
  predicate ResolvesNow(front: seq<Event>, e: Event, u: nat)
    requires u < |front| && IsUse(front[u])
  {
    && front[u].block.useId.Some? && IsResultOf(e, front[u].block.useId.value)
    && Quiet(front, u + 1, |front|, front[u].block.useId.value)
  }

  lemma ToldSame(classify: Classifier, front: seq<Event>, e: Event, c: Call, u: nat)
    requires u < |front| && IsUse(front[u]) && IsTold(classify, front, c, u) && !ResolvesNow(front, e, u)
    ensures IsTold(classify, front + [e], c, u)
  {
    var more := front + [e];
    assert more[u] == front[u];
    forall r: nat ensures Resolves(more, u, r) <==> Resolves(front, u, r) { ResolvesSnoc(front, e, u, r); }
    forall r: nat | Resolves(more, u, r) ensures Tells(c, more[r].block) {
      assert Resolves(front, u, r) && more[r] == front[r];
    }
  }

  lemma ToldNow(classify: Classifier, front: seq<Event>, e: Event, c: Call, u: nat)
    requires u < |front| && IsUse(front[u]) && IsTold(classify, front, c, u) && ResolvesNow(front, e, u)
    ensures IsTold(classify, front + [e], Resolved(c, e.block), u)
  {
    var more := front + [e];
    assert more[u] == front[u];
    forall r: nat ensures !Resolves(front, u, r) { }
    ResolvedTells(c, e.block);
    forall r: nat ensures Resolves(more, u, r) <==> r == |front| { ResolvesSnoc(front, e, u, r); }
    assert Resolves(more, u, |front|) && more[|front|] == e;
  }

  lemma ToldNew(classify: Classifier, front: seq<Event>, e: Event)
    requires IsUse(e)
    ensures IsTold(classify, front + [e], NewCall(classify, e.block), |front|)
  {
    assert (front + [e])[|front|] == e;
  }

  /** The records and the pending map after some events, and where the uses were. */
  ghost predicate Accounts(classify: Classifier, es: seq<Event>, v: View, us: seq<nat>) {
    Sound(v) && AllTold(classify, es, v.calls, us) && AllOpenQuiet(es, v.calls, us)
  }

  /** A record is pending exactly when it is the last of its id and open, and so when it is quiet. */
  lemma PendingIsQuiet(classify: Classifier, es: seq<Event>, v: View, us: seq<nat>, i: nat, k: string)
    requires Accounts(classify, es, v, us) && i < |us| && es[us[i]].block.useId == Some(k)
    ensures k in v.pending && v.pending[k] == i <==> Quiet(es, us[i] + 1, |es|, k)
  {
    assert OpenIsQuiet(es, v.calls, us, i);
    assert IsTold(classify, es, v.calls[i], us[i]);
    if IsLastOf(v.calls, k, i) && v.calls[i].success.None? {
      assert k in v.pending;
      assert IsLastOf(v.calls, k, v.pending[k]);
    }
  }

  lemma UseAccounts(classify: Classifier, front: seq<Event>, e: Event, v: View, us: seq<nat>)
    requires Accounts(classify, front, v, us) && IsUse(e)
    ensures Accounts(classify, front + [e], Step(classify, v, e), us + [|front|])
  {
    var more, v', us' := front + [e], Step(classify, v, e), us + [|front|];
    var c := NewCall(classify, e.block);
    StepKeepsSound(classify, v, e);
    forall i | 0 <= i < |us'|
      ensures us'[i] < |more| && IsUse(more[us'[i]]) && IsTold(classify, more, v'.calls[i], us'[i])
      ensures OpenIsQuiet(more, v'.calls, us', i)
    {
      if i < |us| {
        assert us'[i] == us[i] && more[us[i]] == front[us[i]] && v'.calls[i] == v.calls[i];
        ToldSame(classify, front, e, v.calls[i], us[i]);
        OpenAfterUse(front, e, v.calls, c, us, i);
      } else {
        ToldNew(classify, front, e);
      }
    }
  }

  lemma OpenAfterUse(front: seq<Event>, e: Event, calls: seq<Call>, c: Call, us: seq<nat>, i: nat)
    requires i < |us| == |calls| && us[i] < |front| && IsUse(front[us[i]]) && OpenIsQuiet(front, calls, us, i)
    requires IsUse(e) && c.id == e.block.useId
    ensures (front + [e])[us[i]] == front[us[i]] && OpenIsQuiet(front + [e], calls + [c], us + [|front|], i)
  {
    var more := front + [e];
    assert more[us[i]] == front[us[i]];
    forall k | more[us[i]].block.useId == Some(k)
      ensures IsLastOf(calls + [c], k, i) && (calls + [c])[i].success.None? <==> Quiet(more, us[i] + 1, |more|, k)
    {
      LastOfAppend(calls, c, k, i);
      QuietSnoc(front, e, us[i] + 1, k);
    }
  }

  lemma OpenSame(front: seq<Event>, e: Event, calls: seq<Call>, calls': seq<Call>, us: seq<nat>, i: nat)
    requires i < |us| == |calls| == |calls'| && us[i] < |front| && IsUse(front[us[i]])
    requires OpenIsQuiet(front, calls, us, i) && !IsUse(e)
    requires forall j :: 0 <= j < |calls| ==> calls'[j].id == calls[j].id
    requires match front[us[i]].block.useId
             case Some(k) => if IsResultOf(e, k) then !(IsLastOf(calls', k, i) && calls'[i].success.None?)
                             else calls'[i].success == calls[i].success
             case None => true
    ensures (front + [e])[us[i]] == front[us[i]] && OpenIsQuiet(front + [e], calls', us, i)
  {
    var more := front + [e];
    assert more[us[i]] == front[us[i]];
    forall k | more[us[i]].block.useId == Some(k)
      ensures IsLastOf(calls', k, i) && calls'[i].success.None? <==> Quiet(more, us[i] + 1, |more|, k)
    {
      QuietSnoc(front, e, us[i] + 1, k);
      assert IsLastOf(calls', k, i) <==> IsLastOf(calls, k, i);
    }
  }

  lemma ResultAccounts(classify: Classifier, front: seq<Event>, e: Event, v: View, us: seq<nat>, id: string)
    requires Accounts(classify, front, v, us) && IsResultOf(e, id) && id in v.pending
    ensures Accounts(classify, front + [e], Step(classify, v, e), us)
  {
    var more, v', q := front + [e], Step(classify, v, e), v.pending[id];
    StepKeepsSound(classify, v, e);
    forall i | 0 <= i < |us|
      ensures us[i] < |more| && IsUse(more[us[i]]) && IsTold(classify, more, v'.calls[i], us[i])
      ensures OpenIsQuiet(more, v'.calls, us, i)
    {
      assert IsTold(classify, front, v.calls[i], us[i]) && more[us[i]] == front[us[i]];
      if front[us[i]].block.useId == Some(id) { PendingIsQuiet(classify, front, v, us, i, id); }
      assert IsLastOf(v.calls, id, q) && v.calls[q].id == Some(id);
      if i == q {
        ToldNow(classify, front, e, v.calls[i], us[i]);
      } else {
        ToldSame(classify, front, e, v.calls[i], us[i]);
      }
      OpenSame(front, e, v.calls, v'.calls, us, i);
    }
  }

  predicate IsPendingResult(v: View, e: Event) {
    e.FromUser? && e.block.ToolResult? && e.block.resultId.Some? && e.block.resultId.value in v.pending
  }

  lemma OtherAccounts(classify: Classifier, front: seq<Event>, e: Event, v: View, us: seq<nat>)
    requires Accounts(classify, front, v, us) && !IsUse(e) && !IsPendingResult(v, e)
    ensures Accounts(classify, front + [e], Step(classify, v, e), us)
  {
    var more, v' := front + [e], Step(classify, v, e);
    StepKeepsSound(classify, v, e);
    forall i | 0 <= i < |us|
      ensures us[i] < |more| && IsUse(more[us[i]]) && IsTold(classify, more, v'.calls[i], us[i])
      ensures OpenIsQuiet(more, v'.calls, us, i)
    {
      assert IsTold(classify, front, v.calls[i], us[i]) && more[us[i]] == front[us[i]];
      if front[us[i]].block.useId.Some? { PendingIsQuiet(classify, front, v, us, i, front[us[i]].block.useId.value); }
      ToldSame(classify, front, e, v.calls[i], us[i]);
      OpenSame(front, e, v.calls, v'.calls, us, i);
    }
  }

  lemma StepAccounts(classify: Classifier, front: seq<Event>, e: Event, v: View)
    requires Accounts(classify, front, v, Uses(front))
    ensures Accounts(classify, front + [e], Step(classify, v, e), Uses(front + [e]))
  {
    var us := Uses(front);
    UsesSnoc(front, e);
    if IsUse(e) {
      UseAccounts(classify, front, e, v, us);
    } else if IsPendingResult(v, e) {
      ResultAccounts(classify, front, e, v, us, e.block.resultId.value);
    } else {
      OtherAccounts(classify, front, e, v, us);
    }
  }

  lemma {:induction false} RunAccounts(classify: Classifier, es: seq<Event>)
    ensures Accounts(classify, es, Run(classify, es), Uses(es))
  {
    if es == [] {
    } else {
      var n := |es| - 1;
      RunAccounts(classify, es[..n]);
      StepAccounts(classify, es[..n], es[n], Run(classify, es[..n]));
      assert es == es[..n] + [es[n]];
    }
  }

  /** Every record of every stream, from its events alone. There is one for each use, in order, with
      what the use said; it tells of the first result of its id, if one comes before another use of
      that id; and with none it is blank. */
  lemma RecordsExact(classify: Classifier, es: seq<Event>)
    ensures AllTold(classify, es, Run(classify, es).calls, Uses(es))
  {
    RunAccounts(classify, es);
  }

  /** A failed call, `is_error` set, keeps neither lines nor output; with the flag false it succeeds. */
  lemma FlagDecides(classify: Classifier, id: string, content: string, failed: bool)
    ensures var b := ToolUse(Some(id), "Bash", Bash, None);
            var calls := Run(classify,
                            [FromAssistant(b)] + [FromUser(ToolResult(Some(id), Flag(failed), content))]).calls;
            && |calls| == 1 && calls[0].success == Some(!failed)
            && calls[0].shownOutput == if failed then None else Some(content)
  {
    var use, result := FromAssistant(ToolUse(Some(id), "Bash", Bash, None)),
                       FromUser(ToolResult(Some(id), Flag(failed), content));
    var es := [use] + [result];
    RecordsExact(classify, es);
    UsesSnoc([use], result);
    UsesSnoc([], use);
    assert [] + [use] == [use] && Uses([]) == [];
    assert Uses(es) == [0];
    assert Resolves(es, 0, 1);
  }

  predicate SaysText(e: Event) { e.FromAssistant? && e.block.TextBlock? && e.block.text != [] }

  function Sayings(es: seq<Event>): (ps: seq<nat>) { Pick(|es|, (p: nat) => p < |es| && SaysText(es[p])) }

  predicate AreTexts(texts: seq<string>, es: seq<Event>, ps: seq<nat>) {
    && |texts| == |ps|
    && forall i :: 0 <= i < |ps| ==> ps[i] < |es| && SaysText(es[ps[i]]) && texts[i] == es[ps[i]].block.text
  }

  lemma SayingsSnoc(front: seq<Event>, e: Event)
    ensures Sayings(front + [e]) == Sayings(front) + if SaysText(e) then [|front|] else []
  {
    var more := front + [e];
    PickSame(|front|, (p: nat) => p < |front| && SaysText(front[p]), (p: nat) => p < |more| && SaysText(more[p]));
  }

  lemma TextsSnoc(texts: seq<string>, front: seq<Event>, ps: seq<nat>, e: Event)
    requires AreTexts(texts, front, ps)
    ensures AreTexts(texts, front + [e], ps)
    ensures SaysText(e) ==> AreTexts(texts + [e.block.text], front + [e], ps + [|front|])
  {
  }

  /** The texts collected are the assistant's non-empty ones, in order. */
  lemma {:induction false} TextsExact(classify: Classifier, es: seq<Event>)
    ensures AreTexts(Run(classify, es).texts, es, Sayings(es))
  {
    if es == [] {
    } else {
      var front, e := es[..|es| - 1], es[|es| - 1];
      TextsExact(classify, front);
      SayingsSnoc(front, e);
      TextsSnoc(Run(classify, front).texts, front, Sayings(front), e);
      assert es == front + [e];
    }
  }
}
