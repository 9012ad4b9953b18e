/** Read results from a session journal (`ingest_journal`). The journal repeats earlier messages in
    every model request, so results are taken once per tool-call id and given, in order, to the
    parser's file-read records. */
module Journal {
  import opened Text
  import opened Positions
  import opened LineRuns
  import opened ToolCalls

  // ----- JSON -----

  datatype Json = Str(s: string) | UInt(n: nat) | Leaf | Arr(items: seq<Json>) | Obj(fields: seq<Field>)

  /** An object's fields stand in the order the parser's map iterates them. */
  datatype Field = Field(key: string, value: Json)

  function Lookup(fs: seq<Field>, key: string): Option<Json> {
    if fs == [] then None else if fs[0].key == key then Some(fs[0].value) else Lookup(fs[1..], key)
  }

  function Get(v: Json, key: string): Option<Json> { if v.Obj? then Lookup(v.fields, key) else None }

  function GetStr(v: Json, key: string): Option<string> {
    match Get(v, key) case Some(Str(s)) => Some(s) case _ => None
  }

  function GetUInt(v: Json, key: string): Option<nat> {
    match Get(v, key) case Some(UInt(n)) => (if n <= U64_MAX then Some(n) else None) case _ => None
  }

  /** The object holds this value under the key, at the first field of that key. */
  ghost predicate Holds(v: Json, key: string, value: Json) {
    v.Obj? && exists i: nat ::
      i < |v.fields| && v.fields[i] == Field(key, value) && forall j :: 0 <= j < i ==> v.fields[j].key != key
  }

  lemma {:induction false} LookupExactly(fs: seq<Field>, key: string, value: Json)
    ensures Lookup(fs, key) == Some(value) <==> Holds(Obj(fs), key, value)
  {
    if fs == [] {
    } else if fs[0].key == key {
      if Lookup(fs, key) == Some(value) { assert fs[0] == Field(key, value); }
    } else {
      LookupExactly(fs[1..], key, value);
      HoldsLater(fs, key, value);
    }
  }

  lemma HoldsLater(fs: seq<Field>, key: string, value: Json)
    requires fs != [] && fs[0].key != key
    ensures Holds(Obj(fs), key, value) <==> Holds(Obj(fs[1..]), key, value)
  {
    var rest := fs[1..];
    if Holds(Obj(rest), key, value) {
      var i: nat :| i < |rest| && rest[i] == Field(key, value) && forall j :: 0 <= j < i ==> rest[j].key != key;
      assert fs[i + 1] == Field(key, value);
      forall j | 0 <= j < i + 1 ensures fs[j].key != key {
        if j > 0 { assert fs[j] == rest[j - 1]; }
      }
    }
    if Holds(Obj(fs), key, value) {
      var i: nat :| i < |fs| && fs[i] == Field(key, value) && forall j :: 0 <= j < i ==> fs[j].key != key;
      assert rest[i - 1] == Field(key, value);
    }
  }

  lemma GetExactly(v: Json, key: string, value: Json)
    ensures Get(v, key) == Some(value) <==> Holds(v, key, value)
  {
    if v.Obj? { LookupExactly(v.fields, key, value); }
  }

  /** A tool message is an object whose role is `tool` and that has a `tool_call_id` of any kind. */
  lemma ToolMessageExactly(v: Json)
    ensures IsToolMessage(v) <==> Holds(v, "role", Str("tool")) && exists id :: Holds(v, "tool_call_id", id)
  {
    GetExactly(v, "role", Str("tool"));
    if Get(v, "tool_call_id").Some? { GetExactly(v, "tool_call_id", Get(v, "tool_call_id").value); }
    if id :| Holds(v, "tool_call_id", id) { GetExactly(v, "tool_call_id", id); }
  }

  /** `serde_json::from_str`. */
  type Parser = string -> Option<Json>

  // ----- collecting the tool messages -----

  predicate IsToolMessage(v: Json) { GetStr(v, "role") == Some("tool") && Get(v, "tool_call_id").Some? }

  function Children(v: Json): (n: nat) {
    match v case Arr(xs) => |xs| case Obj(fs) => |fs| case _ => 0
  }

  function Child(v: Json, i: nat): (c: Json)
    requires i < Children(v)
    ensures c < v
  {
    match v case Arr(xs) => xs[i] case Obj(fs) => fs[i].value
  }

  /** The outermost tool messages, in document order. */
  function Found(v: Json): seq<Json>
    decreases v, 1, 0
  {
    if IsToolMessage(v) then [v] else FoundUnder(v, Children(v))
  }

  function FoundUnder(v: Json, n: nat): seq<Json>
    requires n <= Children(v)
    decreases v, 0, n
  {
    if n == 0 then [] else FoundUnder(v, n - 1) + Found(Child(v, n - 1))
  }

  method Walk(v: Json, found: seq<Json>) returns (out: seq<Json>)
    ensures out == found + Found(v)
    decreases v
  {
    out := found;
    if IsToolMessage(v) { return out + [v]; }
    var i := 0;
    while i < Children(v)
      invariant 0 <= i <= Children(v)
      invariant out == found + FoundUnder(v, i)
    {
      out := Walk(Child(v, i), out);
      i := i + 1;
    }
  }

  /** The path leads to a tool message with no tool message around it. */
  predicate IsSpot(v: Json, path: seq<nat>)
    decreases v
  {
    if IsToolMessage(v) then path == []
    else path != [] && path[0] < Children(v) && IsSpot(Child(v, path[0]), path[1..])
  }

  /** What the path leads to. */
  function At(v: Json, path: seq<nat>): Json
    requires IsSpot(v, path)
    decreases v
  {
    if path == [] then v else At(Child(v, path[0]), path[1..])
  }

  /** In document order: the paths part, and the first goes to an earlier child there. */
  predicate Before(p: seq<nat>, q: seq<nat>) {
    exists k: nat :: k < |p| && k < |q| && p[..k] == q[..k] && p[k] < q[k]
  }

  function Prefixed(i: nat, paths: seq<seq<nat>>): (r: seq<seq<nat>>)
    ensures |r| == |paths| && forall k :: 0 <= k < |r| ==> r[k] == [i] + paths[k]
  {
    seq(|paths|, k requires 0 <= k < |paths| => [i] + paths[k])
  }

  function Spots(v: Json): seq<seq<nat>>
    decreases v, 1, 0
  {
    if IsToolMessage(v) then [[]] else SpotsUnder(v, Children(v))
  }

  function SpotsUnder(v: Json, n: nat): seq<seq<nat>>
    requires n <= Children(v)
    decreases v, 0, n
  {
    if n == 0 then [] else SpotsUnder(v, n - 1) + Prefixed(n - 1, Spots(Child(v, n - 1)))
  }

  /** The messages found are those at the spots listed. */
  predicate LiesAt(v: Json, found: seq<Json>, paths: seq<seq<nat>>) {
    |found| == |paths| && forall k :: 0 <= k < |paths| ==> IsSpot(v, paths[k]) && At(v, paths[k]) == found[k]
  }

  lemma UnderChild(v: Json, i: nat, p: seq<nat>)
    requires !IsToolMessage(v) && i < Children(v)
    ensures IsSpot(v, [i] + p) <==> IsSpot(Child(v, i), p)
    ensures IsSpot(v, [i] + p) ==> At(v, [i] + p) == At(Child(v, i), p)
  {
    assert ([i] + p)[1..] == p;
  }

  lemma LiesUnderChild(v: Json, i: nat, found: seq<Json>, paths: seq<seq<nat>>)
    requires !IsToolMessage(v) && i < Children(v) && LiesAt(Child(v, i), found, paths)
    ensures LiesAt(v, found, Prefixed(i, paths))
  {
    forall k | 0 <= k < |paths| ensures IsSpot(v, [i] + paths[k]) && At(v, [i] + paths[k]) == found[k] {
      UnderChild(v, i, paths[k]);
    }
  }

  lemma LiesAppend(v: Json, f: seq<Json>, p: seq<seq<nat>>, g: seq<Json>, q: seq<seq<nat>>)
    requires LiesAt(v, f, p) && LiesAt(v, g, q)
    ensures LiesAt(v, f + g, p + q)
  {
  }

  lemma {:induction false} FoundAtSpots(v: Json)
    ensures LiesAt(v, Found(v), Spots(v))
    decreases v, 1, 0
  {
    if !IsToolMessage(v) { FoundUnderSpots(v, Children(v)); }
  }

  lemma {:induction false} FoundUnderSpots(v: Json, n: nat)
    requires n <= Children(v) && !IsToolMessage(v)
    ensures LiesAt(v, FoundUnder(v, n), SpotsUnder(v, n))
    decreases v, 0, n
  {
    if n == 0 {
    } else {
      FoundUnderSpots(v, n - 1);
      FoundAtSpots(Child(v, n - 1));
      LiesUnderChild(v, n - 1, Found(Child(v, n - 1)), Spots(Child(v, n - 1)));
      LiesAppend(v, FoundUnder(v, n - 1), SpotsUnder(v, n - 1), Found(Child(v, n - 1)),
                 Prefixed(n - 1, Spots(Child(v, n - 1))));
    }
  }

  predicate InOrder(paths: seq<seq<nat>>) { forall i, j :: 0 <= i < j < |paths| ==> Before(paths[i], paths[j]) }

  lemma PrefixedInOrder(i: nat, paths: seq<seq<nat>>)
    requires InOrder(paths)
    ensures InOrder(Prefixed(i, paths))
  {
    var r := Prefixed(i, paths);
    forall a, b | 0 <= a < b < |r| ensures Before(r[a], r[b]) {
      assert Before(paths[a], paths[b]);
      var k: nat :| k < |paths[a]| && k < |paths[b]| && paths[a][..k] == paths[b][..k] && paths[a][k] < paths[b][k];
      assert r[a][..k + 1] == [i] + paths[a][..k] && r[b][..k + 1] == [i] + paths[b][..k];
      assert r[a][k + 1] < r[b][k + 1];
    }
  }

  /** Every path goes to one of the first `n` children. */
  predicate AllUnder(paths: seq<seq<nat>>, n: nat) { forall p :: p in paths ==> p != [] && p[0] < n }

  lemma AppendInOrder(a: seq<seq<nat>>, b: seq<seq<nat>>, n: nat)
    requires InOrder(a) && InOrder(b) && AllUnder(a, n) && forall p :: p in b ==> p != [] && p[0] == n
    ensures InOrder(a + b) && AllUnder(a + b, n + 1)
  {
    var r := a + b;
    forall i, j | 0 <= i < j < |r| ensures Before(r[i], r[j]) {
      if i < |a| <= j {
        assert a[i] in a && b[j - |a|] in b;
        assert r[i][..0] == r[j][..0] && r[i][0] < r[j][0];
      }
    }
  }

  lemma {:induction false} SpotsInOrder(v: Json)
    ensures InOrder(Spots(v))
    decreases v, 1, 0
  {
    if !IsToolMessage(v) { SpotsUnderInOrder(v, Children(v)); }
  }

  lemma {:induction false} SpotsUnderInOrder(v: Json, n: nat)
    requires n <= Children(v)
    ensures InOrder(SpotsUnder(v, n)) && AllUnder(SpotsUnder(v, n), n)
    decreases v, 0, n
  {
    if n == 0 {
    } else {
      SpotsUnderInOrder(v, n - 1);
      SpotsInOrder(Child(v, n - 1));
      PrefixedInOrder(n - 1, Spots(Child(v, n - 1)));
      AppendInOrder(SpotsUnder(v, n - 1), Prefixed(n - 1, Spots(Child(v, n - 1))), n - 1);
    }
  }

  lemma {:induction false} EverySpotListed(v: Json, path: seq<nat>)
    requires IsSpot(v, path)
    ensures path in Spots(v)
    decreases v, 1, 0
  {
    if !IsToolMessage(v) { SpotUnderListed(v, Children(v), path); }
  }

  lemma {:induction false} SpotUnderListed(v: Json, n: nat, path: seq<nat>)
    requires n <= Children(v) && !IsToolMessage(v) && IsSpot(v, path) && path[0] < n
    ensures path in SpotsUnder(v, n)
    decreases v, 0, n
  {
    if path[0] == n - 1 {
      EverySpotListed(Child(v, n - 1), path[1..]);
      var paths := Spots(Child(v, n - 1));
      var k :| 0 <= k < |paths| && paths[k] == path[1..];
      assert Prefixed(n - 1, paths)[k] == path;
    } else {
      SpotUnderListed(v, n - 1, path);
    }
  }

  /** The walk collects exactly the tool messages with no tool message around them, each once, in
      document order. */
  lemma FoundExactly(v: Json)
    ensures LiesAt(v, Found(v), Spots(v)) && InOrder(Spots(v))
    ensures forall path :: path in Spots(v) <==> IsSpot(v, path)
  {
    FoundAtSpots(v);
    SpotsInOrder(v);
    forall path ensures path in Spots(v) <==> IsSpot(v, path) {
      if IsSpot(v, path) { EverySpotListed(v, path); }
      if path in Spots(v) { var k :| 0 <= k < |Spots(v)| && Spots(v)[k] == path; }
    }
  }

  // ----- messages and what they say -----

  datatype ReadResult = ReadResult(ok: bool, lines: Runs)

  function IdOf(m: Json): string { match GetStr(m, "tool_call_id") case Some(s) => s case None => "" }

  predicate IsRead(m: Json) { GetStr(m, "name") == Some("read_file") }

  function FirstText(blocks: seq<Json>): Option<string> {
    if blocks == [] then None
    else if GetStr(blocks[0], "text").Some? then GetStr(blocks[0], "text")
    else FirstText(blocks[1..])
  }

  function Body(parse: Parser, m: Json): Option<Json> {
    match Get(m, "content")
    case Some(Arr(blocks)) => (match FirstText(blocks) case Some(t) => parse(t) case None => None)
    case _ => None
  }

  function Window(body: Json): Runs {
    match GetUInt(body, "lines_read")
    case None => []
    case Some(read) =>
      var offset := OffsetOf(body);
      if read > 0 then [((offset + 1) % (U64_MAX + 1), (offset + read) % (U64_MAX + 1))] else []
  }

  function OffsetOf(body: Json): nat { match GetUInt(body, "offset") case Some(o) => o case None => 0 }

  /** Line `n` is one of the `read` lines after the body's offset. */
  predicate WasRead(body: Json, read: nat, n: nat) { OffsetOf(body) < n <= OffsetOf(body) + read }

  ghost predicate CreditsWhatWasRead(body: Json, read: nat) {
    forall n: nat :: Covered(Window(body), n) <==> WasRead(body, read, n)
  }

  /** A body that says how many lines it read, after which offset, is credited exactly those, unless
      their last number passes the largest 64-bit one, where the sums wrap round to nought. */
  lemma WindowExactly(body: Json, read: nat)
    requires GetUInt(body, "lines_read") == Some(read)
    ensures CreditsWhatWasRead(body, read) <==> OffsetOf(body) + read <= U64_MAX
    ensures GetUInt(body, "offset").None? && read > 0 ==> Window(body) == [(1, read)]
    ensures OffsetOf(body) + read > U64_MAX ==>
              Window(body) == [(if OffsetOf(body) < U64_MAX then OffsetOf(body) + 1 else 0,
                                OffsetOf(body) + read - U64_MAX - 1)]
  {
    var offset := OffsetOf(body);
    if offset + read <= U64_MAX {
      if read > 0 { assert Window(body)[0] == (offset + 1, offset + read); }
    } else {
      var n := offset + read;
      assert WasRead(body, read, n) && !Covered(Window(body), n);
    }
  }

  function ResultOf(parse: Parser, m: Json): ReadResult {
    var ok := GetStr(m, "outcome") == Some("success");
    var lines := match Body(parse, m) case Some(b) => Window(b) case None => [];
    ReadResult(ok, if ok then lines else [])
  }

  /** The body of a message: what the first text of its content parses to. */
  ghost predicate IsBody(parse: Parser, m: Json, body: Json) {
    exists blocks: seq<Json>, i: nat, text: string ::
      && Get(m, "content") == Some(Arr(blocks)) && i < |blocks| && GetStr(blocks[i], "text") == Some(text)
      && (forall j :: 0 <= j < i ==> GetStr(blocks[j], "text").None?) && parse(text) == Some(body)
  }

  lemma {:induction false} FirstTextExactly(blocks: seq<Json>, i: nat, text: string)
    requires i < |blocks| && GetStr(blocks[i], "text") == Some(text)
    requires forall j :: 0 <= j < i ==> GetStr(blocks[j], "text").None?
    ensures FirstText(blocks) == Some(text)
  {
    if i > 0 { FirstTextExactly(blocks[1..], i - 1, text); }
  }

  lemma {:induction false} FirstTextAt(blocks: seq<Json>) returns (i: nat)
    requires FirstText(blocks).Some?
    ensures i < |blocks| && GetStr(blocks[i], "text") == FirstText(blocks)
    ensures forall j :: 0 <= j < i ==> GetStr(blocks[j], "text").None?
  {
    if GetStr(blocks[0], "text").Some? {
      i := 0;
    } else {
      var k := FirstTextAt(blocks[1..]);
      i := k + 1;
      forall j | 0 <= j < i ensures GetStr(blocks[j], "text").None? {
        if j > 0 { assert blocks[j] == blocks[1..][j - 1]; }
      }
    }
  }

  lemma BodyExactly(parse: Parser, m: Json, body: Json)
    ensures Body(parse, m) == Some(body) <==> IsBody(parse, m, body)
  {
    if Body(parse, m) == Some(body) {
      var blocks := Get(m, "content").value.items;
      var i := FirstTextAt(blocks);
      assert Get(m, "content") == Some(Arr(blocks)) && GetStr(blocks[i], "text") == Some(FirstText(blocks).value);
    }
    if IsBody(parse, m, body) {
      var blocks: seq<Json>, i: nat, text: string :|
        && Get(m, "content") == Some(Arr(blocks)) && i < |blocks| && GetStr(blocks[i], "text") == Some(text)
        && (forall j :: 0 <= j < i ==> GetStr(blocks[j], "text").None?) && parse(text) == Some(body);
      FirstTextExactly(blocks, i, text);
    }
  }

  /** A message says that line `n` was read: its body says how many lines were, and after which offset. */
  ghost predicate SaysRead(parse: Parser, m: Json, n: nat) {
    exists body, read: nat ::
      IsBody(parse, m, body) && GetUInt(body, "lines_read") == Some(read) && WasRead(body, read, n)
  }

  /** No line number a message speaks of passes the largest 64-bit one. */
  ghost predicate FitsNumbers(parse: Parser, m: Json) {
    forall body, read: nat :: IsBody(parse, m, body) && GetUInt(body, "lines_read") == Some(read)
                              ==> OffsetOf(body) + read <= U64_MAX
  }

  /** The result of a file read: good exactly when its outcome is success; and its lines are those it
      says were read, if good, and none if not. */
  lemma ResultExactly(parse: Parser, m: Json)
    requires FitsNumbers(parse, m)
    ensures ResultOf(parse, m).ok <==> GetStr(m, "outcome") == Some("success")
    ensures forall n: nat :: Covered(ResultOf(parse, m).lines, n)
                             <==> GetStr(m, "outcome") == Some("success") && SaysRead(parse, m, n)
    ensures GetStr(m, "outcome") != Some("success") ==> ResultOf(parse, m).lines == []
  {
    forall n: nat ensures Covered(ResultOf(parse, m).lines, n)
                          <==> GetStr(m, "outcome") == Some("success") && SaysRead(parse, m, n)
    {
      LinesOfResult(parse, m, n);
    }
  }

  lemma LinesOfResult(parse: Parser, m: Json, n: nat)
    requires FitsNumbers(parse, m)
    ensures Covered(ResultOf(parse, m).lines, n)
            <==> GetStr(m, "outcome") == Some("success") && SaysRead(parse, m, n)
  {
    if Body(parse, m).Some? {
      var body := Body(parse, m).value;
      BodyExactly(parse, m, body);
      forall other | IsBody(parse, m, other) ensures other == body { BodyExactly(parse, m, other); }
      if GetUInt(body, "lines_read").Some? { WindowExactly(body, GetUInt(body, "lines_read").value); }
    } else {
      forall body ensures !IsBody(parse, m, body) { BodyExactly(parse, m, body); }
    }
  }

  /** What a tool message tells: its id, and its result when it is a file read. */
  datatype Message = Message(id: string, read: Option<ReadResult>)

  function Said(parse: Parser, m: Json): Message {
    Message(IdOf(m), if IsRead(m) then Some(ResultOf(parse, m)) else None)
  }

  function SaidAll(parse: Parser, found: seq<Json>): (ms: seq<Message>)
    ensures |ms| == |found| && forall i :: 0 <= i < |found| ==> ms[i] == Said(parse, found[i])
  {
    seq(|found|, i requires 0 <= i < |found| => Said(parse, found[i]))
  }

  // ----- the results of a journal -----

  function LineMessages(parse: Parser, line: string): seq<Message> {
    match parse(line) case None => [] case Some(v) => SaidAll(parse, Found(v))
  }

  /** What `f` makes of each line, one after the other. */
  function Gather(f: string -> seq<Message>, lines: seq<string>): seq<Message> {
    if lines == [] then [] else Gather(f, lines[..|lines| - 1]) + f(lines[|lines| - 1])
  }

  function Messages(parse: Parser, lines: seq<string>): seq<Message> {
    Gather(line => LineMessages(parse, line), lines)
  }

  lemma GatherSnoc(f: string -> seq<Message>, lines: seq<string>, i: nat)
    requires i < |lines|
    ensures Gather(f, lines[..i + 1]) == Gather(f, lines[..i]) + f(lines[i])
  {
    assert lines[..i + 1][..i] == lines[..i];
  }

  lemma MessagesSnoc(parse: Parser, lines: seq<string>, i: nat)
    requires i < |lines|
    ensures Messages(parse, lines[..i + 1]) == Messages(parse, lines[..i]) + LineMessages(parse, lines[i])
  {
    GatherSnoc(line => LineMessages(parse, line), lines, i);
  }

  /** The first message of its id, ids being non-empty. */
  predicate IsNew(before: seq<Message>, id: string) {
    id != "" && forall x :: x in before ==> x.id != id
  }

  function Contribution(before: seq<Message>, m: Message): seq<ReadResult> {
    if IsNew(before, m.id) && m.read.Some? then [m.read.value] else []
  }

  /** One result for each distinct read, in order of first appearance. */
  function DistinctReads(ms: seq<Message>): seq<ReadResult> {
    if ms == [] then []
    else
      var before, m := ms[..|ms| - 1], ms[|ms| - 1];
      DistinctReads(before) + Contribution(before, m)
  }

  lemma ReadsSnoc(ms: seq<Message>, m: Message)
    ensures DistinctReads(ms + [m]) == DistinctReads(ms) + Contribution(ms, m)
  {
    assert (ms + [m])[..|ms|] == ms;
  }

  lemma NewsSnoc(p: seq<Message>, m: Message, id: string)
    ensures IsNew(p + [m], id) <==> IsNew(p, id) && m.id != id
  {
    assert forall y :: y in p + [m] <==> y in p || y == m;
  }

  /** `seen` holds the ids of the messages so far. */
  ghost predicate SeenIs(seen: seq<string>, ms: seq<Message>) {
    forall id :: IsNew(ms, id) <==> id != "" && id !in seen
  }

  /** What the loops have established once they have taken these messages. */
  ghost predicate Took(seen: seq<string>, results: seq<ReadResult>, done: seq<Message>) {
    SeenIs(seen, done) && results == DistinctReads(done)
  }

  lemma TookOne(done: seq<Message>, m: Message, seen: seq<string>, results: seq<ReadResult>)
    requires Took(seen, results, done)
    ensures m.id != "" && m.id !in seen ==>
              Took(seen + [m.id], results + if m.read.Some? then [m.read.value] else [], done + [m])
    ensures !(m.id != "" && m.id !in seen) ==> Took(seen, results, done + [m])
  {
    ReadsSnoc(done, m);
    forall id ensures IsNew(done + [m], id) <==> IsNew(done, id) && m.id != id {
      NewsSnoc(done, m, id);
    }
  }

  lemma TookNext(
      parse: Parser, found: seq<Json>, before: seq<Message>, i: nat, seen: seq<string>, results: seq<ReadResult>)
    requires i < |found| && Took(seen, results, before + SaidAll(parse, found)[..i])
    ensures var m, done := found[i], before + SaidAll(parse, found)[..i + 1];
            if IdOf(m) != "" && IdOf(m) !in seen
            then Took(seen + [IdOf(m)], results + if IsRead(m) then [ResultOf(parse, m)] else [], done)
            else Took(seen, results, done)
  {
    var said := SaidAll(parse, found);
    TookOne(before + said[..i], said[i], seen, results);
    TakeOne(before, said, i);
  }

  method TakeMessages(
      parse: Parser, found: seq<Json>, ghost before: seq<Message>, seen: seq<string>, results: seq<ReadResult>)
    returns (seen': seq<string>, results': seq<ReadResult>)
    requires Took(seen, results, before)
    ensures Took(seen', results', before + SaidAll(parse, found))
  {
    seen', results' := seen, results;
    var i := 0;
    ghost var said := SaidAll(parse, found);
    assert before + said[..0] == before;
    while i < |found|
      invariant 0 <= i <= |found|
      invariant Took(seen', results', before + said[..i])
    {
      var m := found[i];
      TookNext(parse, found, before, i, seen', results');
      if IdOf(m) != "" && IdOf(m) !in seen' {
        seen' := seen' + [IdOf(m)];
        results' := results' + if IsRead(m) then [ResultOf(parse, m)] else [];
      }
      i := i + 1;
    }
    assert said[..|found|] == said;
  }

  /** The first half of `ingest_journal`: the distinct results of all lines. */
  method CollectReads(parse: Parser, lines: seq<string>) returns (results: seq<ReadResult>)
    ensures results == DistinctReads(Messages(parse, lines))
  {
    var seen: seq<string>, i := [], 0;
    results := [];
    ghost var done: seq<Message> := [];
    while i < |lines|
      invariant 0 <= i <= |lines|
      invariant done == Messages(parse, lines[..i])
      invariant Took(seen, results, done)
    {
      MessagesSnoc(parse, lines, i);
      var found := [];
      if parse(lines[i]).Some? { found := Walk(parse(lines[i]).value, []); }
      ghost var more := LineMessages(parse, lines[i]);
      assert SaidAll(parse, found) == more;
      seen, results := TakeMessages(parse, found, done, seen, results);
      done := done + more;
      i := i + 1;
    }
    assert lines[..|lines|] == lines;
  }

  /** What the lines that parse parse to. */
  function Parsed(parse: Parser, lines: seq<string>): seq<Json> {
    if lines == [] then []
    else
      var n := |lines| - 1;
      Parsed(parse, lines[..n]) + match parse(lines[n]) case Some(v) => [v] case None => []
  }

  function Parsing(parse: Parser, lines: seq<string>): (ps: seq<nat>) {
    Pick(|lines|, (p: nat) => p < |lines| && parse(lines[p]).Some?)
  }

  predicate ParseTo(parse: Parser, vs: seq<Json>, lines: seq<string>, ps: seq<nat>) {
    |vs| == |ps| && forall i :: 0 <= i < |ps| ==> ps[i] < |lines| && parse(lines[ps[i]]) == Some(vs[i])
  }

  lemma ParsingSnoc(parse: Parser, front: seq<string>, line: string)
    ensures Parsing(parse, front + [line]) == Parsing(parse, front) + if parse(line).Some? then [|front|] else []
  {
    var more := front + [line];
    PickSame(|front|, (p: nat) => p < |front| && parse(front[p]).Some?, (p: nat) => p < |more| && parse(more[p]).Some?);
  }

  lemma ParseToSnoc(parse: Parser, vs: seq<Json>, front: seq<string>, ps: seq<nat>, line: string)
    requires ParseTo(parse, vs, front, ps)
    ensures ParseTo(parse, vs, front + [line], ps)
    ensures parse(line).Some? ==> ParseTo(parse, vs + [parse(line).value], front + [line], ps + [|front|])
  {
  }

  /** Each line that parses is taken, in order, and no other. */
  lemma {:induction false} ParsedExactly(parse: Parser, lines: seq<string>)
    ensures ParseTo(parse, Parsed(parse, lines), lines, Parsing(parse, lines))
  {
    if lines == [] {
    } else {
      var n := |lines| - 1;
      ParsedExactly(parse, lines[..n]);
      ParsingSnoc(parse, lines[..n], lines[n]);
      ParseToSnoc(parse, Parsed(parse, lines[..n]), lines[..n], Parsing(parse, lines[..n]), lines[n]);
      assert lines == lines[..n] + [lines[n]];
    }
  }

  lemma {:induction false} FoundInPrefix(xs: seq<Json>, ys: seq<Json>, n: nat)
    requires n <= |xs| && n <= |ys| && xs[..n] == ys[..n]
    ensures FoundUnder(Arr(xs), n) == FoundUnder(Arr(ys), n)
  {
    if n == 0 {
    } else {
      assert xs[n - 1] == xs[..n][n - 1] && ys[n - 1] == ys[..n][n - 1];
      assert xs[..n - 1] == xs[..n][..n - 1] && ys[..n - 1] == ys[..n][..n - 1];
      FoundInPrefix(xs, ys, n - 1);
    }
  }

  lemma FoundInArray(vs: seq<Json>, v: Json)
    ensures Found(Arr(vs + [v])) == Found(Arr(vs)) + Found(v)
  {
    FoundInPrefix(vs + [v], vs, |vs|);
    assert Child(Arr(vs + [v]), |vs|) == v;
  }

  lemma SaidAppend(parse: Parser, a: seq<Json>, b: seq<Json>)
    ensures SaidAll(parse, a + b) == SaidAll(parse, a) + SaidAll(parse, b)
  {
  }

  /** The journal's messages are those of one document: the array of its parsed lines. */
  lemma {:induction false} MessagesAreFound(parse: Parser, lines: seq<string>)
    ensures Messages(parse, lines) == SaidAll(parse, Found(Arr(Parsed(parse, lines))))
  {
    if lines == [] {
      assert Found(Arr([])) == [];
    } else {
      var n := |lines| - 1;
      MessagesAreFound(parse, lines[..n]);
      if parse(lines[n]).Some? {
        FoundInArray(Parsed(parse, lines[..n]), parse(lines[n]).value);
        SaidAppend(parse, Found(Arr(Parsed(parse, lines[..n]))), Found(parse(lines[n]).value));
      } else {
        assert Parsed(parse, lines) == Parsed(parse, lines[..n]);
      }
    }
  }

  /** The message is a file read, and no message before it has its non-empty id. */
  predicate IsFirst(before: seq<Json>, m: Json) {
    && GetStr(m, "name") == Some("read_file")
    && (match GetStr(m, "tool_call_id")
        case None => false
        case Some(id) => id != "" && forall x :: x in before ==> GetStr(x, "tool_call_id") != Some(id))
  }

  predicate IsFirstRead(found: seq<Json>, p: nat) { p < |found| && IsFirst(found[..p], found[p]) }

  function FirstReads(found: seq<Json>): (ps: seq<nat>) { Pick(|found|, (p: nat) => IsFirstRead(found, p)) }

  /** The results are those of the messages at these positions. */
  predicate AreResults(parse: Parser, rs: seq<ReadResult>, found: seq<Json>, ps: seq<nat>) {
    |rs| == |ps| && forall i :: 0 <= i < |ps| ==> ps[i] < |found| && rs[i] == ResultOf(parse, found[ps[i]])
  }

  lemma NewExactly(parse: Parser, found: seq<Json>, m: Json)
    ensures IsNew(SaidAll(parse, found), IdOf(m)) && IsRead(m) <==> IsFirst(found, m)
  {
    var said, id := SaidAll(parse, found), IdOf(m);
    if forall x :: x in found ==> IdOf(x) != id {
      forall x | x in said ensures x.id != id {
        var q :| 0 <= q < |said| && said[q] == x;
        assert found[q] in found;
      }
    } else {
      var x :| x in found && IdOf(x) == id;
      var q :| 0 <= q < |found| && found[q] == x;
      assert said[q] in said;
    }
  }

  lemma FirstReadLast(front: seq<Json>, m: Json)
    ensures IsFirstRead(front + [m], |front|) <==> IsFirst(front, m)
  {
    assert (front + [m])[..|front|] == front;
  }

  lemma FirstReadsSnoc(front: seq<Json>, m: Json)
    ensures FirstReads(front + [m]) == FirstReads(front) + if IsFirst(front, m) then [|front|] else []
  {
    var more := front + [m];
    forall p: nat | p < |front| ensures IsFirstRead(more, p) == IsFirstRead(front, p) {
      assert more[p] == front[p] && more[..p] == front[..p];
    }
    PickSame(|front|, (p: nat) => IsFirstRead(more, p), (p: nat) => IsFirstRead(front, p));
    FirstReadLast(front, m);
  }

  lemma ResultsSnoc(parse: Parser, rs: seq<ReadResult>, front: seq<Json>, ps: seq<nat>, m: Json, taken: bool)
    requires AreResults(parse, rs, front, ps)
    ensures AreResults(parse, rs + if taken then [ResultOf(parse, m)] else [], front + [m],
                       ps + if taken then [|front|] else [])
  {
  }

  lemma SaidSnoc(parse: Parser, front: seq<Json>, m: Json)
    ensures SaidAll(parse, front + [m]) == SaidAll(parse, front) + [Said(parse, m)]
  {
  }

  lemma DistinctSnoc(parse: Parser, front: seq<Json>, m: Json)
    ensures DistinctReads(SaidAll(parse, front + [m]))
         == DistinctReads(SaidAll(parse, front)) + if IsFirst(front, m) then [ResultOf(parse, m)] else []
  {
    SaidSnoc(parse, front, m);
    ReadsSnoc(SaidAll(parse, front), Said(parse, m));
    NewExactly(parse, front, m);
  }

  /** The distinct results of these messages are those of the first reads among them. */
  predicate TakesFirstReads(parse: Parser, found: seq<Json>) {
    AreResults(parse, DistinctReads(SaidAll(parse, found)), found, FirstReads(found))
  }

  lemma TakesSnoc(parse: Parser, front: seq<Json>, m: Json)
    requires TakesFirstReads(parse, front)
    ensures TakesFirstReads(parse, front + [m])
  {
    var rs, ps, taken := DistinctReads(SaidAll(parse, front)), FirstReads(front), IsFirst(front, m);
    DistinctSnoc(parse, front, m);
    FirstReadsSnoc(front, m);
    ResultsSnoc(parse, rs, front, ps, m, taken);
  }

  lemma {:induction false} DistinctExactly(parse: Parser, found: seq<Json>)
    ensures TakesFirstReads(parse, found)
  {
    if found == [] {
    } else {
      var n := |found| - 1;
      DistinctExactly(parse, found[..n]);
      TakesSnoc(parse, found[..n], found[n]);
      assert found == found[..n] + [found[n]];
    }
  }

  /** The results of a journal: one for each file read that is the first message of its non-empty id,
      in the order its lines, and the messages in each, stand. */
  lemma ReadsExactly(parse: Parser, lines: seq<string>)
    ensures var found := Found(Arr(Parsed(parse, lines)));
            AreResults(parse, DistinctReads(Messages(parse, lines)), found, FirstReads(found))
  {
    MessagesAreFound(parse, lines);
    DistinctExactly(parse, Found(Arr(Parsed(parse, lines))));
  }

  /** A file-read message as the live journal has it. */
  function ReadMessage(id: string, outcome: string, text: string): Json {
    Obj([Field("role", Str("tool")), Field("tool_call_id", Str(id)), Field("name", Str("read_file")),
         Field("outcome", Str(outcome)), Field("content", Arr([Obj([Field("text", Str(text))])]))])
  }

  function Request(messages: seq<Json>): Json { Obj([Field("messages", Arr(messages))]) }

  function ReadBody(offset: nat, read: nat): Json {
    Obj([Field("offset", UInt(offset)), Field("lines_read", UInt(read))])
  }

  lemma FoundInRequest(messages: seq<Json>)
    ensures Found(Request(messages)) == Found(Arr(messages))
  {
    var v := Request(messages);
    assert FoundUnder(v, 0) == [] && Child(v, 0) == Arr(messages);
    assert FoundUnder(v, 1) == FoundUnder(v, 0) + Found(Child(v, 0));
    assert Lookup(v.fields[1..], "role") == None;
  }

  lemma FoundMessages(a: Json, b: Json)
    requires IsToolMessage(a) && IsToolMessage(b)
    ensures Found(Arr([a])) == [a] && Found(Arr([a, b])) == [a, b]
  {
    assert [] + [a] == [a] && [a] + [b] == [a, b];
    FoundInArray([], a);
    FoundInArray([a], b);
    assert FoundUnder(Arr([]), 0) == [];
  }

  lemma ReadMessageIs(parse: Parser, id: string, outcome: string, text: string, offset: nat, read: nat)
    requires parse(text) == Some(ReadBody(offset, read)) && offset <= U64_MAX && read <= U64_MAX
    ensures var m := ReadMessage(id, outcome, text);
            && IsToolMessage(m) && IdOf(m) == id && IsRead(m)
            && Body(parse, m) == Some(ReadBody(offset, read)) && GetStr(m, "outcome") == Some(outcome)
  {
    var m := ReadMessage(id, outcome, text);
    FieldAt(m.fields, 0);
    FieldAt(m.fields, 1);
    FieldAt(m.fields, 2);
    FieldAt(m.fields, 3);
    FieldAt(m.fields, 4);
  }

  lemma {:induction false} FieldAt(fs: seq<Field>, i: nat)
    requires i < |fs| && forall j :: 0 <= j < i ==> fs[j].key != fs[i].key
    ensures Lookup(fs, fs[i].key) == Some(fs[i].value)
  {
    if i > 0 { FieldAt(fs[1..], i - 1); }
  }

  lemma ReadMessageResult(parse: Parser, id: string, outcome: string, text: string, offset: nat, read: nat)
    requires parse(text) == Some(ReadBody(offset, read)) && 0 < read && offset + read <= U64_MAX
    ensures Said(parse, ReadMessage(id, outcome, text))
         == Message(id, Some(if outcome == "success" then ReadResult(true, [(offset + 1, offset + read)])
                             else ReadResult(false, [])))
  {
    var b := ReadBody(offset, read);
    ReadMessageIs(parse, id, outcome, text, offset, read);
    FieldAt(b.fields, 0);
    FieldAt(b.fields, 1);
  }

  /** A second request that repeats the first one's good read and adds a failed one: two results, the
      first with the lines it read and the second with none. */
  lemma TwoRequestsTwoReads(
      parse: Parser, first: string, second: string, a: string, b: string, outcome: string, text: string,
      offset: nat, read: nat)
    requires a != "" && b != "" && a != b && outcome != "success"
    requires parse(text) == Some(ReadBody(offset, read)) && 0 < read && offset + read <= U64_MAX
    requires parse(first) == Some(Request([ReadMessage(a, "success", text)]))
    requires parse(second) == Some(Request([ReadMessage(a, "success", text), ReadMessage(b, outcome, text)]))
    ensures DistinctReads(Messages(parse, [first, second]))
         == [ReadResult(true, [(offset + 1, offset + read)]), ReadResult(false, [])]
  {
    var m, n := ReadMessage(a, "success", text), ReadMessage(b, outcome, text);
    ReadMessageResult(parse, a, "success", text, offset, read);
    ReadMessageResult(parse, b, outcome, text, offset, read);
    TwoLines(parse, first, second, m, n) by {
      ReadMessageIs(parse, a, "success", text, offset, read);
      ReadMessageIs(parse, b, outcome, text, offset, read);
    }
    ThreeMessages(Said(parse, m), Said(parse, n));
  }

  lemma TwoLines(parse: Parser, first: string, second: string, m: Json, n: Json)
    requires IsToolMessage(m) && IsToolMessage(n)
    requires parse(first) == Some(Request([m])) && parse(second) == Some(Request([m, n]))
    ensures Messages(parse, [first, second]) == [Said(parse, m), Said(parse, m), Said(parse, n)]
  {
    RequestLine(parse, first, [m]) by { FoundMessages(m, n); }
    RequestLine(parse, second, [m, n]) by { FoundMessages(m, n); }
    MessagesOfTwo(parse, first, second);
    var a, b := Said(parse, m), Said(parse, n);
    assert SaidAll(parse, [m]) == [a] && SaidAll(parse, [m, n]) == [a, b];
    assert [a] + [a, b] == [a, a, b];
  }

  lemma RequestLine(parse: Parser, line: string, ms: seq<Json>)
    requires parse(line) == Some(Request(ms)) && Found(Arr(ms)) == ms
    ensures LineMessages(parse, line) == SaidAll(parse, ms)
  {
    FoundInRequest(ms);
  }

  lemma MessagesOfOne(parse: Parser, line: string)
    ensures Messages(parse, [line]) == LineMessages(parse, line)
  {
    MessagesSnoc(parse, [line], 0);
    assert [line][..0] == [] && [line][..1] == [line];
  }

  lemma MessagesOfTwo(parse: Parser, first: string, second: string)
    ensures Messages(parse, [first, second]) == LineMessages(parse, first) + LineMessages(parse, second)
  {
    MessagesOfOne(parse, first);
    MessagesOfOne(parse, second);
    MessagesAppend(parse, [first], [second]);
    assert [first] + [second] == [first, second];
  }

  lemma ThreeMessages(m: Message, n: Message)
    requires m.id != "" && n.id != "" && m.id != n.id && m.read.Some? && n.read.Some?
    ensures DistinctReads([m, m, n]) == [m.read.value, n.read.value]
  {
    OneMessage(m);
    AgainMessage([m], m) by { NewsSnoc([], m, m.id); assert [] + [m] == [m]; }
    assert [m] + [m] == [m, m] && [m, m] + [n] == [m, m, n];
    ReadsSnoc([m, m], n);
    NewsSnoc([m], m, n.id);
    NewsSnoc([], m, n.id);
    assert [] + [m] == [m];
  }

  lemma OneMessage(m: Message)
    requires m.id != "" && m.read.Some?
    ensures DistinctReads([m]) == [m.read.value]
  {
    ReadsSnoc([], m);
    assert [] + [m] == [m];
  }

  lemma AgainMessage(ms: seq<Message>, m: Message)
    requires !IsNew(ms, m.id)
    ensures DistinctReads(ms + [m]) == DistinctReads(ms)
  {
    ReadsSnoc(ms, m);
  }

  // ----- pairing with the records -----

  type Record = ToolCall<string>

  function ReadCount(rs: seq<Record>): nat {
    if rs == [] then 0 else ReadCount(rs[..|rs| - 1]) + if rs[|rs| - 1].kind.ReadFile? then 1 else 0
  }

  /** The record at `i` after results are given out: a file read takes the result of its rank. */
  function Paired(rs: seq<Record>, results: seq<ReadResult>, i: nat): Record
    requires i < |rs|
  {
    var k := ReadCount(rs[..i]);
    if rs[i].kind.ReadFile? && k < |results|
    then rs[i].(success := Some(results[k].ok), returnedLines := results[k].lines)
    else rs[i]
  }

  predicate IsPairing(before: seq<Record>, after: seq<Record>, results: seq<ReadResult>) {
    |after| == |before| && forall i :: 0 <= i < |before| ==> after[i] == Paired(before, results, i)
  }

  class MistralParser {
    var toolCalls: seq<Record>

    constructor (calls: seq<Record>)
      ensures toolCalls == calls
    {
      toolCalls := calls;
    }

    method IngestJournal(parse: Parser, journal: string)
      modifies this
      ensures IsPairing(old(toolCalls), toolCalls, DistinctReads(Messages(parse, Lines(journal))))
    {
      var results := CollectReads(parse, Lines(journal));
      GiveOut(results);
    }

    method GiveOut(results: seq<ReadResult>)
      modifies this
      ensures IsPairing(old(toolCalls), toolCalls, results)
    {
      ghost var was := toolCalls;
      var i, next := 0, 0;
      while i < |toolCalls|
        invariant 0 <= i <= |toolCalls| == |was|
        invariant next == ReadCount(was[..i]) <= |results|
        invariant forall j :: 0 <= j < i ==> toolCalls[j] == Paired(was, results, j)
        invariant forall j :: i <= j < |was| ==> toolCalls[j] == was[j]
      {
        assert was[..i + 1][..i] == was[..i];
        if toolCalls[i].kind.ReadFile? {
          if next == |results| { break; }
          var rec := toolCalls[i].(success := Some(results[next].ok), returnedLines := results[next].lines);
          toolCalls := toolCalls[i := rec];
          next := next + 1;
        }
        i := i + 1;
      }
      forall j | i <= j < |was| ensures toolCalls[j] == Paired(was, results, j) {
        ReadCountGrows(was, i, j);
      }
    }
  }

  lemma {:induction false} ReadCountGrows(rs: seq<Record>, i: nat, j: nat)
    requires i <= j <= |rs|
    ensures ReadCount(rs[..i]) <= ReadCount(rs[..j])
  {
    if i < j {
      ReadCountGrows(rs, i, j - 1);
      assert rs[..j][..j - 1] == rs[..j - 1];
    }
  }

  function FileReads(rs: seq<Record>): (ps: seq<nat>) {
    Pick(|rs|, (p: nat) => p < |rs| && rs[p].kind.ReadFile?)
  }

  lemma {:induction false} RankInFileReads(rs: seq<Record>, i: nat)
    requires i < |rs| && rs[i].kind.ReadFile?
    ensures ReadCount(rs) == |FileReads(rs)|
    ensures ReadCount(rs[..i]) < |FileReads(rs)| && FileReads(rs)[ReadCount(rs[..i])] == i
  {
    var n := |rs| - 1;
    var front := rs[..n];
    CountIsPicked(rs);
    CountIsPicked(front);
    PickSame(n, (p: nat) => p < |front| && front[p].kind.ReadFile?, (p: nat) => p < |rs| && rs[p].kind.ReadFile?);
    if i < n {
      RankInFileReads(front, i);
      assert front[..i] == rs[..i];
    }
  }

  lemma {:induction false} CountIsPicked(rs: seq<Record>)
    ensures ReadCount(rs) == |FileReads(rs)|
  {
    if rs == [] {
    } else {
      var n := |rs| - 1;
      CountIsPicked(rs[..n]);
      PickSame(n, (p: nat) => p < |rs[..n]| && rs[..n][p].kind.ReadFile?, (p: nat) => p < |rs| && rs[p].kind.ReadFile?);
    }
  }

  lemma {:induction false} RankOfPicked(rs: seq<Record>, k: nat)
    requires k < |FileReads(rs)|
    ensures FileReads(rs)[k] < |rs| && rs[FileReads(rs)[k]].kind.ReadFile? && ReadCount(rs[..FileReads(rs)[k]]) == k
  {
    var ps := FileReads(rs);
    var i := ps[k];
    assert i in ps;
    RankInFileReads(rs, i);
    var r := ReadCount(rs[..i]);
    assert ps[r] == ps[k];
    AscendingIsInjective(ps, r, k);
  }

  /** The `k`th file-read record takes the `k`th result's verdict and lines, and nothing else of it
      changes; the records past the last result, and those of other kinds, stay as they were. */
  lemma PairingExactly(before: seq<Record>, after: seq<Record>, results: seq<ReadResult>)
    requires IsPairing(before, after, results)
    ensures |after| == |before|
    ensures forall p :: 0 <= p < |before| && !before[p].kind.ReadFile? ==> after[p] == before[p]
    ensures var ps := FileReads(before);
            forall k :: 0 <= k < |ps| ==>
              && ps[k] < |before|
              && after[ps[k]] == if k < |results|
                                 then before[ps[k]].(success := Some(results[k].ok), returnedLines := results[k].lines)
                                 else before[ps[k]]
  {
    var ps := FileReads(before);
    forall k | 0 <= k < |ps|
      ensures ps[k] < |before| && after[ps[k]] == Paired(before, results, ps[k])
      ensures before[ps[k]].kind.ReadFile? && ReadCount(before[..ps[k]]) == k
    {
      RankOfPicked(before, k);
    }
  }

  // ----- what the journal's repeats cannot change -----

  /** The same ids would be new after either list. */
  ghost predicate SameNews(p: seq<Message>, q: seq<Message>) { forall id :: IsNew(p, id) <==> IsNew(q, id) }

  lemma BothGrow(p: seq<Message>, q: seq<Message>, m: Message)
    requires SameNews(p, q) && DistinctReads(p) == DistinctReads(q)
    ensures SameNews(p + [m], q + [m]) && DistinctReads(p + [m]) == DistinctReads(q + [m])
  {
    ReadsSnoc(p, m);
    ReadsSnoc(q, m);
    forall id ensures IsNew(p + [m], id) <==> IsNew(q + [m], id) {
      NewsSnoc(p, m, id);
      NewsSnoc(q, m, id);
    }
  }

  lemma TakeOne<T>(p: seq<T>, b: seq<T>, i: nat)
    requires i < |b|
    ensures p + b[..i] + [b[i]] == p + b[..i + 1]
  {
  }

  lemma MoveOne<T>(p: seq<T>, b: seq<T>)
    requires b != []
    ensures p + b == p + [b[0]] + b[1..]
  {
  }

  lemma {:induction false} SameAfter(p: seq<Message>, q: seq<Message>, b: seq<Message>)
    requires SameNews(p, q) && DistinctReads(p) == DistinctReads(q)
    ensures DistinctReads(p + b) == DistinctReads(q + b)
    decreases |b|
  {
    if b == [] {
      assert p + b == p && q + b == q;
    } else {
      BothGrow(p, q, b[0]);
      SameAfter(p + [b[0]], q + [b[0]], b[1..]);
      MoveOne(p, b);
      MoveOne(q, b);
    }
  }

  /** A repeat adds nothing where it stands and hides nothing that follows. */
  lemma RepeatIsInvisible(a: seq<Message>, m: Message)
    requires !IsNew(a, m.id)
    ensures SameNews(a + [m], a) && DistinctReads(a + [m]) == DistinctReads(a)
  {
    ReadsSnoc(a, m);
    forall id ensures IsNew(a + [m], id) <==> IsNew(a, id) {
      NewsSnoc(a, m, id);
    }
  }

  /** Every id is empty or was seen before. */
  predicate AllRepeats(before: seq<Message>, ms: seq<Message>) { forall m :: m in ms ==> !IsNew(before, m.id) }

  lemma {:induction false} RepeatsAreInvisible(a: seq<Message>, ms: seq<Message>)
    requires AllRepeats(a, ms)
    ensures SameNews(a + ms, a) && DistinctReads(a + ms) == DistinctReads(a)
  {
    if ms == [] {
      assert a + ms == a;
    } else {
      var front, m := ms[..|ms| - 1], ms[|ms| - 1];
      RepeatsAreInvisible(a, front);
      RepeatIsInvisible(a + front, m);
      TakeOne(a, ms, |ms| - 1);
      assert ms[..|ms|] == ms;
    }
  }

  lemma {:induction false} GatherAppend(f: string -> seq<Message>, a: seq<string>, b: seq<string>)
    ensures Gather(f, a + b) == Gather(f, a) + Gather(f, b)
  {
    if b == [] {
      assert a + b == a;
    } else {
      var n := |b| - 1;
      GatherAppend(f, a, b[..n]);
      AppendStep(a, b);
      GatherSnoc(f, a + b, |a| + n);
      GatherSnoc(f, b, n);
    }
  }

  lemma MessagesAppend(parse: Parser, a: seq<string>, b: seq<string>)
    ensures Messages(parse, a + b) == Messages(parse, a) + Messages(parse, b)
  {
    GatherAppend(line => LineMessages(parse, line), a, b);
  }

  lemma AppendStep<T>(a: seq<T>, b: seq<T>)
    requires b != []
    ensures var n := |b| - 1;
            && (a + b)[..|a| + n] == a + b[..n] && (a + b)[|a| + n] == b[n]
            && (a + b)[..|a| + n + 1] == a + b && b[..n + 1] == b
  {
  }

  /** Lines that only repeat earlier messages, inserted anywhere, leave the results as they are. */
  lemma RepeatedLinesChangeNothing(parse: Parser, a: seq<string>, again: seq<string>, b: seq<string>)
    requires AllRepeats(Messages(parse, a), Messages(parse, again))
    ensures DistinctReads(Messages(parse, a + again + b)) == DistinctReads(Messages(parse, a + b))
  {
    MessagesAppend(parse, a + again, b);
    MessagesAppend(parse, a, again);
    MessagesAppend(parse, a, b);
    RepeatsAreInvisible(Messages(parse, a), Messages(parse, again));
    SameAfter(Messages(parse, a) + Messages(parse, again), Messages(parse, a), Messages(parse, b));
  }

  /** A longer journal only adds results: no record already paired is paired anew. */
  lemma LaterLinesOnlyAdd(parse: Parser, a: seq<string>, b: seq<string>)
    ensures DistinctReads(Messages(parse, a)) <= DistinctReads(Messages(parse, a + b))
  {
    MessagesAppend(parse, a, b);
    ReadsGrow(Messages(parse, a), Messages(parse, b));
  }

  lemma {:induction false} ReadsGrow(a: seq<Message>, b: seq<Message>)
    ensures DistinctReads(a) <= DistinctReads(a + b)
  {
    if b == [] {
      assert a + b == a;
    } else {
      ReadsGrow(a, b[..|b| - 1]);
      assert (a + b)[..|a + b| - 1] == a + b[..|b| - 1];
    }
  }

  predicate CreditsOnSuccess(rs: seq<ReadResult>) { forall r :: r in rs ==> (r.lines != [] ==> r.ok) }

  predicate HonestMessages(ms: seq<Message>) {
    forall m :: m in ms && m.read.Some? && m.read.value.lines != [] ==> m.read.value.ok
  }

  lemma {:induction false} MessagesAreHonest(parse: Parser, lines: seq<string>)
    ensures HonestMessages(Messages(parse, lines))
  {
    if lines == [] {
    } else {
      MessagesAreHonest(parse, lines[..|lines| - 1]);
      assert HonestMessages(LineMessages(parse, lines[|lines| - 1]));
    }
  }

  /** Lines are credited only on success. */
  lemma LinesNeedSuccess(parse: Parser, lines: seq<string>)
    ensures CreditsOnSuccess(DistinctReads(Messages(parse, lines)))
  {
    MessagesAreHonest(parse, lines);
    ResultsComeFromMessages(Messages(parse, lines));
  }

  lemma {:induction false} ResultsComeFromMessages(ms: seq<Message>)
    ensures forall r :: r in DistinctReads(ms) ==> exists m :: m in ms && m.read == Some(r)
  {
    if ms == [] {
    } else {
      var m := ms[|ms| - 1];
      ResultsComeFromMessages(ms[..|ms| - 1]);
      assert m in ms;
    }
  }

  // ----- ingesting in whole -----

  lemma {:induction false} KindsDecideRank(a: seq<Record>, b: seq<Record>, n: nat)
    requires n <= |a| == |b| && forall i :: 0 <= i < n ==> a[i].kind == b[i].kind
    ensures ReadCount(a[..n]) == ReadCount(b[..n])
  {
    if n == 0 {
    } else {
      KindsDecideRank(a, b, n - 1);
      assert a[..n][..n - 1] == a[..n - 1] && b[..n][..n - 1] == b[..n - 1];
    }
  }

  /** Ingesting again, with the same results or a longer list of them, is as if only the second
      ingestion had happened; with the same results nothing changes. */
  lemma IngestAgain(r0: seq<Record>, r1: seq<Record>, r2: seq<Record>, first: seq<ReadResult>, second: seq<ReadResult>)
    requires IsPairing(r0, r1, first) && IsPairing(r1, r2, second) && first <= second
    ensures IsPairing(r0, r2, second)
    ensures first == second ==> r1 == r2
  {
    forall i | 0 <= i < |r0| ensures r2[i] == Paired(r0, second, i) && (first == second ==> r1[i] == r2[i]) {
      assert forall j :: 0 <= j < i ==> r1[j] == Paired(r0, first, j);
      KindsDecideRank(r0, r1, i);
    }
  }

  // ----- at the level of the journal's text -----

  predicate WholeLines(journal: string) { journal == [] || journal[|journal| - 1] == '\n' }

  lemma {:induction false} IndexOfPrefix(a: string, b: string, c: char)
    requires c in a
    ensures IndexOf(a + b, c) == IndexOf(a, c) < |a|
  {
    if a[0] != c {
      IndexOfPrefix(a[1..], b, c);
      assert (a + b)[1..] == a[1..] + b;
    }
  }

  lemma LinesCut(s: string, i: nat)
    requires i == IndexOf(s, '\n') < |s|
    ensures Lines(s) == [StripCr(s[..i])] + Lines(s[i + 1..])
  {
  }

  lemma CutPrefix(a: string, b: string)
    requires WholeLines(a) && a != []
    ensures var i := IndexOf(a, '\n');
            && i == IndexOf(a + b, '\n') < |a|
            && (a + b)[..i] == a[..i] && (a + b)[i + 1..] == a[i + 1..] + b
            && WholeLines(a[i + 1..])
  {
    IndexOfPrefix(a, b, '\n');
  }

  lemma Assoc<T>(x: seq<T>, y: seq<T>, z: seq<T>)
    ensures x + y + z == x + (y + z)
  {
  }

  lemma {:induction false} LinesAppend(a: string, b: string)
    requires WholeLines(a)
    ensures Lines(a + b) == Lines(a) + Lines(b)
    decreases |a|
  {
    if a == [] {
      assert a + b == b;
    } else {
      var i := IndexOf(a, '\n');
      CutPrefix(a, b);
      LinesCut(a + b, i);
      LinesCut(a, i);
      LinesAppend(a[i + 1..], b);
      Assoc([StripCr(a[..i])], Lines(a[i + 1..]), Lines(b));
    }
  }

  /** A journal extended with lines that only repeat its messages leaves every record as the
      shorter journal did. */
  lemma ExtendedJournalSameRecords(
      parse: Parser, a: string, again: string, rs: seq<Record>, r1: seq<Record>, r2: seq<Record>)
    requires WholeLines(a) && AllRepeats(Messages(parse, Lines(a)), Messages(parse, Lines(again)))
    requires IsPairing(rs, r1, DistinctReads(Messages(parse, Lines(a))))
    requires IsPairing(rs, r2, DistinctReads(Messages(parse, Lines(a + again))))
    ensures r1 == r2
  {
    LinesAppend(a, again);
    MessagesAppend(parse, Lines(a), Lines(again));
    RepeatsAreInvisible(Messages(parse, Lines(a)), Messages(parse, Lines(again)));
    assert r1 == r2;
  }
}
