/** The event replay ring buffer and the task that fills it: what a reconnecting client is given
    agrees with the full log of what was pushed. */
module Replay {
  import opened Text
  import opened Positions

  datatype Event = Event(seqNo: nat, payload: string)

  datatype ReplayResult = Events(events: seq<Event>) | OutOfRange(oldestSeq: nat)

  const U64_SIZE: nat := U64_MAX + 1

  /** One push: at capacity the oldest event is dropped first. */
  function Pushed(buffer: seq<Event>, capacity: nat, e: Event): seq<Event> {
    (if |buffer| >= capacity && buffer != [] then buffer[1..] else buffer) + [e]
  }

  /** The events after sequence number `s`, in order. */
  function Newer(log: seq<Event>, s: nat): seq<Event> {
    if log == [] then []
    else Newer(log[..|log| - 1], s) + if log[|log| - 1].seqNo > s then [log[|log| - 1]] else []
  }

  /** `replay_since`; the sum is in 64 bits. */
  function ReplaySince(buffer: seq<Event>, lastSeq: nat): ReplayResult
    requires lastSeq <= U64_MAX
  {
    if buffer == [] then Events([])
    else if Wrapped(lastSeq) < buffer[0].seqNo then OutOfRange(buffer[0].seqNo)
    else Events(Newer(buffer, lastSeq))
  }

  class EventReplayBuffer {
    var buffer: seq<Event>
    const capacity: nat

    constructor (capacity: nat)
      ensures buffer == [] && this.capacity == capacity
    {
      buffer, this.capacity := [], capacity;
    }

    method Push(e: Event)
      modifies this
      ensures buffer == Pushed(old(buffer), capacity, e)
    {
      if |buffer| >= capacity {
        if buffer != [] { buffer := buffer[1..]; }
      }
      buffer := buffer + [e];
    }

    method Replay(lastSeq: nat) returns (r: ReplayResult)
      requires lastSeq <= U64_MAX
      ensures r == ReplaySince(buffer, lastSeq)
    {
      if buffer == [] { return Events([]); }
      var oldest := buffer[0].seqNo;
      if (if lastSeq == U64_MAX then 0 else lastSeq + 1) < oldest { return OutOfRange(oldest); }
      var events, i := [], 0;
      while i < |buffer|
        invariant 0 <= i <= |buffer|
        invariant events == Newer(buffer[..i], lastSeq)
      {
        assert buffer[..i + 1][..i] == buffer[..i];
        if buffer[i].seqNo > lastSeq { events := events + [buffer[i]]; }
        i := i + 1;
      }
      assert buffer[..|buffer|] == buffer;
      r := Events(events);
    }
  }

  // ----- the buffer against the log -----

  /** The buffer after a whole log of pushes. */
  function Held(log: seq<Event>, capacity: nat): seq<Event> {
    if log == [] then [] else Pushed(Held(log[..|log| - 1], capacity), capacity, log[|log| - 1])
  }

  /** How many of the first events are gone. A capacity of zero still holds one event. */
  function Evicted(log: seq<Event>, capacity: nat): (n: nat)
    ensures n <= |log| && (log != [] ==> n < |log|)
  {
    var room := if capacity == 0 then 1 else capacity;
    if |log| <= room then 0 else |log| - room
  }

  /** The buffer is exactly the end of the log that fits. */
  lemma {:induction false} HeldIsSuffix(log: seq<Event>, capacity: nat)
    ensures Held(log, capacity) == log[Evicted(log, capacity)..]
  {
    if log == [] {
    } else {
      var front := log[..|log| - 1];
      HeldIsSuffix(front, capacity);
      var k := Evicted(front, capacity);
      SuffixGrows(log, k);
      if front != [] && |front[k..]| >= capacity {
        SuffixGrows(log, k + 1);
        assert front[k..][1..] == front[k + 1..];
      }
    }
  }

  lemma SuffixGrows(log: seq<Event>, k: nat)
    requires k < |log|
    ensures log[k..] == log[..|log| - 1][k..] + [log[|log| - 1]]
  {
  }

  predicate Numbered(log: seq<Event>) {
    && (forall i, j :: 0 <= i < j < |log| ==> log[i].seqNo < log[j].seqNo)
    && (forall i :: 0 <= i < |log| ==> log[i].seqNo <= U64_MAX)
  }

  predicate Consecutive(log: seq<Event>) {
    forall i :: 0 <= i < |log| ==> log[i].seqNo == log[0].seqNo + i <= U64_MAX
  }

  lemma {:induction false} NewerAppend(a: seq<Event>, b: seq<Event>, s: nat)
    ensures Newer(a + b, s) == Newer(a, s) + Newer(b, s)
  {
    if b == [] {
      assert a + b == a;
    } else {
      assert (a + b)[..|a + b| - 1] == a + b[..|b| - 1];
      NewerAppend(a, b[..|b| - 1], s);
    }
  }

  lemma {:induction false} NoneNewer(log: seq<Event>, s: nat)
    requires forall i :: 0 <= i < |log| ==> log[i].seqNo <= s
    ensures Newer(log, s) == []
  {
    if log == [] {
    } else {
      NoneNewer(log[..|log| - 1], s);
    }
  }

  /** `k` is where the events after `s` begin. */
  predicate Cut(log: seq<Event>, k: nat, s: nat) {
    && k <= |log|
    && (forall i :: 0 <= i < k ==> log[i].seqNo <= s)
    && (forall i :: k <= i < |log| ==> log[i].seqNo > s)
  }

  lemma {:induction false} NewerFromCut(log: seq<Event>, k: nat, s: nat)
    requires Cut(log, k, s)
    ensures Newer(log, s) == log[k..]
  {
    if k == |log| {
      NoneNewer(log, s);
    } else {
      var front := log[..|log| - 1];
      NewerFromCut(front, k, s);
      assert log[k..] == front[k..] + [log[|log| - 1]];
    }
  }

  lemma CutAt(log: seq<Event>, k: nat, s: nat)
    requires Consecutive(log) && log != [] && k <= |log|
    requires k > 0 ==> log[0].seqNo + k <= s + 1
    requires k < |log| ==> s < log[0].seqNo + k
    ensures Cut(log, k, s)
  {
    forall i | 0 <= i < |log| ensures log[i].seqNo == log[0].seqNo + i { }
  }

  /** Of consecutive numbers from `first`, the newer events are those past position `s + 1 - first`. */
  lemma NewerIsSuffix(log: seq<Event>, s: nat)
    requires Consecutive(log) && log != []
    ensures var first := log[0].seqNo;
            Newer(log, s) == if s < first then log else if s - first < |log| then log[s + 1 - first..] else []
  {
    var first := log[0].seqNo;
    var k := if s < first then 0 else if s - first < |log| then s + 1 - first else |log|;
    CutAt(log, k, s);
    NewerFromCut(log, k, s);
    if s < first {
      assert log[0..] == log;
    } else if s - first >= |log| {
      assert log[|log|..] == [];
    }
  }

  /** Some event the client has not seen is gone from the buffer. */
  predicate Missed(log: seq<Event>, capacity: nat, s: nat) {
    exists i :: 0 <= i < Evicted(log, capacity) && log[i].seqNo > s
  }

  /** Everything gone is older than the oldest event still held. */
  lemma GoneIsOld(log: seq<Event>, k: nat, s: nat)
    requires Numbered(log) && k < |log| && log[k].seqNo <= s + 1
    ensures Newer(log, s) == Newer(log[k..], s)
    ensures forall i :: 0 <= i < k ==> log[i].seqNo <= s
  {
    assert forall i :: 0 <= i < k ==> log[i].seqNo < log[k].seqNo;
    NoneNewer(log[..k], s);
    NewerAppend(log[..k], log[k..], s);
    assert log == log[..k] + log[k..];
  }

  /** `last_seq + 1` in 64 bits. */
  function Wrapped(s: nat): (r: nat)
    requires s <= U64_MAX
    ensures r <= s + 1
    ensures r == if s == U64_MAX then 0 else s + 1
  {
    (s + 1) % U64_SIZE
  }

  /** The reply in terms of the log alone: ascending numbers suffice, gaps or not. */
  lemma ReplyFromLog(log: seq<Event>, capacity: nat, s: nat)
    requires Numbered(log) && log != [] && s <= U64_MAX
    ensures ReplaySince(Held(log, capacity), s)
         == var oldest := log[Evicted(log, capacity)].seqNo;
            if Wrapped(s) < oldest then OutOfRange(oldest) else Events(Newer(log, s))
  {
    HeldIsSuffix(log, capacity);
    var k := Evicted(log, capacity);
    assert log[k..][0] == log[k];
    if log[k].seqNo <= s + 1 { GoneIsOld(log, k, s); }
  }

  /** For any ascending log, gaps included: events are returned only when none after `s` is gone,
      and then they are all of them. */
  lemma ReplayNeverSkips(log: seq<Event>, capacity: nat, s: nat)
    requires Numbered(log) && s <= U64_MAX && ReplaySince(Held(log, capacity), s).Events?
    ensures !Missed(log, capacity, s)
    ensures ReplaySince(Held(log, capacity), s).events == Newer(log, s)
  {
    if log != [] {
      ReplyFromLog(log, capacity, s);
      GoneIsOld(log, Evicted(log, capacity), s);
    }
  }

  /** What a client should be told. */
  function Expected(log: seq<Event>, capacity: nat, s: nat): ReplayResult
    requires log != []
  {
    if Missed(log, capacity, s) then OutOfRange(log[Evicted(log, capacity)].seqNo) else Events(Newer(log, s))
  }

  lemma ConsecutiveAscends(log: seq<Event>)
    requires Consecutive(log)
    ensures Numbered(log)
  {
    forall i, j | 0 <= i < j < |log| ensures log[i].seqNo < log[j].seqNo {
      assert log[i].seqNo == log[0].seqNo + i;
      assert log[j].seqNo == log[0].seqNo + j;
    }
  }

  /** Among consecutive numbers, something after `s` is gone iff the oldest held is past `s + 1`. */
  lemma MissedExactly(log: seq<Event>, capacity: nat, s: nat)
    requires Consecutive(log) && log != []
    ensures Missed(log, capacity, s)
            <==> Evicted(log, capacity) > 0 && s + 1 < log[Evicted(log, capacity)].seqNo
  {
    var k := Evicted(log, capacity);
    assert log[k].seqNo == log[0].seqNo + k;
    if k > 0 && s + 1 < log[k].seqNo { assert log[k - 1].seqNo > s; }
    if i :| 0 <= i < k && log[i].seqNo > s { assert log[i].seqNo == log[0].seqNo + i; }
  }

  /** The replies that are exactly right: below the largest 64-bit number, unless the client's
      number is from before the log began and nothing has been evicted yet; at the largest number,
      where the sum wraps to zero, only while event 0 is held. */
  predicate Answerable(log: seq<Event>, capacity: nat, s: nat)
    requires log != []
  {
    var k := Evicted(log, capacity);
    if s == U64_MAX then log[k].seqNo == 0 else log[0].seqNo <= s + 1 || k > 0
  }

  /** Consecutively numbered pushes: the reply is the log after `s`, or out of range exactly when
      some event after `s` is gone, if and only if the client's number is answerable. */
  lemma ReplayExact(log: seq<Event>, capacity: nat, s: nat)
    requires Consecutive(log) && log != [] && s <= U64_MAX
    ensures ReplaySince(Held(log, capacity), s) == Expected(log, capacity, s) <==> Answerable(log, capacity, s)
  {
    ConsecutiveAscends(log);
    MissedExactly(log, capacity, s);
    ReplyFromLog(log, capacity, s);
    var k := Evicted(log, capacity);
    assert log[k].seqNo == log[0].seqNo + k <= U64_MAX;
  }

  /** One event, numbered 5, nothing evicted: a client at 2 is told to refresh, and so is a caught-up
      client at the largest number. */
  lemma UnanswerableNumbers(payload: string)
    ensures var log := [Event(5, payload)];
            && ReplaySince(Held(log, 10), 2) == OutOfRange(5) && Expected(log, 10, 2) == Events(log)
            && ReplaySince(Held(log, 10), U64_MAX) == OutOfRange(5) && Expected(log, 10, U64_MAX) == Events([])
  {
    var log := [Event(5, payload)];
    assert Cut(log, 0, 2) && Cut(log, 1, U64_MAX);
    NewerFromCut(log, 0, 2);
    NewerFromCut(log, 1, U64_MAX);
    ReplyFromLog(log, 10, 2);
    ReplyFromLog(log, 10, U64_MAX);
    assert log[0..] == log && log[1..] == [];
  }

  // ----- filling the buffer -----

  /** What the fill task receives: an event, something it skips, or the channel's end. */
  datatype Received = Got(event: Event) | Skipped | Closed

  /** The events taken up before the channel closes. */
  function Taken(rs: seq<Received>): seq<Event> {
    if rs == [] || rs[0].Closed? then []
    else (if rs[0].Got? then [rs[0].event] else []) + Taken(rs[1..])
  }

  /** The channel closes at `n`, or never where that is the end. */
  predicate ClosesAt(rs: seq<Received>, n: nat) {
    n <= |rs| && (n < |rs| ==> rs[n].Closed?) && forall p :: 0 <= p < n ==> !rs[p].Closed?
  }

  function GotBefore(rs: seq<Received>, n: nat): (ps: seq<nat>) { Pick(n, (p: nat) => p < |rs| && rs[p].Got?) }

  /** The events are those received at these positions. */
  predicate AreGot(es: seq<Event>, rs: seq<Received>, ps: seq<nat>) {
    |es| == |ps| && forall i :: 0 <= i < |ps| ==> ps[i] < |rs| && rs[ps[i]] == Got(es[i])
  }

  lemma {:induction false} TakenSnoc(rs: seq<Received>, r: Received)
    requires forall p :: 0 <= p < |rs| ==> !rs[p].Closed?
    ensures Taken(rs + [r]) == Taken(rs) + if r.Got? then [r.event] else []
  {
    if rs == [] {
      assert (rs + [r])[1..] == [];
    } else {
      assert (rs + [r])[1..] == rs[1..] + [r] && (rs + [r])[0] == rs[0];
      assert forall p :: 0 <= p < |rs[1..]| ==> rs[1..][p] == rs[p + 1];
      TakenSnoc(rs[1..], r);
    }
  }

  lemma {:induction false} TakenBefore(rs: seq<Received>, n: nat)
    requires n <= |rs| && forall p :: 0 <= p < n ==> !rs[p].Closed?
    ensures AreGot(Taken(rs[..n]), rs, GotBefore(rs, n))
  {
    if n == 0 {
      assert rs[..0] == [];
    } else {
      TakenBefore(rs, n - 1);
      TakenSnoc(rs[..n - 1], rs[n - 1]);
      assert rs[..n] == rs[..n - 1] + [rs[n - 1]];
    }
  }

  lemma {:induction false} TakenStops(rs: seq<Received>, n: nat)
    requires ClosesAt(rs, n)
    ensures Taken(rs) == Taken(rs[..n])
  {
    if n == 0 {
      assert rs[..0] == [];
    } else {
      assert forall p :: 0 <= p < |rs[1..]| ==> rs[1..][p] == rs[p + 1];
      assert rs[..n][1..] == rs[1..][..n - 1] && rs[..n][0] == rs[0];
      TakenStops(rs[1..], n - 1);
    }
  }

  /** The events taken are all those received before the channel closes, in order, whatever is skipped
      between them. */
  lemma TakenExactly(rs: seq<Received>, n: nat)
    requires ClosesAt(rs, n)
    ensures AreGot(Taken(rs), rs, GotBefore(rs, n))
  {
    TakenStops(rs, n);
    TakenBefore(rs, n);
  }

  function PushAll(buffer: seq<Event>, capacity: nat, es: seq<Event>): seq<Event>
    decreases |es|
  {
    if es == [] then buffer else PushAll(Pushed(buffer, capacity, es[0]), capacity, es[1..])
  }

  function Highest(last: nat, es: seq<Event>): nat
    decreases |es|
  {
    if es == [] then last else Highest(if es[0].seqNo > last then es[0].seqNo else last, es[1..])
  }

  /** `run_replay_buffer_fill`: returns the mirror of the highest sequence number. */
  method RunReplayBufferFill(rs: seq<Received>, buffer: EventReplayBuffer, start: nat) returns (lastEventSeq: nat)
    modifies buffer
    ensures buffer.buffer == PushAll(old(buffer.buffer), buffer.capacity, Taken(rs))
    ensures lastEventSeq == Highest(start, Taken(rs))
  {
    lastEventSeq := start;
    var i := 0;
    assert rs[0..] == rs;
    while i < |rs|
      invariant 0 <= i <= |rs|
      invariant PushAll(old(buffer.buffer), buffer.capacity, Taken(rs))
             == PushAll(buffer.buffer, buffer.capacity, Taken(rs[i..]))
      invariant Highest(start, Taken(rs)) == Highest(lastEventSeq, Taken(rs[i..]))
    {
      assert rs[i..][1..] == rs[i + 1..];
      match rs[i] {
        case Got(e) =>
          assert Taken(rs[i..]) == [e] + Taken(rs[i + 1..]);
          assert ([e] + Taken(rs[i + 1..]))[1..] == Taken(rs[i + 1..]);
          buffer.Push(e);
          if e.seqNo > lastEventSeq { lastEventSeq := e.seqNo; }
        case Skipped =>
          assert Taken(rs[i..]) == Taken(rs[i + 1..]);
        case Closed =>
          assert Taken(rs[i..]) == [];
          return;
      }
      i := i + 1;
    }
  }

  /** The mirror is the maximum, whatever order events arrive in. */
  lemma {:induction false} HighestIsMax(last: nat, es: seq<Event>)
    ensures Highest(last, es) >= last && forall e :: e in es ==> e.seqNo <= Highest(last, es)
    ensures Highest(last, es) == last || exists e :: e in es && e.seqNo == Highest(last, es)
    decreases |es|
  {
    if es == [] {
    } else {
      var m := if es[0].seqNo > last then es[0].seqNo else last;
      HighestIsMax(m, es[1..]);
      assert es[0] in es && forall e :: e in es[1..] ==> e in es;
    }
  }

  /** Pushing from an empty buffer is holding the log. */
  lemma {:induction false} PushAllIsHeld(done: seq<Event>, capacity: nat, es: seq<Event>)
    ensures PushAll(Held(done, capacity), capacity, es) == Held(done + es, capacity)
    decreases |es|
  {
    if es == [] {
      assert done + es == done;
    } else {
      assert (done + [es[0]])[..|done|] == done;
      PushAllIsHeld(done + [es[0]], capacity, es[1..]);
      assert done + es == (done + [es[0]]) + es[1..];
    }
  }
}
