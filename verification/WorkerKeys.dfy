/** Worker keys, `agent::cwd` or `agent::cwd::name`, and the two places that read them back on a
    restart: the scrub of the registry counts separators from the left, the migration of session
    ids splits at the last one from the right. */
module WorkerKeys {
  import opened Text

  const SEP := "::"

  function WorkerKey(agent: string, cwd: string, sessionKey: Option<string>): string {
    if sessionKey.Some? && Trim(sessionKey.value) != []
    then agent + SEP + cwd + SEP + Trim(sessionKey.value)
    else agent + SEP + cwd
  }

  // ----- the two readings -----

  /** A separator stands at `i`. Separators may overlap, as in `:::`. */
  predicate SepAt(s: string, i: int) { 0 <= i && i + 2 <= |s| && s[i] == ':' && s[i + 1] == ':' }

  predicate HasSep(s: string) { exists i :: 0 <= i < |s| && SepAt(s, i) }

  /** Two separators that do not overlap. */
  ghost predicate TwoSeps(s: string) { exists i, j :: SepAt(s, i) && SepAt(s, j) && i + 2 <= j }

  /** `matches("::").count()`: disjoint matches, taken from the left. */
  function CountSep(s: string): nat {
    if |s| < 2 then 0 else if SepAt(s, 0) then 1 + CountSep(s[2..]) else CountSep(s[1..])
  }

  /** The position of the last separator. */
  function LastSep(s: string): (r: Option<nat>)
    ensures r.None? <==> !HasSep(s)
    ensures r.Some? ==> SepAt(s, r.value) && forall i :: SepAt(s, i) ==> i <= r.value
  {
    if |s| < 2 then None
    else if SepAt(s, |s| - 2) then Some(|s| - 2)
    else
      var front := s[..|s| - 1];
      assert forall i :: SepAt(front, i) <==> SepAt(s, i);
      LastSep(front)
  }

  /** `rsplitn(2, "::")` and the migration's two tests: the name to carry an id to. */
  function CarriedName(key: string): Option<string> {
    match LastSep(key)
    case None => None
    case Some(i) => if key[i + 2..] != [] && HasSep(key[..i]) then Some(key[i + 2..]) else None
  }

  /** The scrub's reading: the key has a session name. */
  predicate Vouched(key: string) { CountSep(key) >= 2 }

  // ----- they agree -----

  lemma {:induction false} CountOne(s: string)
    ensures CountSep(s) >= 1 <==> HasSep(s)
  {
    if |s| >= 2 && !SepAt(s, 0) {
      CountOne(s[1..]);
      assert forall i :: SepAt(s, i + 1) <==> SepAt(s[1..], i) || (i == -1 && SepAt(s, 0));
      if i :| SepAt(s, i) { assert SepAt(s[1..], i - 1); }
      if i :| SepAt(s[1..], i) { assert SepAt(s, i + 1); }
    }
  }

  lemma {:induction false} CountTwo(s: string)
    ensures CountSep(s) >= 2 <==> TwoSeps(s)
  {
    if |s| >= 2 {
      if SepAt(s, 0) {
        CountOne(s[2..]);
        if i :| SepAt(s[2..], i) { assert SepAt(s, i + 2); }
        if i, j :| SepAt(s, i) && SepAt(s, j) && i + 2 <= j { assert SepAt(s[2..], j - 2); }
      } else {
        CountTwo(s[1..]);
        if i, j :| SepAt(s, i) && SepAt(s, j) && i + 2 <= j {
          assert SepAt(s[1..], i - 1) && SepAt(s[1..], j - 1);
        }
        if i, j :| SepAt(s[1..], i) && SepAt(s[1..], j) && i + 2 <= j {
          assert SepAt(s, i + 1) && SepAt(s, j + 1);
        }
      }
    }
  }

  lemma HeadHasSep(s: string, last: nat)
    requires LastSep(s) == Some(last)
    ensures HasSep(s[..last]) <==> TwoSeps(s)
  {
    if i :| SepAt(s[..last], i) { assert SepAt(s, i); }
    if i, j :| SepAt(s, i) && SepAt(s, j) && i + 2 <= j { assert SepAt(s[..last], i); }
  }

  lemma NameIsEmpty(s: string, last: nat)
    requires LastSep(s) == Some(last)
    ensures s[last + 2..] == [] <==> EndsWith(s, SEP)
  {
    if EndsWith(s, SEP) {
      assert s[|s| - 2..][0] == ':' && s[|s| - 2..][1] == ':';
      assert SepAt(s, |s| - 2);
    }
    if s[last + 2..] == [] { assert s[|s| - 2..] == SEP; }
  }

  /** Counting from the left and splitting from the right disagree on exactly the keys whose name
      is empty: the scrub keeps such a key's id, the migration passes over it. */
  lemma ReadingsAgreeExactly(key: string)
    ensures CarriedName(key).Some? <==> Vouched(key) && !EndsWith(key, SEP)
  {
    CountTwo(key);
    match LastSep(key)
    case None =>
      assert forall i :: SepAt(key, i) ==> HasSep(key);
    case Some(last) =>
      HeadHasSep(key, last);
      NameIsEmpty(key, last);
  }

  lemma ReadingsDisagree()
    ensures Vouched("codex::/w::") && CarriedName("codex::/w::").None?
  {
    var key := "codex::/w::";
    assert SepAt(key, 5) && SepAt(key, 9);
    CountTwo(key);
    assert key[9..] == SEP;
    ReadingsAgreeExactly(key);
  }

  // ----- keys that worker_key builds -----

  function Named(agent: string, cwd: string, name: string): string { agent + SEP + cwd + SEP + name }

  lemma SepInSuffix(head: string, name: string, i: int)
    requires i >= |head|
    ensures SepAt(head + name, i) <==> SepAt(name, i - |head|)
  {
  }

  lemma NoneInName(head: string, name: string, i: int)
    requires name != [] && !HasSep(name) && name[0] != ':' && i > |head|
    ensures !SepAt(head + SEP + name, i)
  {
    var s := head + SEP + name;
    assert s[|head| + 2] == name[0];
    if i >= |head| + 2 {
      SepInSuffix(head + SEP, name, i);
      assert SepAt(name, i - |head| - 2) ==> HasSep(name);
    }
  }

  lemma LastOfNamed(head: string, name: string)
    requires name != [] && !HasSep(name) && name[0] != ':'
    ensures LastSep(head + SEP + name) == Some(|head|)
  {
    forall i | i > |head| ensures !SepAt(head + SEP + name, i) {
      NoneInName(head, name, i);
    }
    LastIs(head + SEP + name, |head|);
  }

  lemma LastIs(s: string, last: nat)
    requires SepAt(s, last) && forall i :: i > last ==> !SepAt(s, i)
    ensures LastSep(s) == Some(last)
  {
    assert HasSep(s);
  }

  /** A name is read back from its key exactly when it holds no separator and no leading colon,
      whatever the agent and the directory are. */
  lemma NameRecoveredExactly(agent: string, cwd: string, name: string)
    requires name != []
    ensures CarriedName(Named(agent, cwd, name)) == Some(name) <==> !HasSep(name) && name[0] != ':'
  {
    var head := agent + SEP + cwd;
    var s := Named(agent, cwd, name);
    assert s == head + SEP + name;
    assert SepAt(head, |agent|);
    assert SepAt(s, |head|);
    if !HasSep(name) && name[0] != ':' {
      LastOfNamed(head, name);
      assert s[..|head|] == head;
      assert s[|head| + 2..] == name;
    } else {
      if name[0] == ':' { assert SepAt(s, |head| + 1); }
      if i :| SepAt(name, i) { SepInSuffix(head + SEP, name, |head| + 2 + i); }
    }
  }

  /** Any session name given to `worker_key`: blank names give the anonymous key, and the others
      are recovered trimmed. */
  lemma WorkerKeyRecovers(agent: string, cwd: string, raw: string)
    ensures Trim(raw) == [] ==> WorkerKey(agent, cwd, Some(raw)) == WorkerKey(agent, cwd, None)
    ensures Trim(raw) != [] && !HasSep(Trim(raw)) && Trim(raw)[0] != ':'
            ==> var key := WorkerKey(agent, cwd, Some(raw)); CarriedName(key) == Some(Trim(raw)) && Vouched(key)
  {
    if Trim(raw) != [] {
      NameRecoveredExactly(agent, cwd, Trim(raw));
      ReadingsAgreeExactly(WorkerKey(agent, cwd, Some(raw)));
    }
  }

  predicate NoColon(s: string) { forall i :: 0 <= i < |s| ==> s[i] != ':' }

  /** The text holds a separator, or makes one with the colon next to it. */
  predicate LooksNamed(agent: string, cwd: string) {
    || HasSep(agent) || HasSep(cwd)
    || (agent != [] && agent[|agent| - 1] == ':' && cwd != [] && cwd[0] == ':')
  }

  lemma NamedByParts(agent: string, cwd: string)
    requires LooksNamed(agent, cwd)
    ensures TwoSeps(agent + SEP + cwd)
  {
    var s := agent + SEP + cwd;
    assert SepAt(s, |agent|);
    if HasSep(agent) {
      var i :| 0 <= i < |agent| && SepAt(agent, i);
      assert SepAt(s, i);
    } else if HasSep(cwd) {
      var i :| 0 <= i < |cwd| && SepAt(cwd, i);
      SepInSuffix(agent + SEP, cwd, |agent| + 2 + i);
      assert SepAt(s, |agent| + 2 + i);
    } else {
      assert SepAt(s, |agent| - 1) && SepAt(s, |agent| + 1);
    }
  }

  lemma PartsOfTwo(agent: string, cwd: string, i: int, j: int)
    requires var s := agent + SEP + cwd; SepAt(s, i) && SepAt(s, j) && i + 2 <= j
    ensures LooksNamed(agent, cwd)
  {
    var s := agent + SEP + cwd;
    if i + 2 <= |agent| {
      assert SepAt(agent, i);
    } else if j >= |agent| + 2 {
      SepInSuffix(agent + SEP, cwd, j);
      assert SepAt(cwd, j - |agent| - 2);
    } else {
      assert i == |agent| - 1 && j == |agent| + 1;
      assert s[i] == agent[i] && s[j + 1] == cwd[0];
    }
  }

  /** The anonymous key must not look named, and does so exactly when the agent or the directory
      itself holds a separator, or their colons meet the one between them: then a restart keeps the
      anonymous worker's id. */
  lemma AnonymousVouchedExactly(agent: string, cwd: string)
    ensures Vouched(WorkerKey(agent, cwd, None)) <==> LooksNamed(agent, cwd)
  {
    var s := agent + SEP + cwd;
    CountTwo(s);
    if LooksNamed(agent, cwd) { NamedByParts(agent, cwd); }
    if i, j :| SepAt(s, i) && SepAt(s, j) && i + 2 <= j { PartsOfTwo(agent, cwd, i, j); }
  }

  /** An anonymous worker in `/a::b` keeps its id. */
  lemma AnonymousIsVouched()
    ensures Vouched(WorkerKey("codex", "/a::b", None))
  {
    assert SepAt("/a::b", 2);
    AnonymousVouchedExactly("codex", "/a::b");
  }

  lemma SameAgent(a: string, b: string, x: string, y: string)
    requires NoColon(a) && NoColon(b) && a + SEP + x == b + SEP + y
    ensures a == b && x == y
  {
    var s := a + SEP + x;
    assert s[|a|] == ':' && s[|b|] == ':';
    assert forall i :: 0 <= i < |a| ==> s[i] == a[i] != ':';
    assert forall i :: 0 <= i < |b| ==> s[i] == (b + SEP + y)[i] == b[i] != ':';
    assert |a| == |b|;
    assert s[..|a|] == a && s[..|b|] == b;
    assert s[|a| + 2..] == x && s[|b| + 2..] == y;
  }

  lemma SameDirectory(c: string, c': string, n: string)
    requires c + SEP + n == c' + SEP + n
    ensures c == c'
  {
    assert |c + SEP + n| == |c| + 2 + |n| && |c' + SEP + n| == |c'| + 2 + |n|;
    assert c == (c + SEP + n)[..|c|];
    assert c' == (c' + SEP + n)[..|c'|];
  }

  predicate Recoverable(name: string) { name != [] && !HasSep(name) && name[0] != ':' }

  lemma SameName(a: string, c: string, n: string, a': string, c': string, n': string)
    requires Recoverable(n) && Recoverable(n') && Named(a, c, n) == Named(a', c', n')
    ensures n == n'
  {
    NameRecoveredExactly(a, c, n);
    NameRecoveredExactly(a', c', n');
  }

  /** The name in the key of a session given as `raw`. */
  predicate IsNamedSession(raw: string) { Recoverable(Trim(raw)) }

  /** Two recoverable named sessions share a key exactly when they have one trimmed name and their
      agents and directories, joined, are the same text. */
  lemma NamedKeysShareExactly(a: string, c: string, n: string, a': string, c': string, n': string)
    requires IsNamedSession(n) && IsNamedSession(n')
    ensures WorkerKey(a, c, Some(n)) == WorkerKey(a', c', Some(n'))
            <==> Trim(n) == Trim(n') && a + "::" + c == a' + "::" + c'
  {
    var m, m' := Trim(n), Trim(n');
    if Named(a, c, m) == Named(a', c', m') {
      SameName(a, c, m, a', c', m');
      SameDirectory(a + SEP + c, a' + SEP + c', m);
    }
  }

  /** So sessions of agents without a colon share a key only when they are the same session; and so do
      anonymous workers. */
  lemma KeysInjective(a: string, c: string, n: Option<string>, a': string, c': string, n': Option<string>)
    requires NoColon(a) && NoColon(a')
    requires n.Some? == n'.Some? && (n.Some? ==> IsNamedSession(n.value) && IsNamedSession(n'.value))
    requires WorkerKey(a, c, n) == WorkerKey(a', c', n')
    ensures a == a' && c == c' && (n.Some? ==> Trim(n.value) == Trim(n'.value))
  {
    if n.Some? { NamedKeysShareExactly(a, c, n.value, a', c', n'.value); }
    SameAgent(a, a', c, c');
  }

  // ----- the registry -----

  datatype WorkerState = WorkerState(
    agent: string, cwd: string, sessionId: Option<string>, spawnCount: nat, askCount: nat, lastUsedMs: nat)

  type Registry = map<string, WorkerState>

  function ScrubbedEntry(key: string, state: WorkerState): WorkerState {
    if Vouched(key) then state else state.(sessionId := None)
  }

  method ScrubUnvouchableSessions(loaded: Registry) returns (workers: Registry)
    ensures workers.Keys == loaded.Keys
    ensures forall k :: k in loaded ==> workers[k] == ScrubbedEntry(k, loaded[k])
  {
    workers := loaded;
    var todo := loaded.Keys;
    while todo != {}
      invariant todo <= loaded.Keys == workers.Keys
      invariant forall k :: k in loaded && k !in todo ==> workers[k] == ScrubbedEntry(k, loaded[k])
      invariant forall k :: k in todo ==> workers[k] == loaded[k]
      decreases |todo|
    {
      var key :| key in todo;
      if workers[key].sessionId.Some? && CountSep(key) < 2 {
        workers := workers[key := workers[key].(sessionId := None)];
      }
      todo := todo - {key};
    }
  }

  /** The entries whose id the migration carries. */
  function Carried(workers: Registry): set<string> {
    set k | k in workers && workers[k].sessionId.Some? && CarriedName(k).Some?
  }

  /** One call of `set_id`. */
  datatype SetId = SetId(name: string, sid: string)

  function SetIdOf(workers: Registry, k: string): SetId
    requires k in Carried(workers)
  {
    SetId(CarriedName(k).value, workers[k].sessionId.value)
  }

  /** Each element once. */
  predicate Enumerates(order: seq<string>, keys: set<string>) {
    && |order| == |keys|
    && (forall i :: 0 <= i < |order| ==> order[i] in keys)
    && (forall i, j :: 0 <= i < j < |order| ==> order[i] != order[j])
  }

  /** The calls follow this order of the given carried entries. */
  predicate CallsFor(workers: Registry, calls: seq<SetId>, order: seq<string>, keys: set<string>)
    requires keys <= Carried(workers)
  {
    && Enumerates(order, keys) && |calls| == |order|
    && forall i :: 0 <= i < |order| ==> order[i] in keys && calls[i] == SetIdOf(workers, order[i])
  }

  lemma OneMoreCall(workers: Registry, calls: seq<SetId>, order: seq<string>, keys: set<string>, k: string)
    requires keys <= Carried(workers) && CallsFor(workers, calls, order, keys) && k in Carried(workers) - keys
    ensures CallsFor(workers, calls + [SetIdOf(workers, k)], order + [k], keys + {k})
  {
  }

  /** `hydrate_session_ids_from_disk`: the calls it makes of its callback, in the map's order. */
  method HydrateSessionIds(workers: Registry) returns (calls: seq<SetId>, migrated: nat)
    ensures exists order :: CallsFor(workers, calls, order, Carried(workers))
    ensures migrated == |calls|
  {
    calls, migrated := [], 0;
    var todo := workers.Keys;
    ghost var order: seq<string> := [];
    ghost var all := Carried(workers);
    ghost var done: set<string> := {};
    while todo != {}
      invariant todo <= workers.Keys
      invariant done == all - todo
      invariant CallsFor(workers, calls, order, done) && |calls| == migrated
      decreases |todo|
    {
      var key :| key in todo;
      if workers[key].sessionId.Some? && CarriedName(key).Some? {
        OneMoreCall(workers, calls, order, done, key);
        calls := calls + [SetId(CarriedName(key).value, workers[key].sessionId.value)];
        migrated := migrated + 1;
        order, done := order + [key], done + {key};
      }
      todo := todo - {key};
    }
    assert done == all;
  }

  /** Scrubbing first changes nothing the migration would carry, and every id that survives the
      scrub under a key with a name is one the migration carries. */
  lemma ScrubThenHydrate(loaded: Registry, workers: Registry)
    requires workers.Keys == loaded.Keys
    requires forall k :: k in loaded ==> workers[k] == ScrubbedEntry(k, loaded[k])
    ensures Carried(workers) == Carried(loaded)
    ensures forall k :: k in Carried(loaded) ==> SetIdOf(workers, k) == SetIdOf(loaded, k)
    ensures forall k :: k in workers && workers[k].sessionId.Some? && !EndsWith(k, SEP) ==> k in Carried(loaded)
  {
    forall k | k in loaded
      ensures CarriedName(k).Some? <==> Vouched(k) && !EndsWith(k, SEP)
    {
      ReadingsAgreeExactly(k);
    }
  }
}
