/** Tool-call records, and how the records of one key sit among the others. Both stream parsers
    pair a later event with the last record of its key. */
module ToolCalls {
  import opened Text
  import opened LineRuns

  datatype ToolKind = ReadFile | WriteFile | EditFile | Bash | Grep | Glob | RequestUserInput | UnknownKind

  /** A call's recorded arguments: their JSON text, and the shell command in them, if any. */
  datatype Args = Args(json: string, command: Option<string>)

  datatype ToolCall<K> = ToolCall(
    id: Option<K>, tool: string, kind: ToolKind, success: Option<bool>, durationMs: Option<nat>,
    args: Option<Args>, returnedLines: Runs, shownOutput: Option<string>)

  /** `shell_read_kind`, which both parsers apply after their name table. */
  type Classifier = (ToolKind, Args) -> ToolKind

  function Classify(classify: Classifier, kind: ToolKind, args: Option<Args>): ToolKind {
    match args case None => kind case Some(a) => classify(kind, a)
  }

  /** The records of one key, in order. */
  function Only<K(==)>(calls: seq<ToolCall<K>>, k: K): (r: seq<ToolCall<K>>)
    ensures forall c :: c in r ==> c.id == Some(k)
  {
    if calls == [] then []
    else Only(calls[..|calls| - 1], k) + if calls[|calls| - 1].id == Some(k) then [calls[|calls| - 1]] else []
  }

  function Last<T>(s: seq<T>): T
    requires s != []
  {
    s[|s| - 1]
  }

  /** `p` is the position of the last record of key `k`. */
  predicate IsLastOf<K(==)>(calls: seq<ToolCall<K>>, k: K, p: nat) {
    p < |calls| && calls[p].id == Some(k) && forall q :: p < q < |calls| ==> calls[q].id != Some(k)
  }

  lemma LastOfAppend<K>(calls: seq<ToolCall<K>>, c: ToolCall<K>, k: K, p: nat)
    requires p < |calls|
    ensures IsLastOf(calls + [c], k, p) <==> IsLastOf(calls, k, p) && c.id != Some(k)
  {
    var more := calls + [c];
    assert more[|calls|] == c && forall q :: 0 <= q < |calls| ==> more[q] == calls[q];
  }

  lemma LastOfUpdate<K>(calls: seq<ToolCall<K>>, q: nat, c: ToolCall<K>, k: K, p: nat)
    requires q < |calls| && c.id == calls[q].id
    ensures IsLastOf(calls[q := c], k, p) <==> IsLastOf(calls, k, p)
  {
    assert forall i :: 0 <= i < |calls| ==> calls[q := c][i].id == calls[i].id;
  }

  lemma OnlyAppend<K>(calls: seq<ToolCall<K>>, c: ToolCall<K>, k: K)
    ensures Only(calls + [c], k) == Only(calls, k) + if c.id == Some(k) then [c] else []
  {
    assert (calls + [c])[..|calls|] == calls;
  }

  lemma {:induction false} LastOfOnly<K>(calls: seq<ToolCall<K>>, k: K, p: nat)
    requires IsLastOf(calls, k, p)
    ensures Only(calls, k) != [] && Last(Only(calls, k)) == calls[p]
  {
    if p < |calls| - 1 { LastOfOnly(calls[..|calls| - 1], k, p); }
  }

  /** Rewriting a key's last record rewrites the last of its records, and no other key's. */
  lemma {:induction false} OnlyUpdate<K>(calls: seq<ToolCall<K>>, k: K, p: nat, c: ToolCall<K>, j: K)
    requires IsLastOf(calls, k, p) && c.id == Some(k)
    ensures Only(calls, k) != []
    ensures Only(calls[p := c], j)
         == if j == k then Only(calls, k)[..|Only(calls, k)| - 1] + [c] else Only(calls, j)
  {
    LastOfOnly(calls, k, p);
    var front, last := calls[..|calls| - 1], Last(calls);
    var calls' := calls[p := c];
    if p == |calls| - 1 {
      assert calls'[..|calls| - 1] == front;
    } else {
      assert calls'[..|calls| - 1] == front[p := c] && Last(calls') == last;
      OnlyUpdate(front, k, p, c, j);
    }
  }

  lemma {:induction false} OnlyEmpty<K>(calls: seq<ToolCall<K>>, k: K)
    requires Only(calls, k) == []
    ensures forall p :: 0 <= p < |calls| ==> calls[p].id != Some(k)
  {
    if calls == [] {
    } else {
      OnlyEmpty(calls[..|calls| - 1], k);
    }
  }

  /** Every key with records has a last one. */
  lemma {:induction false} FindLastOf<K>(calls: seq<ToolCall<K>>, k: K) returns (p: nat)
    requires Only(calls, k) != []
    ensures IsLastOf(calls, k, p)
  {
    if Last(calls).id == Some(k) {
      p := |calls| - 1;
    } else {
      p := FindLastOf(calls[..|calls| - 1], k);
    }
  }

  lemma {:induction false} OnlyOfOneKey<K>(calls: seq<ToolCall<K>>, k: K)
    requires forall c :: c in calls ==> c.id == Some(k)
    ensures Only(calls, k) == calls
  {
    if calls == [] {
    } else {
      assert Last(calls) in calls;
      OnlyOfOneKey(calls[..|calls| - 1], k);
      assert calls == calls[..|calls| - 1] + [Last(calls)];
    }
  }
}
