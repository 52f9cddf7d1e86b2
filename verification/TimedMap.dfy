/** The store against its meaning: one flat map from key to value and optional
    deadline. Without evictions every answer is that of the flat map; with them
    a `get` still never returns a stale or expired value. */
module TimedMap {
  import opened Basics
  import opened Shards
  import opened Stores

  // ----- The flat timed map -----

  type FlatMap = map<string, Entry>

  predicate Live(m: FlatMap, k: string, now: int) {
    k in m && !Expired(m[k], now)
  }

  predicate Sets(op: Op, k: string) {
    (op.Set? || op.SetTtl?) && op.key == k
  }

  function FlatNext(m: FlatMap, op: Op): FlatMap {
    match op
    case Set(k, v) => m[k := Entry(v, None)]
    case SetTtl(k, v, secs, now) =>
      m[k := Entry(v, if secs >= 0 then Some(now + secs * NANOS) else None)]
    case Del(k, now) => if Live(m, k, now) then m - {k} else m
    case Expire(k, secs, now, later) =>
      if secs >= 0 && Live(m, k, now) then m[k := m[k].(deadline := Some(later + secs * NANOS))] else m
    case _ => m
  }

  function FlatAnswer(m: FlatMap, op: Op): Answer {
    match op
    case Get(k, now) => Found(if Live(m, k, now) then Some(m[k].value) else None)
    case Del(k, now) => Flag(Live(m, k, now))
    case Expire(k, secs, now, _) => Flag(secs >= 0 && Live(m, k, now))
    case Ttl(k, now, later) =>
      Number(if !Live(m, k, now) then -2
             else if m[k].deadline.None? then -1
             else Remaining(m[k].deadline.value, later))
    case _ => Done
  }

  function FlatRun(ops: seq<Op>): FlatMap {
    if ops == [] then map[] else FlatNext(FlatRun(ops[..|ops| - 1]), ops[|ops| - 1])
  }

  // ----- Clock readings along a run -----

  /** The readings of `op` do not go back behind `t`. */
  predicate NotBefore(op: Op, t: int) {
    op.Set? || (t <= op.now && (op.Expire? || op.Ttl? ==> op.now <= op.later))
  }

  function Latest(op: Op, t: int): int {
    if op.Set? then t else if op.Expire? || op.Ttl? then op.later else op.now
  }

  /** The last reading of a run that starts at time `t`. */
  function Clock(t: int, ops: seq<Op>): int {
    if ops == [] then t else Latest(ops[|ops| - 1], Clock(t, ops[..|ops| - 1]))
  }

  predicate Monotone(t: int, ops: seq<Op>) {
    ops == []
    || (Monotone(t, ops[..|ops| - 1]) && NotBefore(ops[|ops| - 1], Clock(t, ops[..|ops| - 1])))
  }

  lemma {:induction false} MonotonePrefix(t: int, ops: seq<Op>, i: nat)
    requires Monotone(t, ops) && i <= |ops|
    ensures Monotone(t, ops[..i]) && Clock(t, ops[..i]) <= Clock(t, ops)
  {
    if i == |ops| {
      assert ops[..i] == ops;
    } else {
      assert ops[..|ops| - 1][..i] == ops[..i];
      MonotonePrefix(t, ops[..|ops| - 1], i);
    }
  }

  lemma {:induction false} CountersGrow(h: Hash, st: Store, ops: seq<Op>)
    ensures Run(h, st, ops).evicted >= st.evicted && Run(h, st, ops).expired >= st.expired
  {
    if ops != [] {
      CountersGrow(h, st, ops[..|ops| - 1]);
    }
  }

  lemma CountersAtPrefix(h: Hash, st: Store, ops: seq<Op>, j: nat)
    requires j <= |ops|
    ensures var mid, end := Run(h, st, ops[..j]), Run(h, st, ops);
      st.evicted <= mid.evicted <= end.evicted && st.expired <= mid.expired <= end.expired
  {
    assert ops == ops[..j] + ops[j..];
    RunSplit(h, st, ops[..j], ops[j..]);
    CountersGrow(h, st, ops[..j]);
    CountersGrow(h, Run(h, st, ops[..j]), ops[j..]);
  }

  // ----- Refinement -----

  /** The stored entry of `k`, if any, is that of the map; an entry only the map has is past
      its deadline at time `t`. */
  ghost predicate KeyAgrees(stored: Option<Entry>, m: FlatMap, k: string, t: int) {
    if stored.Some? then k in m && m[k] == stored.value
    else k in m ==> Expired(m[k], t)
  }

  function Find(s: Shard, k: string): Option<Entry> {
    if k in s.data then Some(s.data[k]) else None
  }

  /** What a step does to the entry of one key. */
  lemma StepKey(s: Shard, cap: nat, op: Op, k: string)
    ensures var after := Find(Step(s, cap, op).shard, k);
      if Sets(op, k) then after == Some(SetEntry(op))
      else if Loses(s, cap, op, k) || (op.Del? && op.key == k) then after.None?
      else if op.Expire? && op.key == k && op.secs >= 0 && k in s.data
        then after == Some(s.data[k].(deadline := Some(op.later + op.secs * NANOS)))
      else after == Find(s, k)
  {
  }

  /** What any step, evictions included, does to the entry of one key that is still there. */
  lemma StepEntry(s: Shard, cap: nat, op: Op, k: string)
    requires k in Step(s, cap, op).shard.data
    ensures var r := Step(s, cap, op);
      if Sets(op, k) then r.shard.data[k] == SetEntry(op)
      else
        && k in s.data
        && !(op.Del? && op.key == k)
        && (if op.Expire? && op.key == k && r.answer == Flag(true)
            then r.shard.data[k] == s.data[k].(deadline := Some(op.later + op.secs * NANOS))
            else r.shard.data[k] == s.data[k])
  {
  }

  lemma KeyStep(s: Shard, cap: nat, op: Op, m: FlatMap, k: string, t: int)
    requires Step(s, cap, op).evicted == 0 && NotBefore(op, t)
    requires KeyAgrees(Find(s, k), m, k, t)
    ensures KeyAgrees(Find(Step(s, cap, op).shard, k), FlatNext(m, op), k, Latest(op, t))
  {
    StepKey(s, cap, op, k);
  }

  lemma AnswerAgrees(s: Shard, cap: nat, op: Op, m: FlatMap, t: int)
    requires NotBefore(op, t)
    requires !op.Sweep? ==> KeyAgrees(Find(s, op.key), m, op.key, t)
    ensures Step(s, cap, op).answer == FlatAnswer(m, op)
  {
  }

  ghost predicate Agrees(h: Hash, st: Store, m: FlatMap, t: int) {
    forall k :: KeyAgrees(Lookup(h, st, k), m, k, t)
  }

  lemma AgreesStep(h: Hash, st: Store, op: Op, m: FlatMap, t: int)
    requires Agrees(h, st, m, t) && At(h, st, op).evicted == 0 && NotBefore(op, t)
    ensures Agrees(h, Apply(h, st, op), FlatNext(m, op), Latest(op, t))
  {
    var j := Home(h, op);
    forall k
      ensures KeyAgrees(Lookup(h, Apply(h, st, op), k), FlatNext(m, op), k, Latest(op, t))
    {
      assert KeyAgrees(Lookup(h, st, k), m, k, t);
      if ShardIndex(h, k) == j {
        assert Lookup(h, st, k) == Find(st.shards[j], k);
        KeyStep(st.shards[j], st.cap, op, m, k, t);
        assert Lookup(h, Apply(h, st, op), k) == Find(Apply(h, st, op).shards[j], k);
      }
    }
  }

  lemma {:induction false} RunAgrees(h: Hash, maxKeys: nat, ops: seq<Op>, t: int)
    requires Monotone(t, ops) && Run(h, Fresh(maxKeys), ops).evicted == 0
    ensures Agrees(h, Run(h, Fresh(maxKeys), ops), FlatRun(ops), Clock(t, ops))
  {
    if ops != [] {
      var before := ops[..|ops| - 1];
      RunAgrees(h, maxKeys, before, t);
      AgreesStep(h, Run(h, Fresh(maxKeys), before), ops[|ops| - 1], FlatRun(before), Clock(t, before));
    }
  }

  /** In every run without evictions, sweeps anywhere, on a clock that does not go back, every
      answer is that of the flat map; and at the end the live keys are the map's. */
  lemma {:induction false} FlatMapRefinement(h: Hash, maxKeys: nat, ops: seq<Op>, t: int)
    requires Monotone(t, ops) && Run(h, Fresh(maxKeys), ops).evicted == 0
    ensures forall j :: 0 <= j < |ops| ==>
      AnswerAt(h, Fresh(maxKeys), ops, j) == FlatAnswer(FlatRun(ops[..j]), ops[j])
    ensures Agrees(h, Run(h, Fresh(maxKeys), ops), FlatRun(ops), Clock(t, ops))
  {
    RunAgrees(h, maxKeys, ops, t);
    forall j | 0 <= j < |ops|
      ensures AnswerAt(h, Fresh(maxKeys), ops, j) == FlatAnswer(FlatRun(ops[..j]), ops[j])
    {
      FlatAnswerAt(h, maxKeys, ops, t, j);
    }
  }

  lemma FlatAnswerAt(h: Hash, maxKeys: nat, ops: seq<Op>, t: int, j: nat)
    requires Monotone(t, ops) && Run(h, Fresh(maxKeys), ops).evicted == 0 && j < |ops|
    ensures AnswerAt(h, Fresh(maxKeys), ops, j) == FlatAnswer(FlatRun(ops[..j]), ops[j])
  {
    var before, op := ops[..j], ops[j];
    MonotonePrefix(t, ops, j + 1);
    assert ops[..j + 1][..j] == before;
    CountersAtPrefix(h, Fresh(maxKeys), ops, j);
    var st := Run(h, Fresh(maxKeys), before);
    RunAgrees(h, maxKeys, before, t);
    if !op.Sweep? {
      assert KeyAgrees(Lookup(h, st, op.key), FlatRun(before), op.key, Clock(t, before));
    }
    AnswerAgrees(st.shards[Home(h, op)], st.cap, op, FlatRun(before), Clock(t, before));
  }

  // ----- When nothing is evicted -----

  /** The keys of shard `i` that a run sets. */
  function KeysSet(h: Hash, ops: seq<Op>, i: nat): set<string> {
    if ops == [] then {}
    else
      var op := ops[|ops| - 1];
      KeysSet(h, ops[..|ops| - 1], i) + if Home(h, op) == i then Adds(op) else {}
  }

  function Adds(op: Op): set<string> { if op.Set? || op.SetTtl? then {op.key} else {} }

  lemma RoomForKey(s: Shard, cap: nat, k: string, keys: set<string>)
    requires Valid(s, cap) && s.data.Keys + {k} <= keys && |keys| <= cap && k !in s.data
    ensures Victim(s, cap) == {}
  {
    ValidSize(s, cap);
    assert |s.data.Keys + {k}| == |s.data| + 1;
    SubsetSize(s.data.Keys + {k}, keys);
  }

  /** A shard whose keys, with the one to be set, fit its capacity evicts nothing. */
  lemma FewKeysStep(s: Shard, cap: nat, op: Op, keys: set<string>)
    requires Valid(s, cap) && s.data.Keys + Adds(op) <= keys && |keys| <= cap
    ensures Step(s, cap, op).evicted == 0
    ensures Step(s, cap, op).shard.data.Keys <= keys
  {
    if (op.Set? || op.SetTtl?) && op.key !in s.data {
      RoomForKey(s, cap, op.key, keys);
    }
    StepKeys(s, cap, op);
  }

  lemma StepKeys(s: Shard, cap: nat, op: Op)
    ensures Step(s, cap, op).shard.data.Keys <= s.data.Keys + Adds(op)
  {
    StepRearranges(s, cap, op);
    assert forall k :: k in Touched(s, op) ==> k in s.data.Keys + Adds(op);
  }

  ghost predicate KeysFit(h: Hash, st: Store, ops: seq<Op>) {
    st.evicted == 0 && forall i :: 0 <= i < NUM_SHARDS ==> st.shards[i].data.Keys <= KeysSet(h, ops, i)
  }

  lemma {:induction false} KeysAlwaysFit(h: Hash, maxKeys: nat, ops: seq<Op>)
    requires forall i :: 0 <= i < NUM_SHARDS ==> |KeysSet(h, ops, i)| <= PerShard(maxKeys)
    ensures KeysFit(h, Run(h, Fresh(maxKeys), ops), ops)
  {
    if ops != [] {
      var before, op := ops[..|ops| - 1], ops[|ops| - 1];
      forall i | 0 <= i < NUM_SHARDS
        ensures |KeysSet(h, before, i)| <= PerShard(maxKeys)
      {
        SubsetSize(KeysSet(h, before, i), KeysSet(h, ops, i));
      }
      KeysAlwaysFit(h, maxKeys, before);
      var st, i := Run(h, Fresh(maxKeys), before), Home(h, op);
      RunValid(h, Fresh(maxKeys), before);
      assert ShardValid(h, st, i);
      assert KeysSet(h, ops, i) == KeysSet(h, before, i) + Adds(op);
      FewKeysStep(st.shards[i], st.cap, op, KeysSet(h, ops, i));
    }
  }

  /** A run that never sets more different keys of a shard than one, or than a sixteenth of `maxKeys`,
      evicts nothing. */
  lemma {:induction false} FewKeysNoEviction(h: Hash, maxKeys: nat, ops: seq<Op>)
    requires forall i :: 0 <= i < 16 ==> Room(maxKeys, |KeysSet(h, ops, i)|)
    ensures Run(h, Fresh(maxKeys), ops).evicted == 0
  {
    forall i | 0 <= i < NUM_SHARDS
      ensures |KeysSet(h, ops, i)| <= PerShard(maxKeys)
    {
      RoomPerShard(maxKeys, |KeysSet(h, ops, i)|);
    }
    KeysAlwaysFit(h, maxKeys, ops);
  }
}
