/** The sixteen-shard store as a value, and runs of operations on it. The hash
    is an arbitrary function `h`; every function takes it as a parameter. */
module Stores {
  import opened Basics
  import opened Shards

  const NUM_SHARDS := 16

  type Hash = string -> nat

  datatype StoreData = Store(cap: nat, shards: seq<Shard>, evicted: nat, expired: nat)

  type Store = s: StoreData | |s.shards| == NUM_SHARDS
    witness Store(1, seq(NUM_SHARDS, _ => EMPTY_SHARD), 0, 0)

  function ShardIndex(h: Hash, key: string): (i: nat)
    ensures i < NUM_SHARDS
  {
    h(key) % NUM_SHARDS
  }

  /** The shard an operation works on. */
  function Home(h: Hash, op: Op): (i: nat)
    ensures i < NUM_SHARDS
  {
    if op.Sweep? then op.shard % NUM_SHARDS else ShardIndex(h, op.key)
  }

  function PerShard(maxKeys: nat): nat {
    if maxKeys / NUM_SHARDS > 1 then maxKeys / NUM_SHARDS else 1
  }

  /** A shard has room for one key in any case, and for `n` if sixteen times as many are allowed. */
  predicate Room(maxKeys: nat, n: nat) { n <= 1 || 16 * n <= maxKeys }

  lemma RoomPerShard(maxKeys: nat, n: nat)
    ensures n <= PerShard(maxKeys) <==> Room(maxKeys, n)
  {
  }

  function Fresh(maxKeys: nat): Store {
    Store(PerShard(maxKeys), seq(NUM_SHARDS, _ => EMPTY_SHARD), 0, 0)
  }

  function At(h: Hash, st: Store, op: Op): Outcome {
    Step(st.shards[Home(h, op)], st.cap, op)
  }

  function Apply(h: Hash, st: Store, op: Op): Store {
    var r := At(h, st, op);
    Store(st.cap, st.shards[Home(h, op) := r.shard], st.evicted + r.evicted, st.expired + r.expired)
  }

  function Run(h: Hash, st: Store, ops: seq<Op>): Store {
    if ops == [] then st else Apply(h, Run(h, st, ops[..|ops| - 1]), ops[|ops| - 1])
  }

  /** The answer given to the `i`-th operation of a run. */
  function AnswerAt(h: Hash, st: Store, ops: seq<Op>, i: nat): Answer
    requires i < |ops|
  {
    At(h, Run(h, st, ops[..i]), ops[i]).answer
  }

  function Lookup(h: Hash, st: Store, k: string): Option<Entry> {
    var data := st.shards[ShardIndex(h, k)].data;
    if k in data then Some(data[k]) else None
  }

  lemma RunSnoc(h: Hash, st: Store, ops: seq<Op>, op: Op)
    ensures Run(h, st, ops + [op]) == Apply(h, Run(h, st, ops), op)
  {
    assert (ops + [op])[..|ops + [op]| - 1] == ops;
  }

  lemma {:induction false} RunSplit(h: Hash, st: Store, a: seq<Op>, b: seq<Op>)
    ensures Run(h, st, a + b) == Run(h, Run(h, st, a), b)
  {
    if b == [] {
      assert a + b == a;
    } else {
      assert (a + b)[..|a + b| - 1] == a + b[..|b| - 1];
      RunSplit(h, st, a, b[..|b| - 1]);
    }
  }

  // ----- Validity and conservation -----

  ghost predicate StoreValid(h: Hash, st: Store) {
    && st.cap >= 1
    && forall i :: 0 <= i < NUM_SHARDS ==> ShardValid(h, st, i)
  }

  ghost predicate ShardValid(h: Hash, st: Store, i: nat)
    requires i < NUM_SHARDS
  {
    Valid(st.shards[i], st.cap) && forall k :: k in st.shards[i].data ==> ShardIndex(h, k) == i
  }

  lemma ApplyValid(h: Hash, st: Store, op: Op)
    requires StoreValid(h, st)
    ensures StoreValid(h, Apply(h, st, op))
  {
    var st' := Apply(h, st, op);
    var j := Home(h, op);
    assert ShardValid(h, st, j);
    StepAccounted(st.shards[j], st.cap, op);
    forall i | 0 <= i < NUM_SHARDS
      ensures ShardValid(h, st', i)
    {
      assert ShardValid(h, st, i);
    }
  }

  lemma {:induction false} RunValid(h: Hash, st: Store, ops: seq<Op>)
    requires StoreValid(h, st)
    ensures StoreValid(h, Run(h, st, ops))
    ensures Run(h, st, ops).cap == st.cap
  {
    if ops != [] {
      RunValid(h, st, ops[..|ops| - 1]);
      ApplyValid(h, Run(h, st, ops[..|ops| - 1]), ops[|ops| - 1]);
    }
  }

  lemma FreshValid(h: Hash, maxKeys: nat)
    ensures StoreValid(h, Fresh(maxKeys))
  {
  }

  function Size(shards: seq<Shard>): nat {
    if shards == [] then 0 else |shards[0].data| + Size(shards[1..])
  }

  lemma {:induction false} SizeUpdate(shards: seq<Shard>, i: nat, s: Shard)
    requires i < |shards|
    ensures Size(shards[i := s]) + |shards[i].data| == Size(shards) + |s.data|
  {
    if i > 0 {
      assert shards[i := s][1..] == shards[1..][i - 1 := s];
      SizeUpdate(shards[1..], i - 1, s);
    }
  }

  /** How many operations of the run created an entry for an absent key. */
  function Insertions(h: Hash, st: Store, ops: seq<Op>): nat {
    if ops == [] then 0
    else
      var before, op := ops[..|ops| - 1], ops[|ops| - 1];
      Insertions(h, st, before) + Tally(Inserts(Run(h, st, before).shards[Home(h, op)], op))
  }

  /** How many `del`s of the run returned true. */
  function Deletions(h: Hash, st: Store, ops: seq<Op>): nat {
    if ops == [] then 0
    else
      var before, op := ops[..|ops| - 1], ops[|ops| - 1];
      Deletions(h, st, before) + Tally(op.Del? && At(h, Run(h, st, before), op).answer == Flag(true))
  }

  lemma ApplySize(h: Hash, st: Store, op: Op)
    requires StoreValid(h, st)
    ensures var st', s, r := Apply(h, st, op), st.shards[Home(h, op)], At(h, st, op);
      Size(st.shards) + Tally(Inserts(s, op))
      == Size(st'.shards) + r.evicted + r.expired + Tally(op.Del? && r.answer == Flag(true))
  {
    var i := Home(h, op);
    assert ShardValid(h, st, i);
    StepAccounted(st.shards[i], st.cap, op);
    ValidSize(st.shards[i], st.cap);
    ValidSize(At(h, st, op).shard, st.cap);
    SizeUpdate(st.shards, i, At(h, st, op).shard);
  }

  lemma {:induction false} Conservation(h: Hash, st: Store, ops: seq<Op>)
    requires StoreValid(h, st)
    ensures var st' := Run(h, st, ops);
      Size(st.shards) + st.evicted + st.expired + Insertions(h, st, ops)
      == Size(st'.shards) + st'.evicted + st'.expired + Deletions(h, st, ops)
  {
    if ops != [] {
      var before := ops[..|ops| - 1];
      Conservation(h, st, before);
      RunValid(h, st, before);
      ApplySize(h, Run(h, st, before), ops[|ops| - 1]);
    }
  }

  /** How often the run set an absent key in a full shard. */
  function Evictions(h: Hash, st: Store, ops: seq<Op>): nat {
    if ops == [] then 0
    else
      var before, op := ops[..|ops| - 1], ops[|ops| - 1];
      var s := Run(h, st, before).shards[Home(h, op)];
      Evictions(h, st, before) + Tally(Inserts(s, op) && |s.order| >= st.cap)
  }

  /** How many entries the run found past their deadline. */
  function Expiries(h: Hash, st: Store, ops: seq<Op>): nat {
    if ops == [] then 0
    else
      var before, op := ops[..|ops| - 1], ops[|ops| - 1];
      var s := Run(h, st, before).shards[Home(h, op)];
      Expiries(h, st, before) + |set k | k in s.data && FindsExpired(s, op, k)|
  }

  lemma StepCounts(s: Shard, cap: nat, op: Op)
    requires cap >= 1
    ensures Step(s, cap, op).evicted == Tally(Inserts(s, op) && |s.order| >= cap)
    ensures Step(s, cap, op).expired == |set k | k in s.data && FindsExpired(s, op, k)|
  {
    var found := set k | k in s.data && FindsExpired(s, op, k);
    if op.Sweep? {
      assert found == Swept(s, op.now, op.visited);
    } else if !op.Set? && !op.SetTtl? && op.key in s.data && FindsExpired(s, op, op.key) {
      assert found == {op.key};
    } else {
      assert found == {};
    }
  }

  /** The two counters of the store count evictions and expiries. */
  lemma {:induction false} CountersMean(h: Hash, st: Store, ops: seq<Op>)
    requires StoreValid(h, st)
    ensures Run(h, st, ops).evicted == st.evicted + Evictions(h, st, ops)
    ensures Run(h, st, ops).expired == st.expired + Expiries(h, st, ops)
  {
    if ops != [] {
      hide Step, FindsExpired, Inserts;
      var before, op := ops[..|ops| - 1], ops[|ops| - 1];
      CountersMean(h, st, before);
      RunValid(h, st, before);
      StepCounts(Run(h, st, before).shards[Home(h, op)], st.cap, op);
    }
  }

  lemma OneMore(n: nat, cap: nat)
    ensures (n + 1) * cap == cap + n * cap
  {
  }

  lemma {:induction false} SizeBound(shards: seq<Shard>, cap: nat)
    requires forall i :: 0 <= i < |shards| ==> Valid(shards[i], cap)
    ensures Size(shards) <= |shards| * cap
  {
    if shards != [] {
      ValidSize(shards[0], cap);
      SizeBound(shards[1..], cap);
      OneMore(|shards| - 1, cap);
    }
  }

  lemma {:induction false} FreshSize(n: nat)
    ensures Size(seq(n, _ => EMPTY_SHARD)) == 0
  {
    if n > 0 {
      assert seq(n, _ => EMPTY_SHARD)[1..] == seq(n - 1, _ => EMPTY_SHARD);
      FreshSize(n - 1);
    }
  }

  /** Every key ever inserted is still there or was evicted, expired or deleted; the store
      never holds more than its capacity, which is never below one key a shard. */
  lemma {:induction false} KeysConserved(h: Hash, maxKeys: nat, ops: seq<Op>)
    ensures var st := Run(h, Fresh(maxKeys), ops);
      && Insertions(h, Fresh(maxKeys), ops)
         == Size(st.shards) + st.evicted + st.expired + Deletions(h, Fresh(maxKeys), ops)
      && Size(st.shards) <= (if maxKeys > NUM_SHARDS then maxKeys else NUM_SHARDS)
  {
    var st := Run(h, Fresh(maxKeys), ops);
    FreshSize(NUM_SHARDS);
    Conservation(h, Fresh(maxKeys), ops);
    RunValid(h, Fresh(maxKeys), ops);
    forall i | 0 <= i < NUM_SHARDS
      ensures Valid(st.shards[i], st.cap)
    {
      assert ShardValid(h, st, i);
    }
    SizeBound(st.shards, st.cap);
  }

  // ----- Shards are independent -----

  function ShardRun(s: Shard, cap: nat, ops: seq<Op>): Shard {
    if ops == [] then s else Step(ShardRun(s, cap, ops[..|ops| - 1]), cap, ops[|ops| - 1]).shard
  }

  /** The operations of a run that work on shard `i`. */
  function Local(h: Hash, ops: seq<Op>, i: nat): seq<Op> {
    if ops == [] then []
    else Local(h, ops[..|ops| - 1], i) + if Home(h, ops[|ops| - 1]) == i then [ops[|ops| - 1]] else []
  }

  lemma ShardRunSnoc(s: Shard, cap: nat, ops: seq<Op>, op: Op)
    ensures ShardRun(s, cap, ops + [op]) == Step(ShardRun(s, cap, ops), cap, op).shard
  {
    assert (ops + [op])[..|ops + [op]| - 1] == ops;
  }

  lemma {:induction false} ProjectState(h: Hash, st: Store, ops: seq<Op>, i: nat)
    requires i < NUM_SHARDS
    ensures Run(h, st, ops).cap == st.cap
    ensures Run(h, st, ops).shards[i] == ShardRun(st.shards[i], st.cap, Local(h, ops, i))
  {
    if ops != [] {
      var before, op := ops[..|ops| - 1], ops[|ops| - 1];
      ProjectState(h, st, before, i);
      var local := Local(h, before, i);
      if Home(h, op) == i {
        assert Local(h, ops, i) == local + [op];
        ShardRunSnoc(st.shards[i], st.cap, local, op);
      } else {
        assert Local(h, ops, i) == local;
      }
    }
  }

  /** A run on the store is, shard by shard, a run of the shard's own operations alone. */
  lemma {:induction false} ShardsProject(h: Hash, st: Store, ops: seq<Op>, j: nat)
    requires j < |ops|
    ensures var i := Home(h, ops[j]);
      AnswerAt(h, st, ops, j)
      == Step(ShardRun(st.shards[i], st.cap, Local(h, ops[..j], i)), st.cap, ops[j]).answer
    ensures forall i :: 0 <= i < NUM_SHARDS ==>
      Run(h, st, ops).shards[i] == ShardRun(st.shards[i], st.cap, Local(h, ops, i))
  {
    ProjectState(h, st, ops[..j], Home(h, ops[j]));
    forall i | 0 <= i < NUM_SHARDS
      ensures Run(h, st, ops).shards[i] == ShardRun(st.shards[i], st.cap, Local(h, ops, i))
    {
      ProjectState(h, st, ops, i);
    }
  }

  lemma ShardsCommute(h: Hash, st: Store, a: Op, b: Op)
    requires Home(h, a) != Home(h, b)
    ensures Apply(h, Apply(h, st, a), b) == Apply(h, Apply(h, st, b), a)
    ensures At(h, Apply(h, st, a), b).answer == At(h, st, b).answer
    ensures At(h, Apply(h, st, b), a).answer == At(h, st, a).answer
  {
    var i, j := Home(h, a), Home(h, b);
    var s, t := At(h, st, a).shard, At(h, st, b).shard;
    assert st.shards[i := s][j := t] == st.shards[j := t][i := s];
  }
}
