/** What the recency list means: in every run each shard's list is sorted by the
    time of the last set or hit, so eviction takes the least recently used key,
    and a key touched recently enough is still resident. */
module Recency {
  import opened Basics
  import opened Shards
  import opened Stores

  predicate Touches(h: Hash, st: Store, op: Op, k: string) {
    k in Touched(st.shards[Home(h, op)], op)
  }

  /** One-based index of the last operation that set or hit `k`; 0 if there is none. */
  function Stamp(h: Hash, st: Store, ops: seq<Op>, k: string): (n: nat)
    ensures n <= |ops|
  {
    if ops == [] then 0
    else
      var before := ops[..|ops| - 1];
      if Touches(h, Run(h, st, before), ops[|ops| - 1], k) then |ops| else Stamp(h, st, before, k)
  }

  ghost predicate Descending(order: seq<string>, f: string -> nat) {
    forall p, q :: 0 <= p < q < |order| ==> f(order[p]) > f(order[q])
  }

  ghost predicate SortedByUse(h: Hash, st: Store, ops: seq<Op>, order: seq<string>) {
    Descending(order, k => Stamp(h, st, ops, k))
  }

  /** Taking keys out and putting the newest in front keeps a list sorted. */
  lemma DescendingStep(order: seq<string>, lost: set<string>, front: seq<string>,
                       f: string -> nat, g: string -> nat)
    requires Descending(order, f)
    requires |front| <= 1 && forall k :: k in front ==> k in lost
    requires forall k :: k !in front ==> g(k) == f(k)
    requires forall k, x :: k in front && x in order ==> g(k) > f(x)
    ensures Descending(front + Remove(order, lost), g)
  {
    hide Remove;
    var r := Remove(order, lost);
    var n := |front|;
    forall p: nat, q: nat | p < q < |front + r|
      ensures g((front + r)[p]) > g((front + r)[q])
    {
      assert (front + r)[q] == r[q - n];
      if p >= n {
        var p', q' := RemoveEmbeds(order, lost, p - n, q - n);
        assert (front + r)[p] == r[p - n];
      }
    }
  }

  /** Sortedness survives a step, for the shard the step works on. */
  lemma SortedStep(h: Hash, st: Store, ops: seq<Op>, op: Op)
    requires SortedByUse(h, st, ops, Run(h, st, ops).shards[Home(h, op)].order)
    ensures SortedByUse(h, st, ops + [op], Run(h, st, ops + [op]).shards[Home(h, op)].order)
  {
    hide Step, Remove;
    var before := Run(h, st, ops);
    var s := before.shards[Home(h, op)];
    assert (ops + [op])[..|ops + [op]| - 1] == ops;
    StepRearranges(s, before.cap, op);
    DescendingStep(s.order, Lost(s, before.cap, op), Touched(s, op),
                   k => Stamp(h, st, ops, k), k => Stamp(h, st, ops + [op], k));
  }

  lemma {:induction false} ListSortedByUse(h: Hash, maxKeys: nat, ops: seq<Op>, i: nat)
    requires i < NUM_SHARDS
    ensures SortedByUse(h, Fresh(maxKeys), ops, Run(h, Fresh(maxKeys), ops).shards[i].order)
  {
    if ops != [] {
      var st, before, op := Fresh(maxKeys), ops[..|ops| - 1], ops[|ops| - 1];
      ListSortedByUse(h, maxKeys, before, i);
      assert ops == before + [op];
      if Home(h, op) == i {
        SortedStep(h, st, before, op);
      } else {
        OtherShardStamps(h, maxKeys, before, op, i);
      }
    }
  }

  /** A step on one shard leaves the stamps of another shard's keys alone. */
  lemma OtherShardStamps(h: Hash, maxKeys: nat, ops: seq<Op>, op: Op, i: nat)
    requires i < NUM_SHARDS && i != Home(h, op)
    ensures var st := Fresh(maxKeys);
      forall k :: k in Run(h, st, ops).shards[i].order ==>
        Stamp(h, st, ops + [op], k) == Stamp(h, st, ops, k)
  {
    var st := Fresh(maxKeys);
    RunValid(h, st, ops);
    assert ShardValid(h, Run(h, st, ops), i);
    assert (ops + [op])[..|ops + [op]| - 1] == ops;
  }

  /** When a set evicts, the shard is full and the evicted key is the one of that shard
      set or hit longest ago. */
  lemma {:induction false} EvictsLeastRecentlyUsed(h: Hash, maxKeys: nat, ops: seq<Op>, op: Op) returns (victim: string)
    requires op.Set? || op.SetTtl?
    requires At(h, Run(h, Fresh(maxKeys), ops), op).evicted > 0
    ensures var st := Fresh(maxKeys);
      var s, r := Run(h, st, ops).shards[Home(h, op)], At(h, Run(h, st, ops), op).shard;
      && victim in s.data && op.key !in s.data && |s.order| == st.cap
      && r.data.Keys == s.data.Keys - {victim} + {op.key}
      && forall k :: k in s.data && k != victim ==> Stamp(h, st, ops, victim) < Stamp(h, st, ops, k)
  {
    var st := Fresh(maxKeys);
    var s := Run(h, st, ops).shards[Home(h, op)];
    RunValid(h, st, ops);
    assert ShardValid(h, Run(h, st, ops), Home(h, op));
    ListSortedByUse(h, maxKeys, ops, Home(h, op));
    victim := LastIsVictim(s, st.cap, op, k => Stamp(h, st, ops, k));
  }

  lemma LastIsVictim(s: Shard, cap: nat, op: Op, f: string -> nat) returns (victim: string)
    requires op.Set? || op.SetTtl?
    requires Valid(s, cap) && Descending(s.order, f) && Step(s, cap, op).evicted > 0
    ensures victim in s.data && op.key !in s.data && |s.order| == cap
    ensures Step(s, cap, op).shard.data.Keys == s.data.Keys - {victim} + {op.key}
    ensures forall k :: k in s.data && k != victim ==> f(victim) < f(k)
  {
    victim := s.order[|s.order| - 1];
    assert Victim(s, cap) == {victim};
    PutRearranges(s, cap, op.key, SetEntry(op));
    forall k | k in s.data && k != victim
      ensures f(victim) < f(k)
    {
      LastIsLeast(s.order, f, k);
    }
  }

  lemma LastIsLeast(order: seq<string>, f: string -> nat, k: string)
    requires Descending(order, f) && k in order && k != order[|order| - 1]
    ensures f(order[|order| - 1]) < f(k)
  {
    var p :| 0 <= p < |order| && order[p] == k;
  }

  // ----- Reuse distance -----

  /** The elements of `s` in front of `k`. */
  function Ahead(s: seq<string>, k: string): (r: set<string>)
    ensures forall x :: x in r ==> x in s && x != k
  {
    if s == [] || s[0] == k then {} else {s[0]} + Ahead(s[1..], k)
  }

  lemma {:induction false} AheadRemove(s: seq<string>, gone: set<string>, k: string)
    requires k !in gone
    ensures Ahead(Remove(s, gone), k) == Ahead(s, k) - gone
  {
    if s != [] {
      AheadRemove(s[1..], gone, k);
      assert s[0] !in gone ==> Remove(s, gone)[1..] == Remove(s[1..], gone);
    }
  }

  lemma {:induction false} AheadOfLast(s: seq<string>)
    requires s != [] && NoDup(s)
    ensures |Ahead(s, s[|s| - 1])| == |s| - 1
  {
    if |s| > 1 {
      AheadOfLast(s[1..]);
      assert s[0] !in Ahead(s[1..], s[|s| - 1]);
    }
  }

  lemma {:induction false} AheadSize(s: seq<string>, k: string)
    requires NoDup(s) && k in s
    ensures |Ahead(s, k)| < |s|
  {
    if s[0] != k {
      AheadSize(s[1..], k);
    }
  }

  lemma {:induction false} LastNotAhead(s: seq<string>, k: string)
    requires NoDup(s) && k in s && k != s[|s| - 1]
    ensures s[|s| - 1] !in Ahead(s, k)
  {
    if s[0] != k {
      LastNotAhead(s[1..], k);
    }
  }

  /** The keys other than `k` in the shard of `k` that the run set or hit. */
  function Others(h: Hash, st: Store, ops: seq<Op>, k: string): set<string> {
    if ops == [] then {}
    else
      var before, op := ops[..|ops| - 1], ops[|ops| - 1];
      Others(h, st, before, k)
      + if Home(h, op) != ShardIndex(h, k) then {}
        else Elems(Touched(Run(h, st, before).shards[ShardIndex(h, k)], op)) - {k}
  }

  /** `k` is in the shard, and every key in front of it is in `seen`. */
  ghost predicate Sheltered(s: Shard, k: string, seen: set<string>) {
    k in s.data && Ahead(s.order, k) <= seen
  }

  /** If the last key of a full shard is sheltered by `seen`, then `seen` and a new key make up
      the capacity. */
  lemma LastIsCrowdedOut(s: Shard, cap: nat, k: string, seen: set<string>, x: string)
    requires Valid(s, cap) && Sheltered(s, k, seen) && x !in s.data && k in Victim(s, cap)
    ensures |seen + {x}| >= cap
  {
    AheadOfLast(s.order);
    var ahead := Ahead(s.order, k);
    assert x !in ahead;
    assert |ahead + {x}| == |ahead| + 1;
    SubsetSize(ahead + {x}, seen + {x});
  }

  /** Keys taken out from around `k` and a key put in front change what is ahead of `k`
      in the obvious way. */
  lemma AheadRearranged(s: Shard, r: Shard, front: seq<string>, lost: set<string>, k: string)
    requires Rearranged(s, r, front, lost) && k !in lost && k !in front && |front| <= 1
    ensures Ahead(r.order, k) == Elems(front) + (Ahead(s.order, k) - lost)
  {
    AheadRemove(s.order, lost, k);
    if front == [] {
      assert r.order == Remove(s.order, lost);
    } else {
      assert r.order[1..] == Remove(s.order, lost);
      assert Elems(front) == {r.order[0]};
    }
  }

  lemma ShelterRearranged(s: Shard, r: Shard, front: seq<string>, lost: set<string>, k: string, seen: set<string>)
    requires Rearranged(s, r, front, lost) && |front| <= 1 && Sheltered(s, k, seen)
    requires front == [k] || k !in lost + Elems(front)
    ensures Sheltered(r, k, seen + (Elems(front) - {k}))
  {
    if front == [k] {
      assert r.order[0] == k;
    } else {
      AheadRearranged(s, r, front, lost, k);
    }
  }

  lemma ShelterStep(s: Shard, cap: nat, op: Op, k: string, seen: set<string>)
    requires Valid(s, cap) && Sheltered(s, k, seen)
    requires !Reaps(s, op, k)
    requires |seen + (Elems(Touched(s, op)) - {k})| < cap
    ensures Sheltered(Step(s, cap, op).shard, k, seen + (Elems(Touched(s, op)) - {k}))
  {
    if Inserts(s, op) && k in Victim(s, cap) {
      assert Elems(Touched(s, op)) - {k} == {op.key};
      LastIsCrowdedOut(s, cap, k, seen, op.key);
    }
    if k in Lost(s, cap, op) {
      LostMeans(s, cap, op, k);
    }
    StepRearranges(s, cap, op);
    ShelterRearranged(s, Step(s, cap, op).shard, Touched(s, op), Lost(s, cap, op), k, seen);
  }

  /** No operation of the run deletes `k` or finds it expired. */
  ghost predicate Undisturbed(h: Hash, st: Store, ops: seq<Op>, k: string) {
    forall j :: 0 <= j < |ops| && Home(h, ops[j]) == ShardIndex(h, k) ==>
      !Reaps(Run(h, st, ops[..j]).shards[ShardIndex(h, k)], ops[j], k)
  }

  ghost predicate MostRecent(h: Hash, st: Store, k: string) {
    var order := st.shards[ShardIndex(h, k)].order;
    order != [] && order[0] == k
  }

  lemma UndisturbedPrefix(h: Hash, st: Store, ops: seq<Op>, k: string)
    requires ops != [] && Undisturbed(h, st, ops, k)
    ensures Undisturbed(h, st, ops[..|ops| - 1], k)
  {
    var before := ops[..|ops| - 1];
    forall j | 0 <= j < |before| && Home(h, before[j]) == ShardIndex(h, k)
      ensures !Reaps(Run(h, st, before[..j]).shards[ShardIndex(h, k)], before[j], k)
    {
      assert before[..j] == ops[..j] && before[j] == ops[j];
    }
  }

  lemma {:induction false} StaysSheltered(h: Hash, st: Store, ops: seq<Op>, k: string)
    requires StoreValid(h, st) && MostRecent(h, st, k)
    requires Undisturbed(h, st, ops, k) && |Others(h, st, ops, k)| < st.cap
    ensures Sheltered(Run(h, st, ops).shards[ShardIndex(h, k)], k, Others(h, st, ops, k))
  {
    var i := ShardIndex(h, k);
    if ops == [] {
      assert ShardValid(h, st, i);
    } else {
      var before, op := ops[..|ops| - 1], ops[|ops| - 1];
      UndisturbedPrefix(h, st, ops, k);
      SubsetSize(Others(h, st, before, k), Others(h, st, ops, k));
      StaysSheltered(h, st, before, k);
      RunValid(h, st, before);
      assert ShardValid(h, Run(h, st, before), i);
      if Home(h, op) == i {
        ShelterStep(Run(h, st, before).shards[i], st.cap, op, k, Others(h, st, before, k));
      }
    }
  }

  lemma TouchedIsMostRecent(h: Hash, st: Store, op: Op, k: string)
    requires Touches(h, st, op, k)
    ensures MostRecent(h, Apply(h, st, op), k)
  {
    StepRearranges(st.shards[Home(h, op)], st.cap, op);
  }

  /** A key set or hit, and then neither deleted nor found expired, is resident for as long as
      its shard has room for it and the other keys of the shard that have been set or hit. */
  lemma {:induction false} ReuseDistance(h: Hash, maxKeys: nat, past: seq<Op>, touch: Op, ops: seq<Op>, k: string)
    requires Touches(h, Run(h, Fresh(maxKeys), past), touch, k)
    requires var st := Run(h, Fresh(maxKeys), past + [touch]);
      Undisturbed(h, st, ops, k) && Room(maxKeys, |Others(h, st, ops, k)| + 1)
    ensures Lookup(h, Run(h, Fresh(maxKeys), past + [touch] + ops), k).Some?
  {
    var start, run := Fresh(maxKeys), past + [touch];
    RoomPerShard(maxKeys, |Others(h, Run(h, start, run), ops, k)| + 1);
    assert run[..|run| - 1] == past;
    TouchedIsMostRecent(h, Run(h, start, past), touch, k);
    RunValid(h, start, run);
    StaysSheltered(h, Run(h, start, run), ops, k);
    RunSplit(h, start, run, ops);
  }

  // ----- The bound is exact when nothing but eviction removes keys -----

  /** Only evictions remove keys of the shard of `k`, and `k` itself is not touched again. */
  ghost predicate OnlyEvictions(h: Hash, st: Store, ops: seq<Op>, k: string) {
    forall j :: 0 <= j < |ops| && Home(h, ops[j]) == ShardIndex(h, k) ==>
      var s := Run(h, st, ops[..j]).shards[ShardIndex(h, k)];
      k !in Touched(s, ops[j]) && forall x :: !Reaps(s, ops[j], x)
  }

  /** Of the keys ahead of a surviving `k`, an evicting step moves at most the touched one. */
  lemma AheadKept(s: Shard, cap: nat, op: Op, k: string, x: string)
    requires Valid(s, cap) && k in s.data && k !in Lost(s, cap, op) && !Reaps(s, op, x)
    requires x in Ahead(s.order, k) && x in Lost(s, cap, op)
    ensures x in Touched(s, op)
  {
    LostMeans(s, cap, op, x);
    if x !in Touched(s, op) {
      assert x in Victim(s, cap);
      assert Victim(s, cap) <= Lost(s, cap, op);
      LastNotAhead(s.order, k);
    }
  }

  lemma AheadStep(s: Shard, cap: nat, op: Op, k: string, r: Shard)
    requires Valid(s, cap) && k !in Touched(s, op) && forall x :: !Reaps(s, op, x)
    requires Rearranged(s, r, Touched(s, op), Lost(s, cap, op)) && k in r.data
    ensures k in s.data && Ahead(r.order, k) == Ahead(s.order, k) + Elems(Touched(s, op))
  {
    var front, lost := Touched(s, op), Lost(s, cap, op);
    AheadRearranged(s, r, front, lost, k);
    forall x | x in Ahead(s.order, k) && x in lost
      ensures x in front
    {
      AheadKept(s, cap, op, k, x);
    }
  }

  lemma {:induction false} AheadIsOthers(h: Hash, st: Store, ops: seq<Op>, k: string)
    requires StoreValid(h, st) && MostRecent(h, st, k) && OnlyEvictions(h, st, ops, k)
    ensures var s := Run(h, st, ops).shards[ShardIndex(h, k)];
      k in s.data ==> Ahead(s.order, k) == Others(h, st, ops, k)
  {
    var i := ShardIndex(h, k);
    if ops != [] {
      var before, op := ops[..|ops| - 1], ops[|ops| - 1];
      forall j | 0 <= j < |before|
        ensures before[..j] == ops[..j] && before[j] == ops[j] {}
      AheadIsOthers(h, st, before, k);
      RunValid(h, st, before);
      assert ShardValid(h, Run(h, st, before), i);
      if Home(h, op) == i && k in Run(h, st, ops).shards[i].data {
        var s := Run(h, st, before).shards[i];
        StepRearranges(s, st.cap, op);
        AheadStep(s, st.cap, op, k, Run(h, st, ops).shards[i]);
      }
    }
  }

  /** Then a key is resident exactly while fewer than the capacity of others were used since. */
  lemma {:induction false} ReuseDistanceExact(h: Hash, st: Store, ops: seq<Op>, k: string)
    requires StoreValid(h, st) && MostRecent(h, st, k) && OnlyEvictions(h, st, ops, k)
    ensures Lookup(h, Run(h, st, ops), k).Some? <==> |Others(h, st, ops, k)| < st.cap
  {
    var i := ShardIndex(h, k);
    if |Others(h, st, ops, k)| < st.cap {
      StaysSheltered(h, st, ops, k);
    } else if k in Run(h, st, ops).shards[i].data {
      RunValid(h, st, ops);
      assert ShardValid(h, Run(h, st, ops), i);
      AheadIsOthers(h, st, ops, k);
      AheadSize(Run(h, st, ops).shards[i].order, k);
    }
  }
}
