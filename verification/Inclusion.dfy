/** LRU inclusion: the same run on a smaller and on a larger store keeps every
    list of the smaller one inside the matching list of the larger one. */
module Inclusion {
  import opened Basics
  import opened Shards
  import opened Stores

  /** `s` is `big` with some keys left out, and the size gap fits the capacity gap. */
  ghost predicate Within(s: Shard, big: Shard, cap: nat, bigCap: nat) {
    && Thinned(s, big)
    && (forall k :: k in s.data ==> s.data[k] == big.data[k])
    && |big.order| - |s.order| <= bigCap - cap
  }

  ghost predicate Thinned(s: Shard, big: Shard) {
    && s.data.Keys <= big.data.Keys
    && s.order == Remove(big.order, big.data.Keys - s.data.Keys)
  }

  /** Two rearrangements of thinned lists, abstracting from the operation. */
  lemma ThinnedRearranged(s: Shard, big: Shard, r: Shard, bigR: Shard,
                          front: seq<string>, lost: set<string>, bigFront: seq<string>, bigLost: set<string>)
    requires Thinned(s, big) && (forall k :: k in big.order <==> k in big.data)
    requires Rearranged(s, r, front, lost) && Rearranged(big, bigR, bigFront, bigLost)
    requires |bigFront| <= 1 && Elems(bigFront) <= bigLost
    requires front == bigFront || (front == [] && Elems(bigFront) !! r.data.Keys)
    requires bigLost * s.data.Keys <= lost
    ensures Thinned(r, bigR)
  {
    var gap, gap' := big.data.Keys - s.data.Keys, bigR.data.Keys - r.data.Keys;
    RemoveTwice(big.order, gap, lost);
    RemoveAppend(bigFront, Remove(big.order, bigLost), gap');
    RemoveTwice(big.order, bigLost, gap');
    RemoveSame(big.order, gap + lost, bigLost + gap');
    assert Remove(bigFront, gap') == front;
  }

  /** If the larger shard evicts a key the smaller one holds, the smaller one evicts it too. */
  lemma VictimsAgree(s: Shard, big: Shard, cap: nat, bigCap: nat, x: string)
    requires Within(s, big, cap, bigCap) && x in Victim(big, bigCap) && x in s.data
    ensures x in Victim(s, cap)
  {
    RemoveKeepsLast(big.order, big.data.Keys - s.data.Keys);
  }

  lemma LostAgree(s: Shard, big: Shard, cap: nat, bigCap: nat, op: Op)
    requires Within(s, big, cap, bigCap)
    ensures Lost(big, bigCap, op) * s.data.Keys <= Lost(s, cap, op)
  {
    forall x | x in Lost(big, bigCap, op) && x in s.data
      ensures x in Lost(s, cap, op)
    {
      LostMeans(big, bigCap, op, x);
      if x in Victim(big, bigCap) {
        VictimsAgree(s, big, cap, bigCap, x);
      }
    }
  }

  lemma TouchedAgree(s: Shard, big: Shard, cap: nat, op: Op)
    requires s.data.Keys <= big.data.Keys && forall k :: k in s.data ==> s.data[k] == big.data[k]
    ensures || Touched(s, op) == Touched(big, op)
            || (Touched(s, op) == [] && Elems(Touched(big, op)) !! Step(s, cap, op).shard.data.Keys)
  {
  }

  lemma EntriesAgree(s: Shard, big: Shard, cap: nat, bigCap: nat, op: Op, k: string)
    requires s.data.Keys <= big.data.Keys && forall k :: k in s.data ==> s.data[k] == big.data[k]
    requires var r, bigR := Step(s, cap, op).shard, Step(big, bigCap, op).shard;
      k in r.data && k in bigR.data
    ensures Step(s, cap, op).shard.data[k] == Step(big, bigCap, op).shard.data[k]
  {
    if op.Sweep? || k != op.key {
      StepElsewhere(s, cap, op, k);
      StepElsewhere(big, bigCap, op, k);
    }
  }

  /** The answer of the smaller store is that of the larger one, or a miss. */
  lemma AnswersAgree(s: Shard, big: Shard, cap: nat, bigCap: nat, op: Op)
    requires s.data.Keys <= big.data.Keys && forall k :: k in s.data ==> s.data[k] == big.data[k]
    ensures Step(s, cap, op).answer in {Step(big, bigCap, op).answer, Absent(op)}
  {
  }

  lemma GapAgrees(s: Shard, big: Shard, cap: nat, bigCap: nat, op: Op)
    requires 1 <= cap <= bigCap
    requires Valid(s, cap) && Valid(big, bigCap) && Within(s, big, cap, bigCap)
    ensures |Step(big, bigCap, op).shard.order| - |Step(s, cap, op).shard.order| <= bigCap - cap
  {
    StepAccounted(s, cap, op);
    StepAccounted(big, bigCap, op);
    if op.Sweep? {
      SubsetSize(Swept(s, op.now, op.visited), Swept(big, op.now, op.visited));
    }
  }

  lemma WithinStep(s: Shard, big: Shard, cap: nat, bigCap: nat, op: Op)
    requires 1 <= cap <= bigCap
    requires Valid(s, cap) && Valid(big, bigCap) && Within(s, big, cap, bigCap)
    ensures Within(Step(s, cap, op).shard, Step(big, bigCap, op).shard, cap, bigCap)
  {
    var r, bigR := Step(s, cap, op).shard, Step(big, bigCap, op).shard;
    StepRearranges(s, cap, op);
    StepRearranges(big, bigCap, op);
    LostAgree(s, big, cap, bigCap, op);
    TouchedAgree(s, big, cap, op);
    ThinnedRearranged(s, big, r, bigR, Touched(s, op), Lost(s, cap, op), Touched(big, op), Lost(big, bigCap, op));
    forall k | k in r.data
      ensures r.data[k] == bigR.data[k]
    {
      EntriesAgree(s, big, cap, bigCap, op, k);
    }
    GapAgrees(s, big, cap, bigCap, op);
  }

  ghost predicate StoresWithin(st: Store, big: Store) {
    forall i :: 0 <= i < NUM_SHARDS ==> Within(st.shards[i], big.shards[i], st.cap, big.cap)
  }

  lemma StoresWithinStep(h: Hash, st: Store, big: Store, op: Op)
    requires StoreValid(h, st) && StoreValid(h, big) && StoresWithin(st, big)
    requires st.cap <= big.cap
    ensures StoresWithin(Apply(h, st, op), Apply(h, big, op))
  {
    var j := Home(h, op);
    assert ShardValid(h, st, j) && ShardValid(h, big, j);
    WithinStep(st.shards[j], big.shards[j], st.cap, big.cap, op);
  }

  lemma {:induction false} RunsWithin(h: Hash, m: nat, bigM: nat, ops: seq<Op>)
    requires m <= bigM
    ensures StoresWithin(Run(h, Fresh(m), ops), Run(h, Fresh(bigM), ops))
  {
    if ops == [] {
    } else {
      var before := ops[..|ops| - 1];
      RunsWithin(h, m, bigM, before);
      FreshValid(h, m);
      RunValid(h, Fresh(m), before);
      RunValid(h, Fresh(bigM), before);
      StoresWithinStep(h, Run(h, Fresh(m), before), Run(h, Fresh(bigM), before), ops[|ops| - 1]);
    }
  }

  /** Two stores of maximum sizes `m <= bigM`, fed the same operations at the same clock readings,
      sweeps included as long as they visit the same keys: each list of the smaller is a subsequence
      of the larger one's, with equal entries and a size gap of at most the capacity gap, and every
      answer the smaller store gives is a miss or the answer of the larger one. */
  lemma {:induction false} LruInclusion(h: Hash, m: nat, bigM: nat, ops: seq<Op>)
    requires m <= bigM
    ensures var st, big := Run(h, Fresh(m), ops), Run(h, Fresh(bigM), ops);
      forall i :: 0 <= i < NUM_SHARDS ==>
        var s, b := st.shards[i], big.shards[i];
        && Subsequence(s.order, b.order)
        && (forall k :: k in s.data ==> k in b.data && s.data[k] == b.data[k])
        && |b.order| - |s.order| <= PerShard(bigM) - PerShard(m)
    ensures forall j :: 0 <= j < |ops| ==>
      AnswerAt(h, Fresh(m), ops, j) in {AnswerAt(h, Fresh(bigM), ops, j), Absent(ops[j])}
  {
    var st, big := Run(h, Fresh(m), ops), Run(h, Fresh(bigM), ops);
    RunsWithin(h, m, bigM, ops);
    RunValid(h, Fresh(m), ops);
    RunValid(h, Fresh(bigM), ops);
    forall i | 0 <= i < NUM_SHARDS
      ensures Subsequence(st.shards[i].order, big.shards[i].order)
    {
      RemoveIsSubsequence(big.shards[i].order, big.shards[i].data.Keys - st.shards[i].data.Keys);
    }
    forall j | 0 <= j < |ops|
      ensures AnswerAt(h, Fresh(m), ops, j) in {AnswerAt(h, Fresh(bigM), ops, j), Absent(ops[j])}
    {
      RunsWithin(h, m, bigM, ops[..j]);
      var s, b := Run(h, Fresh(m), ops[..j]), Run(h, Fresh(bigM), ops[..j]);
      AnswersAgree(s.shards[Home(h, ops[j])], b.shards[Home(h, ops[j])], s.cap, b.cap, ops[j]);
    }
  }
}
