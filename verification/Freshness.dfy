/** What a single key can observe in any run, evictions and sweeps included:
    `get` never returns a stale value, and reported times to live are exact to
    the second and only fall. */
module Freshness {
  import opened Basics
  import opened Shards
  import opened Stores
  import opened TimedMap

  predicate Deletes(h: Hash, st: Store, ops: seq<Op>, j: nat, k: string)
    requires j < |ops|
  {
    ops[j].Del? && ops[j].key == k && AnswerAt(h, st, ops, j) == Flag(true)
  }

  /** Operation `i` set `k`, and since then `k` was neither set again nor deleted. */
  ghost predicate LastSet(h: Hash, st: Store, ops: seq<Op>, k: string, i: nat) {
    && i < |ops|
    && Sets(ops[i], k)
    && forall j :: i < j < |ops| ==> !Sets(ops[j], k) && !Deletes(h, st, ops, j, k)
  }

  /** The deadline `k` was last given, by a set or by an `expire` that succeeded. */
  function LastDeadline(h: Hash, st: Store, ops: seq<Op>, k: string): Option<int> {
    if ops == [] then None
    else
      var before, op := ops[..|ops| - 1], ops[|ops| - 1];
      if Sets(op, k) then SetEntry(op).deadline
      else if op.Expire? && op.key == k && At(h, Run(h, st, before), op).answer == Flag(true)
        then Some(op.later + op.secs * NANOS)
      else LastDeadline(h, st, before, k)
  }

  /** The entry of `k` comes from operation `i` of the run. */
  ghost predicate Explains(h: Hash, st: Store, ops: seq<Op>, k: string, e: Entry, i: nat) {
    LastSet(h, st, ops, k, i) && e.value == ops[i].value && e.deadline == LastDeadline(h, st, ops, k)
  }

  lemma LastSetStep(h: Hash, st: Store, ops: seq<Op>, op: Op, k: string, i: nat)
    requires LastSet(h, st, ops, k, i) && !Sets(op, k) && !(op.Del? && op.key == k)
    ensures LastSet(h, st, ops + [op], k, i)
  {
    var all := ops + [op];
    forall j | i < j < |all|
      ensures !Sets(all[j], k) && !Deletes(h, st, all, j, k)
    {
      if j < |ops| {
        assert !Sets(ops[j], k) && !Deletes(h, st, ops, j, k);
        assert all[..j] == ops[..j] && all[j] == ops[j];
      }
    }
  }

  lemma LastDeadlineStep(h: Hash, st: Store, ops: seq<Op>, op: Op, k: string)
    requires !Sets(op, k)
    ensures LastDeadline(h, st, ops + [op], k)
      == if op.Expire? && op.key == k && At(h, Run(h, st, ops), op).answer == Flag(true)
         then Some(op.later + op.secs * NANOS) else LastDeadline(h, st, ops, k)
  {
    assert (ops + [op])[..|ops + [op]| - 1] == ops;
  }

  lemma {:induction false} EntryExplained(h: Hash, maxKeys: nat, ops: seq<Op>, k: string) returns (i: nat)
    requires Lookup(h, Run(h, Fresh(maxKeys), ops), k).Some?
    ensures Explains(h, Fresh(maxKeys), ops, k, Lookup(h, Run(h, Fresh(maxKeys), ops), k).value, i)
  {
    var st, before, op := Fresh(maxKeys), ops[..|ops| - 1], ops[|ops| - 1];
    assert ops == before + [op];
    var mid := Run(h, st, before);
    if Sets(op, k) {
      i := |before|;
      StepEntry(mid.shards[Home(h, op)], st.cap, op, k);
    } else {
      if Home(h, op) == ShardIndex(h, k) {
        StepEntry(mid.shards[Home(h, op)], mid.cap, op, k);
      }
      i := EntryExplained(h, maxKeys, before, k);
      LastSetStep(h, st, before, op, k, i);
      LastDeadlineStep(h, st, before, op, k);
    }
  }

  /** A value returned by `get` is the one most recently set for its key, not deleted since,
      and the key's current deadline lies after the clock reading used. */
  lemma {:induction false} NeverStale(h: Hash, maxKeys: nat, ops: seq<Op>, k: string, now: int, v: string)
    returns (i: nat)
    requires At(h, Run(h, Fresh(maxKeys), ops), Get(k, now)).answer == Found(Some(v))
    ensures LastSet(h, Fresh(maxKeys), ops, k, i) && ops[i].value == v
    ensures var d := LastDeadline(h, Fresh(maxKeys), ops, k); d.Some? ==> now < d.value
  {
    i := EntryExplained(h, maxKeys, ops, k);
  }

  // ----- Time to live -----

  /** No operation of the run sets `k` or gives it a new deadline. */
  ghost predicate LeavesDeadline(ops: seq<Op>, k: string) {
    forall j :: 0 <= j < |ops| ==> !Sets(ops[j], k) && !(ops[j].Expire? && ops[j].key == k)
  }

  /** `k` is absent or has deadline `d`. */
  ghost predicate Due(h: Hash, st: Store, k: string, d: int) {
    Lookup(h, st, k).Some? ==> Lookup(h, st, k).value.deadline == Some(d)
  }

  lemma DueStep(h: Hash, st: Store, op: Op, k: string)
    requires !Sets(op, k) && !(op.Expire? && op.key == k)
    ensures Lookup(h, Apply(h, st, op), k).Some? ==> Lookup(h, Apply(h, st, op), k) == Lookup(h, st, k)
  {
    var i := ShardIndex(h, k);
    if Home(h, op) == i && k in At(h, st, op).shard.data {
      StepEntry(st.shards[i], st.cap, op, k);
    }
  }

  lemma {:induction false} DueRun(h: Hash, st: Store, ops: seq<Op>, k: string, d: int)
    requires LeavesDeadline(ops, k) && Due(h, st, k, d)
    ensures Due(h, Run(h, st, ops), k, d)
    ensures Lookup(h, st, k).None? ==> Lookup(h, Run(h, st, ops), k).None?
  {
    if ops != [] {
      var before := ops[..|ops| - 1];
      DueRun(h, st, before, k, d);
      DueStep(h, Run(h, st, before), ops[|ops| - 1], k);
    }
  }

  function TtlAnswer(h: Hash, st: Store, k: string, now: int, later: int): int {
    var a := At(h, st, Ttl(k, now, later)).answer;
    if a.Number? then a.n else 0
  }

  lemma TtlAnswerMeans(h: Hash, st: Store, k: string, d: int, now: int, later: int)
    requires Due(h, st, k, d)
    ensures At(h, st, Ttl(k, now, later)).answer.Number?
    ensures TtlAnswer(h, st, k, now, later)
      == if Lookup(h, st, k).None? || now >= d then -2 else Remaining(d, later)
    ensures TtlAnswer(h, st, k, now, later) == -2 ==> Lookup(h, Apply(h, st, Ttl(k, now, later)), k).None?
  {
  }

  lemma RemainingExact(d: int, later: int, secs: nat)
    requires d - later <= secs * NANOS
    ensures var r := Remaining(d, later);
      0 <= r <= secs && if later < d then r * NANOS <= d - later < (r + 1) * NANOS else r == 0
  {
  }

  lemma ExpireMakesDue(h: Hash, st: Store, op: Op)
    requires op.Expire? && At(h, st, op).answer == Flag(true)
    ensures op.secs >= 0 && Due(h, Apply(h, st, op), op.key, op.later + op.secs * NANOS)
  {
  }

  ghost predicate HasDel(ops: seq<Op>, k: string) {
    exists j :: 0 <= j < |ops| && ops[j].Del? && ops[j].key == k
  }

  lemma KeptByStep(h: Hash, st: Store, op: Op, k: string, d: int)
    requires Lookup(h, st, k).Some? && Due(h, st, k, d) && At(h, st, op).evicted == 0
    requires !Sets(op, k) && !((op.Expire? || op.Del?) && op.key == k) && (op.Set? || op.now < d)
    ensures Lookup(h, Apply(h, st, op), k) == Lookup(h, st, k)
  {
    if Home(h, op) == ShardIndex(h, k) {
      StepKey(st.shards[ShardIndex(h, k)], st.cap, op, k);
    }
  }

  /** Until its deadline a key that is not deleted and not evicted stays. */
  lemma {:induction false} KeptUntilDue(h: Hash, st: Store, ops: seq<Op>, k: string, d: int, t: int)
    requires LeavesDeadline(ops, k) && !HasDel(ops, k) && Monotone(t, ops) && Clock(t, ops) < d
    requires Lookup(h, st, k).Some? && Due(h, st, k, d) && Run(h, st, ops).evicted == st.evicted
    ensures Lookup(h, Run(h, st, ops), k) == Lookup(h, st, k)
  {
    if ops != [] {
      var before, op := ops[..|ops| - 1], ops[|ops| - 1];
      CountersAtPrefix(h, st, ops, |ops| - 1);
      KeptUntilDue(h, st, before, k, d, t);
      KeptByStep(h, Run(h, st, before), op, k, d);
    }
  }

  lemma ExpireFound(h: Hash, st: Store, op: Op)
    requires op.Expire? && At(h, st, op).answer == Flag(true)
    ensures Lookup(h, Apply(h, st, op), op.key).Some?
  {
  }

  /** After a successful `expire(k, s)`, while `k` is neither set nor given another deadline: `ttl` is -2
      exactly when `k` is gone or the deadline has passed, and if `k` is not deleted and nothing is
      evicted exactly when the deadline has passed; otherwise it is the whole seconds left, at most
      `s`, and 0 when the deadline passes between the two clock readings `ttl` makes. */
  lemma {:induction false} TtlExact(h: Hash, st: Store, op: Op, ops: seq<Op>, now: int, later: int)
    requires op.Expire? && At(h, st, op).answer == Flag(true)
    requires LeavesDeadline(ops, op.key)
    requires Monotone(op.later, ops) && Clock(op.later, ops) <= now <= later
    ensures var d, st' := op.later + op.secs * 1_000_000_000, Run(h, Apply(h, st, op), ops);
      var r := TtlAnswer(h, st', op.key, now, later);
      && (r == -2 <==> Lookup(h, st', op.key).None? || now >= d)
      && (!HasDel(ops, op.key) && st'.evicted == st.evicted ==> (r == -2 <==> now >= d))
      && (r != -2 ==>
            && 0 <= r <= op.secs
            && if later < d then r * 1_000_000_000 <= d - later < (r + 1) * 1_000_000_000 else r == 0)
  {
    ExpireMakesDue(h, st, op);
    ExpireFound(h, st, op);
    var d, mid := op.later + op.secs * NANOS, Apply(h, st, op);
    DueRun(h, mid, ops, op.key, d);
    TtlAnswerMeans(h, Run(h, mid, ops), op.key, d, now, later);
    MonotonePrefix(op.later, ops, 0);
    RemainingExact(d, later, op.secs);
    if !HasDel(ops, op.key) && Run(h, mid, ops).evicted == st.evicted && now < d {
      KeptUntilDue(h, mid, ops, op.key, d, op.later);
    }
  }

  /** Of two `ttl`s with no new deadline between them, the later one is not larger. */
  lemma {:induction false} TtlFalls(h: Hash, st: Store, k: string, d: int, now: int, later: int, ops: seq<Op>,
                                    now': int, later': int)
    requires Due(h, st, k, d) && LeavesDeadline(ops, k) && later <= later'
    ensures var st' := Run(h, Apply(h, st, Ttl(k, now, later)), ops);
      TtlAnswer(h, st', k, now', later') <= TtlAnswer(h, st, k, now, later)
  {
    var mid := Apply(h, st, Ttl(k, now, later));
    DueStep(h, st, Ttl(k, now, later), k);
    DueRun(h, mid, ops, k, d);
    TtlAnswerMeans(h, st, k, d, now, later);
    TtlAnswerMeans(h, Run(h, mid, ops), k, d, now', later');
  }
}
