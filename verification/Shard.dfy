/** One shard of the store as a value: the recency list (front = most recently
    used) and the entries, and what each operation does to them.

    Clock readings are part of the operation. `Expire` and `Ttl` read the clock
    twice, `Set` not at all. Time is in nanoseconds. */
module Shards {
  import opened Basics

  const NANOS := 1_000_000_000

  datatype Entry = Entry(value: string, deadline: Option<int>)

  datatype Shard = Shard(order: seq<string>, data: map<string, Entry>)

  const EMPTY_SHARD := Shard([], map[])

  datatype Op =
    | Set(key: string, value: string)
    | SetTtl(key: string, value: string, secs: int, now: int)
    | Get(key: string, now: int)
    | Del(key: string, now: int)
    | Expire(key: string, secs: int, now: int, later: int)
    | Ttl(key: string, now: int, later: int)
    | Sweep(shard: nat, now: int, visited: set<string>)

  datatype Answer = Done | Found(result: Option<string>) | Flag(yes: bool) | Number(n: int)

  /** New shard, answer, and by how much the two global counters rise. */
  datatype Outcome = Outcome(shard: Shard, answer: Answer, evicted: nat, expired: nat)

  predicate Expired(e: Entry, now: int) {
    e.deadline.Some? && now >= e.deadline.value
  }

  /** Conversion of nanoseconds to whole seconds, rounding toward zero. */
  function WholeSeconds(d: int): int {
    if d >= 0 then d / NANOS else -(-d / NANOS)
  }

  function Remaining(deadline: int, later: int): int {
    var r := WholeSeconds(deadline - later);
    if r > 0 then r else 0
  }

  function Discard(s: Shard, gone: set<string>): Shard {
    Shard(Remove(s.order, gone), s.data - gone)
  }

  function ToFront(s: Shard, k: string, e: Entry): Shard {
    Shard([k] + Remove(s.order, {k}), s.data[k := e])
  }

  function Redate(s: Shard, k: string, deadline: int): Shard
    requires k in s.data
  {
    s.(data := s.data[k := s.data[k].(deadline := Some(deadline))])
  }

  /** The key eviction removes, if the shard is full. */
  function Victim(s: Shard, cap: nat): set<string> {
    if s.order != [] && |s.order| >= cap then {s.order[|s.order| - 1]} else {}
  }

  function Put(s: Shard, cap: nat, k: string, e: Entry): Outcome {
    if k in s.data then Outcome(ToFront(s, k, e), Done, 0, 0)
    else
      var victim := Victim(s, cap);
      Outcome(ToFront(Discard(s, victim), k, e), Done, |victim|, 0)
  }

  /** The answer of an operation that does not find its key. */
  function Absent(op: Op): Answer {
    match op
    case Get(_, _) => Found(None)
    case Del(_, _) => Flag(false)
    case Expire(_, _, _, _) => Flag(false)
    case Ttl(_, _, _) => Number(-2)
    case _ => Done
  }

  /** An operation that found its key live. */
  function Hit(s: Shard, op: Op): Outcome
    requires op.Get? || op.Del? || op.Expire? || op.Ttl?
    requires op.key in s.data
  {
    var e := s.data[op.key];
    match op
    case Get(k, _) => Outcome(ToFront(s, k, e), Found(Some(e.value)), 0, 0)
    case Del(k, _) => Outcome(Discard(s, {k}), Flag(true), 0, 0)
    case Expire(k, secs, _, later) =>
      Outcome(Redate(s, k, later + secs * NANOS), Flag(true), 0, 0)
    case Ttl(_, _, later) =>
      Outcome(s, Number(if e.deadline.None? then -1 else Remaining(e.deadline.value, later)), 0, 0)
  }

  function SetEntry(op: Op): Entry
    requires op.Set? || op.SetTtl?
  {
    Entry(op.value, if op.SetTtl? && op.secs >= 0 then Some(op.now + op.secs * NANOS) else None)
  }

  function Swept(s: Shard, now: int, visited: set<string>): set<string> {
    set k | k in visited && k in s.data && Expired(s.data[k], now)
  }

  function Step(s: Shard, cap: nat, op: Op): Outcome {
    if op.Set? || op.SetTtl? then Put(s, cap, op.key, SetEntry(op))
    else if op.Sweep? then
      var gone := Swept(s, op.now, op.visited);
      Outcome(Discard(s, gone), Done, 0, |gone|)
    else if op.Expire? && op.secs < 0 then Outcome(s, Flag(false), 0, 0)
    else if op.key !in s.data then Outcome(s, Absent(op), 0, 0)
    else if Expired(s.data[op.key], op.now) then Outcome(Discard(s, {op.key}), Absent(op), 0, 1)
    else Hit(s, op)
  }

  /** List and entries hold the same keys, none twice, and at most `cap` of them. */
  ghost predicate Valid(s: Shard, cap: nat) {
    && NoDup(s.order)
    && (forall k :: k in s.order <==> k in s.data)
    && |s.order| <= cap
  }

  lemma DiscardValid(s: Shard, cap: nat, gone: set<string>)
    requires Valid(s, cap)
    ensures Valid(Discard(s, gone), cap)
    ensures |Discard(s, gone).order| == |s.order| - |gone * s.data.Keys|
  {
    RemoveNoDup(s.order, gone);
    RemoveSame(s.order, gone, gone * s.data.Keys);
    RemoveLength(s.order, gone * s.data.Keys);
  }

  lemma ToFrontValid(s: Shard, cap: nat, k: string, e: Entry)
    requires Valid(s, cap) && (k in s.data || |s.order| < cap)
    ensures Valid(ToFront(s, k, e), cap)
    ensures |ToFront(s, k, e).order| == |s.order| + if k in s.data then 0 else 1
  {
    RemoveNoDup(s.order, {k});
    if k in s.data {
      RemoveLength(s.order, {k});
    } else {
      RemoveNone(s.order, {k});
    }
  }

  /** Whether `op` creates an entry for a key the shard does not hold. */
  predicate Inserts(s: Shard, op: Op) {
    (op.Set? || op.SetTtl?) && op.key !in s.data
  }

  function Tally(b: bool): nat { if b then 1 else 0 }

  /** The shard stays valid, and every key that came or went is accounted for. */
  ghost predicate Accounted(s: Shard, cap: nat, op: Op, r: Outcome) {
    && Valid(r.shard, cap)
    && r.evicted <= 1
    && |s.order| + Tally(Inserts(s, op))
       == |r.shard.order| + r.evicted + r.expired + Tally(op.Del? && r.answer == Flag(true))
  }

  lemma PutAccounted(s: Shard, cap: nat, op: Op)
    requires cap >= 1 && Valid(s, cap) && (op.Set? || op.SetTtl?)
    ensures Accounted(s, cap, op, Put(s, cap, op.key, SetEntry(op)))
  {
    if op.key in s.data {
      ToFrontValid(s, cap, op.key, SetEntry(op));
    } else {
      var victim := Victim(s, cap);
      DiscardValid(s, cap, victim);
      assert victim * s.data.Keys == victim;
      ToFrontValid(Discard(s, victim), cap, op.key, SetEntry(op));
    }
  }

  lemma LookupAccounted(s: Shard, cap: nat, op: Op)
    requires Valid(s, cap) && (op.Get? || op.Del? || op.Expire? || op.Ttl?) && op.key in s.data
    ensures Accounted(s, cap, op, Outcome(Discard(s, {op.key}), Absent(op), 0, 1))
    ensures Accounted(s, cap, op, Hit(s, op))
  {
    DiscardValid(s, cap, {op.key});
    assert {op.key} * s.data.Keys == {op.key};
    ToFrontValid(s, cap, op.key, s.data[op.key]);
  }

  lemma StepAccounted(s: Shard, cap: nat, op: Op)
    requires cap >= 1 && Valid(s, cap)
    ensures Accounted(s, cap, op, Step(s, cap, op))
  {
    if op.Set? || op.SetTtl? {
      PutAccounted(s, cap, op);
    } else if op.Sweep? {
      var gone := Swept(s, op.now, op.visited);
      DiscardValid(s, cap, gone);
      assert gone * s.data.Keys == gone;
    } else if op.key in s.data {
      LookupAccounted(s, cap, op);
    }
  }

  /** The entry count the source tests is the list length. */
  lemma ValidSize(s: Shard, cap: nat)
    requires Valid(s, cap)
    ensures |s.data| == |s.order|
  {
    assert s.data.Keys == Elems(s.order);
    NoDupSize(s.order);
  }

  // ----- What a step does to the list, in one form for every operation -----

  /** The key, if any, that an operation moves to the front: it is set, or hit by a `Get`. */
  function Touched(s: Shard, op: Op): seq<string> {
    if op.Set? || op.SetTtl? || (op.Get? && op.key in s.data && !Expired(s.data[op.key], op.now))
    then [op.key] else []
  }

  /** Whether `op` finds that the entry of `k` has passed its deadline. */
  predicate FindsExpired(s: Shard, op: Op, k: string) {
    && k in s.data
    && (if op.Sweep? then k in op.visited
        else op.key == k && (op.Get? || op.Del? || op.Ttl? || (op.Expire? && op.secs >= 0)))
    && Expired(s.data[k], op.now)
  }

  /** Whether `op` removes `k` by deletion or expiry. */
  predicate Reaps(s: Shard, op: Op, k: string) {
    k in s.data && ((op.Del? && op.key == k) || FindsExpired(s, op, k))
  }

  /** Whether `op` removes `k` unasked: it finds it expired, or evicts it to make room. */
  predicate Loses(s: Shard, cap: nat, op: Op, k: string) {
    FindsExpired(s, op, k) || (Inserts(s, op) && k in s.data && k in Victim(s, cap))
  }

  /** The keys taken out of the list, the touched key included. */
  function Lost(s: Shard, cap: nat, op: Op): set<string> {
    if op.Set? || op.SetTtl? then {op.key} + if op.key in s.data then {} else Victim(s, cap)
    else if op.Get? && Touched(s, op) != [] then {op.key}
    else set k | k in s.data && Reaps(s, op, k)
  }

  lemma LostMeans(s: Shard, cap: nat, op: Op, x: string)
    requires x in Lost(s, cap, op)
    ensures x in Touched(s, op) || Reaps(s, op, x) || (Inserts(s, op) && x in Victim(s, cap))
  {
  }

  ghost predicate Rearranged(s: Shard, r: Shard, front: seq<string>, lost: set<string>) {
    && r.order == front + Remove(s.order, lost)
    && r.data.Keys == s.data.Keys - lost + Elems(front)
  }

  lemma PutRearranges(s: Shard, cap: nat, k: string, e: Entry)
    ensures Rearranged(s, Put(s, cap, k, e).shard, [k], {k} + if k in s.data then {} else Victim(s, cap))
  {
    if k in s.data {
      assert {k} + {} == {k};
    } else {
      var victim := Victim(s, cap);
      RemoveTwice(s.order, victim, {k});
      assert victim + {k} == {k} + victim;
    }
  }

  lemma ToFrontRearranges(s: Shard, k: string, e: Entry)
    requires k in s.data
    ensures Rearranged(s, ToFront(s, k, e), [k], {k})
  {
  }

  lemma SameRearranged(s: Shard, r: Shard)
    requires r.order == s.order && r.data.Keys == s.data.Keys
    ensures Rearranged(s, r, [], {})
  {
    RemoveNone(s.order, {});
  }

  lemma LookupRearranges(s: Shard, cap: nat, op: Op)
    requires op.Get? || op.Del? || op.Expire? || op.Ttl?
    ensures Rearranged(s, Step(s, cap, op).shard, Touched(s, op), Lost(s, cap, op))
  {
    hide Remove, Rearranged;
    if op.Get? && Touched(s, op) != [] {
      ToFrontRearranges(s, op.key, s.data[op.key]);
    } else if op.key in s.data && Reaps(s, op, op.key) {
      assert Lost(s, cap, op) == {op.key};
      DiscardRearranges(s, {op.key});
    } else {
      assert Lost(s, cap, op) == {};
      SameRearranged(s, Step(s, cap, op).shard);
    }
  }

  lemma DiscardRearranges(s: Shard, gone: set<string>)
    ensures Rearranged(s, Discard(s, gone), [], gone)
  {
    assert [] + Remove(s.order, gone) == Remove(s.order, gone);
  }

  lemma StepRearranges(s: Shard, cap: nat, op: Op)
    ensures Rearranged(s, Step(s, cap, op).shard, Touched(s, op), Lost(s, cap, op))
  {
    if op.Set? || op.SetTtl? {
      PutRearranges(s, cap, op.key, SetEntry(op));
    } else if op.Sweep? {
      assert Swept(s, op.now, op.visited) == Lost(s, cap, op);
      DiscardRearranges(s, Lost(s, cap, op));
    } else {
      LookupRearranges(s, cap, op);
    }
  }

  /** Entries change only at the operation's own key. */
  lemma StepElsewhere(s: Shard, cap: nat, op: Op, k: string)
    requires op.Sweep? || k != op.key
    ensures var r := Step(s, cap, op).shard;
      k in r.data ==> k in s.data && r.data[k] == s.data[k]
  {
  }
}
