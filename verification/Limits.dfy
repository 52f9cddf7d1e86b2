/** Where recovery stops: families of runs outside the conditions of the recovery
    theorems, at every capacity. */
module Limits {
  import opened Basics
  import opened Shards
  import opened Stores
  import opened Tokens
  import opened Decimal
  import opened Parser
  import opened Commands
  import opened Sessions
  import opened Replaying
  import opened ExactRecovery
  import opened KeyRecovery
  import opened Interleaving

  /** Different keys of one shard, one more than it has room for. */
  ghost predicate Crowd(h: Hash, maxKeys: nat, ks: seq<string>) {
    && |ks| == PerShard(maxKeys) + 1 && NoDup(ks)
    && forall j :: 0 <= j < |ks| ==> ShardIndex(h, ks[j]) == ShardIndex(h, ks[0]) && Loggable(ks[j])
  }

  function Reversed(ks: seq<string>): (r: seq<string>)
    ensures |r| == |ks| && forall k :: k in r <==> k in ks
  {
    if ks == [] then [] else [ks[|ks| - 1]] + Reversed(ks[..|ks| - 1])
  }

  lemma {:induction false} ReversedAt(ks: seq<string>, n: nat)
    requires n < |ks|
    ensures Reversed(ks)[|ks| - 1 - n] == ks[n]
  {
    var m := |ks| - 1;
    if n < m {
      ReversedAt(ks[..m], n);
    }
  }

  lemma {:induction false} ReversedNoDup(ks: seq<string>)
    requires NoDup(ks)
    ensures NoDup(Reversed(ks))
  {
    if ks != [] {
      ReversedNoDup(ks[..|ks| - 1]);
      LastIsNew(ks);
    }
  }

  // ----- One shard -----

  /** The shard holds these keys in this order, none with a deadline. */
  ghost predicate Holds(s: Shard, order: seq<string>) {
    && s.order == order && s.data.Keys == Elems(order) && NoDup(order)
    && forall k :: k in s.data ==> s.data[k].deadline.None?
  }

  lemma NoDeadlines(s: Shard, cap: nat, op: Op)
    requires op.Set? && forall k :: k in s.data ==> s.data[k].deadline.None?
    ensures forall k :: k in Step(s, cap, op).shard.data ==> Step(s, cap, op).shard.data[k].deadline.None?
  {
    forall k | k in Step(s, cap, op).shard.data && k != op.key
      ensures Step(s, cap, op).shard.data[k].deadline.None?
    {
      StepElsewhere(s, cap, op, k);
    }
  }

  lemma SetMore(s: Shard, cap: nat, order: seq<string>, k: string, v: string)
    requires Holds(s, order) && k !in order && |order| < cap
    ensures var r := Step(s, cap, Set(k, v)); Holds(r.shard, [k] + order) && r.evicted == 0
  {
    PutRearranges(s, cap, k, Entry(v, None));
    RemoveNone(order, {k});
    assert {k} + {} == {k};
    NoDeadlines(s, cap, Set(k, v));
  }

  lemma WithoutLast(order: seq<string>)
    requires order != [] && NoDup(order)
    ensures var n := |order| - 1;
      && NoDup(order[..n]) && order[n] !in order[..n] && Remove(order, {order[n]}) == order[..n]
      && Elems(order[..n]) == Elems(order) - {order[n]}
  {
    var n := |order| - 1;
    RemoveLast(order);
    LastIsNew(order);
    assert forall k :: k in Remove(order, {order[n]}) <==> k in order && k != order[n];
  }

  lemma SetFull(s: Shard, cap: nat, order: seq<string>, k: string, v: string)
    requires Holds(s, order) && k !in order && |order| == cap && cap >= 1
    ensures var r := Step(s, cap, Set(k, v)); Holds(r.shard, [k] + order[..cap - 1]) && r.evicted == 1
  {
    hide Put, Remove;
    var last := order[cap - 1];
    WithoutLast(order);
    PutRearranges(s, cap, k, Entry(v, None));
    PutEvicts(s, cap, k, Entry(v, None));
    RemoveSame(order, {k} + {last}, {last});
    assert Elems([k] + order[..cap - 1]) == Elems(order) - ({k} + {last}) + Elems([k]);
    NoDeadlines(s, cap, Set(k, v));
  }

  lemma PutEvicts(s: Shard, cap: nat, k: string, e: Entry)
    requires k !in s.data && |s.order| >= cap >= 1
    ensures Put(s, cap, k, e).evicted == 1
  {
  }

  lemma GetLast(s: Shard, cap: nat, order: seq<string>, now: int)
    requires Holds(s, order) && order != []
    ensures var n := |order| - 1; Holds(Step(s, cap, Get(order[n], now)).shard, [order[n]] + order[..n])
  {
    hide Remove;
    var n := |order| - 1;
    WithoutLast(order);
    assert order[n] in Elems(order);
    assert Elems([order[n]] + order[..n]) == Elems(order);
  }

  lemma DelFirst(s: Shard, cap: nat, order: seq<string>, now: int)
    requires Holds(s, order) && order != []
    ensures var r := Step(s, cap, Del(order[0], now)); Holds(r.shard, order[1..]) && r.answer == Flag(true)
    ensures Step(s, cap, Del(order[0], now)).evicted == 0
  {
    FrontFirst(order);
    assert order[0] in Elems(order) && order[0] !in order[1..];
    assert Remove(order, {order[0]}) == order[1..];
    assert Elems(order[1..]) == Elems(order) - {order[0]};
  }

  // ----- Filling the shard -----

  /** The records set these keys, in this order. */
  ghost predicate SetsAll(xs: seq<Stamped>, ks: seq<string>, v: string) {
    |xs| == |ks| && forall j :: 0 <= j < |xs| ==> xs[j].record == SetRecord(ks[j], v)
  }

  /** The crowd's shard holds these keys in this order and nothing has been evicted. */
  ghost predicate Filled(h: Hash, st: Store, maxKeys: nat, k: string, order: seq<string>) {
    st.cap == PerShard(maxKeys) && Clean(st) && Holds(st.shards[ShardIndex(h, k)], order)
  }

  lemma FillOne(h: Hash, st: Store, maxKeys: nat, ks: seq<string>, n: nat, v: string)
    requires Crowd(h, maxKeys, ks) && n < PerShard(maxKeys) && Filled(h, st, maxKeys, ks[0], Reversed(ks[..n]))
    ensures Filled(h, Apply(h, st, Set(ks[n], v)), maxKeys, ks[0], Reversed(ks[..n + 1]))
  {
    assert ks[..n + 1][..n] == ks[..n] && ks[n] !in ks[..n];
    SetMore(st.shards[ShardIndex(h, ks[0])], st.cap, Reversed(ks[..n]), ks[n], v);
  }

  /** Setting all but one key of the crowd fills its shard. */
  lemma {:induction false} FillShard(h: Hash, maxKeys: nat, ks: seq<string>, n: nat, xs: seq<Stamped>, v: string)
    requires Crowd(h, maxKeys, ks) && n <= PerShard(maxKeys) && SetsAll(xs, ks[..n], v)
    ensures Filled(h, Run(h, Fresh(maxKeys), Ops(xs)), maxKeys, ks[0], Reversed(ks[..n]))
  {
    if n == 0 {
      assert Ops(xs) == [] && ks[..n] == [];
    } else {
      hide Filled, Crowd, Run;
      var m := n - 1;
      Rejoin(xs);
      FillShard(h, maxKeys, ks, m, xs[..m], v);
      OpsSnoc(h, Fresh(maxKeys), xs[..m], xs[m]);
      FillOne(h, Run(h, Fresh(maxKeys), Ops(xs[..m])), maxKeys, ks, m, v);
    }
  }

  /** One more key pushes out the first. */
  lemma Overfill(h: Hash, maxKeys: nat, ks: seq<string>, xs: seq<Stamped>, v: string)
    requires Crowd(h, maxKeys, ks) && SetsAll(xs, ks, v)
    ensures var st, n := Run(h, Fresh(maxKeys), Ops(xs)), PerShard(maxKeys);
      && Holds(st.shards[ShardIndex(h, ks[0])], [ks[n]] + Reversed(ks[..n])[..n - 1])
      && st.evicted == 1 && st.cap == n
      && Lookup(h, st, ks[0]).None? && (n >= 2 ==> Lookup(h, st, ks[1]).Some?)
  {
    var n, i := PerShard(maxKeys), ShardIndex(h, ks[0]);
    var full, order := Run(h, Fresh(maxKeys), Ops(xs[..n])), Reversed(ks[..n]);
    Rejoin(xs);
    FillShard(h, maxKeys, ks, n, xs[..n], v);
    OpsSnoc(h, Fresh(maxKeys), xs[..n], xs[n]);
    assert ks[n] !in ks[..n];
    SetFull(full.shards[i], n, order, ks[n], v);
    LastTwo(ks, n);
  }

  /** In a full shard the first key set is last in the list, and the second before it. */
  lemma LastTwo(ks: seq<string>, n: nat)
    requires NoDup(ks) && 1 <= n < |ks|
    ensures var order := Reversed(ks[..n]);
      && NoDup(order) && order[n - 1] == ks[0] && ks[0] !in [ks[n]] + order[..n - 1]
      && (n >= 2 ==> order[n - 2] == ks[1] && ks[1] in [ks[n]] + order[..n - 1])
      && (n >= 2 ==> ks[1] !in [ks[n], ks[0]] + order[..n - 2] && order[0] == ks[n - 1])
  {
    var order := Reversed(ks[..n]);
    ReversedNoDup(ks[..n]);
    ReversedAt(ks[..n], 0);
    if n >= 2 {
      ReversedAt(ks[..n], 1);
      assert order[..n - 1][n - 2] == ks[1];
    }
  }

  // ----- A read that hits -----

  function SetCommand(k: string, v: string): Command { Command(SET, [k, v]) }

  function SetEvents(ks: seq<string>, v: string, t: Tick): seq<Event> {
    seq(|ks|, j requires 0 <= j < |ks| => Ask(SetCommand(ks[j], v), t))
  }

  function SetLog(ks: seq<string>, v: string, t: Tick): seq<Stamped> {
    seq(|ks|, j requires 0 <= j < |ks| => Stamped(SetRecord(ks[j], v), t))
  }

  lemma ServeSet(h: Hash, s: Session, k: string, v: string, t: Tick)
    ensures var s' := Serve(h, s, Ask(SetCommand(k, v), t));
      s'.store == Apply(h, s.store, Set(k, v)) && s'.log == s.log + [Stamped(SetRecord(k, v), t)]
  {
  }

  lemma NoSets(h: Hash, maxKeys: nat, v: string, t: Tick)
    ensures SetEvents([], v, t) == [] && SetLog([], v, t) == []
    ensures Run(h, Fresh(maxKeys), Ops(SetLog([], v, t))) == Fresh(maxKeys)
  {
    assert Ops(SetLog([], v, t)) == [];
  }

  lemma {:induction false} ServeSets(h: Hash, maxKeys: nat, ks: seq<string>, v: string, t: Tick)
    ensures var s, xs := ServeAll(h, maxKeys, SetEvents(ks, v, t)), SetLog(ks, v, t);
      s.log == xs && s.store == Run(h, Fresh(maxKeys), Ops(xs))
  {
    hide Run, Apply, Serve, Ops;
    if ks == [] {
      NoSets(h, maxKeys, v, t);
    } else {
      var n := |ks| - 1;
      var before, xs := ServeAll(h, maxKeys, SetEvents(ks[..n], v, t)), SetLog(ks[..n], v, t);
      ServeSets(h, maxKeys, ks[..n], v, t);
      assert SetEvents(ks, v, t) == SetEvents(ks[..n], v, t) + [Ask(SetCommand(ks[n], v), t)];
      assert SetLog(ks, v, t) == xs + [Stamped(SetRecord(ks[n], v), t)];
      ServeSnoc(h, maxKeys, SetEvents(ks[..n], v, t), Ask(SetCommand(ks[n], v), t));
      ServeSet(h, before, ks[n], v, t);
      OpsSnoc(h, Fresh(maxKeys), xs, Stamped(SetRecord(ks[n], v), t));
    }
  }

  /** Fill the shard, read the key set first, set one more key. */
  function ReadBetween(ks: seq<string>, v: string, t: Tick): seq<Event>
    requires ks != []
  {
    var n := |ks| - 1;
    SetEvents(ks[..n], v, t) + [Ask(Command(GET, [ks[0]]), t)] + [Ask(SetCommand(ks[n], v), t)]
  }

  lemma ReadBetweenServes(h: Hash, maxKeys: nat, ks: seq<string>, v: string, t: Tick)
    requires ks != []
    ensures var s, n := ServeAll(h, maxKeys, ReadBetween(ks, v, t)), |ks| - 1;
      var full := Run(h, Fresh(maxKeys), Ops(SetLog(ks[..n], v, t)));
      && s.store == Apply(h, Apply(h, full, Get(ks[0], t.first)), Set(ks[n], v))
      && s.log == SetLog(ks, v, t)
  {
    hide Run, Apply, At;
    var n := |ks| - 1;
    var sets, get := SetEvents(ks[..n], v, t), Ask(Command(GET, [ks[0]]), t);
    ServeSets(h, maxKeys, ks[..n], v, t);
    ServeSnoc(h, maxKeys, sets, get);
    ServeSnoc(h, maxKeys, sets + [get], Ask(SetCommand(ks[n], v), t));
    assert SetLog(ks, v, t) == SetLog(ks[..n], v, t) + [Stamped(SetRecord(ks[n], v), t)];
  }

  /** A full shard after the read and the set: the key read stays, the one before it goes. */
  lemma ReadThenSet(s: Shard, ks: seq<string>, n: nat, v: string, now: int)
    requires NoDup(ks) && 2 <= n < |ks| && Holds(s, Reversed(ks[..n]))
    ensures var r := Step(Step(s, n, Get(ks[0], now)).shard, n, Set(ks[n], v)).shard;
      Holds(r, [ks[n], ks[0]] + Reversed(ks[..n])[..n - 2])
  {
    hide Step, Reversed;
    var order := Reversed(ks[..n]);
    LastTwo(ks, n);
    GetLast(s, n, order, now);
    var moved := [ks[0]] + order[..n - 1];
    assert ks[n] !in ks[..n] && ks[n] !in moved;
    SetFull(Step(s, n, Get(ks[0], now)).shard, n, moved, ks[n], v);
    assert [ks[n]] + moved[..n - 1] == [ks[n], ks[0]] + order[..n - 2];
  }

  lemma ReadBetweenKeeps(h: Hash, maxKeys: nat, ks: seq<string>, v: string, t: Tick)
    requires Crowd(h, maxKeys, ks) && |ks| >= 3
    ensures var n := |ks| - 1;
      var full := Run(h, Fresh(maxKeys), Ops(SetLog(ks[..n], v, t)));
      var st := Apply(h, Apply(h, full, Get(ks[0], t.first)), Set(ks[n], v));
      Lookup(h, st, ks[0]).Some? && Lookup(h, st, ks[1]).None?
  {
    hide Run, Step, Lookup, Reversed, Holds;
    var n, i := |ks| - 1, ShardIndex(h, ks[0]);
    var full := Run(h, Fresh(maxKeys), Ops(SetLog(ks[..n], v, t)));
    var st := Apply(h, Apply(h, full, Get(ks[0], t.first)), Set(ks[n], v));
    FillShard(h, maxKeys, ks, n, SetLog(ks[..n], v, t), v);
    ReadThenSet(full.shards[i], ks, n, v, t.first);
    LastTwo(ks, n);
    LookupHeld(h, st, [ks[n], ks[0]] + Reversed(ks[..n])[..n - 2], ks[0]);
    LookupHeld(h, st, [ks[n], ks[0]] + Reversed(ks[..n])[..n - 2], ks[1]);
  }

  lemma LookupHeld(h: Hash, st: Store, order: seq<string>, k: string)
    requires Holds(st.shards[ShardIndex(h, k)], order)
    ensures Lookup(h, st, k).Some? <==> k in order
  {
    assert k in Elems(order) <==> k in order;
  }

  lemma CrowdReplayable(h: Hash, maxKeys: nat, ks: seq<string>, v: string, t: Tick)
    requires Crowd(h, maxKeys, ks) && Loggable(v)
    ensures AllReplayable(SetLog(ks, v, t))
  {
  }

  /** A `get` that hits is not logged, so it can make the replayed store evict another key than the
      run did. At every capacity of two or more a shard, with keys enough to fill one: the run keeps
      the key it read and loses the next, the replay the other way round. */
  lemma {:induction false} ReadBreaksRecovery(h: Hash, maxKeys: nat, ks: seq<string>, v: string, t: Tick,
    ticks: seq<Tick>)
    requires Crowd(h, maxKeys, ks) && Loggable(v) && |ks| >= 3 && |ticks| == |ks|
    ensures var s := ServeAll(h, maxKeys, ReadBetween(ks, v, t));
      && |s.log| == |ks|
      && var rec := Replay(h, Fresh(maxKeys), PrintAll(s.log), ticks);
      && Lookup(h, s.store, ks[0]).Some? && Lookup(h, s.store, ks[1]).None?
      && Lookup(h, rec.store, ks[0]).None? && Lookup(h, rec.store, ks[1]).Some?
  {
    hide Apply, Run, Replay, ServeAll, Lookup, Crowd;
    var log := SetLog(ks, v, t);
    ReadBetweenServes(h, maxKeys, ks, v, t);
    ReadBetweenKeeps(h, maxKeys, ks, v, t);
    CrowdReplayable(h, maxKeys, ks, v, t);
    ReplayIsRun(h, Fresh(maxKeys), log, ticks);
    CrowdSize(h, maxKeys, ks);
    Overfill(h, maxKeys, ks, Restamp(log, ticks), v);
  }

  lemma CrowdSize(h: Hash, maxKeys: nat, ks: seq<string>)
    requires Crowd(h, maxKeys, ks)
    ensures |ks| == PerShard(maxKeys) + 1 && NoDup(ks)
  {
  }

  /** With room for one key a shard no read ever moves a key. */
  lemma {:induction false} OneKeyNeverReorders(h: Hash, maxKeys: nat, events: seq<Event>)
    requires PerShard(maxKeys) == 1
    ensures NeverReorders(h, maxKeys, events)
  {
    if events != [] {
      var before, e := events[..|events| - 1], events[|events| - 1];
      OneKeyNeverReorders(h, maxKeys, before);
      SessionValid(h, maxKeys, before);
      var st, op := ServeAll(h, maxKeys, before).store, EventOp(e);
      if op.Some? && op.value.Get? {
        assert ShardValid(h, st, Home(h, op.value));
      }
    }
  }

  // ----- The log order alone can make replay evict -----

  /** One worker sets the keys one after the other, each enqueued before the next. */
  function FillActions(ks: seq<string>, v: string, t: Tick): seq<Action> {
    if ks == [] then []
    else
      var n := |ks| - 1;
      FillActions(ks[..n], v, t) + [Execute(0, SetCommand(ks[n], v), t)] + [Enqueue(0)]
  }

  /** With the shard full, one worker deletes the key set last and another then sets one more, but the
      set is enqueued first. No two windows are on the same key. */
  function Crossing(ks: seq<string>, v: string, t: Tick): seq<Action>
    requires |ks| >= 2
  {
    var n := |ks| - 1;
    FillActions(ks[..n], v, t)
    + [Execute(0, Command(DEL, [ks[n - 1]]), t)] + [Execute(1, SetCommand(ks[n], v), t)] + [Enqueue(1)] + [Enqueue(0)]
  }

  /** No windows overlap and none is open; the log is `xs`. */
  ghost predicate Quiet(h: Hash, maxKeys: nat, actions: seq<Action>, xs: seq<Stamped>) {
    var s := RunAll(h, maxKeys, actions);
    s.pending == map[] && s.log == xs && forall k :: NoOverlap(h, maxKeys, actions, k)
  }

  /** One worker sets a key and enqueues before anything else happens. */
  lemma SetAlone(h: Hash, maxKeys: nat, past: seq<Action>, xs: seq<Stamped>, k: string, v: string, t: Tick)
    requires Quiet(h, maxKeys, past, xs)
    ensures var actions := past + [Execute(0, SetCommand(k, v), t)] + [Enqueue(0)];
      && Quiet(h, maxKeys, actions, xs + [Stamped(SetRecord(k, v), t)])
      && RunAll(h, maxKeys, actions).store == Apply(h, RunAll(h, maxKeys, past).store, Set(k, v))
  {
    hide Apply, At;
    var x := Execute(0, SetCommand(k, v), t);
    RunAllSnoc(h, maxKeys, past, x);
    RunAllSnoc(h, maxKeys, past + [x], Enqueue(0));
    forall k'
      ensures NoOverlap(h, maxKeys, past + [x] + [Enqueue(0)], k')
    {
      NoOverlapSnoc(h, maxKeys, past, x, k');
      NoOverlapSnoc(h, maxKeys, past + [x], Enqueue(0), k');
    }
    assert map[0 := Stamped(SetRecord(k, v), t)] - {0} == map[];
  }

  lemma NoActions(h: Hash, maxKeys: nat)
    ensures Quiet(h, maxKeys, [], [])
  {
  }

  lemma {:induction false} FillRuns(h: Hash, maxKeys: nat, ks: seq<string>, v: string, t: Tick)
    ensures var actions, xs := FillActions(ks, v, t), SetLog(ks, v, t);
      && Quiet(h, maxKeys, actions, xs)
      && RunAll(h, maxKeys, actions).store == Run(h, Fresh(maxKeys), Ops(xs))
  {
    hide Run, Apply, Next, NoOverlap, Ops;
    if ks == [] {
      NoSets(h, maxKeys, v, t);
      NoActions(h, maxKeys);
    } else {
      var n := |ks| - 1;
      var xs, x := SetLog(ks[..n], v, t), Stamped(SetRecord(ks[n], v), t);
      FillRuns(h, maxKeys, ks[..n], v, t);
      SetAlone(h, maxKeys, FillActions(ks[..n], v, t), xs, ks[n], v, t);
      OpsSnoc(h, Fresh(maxKeys), xs, x);
      assert SetLog(ks, v, t) == xs + [x];
    }
  }

  lemma CrossingEnds(h: Hash, maxKeys: nat, past: seq<Action>, xs: seq<Stamped>, k: string, c: string, v: string,
                     t: Tick)
    requires Quiet(h, maxKeys, past, xs) && k != c
    requires At(h, RunAll(h, maxKeys, past).store, Del(k, t.first)).answer == Flag(true)
    ensures var actions := past + [Execute(0, Command(DEL, [k]), t)] + [Execute(1, SetCommand(c, v), t)]
                           + [Enqueue(1)] + [Enqueue(0)];
      && Quiet(h, maxKeys, actions, xs + [Stamped(SetRecord(c, v), t)] + [Stamped(DelRecord(k), t)])
      && RunAll(h, maxKeys, actions).store
         == Apply(h, Apply(h, RunAll(h, maxKeys, past).store, Del(k, t.first)), Set(c, v))
  {
    hide Apply, At;
    var x, y := Execute(0, Command(DEL, [k]), t), Execute(1, SetCommand(c, v), t);
    RunAllSnoc(h, maxKeys, past, x);
    RunAllSnoc(h, maxKeys, past + [x], y);
    RunAllSnoc(h, maxKeys, past + [x] + [y], Enqueue(1));
    RunAllSnoc(h, maxKeys, past + [x] + [y] + [Enqueue(1)], Enqueue(0));
    forall k'
      ensures NoOverlap(h, maxKeys, past + [x] + [y] + [Enqueue(1)] + [Enqueue(0)], k')
    {
      NoOverlapSnoc(h, maxKeys, past, x, k');
      NoOverlapSnoc(h, maxKeys, past + [x], y, k');
      NoOverlapSnoc(h, maxKeys, past + [x] + [y], Enqueue(1), k');
      NoOverlapSnoc(h, maxKeys, past + [x] + [y] + [Enqueue(1)], Enqueue(0), k');
    }
  }

  lemma CrossingKeeps(h: Hash, maxKeys: nat, ks: seq<string>, v: string, t: Tick)
    requires Crowd(h, maxKeys, ks) && |ks| >= 3
    ensures var n := |ks| - 1;
      var full := Run(h, Fresh(maxKeys), Ops(SetLog(ks[..n], v, t)));
      var st := Apply(h, Apply(h, full, Del(ks[n - 1], t.first)), Set(ks[n], v));
      && At(h, full, Del(ks[n - 1], t.first)).answer == Flag(true)
      && st.evicted == 0 && Lookup(h, st, ks[0]).Some?
  {
    hide Run, Step, Lookup, Reversed;
    var n, i := |ks| - 1, ShardIndex(h, ks[0]);
    var full, order := Run(h, Fresh(maxKeys), Ops(SetLog(ks[..n], v, t))), Reversed(ks[..n]);
    var st := Apply(h, Apply(h, full, Del(ks[n - 1], t.first)), Set(ks[n], v));
    FillShard(h, maxKeys, ks, n, SetLog(ks[..n], v, t), v);
    LastTwo(ks, n);
    DelFirst(full.shards[i], n, order, t.first);
    assert ks[n] !in ks[..n] && ks[n] !in order[1..];
    SetMore(Step(full.shards[i], n, Del(ks[n - 1], t.first)).shard, n, order[1..], ks[n], v);
    assert order[1..][n - 2] == ks[0] && ks[0] in [ks[n]] + order[1..];
    LookupHeld(h, st, [ks[n]] + order[1..], ks[0]);
  }

  /** Although windows never overlap on a key and the run evicts nothing, its log can make a store of
      the same capacity evict on replay, at every capacity of two or more a shard: the first key is in
      the store and not in the replayed one. */
  lemma {:induction false} LogOrderCanEvict(h: Hash, maxKeys: nat, ks: seq<string>, v: string, t: Tick,
    ticks: seq<Tick>)
    requires Crowd(h, maxKeys, ks) && Loggable(v) && |ks| >= 3 && |ticks| == |ks| + 1
    ensures var actions := Crossing(ks, v, t);
      var s := RunAll(h, maxKeys, actions);
      && (forall k :: NoOverlap(h, maxKeys, actions, k)) && s.pending == map[] && s.store.evicted == 0
      && |s.log| == |ks| + 1 && Lookup(h, s.store, ks[0]).Some?
      && Lookup(h, Replay(h, Fresh(maxKeys), PrintAll(s.log), ticks).store, ks[0]).None?
  {
    hide Apply, Run, Replay, Lookup, At, RunAll, Crowd, Reversed;
    var n, log := |ks| - 1, SetLog(ks, v, t) + [Stamped(DelRecord(ks[|ks| - 2]), t)];
    FillRuns(h, maxKeys, ks[..n], v, t);
    CrossingKeeps(h, maxKeys, ks, v, t);
    CrowdSize(h, maxKeys, ks);
    CrossingEnds(h, maxKeys, FillActions(ks[..n], v, t), SetLog(ks[..n], v, t), ks[n - 1], ks[n], v, t);
    assert SetLog(ks, v, t) == SetLog(ks[..n], v, t) + [Stamped(SetRecord(ks[n], v), t)];
    CrossingReplays(h, maxKeys, ks, v, t, ticks);
  }

  lemma CrossingReplays(h: Hash, maxKeys: nat, ks: seq<string>, v: string, t: Tick, ticks: seq<Tick>)
    requires Crowd(h, maxKeys, ks) && Loggable(v) && |ks| >= 2 && |ticks| == |ks| + 1
    ensures var log := SetLog(ks, v, t) + [Stamped(DelRecord(ks[|ks| - 2]), t)];
      Lookup(h, Replay(h, Fresh(maxKeys), PrintAll(log), ticks).store, ks[0]).None?
  {
    hide Run, Replay;
    var sets, x := SetLog(ks, v, t), Stamped(DelRecord(ks[|ks| - 2]), t);
    var n, st := |ks|, Fresh(maxKeys);
    CrowdReplayable(h, maxKeys, ks, v, t);
    ReplayIsRun(h, st, sets + [x], ticks);
    var ys, y := Restamp(sets, ticks[..n]), Stamped(x.record, ticks[n]);
    assert Restamp(sets + [x], ticks) == ys + [y];
    OpsSnoc(h, st, ys, y);
    Overfill(h, maxKeys, ks, ys, v);
    var i := ShardIndex(h, ks[0]);
    StepElsewhereDel(Run(h, st, Ops(ys)).shards[i], PerShard(maxKeys), y.record.key, y.tick.first, ks[0]);
  }

  lemma StepElsewhereDel(s: Shard, cap: nat, k: string, now: int, other: string)
    requires other !in s.data
    ensures other !in Step(s, cap, Del(k, now)).shard.data
  {
  }

  // ----- Strings the log does not quote -----

  /** A token that needs no quoting. */
  predicate Word(w: string) { w != "" && !HasSpecial(w) && NoSpace(w) }

  lemma SplitWord(w: string, rest: string)
    requires Word(w) && AtBreak(rest)
    ensures Split(w + rest) == [w] + Split(rest)
  {
    assert !IsSpecial(w[0]);
    BareWord(w, rest);
    assert (w + rest)[0] == w[0];
  }

  lemma SplitGap(c: char, rest: string)
    requires IsSpace(c)
    ensures Split([c] + rest) == Split(rest)
  {
    assert ([c] + rest)[1..] == rest;
  }

  lemma {:induction false} EscapePlain(s: string)
    requires !HasSpecial(s)
    ensures Escape(s) == s
  {
    if s != "" {
      assert !IsSpecial(s[0]);
      assert forall i :: 0 <= i < |s[1..]| ==> s[1..][i] == s[i + 1];
      EscapePlain(s[1..]);
    }
  }

  /** A line that starts and ends in a word is not trimmed. */
  lemma TrimNothing(line: string)
    requires line != "" && !IsSpace(line[0]) && !IsSpace(line[|line| - 1])
    ensures Trim(line) == line
  {
  }

  lemma SplitEnd(w: string)
    requires Word(w)
    ensures Split(w) == [w]
  {
    assert w + "" == w;
    SplitWord(w, "");
  }

  lemma NoSpecialJoin(x: string, c: char, y: string)
    requires Word(x) && Word(y) && !IsSpecial(c)
    ensures !HasSpecial(x + [c] + y)
  {
  }

  lemma SplitInQuotes(k: string, tail: string)
    requires k != "" && !HasSpecial(k)
    ensures Split("\"" + k + "\"" + tail) == [k] + Split(tail)
  {
    var whole := "\"" + k + "\"" + tail;
    EscapePlain(k);
    QuotedUndoesEscape(k, tail);
    assert whole[1..] == Escape(k) + "\"" + tail;
  }

  /** The request: the key is quoted, so it is one token. */
  lemma QuotedRequest(k: string, v: string)
    requires k != "" && !HasSpecial(k) && Word(v)
    ensures Parse("SET \"" + k + "\" " + v) == Command(SET, [k, v])
  {
    hide Split;
    var line, tail := "SET \"" + k + "\" " + v, [' '] + v;
    TrimNothing(line);
    var rest := "\"" + k + "\"" + tail;
    assert line == "SET" + ([' '] + rest);
    SplitWord("SET", [' '] + rest);
    SplitGap(' ', rest);
    SplitInQuotes(k, tail);
    SplitGap(' ', v);
    SplitEnd(v);
    assert Split(line) == ["SET", k, v];
    assert ToUpper("SET") == "SET";
  }

  /** The log line: whitespace inside the key cuts it in two. */
  lemma UnquotedLine(x: string, c: char, y: string, v: string)
    requires Word(x) && Word(y) && Word(v) && IsSpace(c) && !IsSpecial(c)
    ensures Parse(Print(SetRecord(x + [c] + y, v))) == Command(SET, [x, y])
  {
    var line := Print(SetRecord(x + [c] + y, v));
    NoSpecialJoin(x, c, y);
    assert line == "SET " + (x + [c] + y) + " " + v;
    TrimNothing(line);
    var r := [' '] + v;
    assert line == "SET" + ([' '] + (x + ([c] + (y + r))));
    SplitWord("SET", [' '] + (x + ([c] + (y + r))));
    SplitGap(' ', x + ([c] + (y + r)));
    SplitWord(x, [c] + (y + r));
    SplitGap(c, y + r);
    SplitWord(y, r);
    SplitGap(' ', v);
    SplitEnd(v);
    assert Split(line) == ["SET", x, y, v];
    assert ToUpper("SET") == "SET";
  }

  /** A key that holds a vertical tab, form feed or carriage return is parsed from a quoted request and
      logged without quotes, so replay sets another key to another value. */
  lemma {:induction false} WhitespaceBreaksReplay(x: string, c: char, y: string, v: string)
    requires Word(x) && Word(y) && Word(v) && c as int in {11, 12, 13}
    ensures var k := x + [c] + y;
      && Parse("SET \"" + k + "\" " + v) == Command(SET, [k, v])
      && Decode(Print(SetRecord(k, v))) == Perform(SetRecord(x, y))
  {
    NoSpecialJoin(x, c, y);
    QuotedRequest(x + [c] + y, v);
    UnquotedLine(x, c, y, v);
  }

  // ----- A key that expires -----

  lemma GetExpired(h: Hash, maxKeys: nat, events: seq<Event>, k: string, tick: Tick)
    requires var st := ServeAll(h, maxKeys, events).store;
      Lookup(h, st, k).Some? && Expired(Lookup(h, st, k).value, tick.first)
    ensures var get := Ask(Command(GET, [k]), tick);
      && ServeAll(h, maxKeys, events + [get]).log == ServeAll(h, maxKeys, events).log
      && Dropped(h, maxKeys, events + [get], k)
  {
    var s, get := ServeAll(h, maxKeys, events), Ask(Command(GET, [k]), tick);
    ServeSnoc(h, maxKeys, events, get);
    assert (events + [get])[..|events + [get]| - 1] == events;
    assert s.log + [] == s.log;
    assert Drops(h, s.store, Get(k, tick.first), k);
  }

  /** Expiry is not logged: after any session, a `get` that finds its key past its deadline removes it,
      and every replay that fits and is timely brings it back. */
  lemma {:induction false} ExpiryBreaksReplay(h: Hash, maxKeys: nat, events: seq<Event>, k: string, tick: Tick,
    maxKeys': nat, ticks: seq<Tick>)
    requires var s := ServeAll(h, maxKeys, events);
      && AllReplayable(s.log) && |ticks| == |s.log|
      && Fits(h, s.log, PerShard(maxKeys')) && Timely(Restamp(s.log, ticks))
      && Lookup(h, s.store, k).Some? && Expired(Lookup(h, s.store, k).value, tick.first)
    ensures var s' := ServeAll(h, maxKeys, events + [Ask(Command(GET, [k]), tick)]);
      && |s'.log| == |ticks| && Lookup(h, s'.store, k).None?
      && Lookup(h, Replay(h, Fresh(maxKeys'), PrintAll(s'.log), ticks).store, k).Some?
  {
    hide ServeAll, Lookup, Timely, Fits, Replay, Dropped;
    GetExpired(h, maxKeys, events, k, tick);
    RecoverUndropped(h, maxKeys, events + [Ask(Command(GET, [k]), tick)], maxKeys', ticks);
  }

  // ----- A deadline of zero seconds -----

  lemma ZeroText()
    ensures ToText(0) == "0" && Stoll("0") == Some(0)
  {
    StollUndoesToText(0);
  }

  lemma ServeExpireZero(h: Hash, s: Session, k: string, tick: Tick)
    requires Lookup(h, s.store, k).Some? && !Expired(Lookup(h, s.store, k).value, tick.first)
    ensures var s' := Serve(h, s, Ask(Command(EXPIRE, [k, "0"]), tick));
      && s'.log == s.log + [Stamped(ExpireRecord(k, 0), tick)]
      && Lookup(h, s'.store, k).Some? && Expired(Lookup(h, s'.store, k).value, tick.second)
  {
    ZeroText();
  }

  lemma ZeroFails(k: string)
    requires Loggable(k)
    ensures Decode(Print(ExpireRecord(k, 0))) == Fail
  {
    hide Parse;
    ZeroText();
    ParseUndoesPrint(ExpireRecord(k, 0));
    PrintNonEmpty(ExpireRecord(k, 0));
  }

  /** After any session, `EXPIRE key 0` on a live key gives it a deadline that is over at once and logs a
      line that replay counts as an error: the replayed store is the one without that request. */
  lemma {:induction false} ExpireZeroBreaksReplay(h: Hash, s: Session, k: string, tick: Tick, st: Store,
    ticks: seq<Tick>)
    requires Loggable(k) && Lookup(h, s.store, k).Some? && !Expired(Lookup(h, s.store, k).value, tick.first)
    requires |ticks| == |s.log| + 1
    ensures var s' := Serve(h, s, Ask(Command(EXPIRE, [k, "0"]), tick));
      && s'.log == s.log + [Stamped(ExpireRecord(k, 0), tick)]
      && Lookup(h, s'.store, k).Some? && Expired(Lookup(h, s'.store, k).value, tick.second)
      && var before, rec := Replay(h, st, PrintAll(s.log), ticks[..|s.log|]), Replay(h, st, PrintAll(s'.log), ticks);
         rec == before.(stats := before.stats.(errors := before.stats.errors + 1))
  {
    hide Decode, Serve, Lookup, Print;
    var n, log := |s.log|, s.log + [Stamped(ExpireRecord(k, 0), tick)];
    ServeExpireZero(h, s, k, tick);
    ZeroFails(k);
    assert PrintAll(log)[..n] == PrintAll(s.log) && PrintAll(log)[n] == Print(ExpireRecord(k, 0));
  }
}
