/** Recovery of a serial session: replaying its log rebuilds the store, shard by
    shard and in order, with deadlines counted from the replay. */
module ExactRecovery {
  import opened Basics
  import opened Shards
  import opened Stores
  import opened Parser
  import opened Commands
  import opened TimedMap
  import opened Sessions
  import opened Replaying

  // ----- What a session does beyond its log -----

  /** A `get` that hits a key which is not first in its list, and so moves it there. */
  predicate Reorders(h: Hash, st: Store, op: Op) {
    && op.Get?
    && var s := st.shards[Home(h, op)];
       op.key in s.data && !Expired(s.data[op.key], op.now) && s.order != [] && s.order[0] != op.key
  }

  predicate EventReorders(h: Hash, st: Store, e: Event) {
    EventOp(e).Some? && Reorders(h, st, EventOp(e).value)
  }

  /** No `get` of the session moves a key. */
  predicate NeverReorders(h: Hash, maxKeys: nat, events: seq<Event>) {
    events == []
    || (NeverReorders(h, maxKeys, events[..|events| - 1])
        && !EventReorders(h, ServeAll(h, maxKeys, events[..|events| - 1]).store, events[|events| - 1]))
  }

  lemma FrontStays(s: Shard, cap: nat, k: string)
    requires Valid(s, cap) && s.order != [] && s.order[0] == k && k in s.data
    ensures ToFront(s, k, s.data[k]) == s
  {
    FrontFirst(s.order);
    assert s.data[k := s.data[k]] == s.data;
  }

  lemma FrontFirst(order: seq<string>)
    requires NoDup(order) && order != []
    ensures [order[0]] + Remove(order, {order[0]}) == order
  {
    var k, rest := order[0], order[1..];
    forall i | 0 <= i < |rest|
      ensures rest[i] != k
    {
      assert rest[i] == order[i + 1];
    }
    RemoveNone(rest, {k});
  }

  /** An operation that is not logged, finds nothing expired and moves no key does nothing. */
  lemma IdleStep(s: Shard, cap: nat, op: Op)
    requires Valid(s, cap) && !op.Set? && !op.SetTtl?
    requires Step(s, cap, op).expired == 0 && Step(s, cap, op).answer != Flag(true)
    requires op.Get? && op.key in s.data && !Expired(s.data[op.key], op.now) ==> s.order != [] && s.order[0] == op.key
    ensures Step(s, cap, op).shard == s && Step(s, cap, op).evicted == 0
  {
    if op.Sweep? {
      assert Swept(s, op.now, op.visited) == {};
      RemoveNone(s.order, {});
      assert s.data - {} == s.data;
    } else if op.Get? && op.key in s.data && !Expired(s.data[op.key], op.now) {
      FrontStays(s, cap, op.key);
    }
  }

  lemma IdleApply(h: Hash, st: Store, op: Op)
    requires StoreValid(h, st) && !op.Set? && !op.SetTtl? && !Reorders(h, st, op)
    requires At(h, st, op).expired == 0 && At(h, st, op).answer != Flag(true)
    ensures Apply(h, st, op) == st
  {
    var s := st.shards[Home(h, op)];
    assert ShardValid(h, st, Home(h, op));
    assert op.Get? && op.key in s.data ==> op.key in s.order;
    IdleStep(s, st.cap, op);
    assert st.shards[Home(h, op) := s] == st.shards;
  }

  /** When nothing expires and no key is moved, a command changes the store only by what it logs. */
  lemma DispatchIsLogged(h: Hash, st: Store, c: Counters, cmd: Command, tick: Tick)
    requires StoreValid(h, st) && Dispatch(h, st, c, cmd, tick).store.expired == st.expired
    requires CommandOp(cmd, tick).Some? ==> !Reorders(h, st, CommandOp(cmd, tick).value)
    ensures var r := Dispatch(h, st, c, cmd, tick);
      r.store == if r.log.Some? then Apply(h, st, RecordOp(r.log.value, tick)) else st
  {
    DispatchOp(h, st, c, cmd, tick);
    var op := CommandOp(cmd, tick);
    if op.Some? && Dispatch(h, st, c, cmd, tick).log.None? {
      IdleApply(h, st, op.value);
    }
  }

  /** Every logged DEL and EXPIRE found its key. */
  ghost predicate Effective(h: Hash, maxKeys: nat, xs: seq<Stamped>) {
    forall j :: 0 <= j < |xs| && !xs[j].record.SetRecord? ==>
      At(h, Run(h, Fresh(maxKeys), Ops(xs[..j])), StampedOp(xs[j])).answer == Flag(true)
  }

  lemma EffectiveSnoc(h: Hash, maxKeys: nat, xs: seq<Stamped>, x: Stamped)
    requires Effective(h, maxKeys, xs)
    requires !x.record.SetRecord? ==> At(h, Run(h, Fresh(maxKeys), Ops(xs)), StampedOp(x)).answer == Flag(true)
    ensures Effective(h, maxKeys, xs + [x])
  {
    var all := xs + [x];
    forall j | 0 <= j < |all| && !all[j].record.SetRecord?
      ensures At(h, Run(h, Fresh(maxKeys), Ops(all[..j])), StampedOp(all[j])).answer == Flag(true)
    {
      assert all[..j] == xs[..j];
      if j == |xs| {
        assert xs[..j] == xs;
      }
    }
  }

  /** Then the store is the run of the logged records. */
  lemma {:induction false} SessionIsRun(h: Hash, maxKeys: nat, events: seq<Event>)
    requires NeverReorders(h, maxKeys, events) && ServeAll(h, maxKeys, events).store.expired == 0
    ensures var s := ServeAll(h, maxKeys, events);
      s.store == Run(h, Fresh(maxKeys), Ops(s.log)) && Effective(h, maxKeys, s.log) && NonNegative(s.log)
  {
    if events == [] {
      assert Ops(ServeAll(h, maxKeys, events).log) == [];
    } else {
      var before, e := events[..|events| - 1], events[|events| - 1];
      ServeGrows(h, ServeAll(h, maxKeys, before), e);
      SessionIsRun(h, maxKeys, before);
      SessionValid(h, maxKeys, before);
      ServeIsRun(h, maxKeys, ServeAll(h, maxKeys, before), e);
    }
  }

  lemma ServeIsRun(h: Hash, maxKeys: nat, s: Session, e: Event)
    requires StoreValid(h, s.store) && s.store == Run(h, Fresh(maxKeys), Ops(s.log))
    requires Effective(h, maxKeys, s.log) && NonNegative(s.log)
    requires !EventReorders(h, s.store, e) && Serve(h, s, e).store.expired == s.store.expired
    ensures var s' := Serve(h, s, e);
      s'.store == Run(h, Fresh(maxKeys), Ops(s'.log)) && Effective(h, maxKeys, s'.log) && NonNegative(s'.log)
  {
    if e.Background? {
      IdleApply(h, s.store, Sweep(e.shard, e.now, e.visited));
    } else {
      var r := Dispatch(h, s.store, s.counters, e.cmd, e.tick);
      DispatchIsLogged(h, s.store, s.counters, e.cmd, e.tick);
      DispatchOp(h, s.store, s.counters, e.cmd, e.tick);
      if r.log.Some? {
        var x := Stamped(r.log.value, e.tick);
        OpsSnoc(h, Fresh(maxKeys), s.log, x);
        EffectiveSnoc(h, maxKeys, s.log, x);
        LoggedNonNegative(h, s.store, x);
      } else {
        assert s.log + [] == s.log;
      }
    }
  }

  // ----- Two runs of the same records at different times -----

  /** Same list, keys and values, and the same keys have a deadline. */
  ghost predicate Twin(s: Shard, t: Shard) {
    && s.order == t.order
    && s.data.Keys == t.data.Keys
    && forall k :: k in s.data ==> SameShape(s.data[k], t.data[k])
  }

  predicate SameShape(e: Entry, f: Entry) {
    e.value == f.value && (e.deadline.Some? <==> f.deadline.Some?)
  }

  lemma TwinPut(s: Shard, t: Shard, cap: nat, k: string, e: Entry)
    requires Twin(s, t)
    ensures Twin(Put(s, cap, k, e).shard, Put(t, cap, k, e).shard)
    ensures Put(s, cap, k, e).evicted == Put(t, cap, k, e).evicted
  {
  }

  lemma TwinStep(s: Shard, t: Shard, cap: nat, x: Stamped, y: Stamped)
    requires Twin(s, t) && x.record == y.record
    requires Step(s, cap, StampedOp(x)).expired == 0 && Step(t, cap, StampedOp(y)).expired == 0
    ensures Twin(Step(s, cap, StampedOp(x)).shard, Step(t, cap, StampedOp(y)).shard)
    ensures Step(s, cap, StampedOp(x)).evicted == Step(t, cap, StampedOp(y)).evicted
  {
    if x.record.SetRecord? {
      TwinPut(s, t, cap, x.record.key, Entry(x.record.value, None));
    }
  }

  ghost predicate ShardRebuilt(s: Shard, t: Shard, xs: seq<Stamped>, ys: seq<Stamped>)
    requires |xs| == |ys|
  {
    Twin(s, t) && forall k :: k in s.data ==> Anchored(xs, ys, k, s.data[k].deadline, t.data[k].deadline)
  }

  /** Two stores alike in list order, keys, values and evictions, deadlines anchored in the records. */
  ghost predicate Rebuilt(st: Store, st': Store, xs: seq<Stamped>, ys: seq<Stamped>)
    requires |xs| == |ys|
  {
    && st.cap == st'.cap && st.evicted == st'.evicted
    && forall i :: 0 <= i < NUM_SHARDS ==> ShardRebuilt(st.shards[i], st'.shards[i], xs, ys)
  }

  /** What a record leaves of the deadline of its own key. */
  lemma OwnDeadline(s: Shard, cap: nat, x: Stamped)
    requires var q := Step(s, cap, StampedOp(x)); q.expired == 0 && x.record.key in q.shard.data
    requires x.record.ExpireRecord? ==> x.record.secs >= 0
    ensures var d := Step(s, cap, StampedOp(x)).shard.data[x.record.key].deadline;
      !x.record.DelRecord? && d == if x.record.SetRecord? then None else Some(x.tick.second + x.record.secs * NANOS)
  {
  }

  /** The deadline of one key after a record on its shard. */
  lemma AnchoredStep(s: Shard, t: Shard, cap: nat, xs: seq<Stamped>, ys: seq<Stamped>, x: Stamped, y: Stamped,
                     k: string)
    requires |xs| == |ys| && x.record == y.record && (x.record.ExpireRecord? ==> x.record.secs >= 0)
    requires ShardRebuilt(s, t, xs, ys)
    requires Step(s, cap, StampedOp(x)).expired == 0 && Step(t, cap, StampedOp(y)).expired == 0
    requires k in Step(s, cap, StampedOp(x)).shard.data && k in Step(t, cap, StampedOp(y)).shard.data
    ensures Anchored(xs + [x], ys + [y], k, Step(s, cap, StampedOp(x)).shard.data[k].deadline,
                     Step(t, cap, StampedOp(y)).shard.data[k].deadline)
  {
    if k == x.record.key {
      OwnDeadline(s, cap, x);
      OwnDeadline(t, cap, y);
      if x.record.ExpireRecord? {
        AnchoredNow(xs, ys, x, y);
      }
    } else {
      StepElsewhere(s, cap, StampedOp(x), k);
      StepElsewhere(t, cap, StampedOp(y), k);
      AnchoredNext(xs, ys, x, y, k, s.data[k].deadline, t.data[k].deadline);
    }
  }

  lemma ShardRebuiltStep(s: Shard, t: Shard, cap: nat, xs: seq<Stamped>, ys: seq<Stamped>, x: Stamped, y: Stamped)
    requires |xs| == |ys| && x.record == y.record && (x.record.ExpireRecord? ==> x.record.secs >= 0)
    requires ShardRebuilt(s, t, xs, ys)
    requires Step(s, cap, StampedOp(x)).expired == 0 && Step(t, cap, StampedOp(y)).expired == 0
    ensures ShardRebuilt(Step(s, cap, StampedOp(x)).shard, Step(t, cap, StampedOp(y)).shard, xs + [x], ys + [y])
  {
    var s' := Step(s, cap, StampedOp(x)).shard;
    TwinStep(s, t, cap, x, y);
    forall k | k in s'.data
      ensures Anchored(xs + [x], ys + [y], k, s'.data[k].deadline, Step(t, cap, StampedOp(y)).shard.data[k].deadline)
    {
      AnchoredStep(s, t, cap, xs, ys, x, y, k);
    }
  }

  /** A shard the record does not concern stays rebuilt. */
  lemma ShardRebuiltIdle(s: Shard, t: Shard, xs: seq<Stamped>, ys: seq<Stamped>, x: Stamped, y: Stamped)
    requires |xs| == |ys| && ShardRebuilt(s, t, xs, ys) && x.record.key !in s.data
    ensures ShardRebuilt(s, t, xs + [x], ys + [y])
  {
    forall k | k in s.data
      ensures Anchored(xs + [x], ys + [y], k, s.data[k].deadline, t.data[k].deadline)
    {
      AnchoredNext(xs, ys, x, y, k, s.data[k].deadline, t.data[k].deadline);
    }
  }

  lemma RebuiltStep(h: Hash, st: Store, st': Store, xs: seq<Stamped>, ys: seq<Stamped>, x: Stamped, y: Stamped)
    requires |xs| == |ys| && x.record == y.record && (x.record.ExpireRecord? ==> x.record.secs >= 0)
    requires Rebuilt(st, st', xs, ys) && StoreValid(h, st)
    requires At(h, st, StampedOp(x)).expired == 0 && At(h, st', StampedOp(y)).expired == 0
    ensures Rebuilt(Apply(h, st, StampedOp(x)), Apply(h, st', StampedOp(y)), xs + [x], ys + [y])
  {
    var home := ShardIndex(h, x.record.key);
    forall i | 0 <= i < NUM_SHARDS
      ensures ShardRebuilt(Apply(h, st, StampedOp(x)).shards[i], Apply(h, st', StampedOp(y)).shards[i],
                           xs + [x], ys + [y])
    {
      if i == home {
        ShardRebuiltStep(st.shards[i], st'.shards[i], st.cap, xs, ys, x, y);
      } else {
        assert ShardValid(h, st, i);
        ShardRebuiltIdle(st.shards[i], st'.shards[i], xs, ys, x, y);
      }
    }
    TwinStep(st.shards[home], st'.shards[home], st.cap, x, y);
  }

  lemma NothingRebuilt(h: Hash, maxKeys: nat)
    ensures Rebuilt(Run(h, Fresh(maxKeys), Ops([])), Run(h, Fresh(maxKeys), Ops([])), [], [])
  {
    assert Ops([]) == [];
  }

  lemma {:induction false} RunsRebuilt(h: Hash, maxKeys: nat, xs: seq<Stamped>, ys: seq<Stamped>)
    requires SameRecords(xs, ys) && NonNegative(xs)
    requires Run(h, Fresh(maxKeys), Ops(xs)).expired == 0 && Run(h, Fresh(maxKeys), Ops(ys)).expired == 0
    ensures Rebuilt(Run(h, Fresh(maxKeys), Ops(xs)), Run(h, Fresh(maxKeys), Ops(ys)), xs, ys)
  {
    hide Rebuilt, Run, Apply, At, ShardRebuilt, StoreValid;
    if xs == [] {
      NothingRebuilt(h, maxKeys);
    } else {
      var n, st := |xs| - 1, Fresh(maxKeys);
      var a, b := Run(h, st, Ops(xs[..n])), Run(h, st, Ops(ys[..n]));
      Rejoin(xs);
      Rejoin(ys);
      OpsSnoc(h, st, xs[..n], xs[n]);
      OpsSnoc(h, st, ys[..n], ys[n]);
      ApplyCounts(h, a, StampedOp(xs[n]));
      ApplyCounts(h, b, StampedOp(ys[n]));
      RunsRebuilt(h, maxKeys, xs[..n], ys[..n]);
      FreshValid(h, maxKeys);
      RunValid(h, st, Ops(xs[..n]));
      assert xs[n] in xs;
      RebuiltStep(h, a, b, xs[..n], ys[..n], xs[n], ys[n]);
    }
  }

  // ----- Recovery -----

  /** A key that a run of records finds again is found in the other run too, so if that finds nothing
      expired it is on time. */
  lemma NoExpiryOnTime(h: Hash, maxKeys: nat, xs: seq<Stamped>, ys: seq<Stamped>, j: nat)
    requires SameRecords(xs, ys) && NonNegative(xs) && Effective(h, maxKeys, xs) && j < |xs|
    requires Run(h, Fresh(maxKeys), Ops(xs)).expired == 0 && Run(h, Fresh(maxKeys), Ops(ys)).expired == 0
    ensures OnTime(FinalOf(ys[..j], ys[j].record.key), ys[j])
  {
    hide Apply, Run, At, StoreValid, OnTime, FinalOf;
    var st, k := Fresh(maxKeys), xs[j].record.key;
    PrefixExpired(h, st, xs, j);
    PrefixExpired(h, st, ys, j);
    RunsRebuilt(h, maxKeys, xs[..j], ys[..j]);
    RunKept(h, maxKeys, ys[..j], k);
    assert ys[j] in ys && xs[j] in xs;
    RecordExpires(h, Run(h, st, Ops(ys[..j])), ys[j]);
    PresentOnTime(h, Run(h, st, Ops(xs[..j])), Run(h, st, Ops(ys[..j])), xs[j], ys[j], FinalOf(ys[..j], k));
  }

  /** Nothing expired in a run means nothing expired in any prefix, nor at the record after it. */
  lemma PrefixExpired(h: Hash, st: Store, xs: seq<Stamped>, j: nat)
    requires j < |xs| && st.expired == 0 && Run(h, st, Ops(xs)).expired == 0
    ensures Run(h, st, Ops(xs[..j])).expired == 0
    ensures At(h, Run(h, st, Ops(xs[..j])), StampedOp(xs[j])).expired == 0
  {
    hide Run, Apply, At;
    CountersAtPrefix(h, st, Ops(xs), j);
    CountersAtPrefix(h, st, Ops(xs), j + 1);
    assert Ops(xs)[..j] == Ops(xs[..j]) && Ops(xs)[..j + 1] == Ops(xs[..j] + [xs[j]]);
    OpsSnoc(h, st, xs[..j], xs[j]);
    ApplyCounts(h, Run(h, st, Ops(xs[..j])), StampedOp(xs[j]));
  }

  lemma PresentOnTime(h: Hash, st: Store, st': Store, x: Stamped, y: Stamped, e: Option<Entry>)
    requires x.record == y.record
    requires !x.record.SetRecord? ==> At(h, st, StampedOp(x)).answer == Flag(true)
    requires Lookup(h, st, x.record.key).Some? ==> Lookup(h, st', x.record.key) == e && e.Some?
    requires OnTime(Lookup(h, st', x.record.key), y)
    ensures OnTime(e, y)
  {
  }

  /** Replay of records that did find their keys finds nothing expired exactly when it is timely. */
  lemma NoExpiryIsTimely(h: Hash, maxKeys: nat, xs: seq<Stamped>, ys: seq<Stamped>)
    requires SameRecords(xs, ys) && NonNegative(xs) && Effective(h, maxKeys, xs)
    requires Run(h, Fresh(maxKeys), Ops(xs)).expired == 0
    ensures Run(h, Fresh(maxKeys), Ops(ys)).expired == 0 <==> Timely(ys)
  {
    if Run(h, Fresh(maxKeys), Ops(ys)).expired == 0 {
      forall j | 0 <= j < |ys|
        ensures OnTime(FinalOf(ys[..j], ys[j].record.key), ys[j])
      {
        NoExpiryOnTime(h, maxKeys, xs, ys, j);
      }
    }
    if Timely(ys) {
      TimelyNoExpiry(h, maxKeys, ys);
    }
  }

  /** A session in which nothing expired and no read moved a key: its log replays without error; replay
      finds nothing expired exactly when it is timely; and then it rebuilds the store, evictions and all. */
  lemma {:induction false} Recover(h: Hash, maxKeys: nat, events: seq<Event>, ticks: seq<Tick>)
    requires var s := ServeAll(h, maxKeys, events);
      && NeverReorders(h, maxKeys, events) && s.store.expired == 0
      && AllReplayable(s.log) && |ticks| == |s.log|
    ensures var s := ServeAll(h, maxKeys, events);
      var rec, ys := Replay(h, Fresh(maxKeys), PrintAll(s.log), ticks), Restamp(s.log, ticks);
      && rec.stats == ReplayStats(|s.log|, 0, 0)
      && (rec.store.expired == 0 <==> Timely(ys))
      && (Timely(ys) ==> Rebuilt(s.store, rec.store, s.log, ys))
  {
    var s := ServeAll(h, maxKeys, events);
    var ys := Restamp(s.log, ticks);
    SessionIsRun(h, maxKeys, events);
    ReplayIsRun(h, Fresh(maxKeys), s.log, ticks);
    NoExpiryIsTimely(h, maxKeys, s.log, ys);
    if Timely(ys) {
      RunsRebuilt(h, maxKeys, s.log, ys);
    }
  }

  /** A session without hits moves no key by reading. */
  lemma {:induction false} NoHitsNoReorder(h: Hash, maxKeys: nat, events: seq<Event>)
    requires ServeAll(h, maxKeys, events).counters.hits == 0
    ensures NeverReorders(h, maxKeys, events)
  {
    if events != [] {
      var before, e := events[..|events| - 1], events[|events| - 1];
      ServeGrows(h, ServeAll(h, maxKeys, before), e);
      NoHitsNoReorder(h, maxKeys, before);
    }
  }

  /** A replay that takes less than a second rebuilds the store of a session without hits. */
  lemma {:induction false} RecoverPromptly(h: Hash, maxKeys: nat, events: seq<Event>, ticks: seq<Tick>, t: int)
    requires var s := ServeAll(h, maxKeys, events);
      && s.counters.hits == 0 && s.store.expired == 0
      && AllReplayable(s.log) && |ticks| == |s.log| && Prompt(ticks, t)
    ensures var s := ServeAll(h, maxKeys, events);
      var rec := Replay(h, Fresh(maxKeys), PrintAll(s.log), ticks);
      && rec.stats == ReplayStats(|s.log|, 0, 0) && rec.store.expired == 0
      && Rebuilt(s.store, rec.store, s.log, Restamp(s.log, ticks))
  {
    NoHitsNoReorder(h, maxKeys, events);
    PromptIsTimely(ServeAll(h, maxKeys, events).log, ticks, t);
    Recover(h, maxKeys, events, ticks);
  }

  /** One more `GET`, of a key that is not past its deadline, on a store that replay rebuilds: replay
      still rebuilds it if and only if the key is absent or already first in its list. */
  lemma {:induction false} GetAfterRecovery(h: Hash, s: Session, st': Store, ys: seq<Stamped>, k: string, tick: Tick)
    requires |ys| == |s.log| && StoreValid(h, s.store) && Rebuilt(s.store, st', s.log, ys)
    requires Serve(h, s, Ask(Command(GET, [k]), tick)).store.expired == s.store.expired
    ensures var s' := Serve(h, s, Ask(Command(GET, [k]), tick));
      && s'.log == s.log
      && (Rebuilt(s'.store, st', s.log, ys)
          <==> Lookup(h, s.store, k).None? || [k] <= s.store.shards[ShardIndex(h, k)].order)
  {
    var op := Get(k, tick.first);
    var s' := Serve(h, s, Ask(Command(GET, [k]), tick));
    var i := ShardIndex(h, k);
    assert ShardValid(h, s.store, i);
    assert k in s.store.shards[i].data ==> k in s.store.shards[i].order;
    assert s'.log == s.log;
    if Reorders(h, s.store, op) {
      assert s'.store.shards[i].order[0] == k;
      assert ShardRebuilt(s.store.shards[i], st'.shards[i], s.log, ys);
    } else {
      IdleApply(h, s.store, op);
    }
  }
}
