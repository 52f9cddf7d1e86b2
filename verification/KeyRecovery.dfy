/** Recovery of any serial session, key by key: hits, evictions, expiries and sweeps
    included, and exactly which keys replay brings back as they were. */
module KeyRecovery {
  import opened Basics
  import opened Shards
  import opened Stores
  import opened Parser
  import opened Commands
  import opened TimedMap
  import opened Sessions
  import opened Replaying

  // ----- Keys that are dropped -----

  /** Whether `k` is dropped after `op`, given whether it was before. */
  predicate StillDropped(h: Hash, st: Store, op: Option<Op>, k: string, was: bool) {
    if op.None? then was
    else if Drops(h, st, op.value, k) then true
    else was && !Sets(op.value, k)
  }

  /** `k` was found expired or evicted, and not set since. */
  predicate Dropped(h: Hash, maxKeys: nat, events: seq<Event>, k: string) {
    events != []
    && var before, e := events[..|events| - 1], events[|events| - 1];
       StillDropped(h, ServeAll(h, maxKeys, before).store, EventOp(e), k, Dropped(h, maxKeys, before, k))
  }

  /** A command does to a key what its log record says, or drops it, or nothing. */
  lemma DispatchKept(h: Hash, st: Store, c: Counters, cmd: Command, tick: Tick, k: string, was: bool,
                     final: Option<Entry>)
    requires Kept(was, Lookup(h, st, k), final)
    ensures var r := Dispatch(h, st, c, cmd, tick);
      var final' := if r.log.Some? && r.log.value.key == k then After(final, Stamped(r.log.value, tick)) else final;
      Kept(StillDropped(h, st, CommandOp(cmd, tick), k, was), Lookup(h, r.store, k), final')
  {
    hide Dispatch, Drops, Lookup, Apply;
    var op := CommandOp(cmd, tick);
    DispatchOp(h, st, c, cmd, tick);
    if op.Some? {
      OpKey(h, st, op.value, k);
      Unanswered(h, st, op.value);
    }
  }

  /** DEL and EXPIRE of a live key answer true, and only those. */
  lemma Unanswered(h: Hash, st: Store, op: Op)
    ensures At(h, st, op).answer == Flag(true)
      <==> (op.Del? || (op.Expire? && op.secs >= 0)) && Lookup(h, st, op.key).Some? && !Drops(h, st, op, op.key)
  {
  }

  lemma SweepKept(h: Hash, st: Store, op: Op, k: string, was: bool, final: Option<Entry>)
    requires Kept(was, Lookup(h, st, k), final) && op.Sweep?
    ensures Kept(StillDropped(h, st, Some(op), k, was), Lookup(h, Apply(h, st, op), k), final)
  {
    hide Drops, Lookup, Apply;
    OpKey(h, st, op, k);
  }

  lemma ServeKept(h: Hash, s: Session, e: Event, k: string, was: bool)
    requires Kept(was, Lookup(h, s.store, k), FinalOf(s.log, k))
    ensures var s' := Serve(h, s, e);
      Kept(StillDropped(h, s.store, EventOp(e), k, was), Lookup(h, s'.store, k), FinalOf(s'.log, k))
  {
    hide Kept, Lookup, StillDropped, Dispatch, Apply, FinalOf;
    if e.Background? {
      SweepKept(h, s.store, Sweep(e.shard, e.now, e.visited), k, was, FinalOf(s.log, k));
    } else {
      DispatchKept(h, s.store, s.counters, e.cmd, e.tick, k, was, FinalOf(s.log, k));
      var log := Dispatch(h, s.store, s.counters, e.cmd, e.tick).log;
      if log.Some? {
        FinalOfSnoc(s.log, Stamped(log.value, e.tick), k);
      } else {
        assert s.log + [] == s.log;
      }
    }
  }

  /** In any session, hits, evictions, expiries and sweeps included, the store holds of a key what the
      log leaves, unless the key is dropped. */
  lemma {:induction false} SessionKept(h: Hash, maxKeys: nat, events: seq<Event>, k: string)
    ensures var s := ServeAll(h, maxKeys, events);
      Kept(Dropped(h, maxKeys, events, k), Lookup(h, s.store, k), FinalOf(s.log, k))
  {
    if events != [] {
      hide Kept, Lookup, StillDropped, Serve, FinalOf;
      var before := events[..|events| - 1];
      SessionKept(h, maxKeys, before, k);
      ServeKept(h, ServeAll(h, maxKeys, before), events[|events| - 1], k, Dropped(h, maxKeys, before, k));
    }
  }

  /** Any session and any replay of its log, into a store of any size and at any time: replay performs
      every line, and the two stores agree on a key, deadlines counted anew, if and only if both dropped
      it or neither did. */
  lemma {:induction false} RecoverKeys(h: Hash, maxKeys: nat, events: seq<Event>, maxKeys': nat, ticks: seq<Tick>)
    requires var s := ServeAll(h, maxKeys, events); AllReplayable(s.log) && |ticks| == |s.log|
    ensures var s := ServeAll(h, maxKeys, events);
      var rec, ys := Replay(h, Fresh(maxKeys'), PrintAll(s.log), ticks), Restamp(s.log, ticks);
      && rec.stats == ReplayStats(|s.log|, 0, 0)
      && forall k :: SameEntry(s.log, ys, k, Lookup(h, s.store, k), Lookup(h, rec.store, k))
                     <==> (Dropped(h, maxKeys, events, k) <==> Missing(h, maxKeys', ys, k))
  {
    hide ServeAll, Replay, Run, Lookup, SameEntry, Dropped, Missing, Kept;
    var s := ServeAll(h, maxKeys, events);
    var ys, rec := Restamp(s.log, ticks), Replay(h, Fresh(maxKeys'), PrintAll(s.log), ticks);
    ReplayIsRun(h, Fresh(maxKeys'), s.log, ticks);
    forall k
      ensures SameEntry(s.log, ys, k, Lookup(h, s.store, k), Lookup(h, rec.store, k))
              <==> (Dropped(h, maxKeys, events, k) <==> Missing(h, maxKeys', ys, k))
    {
      SessionKept(h, maxKeys, events, k);
      ReplayKept(h, s.log, maxKeys', ticks, k);
      KeptAgree(s.log, ys, k, Dropped(h, maxKeys, events, k), Lookup(h, s.store, k),
                Missing(h, maxKeys', ys, k), Lookup(h, rec.store, k));
    }
  }

  /** If the log fits the new store and replay is timely, exactly the keys that were not dropped are
      recovered; a dropped key is gone from the store and back after replay. */
  lemma {:induction false} RecoverUndropped(h: Hash, maxKeys: nat, events: seq<Event>, maxKeys': nat, ticks: seq<Tick>)
    requires var s := ServeAll(h, maxKeys, events);
      && AllReplayable(s.log) && |ticks| == |s.log|
      && Fits(h, s.log, PerShard(maxKeys')) && Timely(Restamp(s.log, ticks))
    ensures var s := ServeAll(h, maxKeys, events);
      var rec, ys := Replay(h, Fresh(maxKeys'), PrintAll(s.log), ticks), Restamp(s.log, ticks);
      && (forall k :: SameEntry(s.log, ys, k, Lookup(h, s.store, k), Lookup(h, rec.store, k))
                      <==> !Dropped(h, maxKeys, events, k))
      && (forall k :: Dropped(h, maxKeys, events, k) ==>
            Lookup(h, s.store, k).None? && Lookup(h, rec.store, k).Some?)
  {
    hide ServeAll, Replay, Lookup, SameEntry, Dropped, Missing, Fits, Timely;
    var s := ServeAll(h, maxKeys, events);
    var ys, rec := Restamp(s.log, ticks), Replay(h, Fresh(maxKeys'), PrintAll(s.log), ticks);
    RecoverKeys(h, maxKeys, events, maxKeys', ticks);
    forall k
      ensures !Missing(h, maxKeys', ys, k)
      ensures Dropped(h, maxKeys, events, k) ==> Lookup(h, s.store, k).None? && Lookup(h, rec.store, k).Some?
    {
      FittingMissesNothing(h, s.log, maxKeys', ticks, k);
      SessionKept(h, maxKeys, events, k);
      if Dropped(h, maxKeys, events, k) {
        BackAgain(s.log, ys, k, Lookup(h, s.store, k), Lookup(h, rec.store, k));
      }
    }
  }

  /** Where one store is empty and the two disagree, the other is not. */
  lemma BackAgain(xs: seq<Stamped>, ys: seq<Stamped>, k: string, e: Option<Entry>, f: Option<Entry>)
    requires |xs| == |ys| && e.None? && !SameEntry(xs, ys, k, e, f)
    ensures f.Some?
  {
  }

  // ----- Sessions that evict nothing and find nothing expired -----

  lemma {:induction false} CleanDropsNothing(h: Hash, maxKeys: nat, events: seq<Event>, k: string)
    requires Clean(ServeAll(h, maxKeys, events).store)
    ensures !Dropped(h, maxKeys, events, k)
  {
    if events != [] {
      hide Drops, Apply, At, Serve;
      var before, e := events[..|events| - 1], events[|events| - 1];
      var st := ServeAll(h, maxKeys, before).store;
      ServeGrows(h, ServeAll(h, maxKeys, before), e);
      CleanDropsNothing(h, maxKeys, before, k);
      ServeOp(h, ServeAll(h, maxKeys, before), e);
      if EventOp(e).Some? {
        ApplyCounts(h, st, EventOp(e).value);
        if Drops(h, st, EventOp(e).value, k) {
          DropsCount(h, st, EventOp(e).value, k);
        }
      }
    }
  }

  lemma ServeOp(h: Hash, s: Session, e: Event)
    ensures Serve(h, s, e).store == if EventOp(e).Some? then Apply(h, s.store, EventOp(e).value) else s.store
  {
    if e.Ask? {
      DispatchOp(h, s.store, s.counters, e.cmd, e.tick);
    }
  }

  /** The store holds the live keys of the log, which have always fitted. */
  ghost predicate InLog(h: Hash, s: Session) {
    HoldsLive(h, s.store, s.log) && Fits(h, s.log, s.store.cap)
  }

  lemma LoggedInLog(h: Hash, s: Session, x: Stamped)
    requires StoreValid(h, s.store) && InLog(h, s)
    requires !x.record.SetRecord? ==> At(h, s.store, StampedOp(x)).answer == Flag(true)
    requires At(h, s.store, StampedOp(x)).expired == 0 && At(h, s.store, StampedOp(x)).evicted == 0
    ensures InLog(h, s.(store := Apply(h, s.store, StampedOp(x)), log := s.log + [x]))
  {
    LoggedNonNegative(h, s.store, x);
    assert s.log[..|s.log|] == s.log;
    LiveStep(h, s.store, s.log, x);
    FitsSnoc(h, s.log, x, s.store.cap);
  }

  lemma UnloggedInLog(h: Hash, s: Session, op: Op)
    requires InLog(h, s) && !op.Set? && !op.SetTtl?
    requires At(h, s.store, op).expired == 0 && At(h, s.store, op).answer != Flag(true)
    ensures InLog(h, s.(store := Apply(h, s.store, op)))
  {
    hide Fits;
    var st := Apply(h, s.store, op);
    forall i | 0 <= i < NUM_SHARDS
      ensures st.shards[i].data == s.store.shards[i].data
    {
      UnloggedKeepsData(h, s.store, op, i);
    }
  }

  lemma ServeInLog(h: Hash, s: Session, e: Event)
    requires StoreValid(h, s.store) && InLog(h, s)
    requires var s' := Serve(h, s, e); s'.store.expired == s.store.expired && s'.store.evicted == s.store.evicted
    ensures InLog(h, Serve(h, s, e))
  {
    hide InLog, HoldsLive, Fits, StoreValid;
    var s' := Serve(h, s, e);
    if e.Background? {
      UnloggedInLog(h, s, Sweep(e.shard, e.now, e.visited));
    } else {
      var r, op := Dispatch(h, s.store, s.counters, e.cmd, e.tick), CommandOp(e.cmd, e.tick);
      DispatchOp(h, s.store, s.counters, e.cmd, e.tick);
      var still := s.(store := r.store, log := s.log + Logs(r.log, e.tick));
      InLogCounters(h, still, r.counters);
      if r.log.Some? {
        LoggedInLog(h, s, Stamped(r.log.value, e.tick));
      } else {
        assert s.log + [] == s.log;
        if op.Some? {
          UnloggedInLog(h, s, op.value);
        }
      }
    }
  }

  lemma InLogCounters(h: Hash, s: Session, c: Counters)
    ensures InLog(h, s) ==> InLog(h, s.(counters := c))
  {
  }

  lemma {:induction false} SessionInLog(h: Hash, maxKeys: nat, events: seq<Event>)
    requires Clean(ServeAll(h, maxKeys, events).store)
    ensures InLog(h, ServeAll(h, maxKeys, events))
  {
    if events == [] {
      CleanStart(h, maxKeys);
    } else {
      var before, e := events[..|events| - 1], events[|events| - 1];
      ServeGrows(h, ServeAll(h, maxKeys, before), e);
      SessionInLog(h, maxKeys, before);
      SessionValid(h, maxKeys, before);
      ServeInLog(h, ServeAll(h, maxKeys, before), e);
    }
  }

  lemma FitsMore(h: Hash, xs: seq<Stamped>, cap: nat, cap': nat)
    requires Fits(h, xs, cap) && cap <= cap'
    ensures Fits(h, xs, cap')
  {
    forall n | 0 <= n <= |xs|
      ensures FitsNow(h, xs[..n], cap')
    {
      assert FitsNow(h, xs[..n], cap);
    }
  }

  /** A session with hits, in which nothing expired and nothing was evicted. Replay into a store at
      least as large evicts nothing; it finds nothing expired exactly when it is timely, and then the
      two stores agree on every key. */
  lemma {:induction false} RecoverWithHits(h: Hash, maxKeys: nat, maxKeys': nat, events: seq<Event>, ticks: seq<Tick>)
    requires var s := ServeAll(h, maxKeys, events);
      Clean(s.store) && AllReplayable(s.log) && |ticks| == |s.log| && PerShard(maxKeys) <= PerShard(maxKeys')
    ensures var s := ServeAll(h, maxKeys, events);
      var rec, ys := Replay(h, Fresh(maxKeys'), PrintAll(s.log), ticks), Restamp(s.log, ticks);
      && rec.stats == ReplayStats(|s.log|, 0, 0)
      && (Clean(rec.store) <==> Timely(ys))
      && (Timely(ys) ==> forall k :: SameEntry(s.log, ys, k, Lookup(h, s.store, k), Lookup(h, rec.store, k)))
  {
    hide ServeAll, Replay, Fits, Timely, SameEntry, Lookup, HoldsLive, Dropped;
    var s := ServeAll(h, maxKeys, events);
    SessionInLog(h, maxKeys, events);
    SessionValid(h, maxKeys, events);
    FitsMore(h, s.log, PerShard(maxKeys), PerShard(maxKeys'));
    ReplayClean(h, s.log, maxKeys', ticks);
    if Timely(Restamp(s.log, ticks)) {
      RecoverUndropped(h, maxKeys, events, maxKeys', ticks);
      forall k
        ensures !Dropped(h, maxKeys, events, k)
      {
        CleanDropsNothing(h, maxKeys, events, k);
      }
    }
  }
}
