/** Recovery when workers interleave. A worker updates the store and enqueues the
    log record in two separate steps, so the log order can differ from the order
    in which the store was updated. Replay agrees with the store on a key exactly
    when the two orders end the same on that key, dropped keys set aside, and they
    do as long as no two write windows on it overlap. */
module Interleaving {
  import opened Basics
  import opened Shards
  import opened Stores
  import opened Tokens
  import opened Parser
  import opened Commands
  import opened TimedMap
  import opened Sessions
  import opened Replaying
  import opened KeyRecovery

  /** `pending` holds the record of every worker that has updated the store and not yet enqueued;
      `applied` lists the records in the order the store saw them, `log` in the order enqueued. */
  datatype State = State(store: Store, counters: Counters, pending: map<nat, Stamped>,
                         log: seq<Stamped>, applied: seq<Stamped>)

  datatype Action =
    | Execute(worker: nat, cmd: Command, tick: Tick)
    | Enqueue(worker: nat)
    | Sweeping(shard: nat, now: int, visited: set<string>)

  function Next(h: Hash, s: State, a: Action): State {
    match a
    case Execute(w, cmd, tick) =>
      if w in s.pending then s
      else
        var r := Dispatch(h, s.store, s.counters, cmd, tick);
        if r.log.None? then s.(store := r.store, counters := r.counters)
        else
          var x := Stamped(r.log.value, tick);
          State(r.store, r.counters, s.pending[w := x], s.log, s.applied + [x])
    case Enqueue(w) =>
      if w !in s.pending then s
      else s.(pending := s.pending - {w}, log := s.log + [s.pending[w]])
    case Sweeping(i, now, visited) => s.(store := Apply(h, s.store, Sweep(i, now, visited)))
  }

  function RunAll(h: Hash, maxKeys: nat, actions: seq<Action>): State {
    if actions == [] then State(Fresh(maxKeys), ZERO_COUNTERS, map[], [], [])
    else Next(h, RunAll(h, maxKeys, actions[..|actions| - 1]), actions[|actions| - 1])
  }

  lemma RunAllSnoc(h: Hash, maxKeys: nat, actions: seq<Action>, a: Action)
    ensures RunAll(h, maxKeys, actions + [a]) == Next(h, RunAll(h, maxKeys, actions), a)
  {
    assert (actions + [a])[..|actions + [a]| - 1] == actions;
  }

  /** No write window on `k` is open. */
  predicate Settled(s: State, k: string) {
    forall w :: w in s.pending ==> s.pending[w].record.key != k
  }

  /** `a` opens a write window on `k` while one is open. */
  predicate Overlaps(h: Hash, s: State, a: Action, k: string) {
    && a.Execute? && a.worker !in s.pending && !Settled(s, k)
    && var log := Dispatch(h, s.store, s.counters, a.cmd, a.tick).log;
       log.Some? && log.value.key == k
  }

  /** No two write windows on `k` overlap. */
  predicate NoOverlap(h: Hash, maxKeys: nat, actions: seq<Action>, k: string) {
    actions == []
    || (NoOverlap(h, maxKeys, actions[..|actions| - 1], k)
        && !Overlaps(h, RunAll(h, maxKeys, actions[..|actions| - 1]), actions[|actions| - 1], k))
  }

  lemma NoOverlapSnoc(h: Hash, maxKeys: nat, actions: seq<Action>, a: Action, k: string)
    ensures NoOverlap(h, maxKeys, actions + [a], k)
      <==> NoOverlap(h, maxKeys, actions, k) && !Overlaps(h, RunAll(h, maxKeys, actions), a, k)
  {
    assert (actions + [a])[..|actions + [a]| - 1] == actions;
  }

  // ----- The two orders agree on a key without overlaps -----

  function History(xs: seq<Stamped>, k: string): seq<Stamped> {
    if xs == [] then []
    else History(xs[..|xs| - 1], k) + if xs[|xs| - 1].record.key == k then [xs[|xs| - 1]] else []
  }

  lemma HistorySnoc(xs: seq<Stamped>, x: Stamped, k: string)
    ensures History(xs + [x], k) == History(xs, k) + if x.record.key == k then [x] else []
  {
    assert (xs + [x])[..|xs + [x]| - 1] == xs;
  }

  /** The store has seen of `k` what the log holds and then its one open window, if any. */
  ghost predicate InStep(s: State, k: string) {
    && (forall w, w' :: w in s.pending && w' in s.pending && w != w' && s.pending[w].record.key == k ==>
          s.pending[w'].record.key != k)
    && (forall w :: w in s.pending && s.pending[w].record.key == k ==>
          History(s.applied, k) == History(s.log, k) + [s.pending[w]])
    && (Settled(s, k) ==> History(s.applied, k) == History(s.log, k))
  }

  lemma OpenWindow(s: State, w: nat, x: Stamped, k: string)
    requires InStep(s, k) && w !in s.pending && (x.record.key == k ==> Settled(s, k))
    ensures InStep(s.(pending := s.pending[w := x], applied := s.applied + [x]), k)
  {
    hide History;
    var s' := s.(pending := s.pending[w := x], applied := s.applied + [x]);
    HistorySnoc(s.applied, x, k);
    assert w in s'.pending && s'.pending[w] == x;
    assert forall w' :: w' in s.pending ==> w' in s'.pending && s'.pending[w'] == s.pending[w'];
    if x.record.key != k {
      assert Settled(s', k) ==> Settled(s, k);
      assert History(s'.applied, k) == History(s.applied, k);
    }
  }

  lemma CloseWindow(s: State, w: nat, k: string)
    requires InStep(s, k) && w in s.pending
    ensures InStep(s.(pending := s.pending - {w}, log := s.log + [s.pending[w]]), k)
  {
    hide History;
    var x := s.pending[w];
    var s' := s.(pending := s.pending - {w}, log := s.log + [x]);
    HistorySnoc(s.log, x, k);
    assert forall w' :: w' in s'.pending ==> w' in s.pending && s'.pending[w'] == s.pending[w'] && w' != w;
    if x.record.key == k {
      assert Settled(s', k);
    } else {
      assert forall w' :: w' in s.pending && w' != w ==> w' in s'.pending;
      assert Settled(s', k) ==> Settled(s, k);
      assert History(s'.log, k) == History(s.log, k);
    }
  }

  lemma {:induction false} AlwaysInStep(h: Hash, maxKeys: nat, actions: seq<Action>, k: string)
    requires NoOverlap(h, maxKeys, actions, k)
    ensures InStep(RunAll(h, maxKeys, actions), k)
  {
    if actions != [] {
      hide InStep, Settled;
      var s, a := RunAll(h, maxKeys, actions[..|actions| - 1]), actions[|actions| - 1];
      AlwaysInStep(h, maxKeys, actions[..|actions| - 1], k);
      InStepSame(s, RunAll(h, maxKeys, actions), k);
      if a.Enqueue? && a.worker in s.pending {
        CloseWindow(s, a.worker, k);
      } else if a.Execute? && a.worker !in s.pending {
        var r := Dispatch(h, s.store, s.counters, a.cmd, a.tick);
        if r.log.Some? {
          OpenWindow(s.(store := r.store, counters := r.counters), a.worker, Stamped(r.log.value, a.tick), k);
        }
      }
    } else {
      assert RunAll(h, maxKeys, actions).pending == map[];
    }
  }

  /** The invariant is about windows and records alone. */
  lemma InStepSame(s: State, s': State, k: string)
    requires InStep(s, k)
    ensures InStep(s.(store := s'.store, counters := s'.counters), k)
    ensures Settled(s.(store := s'.store, counters := s'.counters), k) <==> Settled(s, k)
  {
  }

  lemma {:induction false} FinalOfHistory(xs: seq<Stamped>, k: string)
    ensures FinalOf(History(xs, k), k) == FinalOf(xs, k)
  {
    if xs != [] {
      var before, x := xs[..|xs| - 1], xs[|xs| - 1];
      FinalOfHistory(before, k);
      if x.record.key == k {
        FinalOfSnoc(History(before, k), x, k);
      } else {
        assert History(xs, k) == History(before, k);
      }
    }
  }

  // ----- Store and records -----

  /** The store operation a step amounts to, if any. */
  function ActionOp(s: State, a: Action): Option<Op> {
    match a
    case Execute(w, cmd, tick) => if w in s.pending then None else CommandOp(cmd, tick)
    case Enqueue(_) => None
    case Sweeping(i, now, visited) => Some(Sweep(i, now, visited))
  }

  /** `k` was found expired or evicted, and not set since. */
  predicate DroppedBy(h: Hash, maxKeys: nat, actions: seq<Action>, k: string) {
    actions != []
    && var before, a := actions[..|actions| - 1], actions[|actions| - 1];
       var s := RunAll(h, maxKeys, before);
       StillDropped(h, s.store, ActionOp(s, a), k, DroppedBy(h, maxKeys, before, k))
  }

  lemma NextKept(h: Hash, s: State, a: Action, k: string, was: bool)
    requires Kept(was, Lookup(h, s.store, k), FinalOf(s.applied, k))
    ensures var s' := Next(h, s, a);
      Kept(StillDropped(h, s.store, ActionOp(s, a), k, was), Lookup(h, s'.store, k), FinalOf(s'.applied, k))
  {
    hide Kept, Lookup, Dispatch, Apply, FinalOf, Drops;
    if a.Sweeping? {
      SweepKept(h, s.store, Sweep(a.shard, a.now, a.visited), k, was, FinalOf(s.applied, k));
    } else if a.Execute? && a.worker !in s.pending {
      DispatchKept(h, s.store, s.counters, a.cmd, a.tick, k, was, FinalOf(s.applied, k));
      var log := Dispatch(h, s.store, s.counters, a.cmd, a.tick).log;
      if log.Some? {
        FinalOfSnoc(s.applied, Stamped(log.value, a.tick), k);
      }
    }
  }

  /** Whatever is evicted or expires, the store holds of a key what the records left in the order it
      saw them, unless the key is dropped. */
  lemma {:induction false} StoreKept(h: Hash, maxKeys: nat, actions: seq<Action>, k: string)
    ensures var s := RunAll(h, maxKeys, actions);
      Kept(DroppedBy(h, maxKeys, actions, k), Lookup(h, s.store, k), FinalOf(s.applied, k))
  {
    if actions != [] {
      hide Kept, Lookup, StillDropped, Next, FinalOf;
      var before := actions[..|actions| - 1];
      StoreKept(h, maxKeys, before, k);
      NextKept(h, RunAll(h, maxKeys, before), actions[|actions| - 1], k, DroppedBy(h, maxKeys, before, k));
    }
  }

  // ----- How records end on a key -----

  /** The index of the last SET or DEL of `k`. */
  function LastWrite(xs: seq<Stamped>, k: string): (r: Option<nat>)
    ensures r.Some? ==> r.value < |xs| && xs[r.value].record.key == k && !xs[r.value].record.ExpireRecord?
    ensures forall i :: (if r.Some? then r.value < i else 0 <= i) && i < |xs| && xs[i].record.key == k ==>
      xs[i].record.ExpireRecord?
  {
    if xs == [] then None
    else
      var n := |xs| - 1;
      if xs[n].record.key == k && !xs[n].record.ExpireRecord? then Some(n) else LastWrite(xs[..n], k)
  }

  /** Whether `k` is there in the end, its value, and whether it has a deadline. */
  datatype Ending = Gone | Left(value: string, expiring: bool)

  /** The last SET or DEL of `k` decides, and whether an EXPIRE follows it. */
  ghost function EndingOf(xs: seq<Stamped>, k: string): Ending {
    var w := LastWrite(xs, k);
    if w.None? || xs[w.value].record.DelRecord? then Gone
    else Left(xs[w.value].record.value, exists i :: w.value < i < |xs| && xs[i].record.key == k)
  }

  function EntryEnding(e: Option<Entry>): Ending {
    if e.None? then Gone else Left(e.value.value, e.value.deadline.Some?)
  }

  lemma EndingOfSnoc(xs: seq<Stamped>, x: Stamped, k: string)
    ensures var e := EndingOf(xs, k);
      EndingOf(xs + [x], k)
      == if x.record.key != k then e
         else match x.record
           case SetRecord(_, v) => Left(v, false)
           case DelRecord(_) => Gone
           case ExpireRecord(_, _) => if e.Gone? then Gone else Left(e.value, true)
  {
    var all := xs + [x];
    assert all[..|all| - 1] == xs && all[|xs|] == x;
    if x.record.key == k && !x.record.ExpireRecord? {
      assert LastWrite(all, k) == Some(|xs|);
    } else {
      assert LastWrite(all, k) == LastWrite(xs, k);
    }
  }

  lemma {:induction false} EndingIsFinal(xs: seq<Stamped>, k: string)
    ensures EntryEnding(FinalOf(xs, k)) == EndingOf(xs, k)
  {
    if xs != [] {
      var n := |xs| - 1;
      Rejoin(xs);
      EndingIsFinal(xs[..n], k);
      EndingOfSnoc(xs[..n], xs[n], k);
      FinalOfSnoc(xs[..n], xs[n], k);
    }
  }

  lemma {:induction false} EndingSame(xs: seq<Stamped>, ys: seq<Stamped>, k: string)
    requires SameRecords(xs, ys)
    ensures EndingOf(xs, k) == EndingOf(ys, k)
  {
    if xs != [] {
      hide EndingOf;
      var n := |xs| - 1;
      Rejoin(xs);
      Rejoin(ys);
      EndingSame(xs[..n], ys[..n], k);
      EndingOfSnoc(xs[..n], xs[n], k);
      EndingOfSnoc(ys[..n], ys[n], k);
    }
  }

  lemma KeptEnding(dropped: bool, stored: Option<Entry>, xs: seq<Stamped>, k: string)
    requires Kept(dropped, stored, FinalOf(xs, k))
    ensures EntryEnding(stored) == if dropped then Gone else EndingOf(xs, k)
  {
    hide EndingOf, FinalOf;
    EndingIsFinal(xs, k);
  }

  // ----- Recovery -----

  /** How the store ends on `k`: as the records do in its own order, unless `k` is dropped. */
  ghost function StoreEnding(h: Hash, maxKeys: nat, actions: seq<Action>, k: string): Ending {
    if DroppedBy(h, maxKeys, actions, k) then Gone else EndingOf(RunAll(h, maxKeys, actions).applied, k)
  }

  /** Any interleaving, windows overlapping or still open, whatever it evicts and finds expired; any part
      `n` of its log that is on disk; any replay of that part, into a store of any size and at any time.
      Replay performs every line. Store and replayed store agree on a key, its value and whether it has a
      deadline, if and only if the records end on it the same in the order of the store and in the order
      of that part, a key that either store dropped counting as gone there. */
  lemma {:induction false} RecoverExactly(h: Hash, maxKeys: nat, actions: seq<Action>, n: nat, maxKeys': nat,
    ticks: seq<Tick>)
    requires var s := RunAll(h, maxKeys, actions); n == |ticks| <= |s.log| && AllReplayable(s.log[..n])
    ensures var s := RunAll(h, maxKeys, actions);
      var rec, xs := Replay(h, Fresh(maxKeys'), PrintAll(s.log[..n]), ticks), s.log[..n];
      && rec.stats == ReplayStats(n, 0, 0)
      && forall k :: EntryEnding(Lookup(h, s.store, k)) == EntryEnding(Lookup(h, rec.store, k))
                     <==> StoreEnding(h, maxKeys, actions, k)
                          == if Missing(h, maxKeys', Restamp(xs, ticks), k) then Gone else EndingOf(xs, k)
  {
    hide RunAll, Replay, Run, EndingOf, FinalOf, Lookup, Missing, DroppedBy, Kept, EntryEnding;
    var s := RunAll(h, maxKeys, actions);
    var xs := s.log[..n];
    var ys, rec := Restamp(xs, ticks), Replay(h, Fresh(maxKeys'), PrintAll(xs), ticks);
    ReplayIsRun(h, Fresh(maxKeys'), xs, ticks);
    forall k
      ensures EntryEnding(Lookup(h, s.store, k)) == StoreEnding(h, maxKeys, actions, k)
      ensures EntryEnding(Lookup(h, rec.store, k)) == if Missing(h, maxKeys', ys, k) then Gone else EndingOf(xs, k)
    {
      StoreKept(h, maxKeys, actions, k);
      KeptEnding(DroppedBy(h, maxKeys, actions, k), Lookup(h, s.store, k), s.applied, k);
      ReplayKept(h, xs, maxKeys', ticks, k);
      KeptEnding(Missing(h, maxKeys', ys, k), Lookup(h, rec.store, k), ys, k);
      EndingSame(xs, ys, k);
    }
  }

  /** If that part fits the new store and replay is timely, replay drops nothing. */
  lemma {:induction false} RecoverFitting(h: Hash, maxKeys: nat, actions: seq<Action>, n: nat, maxKeys': nat,
    ticks: seq<Tick>)
    requires var s := RunAll(h, maxKeys, actions);
      && n == |ticks| <= |s.log| && AllReplayable(s.log[..n])
      && Fits(h, s.log[..n], PerShard(maxKeys')) && Timely(Restamp(s.log[..n], ticks))
    ensures var s := RunAll(h, maxKeys, actions);
      var rec := Replay(h, Fresh(maxKeys'), PrintAll(s.log[..n]), ticks);
      && Clean(rec.store)
      && forall k :: EntryEnding(Lookup(h, s.store, k)) == EntryEnding(Lookup(h, rec.store, k))
                     <==> StoreEnding(h, maxKeys, actions, k) == EndingOf(s.log[..n], k)
  {
    hide RunAll, Replay, EndingOf, Lookup, Missing, EntryEnding, StoreEnding, Fits, Timely;
    var xs := RunAll(h, maxKeys, actions).log[..n];
    ReplayClean(h, xs, maxKeys', ticks);
    RecoverExactly(h, maxKeys, actions, n, maxKeys', ticks);
    forall k
      ensures !Missing(h, maxKeys', Restamp(xs, ticks), k)
    {
      FittingMissesNothing(h, xs, maxKeys', ticks, k);
    }
  }

  /** Without overlapping windows on `k`, and none left open on it, both orders hold the same records
      on it, so they leave the same. */
  lemma SettledOrders(h: Hash, maxKeys: nat, actions: seq<Action>, k: string)
    requires NoOverlap(h, maxKeys, actions, k) && Settled(RunAll(h, maxKeys, actions), k)
    ensures var s := RunAll(h, maxKeys, actions);
      History(s.applied, k) == History(s.log, k) && FinalOf(s.applied, k) == FinalOf(s.log, k)
  {
    var s := RunAll(h, maxKeys, actions);
    AlwaysInStep(h, maxKeys, actions, k);
    FinalOfHistory(s.applied, k);
    FinalOfHistory(s.log, k);
  }

  /** No two windows on `k` overlapped, none is left open, and all records on it are on disk. */
  ghost predicate Safe(h: Hash, maxKeys: nat, actions: seq<Action>, n: nat, k: string) {
    var s := RunAll(h, maxKeys, actions);
    NoOverlap(h, maxKeys, actions, k) && Settled(s, k) && OnDisk(s.log, n, k)
  }

  /** So on every safe key replay agrees with the store, deadlines counted anew from the logged
      seconds, if and only if both dropped it or neither did. */
  lemma {:induction false} RecoverInterleaved(h: Hash, maxKeys: nat, actions: seq<Action>, n: nat, maxKeys': nat,
    ticks: seq<Tick>)
    requires var s := RunAll(h, maxKeys, actions); n == |ticks| <= |s.log| && AllReplayable(s.log[..n])
    ensures var s := RunAll(h, maxKeys, actions);
      var rec, xs := Replay(h, Fresh(maxKeys'), PrintAll(s.log[..n]), ticks), s.log[..n];
      forall k :: Safe(h, maxKeys, actions, n, k) ==>
        (SameEntry(xs, Restamp(xs, ticks), k, Lookup(h, s.store, k), Lookup(h, rec.store, k))
         <==> (DroppedBy(h, maxKeys, actions, k) <==> Missing(h, maxKeys', Restamp(xs, ticks), k)))
  {
    hide RunAll, Replay, FinalOf, Lookup, SameEntry, NoOverlap, Settled, OnDisk, Kept, Missing, DroppedBy;
    var s := RunAll(h, maxKeys, actions);
    var xs := s.log[..n];
    var rec, ys := Replay(h, Fresh(maxKeys'), PrintAll(xs), ticks), Restamp(xs, ticks);
    forall k | Safe(h, maxKeys, actions, n, k)
      ensures SameEntry(xs, ys, k, Lookup(h, s.store, k), Lookup(h, rec.store, k))
              <==> (DroppedBy(h, maxKeys, actions, k) <==> Missing(h, maxKeys', ys, k))
    {
      StoreKept(h, maxKeys, actions, k);
      ReplayKept(h, xs, maxKeys', ticks, k);
      SettledOrders(h, maxKeys, actions, k);
      FinalOfPart(s.log, n, k);
      KeptAgree(xs, ys, k, DroppedBy(h, maxKeys, actions, k), Lookup(h, s.store, k),
                Missing(h, maxKeys', ys, k), Lookup(h, rec.store, k));
    }
  }

  /** In particular if no windows overlap and all are closed, the log sets no more keys of a shard than
      it has room for, and replay takes less than a second: then exactly the keys that were not dropped
      are recovered. */
  lemma {:induction false} RecoverFewKeys(h: Hash, maxKeys: nat, actions: seq<Action>, ticks: seq<Tick>, t: int)
    requires var s := RunAll(h, maxKeys, actions);
      && (forall k :: NoOverlap(h, maxKeys, actions, k)) && s.pending == map[]
      && AllReplayable(s.log) && |ticks| == |s.log| && Prompt(ticks, t)
      && forall i :: 0 <= i < NUM_SHARDS ==> |KeysSet(h, Ops(s.log), i)| <= PerShard(maxKeys)
    ensures var s := RunAll(h, maxKeys, actions);
      var rec := Replay(h, Fresh(maxKeys), PrintAll(s.log), ticks);
      && rec.stats == ReplayStats(|s.log|, 0, 0) && Clean(rec.store)
      && forall k :: SameEntry(s.log, Restamp(s.log, ticks), k, Lookup(h, s.store, k), Lookup(h, rec.store, k))
                     <==> !DroppedBy(h, maxKeys, actions, k)
  {
    hide Fits, Timely, RunAll, Replay, FinalOf, Lookup, SameEntry, NoOverlap, KeysSet, Ops, Missing, DroppedBy;
    var s := RunAll(h, maxKeys, actions);
    FewKeysFit(h, s.log, PerShard(maxKeys));
    PromptIsTimely(s.log, ticks, t);
    ReplayClean(h, s.log, maxKeys, ticks);
    assert s.log[..|s.log|] == s.log;
    RecoverInterleaved(h, maxKeys, actions, |s.log|, maxKeys, ticks);
    forall k
      ensures Safe(h, maxKeys, actions, |s.log|, k) && !Missing(h, maxKeys, Restamp(s.log, ticks), k)
    {
      FittingMissesNothing(h, s.log, maxKeys, ticks, k);
    }
  }

  // ----- Overlapping windows -----

  /** Two workers set the same key, the later one enqueues first. */
  function Race(k: string, v: string, v': string, w: nat, w': nat, t: Tick): seq<Action> {
    [Execute(w, Command(SET, [k, v]), t), Execute(w', Command(SET, [k, v']), t), Enqueue(w'), Enqueue(w)]
  }

  lemma RaceRuns(h: Hash, maxKeys: nat, past: seq<Action>, k: string, v: string, v': string, w: nat, w': nat, t: Tick)
    requires var s := RunAll(h, maxKeys, past); w != w' && w !in s.pending && w' !in s.pending
    ensures var s, e := RunAll(h, maxKeys, past), RunAll(h, maxKeys, past + Race(k, v, v', w, w', t));
      var x, x' := Stamped(SetRecord(k, v), t), Stamped(SetRecord(k, v'), t);
      && e.applied == s.applied + [x] + [x'] && e.log == s.log + [x'] + [x]
      && e.store == Apply(h, Apply(h, s.store, Set(k, v)), Set(k, v'))
  {
    hide Apply;
    var race := Race(k, v, v', w, w', t);
    RunAllSnoc(h, maxKeys, past, race[0]);
    RunAllSnoc(h, maxKeys, past + [race[0]], race[1]);
    RunAllSnoc(h, maxKeys, past + [race[0]] + [race[1]], race[2]);
    RunAllSnoc(h, maxKeys, past + [race[0]] + [race[1]] + [race[2]], race[3]);
    assert past + [race[0]] + [race[1]] + [race[2]] + [race[3]] == past + race;
  }

  lemma SetKey(h: Hash, st: Store, k: string, v: string)
    ensures Lookup(h, Apply(h, st, Set(k, v)), k) == Some(Entry(v, None))
  {
  }

  /** After any past, two racing sets of one key end differently in the two orders: the store holds
      the later value, the replayed store the earlier one, so they agree only if these are equal. */
  lemma {:induction false} OverlapBreaksRecovery(h: Hash, maxKeys: nat, past: seq<Action>, k: string, v: string,
                                                 v': string, w: nat, w': nat, t: Tick, maxKeys': nat, ticks: seq<Tick>)
    requires var s := RunAll(h, maxKeys, past); w != w' && w !in s.pending && w' !in s.pending
    requires Loggable(k) && Loggable(v)
    requires |ticks| == |RunAll(h, maxKeys, past + Race(k, v, v', w, w', t)).log|
    ensures var s := RunAll(h, maxKeys, past + Race(k, v, v', w, w', t));
      var rec := Replay(h, Fresh(maxKeys'), PrintAll(s.log), ticks);
      && EndingOf(s.applied, k) == Left(v', false) && EndingOf(s.log, k) == Left(v, false)
      && Lookup(h, s.store, k) == Some(Entry(v', None)) && Lookup(h, rec.store, k) == Some(Entry(v, None))
  {
    hide Lookup, Apply, EndingOf, RunAll, Decode, Print;
    RaceRuns(h, maxKeys, past, k, v, v', w, w', t);
    var s0, s := RunAll(h, maxKeys, past), RunAll(h, maxKeys, past + Race(k, v, v', w, w', t));
    var n, lines := |s.log| - 1, PrintAll(s.log);
    var x, x' := Stamped(SetRecord(k, v), t), Stamped(SetRecord(k, v'), t);
    EndingOfSnoc(s0.applied + [x], x', k);
    EndingOfSnoc(s0.log + [x'], x, k);
    DecodeUndoesPrint(SetRecord(k, v));
    assert lines[n] == Print(SetRecord(k, v));
    SetKey(h, Apply(h, s0.store, Set(k, v)), k, v');
    SetKey(h, Replay(h, Fresh(maxKeys'), lines[..n], ticks[..n]).store, k, v);
  }
}
