/** Sessions: commands served one at a time, with sweeps in between, and the log
    they leave. */
module Sessions {
  import opened Basics
  import opened Shards
  import opened Stores
  import opened Decimal
  import opened Parser
  import opened Commands

  /** A logged record and the clock readings of the command that caused it. */
  datatype Stamped = Stamped(record: Record, tick: Tick)

  function StampedOp(x: Stamped): Op { RecordOp(x.record, x.tick) }

  function Ops(xs: seq<Stamped>): seq<Op> {
    seq(|xs|, i requires 0 <= i < |xs| => StampedOp(xs[i]))
  }

  /** The lines of a log. */
  function PrintAll(xs: seq<Stamped>): seq<string> {
    seq(|xs|, i requires 0 <= i < |xs| => Print(xs[i].record))
  }

  /** The same records at other clock readings. */
  function Restamp(xs: seq<Stamped>, ticks: seq<Tick>): (ys: seq<Stamped>)
    requires |xs| == |ticks|
    ensures |ys| == |xs|
  {
    seq(|xs|, i requires 0 <= i < |xs| => Stamped(xs[i].record, ticks[i]))
  }

  ghost predicate SameRecords(xs: seq<Stamped>, ys: seq<Stamped>) {
    |xs| == |ys| && forall i :: 0 <= i < |xs| ==> xs[i].record == ys[i].record
  }

  lemma OpsSnoc(h: Hash, st: Store, xs: seq<Stamped>, x: Stamped)
    ensures Run(h, st, Ops(xs + [x])) == Apply(h, Run(h, st, Ops(xs)), StampedOp(x))
  {
    assert Ops(xs + [x]) == Ops(xs) + [StampedOp(x)];
    RunSnoc(h, st, Ops(xs), StampedOp(x));
  }

  // ----- Serving -----

  /** What happens to a server one thing at a time. */
  datatype Event = Ask(cmd: Command, tick: Tick) | Background(shard: nat, now: int, visited: set<string>)

  datatype Session = Session(store: Store, counters: Counters, log: seq<Stamped>)

  function Serve(h: Hash, s: Session, e: Event): Session {
    match e
    case Background(i, now, visited) => s.(store := Apply(h, s.store, Sweep(i, now, visited)))
    case Ask(cmd, tick) =>
      var r := Dispatch(h, s.store, s.counters, cmd, tick);
      Session(r.store, r.counters, s.log + Logs(r.log, tick))
  }

  function Logs(log: Option<Record>, tick: Tick): seq<Stamped> {
    if log.Some? then [Stamped(log.value, tick)] else []
  }

  function ServeAll(h: Hash, maxKeys: nat, events: seq<Event>): Session {
    if events == [] then Session(Fresh(maxKeys), ZERO_COUNTERS, [])
    else Serve(h, ServeAll(h, maxKeys, events[..|events| - 1]), events[|events| - 1])
  }

  lemma ServeSnoc(h: Hash, maxKeys: nat, events: seq<Event>, e: Event)
    ensures ServeAll(h, maxKeys, events + [e]) == Serve(h, ServeAll(h, maxKeys, events), e)
  {
    assert (events + [e])[..|events + [e]| - 1] == events;
  }

  lemma ServeGrows(h: Hash, s: Session, e: Event)
    ensures var s' := Serve(h, s, e);
      && s'.store.expired >= s.store.expired && s'.store.evicted >= s.store.evicted
      && s'.counters.hits >= s.counters.hits && s'.store.cap == s.store.cap
  {
  }

  /** The store operation a command amounts to, if any. */
  function CommandOp(cmd: Command, tick: Tick): Option<Op> {
    match cmd.kind
    case SET => if |cmd.args| < 2 then None else Some(Set(cmd.args[0], cmd.args[1]))
    case GET => if cmd.args == [] then None else Some(Get(cmd.args[0], tick.first))
    case DEL => if cmd.args == [] then None else Some(Del(cmd.args[0], tick.first))
    case TTL => if cmd.args == [] then None else Some(Ttl(cmd.args[0], tick.first, tick.second))
    case EXPIRE =>
      if |cmd.args| < 2 || Stoll(cmd.args[1]).None? then None
      else Some(Expire(cmd.args[0], Stoll(cmd.args[1]).value, tick.first, tick.second))
    case _ => None
  }

  function EventOp(e: Event): Option<Op> {
    match e
    case Background(i, now, visited) => Some(Sweep(i, now, visited))
    case Ask(cmd, tick) => CommandOp(cmd, tick)
  }

  function EventOps(events: seq<Event>): seq<Op> {
    if events == [] then []
    else
      var op := EventOp(events[|events| - 1]);
      EventOps(events[..|events| - 1]) + if op.Some? then [op.value] else []
  }

  /** What a command does to the store and what it logs, in terms of its operation: it logs the
      operation itself, when that set a key, deleted one or gave one a deadline. */
  lemma DispatchOp(h: Hash, st: Store, c: Counters, cmd: Command, tick: Tick)
    ensures var r, op := Dispatch(h, st, c, cmd, tick), CommandOp(cmd, tick);
      && (op.None? ==> r.store == st && r.log.None?)
      && (op.Some? ==>
            && r.store == Apply(h, st, op.value)
            && (r.log.Some? <==> op.value.Set? || At(h, st, op.value).answer == Flag(true))
            && (r.log.Some? ==> op.value == RecordOp(r.log.value, tick)))
  {
  }

  /** An operation that logs nothing and finds nothing expired leaves every entry as it was. */
  lemma UnloggedKeepsData(h: Hash, st: Store, op: Op, i: nat)
    requires i < NUM_SHARDS && !op.Set? && !op.SetTtl?
    requires At(h, st, op).expired == 0 && At(h, st, op).answer != Flag(true)
    ensures Apply(h, st, op).shards[i].data == st.shards[i].data
    ensures At(h, st, op).evicted == 0
  {
    var s := st.shards[Home(h, op)];
    if op.Sweep? {
      assert Swept(s, op.now, op.visited) == {};
      assert s.data - {} == s.data;
    } else if op.Get? && op.key in s.data {
      assert s.data[op.key := s.data[op.key]] == s.data;
    }
  }

  lemma {:induction false} SessionIsOps(h: Hash, maxKeys: nat, events: seq<Event>)
    ensures ServeAll(h, maxKeys, events).store == Run(h, Fresh(maxKeys), EventOps(events))
  {
    if events != [] {
      var before, e := events[..|events| - 1], events[|events| - 1];
      SessionIsOps(h, maxKeys, before);
      var s := ServeAll(h, maxKeys, before);
      if e.Ask? {
        DispatchOp(h, s.store, s.counters, e.cmd, e.tick);
      }
      if EventOp(e).Some? {
        RunSnoc(h, Fresh(maxKeys), EventOps(before), EventOp(e).value);
      } else {
        assert EventOps(events) == EventOps(before);
      }
    }
  }

  lemma SessionValid(h: Hash, maxKeys: nat, events: seq<Event>)
    ensures StoreValid(h, ServeAll(h, maxKeys, events).store)
    ensures ServeAll(h, maxKeys, events).store.cap == PerShard(maxKeys)
  {
    SessionIsOps(h, maxKeys, events);
    RunValid(h, Fresh(maxKeys), EventOps(events));
  }
}
