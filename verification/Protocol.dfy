/** The server's answers: a session's responses are those of the flat timed map, and
    its counters count what they say. */
module Protocol {
  import opened Shards
  import opened Stores
  import opened Decimal
  import opened Parser
  import opened Commands
  import opened TimedMap
  import opened Sessions

  // ----- Responses -----

  /** What a client of one flat timed map is told. */
  function FlatResponse(m: FlatMap, cmd: Command, tick: Tick): Response {
    var live := cmd.args != [] && Live(m, cmd.args[0], tick.first);
    match cmd.kind
    case PING => Pong
    case SET => if |cmd.args| < 2 then Error("wrong number of arguments for 'set' command") else Okay
    case GET =>
      if cmd.args == [] then Error("wrong number of arguments for 'get' command")
      else if live then Text(m[cmd.args[0]].value)
      else Nil
    case DEL => if cmd.args == [] then Error("wrong number of arguments for 'del' command") else Integer(Tally(live))
    case EXPIRE =>
      if |cmd.args| < 2 then Error("wrong number of arguments for 'expire' command")
      else if Stoll(cmd.args[1]).None? then Error("value is not an integer or out of range")
      else Integer(Tally(live && Stoll(cmd.args[1]).value >= 0))
    case TTL =>
      if cmd.args == [] then Error("wrong number of arguments for 'ttl' command")
      else if !live then Integer(-2)
      else if m[cmd.args[0]].deadline.None? then Integer(-1)
      else Integer(Int32(Remaining(m[cmd.args[0]].deadline.value, tick.second)))
    case _ => Error("unknown command")
  }

  lemma ResponseIsFlat(h: Hash, st: Store, c: Counters, cmd: Command, tick: Tick, m: FlatMap)
    requires cmd.kind != STATS
    requires var op := CommandOp(cmd, tick); op.Some? ==> At(h, st, op.value).answer == FlatAnswer(m, op.value)
    ensures Dispatch(h, st, c, cmd, tick).response == FlatResponse(m, cmd, tick)
  {
    hide WrongArguments, Stoll, Step;
    WrongTexts();
  }

  lemma WrongTexts()
    ensures WrongArguments("set") == Error("wrong number of arguments for 'set' command")
    ensures WrongArguments("get") == Error("wrong number of arguments for 'get' command")
    ensures WrongArguments("del") == Error("wrong number of arguments for 'del' command")
    ensures WrongArguments("expire") == Error("wrong number of arguments for 'expire' command")
    ensures WrongArguments("ttl") == Error("wrong number of arguments for 'ttl' command")
  {
    hide WrongArguments;
    WrongSet();
    WrongGet();
    WrongDel();
    WrongExpire();
    WrongTtl();
  }

  lemma WrongSet()
    ensures WrongArguments("set") == Error("wrong number of arguments for 'set' command")
  {
  }

  lemma WrongGet()
    ensures WrongArguments("get") == Error("wrong number of arguments for 'get' command")
  {
  }

  lemma WrongDel()
    ensures WrongArguments("del") == Error("wrong number of arguments for 'del' command")
  {
  }

  lemma WrongExpire()
    ensures WrongArguments("expire") == Error("wrong number of arguments for 'expire' command")
  {
  }

  lemma WrongTtl()
    ensures WrongArguments("ttl") == Error("wrong number of arguments for 'ttl' command")
  {
  }

  /** The response to event `j` of a session. */
  function ResponseAt(h: Hash, maxKeys: nat, events: seq<Event>, j: nat): Response
    requires j < |events| && events[j].Ask?
  {
    var s := ServeAll(h, maxKeys, events[..j]);
    Dispatch(h, s.store, s.counters, events[j].cmd, events[j].tick).response
  }

  lemma {:induction false} EventOpsPrefix(events: seq<Event>, j: nat)
    requires j <= |events|
    ensures EventOps(events[..j]) <= EventOps(events)
  {
    if j == |events| {
      assert events[..j] == events;
    } else {
      assert events[..|events| - 1][..j] == events[..j];
      EventOpsPrefix(events[..|events| - 1], j);
    }
  }

  /** In every session without evictions, on a clock that does not go back, every response but
      that of `STATS` is the flat map's, sweeps anywhere. */
  lemma {:induction false} ResponsesAreFlat(h: Hash, maxKeys: nat, events: seq<Event>, t: int, j: nat)
    requires Monotone(t, EventOps(events)) && ServeAll(h, maxKeys, events).store.evicted == 0
    requires j < |events| && events[j].Ask? && events[j].cmd.kind != STATS
    ensures ResponseAt(h, maxKeys, events, j)
      == FlatResponse(FlatRun(EventOps(events[..j])), events[j].cmd, events[j].tick)
  {
    var before, e, s := events[..j], events[j], ServeAll(h, maxKeys, events[..j]);
    SessionIsOps(h, maxKeys, events);
    SessionIsOps(h, maxKeys, before);
    var op := EventOp(e);
    if op.Some? {
      EventOpsPrefix(events, j + 1);
      assert events[..j + 1][..j] == before;
      var ops := EventOps(before);
      assert EventOps(events)[..|ops|] == ops && EventOps(events)[|ops|] == op.value;
      FlatAnswerAt(h, maxKeys, EventOps(events), t, |ops|);
    }
    ResponseIsFlat(h, s.store, s.counters, e.cmd, e.tick, FlatRun(EventOps(before)));
  }

  // ----- Counters -----

  function Count(events: seq<Event>, p: Event -> bool): nat {
    if events == [] then 0 else Count(events[..|events| - 1], p) + Tally(p(events[|events| - 1]))
  }

  predicate Asks(e: Event) { e.Ask? }

  predicate Gets(e: Event) { e.Ask? && e.cmd.kind == GET && e.cmd.args != [] }

  predicate Writes(e: Event) {
    e.Ask? && ((e.cmd.kind == SET && |e.cmd.args| >= 2) || (e.cmd.kind == DEL && e.cmd.args != []))
  }

  /** How many `get`s of the session answered with a value. */
  function Hits(h: Hash, maxKeys: nat, events: seq<Event>): nat {
    if events == [] then 0
    else
      var n := |events| - 1;
      Hits(h, maxKeys, events[..n])
      + Tally(Gets(events[n]) && ResponseAt(h, maxKeys, events, n).Text?)
  }

  lemma DispatchCounts(h: Hash, st: Store, c: Counters, e: Event)
    requires e.Ask?
    ensures var r := Dispatch(h, st, c, e.cmd, e.tick);
      var hit := Gets(e) && r.response.Text?;
      r.counters == Counters(c.requests + 1, c.gets + Tally(Gets(e)), c.writes + Tally(Writes(e)),
                             c.hits + Tally(hit), c.misses + Tally(Gets(e)) - Tally(hit))
  {
  }

  /** The five counters: requests, gets, writes, hits, and misses as the gets that were no hit. */
  lemma {:induction false} CountersCount(h: Hash, maxKeys: nat, events: seq<Event>)
    ensures var c := ServeAll(h, maxKeys, events).counters;
      && c.requests == Count(events, Asks) && c.gets == Count(events, Gets) && c.writes == Count(events, Writes)
      && c.hits == Hits(h, maxKeys, events) && c.hits + c.misses == c.gets
  {
    if events != [] {
      var before, e := events[..|events| - 1], events[|events| - 1];
      CountersCount(h, maxKeys, before);
      if e.Ask? {
        var s := ServeAll(h, maxKeys, before);
        DispatchCounts(h, s.store, s.counters, e);
      }
    }
  }

  // ----- STATS -----

  /** What STATS reports after a session: the counts of requests, itself included, gets, writes, hits and
      misses, of entries found expired and of evictions, and how many keys there are. */
  lemma {:induction false} StatsReport(h: Hash, maxKeys: nat, events: seq<Event>, tick: Tick)
    ensures var s, ops := ServeAll(h, maxKeys, events), EventOps(events);
      var r := Dispatch(h, s.store, s.counters, Command(STATS, []), tick).response;
      && r.Stats?
      && r.counters.requests == Count(events, Asks) + 1 && r.counters.gets == Count(events, Gets)
      && r.counters.writes == Count(events, Writes) && r.counters.hits == Hits(h, maxKeys, events)
      && r.counters.hits + r.counters.misses == r.counters.gets
      && r.expired == Expiries(h, Fresh(maxKeys), ops) && r.evicted == Evictions(h, Fresh(maxKeys), ops)
      && Insertions(h, Fresh(maxKeys), ops)
         == r.keys + r.evicted + r.expired + Deletions(h, Fresh(maxKeys), ops)
  {
    CountersCount(h, maxKeys, events);
    SessionIsOps(h, maxKeys, events);
    FreshValid(h, maxKeys);
    CountersMean(h, Fresh(maxKeys), EventOps(events));
    KeysConserved(h, maxKeys, EventOps(events));
  }

  /** Integer responses are right inside 32 bits, and congruent to what they should be outside. */
  lemma Int32Means(n: int)
    ensures -2147483648 <= Int32(n) <= 2147483647 && (Int32(n) - n) % 4294967296 == 0
    ensures Int32(n) == n <==> -2147483648 <= n <= 2147483647
  {
  }
}
