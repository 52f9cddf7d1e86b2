/** The dispatcher and the replay loop as the program runs them. */
module Dispatcher {
  import opened Stores
  import opened Decimal
  import opened Parser
  import opened Storage
  import opened LogWriter
  import opened Commands

  class CommandDispatcher {
    const storage: ShardedStorage
    const writer: AofWriter?
    var totalRequests: nat
    var totalReads: nat
    var totalWrites: nat
    var cacheHits: nat
    var cacheMisses: nat

    ghost predicate Ready()
      reads this, storage, storage.shards, writer
    {
      storage.Consistent() && (writer != null ==> writer.Counted())
    }

    function CountersView(): Counters
      reads this
    {
      Counters(totalRequests, totalReads, totalWrites, cacheHits, cacheMisses)
    }

    constructor (storage: ShardedStorage, writer: AofWriter?)
      requires storage.Consistent() && (writer != null ==> writer.Counted())
      ensures Ready() && this.storage == storage && this.writer == writer && CountersView() == ZERO_COUNTERS
    {
      this.storage, this.writer := storage, writer;
      totalRequests, totalReads, totalWrites, cacheHits, cacheMisses := 0, 0, 0, 0, 0;
    }

    /** Store, counters, response and log are those of `r`. */
    twostate predicate Did(r: Reply, response: Response)
      reads this, storage, storage.shards, writer
      requires storage.Consistent()
    {
      && storage.View() == r.store && CountersView() == r.counters && response == r.response
      && (writer != null ==> writer.View() == AfterLog(old(writer.View()), r.log))
    }

    method DispatchSet(args: seq<string>) returns (response: Response)
      requires Ready()
      modifies this, storage, storage.shards, writer
      ensures Ready()
      ensures Did(SetReply(storage.hash, old(storage.View()), old(CountersView()), args), response)
    {
      hide Joined, StoreValid, Views, Apply, At, Ordered, LogWriter.Next;
      if |args| < 2 {
        return WrongArguments("set");
      }
      totalWrites := totalWrites + 1;
      storage.Set(args[0], args[1]);
      if writer != null {
        writer.LogSet(args[0], args[1]);
      }
      response := Okay;
    }

    method DispatchGet(args: seq<string>, tick: Tick) returns (response: Response)
      requires Ready()
      modifies this, storage, storage.shards, writer
      ensures Ready()
      ensures Did(GetReply(storage.hash, old(storage.View()), old(CountersView()), args, tick), response)
    {
      hide Joined, StoreValid, Views, Apply, At, Ordered, LogWriter.Next;
      if args == [] {
        return WrongArguments("get");
      }
      totalReads := totalReads + 1;
      var value := storage.Get(args[0], tick.first);
      if value.Some? {
        cacheHits := cacheHits + 1;
        response := Text(value.value);
      } else {
        cacheMisses := cacheMisses + 1;
        response := Nil;
      }
    }

    method DispatchDel(args: seq<string>, tick: Tick) returns (response: Response)
      requires Ready()
      modifies this, storage, storage.shards, writer
      ensures Ready()
      ensures Did(DelReply(storage.hash, old(storage.View()), old(CountersView()), args, tick), response)
    {
      hide Joined, StoreValid, Views, Apply, At, Ordered, LogWriter.Next;
      if args == [] {
        return WrongArguments("del");
      }
      totalWrites := totalWrites + 1;
      var deleted := storage.Del(args[0], tick.first);
      if deleted && writer != null {
        writer.LogDel(args[0]);
      }
      response := Integer(if deleted then 1 else 0);
    }

    method DispatchExpire(args: seq<string>, tick: Tick) returns (response: Response)
      requires Ready()
      modifies this, storage, storage.shards, writer
      ensures Ready()
      ensures Did(ExpireReply(storage.hash, old(storage.View()), old(CountersView()), args, tick), response)
    {
      hide Joined, StoreValid, Views, Apply, At, Ordered, LogWriter.Next;
      if |args| < 2 {
        return WrongArguments("expire");
      }
      var parsed := Stoll(args[1]);
      if parsed.None? {
        return Error("value is not an integer or out of range");
      }
      var success := storage.Expire(args[0], parsed.value, tick.first, tick.second);
      if success && writer != null {
        writer.LogExpire(args[0], parsed.value);
      }
      response := Integer(if success then 1 else 0);
    }

    method DispatchTtl(args: seq<string>, tick: Tick) returns (response: Response)
      requires Ready()
      modifies this, storage, storage.shards, writer
      ensures Ready()
      ensures Did(TtlReply(storage.hash, old(storage.View()), old(CountersView()), args, tick), response)
    {
      hide Joined, StoreValid, Views, Apply, At, Ordered, LogWriter.Next;
      if args == [] {
        return WrongArguments("ttl");
      }
      var secs := storage.Ttl(args[0], tick.first, tick.second);
      response := Integer(Int32(secs));
    }

    method Dispatch(cmd: Command, tick: Tick) returns (response: Response)
      requires Ready()
      modifies this, storage, storage.shards, writer
      ensures Ready()
      ensures Did(Commands.Dispatch(storage.hash, old(storage.View()), old(CountersView()), cmd, tick), response)
    {
      hide Joined, StoreValid, Views, SetReply, GetReply, DelReply, ExpireReply, TtlReply, PlainResponse;
      totalRequests := totalRequests + 1;
      match cmd.kind
      case SET => response := DispatchSet(cmd.args);
      case GET => response := DispatchGet(cmd.args, tick);
      case DEL => response := DispatchDel(cmd.args, tick);
      case EXPIRE => response := DispatchExpire(cmd.args, tick);
      case TTL => response := DispatchTtl(cmd.args, tick);
      case _ => response := DispatchPlain(cmd.kind);
    }

    method DispatchPlain(kind: Kind) returns (response: Response)
      requires Ready() && kind in {PING, STATS, UNKNOWN}
      ensures response == PlainResponse(storage.View(), CountersView(), kind)
    {
      if kind == PING {
        response := Pong;
      } else if kind == STATS {
        var keys := storage.Count();
        response := Stats(CountersView(), storage.expiredKeys, storage.evictedKeys, keys);
      } else {
        response := Error("unknown command");
      }
    }
  }

  /** Replay of a log into a store. */
  method ReplayInto(storage: ShardedStorage, lines: seq<string>, ticks: seq<Tick>) returns (stats: ReplayStats)
    requires storage.Consistent() && |ticks| == |lines|
    modifies storage, storage.shards
    ensures storage.Consistent()
    ensures Recovery(storage.View(), stats) == Replay(storage.hash, old(storage.View()), lines, ticks)
  {
    stats := ZERO_STATS;
    for i := 0 to |lines|
      invariant storage.Consistent()
      invariant Recovery(storage.View(), stats)
        == Replay(storage.hash, old(storage.View()), lines[..i], ticks[..i])
    {
      assert lines[..i + 1][..i] == lines[..i] && ticks[..i + 1][..i] == ticks[..i];
      stats := ReplayOne(storage, stats, lines[i], ticks[i]);
    }
    assert lines[..|lines|] == lines && ticks[..|lines|] == ticks;
  }

  method ReplayOne(storage: ShardedStorage, stats: ReplayStats, line: string, tick: Tick)
    returns (stats': ReplayStats)
    requires storage.Consistent()
    modifies storage, storage.shards
    ensures storage.Consistent()
    ensures Recovery(storage.View(), stats')
      == ReplayLine(storage.hash, Recovery(old(storage.View()), stats), line, tick)
  {
    var decoded := DecodeLine(line);
    match decoded
    case Skip => stats' := stats.(skipped := stats.skipped + 1);
    case Fail => stats' := stats.(errors := stats.errors + 1);
    case Perform(record) =>
      PerformRecord(storage, record, tick);
      stats' := stats.(replayed := stats.replayed + 1);
  }

  method DecodeLine(line: string) returns (decoded: Decoded)
    ensures decoded == Decode(line)
  {
    if line == "" {
      return Skip;
    }
    var cmd := ParseCommand(line);
    match cmd.kind
    case SET =>
      decoded := if |cmd.args| >= 2 then Perform(SetRecord(cmd.args[0], cmd.args[1])) else Fail;
    case DEL =>
      decoded := if cmd.args != [] then Perform(DelRecord(cmd.args[0])) else Fail;
    case EXPIRE =>
      if |cmd.args| < 2 {
        return Fail;
      }
      var secs := Stoll(cmd.args[1]);
      decoded := if secs.Some? && secs.value > 0 then Perform(ExpireRecord(cmd.args[0], secs.value)) else Fail;
    case _ =>
      decoded := Skip;
  }

  method PerformRecord(storage: ShardedStorage, record: Record, tick: Tick)
    requires storage.Consistent()
    modifies storage, storage.shards
    ensures storage.Consistent()
    ensures storage.View() == Apply(storage.hash, old(storage.View()), RecordOp(record, tick))
  {
    match record
    case SetRecord(k, v) => storage.Set(k, v);
    case DelRecord(k) => var _ := storage.Del(k, tick.first);
    case ExpireRecord(k, secs) => var _ := storage.Expire(k, secs, tick.first, tick.second);
  }
}
