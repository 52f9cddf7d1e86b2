/** Commands on the store as functions: dispatch, which applies a command and says
    what to log, and replay, which reads logged lines back into a store. */
module Commands {
  import opened Basics
  import opened Shards
  import opened Stores
  import opened Decimal
  import opened Parser

  /** The clock readings a command may take, in order. */
  datatype Tick = Tick(first: int, second: int)

  datatype Counters = Counters(requests: nat, gets: nat, writes: nat, hits: nat, misses: nat)

  const ZERO_COUNTERS := Counters(0, 0, 0, 0, 0)

  datatype Response =
    | Pong
    | Okay
    | Text(text: string)
    | Nil
    | Integer(n: int)
    | Error(message: string)
    | Stats(counters: Counters, expired: nat, evicted: nat, keys: nat)

  /** What one command does; `log` is the record handed to the log writer. */
  datatype Reply = Reply(store: Store, counters: Counters, response: Response, log: Option<Record>)

  /** Integer responses are 32 bits wide; wider values wrap around. */
  function Int32(n: int): int { (n + 0x8000_0000) % 0x1_0000_0000 - 0x8000_0000 }

  function WrongArguments(name: string): Response {
    Error("wrong number of arguments for '" + name + "' command")
  }

  // One function a command that touches the store; `c` already counts the request.

  function SetReply(h: Hash, st: Store, c: Counters, args: seq<string>): Reply {
    if |args| < 2 then Reply(st, c, WrongArguments("set"), None)
    else Reply(Apply(h, st, Set(args[0], args[1])), c.(writes := c.writes + 1), Okay,
               Some(SetRecord(args[0], args[1])))
  }

  function GetReply(h: Hash, st: Store, c: Counters, args: seq<string>, tick: Tick): Reply {
    if args == [] then Reply(st, c, WrongArguments("get"), None)
    else
      var op := Get(args[0], tick.first);
      var found := At(h, st, op).answer;
      var c := c.(gets := c.gets + 1);
      if found.Found? && found.result.Some?
      then Reply(Apply(h, st, op), c.(hits := c.hits + 1), Text(found.result.value), None)
      else Reply(Apply(h, st, op), c.(misses := c.misses + 1), Nil, None)
  }

  function DelReply(h: Hash, st: Store, c: Counters, args: seq<string>, tick: Tick): Reply {
    if args == [] then Reply(st, c, WrongArguments("del"), None)
    else
      var op := Del(args[0], tick.first);
      var deleted := At(h, st, op).answer == Flag(true);
      Reply(Apply(h, st, op), c.(writes := c.writes + 1), Integer(Tally(deleted)),
            if deleted then Some(DelRecord(args[0])) else None)
  }

  function ExpireReply(h: Hash, st: Store, c: Counters, args: seq<string>, tick: Tick): Reply {
    if |args| < 2 then Reply(st, c, WrongArguments("expire"), None)
    else if Stoll(args[1]).None? then Reply(st, c, Error("value is not an integer or out of range"), None)
    else
      var secs := Stoll(args[1]).value;
      var op := Expire(args[0], secs, tick.first, tick.second);
      var done := At(h, st, op).answer == Flag(true);
      Reply(Apply(h, st, op), c, Integer(Tally(done)),
            if done then Some(ExpireRecord(args[0], secs)) else None)
  }

  function TtlReply(h: Hash, st: Store, c: Counters, args: seq<string>, tick: Tick): Reply {
    if args == [] then Reply(st, c, WrongArguments("ttl"), None)
    else
      var op := Ttl(args[0], tick.first, tick.second);
      var answer := At(h, st, op).answer;
      Reply(Apply(h, st, op), c, Integer(if answer.Number? then Int32(answer.n) else 0), None)
  }

  /** The response to a command that leaves the store alone. */
  function PlainResponse(st: Store, c: Counters, kind: Kind): Response {
    match kind
    case PING => Pong
    case STATS => Stats(c, st.expired, st.evicted, Size(st.shards))
    case _ => Error("unknown command")
  }

  function Dispatch(h: Hash, st: Store, counters: Counters, cmd: Command, tick: Tick): Reply {
    var c := counters.(requests := counters.requests + 1);
    match cmd.kind
    case SET => SetReply(h, st, c, cmd.args)
    case GET => GetReply(h, st, c, cmd.args, tick)
    case DEL => DelReply(h, st, c, cmd.args, tick)
    case EXPIRE => ExpireReply(h, st, c, cmd.args, tick)
    case TTL => TtlReply(h, st, c, cmd.args, tick)
    case _ => Reply(st, c, PlainResponse(st, c, cmd.kind), None)
  }

  // ----- Replay -----

  datatype ReplayStats = ReplayStats(replayed: nat, skipped: nat, errors: nat)

  const ZERO_STATS := ReplayStats(0, 0, 0)

  /** What replay makes of a line. */
  datatype Decoded = Perform(record: Record) | Skip | Fail

  function Decode(line: string): Decoded {
    if line == "" then Skip
    else
      var cmd := Parse(line);
      match cmd.kind
      case SET => if |cmd.args| >= 2 then Perform(SetRecord(cmd.args[0], cmd.args[1])) else Fail
      case DEL => if cmd.args != [] then Perform(DelRecord(cmd.args[0])) else Fail
      case EXPIRE =>
        if |cmd.args| < 2 || Stoll(cmd.args[1]).None? || Stoll(cmd.args[1]).value <= 0 then Fail
        else Perform(ExpireRecord(cmd.args[0], Stoll(cmd.args[1]).value))
      case _ => Skip
  }

  function RecordOp(r: Record, tick: Tick): Op {
    match r
    case SetRecord(k, v) => Set(k, v)
    case DelRecord(k) => Del(k, tick.first)
    case ExpireRecord(k, secs) => Expire(k, secs, tick.first, tick.second)
  }

  datatype Recovery = Recovery(store: Store, stats: ReplayStats)

  function ReplayLine(h: Hash, rec: Recovery, line: string, tick: Tick): Recovery {
    match Decode(line)
    case Perform(r) =>
      Recovery(Apply(h, rec.store, RecordOp(r, tick)), rec.stats.(replayed := rec.stats.replayed + 1))
    case Skip => rec.(stats := rec.stats.(skipped := rec.stats.skipped + 1))
    case Fail => rec.(stats := rec.stats.(errors := rec.stats.errors + 1))
  }

  function Replay(h: Hash, st: Store, lines: seq<string>, ticks: seq<Tick>): Recovery
    requires |ticks| == |lines|
  {
    if lines == [] then Recovery(st, ZERO_STATS)
    else
      var n := |lines| - 1;
      ReplayLine(h, Replay(h, st, lines[..n], ticks[..n]), lines[n], ticks[n])
  }
}
