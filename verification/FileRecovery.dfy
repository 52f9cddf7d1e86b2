/** From request lines to the rebuilt store. Requests and the writer thread take
    their steps in any order; the text of the file is replayed, at any moment. */
module FileRecovery {
  import opened Basics
  import opened Stores
  import opened Tokens
  import opened Decimal
  import opened Parser
  import opened Commands
  import opened Sessions
  import opened Replaying
  import opened ExactRecovery
  import opened KeyRecovery
  import opened Lines
  import LogWriter

  // ----- What clients may send -----

  /** A request line whose only whitespace is spaces and tabs. */
  predicate PlainSpaces(line: string) {
    forall c :: c in line && IsSpace(c) ==> c == ' ' || c == '\t'
  }

  predicate ExpiresAtOnce(cmd: Command) {
    cmd.kind == EXPIRE && |cmd.args| >= 2 && Stoll(cmd.args[1]) == Some(0)
  }

  /** A command parsed from such a line, and not `EXPIRE key 0`. */
  ghost predicate Acceptable(cmd: Command) {
    !ExpiresAtOnce(cmd) && exists line :: PlainSpaces(line) && cmd == Parse(line)
  }

  // ----- What gets logged -----

  predicate OneLine(s: string) { '\n' !in s }

  /** The record is replayed as it was logged, and read back from a file as it was written. */
  predicate Durable(r: Record) { Replayable(r) && OneLine(Print(r)) }

  /** A logged record is made of the command's own arguments, with a deadline that fits. */
  lemma LoggedFromArgs(h: Hash, st: Store, c: Counters, cmd: Command, tick: Tick)
    requires Dispatch(h, st, c, cmd, tick).log.Some?
    ensures var r := Dispatch(h, st, c, cmd, tick).log.value;
      && r.key in cmd.args && (r.SetRecord? ==> r.value in cmd.args)
      && (r.ExpireRecord? && !ExpiresAtOnce(cmd) ==> 1 <= r.secs <= INT64_MAX)
  {
  }

  lemma PlainArgs(line: string, t: string)
    requires PlainSpaces(line) && t in Parse(line).args
    ensures Loggable(t) && OneLine(t)
  {
    PlainArgsLoggable(line, t);
    ArgsFromInput(line, t);
  }

  lemma {:induction false} EscapeOneLine(s: string)
    requires OneLine(s)
    ensures OneLine(Escape(s))
  {
    if s != "" {
      EscapeOneLine(s[1..]);
    }
  }

  lemma QuoteOneLine(s: string)
    requires OneLine(s)
    ensures OneLine(Quote(s))
  {
    EscapeOneLine(s);
  }

  lemma {:induction false} PrintOneLine(r: Record)
    requires OneLine(r.key) && (r.SetRecord? ==> OneLine(r.value))
    ensures OneLine(Print(r))
  {
    QuoteOneLine(r.key);
    match r
    case SetRecord(_, v) => QuoteOneLine(v);
    case DelRecord(_) =>
    case ExpireRecord(_, secs) =>
      assert forall c :: c in ToText(secs) ==> IsDigit(c) || c == '-';
  }

  /** What an acceptable command logs is durable, whatever the state of the store. */
  lemma {:induction false} AcceptableRecord(h: Hash, st: Store, c: Counters, cmd: Command, tick: Tick)
    requires Acceptable(cmd) && Dispatch(h, st, c, cmd, tick).log.Some?
    ensures Durable(Dispatch(h, st, c, cmd, tick).log.value)
  {
    var r := Dispatch(h, st, c, cmd, tick).log.value;
    var line :| PlainSpaces(line) && cmd == Parse(line);
    LoggedFromArgs(h, st, c, cmd, tick);
    PlainArgs(line, r.key);
    if r.SetRecord? {
      PlainArgs(line, r.value);
    }
    PrintOneLine(r);
  }

  ghost predicate AllDurable(xs: seq<Stamped>) { forall x :: x in xs ==> Durable(x.record) }

  // ----- The file -----

  /** Replay of a file's text; `clock` gives the readings taken at each line. */
  function ReplayFile(h: Hash, st: Store, text: string, clock: nat -> Tick): Recovery {
    Replay(h, st, GetLines(text), seq(|GetLines(text)|, clock))
  }

  /** The text of a file of durable records reads back as their lines. */
  lemma FileHoldsLog(xs: seq<Stamped>)
    requires AllDurable(xs)
    ensures GetLines(Unlines(PrintAll(xs))) == PrintAll(xs) && AllReplayable(xs)
  {
    forall l | l in PrintAll(xs)
      ensures OneLine(l)
    {
      var i :| 0 <= i < |xs| && Print(xs[i].record) == l;
      assert xs[i] in xs;
    }
    GetLinesOfPlain(PrintAll(xs));
  }

  lemma PrintSnoc(xs: seq<Stamped>, x: Stamped)
    ensures PrintAll(xs + [x]) == PrintAll(xs) + [Print(x.record)]
  {
  }

  lemma PrintPart(xs: seq<Stamped>, lines: seq<string>)
    requires lines <= PrintAll(xs)
    ensures |lines| <= |xs| && PrintAll(xs[..|lines|]) == lines
  {
    assert |lines| <= |PrintAll(xs)|;
    assert PrintAll(xs[..|lines|]) == PrintAll(xs)[..|lines|];
  }

  /** The writer has pushed, of the records in `log`, all it was given before it was stopped. */
  ghost predicate Follows(m: LogWriter.Machine, log: seq<Stamped>) {
    && LogWriter.Ordered(m) && m.enabled && m.ready == multiset{}
    && m.pushed <= PrintAll(log)
    && (!m.stopped ==> m.pushed == PrintAll(log))
  }

  lemma FollowsLogged(m: LogWriter.Machine, log: seq<Stamped>, x: Stamped)
    requires Follows(m, log)
    ensures Follows(LogWriter.Logged(m, Print(x.record)), log + [x])
    ensures m.pushed == PrintAll(log) && !m.stopped ==>
      LogWriter.Logged(m, Print(x.record)).pushed == PrintAll(log + [x])
  {
    var line := Print(x.record);
    LogWriter.OrderedNext(m, LogWriter.Check(line));
    LogWriter.OrderedNext(LogWriter.Next(m, LogWriter.Check(line)), LogWriter.Push(line));
    PrintSnoc(log, x);
    assert multiset{} + multiset{line} - multiset{line} == multiset{};
  }

  lemma FollowsInternal(m: LogWriter.Machine, log: seq<Stamped>, a: LogWriter.Action)
    requires Follows(m, log) && LogWriter.Internal(a)
    ensures Follows(LogWriter.Next(m, a), log) && LogWriter.Next(m, a).pushed == m.pushed
  {
    LogWriter.OrderedNext(m, a);
  }

  /** The file holds a first part of the log; all of it, if everything was pushed and written. */
  lemma FileIsPart(m: LogWriter.Machine, log: seq<Stamped>)
    requires Follows(m, log)
    ensures |m.file| <= |log| && PrintAll(log[..|m.file|]) == m.file
    ensures Drained(m) && m.pushed == PrintAll(log) ==> |m.file| == |log|
  {
    assert m.file + [] + [] == m.file;
    PrintPart(log, m.file);
  }

  /** The writer has written out all that was pushed. */
  ghost predicate Drained(m: LogWriter.Machine) { m.good && m.batch == [] && m.queue == [] }

  // ----- Requests one at a time, the writer thread in between -----

  datatype Joint = Joint(session: Session, writer: LogWriter.Machine)

  datatype Step = Request(event: Event) | Thread(action: LogWriter.Action)

  function EventLog(h: Hash, s: Session, e: Event): Option<Record> {
    if e.Ask? then Dispatch(h, s.store, s.counters, e.cmd, e.tick).log else None
  }

  /** A request is served and logged; a step of the writer thread is one of its actions. */
  function NextStep(h: Hash, j: Joint, step: Step): Joint {
    match step
    case Request(e) => Joint(Serve(h, j.session, e), LogWriter.AfterLog(j.writer, EventLog(h, j.session, e)))
    case Thread(a) => if LogWriter.Internal(a) then j.(writer := LogWriter.Next(j.writer, a)) else j
  }

  function RunSteps(h: Hash, maxKeys: nat, steps: seq<Step>): Joint {
    if steps == [] then Joint(ServeAll(h, maxKeys, []), LogWriter.START)
    else NextStep(h, RunSteps(h, maxKeys, steps[..|steps| - 1]), steps[|steps| - 1])
  }

  function Events(steps: seq<Step>): seq<Event> {
    if steps == [] then []
    else
      var n := |steps| - 1;
      Events(steps[..n]) + if steps[n].Request? then [steps[n].event] else []
  }

  ghost predicate AcceptableSteps(steps: seq<Step>) {
    forall step :: step in steps && step.Request? && step.event.Ask? ==> Acceptable(step.event.cmd)
  }

  /** No request is served once the writer has been stopped. */
  predicate StopsLast(h: Hash, maxKeys: nat, steps: seq<Step>) {
    steps == []
    || (StopsLast(h, maxKeys, steps[..|steps| - 1])
        && (steps[|steps| - 1].Request? ==> !RunSteps(h, maxKeys, steps[..|steps| - 1]).writer.stopped))
  }

  lemma RequestFollows(h: Hash, j: Joint, e: Event)
    requires Follows(j.writer, j.session.log) && AllDurable(j.session.log)
    requires e.Ask? ==> Acceptable(e.cmd)
    ensures var j' := NextStep(h, j, Request(e));
      && Follows(j'.writer, j'.session.log) && AllDurable(j'.session.log)
      && (j.writer.pushed == PrintAll(j.session.log) && !j.writer.stopped ==>
            j'.writer.pushed == PrintAll(j'.session.log))
  {
    hide Dispatch, Follows, LogWriter.Logged;
    var s, log := j.session, EventLog(h, j.session, e);
    if log.Some? {
      AcceptableRecord(h, s.store, s.counters, e.cmd, e.tick);
      FollowsLogged(j.writer, s.log, Stamped(log.value, e.tick));
    } else {
      assert s.log + [] == s.log;
    }
  }

  lemma {:induction false} SessionOfSteps(h: Hash, maxKeys: nat, steps: seq<Step>)
    ensures RunSteps(h, maxKeys, steps).session == ServeAll(h, maxKeys, Events(steps))
  {
    if steps != [] {
      hide Serve, LogWriter.Next, LogWriter.AfterLog;
      var n := |steps| - 1;
      SessionOfSteps(h, maxKeys, steps[..n]);
      if steps[n].Request? {
        ServeSnoc(h, maxKeys, Events(steps[..n]), steps[n].event);
      } else {
        assert Events(steps) == Events(steps[..n]);
      }
    }
  }

  /** However requests and writer steps interleave, the session is that of the requests alone and
      the writer follows its log. */
  lemma {:induction false} StepsFollow(h: Hash, maxKeys: nat, steps: seq<Step>)
    requires AcceptableSteps(steps)
    ensures var j := RunSteps(h, maxKeys, steps);
      && j.session == ServeAll(h, maxKeys, Events(steps))
      && Follows(j.writer, j.session.log) && AllDurable(j.session.log)
      && (StopsLast(h, maxKeys, steps) ==> j.writer.pushed == PrintAll(j.session.log))
  {
    if steps != [] {
      hide Follows, AllDurable, Serve, LogWriter.Next, LogWriter.AfterLog;
      var n := |steps| - 1;
      var j, step := RunSteps(h, maxKeys, steps[..n]), steps[n];
      StepsFollow(h, maxKeys, steps[..n]);
      assert step in steps;
      if step.Request? {
        RequestFollows(h, j, step.event);
        ServeSnoc(h, maxKeys, Events(steps[..n]), step.event);
      } else {
        assert Events(steps) == Events(steps[..n]);
        if LogWriter.Internal(step.action) {
          FollowsInternal(j.writer, j.session.log, step.action);
        }
      }
    } else {
      assert PrintAll([]) == [];
    }
  }

  // ----- Part of a session -----

  /** The requests up to some point logged exactly the first `m` records. */
  lemma {:induction false} LogReaches(h: Hash, maxKeys: nat, events: seq<Event>, m: nat) returns (n: nat)
    requires m <= |ServeAll(h, maxKeys, events).log|
    ensures n <= |events| && ServeAll(h, maxKeys, events[..n]).log == ServeAll(h, maxKeys, events).log[..m]
    ensures m == |ServeAll(h, maxKeys, events).log| ==> n == |events|
  {
    var log := ServeAll(h, maxKeys, events).log;
    if m == |log| {
      n := |events|;
      assert events[..n] == events && log[..m] == log;
    } else {
      var before := events[..|events| - 1];
      n := LogReaches(h, maxKeys, before, m);
      assert before[..n] == events[..n];
      assert ServeAll(h, maxKeys, before).log[..m] == log[..m];
    }
  }

  /** What replay of `log` makes of the store a session left after `events`: it performs every line and
      agrees on every key that both stores dropped or neither did. If nothing expired and no read moved
      a key, it finds nothing expired exactly when it is timely, and then rebuilds list order, keys,
      values, evictions, and deadlines counted anew. */
  ghost predicate Recovers(h: Hash, maxKeys: nat, events: seq<Event>, clock: nat -> Tick, rec: Recovery) {
    var s := ServeAll(h, maxKeys, events);
    var ys := Restamp(s.log, seq(|s.log|, clock));
    && rec.stats == ReplayStats(|s.log|, 0, 0)
    && (forall k :: SameEntry(s.log, ys, k, Lookup(h, s.store, k), Lookup(h, rec.store, k))
                    <==> (Dropped(h, maxKeys, events, k) <==> Missing(h, maxKeys, ys, k)))
    && (NeverReorders(h, maxKeys, events) && s.store.expired == 0 ==>
          && (rec.store.expired == 0 <==> Timely(ys))
          && (Timely(ys) ==> Rebuilt(s.store, rec.store, s.log, ys)))
  }

  lemma LogRecovers(h: Hash, maxKeys: nat, events: seq<Event>, clock: nat -> Tick)
    requires AllReplayable(ServeAll(h, maxKeys, events).log)
    ensures var log := ServeAll(h, maxKeys, events).log;
      Recovers(h, maxKeys, events, clock, Replay(h, Fresh(maxKeys), PrintAll(log), seq(|log|, clock)))
  {
    hide ServeAll, Replay, SameEntry, Lookup, Dropped, Missing, NeverReorders, Timely, Rebuilt;
    var s := ServeAll(h, maxKeys, events);
    RecoverKeys(h, maxKeys, events, maxKeys, seq(|s.log|, clock));
    if NeverReorders(h, maxKeys, events) && s.store.expired == 0 {
      Recover(h, maxKeys, events, seq(|s.log|, clock));
    }
  }

  /** Clients send acceptable lines; the server answers them one by one, sweeping in between; the writer
      thread takes its steps at any time, its stream may fail and it may be stopped at any time. Replay
      of the file's text at any moment recovers the store as it was after the first `n` requests. These
      are all requests if the writer was not stopped before the last and has written out its queue. */
  lemma {:induction false} RecoverFromFile(h: Hash, maxKeys: nat, steps: seq<Step>, clock: nat -> Tick) returns (n: nat)
    requires AcceptableSteps(steps)
    ensures n <= |Events(steps)|
    ensures var file, past := RunSteps(h, maxKeys, steps).writer.file, Events(steps)[..n];
      && PrintAll(ServeAll(h, maxKeys, past).log) == file
      && Recovers(h, maxKeys, past, clock, ReplayFile(h, Fresh(maxKeys), Unlines(file), clock))
    ensures StopsLast(h, maxKeys, steps) && Drained(RunSteps(h, maxKeys, steps).writer) ==> n == |Events(steps)|
  {
    hide Follows, Recovers, Replay, Unlines, Drained, StopsLast;
    var j, events := RunSteps(h, maxKeys, steps), Events(steps);
    StepsFollow(h, maxKeys, steps);
    FileIsPart(j.writer, j.session.log);
    n := LogReaches(h, maxKeys, events, |j.writer.file|);
    var past := ServeAll(h, maxKeys, events[..n]);
    assert forall x :: x in past.log ==> x in j.session.log;
    FileHoldsLog(past.log);
    LogRecovers(h, maxKeys, events[..n], clock);
  }
}
