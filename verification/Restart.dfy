/** A server run and the restart after it, as the program runs them: the dispatcher
    serves request lines, the writer thread takes turns and is stopped, and a new
    store is filled from the text of the file. */
module Restarting {
  import opened Stores
  import opened Parser
  import opened Storage
  import opened Commands
  import opened Sessions
  import opened Lines
  import opened FileRecovery
  import Dispatcher

  function Asked(lines: seq<string>, ticks: seq<Tick>): (events: seq<Event>)
    requires |ticks| == |lines|
    ensures |events| == |lines|
  {
    seq(|lines|, i requires 0 <= i < |lines| => Ask(Parse(lines[i]), ticks[i]))
  }

  // ----- Following the program with joint steps -----

  function Threads(actions: seq<LogWriter.Action>): seq<Step> {
    seq(|actions|, i requires 0 <= i < |actions| => Thread(actions[i]))
  }

  lemma ThreadStep(h: Hash, maxKeys: nat, steps: seq<Step>, a: LogWriter.Action)
    requires LogWriter.Internal(a)
    ensures var j := RunSteps(h, maxKeys, steps);
      RunSteps(h, maxKeys, steps + [Thread(a)]) == j.(writer := LogWriter.Next(j.writer, a))
    ensures Events(steps + [Thread(a)]) == Events(steps)
    ensures StopsLast(h, maxKeys, steps) ==> StopsLast(h, maxKeys, steps + [Thread(a)])
  {
    hide LogWriter.Next;
    var all := steps + [Thread(a)];
    assert all[..|all| - 1] == steps && all[|all| - 1] == Thread(a);
  }

  /** A turn of the writer thread is a number of joint steps. */
  lemma {:induction false} ThreadSteps(h: Hash, maxKeys: nat, steps: seq<Step>, actions: seq<LogWriter.Action>)
    requires LogWriter.AllInternal(actions)
    ensures var j := RunSteps(h, maxKeys, steps);
      RunSteps(h, maxKeys, steps + Threads(actions)) == j.(writer := LogWriter.Execute(j.writer, actions))
    ensures Events(steps + Threads(actions)) == Events(steps)
    ensures StopsLast(h, maxKeys, steps) ==> StopsLast(h, maxKeys, steps + Threads(actions))
  {
    hide RunSteps, StopsLast, Events, LogWriter.Next;
    if actions == [] {
      assert steps + Threads(actions) == steps;
    } else {
      var n := |actions| - 1;
      assert actions[n] in actions;
      assert steps + Threads(actions) == steps + Threads(actions[..n]) + [Thread(actions[n])];
      ThreadSteps(h, maxKeys, steps, actions[..n]);
      ThreadStep(h, maxKeys, steps + Threads(actions[..n]), actions[n]);
    }
  }

  lemma NoSteps(h: Hash, maxKeys: nat)
    ensures RunSteps(h, maxKeys, []) == Joint(Session(Fresh(maxKeys), ZERO_COUNTERS, []), LogWriter.START)
    ensures Events([]) == Asked([], []) && StopsLast(h, maxKeys, [])
  {
  }

  lemma RequestStep(h: Hash, maxKeys: nat, steps: seq<Step>, e: Event)
    ensures RunSteps(h, maxKeys, steps + [Request(e)]) == NextStep(h, RunSteps(h, maxKeys, steps), Request(e))
    ensures Events(steps + [Request(e)]) == Events(steps) + [e]
    ensures StopsLast(h, maxKeys, steps) && !RunSteps(h, maxKeys, steps).writer.stopped ==>
      StopsLast(h, maxKeys, steps + [Request(e)])
  {
    var all := steps + [Request(e)];
    assert all[..|all| - 1] == steps && all[|all| - 1] == Request(e);
  }

  lemma AskedSnoc(lines: seq<string>, ticks: seq<Tick>, i: nat)
    requires |ticks| == |lines| && i < |lines|
    ensures Asked(lines[..i + 1], ticks[..i + 1]) == Asked(lines[..i], ticks[..i]) + [Ask(Parse(lines[i]), ticks[i])]
  {
  }

  // ----- How much of the log reaches the file -----

  /** How many lines of the log the writer thread has taken and written, and whether its stream is good. */
  datatype Tape = Tape(taken: nat, written: nat, good: bool)

  /** How many of the first `m` writes succeed before one fails. */
  function Leading(ok: nat -> bool, m: nat): (n: nat)
    ensures n <= m && (forall i :: 0 <= i < n ==> ok(i)) && (n < m ==> !ok(n))
  {
    if m == 0 then 0
    else
      var n := Leading(ok, m - 1);
      if n == m - 1 && ok(n) then m else n
  }

  /** A turn of the writer thread when the log has `total` lines: it takes all that is queued, writes up to
      the first failure, and flushes. */
  function Turned(t: Tape, total: nat, ok: nat -> bool): Tape
    requires t.taken <= total
  {
    var queued := total - t.taken;
    var n := if t.good then Leading(ok, queued) else 0;
    Tape(total, t.written + n, t.good && n == queued && ok(queued))
  }

  /** The tape when the lines have been served, with the turns that `wakes` says. */
  function TapeAfter(h: Hash, maxKeys: nat, events: seq<Event>, wakes: seq<bool>, stream: nat -> nat -> bool): (t: Tape)
    requires |wakes| == |events|
    ensures t.taken <= |ServeAll(h, maxKeys, events).log|
  {
    if events == [] then Tape(0, 0, true)
    else
      var n := |events| - 1;
      var t := TapeAfter(h, maxKeys, events[..n], wakes[..n], stream);
      if wakes[n] then Turned(t, |ServeAll(h, maxKeys, events).log|, stream(n)) else t
  }

  /** And when the writer has been stopped. */
  function FinalTape(h: Hash, maxKeys: nat, events: seq<Event>, wakes: seq<bool>, stream: nat -> nat -> bool): Tape
    requires |wakes| == |events|
  {
    var t, total := TapeAfter(h, maxKeys, events, wakes, stream), |ServeAll(h, maxKeys, events).log|;
    if t.taken == total then t else Turned(t, total, stream(|events|))
  }

  /** On a stream that accepts everything the whole log is written. */
  lemma {:induction false} HealthyTape(h: Hash, maxKeys: nat, events: seq<Event>, wakes: seq<bool>,
    stream: nat -> nat -> bool)
    requires |wakes| == |events| && forall i, j :: stream(i)(j)
    ensures var t := TapeAfter(h, maxKeys, events, wakes, stream); t.good && t.written == t.taken
    ensures var t := FinalTape(h, maxKeys, events, wakes, stream);
      t.good && t.written == |ServeAll(h, maxKeys, events).log|
  {
    if events != [] {
      hide Serve;
      var n := |events| - 1;
      HealthyTape(h, maxKeys, events[..n], wakes[..n], stream);
    }
  }

  /** The writer is where the tape says. */
  predicate AtTape(w: LogWriter.AofWriter, t: Tape, total: nat)
    reads w
  {
    |w.queue| == total - t.taken && |w.file| == t.written && w.good == t.good
  }

  lemma TurnedTape(queue: seq<string>, ok: nat -> bool, file: seq<string>, good: bool, file': seq<string>,
                   good': bool, t: Tape, total: nat)
    requires t.taken <= total && |queue| == total - t.taken && |file| == t.written && good == t.good
    requires var n := |queue|;
      LogWriter.Wrote(queue, seq(n, i requires 0 <= i < n => ok(i)), ok(n), file, good, file', good')
    ensures var t' := Turned(t, total, ok); |file'| == t'.written && good' == t'.good
  {
    var q := |queue|;
    var outcomes := seq(q, i requires 0 <= i < q => ok(i));
    var n := if good then Leading(ok, q) else 0;
    assert LogWriter.Accepted(good, outcomes, n);
    AcceptedOnce(good, outcomes, n, |file'| - |file|);
  }

  lemma AcceptedOnce(good: bool, outcomes: seq<bool>, n: int, n': int)
    requires LogWriter.Accepted(good, outcomes, n) && LogWriter.Accepted(good, outcomes, n')
    ensures n == n'
  {
  }

  /** The dispatcher and its writer are in the state that the joint steps lead to. */
  ghost predicate Reached(d: Dispatcher.CommandDispatcher, w: LogWriter.AofWriter, maxKeys: nat, steps: seq<Step>)
    reads d, d.storage, d.storage.shards, w
    requires d.storage.Consistent()
  {
    var j := RunSteps(d.storage.hash, maxKeys, steps);
    && j.session.store == d.storage.View() && j.session.counters == d.CountersView() && j.writer == w.View()
  }

  /** Parse a line, dispatch it and log it. */
  method ServeLine(d: Dispatcher.CommandDispatcher, w: LogWriter.AofWriter, line: string, tick: Tick,
                   ghost maxKeys: nat, ghost steps: seq<Step>) returns (ghost steps': seq<Step>)
    requires d.Ready() && d.writer == w && Reached(d, w, maxKeys, steps) && !w.stopped && w.enabled
    modifies d, d.storage, d.storage.shards, w
    ensures d.Ready() && Reached(d, w, maxKeys, steps')
    ensures w.View() == old(w.View()).(queue := w.queue, pushed := w.pushed)
    ensures var h := d.storage.hash;
      |w.queue| - |old(w.queue)|
      == |RunSteps(h, maxKeys, steps').session.log| - |RunSteps(h, maxKeys, steps).session.log|
    ensures Events(steps') == Events(steps) + [Ask(Parse(line), tick)]
    ensures StopsLast(d.storage.hash, maxKeys, steps) ==> StopsLast(d.storage.hash, maxKeys, steps')
  {
    hide RunSteps, Commands.Dispatch, Joined, StoreValid, Views, LogWriter.Ordered, StopsLast, Events;
    var cmd := ParseCommand(line);
    RequestStep(d.storage.hash, maxKeys, steps, Ask(cmd, tick));
    steps' := steps + [Request(Ask(cmd, tick))];
    var _ := d.Dispatch(cmd, tick);
    assert multiset{} == w.View().ready;
  }

  /** One turn of the writer thread; `ok` says which writes, and then whether the flush, succeed. */
  method WakeWriter(d: Dispatcher.CommandDispatcher, w: LogWriter.AofWriter, ok: nat -> bool,
                    ghost maxKeys: nat, ghost steps: seq<Step>, ghost t: Tape, ghost total: nat)
    returns (ghost steps': seq<Step>)
    requires d.Ready() && d.writer == w && Reached(d, w, maxKeys, steps) && !w.returned && !w.stopRequested
    requires t.taken <= total && AtTape(w, t, total)
    modifies w
    ensures d.Ready() && Reached(d, w, maxKeys, steps') && AtTape(w, Turned(t, total, ok), total)
    ensures w.stopped == old(w.stopped) && w.enabled == old(w.enabled) && !w.returned && !w.stopRequested
    ensures Events(steps') == Events(steps)
    ensures StopsLast(d.storage.hash, maxKeys, steps) ==> StopsLast(d.storage.hash, maxKeys, steps')
  {
    hide RunSteps, StopsLast, Events;
    var n := |w.queue|;
    ghost var queue, file, good := w.queue, w.file, w.good;
    var _, actions := w.Turn(seq(n, i requires 0 <= i < n => ok(i)), ok(n));
    TurnedTape(queue, ok, file, good, w.file, w.good, t, total);
    ThreadSteps(d.storage.hash, maxKeys, steps, actions);
    steps' := steps + Threads(actions);
  }

  method StopWriter(d: Dispatcher.CommandDispatcher, w: LogWriter.AofWriter, ok: nat -> bool,
                    ghost maxKeys: nat, ghost steps: seq<Step>, ghost t: Tape, ghost total: nat)
    returns (ghost steps': seq<Step>)
    requires d.Ready() && d.writer == w && Reached(d, w, maxKeys, steps) && !w.returned
    requires t.taken <= total && AtTape(w, t, total)
    modifies w
    ensures d.Ready() && Reached(d, w, maxKeys, steps') && w.queue == []
    ensures AtTape(w, if t.taken == total then t else Turned(t, total, ok), total)
    ensures Events(steps') == Events(steps)
    ensures StopsLast(d.storage.hash, maxKeys, steps) ==> StopsLast(d.storage.hash, maxKeys, steps')
  {
    hide RunSteps, StopsLast, Events;
    var n := |w.queue|;
    ghost var queue, file, good := w.queue, w.file, w.good;
    var actions := w.Stop(seq(n, i requires 0 <= i < n => ok(i)), ok(n));
    if queue != [] {
      TurnedTape(queue, ok, file, good, w.file, w.good, t, total);
    }
    ThreadSteps(d.storage.hash, maxKeys, steps, actions);
    steps' := steps + Threads(actions);
  }

  /** Serve a line and let the writer thread take a turn if it wakes. */
  method ServeAndWake(d: Dispatcher.CommandDispatcher, w: LogWriter.AofWriter, line: string, tick: Tick, wake: bool,
                      ok: nat -> bool, ghost maxKeys: nat, ghost steps: seq<Step>, ghost t: Tape)
    returns (ghost steps': seq<Step>)
    requires d.Ready() && d.writer == w && Reached(d, w, maxKeys, steps)
    requires !w.stopped && w.enabled && !w.returned && !w.stopRequested
    requires var total := |ServeAll(d.storage.hash, maxKeys, Events(steps)).log|;
      t.taken <= total && AtTape(w, t, total)
    modifies d, d.storage, d.storage.shards, w
    ensures d.Ready() && Reached(d, w, maxKeys, steps')
    ensures !w.stopped && w.enabled && !w.returned && !w.stopRequested
    ensures Events(steps') == Events(steps) + [Ask(Parse(line), tick)]
    ensures StopsLast(d.storage.hash, maxKeys, steps) ==> StopsLast(d.storage.hash, maxKeys, steps')
    ensures var total := |ServeAll(d.storage.hash, maxKeys, Events(steps')).log|;
      t.taken <= total && AtTape(w, if wake then Turned(t, total, ok) else t, total)
  {
    hide RunSteps, StopsLast, Events, Joined, StoreValid, Views, LogWriter.Ordered, Turned, ServeAll, Serve;
    ghost var h := d.storage.hash;
    SessionOfSteps(h, maxKeys, steps);
    steps' := ServeLine(d, w, line, tick, maxKeys, steps);
    SessionOfSteps(h, maxKeys, steps');
    ServeSnoc(h, maxKeys, Events(steps), Ask(Parse(line), tick));
    ServeLogs(h, ServeAll(h, maxKeys, Events(steps)), Ask(Parse(line), tick));
    if wake {
      steps' := WakeWriter(d, w, ok, maxKeys, steps', t, |ServeAll(h, maxKeys, Events(steps')).log|);
    }
  }

  lemma TapeSnoc(h: Hash, maxKeys: nat, lines: seq<string>, ticks: seq<Tick>, wakes: seq<bool>,
                 stream: nat -> nat -> bool, i: nat)
    requires |ticks| == |lines| == |wakes| && i < |lines|
    ensures var events, events' := Asked(lines[..i], ticks[..i]), Asked(lines[..i + 1], ticks[..i + 1]);
      var t, total := TapeAfter(h, maxKeys, events, wakes[..i], stream), |ServeAll(h, maxKeys, events').log|;
      && t.taken <= total
      && TapeAfter(h, maxKeys, events', wakes[..i + 1], stream) == if wakes[i] then Turned(t, total, stream(i)) else t
  {
    hide Serve;
    var events, e := Asked(lines[..i], ticks[..i]), Ask(Parse(lines[i]), ticks[i]);
    AskedSnoc(lines, ticks, i);
    ServeSnoc(h, maxKeys, events, e);
    ServeLogs(h, ServeAll(h, maxKeys, events), e);
    assert (events + [e])[..i] == events && wakes[..i + 1][..i] == wakes[..i];
  }

  lemma ServeLogs(h: Hash, s: Session, e: Event)
    ensures |s.log| <= |Serve(h, s, e).log|
  {
  }

  /** Serve the lines in order, letting the writer thread take a turn after those that `wakes` says. */
  method ServeEach(d: Dispatcher.CommandDispatcher, w: LogWriter.AofWriter, lines: seq<string>, ticks: seq<Tick>,
                   wakes: seq<bool>, stream: nat -> nat -> bool, ghost maxKeys: nat) returns (ghost steps: seq<Step>)
    requires |ticks| == |lines| == |wakes| && d.Ready() && d.writer == w && Reached(d, w, maxKeys, [])
    requires w.View() == LogWriter.START
    modifies d, d.storage, d.storage.shards, w
    ensures d.Ready() && Reached(d, w, maxKeys, steps) && !w.returned
    ensures Events(steps) == Asked(lines, ticks) && StopsLast(d.storage.hash, maxKeys, steps)
    ensures var h, events := d.storage.hash, Asked(lines, ticks);
      AtTape(w, TapeAfter(h, maxKeys, events, wakes, stream), |ServeAll(h, maxKeys, events).log|)
  {
    hide RunSteps, StopsLast, Events, Asked, Joined, StoreValid, Views, LogWriter.Ordered, TapeAfter, Turned, ServeAll;
    ghost var h := d.storage.hash;
    NoSteps(h, maxKeys);
    NoTape(h, maxKeys, stream);
    steps := [];
    for i := 0 to |lines|
      invariant d.Ready() && Reached(d, w, maxKeys, steps)
      invariant !w.stopped && w.enabled && !w.returned && !w.stopRequested
      invariant Events(steps) == Asked(lines[..i], ticks[..i]) && StopsLast(h, maxKeys, steps)
      invariant var events := Asked(lines[..i], ticks[..i]);
        AtTape(w, TapeAfter(h, maxKeys, events, wakes[..i], stream), |ServeAll(h, maxKeys, events).log|)
    {
      AskedSnoc(lines, ticks, i);
      TapeSnoc(h, maxKeys, lines, ticks, wakes, stream, i);
      steps := ServeAndWake(d, w, lines[i], ticks[i], wakes[i], stream(i), maxKeys, steps,
                            TapeAfter(h, maxKeys, Asked(lines[..i], ticks[..i]), wakes[..i], stream));
    }
    assert lines[..|lines|] == lines && ticks[..|lines|] == ticks && wakes[..|lines|] == wakes;
  }

  /** Serve the lines, then stop the writer. What is in the file is what the joint steps of this run lead
      to, as many lines of the log as the stream accepts. */
  method ServeLines(hash: Hash, maxKeys: nat, lines: seq<string>, ticks: seq<Tick>, wakes: seq<bool>,
                    stream: nat -> nat -> bool)
    returns (file: seq<string>, good: bool, ghost steps: seq<Step>)
    requires |ticks| == |lines| == |wakes|
    ensures Events(steps) == Asked(lines, ticks) && StopsLast(hash, maxKeys, steps)
    ensures var m := RunSteps(hash, maxKeys, steps).writer; m.file == file && (good ==> Drained(m))
    ensures var t := FinalTape(hash, maxKeys, Asked(lines, ticks), wakes, stream);
      |file| == t.written && good == t.good
  {
    hide RunSteps, StopsLast, Events, Asked, Joined, StoreValid, Views, LogWriter.Ordered, TapeAfter, Turned, ServeAll;
    NoSteps(hash, maxKeys);
    var storage := new ShardedStorage(hash, maxKeys);
    var w := new LogWriter.AofWriter();
    var d := new Dispatcher.CommandDispatcher(storage, w);
    steps := ServeEach(d, w, lines, ticks, wakes, stream, maxKeys);
    ghost var events := Asked(lines, ticks);
    steps := StopWriter(d, w, stream(|lines|), maxKeys, steps,
                        TapeAfter(hash, maxKeys, events, wakes, stream), |ServeAll(hash, maxKeys, events).log|);
    file, good := w.file, w.good;
  }

  lemma NoTape(h: Hash, maxKeys: nat, stream: nat -> nat -> bool)
    ensures Asked([], []) == [] && ServeAll(h, maxKeys, []).log == []
    ensures TapeAfter(h, maxKeys, [], [], stream) == Tape(0, 0, true)
  {
  }

  /** A new store, filled from the text of the log file. */
  method LoadFile(hash: Hash, maxKeys: nat, text: string, clock: nat -> Tick)
    returns (storage: ShardedStorage, stats: ReplayStats)
    ensures fresh(storage) && fresh(storage.shards) && storage.Consistent() && storage.hash == hash
    ensures Recovery(storage.View(), stats) == ReplayFile(hash, Fresh(maxKeys), text, clock)
  {
    hide StoreValid, Views, Replay, GetLines;
    storage := new ShardedStorage(hash, maxKeys);
    var lines := GetLines(text);
    stats := Dispatcher.ReplayInto(storage, lines, seq(|lines|, clock));
  }

  // ----- Restart -----

  lemma {:induction false} EventsHold(steps: seq<Step>, step: Step)
    requires step in steps && step.Request?
    ensures step.event in Events(steps)
  {
    var n := |steps| - 1;
    if step != steps[n] {
      EventsHold(steps[..n], step);
    }
  }

  ghost predicate AcceptableLines(lines: seq<string>) {
    forall line :: line in lines ==> PlainSpaces(line) && !ExpiresAtOnce(Parse(line))
  }

  lemma AskedAcceptable(lines: seq<string>, ticks: seq<Tick>, steps: seq<Step>)
    requires |ticks| == |lines| && AcceptableLines(lines) && Events(steps) == Asked(lines, ticks)
    ensures AcceptableSteps(steps)
  {
    forall step | step in steps && step.Request? && step.event.Ask?
      ensures Acceptable(step.event.cmd)
    {
      EventsHold(steps, step);
      var i :| 0 <= i < |lines| && step.event == Ask(Parse(lines[i]), ticks[i]);
      assert lines[i] in lines;
    }
  }

  /** Run a server on the lines, with the writer thread in between, stop it and start another on the
      file. If the lines are acceptable, the new store recovers that of the old server after its first
      `n` requests; after all of them if the stream accepts every write and flush. */
  method Restart(hash: Hash, maxKeys: nat, lines: seq<string>, ticks: seq<Tick>, wakes: seq<bool>,
                 stream: nat -> nat -> bool, clock: nat -> Tick)
    returns (storage: ShardedStorage, stats: ReplayStats, good: bool, ghost n: nat)
    requires |ticks| == |lines| == |wakes|
    ensures storage.Consistent() && n <= |lines| && (good ==> n == |lines|)
    ensures (forall i, j :: stream(i)(j)) ==> good
    ensures AcceptableLines(lines) ==>
      var events := Asked(lines, ticks);
      var t := FinalTape(hash, maxKeys, events, wakes, stream);
      && |ServeAll(hash, maxKeys, events[..n]).log| == t.written && good == t.good
      && Recovers(hash, maxKeys, events[..n], clock, Recovery(storage.View(), stats))
  {
    hide StoreValid, Views, RunSteps, Events, ServeAll, Unlines, Recovers, Drained, StopsLast, AcceptableLines,
         AcceptableSteps, ReplayFile, FinalTape;
    var file;
    ghost var steps;
    file, good, steps := ServeLines(hash, maxKeys, lines, ticks, wakes, stream);
    storage, stats := LoadFile(hash, maxKeys, Unlines(file), clock);
    n := |lines|;
    if forall i, j :: stream(i)(j) {
      HealthyTape(hash, maxKeys, Asked(lines, ticks), wakes, stream);
    }
    if AcceptableLines(lines) {
      AskedAcceptable(lines, ticks, steps);
      n := RecoverFromFile(hash, maxKeys, steps, clock);
    }
  }
}
