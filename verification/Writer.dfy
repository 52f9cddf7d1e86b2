/** The log writer. Producers and the writer thread interleave as steps of a
    state machine; the class runs the same steps in program order. */
module LogWriter {
  import opened Basics
  import opened Decimal
  import opened Parser

  // ----- The state machine -----

  datatype Phase = Waiting | Writing | Returned

  /** `ready` holds lines whose producer has passed the stop check but not pushed yet,
      `file` the lines counted as written, `pushed` every line ever queued, in order. */
  datatype Machine = Machine(
    enabled: bool, stopped: bool, stopRequested: bool,
    ready: multiset<string>, queue: seq<string>, batch: seq<string>,
    file: seq<string>, good: bool, phase: Phase, pushed: seq<string>)

  const START := Machine(true, false, false, multiset{}, [], [], [], true, Waiting, [])

  datatype Action =
    | SetEnabled(on: bool)
    | Check(line: string)
    | Push(line: string)
    | MarkStopped
    | RequestStop
    | Take
    | Write(ok: bool)
    | Flush(ok: bool)

  /** An action of the writer thread or of stopping it, not of a producer. */
  predicate Internal(a: Action) { a.MarkStopped? || a.RequestStop? || a.Take? || a.Write? || a.Flush? }

  ghost predicate AllInternal(actions: seq<Action>) { forall a :: a in actions ==> Internal(a) }

  /** One atomic action; an action that is not possible changes nothing. */
  function Next(m: Machine, a: Action): Machine {
    match a
    case SetEnabled(on) => m.(enabled := on)
    case Check(line) => if m.enabled && !m.stopped then m.(ready := m.ready + multiset{line}) else m
    case Push(line) =>
      if line !in m.ready then m
      else m.(ready := m.ready - multiset{line}, queue := m.queue + [line], pushed := m.pushed + [line])
    case MarkStopped => m.(stopped := true)
    case RequestStop => m.(stopRequested := true)
    case Take =>
      if m.phase != Waiting then m
      else if m.stopRequested && m.queue == [] then m.(phase := Returned)
      else m.(batch := m.queue, queue := [], phase := Writing)
    case Write(ok) =>
      if m.phase != Writing || m.batch == [] then m
      else if m.good && ok then m.(file := m.file + [m.batch[0]], batch := m.batch[1..])
      else m.(good := false, batch := [])
    case Flush(ok) =>
      if m.phase != Writing || m.batch != [] then m
      else m.(good := m.good && ok, phase := Waiting)
  }

  function Execute(m: Machine, actions: seq<Action>): Machine {
    if actions == [] then m else Next(Execute(m, actions[..|actions| - 1]), actions[|actions| - 1])
  }

  lemma {:induction false} ExecuteSplit(m: Machine, a: seq<Action>, b: seq<Action>)
    ensures Execute(m, a + b) == Execute(Execute(m, a), b)
  {
    if b == [] {
      assert a + b == a;
    } else {
      assert (a + b)[..|a + b| - 1] == a + b[..|b| - 1];
      ExecuteSplit(m, a, b[..|b| - 1]);
    }
  }

  ghost predicate Ordered(m: Machine) {
    && m.file <= m.pushed
    && (m.good ==> m.file + m.batch + m.queue == m.pushed)
    && (m.phase != Writing ==> m.batch == [])
  }

  lemma OrderedNext(m: Machine, a: Action)
    requires Ordered(m)
    ensures Ordered(Next(m, a))
  {
    if a.Push? && m.good {
      assert m.file + m.batch + (m.queue + [a.line]) == m.file + m.batch + m.queue + [a.line];
    } else if a.Take? && m.good {
      assert m.file + m.queue + [] == m.file + [] + m.queue;
    } else if a.Write? && m.good && m.phase == Writing && m.batch != [] {
      assert [m.batch[0]] + m.batch[1..] == m.batch;
      assert m.file + [m.batch[0]] + m.batch[1..] == m.file + m.batch;
    }
  }

  /** The stream accepts every write and every flush. */
  ghost predicate Healthy(actions: seq<Action>) {
    forall a :: a in actions && (a.Write? || a.Flush?) ==> a.ok
  }

  /** On a stream that accepts everything, however producers and writer interleave, nothing is lost
      between queue, batch and file. */
  lemma {:induction false} HealthyLosesNothing(actions: seq<Action>)
    requires Healthy(actions)
    ensures var m := Execute(START, actions); m.good && m.file + m.batch + m.queue == m.pushed
  {
    HealthyGood(actions);
    AlwaysOrdered(actions);
  }

  lemma {:induction false} HealthyGood(actions: seq<Action>)
    requires Healthy(actions)
    ensures Execute(START, actions).good
  {
    if actions != [] {
      hide Next;
      var n := |actions| - 1;
      assert actions[n] in actions;
      HealthyGood(actions[..n]);
      NextGood(Execute(START, actions[..n]), actions[n]);
    }
  }

  lemma AlwaysOrdered(actions: seq<Action>)
    ensures Ordered(Execute(START, actions))
  {
    OrderedRun(START, actions);
  }

  /** However producers and writer interleave, the lines counted as written are a prefix of the
      push order, also after a stream failure; while the stream is good nothing is lost between
      queue, batch and file. */
  lemma {:induction false} LogOrder(actions: seq<Action>)
    ensures var m := Execute(START, actions);
      m.file <= m.pushed && (m.good ==> m.file + m.batch + m.queue == m.pushed)
  {
    AlwaysOrdered(actions);
  }

  /** When the writer loop returns on a good stream, everything pushed until then is written, and
      the file keeps exactly that whatever producers do afterwards. */
  lemma {:induction false} DrainedOnReturn(actions: seq<Action>, after: seq<Action>)
    requires var m := Execute(START, actions); m.phase != Returned && m.good && Next(m, Take).phase == Returned
    ensures Execute(START, actions + [Take] + after).file == Execute(START, actions).pushed
  {
    var m := Execute(START, actions);
    AlwaysOrdered(actions);
    assert m.file + [] + [] == m.file;
    var all := actions + [Take];
    assert all[..|all| - 1] == actions;
    ExecuteSplit(START, all, after);
    AfterReturn(Execute(START, all), after);
  }

  lemma {:induction false} AfterReturn(m: Machine, after: seq<Action>)
    requires m.phase == Returned
    ensures Execute(m, after).phase == Returned && Execute(m, after).file == m.file
  {
    if after != [] {
      AfterReturn(m, after[..|after| - 1]);
    }
  }

  /** Nothing gets past the check of a producer any more, and none is half way. */
  predicate Shut(m: Machine) { m.ready == multiset{} && (m.stopped || !m.enabled) }

  lemma ShutNext(m: Machine, a: Action)
    requires Shut(m) && (m.stopped || a != SetEnabled(true))
    ensures Shut(Next(m, a)) && Next(m, a).pushed == m.pushed && (m.stopped ==> Next(m, a).stopped)
  {
  }

  /** A writer that is stopped, or disabled and not enabled again, takes no line from then on. */
  lemma {:induction false} ShutTakesNothing(m: Machine, after: seq<Action>)
    requires Shut(m) && (m.stopped || SetEnabled(true) !in after)
    ensures Shut(Execute(m, after)) && Execute(m, after).pushed == m.pushed
    ensures m.stopped ==> Execute(m, after).stopped
  {
    if after != [] {
      hide Next;
      var n := |after| - 1;
      assert after[n] in after;
      ShutTakesNothing(m, after[..n]);
      ShutNext(Execute(m, after[..n]), after[n]);
    }
  }

  // ----- The program -----

  lemma ExecuteSnoc(m: Machine, actions: seq<Action>, a: Action)
    ensures Execute(m, actions + [a]) == Next(Execute(m, actions), a)
  {
    assert (actions + [a])[..|actions + [a]| - 1] == actions;
  }

  lemma NoActions(m: Machine)
    ensures Execute(m, []) == m
  {
  }

  lemma TurnExecutes(m: Machine, writes: seq<Action>, flushOk: bool)
    ensures Execute(m, [Take] + writes + [Flush(flushOk)])
      == Next(Execute(Next(m, Take), writes), Flush(flushOk))
  {
    ExecuteSnoc(m, [Take] + writes, Flush(flushOk));
    ExecuteSplit(m, [Take], writes);
    ExecuteSnoc(m, [], Take);
    assert [] + [Take] == [Take];
  }

  /** A producer that logs `line` without interruption. */
  function Logged(m: Machine, line: string): Machine { Next(Next(m, Check(line)), Push(line)) }

  /** The writer after a command that may have logged a record. */
  function AfterLog(m: Machine, log: Option<Record>): Machine {
    if log.Some? then Logged(m, Print(log.value)) else m
  }

  /** Of the writes with these outcomes, on a stream in this state, the first `n` succeed: all up to
      the first that the stream does not accept. */
  predicate Accepted(good: bool, outcomes: seq<bool>, n: int) {
    && 0 <= n <= |outcomes| && (n > 0 ==> good)
    && (forall i :: 0 <= i < n ==> outcomes[i])
    && (n < |outcomes| ==> !good || !outcomes[n])
  }

  /** Of the queue the lines the stream accepted are added to the file, in order, and the stream is good
      if it was and accepted all of them and the flush. */
  predicate Wrote(queue: seq<string>, outcomes: seq<bool>, flushOk: bool, file: seq<string>, good: bool,
                  file': seq<string>, good': bool)
    requires |outcomes| == |queue|
  {
    var n := |file'| - |file|;
    Accepted(good, outcomes, n) && file' == file + queue[..n] && good' == (good && n == |outcomes| && flushOk)
  }

  lemma NextGood(m: Machine, a: Action)
    requires m.good && (a.Write? || a.Flush? ==> a.ok)
    ensures Next(m, a).good
  {
  }

  class AofWriter {
    var enabled: bool
    var stopped: bool
    var stopRequested: bool
    var queue: seq<string>
    var file: seq<string>
    var good: bool
    var writtenCount: nat
    var returned: bool
    ghost var pushed: seq<string>

    /** The machine state between two turns of the writer loop, with no producer half way. */
    ghost function View(): Machine
      reads this
    {
      Machine(enabled, stopped, stopRequested, multiset{}, queue, [], file, good,
              if returned then Returned else Waiting, pushed)
    }

    ghost predicate Counted()
      reads this
    {
      && Ordered(View()) && writtenCount == |file|
      && (stopRequested ==> stopped) && (returned ==> stopRequested && queue == [])
    }

    constructor ()
      ensures Counted() && View() == START
    {
      enabled, stopped, stopRequested, returned := true, false, false, false;
      queue, file, good, writtenCount, pushed := [], [], true, 0, [];
    }

    method Enqueue(line: string)
      modifies `queue, `pushed
      ensures queue == old(queue) + (if stopped then [] else [line])
      ensures pushed == old(pushed) + (if stopped then [] else [line])
    {
      if stopped {
        return;
      }
      queue := queue + [line];
      pushed := pushed + [line];
    }

    /** Logging a line is a check and a push; nothing is logged when disabled or stopped. */
    twostate lemma LoggedBy(line: string)
      requires old(Counted()) && unchanged(`enabled, `stopped, `stopRequested, `file, `good, `writtenCount, `returned)
      requires var extra := if enabled && !stopped then [line] else [];
        queue == old(queue) + extra && pushed == old(pushed) + extra
      ensures Counted() && View() == Logged(old(View()), line)
    {
      OrderedNext(old(View()), Check(line));
      OrderedNext(Next(old(View()), Check(line)), Push(line));
      assert multiset{} + multiset{line} - multiset{line} == multiset{};
    }

    method LogSet(key: string, value: string)
      requires Counted()
      modifies `queue, `pushed
      ensures Counted() && View() == Logged(old(View()), Print(SetRecord(key, value)))
      ensures pushed == old(pushed) + if enabled && !stopped then [Print(SetRecord(key, value))] else []
    {
      if enabled {
        var k := QuoteIfNeeded(key);
        var v := QuoteIfNeeded(value);
        Enqueue("SET " + k + " " + v);
      }
      LoggedBy(Print(SetRecord(key, value)));
    }

    method LogDel(key: string)
      requires Counted()
      modifies `queue, `pushed
      ensures Counted() && View() == Logged(old(View()), Print(DelRecord(key)))
      ensures pushed == old(pushed) + if enabled && !stopped then [Print(DelRecord(key))] else []
    {
      if enabled {
        var k := QuoteIfNeeded(key);
        Enqueue("DEL " + k);
      }
      LoggedBy(Print(DelRecord(key)));
    }

    method LogExpire(key: string, secs: int)
      requires Counted()
      modifies `queue, `pushed
      ensures Counted() && View() == Logged(old(View()), Print(ExpireRecord(key, secs)))
      ensures pushed == old(pushed) + if enabled && !stopped then [Print(ExpireRecord(key, secs))] else []
    {
      if enabled {
        var k := QuoteIfNeeded(key);
        Enqueue("EXPIRE " + k + " " + ToText(secs));
      }
      LoggedBy(Print(ExpireRecord(key, secs)));
    }

    /** Move the whole queue into a batch. */
    method TakeBatch() returns (batch: seq<string>)
      modifies `queue
      ensures batch == old(queue) && queue == []
    {
      batch := [];
      while queue != []
        invariant batch + queue == old(queue)
        decreases |queue|
      {
        assert [queue[0]] + queue[1..] == queue;
        batch := batch + [queue[0]];
        queue := queue[1..];
      }
    }

    /** Write lines until the stream fails; `outcomes` says which writes the stream accepts. The
        ghost result lists the machine's actions. */
    method WriteBatch(batch: seq<string>, outcomes: seq<bool>, ghost before: Machine)
      returns (ghost actions: seq<Action>)
      requires |outcomes| == |batch| && writtenCount == |file| && !returned
      requires before == View().(batch := batch, phase := Writing)
      modifies `file, `good, `writtenCount
      ensures writtenCount == |file| && AllInternal(actions)
      ensures Execute(before, actions) == View().(phase := Writing)
      ensures var n := |file| - |old(file)|;
        && Accepted(old(good), outcomes, n) && file == old(file) + batch[..n]
        && good == (old(good) && n == |batch|)
    {
      hide Execute;
      actions := [];
      NoActions(before);
      var i := 0;
      while i < |batch|
        invariant i <= |batch| && writtenCount == |file| && AllInternal(actions)
        invariant Execute(before, actions) == View().(batch := batch[i..], phase := Writing)
        invariant file == old(file) + batch[..i] && good == old(good)
        invariant (i > 0 ==> good) && forall j :: 0 <= j < i ==> outcomes[j]
      {
        ExecuteSnoc(before, actions, Write(outcomes[i]));
        actions := actions + [Write(outcomes[i])];
        if !good || !outcomes[i] {
          good := false;
          break;
        }
        file := file + [batch[i]];
        writtenCount := writtenCount + 1;
        i := i + 1;
      }
    }

    /** Take the queue, write it and flush. */
    method WriteOut(outcomes: seq<bool>, flushOk: bool) returns (ghost actions: seq<Action>)
      requires Counted() && |outcomes| == |queue| && !returned && !(stopRequested && queue == [])
      modifies `queue, `file, `good, `writtenCount
      ensures writtenCount == |file| && queue == []
      ensures View() == Execute(old(View()), actions) && AllInternal(actions)
      ensures Wrote(old(queue), outcomes, flushOk, old(file), old(good), file, good)
    {
      hide Execute;
      ghost var before := View();
      var batch := TakeBatch();
      ghost var writes := WriteBatch(batch, outcomes, Next(before, Take));
      good := good && flushOk;
      actions := [Take] + writes + [Flush(flushOk)];
      TurnExecutes(before, writes, flushOk);
    }

    /** One turn of the writer loop: it is some sequence of the machine's actions, and it returns
        only when a stop was requested and the queue is empty. */
    method Turn(outcomes: seq<bool>, flushOk: bool) returns (done: bool, ghost actions: seq<Action>)
      requires Counted() && |outcomes| == |queue| && !returned
      modifies `queue, `file, `good, `writtenCount, `returned
      ensures Counted() && View() == Execute(old(View()), actions) && AllInternal(actions)
      ensures done == returned == old(stopRequested && queue == []) && queue == []
      ensures if done then file == old(file) && good == old(good)
              else Wrote(old(queue), outcomes, flushOk, old(file), old(good), file, good)
    {
      hide Execute, Ordered;
      ghost var before := View();
      done := stopRequested && queue == [];
      if done {
        returned := true;
        actions := [] + [Take];
        NoActions(before);
        ExecuteSnoc(before, [], Take);
      } else {
        actions := WriteOut(outcomes, flushOk);
      }
      OrderedRun(before, actions);
    }

    /** Stop and join the writer thread: what is queued is written as far as the stream accepts it, so on
        a good stream every pushed line ends up in the file. A second stop finds the thread joined and
        changes nothing. */
    method Stop(outcomes: seq<bool>, flushOk: bool) returns (ghost actions: seq<Action>)
      requires Counted() && |outcomes| == |queue|
      modifies this
      ensures Counted() && returned && View() == Execute(old(View()), actions) && AllInternal(actions)
      ensures queue == [] && (good ==> file == pushed)
      ensures old(returned) ==> View() == old(View())
      ensures if old(queue) == [] then file == old(file) && good == old(good)
              else Wrote(old(queue), outcomes, flushOk, old(file), old(good), file, good)
    {
      hide Execute;
      ghost var before := View();
      NoActions(before);
      stopped, stopRequested := true, true;
      actions := [] + [MarkStopped] + [RequestStop];
      ExecuteSnoc(before, [], MarkStopped);
      ExecuteSnoc(before, [] + [MarkStopped], RequestStop);
      OrderedRun(before, actions);
      var results, done := outcomes, returned;
      while !done
        invariant Counted() && done == returned && stopRequested && |results| == |queue|
        invariant done ==> queue == []
        invariant old(returned) ==> done && View() == before
        invariant if queue == old(queue) then file == old(file) && good == old(good)
                  else Wrote(old(queue), outcomes, flushOk, old(file), old(good), file, good)
        invariant if queue == old(queue) then results == outcomes else queue == []
        invariant View() == Execute(before, actions) && AllInternal(actions)
        decreases |queue| + if done then 0 else 1
      {
        ghost var turn;
        done, turn := Turn(results, flushOk);
        ExecuteSplit(before, actions, turn);
        actions := actions + turn;
        results := [];
      }
      assert file + [] + [] == file;
    }
  }

  lemma {:induction false} OrderedRun(m: Machine, actions: seq<Action>)
    requires Ordered(m)
    ensures Ordered(Execute(m, actions))
  {
    if actions != [] {
      OrderedRun(m, actions[..|actions| - 1]);
      OrderedNext(Execute(m, actions[..|actions| - 1]), actions[|actions| - 1]);
    }
  }
}
