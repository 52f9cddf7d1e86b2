/** The worker pool: a queue of tasks and any number of workers, as interleaved
    steps. Tasks are known by their position in the order of submission. */
module Pool {
  import opened Basics

  datatype State<T> = State(
    workers: nat, stopRequested: bool, tasks: seq<T>, submitted: seq<T>, started: seq<T>,
    running: map<nat, nat>, finished: seq<nat>, exited: set<nat>)

  datatype Action<T> = Submit(task: T) | Take(worker: nat) | Finish(worker: nat) | RequestStop | Exit(worker: nat)

  function Start<T>(workers: nat): State<T> {
    State(if workers == 0 then 1 else workers, false, [], [], [], map[], [], {})
  }

  /** The worker is at the top of its loop, holding the lock. */
  predicate Idle<T>(s: State<T>, w: nat) { w < s.workers && w !in s.running && w !in s.exited }

  function Next<T>(s: State<T>, a: Action<T>): State<T> {
    match a
    case Submit(task) => s.(tasks := s.tasks + [task], submitted := s.submitted + [task])
    case Take(w) =>
      if !Idle(s, w) || s.tasks == [] then s
      else s.(tasks := s.tasks[1..], started := s.started + [s.tasks[0]], running := s.running[w := |s.started|])
    case Finish(w) =>
      if w !in s.running then s
      else s.(running := s.running - {w}, finished := s.finished + [s.running[w]])
    case RequestStop => s.(stopRequested := true)
    case Exit(w) =>
      if Idle(s, w) && s.stopRequested && s.tasks == [] then s.(exited := s.exited + {w}) else s
  }

  function Execute<T>(s: State<T>, actions: seq<Action<T>>): State<T> {
    if actions == [] then s else Next(Execute(s, actions[..|actions| - 1]), actions[|actions| - 1])
  }

  /** Tasks start in submission order; every started one is running on one worker or has
      finished once, never both. */
  ghost predicate ExactlyOnce<T>(s: State<T>) {
    && s.started + s.tasks == s.submitted
    && NoDup(s.finished)
    && (forall w :: w in s.running ==> w < s.workers && w !in s.exited && s.running[w] !in s.finished)
    && (forall w, w' :: w in s.running && w' in s.running && w != w' ==> s.running[w] != s.running[w'])
    && (forall i :: 0 <= i < |s.started| <==> i in s.finished || exists w :: w in s.running && s.running[w] == i)
  }

  lemma TakeOnce<T>(s: State<T>, w: nat)
    requires ExactlyOnce(s) && Idle(s, w) && s.tasks != []
    ensures ExactlyOnce(Next(s, Take(w)))
  {
    var s' := Next(s, Take(w));
    assert s.started + [s.tasks[0]] + s.tasks[1..] == s.started + s.tasks;
    forall i | 0 <= i < |s'.started|
      ensures i in s'.finished || exists v :: v in s'.running && s'.running[v] == i
    {
      if i == |s.started| {
        assert s'.running[w] == i;
      } else if i !in s.finished {
        var v :| v in s.running && s.running[v] == i;
        assert s'.running[v] == i;
      }
    }
  }

  lemma FinishOnce<T>(s: State<T>, w: nat)
    requires ExactlyOnce(s) && w in s.running
    ensures ExactlyOnce(Next(s, Finish(w)))
  {
    var s' := Next(s, Finish(w));
    assert s.running[w] in s'.finished;
    forall i | 0 <= i < |s'.started|
      ensures i in s'.finished || exists v :: v in s'.running && s'.running[v] == i
    {
      if i !in s'.finished {
        var v :| v in s.running && s.running[v] == i;
        assert v in s'.running && s'.running[v] == i;
      }
    }
  }

  lemma NextOnce<T>(s: State<T>, a: Action<T>)
    requires ExactlyOnce(s)
    ensures ExactlyOnce(Next(s, a))
  {
    match a
    case Submit(task) => assert s.started + (s.tasks + [task]) == s.started + s.tasks + [task];
    case Take(w) =>
      if Idle(s, w) && s.tasks != [] {
        TakeOnce(s, w);
      }
    case Finish(w) =>
      if w in s.running {
        FinishOnce(s, w);
      }
    case _ =>
  }

  /** In every run of any number of workers. */
  lemma {:induction false} PoolExactlyOnce<T>(workers: nat, actions: seq<Action<T>>)
    ensures ExactlyOnce(Execute(Start(workers), actions))
    ensures Execute(Start<T>(workers), actions).workers == if workers == 0 then 1 else workers
  {
    if actions != [] {
      PoolExactlyOnce(workers, actions[..|actions| - 1]);
      NextOnce(Execute(Start(workers), actions[..|actions| - 1]), actions[|actions| - 1]);
    }
  }

  lemma NextStays<T>(s: State<T>, a: Action<T>)
    requires s.exited != {} ==> s.stopRequested
    ensures Next(s, a).exited != {} ==> Next(s, a).stopRequested
    ensures Next(s, a).workers == s.workers
  {
  }

  lemma {:induction false} ExitNeedsStop<T>(workers: nat, actions: seq<Action<T>>)
    ensures var s := Execute(Start<T>(workers), actions); s.exited != {} ==> s.stopRequested
  {
    if actions != [] {
      ExitNeedsStop(workers, actions[..|actions| - 1]);
      NextStays(Execute(Start<T>(workers), actions[..|actions| - 1]), actions[|actions| - 1]);
    }
  }

  /** While no stop is requested no worker leaves: each is idle or running a task, and an idle one takes
      the oldest task there is. */
  lemma {:induction false} WorkersStay<T>(workers: nat, actions: seq<Action<T>>, w: nat)
    requires !Execute(Start<T>(workers), actions).stopRequested && w < (if workers == 0 then 1 else workers)
    ensures var s := Execute(Start<T>(workers), actions);
      && s.exited == {} && (Idle(s, w) || w in s.running)
      && (Idle(s, w) && s.tasks != [] ==>
            var s' := Next(s, Take(w));
            w in s'.running && s'.running[w] == |s.started| && s'.started == s.started + [s.tasks[0]])
  {
    ExitNeedsStop(workers, actions);
    PoolExactlyOnce(workers, actions);
  }

  ghost predicate AllExited<T>(s: State<T>) { forall w :: 0 <= w < s.workers ==> w in s.exited }

  /** Every submitted task has run, each once. */
  ghost predicate AllRun<T>(s: State<T>) {
    s.started == s.submitted && NoDup(s.finished) && forall i :: i in s.finished <==> 0 <= i < |s.submitted|
  }

  lemma ExitedMeansRun<T>(s: State<T>)
    requires ExactlyOnce(s) && AllExited(s) && s.tasks == []
    ensures AllRun(s)
  {
    assert s.started + [] == s.started;
    assert forall w :: w !in s.running;
  }

  lemma ExecuteSnoc<T>(s: State<T>, actions: seq<Action<T>>, a: Action<T>)
    ensures Execute(s, actions + [a]) == Next(Execute(s, actions), a)
  {
    assert (actions + [a])[..|actions + [a]| - 1] == actions;
  }

  /** When the last worker leaves its loop every task submitted so far has run, and this stays so
      until another is submitted. */
  lemma {:induction false} PoolDrains<T>(workers: nat, actions: seq<Action<T>>, w: nat, after: seq<Action<T>>)
    requires var s := Execute(Start<T>(workers), actions); !AllExited(s) && AllExited(Next(s, Exit(w)))
    requires forall a :: a in after ==> !a.Submit?
    ensures AllRun(Execute(Start<T>(workers), actions + [Exit(w)] + after))
    ensures AllExited(Execute(Start<T>(workers), actions + [Exit(w)] + after))
    decreases |after|
  {
    var all := actions + [Exit(w)];
    if after == [] {
      assert all + after == all;
      ExecuteSnoc(Start<T>(workers), actions, Exit(w));
      PoolExactlyOnce(workers, all);
      ExitedMeansRun(Execute(Start<T>(workers), all));
    } else {
      var before, a := after[..|after| - 1], after[|after| - 1];
      assert a in after;
      PoolDrains(workers, actions, w, before);
      assert all + after == all + before + [a];
      ExecuteSnoc(Start<T>(workers), all + before, a);
      AfterExit(workers, all + before, a);
    }
  }

  lemma AfterExit<T>(workers: nat, actions: seq<Action<T>>, a: Action<T>)
    requires var s := Execute(Start<T>(workers), actions); AllExited(s) && AllRun(s) && !a.Submit?
    ensures var s := Next(Execute(Start<T>(workers), actions), a); AllExited(s) && AllRun(s)
  {
    var s := Execute(Start<T>(workers), actions);
    PoolExactlyOnce(workers, actions);
    assert s.tasks == [] by {
      assert |s.started + s.tasks| == |s.started|;
    }
  }

  // ----- The program -----

  /** What the locked part of the worker loop decides. */
  datatype Decision<T> = Leave | Again | Perform(task: T)

  class ThreadPool<T(==)> {
    const workers: nat
    var stopRequested: bool
    var tasks: seq<T>
    ghost var submitted: seq<T>
    ghost var started: seq<T>
    ghost var running: map<nat, nat>
    ghost var finished: seq<nat>
    ghost var exited: set<nat>

    ghost function View(): State<T>
      reads this
    {
      State(workers, stopRequested, tasks, submitted, started, running, finished, exited)
    }

    ghost predicate Valid()
      reads this
    {
      ExactlyOnce(View())
    }

    constructor (numThreads: nat)
      ensures Valid() && View() == Start(numThreads)
      ensures workers == (if numThreads == 0 then 1 else numThreads) && !stopRequested && tasks == []
    {
      workers := if numThreads == 0 then 1 else numThreads;
      stopRequested, tasks := false, [];
      submitted, started, running, finished, exited := [], [], map[], [], {};
    }

    method Submit(task: T)
      requires Valid()
      modifies this
      ensures Valid() && View() == Next(old(View()), Action.Submit(task))
    {
      NextOnce(View(), Action.Submit(task));
      tasks := tasks + [task];
      submitted := submitted + [task];
    }

    /** One turn of the loop of an idle worker up to running the task: it takes the oldest task not yet
        started, or leaves on a stop request with nothing left to start, or waits again. */
    method NextTask(w: nat) returns (decision: Decision<T>)
      requires Valid() && Idle(View(), w)
      modifies this
      ensures Valid()
      ensures decision.Perform? <==> old(tasks) != []
      ensures decision.Leave? <==> old(tasks) == [] && old(stopRequested)
      ensures match decision
        case Perform(task) => old(tasks) != [] && task == old(tasks[0]) && View() == Next(old(View()), Take(w))
        case Leave => View() == Next(old(View()), Exit(w)) && w in View().exited
        case Again => View() == old(View()) && tasks == [] && !stopRequested
    {
      if tasks == [] {
        if !stopRequested {
          return Again;
        }
        NextOnce(View(), Exit(w));
        exited := exited + {w};
        return Leave;
      }
      NextOnce(View(), Take(w));
      decision := Perform(tasks[0]);
      running := running[w := |started|];
      started := started + [tasks[0]];
      tasks := tasks[1..];
    }

    /** The task a worker ran has returned. */
    method Finished(w: nat)
      requires Valid() && w in View().running
      modifies this
      ensures Valid() && View() == Next(old(View()), Finish(w))
    {
      NextOnce(View(), Finish(w));
      finished := finished + [running[w]];
      running := running - {w};
    }

    method Shutdown()
      requires Valid()
      modifies this
      ensures Valid() && View() == Next(old(View()), RequestStop)
    {
      NextOnce(View(), RequestStop);
      stopRequested := true;
    }
  }
}
