/** The event loop and the workers on the connections they share, as interleaved
    steps. Connections are identities that are never reused. */
module Server {
  import opened Basics
  import opened Framing
  import Pool

  /** `received` records all bytes read from the connection, `batches` the commands each read handed to
      the loop, `dropped` those of a read that found the error flag set, and `dispatched` what was
      dispatched for it. */
  datatype Conn = Conn(inFlight: bool, error: bool, open: bool, buffer: string, received: string,
                       batches: seq<seq<string>>, dropped: seq<string>, dispatched: seq<string>)

  const NEW_CONN := Conn(false, false, true, "", "", [], [], [])

  datatype Task = Task(conn: nat, line: string)

  datatype Stage = Started | Dispatched | Sent

  datatype Job = Job(task: Task, stage: Stage)

  /** Where the event loop is inside `handleRead`. */
  datatype Loop =
    | Waiting
    | Checked(conn: nat)
    | Parsed(conn: nat, commands: seq<string>)
    | Claimed(conn: nat, line: string)
    | Refused(conn: nat, commands: seq<string>)

  datatype State = State(conns: map<nat, Conn>, loop: Loop, queue: seq<Task>, running: map<nat, Job>)

  const START := State(map[], Waiting, [], map[])

  datatype Action =
    | Accept(conn: nat)
    | Hangup(conn: nat)
    | Readable(conn: nat)
    | Receive(received: Received)
    | Claim
    | SubmitTask
    | Fallback
    | Take(worker: nat)
    | Dispatch(worker: nat)
    | Send(worker: nat, failed: bool)
    | Clear(worker: nat)

  function Close(s: State, c: nat): State
    requires c in s.conns
  {
    s.(conns := s.conns[c := s.conns[c].(open := false)], loop := Waiting)
  }

  /** The read and the error check of `handleRead`: the bytes are taken in and cut before the flag is
      looked at, and what they yield is dropped with the connection if it is set. */
  function Read(s: State, c: nat, r: Received): State
    requires c in s.conns
  {
    var conn := s.conns[c];
    var f := Intake(conn.buffer, r);
    if conn.error || r.Failed? || r.Closed? then
      s.(conns := s.conns[c := AfterError(conn, r)], loop := Waiting)
    else if r.WouldBlock? then s.(loop := Waiting)
    else
      s.(conns := s.conns[c := AfterRead(conn, r.bytes)],
         loop := if f.commands == [] then Waiting else Parsed(c, f.commands))
  }

  function AfterError(conn: Conn, r: Received): (conn': Conn)
    ensures conn'.inFlight == conn.inFlight && conn'.dispatched == conn.dispatched && conn'.batches == conn.batches
  {
    var f := Intake(conn.buffer, r);
    conn.(error := true, open := false, buffer := f.buffer, dropped := conn.dropped + f.commands,
          received := conn.received + if r.Data? then r.bytes else "")
  }

  function AfterRead(conn: Conn, bytes: string): (conn': Conn)
    ensures conn'.inFlight == conn.inFlight && conn'.dispatched == conn.dispatched
  {
    var f := Feed(conn.buffer, bytes);
    conn.(buffer := f.buffer, received := conn.received + bytes, batches := conn.batches + [f.commands])
  }

  /** One atomic step; a step that is not possible changes nothing. */
  function Next(s: State, a: Action): State {
    match a
    case Accept(c) => if c in s.conns || !s.loop.Waiting? then s else s.(conns := s.conns[c := NEW_CONN])
    case Hangup(c) => if c in s.conns && s.loop.Waiting? then Close(s, c) else s
    case Readable(c) =>
      if c in s.conns && s.loop.Waiting? && s.conns[c].open && !s.conns[c].inFlight then s.(loop := Checked(c)) else s
    case Receive(r) => if s.loop.Checked? && s.loop.conn in s.conns then Read(s, s.loop.conn, r) else s
    case Claim =>
      if !(s.loop.Parsed? && s.loop.conn in s.conns && s.loop.commands != []) then s
      else
        var c := s.loop.conn;
        if s.conns[c].inFlight then s.(loop := Refused(c, s.loop.commands))
        else s.(conns := s.conns[c := s.conns[c].(inFlight := true)], loop := Claimed(c, s.loop.commands[0]))
    case SubmitTask =>
      if !s.loop.Claimed? then s else s.(queue := s.queue + [Task(s.loop.conn, s.loop.line)], loop := Waiting)
    case Fallback =>
      if !(s.loop.Refused? && s.loop.conn in s.conns && s.loop.commands != []) then s
      else
        var c, rest := s.loop.conn, s.loop.commands[1..];
        var conn := s.conns[c].(dispatched := s.conns[c].dispatched + [s.loop.commands[0]]);
        s.(conns := s.conns[c := conn], loop := if rest == [] then Waiting else Parsed(c, rest))
    case Take(w) =>
      if w in s.running || s.queue == [] then s
      else s.(queue := s.queue[1..], running := s.running[w := Job(s.queue[0], Started)])
    case Dispatch(w) =>
      if !(w in s.running && s.running[w].stage == Started && s.running[w].task.conn in s.conns) then s
      else
        var t := s.running[w].task;
        var conn := s.conns[t.conn].(dispatched := s.conns[t.conn].dispatched + [t.line]);
        s.(conns := s.conns[t.conn := conn], running := s.running[w := Job(t, Dispatched)])
    case Send(w, failed) =>
      if !(w in s.running && s.running[w].stage == Dispatched && s.running[w].task.conn in s.conns) then s
      else
        var t := s.running[w].task;
        var conn := s.conns[t.conn];
        s.(conns := s.conns[t.conn := conn.(error := conn.error || failed)], running := s.running[w := Job(t, Sent)])
    case Clear(w) =>
      if !(w in s.running && s.running[w].stage == Sent && s.running[w].task.conn in s.conns) then s
      else
        var c := s.running[w].task.conn;
        s.(conns := s.conns[c := s.conns[c].(inFlight := false)], running := s.running - {w})
  }

  function Execute(actions: seq<Action>): State {
    if actions == [] then START else Next(Execute(actions[..|actions| - 1]), actions[|actions| - 1])
  }

  // ----- One task in flight -----

  /** Where a task of a connection can be: between claim and submit, queued, or on a worker. */
  predicate InLoop(s: State, c: nat) { s.loop.Claimed? && s.loop.conn == c }

  predicate InQueue(s: State, c: nat) { exists i :: 0 <= i < |s.queue| && s.queue[i].conn == c }

  predicate OnWorker(s: State, c: nat) { exists w :: w in s.running && s.running[w].task.conn == c }

  ghost predicate Known(s: State) {
    && (!s.loop.Waiting? ==> s.loop.conn in s.conns)
    && (forall i :: 0 <= i < |s.queue| ==> s.queue[i].conn in s.conns)
    && (forall w :: w in s.running ==> s.running[w].task.conn in s.conns)
  }

  /** No connection has two tasks, wherever they are. */
  ghost predicate Single(s: State) {
    && (forall i, j :: 0 <= i < j < |s.queue| ==> s.queue[i].conn != s.queue[j].conn)
    && (forall w, w' :: w in s.running && w' in s.running && w != w' ==>
          s.running[w].task.conn != s.running[w'].task.conn)
    && (forall c :: InQueue(s, c) ==> !OnWorker(s, c))
    && (forall c :: InLoop(s, c) ==> !InQueue(s, c) && !OnWorker(s, c))
  }

  /** The flag is set exactly while a task exists; the loop only reads from a connection whose flag
      is clear. */
  ghost predicate Flagged(s: State) {
    && (forall c :: c in s.conns ==> (s.conns[c].inFlight <==> InLoop(s, c) || InQueue(s, c) || OnWorker(s, c)))
    && (s.loop.Checked? || s.loop.Parsed? ==> s.loop.conn in s.conns && !s.conns[s.loop.conn].inFlight)
    && (s.loop.Parsed? ==> s.loop.commands != [])
    && !s.loop.Refused?
  }

  ghost predicate Exclusive(s: State) { Known(s) && Single(s) && Flagged(s) }

  lemma TakeOwners(s: State, w: nat, c: nat)
    requires Single(s) && w !in s.running && s.queue != []
    ensures var s', k := Next(s, Take(w)), s.queue[0].conn;
      && (InQueue(s', c) <==> InQueue(s, c) && c != k)
      && (OnWorker(s', c) <==> OnWorker(s, c) || c == k)
  {
    var s', k := Next(s, Take(w)), s.queue[0].conn;
    assert s'.running[w].task.conn == k;
    if InQueue(s', c) {
      var i :| 0 <= i < |s'.queue| && s'.queue[i].conn == c;
      assert s.queue[i + 1].conn == c;
    }
    if InQueue(s, c) && c != k {
      var i :| 0 <= i < |s.queue| && s.queue[i].conn == c;
      assert s'.queue[i - 1].conn == c;
    }
    if OnWorker(s, c) {
      var v :| v in s.running && s.running[v].task.conn == c;
      assert s'.running[v].task.conn == c;
    }
  }

  /** The oldest queued task is of a connection that is on no worker. */
  lemma QueuedIsNew(s: State, v: nat)
    requires Single(s) && s.queue != [] && v in s.running
    ensures s.running[v].task.conn != s.queue[0].conn
  {
    assert InQueue(s, s.queue[0].conn);
    assert OnWorker(s, s.running[v].task.conn);
  }

  lemma TakeSingle(s: State, w: nat)
    requires Single(s) && w !in s.running && s.queue != []
    ensures Single(Next(s, Take(w)))
  {
    hide InQueue, OnWorker;
    var s' := Next(s, Take(w));
    forall c
      ensures InQueue(s', c) ==> InQueue(s, c) && c != s.queue[0].conn
      ensures InQueue(s', c) ==> !OnWorker(s', c)
      ensures InLoop(s', c) ==> !InQueue(s', c) && !OnWorker(s', c)
    {
      TakeOwners(s, w, c);
      HeadQueued(s);
    }
    forall v | v in s.running
      ensures s.running[v].task.conn != s.queue[0].conn
    {
      QueuedIsNew(s, v);
    }
    assert forall i :: 0 <= i < |s'.queue| ==> s'.queue[i] == s.queue[i + 1];
  }

  lemma HeadQueued(s: State)
    requires s.queue != []
    ensures InQueue(s, s.queue[0].conn)
  {
  }

  lemma TakeFlagged(s: State, w: nat)
    requires Exclusive(s) && w !in s.running && s.queue != []
    ensures Flagged(Next(s, Take(w)))
  {
    hide InQueue, OnWorker, Single, Known;
    forall c
      ensures var s' := Next(s, Take(w)); InQueue(s', c) || OnWorker(s', c) <==> InQueue(s, c) || OnWorker(s, c)
    {
      TakeOwners(s, w, c);
      HeadQueued(s);
    }
  }

  lemma TakeExclusive(s: State, w: nat)
    requires Exclusive(s) && w !in s.running && s.queue != []
    ensures Exclusive(Next(s, Take(w)))
  {
    TakeSingle(s, w);
    TakeFlagged(s, w);
    hide Single, Flagged;
    var s' := Next(s, Take(w));
    assert forall i :: 0 <= i < |s'.queue| ==> s'.queue[i] == s.queue[i + 1];
  }

  lemma SubmitExclusive(s: State)
    requires Exclusive(s) && s.loop.Claimed?
    ensures Exclusive(Next(s, SubmitTask))
  {
    var s', k := Next(s, SubmitTask), s.loop.conn;
    assert InLoop(s, k);
    forall c
      ensures InQueue(s', c) <==> InQueue(s, c) || c == k
      ensures OnWorker(s', c) == OnWorker(s, c)
    {
      assert s'.queue[|s.queue|].conn == k;
      if InQueue(s, c) {
        var i :| 0 <= i < |s.queue| && s.queue[i].conn == c;
        assert s'.queue[i].conn == c;
      }
    }
  }

  lemma ClearOwners(s: State, w: nat, c: nat)
    requires Exclusive(s) && w in s.running && s.running[w].stage == Sent
    ensures var s', k := Next(s, Clear(w)), s.running[w].task.conn;
      && (OnWorker(s', c) <==> OnWorker(s, c) && c != k)
      && InQueue(s', c) == InQueue(s, c) && InLoop(s', c) == InLoop(s, c)
      && (c == k ==> !InQueue(s, c) && !InLoop(s, c))
  {
    var s', k := Next(s, Clear(w)), s.running[w].task.conn;
    assert OnWorker(s, k);
    if OnWorker(s, c) && c != k {
      var v :| v in s.running && s.running[v].task.conn == c;
      assert v in s'.running && s'.running[v].task.conn == c;
    }
  }

  lemma ClearExclusive(s: State, w: nat)
    requires Exclusive(s) && w in s.running && s.running[w].stage == Sent
    ensures Exclusive(Next(s, Clear(w)))
  {
    hide OnWorker, InQueue, InLoop;
    var s', k := Next(s, Clear(w)), s.running[w].task.conn;
    forall c
      ensures OnWorker(s', c) <==> OnWorker(s, c) && c != k
      ensures InQueue(s', c) == InQueue(s, c) && InLoop(s', c) == InLoop(s, c)
      ensures c == k ==> !InQueue(s, c) && !InLoop(s, c)
    {
      ClearOwners(s, w, c);
    }
  }

  /** A step that leaves queue and task owners alone and claims nothing. */
  lemma SameOwners(s: State, s': State, c: nat)
    requires s'.queue == s.queue && s'.running.Keys == s.running.Keys
    requires forall w :: w in s.running ==> s'.running[w].task == s.running[w].task
    ensures InQueue(s', c) == InQueue(s, c) && OnWorker(s', c) == OnWorker(s, c)
  {
    if OnWorker(s, c) {
      var w :| w in s.running && s.running[w].task.conn == c;
      assert w in s'.running;
    }
    if OnWorker(s', c) {
      var w :| w in s'.running && s'.running[w].task.conn == c;
      assert w in s.running;
    }
  }

  lemma AcceptExclusive(s: State, c: nat)
    requires Exclusive(s) && c !in s.conns && s.loop.Waiting?
    ensures Exclusive(Next(s, Accept(c)))
  {
    NoTaskOfUnknown(s, c);
    hide InQueue, OnWorker;
    forall k
      ensures InQueue(Next(s, Accept(c)), k) == InQueue(s, k) && OnWorker(Next(s, Accept(c)), k) == OnWorker(s, k)
    {
      SameOwners(s, Next(s, Accept(c)), k);
    }
  }

  lemma NoTaskOfUnknown(s: State, c: nat)
    requires Known(s) && c !in s.conns
    ensures !InLoop(s, c) && !InQueue(s, c) && !OnWorker(s, c)
  {
  }

  /** Steps of the loop that submit nothing. */
  lemma LoopExclusive(s: State, a: Action)
    requires Exclusive(s) && (a.Hangup? || a.Readable? || a.Claim? || a.Fallback?)
    ensures Exclusive(Next(s, a))
  {
    hide InQueue, OnWorker;
    forall c
      ensures InQueue(Next(s, a), c) == InQueue(s, c) && OnWorker(Next(s, a), c) == OnWorker(s, c)
    {
      SameOwners(s, Next(s, a), c);
    }
  }

  lemma ReceiveKeeps(s: State, r: Received)
    ensures var s' := Next(s, Receive(r));
      && s'.queue == s.queue && s'.running == s.running && s'.conns.Keys == s.conns.Keys
      && (forall c :: c in s.conns ==> s'.conns[c].inFlight == s.conns[c].inFlight)
      && (s'.loop == s.loop
          || (s.loop.Checked? && (s'.loop.Waiting? || (s'.loop.Parsed? && s'.loop.conn == s.loop.conn
                                                       && s'.loop.commands != []))))
  {
    hide Intake, AfterRead, AfterError;
  }

  lemma ReceiveExclusive(s: State, r: Received)
    requires Exclusive(s)
    ensures Exclusive(Next(s, Receive(r)))
  {
    hide InQueue, OnWorker, Next;
    ReceiveKeeps(s, r);
    forall c
      ensures InQueue(Next(s, Receive(r)), c) == InQueue(s, c) && OnWorker(Next(s, Receive(r)), c) == OnWorker(s, c)
    {
      SameOwners(s, Next(s, Receive(r)), c);
    }
  }

  /** Steps of a worker that keep its task and the flags. */
  lemma WorkExclusive(s: State, s': State)
    requires Exclusive(s) && s'.queue == s.queue && s'.loop == s.loop
    requires s'.running.Keys == s.running.Keys && forall w :: w in s.running ==> s'.running[w].task == s.running[w].task
    requires s'.conns.Keys == s.conns.Keys && forall c :: c in s.conns ==> s'.conns[c].inFlight == s.conns[c].inFlight
    ensures Exclusive(s')
  {
    hide InQueue, OnWorker;
    forall c
      ensures InQueue(s', c) == InQueue(s, c) && OnWorker(s', c) == OnWorker(s, c)
    {
      SameOwners(s, s', c);
    }
  }

  lemma NextExclusive(s: State, a: Action)
    requires Exclusive(s)
    ensures Exclusive(Next(s, a))
  {
    hide Exclusive;
    match a
    case Take(w) =>
      if w !in s.running && s.queue != [] {
        TakeExclusive(s, w);
      }
    case SubmitTask =>
      if s.loop.Claimed? {
        SubmitExclusive(s);
      }
    case Clear(w) =>
      if w in s.running && s.running[w].stage == Sent {
        ClearExclusive(s, w);
      }
    case Receive(r) => ReceiveExclusive(s, r);
    case Dispatch(_) => WorkExclusive(s, Next(s, a));
    case Send(_, _) => WorkExclusive(s, Next(s, a));
    case Accept(c) =>
      if c !in s.conns && s.loop.Waiting? {
        AcceptExclusive(s, c);
      }
    case _ => LoopExclusive(s, a);
  }

  lemma {:induction false} AlwaysExclusive(actions: seq<Action>)
    ensures Exclusive(Execute(actions))
  {
    if actions != [] {
      AlwaysExclusive(actions[..|actions| - 1]);
      NextExclusive(Execute(actions[..|actions| - 1]), actions[|actions| - 1]);
    }
  }

  /** In every reachable state of the loop and any number of workers a connection's flag is set
      exactly when one task of it exists, never two; setting the flag never fails, so the
      synchronous fallback is not reached. */
  lemma {:induction false} OneTaskInFlight(actions: seq<Action>)
    ensures var s := Execute(actions);
      && Single(s) && !s.loop.Refused?
      && (forall c :: c in s.conns ==> (s.conns[c].inFlight <==> InLoop(s, c) || InQueue(s, c) || OnWorker(s, c)))
      && (s.loop.Parsed? ==> Next(s, Claim).loop.Claimed?)
  {
    AlwaysExclusive(actions);
  }

  // ----- Commands are dispatched in order -----

  /** The first command of every read. */
  function Firsts(batches: seq<seq<string>>): seq<string> {
    if batches == [] then []
    else
      var last := batches[|batches| - 1];
      Firsts(batches[..|batches| - 1]) + if last == [] then [] else [last[0]]
  }

  function Flatten(batches: seq<seq<string>>): seq<string> {
    if batches == [] then [] else Flatten(batches[..|batches| - 1]) + batches[|batches| - 1]
  }

  lemma BatchSnoc(batches: seq<seq<string>>, batch: seq<string>)
    ensures Firsts(batches + [batch]) == Firsts(batches) + if batch == [] then [] else [batch[0]]
    ensures Flatten(batches + [batch]) == Flatten(batches) + batch
  {
    assert (batches + [batch])[..|batches + [batch]| - 1] == batches;
  }

  lemma {:induction false} FirstsAreAll(batches: seq<seq<string>>)
    ensures |Firsts(batches)| <= |Flatten(batches)|
    ensures Firsts(batches) == Flatten(batches) <==> forall i :: 0 <= i < |batches| ==> |batches[i]| <= 1
    ensures Firsts(batches) == Flatten(batches) <==> |Firsts(batches)| == |Flatten(batches)|
  {
    if batches != [] {
      var n := |batches| - 1;
      var last := batches[n];
      FirstsAreAll(batches[..n]);
      assert |last| == 1 ==> [last[0]] == last;
      assert (forall i :: 0 <= i < |batches| ==> |batches[i]| <= 1)
        <==> |last| <= 1 && forall i :: 0 <= i < n ==> |batches[..n][i]| <= 1;
    }
  }

  predicate StartedOn(s: State, c: nat) {
    exists w :: w in s.running && s.running[w].task.conn == c && s.running[w].stage == Started
  }

  /** A command of `c` is on its way to being dispatched. */
  predicate Awaiting(s: State, c: nat) {
    (s.loop.Parsed? && s.loop.conn == c) || InLoop(s, c) || InQueue(s, c) || StartedOn(s, c)
  }

  /** `line` is the one command of `c` handed over and not yet dispatched. */
  ghost predicate Due(s: State, c: nat, line: string) {
    c in s.conns && s.conns[c].dispatched + [line] == Firsts(s.conns[c].batches)
  }

  /** Every command on its way is the due one of its connection. */
  ghost predicate AllDue(s: State) {
    && (s.loop.Parsed? && s.loop.commands != [] ==> Due(s, s.loop.conn, s.loop.commands[0]))
    && (s.loop.Claimed? ==> Due(s, s.loop.conn, s.loop.line))
    && (forall i :: 0 <= i < |s.queue| ==> Due(s, s.queue[i].conn, s.queue[i].line))
    && (forall w :: w in s.running && s.running[w].stage == Started ==>
          Due(s, s.running[w].task.conn, s.running[w].task.line))
  }

  /** A connection with nothing on its way has had all it handed over dispatched. */
  ghost predicate AllSettled(s: State) {
    forall c :: c in s.conns && !Awaiting(s, c) ==> s.conns[c].dispatched == Firsts(s.conns[c].batches)
  }

  ghost predicate InOrder(s: State) { AllDue(s) && AllSettled(s) }

  lemma StartedKept(s: State, s': State, c: nat)
    requires forall w :: w in s.running && s.running[w].stage == Started && s.running[w].task.conn == c ==>
      w in s'.running && s'.running[w] == s.running[w]
    ensures StartedOn(s, c) ==> StartedOn(s', c)
  {
    if StartedOn(s, c) {
      var v :| v in s.running && s.running[v].task.conn == c && s.running[v].stage == Started;
      assert s'.running[v] == s.running[v];
    }
  }

  lemma TakeAwaits(s: State, w: nat, c: nat)
    requires w !in s.running && s.queue != [] && Awaiting(s, c)
    ensures Awaiting(Next(s, Take(w)), c)
  {
    var s' := Next(s, Take(w));
    StartedKept(s, s', c);
    if InQueue(s, c) {
      var i :| 0 <= i < |s.queue| && s.queue[i].conn == c;
      if i == 0 {
        assert s'.running[w] == Job(s.queue[0], Started);
      } else {
        assert s'.queue[i - 1].conn == c;
      }
    }
  }

  lemma TakeInOrder(s: State, w: nat)
    requires InOrder(s) && w !in s.running && s.queue != []
    ensures InOrder(Next(s, Take(w)))
  {
    var s' := Next(s, Take(w));
    forall c | Awaiting(s, c)
      ensures Awaiting(s', c)
    {
      TakeAwaits(s, w, c);
    }
    forall i | 0 <= i < |s'.queue|
      ensures Due(s', s'.queue[i].conn, s'.queue[i].line)
    {
      assert s'.queue[i] == s.queue[i + 1];
    }
  }

  lemma SubmitInOrder(s: State)
    requires InOrder(s) && s.loop.Claimed?
    ensures InOrder(Next(s, SubmitTask))
  {
    var s' := Next(s, SubmitTask);
    forall c | Awaiting(s, c)
      ensures Awaiting(s', c)
    {
      assert s'.queue[|s.queue|].conn == s.loop.conn;
      if InQueue(s, c) {
        var i :| 0 <= i < |s.queue| && s.queue[i].conn == c;
        assert s'.queue[i].conn == c;
      }
    }
  }

  /** The running task of `k` is its only one. */
  lemma OnlyOne(s: State, w: nat)
    requires Exclusive(s) && w in s.running
    ensures var k := s.running[w].task.conn;
      && k in s.conns && !(s.loop.Parsed? && s.loop.conn == k) && !(s.loop.Claimed? && s.loop.conn == k)
      && (forall i :: 0 <= i < |s.queue| ==> s.queue[i].conn != k)
      && (forall v :: v in s.running && v != w ==> s.running[v].task.conn != k)
  {
    var k := s.running[w].task.conn;
    assert OnWorker(s, k);
    forall i | 0 <= i < |s.queue|
      ensures s.queue[i].conn != k
    {
      assert InQueue(s, s.queue[i].conn);
    }
  }

  /** Dispatching the one due command of a connection. */
  lemma DispatchInOrder(s: State, w: nat)
    requires Exclusive(s) && InOrder(s) && w in s.running && s.running[w].stage == Started
    ensures InOrder(Next(s, Dispatch(w)))
  {
    OnlyOne(s, w);
    var t := s.running[w].task;
    assert Due(s, t.conn, t.line);
    DispatchDue(s, w);
    DispatchSettled(s, w);
  }

  /** `c` has the same history in both states. */
  predicate SameHistory(s: State, s': State, c: nat) {
    && c in s.conns && c in s'.conns
    && s'.conns[c].dispatched == s.conns[c].dispatched && s'.conns[c].batches == s.conns[c].batches
  }

  /** Queued and started tasks stay due if their connections' histories do not change. */
  lemma TasksStayDue(s: State, s': State)
    requires AllDue(s) && s'.queue == s.queue
    requires forall i :: 0 <= i < |s.queue| && s.queue[i].conn in s.conns ==> SameHistory(s, s', s.queue[i].conn)
    requires forall w :: w in s'.running && s'.running[w].stage == Started ==>
      && w in s.running && s'.running[w] == s.running[w]
      && (s.running[w].task.conn in s.conns ==> SameHistory(s, s', s.running[w].task.conn))
    ensures forall i :: 0 <= i < |s'.queue| ==> Due(s', s'.queue[i].conn, s'.queue[i].line)
    ensures forall w :: w in s'.running && s'.running[w].stage == Started ==>
      Due(s', s'.running[w].task.conn, s'.running[w].task.line)
  {
    hide Firsts;
    forall i | 0 <= i < |s'.queue|
      ensures Due(s', s'.queue[i].conn, s'.queue[i].line)
    {
      assert Due(s, s.queue[i].conn, s.queue[i].line);
    }
    forall w | w in s'.running && s'.running[w].stage == Started
      ensures Due(s', s'.running[w].task.conn, s'.running[w].task.line)
    {
      assert Due(s, s.running[w].task.conn, s.running[w].task.line);
    }
  }

  lemma DispatchDue(s: State, w: nat)
    requires AllDue(s) && w in s.running && s.running[w].stage == Started && s.running[w].task.conn in s.conns
    requires var k := s.running[w].task.conn;
      && !(s.loop.Parsed? && s.loop.conn == k) && !(s.loop.Claimed? && s.loop.conn == k)
      && (forall i :: 0 <= i < |s.queue| ==> s.queue[i].conn != k)
      && (forall v :: v in s.running && v != w ==> s.running[v].task.conn != k)
    ensures AllDue(Next(s, Dispatch(w)))
  {
    hide Firsts;
    TasksStayDue(s, Next(s, Dispatch(w)));
  }

  lemma DispatchSettled(s: State, w: nat)
    requires AllSettled(s) && w in s.running && s.running[w].stage == Started
    requires Due(s, s.running[w].task.conn, s.running[w].task.line)
    ensures AllSettled(Next(s, Dispatch(w)))
  {
    hide Firsts;
    var s', k := Next(s, Dispatch(w)), s.running[w].task.conn;
    forall c | c != k
      ensures Awaiting(s, c) ==> Awaiting(s', c)
    {
      StartedKept(s, s', c);
    }
  }

  /** Steps that neither hand over nor dispatch a command. */
  lemma QuietInOrder(s: State, s': State)
    requires InOrder(s) && s'.queue == s.queue
    requires forall c :: c in s.conns ==> SameHistory(s, s', c)
    requires forall c :: c in s'.conns && c !in s.conns ==> s'.conns[c] == NEW_CONN
    requires forall w :: w in s'.running && s'.running[w].stage == Started ==>
      w in s.running && s'.running[w] == s.running[w]
    requires forall w :: w in s.running && s.running[w].stage == Started ==>
      w in s'.running && s'.running[w] == s.running[w]
    requires s'.loop.Parsed? || s'.loop.Claimed? || s.loop.Parsed? || s.loop.Claimed? ==> s'.loop == s.loop
    ensures InOrder(s')
  {
    TasksStayDue(s, s');
    forall c
      ensures Awaiting(s, c) ==> Awaiting(s', c)
    {
      StartedKept(s, s', c);
    }
    assert forall c :: c in s.conns ==> SameHistory(s, s', c);
  }

  lemma ClaimInOrder(s: State)
    requires Exclusive(s) && InOrder(s) && s.loop.Parsed?
    ensures InOrder(Next(s, Claim))
  {
    hide Firsts, Single;
    var s' := Next(s, Claim);
    assert InLoop(s', s.loop.conn);
    assert forall c :: c in s.conns ==> SameHistory(s, s', c);
    TasksStayDue(s, s');
    assert forall c :: Awaiting(s, c) ==> Awaiting(s', c);
  }

  /** A read hands over the first of its commands, when nothing else of the connection is due. */
  lemma ReadInOrder(s: State, bytes: string)
    requires Exclusive(s) && InOrder(s) && s.loop.Checked? && !s.conns[s.loop.conn].error
    ensures InOrder(Next(s, Receive(Data(bytes))))
  {
    hide Firsts, Feed;
    var k := s.loop.conn;
    NothingDue(s, k);
    BatchSnoc(s.conns[k].batches, Feed(s.conns[k].buffer, bytes).commands);
    ReadDue(s, k, bytes);
    ReadSettled(s, k, bytes);
  }

  lemma ReadDue(s: State, k: nat, bytes: string)
    requires AllDue(s) && k in s.conns && s.loop == Checked(k) && !s.conns[k].error
    requires s.conns[k].dispatched == Firsts(s.conns[k].batches)
    requires forall i :: 0 <= i < |s.queue| ==> s.queue[i].conn != k
    requires forall w :: w in s.running ==> s.running[w].task.conn != k
    requires var batch := Feed(s.conns[k].buffer, bytes).commands;
      Firsts(s.conns[k].batches + [batch]) == Firsts(s.conns[k].batches) + if batch == [] then [] else [batch[0]]
    ensures AllDue(Next(s, Receive(Data(bytes))))
  {
    hide Firsts, Feed;
    TasksStayDue(s, Next(s, Receive(Data(bytes))));
  }

  lemma ReadSettled(s: State, k: nat, bytes: string)
    requires AllSettled(s) && k in s.conns && s.loop == Checked(k) && !s.conns[k].error
    requires s.conns[k].dispatched == Firsts(s.conns[k].batches)
    requires var batch := Feed(s.conns[k].buffer, bytes).commands;
      Firsts(s.conns[k].batches + [batch]) == Firsts(s.conns[k].batches) + if batch == [] then [] else [batch[0]]
    ensures AllSettled(Next(s, Receive(Data(bytes))))
  {
    hide Firsts, Feed;
    var s' := Next(s, Receive(Data(bytes)));
    forall c
      ensures Awaiting(s, c) ==> Awaiting(s', c)
    {
      StartedKept(s, s', c);
    }
  }

  lemma NothingDue(s: State, k: nat)
    requires Exclusive(s) && k in s.conns && !s.conns[k].inFlight && !(s.loop.Parsed? && s.loop.conn == k)
    ensures !Awaiting(s, k)
    ensures forall i :: 0 <= i < |s.queue| ==> s.queue[i].conn != k
    ensures forall w :: w in s.running ==> s.running[w].task.conn != k
  {
    assert !InLoop(s, k) && !InQueue(s, k) && !OnWorker(s, k);
  }

  lemma ReceiveInOrder(s: State, r: Received)
    requires Exclusive(s) && InOrder(s)
    ensures InOrder(Next(s, Receive(r)))
  {
    hide InOrder, Single, Flagged, Intake, Feed;
    if s.loop.Checked? && r.Data? && !s.conns[s.loop.conn].error {
      ReadInOrder(s, r.bytes);
    } else {
      QuietInOrder(s, Next(s, Receive(r)));
    }
  }

  lemma WorkerInOrder(s: State, a: Action)
    requires Exclusive(s) && InOrder(s) && (a.Take? || a.Dispatch? || a.Send? || a.Clear?)
    ensures InOrder(Next(s, a))
  {
    hide InOrder, Exclusive;
    if a.Take? && a.worker !in s.running && s.queue != [] {
      TakeInOrder(s, a.worker);
    } else if a.Dispatch? && a.worker in s.running && s.running[a.worker].stage == Started {
      DispatchInOrder(s, a.worker);
    } else {
      QuietInOrder(s, Next(s, a));
    }
  }

  lemma LoopInOrder(s: State, a: Action)
    requires Exclusive(s) && InOrder(s) && (a.Accept? || a.Hangup? || a.Readable? || a.Claim? || a.Fallback?)
    ensures InOrder(Next(s, a))
  {
    hide InOrder, Single, Known;
    if a.Claim? && s.loop.Parsed? {
      ClaimInOrder(s);
    } else {
      QuietInOrder(s, Next(s, a));
    }
  }

  lemma NextInOrder(s: State, a: Action)
    requires Exclusive(s) && InOrder(s)
    ensures InOrder(Next(s, a))
  {
    hide InOrder, Exclusive;
    if a.Take? || a.Dispatch? || a.Send? || a.Clear? {
      WorkerInOrder(s, a);
    } else if a.Receive? {
      ReceiveInOrder(s, a.received);
    } else if a.SubmitTask? {
      if s.loop.Claimed? {
        SubmitInOrder(s);
      }
    } else {
      LoopInOrder(s, a);
    }
  }

  // ----- What was read is what was sent -----

  /** What a connection handed over, dropped and keeps are those of its whole stream; it drops commands
      only once a send to it has failed. */
  ghost predicate Framed(conn: Conn) {
    && Flatten(conn.batches) + conn.dropped == ToCommands(CompleteLines(conn.received))
    && conn.buffer == Leftover(conn.received)
    && (conn.dropped != [] ==> conn.error)
  }

  ghost predicate AllFramed(s: State) { forall c :: c in s.conns ==> Framed(s.conns[c]) }

  lemma NewFramed()
    ensures Framed(NEW_CONN)
  {
  }

  lemma ReadFramed(conn: Conn, bytes: string)
    requires Framed(conn) && !conn.error
    ensures Framed(AfterRead(conn, bytes))
  {
    hide ToCommands, CompleteLines, Leftover;
    FeedExtends(conn.received, bytes);
    BatchSnoc(conn.batches, Feed(conn.buffer, bytes).commands);
    assert conn.dropped == [];
  }

  lemma ErrorFramed(conn: Conn, r: Received)
    requires Framed(conn)
    ensures Framed(AfterError(conn, r))
  {
    hide ToCommands, CompleteLines, Leftover, Flatten;
    if r.Data? {
      FeedExtends(conn.received, r.bytes);
      Regroup(Flatten(conn.batches), conn.dropped, Feed(conn.buffer, r.bytes).commands);
    } else {
      assert conn.received + "" == conn.received && conn.dropped + [] == conn.dropped;
    }
  }

  lemma NextFramed(s: State, a: Action)
    requires AllFramed(s)
    ensures AllFramed(Next(s, a))
  {
    hide ToCommands, CompleteLines, Leftover, Flatten, Feed, AfterRead, AfterError, Intake;
    NewFramed();
    if a.Receive? && s.loop.Checked? && s.loop.conn in s.conns {
      var conn := s.conns[s.loop.conn];
      ErrorFramed(conn, a.received);
      if ReadsData(s, a, s.loop.conn) {
        ReadFramed(conn, a.received.bytes);
      }
    }
    forall c | c in Next(s, a).conns
      ensures Framed(Next(s, a).conns[c])
    {
      assert c in s.conns ==> Framed(s.conns[c]);
    }
  }

  /** `a` takes data in from `c`. */
  predicate ReadsData(s: State, a: Action, c: nat) {
    a.Receive? && a.received.Data? && s.loop == Checked(c) && c in s.conns && !s.conns[c].error
  }

  lemma {:induction false} AlwaysInOrder(actions: seq<Action>)
    ensures var s := Execute(actions); Exclusive(s) && InOrder(s) && AllFramed(s)
  {
    AlwaysExclusive(actions);
    if actions != [] {
      var s, a := Execute(actions[..|actions| - 1]), actions[|actions| - 1];
      AlwaysInOrder(actions[..|actions| - 1]);
      NextInOrder(s, a);
      NextFramed(s, a);
    }
  }

  /** A connection that has lost a command: one dropped with an error, or one after the first of a read. */
  ghost predicate Lossy(conn: Conn) { conn.dropped != [] || !OneByOne(conn.batches) }

  ghost predicate OneByOne(batches: seq<seq<string>>) { forall i :: 0 <= i < |batches| ==> |batches[i]| <= 1 }

  /** The first commands are all there is exactly when nothing was lost. */
  lemma FirstsOfStream(conn: Conn)
    requires Framed(conn)
    ensures var all := ToCommands(CompleteLines(conn.received));
      && |Firsts(conn.batches)| <= |all|
      && (Firsts(conn.batches) == all <==> !Lossy(conn))
      && (|Firsts(conn.batches)| == |all| <==> !Lossy(conn))
      && (OneByOne(conn.batches) ==> Firsts(conn.batches) + conn.dropped == all)
  {
    hide ToCommands, CompleteLines, Leftover;
    FirstsAreAll(conn.batches);
    assert conn.dropped == [] ==> Flatten(conn.batches) + conn.dropped == Flatten(conn.batches);
  }

  /** Of a connection with no task in flight and no read in progress exactly the first command of
      every read has been dispatched, in order. That is all it sent, cut into commands, if and only
      if no read yielded more than one command and none was dropped: later commands of a read are
      lost, and so are those read after a send has failed. */
  lemma {:induction false} DispatchedIsFramed(actions: seq<Action>, c: nat)
    requires var s := Execute(actions);
      c in s.conns && !s.conns[c].inFlight && !(s.loop.Parsed? && s.loop.conn == c)
    ensures var conn := Execute(actions).conns[c];
      && conn.dispatched == Firsts(conn.batches)
      && Flatten(conn.batches) + conn.dropped == ToCommands(CompleteLines(conn.received))
      && (conn.dropped != [] ==> conn.error)
      && (conn.dispatched == ToCommands(CompleteLines(conn.received))
          <==> conn.dropped == [] && forall i :: 0 <= i < |conn.batches| ==> |conn.batches[i]| <= 1)
  {
    hide ToCommands, CompleteLines, Leftover;
    var s := Execute(actions);
    AlwaysInOrder(actions);
    NothingDue(s, c);
    assert Framed(s.conns[c]);
    FirstsOfStream(s.conns[c]);
  }

  // ----- Closed connections -----

  /** The loop only reads from a connection that is open. */
  ghost predicate ReadsOpen(s: State) { s.loop.Checked? ==> s.loop.conn in s.conns && s.conns[s.loop.conn].open }

  lemma NextReadsOpen(s: State, a: Action)
    requires ReadsOpen(s)
    ensures ReadsOpen(Next(s, a))
  {
    hide Intake, AfterRead, AfterError;
  }

  lemma {:induction false} AlwaysReadsOpen(actions: seq<Action>)
    ensures ReadsOpen(Execute(actions))
  {
    if actions != [] {
      hide Next;
      AlwaysReadsOpen(actions[..|actions| - 1]);
      NextReadsOpen(Execute(actions[..|actions| - 1]), actions[|actions| - 1]);
    }
  }

  lemma ClosedNext(s: State, a: Action, c: nat)
    requires ReadsOpen(s) && c in s.conns && !s.conns[c].open
    ensures var s' := Next(s, a);
      c in s'.conns && !s'.conns[c].open && s'.conns[c].received == s.conns[c].received
  {
    hide Intake, AfterRead, AfterError;
  }

  /** A connection that hung up, failed, or reached its end is closed, and nothing is read from it
      whatever happens after. */
  lemma {:induction false} ClosedForGood(actions: seq<Action>, after: seq<Action>, c: nat)
    requires c in Execute(actions).conns && !Execute(actions).conns[c].open
    ensures var conn := Execute(actions).conns[c];
      && c in Execute(actions + after).conns && !Execute(actions + after).conns[c].open
      && Execute(actions + after).conns[c].received == conn.received
  {
    if after == [] {
      assert actions + after == actions;
    } else {
      hide Next;
      var n := |after| - 1;
      assert actions + after == actions + after[..n] + [after[n]];
      ClosedForGood(actions, after[..n], c);
      ExecuteSnoc(actions + after[..n], after[n]);
      AlwaysReadsOpen(actions + after[..n]);
      ClosedNext(Execute(actions + after[..n]), after[n], c);
    }
  }

  lemma {:induction false} ClosesAtEnd(s: State, c: nat, r: Received)
    requires c in s.conns
    ensures s.loop.Waiting? ==> !Next(s, Hangup(c)).conns[c].open
    ensures s.loop == Checked(c) ==>
      (Next(s, Receive(r)).conns[c].open <==> s.conns[c].open && !s.conns[c].error && (r.Data? || r.WouldBlock?))
  {
    hide Feed;
  }

  // ----- Clients that wait, and clients that do not -----

  /** Only taking data in changes what a connection handed over or dropped. */
  lemma OtherSteps(s: State, a: Action, c: nat)
    requires c in s.conns
    ensures c in Next(s, a).conns
    ensures Next(s, a).conns[c].batches
      == if ReadsData(s, a, c) then AfterRead(s.conns[c], a.received.bytes).batches else s.conns[c].batches
    ensures s.conns[c].dropped <= Next(s, a).conns[c].dropped
  {
    hide Feed, Intake, Firsts;
  }

  /** Whenever the server takes data in from `c`, the client has sent at most one command more than
      have been dispatched: it sends a line only after the one before was dispatched. */
  ghost predicate Patient(actions: seq<Action>, c: nat) {
    actions == []
    || (var s, a := Execute(actions[..|actions| - 1]), actions[|actions| - 1];
        && Patient(actions[..|actions| - 1], c)
        && (ReadsData(s, a, c) ==>
              |ToCommands(CompleteLines(s.conns[c].received + a.received.bytes))| <= |s.conns[c].dispatched| + 1))
  }

  /** A read of a patient client yields at most one command. */
  lemma PatientRead(s: State, a: Action, c: nat)
    requires Exclusive(s) && InOrder(s) && AllFramed(s) && ReadsData(s, a, c) && OneByOne(s.conns[c].batches)
    requires |ToCommands(CompleteLines(s.conns[c].received + a.received.bytes))| <= |s.conns[c].dispatched| + 1
    ensures OneByOne(AfterRead(s.conns[c], a.received.bytes).batches)
  {
    hide ToCommands, CompleteLines, Leftover, Feed;
    var conn := s.conns[c];
    assert Framed(conn);
    NothingDue(s, c);
    FirstsOfStream(conn);
    FeedExtends(conn.received, a.received.bytes);
  }

  lemma {:induction false} PatientBatches(actions: seq<Action>, c: nat)
    requires Patient(actions, c) && c in Execute(actions).conns
    ensures OneByOne(Execute(actions).conns[c].batches)
  {
    hide Exclusive, InOrder, AllFramed, AfterRead, Next;
    var before := actions[..|actions| - 1];
    var s, a := Execute(before), actions[|actions| - 1];
    if c in s.conns {
      PatientBatches(before, c);
      OtherSteps(s, a, c);
      if ReadsData(s, a, c) {
        AlwaysInOrder(before);
        PatientRead(s, a, c);
      }
    } else {
      AcceptedNew(s, a, c);
    }
  }

  lemma AcceptedNew(s: State, a: Action, c: nat)
    requires c !in s.conns && c in Next(s, a).conns
    ensures Next(s, a).conns[c] == NEW_CONN
  {
  }

  /** Of a client that sends a line only after the one before was dispatched, all is dispatched in
      order but what is dropped: nothing is lost if and only if nothing is dropped, and nothing is
      unless a send has failed. */
  lemma {:induction false} PatientClient(actions: seq<Action>, c: nat)
    requires Patient(actions, c)
    requires var s := Execute(actions);
      c in s.conns && !s.conns[c].inFlight && !(s.loop.Parsed? && s.loop.conn == c)
    ensures var conn := Execute(actions).conns[c];
      && conn.dispatched + conn.dropped == ToCommands(CompleteLines(conn.received))
      && (conn.dispatched == ToCommands(CompleteLines(conn.received)) <==> conn.dropped == [])
      && (conn.dropped != [] ==> conn.error)
  {
    hide ToCommands, CompleteLines;
    PatientBatches(actions, c);
    DispatchedIsFramed(actions, c);
    AlwaysInOrder(actions);
    assert Framed(Execute(actions).conns[c]);
    FirstsOfStream(Execute(actions).conns[c]);
  }

  /** At any moment what was dispatched is a first part of the first commands of the reads. */
  lemma DispatchedIsPart(s: State, c: nat)
    requires InOrder(s) && Flagged(s) && c in s.conns
    ensures s.conns[c].dispatched <= Firsts(s.conns[c].batches)
  {
    hide Firsts;
    if InQueue(s, c) {
      var i :| 0 <= i < |s.queue| && s.queue[i].conn == c;
      assert Due(s, c, s.queue[i].line);
    } else if StartedOn(s, c) {
      var w :| w in s.running && s.running[w].task.conn == c && s.running[w].stage == Started;
      assert Due(s, c, s.running[w].task.line);
    }
  }

  lemma ExecuteSnoc(actions: seq<Action>, a: Action)
    ensures Execute(actions + [a]) == Next(Execute(actions), a)
  {
    assert (actions + [a])[..|actions + [a]| - 1] == actions;
  }

  lemma {:induction false} LossStays(actions: seq<Action>, after: seq<Action>, c: nat)
    requires c in Execute(actions).conns && Lossy(Execute(actions).conns[c])
    ensures c in Execute(actions + after).conns && Lossy(Execute(actions + after).conns[c])
  {
    hide Next;
    if after == [] {
      assert actions + after == actions;
    } else {
      var n := |after| - 1;
      var s := Execute(actions + after[..n]);
      assert actions + after == actions + after[..n] + [after[n]];
      LossStays(actions, after[..n], c);
      ExecuteSnoc(actions + after[..n], after[n]);
      OtherSteps(s, after[n], c);
      LossGrows(s.conns[c], Next(s, after[n]).conns[c]);
    }
  }

  lemma LossGrows(conn: Conn, conn': Conn)
    requires Lossy(conn) && conn.batches <= conn'.batches && conn.dropped <= conn'.dropped
    ensures Lossy(conn')
  {
    if !OneByOne(conn.batches) {
      var i :| 0 <= i < |conn.batches| && |conn.batches[i]| > 1;
      assert conn'.batches[i] == conn.batches[i];
    }
  }

  /** A lost command stays undispatched whatever happens after. */
  lemma {:induction false} LostForever(actions: seq<Action>, after: seq<Action>, c: nat)
    requires c in Execute(actions).conns && Lossy(Execute(actions).conns[c])
    ensures c in Execute(actions + after).conns
    ensures var conn := Execute(actions + after).conns[c];
      conn.dispatched <= Firsts(conn.batches) && |conn.dispatched| < |ToCommands(CompleteLines(conn.received))|
  {
    hide ToCommands, CompleteLines, Lossy;
    LossStays(actions, after, c);
    AlwaysInOrder(actions + after);
    var s := Execute(actions + after);
    DispatchedIsPart(s, c);
    assert Framed(s.conns[c]);
    FirstsOfStream(s.conns[c]);
  }

  /** A command of `c` has been dispatched by `w`, and the loop is waiting. */
  predicate Answering(s: State, w: nat, c: nat) {
    && s.loop.Waiting? && c in s.conns && s.conns[c].open
    && w in s.running && s.running[w].stage == Dispatched && s.running[w].task.conn == c
  }

  /** The send fails, the worker finishes, and the loop reads `bytes`. */
  function SendFails(w: nat, c: nat, bytes: string): seq<Action> {
    [Send(w, true)] + [Clear(w)] + [Readable(c)] + [Receive(Data(bytes))]
  }

  /** After any run: if the answer to a command cannot be sent, the commands the connection sends next,
      one read of them, are taken in, dropped and lost, although the client waited. */
  lemma {:induction false} FailedSendDrops(actions: seq<Action>, w: nat, c: nat, bytes: string)
    requires Answering(Execute(actions), w, c)
    ensures var s, s' := Execute(actions), Execute(actions + SendFails(w, c, bytes));
      && c in s'.conns && !s'.conns[c].open && !s'.conns[c].inFlight
      && s'.conns[c].received == s.conns[c].received + bytes
      && s'.conns[c].dispatched == s.conns[c].dispatched && s'.conns[c].batches == s.conns[c].batches
      && s'.conns[c].dropped == s.conns[c].dropped + Feed(s.conns[c].buffer, bytes).commands
  {
    hide Feed, Firsts;
    var fails := SendFails(w, c, bytes);
    ExecuteSnoc(actions, fails[0]);
    ExecuteSnoc(actions + [fails[0]], fails[1]);
    ExecuteSnoc(actions + [fails[0]] + [fails[1]], fails[2]);
    ExecuteSnoc(actions + [fails[0]] + [fails[1]] + [fails[2]], fails[3]);
    assert actions + [fails[0]] + [fails[1]] + [fails[2]] + [fails[3]] == actions + fails;
  }

  lemma FeedOne(x: string, e: string)
    requires Request(x) && LineEnd(e)
    ensures Feed("", x + e) == Frame([x], "")
  {
    hide Feed;
    assert Stream([x], [e]) == x + e by {
      assert Stream([x][1..], [e][1..]) == "" && x + e + "" == x + e;
    }
    FeedSent([x], [e]);
  }

  lemma FeedTwo(x: string, e: string, y: string, e': string)
    requires Request(x) && Request(y) && LineEnd(e) && LineEnd(e')
    ensures Feed("", x + e + (y + e')) == Frame([x, y], "")
  {
    hide Feed;
    assert [x, y][1..] == [y] && [e, e'][1..] == [e'];
    assert Stream([y], [e']) == y + e' by {
      assert Stream([y][1..], [e'][1..]) == "" && y + e' + "" == y + e';
    }
    assert Stream([x, y], [e, e']) == x + e + (y + e');
    FeedSent([x, y], [e, e']);
  }

  /** The first read of a new connection. */
  function FirstRead(c: nat, bytes: string): seq<Action> {
    [] + [Accept(c)] + [Readable(c)] + [Receive(Data(bytes))]
  }

  lemma FirstReadRuns(c: nat, bytes: string)
    ensures var s, f := Execute(FirstRead(c, bytes)), Feed("", bytes);
      && c in s.conns && s.conns[c] == NEW_CONN.(buffer := f.buffer, received := bytes, batches := [f.commands])
      && s.queue == [] && s.running == map[]
      && s.loop == if f.commands == [] then Waiting else Parsed(c, f.commands)
  {
    hide Feed;
    ExecuteSnoc([], Accept(c));
    ExecuteSnoc([] + [Accept(c)], Readable(c));
    ExecuteSnoc([] + [Accept(c)] + [Readable(c)], Receive(Data(bytes)));
    assert "" + bytes == bytes;
  }

  /** Two requests that arrive together are such a loss. */
  lemma {:induction false} TwoLinesAtOnce(c: nat, x: string, e: string, y: string, e': string)
    requires Request(x) && Request(y) && LineEnd(e) && LineEnd(e')
    ensures var s := Execute(FirstRead(c, x + e + (y + e')));
      c in s.conns && s.conns[c].batches == [[x, y]] && Lossy(s.conns[c])
  {
    hide Feed, Execute;
    var bytes := x + e + (y + e');
    FeedTwo(x, e, y, e');
    FirstReadRuns(c, bytes);
    var s := Execute(FirstRead(c, bytes));
    assert |s.conns[c].batches[0]| == 2;
  }

  /** One line, claimed, submitted, taken and dispatched. */
  function FirstDispatch(c: nat, w: nat, bytes: string): seq<Action> {
    FirstRead(c, bytes) + [Claim] + [SubmitTask] + [Take(w)] + [Dispatch(w)]
  }

  /** A request that arrives alone is dispatched as it was sent, whichever line end it has. */
  lemma {:induction false} RequestDispatched(c: nat, w: nat, x: string, e: string)
    requires Request(x) && LineEnd(e)
    ensures var s := Execute(FirstDispatch(c, w, x + e));
      && Answering(s, w, c) && s.conns[c].received == x + e && s.conns[c].buffer == ""
      && s.conns[c].batches == [[x]] && s.conns[c].dispatched == [x] && s.conns[c].dropped == []
  {
    hide Feed, Execute;
    var first := FirstRead(c, x + e);
    FeedOne(x, e);
    FirstReadRuns(c, x + e);
    ExecuteSnoc(first, Claim);
    ExecuteSnoc(first + [Claim], SubmitTask);
    ExecuteSnoc(first + [Claim] + [SubmitTask], Take(w));
    ExecuteSnoc(first + [Claim] + [SubmitTask] + [Take(w)], Dispatch(w));
  }

  /** A client that sends one line, waits until it is dispatched, and sends another: if the answer to the
      first cannot be sent, the second is read and dropped. */
  lemma {:induction false} WaitingClientLoses(c: nat, w: nat, x: string, e: string, y: string, e': string)
    requires Request(x) && Request(y) && LineEnd(e) && LineEnd(e')
    ensures var s := Execute(FirstDispatch(c, w, x + e) + SendFails(w, c, y + e'));
      && c in s.conns && s.conns[c].received == x + e + (y + e') && s.conns[c].batches == [[x]]
      && s.conns[c].dispatched == [x] && s.conns[c].dropped == [y] && Lossy(s.conns[c])
  {
    hide Feed, Execute;
    RequestDispatched(c, w, x, e);
    FeedOne(y, e');
    FailedSendDrops(FirstDispatch(c, w, x + e), w, c, y + e');
  }

  // ----- The program -----

  /** The steps of `handleRead` without interruption. */
  function HandleReadSteps(s: State, c: nat, r: Received): State {
    Next(Next(Next(Next(s, Readable(c)), Receive(r)), Claim), SubmitTask)
  }

  /** The connection object and the pool's queue are those of the state. */
  ghost predicate Shows(s: State, c: nat, conn: Connection, pool: Pool.ThreadPool<Task>)
    reads conn, pool
  {
    && c in s.conns && s.loop.Waiting? && s.queue == pool.tasks
    && s.conns[c].inFlight == conn.inFlight && s.conns[c].error == conn.hasError && s.conns[c].buffer == conn.readBuffer
  }

  /** `handleRead` without interruption: nothing while a task is in flight; otherwise one read, and
      of the commands it yields the first becomes a task. Tells whether to close the connection.
      From any state of the machine that shows the objects it leads where the machine's steps lead. */
  method HandleRead(conn: Connection, id: nat, pool: Pool.ThreadPool<Task>, received: Received, ghost s: State)
    returns (close: bool)
    requires pool.Valid() && Shows(s, id, conn, pool) && s.conns[id].open
    modifies conn, pool
    ensures pool.Valid()
    ensures old(conn.inFlight) ==> !close && unchanged(conn) && pool.View() == old(pool.View())
    ensures !old(conn.inFlight) ==>
      var f := Intake(old(conn.readBuffer), received);
      && conn.readBuffer == f.buffer
      && close == conn.hasError == (old(conn.hasError) || received.Failed? || received.Closed?)
      && conn.inFlight == (!close && f.commands != [])
      && pool.View() == if conn.inFlight then Pool.Next(old(pool.View()), Pool.Submit(Task(id, f.commands[0])))
                        else old(pool.View())
    ensures Shows(HandleReadSteps(s, id, received), id, conn, pool)
    ensures close <==> !HandleReadSteps(s, id, received).conns[id].open
    ensures var s' := HandleReadSteps(s, id, received);
      s'.running == s.running && s'.conns - {id} == s.conns - {id}
  {
    hide Feed;
    if conn.inFlight {
      return false;
    }
    var commands := conn.ReadAndParse(received);
    if conn.hasError {
      return true;
    }
    for i := 0 to |commands|
      invariant i == 0 && !conn.inFlight && !conn.hasError && pool.Valid()
      invariant pool.tasks == old(pool.tasks) && pool.View() == old(pool.View())
      invariant Frame(commands, conn.readBuffer) == Intake(old(conn.readBuffer), received)
    {
      var ok := conn.TrySetInFlight();
      if !ok {
        // The synchronous fallback, which is never taken.
        assert false;
      }
      pool.Submit(Task(id, commands[i]));
      break;
    }
    close := false;
  }
}
