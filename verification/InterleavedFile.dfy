/** Workers, the log writer and the file together: worker steps, the two halves of a
    log call and the writer thread's actions in any order, and the text of the file
    replayed at any moment. */
module InterleavedFile {
  import opened Stores
  import opened Parser
  import opened Commands
  import opened Sessions
  import opened Replaying
  import opened Interleaving
  import opened Lines
  import opened FileRecovery

  /** The worker steps taken so far, and the writer. */
  datatype Run = Run(actions: seq<Action>, writer: LogWriter.Machine)

  /** `Pass` is a worker's stop check before it pushes its record, `Work(Enqueue(w))` the push. */
  datatype Move = Work(action: Action) | Pass(worker: nat) | Thread(step: LogWriter.Action)

  function Line(s: State, w: nat): string
    requires w in s.pending
  {
    Print(s.pending[w].record)
  }

  function NextMove(h: Hash, maxKeys: nat, r: Run, move: Move): Run {
    var s := RunAll(h, maxKeys, r.actions);
    match move
    case Work(a) =>
      if !a.Enqueue? then r.(actions := r.actions + [a])
      else if a.worker in s.pending && Line(s, a.worker) in r.writer.ready then
        Run(r.actions + [a], LogWriter.Next(r.writer, LogWriter.Push(Line(s, a.worker))))
      else r
    case Pass(w) =>
      if w in s.pending then r.(writer := LogWriter.Next(r.writer, LogWriter.Check(Line(s, w)))) else r
    case Thread(a) => if LogWriter.Internal(a) then r.(writer := LogWriter.Next(r.writer, a)) else r
  }

  function Moves(h: Hash, maxKeys: nat, moves: seq<Move>): Run {
    if moves == [] then Run([], LogWriter.START)
    else NextMove(h, maxKeys, Moves(h, maxKeys, moves[..|moves| - 1]), moves[|moves| - 1])
  }

  ghost predicate AcceptableMoves(moves: seq<Move>) {
    forall m :: m in moves && m.Work? && m.action.Execute? ==> Acceptable(m.action.cmd)
  }

  // ----- The log of a run is durable -----

  ghost predicate DurableState(s: State) {
    AllDurable(s.log) && forall w :: w in s.pending ==> Durable(s.pending[w].record)
  }

  lemma DurableNext(h: Hash, s: State, a: Action)
    requires DurableState(s) && (a.Execute? ==> Acceptable(a.cmd))
    ensures DurableState(Next(h, s, a))
  {
    if a.Execute? && a.worker !in s.pending {
      hide Dispatch, Durable;
      var log := Dispatch(h, s.store, s.counters, a.cmd, a.tick).log;
      if log.Some? {
        AcceptableRecord(h, s.store, s.counters, a.cmd, a.tick);
      }
    }
  }

  // ----- The writer holds what was enqueued -----

  ghost predicate Tied(h: Hash, maxKeys: nat, r: Run) {
    var s := RunAll(h, maxKeys, r.actions);
    DurableState(s) && LogWriter.Ordered(r.writer) && r.writer.pushed == PrintAll(s.log)
  }

  lemma TiedWork(h: Hash, maxKeys: nat, r: Run, a: Action)
    requires Tied(h, maxKeys, r) && (a.Execute? ==> Acceptable(a.cmd))
    ensures Tied(h, maxKeys, NextMove(h, maxKeys, r, Work(a)))
  {
    hide DurableState, LogWriter.Ordered, Dispatch;
    var s := RunAll(h, maxKeys, r.actions);
    RunAllSnoc(h, maxKeys, r.actions, a);
    DurableNext(h, s, a);
    if a.Enqueue? && a.worker in s.pending {
      PrintSnoc(s.log, s.pending[a.worker]);
      LogWriter.OrderedNext(r.writer, LogWriter.Push(Line(s, a.worker)));
    }
  }

  lemma TiedStart(h: Hash, maxKeys: nat)
    ensures Tied(h, maxKeys, Run([], LogWriter.START))
  {
    assert RunAll(h, maxKeys, []).log == [] && PrintAll([]) == [];
  }

  lemma TiedMove(h: Hash, maxKeys: nat, r: Run, move: Move)
    requires Tied(h, maxKeys, r) && (move.Work? && move.action.Execute? ==> Acceptable(move.action.cmd))
    ensures Tied(h, maxKeys, NextMove(h, maxKeys, r, move))
  {
    hide DurableState, LogWriter.Ordered, RunAll;
    match move
    case Work(a) => TiedWork(h, maxKeys, r, a);
    case Pass(w) =>
      var s := RunAll(h, maxKeys, r.actions);
      if w in s.pending {
        LogWriter.OrderedNext(r.writer, LogWriter.Check(Line(s, w)));
      }
    case Thread(a) => LogWriter.OrderedNext(r.writer, a);
  }

  lemma {:induction false} AlwaysTied(h: Hash, maxKeys: nat, moves: seq<Move>)
    requires AcceptableMoves(moves)
    ensures Tied(h, maxKeys, Moves(h, maxKeys, moves))
  {
    hide Tied, NextMove;
    if moves == [] {
      TiedStart(h, maxKeys);
    } else {
      var n := |moves| - 1;
      AlwaysTied(h, maxKeys, moves[..n]);
      assert moves[n] in moves;
      TiedMove(h, maxKeys, Moves(h, maxKeys, moves[..n]), moves[n]);
    }
  }

  /** The records of the log that are in the file. */
  function Written(s: State, m: LogWriter.Machine): seq<Stamped> {
    if |m.file| <= |s.log| then s.log[..|m.file|] else s.log
  }

  /** At any moment the file holds the first records of the log, and its text reads back as they were
      logged; all of them, if the writer has written out its queue. */
  lemma {:induction false} FileIsLog(h: Hash, maxKeys: nat, moves: seq<Move>)
    requires AcceptableMoves(moves)
    ensures var r := Moves(h, maxKeys, moves);
      var s, xs := RunAll(h, maxKeys, r.actions), Written(RunAll(h, maxKeys, r.actions), r.writer);
      && |xs| == |r.writer.file| && xs <= s.log && (Drained(r.writer) ==> xs == s.log)
      && GetLines(Unlines(r.writer.file)) == PrintAll(xs) && AllReplayable(xs)
  {
    hide Unlines, GetLines, RunAll;
    AlwaysTied(h, maxKeys, moves);
    var r := Moves(h, maxKeys, moves);
    var log, file := RunAll(h, maxKeys, r.actions).log, r.writer.file;
    PrintPart(log, file);
    assert forall x :: x in log[..|file|] ==> x in log;
    FileHoldsLog(log[..|file|]);
    assert file + [] + [] == file;
  }

  /** Any number of workers, the writer thread, stops and stream failures, in any order; acceptable
      commands; whatever is evicted or expires. Replay of the file's text at any moment, into a store of
      any size, performs every line and agrees with the store on a key if and only if the records end on
      it the same in the store's order and in the file, dropped keys counting as gone; on a safe key,
      deadlines counted anew, if and only if both stores dropped it or neither did. */
  lemma {:induction false} RecoverFromText(h: Hash, maxKeys: nat, moves: seq<Move>, maxKeys': nat, clock: nat -> Tick)
    requires AcceptableMoves(moves)
    ensures var r := Moves(h, maxKeys, moves);
      var s, xs := RunAll(h, maxKeys, r.actions), Written(RunAll(h, maxKeys, r.actions), r.writer);
      var rec, ys := ReplayFile(h, Fresh(maxKeys'), Unlines(r.writer.file), clock), Restamp(xs, seq(|xs|, clock));
      && rec.stats == ReplayStats(|xs|, 0, 0)
      && (forall k :: EntryEnding(Lookup(h, s.store, k)) == EntryEnding(Lookup(h, rec.store, k))
                      <==> StoreEnding(h, maxKeys, r.actions, k)
                           == if Missing(h, maxKeys', ys, k) then Gone else EndingOf(xs, k))
      && (forall k :: Safe(h, maxKeys, r.actions, |xs|, k) ==>
            (SameEntry(xs, ys, k, Lookup(h, s.store, k), Lookup(h, rec.store, k))
             <==> (DroppedBy(h, maxKeys, r.actions, k) <==> Missing(h, maxKeys', ys, k))))
  {
    hide RunAll, Replay, EndingOf, EntryEnding, Lookup, Safe, SameEntry, GetLines, Unlines, Missing, DroppedBy;
    FileIsLog(h, maxKeys, moves);
    var r := Moves(h, maxKeys, moves);
    var n := |r.writer.file|;
    RecoverExactly(h, maxKeys, r.actions, n, maxKeys', seq(n, clock));
    RecoverInterleaved(h, maxKeys, r.actions, n, maxKeys', seq(n, clock));
  }

  /** And if what the file holds fits the new store and the replay is timely, replay drops nothing. */
  lemma {:induction false} FittingText(h: Hash, maxKeys: nat, moves: seq<Move>, maxKeys': nat, clock: nat -> Tick)
    requires AcceptableMoves(moves)
    requires var r := Moves(h, maxKeys, moves);
      var xs := Written(RunAll(h, maxKeys, r.actions), r.writer);
      Fits(h, xs, PerShard(maxKeys')) && Timely(Restamp(xs, seq(|xs|, clock)))
    ensures var r := Moves(h, maxKeys, moves);
      var xs := Written(RunAll(h, maxKeys, r.actions), r.writer);
      && Clean(ReplayFile(h, Fresh(maxKeys'), Unlines(r.writer.file), clock).store)
      && forall k :: !Missing(h, maxKeys', Restamp(xs, seq(|xs|, clock)), k)
  {
    hide RunAll, Replay, GetLines, Unlines, Missing, Fits, Timely;
    FileIsLog(h, maxKeys, moves);
    var r := Moves(h, maxKeys, moves);
    var xs := Written(RunAll(h, maxKeys, r.actions), r.writer);
    ReplayClean(h, xs, maxKeys', seq(|xs|, clock));
    forall k
      ensures !Missing(h, maxKeys', Restamp(xs, seq(|xs|, clock)), k)
    {
      FittingMissesNothing(h, xs, maxKeys', seq(|xs|, clock), k);
    }
  }
}
