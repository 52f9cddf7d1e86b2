/** A server that is restarted again and again, at any moment: every start replays
    the text of the file, and the requests served after it are appended to that file. */
module Generations {
  import opened Shards
  import opened Stores
  import opened Commands
  import opened Sessions
  import opened Replaying
  import opened ExactRecovery
  import opened KeyRecovery
  import opened Lines
  import opened FileRecovery

  /** A step of the running server and its writer, or a restart, which reads `clock` at each line. */
  datatype Deed = Act(step: Step) | Reboot(clock: nat -> Tick)

  /** The records of the log that are in the file. */
  function OnFile(j: Joint): (xs: seq<Stamped>)
    ensures xs <= j.session.log
  {
    if |j.writer.file| <= |j.session.log| then j.session.log[..|j.writer.file|] else j.session.log
  }

  /** The records of the file at the readings of a replay. */
  function Reread(j: Joint, clock: nat -> Tick): (ys: seq<Stamped>)
    ensures |ys| == |OnFile(j)|
  {
    Restamp(OnFile(j), seq(|OnFile(j)|, clock))
  }

  /** Whatever is not in the file is lost. The new store counts its deadlines from the replay, so its
      records carry those readings; the new writer appends to the file. */
  function Boot(h: Hash, maxKeys: nat, j: Joint, clock: nat -> Tick): Joint {
    var file := j.writer.file;
    Joint(Session(ReplayFile(h, Fresh(maxKeys), Unlines(file), clock).store, ZERO_COUNTERS, Reread(j, clock)),
          LogWriter.START.(file := file, pushed := file))
  }

  function Do(h: Hash, maxKeys: nat, j: Joint, d: Deed): Joint {
    match d
    case Act(step) => NextStep(h, j, step)
    case Reboot(clock) => Boot(h, maxKeys, j, clock)
  }

  function Life(h: Hash, maxKeys: nat, deeds: seq<Deed>): Joint {
    if deeds == [] then Joint(ServeAll(h, maxKeys, []), LogWriter.START)
    else Do(h, maxKeys, Life(h, maxKeys, deeds[..|deeds| - 1]), deeds[|deeds| - 1])
  }

  predicate Asks(d: Deed) { d.Act? && d.step.Request? && d.step.event.Ask? }

  ghost predicate AcceptableDeeds(deeds: seq<Deed>) {
    forall d :: d in deeds && Asks(d) ==> Acceptable(d.step.event.cmd)
  }

  // ----- File and log -----

  /** The writer follows the log, and all of it reads back as it was logged. */
  ghost predicate Sound(j: Joint) { Follows(j.writer, j.session.log) && AllDurable(j.session.log) }

  /** The text of the file reads back as the records of the log that are in it. */
  lemma ReadsBack(h: Hash, maxKeys: nat, j: Joint, clock: nat -> Tick)
    requires Sound(j)
    ensures var xs := OnFile(j);
      && PrintAll(xs) == j.writer.file && AllReplayable(xs) && AllDurable(xs)
      && ReplayFile(h, Fresh(maxKeys), Unlines(j.writer.file), clock)
         == Replay(h, Fresh(maxKeys), PrintAll(xs), seq(|xs|, clock))
  {
    hide Replay, Unlines, GetLines, Durable;
    FileIsPart(j.writer, j.session.log);
    assert forall x :: x in OnFile(j) ==> x in j.session.log;
    FileHoldsLog(OnFile(j));
  }

  lemma RestampPrints(xs: seq<Stamped>, ticks: seq<Tick>)
    requires |ticks| == |xs|
    ensures PrintAll(Restamp(xs, ticks)) == PrintAll(xs)
    ensures AllDurable(xs) ==> AllDurable(Restamp(xs, ticks))
  {
    hide Durable;
    var ys := Restamp(xs, ticks);
    assert forall i :: 0 <= i < |ys| ==> xs[i] in xs && ys[i].record == xs[i].record;
  }

  lemma BootSound(h: Hash, maxKeys: nat, j: Joint, clock: nat -> Tick)
    requires Sound(j)
    ensures Sound(Boot(h, maxKeys, j, clock))
  {
    hide ReplayFile, AllDurable;
    var xs := OnFile(j);
    ReadsBack(h, maxKeys, j, clock);
    RestampPrints(xs, seq(|xs|, clock));
    assert j.writer.file + [] + [] == j.writer.file;
  }

  lemma ActSound(h: Hash, j: Joint, step: Step)
    requires Sound(j) && (Asks(Act(step)) ==> Acceptable(step.event.cmd))
    ensures Sound(NextStep(h, j, step))
  {
    hide Follows, AllDurable;
    if step.Request? {
      RequestFollows(h, j, step.event);
    } else if LogWriter.Internal(step.action) {
      FollowsInternal(j.writer, j.session.log, step.action);
    }
  }

  lemma SoundStart(h: Hash, maxKeys: nat)
    ensures Sound(Life(h, maxKeys, []))
  {
    assert PrintAll([]) == [];
  }

  lemma {:induction false} LifeSound(h: Hash, maxKeys: nat, deeds: seq<Deed>)
    requires AcceptableDeeds(deeds)
    ensures Sound(Life(h, maxKeys, deeds))
  {
    hide Sound, NextStep, Boot;
    if deeds == [] {
      SoundStart(h, maxKeys);
    } else {
      var n := |deeds| - 1;
      var j, d := Life(h, maxKeys, deeds[..n]), deeds[n];
      LifeSound(h, maxKeys, deeds[..n]);
      assert d in deeds;
      if d.Act? {
        ActSound(h, j, d.step);
      } else {
        BootSound(h, maxKeys, j, d.clock);
      }
    }
  }

  lemma DoKeepsFile(h: Hash, maxKeys: nat, j: Joint, d: Deed)
    ensures j.writer.file <= Do(h, maxKeys, j, d).writer.file
  {
    hide Serve, EventLog, ReplayFile, OnFile, Reread;
  }

  /** Over requests, writer steps, failures and restarts, a line once in the file stays where it is. */
  lemma {:induction false} FileGrows(h: Hash, maxKeys: nat, deeds: seq<Deed>, n: nat)
    requires n <= |deeds|
    ensures Life(h, maxKeys, deeds[..n]).writer.file <= Life(h, maxKeys, deeds).writer.file
  {
    hide Do;
    if n == |deeds| {
      assert deeds[..n] == deeds;
    } else {
      var m := |deeds| - 1;
      assert deeds[..m][..n] == deeds[..n];
      FileGrows(h, maxKeys, deeds[..m], n);
      DoKeepsFile(h, maxKeys, Life(h, maxKeys, deeds[..m]), deeds[m]);
    }
  }

  // ----- Key by key -----

  /** `k` was found expired or evicted, by a request, a sweep or a replay, and not set or deleted since. */
  predicate DroppedIn(h: Hash, maxKeys: nat, deeds: seq<Deed>, k: string) {
    deeds != []
    && var before, d := deeds[..|deeds| - 1], deeds[|deeds| - 1];
       var j := Life(h, maxKeys, before);
       match d {
         case Act(Request(e)) => StillDropped(h, j.session.store, EventOp(e), k, DroppedIn(h, maxKeys, before, k))
         case Act(Thread(_)) => DroppedIn(h, maxKeys, before, k)
         case Reboot(clock) => Missing(h, maxKeys, Reread(j, clock), k)
       }
  }

  lemma BootKept(h: Hash, maxKeys: nat, j: Joint, clock: nat -> Tick, k: string)
    requires Sound(j)
    ensures var s := Boot(h, maxKeys, j, clock).session;
      Kept(Missing(h, maxKeys, s.log, k), Lookup(h, s.store, k), FinalOf(s.log, k))
  {
    hide Sound, Kept, Missing, Lookup, FinalOf, Replay, ReplayFile;
    ReadsBack(h, maxKeys, j, clock);
    ReplayKept(h, OnFile(j), maxKeys, seq(|OnFile(j)|, clock), k);
  }

  lemma {:induction false} LifeKept(h: Hash, maxKeys: nat, deeds: seq<Deed>, k: string)
    requires AcceptableDeeds(deeds)
    ensures var s := Life(h, maxKeys, deeds).session;
      Kept(DroppedIn(h, maxKeys, deeds, k), Lookup(h, s.store, k), FinalOf(s.log, k))
  {
    if deeds != [] {
      hide Kept, Lookup, StillDropped, Serve, FinalOf, Missing, Boot;
      var n := |deeds| - 1;
      var j, d := Life(h, maxKeys, deeds[..n]), deeds[n];
      LifeKept(h, maxKeys, deeds[..n], k);
      if d.Reboot? {
        LifeSound(h, maxKeys, deeds[..n]);
        BootKept(h, maxKeys, j, d.clock, k);
        BootLog(h, maxKeys, j, d.clock);
      } else if d.step.Request? {
        ServeKept(h, j.session, d.step.event, k, DroppedIn(h, maxKeys, deeds[..n], k));
      }
    }
  }

  lemma BootLog(h: Hash, maxKeys: nat, j: Joint, clock: nat -> Tick)
    ensures Boot(h, maxKeys, j, clock).session.log == Reread(j, clock)
  {
  }

  /** However often and whenever the server was restarted, whatever was read, evicted or found expired:
      replay of the file's text performs every line, and on every key whose records are all in the file
      it agrees with the present store, deadlines counted anew, if and only if both dropped the key or
      neither did. */
  lemma {:induction false} RecoverAgain(h: Hash, maxKeys: nat, deeds: seq<Deed>, clock: nat -> Tick)
    requires AcceptableDeeds(deeds)
    ensures var j := Life(h, maxKeys, deeds);
      var rec, xs, ys := ReplayFile(h, Fresh(maxKeys), Unlines(j.writer.file), clock), OnFile(j), Reread(j, clock);
      && rec.stats == ReplayStats(|j.writer.file|, 0, 0)
      && forall k :: OnDisk(j.session.log, |xs|, k) ==>
           (SameEntry(xs, ys, k, Lookup(h, j.session.store, k), Lookup(h, rec.store, k))
            <==> (DroppedIn(h, maxKeys, deeds, k) <==> Missing(h, maxKeys, ys, k)))
  {
    hide Life, Sound, Kept, Missing, Lookup, FinalOf, Replay, ReplayFile, SameEntry, DroppedIn, Run, OnDisk;
    var j := Life(h, maxKeys, deeds);
    var xs, ys := OnFile(j), Reread(j, clock);
    var rec := Replay(h, Fresh(maxKeys), PrintAll(xs), seq(|xs|, clock));
    LifeSound(h, maxKeys, deeds);
    ReadsBack(h, maxKeys, j, clock);
    ReplayIsRun(h, Fresh(maxKeys), xs, seq(|xs|, clock));
    forall k | OnDisk(j.session.log, |xs|, k)
      ensures SameEntry(xs, ys, k, Lookup(h, j.session.store, k), Lookup(h, rec.store, k))
              <==> (DroppedIn(h, maxKeys, deeds, k) <==> Missing(h, maxKeys, ys, k))
    {
      LifeKept(h, maxKeys, deeds, k);
      FinalOfPart(j.session.log, |xs|, k);
      ReplayKept(h, xs, maxKeys, seq(|xs|, clock), k);
      KeptAgree(xs, ys, k, DroppedIn(h, maxKeys, deeds, k), Lookup(h, j.session.store, k),
                Missing(h, maxKeys, ys, k), Lookup(h, rec.store, k));
    }
  }

  // ----- List by list -----

  /** The step finds no key expired and moves none by reading; a replay is timely. */
  ghost predicate Calm(h: Hash, j: Joint, d: Deed) {
    match d
    case Act(Request(e)) =>
      !EventReorders(h, j.session.store, e) && Serve(h, j.session, e).store.expired == j.session.store.expired
    case Act(Thread(_)) => true
    case Reboot(clock) => Timely(Reread(j, clock))
  }

  ghost predicate Uneventful(h: Hash, maxKeys: nat, deeds: seq<Deed>) {
    deeds == []
    || (Uneventful(h, maxKeys, deeds[..|deeds| - 1])
        && Calm(h, Life(h, maxKeys, deeds[..|deeds| - 1]), deeds[|deeds| - 1]))
  }

  /** The records found their keys, and nothing expired. */
  ghost predicate Lasting(h: Hash, maxKeys: nat, xs: seq<Stamped>) {
    Run(h, Fresh(maxKeys), Ops(xs)).expired == 0 && Effective(h, maxKeys, xs) && NonNegative(xs)
  }

  ghost predicate Faithful(h: Hash, maxKeys: nat, s: Session) {
    s.store == Run(h, Fresh(maxKeys), Ops(s.log)) && Lasting(h, maxKeys, s.log)
  }

  lemma LastingPart(h: Hash, maxKeys: nat, xs: seq<Stamped>, n: nat)
    requires Lasting(h, maxKeys, xs) && n <= |xs|
    ensures Lasting(h, maxKeys, xs[..n])
  {
    hide Run, At;
    if n == |xs| {
      assert xs[..n] == xs;
    } else {
      PrefixExpired(h, Fresh(maxKeys), xs, n);
      EffectivePart(h, maxKeys, xs, n);
    }
  }

  lemma EffectivePart(h: Hash, maxKeys: nat, xs: seq<Stamped>, n: nat)
    requires Effective(h, maxKeys, xs) && n <= |xs|
    ensures Effective(h, maxKeys, xs[..n])
  {
    hide Run, At;
    assert forall j :: 0 <= j < n ==> xs[..n][..j] == xs[..j];
  }

  /** A record that found its key in one store finds it in another that has it, unexpired. */
  lemma FoundAgain(h: Hash, st: Store, st': Store, x: Stamped, y: Stamped)
    requires x.record == y.record && !x.record.SetRecord?
    requires At(h, st, StampedOp(x)).answer == Flag(true) && At(h, st', StampedOp(y)).expired == 0
    requires Lookup(h, st, x.record.key).Some? ==> Lookup(h, st', x.record.key).Some?
    ensures At(h, st', StampedOp(y)).answer == Flag(true)
  {
  }

  lemma EffectiveAgain(h: Hash, maxKeys: nat, xs: seq<Stamped>, ys: seq<Stamped>)
    requires SameRecords(xs, ys) && Lasting(h, maxKeys, xs) && Run(h, Fresh(maxKeys), Ops(ys)).expired == 0
    ensures Effective(h, maxKeys, ys)
  {
    hide Run, At, NonNegative;
    forall j | 0 <= j < |ys| && !ys[j].record.SetRecord?
      ensures At(h, Run(h, Fresh(maxKeys), Ops(ys[..j])), StampedOp(ys[j])).answer == Flag(true)
    {
      var st := Fresh(maxKeys);
      PrefixExpired(h, st, xs, j);
      PrefixExpired(h, st, ys, j);
      NonNegativePart(xs, j);
      RunsRebuilt(h, maxKeys, xs[..j], ys[..j]);
      FoundAgain(h, Run(h, st, Ops(xs[..j])), Run(h, st, Ops(ys[..j])), xs[j], ys[j]);
    }
  }

  lemma NonNegativePart(xs: seq<Stamped>, j: nat)
    requires NonNegative(xs) && j <= |xs|
    ensures NonNegative(xs[..j])
  {
  }

  lemma BootFaithful(h: Hash, maxKeys: nat, j: Joint, clock: nat -> Tick)
    requires Sound(j) && Faithful(h, maxKeys, j.session) && Timely(Reread(j, clock))
    ensures Faithful(h, maxKeys, Boot(h, maxKeys, j, clock).session)
  {
    hide Sound, Run, Effective, Timely, Replay, ReplayFile;
    var xs, ys := OnFile(j), Reread(j, clock);
    ReadsBack(h, maxKeys, j, clock);
    ReplayIsRun(h, Fresh(maxKeys), xs, seq(|xs|, clock));
    LastingPart(h, maxKeys, j.session.log, |xs|);
    TimelyNoExpiry(h, maxKeys, ys);
    EffectiveAgain(h, maxKeys, xs, ys);
  }

  lemma FaithfulStart(h: Hash, maxKeys: nat)
    ensures Faithful(h, maxKeys, Life(h, maxKeys, []).session)
  {
    assert Ops([]) == [];
  }

  lemma ServeFaithful(h: Hash, maxKeys: nat, s: Session, e: Event)
    requires Faithful(h, maxKeys, s)
    requires !EventReorders(h, s.store, e) && Serve(h, s, e).store.expired == s.store.expired
    ensures Faithful(h, maxKeys, Serve(h, s, e))
  {
    hide Run, Effective, NonNegative, Serve, EventReorders;
    FreshValid(h, maxKeys);
    RunValid(h, Fresh(maxKeys), Ops(s.log));
    ServeIsRun(h, maxKeys, s, e);
  }

  lemma {:induction false} LifeFaithful(h: Hash, maxKeys: nat, deeds: seq<Deed>)
    requires AcceptableDeeds(deeds) && Uneventful(h, maxKeys, deeds)
    ensures Faithful(h, maxKeys, Life(h, maxKeys, deeds).session)
  {
    hide Faithful, Serve, EventReorders, Timely, Boot;
    if deeds == [] {
      FaithfulStart(h, maxKeys);
    } else {
      var n := |deeds| - 1;
      var j, d := Life(h, maxKeys, deeds[..n]), deeds[n];
      LifeFaithful(h, maxKeys, deeds[..n]);
      if d.Reboot? {
        LifeSound(h, maxKeys, deeds[..n]);
        BootFaithful(h, maxKeys, j, d.clock);
      } else if d.step.Request? {
        ServeFaithful(h, maxKeys, j.session, d.step.event);
      }
    }
  }

  /** If moreover nothing was found expired, no read moved a key and every restart was timely, another
      replay finds nothing expired exactly when it is timely, and then rebuilds the store that the
      records in the file make, list by list; the present store, if they are all of its records. */
  lemma {:induction false} RebuildAgain(h: Hash, maxKeys: nat, deeds: seq<Deed>, clock: nat -> Tick)
    requires AcceptableDeeds(deeds) && Uneventful(h, maxKeys, deeds)
    ensures var j := Life(h, maxKeys, deeds);
      var rec, xs, ys := ReplayFile(h, Fresh(maxKeys), Unlines(j.writer.file), clock), OnFile(j), Reread(j, clock);
      && (rec.store.expired == 0 <==> Timely(ys))
      && (Timely(ys) ==> Rebuilt(Run(h, Fresh(maxKeys), Ops(xs)), rec.store, xs, ys))
      && (xs == j.session.log ==> Run(h, Fresh(maxKeys), Ops(xs)) == j.session.store)
  {
    hide Life, Sound, Run, Effective, Timely, Rebuilt, Uneventful, Replay, ReplayFile;
    var j := Life(h, maxKeys, deeds);
    var xs, ys := OnFile(j), Reread(j, clock);
    LifeSound(h, maxKeys, deeds);
    LifeFaithful(h, maxKeys, deeds);
    ReadsBack(h, maxKeys, j, clock);
    ReplayIsRun(h, Fresh(maxKeys), xs, seq(|xs|, clock));
    LastingPart(h, maxKeys, j.session.log, |xs|);
    NoExpiryIsTimely(h, maxKeys, xs, ys);
    if Timely(ys) {
      RunsRebuilt(h, maxKeys, xs, ys);
    }
  }
}
