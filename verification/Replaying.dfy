/** Replaying a log: which lines are carried out, what the records leave of a key,
    and exactly when replay evicts nothing and finds nothing expired. */
module Replaying {
  import opened Basics
  import opened Shards
  import opened Stores
  import opened Decimal
  import opened Parser
  import opened Commands
  import opened TimedMap
  import opened Sessions

  // ----- Decoding a printed record -----

  /** The records replay carries out as they were logged. */
  predicate Replayable(r: Record) {
    Printable(r) && (r.ExpireRecord? ==> 1 <= r.secs <= INT64_MAX)
  }

  ghost predicate AllReplayable(xs: seq<Stamped>) { forall x :: x in xs ==> Replayable(x.record) }

  lemma PrintNonEmpty(r: Record)
    ensures Print(r) != ""
  {
  }

  /** A parsed command that decodes to a record holds the record's strings. */
  lemma DecodedArgs(r: Record)
    requires Decode(Print(r)) == Perform(r)
    ensures r.key in Parse(Print(r)).args
    ensures r.SetRecord? ==> r.value in Parse(Print(r)).args
    ensures r.ExpireRecord? ==> 1 <= r.secs <= INT64_MAX
  {
  }

  lemma DecodeReplayable(r: Record)
    requires Replayable(r)
    ensures Decode(Print(r)) == Perform(r)
  {
    PrintNonEmpty(r);
    ParseUndoesPrint(r);
    if r.ExpireRecord? {
      StollUndoesToText(r.secs);
    }
  }

  /** Replay of a printed record performs that record exactly when it is replayable. */
  lemma {:induction false} DecodeUndoesPrint(r: Record)
    ensures Decode(Print(r)) == Perform(r) <==> Replayable(r)
  {
    if Decode(Print(r)) == Perform(r) {
      DecodedArgs(r);
      PrintedArgsLoggable(r, r.key);
      if r.SetRecord? {
        PrintedArgsLoggable(r, r.value);
      }
    }
    if Replayable(r) {
      DecodeReplayable(r);
    }
  }

  /** Replaying a replayable log performs every record: it is a run, and no line fails. */
  lemma {:induction false} ReplayIsRun(h: Hash, st: Store, xs: seq<Stamped>, ticks: seq<Tick>)
    requires |xs| == |ticks| && AllReplayable(xs)
    ensures Replay(h, st, PrintAll(xs), ticks)
      == Recovery(Run(h, st, Ops(Restamp(xs, ticks))), ReplayStats(|xs|, 0, 0))
  {
    if xs == [] {
      assert Ops(Restamp(xs, ticks)) == [];
    } else {
      hide Apply, Run, Decode, Print;
      var n := |xs| - 1;
      var y := Stamped(xs[n].record, ticks[n]);
      ReplayIsRun(h, st, xs[..n], ticks[..n]);
      assert PrintAll(xs)[..n] == PrintAll(xs[..n]);
      RestampSnoc(xs, ticks);
      OpsSnoc(h, st, Restamp(xs[..n], ticks[..n]), y);
      assert xs[n] in xs;
      DecodeUndoesPrint(xs[n].record);
    }
  }

  lemma RestampSnoc(xs: seq<Stamped>, ticks: seq<Tick>)
    requires |xs| == |ticks| && xs != []
    ensures var n := |xs| - 1;
      Restamp(xs, ticks) == Restamp(xs[..n], ticks[..n]) + [Stamped(xs[n].record, ticks[n])]
  {
  }

  /** How many of the lines decode to each thing. */
  function CountLines(lines: seq<string>, p: Decoded -> bool): nat {
    if lines == [] then 0
    else CountLines(lines[..|lines| - 1], p) + Tally(p(Decode(lines[|lines| - 1])))
  }

  /** The statistics of a replay count the lines performed, skipped and failed. */
  lemma {:induction false} StatsCount(h: Hash, st: Store, lines: seq<string>, ticks: seq<Tick>)
    requires |ticks| == |lines|
    ensures var stats := Replay(h, st, lines, ticks).stats;
      && stats.replayed == CountLines(lines, (d: Decoded) => d.Perform?)
      && stats.skipped == CountLines(lines, (d: Decoded) => d.Skip?)
      && stats.errors == CountLines(lines, (d: Decoded) => d.Fail?)
      && stats.replayed + stats.skipped + stats.errors == |lines|
  {
    if lines != [] {
      hide Decode, Apply;
      var n := |lines| - 1;
      StatsCount(h, st, lines[..n], ticks[..n]);
    }
  }

  // ----- What the records leave of a key -----

  function After(e: Option<Entry>, x: Stamped): Option<Entry> {
    match x.record
    case SetRecord(_, v) => Some(Entry(v, None))
    case DelRecord(_) => None
    case ExpireRecord(_, secs) =>
      if e.None? then None else Some(e.value.(deadline := Some(x.tick.second + secs * NANOS)))
  }

  /** The entry of `k` after the records, if nothing but the records happens to it. */
  function FinalOf(xs: seq<Stamped>, k: string): Option<Entry> {
    if xs == [] then None
    else
      var before, x := FinalOf(xs[..|xs| - 1], k), xs[|xs| - 1];
      if x.record.key == k then After(before, x) else before
  }

  lemma FinalOfSnoc(xs: seq<Stamped>, x: Stamped, k: string)
    ensures FinalOf(xs + [x], k) == if x.record.key == k then After(FinalOf(xs, k), x) else FinalOf(xs, k)
  {
    assert (xs + [x])[..|xs + [x]| - 1] == xs;
  }

  /** All records on `k` are in the first `n`. */
  ghost predicate OnDisk(xs: seq<Stamped>, n: nat, k: string) {
    forall i :: n <= i < |xs| ==> xs[i].record.key != k
  }

  lemma {:induction false} FinalOfPart(xs: seq<Stamped>, n: nat, k: string)
    requires n <= |xs| && OnDisk(xs, n, k)
    ensures FinalOf(xs[..n], k) == FinalOf(xs, k)
  {
    if n == |xs| {
      assert xs[..n] == xs;
    } else {
      assert xs[..|xs| - 1][..n] == xs[..n];
      FinalOfPart(xs[..|xs| - 1], n, k);
    }
  }

  ghost predicate NonNegative(xs: seq<Stamped>) {
    forall x :: x in xs && x.record.ExpireRecord? ==> x.record.secs >= 0
  }

  lemma LoggedNonNegative(h: Hash, st: Store, x: Stamped)
    requires !x.record.SetRecord? ==> At(h, st, StampedOp(x)).answer == Flag(true)
    ensures x.record.ExpireRecord? ==> x.record.secs >= 0
  {
  }

  // ----- Keys that go without a record -----

  /** Whether `op` removes `k` from the store by expiry or eviction. */
  predicate Drops(h: Hash, st: Store, op: Op, k: string) {
    Home(h, op) == ShardIndex(h, k) && Loses(st.shards[Home(h, op)], st.cap, op, k)
  }

  lemma DropsCount(h: Hash, st: Store, op: Op, k: string)
    requires Drops(h, st, op, k)
    ensures At(h, st, op).expired > 0 || At(h, st, op).evicted > 0
  {
    if op.Sweep? {
      assert k in Swept(st.shards[Home(h, op)], op.now, op.visited);
    }
  }

  /** What is stored of a key is what the records left of it, unless it was dropped. */
  predicate Kept(dropped: bool, stored: Option<Entry>, final: Option<Entry>) {
    if dropped then stored.None? && final.Some? else stored == final
  }

  /** What an operation does to a key: drop it, or what its record says. */
  lemma OpKey(h: Hash, st: Store, op: Op, k: string)
    ensures var after := Lookup(h, Apply(h, st, op), k);
      if Drops(h, st, op, k) then after.None? && Lookup(h, st, k).Some? && !Sets(op, k)
      else if Sets(op, k) then after == Some(SetEntry(op))
      else if op.Del? && op.key == k then after.None?
      else if op.Expire? && op.key == k && op.secs >= 0 && Lookup(h, st, k).Some?
        then after == Some(Lookup(h, st, k).value.(deadline := Some(op.later + op.secs * NANOS)))
      else after == Lookup(h, st, k)
  {
    if Home(h, op) == ShardIndex(h, k) {
      StepKey(st.shards[Home(h, op)], st.cap, op, k);
    }
  }

  /** Whether a run of records drops `k` after the last SET or DEL of it. */
  predicate Missing(h: Hash, maxKeys: nat, xs: seq<Stamped>, k: string) {
    xs != []
    && var before, x := xs[..|xs| - 1], xs[|xs| - 1];
       if x.record.key == k && !x.record.ExpireRecord? then false
       else Drops(h, Run(h, Fresh(maxKeys), Ops(before)), StampedOp(x), k) || Missing(h, maxKeys, before, k)
  }

  /** One more record. */
  lemma RecordKept(h: Hash, st: Store, x: Stamped, k: string, missing: bool, final: Option<Entry>)
    requires Kept(missing, Lookup(h, st, k), final) && (x.record.ExpireRecord? ==> x.record.secs >= 0)
    ensures var missing' := if x.record.key == k && !x.record.ExpireRecord? then false
                            else Drops(h, st, StampedOp(x), k) || missing;
      Kept(missing', Lookup(h, Apply(h, st, StampedOp(x)), k), if x.record.key == k then After(final, x) else final)
  {
    hide Drops;
    OpKey(h, st, StampedOp(x), k);
  }

  /** Any run of records, evictions and expiries included: a key is as the records left it, unless it
      is missing. */
  lemma {:induction false} RunKept(h: Hash, maxKeys: nat, xs: seq<Stamped>, k: string)
    requires NonNegative(xs)
    ensures Kept(Missing(h, maxKeys, xs, k), Lookup(h, Run(h, Fresh(maxKeys), Ops(xs)), k), FinalOf(xs, k))
  {
    if xs == [] {
      assert Ops(xs) == [];
    } else {
      hide Kept, Run, Lookup, Drops;
      var n, st := |xs| - 1, Fresh(maxKeys);
      Rejoin(xs);
      OpsSnoc(h, st, xs[..n], xs[n]);
      RunKept(h, maxKeys, xs[..n], k);
      assert xs[n] in xs;
      RecordKept(h, Run(h, st, Ops(xs[..n])), xs[n], k, Missing(h, maxKeys, xs[..n], k), FinalOf(xs[..n], k));
    }
  }

  /** So nothing is missing from a run that evicts nothing and finds nothing expired. */
  lemma {:induction false} NothingMissing(h: Hash, maxKeys: nat, xs: seq<Stamped>, k: string)
    requires Clean(Run(h, Fresh(maxKeys), Ops(xs)))
    ensures !Missing(h, maxKeys, xs, k)
  {
    if xs != [] {
      hide Drops, Run, At, Apply;
      var n, st := |xs| - 1, Fresh(maxKeys);
      var before := Run(h, st, Ops(xs[..n]));
      Rejoin(xs);
      OpsSnoc(h, st, xs[..n], xs[n]);
      CountersGrow(h, st, Ops(xs[..n]));
      ApplyCounts(h, before, StampedOp(xs[n]));
      NothingMissing(h, maxKeys, xs[..n], k);
      if Drops(h, before, StampedOp(xs[n]), k) {
        DropsCount(h, before, StampedOp(xs[n]), k);
      }
    }
  }

  lemma RunIsFinal(h: Hash, maxKeys: nat, xs: seq<Stamped>, k: string)
    requires NonNegative(xs) && Clean(Run(h, Fresh(maxKeys), Ops(xs)))
    ensures Lookup(h, Run(h, Fresh(maxKeys), Ops(xs)), k) == FinalOf(xs, k)
  {
    RunKept(h, maxKeys, xs, k);
    NothingMissing(h, maxKeys, xs, k);
  }

  // ----- When replay finds nothing expired -----

  /** `x` does not come after the deadline of its key, if that has one. */
  predicate OnTime(e: Option<Entry>, x: Stamped) {
    x.record.SetRecord? || e.None? || !Expired(e.value, x.tick.first)
  }

  /** Every DEL and EXPIRE reads the clock before the deadline the records before it gave its key. */
  ghost predicate Timely(xs: seq<Stamped>) {
    forall j :: 0 <= j < |xs| ==> OnTime(FinalOf(xs[..j], xs[j].record.key), xs[j])
  }

  lemma TimelySnoc(xs: seq<Stamped>, x: Stamped)
    ensures Timely(xs + [x]) <==> Timely(xs) && OnTime(FinalOf(xs, x.record.key), x)
  {
    var all := xs + [x];
    assert all[..|xs|] == xs && all[|xs|] == x;
    assert forall j :: 0 <= j < |xs| ==> all[..j] == xs[..j] && all[j] == xs[j];
    assert Timely(all) ==> OnTime(FinalOf(all[..|xs|], all[|xs|].record.key), all[|xs|]);
  }

  /** The records' operations find their key expired only when it is there and past its deadline. */
  lemma RecordExpires(h: Hash, st: Store, x: Stamped)
    requires x.record.ExpireRecord? ==> x.record.secs >= 0
    ensures var e := Lookup(h, st, x.record.key);
      At(h, st, StampedOp(x)).expired == Tally(!OnTime(e, x))
  {
  }

  /** A timely replay finds nothing expired, whatever it evicts. */
  lemma {:induction false} TimelyNoExpiry(h: Hash, maxKeys: nat, xs: seq<Stamped>)
    requires NonNegative(xs) && Timely(xs)
    ensures Run(h, Fresh(maxKeys), Ops(xs)).expired == 0
  {
    if xs == [] {
      assert Ops(xs) == [];
    } else {
      var n, st := |xs| - 1, Fresh(maxKeys);
      Rejoin(xs);
      TimelySnoc(xs[..n], xs[n]);
      TimelyNoExpiry(h, maxKeys, xs[..n]);
      OpsSnoc(h, st, xs[..n], xs[n]);
      RunKept(h, maxKeys, xs[..n], xs[n].record.key);
      assert xs[n] in xs;
      RecordExpires(h, Run(h, st, Ops(xs[..n])), xs[n]);
    }
  }

  /** All readings of a replay lie within one second. */
  ghost predicate Prompt(ticks: seq<Tick>, t: int) {
    forall i :: 0 <= i < |ticks| ==> t <= ticks[i].first < t + NANOS && t <= ticks[i].second
  }

  lemma {:induction false} PromptDeadline(xs: seq<Stamped>, ticks: seq<Tick>, t: int, k: string)
    requires |xs| == |ticks| && AllReplayable(xs) && Prompt(ticks, t)
    ensures var e := FinalOf(Restamp(xs, ticks), k);
      e.Some? && e.value.deadline.Some? ==> e.value.deadline.value >= t + NANOS
  {
    if xs != [] {
      var n := |xs| - 1;
      PromptDeadline(xs[..n], ticks[..n], t, k);
      RestampSnoc(xs, ticks);
      FinalOfSnoc(Restamp(xs[..n], ticks[..n]), Stamped(xs[n].record, ticks[n]), k);
      assert xs[n] in xs;
    }
  }

  /** A replay that takes less than a second is timely, since logged seconds are at least one. */
  lemma {:induction false} PromptIsTimely(xs: seq<Stamped>, ticks: seq<Tick>, t: int)
    requires |xs| == |ticks| && AllReplayable(xs) && Prompt(ticks, t)
    ensures Timely(Restamp(xs, ticks))
  {
    var ys := Restamp(xs, ticks);
    forall j | 0 <= j < |ys|
      ensures OnTime(FinalOf(ys[..j], ys[j].record.key), ys[j])
    {
      assert ys[..j] == Restamp(xs[..j], ticks[..j]);
      PromptDeadline(xs[..j], ticks[..j], t, ys[j].record.key);
    }
  }

  // ----- When replay evicts nothing -----

  /** The keys of shard `i` that the records have set and not deleted. */
  function LiveKeys(h: Hash, xs: seq<Stamped>, i: nat): set<string> {
    if xs == [] then {}
    else
      var before, r := LiveKeys(h, xs[..|xs| - 1], i), xs[|xs| - 1].record;
      if ShardIndex(h, r.key) != i || r.ExpireRecord? then before
      else if r.SetRecord? then before + {r.key}
      else before - {r.key}
  }

  lemma LiveKeysSnoc(h: Hash, xs: seq<Stamped>, x: Stamped, i: nat)
    ensures var before, r := LiveKeys(h, xs, i), x.record;
      LiveKeys(h, xs + [x], i)
      == if ShardIndex(h, r.key) != i || r.ExpireRecord? then before
         else if r.SetRecord? then before + {r.key}
         else before - {r.key}
  {
    assert (xs + [x])[..|xs + [x]| - 1] == xs;
  }

  ghost predicate FitsNow(h: Hash, xs: seq<Stamped>, cap: nat) {
    forall i :: 0 <= i < NUM_SHARDS ==> |LiveKeys(h, xs, i)| <= cap
  }

  /** After every prefix of the log each shard's live keys number at most the capacity. */
  ghost predicate Fits(h: Hash, xs: seq<Stamped>, cap: nat) {
    forall n :: 0 <= n <= |xs| ==> FitsNow(h, xs[..n], cap)
  }

  lemma FitsSnoc(h: Hash, xs: seq<Stamped>, x: Stamped, cap: nat)
    ensures Fits(h, xs + [x], cap) <==> Fits(h, xs, cap) && FitsNow(h, xs + [x], cap)
  {
    var all := xs + [x];
    assert all[..|all|] == all;
    assert forall n :: 0 <= n <= |xs| ==> all[..n] == xs[..n];
    assert Fits(h, all, cap) ==> FitsNow(h, all[..|all|], cap);
  }

  ghost predicate HoldsLive(h: Hash, st: Store, xs: seq<Stamped>) {
    forall i :: 0 <= i < NUM_SHARDS ==> st.shards[i].data.Keys == LiveKeys(h, xs, i)
  }

  /** One record on a shard that holds the live keys: it evicts exactly when they no longer fit. */
  lemma LiveStep(h: Hash, st: Store, xs: seq<Stamped>, x: Stamped)
    requires StoreValid(h, st) && HoldsLive(h, st, xs) && FitsNow(h, xs, st.cap)
    requires At(h, st, StampedOp(x)).expired == 0 && (x.record.ExpireRecord? ==> x.record.secs >= 0)
    ensures At(h, st, StampedOp(x)).evicted == 0 <==> FitsNow(h, xs + [x], st.cap)
    ensures At(h, st, StampedOp(x)).evicted == 0 ==> HoldsLive(h, Apply(h, st, StampedOp(x)), xs + [x])
  {
    var j := ShardIndex(h, x.record.key);
    forall i | 0 <= i < NUM_SHARDS
      ensures LiveKeys(h, xs + [x], i) == if i == j then LiveKeys(h, xs + [x], j) else LiveKeys(h, xs, i)
    {
      LiveKeysSnoc(h, xs, x, i);
    }
    LiveKeysSnoc(h, xs, x, j);
    assert ShardValid(h, st, j);
    LiveShardStep(st.shards[j], st.cap, x);
    assert FitsNow(h, xs + [x], st.cap) <==> |LiveKeys(h, xs + [x], j)| <= st.cap;
  }

  lemma LiveShardStep(s: Shard, cap: nat, x: Stamped)
    requires Valid(s, cap) && cap >= 1 && Step(s, cap, StampedOp(x)).expired == 0
    requires x.record.ExpireRecord? ==> x.record.secs >= 0
    ensures var r, k := Step(s, cap, StampedOp(x)), x.record.key;
      var live := if x.record.SetRecord? then s.data.Keys + {k}
                  else if x.record.DelRecord? then s.data.Keys - {k} else s.data.Keys;
      && (r.evicted == 0 <==> |live| <= cap)
      && (r.evicted == 0 ==> r.shard.data.Keys == live)
  {
    var k := x.record.key;
    ValidSize(s, cap);
    if x.record.SetRecord? {
      LiveSet(s, cap, k, x.record.value);
    } else if x.record.DelRecord? {
      LiveDel(s, cap, k, x.tick.first);
    }
  }

  lemma LiveDel(s: Shard, cap: nat, k: string, now: int)
    requires Valid(s, cap) && Step(s, cap, Del(k, now)).expired == 0
    ensures var r := Step(s, cap, Del(k, now)); r.evicted == 0 && r.shard.data.Keys == s.data.Keys - {k}
    ensures |s.data.Keys - {k}| <= cap
  {
    ValidSize(s, cap);
    SubsetSize(s.data.Keys - {k}, s.data.Keys);
  }

  lemma LiveSet(s: Shard, cap: nat, k: string, v: string)
    requires Valid(s, cap) && cap >= 1
    ensures var r := Step(s, cap, Set(k, v));
      && (r.evicted == 0 <==> |s.data.Keys + {k}| <= cap)
      && (r.evicted == 0 ==> r.shard.data.Keys == s.data.Keys + {k})
  {
    ValidSize(s, cap);
    if k in s.data {
      assert s.data.Keys + {k} == s.data.Keys;
    } else {
      assert |s.data.Keys + {k}| == |s.order| + 1;
      VictimSize(s, cap);
      if Victim(s, cap) == {} {
        PutKeys(s, cap, k, Entry(v, None));
      }
    }
  }

  lemma VictimSize(s: Shard, cap: nat)
    requires cap >= 1
    ensures |Victim(s, cap)| == (if |s.order| >= cap then 1 else 0)
  {
  }

  lemma PutKeys(s: Shard, cap: nat, k: string, e: Entry)
    requires k !in s.data && Victim(s, cap) == {}
    ensures Put(s, cap, k, e).shard.data.Keys == s.data.Keys + {k}
  {
  }

  ghost predicate Clean(st: Store) { st.evicted == 0 && st.expired == 0 }

  /** A run of records evicts nothing and finds nothing expired if and only if the live keys fit
      after every prefix and every record is on time. */
  lemma {:induction false} CleanExactly(h: Hash, maxKeys: nat, xs: seq<Stamped>)
    requires NonNegative(xs)
    ensures var st := Run(h, Fresh(maxKeys), Ops(xs));
      && (Clean(st) <==> Fits(h, xs, PerShard(maxKeys)) && Timely(xs))
      && (Clean(st) ==> HoldsLive(h, st, xs))
  {
    if xs == [] {
      CleanStart(h, maxKeys);
    } else {
      var n := |xs| - 1;
      Rejoin(xs);
      assert xs[n] in xs;
      CleanExactly(h, maxKeys, xs[..n]);
      CleanSnoc(h, maxKeys, xs[..n], xs[n]);
    }
  }

  lemma CleanSnoc(h: Hash, maxKeys: nat, xs: seq<Stamped>, x: Stamped)
    requires NonNegative(xs) && (x.record.ExpireRecord? ==> x.record.secs >= 0)
    requires var st := Run(h, Fresh(maxKeys), Ops(xs));
      && (Clean(st) <==> Fits(h, xs, PerShard(maxKeys)) && Timely(xs))
      && (Clean(st) ==> HoldsLive(h, st, xs))
    ensures var st := Run(h, Fresh(maxKeys), Ops(xs + [x]));
      && (Clean(st) <==> Fits(h, xs + [x], PerShard(maxKeys)) && Timely(xs + [x]))
      && (Clean(st) ==> HoldsLive(h, st, xs + [x]))
  {
    hide Apply, Run, Fits, FitsNow, Timely, HoldsLive, At, OnTime, FinalOf;
    TimelySnoc(xs, x);
    FitsSnoc(h, xs, x, PerShard(maxKeys));
    OpsSnoc(h, Fresh(maxKeys), xs, x);
    ApplyCounts(h, Run(h, Fresh(maxKeys), Ops(xs)), StampedOp(x));
    CleanStep(h, maxKeys, xs, x);
  }

  lemma CleanStart(h: Hash, maxKeys: nat)
    ensures Run(h, Fresh(maxKeys), Ops([])) == Fresh(maxKeys)
    ensures Fits(h, [], PerShard(maxKeys)) && Timely([]) && HoldsLive(h, Fresh(maxKeys), [])
  {
    var none: seq<Stamped> := [];
    assert Ops(none) == [] && none[..0] == none;
  }

  lemma ApplyCounts(h: Hash, st: Store, op: Op)
    ensures var st', r := Apply(h, st, op), At(h, st, op);
      st'.evicted == st.evicted + r.evicted && st'.expired == st.expired + r.expired && st'.cap == st.cap
  {
  }

  lemma CleanStep(h: Hash, maxKeys: nat, xs: seq<Stamped>, x: Stamped)
    requires NonNegative(xs) && (x.record.ExpireRecord? ==> x.record.secs >= 0)
    ensures var st := Run(h, Fresh(maxKeys), Ops(xs));
      var r, cap := At(h, st, StampedOp(x)), PerShard(maxKeys);
      Clean(st) && HoldsLive(h, st, xs) && Fits(h, xs, cap) ==>
        && (r.expired == 0 <==> OnTime(FinalOf(xs, x.record.key), x))
        && (r.expired == 0 ==> (r.evicted == 0 <==> FitsNow(h, xs + [x], cap)))
        && (r.expired == 0 && r.evicted == 0 ==> HoldsLive(h, Apply(h, st, StampedOp(x)), xs + [x]))
  {
    var st := Run(h, Fresh(maxKeys), Ops(xs));
    if Clean(st) && HoldsLive(h, st, xs) && Fits(h, xs, PerShard(maxKeys)) {
      RunIsFinal(h, maxKeys, xs, x.record.key);
      RecordExpires(h, st, x);
      RunValid(h, Fresh(maxKeys), Ops(xs));
      if At(h, st, StampedOp(x)).expired == 0 {
        assert xs[..|xs|] == xs;
        LiveStep(h, st, xs, x);
      }
    }
  }

  /** Live keys, and so fitting, depend on the records alone. */
  lemma {:induction false} LiveKeysSame(h: Hash, xs: seq<Stamped>, ys: seq<Stamped>, i: nat)
    requires SameRecords(xs, ys)
    ensures LiveKeys(h, xs, i) == LiveKeys(h, ys, i)
  {
    if xs != [] {
      LiveKeysSame(h, xs[..|xs| - 1], ys[..|ys| - 1], i);
    }
  }

  lemma FitsSame(h: Hash, xs: seq<Stamped>, ys: seq<Stamped>, cap: nat)
    requires SameRecords(xs, ys) && Fits(h, xs, cap)
    ensures Fits(h, ys, cap)
  {
    forall n | 0 <= n <= |ys|
      ensures FitsNow(h, ys[..n], cap)
    {
      assert FitsNow(h, xs[..n], cap);
      forall i | 0 <= i < NUM_SHARDS
        ensures |LiveKeys(h, ys[..n], i)| <= cap
      {
        LiveKeysSame(h, xs[..n], ys[..n], i);
      }
    }
  }

  lemma KeysSetSnoc(h: Hash, xs: seq<Stamped>, x: Stamped, i: nat)
    ensures KeysSet(h, Ops(xs + [x]), i)
      == KeysSet(h, Ops(xs), i) + if Home(h, StampedOp(x)) == i then Adds(StampedOp(x)) else {}
  {
    assert Ops(xs + [x])[..|xs|] == Ops(xs);
  }

  lemma {:induction false} LiveWereSet(h: Hash, xs: seq<Stamped>, i: nat)
    ensures LiveKeys(h, xs, i) <= KeysSet(h, Ops(xs), i)
  {
    if xs != [] {
      var n := |xs| - 1;
      Rejoin(xs);
      LiveWereSet(h, xs[..n], i);
      LiveKeysSnoc(h, xs[..n], xs[n], i);
      KeysSetSnoc(h, xs[..n], xs[n], i);
    }
  }

  lemma {:induction false} KeysSetGrows(h: Hash, xs: seq<Stamped>, n: nat, i: nat)
    requires n <= |xs|
    ensures KeysSet(h, Ops(xs[..n]), i) <= KeysSet(h, Ops(xs), i)
  {
    if n == |xs| {
      assert xs[..n] == xs;
    } else {
      var m := |xs| - 1;
      Rejoin(xs);
      assert xs[..m][..n] == xs[..n];
      KeysSetGrows(h, xs[..m], n, i);
      KeysSetSnoc(h, xs[..m], xs[m], i);
    }
  }

  /** A log that sets no more different keys of a shard than it has room for always fits. */
  lemma {:induction false} FewKeysFit(h: Hash, xs: seq<Stamped>, cap: nat)
    requires forall i :: 0 <= i < NUM_SHARDS ==> |KeysSet(h, Ops(xs), i)| <= cap
    ensures Fits(h, xs, cap)
  {
    forall n | 0 <= n <= |xs|
      ensures FitsNow(h, xs[..n], cap)
    {
      forall i | 0 <= i < NUM_SHARDS
        ensures |LiveKeys(h, xs[..n], i)| <= cap
      {
        LiveWereSet(h, xs[..n], i);
        KeysSetGrows(h, xs, n, i);
        SubsetSize(LiveKeys(h, xs[..n], i), KeysSet(h, Ops(xs), i));
      }
    }
  }

  // ----- The same records at two times -----

  /** Record `j` is the last one on `k`; it gave `k` its deadlines `d` and `d'`, counted from the
      two runs' own readings. */
  ghost predicate AnchoredAt(xs: seq<Stamped>, ys: seq<Stamped>, k: string, d: int, d': int, j: nat)
    requires |xs| == |ys|
  {
    && j < |xs| && xs[j].record.ExpireRecord? && xs[j].record.key == k
    && (forall i :: j < i < |xs| ==> xs[i].record.key != k)
    && d == xs[j].tick.second + xs[j].record.secs * NANOS
    && d' == ys[j].tick.second + xs[j].record.secs * NANOS
  }

  ghost predicate Anchored(xs: seq<Stamped>, ys: seq<Stamped>, k: string, d: Option<int>, d': Option<int>)
    requires |xs| == |ys|
  {
    && (d.Some? <==> d'.Some?)
    && (d.Some? ==> exists j :: AnchoredAt(xs, ys, k, d.value, d'.value, j))
  }

  /** An older anchor stays one when the next record is about another key. */
  lemma AnchoredNext(xs: seq<Stamped>, ys: seq<Stamped>, x: Stamped, y: Stamped, k: string,
                     d: Option<int>, d': Option<int>)
    requires |xs| == |ys| && Anchored(xs, ys, k, d, d') && x.record.key != k
    ensures Anchored(xs + [x], ys + [y], k, d, d')
  {
    if d.Some? {
      var j :| AnchoredAt(xs, ys, k, d.value, d'.value, j);
      assert AnchoredAt(xs + [x], ys + [y], k, d.value, d'.value, j);
    }
  }

  /** A fresh deadline is anchored at the record that gave it. */
  lemma AnchoredNow(xs: seq<Stamped>, ys: seq<Stamped>, x: Stamped, y: Stamped)
    requires |xs| == |ys| && x.record.ExpireRecord?
    ensures Anchored(xs + [x], ys + [y], x.record.key, Some(x.tick.second + x.record.secs * NANOS),
                     Some(y.tick.second + x.record.secs * NANOS))
  {
    assert AnchoredAt(xs + [x], ys + [y], x.record.key, x.tick.second + x.record.secs * NANOS,
                      y.tick.second + x.record.secs * NANOS, |xs|);
  }

  /** The same value and, if there is a deadline, the logged seconds counted from each run. */
  ghost predicate SameEntry(xs: seq<Stamped>, ys: seq<Stamped>, k: string, e: Option<Entry>, f: Option<Entry>)
    requires |xs| == |ys|
  {
    && (e.Some? <==> f.Some?)
    && (e.Some? ==> e.value.value == f.value.value
                    && Anchored(xs, ys, k, e.value.deadline, f.value.deadline))
  }

  lemma SameEntrySnoc(xs: seq<Stamped>, ys: seq<Stamped>, x: Stamped, y: Stamped, k: string,
                      e: Option<Entry>, f: Option<Entry>)
    requires |xs| == |ys| && x.record == y.record && SameEntry(xs, ys, k, e, f)
    ensures x.record.key == k ==> SameEntry(xs + [x], ys + [y], k, After(e, x), After(f, y))
    ensures x.record.key != k ==> SameEntry(xs + [x], ys + [y], k, e, f)
  {
    if x.record.key != k {
      if e.Some? {
        AnchoredNext(xs, ys, x, y, k, e.value.deadline, f.value.deadline);
      }
    } else if x.record.ExpireRecord? {
      AnchoredNow(xs, ys, x, y);
    }
  }

  lemma {:induction false} FinalsAgree(xs: seq<Stamped>, ys: seq<Stamped>, k: string)
    requires SameRecords(xs, ys)
    ensures SameEntry(xs, ys, k, FinalOf(xs, k), FinalOf(ys, k))
  {
    if xs != [] {
      var n := |xs| - 1;
      FinalsAgree(xs[..n], ys[..n], k);
      SameEntrySnoc(xs[..n], ys[..n], xs[n], ys[n], k, FinalOf(xs[..n], k), FinalOf(ys[..n], k));
      Rejoin(xs);
      Rejoin(ys);
    }
  }

  // ----- Replay -----

  /** Replay of any log evicts nothing and finds nothing expired if and only if the log fits and the
      replay is timely. */
  lemma {:induction false} ReplayClean(h: Hash, xs: seq<Stamped>, maxKeys: nat, ticks: seq<Tick>)
    requires AllReplayable(xs) && |ticks| == |xs|
    ensures var rec := Replay(h, Fresh(maxKeys), PrintAll(xs), ticks);
      && rec.stats == ReplayStats(|xs|, 0, 0)
      && (Clean(rec.store) <==> Fits(h, xs, PerShard(maxKeys)) && Timely(Restamp(xs, ticks)))
  {
    hide Fits, Timely, Run, Replay;
    var ys := Restamp(xs, ticks);
    ReplayIsRun(h, Fresh(maxKeys), xs, ticks);
    CleanExactly(h, maxKeys, ys);
    if Fits(h, xs, PerShard(maxKeys)) {
      FitsSame(h, xs, ys, PerShard(maxKeys));
    }
    if Fits(h, ys, PerShard(maxKeys)) {
      FitsSame(h, ys, xs, PerShard(maxKeys));
    }
  }

  /** A replayed store holds of a key what the records leave, which is what they leave at other clock
      readings, deadlines counted anew, unless the key is missing. */
  lemma {:induction false} ReplayKept(h: Hash, xs: seq<Stamped>, maxKeys: nat, ticks: seq<Tick>, k: string)
    requires AllReplayable(xs) && |ticks| == |xs|
    ensures var ys := Restamp(xs, ticks);
      && Kept(Missing(h, maxKeys, ys, k), Lookup(h, Replay(h, Fresh(maxKeys), PrintAll(xs), ticks).store, k),
              FinalOf(ys, k))
      && SameEntry(xs, ys, k, FinalOf(xs, k), FinalOf(ys, k))
  {
    hide Kept, Lookup, Run, Replay, SameEntry, FinalOf, Missing;
    ReplayIsRun(h, Fresh(maxKeys), xs, ticks);
    RunKept(h, maxKeys, Restamp(xs, ticks), k);
    FinalsAgree(xs, Restamp(xs, ticks), k);
  }

  /** A replay that fits and is timely misses no key. */
  lemma {:induction false} FittingMissesNothing(h: Hash, xs: seq<Stamped>, maxKeys: nat, ticks: seq<Tick>, k: string)
    requires AllReplayable(xs) && |ticks| == |xs|
    requires Fits(h, xs, PerShard(maxKeys)) && Timely(Restamp(xs, ticks))
    ensures !Missing(h, maxKeys, Restamp(xs, ticks), k)
  {
    hide Fits, Timely, Run, Missing;
    FitsSame(h, xs, Restamp(xs, ticks), PerShard(maxKeys));
    CleanExactly(h, maxKeys, Restamp(xs, ticks));
    NothingMissing(h, maxKeys, Restamp(xs, ticks), k);
  }

  /** Two stores that hold what the records leave, each unless it lost the key, agree on the key if and
      only if both lost it or neither did. */
  lemma KeptAgree(xs: seq<Stamped>, ys: seq<Stamped>, k: string, dropped: bool, e: Option<Entry>, missing: bool,
                  f: Option<Entry>)
    requires |xs| == |ys| && SameEntry(xs, ys, k, FinalOf(xs, k), FinalOf(ys, k))
    requires Kept(dropped, e, FinalOf(xs, k)) && Kept(missing, f, FinalOf(ys, k))
    ensures SameEntry(xs, ys, k, e, f) <==> (dropped <==> missing)
  {
    hide FinalOf;
  }
}
