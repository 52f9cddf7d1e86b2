/** The store as the program keeps it: per shard a hash map and a linked list,
    joined by iterators, updated in place. Every method is proved against the
    shard and store functions on values. */
module Storage {
  import opened Basics
  import opened Shards
  import opened Stores

  /** A cell of the recency list; an iterator is a reference to one. */
  class ListNode {
    const key: string
    constructor (key: string)
      ensures this.key == key
    {
      this.key := key;
    }
  }

  datatype Slot = Slot(value: string, deadline: Option<int>, node: ListNode)

  function Keys(nodes: seq<ListNode>): seq<string> {
    seq(|nodes|, i requires 0 <= i < |nodes| => nodes[i].key)
  }

  lemma KeysCons(node: ListNode, nodes: seq<ListNode>)
    ensures Keys([node] + nodes) == [node.key] + Keys(nodes)
  {
  }

  lemma {:induction false} KeysRemove(nodes: seq<ListNode>, node: ListNode)
    requires forall n :: n in nodes && n.key == node.key ==> n == node
    ensures Keys(Remove(nodes, {node})) == Remove(Keys(nodes), {node.key})
  {
    if nodes != [] {
      var rest := nodes[1..];
      assert nodes == [nodes[0]] + rest;
      assert forall n :: n in rest ==> n in nodes;
      KeysRemove(rest, node);
      KeysCons(nodes[0], rest);
      KeysCons(nodes[0], Remove(rest, {node}));
      assert Keys(nodes)[1..] == Keys(rest);
    }
  }

  /** List cells are distinct, each has its key's entry, and each entry's iterator points at
      the cell of its own key. */
  ghost predicate Joined(data: map<string, Slot>, lru: seq<ListNode>) {
    && NoDup(lru)
    && (forall n :: n in lru ==> n.key in data && data[n.key].node == n)
    && (forall k :: k in data ==> data[k].node in lru && data[k].node.key == k)
  }

  function Entries(data: map<string, Slot>): map<string, Entry> {
    map k | k in data :: Entry(data[k].value, data[k].deadline)
  }

  /** Joined structures hold the same keys, none twice. */
  lemma JoinedKeys(data: map<string, Slot>, lru: seq<ListNode>)
    requires Joined(data, lru)
    ensures Valid(Shard(Keys(lru), Entries(data)), |lru|)
    ensures |lru| == |data|
  {
    forall k | k in data
      ensures k in Keys(lru)
    {
      var i :| 0 <= i < |lru| && lru[i] == data[k].node;
      assert Keys(lru)[i] == k;
    }
    forall i, j | 0 <= i < j < |lru|
      ensures Keys(lru)[i] != Keys(lru)[j]
    {
      assert lru[i] in lru && lru[j] in lru;
    }
    ValidSize(Shard(Keys(lru), Entries(data)), |lru|);
    assert Entries(data).Keys == data.Keys;
  }

  lemma EntriesErase(data: map<string, Slot>, key: string)
    ensures Entries(data - {key}) == Entries(data) - {key}
  {
  }

  lemma EntriesPut(data: map<string, Slot>, key: string, slot: Slot)
    ensures Entries(data[key := slot]) == Entries(data)[key := Entry(slot.value, slot.deadline)]
  {
  }

  function Value(data: map<string, Slot>, lru: seq<ListNode>): Shard {
    Shard(Keys(lru), Entries(data))
  }

  lemma JoinedErase(data: map<string, Slot>, lru: seq<ListNode>, key: string)
    requires Joined(data, lru) && key in data
    ensures Joined(data - {key}, Remove(lru, {data[key].node}))
    ensures Value(data - {key}, Remove(lru, {data[key].node})) == Discard(Value(data, lru), {key})
  {
    RemoveNoDup(lru, {data[key].node});
    KeysRemove(lru, data[key].node);
    EntriesErase(data, key);
  }

  lemma SpliceJoined(data: map<string, Slot>, lru: seq<ListNode>, key: string, e: Entry)
    requires Joined(data, lru) && key in data
    ensures var node := data[key].node;
      Joined(data[key := Slot(e.value, e.deadline, node)], [node] + Remove(lru, {node}))
  {
    RemoveNoDup(lru, {data[key].node});
  }

  lemma SpliceKeys(lru: seq<ListNode>, node: ListNode)
    requires node in lru && forall n :: n in lru && n.key == node.key ==> n == node
    ensures Keys([node] + Remove(lru, {node})) == [node.key] + Remove(Keys(lru), {node.key})
  {
    KeysRemove(lru, node);
  }

  lemma JoinedSplice(data: map<string, Slot>, lru: seq<ListNode>, key: string, e: Entry)
    requires Joined(data, lru) && key in data
    ensures var node := data[key].node;
      var data', lru' := data[key := Slot(e.value, e.deadline, node)], [node] + Remove(lru, {node});
      Joined(data', lru') && Value(data', lru') == ToFront(Value(data, lru), key, e)
  {
    var node := data[key].node;
    SpliceJoined(data, lru, key, e);
    SpliceKeys(lru, node);
    EntriesPut(data, key, Slot(e.value, e.deadline, node));
  }

  lemma JoinedInsert(data: map<string, Slot>, lru: seq<ListNode>, node: ListNode, e: Entry)
    requires Joined(data, lru) && node.key !in data
    ensures var slot := Slot(e.value, e.deadline, node);
      && Joined(data[node.key := slot], [node] + lru)
      && Value(data[node.key := slot], [node] + lru) == ToFront(Value(data, lru), node.key, e)
  {
    assert forall n :: n in lru ==> n != node;
    NewKey(data, lru, node);
    EntriesPut(data, node.key, Slot(e.value, e.deadline, node));
  }

  lemma NewKey(data: map<string, Slot>, lru: seq<ListNode>, node: ListNode)
    requires Joined(data, lru) && node.key !in data
    ensures Keys([node] + lru) == [node.key] + Remove(Keys(lru), {node.key})
  {
    hide Remove;
    forall x | x in Keys(lru)
      ensures x !in {node.key}
    {
      var i :| 0 <= i < |lru| && lru[i].key == x;
      assert lru[i] in lru;
    }
    RemoveNone(Keys(lru), {node.key});
    KeysCons(node, lru);
  }

  class ShardCell {
    var data: map<string, Slot>
    var lru: seq<ListNode>

    constructor ()
      ensures Linked() && View() == EMPTY_SHARD
    {
      data, lru := map[], [];
    }

    ghost predicate Linked()
      reads this
    {
      Joined(data, lru)
    }

    ghost function View(): Shard
      reads this
    {
      Value(data, lru)
    }

    /** Remove the map entry of `key` and, through its iterator, the list cell. */
    method Erase(key: string)
      requires Linked() && key in data
      modifies this
      ensures Linked() && View() == Discard(old(View()), {key})
    {
      JoinedErase(data, lru, key);
      lru := Remove(lru, {data[key].node});
      data := data - {key};
    }

    /** Give `key` the value and deadline and move its cell to the front. */
    method Update(key: string, value: string, deadline: Option<int>)
      requires Linked() && key in data
      modifies this
      ensures Linked() && View() == ToFront(old(View()), key, Entry(value, deadline))
    {
      JoinedSplice(data, lru, key, Entry(value, deadline));
      var node := data[key].node;
      data := data[key := Slot(value, deadline, node)];
      lru := [node] + Remove(lru, {node});
    }

    method MoveToFront(key: string)
      requires Linked() && key in data
      modifies this
      ensures Linked() && View() == ToFront(old(View()), key, old(View().data[key]))
      ensures data == old(data)
    {
      var node := data[key].node;
      JoinedSplice(data, lru, key, View().data[key]);
      assert data[key := Slot(data[key].value, data[key].deadline, node)] == data;
      lru := [node] + Remove(lru, {node});
    }

    method SetDeadline(key: string, deadline: int)
      requires Linked() && key in data
      modifies this
      ensures Linked() && View() == Redate(old(View()), key, deadline)
    {
      data := data[key := data[key].(deadline := Some(deadline))];
      assert View().data == Redate(old(View()), key, deadline).data;
    }

    /** Add a new key at the front. */
    method Insert(key: string, value: string, deadline: Option<int>)
      requires Linked() && key !in data
      modifies this
      ensures Linked() && View() == ToFront(old(View()), key, Entry(value, deadline))
    {
      var node := new ListNode(key);
      JoinedInsert(data, lru, node, Entry(value, deadline));
      data := data[key := Slot(value, deadline, node)];
      lru := [node] + lru;
    }

    /** Remove the least recently used key. */
    method PopBack()
      requires Linked() && lru != []
      modifies this
      ensures Linked() && View() == Discard(old(View()), {old(View().order[|View().order| - 1])})
      ensures |data| == |lru| == old(|lru|) - 1
    {
      var n := |lru| - 1;
      var node := lru[n];
      assert node in lru;
      JoinedErase(data, lru, node.key);
      RemoveLast(lru);
      data := data - {node.key};
      lru := lru[..n];
      JoinedKeys(data, lru);
    }
  }

  lemma DiscardNone(s: Shard)
    ensures Discard(s, {}) == s
  {
    RemoveNone(s.order, {});
    assert s.data - {} == s.data;
  }

  const MAX_SCAN_PER_SWEEP := 100

  /** The keys a sweep gets to. */
  function Scanned(iteration: seq<string>): seq<string> {
    if |iteration| <= MAX_SCAN_PER_SWEEP then iteration else iteration[..MAX_SCAN_PER_SWEEP]
  }

  lemma DiscardTwice(s: Shard, a: set<string>, b: set<string>)
    ensures Discard(Discard(s, a), b) == Discard(s, a + b)
  {
    RemoveTwice(s.order, a, b);
    assert s.data - a - b == s.data - (a + b);
  }

  /** One more visited key adds itself to the swept keys if it has expired. */
  lemma SweptNext(s: Shard, now: int, iteration: seq<string>, n: nat)
    requires NoDup(iteration) && Elems(iteration) == s.data.Keys && n < |iteration|
    ensures var gone := Swept(s, now, Elems(iteration[..n]));
      && iteration[n] in s.data
      && iteration[n] !in gone
      && Swept(s, now, Elems(iteration[..n + 1]))
         == if Expired(s.data[iteration[n]], now) then gone + {iteration[n]} else gone
  {
    assert iteration[n] in Elems(iteration);
    assert iteration[..n + 1] == iteration[..n] + [iteration[n]];
  }

  lemma SweepStep(s: Shard, cap: nat, i: nat, now: int, visited: set<string>)
    ensures var r, gone := Step(s, cap, Op.Sweep(i, now, visited)), Swept(s, now, visited);
      r.shard == Discard(s, gone) && r.evicted == 0 && r.expired == |gone|
  {
  }

  /** A sweep that gets to every key leaves none that is past its deadline. */
  lemma SweptAll(s: Shard, now: int, iteration: seq<string>)
    requires Elems(iteration) == s.data.Keys
    ensures var rest := Discard(s, Swept(s, now, Elems(Scanned(iteration))));
      |iteration| <= MAX_SCAN_PER_SWEEP ==> forall k :: k in rest.data ==> !Expired(rest.data[k], now)
  {
  }

  lemma NothingSwept(s: Shard, now: int, iteration: seq<string>)
    ensures Swept(s, now, Elems(iteration[..0])) == {}
    ensures Discard(s, {}) == s
  {
    DiscardNone(s);
  }

  /** A sweep removes exactly the visited entries past their deadline; survivors keep their
      entries and relative order, and the expired count rises by the number removed. */
  lemma SweepRemovesExpired(s: Shard, cap: nat, now: int, visited: set<string>)
    requires Valid(s, cap)
    ensures var r := Step(s, cap, Op.Sweep(0, now, visited));
      && (forall k :: k in r.shard.data <==> k in s.data && !(k in visited && Expired(s.data[k], now)))
      && (forall k :: k in r.shard.data ==> r.shard.data[k] == s.data[k])
      && Subsequence(r.shard.order, s.order)
      && r.expired == |s.data| - |r.shard.data|
      && (s.data.Keys <= visited ==> forall k :: k in r.shard.data ==> !Expired(r.shard.data[k], now))
  {
    var gone := Swept(s, now, visited);
    DiscardValid(s, cap, gone);
    ValidSize(s, cap);
    ValidSize(Discard(s, gone), cap);
    RemoveIsSubsequence(s.order, gone);
    assert gone * s.data.Keys == gone;
  }

  ghost function Views(cells: seq<ShardCell>): (r: seq<Shard>)
    reads cells
    ensures |r| == |cells| && forall i :: 0 <= i < |cells| ==> r[i] == cells[i].View()
  {
    if cells == [] then [] else [cells[0].View()] + Views(cells[1..])
  }

  lemma RoomInShard(h: Hash, st: Store, i: nat)
    requires StoreValid(h, st) && i < NUM_SHARDS
    ensures Valid(st.shards[i], st.cap) && st.cap >= 1
  {
    assert ShardValid(h, st, i);
  }

  lemma SetStep(s: Shard, cap: nat, op: Op)
    requires op.Set? || op.SetTtl?
    ensures Step(s, cap, op) == Put(s, cap, op.key, SetEntry(op)) && Put(s, cap, op.key, SetEntry(op)).expired == 0
  {
  }

  class ShardedStorage {
    const hash: Hash
    const maxKeysPerShard: nat
    const shards: seq<ShardCell>
    var expiredKeys: nat
    var evictedKeys: nat

    ghost predicate Separate()
    {
      |shards| == NUM_SHARDS && NoDup(shards)
    }

    ghost predicate Consistent()
      reads this, shards
    {
      && Separate()
      && (forall i :: 0 <= i < NUM_SHARDS ==> shards[i].Linked())
      && StoreValid(hash, View())
    }

    ghost function View(): Store
      requires Separate()
      reads this, shards
    {
      Store(maxKeysPerShard, Views(shards), evictedKeys, expiredKeys)
    }

    constructor (hash: Hash, maxKeys: nat)
      ensures Consistent() && View() == Fresh(maxKeys) && this.hash == hash
      ensures forall n: nat :: n <= maxKeysPerShard <==> Room(maxKeys, n)
      ensures fresh(shards)
    {
      var cells: seq<ShardCell> := [];
      for i := 0 to NUM_SHARDS
        invariant |cells| == i && NoDup(cells) && fresh(cells)
        invariant forall j :: 0 <= j < i ==> cells[j].Linked() && cells[j].View() == EMPTY_SHARD
      {
        var cell := new ShardCell();
        cells := cells + [cell];
      }
      this.hash := hash;
      maxKeysPerShard := PerShard(maxKeys);
      shards := cells;
      expiredKeys, evictedKeys := 0, 0;
      new;
      assert View().shards == Fresh(maxKeys).shards;
      FreshValid(hash, maxKeys);
    }

    /** The loop that makes room for one more key: it removes at most one entry, the last. */
    method EvictIfNeeded(shard: ShardCell)
      requires shard.Linked() && Valid(shard.View(), maxKeysPerShard) && maxKeysPerShard >= 1
      modifies shard, `evictedKeys
      ensures shard.Linked()
      ensures shard.View() == Discard(old(shard.View()), Victim(old(shard.View()), maxKeysPerShard))
      ensures evictedKeys == old(evictedKeys) + |Victim(old(shard.View()), maxKeysPerShard)|
    {
      hide Joined, Remove, Entries;
      ghost var before := shard.View();
      ghost var removed := 0;
      JoinedKeys(shard.data, shard.lru);
      DiscardNone(before);
      while |shard.data| >= maxKeysPerShard
        invariant shard.Linked()
        invariant evictedKeys == old(evictedKeys) + removed && |shard.data| == |before.order| - removed
        invariant removed == 0 ==> shard.View() == before
        invariant removed > 0 ==> removed == 1 == |Victim(before, maxKeysPerShard)|
                                  && shard.View() == Discard(before, Victim(before, maxKeysPerShard))
        decreases |shard.data|
      {
        shard.PopBack();
        evictedKeys, removed := evictedKeys + 1, removed + 1;
      }
    }

    method InsertOrUpdate(shard: ShardCell, key: string, value: string, deadline: Option<int>)
      requires shard.Linked() && Valid(shard.View(), maxKeysPerShard) && maxKeysPerShard >= 1
      modifies shard, `evictedKeys
      ensures shard.Linked()
      ensures var r := Put(old(shard.View()), maxKeysPerShard, key, Entry(value, deadline));
        shard.View() == r.shard && evictedKeys == old(evictedKeys) + r.evicted
    {
      if key in shard.data {
        shard.Update(key, value, deadline);
      } else {
        EvictIfNeeded(shard);
        assert key !in shard.View().data;
        shard.Insert(key, value, deadline);
      }
    }

    /** A change of the operation's own shard and of the counters is the operation on the store. */
    twostate lemma Settled(op: Op)
      requires old(Consistent()) && Separate()
      requires forall j :: 0 <= j < NUM_SHARDS && j != Home(hash, op) ==> unchanged(shards[j])
      requires var i := Home(hash, op);
        var r := Step(old(shards[i].View()), maxKeysPerShard, op);
        && shards[i].Linked() && shards[i].View() == r.shard
        && evictedKeys == old(evictedKeys) + r.evicted && expiredKeys == old(expiredKeys) + r.expired
      ensures Consistent() && View() == Apply(hash, old(View()), op)
    {
      hide StoreValid, Step;
      var i := Home(hash, op);
      assert View().shards == old(View()).shards[i := shards[i].View()];
      ApplyValid(hash, old(View()), op);
    }

    /** Lazy expiry of one entry. */
    method RemoveExpiredEntry(shard: ShardCell, key: string)
      requires shard.Linked() && key in shard.data
      modifies shard, `expiredKeys
      ensures shard.Linked() && shard.View() == Discard(old(shard.View()), {key})
      ensures expiredKeys == old(expiredKeys) + 1
    {
      shard.Erase(key);
      expiredKeys := expiredKeys + 1;
    }

    static predicate IsExpired(slot: Slot, now: int) {
      slot.deadline.Some? && now >= slot.deadline.value
    }

    method Set(key: string, value: string)
      requires Consistent()
      modifies this, shards
      ensures Consistent() && View() == Apply(hash, old(View()), Op.Set(key, value))
    {
      hide Joined, StoreValid, Apply, Step, Put;
      var i := ShardIndex(hash, key);
      RoomInShard(hash, View(), i);
      SetStep(shards[i].View(), maxKeysPerShard, Op.Set(key, value));
      InsertOrUpdate(shards[i], key, value, None);
      Settled(Op.Set(key, value));
    }

    method SetWithTtl(key: string, value: string, secs: int, now: int)
      requires Consistent()
      modifies this, shards
      ensures Consistent() && View() == Apply(hash, old(View()), Op.SetTtl(key, value, secs, now))
    {
      hide Joined, StoreValid, Apply, Step, Put;
      var i := ShardIndex(hash, key);
      RoomInShard(hash, View(), i);
      SetStep(shards[i].View(), maxKeysPerShard, Op.SetTtl(key, value, secs, now));
      var deadline := if secs < 0 then None else Some(now + secs * NANOS);
      InsertOrUpdate(shards[i], key, value, deadline);
      Settled(Op.SetTtl(key, value, secs, now));
    }

    method Get(key: string, now: int) returns (result: Option<string>)
      requires Consistent()
      modifies this, shards
      ensures Consistent() && View() == Apply(hash, old(View()), Op.Get(key, now))
      ensures At(hash, old(View()), Op.Get(key, now)).answer == Found(result)
    {
      hide Joined, StoreValid, Apply, Remove;
      var shard := shards[ShardIndex(hash, key)];
      if key !in shard.data {
        result := None;
      } else if IsExpired(shard.data[key], now) {
        RemoveExpiredEntry(shard, key);
        result := None;
      } else {
        shard.MoveToFront(key);
        result := Some(shard.data[key].value);
      }
      Settled(Op.Get(key, now));
    }

    method Del(key: string, now: int) returns (deleted: bool)
      requires Consistent()
      modifies this, shards
      ensures Consistent() && View() == Apply(hash, old(View()), Op.Del(key, now))
      ensures At(hash, old(View()), Op.Del(key, now)).answer == Flag(deleted)
    {
      hide Joined, StoreValid, Apply, Remove;
      var shard := shards[ShardIndex(hash, key)];
      if key !in shard.data {
        deleted := false;
      } else if IsExpired(shard.data[key], now) {
        RemoveExpiredEntry(shard, key);
        deleted := false;
      } else {
        shard.Erase(key);
        deleted := true;
      }
      Settled(Op.Del(key, now));
    }

    method Expire(key: string, secs: int, now: int, later: int) returns (done: bool)
      requires Consistent()
      modifies this, shards
      ensures Consistent() && View() == Apply(hash, old(View()), Op.Expire(key, secs, now, later))
      ensures At(hash, old(View()), Op.Expire(key, secs, now, later)).answer == Flag(done)
    {
      done := false;
      if secs >= 0 {
        done := ExpireIn(shards[ShardIndex(hash, key)], key, secs, now, later);
      }
      Settled(Op.Expire(key, secs, now, later));
    }

    /** `Expire` with the shard lock held. */
    method ExpireIn(shard: ShardCell, key: string, secs: nat, now: int, later: int) returns (done: bool)
      requires shard.Linked()
      modifies shard, `expiredKeys
      ensures shard.Linked()
      ensures var r := Step(old(shard.View()), maxKeysPerShard, Op.Expire(key, secs, now, later));
        && shard.View() == r.shard && Flag(done) == r.answer && r.evicted == 0
        && expiredKeys == old(expiredKeys) + r.expired
    {
      if key !in shard.data {
        done := false;
      } else if IsExpired(shard.data[key], now) {
        RemoveExpiredEntry(shard, key);
        done := false;
      } else {
        shard.SetDeadline(key, later + secs * NANOS);
        done := true;
      }
    }

    method Ttl(key: string, now: int, later: int) returns (secs: int)
      requires Consistent()
      modifies this, shards
      ensures Consistent() && View() == Apply(hash, old(View()), Op.Ttl(key, now, later))
      ensures At(hash, old(View()), Op.Ttl(key, now, later)).answer == Number(secs)
    {
      hide Joined, StoreValid, Apply, Step;
      secs := TtlIn(shards[ShardIndex(hash, key)], key, now, later);
      Settled(Op.Ttl(key, now, later));
    }

    /** `Ttl` with the shard lock held. */
    method TtlIn(shard: ShardCell, key: string, now: int, later: int) returns (secs: int)
      requires shard.Linked()
      modifies shard, `expiredKeys
      ensures shard.Linked()
      ensures var r := Step(old(shard.View()), maxKeysPerShard, Op.Ttl(key, now, later));
        && shard.View() == r.shard && Number(secs) == r.answer && r.evicted == 0
        && expiredKeys == old(expiredKeys) + r.expired
    {
      if key !in shard.data {
        secs := -2;
      } else if IsExpired(shard.data[key], now) {
        RemoveExpiredEntry(shard, key);
        secs := -2;
      } else if shard.data[key].deadline.None? {
        secs := -1;
      } else {
        var remaining := WholeSeconds(shard.data[key].deadline.value - later);
        secs := if remaining > 0 then remaining else 0;
      }
    }

    method Count() returns (total: nat)
      requires Consistent()
      ensures total == Size(View().shards)
    {
      total := 0;
      ghost var views := View().shards;
      for i := 0 to NUM_SHARDS
        invariant total + Size(views[i..]) == Size(views)
      {
        assert views[i..][1..] == views[i + 1..];
        assert shards[i].data.Keys == views[i].data.Keys;
        total := total + |shards[i].data|;
      }
    }

    /** The background sweep of one shard, visiting its map in the order `iteration`: entries
        past their deadline among the first hundred go, the rest stay as they are. */
    method SweepShard(i: nat, now: int, iteration: seq<string>)
      requires Consistent() && i < NUM_SHARDS
      requires NoDup(iteration) && Elems(iteration) == shards[i].data.Keys
      modifies this, shards
      ensures Consistent()
      ensures var visited := if |iteration| <= 100 then iteration else iteration[..100];
        View() == Apply(hash, old(View()), Op.Sweep(i, now, Elems(visited)))
      ensures |iteration| <= 100 ==>
        forall k :: k in shards[i].View().data ==> !Expired(shards[i].View().data[k], now)
    {
      hide Step, Swept, Discard, Expired, Joined, Apply, StoreValid;
      ghost var op := Op.Sweep(i, now, Elems(Scanned(iteration)));
      SweepStep(shards[i].View(), maxKeysPerShard, i, now, Elems(Scanned(iteration)));
      SweptAll(shards[i].View(), now, iteration);
      SweepIn(shards[i], now, iteration);
      assert Home(hash, op) == i;
      Settled(op);
    }

    /** The sweep loop, with the shard lock held. */
    method SweepIn(shard: ShardCell, now: int, iteration: seq<string>)
      requires shard.Linked() && NoDup(iteration) && Elems(iteration) == shard.data.Keys
      modifies shard, `expiredKeys
      ensures shard.Linked()
      ensures var gone := Swept(old(shard.View()), now, Elems(Scanned(iteration)));
        shard.View() == Discard(old(shard.View()), gone) && expiredKeys == old(expiredKeys) + |gone|
    {
      hide Joined, Remove;
      ghost var before := shard.View();
      ghost var gone := Swept(before, now, Elems(iteration[..0]));
      NothingSwept(before, now, iteration);
      var scanned := 0;
      while scanned < |iteration| && scanned < MAX_SCAN_PER_SWEEP
        invariant scanned <= |Scanned(iteration)|
        invariant shard.Linked() && shard.View() == Discard(before, gone)
        invariant gone == Swept(before, now, Elems(iteration[..scanned]))
        invariant expiredKeys == old(expiredKeys) + |gone|
      {
        SweptNext(before, now, iteration, scanned);
        gone := SweepEntry(shard, iteration[scanned], now, before, gone);
        scanned := scanned + 1;
      }
      assert iteration[..scanned] == Scanned(iteration);
    }

    /** One turn of the sweep loop, `gone` being what it has removed from `before` so far. */
    method SweepEntry(shard: ShardCell, key: string, now: int, ghost before: Shard, ghost gone: set<string>)
      returns (ghost gone': set<string>)
      requires shard.Linked() && shard.View() == Discard(before, gone)
      requires key in before.data && key !in gone
      modifies shard, `expiredKeys
      ensures shard.Linked() && shard.View() == Discard(before, gone')
      ensures gone' == if Expired(before.data[key], now) then gone + {key} else gone
      ensures expiredKeys == old(expiredKeys) + |gone'| - |gone|
    {
      assert key in shard.View().data;
      gone' := gone;
      if IsExpired(shard.data[key], now) {
        shard.Erase(key);
        expiredKeys := expiredKeys + 1;
        DiscardTwice(before, gone, {key});
        gone' := gone + {key};
      }
    }
  }
}
