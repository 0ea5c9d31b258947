/** One shard of the block cache: reference counts, the two lists, the charge and the
    hash table (util/cache.cc, LRUCache). */
module LruCache {
  import opened Dbformat
  import opened HandleTable

  /** A handle is named by a number that is never used again; `refs` counts the cache's own
      reference, if there is one, and the clients'. */
  datatype Handle = Handle(key: Key, hash: nat, value: nat, charge: nat, inCache: bool, refs: nat)

  type Handles = map<nat, Handle>

  // ---- lists ---------------------------------------------------------------------------

  ghost predicate NoDup(s: seq<nat>) { forall i, j :: 0 <= i < j < |s| ==> s[i] != s[j] }

  /** LRU_Remove. */
  function Without(s: seq<nat>, id: nat): seq<nat> {
    if s == [] then [] else if s[0] == id then s[1..] else [s[0]] + Without(s[1..], id)
  }

  function Sum(handles: Handles, s: seq<nat>): nat {
    if s == [] then 0 else (if s[0] in handles then handles[s[0]].charge else 0) + Sum(handles, s[1..])
  }

  lemma {:induction false} WithoutSpec(handles: Handles, s: seq<nat>, id: nat)
    requires NoDup(s) && id in s && id in handles
    ensures NoDup(Without(s, id)) && |Without(s, id)| == |s| - 1
    ensures forall x :: x in Without(s, id) <==> x in s && x != id
    ensures Sum(handles, s) == Sum(handles, Without(s, id)) + handles[id].charge
  {
    if s[0] != id {
      WithoutSpec(handles, s[1..], id);
      var rest := Without(s[1..], id);
      forall i | 0 <= i < |rest| ensures rest[i] != s[0] { assert rest[i] in rest; }
    } else {
      forall x | x in s[1..] ensures x != id {}
    }
  }

  lemma {:induction false} SumAppend(handles: Handles, s: seq<nat>, id: nat)
    requires id in handles
    ensures Sum(handles, s + [id]) == Sum(handles, s) + handles[id].charge
  {
    if s == [] {
      assert s + [id] == [id] && [id][1..] == [];
    } else {
      assert (s + [id])[1..] == s[1..] + [id];
      SumAppend(handles, s[1..], id);
    }
  }

  lemma {:induction false} SumSame(handles: Handles, handles': Handles, s: seq<nat>)
    requires forall x :: x in s ==> (x in handles <==> x in handles') && (x in handles ==> handles[x].charge == handles'[x].charge)
    ensures Sum(handles, s) == Sum(handles', s)
  {
    if s != [] { SumSame(handles, handles', s[1..]); }
  }

  lemma AppendNoDup(s: seq<nat>, id: nat)
    requires NoDup(s) && id !in s
    ensures NoDup(s + [id])
    ensures forall x :: x in s + [id] <==> x in s || x == id
  {}

  // ---- the invariant ---------------------------------------------------------------------

  /** Everything cached is on exactly one list: on the LRU list while only the cache holds
      it, on the in-use list while a client does. */
  ghost predicate Listed(handles: Handles, lru: seq<nat>, inUse: seq<nat>) {
    && NoDup(lru) && NoDup(inUse) && (forall id :: id in lru ==> id !in inUse)
    && (forall id :: id in lru ==> id in handles && handles[id].inCache && handles[id].refs == 1)
    && (forall id :: id in inUse ==> id in handles && handles[id].inCache && handles[id].refs >= 2)
    && forall id :: id in handles && handles[id].inCache ==> id in lru || id in inUse
  }

  function Held(clients: map<nat, nat>, id: nat): nat { if id in clients then clients[id] else 0 }

  function CacheRef(h: Handle): nat { if h.inCache then 1 else 0 }

  /** References are the clients' handles and the cache's own; `owed` is about to be given
      back by Unref. */
  ghost predicate Counted(handles: Handles, clients: map<nat, nat>, owed: Option<nat>) {
    && (forall id :: id in handles ==>
          && handles[id].refs > 0
          && handles[id].refs == Held(clients, id) + CacheRef(handles[id]) + if owed == Some(id) then 1 else 0)
    && forall id :: Held(clients, id) > 0 ==> id in handles
  }

  ghost predicate Charged(handles: Handles, lru: seq<nat>, inUse: seq<nat>, usage: nat) {
    usage == Sum(handles, lru) + Sum(handles, inUse)
  }

  /** Every handle ever made is live or was passed to its deleter once. */
  ghost predicate Freed(handles: Handles, deleted: seq<nat>, nextId: nat) {
    && NoDup(deleted)
    && (forall id :: id in handles || id in deleted ==> id < nextId)
    && forall id: nat :: id < nextId ==> (id in handles <==> id !in deleted)
  }

  /** The table maps each cached handle's key to it, and nothing else. */
  ghost predicate Tabled(handles: Handles, contents: map<(Key, nat), nat>) {
    && (forall k, h | (k, h) in contents ::
          var id := contents[(k, h)];
          id in handles && handles[id].inCache && handles[id].key == k && handles[id].hash == h)
    && forall id :: id in handles && handles[id].inCache ==>
         (handles[id].key, handles[id].hash) in contents && contents[(handles[id].key, handles[id].hash)] == id
  }

  /** The LRU list stands in the order in which its handles last became idle. */
  ghost predicate Timed(lru: seq<nat>, idleSince: map<nat, nat>, clock: nat) {
    && (forall i :: 0 <= i < |lru| ==> lru[i] in idleSince && idleSince[lru[i]] < clock)
    && forall i, j :: 0 <= i < j < |lru| ==> idleSince[lru[i]] < idleSince[lru[j]]
  }

  lemma {:induction false} TimedWithout(lru: seq<nat>, id: nat, idleSince: map<nat, nat>, clock: nat)
    requires Timed(lru, idleSince, clock)
    ensures Timed(Without(lru, id), idleSince, clock)
    ensures forall x :: x in Without(lru, id) ==> x in lru
  {
    if lru != [] {
      TimedWithout(lru[1..], id, idleSince, clock);
      if lru[0] != id {
        TimedBefore(lru, Without(lru[1..], id), idleSince, clock);
      }
    }
  }

  lemma TimedBefore(lru: seq<nat>, w: seq<nat>, idleSince: map<nat, nat>, clock: nat)
    requires lru != [] && Timed(lru, idleSince, clock) && Timed(w, idleSince, clock)
    requires forall x :: x in w ==> x in lru[1..]
    ensures Timed([lru[0]] + w, idleSince, clock)
  {
    forall j | 0 <= j < |w| ensures idleSince[lru[0]] < idleSince[w[j]] {
      assert w[j] in lru[1..];
      var i :| 0 <= i < |lru[1..]| && lru[1..][i] == w[j];
      assert lru[i + 1] == w[j];
    }
  }

  lemma TimedAppend(lru: seq<nat>, id: nat, idleSince: map<nat, nat>, clock: nat)
    requires Timed(lru, idleSince, clock) && id !in lru
    ensures Timed(lru + [id], idleSince[id := clock], clock + 1)
  {}

  lemma TimedLater(lru: seq<nat>, idleSince: map<nat, nat>, clock: nat)
    requires Timed(lru, idleSince, clock)
    ensures Timed(lru, idleSince, clock + 1)
  {}

  /** Whatever is cut off in front became idle before whatever stays. */
  lemma TimedCut(lru: seq<nat>, n: nat, idleSince: map<nat, nat>, clock: nat)
    requires Timed(lru, idleSince, clock) && n <= |lru|
    ensures forall x, y :: x in lru && x !in lru[n..] && y in lru[n..] ==> idleSince[x] < idleSince[y]
    ensures forall x :: x in lru && x !in lru[n..] ==> n > 0 && idleSince[x] <= idleSince[lru[n - 1]]
  {
    forall k | n <= k < |lru| ensures lru[k] in lru[n..] { assert lru[k] == lru[n..][k - n]; }
    forall x | x in lru && x !in lru[n..] ensures n > 0 && idleSince[x] <= idleSince[lru[n - 1]] {
      var i :| 0 <= i < |lru| && lru[i] == x;
    }
    forall x, y | x in lru && x !in lru[n..] && y in lru[n..] ensures idleSince[x] < idleSince[y] {
      var i :| 0 <= i < |lru| && lru[i] == x;
      var j :| 0 <= j < |lru[n..]| && lru[n..][j] == y;
      assert lru[n + j] == y;
    }
  }

  /** An idle handle of another key that an insertion drops. */
  ghost predicate Evicted(lru: seq<nat>, handles: Handles, lru': seq<nat>, key: Key, hash: nat, x: nat) {
    x in lru && x in handles && KeyOf(handles, x) != (key, hash) && x !in lru'
  }

  /** Of those, the one that became idle last. */
  ghost predicate LastEvicted(lru: seq<nat>, handles: Handles, lru': seq<nat>, key: Key, hash: nat, idleSince: map<nat, nat>, x: nat) {
    && Evicted(lru, handles, lru', key, hash, x)
    && forall z :: Evicted(lru, handles, lru', key, hash, z) ==> z in idleSince && x in idleSince && idleSince[z] <= idleSince[x]
  }

  /** Whatever is dropped became idle before whatever stays idle. */
  ghost predicate OldestGo(lru: seq<nat>, handles: Handles, lru': seq<nat>, key: Key, hash: nat, idleSince: map<nat, nat>) {
    forall x, y :: Evicted(lru, handles, lru', key, hash, x) && y in lru' ==>
      x in idleSince && y in idleSince && idleSince[x] < idleSince[y]
  }

  /** The last handle dropped had to go: with its charge the cache would be too full. */
  ghost predicate NoneTooMany(lru: seq<nat>, handles: Handles, lru': seq<nat>, key: Key, hash: nat, idleSince: map<nat, nat>,
                              usage: nat, capacity: nat) {
    forall x :: LastEvicted(lru, handles, lru', key, hash, idleSince, x) ==> usage + handles[x].charge > capacity
  }

  /** Before the last of the `n` dropped from the front went, the charge was over the limit. */
  ghost predicate LastHadToGo(lru: seq<nat>, handles: Handles, n: nat, usage: nat, limit: nat) {
    0 < n <= |lru| ==> lru[n - 1] in handles && usage + handles[lru[n - 1]].charge > limit
  }

  ghost predicate PartOf(handles: Handles, handles': Handles) {
    forall x :: x in handles ==> x in handles' && handles[x] == handles'[x]
  }

  // `lru1` is the list when the dropping begins: only the handle of the key itself has left it.
  lemma EvictedInOrder(lru: seq<nat>, handles: Handles, lru1: seq<nat>, n: nat, key: Key, hash: nat, idleSince: map<nat, nat>, clock: nat)
    requires Timed(lru1, idleSince, clock) && n <= |lru1|
    requires forall x :: x in lru && x in handles && KeyOf(handles, x) != (key, hash) ==> x in lru1
    ensures OldestGo(lru, handles, lru1[n..], key, hash, idleSince)
  {
    TimedCut(lru1, n, idleSince, clock);
  }

  lemma EvictedForRoom(lru: seq<nat>, handles: Handles, handles1: Handles, lru1: seq<nat>, n: nat, key: Key, hash: nat,
                       idleSince: map<nat, nat>, clock: nat, usage: nat, capacity: nat)
    requires Timed(lru1, idleSince, clock) && NoDup(lru1) && n <= |lru1|
    requires forall x :: x in lru1 ==>
               x in lru && x in handles && x in handles1 && KeyOf(handles, x) != (key, hash) && handles1[x].charge == handles[x].charge
    requires forall x :: x in lru && x in handles && KeyOf(handles, x) != (key, hash) ==> x in lru1
    requires LastHadToGo(lru1, handles1, n, usage, capacity)
    ensures NoneTooMany(lru, handles, lru1[n..], key, hash, idleSince, usage, capacity)
  {
    TimedCut(lru1, n, idleSince, clock);
    forall x | LastEvicted(lru, handles, lru1[n..], key, hash, idleSince, x) ensures usage + handles[x].charge > capacity {
      assert x in lru1 && n > 0;
      var last := lru1[n - 1];
      assert last in lru1 && last !in lru1[n..];
      assert Evicted(lru, handles, lru1[n..], key, hash, last);
      var i :| 0 <= i < |lru1| && lru1[i] == x;
    }
  }

  // ---- the parts of the state that Ref and Unref change ----------------------------------------

  datatype Core = Core(handles: Handles, lru: seq<nat>, inUse: seq<nat>, usage: nat, deleted: seq<nat>)

  ghost predicate CoreOk(c: Core, clients: map<nat, nat>, owed: Option<nat>, nextId: nat) {
    && Listed(c.handles, c.lru, c.inUse) && Counted(c.handles, clients, owed)
    && Charged(c.handles, c.lru, c.inUse, c.usage) && Freed(c.handles, c.deleted, nextId)
  }

  function WithRefs(handles: Handles, id: nat, refs: nat): Handles
    requires id in handles
  {
    handles[id := handles[id].(refs := refs)]
  }

  function RefCore(c: Core, id: nat): Core
    requires id in c.handles
  {
    var h := c.handles[id];
    var c' := c.(handles := WithRefs(c.handles, id, h.refs + 1));
    if h.refs == 1 && h.inCache then c'.(lru := Without(c.lru, id), inUse := c.inUse + [id]) else c'
  }

  function UnrefCore(c: Core, id: nat): Core
    requires id in c.handles && c.handles[id].refs > 0
  {
    var h := c.handles[id];
    if h.refs == 1 then c.(handles := c.handles - {id}, deleted := c.deleted + [id])
    else
      var c' := c.(handles := WithRefs(c.handles, id, h.refs - 1));
      if h.inCache && h.refs == 2 then c'.(inUse := Without(c.inUse, id), lru := c.lru + [id]) else c'
  }

  function EraseCore(c: Core, id: nat): Core
    requires id in c.handles
  {
    var h := c.handles[id];
    Core(c.handles[id := h.(inCache := false)], if id in c.lru then Without(c.lru, id) else c.lru,
         if id in c.lru then c.inUse else Without(c.inUse, id),
         if c.usage >= h.charge then c.usage - h.charge else 0, c.deleted)
  }

  function Plus(clients: map<nat, nat>, id: nat): map<nat, nat> { clients[id := Held(clients, id) + 1] }

  function Minus(clients: map<nat, nat>, id: nat): map<nat, nat> {
    clients[id := if Held(clients, id) > 0 then Held(clients, id) - 1 else 0]
  }

  lemma ListsMove(handles: Handles, handles': Handles, from: seq<nat>, to: seq<nat>, id: nat)
    requires NoDup(from) && NoDup(to) && id in from && id !in to && id in handles && id in handles'
    requires forall x :: x in handles <==> x in handles'
    requires forall x :: x in handles ==> handles'[x].charge == handles[x].charge
    ensures NoDup(Without(from, id)) && NoDup(to + [id])
    ensures Sum(handles', Without(from, id)) + Sum(handles', to + [id]) == Sum(handles, from) + Sum(handles, to)
    ensures forall x :: x in Without(from, id) <==> x in from && x != id
    ensures forall x :: x in to + [id] <==> x in to || x == id
  {
    WithoutSpec(handles', from, id);
    AppendNoDup(to, id);
    SumAppend(handles', to, id);
    SumSame(handles, handles', from);
    SumSame(handles, handles', to);
  }

  // One handle changes its count; everything else about the handles stays.
  ghost predicate OnlyCount(handles: Handles, handles': Handles, id: nat) {
    && (forall x :: x in handles <==> x in handles')
    && (forall x :: x in handles && x != id ==> handles'[x] == handles[x])
    && (id in handles ==> handles'[id].charge == handles[id].charge && handles'[id].inCache == handles[id].inCache)
  }

  lemma StaysCharged(handles: Handles, handles': Handles, lru: seq<nat>, inUse: seq<nat>, id: nat, usage: nat)
    requires OnlyCount(handles, handles', id) && Charged(handles, lru, inUse, usage)
    ensures Charged(handles', lru, inUse, usage)
  {
    SumSame(handles, handles', lru);
    SumSame(handles, handles', inUse);
  }

  /** A handle moves between the lists as its count passes two. */
  lemma MovesToInUse(handles: Handles, handles': Handles, lru: seq<nat>, inUse: seq<nat>, id: nat, usage: nat)
    requires Listed(handles, lru, inUse) && Charged(handles, lru, inUse, usage) && OnlyCount(handles, handles', id)
    requires id in handles && handles[id].inCache && handles[id].refs == 1 && handles'[id].refs == 2
    ensures Listed(handles', Without(lru, id), inUse + [id]) && Charged(handles', Without(lru, id), inUse + [id], usage)
  {
    hide Sum, Without, NoDup;
    ListsMove(handles, handles', lru, inUse, id);
  }

  lemma MovesToLru(handles: Handles, handles': Handles, lru: seq<nat>, inUse: seq<nat>, id: nat, usage: nat)
    requires Listed(handles, lru, inUse) && Charged(handles, lru, inUse, usage) && OnlyCount(handles, handles', id)
    requires id in handles && handles[id].inCache && handles[id].refs == 2 && handles'[id].refs == 1
    ensures Listed(handles', lru + [id], Without(inUse, id)) && Charged(handles', lru + [id], Without(inUse, id), usage)
  {
    hide Sum, Without, NoDup;
    ListsMove(handles, handles', inUse, lru, id);
  }

  lemma StaysListed(handles: Handles, handles': Handles, lru: seq<nat>, inUse: seq<nat>, id: nat)
    requires Listed(handles, lru, inUse) && OnlyCount(handles, handles', id) && id in handles
    requires handles[id].inCache ==> handles[id].refs >= 2 && handles'[id].refs >= 2
    ensures Listed(handles', lru, inUse)
  {
    hide NoDup;
  }

  lemma StaysFreed(handles: Handles, handles': Handles, deleted: seq<nat>, nextId: nat, id: nat)
    requires Freed(handles, deleted, nextId) && OnlyCount(handles, handles', id)
    ensures Freed(handles', deleted, nextId)
  {}

  lemma RefOk(c: Core, clients: map<nat, nat>, nextId: nat, id: nat)
    requires CoreOk(c, clients, None, nextId) && id in c.handles
    ensures CoreOk(RefCore(c, id), Plus(clients, id), None, nextId)
  {
    hide Sum, NoDup, Without;
    var h, c' := c.handles[id], RefCore(c, id);
    assert OnlyCount(c.handles, c'.handles, id);
    assert Counted(c'.handles, Plus(clients, id), None);
    hide Listed, Charged, Freed, Counted, OnlyCount;
    StaysFreed(c.handles, c'.handles, c.deleted, nextId, id);
    if h.refs == 1 && h.inCache {
      MovesToInUse(c.handles, c'.handles, c.lru, c.inUse, id, c.usage);
    } else {
      PositiveRefs(c.handles, clients, None, id);
      StaysListed(c.handles, c'.handles, c.lru, c.inUse, id);
      StaysCharged(c.handles, c'.handles, c.lru, c.inUse, id, c.usage);
    }
  }

  lemma PositiveRefs(handles: Handles, clients: map<nat, nat>, owed: Option<nat>, id: nat)
    requires Counted(handles, clients, owed) && id in handles
    ensures handles[id].refs > 0 && (owed == Some(id) && handles[id].inCache ==> handles[id].refs >= 2)
  {}

  lemma UnrefOk(c: Core, clients: map<nat, nat>, nextId: nat, id: nat)
    requires CoreOk(c, clients, Some(id), nextId) && id in c.handles
    ensures c.handles[id].refs > 0
    ensures CoreOk(UnrefCore(c, id), clients, None, nextId)
  {
    hide Sum, NoDup, Without;
    PositiveRefs(c.handles, clients, Some(id), id);
    var h, c' := c.handles[id], UnrefCore(c, id);
    assert Counted(c'.handles, clients, None);
    if h.refs == 1 {
      LastReference(c, id, nextId);
    } else {
      assert OnlyCount(c.handles, c'.handles, id);
      hide Listed, Charged, Freed, Counted, OnlyCount;
      StaysFreed(c.handles, c'.handles, c.deleted, nextId, id);
      if h.inCache && h.refs == 2 {
        MovesToLru(c.handles, c'.handles, c.lru, c.inUse, id, c.usage);
      } else {
        StaysListed(c.handles, c'.handles, c.lru, c.inUse, id);
        StaysCharged(c.handles, c'.handles, c.lru, c.inUse, id, c.usage);
      }
    }
  }

  /** The last reference runs the deleter, once. */
  lemma LastReference(c: Core, id: nat, nextId: nat)
    requires Listed(c.handles, c.lru, c.inUse) && Charged(c.handles, c.lru, c.inUse, c.usage) && Freed(c.handles, c.deleted, nextId)
    requires id in c.handles && !c.handles[id].inCache
    ensures Listed(c.handles - {id}, c.lru, c.inUse) && Charged(c.handles - {id}, c.lru, c.inUse, c.usage)
    ensures Freed(c.handles - {id}, c.deleted + [id], nextId)
  {
    AppendNoDup(c.deleted, id);
    SumSame(c.handles, c.handles - {id}, c.lru);
    SumSame(c.handles, c.handles - {id}, c.inUse);
  }

  lemma ErasedLists(handles: Handles, handles': Handles, from: seq<nat>, other: seq<nat>, id: nat)
    requires NoDup(from) && id in from && id !in other && id in handles
    requires forall x :: x in handles <==> x in handles'
    requires forall x :: x in handles ==> handles'[x].charge == handles[x].charge
    ensures NoDup(Without(from, id)) && forall x :: x in Without(from, id) <==> x in from && x != id
    ensures Sum(handles', Without(from, id)) + Sum(handles', other) + handles[id].charge == Sum(handles, from) + Sum(handles, other)
  {
    WithoutSpec(handles, from, id);
    SumSame(handles, handles', Without(from, id));
    SumSame(handles, handles', other);
  }

  lemma ErasedCounts(handles: Handles, clients: map<nat, nat>, id: nat)
    requires Counted(handles, clients, None) && id in handles && handles[id].inCache
    ensures Counted(handles[id := handles[id].(inCache := false)], clients, Some(id))
  {}

  /** Off its list and out of the charge; the cache's reference is owed. */
  lemma EraseOk(c: Core, clients: map<nat, nat>, nextId: nat, id: nat)
    requires CoreOk(c, clients, None, nextId) && id in c.handles && c.handles[id].inCache
    ensures CoreOk(EraseCore(c, id), clients, Some(id), nextId)
    ensures EraseCore(c, id).usage == c.usage - c.handles[id].charge && c.usage >= c.handles[id].charge
  {
    hide Counted, NoDup, Sum, Without, Freed;
    var c' := EraseCore(c, id);
    ErasedCounts(c.handles, clients, id);
    ErasedFreed(c.handles, c'.handles, c.deleted, nextId);
    if id in c.lru {
      ErasedLists(c.handles, c'.handles, c.lru, c.inUse, id);
    } else {
      ErasedLists(c.handles, c'.handles, c.inUse, c.lru, id);
    }
  }

  lemma ErasedFreed(handles: Handles, handles': Handles, deleted: seq<nat>, nextId: nat)
    requires Freed(handles, deleted, nextId) && forall x :: x in handles <==> x in handles'
    ensures Freed(handles', deleted, nextId)
  {}

  /** FinishErase on the state: off the list, out of the charge, and the cache's reference
      given back. */
  function FinishCore(c: Core, id: nat): Core
    requires id in c.handles && c.handles[id].refs > 0
  {
    UnrefCore(EraseCore(c, id), id)
  }

  lemma FinishOk(c: Core, clients: map<nat, nat>, nextId: nat, id: nat)
    requires CoreOk(c, clients, None, nextId) && id in c.handles && c.handles[id].inCache
    ensures c.handles[id].refs > 0 && CoreOk(FinishCore(c, id), clients, None, nextId)
  {
    hide CoreOk;
    EraseOk(c, clients, nextId, id);
    UnrefOk(EraseCore(c, id), clients, nextId, id);
  }

  function AddCore(c: Core, id: nat, h: Handle): Core {
    Core(c.handles[id := h], c.lru, c.inUse + [id], c.usage + h.charge, c.deleted)
  }

  lemma AddOk(c: Core, clients: map<nat, nat>, id: nat, h: Handle)
    requires CoreOk(c, clients, None, id) && h.inCache && h.refs == 2
    ensures CoreOk(AddCore(c, id, h), Plus(clients, id), None, id + 1)
  {
    hide Sum;
    var c' := AddCore(c, id, h);
    SumSame(c.handles, c'.handles, c.lru);
    SumSame(c.handles, c'.handles, c.inUse);
    SumAppend(c'.handles, c.inUse, id);
    AppendNoDup(c.inUse, id);
  }

  /** With no capacity the handle is the client's alone. */
  lemma AddUncachedOk(c: Core, clients: map<nat, nat>, id: nat, h: Handle)
    requires CoreOk(c, clients, None, id) && !h.inCache && h.refs == 1
    ensures CoreOk(c.(handles := c.handles[id := h]), Plus(clients, id), None, id + 1)
  {
    hide Sum;
    SumSame(c.handles, c.handles[id := h], c.lru);
    SumSame(c.handles, c.handles[id := h], c.inUse);
  }

  // ---- the table and the handles ------------------------------------------------------------

  ghost predicate SameEntries(handles: Handles, handles': Handles) {
    && (forall x :: x in handles && handles[x].inCache ==>
          x in handles' && handles'[x].inCache && handles'[x].key == handles[x].key && handles'[x].hash == handles[x].hash)
    && forall x :: x in handles' && handles'[x].inCache ==> x in handles && handles[x].inCache
  }

  lemma TabledSame(handles: Handles, handles': Handles, contents: map<(Key, nat), nat>)
    requires Tabled(handles, contents) && SameEntries(handles, handles')
    ensures Tabled(handles', contents)
  {}

  /** `id` leaves the cache, and its key the table. */
  lemma TabledWithout(handles: Handles, handles': Handles, contents: map<(Key, nat), nat>, id: nat)
    requires Tabled(handles, contents) && id in handles && handles[id].inCache
    requires forall x :: x in handles && x != id ==> x in handles' && handles'[x] == handles[x]
    requires forall x :: x in handles' && handles'[x].inCache ==> x in handles && x != id
    ensures Tabled(handles', contents - {(handles[id].key, handles[id].hash)})
  {}

  /** A new handle takes over its key; the one it replaces leaves the cache. */
  lemma TabledInsert(handles: Handles, handles': Handles, contents: map<(Key, nat), nat>, id: nat, h: Handle)
    requires Tabled(handles, contents) && id !in handles && h.inCache
    requires id in handles' && handles'[id] == h
    requires forall x :: x in handles && !(handles[x].inCache && handles[x].key == h.key && handles[x].hash == h.hash) ==>
               x in handles' && handles'[x] == handles[x]
    requires forall x :: x in handles' && handles'[x].inCache && x != id ==>
               x in handles && handles[x].inCache && !(handles[x].key == h.key && handles[x].hash == h.hash)
    ensures Tabled(handles', contents[(h.key, h.hash) := id])
  {}

  lemma FinishHandles(c: Core, id: nat)
    requires id in c.handles && c.handles[id].refs > 0
    ensures var handles' := FinishCore(c, id).handles;
      && (forall x :: x in c.handles && x != id ==> x in handles' && handles'[x] == c.handles[x])
      && (forall x :: x in handles' && handles'[x].inCache ==> x in c.handles && x != id)
      && forall x :: x in handles' && x != id ==> x in c.handles && c.handles[x] == handles'[x]
  {}

  // ---- the cache -----------------------------------------------------------------------------

  class LRUCache {
    const capacity: nat
    const table: HandleTable
    var handles: Handles
    var lru: seq<nat>      // oldest first
    var inUse: seq<nat>
    var usage: nat
    var nextId: nat
    var deleted: seq<nat>  // the handles passed to their deleters, in order
    ghost var clients: map<nat, nat>
    ghost var idleSince: map<nat, nat>  // when each handle last became idle
    ghost var clock: nat

    ghost function State(): Core
      reads this
    {
      Core(handles, lru, inUse, usage, deleted)
    }

    ghost predicate Sound()
      reads this, table
    {
      table.Valid() && CoreOk(State(), clients, None, nextId) && Timed(lru, idleSince, clock)
    }

    ghost predicate Valid()
      reads this, table
    {
      Sound() && Tabled(handles, table.contents)
    }

    constructor (capacity: nat)
      ensures Valid() && fresh(table) && this.capacity == capacity && handles == map[] && usage == 0 && deleted == []
    {
      this.capacity := capacity;
      table := new HandleTable();
      handles, lru, inUse, usage, nextId, deleted, clients := map[], [], [], 0, 0, [], map[];
      idleSince, clock := map[], 0;
    }

    method LRURemove(id: nat)
      modifies this`lru, this`inUse
      ensures if id in old(lru) then lru == Without(old(lru), id) && inUse == old(inUse)
              else lru == old(lru) && inUse == Without(old(inUse), id)
    {
      if id in lru { lru := Without(lru, id); } else { inUse := Without(inUse, id); }
    }

    method Ref(id: nat)
      requires Sound() && id in handles
      modifies this`handles, this`lru, this`inUse, this`clients
      ensures Sound() && State() == RefCore(old(State()), id) && clients == Plus(old(clients), id)
    {
      hide CoreOk, Timed;
      TimedWithout(lru, id, idleSince, clock);
      RefOk(State(), clients, nextId, id);
      CachedOnceIsIdle(State(), clients, None, nextId, id);
      var h := handles[id];
      if h.refs == 1 && h.inCache {
        LRURemove(id);
        inUse := inUse + [id];
      }
      handles := WithRefs(handles, id, h.refs + 1);
      clients := Plus(clients, id);
    }

    method Unref(id: nat)
      requires table.Valid() && CoreOk(State(), clients, Some(id), nextId) && id in handles && Timed(lru, idleSince, clock)
      modifies this`handles, this`lru, this`inUse, this`deleted, this`idleSince, this`clock
      ensures Sound() && old(handles[id].refs > 0) && State() == UnrefCore(old(State()), id)
      ensures clock == old(clock) + 1
      ensures idleSince == if id in lru && id !in old(lru) then old(idleSince)[id := old(clock)] else old(idleSince)
      ensures !old(handles[id].inCache) ==> lru == old(lru)
    {
      hide CoreOk, Timed;
      TimedLater(lru, idleSince, clock);
      UnrefOk(State(), clients, nextId, id);
      CachedOnceIsIdle(State(), clients, Some(id), nextId, id);
      var h := handles[id];
      if h.refs == 1 {
        handles := handles - {id};
        deleted := deleted + [id];
      } else {
        handles := WithRefs(handles, id, h.refs - 1);
        if h.inCache && h.refs == 2 {
          TimedAppend(lru, id, idleSince, clock);
          LRURemove(id);
          lru := lru + [id];
          idleSince := idleSince[id := clock];
        }
      }
      clock := clock + 1;
    }

    method FinishErase(e: Option<nat>) returns (erased: bool)
      requires Sound() && (e.Some? ==> e.value in handles && handles[e.value].inCache)
      modifies this`handles, this`lru, this`inUse, this`usage, this`deleted, this`clock, this`idleSince
      ensures Sound() && erased == e.Some? && idleSince == old(idleSince)
      ensures e.Some? ==> old(handles[e.value].refs) > 0 && State() == FinishCore(old(State()), e.value)
      ensures e.None? ==> State() == old(State())
    {
      hide CoreOk, Timed;
      if e.Some? {
        var id := e.value;
        FinishOk(State(), clients, nextId, id);
        EraseOk(State(), clients, nextId, id);
        var h := handles[id];
        TimedWithout(lru, id, idleSince, clock);
        LRURemove(id);
        handles := handles[id := h.(inCache := false)];
        usage := usage - h.charge;
        assert State() == EraseCore(old(State()), id);
        Unref(id);
      }
      erased := e.Some?;
    }

    method Lookup(key: Key, hash: nat) returns (r: Option<nat>)
      requires Valid()
      modifies this
      ensures Valid() && table.contents == old(table.contents)
      ensures r == if (key, hash) in table.contents then Some(table.contents[(key, hash)]) else None
      ensures r.Some? ==> r.value in old(handles) && State() == RefCore(old(State()), r.value) && clients == Plus(old(clients), r.value)
      ensures r.Some? ==> r.value in handles && handles[r.value].key == key && handles[r.value].hash == hash
                          && handles[r.value].value == old(handles)[r.value].value
      ensures r.None? ==> State() == old(State()) && clients == old(clients)
      ensures idleSince == old(idleSince)
    {
      hide CoreOk, Timed;
      r := table.Lookup(key, hash);
      if r.Some? {
        Ref(r.value);
        TabledSame(old(handles), handles, table.contents);
      }
    }

    method Release(id: nat)
      requires Valid() && Held(clients, id) > 0
      modifies this
      ensures Valid() && table.contents == old(table.contents) && clients == Minus(old(clients), id)
      ensures id in old(handles) && old(handles[id].refs) > 0 && State() == UnrefCore(old(State()), id)
      ensures clock == old(clock) + 1
      ensures idleSince == if id in lru && id !in old(lru) then old(idleSince)[id := old(clock)] else old(idleSince)
    {
      ReleaseOwes(State(), clients, nextId, id);
      hide CoreOk, Timed;
      clients := Minus(clients, id);
      UnrefKeepsEntries(State(), clients, nextId, id);
      Unref(id);
      TabledSame(old(handles), handles, table.contents);
    }

    method Erase(key: Key, hash: nat)
      requires Valid()
      modifies this, table
      ensures Valid() && table.contents == old(table.contents) - {(key, hash)} && clients == old(clients)
      ensures if (key, hash) in old(table.contents) then
                var id := old(table.contents)[(key, hash)];
                id in old(handles) && old(handles)[id].refs > 0 && State() == FinishCore(old(State()), id)
              else State() == old(State())
      ensures idleSince == old(idleSince)
    {
      hide CoreOk, Timed;
      var e := table.Remove(key, hash);
      var _ := FinishErase(e);
      if e.Some? {
        FinishHandles(old(State()), e.value);
        TabledWithout(old(handles), handles, old(table.contents), e.value);
      } else {
        assert old(table.contents) - {(key, hash)} == old(table.contents);
      }
    }

    /** Drop the oldest idle handle. */
    method EvictOldest()
      requires Valid() && lru != []
      modifies this, table
      ensures Valid() && clients == old(clients) && nextId == old(nextId) && old(lru)[0] in old(handles)
      ensures State() == DropOldest(old(State())) && usage == old(usage) - old(handles)[old(lru)[0]].charge
      ensures table.contents == old(table.contents) - {KeyOf(old(handles), old(lru)[0])} && idleSince == old(idleSince)
    {
      OldestIsIdle(State(), clients, nextId, table.contents);
      hide CoreOk, Tabled, Timed;
      var id := lru[0];
      var h := handles[id];
      FinishHandles(State(), id);
      FinishOldest(State());
      var e := table.Remove(h.key, h.hash);
      var erased := FinishErase(e);
      TabledWithout(old(handles), handles, old(table.contents), id);
    }

    /** Drop idle handles, oldest first: all of them, or only while the charge is over the
        capacity. */
    method DropIdle(limit: Option<nat>) returns (ghost n: nat)
      requires Valid()
      modifies this, table
      ensures Valid() && clients == old(clients) && nextId == old(nextId) && idleSince == old(idleSince)
      ensures lru == [] || (limit.Some? && usage <= limit.value)
      ensures (State(), table.contents) == DropWhile(old(State()), old(table.contents), limit)
      ensures n <= |old(lru)| && lru == old(lru)[n..]
      ensures limit.Some? ==> LastHadToGo(old(lru), old(handles), n, usage, limit.value)
    {
      hide CoreOk, Tabled, DropOldest, Timed, Plus, Sum, KeyOf;
      n := 0;
      while lru != [] && (limit.None? || usage > limit.value)
        invariant Valid() && clients == old(clients) && nextId == old(nextId) && idleSince == old(idleSince)
        invariant DropWhile(State(), table.contents, limit) == DropWhile(old(State()), old(table.contents), limit)
        invariant n <= |old(lru)| && lru == old(lru)[n..] && PartOf(handles, old(handles))
        invariant limit.Some? ==> LastHadToGo(old(lru), old(handles), n, usage, limit.value)
        decreases |lru|
      {
        OldestIsIdle(State(), clients, nextId, table.contents);
        DropOldestIs(State());
        assert lru[0] == old(lru)[n];
        EvictOldest();
        n := n + 1;
      }
    }

    method Prune()
      requires Valid()
      modifies this, table
      ensures Valid() && clients == old(clients) && lru == []
      ensures (State(), table.contents) == DropWhile(old(State()), old(table.contents), None)
    {
      ghost var _ := DropIdle(None);
    }

    /** The new entry takes over its key; then idle entries are dropped, oldest first, until
        the charge fits or none is left. */
    method Insert(key: Key, hash: nat, value: nat, charge: nat) returns (e: nat)
      requires Valid()
      modifies this, table
      ensures Valid() && e == old(nextId) && clients == Plus(old(clients), e)
      ensures usage <= capacity || lru == []
      ensures (State(), table.contents)
           == if capacity == 0 then
                DropWhile(old(State()).(handles := old(handles)[e := Handle(key, hash, value, charge, false, 1)]),
                          old(table.contents), Some(capacity))
              else
                DropWhile(InsertCore(old(State()), old(table.contents), e, Handle(key, hash, value, charge, true, 2)),
                          old(table.contents)[(key, hash) := e], Some(capacity))
      ensures idleSince == old(idleSince)
      ensures OldestGo(old(lru), old(handles), lru, key, hash, idleSince)
      ensures capacity > 0 ==> NoneTooMany(old(lru), old(handles), lru, key, hash, idleSince, usage, capacity)
    {
      hide CoreOk, Tabled, DropWhile, Sum, Plus, InsertCore, FinishCore, RefCore, UnrefCore, Timed, OldestGo, NoneTooMany;
      e := nextId;
      FreshId(State(), clients, nextId);
      var h := Handle(key, hash, value, charge, capacity > 0, if capacity > 0 then 2 else 1);
      ghost var c0 := State();
      if capacity > 0 {
        AddOk(c0, clients, e, h);
        InsertOk(c0, table.contents, clients, e, h);
        nextId, handles, clients := nextId + 1, handles[e := h], Plus(clients, e);
        inUse := inUse + [e];
        usage := usage + charge;
        assert State() == AddCore(c0, e, h);
        InsertCoreIs(c0, table.contents, e, h);
        var was := table.Insert(key, hash, e);
        var _ := FinishErase(was);
      } else {
        AddUncachedOk(c0, clients, e, h);
        TabledSame(handles, handles[e := h], table.contents);
        nextId, handles, clients := nextId + 1, handles[e := h], Plus(clients, e);
      }
      ghost var c1, clock1 := State(), clock;
      ghost var n := DropIdle(Some(capacity));
      if capacity > 0 {
        InsertEvicts(c0, old(table.contents), old(clients), e, h, n, idleSince, clock1, usage, capacity);
      } else {
        EvictedInOrder(c0.lru, c0.handles, c1.lru, n, key, hash, idleSince, clock1);
      }
    }
  }

  lemma FreshId(c: Core, clients: map<nat, nat>, nextId: nat)
    requires CoreOk(c, clients, None, nextId)
    ensures nextId !in c.handles
  {}

  /** A cached insertion: the handle it replaces, if any, leaves the cache. */
  function InsertCore(c: Core, contents: map<(Key, nat), nat>, id: nat, h: Handle): Core {
    var c' := AddCore(c, id, h);
    if (h.key, h.hash) in contents then
      var was := contents[(h.key, h.hash)];
      if was in c'.handles && c'.handles[was].refs > 0 then FinishCore(c', was) else c'
    else c'
  }

  lemma InsertCoreIs(c: Core, contents: map<(Key, nat), nat>, id: nat, h: Handle)
    ensures if (h.key, h.hash) in contents && contents[(h.key, h.hash)] in AddCore(c, id, h).handles
               && AddCore(c, id, h).handles[contents[(h.key, h.hash)]].refs > 0 then
              InsertCore(c, contents, id, h) == FinishCore(AddCore(c, id, h), contents[(h.key, h.hash)])
            else InsertCore(c, contents, id, h) == AddCore(c, id, h)
  {}

  lemma InsertOk(c: Core, contents: map<(Key, nat), nat>, clients: map<nat, nat>, id: nat, h: Handle)
    requires CoreOk(c, clients, None, id) && Tabled(c.handles, contents) && h.inCache && h.refs == 2
    ensures Tabled(InsertCore(c, contents, id, h).handles, contents[(h.key, h.hash) := id])
    ensures (h.key, h.hash) in contents ==>
              var was, c' := contents[(h.key, h.hash)], AddCore(c, id, h);
              was in c'.handles && c'.handles[was].inCache && c'.handles[was].refs > 0
  {
    FreshId(c, clients, id);
    var c' := AddCore(c, id, h);
    if (h.key, h.hash) in contents {
      var was := contents[(h.key, h.hash)];
      PositiveRefs(c.handles, clients, None, was);
      FinishHandles(c', was);
    }
    hide CoreOk;
    TabledInsert(c.handles, InsertCore(c, contents, id, h).handles, contents, id, h);
  }

  /** Only the handle of the same key leaves the LRU list. */
  lemma InsertCoreLru(c: Core, contents: map<(Key, nat), nat>, clients: map<nat, nat>, id: nat, h: Handle)
    requires CoreOk(c, clients, None, id) && Tabled(c.handles, contents) && h.inCache && h.refs == 2
    ensures var c' := InsertCore(c, contents, id, h);
      && NoDup(c'.lru)
      && (forall x :: x in c'.lru ==> x in c.lru && x in c.handles && KeyOf(c.handles, x) != (h.key, h.hash))
      && (forall x :: x in c'.lru ==> x in c'.handles && c'.handles[x].charge == c.handles[x].charge)
      && forall x :: x in c.lru && x in c.handles && KeyOf(c.handles, x) != (h.key, h.hash) ==> x in c'.lru
  {
    hide Counted, Charged, Freed;
    InsertOk(c, contents, clients, id, h);
    if (h.key, h.hash) in contents {
      var was, c' := contents[(h.key, h.hash)], AddCore(c, id, h);
      FinishHandles(c', was);
      if was in c.lru { WithoutSpec(c'.handles, c.lru, was); }
    }
  }

  lemma InsertEvicts(c: Core, contents: map<(Key, nat), nat>, clients: map<nat, nat>, id: nat, h: Handle, n: nat,
                     idleSince: map<nat, nat>, clock: nat, usage: nat, capacity: nat)
    requires CoreOk(c, clients, None, id) && Tabled(c.handles, contents) && h.inCache && h.refs == 2
    requires var c' := InsertCore(c, contents, id, h);
      && Timed(c'.lru, idleSince, clock) && n <= |c'.lru| && LastHadToGo(c'.lru, c'.handles, n, usage, capacity)
    ensures var lru' := InsertCore(c, contents, id, h).lru[n..];
      && OldestGo(c.lru, c.handles, lru', h.key, h.hash, idleSince)
      && NoneTooMany(c.lru, c.handles, lru', h.key, h.hash, idleSince, usage, capacity)
  {
    hide CoreOk, Tabled, Timed, InsertCore, OldestGo, NoneTooMany;
    InsertCoreLru(c, contents, clients, id, h);
    var c' := InsertCore(c, contents, id, h);
    EvictedInOrder(c.lru, c.handles, c'.lru, n, h.key, h.hash, idleSince, clock);
    EvictedForRoom(c.lru, c.handles, c'.handles, c'.lru, n, h.key, h.hash, idleSince, clock, usage, capacity);
  }

  /** The idle handles that go, oldest first. */
  function DropWhile(c: Core, contents: map<(Key, nat), nat>, limit: Option<nat>): (Core, map<(Key, nat), nat>)
    decreases |c.lru|
  {
    if c.lru == [] || (limit.Some? && c.usage <= limit.value) || c.lru[0] !in c.handles then (c, contents)
    else DropWhile(DropOldest(c), contents - {KeyOf(c.handles, c.lru[0])}, limit)
  }

  /** What is dropped is the oldest part of the LRU list and nothing else: those handles are
      freed, in order, and their keys leave the table. */
  lemma {:induction false} DroppedAreOldest(c: Core, contents: map<(Key, nat), nat>, limit: Option<nat>)
    returns (n: nat)
    requires NoDup(c.lru) && forall i :: 0 <= i < |c.lru| ==> c.lru[i] in c.handles
    ensures var (d, contents') := DropWhile(c, contents, limit);
      && n <= |c.lru| && d.lru == c.lru[n..] && d.inUse == c.inUse && d.deleted == c.deleted + c.lru[..n]
      && d.handles == c.handles - Ids(c.lru[..n]) && contents' == contents - Keys(c.handles, c.lru[..n])
    ensures limit.None? ==> n == |c.lru|
    decreases |c.lru|
  {
    hide Ids, Keys, KeyOf, NoDup, DropWhile, DropOldest;
    if c.lru == [] || (limit.Some? && c.usage <= limit.value) {
      n := 0;
      NothingDropped(c, contents, limit);
    } else {
      RestOfLru(c.handles, c.lru);
      DropWhileStep(c, contents, limit);
      DropOldestIs(c);
      var id, key := c.lru[0], KeyOf(c.handles, c.lru[0]);
      var m := DroppedAreOldest(DropOldest(c), contents - {key}, limit);
      n := m + 1;
      DroppedOneMore(c.handles, c.lru, m);
      var rest := c.lru[1..][..m];
      assert (c.deleted + [id]) + rest == c.deleted + ([id] + rest);
      MinusTwice(c.handles, {id}, Ids(rest));
      MinusTwice(contents, {key}, Keys(c.handles - {id}, rest));
    }
  }

  lemma NothingDropped(c: Core, contents: map<(Key, nat), nat>, limit: Option<nat>)
    requires c.lru == [] || (limit.Some? && c.usage <= limit.value)
    ensures DropWhile(c, contents, limit) == (c, contents)
    ensures c.lru[0..] == c.lru && c.deleted + c.lru[..0] == c.deleted
    ensures c.handles - Ids(c.lru[..0]) == c.handles && contents - Keys(c.handles, c.lru[..0]) == contents
  {
    assert Ids(c.lru[..0]) == {} && Keys(c.handles, c.lru[..0]) == {};
  }

  lemma DropWhileStep(c: Core, contents: map<(Key, nat), nat>, limit: Option<nat>)
    requires c.lru != [] && !(limit.Some? && c.usage <= limit.value) && c.lru[0] in c.handles
    ensures DropWhile(c, contents, limit) == DropWhile(DropOldest(c), contents - {KeyOf(c.handles, c.lru[0])}, limit)
  {
    hide DropOldest, KeyOf;
  }

  lemma MinusTwice<A, B>(m: map<A, B>, a: set<A>, b: set<A>)
    ensures (m - a) - b == m - (a + b)
  {}

  lemma RestOfLru(handles: Handles, lru: seq<nat>)
    requires NoDup(lru) && lru != [] && forall i :: 0 <= i < |lru| ==> lru[i] in handles
    ensures NoDup(lru[1..]) && forall i :: 0 <= i < |lru[1..]| ==> lru[1..][i] in handles - {lru[0]}
  {}

  lemma DroppedOneMore(handles: Handles, lru: seq<nat>, m: nat)
    requires NoDup(lru) && lru != [] && m < |lru| && lru[0] in handles
    ensures lru[..m + 1] == [lru[0]] + lru[1..][..m] && lru[1..][m..] == lru[m + 1..]
    ensures Ids(lru[..m + 1]) == {lru[0]} + Ids(lru[1..][..m])
    ensures Keys(handles, lru[..m + 1]) == {KeyOf(handles, lru[0])} + Keys(handles - {lru[0]}, lru[1..][..m])
  {
    var a, b := lru[..m + 1], lru[1..][..m];
    assert a == [lru[0]] + b;
    forall x | x in b ensures x != lru[0] {
      var i :| 0 <= i < |b| && b[i] == x;
      assert x == lru[i + 1];
    }
    forall k | k in Keys(handles, a) ensures k in {KeyOf(handles, lru[0])} + Keys(handles - {lru[0]}, b) {
      var id :| id in a && id in handles && KeyOf(handles, id) == k;
      if id != lru[0] { assert id in b && id in handles - {lru[0]}; }
    }
    forall k | k in Keys(handles - {lru[0]}, b) ensures k in Keys(handles, a) {
      var id :| id in b && id in handles - {lru[0]} && KeyOf(handles - {lru[0]}, id) == k;
      assert id in a;
    }
    assert lru[0] in a;
  }

  function KeyOf(handles: Handles, id: nat): (Key, nat)
    requires id in handles
  {
    (handles[id].key, handles[id].hash)
  }

  function Ids(s: seq<nat>): set<nat> { set id | id in s }

  ghost function Keys(handles: Handles, s: seq<nat>): set<(Key, nat)> {
    set id | id in s && id in handles :: KeyOf(handles, id)
  }

  function DropOldest(c: Core): Core
    requires c.lru != [] && c.lru[0] in c.handles
  {
    var charge := c.handles[c.lru[0]].charge;
    Core(c.handles - {c.lru[0]}, c.lru[1..], c.inUse, if c.usage >= charge then c.usage - charge else 0, c.deleted + [c.lru[0]])
  }

  lemma DropOldestIs(c: Core)
    requires c.lru != [] && c.lru[0] in c.handles
    ensures var d := DropOldest(c);
      d.handles == c.handles - {c.lru[0]} && d.lru == c.lru[1..] && d.inUse == c.inUse && d.deleted == c.deleted + [c.lru[0]]
  {}

  lemma OldestIsIdle(c: Core, clients: map<nat, nat>, nextId: nat, contents: map<(Key, nat), nat>)
    requires CoreOk(c, clients, None, nextId) && Tabled(c.handles, contents) && c.lru != []
    ensures var id := c.lru[0];
      && id in c.handles && c.handles[id].inCache && c.handles[id].refs == 1 && c.usage >= c.handles[id].charge
      && KeyOf(c.handles, id) in contents && contents[KeyOf(c.handles, id)] == id
  {
    assert c.lru[0] in c.lru;
  }

  /** Erasing an idle handle frees it. */
  lemma FinishOldest(c: Core)
    requires c.lru != [] && c.lru[0] in c.handles && c.handles[c.lru[0]].refs == 1
    ensures FinishCore(c, c.lru[0]) == DropOldest(c)
  {
    var id := c.lru[0];
    assert id in c.lru && Without(c.lru, id) == c.lru[1..];
    assert c.handles[id := c.handles[id].(inCache := false)] - {id} == c.handles - {id};
  }

  // A cached handle with one reference is on the LRU list, with two or more in use.
  lemma CachedOnceIsIdle(c: Core, clients: map<nat, nat>, owed: Option<nat>, nextId: nat, id: nat)
    requires CoreOk(c, clients, owed, nextId) && id in c.handles
    ensures c.handles[id].refs > 0 && (c.handles[id].inCache ==> (id in c.lru <==> c.handles[id].refs == 1))
  {}

  /** A client gives its handle back: one reference is owed. */
  lemma ReleaseOwes(c: Core, clients: map<nat, nat>, nextId: nat, id: nat)
    requires CoreOk(c, clients, None, nextId) && Held(clients, id) > 0
    ensures id in c.handles && CoreOk(c, Minus(clients, id), Some(id), nextId)
  {
    hide Listed, Charged, Freed;
  }

  lemma UnrefKeepsEntries(c: Core, clients: map<nat, nat>, nextId: nat, id: nat)
    requires CoreOk(c, clients, Some(id), nextId) && id in c.handles
    ensures c.handles[id].refs > 0 && SameEntries(c.handles, UnrefCore(c, id).handles)
  {
    hide Listed, Charged, Freed;
  }
}
