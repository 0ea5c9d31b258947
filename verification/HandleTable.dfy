/** The cache's hash table: buckets of chains, doubled when chains get long
    (util/cache.cc, HandleTable). */
module HandleTable {
  import opened Dbformat

  type Key = seq<byte>

  /** A chained element: the handle's key and hash, and the handle. */
  datatype Slot = Slot(key: Key, hash: nat, id: nat)

  predicate Same(a: Slot, key: Key, hash: nat) { a.hash == hash && a.key == key }

  /** No chain holds a key twice. */
  ghost predicate NoTwin(chain: seq<Slot>) {
    forall a, b :: 0 <= a < b < |chain| ==> !Same(chain[a], chain[b].key, chain[b].hash)
  }

  /** Every chain element is at home in its bucket and in the map. */
  ghost predicate AtHome(chain: seq<Slot>, bucket: nat, buckets: nat, m: map<(Key, nat), nat>)
    requires buckets > 0
  {
    forall s :: s in chain ==> s.hash % buckets == bucket && (s.key, s.hash) in m && m[(s.key, s.hash)] == s.id
  }

  ghost predicate Holds(list: seq<seq<Slot>>, key: Key, hash: nat, id: nat)
    requires |list| > 0
  {
    Slot(key, hash, id) in list[hash % |list|]
  }

  /** The buckets hold exactly the map. */
  ghost predicate Represents(list: seq<seq<Slot>>, m: map<(Key, nat), nat>) {
    && |list| > 0
    && (forall i :: 0 <= i < |list| ==> NoTwin(list[i]) && AtHome(list[i], i, |list|, m))
    && forall k, h | (k, h) in m :: Holds(list, k, h, m[(k, h)])
  }

  // ---- one bucket ----------------------------------------------------------------------

  /** FindPointer within the chain: the element, or the end of the chain. */
  method FindInChain(chain: seq<Slot>, key: Key, hash: nat) returns (p: nat)
    ensures p <= |chain|
    ensures p < |chain| ==> Same(chain[p], key, hash)
    ensures forall j :: 0 <= j < p ==> !Same(chain[j], key, hash)
  {
    p := 0;
    while p < |chain| && (chain[p].hash != hash || key != chain[p].key)
      invariant p <= |chain| && forall j :: 0 <= j < p ==> !Same(chain[j], key, hash)
    {
      p := p + 1;
    }
  }

  /** Where FindPointer stops is where the map has the key. */
  lemma FoundIsMapped(list: seq<seq<Slot>>, m: map<(Key, nat), nat>, key: Key, hash: nat, p: nat)
    requires Represents(list, m) && p <= |list[hash % |list|]|
    requires p < |list[hash % |list|]| ==> Same(list[hash % |list|][p], key, hash)
    requires forall j :: 0 <= j < p ==> !Same(list[hash % |list|][j], key, hash)
    ensures p < |list[hash % |list|]| <==> (key, hash) in m
    ensures p < |list[hash % |list|]| ==> list[hash % |list|][p] == Slot(key, hash, m[(key, hash)])
  {
    var chain := list[hash % |list|];
    assert AtHome(chain, hash % |list|, |list|, m);
    if (key, hash) in m {
      assert Holds(list, key, hash, m[(key, hash)]);
      var j :| 0 <= j < |chain| && chain[j] == Slot(key, hash, m[(key, hash)]);
    }
    if p < |chain| { assert chain[p] in chain; }
  }

  lemma ReplaceInChain(chain: seq<Slot>, p: nat, s: Slot)
    requires NoTwin(chain) && p < |chain| && Same(chain[p], s.key, s.hash)
    ensures NoTwin(chain[p := s])
    ensures forall x :: x in chain[p := s] <==> x == s || (x in chain && !Same(x, s.key, s.hash))
  {
    var c := chain[p := s];
    assert c[p] == s;
    forall a, b | 0 <= a < b < |c| ensures !Same(c[a], c[b].key, c[b].hash) {
      assert !Same(chain[a], chain[b].key, chain[b].hash);
    }
    forall x | x in chain && !Same(x, s.key, s.hash) ensures x in c {
      var j :| 0 <= j < |chain| && chain[j] == x;
      assert c[j] == x;
    }
    forall x | x in c ensures x == s || (x in chain && !Same(x, s.key, s.hash)) {
      var j :| 0 <= j < |c| && c[j] == x;
      if j < p { assert !Same(chain[j], chain[p].key, chain[p].hash); }
      else if p < j { assert !Same(chain[p], chain[j].key, chain[j].hash); }
    }
  }

  lemma RemoveFromChain(chain: seq<Slot>, p: nat)
    requires NoTwin(chain) && p < |chain|
    ensures var c := chain[..p] + chain[p + 1..];
      && NoTwin(c)
      && forall x :: x in c <==> x in chain && !Same(x, chain[p].key, chain[p].hash)
  {
    var c := chain[..p] + chain[p + 1..];
    assert forall i :: 0 <= i < |c| ==> c[i] == chain[if i < p then i else i + 1];
    forall x | x in chain && !Same(x, chain[p].key, chain[p].hash) ensures x in c {
      var j :| 0 <= j < |chain| && chain[j] == x;
      assert c[if j < p then j else j - 1] == x;
    }
    forall x | x in c ensures x in chain && !Same(x, chain[p].key, chain[p].hash) {
      var i :| 0 <= i < |c| && c[i] == x;
      if i < p { assert !Same(chain[i], chain[p].key, chain[p].hash); }
      else { assert !Same(chain[p], chain[i + 1].key, chain[i + 1].hash); }
    }
  }

  // ---- all buckets ------------------------------------------------------------------------

  lemma ChangedBucket(list: seq<seq<Slot>>, m: map<(Key, nat), nat>, m': map<(Key, nat), nat>, b: nat, chain': seq<Slot>,
                      key: Key, hash: nat)
    requires Represents(list, m) && b == hash % |list| && NoTwin(chain')
    requires forall k, h | (k, h) != (key, hash) :: ((k, h) in m <==> (k, h) in m') && ((k, h) in m ==> m[(k, h)] == m'[(k, h)])
    requires forall s: Slot :: !Same(s, key, hash) ==> (s in chain' <==> s in list[b])
    requires forall s: Slot :: Same(s, key, hash) ==> (s in chain' <==> (key, hash) in m' && m'[(key, hash)] == s.id)
    ensures Represents(list[b := chain'], m')
  {
    var list' := list[b := chain'];
    forall i | 0 <= i < |list'| ensures NoTwin(list'[i]) && AtHome(list'[i], i, |list'|, m') {
      assert NoTwin(list[i]) && AtHome(list[i], i, |list|, m);
    }
    forall k, h | (k, h) in m' ensures Holds(list', k, h, m'[(k, h)]) {
      if (k, h) != (key, hash) { assert Holds(list, k, h, m[(k, h)]); }
      assert Same(Slot(k, h, m'[(k, h)]), key, hash) <==> (k, h) == (key, hash);
    }
  }

  // ---- Resize -------------------------------------------------------------------------------

  /** The part of the map whose elements stand before the chain position (i, j). */
  ghost predicate Moved(list: seq<seq<Slot>>, m: map<(Key, nat), nat>, moved: map<(Key, nat), nat>, i: nat, j: nat)
    requires |list| > 0 && i <= |list| && (i < |list| ==> j <= |list[i]|)
  {
    && (forall k, h | (k, h) in moved :: (k, h) in m && m[(k, h)] == moved[(k, h)])
    && forall k, h | (k, h) in m ::
         (k, h) in moved <==>
           h % |list| < i || (h % |list| == i && i < |list| && Slot(k, h, m[(k, h)]) in list[i][..j])
  }

  lemma MoveOne(list: seq<seq<Slot>>, m: map<(Key, nat), nat>, moved: map<(Key, nat), nat>, i: nat, j: nat)
    requires Represents(list, m) && i < |list| && j < |list[i]| && Moved(list, m, moved, i, j)
    ensures var s := list[i][j];
      && (s.key, s.hash) !in moved
      && Moved(list, m, moved[(s.key, s.hash) := s.id], i, j + 1)
  {
    var chain := list[i];
    var s := chain[j];
    assert NoTwin(chain) && AtHome(chain, i, |list|, m) && s in chain;
    assert chain[..j + 1] == chain[..j] + [s];
    assert s !in chain[..j];
    forall k, h | (k, h) in m && h % |list| == i && Slot(k, h, m[(k, h)]) == s ensures (k, h) == (s.key, s.hash) {}
  }

  lemma MoveOn(list: seq<seq<Slot>>, m: map<(Key, nat), nat>, moved: map<(Key, nat), nat>, i: nat)
    requires Represents(list, m) && i < |list| && Moved(list, m, moved, i, |list[i]|)
    ensures Moved(list, m, moved, i + 1, 0)
  {
    assert list[i][..|list[i]|] == list[i];
    forall k, h | (k, h) in m ensures (k, h) in moved <==> h % |list| < i + 1 {
      assert Holds(list, k, h, m[(k, h)]);
    }
  }

  lemma PushFront(list: seq<seq<Slot>>, m: map<(Key, nat), nat>, s: Slot)
    requires Represents(list, m) && (s.key, s.hash) !in m
    ensures var b := s.hash % |list|;
      Represents(list[b := [s] + list[b]], m[(s.key, s.hash) := s.id])
  {
    var b := s.hash % |list|;
    var chain := list[b];
    assert NoTwin(chain) && AtHome(chain, b, |list|, m);
    forall a | 0 <= a < |chain| ensures !Same(chain[a], s.key, s.hash) { assert chain[a] in chain; }
    assert NoTwin([s] + chain);
    ChangedBucket(list, m, m[(s.key, s.hash) := s.id], b, [s] + chain, s.key, s.hash);
  }

  /** The chains moved element by element to the front of their new chains. */
  method Rehash(list: seq<seq<Slot>>, newLength: nat, ghost m: map<(Key, nat), nat>) returns (newList: seq<seq<Slot>>)
    requires |list| > 0 && Represents(list, m) && newLength > 0
    ensures Represents(newList, m) && |newList| == newLength
  {
    hide NoTwin, AtHome, Represents, Moved;
    newList := seq(newLength, _ => []);
    ghost var moved: map<(Key, nat), nat> := map[];
    NothingMoved(list, m, newList);
    for i := 0 to |list|
      invariant |newList| == newLength && Represents(newList, moved) && Moved(list, m, moved, i, 0)
    {
      for j := 0 to |list[i]|
        invariant |newList| == newLength && Represents(newList, moved) && Moved(list, m, moved, i, j)
      {
        var h := list[i][j];
        MoveOne(list, m, moved, i, j);
        PushFront(newList, moved, h);
        var b := h.hash % newLength;
        newList := newList[b := [h] + newList[b]];
        moved := moved[(h.key, h.hash) := h.id];
      }
      MoveOn(list, m, moved, i);
    }
    AllMoved(list, m, moved, newList);
  }

  lemma NothingMoved(list: seq<seq<Slot>>, m: map<(Key, nat), nat>, newList: seq<seq<Slot>>)
    requires |list| > 0 && |newList| > 0 && forall i :: 0 <= i < |newList| ==> newList[i] == []
    ensures Represents(newList, map[]) && Moved(list, m, map[], 0, 0)
  {}

  lemma AllMoved(list: seq<seq<Slot>>, m: map<(Key, nat), nat>, moved: map<(Key, nat), nat>, newList: seq<seq<Slot>>)
    requires |list| > 0 && Moved(list, m, moved, |list|, 0) && Represents(newList, moved)
    ensures Represents(newList, m)
  {
    forall i | 0 <= i < |newList| ensures AtHome(newList[i], i, |newList|, m) {
      assert AtHome(newList[i], i, |newList|, moved);
    }
    forall k, h | (k, h) in m ensures Holds(newList, k, h, m[(k, h)]) {
      assert 0 <= h % |list| < |list| && (k, h) in moved;
    }
  }

  class HandleTable {
    var list: seq<seq<Slot>>
    var elems: nat
    ghost var contents: map<(Key, nat), nat>

    /** On average there is no more than one element in a chain. */
    ghost predicate Valid()
      reads this
    {
      Represents(list, contents) && elems == |contents| && elems <= |list|
    }

    constructor ()
      ensures Valid() && contents == map[]
    {
      list, elems, contents := [[], [], [], []], 0, map[];
    }

    method Lookup(key: Key, hash: nat) returns (r: Option<nat>)
      requires Valid()
      ensures r == if (key, hash) in contents then Some(contents[(key, hash)]) else None
    {
      var chain := list[hash % |list|];
      var p := FindInChain(chain, key, hash);
      FoundIsMapped(list, contents, key, hash, p);
      return if p < |chain| then Some(chain[p].id) else None;
    }

    /** The new handle takes the place of the one with the same key, which is returned. */
    method Insert(key: Key, hash: nat, id: nat) returns (was: Option<nat>)
      requires Valid()
      modifies this
      ensures Valid() && contents == old(contents)[(key, hash) := id]
      ensures was == if (key, hash) in old(contents) then Some(old(contents)[(key, hash)]) else None
    {
      hide NoTwin, AtHome, Represents;
      var b := Bucket(hash);
      var p := FindInChain(list[b], key, hash);
      FoundIsMapped(list, contents, key, hash, p);
      ghost var m' := contents[(key, hash) := id];
      InsertedSlot(list, contents, key, hash, id, p);
      if p < |list[b]| {
        was := Some(list[b][p].id);
        list := list[b := list[b][p := Slot(key, hash, id)]];
        contents := m';
      } else {
        was := None;
        list := list[b := list[b] + [Slot(key, hash, id)]];
        contents := m';
        elems := elems + 1;
        if elems > |list| {
          Resize();
        }
      }
    }

    method Remove(key: Key, hash: nat) returns (was: Option<nat>)
      requires Valid()
      modifies this
      ensures Valid() && contents == old(contents) - {(key, hash)}
      ensures was == if (key, hash) in old(contents) then Some(old(contents)[(key, hash)]) else None
    {
      hide NoTwin, AtHome, Represents;
      var b := Bucket(hash);
      var p := FindInChain(list[b], key, hash);
      FoundIsMapped(list, contents, key, hash, p);
      if p < |list[b]| {
        RemovedSlot(list, contents, key, hash, p);
        was := Some(list[b][p].id);
        list := list[b := list[b][..p] + list[b][p + 1..]];
        elems := elems - 1;
      } else {
        was := None;
        assert contents - {(key, hash)} == contents;
      }
      contents := contents - {(key, hash)};
    }

    method Bucket(hash: nat) returns (b: nat)
      requires Valid()
      ensures b < |list| && b == hash % |list|
    {
      b := hash % |list|;
    }

    /** Twice the buckets until there is one for every element; the map stays as it is. */
    method Resize()
      requires Represents(list, contents) && elems == |contents|
      modifies this
      ensures Valid() && contents == old(contents) && elems == old(elems)
    {
      var newLength := 4;
      while newLength < elems
        invariant newLength > 0
      {
        newLength := newLength * 2;
      }
      list := Rehash(list, newLength, contents);
    }
  }

  lemma InsertedSlot(list: seq<seq<Slot>>, m: map<(Key, nat), nat>, key: Key, hash: nat, id: nat, p: nat)
    requires Represents(list, m) && |list| > 0 && p <= |list[hash % |list|]|
    requires p < |list[hash % |list|]| <==> (key, hash) in m
    requires p < |list[hash % |list|]| ==> list[hash % |list|][p] == Slot(key, hash, m[(key, hash)])
    ensures var b := hash % |list|;
      var s := Slot(key, hash, id);
      Represents(list[b := if p < |list[b]| then list[b][p := s] else list[b] + [s]], m[(key, hash) := id])
  {
    var b, s := hash % |list|, Slot(key, hash, id);
    var chain := list[b];
    assert NoTwin(chain) && AtHome(chain, b, |list|, m);
    var chain' := if p < |chain| then chain[p := s] else chain + [s];
    if p < |chain| { ReplaceInChain(chain, p, s); }
    assert NoTwin(chain');
    ChangedBucket(list, m, m[(key, hash) := id], b, chain', key, hash);
  }

  lemma RemovedSlot(list: seq<seq<Slot>>, m: map<(Key, nat), nat>, key: Key, hash: nat, p: nat)
    requires Represents(list, m) && |list| > 0 && p < |list[hash % |list|]| && (key, hash) in m
    requires list[hash % |list|][p] == Slot(key, hash, m[(key, hash)])
    ensures var b := hash % |list|;
      Represents(list[b := list[b][..p] + list[b][p + 1..]], m - {(key, hash)})
    ensures |m - {(key, hash)}| == |m| - 1
  {
    var b := hash % |list|;
    assert NoTwin(list[b]);
    RemoveFromChain(list[b], p);
    ChangedBucket(list, m, m - {(key, hash)}, b, list[b][..p] + list[b][p + 1..], key, hash);
    assert m == (m - {(key, hash)})[(key, hash) := m[(key, hash)]];
  }
}
