/** The concatenating iterator: an index iterator picks the block, a data iterator walks it,
    and empty blocks are skipped (table/two_level_iterator.cc). */
module TwoLevelIterator {
  import opened Dbformat
  import opened Comparator
  import opened Table

  type Blocks = seq<seq<TEntry>>

  /** How many entries stand before a block. */
  function Start(blocks: Blocks, b: nat): nat
    requires b <= |blocks|
  {
    if b == 0 then 0 else Start(blocks, b - 1) + |blocks[b - 1]|
  }

  /** All entries, block after block. */
  function Flat(blocks: Blocks): (f: seq<TEntry>)
    ensures |f| == Start(blocks, |blocks|)
  {
    if blocks == [] then []
    else
      StartPrefix(blocks, |blocks| - 1, |blocks| - 1);
      Flat(blocks[..|blocks| - 1]) + blocks[|blocks| - 1]
  }

  lemma {:induction false} StartPrefix(blocks: Blocks, n: nat, b: nat)
    requires b <= n <= |blocks|
    ensures Start(blocks[..n], b) == Start(blocks, b)
  {
    if b > 0 { StartPrefix(blocks, n, b - 1); }
  }

  lemma {:induction false} StartGrows(blocks: Blocks, a: nat, b: nat)
    requires a <= b <= |blocks|
    ensures Start(blocks, a) <= Start(blocks, b)
    ensures a < b ==> Start(blocks, a) + |blocks[a]| <= Start(blocks, b)
  {
    if a < b { StartGrows(blocks, a, b - 1); }
  }

  lemma {:induction false} FlatAt(blocks: Blocks, b: nat, q: nat)
    requires b < |blocks| && q < |blocks[b]|
    ensures Start(blocks, b) + q < |Flat(blocks)| && Flat(blocks)[Start(blocks, b) + q] == blocks[b][q]
    decreases |blocks|
  {
    var n := |blocks| - 1;
    StartGrows(blocks, b, |blocks|);
    StartPrefix(blocks, n, n);
    if b < n {
      StartPrefix(blocks, n, b);
      FlatAt(blocks[..n], b, q);
    }
  }

  lemma {:induction false} BlockOf(blocks: Blocks, p: nat) returns (b: nat, q: nat)
    requires p < |Flat(blocks)|
    ensures b < |blocks| && q < |blocks[b]| && p == Start(blocks, b) + q && Flat(blocks)[p] == blocks[b][q]
    decreases |blocks|
  {
    var n := |blocks| - 1;
    StartPrefix(blocks, n, n);
    if p < |Flat(blocks[..n])| {
      b, q := BlockOf(blocks[..n], p);
      StartPrefix(blocks, n, b);
    } else {
      b, q := n, p - |Flat(blocks[..n])|;
    }
  }

  /** Index keys: at or after every key of their block, before every key of later ones. */
  ghost predicate IndexFits(blocks: Blocks, index: seq<TKey>) {
    && |index| == |blocks|
    && (forall j, e :: 0 <= j < |blocks| && e in blocks[j] ==> !KeyLess(index[j], e.key))
    && forall i, j, e :: 0 <= i < j < |blocks| && e in blocks[j] ==> KeyLess(index[i], e.key)
  }

  /** The first entry at or after the target, in the concatenation. */
  ghost predicate FirstFrom(es: seq<TEntry>, target: TKey, p: nat) {
    && p <= |es|
    && (forall j :: 0 <= j < p ==> KeyLess(es[j].key, target))
    && (p < |es| ==> !KeyLess(es[p].key, target))
  }

  datatype DataIter = DataIter(block: nat, pos: Option<nat>)

  class TwoLevelIterator {
    const blocks: Blocks
    const keys: seq<TKey>
    var index: Option<nat>
    var data: Option<DataIter>
    ghost var at: Option<nat>

    ghost predicate InRange()
      reads this
    {
      && IndexFits(blocks, keys) && (index.Some? ==> index.value < |blocks|)
      && (data.Some? ==> data.value.block < |blocks| && (data.value.pos.Some? ==> data.value.pos.value < |blocks[data.value.block]|))
    }

    predicate DataValid()
      reads this
    {
      data.Some? && data.value.pos.Some?
    }

    /** A cursor over the concatenation. */
    ghost predicate Valid()
      reads this
    {
      && InRange() && (at.Some? <==> DataValid())
      && (at.Some? ==> index == Some(data.value.block) && at.value == Start(blocks, data.value.block) + data.value.pos.value)
    }

    function Current(): (e: TEntry)
      requires Valid() && DataValid()
      reads this
      ensures at.value < |Flat(blocks)| && e == Flat(blocks)[at.value]
    {
      FlatAt(blocks, data.value.block, data.value.pos.value);
      blocks[data.value.block][data.value.pos.value]
    }

    constructor (blocks: Blocks, keys: seq<TKey>)
      requires IndexFits(blocks, keys)
      ensures Valid() && at == None && this.blocks == blocks
    {
      this.blocks, this.keys := blocks, keys;
      index, data, at := None, None, None;
    }

    /** A data iterator for the index iterator's block; the same handle keeps its iterator. */
    method InitDataBlock()
      requires InRange()
      modifies this`data
      ensures InRange() && (index.None? ==> data.None?)
      ensures index.Some? ==> data.Some? && data.value.block == index.value
    {
      if index.None? {
        data := None;
      } else if data.Some? && data.value.block == index.value {
      } else {
        data := Some(DataIter(index.value, None));
      }
    }

    /** How many entries lie behind: before the data iterator, or all of its block. */
    ghost function Behind(): Option<nat>
      requires InRange()
      reads this
    {
      if index.None? then if data.None? then Some(|Flat(blocks)|) else None
      else if data.None? || data.value.block != index.value then None
      else Some(Start(blocks, index.value) + if DataValid() then data.value.pos.value else |blocks[index.value]|)
    }

    /** The same, going backwards: up to the data iterator, or none of its block. */
    ghost function UpTo(): Option<nat>
      requires InRange()
      reads this
    {
      if index.None? then if data.None? then Some(0) else None
      else if data.None? || data.value.block != index.value then None
      else Some(Start(blocks, index.value) + if DataValid() then data.value.pos.value + 1 else 0)
    }

    /** On to the first entry of the next block that has one; `p` is how many entries lie
        behind. */
    method SkipEmptyDataBlocksForward(ghost p: nat)
      requires InRange() && Behind() == Some(p)
      modifies this
      ensures Valid() && at == if p < |Flat(blocks)| then Some(p) else None
    {
      while !DataValid()
        invariant InRange() && Behind() == Some(p)
        decreases if index.Some? then 1 + |blocks| - index.value else 0
      {
        if index.None? {
          data, at := None, None;
          return;
        }
        index := if index.value + 1 < |blocks| then Some(index.value + 1) else None;
        InitDataBlock();
        if data.Some? {
          var b := data.value.block;
          data := Some(DataIter(b, if blocks[b] != [] then Some(0) else None));
        }
      }
      FlatAt(blocks, index.value, data.value.pos.value);
      at := Some(p);
    }

    method SkipEmptyDataBlocksBackward(ghost p: nat)
      requires InRange() && UpTo() == Some(p)
      modifies this
      ensures Valid() && at == if p > 0 then Some(p - 1) else None
    {
      while !DataValid()
        invariant InRange() && UpTo() == Some(p)
        decreases if index.Some? then 1 + index.value else 0
      {
        if index.None? {
          data, at := None, None;
          return;
        }
        index := if index.value > 0 then Some(index.value - 1) else None;
        InitDataBlock();
        if data.Some? {
          var b := data.value.block;
          data := Some(DataIter(b, if blocks[b] != [] then Some(|blocks[b]| - 1) else None));
        }
      }
      at := Some(p - 1);
    }

    method SeekToFirst()
      requires Valid()
      modifies this
      ensures Valid() && at == if Flat(blocks) != [] then Some(0) else None
    {
      index := if blocks != [] then Some(0) else None;
      InitDataBlock();
      if data.Some? { data := Some(DataIter(0, if blocks[0] != [] then Some(0) else None)); }
      SkipEmptyDataBlocksForward(0);
    }

    method SeekToLast()
      requires Valid()
      modifies this
      ensures Valid() && at == if Flat(blocks) != [] then Some(|Flat(blocks)| - 1) else None
    {
      index := if blocks != [] then Some(|blocks| - 1) else None;
      InitDataBlock();
      if data.Some? {
        var b := data.value.block;
        data := Some(DataIter(b, if blocks[b] != [] then Some(|blocks[b]| - 1) else None));
      }
      SkipEmptyDataBlocksBackward(|Flat(blocks)|);
    }

    method Next()
      requires Valid() && DataValid()
      modifies this
      ensures Valid() && at == if old(at).value + 1 < |Flat(blocks)| then Some(old(at).value + 1) else None
    {
      var b, q := data.value.block, data.value.pos.value;
      data := Some(DataIter(b, if q + 1 < |blocks[b]| then Some(q + 1) else None));
      SkipEmptyDataBlocksForward(at.value + 1);
    }

    method Prev()
      requires Valid() && DataValid()
      modifies this
      ensures Valid() && at == if old(at).value > 0 then Some(old(at).value - 1) else None
    {
      var b, q := data.value.block, data.value.pos.value;
      data := Some(DataIter(b, if q > 0 then Some(q - 1) else None));
      SkipEmptyDataBlocksBackward(at.value);
    }

    method Seek(target: TKey) returns (ghost p: nat)
      requires Valid()
      modifies this
      ensures Valid() && FirstFrom(Flat(blocks), target, p) && at == if p < |Flat(blocks)| then Some(p) else None
    {
      var i := 0;
      while i < |keys| && KeyLess(keys[i], target)
        invariant i <= |keys| && forall j :: 0 <= j < i ==> KeyLess(keys[j], target)
      {
        i := i + 1;
      }
      index := if i < |keys| then Some(i) else None;
      InitDataBlock();
      p := |Flat(blocks)|;
      var q := 0;
      if data.Some? {
        q := SeekBlock(blocks[i], target);
        data := Some(DataIter(i, if q < |blocks[i]| then Some(q) else None));
        p := Start(blocks, i) + q;
      }
      SeekIsFirst(blocks, keys, target, i, q, p);
      SkipEmptyDataBlocksForward(p);
    }
  }

  lemma SeekIsFirst(blocks: Blocks, keys: seq<TKey>, target: TKey, i: nat, q: nat, p: nat)
    requires IndexFits(blocks, keys) && i <= |keys| && (forall j :: 0 <= j < i ==> KeyLess(keys[j], target))
    requires i < |keys| ==> !KeyLess(keys[i], target) && q <= |blocks[i]| && p == Start(blocks, i) + q
    requires i < |keys| ==> (forall j :: 0 <= j < q ==> KeyLess(blocks[i][j].key, target))
    requires i < |keys| ==> q < |blocks[i]| ==> !KeyLess(blocks[i][q].key, target)
    requires i == |keys| ==> p == |Flat(blocks)|
    ensures FirstFrom(Flat(blocks), target, p)
  {
    hide KeyLess;
    var f := Flat(blocks);
    if i < |keys| { StartGrows(blocks, i, |blocks|); }
    forall j | 0 <= j < p ensures KeyLess(f[j].key, target) {
      var b, r := BlockOf(blocks, j);
      if i < |keys| {
        if b > i { StartGrows(blocks, i, b); }
      }
      if b < i {
        assert blocks[b][r] in blocks[b];
        NotLessTransitive(blocks[b][r].key, keys[b], target);
      }
    }
    if p < |f| { NotBeforeTarget(blocks, keys, target, i, q, p); }
  }

  lemma NotBeforeTarget(blocks: Blocks, keys: seq<TKey>, target: TKey, i: nat, q: nat, p: nat)
    requires IndexFits(blocks, keys) && i < |keys| && !KeyLess(keys[i], target) && q <= |blocks[i]| && p == Start(blocks, i) + q
    requires q < |blocks[i]| ==> !KeyLess(blocks[i][q].key, target)
    requires p < |Flat(blocks)|
    ensures !KeyLess(Flat(blocks)[p].key, target)
  {
    hide KeyLess;
    if q < |blocks[i]| {
      FlatAt(blocks, i, q);
    } else {
      var b, r := BlockOf(blocks, p);
      if b <= i { StartGrows(blocks, b, i); }
      assert blocks[b][r] in blocks[b];
      NotLessTransitive(target, keys[i], blocks[b][r].key);
      KeyTotal(blocks[b][r].key, target);
    }
  }

  // ---- tables ---------------------------------------------------------------------------------

  function Entries(blocks: seq<DataBlock>): Blocks { seq(|blocks|, j requires 0 <= j < |blocks| => blocks[j].entries) }

  function Keys(index: seq<Handle>): seq<TKey> { seq(|index|, j requires 0 <= j < |index| => index[j].key) }

  /** The index of a table fits its blocks. */
  lemma TableIndexFits(t: TableFile, blocks: seq<DataBlock>)
    requires IsTable(t, blocks)
    ensures IndexFits(Entries(blocks), Keys(t.index))
  {
    hide KeyLess, BytesLess;
    var end :| BlocksOk(blocks, t.file, end);
    forall j, e | 0 <= j < |blocks| && e in Entries(blocks)[j] ensures !KeyLess(Keys(t.index)[j], e.key) {
      assert Indexed(t.index, blocks, j, None);
      LastIsLargest(blocks[j].entries, e);
      NotLessTransitive(e.key, LastKey(blocks[j].entries), t.index[j].key);
    }
    forall i, j, e | 0 <= i < j < |blocks| && e in Entries(blocks)[j] ensures KeyLess(Keys(t.index)[i], e.key) {
      assert Indexed(t.index, blocks, i, None);
      NextIsFirst(blocks, t.file, end, i + 1, j, e);
      NotLessTransitive(t.index[i].key, blocks[i + 1].entries[0].key, e.key);
    }
  }
}
