/** Sorted tables: data blocks, an index with short separators, filters, and the lookup
    that reads one block (table/table_builder.cc, table/table.cc).

    The file is modelled as the data blocks at their offsets; Block.dfy proves that the
    bytes of a block give back its entries and that a seek in it finds the first entry
    not before the target. */
module Table {
  import opened Dbformat
  import opened Comparator
  import opened Filter

  datatype TEntry = TEntry(key: TKey, value: Bytes)

  datatype DataBlock = DataBlock(offset: nat, entries: seq<TEntry>)

  /** An index entry: a key and the offset of a block. */
  datatype Handle = Handle(key: TKey, offset: nat)

  ghost predicate Increasing(es: seq<TEntry>) {
    forall i, j :: 0 <= i < j < |es| ==> KeyLess(es[i].key, es[j].key)
  }

  function LastKey(es: seq<TEntry>): TKey
    requires es != []
  {
    es[|es| - 1].key
  }

  /** The index key of a block lies in [its last key, the first key of the next block); when
      it is not the last key itself, its user key is before the next user key. */
  ghost predicate Separates(sep: TKey, last: TKey, next: Option<TKey>) {
    && !KeyLess(sep, last)
    && (next.Some? ==> KeyLess(sep, next.value) && (sep == last || BytesLess(sep.user, next.value.user)))
  }

  /** The first key after block `j`: in the next block, or the key at hand. */
  function KeyAfter(blocks: seq<DataBlock>, j: nat, next: Option<TKey>): Option<TKey>
    requires j < |blocks|
  {
    if j + 1 == |blocks| then next
    else if blocks[j + 1].entries == [] then None
    else Some(blocks[j + 1].entries[0].key)
  }

  ghost predicate Indexed(index: seq<Handle>, blocks: seq<DataBlock>, j: nat, next: Option<TKey>)
    requires j < |index| <= |blocks| && blocks[j].entries != []
  {
    index[j].offset == blocks[j].offset && Separates(index[j].key, LastKey(blocks[j].entries), KeyAfter(blocks, j, next))
  }

  ghost predicate InFile(file: map<nat, seq<TEntry>>, b: DataBlock) {
    b.offset in file && file[b.offset] == b.entries
  }

  /** Blocks one after the other: non-empty, in order, each at its offset in the file. */
  ghost predicate BlocksOk(blocks: seq<DataBlock>, file: map<nat, seq<TEntry>>, end: nat) {
    && (forall j :: 0 <= j < |blocks| ==>
          blocks[j].entries != [] && Increasing(blocks[j].entries) && InFile(file, blocks[j]) && blocks[j].offset < end)
    && forall i, j :: 0 <= i < j < |blocks| ==> Before(blocks[i], blocks[j])
  }

  ghost predicate Before(a: DataBlock, b: DataBlock) {
    a.entries != [] && b.entries != [] && KeyLess(LastKey(a.entries), b.entries[0].key)
  }

  ghost predicate IndexOk(index: seq<Handle>, blocks: seq<DataBlock>, next: Option<TKey>) {
    && |index| <= |blocks|
    && forall j :: 0 <= j < |index| ==> blocks[j].entries != [] && Indexed(index, blocks, j, next)
  }

  ghost predicate InBlocks(e: TEntry, blocks: seq<DataBlock>) {
    exists j :: 0 <= j < |blocks| && e in blocks[j].entries
  }

  // ---- TableBuilder ----------------------------------------------------------------------

  lemma {:induction false} LastIsLargest(es: seq<TEntry>, e: TEntry)
    requires Increasing(es) && e in es
    ensures !KeyLess(LastKey(es), e.key) && !KeyLess(e.key, es[0].key)
  {
    var i :| 0 <= i < |es| && es[i] == e;
    KeyTotal(e.key, LastKey(es));
    KeyTotal(e.key, es[0].key);
  }

  lemma GrowsBy(es: seq<TEntry>, e: TEntry)
    requires Increasing(es) && (es != [] ==> KeyLess(LastKey(es), e.key))
    ensures Increasing(es + [e])
  {
    forall i | 0 <= i < |es| ensures KeyLess(es[i].key, e.key) {
      if i < |es| - 1 { KeyTransitive(es[i].key, LastKey(es), e.key); }
    }
  }

  /** What the builder knows of the last block when the next entry comes. */
  lemma IndexEntryAdded(index: seq<Handle>, blocks: seq<DataBlock>, key: TKey)
    requires blocks != [] && |index| == |blocks| - 1 && IndexOk(index, blocks, None)
    requires blocks[|index|].entries != [] && KeyLess(LastKey(blocks[|index|].entries), key)
    ensures var last := LastKey(blocks[|index|].entries);
      IndexOk(index + [Handle(KeySeparator(last, key), blocks[|index|].offset)], blocks, Some(key))
  {
    var n := |index|;
    var last := LastKey(blocks[n].entries);
    KeySeparatorSeparates(last, key);
    var index' := index + [Handle(KeySeparator(last, key), blocks[n].offset)];
    forall j | 0 <= j < |index'| ensures blocks[j].entries != [] && Indexed(index', blocks, j, Some(key)) {
      if j < n { assert Indexed(index, blocks, j, None); }
    }
  }

  lemma LastIndexEntryAdded(index: seq<Handle>, blocks: seq<DataBlock>)
    requires blocks != [] && |index| == |blocks| - 1 && IndexOk(index, blocks, None) && blocks[|index|].entries != []
    ensures IndexOk(index + [Handle(KeySuccessor(LastKey(blocks[|index|].entries)), blocks[|index|].offset)], blocks, None)
  {
    var n := |index|;
    var last := LastKey(blocks[n].entries);
    KeySuccessorIsLater(last);
    var index' := index + [Handle(KeySuccessor(last), blocks[n].offset)];
    forall j | 0 <= j < |index'| ensures blocks[j].entries != [] && Indexed(index', blocks, j, None) {
      if j < n { assert Indexed(index, blocks, j, None); }
    }
  }

  /** A finished data block takes its place after the others. */
  lemma BlockAdded(blocks: seq<DataBlock>, file: map<nat, seq<TEntry>>, offset: nat, size: nat, index: seq<Handle>, es: seq<TEntry>)
    requires BlocksOk(blocks, file, offset) && es != [] && Increasing(es) && size > 0
    requires blocks != [] ==> blocks[|blocks| - 1].entries != [] && KeyLess(LastKey(blocks[|blocks| - 1].entries), es[0].key)
    requires |index| == |blocks| && IndexOk(index, blocks, Some(es[0].key))
    ensures var b := DataBlock(offset, es);
      && BlocksOk(blocks + [b], file[offset := es], offset + size) && IndexOk(index, blocks + [b], None)
  {
    var b := DataBlock(offset, es);
    var blocks' := blocks + [b];
    forall j | 0 <= j < |index| ensures blocks'[j].entries != [] && Indexed(index, blocks', j, None) {
      assert Indexed(index, blocks, j, Some(es[0].key));
    }
    forall i, j | 0 <= i < j < |blocks'| ensures Before(blocks'[i], blocks'[j]) {
      if j < |blocks| {
        assert Before(blocks[i], blocks[j]);
      } else if i < |blocks| - 1 {
        BeforeChain(blocks[i], blocks[|blocks| - 1], b);
      }
    }
  }

  lemma BeforeChain(a: DataBlock, b: DataBlock, c: DataBlock)
    requires Before(a, b) && Increasing(b.entries) && Before(b, c)
    ensures Before(a, c)
  {
    LastIsLargest(b.entries, b.entries[0]);
    NotLessTransitive(LastKey(a.entries), b.entries[0].key, LastKey(b.entries));
    KeyTransitive(LastKey(a.entries), LastKey(b.entries), c.entries[0].key);
  }

  class TableBuilder {
    const filter: FilterBlockBuilder?
    var offset: nat
    var lastKey: TKey
    var numEntries: nat
    var dataBlock: seq<TEntry>
    var index: seq<Handle>
    var pendingIndexEntry: bool
    var pendingHandle: nat
    var file: map<nat, seq<TEntry>>
    ghost var blocks: seq<DataBlock>
    ghost var entries: seq<TEntry>   // everything added

    ghost predicate InOrder()
      reads this
    {
      && BlocksOk(blocks, file, offset) && Increasing(dataBlock) && numEntries == |entries|
      && (numEntries > 0 ==> if dataBlock != [] then lastKey == LastKey(dataBlock) else
                               blocks != [] && blocks[|blocks| - 1].entries != [] && lastKey == LastKey(blocks[|blocks| - 1].entries))
      && (numEntries == 0 ==> blocks == [] && dataBlock == [])
      && (blocks != [] && dataBlock != [] ==> Before(blocks[|blocks| - 1], DataBlock(offset, dataBlock)))
      && (forall e :: e in entries <==> InBlocks(e, blocks) || e in dataBlock)
    }

    /** The index lags behind by the block just written, until the next entry comes. */
    ghost predicate IndexLags()
      reads this
    {
      && (pendingIndexEntry <==> blocks != [] && dataBlock == [])
      && |index| == |blocks| - (if pendingIndexEntry then 1 else 0)
      && IndexOk(index, blocks, if dataBlock != [] then Some(dataBlock[0].key) else None)
      && (pendingIndexEntry ==> pendingHandle == blocks[|blocks| - 1].offset)
    }

    /** Every key added will be found by the filter of its block's offset. */
    ghost predicate Filtered()
      reads this, filter
    {
      filter != null ==>
        && |filter.filters| == offset / FILTER_BASE
        && (forall j, e :: 0 <= j < |blocks| && e in blocks[j].entries ==> filter.Covers(blocks[j].offset, e.key.user))
        && forall e :: e in dataBlock ==> filter.Covers(offset, e.key.user)
    }

    ghost predicate Valid()
      reads this, filter
    {
      InOrder() && IndexLags() && Filtered()
    }

    constructor (filter: FilterBlockBuilder?)
      requires filter != null ==> filter.filters == [] && filter.keys == []
      ensures Valid() && entries == [] && this.filter == filter
    {
      this.filter := filter;
      offset, lastKey, numEntries, dataBlock, index := 0, TKey([], 0), 0, [], [];
      pendingIndexEntry, pendingHandle, file, blocks, entries := false, 0, map[], [], [];
    }

    /** Add: the index entry of the block before waits for the key that follows it.  `full`
        says that the block has reached its size, `bytes` what it takes in the file. */
    method Add(key: TKey, value: Bytes, full: bool, bytes: nat)
      requires Valid() && (numEntries > 0 ==> KeyLess(lastKey, key)) && bytes > 0
      modifies this, filter
      ensures Valid() && entries == old(entries) + [TEntry(key, value)] && lastKey == key
      ensures var block := old(dataBlock) + [TEntry(key, value)];
        if full then dataBlock == [] && blocks == old(blocks) + [DataBlock(old(offset), block)]
        else dataBlock == block && blocks == old(blocks)
    {
      AddPending(key);
      AddEntry(key, value);
      if full { Flush(bytes); }
    }

    /** The deferred index entry, now that the next key is known. */
    method AddPending(key: TKey)
      requires Valid() && (numEntries > 0 ==> KeyLess(lastKey, key))
      modifies this`index, this`pendingIndexEntry
      ensures InOrder() && Filtered() && !pendingIndexEntry && |index| == |blocks|
      ensures IndexOk(index, blocks, Some(if dataBlock != [] then dataBlock[0].key else key))
    {
      if pendingIndexEntry {
        IndexEntryAdded(index, blocks, key);
        index := index + [Handle(KeySeparator(lastKey, key), pendingHandle)];
        pendingIndexEntry := false;
      } else if dataBlock == [] {
        assert blocks == [];
      }
    }

    method AddEntry(key: TKey, value: Bytes)
      requires InOrder() && Filtered() && !pendingIndexEntry && |index| == |blocks|
      requires IndexOk(index, blocks, Some(if dataBlock != [] then dataBlock[0].key else key))
      requires numEntries > 0 ==> KeyLess(lastKey, key)
      modifies this`lastKey, this`numEntries, this`dataBlock, this`entries, filter
      ensures Valid() && entries == old(entries) + [TEntry(key, value)] && lastKey == key
      ensures dataBlock == old(dataBlock) + [TEntry(key, value)]
    {
      hide KeyLess, BytesLess, IndexOk, BlocksOk, InBlocks, Finds;
      ghost var e := TEntry(key, value);
      GrowsBy(dataBlock, e);
      if filter != null { filter.AddKey(key.user); }
      lastKey := key;
      numEntries := numEntries + 1;
      dataBlock := dataBlock + [TEntry(key, value)];
      entries := entries + [e];
      assert blocks != [] ==> Before(blocks[|blocks| - 1], DataBlock(offset, dataBlock));
    }

    method Flush(bytes: nat)
      requires Valid() && bytes > 0
      modifies this`offset, this`dataBlock, this`pendingIndexEntry, this`pendingHandle, this`file, this`blocks, filter
      ensures Valid() && entries == old(entries) && dataBlock == [] && lastKey == old(lastKey)
      ensures blocks == old(blocks) + if old(dataBlock) == [] then [] else [DataBlock(old(offset), old(dataBlock))]
    {
      hide KeyLess, BytesLess, IndexOk, BlocksOk, InBlocks, Finds, Increasing;
      if dataBlock == [] { return; }
      NoEntries();
      LastBlockNotEmpty(blocks, file, offset);
      BlockAdded(blocks, file, offset, bytes, index, dataBlock);
      ghost var b := DataBlock(offset, dataBlock);
      InMoreBlocks(blocks, b);
      pendingHandle := offset;
      file := file[offset := dataBlock];
      blocks := blocks + [b];
      offset := offset + bytes;
      dataBlock := [];
      pendingIndexEntry := true;
      if filter != null {
        SlotsGrow(pendingHandle, offset);
        filter.StartBlock(offset);
      }
    }

    /** Finish: the last block, the rest of the filters, and the last index entry. */
    method Finish(bytes: nat) returns (table: TableFile)
      requires Valid() && bytes > 0
      modifies this, filter
      ensures IsTable(table, blocks) && entries == old(entries)
      ensures forall e :: e in entries <==> InBlocks(e, blocks)
      ensures filter != null ==> Findable(filter.hash, table, blocks)
      ensures table.filters.Some? <==> filter != null
    {
      hide KeyLess, BytesLess, IndexOk, BlocksOk, InBlocks, Finds, Increasing, Before, KeySuccessor;
      Flush(bytes);
      var filters := None;
      if filter != null {
        filter.Finish();
        filters := Some(filter.filters);
      }
      if pendingIndexEntry {
        LastIndexEntryAdded(index, blocks);
        index := index + [Handle(KeySuccessor(lastKey), pendingHandle)];
        pendingIndexEntry := false;
      }
      table := TableFile(index, file, filters);
    }
  }

  lemma NoEntries()
    ensures Increasing([])
  {}

  lemma LastBlockNotEmpty(blocks: seq<DataBlock>, file: map<nat, seq<TEntry>>, end: nat)
    requires BlocksOk(blocks, file, end)
    ensures blocks != [] ==> blocks[|blocks| - 1].entries != []
  {}

  lemma InMoreBlocks(blocks: seq<DataBlock>, b: DataBlock)
    ensures forall e :: InBlocks(e, blocks + [b]) <==> InBlocks(e, blocks) || e in b.entries
  {
    var all := blocks + [b];
    forall e | InBlocks(e, blocks) || e in b.entries ensures InBlocks(e, all) {
      if e in b.entries {
        assert all[|blocks|] == b;
      } else {
        var j :| 0 <= j < |blocks| && e in blocks[j].entries;
        assert all[j] == blocks[j];
      }
    }
  }

  lemma SlotsGrow(a: nat, b: nat)
    requires a <= b
    ensures a / FILTER_BASE <= b / FILTER_BASE
  {}

  // ---- the table as it is read -----------------------------------------------------------------

  datatype TableFile = TableFile(index: seq<Handle>, file: map<nat, seq<TEntry>>, filters: Option<seq<Option<BloomFilter>>>)

  ghost predicate IsTable(t: TableFile, blocks: seq<DataBlock>) {
    && |t.index| == |blocks| && IndexOk(t.index, blocks, None)
    && exists end :: BlocksOk(blocks, t.file, end)
  }

  /** No key of a block is missed by the filter at the block's offset. */
  ghost predicate Findable(hash: HashFunction, t: TableFile, blocks: seq<DataBlock>) {
    t.filters.Some? ==>
      forall j, e :: 0 <= j < |blocks| && e in blocks[j].entries ==>
        Finds(hash, t.filters.value, blocks[j].offset / FILTER_BASE, e.key.user)
  }

  /** The answer of a lookup: the first entry at or after the key, unless that has another
      user key, in which case there may be no answer. */
  ghost predicate Answers(blocks: seq<DataBlock>, k: TKey, r: Option<TEntry>) {
    match r
    case Some(e) =>
      && InBlocks(e, blocks) && !KeyLess(e.key, k)
      && forall x :: InBlocks(x, blocks) && !KeyLess(x.key, k) ==> !KeyLess(x.key, e.key)
    case None =>
      forall x :: InBlocks(x, blocks) && !KeyLess(x.key, k) ==> x.key.user != k.user
  }

  /** Block::Iter::Seek on the index and on a data block. */
  method SeekIndex(index: seq<Handle>, k: TKey) returns (i: nat)
    ensures i <= |index| && (forall j :: 0 <= j < i ==> KeyLess(index[j].key, k)) && (i < |index| ==> !KeyLess(index[i].key, k))
  {
    i := 0;
    while i < |index| && KeyLess(index[i].key, k)
      invariant i <= |index| && forall j :: 0 <= j < i ==> KeyLess(index[j].key, k)
    {
      i := i + 1;
    }
  }

  method SeekBlock(es: seq<TEntry>, k: TKey) returns (i: nat)
    ensures i <= |es| && (forall j :: 0 <= j < i ==> KeyLess(es[j].key, k)) && (i < |es| ==> !KeyLess(es[i].key, k))
  {
    i := 0;
    while i < |es| && KeyLess(es[i].key, k)
      invariant i <= |es| && forall j :: 0 <= j < i ==> KeyLess(es[j].key, k)
    {
      i := i + 1;
    }
  }

  /** Blocks whose index key is before the target hold nothing at or after it. */
  lemma EarlierBlocksAreBefore(index: seq<Handle>, blocks: seq<DataBlock>, j: nat, k: TKey, x: TEntry)
    requires IndexOk(index, blocks, None) && j < |index| && KeyLess(index[j].key, k)
    requires Increasing(blocks[j].entries) && x in blocks[j].entries
    ensures KeyLess(x.key, k)
  {
    assert Indexed(index, blocks, j, None);
    var last := LastKey(blocks[j].entries);
    LastIsLargest(blocks[j].entries, x);
    NotLessTransitive(x.key, last, index[j].key);
    NotLessTransitive(last, index[j].key, k);
    NotLessTransitive(x.key, last, k);
  }

  /** A later block holds nothing of the sought user key unless this block already does. */
  lemma LaterBlocksDiffer(t: TableFile, blocks: seq<DataBlock>, i: nat, j: nat, k: TKey, x: TEntry)
    requires IsTable(t, blocks) && i < j < |blocks| && !KeyLess(t.index[i].key, k) && x in blocks[j].entries
    requires forall e :: e in blocks[i].entries ==> KeyLess(e.key, k)
    ensures x.key.user != k.user
  {
    var end :| BlocksOk(blocks, t.file, end);
    assert Indexed(t.index, blocks, i, None);
    var sep, last, next := t.index[i].key, LastKey(blocks[i].entries), blocks[i + 1].entries[0].key;
    assert blocks[i].entries[|blocks[i].entries| - 1] in blocks[i].entries;
    assert KeyLess(last, k) && sep != last;
    assert BytesLess(sep.user, next.user);
    NextIsFirst(blocks, t.file, end, i + 1, j, x);
    UserOrder(k, sep);
    UserOrder(next, x.key);
    if k.user != sep.user { BytesTransitive(k.user, sep.user, next.user); }
    if next.user != x.key.user { BytesTransitive(k.user, next.user, x.key.user); }
    BytesIrreflexive(k.user);
  }

  lemma UserOrder(a: TKey, b: TKey)
    requires !KeyLess(b, a)
    ensures a.user == b.user || BytesLess(a.user, b.user)
  {
    BytesTotal(a.user, b.user);
  }

  lemma NextIsFirst(blocks: seq<DataBlock>, file: map<nat, seq<TEntry>>, end: nat, i: nat, j: nat, x: TEntry)
    requires BlocksOk(blocks, file, end) && i <= j < |blocks| && x in blocks[j].entries
    ensures blocks[i].entries != [] && !KeyLess(x.key, blocks[i].entries[0].key)
  {
    LastIsLargest(blocks[j].entries, x);
    if i < j {
      assert Before(blocks[i], blocks[j]);
      var first, last := blocks[i].entries[0].key, LastKey(blocks[i].entries);
      LastIsLargest(blocks[i].entries, blocks[i].entries[0]);
      NotLessTransitive(first, last, blocks[j].entries[0].key);
      NotLessTransitive(first, blocks[j].entries[0].key, x.key);
      KeyTotal(first, x.key);
    }
  }

  /** When this block has nothing of the user key at or after the target, no other has. */
  lemma OnlyThisBlock(t: TableFile, blocks: seq<DataBlock>, i: nat, k: TKey)
    requires IsTable(t, blocks) && i < |blocks| && !KeyLess(t.index[i].key, k)
    requires forall j :: 0 <= j < i ==> KeyLess(t.index[j].key, k)
    requires forall e :: e in blocks[i].entries && !KeyLess(e.key, k) ==> e.key.user != k.user
    ensures Answers(blocks, k, None)
  {
    forall x | InBlocks(x, blocks) && !KeyLess(x.key, k) ensures x.key.user != k.user {
      var j :| 0 <= j < |blocks| && x in blocks[j].entries;
      var end :| BlocksOk(blocks, t.file, end);
      if j < i {
        EarlierBlocksAreBefore(t.index, blocks, j, k, x);
      } else if j > i {
        if e :| e in blocks[i].entries && !KeyLess(e.key, k) {
          LaterEntry(blocks, t.file, end, i, j, e, x);
          UserOrder(k, e.key);
          UserOrder(e.key, x.key);
          if e.key.user != x.key.user { BytesTransitive(k.user, e.key.user, x.key.user); }
          BytesIrreflexive(k.user);
        } else {
          LaterBlocksDiffer(t, blocks, i, j, k, x);
        }
      }
    }
  }

  lemma LaterEntry(blocks: seq<DataBlock>, file: map<nat, seq<TEntry>>, end: nat, i: nat, j: nat, e: TEntry, x: TEntry)
    requires BlocksOk(blocks, file, end) && i < j < |blocks| && e in blocks[i].entries && x in blocks[j].entries
    ensures !KeyLess(x.key, e.key)
  {
    LastIsLargest(blocks[i].entries, e);
    LastIsLargest(blocks[j].entries, x);
    assert Before(blocks[i], blocks[j]);
    NotLessTransitive(e.key, LastKey(blocks[i].entries), blocks[j].entries[0].key);
    NotLessTransitive(e.key, blocks[j].entries[0].key, x.key);
    KeyTotal(e.key, x.key);
  }

  lemma FirstInBlockIsFirst(t: TableFile, blocks: seq<DataBlock>, i: nat, p: nat, k: TKey)
    requires IsTable(t, blocks) && i < |blocks| && p < |blocks[i].entries|
    requires forall j :: 0 <= j < i ==> KeyLess(t.index[j].key, k)
    requires !KeyLess(blocks[i].entries[p].key, k) && forall q :: 0 <= q < p ==> KeyLess(blocks[i].entries[q].key, k)
    ensures Answers(blocks, k, Some(blocks[i].entries[p]))
  {
    hide KeyLess, BytesLess, Indexed;
    var end :| BlocksOk(blocks, t.file, end);
    var r := blocks[i].entries[p];
    assert r in blocks[i].entries;
    forall x | InBlocks(x, blocks) && !KeyLess(x.key, k) ensures !KeyLess(x.key, r.key) {
      var j :| 0 <= j < |blocks| && x in blocks[j].entries;
      if j < i {
        EarlierBlocksAreBefore(t.index, blocks, j, k, x);
      } else if j > i {
        LaterEntry(blocks, t.file, end, i, j, r, x);
      } else {
        var q :| 0 <= q < |blocks[i].entries| && blocks[i].entries[q] == x;
        KeyTotal(x.key, r.key);
      }
    }
  }

  lemma NoBlockLeft(t: TableFile, blocks: seq<DataBlock>, k: TKey)
    requires IsTable(t, blocks) && forall j :: 0 <= j < |blocks| ==> KeyLess(t.index[j].key, k)
    ensures Answers(blocks, k, None)
  {
    forall x | InBlocks(x, blocks) ensures KeyLess(x.key, k) {
      var j :| 0 <= j < |blocks| && x in blocks[j].entries;
      EarlierBlocksAreBefore(t.index, blocks, j, k, x);
    }
  }

  /** InternalGet reads at most one block, and none when the filter says no; it misses no
      entry of the sought user key. */
  method InternalGet(hash: HashFunction, t: TableFile, ghost blocks: seq<DataBlock>, k: TKey) returns (r: Option<TEntry>)
    requires IsTable(t, blocks) && Findable(hash, t, blocks)
    ensures Answers(blocks, k, r)
  {
    var i := SeekIndex(t.index, k);
    if i == |t.index| {
      NoBlockLeft(t, blocks, k);
      return None;
    }
    assert Indexed(t.index, blocks, i, None) && InFile(t.file, blocks[i]);
    if t.filters.Some? {
      var may := BlockMayMatch(hash, t.filters.value, t.index[i].offset, k.user);
      if !may {
        OnlyThisBlock(t, blocks, i, k);
        return None;
      }
    }
    var es := t.file[t.index[i].offset];
    var p := SeekBlock(es, k);
    if p < |es| {
      FirstInBlockIsFirst(t, blocks, i, p, k);
      return Some(es[p]);
    }
    forall e | e in es ensures KeyLess(e.key, k) {
      var q :| 0 <= q < |es| && es[q] == e;
    }
    OnlyThisBlock(t, blocks, i, k);
    return None;
  }

  /** A table built from any increasing keys answers every lookup from all of them. */
  method BuildAndGet(filter: FilterBlockBuilder?, es: seq<TEntry>, full: nat -> bool, bytes: nat, k: TKey) returns (r: Option<TEntry>)
    requires Increasing(es) && bytes > 0 && (filter != null ==> filter.filters == [] && filter.keys == [])
    modifies filter
    ensures r.Some? ==> r.value in es && !KeyLess(r.value.key, k)
                        && forall x :: x in es && !KeyLess(x.key, k) ==> !KeyLess(x.key, r.value.key)
    ensures r.None? ==> forall x :: x in es && !KeyLess(x.key, k) ==> x.key.user != k.user
  {
    var b := new TableBuilder(filter);
    for i := 0 to |es|
      invariant b.Valid() && fresh(b) && b.filter == filter && b.entries == es[..i]
      invariant i > 0 ==> b.lastKey == es[i - 1].key
    {
      assert es[..i + 1] == es[..i] + [TEntry(es[i].key, es[i].value)];
      b.Add(es[i].key, es[i].value, full(i), bytes);
    }
    assert es[..|es|] == es;
    var t := b.Finish(bytes);
    r := InternalGet(if filter != null then filter.hash else (key => 0), t, b.blocks, k);
  }
}
