/** Files, levels and point lookups (db/version_set.cc, db/version_set.h).

    A table file is the strictly increasing sequence of entries its builder was
    given.  Table.dfy proves, for byte-string keys, that the probe of one block on the disk
    finds the entry that a search of all of them would. */
module Version {
  import opened Dbformat
  import opened Runs

  const NUM_LEVELS := 7

  datatype FileMetaData =
    FileMetaData(number: nat, size: nat, smallest: IKey, largest: IKey, entries: seq<Entry>)

  type File = f: FileMetaData | !Less(f.largest, f.smallest)
    witness FileMetaData(0, 0, IKey(0.0, 0, Put), IKey(0.0, 0, Put), [])

  /** The table holds what its metadata says: increasing keys within the recorded
      bounds, and both bounds are keys of it. */
  ghost predicate Intact(f: File) {
    && Sorted(f.entries)
    && (forall e :: e in f.entries ==> !Less(e.key, f.smallest) && !Less(f.largest, e.key))
    && (exists e :: e in f.entries && e.key == f.smallest)
    && (exists e :: e in f.entries && e.key == f.largest)
  }

  /** BuildTable: the bounds are the first and the last key added. */
  function MakeFile(number: nat, size: nat, entries: seq<Entry>): (f: File)
    requires entries != [] && Sorted(entries)
    ensures Intact(f)
  {
    assert entries[0] in entries && entries[|entries| - 1] in entries;
    FileMetaData(number, size, entries[0].key, entries[|entries| - 1].key, entries)
  }

  type Version = seq<seq<File>>

  ghost predicate InFiles(e: Entry, files: seq<File>) {
    exists f :: f in files && e in f.entries
  }

  ghost function FilesEntries(files: seq<File>): set<Entry> {
    set f, e | f in files && e in f.entries :: e
  }

  ghost function VersionEntries(v: Version): set<Entry> {
    set l, e | 0 <= l < |v| && e in FilesEntries(v[l]) :: e
  }

  ghost predicate AllIntact(files: seq<File>) {
    forall f :: f in files ==> Intact(f)
  }

  // ---- level invariants -----------------------------------------------------

  /** Levels from 1 on: sorted, and no two files share an internal key. */
  ghost predicate SortedDisjoint(files: seq<File>) {
    forall i, j :: 0 <= i < j < |files| ==> Less(files[i].largest, files[j].smallest)
  }

  ghost predicate FilesNewer(a: seq<File>, b: seq<File>) {
    Newer(FilesEntries(a), FilesEntries(b))
  }

  /** Level 0: numbers are unique and a higher number means more recent entries. */
  ghost predicate NewestByNumber(files: seq<File>) {
    && (forall i, j :: 0 <= i < j < |files| ==> files[i].number != files[j].number)
    && (forall f, g :: f in files && g in files && f.number > g.number ==>
          Newer(Elements(f.entries), Elements(g.entries)))
  }

  ghost predicate LevelOk(level: nat, files: seq<File>) {
    && AllIntact(files)
    && if level == 0 then NewestByNumber(files) else SortedDisjoint(files)
  }

  ghost predicate LevelNewer(v: Version, i: nat, j: nat)
    requires i < |v| && j < |v|
  {
    FilesNewer(v[i], v[j])
  }

  /** The level invariants: each level is in order, and a shallower level holds only
      more recent entries for any user key. */
  ghost predicate LevelsOrdered(v: Version) {
    && |v| == NUM_LEVELS
    && (forall l :: 0 <= l < NUM_LEVELS ==> LevelOk(l, v[l]))
    && (forall i, j :: 0 <= i < j < NUM_LEVELS ==> LevelNewer(v, i, j))
  }

  // ---- searching one table or memtable ---------------------------------------

  /** MemTable::Get, and TableCache::Get with SaveValue: seek, then compare user keys. */
  function PointGet(es: seq<Entry>, k: UserKey, s: SeqNo): (r: Option<Entry>) {
    var i := LowerBound(es, SeekKey(k, s));
    if i < |es| && es[i].key.ukey == k then Some(es[i]) else None
  }

  /** One seek answers the read for its run, whatever else the run holds. */
  lemma PointGetIsVisible(es: seq<Entry>, k: UserKey, s: SeqNo)
    requires Sorted(es)
    ensures PointGet(es, k, s).Some? ==> Newest(Elements(es), k, s, PointGet(es, k, s).value)
    ensures PointGet(es, k, s).None? ==> forall e :: e in es ==> !Matches(e, k, s)
  {
    var target := SeekKey(k, s);
    var i := LowerBound(es, target);
    LowerBoundSplits(es, target);
    forall e | e in es && Matches(e, k, s)
      ensures i < |es| && es[i].key.ukey == k && e.key.seqno <= es[i].key.seqno
    {
      var j :| 0 <= j < |es| && es[j] == e;
      SeekKeySplits(e, k, s);
      assert i <= j;
      SeekKeySplits(es[i], k, s);
      if i < j { assert Less(es[i].key, es[j].key); }
    }
    if PointGet(es, k, s).Some? { SeekKeySplits(es[i], k, s); }
  }

  // ---- searching a level ----------------------------------------------------

  /** The first file whose largest key is at or after the target (binary search). */
  method FindFile(files: seq<File>, target: IKey) returns (index: nat)
    requires SortedDisjoint(files)
    ensures index <= |files|
    ensures forall i :: 0 <= i < index ==> Less(files[i].largest, target)
    ensures forall i :: index <= i < |files| ==> !Less(files[i].largest, target)
  {
    var left, right := 0, |files|;
    while left < right
      invariant left <= right <= |files|
      invariant forall i :: 0 <= i < left ==> Less(files[i].largest, target)
      invariant forall i :: right <= i < |files| ==> !Less(files[i].largest, target)
    {
      var mid := (left + right) / 2;
      forall i | 0 <= i < mid ensures Less(files[i].largest, files[mid].largest) { LargestIncreases(files, i, mid); }
      forall i | mid < i < |files| ensures Less(files[mid].largest, files[i].largest) { LargestIncreases(files, mid, i); }
      if Less(files[mid].largest, target) {
        left := mid + 1;
      } else {
        right := mid;
      }
    }
    return right;
  }

  lemma LargestIncreases(files: seq<File>, i: nat, j: nat)
    requires SortedDisjoint(files) && i < j < |files|
    ensures Less(files[i].largest, files[j].largest) && Less(files[i].smallest, files[j].smallest)
  {}

  /** In a sorted level only the first file ending at or after the seek key can hold
      the newest match; a key split over two files is found in the earlier one. */
  lemma OneFileDecides(files: seq<File>, index: nat, k: UserKey, s: SeqNo, e: Entry)
    requires SortedDisjoint(files) && AllIntact(files) && index <= |files|
    requires forall i :: 0 <= i < index ==> Less(files[i].largest, SeekKey(k, s))
    requires forall i :: index <= i < |files| ==> !Less(files[i].largest, SeekKey(k, s))
    requires InFiles(e, files) && Matches(e, k, s)
    ensures index < |files| && files[index].smallest.ukey <= k
    ensures PointGet(files[index].entries, k, s).Some?
    ensures e.key.seqno <= PointGet(files[index].entries, k, s).value.key.seqno
  {
    var f :| f in files && e in f.entries;
    assert Intact(f);
    var j :| 0 <= j < |files| && files[j] == f;
    SeekKeySplits(e, k, s);
    assert index <= j;
    var g := files[index];
    assert g in files && Intact(g);
    PointGetIsVisible(g.entries, k, s);
    if index < j {
      var last :| last in g.entries && last.key == g.largest;
      SeekKeySplits(last, k, s);
      CompareIsOrder(g.largest, files[j].smallest, e.key);
      assert Less(last.key, e.key);
      assert last.key.ukey == k;
      assert Matches(last, k, s);
      OrderIsNewestFirst(last, e);
    }
  }

  // ---- Version::Get ----------------------------------------------------------

  predicate InUserRange(f: File, k: UserKey) {
    f.smallest.ukey <= k <= f.largest.ukey
  }

  ghost predicate NewestFirst(files: seq<File>) {
    forall i, j :: 0 <= i < j < |files| ==> files[i].number >= files[j].number
  }

  function PutNewestFirst(files: seq<File>, f: File): seq<File> {
    if files == [] || files[0].number < f.number then [f] + files else [files[0]] + PutNewestFirst(files[1..], f)
  }

  lemma {:induction false} PutElements(files: seq<File>, f: File)
    ensures forall g :: g in PutNewestFirst(files, f) <==> g in files || g == f
  {
    if files != [] { PutElements(files[1..], f); }
  }

  lemma FirstIsNewest(f: File, files: seq<File>)
    requires NewestFirst(files) && forall g :: g in files ==> f.number >= g.number
    ensures NewestFirst([f] + files)
  {
    assert forall i :: 0 <= i < |files| ==> files[i] in files;
  }

  lemma {:induction false} PutKeepsOrder(files: seq<File>, f: File)
    requires NewestFirst(files)
    ensures NewestFirst(PutNewestFirst(files, f))
  {
    if files == [] || files[0].number < f.number {
      FirstIsNewest(f, files);
    } else {
      PutKeepsOrder(files[1..], f);
      PutElements(files[1..], f);
      FirstIsNewest(files[0], PutNewestFirst(files[1..], f));
    }
  }

  /** std::sort with NewestFirst over the level-0 files that cover the key. */
  method SortNewestFirst(files: seq<File>) returns (sorted: seq<File>)
    ensures forall f :: f in sorted <==> f in files
    ensures NewestFirst(sorted)
  {
    sorted := [];
    for i := 0 to |files|
      invariant forall f :: f in sorted <==> f in files[..i]
      invariant NewestFirst(sorted)
    {
      PutKeepsOrder(sorted, files[i]);
      PutElements(sorted, files[i]);
      assert files[..i + 1] == files[..i] + [files[i]];
      sorted := PutNewestFirst(sorted, files[i]);
    }
    assert files[..|files|] == files;
  }

  lemma HigherNumberIsNewer(files: seq<File>, f: File, g: File, x: Entry, y: Entry)
    requires NewestByNumber(files) && f in files && g in files && f.number > g.number
    requires x in f.entries && y in g.entries && x.key.ukey == y.key.ukey
    ensures x.key.seqno > y.key.seqno
  {
    assert x in Elements(f.entries) && y in Elements(g.entries);
  }

  /** A hit in one level-0 file is at least as recent as any match in a file that the
      newest-first order puts at the same place or later. */
  lemma Level0Hit(files: seq<File>, f: File, g: File, k: UserKey, s: SeqNo, hit: Entry, e: Entry)
    requires NewestByNumber(files) && f in files && g in files && g.number <= f.number
    requires Newest(Elements(f.entries), k, s, hit)
    requires e in g.entries && Matches(e, k, s)
    ensures e.key.seqno <= hit.key.seqno
  {
    if g.number == f.number {
      SameNumberSameFile(files, f, g);
      assert e in Elements(f.entries);
    } else {
      HigherNumberIsNewer(files, f, g, hit, e);
    }
  }

  lemma LaterInOrder(files: seq<File>, order: seq<File>, i: nat, k: UserKey, s: SeqNo, e: Entry) returns (g: File)
    requires AllIntact(files) && i < |order| && InFiles(e, files) && Matches(e, k, s)
    requires forall f :: f in files && InUserRange(f, k) ==> f in order
    requires NewestFirst(order)
    requires forall a, x :: 0 <= a < i && x in order[a].entries ==> !Matches(x, k, s)
    ensures g in files && e in g.entries && g.number <= order[i].number
  {
    g :| g in files && e in g.entries;
    assert Intact(g);
    var j :| 0 <= j < |order| && order[j] == g;
  }

  lemma Level0Miss(files: seq<File>, order: seq<File>, k: UserKey, s: SeqNo)
    requires AllIntact(files)
    requires forall f :: f in order <==> f in files && InUserRange(f, k)
    requires forall f, e :: f in order && e in f.entries ==> !Matches(e, k, s)
    ensures forall e :: InFiles(e, files) ==> !Matches(e, k, s)
  {
    forall e | InFiles(e, files) ensures !Matches(e, k, s) {
      var f :| f in files && e in f.entries;
      assert Intact(f);
    }
  }

  /** The level-0 files whose user-key range covers `k`, in list order. */
  method CoveringFiles(files: seq<File>, k: UserKey) returns (tmp: seq<File>)
    ensures forall f :: f in tmp <==> f in files && InUserRange(f, k)
  {
    tmp := [];
    for i := 0 to |files|
      invariant forall f :: f in tmp <==> f in files[..i] && InUserRange(f, k)
    {
      if InUserRange(files[i], k) { tmp := tmp + [files[i]]; }
      assert files[..i + 1] == files[..i] + [files[i]];
    }
    assert files[..|files|] == files;
  }

  /** Level 0: every covering file, newest first, until one has a match. */
  method GetLevel0(files: seq<File>, k: UserKey, s: SeqNo) returns (r: Option<Entry>)
    requires NewestByNumber(files) && AllIntact(files)
    ensures r.Some? ==> Newest(FilesEntries(files), k, s, r.value)
    ensures r.None? ==> forall e :: InFiles(e, files) ==> !Matches(e, k, s)
  {
    var tmp := CoveringFiles(files, k);
    var order := SortNewestFirst(tmp);
    for i := 0 to |order|
      invariant forall a, x :: 0 <= a < i && x in order[a].entries ==> !Matches(x, k, s)
    {
      assert order[i] in files && Intact(order[i]);
      PointGetIsVisible(order[i].entries, k, s);
      r := PointGet(order[i].entries, k, s);
      if r.Some? {
        assert order[i] in files;
        forall e | InFiles(e, files) && Matches(e, k, s) ensures e.key.seqno <= r.value.key.seqno {
          var g := LaterInOrder(files, order, i, k, s, e);
          Level0Hit(files, order[i], g, k, s, r.value, e);
        }
        return;
      }
    }
    Level0Miss(files, order, k, s);
    return None;
  }

  /** A deeper level: binary search for the one file that can decide. */
  method GetSortedLevel(files: seq<File>, k: UserKey, s: SeqNo) returns (r: Option<Entry>)
    requires SortedDisjoint(files) && AllIntact(files)
    ensures r.Some? ==> Newest(FilesEntries(files), k, s, r.value)
    ensures r.None? ==> forall e :: InFiles(e, files) ==> !Matches(e, k, s)
  {
    var index := FindFile(files, SeekKey(k, s));
    r := None;
    if index < |files| && !(k < files[index].smallest.ukey) {
      assert files[index] in files && Intact(files[index]);
      PointGetIsVisible(files[index].entries, k, s);
      r := PointGet(files[index].entries, k, s);
    }
    forall e | InFiles(e, files) && Matches(e, k, s)
      ensures r.Some? && e.key.seqno <= r.value.key.seqno
    {
      OneFileDecides(files, index, k, s, e);
    }
  }

  /** Version::Get searches level by level and stops at the first hit.  Since a
      shallower level is newer for every user key, the hit is the newest entry of
      the whole version. */
  method GetEntry(v: Version, k: UserKey, s: SeqNo) returns (r: Option<Entry>)
    requires LevelsOrdered(v)
    ensures r.Some? ==> Newest(VersionEntries(v), k, s, r.value)
    ensures r.None? ==> forall e :: e in VersionEntries(v) ==> !Matches(e, k, s)
  {
    for level := 0 to NUM_LEVELS
      invariant forall l, e :: 0 <= l < level && InFiles(e, v[l]) ==> !Matches(e, k, s)
    {
      assert LevelOk(level, v[level]);
      if level == 0 {
        r := GetLevel0(v[0], k, s);
      } else {
        r := GetSortedLevel(v[level], k, s);
      }
      if r.Some? {
        LevelHit(v, level, k, s, r.value);
        return;
      }
    }
    forall e | e in VersionEntries(v) ensures !Matches(e, k, s) {
      var l :| 0 <= l < |v| && e in FilesEntries(v[l]);
      assert InFiles(e, v[l]);
    }
    return None;
  }

  lemma LevelHit(v: Version, level: nat, k: UserKey, s: SeqNo, hit: Entry)
    requires LevelsOrdered(v) && level < NUM_LEVELS
    requires forall l, e :: 0 <= l < level && InFiles(e, v[l]) ==> !Matches(e, k, s)
    requires Newest(FilesEntries(v[level]), k, s, hit)
    ensures Newest(VersionEntries(v), k, s, hit)
  {
    assert hit in VersionEntries(v);
    forall e | e in VersionEntries(v) && Matches(e, k, s)
      ensures e.key.seqno <= hit.key.seqno
    {
      var l :| 0 <= l < |v| && e in FilesEntries(v[l]);
      if l < level {
        assert InFiles(e, v[l]);
      } else if l > level {
        assert LevelNewer(v, level, l);
      }
    }
  }

  lemma SameNumberSameFile(files: seq<File>, f: File, g: File)
    requires NewestByNumber(files)
    requires f in files && g in files && f.number == g.number
    ensures f == g
  {
    var i :| 0 <= i < |files| && files[i] == f;
    var j :| 0 <= j < |files| && files[j] == g;
    if i < j { assert false; } else if j < i { assert false; }
  }
}
