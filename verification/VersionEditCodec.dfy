/** The bytes of a manifest record (db/version_edit.cc).  Keys are byte strings here; the
    meaning of an edit is in VersionBuilder.dfy. */
module VersionEditCodec {
  import opened Dbformat
  import opened Coding

  const LEVELS: nat := 7

  datatype Meta = Meta(number: nat, size: nat, smallest: seq<byte>, largest: seq<byte>)

  /** `deleted` is the set in its iteration order: strictly increasing. */
  datatype Edit = Edit(comparator: Option<seq<byte>>, logNumber: Option<nat>, prevLogNumber: Option<nat>,
                       nextFileNumber: Option<nat>, lastSequence: Option<nat>,
                       pointers: seq<(nat, seq<byte>)>, deleted: seq<(nat, nat)>, newFiles: seq<(nat, Meta)>)

  /** Clear. */
  const EMPTY := Edit(None, None, None, None, None, [], [], [])

  predicate Before(a: (nat, nat), b: (nat, nat)) { a.0 < b.0 || (a.0 == b.0 && a.1 < b.1) }

  ghost predicate Increasing(s: seq<(nat, nat)>) { forall i, j :: 0 <= i < j < |s| ==> Before(s[i], s[j]) }

  /** std::set::insert. */
  function Insert(s: seq<(nat, nat)>, x: (nat, nat)): seq<(nat, nat)> {
    if s == [] || Before(x, s[0]) then [x] + s
    else if s[0] == x then s
    else [s[0]] + Insert(s[1..], x)
  }

  lemma {:induction false} InsertLast(s: seq<(nat, nat)>, x: (nat, nat))
    requires forall i :: 0 <= i < |s| ==> Before(s[i], x)
    ensures Insert(s, x) == s + [x]
  {
    if s != [] { InsertLast(s[1..], x); }
  }

  // ---- one field -----------------------------------------------------------------------

  datatype Item =
    | Comparator(name: seq<byte>)
    | LogNumber(n: nat)
    | PrevLogNumber(n: nat)
    | NextFileNumber(n: nat)
    | LastSequence(n: nat)
    | CompactPointer(level: nat, key: seq<byte>)
    | DeletedFile(level: nat, number: nat)
    | NewFile(level: nat, meta: Meta)

  predicate ShortString(s: seq<byte>) { |s| < TWO32 }

  predicate FitsItem(x: Item) {
    match x
    case Comparator(name) => ShortString(name)
    case LogNumber(n) => n < TWO64
    case PrevLogNumber(n) => n < TWO64
    case NextFileNumber(n) => n < TWO64
    case LastSequence(n) => n < TWO64
    case CompactPointer(level, key) => level < LEVELS && ShortString(key)
    case DeletedFile(level, number) => level < LEVELS && number < TWO64
    case NewFile(level, m) =>
      level < LEVELS && m.number < TWO64 && m.size < TWO64 && ShortString(m.smallest) && ShortString(m.largest)
  }

  // The numbers on disk; 8 is not used.
  function Tag(x: Item): nat {
    match x
    case Comparator(_) => 1
    case LogNumber(_) => 2
    case NextFileNumber(_) => 3
    case LastSequence(_) => 4
    case CompactPointer(_, _) => 5
    case DeletedFile(_, _) => 6
    case NewFile(_, _) => 7
    case PrevLogNumber(_) => 9
  }

  function Payload(x: Item): seq<byte> {
    match x
    case Comparator(name) => Prefixed(name)
    case LogNumber(n) => Varint(n)
    case PrevLogNumber(n) => Varint(n)
    case NextFileNumber(n) => Varint(n)
    case LastSequence(n) => Varint(n)
    case CompactPointer(level, key) => Varint(level) + Prefixed(key)
    case DeletedFile(level, number) => Varint(level) + Varint(number)
    case NewFile(level, m) =>
      Varint(level) + (Varint(m.number) + (Varint(m.size) + (Prefixed(m.smallest) + Prefixed(m.largest))))
  }

  function Bytes(x: Item): seq<byte> { Varint(Tag(x)) + Payload(x) }

  /** GetLevel. */
  function GetLevel(s: seq<byte>): (r: Option<(nat, seq<byte>)>)
    ensures r.Some? ==> |r.value.1| < |s|
  {
    var r := GetVarint32(s);
    if r.None? || r.value.0 >= LEVELS then None else r
  }

  function ReadPointer(s: seq<byte>): (r: Option<(Item, seq<byte>)>)
    ensures r.Some? ==> |r.value.1| <= |s|
  {
    var l := GetLevel(s);
    if l.None? then None
    else
      var k := GetPrefixed(l.value.1);
      if k.None? then None else Some((CompactPointer(l.value.0, k.value.0), k.value.1))
  }

  function ReadDeleted(s: seq<byte>): (r: Option<(Item, seq<byte>)>)
    ensures r.Some? ==> |r.value.1| <= |s|
  {
    var l := GetLevel(s);
    if l.None? then None
    else
      var n := GetVarint64(l.value.1);
      if n.None? then None else Some((DeletedFile(l.value.0, n.value.0), n.value.1))
  }

  function ReadNewFile(s: seq<byte>): (r: Option<(Item, seq<byte>)>)
    ensures r.Some? ==> |r.value.1| <= |s|
  {
    var l := GetLevel(s);
    if l.None? then None
    else
      var n := GetVarint64(l.value.1);
      if n.None? then None
      else
        var z := GetVarint64(n.value.1);
        if z.None? then None
        else
          var a := GetPrefixed(z.value.1);
          if a.None? then None
          else
            var b := GetPrefixed(a.value.1);
            if b.None? then None
            else Some((NewFile(l.value.0, Meta(n.value.0, z.value.0, a.value.0, b.value.0)), b.value.1))
  }

  /** What follows a tag; none when it is cut short or the tag is unknown. */
  function ReadPayload(tag: nat, s: seq<byte>): (r: Option<(Item, seq<byte>)>)
    ensures r.Some? ==> |r.value.1| <= |s|
  {
    if tag == 1 then
      var r := GetPrefixed(s);
      if r.None? then None else Some((Comparator(r.value.0), r.value.1))
    else if tag == 2 || tag == 3 || tag == 4 || tag == 9 then
      var r := GetVarint64(s);
      if r.None? then None
      else Some((if tag == 2 then LogNumber(r.value.0) else if tag == 3 then NextFileNumber(r.value.0)
                 else if tag == 4 then LastSequence(r.value.0) else PrevLogNumber(r.value.0), r.value.1))
    else if tag == 5 then ReadPointer(s)
    else if tag == 6 then ReadDeleted(s)
    else if tag == 7 then ReadNewFile(s)
    else None
  }

  function Apply(e: Edit, x: Item): Edit {
    match x
    case Comparator(name) => e.(comparator := Some(name))
    case LogNumber(n) => e.(logNumber := Some(n))
    case PrevLogNumber(n) => e.(prevLogNumber := Some(n))
    case NextFileNumber(n) => e.(nextFileNumber := Some(n))
    case LastSequence(n) => e.(lastSequence := Some(n))
    case CompactPointer(level, key) => e.(pointers := e.pointers + [(level, key)])
    case DeletedFile(level, number) => e.(deleted := Insert(e.deleted, (level, number)))
    case NewFile(level, m) => e.(newFiles := e.newFiles + [(level, m)])
  }

  /** What DecodeFrom makes of the rest of the input; none is a Corruption status. */
  function Parsed(s: seq<byte>, e: Edit): Option<Edit>
    decreases |s|
  {
    var tag := GetVarint32(s);
    if tag.None? then if s == [] then Some(e) else None
    else
      var x := ReadPayload(tag.value.0, tag.value.1);
      if x.None? then None else Parsed(x.value.1, Apply(e, x.value.0))
  }

  method DecodeFrom(src: seq<byte>) returns (r: Option<Edit>)
    ensures r == Parsed(src, EMPTY)
  {
    hide GetVarint32, ReadPayload;
    var input, e := src, EMPTY;
    while true
      invariant Parsed(input, e) == Parsed(src, EMPTY)
      decreases |input|
    {
      var tag := GetVarint32(input);
      if tag.None? { break; }
      var x := ReadPayload(tag.value.0, tag.value.1);
      if x.None? { return None; }
      input, e := x.value.1, Apply(e, x.value.0);
    }
    return if input == [] then Some(e) else None;
  }

  // ---- reading back one field -----------------------------------------------------------

  lemma GetLevelUndoesPut(level: nat, rest: seq<byte>)
    requires level < LEVELS
    ensures GetLevel(Varint(level) + rest) == Some((level, rest))
  {
    hide Varint, GetVarint32;
    Get32UndoesPut(level, rest);
  }

  lemma PointerRoundTrip(level: nat, key: seq<byte>, rest: seq<byte>)
    requires FitsItem(CompactPointer(level, key))
    ensures ReadPointer(Payload(CompactPointer(level, key)) + rest) == Some((CompactPointer(level, key), rest))
  {
    hide Varint, GetLevel, GetPrefixed, Prefixed;
    assert Payload(CompactPointer(level, key)) + rest == Varint(level) + (Prefixed(key) + rest);
    GetLevelUndoesPut(level, Prefixed(key) + rest);
    GetPrefixedUndoesPut(key, rest);
  }

  lemma DeletedRoundTrip(level: nat, number: nat, rest: seq<byte>)
    requires FitsItem(DeletedFile(level, number))
    ensures ReadDeleted(Payload(DeletedFile(level, number)) + rest) == Some((DeletedFile(level, number), rest))
  {
    hide Varint, GetLevel, GetVarint64;
    assert Payload(DeletedFile(level, number)) + rest == Varint(level) + (Varint(number) + rest);
    GetLevelUndoesPut(level, Varint(number) + rest);
    Get64UndoesPut(number, rest);
  }

  lemma NewFileRoundTrip(level: nat, m: Meta, rest: seq<byte>)
    requires FitsItem(NewFile(level, m))
    ensures ReadNewFile(Payload(NewFile(level, m)) + rest) == Some((NewFile(level, m), rest))
  {
    hide Varint, GetLevel, GetVarint64, GetPrefixed, Prefixed;
    var s3 := Prefixed(m.largest) + rest;
    var s2 := Prefixed(m.smallest) + s3;
    var s1 := Varint(m.size) + s2;
    var s0 := Varint(m.number) + s1;
    assert Payload(NewFile(level, m)) + rest == Varint(level) + s0;
    GetLevelUndoesPut(level, s0);
    Get64UndoesPut(m.number, s1);
    Get64UndoesPut(m.size, s2);
    GetPrefixedUndoesPut(m.smallest, s3);
    GetPrefixedUndoesPut(m.largest, rest);
  }

  lemma PayloadRoundTrip(x: Item, rest: seq<byte>)
    requires FitsItem(x)
    ensures ReadPayload(Tag(x), Payload(x) + rest) == Some((x, rest))
  {
    hide Varint, GetVarint64, GetPrefixed, Prefixed, ReadPointer, ReadDeleted, ReadNewFile;
    match x
    case Comparator(name) => GetPrefixedUndoesPut(name, rest);
    case LogNumber(n) => Get64UndoesPut(n, rest);
    case PrevLogNumber(n) => Get64UndoesPut(n, rest);
    case NextFileNumber(n) => Get64UndoesPut(n, rest);
    case LastSequence(n) => Get64UndoesPut(n, rest);
    case CompactPointer(level, key) => PointerRoundTrip(level, key, rest);
    case DeletedFile(level, number) => DeletedRoundTrip(level, number, rest);
    case NewFile(level, m) => NewFileRoundTrip(level, m, rest);
  }

  lemma ParseOne(x: Item, rest: seq<byte>, e: Edit)
    requires FitsItem(x)
    ensures Parsed(Bytes(x) + rest, e) == Parsed(rest, Apply(e, x))
  {
    hide Varint, GetVarint32, ReadPayload, Payload, Apply;
    assert Bytes(x) + rest == Varint(Tag(x)) + (Payload(x) + rest);
    Get32UndoesPut(Tag(x), Payload(x) + rest);
    PayloadRoundTrip(x, rest);
  }

  // ---- the whole edit ---------------------------------------------------------------------

  function Concat(items: seq<Item>): seq<byte> {
    if items == [] then [] else Bytes(items[0]) + Concat(items[1..])
  }

  function ApplyAll(e: Edit, items: seq<Item>): Edit
    decreases |items|
  {
    if items == [] then e else ApplyAll(Apply(e, items[0]), items[1..])
  }

  lemma {:induction false} ParseAll(items: seq<Item>, e: Edit)
    requires forall x :: x in items ==> FitsItem(x)
    ensures Parsed(Concat(items), e) == Some(ApplyAll(e, items))
    decreases |items|
  {
    hide Bytes, Apply;
    if items == [] {
      NothingToParse(e);
    } else {
      assert items[0] in items;
      ParseOne(items[0], Concat(items[1..]), e);
      ParseAll(items[1..], Apply(e, items[0]));
    }
  }

  lemma NothingToParse(e: Edit)
    ensures Parsed([], e) == Some(e)
  {
    assert ReadVarint([], 5) == None;
  }

  function One(o: Option<nat>, make: nat -> Item): seq<Item> { if o.Some? then [make(o.value)] else [] }

  function Pointers(p: seq<(nat, seq<byte>)>): seq<Item> {
    seq(|p|, i requires 0 <= i < |p| => CompactPointer(p[i].0, p[i].1))
  }

  function Deletions(d: seq<(nat, nat)>): seq<Item> {
    seq(|d|, i requires 0 <= i < |d| => DeletedFile(d[i].0, d[i].1))
  }

  function Additions(n: seq<(nat, Meta)>): seq<Item> {
    seq(|n|, i requires 0 <= i < |n| => NewFile(n[i].0, n[i].1))
  }

  function Header(e: Edit): seq<Item> {
    (if e.comparator.Some? then [Comparator(e.comparator.value)] else []) + One(e.logNumber, (n: nat) => LogNumber(n))
    + One(e.prevLogNumber, (n: nat) => PrevLogNumber(n)) + One(e.nextFileNumber, (n: nat) => NextFileNumber(n))
    + One(e.lastSequence, (n: nat) => LastSequence(n))
  }

  /** The fields in the order in which EncodeTo writes them. */
  function Items(e: Edit): seq<Item> { Header(e) + (Pointers(e.pointers) + (Deletions(e.deleted) + Additions(e.newFiles))) }

  /** What an edit may hold: 64-bit numbers, strings whose length fits 32 bits, levels that
      exist, and a set of deleted files. */
  ghost predicate Fits(e: Edit) {
    Increasing(e.deleted) && forall x :: x in Items(e) ==> FitsItem(x)
  }

  lemma {:induction false} ApplyConcat(e: Edit, a: seq<Item>, b: seq<Item>)
    ensures ApplyAll(e, a + b) == ApplyAll(ApplyAll(e, a), b)
    decreases |a|
  {
    hide Apply;
    if a == [] {
      assert a + b == b;
    } else {
      assert (a + b)[1..] == a[1..] + b;
      ApplyConcat(Apply(e, a[0]), a[1..], b);
    }
  }

  lemma {:induction false} ApplyPointers(e: Edit, p: seq<(nat, seq<byte>)>)
    ensures ApplyAll(e, Pointers(p)) == e.(pointers := e.pointers + p)
    decreases |p|
  {
    if p == [] {
      assert e.pointers + p == e.pointers;
    } else {
      assert Pointers(p)[1..] == Pointers(p[1..]);
      ApplyPointers(Apply(e, Pointers(p)[0]), p[1..]);
      assert (e.pointers + [p[0]]) + p[1..] == e.pointers + p;
    }
  }

  lemma {:induction false} ApplyDeletions(e: Edit, d: seq<(nat, nat)>)
    requires Increasing(e.deleted + d)
    ensures ApplyAll(e, Deletions(d)) == e.(deleted := e.deleted + d)
    decreases |d|
  {
    if d == [] {
      assert e.deleted + d == e.deleted;
    } else {
      assert Deletions(d)[1..] == Deletions(d[1..]);
      var all := e.deleted + d;
      forall i | 0 <= i < |e.deleted| ensures Before(e.deleted[i], d[0]) {
        assert Before(all[i], all[|e.deleted|]);
      }
      InsertLast(e.deleted, d[0]);
      assert (e.deleted + [d[0]]) + d[1..] == all;
      ApplyDeletions(Apply(e, Deletions(d)[0]), d[1..]);
    }
  }

  lemma {:induction false} ApplyAdditions(e: Edit, n: seq<(nat, Meta)>)
    ensures ApplyAll(e, Additions(n)) == e.(newFiles := e.newFiles + n)
    decreases |n|
  {
    if n == [] {
      assert e.newFiles + n == e.newFiles;
    } else {
      assert Additions(n)[1..] == Additions(n[1..]);
      ApplyAdditions(Apply(e, Additions(n)[0]), n[1..]);
      assert (e.newFiles + [n[0]]) + n[1..] == e.newFiles + n;
    }
  }

  lemma ApplyOne(e: Edit, x: Item)
    ensures ApplyAll(e, [x]) == Apply(e, x) && ApplyAll(e, []) == e
  {
    assert [x][1..] == [];
    assert ApplyAll(Apply(e, x), []) == Apply(e, x);
  }

  lemma ApplyHeader(e: Edit)
    ensures ApplyAll(EMPTY, Header(e)) == e.(pointers := [], deleted := [], newFiles := [])
  {
    hide ApplyAll;
    var a := if e.comparator.Some? then [Comparator(e.comparator.value)] else [];
    var b, c := One(e.logNumber, (n: nat) => LogNumber(n)), One(e.prevLogNumber, (n: nat) => PrevLogNumber(n));
    var d, f := One(e.nextFileNumber, (n: nat) => NextFileNumber(n)), One(e.lastSequence, (n: nat) => LastSequence(n));
    var e1 := EMPTY.(comparator := e.comparator);
    var e2 := e1.(logNumber := e.logNumber);
    var e3 := e2.(prevLogNumber := e.prevLogNumber);
    var e4 := e3.(nextFileNumber := e.nextFileNumber);
    if a != [] { ApplyOne(EMPTY, a[0]); } else { ApplyOne(EMPTY, LogNumber(0)); }
    if b != [] { ApplyOne(e1, b[0]); } else { ApplyOne(e1, LogNumber(0)); }
    if c != [] { ApplyOne(e2, c[0]); } else { ApplyOne(e2, LogNumber(0)); }
    if d != [] { ApplyOne(e3, d[0]); } else { ApplyOne(e3, LogNumber(0)); }
    if f != [] { ApplyOne(e4, f[0]); } else { ApplyOne(e4, LogNumber(0)); }
    ApplyConcat(EMPTY, a, b);
    ApplyConcat(EMPTY, a + b, c);
    ApplyConcat(EMPTY, a + b + c, d);
    ApplyConcat(EMPTY, a + b + c + d, f);
  }

  /** DecodeFrom undoes EncodeTo. */
  lemma DecodeUndoesEncode(e: Edit)
    requires Fits(e)
    ensures Parsed(Concat(Items(e)), EMPTY) == Some(e)
  {
    hide Concat, Parsed, ApplyAll, Header, Pointers, Deletions, Additions, FitsItem;
    ParseAll(Items(e), EMPTY);
    ApplyHeader(e);
    var p, d, n := Pointers(e.pointers), Deletions(e.deleted), Additions(e.newFiles);
    ApplyConcat(EMPTY, Header(e), p + (d + n));
    var e0 := e.(pointers := [], deleted := [], newFiles := []);
    ApplyConcat(e0, p, d + n);
    ApplyPointers(e0, e.pointers);
    assert [] + e.pointers == e.pointers;
    var e1 := e0.(pointers := e.pointers);
    ApplyConcat(e1, d, n);
    assert [] + e.deleted == e.deleted && [] + e.newFiles == e.newFiles;
    ApplyDeletions(e1, e.deleted);
    ApplyAdditions(e1.(deleted := e.deleted), e.newFiles);
  }

  // ---- EncodeTo -----------------------------------------------------------------------------

  lemma {:induction false} ConcatJoin(a: seq<Item>, b: seq<Item>)
    ensures Concat(a + b) == Concat(a) + Concat(b)
    decreases |a|
  {
    hide Bytes;
    if a == [] {
      assert a + b == b;
    } else {
      assert (a + b)[1..] == a[1..] + b;
      ConcatJoin(a[1..], b);
    }
  }

  lemma ConcatOne(x: Item)
    ensures Concat([x]) == Bytes(x) && Concat([]) == []
  {
    hide Bytes;
    assert [x][1..] == [];
    assert Bytes(x) + [] == Bytes(x);
  }

  method PutPrefixed(dst: seq<byte>, s: seq<byte>) returns (r: seq<byte>)
    requires ShortString(s)
    ensures r == dst + Prefixed(s)
  {
    hide Varint;
    r := PutVarint32(dst, |s|);
    r := r + s;
  }

  method PutItem(dst: seq<byte>, x: Item) returns (r: seq<byte>)
    requires FitsItem(x)
    ensures r == dst + Bytes(x)
  {
    hide Varint, Prefixed;
    r := PutVarint32(dst, Tag(x));
    match x {
      case Comparator(name) => r := PutPrefixed(r, name);
      case LogNumber(n) => r := PutVarint64(r, n);
      case PrevLogNumber(n) => r := PutVarint64(r, n);
      case NextFileNumber(n) => r := PutVarint64(r, n);
      case LastSequence(n) => r := PutVarint64(r, n);
      case CompactPointer(level, key) =>
        r := PutVarint32(r, level);
        r := PutPrefixed(r, key);
      case DeletedFile(level, number) =>
        r := PutVarint32(r, level);
        r := PutVarint64(r, number);
      case NewFile(level, m) =>
        r := PutVarint32(r, level);
        r := PutVarint64(r, m.number);
        r := PutVarint64(r, m.size);
        r := PutPrefixed(r, m.smallest);
        r := PutPrefixed(r, m.largest);
    }
  }

  /** One of EncodeTo's loops: fields of one kind, after those already written. */
  method PutItems(dst: seq<byte>, ghost start: seq<byte>, ghost done: seq<Item>, items: seq<Item>) returns (r: seq<byte>)
    requires dst == start + Concat(done) && forall x :: x in items ==> FitsItem(x)
    ensures r == start + Concat(done + items)
  {
    hide Concat, Bytes, FitsItem;
    r := dst;
    assert done + items[..0] == done;
    for i := 0 to |items|
      invariant r == start + Concat(done + items[..i])
    {
      assert items[i] in items && done + items[..i + 1] == (done + items[..i]) + [items[i]];
      ConcatJoin(done + items[..i], [items[i]]);
      ConcatOne(items[i]);
      r := PutItem(r, items[i]);
    }
    assert items[..|items|] == items;
  }

  method EncodeTo(dst: seq<byte>, e: Edit) returns (r: seq<byte>)
    requires Fits(e)
    ensures r == dst + Concat(Items(e))
  {
    hide Concat, FitsItem, Header, Pointers, Deletions, Additions;
    var h, p, d, n := Header(e), Pointers(e.pointers), Deletions(e.deleted), Additions(e.newFiles);
    ItemsFit(e);
    ConcatOne(LogNumber(0));
    r := PutItems(dst, dst, [], h);
    assert [] + h == h;
    r := PutItems(r, dst, h, p);
    r := PutItems(r, dst, h + p, d);
    r := PutItems(r, dst, h + p + d, n);
    assert h + p + d + n == Items(e);
  }

  lemma ItemsFit(e: Edit)
    requires Fits(e)
    ensures forall x :: x in Header(e) || x in Pointers(e.pointers) || x in Deletions(e.deleted) || x in Additions(e.newFiles) ==>
              FitsItem(x)
  {}

  /** The record that EncodeTo writes is decoded to the same edit. */
  method EncodeThenDecode(e: Edit) returns (r: Option<Edit>)
    requires Fits(e)
    ensures r == Some(e)
  {
    var record := EncodeTo([], e);
    assert record == Concat(Items(e));
    DecodeUndoesEncode(e);
    r := DecodeFrom(record);
  }
}
