/** The bytes of a write batch (db/write_batch.cc). */
module WriteBatchRep {
  import opened Dbformat
  import opened Coding

  const HEADER: nat := 12

  datatype Item = PutItem(key: seq<byte>, value: seq<byte>) | DeleteItem(key: seq<byte>)

  datatype Outcome = Fine | TooSmall | BadPut | BadDelete | UnknownTag | WrongCount

  predicate Short(x: Item) { |x.key| < TWO32 && (x.PutItem? ==> |x.value| < TWO32) }

  function ItemBytes(x: Item): (s: seq<byte>)
    ensures |s| > 0
  {
    match x
    case PutItem(k, v) => [1] + (Prefixed(k) + Prefixed(v))
    case DeleteItem(k) => [0] + Prefixed(k)
  }

  function Data(items: seq<Item>): seq<byte> {
    if items == [] then [] else ItemBytes(items[0]) + Data(items[1..])
  }

  /** A sequence number, and how many items there are. */
  function Header(sequence: nat, count: nat): (s: seq<byte>)
    ensures |s| == HEADER
  {
    LittleEndian(sequence, 8) + LittleEndian(count % TWO32, 4)
  }

  function SequenceOf(rep: seq<byte>): nat
    requires |rep| >= HEADER
  {
    FromLittleEndian(rep[..8])
  }

  function CountOf(rep: seq<byte>): nat
    requires |rep| >= HEADER
  {
    FromLittleEndian(rep[8..12])
  }

  // ---- reading -----------------------------------------------------------------------------

  /** One item and what follows it, or what is wrong with it. */
  function ReadItem(s: seq<byte>): (r: (Outcome, Item, seq<byte>))
    requires s != []
    ensures r.0.Fine? ==> |r.2| < |s|
  {
    if s[0] == 1 then
      var k := GetPrefixed(s[1..]);
      if k.None? then (BadPut, DeleteItem([]), [])
      else
        var v := GetPrefixed(k.value.1);
        if v.None? then (BadPut, DeleteItem([]), []) else (Fine, PutItem(k.value.0, v.value.0), v.value.1)
    else if s[0] == 0 then
      var k := GetPrefixed(s[1..]);
      if k.None? then (BadDelete, DeleteItem([]), []) else (Fine, DeleteItem(k.value.0), k.value.1)
    else (UnknownTag, DeleteItem([]), [])
  }

  /** The items that the handler is given, and how the loop ends. */
  function Handed(s: seq<byte>): (seq<Item>, Outcome)
    decreases |s|
  {
    if s == [] then ([], Fine)
    else
      var r := ReadItem(s);
      if !r.0.Fine? then ([], r.0)
      else
        var rest := Handed(r.2);
        ([r.1] + rest.0, rest.1)
  }

  /** WriteBatch::Iterate: items are handed over even when the count turns out wrong. */
  function Iterated(rep: seq<byte>): (seq<Item>, Outcome) {
    if |rep| < HEADER then ([], TooSmall)
    else
      var h := Handed(rep[HEADER..]);
      (h.0, if h.1.Fine? && |h.0| % TWO32 != CountOf(rep) then WrongCount else h.1)
  }

  lemma ItemBack(x: Item, rest: seq<byte>)
    requires Short(x)
    ensures ReadItem(ItemBytes(x) + rest) == (Fine, x, rest)
  {
    hide GetPrefixed, Prefixed;
    var s := ItemBytes(x) + rest;
    match x
    case PutItem(k, v) =>
      assert s[1..] == Prefixed(k) + (Prefixed(v) + rest);
      GetPrefixedUndoesPut(k, Prefixed(v) + rest);
      GetPrefixedUndoesPut(v, rest);
    case DeleteItem(k) =>
      assert s[1..] == Prefixed(k) + rest;
      GetPrefixedUndoesPut(k, rest);
  }

  lemma {:induction false} DataBack(items: seq<Item>)
    requires forall x :: x in items ==> Short(x)
    ensures Handed(Data(items)) == (items, Fine)
  {
    hide ItemBytes, ReadItem, Handed;
    HandedOn([]);
    if items != [] {
      ItemBack(items[0], Data(items[1..]));
      DataBack(items[1..]);
      HandedOn(Data(items));
      assert [items[0]] + items[1..] == items;
    }
  }

  lemma {:induction false} DataJoin(a: seq<Item>, b: seq<Item>)
    ensures Data(a + b) == Data(a) + Data(b)
  {
    hide ItemBytes;
    if a == [] {
      assert a + b == b;
    } else {
      assert (a + b)[1..] == a[1..] + b;
      DataJoin(a[1..], b);
    }
  }

  lemma HeaderBack(sequence: nat, count: nat, data: seq<byte>)
    requires sequence < TWO64
    ensures var rep := Header(sequence, count) + data;
      SequenceOf(rep) == sequence && CountOf(rep) == count % TWO32 && rep[HEADER..] == data
  {
    hide LittleEndian, FromLittleEndian, Pow256;
    var rep := Header(sequence, count) + data;
    Pow256s();
    LittleEndianRoundTrip(sequence, 8);
    LittleEndianRoundTrip(count % TWO32, 4);
    assert rep[..8] == LittleEndian(sequence, 8) && rep[8..12] == LittleEndian(count % TWO32, 4);
  }

  /** What a batch of these items looks like. */
  ghost predicate Holds(rep: seq<byte>, sequence: nat, items: seq<Item>) {
    && sequence < TWO64 && rep == Header(sequence, |items|) + Data(items)
    && forall x :: x in items ==> Short(x)
  }

  /** Iterating over a batch gives back what was put into it. */
  lemma IterateUndoesPut(rep: seq<byte>, sequence: nat, items: seq<Item>)
    requires Holds(rep, sequence, items)
    ensures Iterated(rep) == (items, Fine) && |rep| >= HEADER && SequenceOf(rep) == sequence
  {
    hide Header, Data, Handed, SequenceOf, CountOf;
    HeaderBack(sequence, |items|, Data(items));
    DataBack(items);
  }

  lemma CountAdds(a: nat, b: nat)
    ensures (a % TWO32 + b % TWO32) % TWO32 == (a + b) % TWO32
  {}

  /** The numbers that MemTableInserter gives to the items. */
  function Numbered(items: seq<Item>, first: nat): seq<(nat, Item)> {
    seq(|items|, i requires 0 <= i < |items| => (first + i, items[i]))
  }

  class WriteBatch {
    var rep: seq<byte>
    ghost var sequence: nat
    ghost var items: seq<Item>

    ghost predicate Valid()
      reads this
    {
      Holds(rep, sequence, items)
    }

    /** Clear. */
    constructor ()
      ensures Valid() && items == [] && sequence == 0
    {
      rep := [0, 0, 0, 0, 0, 0, 0, 0, 0, 0, 0, 0];
      sequence, items := 0, [];
      new;
      assert LittleEndian(0, 8) == [0, 0, 0, 0, 0, 0, 0, 0] && LittleEndian(0, 4) == [0, 0, 0, 0] by { ZeroBytes(); }
      assert rep == Header(0, 0) + Data([]);
    }

    method SetCount(n: nat)
      requires |rep| >= HEADER
      modifies this`rep
      ensures rep == old(rep)[..8] + LittleEndian(n % TWO32, 4) + old(rep)[12..]
    {
      rep := rep[..8] + LittleEndian(n % TWO32, 4) + rep[12..];
    }

    method SetSequence(s: nat)
      requires Valid() && s < TWO64
      modifies this
      ensures Valid() && sequence == s && items == old(items)
    {
      hide LittleEndian, Data;
      rep := LittleEndian(s, 8) + rep[8..];
      sequence := s;
      assert rep == Header(s, |items|) + Data(items);
    }

    /** Put and Delete. */
    method Add(x: Item)
      requires Valid() && Short(x)
      modifies this
      ensures Valid() && items == old(items) + [x] && sequence == old(sequence)
    {
      hide LittleEndian, Data, ItemBytes, CountOf, SequenceOf;
      Counted(rep, sequence, items);
      SetCount(CountOf(rep) + 1);
      rep := rep + ItemBytes(x);
      CountAdds(|items|, 1);
      DataJoin(items, [x]);
      OneItem(x);
      assert rep == Header(sequence, |items| + 1) + Data(items + [x]);
      items := items + [x];
    }

    /** WriteBatchInternal::Append, also of a batch to itself. */
    method Append(source: WriteBatch)
      requires Valid() && source.Valid()
      modifies this
      ensures Valid() && items == old(items) + old(source.items) && sequence == old(sequence)
    {
      hide LittleEndian, Data, CountOf, SequenceOf;
      Counted(rep, sequence, items);
      Counted(source.rep, source.sequence, source.items);
      ghost var more := source.items;
      SetCount(CountOf(rep) + CountOf(source.rep));
      rep := rep + source.rep[HEADER..];
      CountAdds(|items|, |more|);
      DataJoin(items, more);
      assert rep == Header(sequence, |items| + |more|) + Data(items + more);
      items := items + more;
    }

    /** WriteBatchInternal::InsertInto: Iterate, with a handler that numbers what it is given. */
    method InsertInto() returns (added: seq<(nat, Item)>, r: Outcome)
      requires |rep| >= HEADER
      ensures added == Numbered(Iterated(rep).0, SequenceOf(rep)) && r == Iterated(rep).1
      ensures Valid() ==> added == Numbered(items, sequence) && r == Fine
    {
      hide Holds, ReadItem, SequenceOf, CountOf, Handed;
      if Holds(rep, sequence, items) { IterateUndoesPut(rep, sequence, items); }
      ghost var all := Handed(rep[HEADER..]);
      var input := rep[HEADER..];
      ghost var given: seq<Item> := [];
      var next := SequenceOf(rep);
      added := [];
      while input != []
        invariant all.0 == given + Handed(input).0 && all.1 == Handed(input).1
        invariant added == Numbered(given, SequenceOf(rep)) && next == SequenceOf(rep) + |given|
        decreases |input|
      {
        HandedOn(input);
        var one := ReadItem(input);
        if !one.0.Fine? { return added, one.0; }
        added := added + [(next, one.1)];
        next := next + 1;
        given := given + [one.1];
        input := one.2;
      }
      HandedOn(input);
      r := if |added| % TWO32 != CountOf(rep) then WrongCount else Fine;
    }
  }

  lemma HandedOn(s: seq<byte>)
    ensures s == [] ==> Handed(s) == ([], Fine)
    ensures s != [] && !ReadItem(s).0.Fine? ==> Handed(s) == ([], ReadItem(s).0)
    ensures s != [] && ReadItem(s).0.Fine? ==> Handed(s) == ([ReadItem(s).1] + Handed(ReadItem(s).2).0, Handed(ReadItem(s).2).1)
  {
    hide ReadItem;
  }

  lemma Counted(rep: seq<byte>, sequence: nat, items: seq<Item>)
    requires Holds(rep, sequence, items)
    ensures |rep| >= HEADER && CountOf(rep) == |items| % TWO32 && rep[..8] == LittleEndian(sequence, 8) && rep[HEADER..] == Data(items)
  {
    hide LittleEndian, Data, CountOf, SequenceOf;
    HeaderBack(sequence, |items|, Data(items));
  }

  lemma OneItem(x: Item)
    ensures Data([x]) == ItemBytes(x)
  {
    hide ItemBytes;
    assert Data([]) == [];
  }

  lemma ZeroBytes()
    ensures LittleEndian(0, 8) == [0, 0, 0, 0, 0, 0, 0, 0] && LittleEndian(0, 4) == [0, 0, 0, 0]
  {
    assert LittleEndian(0, 1) == [0] + LittleEndian(0, 0);
    assert LittleEndian(0, 2) == [0] + LittleEndian(0, 1);
    assert LittleEndian(0, 3) == [0] + LittleEndian(0, 2);
    assert LittleEndian(0, 4) == [0] + LittleEndian(0, 3);
    assert LittleEndian(0, 5) == [0] + LittleEndian(0, 4);
    assert LittleEndian(0, 6) == [0] + LittleEndian(0, 5);
    assert LittleEndian(0, 7) == [0] + LittleEndian(0, 6);
  }
}
