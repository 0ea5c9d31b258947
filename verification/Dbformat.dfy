/** Internal keys and the meaning of a set of entries (db/dbformat.h, db/dbformat.cc).

    User keys are real numbers.  The engine touches a user key only through the
    user comparator, a total order on byte strings; there are countably many byte
    strings, so every such order embeds in the reals.  The bytewise order, which
    the table format does look inside, is modelled on byte strings in Comparator.dfy. */
module Dbformat {

  type UserKey = real
  type byte = b: int | 0 <= b < 256
  type Value = seq<byte>

  // Eight bits stay empty below a sequence number, so it packs with a type into 64.
  const MAX_SEQUENCE: nat := 0xFF_FFFF_FFFF_FFFF

  type SeqNo = s: nat | s <= MAX_SEQUENCE

  datatype Option<+T> = None | Some(value: T)

  datatype ValueType = Deletion | Put

  // kTypeDeletion is 0, kTypeValue is 1.
  function TypeCode(t: ValueType): nat {
    match t
    case Deletion => 0
    case Put => 1
  }

  datatype IKey = IKey(ukey: UserKey, seqno: SeqNo, kind: ValueType) {
    function Tag(): nat { 256 * seqno + TypeCode(kind) }
  }

  /** InternalKeyComparator::Compare: increasing user key, then decreasing tag. */
  function Compare(a: IKey, b: IKey): int {
    if a.ukey < b.ukey then -1
    else if a.ukey > b.ukey then 1
    else if a.Tag() > b.Tag() then -1
    else if a.Tag() < b.Tag() then 1
    else 0
  }

  predicate Less(a: IKey, b: IKey) {
    a.ukey < b.ukey || (a.ukey == b.ukey && a.Tag() > b.Tag())
  }

  // kValueTypeForSeek is the highest type, so this is the first position at which
  // an entry for `k` visible at `s` can stand.
  function SeekKey(k: UserKey, s: SeqNo): IKey { IKey(k, s, Put) }

  datatype Entry = Entry(key: IKey, value: Value)

  predicate Matches(e: Entry, k: UserKey, s: SeqNo) {
    e.key.ukey == k && e.key.seqno <= s
  }

  // No two entries for a user key share a sequence number.
  ghost predicate UniqueSeqs(es: set<Entry>) {
    forall x, y :: x in es && y in es && x.key.ukey == y.key.ukey && x.key.seqno == y.key.seqno ==> x == y
  }

  ghost predicate Newest(es: set<Entry>, k: UserKey, s: SeqNo, e: Entry) {
    && e in es && Matches(e, k, s)
    && forall x :: x in es && Matches(x, k, s) ==> x.key.seqno <= e.key.seqno
  }

  /** The newest entry for `k` no newer than the snapshot `s`. */
  ghost function Visible(es: set<Entry>, k: UserKey, s: SeqNo): Option<Entry> {
    if exists e :: Newest(es, k, s, e) then var e :| Newest(es, k, s, e); Some(e) else None
  }

  function Content(e: Option<Entry>): Option<Value> {
    if e.Some? && e.value.key.kind.Put? then Some(e.value.value) else None
  }

  /** What a read of `k` at `s` must return; a deleted key reads like an absent one. */
  ghost function Read(es: set<Entry>, k: UserKey, s: SeqNo): Option<Value> {
    Content(Visible(es, k, s))
  }

  /** For every user key they share, all of `a` is more recent than all of `b`. */
  ghost predicate Newer(a: set<Entry>, b: set<Entry>) {
    forall x, y :: x in a && y in b && x.key.ukey == y.key.ukey ==> x.key.seqno > y.key.seqno
  }

  ghost predicate Sorted(es: seq<Entry>) {
    forall i, j :: 0 <= i < j < |es| ==> Less(es[i].key, es[j].key)
  }

  ghost function Elements(es: seq<Entry>): set<Entry> { set e | e in es }

  // ---- facts about the order ------------------------------------------------

  lemma CompareIsOrder(a: IKey, b: IKey, c: IKey)
    ensures Compare(a, b) == 0 <==> a == b
    ensures Less(a, b) <==> Compare(a, b) < 0
    ensures Less(a, b) <==> Compare(b, a) > 0
    ensures Less(a, b) && Less(b, c) ==> Less(a, c)
  {}

  /** Entries for one user key stand newest first. */
  lemma OrderIsNewestFirst(x: Entry, y: Entry)
    requires x.key.ukey == y.key.ukey
    ensures x.key.seqno > y.key.seqno ==> Less(x.key, y.key)
    ensures Less(x.key, y.key) ==> x.key.seqno >= y.key.seqno
  {}

  /** Everything at or after the seek key for (k, s) that has user key k is visible
      at s, and nothing before it is. */
  lemma SeekKeySplits(e: Entry, k: UserKey, s: SeqNo)
    ensures e.key.ukey == k ==> (Matches(e, k, s) <==> !Less(e.key, SeekKey(k, s)))
    ensures !Less(e.key, SeekKey(k, s)) ==> e.key.ukey >= k
  {}

  // ---- facts about visibility -----------------------------------------------

  lemma {:induction false} NewestExists(es: set<Entry>, k: UserKey, s: SeqNo, x: Entry) returns (e: Entry)
    requires x in es && Matches(x, k, s)
    ensures Newest(es, k, s, e)
    decreases es
  {
    var rest := es - {x};
    if y :| y in rest && Matches(y, k, s) {
      e := NewestExists(rest, k, s, y);
      if e.key.seqno < x.key.seqno { e := x; }
      assert forall z :: z in es ==> z == x || z in rest;
    } else {
      e := x;
      assert forall z :: z in es ==> z == x || z in rest;
    }
  }

  /** Visible is none exactly when nothing matches, and some entry that is newest. */
  lemma VisibleSpec(es: set<Entry>, k: UserKey, s: SeqNo)
    ensures Visible(es, k, s).None? <==> forall x :: x in es ==> !Matches(x, k, s)
    ensures Visible(es, k, s).Some? ==> Newest(es, k, s, Visible(es, k, s).value)
  {
    if x :| x in es && Matches(x, k, s) {
      var e := NewestExists(es, k, s, x);
    }
  }

  lemma VisibleIs(es: set<Entry>, k: UserKey, s: SeqNo, e: Entry)
    requires UniqueSeqs(es) && Newest(es, k, s, e)
    ensures Visible(es, k, s) == Some(e)
  {
    var d := Visible(es, k, s).value;
    assert Newest(es, k, s, d);
  }
}
