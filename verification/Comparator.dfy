/** Byte strings in their usual order, and keys between two others that are short
    (util/comparator.cc, db/dbformat.cc). */
module Comparator {
  import opened Dbformat

  type Bytes = seq<byte>

  /** memcmp, then length. */
  predicate BytesLess(a: Bytes, b: Bytes) {
    b != [] && (a == [] || a[0] < b[0] || (a[0] == b[0] && BytesLess(a[1..], b[1..])))
  }

  lemma {:induction false} BytesTotal(a: Bytes, b: Bytes)
    ensures BytesLess(a, b) || BytesLess(b, a) || a == b
    ensures !(BytesLess(a, b) && BytesLess(b, a))
  {
    if a != [] && b != [] && a[0] == b[0] {
      BytesTotal(a[1..], b[1..]);
      assert a == [a[0]] + a[1..] && b == [b[0]] + b[1..];
    }
  }

  lemma {:induction false} BytesTransitive(a: Bytes, b: Bytes, c: Bytes)
    requires BytesLess(a, b) && BytesLess(b, c)
    ensures BytesLess(a, c)
  {
    if a != [] && a[0] == b[0] == c[0] { BytesTransitive(a[1..], b[1..], c[1..]); }
  }

  lemma {:induction false} BytesIrreflexive(a: Bytes)
    ensures !BytesLess(a, a)
  {
    if a != [] { BytesIrreflexive(a[1..]); }
  }

  /** The first difference decides. */
  lemma {:induction false} DifferenceDecides(a: Bytes, b: Bytes, d: nat)
    requires d <= |a| && d < |b| && a[..d] == b[..d] && (d == |a| || a[d] < b[d])
    ensures BytesLess(a, b)
  {
    if d > 0 {
      assert a[0] == a[..d][0] == b[..d][0] == b[0];
      assert a[1..][..d - 1] == a[..d][1..] && b[1..][..d - 1] == b[..d][1..];
      DifferenceDecides(a[1..], b[1..], d - 1);
    }
  }

  // ---- bytewise separator and successor --------------------------------------------------

  /** The length of the common prefix. */
  function Common(a: Bytes, b: Bytes): (d: nat)
    ensures d <= |a| && d <= |b|
  {
    if a == [] || b == [] || a[0] != b[0] then 0 else 1 + Common(a[1..], b[1..])
  }

  lemma {:induction false} CommonSpec(a: Bytes, b: Bytes)
    ensures var d := Common(a, b);
      a[..d] == b[..d] && (d < |a| && d < |b| ==> a[d] != b[d])
  {
    if a != [] && b != [] && a[0] == b[0] {
      CommonSpec(a[1..], b[1..]);
      var d := Common(a[1..], b[1..]);
      assert a[..d + 1] == [a[0]] + a[1..][..d] && b[..d + 1] == [b[0]] + b[1..][..d];
    }
  }

  function Separator(start: Bytes, limit: Bytes): Bytes {
    var d := Common(start, limit);
    if d >= |start| || d >= |limit| then start
    else if start[d] < 255 && start[d] + 1 < limit[d] then start[..d] + [start[d] + 1]
    else start
  }

  method FindShortestSeparator(start: Bytes, limit: Bytes) returns (r: Bytes)
    ensures r == Separator(start, limit)
  {
    var min := if |start| < |limit| then |start| else |limit|;
    var diff := 0;
    while diff < min && start[diff] == limit[diff]
      invariant diff <= min && Common(start, limit) == diff + Common(start[diff..], limit[diff..])
    {
      assert start[diff..][1..] == start[diff + 1..] && limit[diff..][1..] == limit[diff + 1..];
      diff := diff + 1;
    }
    r := start;
    if diff < min {
      var b := start[diff];
      if b < 255 && b + 1 < limit[diff] {
        r := start[diff := b + 1];
        r := r[..diff + 1];
        assert r == start[..diff] + [b + 1];
      }
    }
  }

  /** The separator lies in [start, limit), and when it is not `start` it is past it. */
  lemma SeparatorSeparates(start: Bytes, limit: Bytes)
    requires BytesLess(start, limit)
    ensures BytesLess(Separator(start, limit), limit)
    ensures Separator(start, limit) == start || BytesLess(start, Separator(start, limit))
  {
    CommonSpec(start, limit);
    var d, r := Common(start, limit), Separator(start, limit);
    if r != start {
      assert r[..d] == start[..d];
      DifferenceDecides(r, limit, d);
      DifferenceDecides(start, r, d);
    }
  }

  /** Whatever lies in [start, limit) begins with their common prefix and goes on. */
  lemma {:induction false} BetweenIsLonger(start: Bytes, limit: Bytes, r: Bytes)
    requires Common(start, limit) < |start| && !BytesLess(r, start) && BytesLess(r, limit)
    ensures |r| > Common(start, limit)
  {
    if limit != [] && start[0] == limit[0] {
      BytesTotal(start, r);
      BetweenIsLonger(start[1..], limit[1..], r[1..]);
    }
  }

  /** The separator is `start` when the first difference leaves no room between the two bytes;
      otherwise nothing in [start, limit) is shorter. */
  lemma SeparatorIsShortest(start: Bytes, limit: Bytes)
    requires BytesLess(start, limit)
    ensures var d := Common(start, limit);
      if d < |start| && d < |limit| && (limit[d] as int) - (start[d] as int) > 1
      then |Separator(start, limit)| == d + 1
           && forall r :: !BytesLess(r, start) && BytesLess(r, limit) ==> |r| >= |Separator(start, limit)|
      else Separator(start, limit) == start
  {
    var d := Common(start, limit);
    if d < |start| && d < |limit| && (limit[d] as int) - (start[d] as int) > 1 {
      forall r | !BytesLess(r, start) && BytesLess(r, limit) ensures |r| > d { BetweenIsLonger(start, limit, r); }
    }
  }

  function Successor(key: Bytes): Bytes {
    if key == [] then [] else if key[0] != 255 then [key[0] + 1] else [key[0]] + Successor(key[1..])
  }

  method FindShortSuccessor(key: Bytes) returns (r: Bytes)
    ensures r == Successor(key)
  {
    for i := 0 to |key|
      invariant Successor(key) == key[..i] + Successor(key[i..])
    {
      var b := key[i];
      assert key[i..][1..] == key[i + 1..];
      if b != 255 {
        r := key[i := b + 1];
        r := r[..i + 1];
        assert r == key[..i] + [b + 1];
        return;
      }
      assert key[..i + 1] == key[..i] + [b];
    }
    assert key[..|key|] == key;
    return key;
  }

  lemma {:induction false} SuccessorIsLater(key: Bytes)
    ensures Successor(key) == key || BytesLess(key, Successor(key))
  {
    if key != [] && key[0] == 255 {
      SuccessorIsLater(key[1..]);
      assert key == [key[0]] + key[1..];
      assert Successor(key)[1..] == Successor(key[1..]);
    }
  }

  /** Only a key of nothing but 255s stays; otherwise nothing past the key is shorter. */
  lemma {:induction false} SuccessorIsShortest(key: Bytes)
    ensures Successor(key) == key <==> forall i :: 0 <= i < |key| ==> key[i] == 255
    ensures Successor(key) != key ==> forall r :: BytesLess(key, r) ==> |r| >= |Successor(key)|
  {
    if key != [] {
      if key[0] == 255 {
        SuccessorIsShortest(key[1..]);
        var rest := Successor(key[1..]);
        assert Successor(key) == [key[0]] + rest;
        assert key == [key[0]] + key[1..];
        assert Successor(key)[1..] == rest;
        assert forall i :: 0 <= i < |key[1..]| ==> key[1..][i] == key[i + 1];
        assert (forall i :: 0 <= i < |key| ==> key[i] == 255) <==> forall i :: 0 <= i < |key[1..]| ==> key[1..][i] == 255 by {
          forall i | 0 < i < |key| && (forall k :: 0 <= k < |key[1..]| ==> key[1..][k] == 255) ensures key[i] == 255 {
            assert key[1..][i - 1] == key[i];
          }
        }
        forall r | BytesLess(key, r) && Successor(key) != key ensures |r| >= |Successor(key)| {
          assert BytesLess(key[1..], r[1..]);
        }
      } else {
        assert Successor(key)[0] != key[0];
      }
    }
  }

  // ---- internal keys on bytes ----------------------------------------------------------------

  /** An internal key with its user key as bytes. */
  datatype TKey = TKey(user: Bytes, tag: nat)

  // PackSequenceAndType(kMaxSequenceNumber, kValueTypeForSeek): the first of its user key.
  const SEEK_TAG: nat := 256 * MAX_SEQUENCE + 1

  predicate KeyLess(a: TKey, b: TKey) {
    BytesLess(a.user, b.user) || (a.user == b.user && a.tag > b.tag)
  }

  lemma KeyTotal(a: TKey, b: TKey)
    ensures KeyLess(a, b) || KeyLess(b, a) || a == b
    ensures !(KeyLess(a, b) && KeyLess(b, a))
  {
    BytesTotal(a.user, b.user);
    BytesIrreflexive(a.user);
  }

  lemma KeyTransitive(a: TKey, b: TKey, c: TKey)
    requires KeyLess(a, b) && KeyLess(b, c)
    ensures KeyLess(a, c)
  {
    if BytesLess(a.user, b.user) && BytesLess(b.user, c.user) { BytesTransitive(a.user, b.user, c.user); }
  }

  lemma NotLessTransitive(a: TKey, b: TKey, c: TKey)
    ensures !KeyLess(b, a) && KeyLess(b, c) ==> KeyLess(a, c)
    ensures KeyLess(a, b) && !KeyLess(c, b) ==> KeyLess(a, c)
    ensures !KeyLess(b, a) && !KeyLess(c, b) ==> !KeyLess(c, a)
  {
    KeyTotal(a, b);
    KeyTotal(b, c);
    KeyTotal(a, c);
    if KeyLess(a, b) && KeyLess(b, c) { KeyTransitive(a, b, c); }
  }

  /** InternalKeyComparator::FindShortestSeparator. */
  function KeySeparator(start: TKey, limit: TKey): TKey {
    var tmp := Separator(start.user, limit.user);
    if |tmp| < |start.user| && BytesLess(start.user, tmp) then TKey(tmp, SEEK_TAG) else start
  }

  function KeySuccessor(key: TKey): TKey {
    var tmp := Successor(key.user);
    if |tmp| < |key.user| && BytesLess(key.user, tmp) then TKey(tmp, SEEK_TAG) else key
  }

  /** The separator lies in [start, limit); when it is not `start` itself, its user key is
      strictly between the two user keys. */
  lemma KeySeparatorSeparates(start: TKey, limit: TKey)
    requires KeyLess(start, limit)
    ensures var r := KeySeparator(start, limit);
      && KeyLess(r, limit) && !KeyLess(r, start)
      && (r == start || (BytesLess(start.user, r.user) && BytesLess(r.user, limit.user)))
  {
    var r := KeySeparator(start, limit);
    KeyTotal(start, start);
    if start.user == limit.user {
      BytesIrreflexive(start.user);
      SeparatorOfEqual(start.user);
    } else {
      SeparatorSeparates(start.user, limit.user);
      KeyTotal(start, r);
    }
  }

  lemma {:induction false} SeparatorOfEqual(a: Bytes)
    ensures Separator(a, a) == a
  {
    CommonSpec(a, a);
  }

  lemma KeySuccessorIsLater(key: TKey)
    ensures !KeyLess(KeySuccessor(key), key)
    ensures KeySuccessor(key) == key || BytesLess(key.user, KeySuccessor(key).user)
  {
    SuccessorIsLater(key.user);
    KeyTotal(key, KeySuccessor(key));
  }
}
