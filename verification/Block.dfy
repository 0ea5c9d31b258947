/** Blocks of prefix-compressed entries with restart points (table/block_builder.cc,
    table/block.cc).  Keys are byte strings in any strict total order. */
module Block {
  import opened Dbformat
  import opened Coding

  type Key = seq<byte>

  datatype KV = KV(key: Key, value: seq<byte>)

  type Order = (Key, Key) -> bool

  ghost predicate StrictOrder(less: Order) {
    && (forall a, b :: less(a, b) ==> !less(b, a))
    && (forall a, b :: less(a, b) || less(b, a) || a == b)
    && forall a, b, c :: less(a, b) && less(b, c) ==> less(a, c)
  }

  ghost predicate InOrder(less: Order, entries: seq<KV>) {
    forall i, j :: 0 <= i < j < |entries| ==> less(entries[i].key, entries[j].key)
  }

  // ---- the layout ------------------------------------------------------------------------

  function EntryBytes(shared: nat, e: KV): seq<byte>
    requires shared <= |e.key|
  {
    Varint(shared) + (Varint(|e.key| - shared) + (Varint(|e.value|) + (e.key[shared..] + e.value)))
  }

  ghost predicate EntryAt(buf: seq<byte>, off: nat, next: nat, shared: nat, e: KV) {
    shared <= |e.key| && off <= next <= |buf| && buf[off..next] == EntryBytes(shared, e)
  }

  /** What a key takes over from the one before it is a common prefix. */
  ghost predicate Shares(entries: seq<KV>, shares: seq<nat>, i: nat)
    requires i < |entries| && |shares| == |entries|
  {
    && shares[i] <= |entries[i].key|
    && (if i == 0 then shares[i] == 0
        else shares[i] <= |entries[i - 1].key| && entries[i - 1].key[..shares[i]] == entries[i].key[..shares[i]])
  }

  /** `offs[i]` is where entry i starts, `offs[n]` the end; `rs` are the restart entries. */
  ghost predicate Laid(buf: seq<byte>, entries: seq<KV>, offs: seq<nat>, shares: seq<nat>, rs: seq<nat>) {
    && |offs| == |entries| + 1 && |shares| == |entries| && offs[0] == 0 && offs[|entries|] == |buf|
    && (forall i :: 0 <= i < |entries| ==> EntryAt(buf, offs[i], offs[i + 1], shares[i], entries[i]))
    && (forall i :: 0 <= i < |entries| ==> Shares(entries, shares, i))
    && rs != [] && rs[0] == 0
    && (forall j, k :: 0 <= j < k < |rs| ==> rs[j] < rs[k])
    && (forall j :: 0 <= j < |rs| && (j > 0 || entries != []) ==> rs[j] < |entries| && shares[rs[j]] == 0)
  }

  lemma EntryBytesLength(shared: nat, e: KV)
    requires shared <= |e.key|
    ensures |EntryBytes(shared, e)| >= 3 + |e.key| - shared + |e.value|
  {
    assert |Varint(shared)| > 0 && |Varint(|e.key| - shared)| > 0 && |Varint(|e.value|)| > 0;
  }

  // ---- BlockBuilder ------------------------------------------------------------------------

  function Points(offs: seq<nat>, rs: seq<nat>): seq<nat>
    requires forall j :: 0 <= j < |rs| ==> rs[j] < |offs|
  {
    seq(|rs|, j requires 0 <= j < |rs| => offs[rs[j]])
  }

  /** Restart points are 32 bits wide. */
  function Fixed32s(ns: seq<nat>): (s: seq<byte>)
    ensures |s| == 4 * |ns|
  {
    if ns == [] then [] else Fixed32s(ns[..|ns| - 1]) + Fixed32(ns[|ns| - 1] % TWO32)
  }

  lemma {:induction false} Fixed32At(ns: seq<nat>, j: nat)
    requires j < |ns|
    ensures Fixed32s(ns)[4 * j..4 * j + 4] == Fixed32(ns[j] % TWO32)
  {
    hide Fixed32;
    if j < |ns| - 1 {
      Fixed32At(ns[..|ns| - 1], j);
      assert Fixed32s(ns)[4 * j..4 * j + 4] == Fixed32s(ns[..|ns| - 1])[4 * j..4 * j + 4];
    }
  }

  /** The length of the longest common prefix. */
  function Common(a: Key, b: Key): (n: nat)
    ensures n <= |a| && n <= |b| && a[..n] == b[..n]
  {
    if a == [] || b == [] || a[0] != b[0] then 0
    else
      assert forall m: nat :: m <= |a[1..]| && m <= |b[1..]| && a[1..][..m] == b[1..][..m] ==> a[..m + 1] == b[..m + 1] by {
        forall m: nat | m <= |a[1..]| && m <= |b[1..]| && a[1..][..m] == b[1..][..m] ensures a[..m + 1] == b[..m + 1] {
          assert a[..m + 1] == [a[0]] + a[1..][..m] && b[..m + 1] == [b[0]] + b[1..][..m];
        }
      }
      1 + Common(a[1..], b[1..])
  }

  /** They agree on `n` bytes and no further. */
  predicate LongestCommon(a: Key, b: Key, n: nat) {
    n <= |a| && n <= |b| && a[..n] == b[..n] && (n < |a| && n < |b| ==> a[n] != b[n])
  }

  lemma {:induction false} CommonIs(a: Key, b: Key, n: nat)
    requires LongestCommon(a, b, n)
    ensures Common(a, b) == n
    decreases n
  {
    if n > 0 {
      assert a[0] == a[..n][0] && b[0] == b[..n][0];
      assert a[1..][..n - 1] == a[..n][1..] && b[1..][..n - 1] == b[..n][1..];
      CommonIs(a[1..], b[1..], n - 1);
    }
  }

  method CommonPrefix(a: Key, b: Key) returns (n: nat)
    ensures n == Common(a, b) && LongestCommon(a, b, n)
  {
    n := 0;
    while n < |a| && n < |b| && a[n] == b[n]
      invariant n <= |a| && n <= |b| && a[..n] == b[..n]
    {
      n := n + 1;
    }
    CommonIs(a, b, n);
  }

  // ---- what the builder is to write ----------------------------------------------------------

  /** Every `interval`th key is whole; the others leave out what they share with the one before. */
  function SharedBefore(interval: nat, kvs: seq<KV>, i: nat): (n: nat)
    requires interval >= 1 && i < |kvs|
    ensures n <= |kvs[i].key|
  {
    if i % interval == 0 then 0 else Common(kvs[i - 1].key, kvs[i].key)
  }

  function Packed(interval: nat, kvs: seq<KV>): seq<byte>
    requires interval >= 1
  {
    if kvs == [] then []
    else
      var n := |kvs| - 1;
      Packed(interval, kvs[..n]) + EntryBytes(SharedBefore(interval, kvs, n), kvs[n])
  }

  function RestartsOf(interval: nat, kvs: seq<KV>): seq<nat>
    requires interval >= 1
  {
    if |kvs| <= 1 then [0]
    else
      var n := |kvs| - 1;
      RestartsOf(interval, kvs[..n]) + if n % interval == 0 then [|Packed(interval, kvs[..n])|] else []
  }

  /** The finished block of these entries. */
  function Built(interval: nat, kvs: seq<KV>): seq<byte>
    requires interval >= 1
  {
    BlockBytes(Packed(interval, kvs), RestartsOf(interval, kvs))
  }

  lemma PackedOn(interval: nat, kvs: seq<KV>, e: KV)
    requires interval >= 1
    ensures var n := |kvs|;
      var shared := if n % interval == 0 then 0 else Common(kvs[n - 1].key, e.key);
      && shared <= |e.key|
      && Packed(interval, kvs + [e]) == Packed(interval, kvs) + EntryBytes(shared, e)
      && (n > 0 ==> RestartsOf(interval, kvs + [e]) == RestartsOf(interval, kvs) + if n % interval == 0 then [|Packed(interval, kvs)|] else [])
      && (n == 0 ==> RestartsOf(interval, kvs + [e]) == [0] == RestartsOf(interval, kvs))
  {
    hide EntryBytes;
    assert (kvs + [e])[..|kvs|] == kvs;
  }

  /** The counter comes round with the number of entries. */
  lemma CounterOn(n: nat, interval: nat)
    requires n > 0 && interval >= 1
    ensures (n - 1) % interval + 1 >= interval ==> n % interval == 0
    ensures (n - 1) % interval + 1 < interval ==> n % interval == (n - 1) % interval + 1
  {
    var q, r := (n - 1) / interval, (n - 1) % interval;
    assert n - 1 == q * interval + r;
    if r + 1 < interval {
      Remainder(n, q, interval, r + 1);
    } else {
      assert n == (q + 1) * interval;
      Remainder(n, q + 1, interval, 0);
    }
  }

  lemma Remainder(a: nat, q: nat, m: nat, r: nat)
    requires a == q * m + r && r < m
    ensures a % m == r
  {
    var k := a / m - q;
    assert a == (a / m) * m + a % m;
    assert (a / m) * m - q * m == k * m;
    assert k >= 1 ==> k * m >= m;
    assert k <= -1 ==> k * m <= 0 - m;
  }

  lemma EntryStays(buf: seq<byte>, more: seq<byte>, off: nat, next: nat, shared: nat, e: KV)
    requires EntryAt(buf, off, next, shared, e)
    ensures EntryAt(buf + more, off, next, shared, e)
  {
    assert (buf + more)[off..next] == buf[off..next];
  }

  lemma OneMoreEntry(buf: seq<byte>, entries: seq<KV>, offs: seq<nat>, shares: seq<nat>, rs: seq<nat>, e: KV, shared: nat,
                     restart: bool)
    requires Laid(buf, entries, offs, shares, rs)
    requires shared <= |e.key| && (restart ==> shared == 0 && entries != [])
    requires if entries == [] then shared == 0
             else shared <= |entries[|entries| - 1].key| && entries[|entries| - 1].key[..shared] == e.key[..shared]
    ensures Laid(buf + EntryBytes(shared, e), entries + [e], offs + [|buf| + |EntryBytes(shared, e)|], shares + [shared],
                 if restart then rs + [|entries|] else rs)
  {
    hide EntryBytes;
    var n, more := |entries|, EntryBytes(shared, e);
    var buf', entries', offs', shares' := buf + more, entries + [e], offs + [|buf| + |more|], shares + [shared];
    forall i | 0 <= i < |entries'| ensures EntryAt(buf', offs'[i], offs'[i + 1], shares'[i], entries'[i]) {
      if i < n {
        EntryStays(buf, more, offs[i], offs[i + 1], shares[i], entries[i]);
      } else {
        assert buf'[|buf|..|buf| + |more|] == more;
      }
    }
    forall i | 0 <= i < |entries'| ensures Shares(entries', shares', i) {
      if i < n { assert Shares(entries, shares, i); }
    }
  }

  method AppendEntry(buffer: seq<byte>, shared: nat, e: KV) returns (r: seq<byte>)
    requires shared <= |e.key| < TWO32 && |e.value| < TWO32
    ensures r == buffer + EntryBytes(shared, e)
  {
    hide Varint;
    EntryWritten(buffer, shared, e);
    r := PutVarint32(buffer, shared);
    r := PutVarint32(r, |e.key| - shared);
    r := PutVarint32(r, |e.value|);
    r := r + e.key[shared..] + e.value;
  }

  class BlockBuilder {
    const interval: nat
    var buffer: seq<byte>
    var restarts: seq<nat>
    var counter: nat
    var lastKey: Key
    ghost var entries: seq<KV>
    ghost var offs: seq<nat>
    ghost var shares: seq<nat>
    ghost var rs: seq<nat>

    ghost predicate Valid()
      reads this
    {
      && interval >= 1 && counter <= interval && Laid(buffer, entries, offs, shares, rs)
      && (entries == [] ==> counter == 0 && lastKey == [] && rs == [0])
      && (entries != [] ==> lastKey == entries[|entries| - 1].key)
      && restarts == Points(offs, rs)
      && buffer == Packed(interval, entries) && restarts == RestartsOf(interval, entries)
      && (entries != [] ==> counter == (|entries| - 1) % interval + 1)
    }

    constructor (interval: nat)
      requires interval >= 1
      ensures Valid() && entries == [] && this.interval == interval && buffer == []
    {
      this.interval := interval;
      buffer, restarts, counter, lastKey := [], [0], 0, [];
      entries, offs, shares, rs := [], [0], [], [0];
    }

    method Add(key: Key, value: seq<byte>)
      requires Valid() && |key| < TWO32 && |value| < TWO32
      modifies this
      ensures Valid() && entries == old(entries) + [KV(key, value)]
      ensures var n, shared := |old(entries)|, shares[|shares| - 1];
        && |shares| == n + 1 && shared <= |key| && buffer == old(buffer) + EntryBytes(shared, KV(key, value))
        && (if n % interval == 0 then shared == 0 else LongestCommon(old(lastKey), key, shared))
        && restarts == old(restarts) + if n > 0 && n % interval == 0 then [|old(buffer)|] else []
    {
      hide Laid, EntryBytes, Points, Varint, Packed, RestartsOf, Common;
      var shared := 0;
      ghost var restart := counter >= interval;
      PackedOn(interval, entries, KV(key, value));
      if entries != [] { CounterOn(|entries|, interval); }
      NoCommon(key);
      SmallRemainder(interval);
      LaidFacts(buffer, entries, offs, shares, rs);
      if counter < interval {
        shared := CommonPrefix(lastKey, key);
      } else {
        restarts := restarts + [|buffer|];
        counter := 0;
      }
      var e := KV(key, value);
      OneMoreEntry(buffer, entries, offs, shares, rs, e, shared, restart);
      buffer := AppendEntry(buffer, shared, e);
      offs := offs + [|buffer|];
      shares := shares + [shared];
      if restart { rs := rs + [|entries|]; }
      entries := entries + [e];
      lastKey := lastKey[..shared] + key[shared..];
      counter := counter + 1;
      PointsGrow(old(offs), old(rs), |buffer|, restart);
      assert lastKey == key;
      LaidFacts(buffer, entries, offs, shares, rs);
    }

    method Finish() returns (block: seq<byte>)
      requires Valid()
      modifies this`buffer
      ensures block == BlockBytes(old(buffer), restarts) && block == Built(interval, entries)
      ensures |block| < TWO32 && (forall i :: 0 <= i < |entries| ==> |entries[i].key| + |entries[i].value| < TWO32) ==>
                IsBlock(block, old(buffer), entries, offs, shares, rs)
    {
      hide Laid, Fixed32, Packed, RestartsOf;
      LaidFacts(buffer, entries, offs, shares, rs);
      ghost var start := buffer;
      assert Fixed32s(restarts[..0]) == [];
      for i := 0 to |restarts|
        invariant buffer == start + Fixed32s(restarts[..i])
      {
        assert restarts[..i + 1][..i] == restarts[..i];
        buffer := buffer + Fixed32(restarts[i] % TWO32);
      }
      assert restarts[..|restarts|] == restarts;
      buffer := buffer + Fixed32(|restarts| % TWO32);
      block := buffer;
    }
  }

  lemma NoCommon(key: Key)
    ensures Common([], key) == 0
  {}

  lemma SmallRemainder(interval: nat)
    requires interval >= 1
    ensures 0 % interval == 0
  {}

  /** The finished block: entries, restart points, and how many there are. */
  function BlockBytes(buffer: seq<byte>, points: seq<nat>): seq<byte> {
    buffer + (Fixed32s(points) + Fixed32(|points| % TWO32))
  }

  lemma EntryWritten(buf: seq<byte>, shared: nat, e: KV)
    requires shared <= |e.key|
    ensures buf + Varint(shared) + Varint(|e.key| - shared) + Varint(|e.value|) + e.key[shared..] + e.value
         == buf + EntryBytes(shared, e)
  {}

  lemma PointsGrow(offs: seq<nat>, rs: seq<nat>, end: nat, restart: bool)
    requires offs != [] && forall j :: 0 <= j < |rs| ==> rs[j] < |offs|
    ensures Points(offs + [end], rs) == Points(offs, rs)
    ensures restart ==> Points(offs + [end], rs + [|offs| - 1]) == Points(offs, rs) + [offs[|offs| - 1]]
  {}

  lemma LaidFacts(buf: seq<byte>, entries: seq<KV>, offs: seq<nat>, shares: seq<nat>, rs: seq<nat>)
    requires Laid(buf, entries, offs, shares, rs)
    ensures |offs| == |entries| + 1 && offs[|entries|] == |buf| && |shares| == |entries| && rs != []
    ensures forall j :: 0 <= j < |rs| ==> rs[j] < |offs|
  {}

  // ---- DecodeEntry ------------------------------------------------------------------------

  datatype Decoded = Decoded(shared: nat, nonShared: nat, valueLength: nat, rest: seq<byte>)

  function SlowDecode(s: seq<byte>): Option<Decoded> {
    var a := GetVarint32(s);
    if a.None? then None
    else
      var b := GetVarint32(a.value.1);
      if b.None? then None
      else
        var c := GetVarint32(b.value.1);
        if c.None? then None else Some(Decoded(a.value.0, b.value.0, c.value.0, c.value.1))
  }

  /** The fast path takes three bytes below 128 for three varints. */
  function DecodeEntry(s: seq<byte>): Option<Decoded> {
    if |s| < 3 then None
    else
      var d := if s[0] < 128 && s[1] < 128 && s[2] < 128 then Some(Decoded(s[0], s[1], s[2], s[3..])) else SlowDecode(s);
      if d.None? || |d.value.rest| < (d.value.nonShared + d.value.valueLength) % TWO32 then None else d
  }

  lemma SmallVarint(s: seq<byte>)
    requires s != [] && s[0] < 128
    ensures GetVarint32(s) == Some((s[0], s[1..]))
  {}

  lemma FastIsSlow(s: seq<byte>)
    requires |s| >= 3 && s[0] < 128 && s[1] < 128 && s[2] < 128
    ensures SlowDecode(s) == Some(Decoded(s[0], s[1], s[2], s[3..]))
  {
    hide GetVarint32;
    SmallVarint(s);
    SmallVarint(s[1..]);
    SmallVarint(s[2..]);
    assert s[1..][1..] == s[2..] && s[2..][1..] == s[3..];
  }

  lemma DecodeUndoesEncode(shared: nat, e: KV, more: seq<byte>)
    requires shared <= |e.key| && |e.key| + |e.value| < TWO32
    ensures DecodeEntry(EntryBytes(shared, e) + more)
         == Some(Decoded(shared, |e.key| - shared, |e.value|, (e.key[shared..] + e.value) + more))
  {
    hide Varint, GetVarint32;
    EntryBytesLength(shared, e);
    var s3 := (e.key[shared..] + e.value) + more;
    var s2 := Varint(|e.value|) + s3;
    var s1 := Varint(|e.key| - shared) + s2;
    var s := EntryBytes(shared, e) + more;
    assert s == Varint(shared) + s1;
    Get32UndoesPut(shared, s1);
    Get32UndoesPut(|e.key| - shared, s2);
    Get32UndoesPut(|e.value|, s3);
    if s[0] < 128 && s[1] < 128 && s[2] < 128 { FastIsSlow(s); }
  }

  // ---- reading a finished block --------------------------------------------------------------

  /** What the builder promises of a finished block. */
  ghost predicate IsBlock(data: seq<byte>, buf: seq<byte>, entries: seq<KV>, offs: seq<nat>, shares: seq<nat>, rs: seq<nat>) {
    && Laid(buf, entries, offs, shares, rs)
    && (forall i :: 0 <= i < |entries| ==> |entries[i].key| + |entries[i].value| < TWO32)
    && |data| < TWO32
    && (forall j :: 0 <= j < |rs| ==> rs[j] < |offs|)
    && data == BlockBytes(buf, Points(offs, rs))
  }

  lemma {:induction false} OffsIncrease(buf: seq<byte>, entries: seq<KV>, offs: seq<nat>, shares: seq<nat>, rs: seq<nat>, i: nat, j: nat)
    requires Laid(buf, entries, offs, shares, rs) && i <= j <= |entries|
    ensures offs[i] + 3 * (j - i) <= offs[j] <= |buf|
    decreases |entries| - i
  {
    if i < |entries| {
      assert EntryAt(buf, offs[i], offs[i + 1], shares[i], entries[i]);
      EntryBytesLength(shares[i], entries[i]);
      if i < j { OffsIncrease(buf, entries, offs, shares, rs, i + 1, j); }
      else { OffsIncrease(buf, entries, offs, shares, rs, i + 1, |entries|); }
    }
  }

  function RestartPoint(data: seq<byte>, limit: nat, j: nat): nat
    requires limit + 4 * j + 4 <= |data|
  {
    DecodeFixed32(data[limit + 4 * j..limit + 4 * j + 4])
  }

  lemma RestartPointIs(data: seq<byte>, buf: seq<byte>, entries: seq<KV>, offs: seq<nat>, shares: seq<nat>, rs: seq<nat>, j: nat)
    requires IsBlock(data, buf, entries, offs, shares, rs) && j < |rs|
    ensures |buf| + 4 * j + 4 <= |data| && RestartPoint(data, |buf|, j) == offs[rs[j]]
  {
    hide Laid, DecodeFixed32, Fixed32;
    LaidFacts(buf, entries, offs, shares, rs);
    var points := Points(offs, rs);
    Fixed32At(points, j);
    assert data[|buf| + 4 * j..|buf| + 4 * j + 4] == Fixed32s(points)[4 * j..4 * j + 4];
    OffsIncrease(buf, entries, offs, shares, rs, rs[j], |entries|);
    Fixed32RoundTrip(points[j]);
  }

  /** The constructor of Block finds the restart array from the end of the block. */
  lemma BlockHeader(data: seq<byte>, buf: seq<byte>, entries: seq<KV>, offs: seq<nat>, shares: seq<nat>, rs: seq<nat>)
    requires IsBlock(data, buf, entries, offs, shares, rs)
    ensures |data| >= 4 && DecodeFixed32(data[|data| - 4..]) == |rs| && |data| - (1 + |rs|) * 4 == |buf|
  {
    hide Laid, DecodeFixed32, Fixed32;
    assert data[|data| - 4..] == Fixed32(|rs| % TWO32);
    Fixed32RoundTrip(|rs|);
  }

  /** What the key buffer must hold before entry `p` is parsed. */
  ghost predicate Ready(entries: seq<KV>, shares: seq<nat>, p: nat, key: Key)
    requires |shares| == |entries|
  {
    p < |entries| ==> shares[p] <= |key| && shares[p] <= |entries[p].key| && key[..shares[p]] == entries[p].key[..shares[p]]
  }

  lemma ParseEntry(data: seq<byte>, buf: seq<byte>, entries: seq<KV>, offs: seq<nat>, shares: seq<nat>, rs: seq<nat>, p: nat, key: Key)
    requires IsBlock(data, buf, entries, offs, shares, rs) && p < |entries| && |shares| == |entries| && Ready(entries, shares, p, key)
    ensures |offs| == |entries| + 1 && offs[p] < |buf| <= |data| && offs[p] < offs[p + 1] <= |buf|
    ensures DecodeEntry(data[offs[p]..|buf|]).Some?
    ensures var d := DecodeEntry(data[offs[p]..|buf|]).value;
      var at := |buf| - |d.rest|;
      && d.shared == shares[p] && |d.rest| <= |buf| && d.nonShared + d.valueLength <= |d.rest|
      && key[..d.shared] + d.rest[..d.nonShared] == entries[p].key
      && at + d.nonShared + d.valueLength == offs[p + 1]
      && data[at + d.nonShared..at + d.nonShared + d.valueLength] == entries[p].value
  {
    var e := entries[p];
    EntryInBlock(data, buf, entries, offs, shares, rs, p);
    hide IsBlock, Laid, EntryAt, Shares, EntryBytes, DecodeEntry;
    var more := buf[offs[p + 1]..];
    DecodeUndoesEncode(shares[p], e, more);
    DecodedParts(shares[p], e, more);
    EntryEnds(buf, offs[p], offs[p + 1], shares[p], e);
    assert data[offs[p + 1] - |e.value|..offs[p + 1]] == buf[offs[p + 1] - |e.value|..offs[p + 1]];
  }

  lemma EntryInBlock(data: seq<byte>, buf: seq<byte>, entries: seq<KV>, offs: seq<nat>, shares: seq<nat>, rs: seq<nat>, p: nat)
    requires IsBlock(data, buf, entries, offs, shares, rs) && p < |entries|
    ensures |offs| == |entries| + 1 && |shares| == |entries| && offs[p] < offs[p + 1] <= |buf| <= |data| && data[..|buf|] == buf
    ensures EntryAt(buf, offs[p], offs[p + 1], shares[p], entries[p]) && |entries[p].key| + |entries[p].value| < TWO32
    ensures shares[p] <= |entries[p].key|
    ensures data[offs[p]..|buf|] == EntryBytes(shares[p], entries[p]) + buf[offs[p + 1]..]
  {
    OffsIncrease(buf, entries, offs, shares, rs, p, p + 1);
    OffsIncrease(buf, entries, offs, shares, rs, p + 1, |entries|);
    assert EntryAt(buf, offs[p], offs[p + 1], shares[p], entries[p]);
    hide Laid, EntryBytes, Fixed32, Fixed32s;
    assert data[..|buf|] == buf;
    assert data[offs[p]..|buf|] == buf[offs[p]..offs[p + 1]] + buf[offs[p + 1]..];
  }

  lemma DecodedParts(shared: nat, e: KV, more: seq<byte>)
    requires shared <= |e.key|
    ensures var rest := (e.key[shared..] + e.value) + more;
      && rest[..|e.key| - shared] == e.key[shared..] && |rest| == |e.key| - shared + |e.value| + |more|
      && e.key[..shared] + e.key[shared..] == e.key
  {}

  /** An entry ends with its value. */
  lemma EntryEnds(buf: seq<byte>, off: nat, next: nat, shared: nat, e: KV)
    requires EntryAt(buf, off, next, shared, e)
    ensures off <= next - |e.value| && buf[next - |e.value|..next] == e.value
  {
    EntryBytesLength(shared, e);
    var b := EntryBytes(shared, e);
    assert b[|b| - |e.value|..] == e.value;
    assert buf[next - |e.value|..next] == buf[off..next][|b| - |e.value|..];
  }

  // ---- the iterator ---------------------------------------------------------------------------

  class Iter {
    const less: Order
    const data: seq<byte>
    const limit: nat        // restarts_: where the entries end
    const numRestarts: nat
    var current: nat        // offset of the current entry; >= limit when not valid
    var restartIndex: nat
    var key: Key
    var valueAt: nat
    var valueEnd: nat       // where the next entry starts
    ghost const buf: seq<byte>
    ghost const entries: seq<KV>
    ghost const offs: seq<nat>
    ghost const shares: seq<nat>
    ghost const rs: seq<nat>
    ghost var at: Option<nat>

    ghost predicate Fixed()
    {
      && IsBlock(data, buf, entries, offs, shares, rs) && limit == |buf| && numRestarts == |rs|
      && |offs| == |entries| + 1 && |shares| == |entries| && rs != [] && rs[0] == 0
      && (forall j :: 0 <= j < |rs| ==> rs[j] <= |entries| && (j > 0 || entries != [] ==> rs[j] < |entries|))
    }

    /** A cursor: at an entry with its key and value, or past the end. */
    ghost predicate Valid()
      reads this
    {
      && Fixed() && StrictOrder(less) && InOrder(less, entries)
      && match at
         case Some(i) =>
           && i < |entries| && current == offs[i] < limit && key == entries[i].key
           && valueAt <= valueEnd == offs[i + 1] <= |data| && data[valueAt..valueEnd] == entries[i].value
           && restartIndex < numRestarts && rs[restartIndex] <= i && (restartIndex + 1 < numRestarts ==> i <= rs[restartIndex + 1])
         case None => current == limit && restartIndex == numRestarts
    }

    function Value(): (v: seq<byte>)
      requires Valid() && current < limit
      reads this
      ensures at.Some? && KV(key, v) == entries[at.value]
    {
      data[valueAt..valueEnd]
    }

    constructor (less: Order, data: seq<byte>, ghost buf: seq<byte>, ghost entries: seq<KV>, ghost offs: seq<nat>,
                 ghost shares: seq<nat>, ghost rs: seq<nat>)
      requires IsBlock(data, buf, entries, offs, shares, rs) && StrictOrder(less) && InOrder(less, entries)
      ensures Valid() && at == None && this.entries == entries && this.less == less
    {
      BlockHeader(data, buf, entries, offs, shares, rs);
      this.less, this.data := less, data;
      var n := DecodeFixed32(data[|data| - 4..]);
      numRestarts := n;
      limit := |data| - (1 + n) * 4;
      current := |data| - (1 + n) * 4;
      restartIndex := n;
      key, valueAt, valueEnd := [], 0, 0;
      this.buf, this.entries, this.offs, this.shares, this.rs, at := buf, entries, offs, shares, rs, None;
      new;
      RestartsInRange(buf, entries, offs, shares, rs);
    }

    function Point(j: nat): (r: nat)
      requires Fixed() && j < numRestarts
      ensures r == offs[rs[j]]
    {
      RestartPointIs(data, buf, entries, offs, shares, rs, j);
      RestartPoint(data, limit, j)
    }

    /** The parser stands before entry `p`. */
    ghost predicate Poised(p: nat)
      reads this
    {
      && Fixed() && StrictOrder(less) && InOrder(less, entries)
      && p <= |entries| && valueEnd == offs[p] && Ready(entries, shares, p, key)
      && restartIndex < numRestarts && rs[restartIndex] <= p
    }

    /** ParseNextKey. */
    method ParseNextKey(ghost p: nat) returns (found: bool)
      requires Poised(p)
      modifies this
      ensures Valid() && found == (p < |entries|) && at == if found then Some(p) else None
      ensures restartIndex >= old(restartIndex)
    {
      hide IsBlock, DecodeEntry, StrictOrder, InOrder;
      current := valueEnd;
      if current >= limit {
        EndOfEntries(data, buf, entries, offs, shares, rs, p);
        current, restartIndex, at := limit, numRestarts, None;
        return false;
      }
      BeforeTheEnd(data, buf, entries, offs, shares, rs, p);
      ParseEntry(data, buf, entries, offs, shares, rs, p, key);
      var d := DecodeEntry(data[current..limit]).value;
      key := key[..d.shared] + d.rest[..d.nonShared];
      valueAt := limit - |d.rest| + d.nonShared;
      valueEnd := valueAt + d.valueLength;
      while restartIndex + 1 < numRestarts && Point(restartIndex + 1) < current
        invariant restartIndex < numRestarts && rs[restartIndex] <= p && restartIndex >= old(restartIndex)
        modifies this`restartIndex
      {
        OffsReflect(data, buf, entries, offs, shares, rs, rs[restartIndex + 1], p);
        restartIndex := restartIndex + 1;
      }
      if restartIndex + 1 < numRestarts { OffsReflect(data, buf, entries, offs, shares, rs, rs[restartIndex + 1], p); }
      at := Some(p);
      return true;
    }

    method SeekToRestartPoint(j: nat)
      requires Fixed() && StrictOrder(less) && InOrder(less, entries) && j < numRestarts
      modifies this
      ensures Poised(rs[j]) && restartIndex == j
    {
      hide IsBlock, StrictOrder, InOrder;
      key := [];
      restartIndex := j;
      valueAt := Point(j);
      valueEnd := valueAt;
      RestartIsReady(data, buf, entries, offs, shares, rs, j);
    }

    method SeekToFirst()
      requires Valid()
      modifies this
      ensures Valid() && at == if entries == [] then None else Some(0)
    {
      SeekToRestartPoint(0);
      var _ := ParseNextKey(0);
    }

    method Next()
      requires Valid() && at.Some?
      modifies this
      ensures Valid() && at == if old(at).value + 1 < |entries| then Some(old(at).value + 1) else None
    {
      AfterEntry(data, buf, entries, offs, shares, rs, at.value);
      var _ := ParseNextKey(at.value + 1);
    }

    /** Parse on from `p` until the next entry would start at or after `stop`. */
    method ScanTo(ghost p: nat, stop: nat, ghost last: nat)
      requires Poised(p) && (p < |entries| ==> p <= last < |entries| && stop == offs[last + 1])
      modifies this
      ensures Valid() && at == if p == |entries| then None else Some(last)
    {
      hide IsBlock, StrictOrder, InOrder;
      ghost var q := p;
      var found := ParseNextKey(q);
      while found && valueEnd < stop
        invariant Valid() && found == (p < |entries|) && (found ==> q <= last && at == Some(q)) && (!found ==> at == None)
        decreases last - q
      {
        OffsReflect(data, buf, entries, offs, shares, rs, q + 1, last + 1);
        AfterEntry(data, buf, entries, offs, shares, rs, q);
        q := q + 1;
        found := ParseNextKey(q);
      }
      if found { OffsReflect(data, buf, entries, offs, shares, rs, q + 1, last + 1); }
    }

    method SeekToLast()
      requires Valid()
      modifies this
      ensures Valid() && at == if entries == [] then None else Some(|entries| - 1)
    {
      LastOffset(data, buf, entries, offs, shares, rs);
      SeekToRestartPoint(numRestarts - 1);
      ScanTo(rs[numRestarts - 1], limit, if entries == [] then 0 else |entries| - 1);
    }

    /** Prev: back to a restart point before the current entry, then forward. */
    method Prev()
      requires Valid() && at.Some?
      modifies this
      ensures Valid() && at == if old(at).value == 0 then None else Some(old(at).value - 1)
    {
      hide IsBlock, StrictOrder, InOrder;
      var original := current;
      ghost var i := at.value;
      while Point(restartIndex) >= original
        invariant restartIndex < numRestarts && original == offs[i] && i < |entries|
        decreases restartIndex
      {
        OffsReflect(data, buf, entries, offs, shares, rs, rs[restartIndex], i);
        if restartIndex == 0 {
          current, restartIndex, at := limit, numRestarts, None;
          return;
        }
        restartIndex := restartIndex - 1;
      }
      OffsReflect(data, buf, entries, offs, shares, rs, rs[restartIndex], i);
      SeekToRestartPoint(restartIndex);
      ScanTo(rs[restartIndex], original, i - 1);
    }

    /** Seek: binary search among the restart points for the last whose key is before the
        target, then a scan to the first key not before it. */
    method Seek(target: Key)
      requires Valid()
      modifies this
      ensures Valid()
      ensures match at
              case Some(i) => !less(entries[i].key, target) && forall j :: 0 <= j < i ==> less(entries[j].key, target)
              case None => forall j :: 0 <= j < |entries| ==> less(entries[j].key, target)
    {
      hide IsBlock;
      var left, right := 0, numRestarts - 1;
      while left < right
        invariant left <= right < numRestarts
        invariant left > 0 ==> less(entries[rs[left]].key, target)
      {
        var mid := (left + right + 1) / 2;
        RestartIsReady(data, buf, entries, offs, shares, rs, mid);
        ParseEntry(data, buf, entries, offs, shares, rs, rs[mid], []);
        RestartShares(data, buf, entries, offs, shares, rs, mid);
        var d := DecodeEntry(data[Point(mid)..limit]).value;
        var midKey := d.rest[..d.nonShared];
        assert midKey == entries[rs[mid]].key;
        if less(midKey, target) { left := mid; } else { right := mid - 1; }
      }
      SeekToRestartPoint(left);
      ghost var q := rs[left];
      BeforeRestart(less, entries, q, target);
      var found := ParseNextKey(q);
      while found && less(key, target)
        invariant Valid() && q <= |entries| && found == (q < |entries|) && at == (if found then Some(q) else None)
        invariant forall j :: 0 <= j < q ==> less(entries[j].key, target)
        decreases |entries| - q
      {
        AfterEntry(data, buf, entries, offs, shares, rs, q);
        q := q + 1;
        found := ParseNextKey(q);
      }
    }
  }

  lemma BeforeRestart(less: Order, entries: seq<KV>, q: nat, target: Key)
    requires StrictOrder(less) && InOrder(less, entries) && q <= |entries| && (q > 0 ==> q < |entries| && less(entries[q].key, target))
    ensures forall j :: 0 <= j < q ==> less(entries[j].key, target)
  {}

  lemma RestartShares(data: seq<byte>, buf: seq<byte>, entries: seq<KV>, offs: seq<nat>, shares: seq<nat>, rs: seq<nat>, j: nat)
    requires IsBlock(data, buf, entries, offs, shares, rs) && j < |rs| && entries != [] && |shares| == |entries|
    ensures rs[j] < |entries| && shares[rs[j]] == 0
  {}

  lemma RestartsInRange(buf: seq<byte>, entries: seq<KV>, offs: seq<nat>, shares: seq<nat>, rs: seq<nat>)
    requires Laid(buf, entries, offs, shares, rs)
    ensures |offs| == |entries| + 1 && |shares| == |entries| && rs != [] && rs[0] == 0
    ensures forall j :: 0 <= j < |rs| ==> rs[j] <= |entries| && (j > 0 || entries != [] ==> rs[j] < |entries|)
  {}

  lemma EndOfEntries(data: seq<byte>, buf: seq<byte>, entries: seq<KV>, offs: seq<nat>, shares: seq<nat>, rs: seq<nat>, p: nat)
    requires IsBlock(data, buf, entries, offs, shares, rs) && p <= |entries| && p < |offs| && offs[p] >= |buf|
    ensures p == |entries|
  {
    OffsIncrease(buf, entries, offs, shares, rs, p, |entries|);
  }

  lemma BeforeTheEnd(data: seq<byte>, buf: seq<byte>, entries: seq<KV>, offs: seq<nat>, shares: seq<nat>, rs: seq<nat>, p: nat)
    requires IsBlock(data, buf, entries, offs, shares, rs) && p <= |entries| && p < |offs| && offs[p] < |buf|
    ensures p < |entries|
  {}

  /** Offsets order entries as their numbers do. */
  lemma OffsReflect(data: seq<byte>, buf: seq<byte>, entries: seq<KV>, offs: seq<nat>, shares: seq<nat>, rs: seq<nat>, p: nat, q: nat)
    requires IsBlock(data, buf, entries, offs, shares, rs) && p <= |entries| && q <= |entries| && |offs| == |entries| + 1
    ensures offs[p] < offs[q] <==> p < q
    ensures offs[p] <= offs[q] <==> p <= q
  {
    if p <= q { OffsIncrease(buf, entries, offs, shares, rs, p, q); } else { OffsIncrease(buf, entries, offs, shares, rs, q, p); }
  }

  lemma RestartIsReady(data: seq<byte>, buf: seq<byte>, entries: seq<KV>, offs: seq<nat>, shares: seq<nat>, rs: seq<nat>, j: nat)
    requires IsBlock(data, buf, entries, offs, shares, rs) && j < |rs| && |shares| == |entries|
    ensures Ready(entries, shares, rs[j], [])
  {}

  lemma AfterEntry(data: seq<byte>, buf: seq<byte>, entries: seq<KV>, offs: seq<nat>, shares: seq<nat>, rs: seq<nat>, i: nat)
    requires IsBlock(data, buf, entries, offs, shares, rs) && i < |entries| && |shares| == |entries|
    ensures Ready(entries, shares, i + 1, entries[i].key)
  {
    if i + 1 < |entries| { assert Shares(entries, shares, i + 1); }
  }

  lemma LastOffset(data: seq<byte>, buf: seq<byte>, entries: seq<KV>, offs: seq<nat>, shares: seq<nat>, rs: seq<nat>)
    requires IsBlock(data, buf, entries, offs, shares, rs)
    ensures |offs| == |entries| + 1 && offs[|entries|] == |buf|
  {}

  // ---- both ends together ------------------------------------------------------------------------

  /** A block built from entries whose keys increase, read from the first to the last,
      gives those entries; it is not read only when it does not fit 32 bits. */
  method BuildAndScan(less: Order, interval: nat, kvs: seq<KV>) returns (read: Option<seq<KV>>)
    requires interval >= 1 && StrictOrder(less) && InOrder(less, kvs)
    requires forall i :: 0 <= i < |kvs| ==> |kvs[i].key| + |kvs[i].value| < TWO32
    ensures read == if |Built(interval, kvs)| < TWO32 then Some(kvs) else None
  {
    hide Laid, StrictOrder, InOrder, Built, Packed, RestartsOf, IsBlock;
    var builder := new BlockBuilder(interval);
    for i := 0 to |kvs|
      invariant builder.Valid() && fresh(builder) && builder.entries == kvs[..i]
    {
      builder.Add(kvs[i].key, kvs[i].value);
      assert kvs[..i + 1] == kvs[..i] + [KV(kvs[i].key, kvs[i].value)];
    }
    assert kvs[..|kvs|] == kvs;
    ghost var buf, offs, shares, rs := builder.buffer, builder.offs, builder.shares, builder.rs;
    LaidFacts(buf, kvs, offs, shares, rs);
    var block := builder.Finish();
    if |block| >= TWO32 { return None; }
    var all := Scan(less, block, buf, kvs, offs, shares, rs);
    return Some(all);
  }

  /** SeekToFirst, and Next until the end. */
  method Scan(less: Order, block: seq<byte>, ghost buf: seq<byte>, ghost kvs: seq<KV>, ghost offs: seq<nat>, ghost shares: seq<nat>,
              ghost rs: seq<nat>)
    returns (all: seq<KV>)
    requires IsBlock(block, buf, kvs, offs, shares, rs) && StrictOrder(less) && InOrder(less, kvs)
    ensures all == kvs
  {
    hide IsBlock, StrictOrder, InOrder;
    var iter := new Iter(less, block, buf, kvs, offs, shares, rs);
    all := [];
    iter.SeekToFirst();
    while iter.current < iter.limit
      invariant iter.Valid() && fresh(iter) && iter.entries == kvs
      invariant all == if iter.at.Some? then kvs[..iter.at.value] else kvs
      decreases if iter.at.Some? then |kvs| - iter.at.value else 0
    {
      ghost var i := iter.at.value;
      assert kvs[..i + 1] == kvs[..i] + [kvs[i]];
      all := all + [KV(iter.key, iter.Value())];
      iter.Next();
    }
  }
}
