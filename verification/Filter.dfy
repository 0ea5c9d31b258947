/** Bloom filters, one for every 2KB of table data (util/bloom.cc, table/filter_block.cc).

    A filter is its bits and its number of probes; how bits pack into bytes, and the byte
    layout of the filter block, are not modelled. */
module Filter {
  import opened Dbformat
  import opened Comparator

  type Hash = h: nat | h < 0x1_0000_0000
  type HashFunction = Bytes -> Hash

  datatype BloomFilter = BloomFilter(bits: seq<bool>, probes: nat)

  const FILTER_BASE: nat := 2048

  // Rotate right by 17.
  function Delta(h: Hash): Hash { h / 0x2_0000 + (h % 0x2_0000) * 0x8000 }

  /** The hash at the j-th probe: h += delta in 32 bits. */
  function Probe(h: Hash, j: nat): Hash {
    if j == 0 then h else (Probe(h, j - 1) + Delta(h)) % 0x1_0000_0000
  }

  /** The probes stand a constant stride apart. */
  lemma {:induction false} ProbeIs(h: Hash, j: nat)
    ensures Probe(h, j) == (h + j * Delta(h)) % 0x1_0000_0000
  {
    hide Delta;
    if j > 0 {
      ProbeIs(h, j - 1);
      OneMore(j, Delta(h));
      ModOn(h + (j - 1) * Delta(h), Delta(h));
    }
  }

  lemma OneMore(j: nat, d: nat)
    requires j > 0
    ensures j * d == (j - 1) * d + d
  {}

  lemma ModOn(a: nat, b: nat)
    ensures (a % 0x1_0000_0000 + b) % 0x1_0000_0000 == (a + b) % 0x1_0000_0000
  {}

  /** Some key sets the bit. */
  ghost predicate Probed(hash: HashFunction, keys: seq<Bytes>, k: nat, n: nat, b: int)
    requires n > 0
  {
    exists m: nat, j: nat :: m < |keys| && j < k && Probe(hash(keys[m]), j) % n == b
  }

  ghost predicate OnlyProbed(hash: HashFunction, keys: seq<Bytes>, k: nat, bits: seq<bool>) {
    forall b :: 0 <= b < |bits| && bits[b] ==> Probed(hash, keys, k, |bits|, b)
  }

  lemma SetKeepsOnly(hash: HashFunction, keys: seq<Bytes>, k: nat, bits: seq<bool>, m: nat, j: nat)
    requires |bits| > 0 && OnlyProbed(hash, keys, k, bits) && m < |keys| && j < k
    ensures OnlyProbed(hash, keys, k, bits[Probe(hash(keys[m]), j) % |bits| := true])
  {
    hide Probe;
  }

  lemma NothingProbed(hash: HashFunction, keys: seq<Bytes>, k: nat, bits: seq<bool>)
    requires forall b :: 0 <= b < |bits| ==> !bits[b]
    ensures OnlyProbed(hash, keys, k, bits)
  {}

  lemma SetGrows(before: seq<bool>, bits: seq<bool>, b: nat)
    requires Grown(before, bits) && b < |bits|
    ensures Grown(before, bits[b := true])
  {}

  lemma GrownSelf(bits: seq<bool>)
    ensures Grown(bits, bits)
  {}

  lemma RoundedUp(n: nat)
    ensures n <= (n + 7) / 8 * 8 < n + 8
  {}

  /** The policy's k_: a rounded multiple of bits_per_key, kept between 1 and 30. */
  type Probes = k: nat | 1 <= k <= 30 witness 1

  ghost predicate AllSet(bits: seq<bool>, h: Hash, k: nat)
    requires |bits| > 0
  {
    forall j: nat :: j < k ==> bits[Probe(h, j) % |bits|]
  }

  ghost predicate Grown(bits: seq<bool>, bits': seq<bool>) {
    |bits| == |bits'| && forall i :: 0 <= i < |bits| && bits[i] ==> bits'[i]
  }

  lemma SetStays(bits: seq<bool>, bits': seq<bool>, h: Hash, k: nat)
    requires |bits| > 0 && AllSet(bits, h, k) && Grown(bits, bits')
    ensures AllSet(bits', h, k)
  {}

  /** CreateFilter: every key sets its probes, and nothing else is set. */
  method CreateFilter(hash: HashFunction, bitsPerKey: nat, k: Probes, keys: seq<Bytes>) returns (f: BloomFilter)
    ensures |f.bits| >= 64 && |f.bits| % 8 == 0 && f.probes == k
    ensures |keys| * bitsPerKey <= |f.bits| && (|f.bits| == 64 || |f.bits| < |keys| * bitsPerKey + 8)
    ensures OnlyProbed(hash, keys, k, f.bits)
    ensures forall key :: key in keys ==> AllSet(f.bits, hash(key), f.probes)
  {
    hide OnlyProbed, Delta, Grown;
    var n := |keys| * bitsPerKey;
    if n < 64 { n := 64; }
    var bytes := (n + 7) / 8;
    RoundedUp(n);
    var bits := seq(bytes * 8, _ => false);
    NothingProbed(hash, keys, k, bits);
    for i := 0 to |keys|
      invariant |bits| == bytes * 8
      invariant forall m :: 0 <= m < i ==> AllSet(bits, hash(keys[m]), k)
      invariant OnlyProbed(hash, keys, k, bits)
    {
      var start := hash(keys[i]);
      var delta := Delta(start);
      var h := start;
      ghost var before := bits;
      GrownSelf(bits);
      for j := 0 to k
        invariant |bits| == bytes * 8 && h == Probe(start, j) && Grown(before, bits)
        invariant forall p: nat :: p < j ==> bits[Probe(start, p) % |bits|]
        invariant OnlyProbed(hash, keys, k, bits)
      {
        SetKeepsOnly(hash, keys, k, bits, i, j);
        SetGrows(before, bits, h % |bits|);
        bits := bits[h % |bits| := true];
        h := (h + delta) % 0x1_0000_0000;
      }
      forall m | 0 <= m < i ensures AllSet(bits, hash(keys[m]), k) {
        SetStays(before, bits, hash(keys[m]), k);
      }
    }
    f := BloomFilter(bits, k);
  }

  /** KeyMayMatch; an unknown number of probes always matches. */
  method KeyMayMatch(hash: HashFunction, f: BloomFilter, key: Bytes) returns (may: bool)
    requires |f.bits| > 0
    ensures f.probes > 30 ==> may
    ensures f.probes <= 30 ==> (may <==> AllSet(f.bits, hash(key), f.probes))
  {
    if f.probes > 30 { return true; }
    var start := hash(key);
    var h := start;
    for j := 0 to f.probes
      invariant h == Probe(start, j)
      invariant forall p: nat :: p < j ==> f.bits[Probe(start, p) % |f.bits|]
    {
      if !f.bits[h % |f.bits|] { return false; }
      h := (h + Delta(start)) % 0x1_0000_0000;
    }
    return true;
  }

  // ---- one filter per 2KB ------------------------------------------------------------------

  /** The filter at a slot finds the key. */
  ghost predicate Finds(hash: HashFunction, filters: seq<Option<BloomFilter>>, slot: nat, key: Bytes) {
    && slot < |filters| && filters[slot].Some? && |filters[slot].value.bits| > 0 && filters[slot].value.probes <= 30
    && AllSet(filters[slot].value.bits, hash(key), filters[slot].value.probes)
  }

  /** A key of the block at an offset: in its slot's filter, or waiting to go into it. */
  ghost predicate Covered(hash: HashFunction, filters: seq<Option<BloomFilter>>, keys: seq<Bytes>, offset: nat, key: Bytes) {
    Finds(hash, filters, offset / FILTER_BASE, key) || (offset / FILTER_BASE == |filters| && key in keys)
  }

  class FilterBlockBuilder {
    const hash: HashFunction
    const bitsPerKey: nat
    const probes: Probes
    var keys: seq<Bytes>
    var filters: seq<Option<BloomFilter>>

    constructor (hash: HashFunction, bitsPerKey: nat, probes: Probes)
      ensures keys == [] && filters == [] && this.hash == hash
    {
      this.hash, this.bitsPerKey, this.probes, keys, filters := hash, bitsPerKey, probes, [], [];
    }

    ghost predicate Covers(offset: nat, key: Bytes)
      reads this
    {
      Covered(hash, filters, keys, offset, key)
    }

    /** The keys waiting go into the next slot; no keys, no filter. */
    method GenerateFilter()
      modifies this
      ensures |filters| == |old(filters)| + 1 && keys == []
      ensures forall offset, key :: old(Covers(offset, key)) ==> Covers(offset, key)
    {
      if keys == [] {
        filters := filters + [None];
      } else {
        var f := CreateFilter(hash, bitsPerKey, probes, keys);
        filters := filters + [Some(f)];
        keys := [];
      }
      forall offset: nat, key | old(Covers(offset, key)) ensures Covers(offset, key) {
        if offset / FILTER_BASE < |old(filters)| { assert filters[offset / FILTER_BASE] == old(filters)[offset / FILTER_BASE]; }
      }
    }

    /** A data block starts at `offset`: every slot before its own is filled. */
    method StartBlock(offset: nat)
      requires offset / FILTER_BASE >= |filters|
      modifies this
      ensures |filters| == offset / FILTER_BASE
      ensures forall o, key :: old(Covers(o, key)) ==> Covers(o, key)
    {
      while offset / FILTER_BASE > |filters|
        invariant offset / FILTER_BASE >= |filters|
        invariant forall o, key :: old(Covers(o, key)) ==> Covers(o, key)
      {
        GenerateFilter();
      }
    }

    method AddKey(key: Bytes)
      modifies this`keys
      ensures keys == old(keys) + [key]
      ensures forall o, k :: old(Covers(o, k)) ==> Covers(o, k)
      ensures forall o: nat :: o / FILTER_BASE == |filters| ==> Covers(o, key)
    {
      keys := keys + [key];
    }

    method Finish()
      modifies this
      ensures keys == []
      ensures forall o, k :: old(Covers(o, k)) ==> Covers(o, k)
    {
      if keys != [] { GenerateFilter(); }
    }
  }

  /** FilterBlockReader::KeyMayMatch: an empty slot matches nothing, a missing one anything. */
  method BlockMayMatch(hash: HashFunction, filters: seq<Option<BloomFilter>>, offset: nat, key: Bytes) returns (may: bool)
    ensures Finds(hash, filters, offset / FILTER_BASE, key) ==> may
    ensures offset / FILTER_BASE >= |filters| ==> may
    ensures offset / FILTER_BASE < |filters| ==>
              match filters[offset / FILTER_BASE]
              case None => !may
              case Some(f) => may <==> |f.bits| > 0 && (f.probes > 30 || AllSet(f.bits, hash(key), f.probes))
  {
    var index := offset / FILTER_BASE;
    if index < |filters| {
      if filters[index].None? || |filters[index].value.bits| == 0 { return false; }
      may := KeyMayMatch(hash, filters[index].value, key);
      return;
    }
    return true;
  }
}
