/** Decoding undoes encoding (nanopb/pb_decode.c, nanopb/pb_encode.c). */
module NanopbRoundTrip {
  import opened Dbformat
  import opened Coding
  import opened Nanopb
  import opened NanopbFields
  import opened NanopbWire
  import opened NanopbReading

  // ---- messages that mean the same ----------------------------------------------------------------

  /** Two objects a program can not tell apart: a member is compared only where it is present. */
  ghost predicate Same(l: LType, v: Data, w: Data)
    decreases l, 0
  {
    match l
    case Sub(d) => v.Message? && w.Message? && SameMessage(d, v.slots, w.slots)
    case Bool => v.Num? && w.Num? && (v.n != 0 <==> w.n != 0)
    case _ => v == w
  }

  ghost predicate SameField(f: Field, s: Slot, t: Slot)
    decreases f, 1
  {
    match f.htype
    case Optional => s.Maybe? && t.Maybe? && s.has == t.has && (s.has ==> Same(f.ltype, s.v, t.v))
    case Repeated(_) => s.Many? && t.Many? && AllSame(f, s.vs, t.vs)
    case OneOf(_) => s.Which? && t.Which? && (s.tag == f.tag <==> t.tag == f.tag) && (s.tag == f.tag ==> Same(f.ltype, s.v, t.v))
    case _ => s.One? && t.One? && Same(f.ltype, s.v, t.v)
  }

  ghost predicate AllSame(f: Field, vs: seq<Data>, ws: seq<Data>)
    decreases f, 0
  {
    |vs| == |ws| && forall j | 0 <= j < |vs| :: Same(f.ltype, vs[j], ws[j])
  }

  ghost predicate SameMessage(d: Desc, a: seq<Slot>, b: seq<Slot>)
    decreases d
  {
    && |a| == |b| == SlotCount(d)
    && forall i | 0 <= i < |d.fields| :: SameField(d.fields[i], At(d, a, i), At(d, b, i))
  }

  /** The object is one of the field's C type. */
  ghost predicate Fits(l: LType, v: Data)
    decreases l, 0
  {
    match l
    case Bool => v.Num?
    case VarInt(w) => v.Num? && (Width(w) ==> InRange(v.n, w))
    case SVarInt(w) => v.Num? && (Width(w) ==> InRange(v.n, w))
    case UVarInt(w) => v.Num? && (Width(w) ==> 0 <= v.n < 2 * Half(w))
    case Fix32 => v.Num? && 0 <= v.n < TWO32
    case Fix64 => v.Num? && 0 <= v.n < TWO64
    case Bytes(_) => v.Blob?
    case Text(room) => v.Blob? && |v.s| <= room && 0 !in v.s
    case FixedBytes(n) => v.Blob? && |v.s| == n
    case Sub(d) => v.Message? && FitsMessage(d, v.slots)
  }

  ghost predicate FitsField(f: Field, s: Slot)
    decreases f
  {
    match f.htype
    case Optional => s.Maybe? && Fits(f.ltype, s.v)
    case Repeated(_) => s.Many? && forall v | v in s.vs :: Fits(f.ltype, v)
    case OneOf(_) => s.Which? && (s.tag == f.tag ==> Fits(f.ltype, s.v))
    case _ => s.One? && Fits(f.ltype, s.v)
  }

  ghost predicate FitsMessage(d: Desc, slots: seq<Slot>)
    decreases d
  {
    |slots| == SlotCount(d) && forall i | 0 <= i < |d.fields| :: FitsField(d.fields[i], At(d, slots, i))
  }

  /** Every text that is sent has its NUL inside the field's array. */
  predicate Terminated(l: LType, v: Data)
    decreases l, 0
  {
    match l
    case Text(room) => |BlobOf(v)| < room
    case Sub(d) => TerminatedMessage(d, SlotsOf(v))
    case _ => true
  }

  predicate TerminatedField(f: Field, s: Slot)
    decreases f
  {
    match f.htype
    case Required => Terminated(f.ltype, ValueOf(s))
    case Optional => s.Maybe? && s.has ==> Terminated(f.ltype, ValueOf(s))
    case Singular => IsZero(f, s) || Terminated(f.ltype, ValueOf(s))
    case OneOf(_) => s.Which? && s.tag == f.tag ==> Terminated(f.ltype, ValueOf(s))
    case Repeated(_) => forall v | v in ItemsOf(s) :: Terminated(f.ltype, v)
  }

  predicate TerminatedMessage(d: Desc, slots: seq<Slot>)
    decreases d
  {
    forall i | 0 <= i < |d.fields| :: TerminatedField(d.fields[i], At(d, slots, i))
  }

  // ---- descriptors -----------------------------------------------------------------------------------

  /** A field without a has_ member is left out when it is zero, so zero is its default. */
  predicate ZeroDefault(f: Field) {
    match f.ltype
    case Sub(_) => true
    case Bytes(_) => f.dflt == Blob([])
    case Text(_) => f.dflt == Blob([])
    case FixedBytes(n) => n == 0 ==> f.dflt == Blob([])
    case _ => f.dflt == Num(0)
  }

  ghost predicate DistinctTags(d: Desc) {
    forall i, j :: 0 <= i < j < |d.fields| ==> d.fields[i].tag != d.fields[j].tag
  }

  ghost predicate GoodField(f: Field)
    decreases f
  {
    0 < f.tag < 0x2000_0000 && (f.htype.Singular? ==> ZeroDefault(f)) && (f.ltype.Sub? ==> Good(f.ltype.desc))
  }

  /** A descriptor of the kind the generator makes. */
  ghost predicate Good(d: Desc)
    decreases d
  {
    DistinctTags(d) && forall i | 0 <= i < |d.fields| :: GoodField(d.fields[i])
  }

  /** Two descriptors' fields of one kind; which of a union's members comes first does not matter. */
  predicate SameKind(f: Field, g: Field) {
    f.tag == g.tag && f.ltype == g.ltype && f.dflt == g.dflt && (f.htype == g.htype || (f.htype.OneOf? && g.htype.OneOf?))
  }

  /** From one version of a message to another fields may come and go.  The fields they share are
      of one kind, and those that are in one union for the reader are so for the sender. */
  ghost predicate Evolves(e: Desc, d: Desc) {
    && (forall i, j :: 0 <= i < |e.fields| && 0 <= j < |d.fields| && e.fields[i].tag == d.fields[j].tag ==>
          SameKind(e.fields[i], d.fields[j]))
    && forall i, j, k, l :: Shared(e, d, i, j) && Shared(e, d, k, l) && SlotOf(d, j) == SlotOf(d, l) ==>
         SlotOf(e, i) == SlotOf(e, k)
  }

  ghost predicate Shared(e: Desc, d: Desc, i: int, j: int) {
    0 <= i < |e.fields| && 0 <= j < |d.fields| && e.fields[i].tag == d.fields[j].tag
  }

  lemma MatesAlike(e: Desc, d: Desc, i: nat, j: nat, k: nat, l: nat)
    requires i < |e.fields| && j < |d.fields| && e.fields[i].tag == d.fields[j].tag
    requires k < |e.fields| && l < |d.fields| && e.fields[k].tag == d.fields[l].tag
    requires Evolves(e, d) && SlotOf(d, j) == SlotOf(d, l)
    ensures SlotOf(e, i) == SlotOf(e, k)
  {
    hide SlotOf;
    assert Shared(e, d, i, j) && Shared(e, d, k, l);
  }

  lemma KindOf(e: Desc, d: Desc, i: nat, j: nat)
    requires Evolves(e, d) && i < |e.fields| && j < |d.fields| && e.fields[i].tag == d.fields[j].tag
    ensures SameKind(e.fields[i], d.fields[j])
  {
    hide SlotOf;
  }

  /** A descriptor evolves into itself. */
  lemma Unchanged(d: Desc)
    requires DistinctTags(d)
    ensures Evolves(d, d)
  {
    hide SlotOf;
  }

  /** Fields of one kind write, and mean, the same. */
  lemma KindIs(f: Field, g: Field, s: Slot)
    requires SameKind(f, g)
    ensures FieldBytes(f, s) == FieldBytes(g, s) && (CanEncodeField(f, s) <==> CanEncodeField(g, s))
    ensures (FitsField(f, s) <==> FitsField(g, s)) && (TerminatedField(f, s) <==> TerminatedField(g, s))
  {
    hide Key, Body, CanEncode, Fits, Terminated, IsZero;
    assert f.htype == g.htype ==> f == g;
  }

  // ---- values without structure ---------------------------------------------------------------------------

  lemma NumberBack(l: LType, v: Data, rest: seq<byte>)
    requires Packable(l) && Fits(l, v) && CanEncode(l, v)
    ensures var r := DecodeScalar(l, Body(l, v) + rest);
            r.Some? && r.value.1 == rest && Same(l, v, r.value.0)
  {
    hide Read32, Varint, GetVarint64, LittleEndian, FromLittleEndian, Signed;
    match l {
      case Bool => Read32UndoesPut(if v.n != 0 then 1 else 0, rest);
      case VarInt(w) =>
        Get64UndoesPut(v.n % TWO64, rest);
        SignedBack(v.n, w);
      case UVarInt(w) => Get64UndoesPut(v.n, rest);
      case SVarInt(w) =>
        ZigZagBack(v.n, w);
        Get64UndoesPut(ZigZag(v.n), rest);
      case Fix32 =>
        Pow256s();
        LittleEndianRoundTrip(v.n, 4);
        TakeBack(LittleEndian(v.n, 4), rest);
      case Fix64 =>
        Pow256s();
        LittleEndianRoundTrip(v.n, 8);
        TakeBack(LittleEndian(v.n, 8), rest);
    }
  }

  lemma StringBack(l: LType, v: Data, rest: seq<byte>)
    requires l.Bytes? || l.Text? || l.FixedBytes?
    requires Fits(l, v) && CanEncode(l, v) && |Body(l, v)| < TWO32
    ensures var r := DecodeScalar(l, Body(l, v) + rest);
            if Terminated(l, v) then r.Some? && r.value.1 == rest && Same(l, v, r.value.0) else r.None?
  {
    hide Varint, TakeString, CString;
    TakeStringUndoesPut(v.s, rest);
    if l.Text? { CStringWhole(v.s); }
  }

  // ---- one entry of a message --------------------------------------------------------------------------

  /** A field's member once `w` has been read into it. */
  function Filled(f: Field, s: Slot, w: Data): Slot {
    match f.htype
    case Repeated(_) => Many(ItemsOf(s) + [w])
    case OneOf(_) => Which(f.tag, w)
    case Optional => Maybe(true, w)
    case _ => One(w)
  }

  lemma DecodeFieldsStep(d: Desc, s: seq<byte>, t: seq<Slot>, seen: set<nat>, pos: nat, i: nat, wire: nat, rest: seq<byte>)
    requires pos < |d.fields| && i < |d.fields| && DistinctTags(d)
    requires ReadKey(s) == GoodKey(d.fields[i].tag, wire, rest) && s != []
    ensures var x := DecodeField(d.fields[i], wire, rest, At(d, t, i));
      DecodeFields(d, s, t, seen, pos)
        == if x.None? then None else DecodeFields(d, x.value.1, Fill(d, t, i, x.value.0), Seen(d, i, seen), i)
  {
    hide ReadKey, DecodeField, At, Fill, Seen, IsSuffix;
    TagIsEnough(d, pos, i);
  }

  /** What a field's decoder is handed to merge a submessage into. */
  predicate Clean(f: Field, s: Slot) {
    && (f.ltype.Sub? && !f.htype.Repeated? && !f.htype.OneOf? ==> ValueOf(s) == Message(Defaults(f.ltype.desc)))
    && (f.htype.Repeated? ==> |ItemsOf(s)| < f.htype.most)
  }

  ghost predicate GoodType(l: LType) { l.Sub? ==> Good(l.desc) }

  lemma {:induction false} BodyBack(l: LType, v: Data, rest: seq<byte>, dest: Data)
    requires Fits(l, v) && CanEncode(l, v) && |Body(l, v)| < TWO32 && GoodType(l)
    requires l.Sub? ==> dest == Message(Defaults(l.desc))
    ensures var r := DecodeBody(l, Body(l, v) + rest, dest);
            if Terminated(l, v) then r.Some? && r.value.1 == rest && Same(l, v, r.value.0) else r.None?
    decreases l, 0, 0
  {
    hide DecodeScalar, TakeString, DecodeNoInit, Good, Defaults, MessageBytes, FitsMessage, CanEncodeMessage, TerminatedMessage, SameMessage;
    if l.Sub? {
      TakeStringUndoesPut(MessageBytes(l.desc, v.slots, 0), rest);
      MessageBack(l.desc, v.slots);
    } else if Packable(l) {
      NumberBack(l, v, rest);
    } else {
      StringBack(l, v, rest);
    }
  }

  lemma {:induction false} EntryBack(d: Desc, i: nat, v: Data, rest: seq<byte>, t: seq<Slot>, seen: set<nat>, pos: nat) returns (w: Data)
    requires i < |d.fields| && pos < |d.fields| && Good(d)
    requires var f := d.fields[i];
      && Fits(f.ltype, v) && CanEncode(f.ltype, v) && |Body(f.ltype, v)| < TWO32
      && Clean(f, At(d, t, i)) && !(f.htype.Repeated? && Packable(f.ltype))
    ensures var f := d.fields[i];
      var all := DecodeFields(d, Key(f.tag, WireOf(f.ltype)) + Body(f.ltype, v) + rest, t, seen, pos);
      if Terminated(f.ltype, v)
      then Same(f.ltype, v, w) && all == DecodeFields(d, rest, Fill(d, t, i, Filled(f, At(d, t, i), w)), Seen(d, i, seen), i)
      else all == None
    decreases d, 0, 0
  {
    hide Good, Fits, CanEncode, Body, Terminated, Same, DecodeBody, DecodeFields, Key, ReadKey, At, Fill, Seen;
    GoodParts(d, i);
    var f := d.fields[i];
    var s := Key(f.tag, WireOf(f.ltype)) + Body(f.ltype, v) + rest;
    assert s == Key(f.tag, WireOf(f.ltype)) + (Body(f.ltype, v) + rest);
    ReadKeyUndoesPut(f.tag, WireOf(f.ltype), Body(f.ltype, v) + rest);
    DecodeFieldsStep(d, s, t, seen, pos, i, WireOf(f.ltype), Body(f.ltype, v) + rest);
    var dest := if f.htype.Repeated? || f.htype.OneOf? then Fresh(f.ltype) else ValueOf(At(d, t, i));
    BodyBack(f.ltype, v, rest, dest);
    var r := DecodeBody(f.ltype, Body(f.ltype, v) + rest, dest);
    w := if r.Some? then r.value.0 else Num(0);
  }

  lemma GoodParts(d: Desc, i: nat)
    requires Good(d) && i < |d.fields|
    ensures GoodField(d.fields[i]) && GoodType(d.fields[i].ltype) && DistinctTags(d)
    ensures 0 < d.fields[i].tag < 0x2000_0000
  {}

  // ---- a message half read -----------------------------------------------------------------------------

  predicate Pending(f: Field, t: Slot) {
    if f.htype.OneOf? then t.Which? && t.tag != f.tag else t == DefaultSlot(f)
  }

  /** A field before the `i`th has the tag. */
  ghost predicate Among(e: Desc, i: nat, tag: nat) { exists k: nat :: k < i && k < |e.fields| && e.fields[k].tag == tag }

  /** The fields of `e` before the `i`th have been read into `t`, where `d` has them; the others
      have not. */
  ghost predicate Halfway(e: Desc, d: Desc, m: seq<Slot>, i: nat, t: seq<Slot>) {
    && |t| == SlotCount(d)
    && (forall k: nat, j: nat | k < i && k < |e.fields| && j < |d.fields| && e.fields[k].tag == d.fields[j].tag ::
          SameField(d.fields[j], At(e, m, k), At(d, t, j)))
    && (forall j: nat | j < |d.fields| && !Among(e, i, d.fields[j].tag) :: Pending(d.fields[j], At(d, t, j)))
  }

  /** The required fields that have been seen are those that `e` has before the `i`th. */
  ghost predicate SeenUpTo(e: Desc, d: Desc, i: nat, seen: set<nat>) {
    forall j: nat | j < |d.fields| && d.fields[j].htype.Required? && RequiredBefore(d, j) < MAX_REQUIRED_FIELDS ::
      RequiredBefore(d, j) in seen <==> Among(e, i, d.fields[j].tag)
  }

  lemma PutAt(d: Desc, t: seq<Slot>, i: nat, s: Slot, j: nat)
    requires i < |d.fields| && j < |d.fields| && |t| == SlotCount(d)
    ensures |Fill(d, t, i, s)| == SlotCount(d)
    ensures At(d, Fill(d, t, i, s), j) == if SlotOf(d, i) == SlotOf(d, j) then s else At(d, t, j)
  {
    hide Opened;
    SlotIn(d, i);
  }

  /** What the `i`th field leaves in its member. */
  ghost predicate Filling(f: Field, s: Slot, before: Slot, after: Slot) {
    && SameField(f, s, after)
    && (f.htype.OneOf? ==> if s.tag == f.tag then after.tag == f.tag else after == before)
  }

  lemma AmongOn(e: Desc, i: nat, tag: nat)
    requires i < |e.fields|
    ensures Among(e, i + 1, tag) <==> Among(e, i, tag) || e.fields[i].tag == tag
  {
    if Among(e, i + 1, tag) && e.fields[i].tag != tag {
      var k: nat :| k < i + 1 && k < |e.fields| && e.fields[k].tag == tag;
      assert k < i;
    }
  }

  lemma HalfwayOn(e: Desc, d: Desc, m: seq<Slot>, i: nat, j: nat, t: seq<Slot>, s: Slot)
    requires i < |e.fields| && j < |d.fields| && e.fields[i].tag == d.fields[j].tag
    requires DistinctTags(e) && DistinctTags(d) && FitsMessage(e, m) && Evolves(e, d)
    requires Halfway(e, d, m, i, t) && Filling(d.fields[j], At(e, m, i), At(d, t, j), s)
    ensures Halfway(e, d, m, i + 1, Fill(d, t, j, s))
  {
    hide SlotOf, Fill, SameField, Filling, Among, Pending, FitsMessage, Evolves;
    var u := Fill(d, t, j, s);
    PutAt(d, t, j, s, j);
    forall l: nat | l < |d.fields|
      ensures !Among(e, i + 1, d.fields[l].tag) ==> Pending(d.fields[l], At(d, u, l))
    {
      AmongOn(e, i, d.fields[l].tag);
      PutAt(d, t, j, s, l);
      if l != j && SlotOf(d, j) == SlotOf(d, l) {
        Mates(d, t, j, l);
        MatesAre(d, j, l);
        FillingMate(d.fields[j], d.fields[l], At(e, m, i), At(d, t, j), s);
      }
    }
    forall k: nat, l: nat | k < i + 1 && k < |e.fields| && l < |d.fields| && e.fields[k].tag == d.fields[l].tag
      ensures SameField(d.fields[l], At(e, m, k), At(d, u, l))
    {
      PutAt(d, t, j, s, l);
      if l == j {
        FillingIsSame(d.fields[j], At(e, m, i), At(d, t, j), s);
      } else if SlotOf(d, j) == SlotOf(d, l) {
        Mates(d, t, j, l);
        MatesAre(d, j, l);
        MatesAlike(e, d, i, j, k, l);
        Mates(e, m, i, k);
        FillingMate(d.fields[j], d.fields[l], At(e, m, i), At(d, t, j), s);
      }
    }
  }

  lemma FillingIsSame(f: Field, s: Slot, before: Slot, after: Slot)
    requires Filling(f, s, before, after)
    ensures SameField(f, s, after)
  {}

  /** What one member of a union leaves behind does for another. */
  lemma FillingMate(f: Field, g: Field, s: Slot, before: Slot, after: Slot)
    requires f.htype.OneOf? && g.htype.OneOf? && f.tag != g.tag && Filling(f, s, before, after)
    ensures Pending(g, before) ==> Pending(g, after)
    ensures SameField(g, s, before) ==> SameField(g, s, after)
  {
    hide Same;
  }

  lemma HalfwaySkips(e: Desc, d: Desc, m: seq<Slot>, i: nat, t: seq<Slot>)
    requires i < |e.fields| && Unknown(d, e.fields[i].tag) && Halfway(e, d, m, i, t)
    ensures Halfway(e, d, m, i + 1, t)
  {
    hide At, SameField, Pending, Among;
    forall j: nat | j < |d.fields| ensures Among(e, i, d.fields[j].tag) ==> Among(e, i + 1, d.fields[j].tag) {
      AmongOn(e, i, d.fields[j].tag);
    }
  }

  lemma Mates(d: Desc, t: seq<Slot>, i: nat, j: nat)
    requires i < |d.fields| && j < |d.fields| && SlotOf(d, i) == SlotOf(d, j)
    ensures At(d, t, i) == At(d, t, j)
  {
    hide SlotOf;
  }

  lemma MatesAre(d: Desc, i: nat, j: nat)
    requires i < |d.fields| && j < |d.fields| && SlotOf(d, i) == SlotOf(d, j) && i != j
    ensures d.fields[i].htype.OneOf? && d.fields[j].htype.OneOf?
  {
    hide SlotOf;
    if i < j { OnlyUnionsShare(d, i, j); } else { OnlyUnionsShare(d, j, i); }
  }

  lemma FillAgain(d: Desc, t: seq<Slot>, i: nat, a: Slot, b: Slot)
    requires i < |d.fields|
    ensures Fill(d, Fill(d, t, i, a), i, b) == Fill(d, t, i, b)
    ensures Fill(d, t, i, At(d, t, i)) == t
  {
    hide SlotOf;
  }

  // ---- arrays ------------------------------------------------------------------------------------------

  ghost predicate Sendable(l: LType, vs: seq<Data>) { forall v | v in vs :: Fits(l, v) && CanEncode(l, v) }

  predicate AllTerminated(l: LType, vs: seq<Data>) { forall v | v in vs :: Terminated(l, v) }

  lemma AllSameOn(f: Field, vs: seq<Data>, w: Data, ws: seq<Data>)
    requires vs != [] && Same(f.ltype, vs[0], w) && AllSame(f, vs[1..], ws)
    ensures AllSame(f, vs, [w] + ws)
  {
    hide Same;
    forall j: nat | j < |vs| ensures Same(f.ltype, vs[j], ([w] + ws)[j]) {
      if j > 0 { assert vs[j] == vs[1..][j - 1]; }
    }
  }

  lemma {:induction false} PackedBack(f: Field, vs: seq<Data>, acc: seq<Data>, most: nat) returns (ws: seq<Data>)
    requires Packable(f.ltype) && Sendable(f.ltype, vs) && |acc| + |vs| <= most
    ensures DecodePacked(f.ltype, PackedBytes(f.ltype, vs), acc, most) == Some(acc + ws) && AllSame(f, vs, ws)
    decreases |vs|
  {
    hide Fits, CanEncode, Body, DecodeScalar, Same;
    var l := f.ltype;
    if vs == [] {
      ws := [];
      assert acc + ws == acc;
    } else {
      var rest := PackedBytes(l, vs[1..]);
      NumberBack(l, vs[0], rest);
      var w := DecodeScalar(l, Body(l, vs[0]) + rest).value.0;
      ws := PackedBack(f, vs[1..], acc + [w], most);
      AllSameOn(f, vs, w, ws);
      ws := [w] + ws;
      assert acc + ws == (acc + [w]) + ws[1..];
    }
  }

  lemma PackedFieldBack(d: Desc, i: nat, vs: seq<Data>, rest: seq<byte>, t: seq<Slot>, seen: set<nat>, pos: nat) returns (ws: seq<Data>)
    requires i < |d.fields| && pos < |d.fields| && Good(d)
    requires var f := d.fields[i];
      && f.htype.Repeated? && Packable(f.ltype) && Sendable(f.ltype, vs) && |PackedBytes(f.ltype, vs)| < TWO32
      && At(d, t, i) == Many([]) && |vs| <= f.htype.most
    ensures var f := d.fields[i];
      && AllSame(f, vs, ws)
      && DecodeFields(d, Key(f.tag, 2) + Prefixed(PackedBytes(f.ltype, vs)) + rest, t, seen, pos)
           == DecodeFields(d, rest, Fill(d, t, i, Many(ws)), seen, i)
  {
    hide Good, Sendable, PackedBytes, DecodePacked, DecodeFields, Key, ReadKey, TakeString, Prefixed, Same, At, Fill;
    GoodParts(d, i);
    var f := d.fields[i];
    var packed := PackedBytes(f.ltype, vs);
    ws := PackedBack(f, vs, [], f.htype.most);
    assert [] + ws == ws;
    ReadKeyUndoesPut(f.tag, 2, Prefixed(packed) + rest);
    TakeStringUndoesPut(packed, rest);
    var s := Key(f.tag, 2) + Prefixed(packed) + rest;
    assert s == Key(f.tag, 2) + (Prefixed(packed) + rest);
    DecodeFieldsStep(d, s, t, seen, pos, i, 2, Prefixed(packed) + rest);
  }

  lemma {:induction false} ItemsBack(d: Desc, i: nat, vs: seq<Data>, rest: seq<byte>, t: seq<Slot>, seen: set<nat>, pos: nat)
      returns (ws: seq<Data>, p: nat)
    requires i < |d.fields| && pos < |d.fields| && Good(d) && |t| == SlotCount(d)
    requires var f := d.fields[i];
      && f.htype.Repeated? && !Packable(f.ltype) && Sendable(f.ltype, vs) && |UnpackedBytes(f, vs)| < TWO32
      && At(d, t, i).Many? && |At(d, t, i).vs| + |vs| <= f.htype.most
    ensures p < |d.fields|
    ensures var f := d.fields[i];
      var all := DecodeFields(d, UnpackedBytes(f, vs) + rest, t, seen, pos);
      if AllTerminated(f.ltype, vs)
      then AllSame(f, vs, ws) && all == DecodeFields(d, rest, Fill(d, t, i, Many(At(d, t, i).vs + ws)), seen, p)
      else all == None
    decreases d, 1, |vs|
  {
    hide Good, Fits, CanEncode, Body, Terminated, Same, DecodeFields, Key, At, Fill, SlotOf;
    var f := d.fields[i];
    var acc := At(d, t, i).vs;
    ws, p := [], pos;
    if vs == [] {
      assert acc + [] == acc && UnpackedBytes(f, vs) + rest == rest;
      FillAgain(d, t, i, At(d, t, i), At(d, t, i));
    } else {
      var key, body, others := Key(f.tag, WireOf(f.ltype)), Body(f.ltype, vs[0]), UnpackedBytes(f, vs[1..]);
      assert UnpackedBytes(f, vs) + rest == key + body + (others + rest);
      assert vs[0] in vs;
      var w := EntryBack(d, i, vs[0], others + rest, t, seen, pos);
      if Terminated(f.ltype, vs[0]) {
        var u := Fill(d, t, i, Many(acc + [w]));
        PutAt(d, t, i, Many(acc + [w]), i);
        ws, p := ItemsBack(d, i, vs[1..], rest, u, seen, i);
        FillAgain(d, t, i, Many(acc + [w]), Many(acc + [w] + ws));
        if AllTerminated(f.ltype, vs[1..]) { AllSameOn(f, vs, w, ws); }
        assert acc + ([w] + ws) == acc + [w] + ws;
        ws := [w] + ws;
      }
    }
  }

  // ---- a whole message -----------------------------------------------------------------------------------

  lemma {:induction false} DefaultsAt(d: Desc, i: nat, n: nat)
    requires i < n <= |d.fields|
    ensures SlotOf(d, i) < Opened(d, n) && DefaultsUpTo(d, n)[SlotOf(d, i)] == DefaultSlot(d.fields[i])
    decreases n
  {
    hide Default;
    if i < n - 1 {
      DefaultsAt(d, i, n - 1);
    } else if Joins(d, i) {
      DefaultsAt(d, i - 1, n - 1);
    }
  }

  lemma DefaultAt(d: Desc, i: nat)
    requires i < |d.fields|
    ensures At(d, Defaults(d), i) == DefaultSlot(d.fields[i])
  {
    hide Opened, SlotOf, DefaultSlot;
    DefaultsAt(d, i, |d.fields|);
  }

  /** A field that is left out for being zero reads back as its default. */
  lemma {:induction false} ZeroIsDefault(f: Field, s: Slot)
    requires GoodField(f) && FitsField(f, s) && IsZero(f, s)
    ensures SameField(f, s, DefaultSlot(f))
    decreases f
  {
    hide At, DefaultsUpTo;
    assert DefaultSlot(f).One? ==> DefaultSlot(f).v == Default(f);
    if f.htype.Singular? && !f.ltype.Sub? {
      assert Default(f) == f.dflt;
      assert Fits(f.ltype, s.v) && Same(f.ltype, s.v, f.dflt);
    }
    if f.htype.Singular? && f.ltype.Sub? {
      assert Fits(f.ltype, s.v);
      var d, slots := f.ltype.desc, s.v.slots;
      assert FitsMessage(d, slots) && Good(d);
      forall i: nat | i < |d.fields| ensures SameField(d.fields[i], At(d, slots, i), At(d, Defaults(d), i)) {
        ZeroIsDefault(d.fields[i], At(d, slots, i));
        DefaultAt(d, i);
      }
      assert SameMessage(d, slots, Defaults(d));
      assert Default(f) == Message(Defaults(d));
      assert Same(f.ltype, s.v, Message(Defaults(d)));
    }
  }

  /** The bytes of a field with one value, when it is sent. */
  predicate Sent(f: Field, s: Slot) {
    match f.htype
    case Required => true
    case Optional => s.Maybe? && s.has
    case Singular => !IsZero(f, s)
    case OneOf(_) => s.Which? && s.tag == f.tag
    case Repeated(_) => false
  }

  lemma SentIs(f: Field, s: Slot)
    requires !f.htype.Repeated? && FitsField(f, s)
    ensures FieldBytes(f, s) == if Sent(f, s) then Key(f.tag, WireOf(f.ltype)) + Body(f.ltype, ValueOf(s)) else []
    ensures f.htype.Required? ==> Sent(f, s)
    ensures Sent(f, s) ==> Fits(f.ltype, ValueOf(s)) && (CanEncodeField(f, s) <==> CanEncode(f.ltype, ValueOf(s)))
    ensures TerminatedField(f, s) <==> (Sent(f, s) ==> Terminated(f.ltype, ValueOf(s)))
  {
    hide IsZero, Key, Body, Fits, CanEncode, Terminated;
  }

  lemma SentFills(f: Field, s: Slot, before: Slot, w: Data)
    requires !f.htype.Repeated? && FitsField(f, s) && Sent(f, s) && Same(f.ltype, ValueOf(s), w)
    ensures Filling(f, s, before, Filled(f, before, w))
  {
    hide IsZero, Fits, Same;
  }

  lemma NotSentKeeps(f: Field, s: Slot, before: Slot)
    requires !f.htype.Repeated? && FitsField(f, s) && !Sent(f, s) && GoodField(f) && Pending(f, before)
    ensures Filling(f, s, before, before)
  {
    hide IsZero, Fits, Same, Default;
    if f.htype.Singular? { ZeroIsDefault(f, s); }
  }

  lemma PendingIsClean(f: Field, before: Slot)
    requires Pending(f, before) && (f.htype.Repeated? ==> f.htype.most > 0)
    ensures Clean(f, before)
  {
    hide DefaultsUpTo;
    if f.ltype.Sub? { assert Default(f) == Message(Defaults(f.ltype.desc)); }
  }

  lemma {:induction false} RequiredGrows(d: Desc, i: nat, j: nat)
    requires i < j <= |d.fields|
    ensures RequiredBefore(d, i) <= RequiredBefore(d, j)
    ensures d.fields[i].htype.Required? ==> RequiredBefore(d, i) < RequiredBefore(d, j)
    decreases j
  {
    if i < j - 1 { RequiredGrows(d, i, j - 1); }
  }

  /** The required fields are counted one by one. */
  lemma {:induction false} RequiredNth(d: Desc, n: nat, k: nat) returns (j: nat)
    requires n <= |d.fields| && k < RequiredBefore(d, n)
    ensures j < n && d.fields[j].htype.Required? && RequiredBefore(d, j) == k
  {
    if k < RequiredBefore(d, n - 1) { j := RequiredNth(d, n - 1, k); } else { j := n - 1; }
  }

  lemma RequiredOn(e: Desc, d: Desc, i: nat, j: nat, seen: set<nat>)
    requires i < |e.fields| && j < |d.fields| && SeenUpTo(e, d, i, seen)
    requires e.fields[i].tag == d.fields[j].tag && DistinctTags(d)
    ensures SeenUpTo(e, d, i + 1, Seen(d, j, seen))
    ensures !d.fields[j].htype.Required? ==> SeenUpTo(e, d, i + 1, seen)
  {
    hide RequiredBefore, Among;
    forall l: nat | l < |d.fields| && d.fields[l].htype.Required?
      ensures Among(e, i + 1, d.fields[l].tag) <==> Among(e, i, d.fields[l].tag) || l == j
      ensures d.fields[j].htype.Required? && l != j ==> RequiredBefore(d, l) != RequiredBefore(d, j)
    {
      AmongOn(e, i, d.fields[l].tag);
      if l < j { RequiredGrows(d, l, j); }
      if j < l { RequiredGrows(d, j, l); }
    }
  }

  lemma RequiredSkips(e: Desc, d: Desc, i: nat, seen: set<nat>)
    requires i < |e.fields| && Unknown(d, e.fields[i].tag) && SeenUpTo(e, d, i, seen)
    ensures SeenUpTo(e, d, i + 1, seen)
  {
    hide RequiredBefore, Among;
    forall j: nat | j < |d.fields| ensures Among(e, i, d.fields[j].tag) <==> Among(e, i + 1, d.fields[j].tag) {
      AmongOn(e, i, d.fields[j].tag);
    }
  }

  /** The sender has every required field that the reader can keep count of. */
  ghost predicate HasRequired(e: Desc, d: Desc) {
    forall j: nat | j < |d.fields| && d.fields[j].htype.Required? && RequiredBefore(d, j) < MAX_REQUIRED_FIELDS ::
      Among(e, |e.fields|, d.fields[j].tag)
  }

  lemma AllSeenIs(e: Desc, d: Desc, seen: set<nat>)
    requires SeenUpTo(e, d, |e.fields|, seen)
    ensures AllSeen(d, seen) <==> HasRequired(e, d)
  {
    hide RequiredBefore, Among;
    if HasRequired(e, d) {
      forall k: nat | k < MAX_REQUIRED_FIELDS && k < RequiredBefore(d, |d.fields|) ensures k in seen {
        var j := RequiredNth(d, |d.fields|, k);
      }
    }
    if AllSeen(d, seen) {
      forall j: nat | j < |d.fields| && d.fields[j].htype.Required? && RequiredBefore(d, j) < MAX_REQUIRED_FIELDS
        ensures Among(e, |e.fields|, d.fields[j].tag)
      {
        RequiredGrows(d, j, |d.fields|);
      }
    }
  }

  /** The `j`th field of `d` reads back what the `i`th of `e` put out. */
  lemma {:induction false} ValueFieldBack(e: Desc, d: Desc, m: seq<Slot>, i: nat, j: nat, rest: seq<byte>, t: seq<Slot>, seen: set<nat>,
                                          pos: nat)
      returns (t': seq<Slot>, seen': set<nat>, p: nat)
    requires i < |e.fields| && j < |d.fields| && e.fields[i].tag == d.fields[j].tag && pos < |d.fields|
    requires DistinctTags(e) && Good(d) && FitsMessage(e, m) && Evolves(e, d)
    requires FitsField(d.fields[j], At(e, m, i))
    requires CanEncodeField(d.fields[j], At(e, m, i)) && |FieldBytes(d.fields[j], At(e, m, i))| < TWO32
    requires Halfway(e, d, m, i, t) && SeenUpTo(e, d, i, seen) && !d.fields[j].htype.Repeated?
    ensures p < |d.fields|
    ensures var all := DecodeFields(d, FieldBytes(d.fields[j], At(e, m, i)) + rest, t, seen, pos);
      if TerminatedField(d.fields[j], At(e, m, i))
      then Halfway(e, d, m, i + 1, t') && SeenUpTo(e, d, i + 1, seen') && all == DecodeFields(d, rest, t', seen', p)
      else all == None
    decreases d, 2, 0
  {
    hide *;
    GoodParts(d, j);
    var f, s, before := d.fields[j], At(e, m, i), At(d, t, j);
    PendingAt(e, d, m, i, j, t);
    SentIs(f, s);
    if Sent(f, s) {
      PendingIsClean(f, before);
      var w := EntryBack(d, j, ValueOf(s), rest, t, seen, pos);
      t', seen', p := Fill(d, t, j, Filled(f, before, w)), Seen(d, j, seen), j;
      RequiredOn(e, d, i, j, seen);
      if TerminatedField(f, s) {
        SentFills(f, s, before, w);
        HalfwayOn(e, d, m, i, j, t, Filled(f, before, w));
      }
    } else {
      assert [] + rest == rest;
      t', seen', p := t, seen, pos;
      NotSentKeeps(f, s, before);
      HalfwayOn(e, d, m, i, j, t, before);
      FillAgain(d, t, j, before, before);
      RequiredOn(e, d, i, j, seen);
    }
  }

  lemma FitsAt(d: Desc, m: seq<Slot>, i: nat)
    requires i < |d.fields| && FitsMessage(d, m)
    ensures FitsField(d.fields[i], At(d, m, i))
  {
    hide FitsField, At;
  }

  lemma PendingAt(e: Desc, d: Desc, m: seq<Slot>, i: nat, j: nat, t: seq<Slot>)
    requires i < |e.fields| && j < |d.fields| && e.fields[i].tag == d.fields[j].tag
    requires DistinctTags(e) && Halfway(e, d, m, i, t)
    ensures Pending(d.fields[j], At(d, t, j)) && |t| == SlotCount(d)
  {
    hide SameField, Pending, At;
    assert !Among(e, i, d.fields[j].tag);
  }

  lemma {:induction false} FieldBack(e: Desc, d: Desc, m: seq<Slot>, i: nat, j: nat, rest: seq<byte>, t: seq<Slot>, seen: set<nat>,
                                     pos: nat)
      returns (t': seq<Slot>, seen': set<nat>, p: nat)
    requires i < |e.fields| && j < |d.fields| && e.fields[i].tag == d.fields[j].tag && pos < |d.fields|
    requires DistinctTags(e) && Good(d) && FitsMessage(e, m) && Evolves(e, d)
    requires CanEncodeField(e.fields[i], At(e, m, i)) && |FieldBytes(e.fields[i], At(e, m, i))| < TWO32
    requires Halfway(e, d, m, i, t) && SeenUpTo(e, d, i, seen)
    ensures p < |d.fields|
    ensures var all := DecodeFields(d, FieldBytes(e.fields[i], At(e, m, i)) + rest, t, seen, pos);
      if TerminatedField(e.fields[i], At(e, m, i))
      then Halfway(e, d, m, i + 1, t') && SeenUpTo(e, d, i + 1, seen') && all == DecodeFields(d, rest, t', seen', p)
      else all == None
    decreases d, 3, 0
  {
    hide *;
    var f, s := d.fields[j], At(e, m, i);
    FitsAt(e, m, i);
    KindOf(e, d, i, j);
    KindIs(e.fields[i], f, s);
    if !f.htype.Repeated? {
      t', seen', p := ValueFieldBack(e, d, m, i, j, rest, t, seen, pos);
    } else {
      GoodParts(d, j);
      PendingAt(e, d, m, i, j, t);
      ArrayIs(f, s, At(d, t, j));
      RequiredOn(e, d, i, j, seen);
      var ws: seq<Data>;
      seen' := seen;
      if s.vs == [] {
        ws, p := [], pos;
        assert [] + rest == rest;
        FillAgain(d, t, j, Many([]), Many([]));
      } else if Packable(f.ltype) {
        ws := PackedFieldBack(d, j, s.vs, rest, t, seen, pos);
        p := j;
      } else {
        ws, p := ItemsBack(d, j, s.vs, rest, t, seen, pos);
        assert [] + ws == ws;
      }
      t' := Fill(d, t, j, Many(ws));
      if TerminatedField(f, s) {
        ArrayFills(f, s, At(d, t, j), ws);
        HalfwayOn(e, d, m, i, j, t, Many(ws));
      }
    }
  }

  /** The bytes of an array. */
  lemma ArrayIs(f: Field, s: Slot, before: Slot)
    requires f.htype.Repeated? && FitsField(f, s) && CanEncodeField(f, s) && Pending(f, before)
    ensures s.Many? && before == Many([]) && Sendable(f.ltype, s.vs) && |s.vs| <= f.htype.most
    ensures FieldBytes(f, s) ==
      if s.vs == [] then []
      else if Packable(f.ltype) then Key(f.tag, 2) + Prefixed(PackedBytes(f.ltype, s.vs))
      else UnpackedBytes(f, s.vs)
    ensures Packable(f.ltype) && s.vs != [] ==> |PackedBytes(f.ltype, s.vs)| <= |FieldBytes(f, s)|
    ensures TerminatedField(f, s) <==> AllTerminated(f.ltype, s.vs)
    ensures Packable(f.ltype) || s.vs == [] ==> AllTerminated(f.ltype, s.vs)
  {
    hide Fits, CanEncode, PackedBytes, UnpackedBytes, Key;
  }

  lemma ArrayFills(f: Field, s: Slot, before: Slot, ws: seq<Data>)
    requires f.htype.Repeated? && s.Many? && (AllSame(f, s.vs, ws) || s.vs == ws == [])
    ensures Filling(f, s, before, Many(ws))
  {
    hide Same;
  }

  /** The texts that `d` gets to see, from the `i`th field of `e` on, are terminated. */
  ghost predicate SeenTerminated(e: Desc, d: Desc, m: seq<Slot>, i: nat) {
    forall k: nat | i <= k < |e.fields| && !Unknown(d, e.fields[k].tag) :: TerminatedField(e.fields[k], At(e, m, k))
  }

  lemma SeenTerminatedOn(e: Desc, d: Desc, m: seq<Slot>, i: nat)
    requires i < |e.fields|
    ensures SeenTerminated(e, d, m, i)
      <==> (Unknown(d, e.fields[i].tag) || TerminatedField(e.fields[i], At(e, m, i))) && SeenTerminated(e, d, m, i + 1)
  {
    hide Unknown, TerminatedField, At;
  }

  lemma Known(d: Desc, tag: nat) returns (j: nat)
    requires !Unknown(d, tag)
    ensures j < |d.fields| && d.fields[j].tag == tag
  {
    j :| j < |d.fields| && d.fields[j].tag == tag;
  }

  lemma {:induction false} FieldsBack(e: Desc, d: Desc, m: seq<Slot>, i: nat, t: seq<Slot>, seen: set<nat>, pos: nat)
    requires i <= |e.fields| && (pos < |d.fields| || d.fields == []) && Good(e) && Good(d) && FitsMessage(e, m) && Evolves(e, d)
    requires CanEncodeMessage(e, m) && |MessageBytes(e, m, i)| < TWO32
    requires Halfway(e, d, m, i, t) && SeenUpTo(e, d, i, seen)
    ensures var r := DecodeFields(d, MessageBytes(e, m, i), t, seen, pos);
      if SeenTerminated(e, d, m, i)
      then r.Some? && r.value.2 == [] && Halfway(e, d, m, |e.fields|, r.value.0) && SeenUpTo(e, d, |e.fields|, r.value.1)
      else r == None
    decreases d, 4, |e.fields| - i
  {
    hide Good, FitsMessage, CanEncodeField, FieldBytes, MessageBytes, At, TerminatedField, Halfway, SeenUpTo, DecodeFields, Evolves,
         DistinctTags, Unknown, SeenTerminated;
    MessageIs(e, m, i);
    if i < |e.fields| {
      GoodParts(e, i);
      SeenTerminatedOn(e, d, m, i);
      if Unknown(d, e.fields[i].tag) {
        UnknownFieldIsSkipped(d, e.fields[i], At(e, m, i), MessageBytes(e, m, i + 1), t, seen, pos);
        HalfwaySkips(e, d, m, i, t);
        RequiredSkips(e, d, i, seen);
        FieldsBack(e, d, m, i + 1, t, seen, pos);
      } else {
        var j := Known(d, e.fields[i].tag);
        var t', seen', p := FieldBack(e, d, m, i, j, MessageBytes(e, m, i + 1), t, seen, pos);
        if TerminatedField(e.fields[i], At(e, m, i)) {
          FieldsBack(e, d, m, i + 1, t', seen', p);
        }
      }
    } else {
      NothingLeft(d, t, seen, pos);
      assert SeenTerminated(e, d, m, |e.fields|) by { NothingUnseen(e, d, m); }
    }
  }

  lemma NothingUnseen(e: Desc, d: Desc, m: seq<Slot>)
    ensures SeenTerminated(e, d, m, |e.fields|)
  {}

  lemma MessageIs(d: Desc, m: seq<Slot>, i: nat)
    requires i <= |d.fields|
    ensures MessageBytes(d, m, i)
      == if i == |d.fields| then [] else FieldBytes(d.fields[i], At(d, m, i)) + MessageBytes(d, m, i + 1)
  {
    hide FieldBytes, At;
  }

  lemma NothingLeft(d: Desc, t: seq<Slot>, seen: set<nat>, pos: nat)
    ensures DecodeFields(d, [], t, seen, pos) == Some((t, seen, []))
  {}

  /** What the reader makes of a message: the fields it shares with the sender, and its defaults. */
  ghost predicate Received(e: Desc, d: Desc, m: seq<Slot>, t: seq<Slot>) {
    && |t| == SlotCount(d)
    && (forall i: nat, j: nat | i < |e.fields| && j < |d.fields| && e.fields[i].tag == d.fields[j].tag ::
          SameField(d.fields[j], At(e, m, i), At(d, t, j)))
    && (forall j: nat | j < |d.fields| && Unknown(e, d.fields[j].tag) :: Pending(d.fields[j], At(d, t, j)))
  }

  lemma HalfwayIsReceived(e: Desc, d: Desc, m: seq<Slot>, t: seq<Slot>)
    requires Halfway(e, d, m, |e.fields|, t)
    ensures Received(e, d, m, t)
  {
    hide SameField, At, Pending;
  }

  lemma NothingReceived(e: Desc, d: Desc, m: seq<Slot>)
    requires Good(d)
    ensures Halfway(e, d, m, 0, Defaults(d)) && SeenUpTo(e, d, 0, {})
  {
    hide At, DefaultSlot, SameField, Opened, Good, RequiredBefore;
    forall j: nat | j < |d.fields| ensures Pending(d.fields[j], At(d, Defaults(d), j)) {
      DefaultAt(d, j);
      DefaultIsPending(d, j);
    }
  }

  /** Decoding with one version of a message what was encoded with another: the fields that the
      reader does not have are passed over, and it gives exactly what both have.  It fails exactly
      when one of their texts is not terminated or a required field is missing. */
  lemma {:induction false} VersionBack(e: Desc, d: Desc, m: seq<Slot>)
    requires Good(e) && Good(d) && Evolves(e, d)
    requires FitsMessage(e, m) && CanEncodeMessage(e, m) && |MessageBytes(e, m, 0)| < TWO32
    ensures var r := DecodeNoInit(d, MessageBytes(e, m, 0), Defaults(d));
            if SeenTerminated(e, d, m, 0) && HasRequired(e, d) then r.Some? && r.value.1 == [] && Received(e, d, m, r.value.0)
            else r.None?
    decreases d, 5, 0
  {
    hide Halfway, SeenUpTo, DecodeFields, MessageBytes, CanEncodeMessage, FitsMessage, SeenTerminated, HasRequired, Received, Good, Evolves,
         AllSeen, Defaults;
    NothingReceived(e, d, m);
    FieldsBack(e, d, m, 0, Defaults(d), {}, 0);
    if SeenTerminated(e, d, m, 0) {
      var r := DecodeFields(d, MessageBytes(e, m, 0), Defaults(d), {}, 0).value;
      AllSeenIs(e, d, r.1);
      HalfwayIsReceived(e, d, m, r.0);
    }
  }

  lemma AllKnown(d: Desc, m: seq<Slot>)
    requires Good(d)
    ensures Evolves(d, d) && HasRequired(d, d)
    ensures SeenTerminated(d, d, m, 0) <==> TerminatedMessage(d, m)
    ensures forall t :: Received(d, d, m, t) && |m| == SlotCount(d) ==> SameMessage(d, m, t)
  {
    hide At, TerminatedField, SameField, RequiredBefore, GoodField, Pending;
    Unchanged(d);
    hide Evolves;
  }

  lemma {:induction false} MessageBack(d: Desc, m: seq<Slot>)
    requires Good(d) && FitsMessage(d, m) && CanEncodeMessage(d, m) && |MessageBytes(d, m, 0)| < TWO32
    ensures var r := DecodeNoInit(d, MessageBytes(d, m, 0), Defaults(d));
            if TerminatedMessage(d, m) then r.Some? && r.value.1 == [] && SameMessage(d, m, r.value.0) else r.None?
    decreases d, 6, 0
  {
    hide MessageBytes, CanEncodeMessage, SeenTerminated, HasRequired, Received, Good, Evolves, DecodeNoInit, TerminatedMessage, Defaults,
         SameMessage, FitsField;
    AllKnown(d, m);
    VersionBack(d, d, m);
  }

  lemma DefaultIsPending(d: Desc, j: nat)
    requires j < |d.fields| && Good(d)
    ensures Pending(d.fields[j], DefaultSlot(d.fields[j]))
  {
    hide Default;
    GoodParts(d, j);
  }

  /** pb_decode after pb_encode: exactly the messages whose texts are terminated come back, and
      they come back whole. */
  lemma DecodeUndoesEncode(d: Desc, m: seq<Slot>)
    requires Good(d) && FitsMessage(d, m) && CanEncodeMessage(d, m) && |MessageBytes(d, m, 0)| < TWO32
    ensures Decode(d, MessageBytes(d, m, 0)).Some? <==> TerminatedMessage(d, m)
    ensures TerminatedMessage(d, m) ==>
      var r := Decode(d, MessageBytes(d, m, 0)).value;
      SameMessage(d, m, r.0) && r.1 == []
  {
    hide DecodeNoInit, Good, FitsMessage, CanEncodeMessage, TerminatedMessage, SameMessage, MessageBytes, Defaults;
    MessageBack(d, m);
  }

  /** pb_decode with a newer or an older version of the message than it was encoded with. */
  lemma DecodeOtherVersion(e: Desc, d: Desc, m: seq<Slot>)
    requires Good(e) && Good(d) && Evolves(e, d)
    requires FitsMessage(e, m) && CanEncodeMessage(e, m) && |MessageBytes(e, m, 0)| < TWO32
    ensures Decode(d, MessageBytes(e, m, 0)).Some? <==> SeenTerminated(e, d, m, 0) && HasRequired(e, d)
    ensures SeenTerminated(e, d, m, 0) && HasRequired(e, d) ==>
      var r := Decode(d, MessageBytes(e, m, 0)).value;
      Received(e, d, m, r.0) && r.1 == []
  {
    hide DecodeNoInit, Good, FitsMessage, CanEncodeMessage, MessageBytes, Defaults, Evolves, SeenTerminated, HasRequired, Received;
    VersionBack(e, d, m);
  }
}
