/** What a compaction may forget (db/db_impl.cc, DoCompactionWork).

    A scene is a database at the moment of a compaction, cut into the parts that the
    argument distinguishes; CompactionScene.dfy cuts a version into a scene. */
module CompactionMeaning {
  import opened Dbformat

  datatype Scene = Scene(
    above: set<Entry>,          // memtables and shallower levels
    left0: set<Entry>,          // files left at the compacted level
    in0: set<Entry>,            // inputs of the compacted level
    left1: set<Entry>,          // files left at the next level
    in1: set<Entry>,            // inputs of the next level
    below: set<Entry>,          // deeper levels
    ghost base: iset<UserKey>)  // keys for which IsBaseLevelForKey answers yes
  {
    ghost function Inputs(): set<Entry> { in0 + in1 }

    ghost function Rest(): set<Entry> { above + left0 + left1 + below }

    ghost function Before(): set<Entry> { Rest() + Inputs() }

    ghost predicate Valid() {
      && UniqueSeqs(Before())
      && Newer(above, left0 + in0 + left1 + in1 + below)
      && Newer(left0, in0)
      && Newer(left0 + in0, left1 + in1)
      && Newer(left0 + in0 + left1 + in1, below)
      && left1 !! in1
      && (forall x, y :: x in in0 && y in left1 ==> x.key.ukey != y.key.ukey)
      && (forall y :: y in below ==> y.key.ukey !in base)
    }
  }

  /** Rule (A): a newer entry of the inputs is itself old enough for every reader. */
  ghost predicate Hidden(inputs: set<Entry>, snapshot: SeqNo, e: Entry) {
    exists x :: x in inputs && x.key.ukey == e.key.ukey && e.key.seqno < x.key.seqno <= snapshot
  }

  /** The tombstone rule: an old deletion with nothing for its key in deeper levels. */
  ghost predicate DeadTombstone(base: iset<UserKey>, snapshot: SeqNo, e: Entry) {
    e.key.kind.Deletion? && e.key.seqno <= snapshot && e.key.ukey in base
  }

  /** What the loop leaves out.  It takes the largest sequence number for "no newer entry",
      so when that number is the smallest snapshot itself, every entry counts as hidden. */
  ghost predicate Dropped(inputs: set<Entry>, base: iset<UserKey>, snapshot: SeqNo, e: Entry) {
    snapshot == MAX_SEQUENCE || Hidden(inputs, snapshot, e) || DeadTombstone(base, snapshot, e)
  }

  ghost function Kept(inputs: set<Entry>, base: iset<UserKey>, snapshot: SeqNo): set<Entry> {
    set e | e in inputs && !Dropped(inputs, base, snapshot, e)
  }

  ghost function After(c: Scene, snapshot: SeqNo): set<Entry> {
    c.Rest() + Kept(c.Inputs(), c.base, snapshot)
  }

  /** A dropped tombstone is the newest entry for `k`, and a live value for `k` is left
      behind at the next level. */
  ghost predicate Resurrects(c: Scene, snapshot: SeqNo, k: UserKey, t: Entry) {
    && Newest(c.Before(), k, snapshot, t)
    && t in c.Inputs() && t.key.kind.Deletion? && k in c.base
    && Read(c.left1, k, snapshot).Some?
  }

  /** A lookup whose newest entry survives answers as before. */
  lemma SurvivorAnswers(c: Scene, snapshot: SeqNo, k: UserKey, s: SeqNo, e: Entry)
    requires c.Valid() && Newest(c.Before(), k, s, e) && e in After(c, snapshot)
    ensures Read(After(c, snapshot), k, s) == Read(c.Before(), k, s)
  {
    var a, b := After(c, snapshot), c.Before();
    assert a <= b;
    VisibleIs(b, k, s, e);
    VisibleIs(a, k, s, e);
  }

  /** A lookup whose newest entry is dropped had met a dead tombstone, and afterwards
      sees exactly what is left of its key at the next level. */
  lemma DroppedIsTombstone(c: Scene, snapshot: SeqNo, k: UserKey, s: SeqNo, e: Entry)
    requires c.Valid() && Newest(c.Before(), k, s, e) && e !in After(c, snapshot) && snapshot <= s && snapshot < MAX_SEQUENCE
    ensures DeadTombstone(c.base, snapshot, e) && e in c.Inputs() && Newest(c.Before(), k, snapshot, e)
    ensures forall x :: x in After(c, snapshot) && Matches(x, k, s) <==> x in c.left1 && Matches(x, k, snapshot)
  {
    var b := c.Before();
    assert e in c.Inputs() && Dropped(c.Inputs(), c.base, snapshot, e);
    assert !Hidden(c.Inputs(), snapshot, e);
    forall x | x in After(c, snapshot) && Matches(x, k, s)
      ensures x in c.left1 && Matches(x, k, snapshot)
    {
      OnlyLeftoverIsOlder(c, snapshot, e, x);
    }
    forall x | x in c.left1 && Matches(x, k, snapshot) ensures x in After(c, snapshot) && Matches(x, k, s) {}
  }

  lemma OnlyLeftoverIsOlder(c: Scene, snapshot: SeqNo, t: Entry, x: Entry)
    requires c.Valid() && t in c.Inputs() && DeadTombstone(c.base, snapshot, t)
    requires x in After(c, snapshot) && x != t && x.key.ukey == t.key.ukey && x.key.seqno <= t.key.seqno
    ensures x in c.left1
  {
    assert x in c.Before() && t in c.Before();
    assert x.key.seqno < t.key.seqno;
    if x in c.Inputs() {
      assert Hidden(c.Inputs(), snapshot, x);
      assert x in c.Rest();
    }
  }

  /** A read depends only on the entries that match. */
  lemma ReadDepends(a: set<Entry>, b: set<Entry>, k: UserKey, s: SeqNo, s': SeqNo)
    requires UniqueSeqs(a) && UniqueSeqs(b)
    requires forall x :: x in a && Matches(x, k, s) <==> x in b && Matches(x, k, s')
    ensures Read(a, k, s) == Read(b, k, s')
  {
    VisibleSpec(a, k, s);
    VisibleSpec(b, k, s');
    if Visible(a, k, s).Some? {
      VisibleIs(b, k, s', Visible(a, k, s).value);
    }
  }

  /** After a dropped tombstone the lookup reads what is left at the next level. */
  lemma DroppedReadsLeftover(c: Scene, snapshot: SeqNo, k: UserKey, s: SeqNo, e: Entry)
    requires c.Valid() && Newest(c.Before(), k, s, e) && e !in After(c, snapshot) && snapshot <= s && snapshot < MAX_SEQUENCE
    ensures Read(c.Before(), k, s).None?
    ensures Read(After(c, snapshot), k, s) == Read(c.left1, k, snapshot)
  {
    DroppedIsTombstone(c, snapshot, k, s, e);
    VisibleIs(c.Before(), k, s, e);
    assert After(c, snapshot) <= c.Before() && c.left1 <= c.Before();
    ReadDepends(After(c, snapshot), c.left1, k, s, snapshot);
  }

  /** A compaction keeps every read at or after the smallest snapshot, unless it
      resurrects a value left behind at the next level. */
  lemma ReadsKept(c: Scene, snapshot: SeqNo, k: UserKey, s: SeqNo)
    requires c.Valid() && snapshot <= s && snapshot < MAX_SEQUENCE
    requires forall t :: !Resurrects(c, snapshot, k, t)
    ensures Read(After(c, snapshot), k, s) == Read(c.Before(), k, s)
  {
    var a, b := After(c, snapshot), c.Before();
    VisibleSpec(b, k, s);
    if Visible(b, k, s).None? {
      assert a <= b;
      VisibleSpec(a, k, s);
    } else {
      var e := Visible(b, k, s).value;
      if e in a {
        SurvivorAnswers(c, snapshot, k, s, e);
      } else {
        DroppedIsTombstone(c, snapshot, k, s, e);
        DroppedReadsLeftover(c, snapshot, k, s, e);
        assert !Resurrects(c, snapshot, k, e);
      }
    }
  }

  /** ... and when it does, the read at the smallest snapshot itself changes. */
  lemma ResurrectionShows(c: Scene, snapshot: SeqNo, k: UserKey, t: Entry)
    requires c.Valid() && Resurrects(c, snapshot, k, t) && snapshot < MAX_SEQUENCE
    ensures Read(c.Before(), k, snapshot).None? && Read(After(c, snapshot), k, snapshot).Some?
  {
    assert DeadTombstone(c.base, snapshot, t);
    assert t !in After(c, snapshot) by {
      assert Dropped(c.Inputs(), c.base, snapshot, t);
      RestSharesNoInput(c, t);
    }
    DroppedReadsLeftover(c, snapshot, k, snapshot, t);
  }

  lemma RestSharesNoInput(c: Scene, x: Entry)
    requires c.Valid() && x in c.Inputs()
    ensures x !in c.Rest()
  {}

  /** An input that answers a read at the largest sequence number, and answers it otherwise
      than what lies below does. */
  ghost predicate Exposed(c: Scene, t: Entry) {
    && t in c.Inputs() && Newest(c.Before(), t.key.ukey, MAX_SEQUENCE, t)
    && Content(Some(t)) != Read(c.Rest(), t.key.ukey, MAX_SEQUENCE)
  }

  /** Something is lost: a resurrection, or anything that is read at all when the smallest
      snapshot is the largest sequence number. */
  ghost predicate Forgets(c: Scene, snapshot: SeqNo) {
    if snapshot < MAX_SEQUENCE then exists k, t :: Resurrects(c, snapshot, k, t) else exists t :: Exposed(c, t)
  }

  /** At the largest sequence number a read depends on the inputs exactly when one is exposed. */
  lemma AllDroppedIff(c: Scene, k: UserKey)
    requires c.Valid()
    ensures After(c, MAX_SEQUENCE) == c.Rest()
    ensures Read(c.Rest(), k, MAX_SEQUENCE) == Read(c.Before(), k, MAX_SEQUENCE)
       <==> !exists t :: Exposed(c, t) && t.key.ukey == k
  {
    var b := c.Before();
    VisibleSpec(b, k, MAX_SEQUENCE);
    VisibleSpec(c.Rest(), k, MAX_SEQUENCE);
    forall t | Newest(b, k, MAX_SEQUENCE, t) ensures Read(b, k, MAX_SEQUENCE) == Content(Some(t)) {
      VisibleIs(b, k, MAX_SEQUENCE, t);
      if t in c.Rest() {
        assert Newest(c.Rest(), k, MAX_SEQUENCE, t);
        VisibleIs(c.Rest(), k, MAX_SEQUENCE, t);
      }
    }
    if Visible(b, k, MAX_SEQUENCE).Some? {
      var e := Visible(b, k, MAX_SEQUENCE).value;
      assert e in c.Inputs() && Content(Some(e)) != Read(c.Rest(), k, MAX_SEQUENCE) ==> Exposed(c, e);
    }
  }

  /** Exactly when a compaction preserves meaning. */
  lemma MeaningKeptIff(c: Scene, snapshot: SeqNo)
    requires c.Valid()
    ensures (forall k, s :: snapshot <= s ==> Read(After(c, snapshot), k, s) == Read(c.Before(), k, s))
       <==> !Forgets(c, snapshot)
  {
    if snapshot == MAX_SEQUENCE {
      forall k ensures After(c, snapshot) == c.Rest()
        && (Read(c.Rest(), k, MAX_SEQUENCE) == Read(c.Before(), k, MAX_SEQUENCE) <==> !exists t :: Exposed(c, t) && t.key.ukey == k)
      {
        AllDroppedIff(c, k);
      }
    } else if k, t :| Resurrects(c, snapshot, k, t) {
      ResurrectionShows(c, snapshot, k, t);
    } else {
      forall k, s: SeqNo | snapshot <= s ensures Read(After(c, snapshot), k, s) == Read(c.Before(), k, s) {
        ReadsKept(c, snapshot, k, s);
      }
    }
  }
}
