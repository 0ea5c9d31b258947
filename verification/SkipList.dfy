/** The memtable's skip list: one writer and any number of lock-free readers
    (db/skiplist.h).  A step is one load or one store of a link or of the height; steps of
    the writer and of the readers interleave freely.

    Keys are reals, as user keys are in Dbformat.dfy: all that counts is their order. */
module SkipList {
  import opened Dbformat

  const MAX_HEIGHT := 12

  type Key = real

  /** A node is named by its key; the head sorts before every key. */
  datatype Node = Head | At(key: Key)

  predicate Past(n: Node, k: Key) { n.Head? || n.key < k }

  datatype Kind = GreaterOrEqual | LessThan | Last

  /** A search in progress, or its result: a link for GreaterOrEqual, a node otherwise. */
  datatype Reader =
    | Walking(kind: Kind, target: Key, x: Node, level: nat)
    | FoundLink(next: Option<Key>)
    | FoundNode(node: Node)

  datatype Writer =
    | Idle
    | Searching(key: Key, x: Node, level: nat, prev: map<nat, Node>)
    | Located(key: Key, prev: map<nat, Node>)
      // Levels below `i` are linked; `half`: the new node's own link at `i` is set.
    | Linking(key: Key, height: nat, prev: map<nat, Node>, i: nat, half: bool)

  /** `links` has no entry for a link that was never stored.  `lists` says which keys can
      be reached at each level. */
  datatype State = State(links: map<(Node, nat), Option<Key>>, maxHeight: nat, writer: Writer, readers: map<nat, Reader>,
                         lists: seq<set<Key>>)

  // ---- the invariant ------------------------------------------------------------------------

  /** `q` is the first key after `p`. */
  ghost predicate IsNext(keys: set<Key>, p: Node, q: Option<Key>) {
    match q
    case None => forall k :: k in keys ==> !Past(p, k)
    case Some(v) => v in keys && Past(p, v) && forall k :: k in keys && Past(p, k) ==> v <= k
  }

  predicate On(keys: set<Key>, p: Node) { p.Head? || p.key in keys }

  ghost predicate Linked(s: State, i: nat)
    requires i < |s.lists|
  {
    forall p :: On(s.lists[i], p) ==> (p, i) in s.links && IsNext(s.lists[i], p, s.links[(p, i)])
  }

  ghost predicate SubList(s: State, i: nat)
    requires i + 1 < |s.lists|
  {
    s.lists[i + 1] <= s.lists[i]
  }

  /** The node after which a key belongs. */
  ghost predicate IsPrev(keys: set<Key>, p: Node, key: Key) {
    On(keys, p) && Past(p, key) && forall k :: k in keys && Past(p, k) ==> key < k
  }

  ghost predicate ReaderOk(s: State, r: Reader)
    requires |s.lists| == MAX_HEIGHT
  {
    r.Walking? ==> r.level < MAX_HEIGHT && On(s.lists[r.level], r.x) && (r.kind.Last? || Past(r.x, r.target))
  }

  ghost predicate PrevOk(s: State, prev: map<nat, Node>, i: nat, key: Key)
    requires i < |s.lists|
  {
    i in prev && IsPrev(s.lists[i], prev[i], key)
  }

  ghost predicate WriterOk(s: State)
    requires |s.lists| == MAX_HEIGHT && s.maxHeight <= MAX_HEIGHT
  {
    match s.writer
    case Idle => true
    case Searching(key, x, level, prev) =>
      && key !in s.lists[0] && level < s.maxHeight && On(s.lists[level], x) && Past(x, key)
      && forall i :: level < i < s.maxHeight ==> PrevOk(s, prev, i, key)
    case Located(key, prev) => key !in s.lists[0] && forall i :: 0 <= i < s.maxHeight ==> PrevOk(s, prev, i, key)
    case Linking(key, height, prev, i, half) =>
      && 0 < height <= s.maxHeight && i < height
      && (forall j :: i <= j < MAX_HEIGHT ==> key !in s.lists[j]) && (i > 0 ==> key in s.lists[i - 1])
      && (forall j :: i <= j < height ==> PrevOk(s, prev, j, key))
      && (half ==> (At(key), i) in s.links && IsNext(s.lists[i], At(key), s.links[(At(key), i)]))
  }

  ghost predicate Inv(s: State) {
    && |s.lists| == MAX_HEIGHT && 0 < s.maxHeight <= MAX_HEIGHT
    && (forall i :: 0 <= i < MAX_HEIGHT ==> Linked(s, i))
    && (forall i :: 0 <= i < MAX_HEIGHT - 1 ==> SubList(s, i))
    && (forall i :: s.maxHeight <= i < MAX_HEIGHT ==> s.lists[i] == {})
    && WriterOk(s)
    && forall id :: id in s.readers ==> ReaderOk(s, s.readers[id])
  }

  // ---- the steps ----------------------------------------------------------------------------

  datatype Action =
    | StartRead(id: nat, kind: Kind, target: Key)   // loads max_height_
    | Load(id: nat)                                 // loads one link
    | StartInsert(key: Key)
    | WriterLoad
    | ChooseHeight(height: nat)                     // stores max_height_ when it grows; NewNode
    | LinkOwn                                       // x->NoBarrier_SetNext(i, prev[i]->Next(i))
    | LinkPrev                                      // prev[i]->SetNext(i, x)

  ghost predicate Enabled(s: State, a: Action) {
    match a
    case StartRead(id, _, _) => s.maxHeight > 0
    case Load(id) => id in s.readers && s.readers[id].Walking?
    case StartInsert(key) => s.writer.Idle? && s.maxHeight > 0 && |s.lists| > 0 && key !in s.lists[0]
    case WriterLoad => s.writer.Searching?
    case ChooseHeight(height) => s.writer.Located? && 0 < height <= MAX_HEIGHT
    case LinkOwn => s.writer.Linking? && !s.writer.half
    case LinkPrev => s.writer.Linking? && s.writer.half
  }

  /** The link that an action loads, if it loads one. */
  function Loaded(s: State, a: Action): Option<(Node, nat)> {
    match a
    case Load(id) =>
      if id in s.readers && s.readers[id].Walking? then Some((s.readers[id].x, s.readers[id].level)) else None
    case WriterLoad => if s.writer.Searching? then Some((s.writer.x, s.writer.level)) else None
    case LinkOwn =>
      if s.writer.Linking? && s.writer.i in s.writer.prev then Some((s.writer.prev[s.writer.i], s.writer.i)) else None
    case _ => None
  }

  function LinkAt(s: State, p: Node, i: nat): Option<Key> {
    if (p, i) in s.links then s.links[(p, i)] else None
  }

  /** One round of the loop of FindGreaterOrEqual, FindLessThan or FindLast. */
  function Walk(r: Reader, next: Option<Key>): Reader
    requires r.Walking?
  {
    if next.Some? && (r.kind.Last? || next.value < r.target) then r.(x := At(next.value))
    else if r.level > 0 then r.(level := r.level - 1)
    else if r.kind.GreaterOrEqual? then FoundLink(next)
    else FoundNode(r.x)
  }

  function WithHeads(prev: map<nat, Node>, from: nat, to: nat): map<nat, Node> {
    if to <= from then prev else WithHeads(prev, from, to - 1)[to - 1 := Head]
  }

  function Do(s: State, a: Action): State
    requires Enabled(s, a)
  {
    match a
    case StartRead(id, kind, target) => s.(readers := s.readers[id := Walking(kind, target, Head, s.maxHeight - 1)])
    case Load(id) =>
      var r := s.readers[id];
      s.(readers := s.readers[id := Walk(r, LinkAt(s, r.x, r.level))])
    case StartInsert(key) => s.(writer := Searching(key, Head, s.maxHeight - 1, map[]))
    case WriterLoad =>
      var w := s.writer;
      var next := LinkAt(s, w.x, w.level);
      if next.Some? && next.value < w.key then s.(writer := Searching(w.key, At(next.value), w.level, w.prev))
      else if w.level > 0 then s.(writer := Searching(w.key, w.x, w.level - 1, w.prev[w.level := w.x]))
      else s.(writer := Located(w.key, w.prev[0 := w.x]))
    case ChooseHeight(height) =>
      var w := s.writer;
      s.(writer := Linking(w.key, height, WithHeads(w.prev, s.maxHeight, height), 0, false),
         maxHeight := if height > s.maxHeight then height else s.maxHeight)
    case LinkOwn =>
      var w := s.writer;
      var p := if w.i in w.prev then w.prev[w.i] else Head;
      s.(links := s.links[(At(w.key), w.i) := LinkAt(s, p, w.i)], writer := Linking(w.key, w.height, w.prev, w.i, true))
    case LinkPrev =>
      var w := s.writer;
      var p := if w.i in w.prev then w.prev[w.i] else Head;
      s.(links := s.links[(p, w.i) := Some(w.key)],
         lists := if w.i < |s.lists| then s.lists[w.i := s.lists[w.i] + {w.key}] else s.lists,
         writer := if w.i + 1 < w.height then Linking(w.key, w.height, w.prev, w.i + 1, false) else Idle)
  }

  /** The constructor: every link of the head is null. */
  ghost predicate IsNew(s: State) {
    && |s.lists| == MAX_HEIGHT && (forall i :: 0 <= i < MAX_HEIGHT ==> s.lists[i] == {})
    && (forall i :: 0 <= i < MAX_HEIGHT ==> (Head, i) in s.links && s.links[(Head, i)] == None)
    && s.maxHeight == 1 && s.writer.Idle? && s.readers == map[]
  }

  // ---- every step keeps the invariant ----------------------------------------------------------

  lemma NewIsOk(s: State)
    requires IsNew(s)
    ensures Inv(s)
  {}

  /** Nobody ever loads a link that was not stored before. */
  lemma LoadedWasStored(s: State, a: Action)
    requires Inv(s) && Enabled(s, a)
    ensures a.Load? || a.WriterLoad? || a.LinkOwn? ==> Loaded(s, a).Some? && Loaded(s, a).value in s.links
  {
    match a
    case Load(id) => assert ReaderOk(s, s.readers[id]) && Linked(s, s.readers[id].level);
    case WriterLoad => assert Linked(s, s.writer.level);
    case LinkOwn => assert PrevOk(s, s.writer.prev, s.writer.i, s.writer.key) && Linked(s, s.writer.i);
    case _ =>
  }

  lemma ReadersStayOk(s: State, s': State)
    requires |s.lists| == |s'.lists| == MAX_HEIGHT && s'.readers == s.readers
    requires forall i :: 0 <= i < MAX_HEIGHT ==> s.lists[i] <= s'.lists[i]
    requires forall id :: id in s.readers ==> ReaderOk(s, s.readers[id])
    ensures forall id :: id in s'.readers ==> ReaderOk(s', s'.readers[id])
  {
    forall id | id in s'.readers ensures ReaderOk(s', s'.readers[id]) {
      assert ReaderOk(s, s.readers[id]);
    }
  }

  lemma SameLists(s: State, s': State)
    requires Inv(s) && s'.lists == s.lists && s'.links == s.links && s.maxHeight <= s'.maxHeight <= MAX_HEIGHT
    ensures forall i :: 0 <= i < MAX_HEIGHT ==> Linked(s', i)
    ensures forall i :: 0 <= i < MAX_HEIGHT - 1 ==> SubList(s', i)
    ensures forall i :: s'.maxHeight <= i < MAX_HEIGHT ==> s'.lists[i] == {}
  {
    forall i | 0 <= i < MAX_HEIGHT ensures Linked(s', i) { assert Linked(s, i); }
    forall i | 0 <= i < MAX_HEIGHT - 1 ensures SubList(s', i) { assert SubList(s, i); }
  }

  lemma StartReadKeeps(s: State, id: nat, kind: Kind, target: Key)
    requires Inv(s)
    ensures Inv(Do(s, StartRead(id, kind, target)))
  {
    var s' := Do(s, StartRead(id, kind, target));
    SameLists(s, s');
    WriterIgnoresReaders(s, s');
    forall j | j in s'.readers ensures ReaderOk(s', s'.readers[j]) {
      if j != id { assert ReaderOk(s, s.readers[j]); }
    }
  }

  lemma WriterIgnoresReaders(s: State, s': State)
    requires |s.lists| == MAX_HEIGHT && s.maxHeight <= MAX_HEIGHT && WriterOk(s) && s'.writer == s.writer && s'.lists == s.lists
    requires s'.links == s.links && s'.maxHeight == s.maxHeight
    ensures WriterOk(s')
  {
    forall prev, i: nat, key | i < MAX_HEIGHT && PrevOk(s, prev, i, key) ensures PrevOk(s', prev, i, key) {}
  }

  lemma LoadKeeps(s: State, id: nat)
    requires Inv(s) && Enabled(s, Load(id))
    ensures Inv(Do(s, Load(id)))
  {
    var s', r := Do(s, Load(id)), s.readers[id];
    SameLists(s, s');
    WriterIgnoresReaders(s, s');
    assert ReaderOk(s, r) && Linked(s, r.level);
    if r.level > 0 { assert SubList(s, r.level - 1); }
    forall j | j in s'.readers ensures ReaderOk(s', s'.readers[j]) {
      if j != id { assert ReaderOk(s, s.readers[j]); }
    }
  }

  lemma WriterLoadKeeps(s: State)
    requires Inv(s) && Enabled(s, WriterLoad)
    ensures Inv(Do(s, WriterLoad))
  {
    var s', w := Do(s, WriterLoad), s.writer;
    SameLists(s, s');
    ReadersStayOk(s, s');
    assert Linked(s, w.level);
    if w.level > 0 { assert SubList(s, w.level - 1); }
    KeyNotAbove(s, w.key, w.level);
    var prev := w.prev[w.level := w.x];
    forall i | w.level <= i < s.maxHeight && !(s'.writer.Searching? && s'.writer.level == w.level)
      ensures PrevOk(s', prev, i, w.key)
    {
      if i > w.level { assert PrevOk(s, w.prev, i, w.key); }
    }
    forall i | w.level < i < s.maxHeight ensures PrevOk(s', w.prev, i, w.key) {
      assert PrevOk(s, w.prev, i, w.key);
    }
  }

  /** A key missing at the bottom is missing at every level. */
  lemma {:induction false} KeyNotAbove(s: State, key: Key, level: nat)
    requires |s.lists| == MAX_HEIGHT && level < MAX_HEIGHT && key !in s.lists[0]
    requires forall i :: 0 <= i < MAX_HEIGHT - 1 ==> SubList(s, i)
    ensures key !in s.lists[level]
  {
    if level > 0 {
      KeyNotAbove(s, key, level - 1);
      assert SubList(s, level - 1);
    }
  }

  lemma {:induction false} WithHeadsSpec(prev: map<nat, Node>, from: nat, to: nat)
    ensures forall i: nat :: i in WithHeads(prev, from, to) <==> i in prev || from <= i < to
    ensures forall i: nat :: i in WithHeads(prev, from, to) ==>
              WithHeads(prev, from, to)[i] == if from <= i < to then Head else prev[i]
  {
    if from < to { WithHeadsSpec(prev, from, to - 1); }
  }

  lemma ChooseHeightKeeps(s: State, height: nat)
    requires Inv(s) && Enabled(s, ChooseHeight(height))
    ensures Inv(Do(s, ChooseHeight(height)))
  {
    var s', w := Do(s, ChooseHeight(height)), s.writer;
    SameLists(s, s');
    ReadersStayOk(s, s');
    WithHeadsSpec(w.prev, s.maxHeight, height);
    forall j | 0 <= j < height ensures PrevOk(s', s'.writer.prev, j, w.key) {
      if j < s.maxHeight { assert PrevOk(s, w.prev, j, w.key); }
    }
    forall j | 0 <= j < MAX_HEIGHT ensures w.key !in s'.lists[j] { KeyNotAbove(s, w.key, j); }
  }

  /** The new node's own link is set before anyone can reach the node. */
  lemma LinkOwnKeeps(s: State)
    requires Inv(s) && Enabled(s, LinkOwn)
    ensures Inv(Do(s, LinkOwn))
  {
    var s', w := Do(s, LinkOwn), s.writer;
    ReadersStayOk(s, s');
    assert PrevOk(s, w.prev, w.i, w.key) && Linked(s, w.i);
    forall i | 0 <= i < MAX_HEIGHT ensures Linked(s', i) {
      assert Linked(s, i);
    }
    forall i | 0 <= i < MAX_HEIGHT - 1 ensures SubList(s', i) { assert SubList(s, i); }
    forall j | w.i <= j < w.height ensures PrevOk(s', w.prev, j, w.key) {
      assert PrevOk(s, w.prev, j, w.key);
    }
  }

  lemma NextAfterInsert(keys: set<Key>, prev: Node, key: Key, p: Node, q: Option<Key>)
    requires IsPrev(keys, prev, key) && key !in keys && On(keys, p) && IsNext(keys, p, q)
    ensures IsNext(keys + {key}, p, if p == prev then Some(key) else q)
  {
    if p != prev && Past(p, key) {
      assert q.Some? && q.value < key;
    }
  }

  lemma LinkPrevLevel(s: State, s': State)
    requires Inv(s) && Enabled(s, LinkPrev) && s' == Do(s, LinkPrev)
    ensures Linked(s', s.writer.i)
  {
    var w := s.writer;
    assert PrevOk(s, w.prev, w.i, w.key) && Linked(s, w.i);
    var keys, prev := s.lists[w.i], w.prev[w.i];
    forall p | On(s'.lists[w.i], p)
      ensures (p, w.i) in s'.links && IsNext(s'.lists[w.i], p, s'.links[(p, w.i)])
    {
      if p == At(w.key) {
        assert IsNext(keys, p, s.links[(p, w.i)]);
      } else {
        NextAfterInsert(keys, prev, w.key, p, s.links[(p, w.i)]);
      }
    }
  }

  /** One store makes the node reachable at one more level. */
  lemma LinkPrevKeeps(s: State)
    requires Inv(s) && Enabled(s, LinkPrev)
    ensures Inv(Do(s, LinkPrev))
  {
    var s', w := Do(s, LinkPrev), s.writer;
    ReadersStayOk(s, s');
    assert PrevOk(s, w.prev, w.i, w.key);
    LinkPrevLevel(s, s');
    forall i | 0 <= i < MAX_HEIGHT && i != w.i ensures Linked(s', i) {
      assert Linked(s, i);
    }
    forall i | 0 <= i < MAX_HEIGHT - 1 ensures SubList(s', i) { assert SubList(s, i); }
    forall j | w.i < j < w.height ensures PrevOk(s', w.prev, j, w.key) {
      assert PrevOk(s, w.prev, j, w.key);
    }
  }

  /** Level i+1 stays a sublist of level i, every link of a reachable node leads to the
      next reachable node, and no search ever stands on a node that is not reachable at its
      level. */
  lemma StepKeeps(s: State, a: Action)
    requires Inv(s) && Enabled(s, a)
    ensures Inv(Do(s, a))
    ensures forall i :: 0 <= i < MAX_HEIGHT ==> s.lists[i] <= Do(s, a).lists[i]
  {
    hide Linked, SubList, WriterOk, ReaderOk;
    match a
    case StartRead(id, kind, target) => StartReadKeeps(s, id, kind, target);
    case Load(id) => LoadKeeps(s, id);
    case StartInsert(key) => StartInsertKeeps(s, key);
    case WriterLoad => WriterLoadKeeps(s);
    case ChooseHeight(height) => ChooseHeightKeeps(s, height);
    case LinkOwn => LinkOwnKeeps(s);
    case LinkPrev => LinkPrevKeeps(s);
  }

  lemma StartInsertKeeps(s: State, key: Key)
    requires Inv(s) && Enabled(s, StartInsert(key))
    ensures Inv(Do(s, StartInsert(key)))
  {
    SameLists(s, Do(s, StartInsert(key)));
    ReadersStayOk(s, Do(s, StartInsert(key)));
  }

  // ---- what a search finds ------------------------------------------------------------------------

  /** The answer of a search over the keys reachable at the bottom. */
  ghost predicate Answers(keys: set<Key>, kind: Kind, target: Key, r: Reader) {
    match kind
    case GreaterOrEqual =>
      && r.FoundLink?
      && (r.next.Some? ==> r.next.value in keys && r.next.value >= target)
      && forall k :: k in keys && k >= target ==> r.next.Some? && r.next.value <= k
    case LessThan =>
      && r.FoundNode? && On(keys, r.node)
      && (r.node.At? ==> r.node.key < target)
      && forall k :: k in keys && k < target ==> !Past(r.node, k)
    case Last =>
      && r.FoundNode? && On(keys, r.node)
      && forall k :: k in keys ==> !Past(r.node, k)
  }

  /** A search is exact at the moment of its last load, whatever the writer did meanwhile. */
  lemma SearchIsExact(s: State, id: nat)
    requires Inv(s) && Enabled(s, Load(id))
    ensures var r, r' := s.readers[id], Do(s, Load(id)).readers[id];
      !r'.Walking? ==> Answers(s.lists[0], r.kind, r.target, r')
  {
    var r := s.readers[id];
    assert ReaderOk(s, r) && Linked(s, r.level);
  }

  // ---- whole runs ---------------------------------------------------------------------------------

  ghost predicate Runnable(s: State, actions: seq<Action>)
    decreases |actions|, 0
  {
    actions != [] ==>
      && Runnable(s, actions[..|actions| - 1])
      && Enabled(RunFrom(s, actions[..|actions| - 1]), actions[|actions| - 1])
  }

  ghost function RunFrom(s: State, actions: seq<Action>): State
    requires Runnable(s, actions)
    decreases |actions|, 1
  {
    if actions == [] then s else Do(RunFrom(s, actions[..|actions| - 1]), actions[|actions| - 1])
  }

  /** In every interleaving from the empty list: the invariant holds, every load is of a
      stored link, and a search that ends is exact at that moment. */
  lemma {:induction false} RunsAreSafe(s: State, actions: seq<Action>, a: Action)
    requires IsNew(s) && Runnable(s, actions + [a])
    ensures Runnable(s, actions) && Enabled(RunFrom(s, actions), a) && Inv(RunFrom(s, actions))
    ensures a.Load? || a.WriterLoad? || a.LinkOwn? ==>
              Loaded(RunFrom(s, actions), a).Some? && Loaded(RunFrom(s, actions), a).value in RunFrom(s, actions).links
    ensures a.Load? ==>
              var t := RunFrom(s, actions);
              var r, r' := t.readers[a.id], Do(t, a).readers[a.id];
              !r'.Walking? ==> Answers(t.lists[0], r.kind, r.target, r')
    decreases |actions|
  {
    hide Inv, IsNew, Do, Enabled, Answers;
    assert (actions + [a])[..|actions|] == actions;
    if actions == [] {
      NewIsOk(s);
    } else {
      var front, b := actions[..|actions| - 1], actions[|actions| - 1];
      assert actions == front + [b];
      RunsAreSafe(s, front, b);
      StepKeeps(RunFrom(s, front), b);
    }
    LoadedWasStored(RunFrom(s, actions), a);
    if a.Load? { SearchIsExact(RunFrom(s, actions), a.id); }
  }
}
