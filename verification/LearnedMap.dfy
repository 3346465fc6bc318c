/** The map itself: the operations of the public interface, one call after the other. */
module LearnedMaps {
  import opened Wrappers
  import opened Keys
  import opened NodeHeap
  import opened Traversal
  import opened LinearModels
  import opened Build

  datatype Config = Config(
    expansion: real,
    autoRebuild: bool,
    depthThreshold: nat,
    tombstoneThreshold: real,
    headroom: real)

  ghost predicate ConfigOK(c: Config) { c.expansion >= 1.0 && c.headroom >= 0.0 }

  const INITIAL_ROOT_REBUILD_THRESHOLD: nat := 64
  const ROOT_REBUILD_GROWTH_FACTOR: nat := 2

  function Binding(m: map<Key, Value>, k: Key): Option<Value> {
    if k in m then Some(m[k]) else None
  }

  /** The tree under node `n` and the finite map `m` bind the same keys to the same values. */
  ghost predicate Shows(h: Heap, n: nat, m: map<Key, Value>) {
    forall k :: Lookup(h, n, k) == Binding(m, k)
  }

  /** A tree between operations. */
  ghost predicate TreeOK(h: Heap, root: nat) {
    WF(h) && AllAtRest(h) && IsRoot(h, root)
  }

  // ---------------------------------------------------------------------------------
  // Changing one slot

  /** The map changes just for the keys that end up in the replaced slot. */
  lemma ShowsStored(h: Heap, g: Heap, root: nat, n: nat, i: nat, x: Cell, m: map<Key, Value>, m': map<Key, Value>)
    requires WF(h) && root < |h.meta| && Stored(h, g, n, i, x) && Shows(h, root, m)
    requires forall k :: Reaches(h, root, n, k) && Slot(h.meta, n, k) == i ==> Lookup(g, n, k) == Binding(m', k)
    requires forall k :: (Reaches(h, root, n, k) && Slot(h.meta, n, k) == i) || Binding(m', k) == Binding(m, k)
    ensures Shows(g, root, m')
  {
    forall k ensures Lookup(g, root, k) == Binding(m', k) {
      StoredLookup(h, g, root, n, i, x, k);
    }
  }

  /** What replacing a slot has to achieve to bind `key` to `val` below node `n`. */
  ghost predicate BindsBelow(h: Heap, g: Heap, n: nat, key: Key, val: Option<Value>) {
    forall k :: Slot(h.meta, n, k) == Slot(h.meta, n, key) ==>
      Lookup(g, n, k) == if k == key then val else Lookup(h, n, k)
  }

  lemma BindShows(h: Heap, g: Heap, root: nat, n: nat, x: Cell, key: Key, val: Option<Value>,
                  m: map<Key, Value>, m': map<Key, Value>)
    requires WF(h) && root < |h.meta| && Stored(h, g, n, Slot(h.meta, n, key), x) && Shows(h, root, m)
    requires Reaches(h, root, n, key) && BindsBelow(h, g, n, key, val)
    requires forall k :: Binding(m', k) == if k == key then val else Binding(m, k)
    ensures Shows(g, root, m')
  {
    forall k | Reaches(h, root, n, k) && Slot(h.meta, n, k) == Slot(h.meta, n, key)
      ensures Lookup(g, n, k) == Binding(m', k)
    {
      ReachesLookup(h, root, n, k);
    }
    ShowsStored(h, g, root, n, Slot(h.meta, n, key), x, m, m');
  }

  /** An inline write: EMPTY becomes DATA, or DATA becomes TOMBSTONE. */
  lemma PutInline(h: Heap, n: nat, key: Key, x: Cell)
    requires WF(h) && AllAtRest(h) && n < |h.meta|
    requires InRegion(h.meta, h.meta[n].path, key)
    requires (x.Data? || x.Tomb?) && x.pair.key == key
    requires var y := CellFor(h, n, key); if x.Data? then y.Empty? else y == Data(x.pair)
    ensures Slot(h.meta, n, key) < |h.cells[n]|
    ensures var i := Slot(h.meta, n, key); var g := Put(h, n, i, x);
            && WF(g) && AllAtRest(g) && Stored(h, g, n, i, x)
            && BindsBelow(h, g, n, key, if x.Data? then Some(x.pair.val) else None)
  {
    var i := Slot(h.meta, n, key);
    SlotInRange(h, n, key);
    OneMore(h.meta, h.meta[n].path, At(n, i), key);
    PutWF(h, n, i, x);
    PutAtRest(h, n, i, x);
  }

  lemma OneMore(meta: seq<Meta>, path: seq<At>, at: At, key: Key)
    requires InRegion(meta, path, key) && Slot(meta, at.node, key) == at.slot
    ensures InRegion(meta, path + [at], key)
  {
  }

  lemma PutAtRest(h: Heap, n: nat, i: nat, x: Cell)
    requires WF(h) && AllAtRest(h) && n < |h.meta| && i < |h.cells[n]|
    requires !x.Writing? && (x.Child? ==> x.ptr.lock == None)
    ensures AllAtRest(Put(h, n, i, x))
  {
    forall m | 0 <= m < |h.cells| ensures AtRest(Put(h, n, i, x), m) {
      assert AtRest(h, m);
    }
  }

  /** Hanging a newly built tree under a slot, whose inline pair stays behind as stale data. */
  lemma PutChild(h: Heap, built: Heap, n: nat, i: nat, pairs: seq<Pair>)
    requires WF(h) && AllAtRest(h) && n < |h.meta| && i < |h.cells[n]|
    requires Grown(h, built, h.meta[n].path + [At(n, i)], pairs)
    ensures var x := Child(Ptr(|h.meta|, None), PairOf(h.cells[n][i])); var g := Put(built, n, i, x);
            && WF(g) && AllAtRest(g) && Stored(h, g, n, i, x)
            && forall k :: Slot(h.meta, n, k) == i ==> Lookup(g, n, k) == Lookup(built, |h.meta|, k)
  {
    var path := h.meta[n].path + [At(n, i)];
    var x := Child(Ptr(|h.meta|, None), PairOf(h.cells[n][i]));
    GrownWF(h, built, path, pairs);
    assert built.meta[n] == h.meta[n] && built.cells[n] == h.cells[n];
    assert NodeOK(built, n) && CellOK(built, n, i, built.cells[n][i]);
    assert CellOK(built, n, i, x);
    PutWF(built, n, i, x);
    forall m | 0 <= m < |built.cells| ensures AtRest(built, m) {
      assert m < |h.cells| ==> AtRest(h, m) && built.cells[m] == h.cells[m];
    }
    PutAtRest(built, n, i, x);
    var g := Put(built, n, i, x);
    forall k | Slot(h.meta, n, k) == i ensures Lookup(g, n, k) == Lookup(built, |h.meta|, k) {
      assert CellFor(g, n, k) == x;
      LookupUnchanged(built, g, |h.meta|, k);
    }
  }

  /** What a built tree binds, key by key. */
  lemma GrownLookup(h: Heap, g: Heap, path: seq<At>, pairs: seq<Pair>, k: Key)
    requires Grown(h, g, path, pairs)
    ensures Lookup(g, |h.meta|, k) == None || Pair(k, Lookup(g, |h.meta|, k).value) in pairs
    ensures forall p :: p in pairs && p.key == k ==> Lookup(g, |h.meta|, k) == Some(p.val)
  {
    if Lookup(g, |h.meta|, k).Some? {
      var p := Pair(k, Lookup(g, |h.meta|, k).value);
      assert Lookup(g, |h.meta|, p.key) == Some(p.val);
    }
  }

  // ---------------------------------------------------------------------------------
  // Counting

  ghost function KeySet(pairs: seq<Pair>): set<Key> {
    set p | p in pairs :: p.key
  }

  lemma {:induction false} KeySetSize(pairs: seq<Pair>)
    requires Ascending(pairs)
    ensures |KeySet(pairs)| == |pairs|
  {
    if pairs != [] {
      var n := |pairs| - 1;
      KeySetSize(pairs[..n]);
      assert pairs == pairs[..n] + [pairs[n]];
      assert KeySet(pairs) == KeySet(pairs[..n]) + {pairs[n].key};
    }
  }

  /** As many entries as keys. */
  lemma CountEntries(pairs: seq<Pair>, m: map<Key, Value>)
    requires Ascending(pairs)
    requires forall p :: p in pairs <==> Binding(m, p.key) == Some(p.val)
    ensures |pairs| == |m|
  {
    KeySetSize(pairs);
    forall k ensures k in m.Keys <==> k in KeySet(pairs) {
      if k in m {
        assert Pair(k, m[k]) in pairs;
      }
    }
    assert m.Keys == KeySet(pairs);
  }

  function Tombs(cells: seq<Cell>): nat {
    if cells == [] then 0 else Tombs(cells[..|cells| - 1]) + if cells[|cells| - 1].Tomb? then 1 else 0
  }

  function TombSlots(cells: seq<Cell>): set<nat> { set i: nat | i < |cells| && cells[i].Tomb? }

  lemma {:induction false} TombsCounted(cells: seq<Cell>)
    ensures Tombs(cells) == |TombSlots(cells)|
  {
    if cells != [] {
      var n := |cells| - 1;
      TombsCounted(cells[..n]);
      assert TombSlots(cells) == TombSlots(cells[..n]) + if cells[n].Tomb? then {n} else {};
    }
  }

  /** Trees with the same entries show the same map. */
  lemma SameEntries(h: Heap, n: nat, g: Heap, pairs: seq<Pair>, path: seq<At>)
    requires WF(h) && AllAtRest(h) && n < |h.meta| && pairs == Entries(h, n, 0)
    requires Grown(h, g, path, pairs)
    ensures forall k :: Lookup(g, |h.meta|, k) == Lookup(h, n, k)
  {
    EntriesBind(h, n);
    forall k ensures Lookup(g, |h.meta|, k) == Lookup(h, n, k) {
      GrownLookup(h, g, path, pairs, k);
      if Lookup(h, n, k).Some? {
        assert Pair(k, Lookup(h, n, k).value) in pairs;
      }
    }
  }

  /** Descent to a value (`lookup::get`). */
  method LookupFrom(h: Heap, n: nat, key: Key) returns (r: Option<Value>)
    requires WF(h) && AllAtRest(h) && n < |h.meta|
    ensures r == Lookup(h, n, key)
  {
    var cur := n;
    while true
      invariant cur < |h.meta| && Lookup(h, cur, key) == Lookup(h, n, key)
      decreases |h.meta| - cur
    {
      SlotInRange(h, cur, key);
      assert AtRest(h, cur);
      match h.cells[cur][h.meta[cur].slotOf(key)] {
        case Data(p) =>
          return if p.key == key then Some(p.val) else None;
        case Child(ptr, _) =>
          cur := ptr.id;
        case _ =>
          return None;
      }
    }
  }

  /** The number of entries (`Iter::count`). */
  method Count(h: Heap, root: nat) returns (n: nat)
    requires WF(h) && AllAtRest(h) && root < |h.meta|
    ensures n == |Entries(h, root, 0)|
  {
    var iter := new Iter(h, root);
    n := 0;
    var next := iter.Next();
    while next.Some?
      invariant iter.Valid() && fresh(iter)
      invariant n + (if next.Some? then 1 else 0) + |iter.Remaining()| == |Entries(h, root, 0)|
      invariant next.None? ==> iter.Remaining() == []
      decreases |iter.Remaining()|, next.Some?
    {
      n := n + 1;
      next := iter.Next();
    }
  }

  // ---------------------------------------------------------------------------------
  // The map

  /** Where a call first left the root: the root slot, and the child found there. */
  datatype Descent = Descent(slot: nat, child: nat)

  /** The node where the descent for `key` from node `n` ends, and how many levels down. */
  function Arrival(h: Heap, n: nat, key: Key): nat
    decreases if n < |h.cells| then |h.cells| - n else 0
  {
    var x := CellFor(h, n, key);
    if x.Child? && n < x.ptr.id < |h.cells| then Arrival(h, x.ptr.id, key) else n
  }

  function Depth(h: Heap, n: nat, key: Key): nat
    decreases if n < |h.cells| then |h.cells| - n else 0
  {
    var x := CellFor(h, n, key);
    if x.Child? && n < x.ptr.id < |h.cells| then 1 + Depth(h, x.ptr.id, key) else 0
  }

  /** Another key is bound below the root slot of `key`. */
  ghost predicate HasNeighbour(h: Heap, root: nat, key: Key) {
    exists q :: q != key && Slot(h.meta, root, q) == Slot(h.meta, root, key) && Lookup(h, root, q).Some?
  }

  /** The child in the root slot of `key` was replaced by a newly built one, or is still there. */
  ghost predicate FirstChildRebuilt(h: Heap, g: Heap, root: nat, key: Key) {
    var y := CellFor(g, root, key);
    y.Child? && |h.meta| <= y.ptr.id < |g.meta|
  }

  ghost predicate FirstChildKept(h: Heap, g: Heap, root: nat, key: Key) {
    var x, y := CellFor(h, root, key), CellFor(g, root, key);
    x.Child? ==> y.Child? && y.ptr.id == x.ptr.id
  }

  /** What a write that went `Depth` levels down does to the subtree it went through. */
  ghost predicate FlattenedOK(cfg: Config, h: Heap, g: Heap, root: nat, key: Key, written: bool) {
    if written && cfg.autoRebuild && Depth(h, root, key) > cfg.depthThreshold
    then HasNeighbour(h, root, key) ==> FirstChildRebuilt(h, g, root, key)
    else FirstChildKept(h, g, root, key)
  }

  /** The descent of a call for `key` has arrived at node `cur`; `first` is its first step. */
  ghost predicate Arrived(h: Heap, root: nat, key: Key, cur: nat, depth: nat, first: Option<Descent>) {
    && cur < |h.meta| && Reaches(h, root, cur, key)
    && Arrival(h, root, key) == Arrival(h, cur, key) && Depth(h, root, key) == depth + Depth(h, cur, key)
    && InRegion(h.meta, h.meta[cur].path, key)
    && (first.None? <==> depth == 0)
    && (first.None? ==> cur == root)
    && (first.Some? ==>
          && cur != root
          && first.value.slot == Slot(h.meta, root, key)
          && CellFor(h, root, key).Child? && CellFor(h, root, key).ptr.id == first.value.child)
  }

  lemma TwoEntries(pairs: seq<Pair>, p: Pair, q: Pair)
    requires p in pairs && q in pairs && p != q
    ensures |pairs| > 1
  {
    var i :| 0 <= i < |pairs| && pairs[i] == p;
    var j :| 0 <= j < |pairs| && pairs[j] == q;
  }

  /** After a write, the subtree that a neighbour is in holds two entries. */
  lemma NeighbourCounts(h: Heap, g: Heap, root: nat, p: Pair, m: map<Key, Value>)
    requires TreeOK(h, root) && TreeOK(g, root) && Extends(h, g) && root < |h.meta|
    requires Shows(h, root, m) && Shows(g, root, m[p.key := p.val])
    requires CellFor(g, root, p.key).Child? && HasNeighbour(h, root, p.key)
    ensures |Entries(g, CellFor(g, root, p.key).ptr.id, 0)| > 1
  {
    var q :| q != p.key && Slot(h.meta, root, q) == Slot(h.meta, root, p.key) && Lookup(h, root, q).Some?;
    var c := CellFor(g, root, p.key).ptr.id;
    SlotInRange(g, root, p.key);
    assert NodeOK(g, root) && CellOK(g, root, Slot(g.meta, root, p.key), CellFor(g, root, p.key));
    assert Lookup(g, root, q) == Binding(m, q) && Lookup(g, root, p.key) == Some(p.val);
    assert Lookup(g, c, q) == Lookup(g, root, q) && Lookup(g, c, p.key) == Lookup(g, root, p.key);
    BoundIsEntry(g, c, q);
    BoundIsEntry(g, c, p.key);
    TwoEntries(Entries(g, c, 0), p, Pair(q, Lookup(g, c, q).value));
  }

  /** What flattening the path does, counted from before the write. */
  ghost predicate FlattenedPath(cfg: Config, g: Heap, g2: Heap, root: nat, depth: nat, first: Option<Descent>) {
    && (first.None? || !cfg.autoRebuild || depth <= cfg.depthThreshold ==> g2 == g)
    && (first.Some? && cfg.autoRebuild && depth > cfg.depthThreshold &&
        CellAt(g, root, first.value.slot).Child? &&
        |Entries(g, CellAt(g, root, first.value.slot).ptr.id, 0)| > 1 ==>
          CellAt(g2, root, first.value.slot).Child? &&
          CellAt(g2, root, first.value.slot).ptr.id == |g.meta| < |g2.meta|)
  }

  lemma WrittenAndFlattened(cfg: Config, h: Heap, g: Heap, g2: Heap, root: nat, p: Pair, m: map<Key, Value>,
                            cur: nat, depth: nat, first: Option<Descent>)
    requires TreeOK(h, root) && TreeOK(g, root) && Extends(h, g) && Extends(g, g2)
    requires Shows(h, root, m) && Shows(g, root, m[p.key := p.val])
    requires Arrived(h, root, p.key, cur, depth, first) && !CellFor(h, cur, p.key).Child?
    requires Unmoved(g, root, first) && FlattenedPath(cfg, g, g2, root, depth, first)
    ensures FlattenedOK(cfg, h, g2, root, p.key, true)
  {
    if first.Some? && HasNeighbour(h, root, p.key) {
      NeighbourCounts(h, g, root, p, m);
    }
  }

  /** Two other keys are bound below the root slot of `key`. */
  ghost predicate HasTwoNeighbours(h: Heap, root: nat, key: Key) {
    exists q, r :: q != r && NeighbourOf(h, root, key, q) && NeighbourOf(h, root, key, r)
  }

  ghost predicate NeighbourOf(h: Heap, root: nat, key: Key, q: Key) {
    q != key && Slot(h.meta, root, q) == Slot(h.meta, root, key) && Lookup(h, root, q).Some?
  }

  /** The slots of the node where the descent for `key` ends, with its entry buried. */
  function BuriedCells(h: Heap, root: nat, key: Key): seq<Cell> {
    var n := Arrival(h, root, key);
    var i := Slot(h.meta, n, key);
    if n < |h.cells| && i < |h.cells[n]| && h.cells[n][i].Data? then h.cells[n][i := Tomb(h.cells[n][i].pair)] else []
  }

  /** What a remove does to the subtree it went through: rebuilds it when the node of the
      entry has too many tombstones. */
  ghost predicate TidiedOK(cfg: Config, h: Heap, g: Heap, root: nat, key: Key, removed: bool) {
    if removed && cfg.autoRebuild && Depth(h, root, key) > 0
       && TombstoneRatio(BuriedCells(h, root, key)) > cfg.tombstoneThreshold
    then HasTwoNeighbours(h, root, key) ==> FirstChildRebuilt(h, g, root, key)
    else FirstChildKept(h, g, root, key)
  }

  lemma StoredCells(h: Heap, g: Heap, n: nat, i: nat, x: Cell)
    requires WF(h) && WF(g) && Stored(h, g, n, i, x) && i < |h.cells[n]|
    ensures g.cells[n] == h.cells[n][i := x]
  {
    assert NodeOK(h, n) && NodeOK(g, n);
    forall j | 0 <= j < |h.cells[n]| ensures g.cells[n][j] == h.cells[n][i := x][j] {
      assert CellAt(g, n, j) == if j == i then x else CellAt(h, n, j);
    }
  }

  /** After the burial, the subtree that both neighbours are in holds two entries. */
  lemma NeighboursCount(h: Heap, g: Heap, root: nat, key: Key, m: map<Key, Value>)
    requires TreeOK(h, root) && TreeOK(g, root) && Extends(h, g)
    requires Shows(h, root, m) && Shows(g, root, m - {key})
    requires CellFor(g, root, key).Child? && HasTwoNeighbours(h, root, key)
    ensures |Entries(g, CellFor(g, root, key).ptr.id, 0)| > 1
  {
    var q, r :| q != r && NeighbourOf(h, root, key, q) && NeighbourOf(h, root, key, r);
    var c := CellFor(g, root, key).ptr.id;
    SlotInRange(g, root, key);
    assert NodeOK(g, root) && CellOK(g, root, Slot(g.meta, root, key), CellFor(g, root, key));
    assert Lookup(g, root, q) == Binding(m, q) && Lookup(g, root, r) == Binding(m, r);
    assert Lookup(g, c, q) == Lookup(g, root, q) && Lookup(g, c, r) == Lookup(g, root, r);
    BoundIsEntry(g, c, q);
    BoundIsEntry(g, c, r);
    TwoEntries(Entries(g, c, 0), Pair(q, Lookup(g, c, q).value), Pair(r, Lookup(g, c, r).value));
  }

  lemma ArrivedStep(h: Heap, root: nat, key: Key, cur: nat, depth: nat, first: Option<Descent>)
    requires TreeOK(h, root) && Arrived(h, root, key, cur, depth, first)
    requires CellFor(h, cur, key).Child?
    ensures var i, c := Slot(h.meta, cur, key), CellFor(h, cur, key).ptr.id;
            && cur < c < |h.meta|
            && Arrived(h, root, key, c, depth + 1, if first.None? then Some(Descent(i, c)) else first)
  {
    SlotInRange(h, cur, key);
    var i, c := Slot(h.meta, cur, key), CellFor(h, cur, key).ptr.id;
    assert Reaches(h, c, c, key) && Reaches(h, cur, c, key);
    ReachesTrans(h, root, cur, c, key);
    OneMore(h.meta, h.meta[cur].path, At(cur, i), key);
  }

  /** The child first descended into is still in place. Within one call this always holds. */
  predicate Unmoved(h: Heap, root: nat, first: Option<Descent>) {
    first.Some? ==>
      var x := CellAt(h, root, first.value.slot);
      x.Child? && x.ptr == Ptr(first.value.child, None)
  }

  /** A new child holding just the new entry binds it and nothing else. */
  lemma PutSingle(h: Heap, built: Heap, n: nat, p: Pair)
    requires WF(h) && AllAtRest(h) && n < |h.meta|
    requires var y := CellFor(h, n, p.key); y.Tomb? || (y.Data? && y.pair.key == p.key)
    requires Grown(h, built, h.meta[n].path + [At(n, Slot(h.meta, n, p.key))], [p])
    ensures var i := Slot(h.meta, n, p.key); i < |h.cells[n]|
    ensures var i := Slot(h.meta, n, p.key);
            var g := Put(built, n, i, Child(Ptr(|h.meta|, None), PairOf(h.cells[n][i])));
            WF(g) && AllAtRest(g) && Stored(h, g, n, i, g.cells[n][i]) && BindsBelow(h, g, n, p.key, Some(p.val))
  {
    var i := Slot(h.meta, n, p.key);
    var path := h.meta[n].path + [At(n, i)];
    SlotInRange(h, n, p.key);
    PutChild(h, built, n, i, [p]);
    forall k | Slot(h.meta, n, k) == i
      ensures Lookup(built, |h.meta|, k) == if k == p.key then Some(p.val) else Lookup(h, n, k)
    {
      GrownLookup(h, built, path, [p], k);
    }
  }

  /** A conflict child binds the new entry and keeps the one that was there. */
  lemma PutConflict(h: Heap, built: Heap, n: nat, p: Pair, pairs: seq<Pair>)
    requires WF(h) && AllAtRest(h) && n < |h.meta|
    requires var y := CellFor(h, n, p.key);
             y.Data? && y.pair.key != p.key && (pairs == [p, y.pair] || pairs == [y.pair, p])
    requires Grown(h, built, h.meta[n].path + [At(n, Slot(h.meta, n, p.key))], pairs)
    ensures var i := Slot(h.meta, n, p.key); i < |h.cells[n]|
    ensures var i := Slot(h.meta, n, p.key);
            var g := Put(built, n, i, Child(Ptr(|h.meta|, None), PairOf(h.cells[n][i])));
            WF(g) && AllAtRest(g) && Stored(h, g, n, i, g.cells[n][i]) && BindsBelow(h, g, n, p.key, Some(p.val))
  {
    var i := Slot(h.meta, n, p.key);
    var path := h.meta[n].path + [At(n, i)];
    SlotInRange(h, n, p.key);
    PutChild(h, built, n, i, pairs);
    forall k | Slot(h.meta, n, k) == i
      ensures Lookup(built, |h.meta|, k) == if k == p.key then Some(p.val) else Lookup(h, n, k)
    {
      GrownLookup(h, built, path, pairs, k);
    }
  }

  /** Where the entry of a slot, and any key that predicts to the slot, belong. */
  lemma SlotPlace(h: Heap, n: nat, key: Key, p: Pair)
    requires WF(h) && n < |h.meta| && InRegion(h.meta, h.meta[n].path, key)
    requires p.key == key || CellFor(h, n, key) == Data(p)
    ensures Slot(h.meta, n, key) < |h.cells[n]|
    ensures PlaceFor(h, h.meta[n].path + [At(n, Slot(h.meta, n, key))], [p])
  {
    SlotInRange(h, n, key);
    assert NodeOK(h, n);
    OneMore(h.meta, h.meta[n].path, At(n, Slot(h.meta, n, key)), key);
  }

  /** A new root of 64 slots without entries. */
  ghost predicate Emptied(h: Heap, g: Heap, n: nat) {
    && n == |h.meta| == |g.meta| - 1 && Grown(h, g, [], [])
    && |g.cells[n]| == 64 && forall i :: 0 <= i < 64 ==> g.cells[n][i] == Empty
  }

  /** The subtree in a slot of `n` was replaced by one newly built from its entries, with more
      room than the configuration asks for. */
  ghost predicate SubtreeRefitted(inp: Inputs, cfg: Config, h: Heap, g: Heap, n: nat, i: nat) {
    exists built :: RefittedFrom(inp, cfg, h, built, g, n, i)
  }

  ghost predicate RefittedFrom(inp: Inputs, cfg: Config, h: Heap, built: Heap, g: Heap, n: nat, i: nat) {
    && n < |h.meta| && CellAt(h, n, i).Child?
    && var x := CellAt(h, n, i);
       var pairs := Entries(h, x.ptr.id, 0);
       && Grown(h, built, h.meta[n].path + [At(n, i)], pairs)
       && HeadOK(inp, Shape(if 1.5 * cfg.expansion > 4.0 then 4.0 else 1.5 * cfg.expansion, cfg.headroom),
                 built.meta[|h.meta|], pairs)
       && n < |built.cells| && i < |built.cells[n]|
       && g == Put(built, n, i, Child(Ptr(|h.meta|, None), x.stale))
  }

  /** The tree under `r` was replaced by one newly built from its entries. */
  ghost predicate Refitted(inp: Inputs, cfg: Config, h: Heap, r: nat, g: Heap, n: nat) {
    && n == |h.meta| && Grown(h, g, [], Entries(h, r, 0))
    && HeadOK(inp, Shape(cfg.expansion, 1.0), g.meta[n], Entries(h, r, 0))
  }

  /** ... after a write. */
  ghost predicate RefittedAfter(inp: Inputs, cfg: Config, h: Heap, r: nat, g: Heap, n: nat) {
    exists written :: Extends(h, written) && Refitted(inp, cfg, written, r, g, n)
  }

  class LearnedMap {
    const inp: Inputs
    const cfg: Config
    var heap: Heap
    var root: nat
    var len: nat
    var nextRootRebuild: nat
    /** The contents, as a finite map. */
    ghost var view: map<Key, Value>
    /** How many keys inserts have added, and how many pairs automatic root rebuilds have
        copied. */
    ghost var inserted: nat
    ghost var copied: nat

    ghost predicate TreeValid()
      reads this
    {
      && Monotone(inp) && ConfigOK(cfg)
      && TreeOK(heap, root) && Shows(heap, root, view)
    }

    /** The rebuild schedule. Every copied pair is paid for by inserts: two credits for each
        new key, of which those beyond half the threshold are still unspent. */
    ghost predicate ScheduleValid()
      reads this
    {
      && nextRootRebuild % 2 == 0
      && (cfg.autoRebuild ==> len < nextRootRebuild)
      && copied <= 2 * inserted
      && copied + 2 * (len - nextRootRebuild / 2) <= 2 * inserted
    }

    ghost predicate Valid()
      reads this
    {
      TreeValid() && len == |view| && ScheduleValid()
    }

    constructor WithConfig(inp: Inputs, cfg: Config)
      requires Monotone(inp) && ConfigOK(cfg)
      ensures Valid() && view == map[] && inserted == copied == 0
      ensures this.inp == inp && this.cfg == cfg
      ensures nextRootRebuild == 64 && Emptied(NO_NODES, heap, root)
    {
      this.inp, this.cfg := inp, cfg;
      var h := EmptyRoot(inp, NO_NODES);
      heap, root := h, 0;
      len, nextRootRebuild := 0, INITIAL_ROOT_REBUILD_THRESHOLD;
      view, inserted, copied := map[], 0, 0;
      new;
      FreshTree(NO_NODES, heap, [], view);
    }

    constructor Loaded(inp: Inputs, cfg: Config, h: Heap, n: nat, ghost m: map<Key, Value>)
      requires Monotone(inp) && ConfigOK(cfg) && TreeOK(h, 0) && Shows(h, 0, m) && n == |m| > 0
      ensures Valid() && view == m && inserted == copied == 0
      ensures this.inp == inp && this.cfg == cfg && heap == h && root == 0 && nextRootRebuild == 2 * n
    {
      this.inp, this.cfg := inp, cfg;
      heap, root := h, 0;
      len, nextRootRebuild := n, n * ROOT_REBUILD_GROWTH_FACTOR;
      view, inserted, copied := m, 0, 0;
    }

    method Get(key: Key) returns (r: Option<Value>)
      requires Valid()
      ensures r == Binding(view, key)
    {
      r := LookupFrom(heap, root, key);
    }

    /** `range`: the entries within the bounds, in order. */
    method RangeBetween(start: Bound, end: Bound) returns (range: Traversal.Range)
      requires Valid()
      ensures fresh(range) && range.Valid() && Ascending(range.Remaining())
      ensures forall p :: p in range.Remaining() <==>
                && Binding(view, p.key) == Some(p.val)
                && (match start case Included(s) => s <= p.key case Excluded(s) => s < p.key case Unbounded => true)
                && (match end case Included(e) => p.key <= e case Excluded(e) => p.key < e case Unbounded => true)
    {
      range := new Traversal.Range(heap, root, start, end);
      ViewEntries(heap, root, Entries(heap, root, 0), view);
      WithinAscends(Entries(heap, root, 0), start, end);
      forall p
        ensures p in range.Remaining() <==>
                  && Binding(view, p.key) == Some(p.val)
                  && (match start case Included(s) => s <= p.key case Excluded(s) => s < p.key case Unbounded => true)
                  && (match end case Included(e) => p.key <= e case Excluded(e) => p.key < e case Unbounded => true)
      {
        WithinMembers(Entries(heap, root, 0), start, end, p);
      }
    }

    /** `last_key_value`. */
    method LastKeyValue() returns (r: Option<Pair>)
      requires Valid()
      ensures r.None? ==> view == map[]
      ensures r.Some? ==> Binding(view, r.value.key) == Some(r.value.val) && forall k :: k in view ==> k <= r.value.key
    {
      ghost var all := Entries(heap, root, 0);
      ViewEntries(heap, root, all, view);
      r := LastEntry(heap, root);
      forall k | k in view ensures r.Some? && k <= r.value.key {
        assert Pair(k, view[k]) in all;
      }
      if r.None? {
        assert view.Keys == {};
      } else {
        assert r.value in all;
      }
    }

    // -------------------------------------------------------------------------------
    // Subtree rebuild

    /** Rebuilds the subtree in a root slot from a snapshot, unless it is too small. */
    method TryRebuildSubtree(slot: nat) returns (ok: bool)
      requires TreeValid() && slot < |heap.cells[root]|
      modifies `heap
      ensures TreeValid() && Extends(old(heap), heap)
      ensures forall n :: 0 <= n < |old(heap).cells| && n != root ==> heap.cells[n] == old(heap).cells[n]
      ensures ok <==> var x := CellAt(old(heap), root, slot); x.Child? && |Entries(old(heap), x.ptr.id, 0)| > 1
      ensures !ok ==> heap == old(heap)
      ensures ok ==>
                && SubtreeRefitted(inp, cfg, old(heap), heap, root, slot)
                && CellAt(heap, root, slot) == Child(Ptr(|old(heap).meta|, None), CellAt(old(heap), root, slot).stale)
                && forall k :: Lookup(heap, |old(heap).meta|, k) == Lookup(old(heap), CellAt(old(heap), root, slot).ptr.id, k)
    {
      var x := heap.cells[root][slot];
      if !x.Child? {
        return false;
      }
      var child := x.ptr.id;
      assert NodeOK(heap, root) && CellOK(heap, root, slot, x);
      var pairs := SortedPairs(heap, child);
      if |pairs| <= 1 {
        return false;
      }
      var boosted := if cfg.expansion * 1.5 > 4.0 then 4.0 else cfg.expansion * 1.5;
      SnapshotPlace(heap, child, pairs);
      var path := heap.meta[root].path + [At(root, slot)];
      var built := BuildRecursive(inp, Shape(boosted, cfg.headroom), heap, path, pairs);
      RebuiltShows(heap, built, root, slot, pairs, view);
      ghost var before := heap;
      heap := Put(built, root, slot, Child(Ptr(|heap.meta|, None), x.stale));
      assert RefittedFrom(inp, cfg, before, built, heap, root, slot);
      return true;
    }

    /** What follows a write that went deeper than the threshold. */
    method FlattenDeepPath(depth: nat, first: Option<Descent>)
      requires TreeValid() && (first.Some? ==> first.value.slot < |heap.cells[root]|)
      modifies `heap
      ensures TreeValid() && Extends(old(heap), heap)
      ensures FlattenedPath(cfg, old(heap), heap, root, depth, first)
      ensures forall n :: 0 <= n < |old(heap).cells| && n != root ==> heap.cells[n] == old(heap).cells[n]
    {
      if cfg.autoRebuild && depth > cfg.depthThreshold {
        if first.Some? {
          var ok := TryRebuildSubtree(first.value.slot);
        }
      }
    }

    /** The same, counted from before the write of `p` that has arrived at `cur`. */
    method FlattenAfter(depth: nat, first: Option<Descent>, ghost p: Pair, ghost before: Heap, ghost m: map<Key, Value>,
                        ghost cur: nat)
      requires TreeValid() && TreeOK(before, root) && Extends(before, heap)
      requires Shows(before, root, m) && view == m[p.key := p.val]
      requires Arrived(before, root, p.key, cur, depth, first) && !CellFor(before, cur, p.key).Child?
      requires Unmoved(heap, root, first) && (first.Some? ==> first.value.slot < |heap.cells[root]|)
      modifies `heap
      ensures TreeValid() && Extends(old(heap), heap) && FlattenedOK(cfg, before, heap, root, p.key, true)
      ensures forall n :: 0 <= n < |old(heap).cells| && n != root ==> heap.cells[n] == old(heap).cells[n]
    {
      FlattenDeepPath(depth, first);
      WrittenAndFlattened(cfg, before, old(heap), heap, root, p, m, cur, depth, first);
    }

    // -------------------------------------------------------------------------------
    // Writes

    /** Publishes a pair in an empty slot. */
    method PublishInline(cur: nat, p: Pair)
      requires TreeValid() && cur < |heap.meta| && Reaches(heap, root, cur, p.key)
      requires InRegion(heap.meta, heap.meta[cur].path, p.key) && CellFor(heap, cur, p.key).Empty?
      modifies `heap, `view
      ensures TreeValid() && view == old(view)[p.key := p.val] && p.key !in old(view)
      ensures Stored(old(heap), heap, cur, Slot(heap.meta, cur, p.key), Data(p))
    {
      var slot := Slot(heap.meta, cur, p.key);
      PutInline(heap, cur, p.key, Data(p));
      ReachesLookup(heap, root, cur, p.key);
      ghost var next := view[p.key := p.val];
      BindShows(heap, Put(heap, cur, slot, Data(p)), root, cur, Data(p), p.key, Some(p.val), view, next);
      heap, view := Put(heap, cur, slot, Data(p)), next;
    }

    /** Puts a pair into a new child: over a tombstone, over an older pair with its key, or
        together with the pair of another key. */
    method PublishChild(cur: nat, p: Pair)
      requires TreeValid() && cur < |heap.meta| && Reaches(heap, root, cur, p.key)
      requires InRegion(heap.meta, heap.meta[cur].path, p.key)
      requires CellFor(heap, cur, p.key).Tomb? || CellFor(heap, cur, p.key).Data?
      modifies `heap, `view
      ensures TreeValid() && view == old(view)[p.key := p.val]
      ensures p.key in old(view) <==> CellFor(old(heap), cur, p.key).Data? && CellFor(old(heap), cur, p.key).pair.key == p.key
      ensures Stored(old(heap), heap, cur, Slot(old(heap).meta, cur, p.key),
                     Child(Ptr(|old(heap).meta|, None), PairOf(CellFor(old(heap), cur, p.key))))
      ensures Lookup(heap, |old(heap).meta|, p.key) == Some(p.val)
    {
      var slot, x := Slot(heap.meta, cur, p.key), CellFor(heap, cur, p.key);
      var path := heap.meta[cur].path + [At(cur, slot)];
      SlotPlace(heap, cur, p.key, p);
      ReachesLookup(heap, root, cur, p.key);
      var built;
      if x.Data? && x.pair.key != p.key {
        SlotPlace(heap, cur, p.key, x.pair);
        built := BuildConflict(inp, heap, path, x.pair, p);
        PutConflict(heap, built, cur, p, if x.pair.key < p.key then [x.pair, p] else [p, x.pair]);
      } else {
        built := BuildSingle(inp, heap, path, p);
        PutSingle(heap, built, cur, p);
      }
      ghost var next := view[p.key := p.val];
      var child := Child(Ptr(|heap.meta|, None), PairOf(x));
      BindShows(heap, Put(built, cur, slot, child), root, cur, child, p.key, Some(p.val), view, next);
      heap, view := Put(built, cur, slot, child), next;
    }

    /** `insert::insert`: descends to the slot of the key and writes there. Returns whether
        the key is new. */
    method InsertUnder(p: Pair) returns (isNew: bool)
      requires TreeValid()
      modifies `heap, `view
      ensures TreeValid() && view == old(view)[p.key := p.val]
      ensures isNew <==> p.key !in old(view)
      ensures FlattenedOK(cfg, old(heap), heap, root, p.key, isNew) && Extends(old(heap), heap)
    {
      var cur, depth := root, 0;
      var first: Option<Descent> := None;
      while true
        invariant heap == old(heap) && view == old(view)
        invariant Arrived(heap, root, p.key, cur, depth, first)
        decreases |heap.meta| - cur
      {
        SlotInRange(heap, cur, p.key);
        var slot := heap.meta[cur].slotOf(p.key);
        var x := heap.cells[cur][slot];
        if !x.Child? {
          isNew := WriteAt(cur, depth, first, p);
          return;
        }
        ArrivedStep(heap, root, p.key, cur, depth, first);
        depth := depth + 1;
        if first.None? {
          first := Some(Descent(slot, x.ptr.id));
        }
        cur := x.ptr.id;
      }
    }

    /** What `insert` does at the slot where its descent has ended. */
    method WriteAt(cur: nat, depth: nat, first: Option<Descent>, p: Pair) returns (isNew: bool)
      requires TreeValid() && Arrived(heap, root, p.key, cur, depth, first) && !CellFor(heap, cur, p.key).Child?
      modifies `heap, `view
      ensures TreeValid() && view == old(view)[p.key := p.val]
      ensures isNew <==> p.key !in old(view)
      ensures FlattenedOK(cfg, old(heap), heap, root, p.key, isNew) && Extends(old(heap), heap)
    {
      SlotInRange(heap, cur, p.key);
      SlotInRange(heap, root, p.key);
      assert AtRest(heap, cur) && AtRest(heap, root);
      match heap.cells[cur][heap.meta[cur].slotOf(p.key)] {
        case Empty =>
          PublishInline(cur, p);
        case Tomb(_) =>
          PublishChild(cur, p);
        case Data(old_) =>
          PublishChild(cur, p);
          if old_.key == p.key {
            assert Unmoved(heap, root, first);
            return false;
          }
      }
      assert Unmoved(heap, root, first);
      FlattenAfter(depth, first, p, old(heap), old(view), cur);
      return true;
    }

    /** `insert::get_or_insert`: as above, but an existing value is returned and kept. */
    method GetOrInsertUnder(p: Pair) returns (val: Value, isNew: bool)
      requires TreeValid()
      modifies `heap, `view
      ensures TreeValid()
      ensures isNew <==> p.key !in old(view)
      ensures view == if isNew then old(view)[p.key := p.val] else old(view)
      ensures Binding(view, p.key) == Some(val)
      ensures FlattenedOK(cfg, old(heap), heap, root, p.key, isNew) && Extends(old(heap), heap)
    {
      var cur, depth := root, 0;
      var first: Option<Descent> := None;
      while true
        invariant heap == old(heap) && view == old(view)
        invariant Arrived(heap, root, p.key, cur, depth, first)
        decreases |heap.meta| - cur
      {
        SlotInRange(heap, cur, p.key);
        SlotInRange(heap, root, p.key);
        assert AtRest(heap, cur) && AtRest(heap, root);
        var slot := heap.meta[cur].slotOf(p.key);
        match heap.cells[cur][slot] {
          case Empty =>
            PublishInline(cur, p);
            assert Unmoved(heap, root, first);
            FlattenAfter(depth, first, p, old(heap), old(view), cur);
            return p.val, true;
          case Tomb(_) =>
            val := PublishAndReadBack(cur, depth, first, p);
            return val, true;
          case Data(existing) =>
            if existing.key == p.key {
              ReachesLookup(heap, root, cur, p.key);
              return existing.val, false;
            }
            val := PublishAndReadBack(cur, depth, first, p);
            return val, true;
          case Child(ptr, _) =>
            ArrivedStep(heap, root, p.key, cur, depth, first);
            depth := depth + 1;
            if first.None? {
              first := Some(Descent(slot, ptr.id));
            }
            cur := ptr.id;
        }
      }
    }

    /** Publishes a child and looks the new value up in it, after any rebuild above it. */
    method PublishAndReadBack(cur: nat, depth: nat, first: Option<Descent>, p: Pair) returns (val: Value)
      requires TreeValid() && Arrived(heap, root, p.key, cur, depth, first)
      requires var x := CellFor(heap, cur, p.key); x.Tomb? || (x.Data? && x.pair.key != p.key)
      modifies `heap, `view
      ensures TreeValid() && p.key !in old(view) && view == old(view)[p.key := p.val] && val == p.val
      ensures FlattenedOK(cfg, old(heap), heap, root, p.key, true) && Extends(old(heap), heap)
    {
      SlotInRange(heap, cur, p.key);
      SlotInRange(heap, root, p.key);
      assert AtRest(heap, root);
      var slot, child := Slot(heap.meta, cur, p.key), |heap.meta|;
      PublishChild(cur, p);
      assert Unmoved(heap, root, first);
      ghost var published := heap;
      FlattenAfter(depth, first, p, old(heap), old(view), cur);
      LookupUnchanged(published, heap, child, p.key);
      var found := LookupFrom(heap, child, p.key);
      val := found.value;
    }

    /** `remove::remove`: descends to the slot of the key and buries the entry. */
    method RemoveUnder(key: Key) returns (removed: bool)
      requires TreeValid()
      modifies `heap, `view
      ensures TreeValid() && view == old(view) - {key}
      ensures removed <==> key in old(view)
      ensures TidiedOK(cfg, old(heap), heap, root, key, removed)
    {
      var cur := root;
      ghost var depth := 0;
      var first: Option<Descent> := None;
      while true
        invariant heap == old(heap) && view == old(view)
        invariant Arrived(heap, root, key, cur, depth, first)
        decreases |heap.meta| - cur
      {
        SlotInRange(heap, cur, key);
        SlotInRange(heap, root, key);
        assert AtRest(heap, cur) && AtRest(heap, root);
        ReachesLookup(heap, root, cur, key);
        var slot := heap.meta[cur].slotOf(key);
        match heap.cells[cur][slot] {
          case Data(p) =>
            if p.key != key {
              return false;
            }
            BuryAndTidy(cur, depth, first, p);
            return true;
          case Child(ptr, _) =>
            ArrivedStep(heap, root, key, cur, depth, first);
            depth := depth + 1;
            if first.None? {
              first := Some(Descent(slot, ptr.id));
            }
            cur := ptr.id;
          case _ =>
            return false;
        }
      }
    }

    /** Buries an entry, and rebuilds the subtree above it when its node has too many
        tombstones. */
    method BuryAndTidy(cur: nat, ghost depth: nat, first: Option<Descent>, p: Pair)
      requires TreeValid() && Arrived(heap, root, p.key, cur, depth, first) && CellFor(heap, cur, p.key) == Data(p)
      modifies `heap, `view
      ensures TreeValid() && view == old(view) - {p.key}
      ensures TidiedOK(cfg, old(heap), heap, root, p.key, true)
    {
      SlotInRange(heap, cur, p.key);
      SlotInRange(heap, root, p.key);
      assert AtRest(heap, cur) && AtRest(heap, root);
      Bury(cur, p);
      StoredCells(old(heap), heap, cur, Slot(heap.meta, cur, p.key), Tomb(p));
      assert Unmoved(heap, root, first);
      if cfg.autoRebuild && TombstoneRatio(heap.cells[cur]) > cfg.tombstoneThreshold {
        if first.Some? {
          if HasTwoNeighbours(old(heap), root, p.key) {
            NeighboursCount(old(heap), heap, root, p.key, old(view));
          }
          var ok := TryRebuildSubtree(first.value.slot);
        }
      }
    }

    /** DATA becomes TOMBSTONE. */
    method Bury(cur: nat, p: Pair)
      requires TreeValid() && cur < |heap.meta| && Reaches(heap, root, cur, p.key)
      requires InRegion(heap.meta, heap.meta[cur].path, p.key) && CellFor(heap, cur, p.key) == Data(p)
      modifies `heap, `view
      ensures TreeValid() && view == old(view) - {p.key}
      ensures Stored(old(heap), heap, cur, Slot(heap.meta, cur, p.key), Tomb(p))
    {
      var slot := Slot(heap.meta, cur, p.key);
      PutInline(heap, cur, p.key, Tomb(p));
      ghost var next := view - {p.key};
      BindShows(heap, Put(heap, cur, slot, Tomb(p)), root, cur, Tomb(p), p.key, None, view, next);
      heap, view := Put(heap, cur, slot, Tomb(p)), next;
    }

    // -------------------------------------------------------------------------------
    // The interface

    method Insert(key: Key, val: Value) returns (isNew: bool)
      requires Valid()
      modifies this
      ensures Valid() && view == old(view)[key := val]
      ensures isNew <==> key !in old(view)
      ensures inserted == old(inserted) + if isNew then 1 else 0
      ensures copied == old(copied) + if isNew && cfg.autoRebuild && len == old(nextRootRebuild) then len else 0
      ensures if isNew && cfg.autoRebuild && len == old(nextRootRebuild)
              then RefittedAfter(inp, cfg, old(heap), old(root), heap, root)
              else root == old(root) && FlattenedOK(cfg, old(heap), heap, root, key, isNew)
    {
      isNew := InsertUnder(Pair(key, val));
      if isNew {
        len, inserted := len + 1, inserted + 1;
        MaybeRebuildRoot(len);
      }
    }

    method GetOrInsert(key: Key, val: Value) returns (r: Value)
      requires Valid()
      modifies this
      ensures Valid() && view == if key in old(view) then old(view) else old(view)[key := val]
      ensures r == view[key]
      ensures inserted == old(inserted) + if key in old(view) then 0 else 1
      ensures copied == old(copied) +
                if key !in old(view) && cfg.autoRebuild && len == old(nextRootRebuild) then len else 0
      ensures if key !in old(view) && cfg.autoRebuild && len == old(nextRootRebuild)
              then RefittedAfter(inp, cfg, old(heap), old(root), heap, root)
              else root == old(root) && FlattenedOK(cfg, old(heap), heap, root, key, key !in old(view))
    {
      var isNew;
      r, isNew := GetOrInsertUnder(Pair(key, val));
      if isNew {
        len, inserted := len + 1, inserted + 1;
        MaybeRebuildRoot(len);
      }
    }

    method Remove(key: Key) returns (removed: bool)
      requires Valid()
      modifies this
      ensures Valid() && view == old(view) - {key}
      ensures removed <==> key in old(view)
      ensures root == old(root) && TidiedOK(cfg, old(heap), heap, root, key, removed)
      ensures inserted == old(inserted) && copied == old(copied)
    {
      removed := RemoveUnder(key);
      if removed {
        OneLess(old(view), key);
        len := len - 1;
      } else {
        assert view == old(view);
      }
    }

    /** Rebuilds the whole tree when the entry count has reached the threshold. */
    method MaybeRebuildRoot(currentLen: nat)
      requires TreeValid() && currentLen == len == |view| > 0
      requires nextRootRebuild % 2 == 0 && (cfg.autoRebuild ==> len <= nextRootRebuild)
      requires copied <= 2 * inserted && copied + 2 * (len - nextRootRebuild / 2) <= 2 * inserted
      modifies this
      ensures Valid() && view == old(view) && len == old(len) && inserted == old(inserted)
      ensures copied == old(copied) + if cfg.autoRebuild && len == old(nextRootRebuild) then len else 0
      ensures if cfg.autoRebuild && len == old(nextRootRebuild) then Refitted(inp, cfg, old(heap), old(root), heap, root)
              else heap == old(heap) && root == old(root)
    {
      if !cfg.autoRebuild {
        return;
      }
      var threshold := nextRootRebuild;
      if currentLen < threshold {
        return;
      }
      nextRootRebuild := threshold * ROOT_REBUILD_GROWTH_FACTOR;
      ghost var pairsCopied := Rebuild();
      copied := copied + pairsCopied;
    }

    /** Rebuilds the whole tree from a snapshot. */
    method Rebuild() returns (ghost pairsCopied: nat)
      requires TreeValid() && len == |view|
      modifies `heap, `root, `nextRootRebuild
      ensures TreeValid()
      ensures nextRootRebuild == if len == 0 then old(nextRootRebuild) else 2 * len
      ensures old(Valid()) ==> Valid()
      ensures pairsCopied == len == |Entries(old(heap), old(root), 0)|
      ensures if len == 0 then heap == old(heap) && root == old(root) else Refitted(inp, cfg, old(heap), old(root), heap, root)
    {
      var pairs := SortedPairs(heap, root);
      ViewEntries(heap, root, pairs, view);
      pairsCopied := |pairs|;
      if |pairs| == 0 {
        return;
      }
      var loaded := BulkLoad(inp, Shape(cfg.expansion, 1.0), heap, pairs);
      assert loaded.Ok?;
      FreshTree(heap, loaded.value, pairs, view);
      root := |heap.meta|;
      heap := loaded.value;
      nextRootRebuild := |pairs| * ROOT_REBUILD_GROWTH_FACTOR;
    }

    /** Empties the map and returns what it held, in order. */
    method Drain() returns (pairs: seq<Pair>)
      requires Valid()
      modifies this
      ensures Valid() && view == map[]
      ensures Ascending(pairs) && forall p :: p in pairs <==> Binding(old(view), p.key) == Some(p.val)
      ensures inserted == old(inserted) && copied == old(copied)
      ensures nextRootRebuild == 64 && Emptied(old(heap), heap, root)
    {
      pairs := SortedPairs(heap, root);
      ViewEntries(heap, root, pairs, view);
      Reset(|pairs|);
    }

    method Clear()
      requires Valid()
      modifies this
      ensures Valid() && view == map[]
      ensures inserted == old(inserted) && copied == old(copied)
      ensures nextRootRebuild == 64 && Emptied(old(heap), heap, root)
    {
      var entryCount := Count(heap, root);
      ViewEntries(heap, root, Entries(heap, root, 0), view);
      Reset(entryCount);
    }

    /** Swaps in an empty root and takes the removed entries off the count. */
    method Reset(entryCount: nat)
      requires Valid() && entryCount == |view|
      modifies this
      ensures Valid() && view == map[] && inserted == old(inserted) && copied == old(copied)
      ensures nextRootRebuild == INITIAL_ROOT_REBUILD_THRESHOLD && Emptied(old(heap), heap, root)
    {
      var g := EmptyRoot(inp, heap);
      FreshTree(heap, g, [], map[]);
      root := |heap.meta|;
      heap, view := g, map[];
      len := len - entryCount;
      nextRootRebuild := INITIAL_ROOT_REBUILD_THRESHOLD;
    }
  }

  lemma OneLess(m: map<Key, Value>, key: Key)
    requires key in m
    ensures |m - {key}| == |m| - 1
  {
    assert m == (m - {key})[key := m[key]];
  }

  /** Tombstones per slot of a node. */
  function TombstoneRatio(cells: seq<Cell>): real {
    if |cells| == 0 then 0.0 else Tombs(cells) as real / |cells| as real
  }

  lemma ViewEntries(h: Heap, root: nat, pairs: seq<Pair>, m: map<Key, Value>)
    requires TreeOK(h, root) && Shows(h, root, m) && pairs == Entries(h, root, 0)
    ensures Ascending(pairs) && |pairs| == |m|
    ensures forall p :: p in pairs <==> Binding(m, p.key) == Some(p.val)
  {
    EntriesBind(h, root);
    forall p ensures p in pairs <==> Binding(m, p.key) == Some(p.val) {
      assert Lookup(h, root, p.key) == Binding(m, p.key);
    }
    CountEntries(pairs, m);
  }

  /** Inserting pairs into a map from left to right, as collecting into an ordered map does. */
  ghost function Collected(pairs: seq<Pair>): map<Key, Value> {
    if pairs == [] then map[]
    else
      var last := pairs[|pairs| - 1];
      Collected(pairs[..|pairs| - 1])[last.key := last.val]
  }

  lemma LastShrinks(pairs: seq<Pair>, n: nat, i: nat)
    requires |pairs| == n + 1 && i < n
    ensures LastOfKey(pairs, i) <==> LastOfKey(pairs[..n], i) && pairs[i].key != pairs[n].key
  {
    forall j | i < j < n ensures pairs[..n][j].key == pairs[j].key {
    }
  }

  lemma SurvivesSnoc(pairs: seq<Pair>, n: nat, p: Pair)
    requires |pairs| == n + 1
    ensures Survives(pairs, n + 1, p) ==> if p.key == pairs[n].key then p == pairs[n] else Survives(pairs[..n], n, p)
    ensures p == pairs[n] || (p.key != pairs[n].key && Survives(pairs[..n], n, p)) ==> Survives(pairs, n + 1, p)
  {
    assert LastOfKey(pairs, n);
    if Survives(pairs, n + 1, p) {
      var i :| 0 <= i < n + 1 && LastOfKey(pairs, i) && pairs[i] == p;
      if i < n {
        LastShrinks(pairs, n, i);
        assert pairs[..n][i] == p;
      }
    }
    if p.key != pairs[n].key && Survives(pairs[..n], n, p) {
      var i :| 0 <= i < n && LastOfKey(pairs[..n], i) && pairs[..n][i] == p;
      LastShrinks(pairs, n, i);
    }
  }

  /** Collecting keeps exactly the last pair of each key. */
  lemma {:induction false} CollectedKeepsLast(pairs: seq<Pair>, p: Pair)
    ensures Binding(Collected(pairs), p.key) == Some(p.val) <==> Survives(pairs, |pairs|, p)
  {
    if pairs != [] {
      CollectedKeepsLast(pairs[..|pairs| - 1], p);
      SurvivesSnoc(pairs, |pairs| - 1, p);
    }
  }

  lemma AscendingCollected(pairs: seq<Pair>)
    ensures Ascending(pairs) ==> forall p :: p in pairs <==> Binding(Collected(pairs), p.key) == Some(p.val)
  {
    forall p | Ascending(pairs) ensures p in pairs <==> Binding(Collected(pairs), p.key) == Some(p.val) {
      CollectedKeepsLast(pairs, p);
      if p in pairs {
        var i :| 0 <= i < |pairs| && pairs[i] == p;
        assert LastOfKey(pairs, i);
      }
    }
  }

  lemma SameBindings(m: map<Key, Value>, m': map<Key, Value>)
    requires forall p: Pair :: Binding(m, p.key) == Some(p.val) <==> Binding(m', p.key) == Some(p.val)
    ensures m == m'
  {
    forall k ensures Binding(m, k) == Binding(m', k) {
      if k in m {
        assert Binding(m, Pair(k, m[k]).key) == Some(Pair(k, m[k]).val);
      } else if k in m' {
        assert Binding(m', Pair(k, m'[k]).key) == Some(Pair(k, m'[k]).val);
      }
    }
    forall k ensures k in m <==> k in m' {
      assert Binding(m, k) == Binding(m', k);
    }
    forall k | k in m ensures m[k] == m'[k] {
      assert Binding(m, k) == Binding(m', k);
    }
  }

  /** `bulk_load_dedup_with_config`: agrees with collecting the same list. */
  method BulkLoadDedupMap(inp: Inputs, cfg: Config, pairs: seq<Pair>) returns (r: Result<LearnedMap, Error>)
    requires Monotone(inp) && ConfigOK(cfg)
    ensures pairs == [] ==> r == Err(EmptyData)
    ensures pairs != [] && !NondecreasingKeys(pairs) ==> r == Err(NotSorted)
    ensures pairs != [] && NondecreasingKeys(pairs) ==>
              r.Ok? && fresh(r.value) && r.value.Valid() && r.value.view == Collected(pairs)
  {
    var deduped := Dedup(pairs);
    if deduped.Err? {
      return Err(deduped.error);
    }
    r := BulkLoadMap(inp, cfg, deduped.value);
    AscendingCollected(deduped.value);
    forall p: Pair
      ensures Binding(r.value.view, p.key) == Some(p.val) <==> Binding(Collected(pairs), p.key) == Some(p.val)
    {
      CollectedKeepsLast(pairs, p);
    }
    SameBindings(r.value.view, Collected(pairs));
  }

  /** `bulk_load_with_config`. */
  method BulkLoadMap(inp: Inputs, cfg: Config, pairs: seq<Pair>) returns (r: Result<LearnedMap, Error>)
    requires Monotone(inp) && ConfigOK(cfg)
    ensures pairs == [] ==> r == Err(EmptyData)
    ensures pairs != [] && !Ascending(pairs) ==> r == Err(NotSorted)
    ensures pairs != [] && Ascending(pairs) ==>
              r.Ok? && fresh(r.value) && r.value.Valid() && r.value.view == Collected(pairs)
    ensures r.Ok? ==>
              && Grown(NO_NODES, r.value.heap, [], pairs) && r.value.root == 0
              && HeadOK(inp, Shape(cfg.expansion, if cfg.headroom > 1.0 then cfg.headroom else 1.0), r.value.heap.meta[0], pairs)
              && r.value.nextRootRebuild == 2 * |pairs| && r.value.cfg == cfg && r.value.inp == inp
  {
    var headroom := if cfg.headroom > 1.0 then cfg.headroom else 1.0;
    var loaded := BulkLoad(inp, Shape(cfg.expansion, headroom), NO_NODES, pairs);
    if loaded.Err? {
      return Err(loaded.error);
    }
    ghost var m := Collected(pairs);
    AscendingCollected(pairs);
    FreshTree(NO_NODES, loaded.value, pairs, m);
    CountEntries(pairs, m);
    var built := new LearnedMap.Loaded(inp, cfg, loaded.value, |pairs|, m);
    r := Ok(built);
  }

  lemma FreshTree(h: Heap, g: Heap, pairs: seq<Pair>, m: map<Key, Value>)
    requires WF(h) && AllAtRest(h) && Grown(h, g, [], pairs)
    requires forall p :: p in pairs <==> Binding(m, p.key) == Some(p.val)
    ensures TreeOK(g, |h.meta|) && Shows(g, |h.meta|, m)
  {
    GrownWF(h, g, [], pairs);
    forall n | 0 <= n < |g.cells| ensures AtRest(g, n) {
      assert n < |h.cells| ==> AtRest(h, n) && g.cells[n] == h.cells[n];
    }
    forall k ensures Lookup(g, |h.meta|, k) == Binding(m, k) {
      GrownLookup(h, g, [], pairs, k);
      if k in m {
        assert Pair(k, m[k]) in pairs;
      }
    }
  }

  /** A snapshot is sorted and belongs where it was taken. */
  lemma SnapshotPlace(h: Heap, child: nat, pairs: seq<Pair>)
    requires WF(h) && child < |h.meta| && pairs == Entries(h, child, 0)
    ensures Ascending(pairs) && PlaceFor(h, h.meta[child].path, pairs)
  {
    EntriesAscend(h, child, 0);
    assert NodeOK(h, child);
    forall p | p in pairs ensures InRegion(h.meta, h.meta[child].path, p.key) {
      EntriesPlaced(h, child, 0, p);
    }
  }

  /** Replacing a subtree by one built from its entries changes nothing that can be seen. */
  lemma RebuiltShows(h: Heap, built: Heap, root: nat, slot: nat, pairs: seq<Pair>, m: map<Key, Value>)
    requires TreeOK(h, root) && Shows(h, root, m) && slot < |h.cells[root]|
    requires h.cells[root][slot].Child? && h.cells[root][slot].ptr.id < |h.meta|
    requires pairs == Entries(h, h.cells[root][slot].ptr.id, 0)
    requires Grown(h, built, h.meta[root].path + [At(root, slot)], pairs)
    ensures var g := Put(built, root, slot, Child(Ptr(|h.meta|, None), h.cells[root][slot].stale));
            && TreeOK(g, root) && Shows(g, root, m) && Stored(h, g, root, slot, g.cells[root][slot])
            && forall k :: Lookup(g, |h.meta|, k) == Lookup(h, h.cells[root][slot].ptr.id, k)
  {
    var x, child := h.cells[root][slot], h.cells[root][slot].ptr.id;
    var g := Put(built, root, slot, Child(Ptr(|h.meta|, None), x.stale));
    PutChild(h, built, root, slot, pairs);
    SameEntries(h, child, built, pairs, h.meta[root].path + [At(root, slot)]);
    assert NodeOK(h, root) && CellOK(h, root, slot, x);
    forall k | Reaches(h, root, root, k) && Slot(h.meta, root, k) == slot
      ensures Lookup(g, root, k) == Binding(m, k)
    {
      assert CellFor(h, root, k) == x;
    }
    ShowsStored(h, g, root, root, slot, g.cells[root][slot], m, m);
    GrownWF(h, built, h.meta[root].path + [At(root, slot)], pairs);
    forall k ensures Lookup(g, |h.meta|, k) == Lookup(h, child, k) {
      LookupUnchanged(built, g, |h.meta|, k);
    }
  }
}
