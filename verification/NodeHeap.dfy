/** Nodes of the learned-index tree, kept in a heap indexed by node number.

    A node is a prediction function, a fixed number of slots, and nothing else that
    influences where a key lives. Node numbers play the role of pointers: a child is
    always numbered higher than its parent, and a number is never used twice. */
module NodeHeap {
  import opened Wrappers
  import opened Keys

  /** A slot of a node. */
  datatype At = At(node: nat, slot: nat)

  /** What never changes after a node is built. `path` lists the slots above the node, from
      the root of the tree version it was built for; it is auxiliary. */
  datatype Meta = Meta(slotOf: Key -> nat, capacity: nat, path: seq<At>)

  /** A child or root pointer. A tagged pointer is a frozen one; `lock` is the tag, and
      (auxiliary) names the call that froze it. */
  datatype Ptr = Ptr(id: nat, lock: Option<nat>)

  /** What a WRITING slot held when it was claimed. */
  datatype Was = WasEmpty | WasData(pair: Pair) | WasTomb(pair: Pair)

  /** Slot states. `Child` without stale data is SLOT_CHILD, with it SLOT_CHILD_STALE.
      The owner and the old contents of a WRITING slot are auxiliary. */
  datatype Cell =
    | Empty
    | Writing(owner: nat, was: Was)
    | Data(pair: Pair)
    | Tomb(pair: Pair)
    | Child(ptr: Ptr, stale: Option<Pair>)

  datatype Heap = Heap(meta: seq<Meta>, cells: seq<seq<Cell>>)

  const NO_NODES := Heap([], [])

  function Slot(meta: seq<Meta>, n: nat, k: Key): nat {
    if n < |meta| then meta[n].slotOf(k) else 0
  }

  function CellAt(h: Heap, n: nat, i: nat): Cell {
    if n < |h.cells| && i < |h.cells[n]| then h.cells[n][i] else Empty
  }

  /** The slot a key predicts to. */
  function CellFor(h: Heap, n: nat, k: Key): Cell {
    CellAt(h, n, Slot(h.meta, n, k))
  }

  function Put(h: Heap, n: nat, i: nat, x: Cell): Heap
    requires n < |h.cells| && i < |h.cells[n]|
  {
    h.(cells := h.cells[n := h.cells[n][i := x]])
  }

  function Append(h: Heap, f: Heap): Heap {
    Heap(h.meta + f.meta, h.cells + f.cells)
  }

  /** The inline pair of a slot, live or stale. */
  function PairOf(x: Cell): Option<Pair> {
    match x
    case Data(p) => Some(p)
    case Tomb(p) => Some(p)
    case Child(_, stale) => stale
    case Writing(_, WasData(p)) => Some(p)
    case Writing(_, WasTomb(p)) => Some(p)
    case _ => None
  }

  /** Descent by prediction: the value bound to `k` below node `n`. A slot that is being
      turned from DATA into a child still binds its old pair. */
  function Lookup(h: Heap, n: nat, k: Key): Option<Value>
    decreases if n < |h.cells| then |h.cells| - n else 0
  {
    match CellFor(h, n, k)
    case Data(p) => if p.key == k then Some(p.val) else None
    case Writing(_, WasData(p)) => if p.key == k then Some(p.val) else None
    case Child(ptr, _) => if n < ptr.id < |h.cells| then Lookup(h, ptr.id, k) else None
    case _ => None
  }

  /** The descent for `k` from node `a` passes through node `b`. */
  ghost predicate Reaches(h: Heap, a: nat, b: nat, k: Key)
    decreases if a < |h.cells| then |h.cells| - a else 0
  {
    a == b ||
    var x := CellFor(h, a, k);
    x.Child? && a < x.ptr.id < |h.cells| && Reaches(h, x.ptr.id, b, k)
  }

  // ---------------------------------------------------------------------------------
  // Well-formed heaps

  /** Prediction is monotone in the key order and stays inside the node. */
  ghost predicate MonotoneSlots(m: Meta) {
    forall a: Key, b: Key :: a <= b ==> m.slotOf(a) <= m.slotOf(b) < m.capacity
  }

  /** `k` predicts to each slot of `path`. */
  ghost predicate InRegion(meta: seq<Meta>, path: seq<At>, k: Key) {
    forall j :: 0 <= j < |path| ==> Slot(meta, path[j].node, k) == path[j].slot
  }

  /** The slot invariant: inline keys predict here in this node and in all nodes above,
      and a child lives exactly under this slot. Only root slots are ever frozen. */
  ghost predicate CellOK(h: Heap, n: nat, i: nat, x: Cell)
    requires n < |h.meta|
  {
    && (PairOf(x).Some? ==> InRegion(h.meta, h.meta[n].path + [At(n, i)], PairOf(x).value.key))
    && (x.Child? ==>
          && n < x.ptr.id < |h.meta|
          && h.meta[x.ptr.id].path == h.meta[n].path + [At(n, i)]
          && (h.meta[n].path != [] ==> x.ptr.lock == None))
  }

  ghost predicate NodeOK(h: Heap, n: nat)
    requires n < |h.meta| == |h.cells|
  {
    && 0 < |h.cells[n]| == h.meta[n].capacity
    && MonotoneSlots(h.meta[n])
    && (forall j :: 0 <= j < |h.meta[n].path| ==> h.meta[n].path[j].node < n)
    && (forall i :: 0 <= i < |h.cells[n]| ==> CellOK(h, n, i, h.cells[n][i]))
  }

  ghost predicate WF(h: Heap) {
    && |h.meta| == |h.cells|
    && forall n :: 0 <= n < |h.meta| ==> NodeOK(h, n)
  }

  ghost predicate IsRoot(h: Heap, n: nat) {
    n < |h.meta| && h.meta[n].path == []
  }

  lemma SlotInRange(h: Heap, n: nat, k: Key)
    requires WF(h) && n < |h.meta|
    ensures Slot(h.meta, n, k) < |h.cells[n]|
    ensures CellOK(h, n, Slot(h.meta, n, k), CellFor(h, n, k))
  {
    assert NodeOK(h, n);
    assert k <= k;
  }

  lemma SlotMonotone(h: Heap, n: nat, a: Key, b: Key)
    requires WF(h) && n < |h.meta| && a <= b
    ensures Slot(h.meta, n, a) <= Slot(h.meta, n, b)
  {
    assert NodeOK(h, n);
  }

  // ---------------------------------------------------------------------------------
  // Building up a heap

  /** Old nodes keep their number and everything immutable about them. */
  ghost predicate Extends(h: Heap, g: Heap) {
    && h.meta <= g.meta
    && |g.meta| == |g.cells|
    && |h.meta| == |h.cells|
    && forall n :: 0 <= n < |h.cells| ==> |g.cells[n]| == |h.cells[n]|
  }

  /** `g` is `h` with one slot replaced and perhaps new nodes added. */
  ghost predicate Stored(h: Heap, g: Heap, n: nat, i: nat, x: Cell) {
    && Extends(h, g)
    && n < |h.meta|
    && CellAt(g, n, i) == x
    && forall m, j :: 0 <= m < |h.meta| && (m != n || j != i) ==> CellAt(g, m, j) == CellAt(h, m, j)
  }

  lemma InRegionExtends(h: Heap, g: Heap, path: seq<At>, k: Key)
    requires h.meta <= g.meta
    requires forall j :: 0 <= j < |path| ==> path[j].node < |h.meta|
    ensures InRegion(h.meta, path, k) == InRegion(g.meta, path, k)
  {
    assert forall j :: 0 <= j < |path| ==> Slot(h.meta, path[j].node, k) == Slot(g.meta, path[j].node, k);
  }

  lemma CellOKExtends(h: Heap, g: Heap, n: nat, i: nat, x: Cell)
    requires WF(h) && h.meta <= g.meta && n < |h.meta|
    requires CellOK(h, n, i, x)
    ensures CellOK(g, n, i, x)
  {
    assert NodeOK(h, n);
    if PairOf(x).Some? {
      InRegionExtends(h, g, h.meta[n].path + [At(n, i)], PairOf(x).value.key);
    }
  }

  /** Storing a well-placed cell keeps the heap well-formed. */
  lemma PutWF(h: Heap, n: nat, i: nat, x: Cell)
    requires WF(h) && n < |h.meta| && i < |h.cells[n]|
    requires CellOK(h, n, i, x)
    ensures WF(Put(h, n, i, x))
  {
    var g := Put(h, n, i, x);
    forall m | 0 <= m < |g.meta| ensures NodeOK(g, m) {
      assert NodeOK(h, m);
      forall j | 0 <= j < |g.cells[m]| ensures CellOK(g, m, j, g.cells[m][j]) {
        assert CellOK(h, m, j, g.cells[m][j]);
      }
    }
  }

  /** From `h` to `g`, nodes were added; the first of them heads a tree to be hung under
      `path`, at rest, well-formed, and binding exactly `pairs`. */
  ghost predicate Grown(h: Heap, g: Heap, path: seq<At>, pairs: seq<Pair>) {
    && |h.meta| == |h.cells| && |g.meta| == |g.cells|
    && h.meta <= g.meta && h.cells <= g.cells && |h.meta| < |g.meta|
    && g.meta[|h.meta|].path == path
    && (forall n :: |h.meta| <= n < |g.meta| ==> NodeOK(g, n) && AtRest(g, n))
    && (forall n :: |h.meta| < n < |g.meta| ==> g.meta[n].path != [])
    && (forall p :: p in pairs <==> Lookup(g, |h.meta|, p.key) == Some(p.val))
  }

  /** The nodes of `f`, added to `h`, are such a tree. */
  ghost predicate Fragment(h: Heap, f: Heap, path: seq<At>, pairs: seq<Pair>) {
    |f.meta| == |f.cells| && Grown(h, Append(h, f), path, pairs)
  }

  /** No slot of node `n` is being written or frozen, and every child is a later node. */
  ghost predicate AtRest(h: Heap, n: nat)
    requires n < |h.cells|
  {
    forall i :: 0 <= i < |h.cells[n]| ==>
      var x := h.cells[n][i];
      !x.Writing? && (x.Child? ==> x.ptr.lock == None)
  }

  lemma GrownWF(h: Heap, g: Heap, path: seq<At>, pairs: seq<Pair>)
    requires WF(h) && Grown(h, g, path, pairs)
    ensures WF(g) && Extends(h, g)
  {
    assert forall n :: 0 <= n < |h.cells| ==> g.cells[n] == h.cells[n];
    forall n | 0 <= n < |g.meta| ensures NodeOK(g, n) {
      if n < |h.meta| {
        assert NodeOK(h, n);
        assert g.meta[n] == h.meta[n] && g.cells[n] == h.cells[n];
        forall i | 0 <= i < |g.cells[n]| ensures CellOK(g, n, i, g.cells[n][i]) {
          assert CellOK(h, n, i, h.cells[n][i]);
          CellOKExtends(h, g, n, i, h.cells[n][i]);
        }
      }
    }
  }

  lemma AppendWF(h: Heap, f: Heap, path: seq<At>, pairs: seq<Pair>)
    requires WF(h) && Fragment(h, f, path, pairs)
    ensures WF(Append(h, f)) && Extends(h, Append(h, f)) && |f.meta| > 0 && f.meta[0].path == path
  {
    GrownWF(h, Append(h, f), path, pairs);
    assert Append(h, f).meta[|h.meta|] == f.meta[0];
  }

  // ---------------------------------------------------------------------------------
  // How one changed slot affects lookups

  /** For key `k`, every old node except `b` still has the same predicted slot. */
  ghost predicate SameBut(h: Heap, g: Heap, b: nat, k: Key) {
    forall n :: 0 <= n < |h.cells| && n != b ==> CellFor(g, n, k) == CellFor(h, n, k)
  }

  /** If only node `b` differs for `k`, then lookups that pass through `b` now end as `b`'s
      does, and all others are unchanged. */
  lemma {:induction false} LookupAfter(h: Heap, g: Heap, b: nat, n: nat, k: Key)
    requires WF(h) && Extends(h, g) && SameBut(h, g, b, k) && n < |h.meta|
    ensures Reaches(h, n, b, k) ==> Lookup(g, n, k) == Lookup(g, b, k)
    ensures !Reaches(h, n, b, k) ==> Lookup(g, n, k) == Lookup(h, n, k)
    decreases |h.meta| - n
  {
    if n != b {
      SlotInRange(h, n, k);
      var x := CellFor(h, n, k);
      assert CellFor(g, n, k) == x;
      if x.Child? {
        LookupAfter(h, g, b, x.ptr.id, k);
      }
    }
  }

  /** Reaching `b` does not depend on what `b` holds. */
  lemma {:induction false} ReachesAfter(h: Heap, g: Heap, b: nat, n: nat, k: Key)
    requires WF(h) && Extends(h, g) && SameBut(h, g, b, k) && n < |h.meta|
    requires Reaches(h, n, b, k)
    ensures Reaches(g, n, b, k)
    decreases |h.meta| - n
  {
    if n != b {
      SlotInRange(h, n, k);
      ReachesAfter(h, g, b, CellFor(h, n, k).ptr.id, k);
    }
  }

  lemma {:induction false} ReachesLookup(h: Heap, a: nat, b: nat, k: Key)
    requires Reaches(h, a, b, k)
    ensures Lookup(h, a, k) == Lookup(h, b, k)
    decreases if a < |h.cells| then |h.cells| - a else 0
  {
    if a != b {
      ReachesLookup(h, CellFor(h, a, k).ptr.id, b, k);
    }
  }

  lemma {:induction false} ReachesTrans(h: Heap, a: nat, b: nat, c: nat, k: Key)
    requires Reaches(h, a, b, k) && Reaches(h, b, c, k)
    ensures Reaches(h, a, c, k)
    decreases if a < |h.cells| then |h.cells| - a else 0
  {
    if a != b {
      ReachesTrans(h, CellFor(h, a, k).ptr.id, b, c, k);
    }
  }

  /** A descent never climbs back to a root. */
  lemma {:induction false} NoWayToRoot(h: Heap, a: nat, r: nat, k: Key)
    requires WF(h) && a < |h.meta| && IsRoot(h, r) && a != r
    ensures !Reaches(h, a, r, k)
    decreases |h.meta| - a
  {
    SlotInRange(h, a, k);
    var x := CellFor(h, a, k);
    if x.Child? {
      assert x.ptr.id != r;
      NoWayToRoot(h, x.ptr.id, r, k);
    }
  }

  /** The nodes on a descent have the key in their region. */
  lemma {:induction false} ReachesRegion(h: Heap, a: nat, b: nat, k: Key)
    requires WF(h) && a < |h.meta| && Reaches(h, a, b, k)
    requires InRegion(h.meta, h.meta[a].path, k)
    ensures b < |h.meta| && InRegion(h.meta, h.meta[b].path, k)
    decreases |h.meta| - a
  {
    if a != b {
      SlotInRange(h, a, k);
      ReachesRegion(h, CellFor(h, a, k).ptr.id, b, k);
    }
  }

  /** A key bound below a node lies in the node's region. */
  lemma {:induction false} BoundInRegion(h: Heap, n: nat, k: Key)
    requires WF(h) && n < |h.meta| && Lookup(h, n, k).Some?
    ensures InRegion(h.meta, h.meta[n].path, k)
    decreases |h.meta| - n
  {
    SlotInRange(h, n, k);
    var i := Slot(h.meta, n, k);
    var x := CellFor(h, n, k);
    var path := h.meta[n].path + [At(n, i)];
    if x.Child? {
      BoundInRegion(h, x.ptr.id, k);
    }
    assert InRegion(h.meta, path, k);
    forall j | 0 <= j < |h.meta[n].path|
      ensures Slot(h.meta, h.meta[n].path[j].node, k) == h.meta[n].path[j].slot
    {
      assert path[j] == h.meta[n].path[j];
    }
  }

  /** Lookups only depend on the predicted slots. */
  lemma {:induction false} LookupUnchanged(h: Heap, g: Heap, n: nat, k: Key)
    requires WF(h) && Extends(h, g) && n < |h.meta|
    requires forall m :: n <= m < |h.cells| ==> CellFor(g, m, k) == CellFor(h, m, k)
    ensures Lookup(g, n, k) == Lookup(h, n, k)
    decreases |h.meta| - n
  {
    SlotInRange(h, n, k);
    var x := CellFor(h, n, k);
    assert CellFor(g, n, k) == x;
    if x.Child? {
      LookupUnchanged(h, g, x.ptr.id, k);
    }
  }

  /** Replacing slot `i` of node `b` matters only to keys whose descent ends up in that slot. */
  lemma StoredLookup(h: Heap, g: Heap, root: nat, b: nat, i: nat, x: Cell, k: Key)
    requires WF(h) && Stored(h, g, b, i, x) && root < |h.meta|
    ensures Reaches(h, root, b, k) ==> Lookup(g, root, k) == Lookup(g, b, k) && Lookup(h, root, k) == Lookup(h, b, k)
    ensures !Reaches(h, root, b, k) || Slot(h.meta, b, k) != i ==> Lookup(g, root, k) == Lookup(h, root, k)
  {
    assert SameBut(h, g, b, k);
    LookupAfter(h, g, b, root, k);
    if Reaches(h, root, b, k) {
      ReachesLookup(h, root, b, k);
      if Slot(h.meta, b, k) != i {
        LookupUnchanged(h, g, b, k);
      }
    }
  }
}
