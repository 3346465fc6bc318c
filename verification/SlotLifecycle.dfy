/** What one step may do to shared memory: the life of a slot, and who may change it. */
module SlotLifecycle {
  import opened Wrappers
  import opened Keys
  import opened NodeHeap
  import opened Protocol

  /** Slot states in the only order they can follow each other. */
  function Rank(x: Cell): (r: nat)
    ensures r <= 5
  {
    match x
    case Empty => 0
    case Writing(_, WasEmpty) => 1
    case Data(_) => 2
    case Tomb(_) => 3
    case Writing(_, _) => 4
    case Child(_, _) => 5
  }

  /** The call that alone may change this slot now. */
  function HeldBy(x: Cell): Option<nat> {
    match x
    case Writing(u, _) => Some(u)
    case Child(ptr, _) => ptr.lock
    case _ => None
  }

  /** The slot moves forward and keeps a published pair for good; once it is a child slot,
      only the pointer of a root slot still changes. */
  predicate Forward(root: bool, a: Cell, b: Cell) {
    || a == b
    || (Rank(a) < Rank(b) && (PairOf(a).Some? ==> PairOf(b) == PairOf(a)))
    || (root && a.Child? && b.Child? && b.stale == a.stale)
  }

  /** What a step of call `t` may do to a slot. */
  predicate SlotStep(root: bool, a: Cell, b: Cell, t: nat) {
    a == b || (Forward(root, a, b) && (HeldBy(a).Some? ==> HeldBy(a).value == t))
  }

  /** What a step of call `t` may do to the heap. */
  ghost predicate Guarantee(h: Heap, g: Heap, t: nat) {
    && Extends(h, g)
    && forall n, i :: 0 <= n < |h.meta| ==> SlotStep(h.meta[n].path == [], CellAt(h, n, i), CellAt(g, n, i), t)
  }

  lemma StoreNone(h: Heap, n: nat, k: Key, x: Cell)
    requires WF(h) && n < |h.meta|
    requires CellOK(h, n, Slot(h.meta, n, k), x)
    ensures InHeap(h, n, k)
    ensures var g := Store(h, NO_NODES, n, k, x); WF(g) && g.meta == h.meta && Stored(h, g, n, Slot(h.meta, n, k), x)
  {
    SlotInRange(h, n, k);
    assert Append(h, NO_NODES) == h;
    PutWF(h, n, Slot(h.meta, n, k), x);
  }

  lemma FragmentAtRest(h: Heap, f: Heap, path: seq<At>, pairs: seq<Pair>)
    requires Fragment(h, f, path, pairs)
    ensures forall m, j :: |h.meta| <= m < |h.meta + f.meta| ==> HeldBy(CellAt(Append(h, f), m, j)).None?
  {
    forall m, j | |h.meta| <= m < |h.meta + f.meta| ensures HeldBy(CellAt(Append(h, f), m, j)).None? {
      assert AtRest(Append(h, f), m);
    }
  }

  /** Linking in a fragment as the child of a slot. */
  lemma StoreFragment(h: Heap, f: Heap, pairs: seq<Pair>, n: nat, k: Key, stale: Option<Pair>)
    requires WF(h) && n < |h.meta|
    requires Fragment(h, f, h.meta[n].path + [At(n, Slot(h.meta, n, k))], pairs)
    requires stale == PairOf(CellFor(h, n, k))
    ensures InHeap(h, n, k)
    ensures var x, g := Child(Ptr(|h.meta|, None), stale), Store(h, f, n, k, Child(Ptr(|h.meta|, None), stale));
            && WF(g) && Stored(h, g, n, Slot(h.meta, n, k), x)
            && g.meta == h.meta + f.meta
            && forall m, j :: |h.meta| <= m < |g.meta| ==> HeldBy(CellAt(g, m, j)).None?
  {
    var i, x := Slot(h.meta, n, k), Child(Ptr(|h.meta|, None), stale);
    var a := Append(h, f);
    SlotInRange(h, n, k);
    AppendWF(h, f, h.meta[n].path + [At(n, i)], pairs);
    CellOKExtends(h, a, n, i, CellFor(h, n, k));
    assert a.meta[|h.meta|] == f.meta[0];
    assert CellOK(a, n, i, x);
    PutWF(a, n, i, x);
    FragmentAtRest(h, f, h.meta[n].path + [At(n, i)], pairs);
    var g := Put(a, n, i, x);
    forall m, j | |h.meta| <= m < |g.meta| ensures HeldBy(CellAt(g, m, j)).None? {
      assert CellAt(g, m, j) == CellAt(a, m, j);
    }
  }

  lemma StoredGuarantee(h: Heap, g: Heap, n: nat, i: nat, x: Cell, t: nat)
    requires Stored(h, g, n, i, x)
    requires SlotStep(h.meta[n].path == [], CellAt(h, n, i), x, t)
    ensures Guarantee(h, g, t)
  {
  }

  lemma AppendGuarantee(h: Heap, f: Heap, path: seq<At>, pairs: seq<Pair>, t: nat)
    requires WF(h) && Fragment(h, f, path, pairs)
    ensures Guarantee(h, Append(h, f), t)
    ensures forall m, j :: |h.meta| <= m < |h.meta + f.meta| ==> HeldBy(CellAt(Append(h, f), m, j)).None?
  {
    AppendWF(h, f, path, pairs);
    FragmentAtRest(h, f, path, pairs);
  }

  // ---------------------------------------------------------------------------------
  // What survives other calls' steps

  lemma ChildStays(h: Heap, g: Heap, t: nat, n: nat, i: nat)
    requires Guarantee(h, g, t) && n < |h.meta| && CellAt(h, n, i).Child?
    ensures CellAt(g, n, i).Child?
    ensures h.meta[n].path != [] ==> CellAt(g, n, i) == CellAt(h, n, i)
  {
    assert SlotStep(h.meta[n].path == [], CellAt(h, n, i), CellAt(g, n, i), t);
  }

  lemma PairStays(h: Heap, g: Heap, t: nat, n: nat, i: nat)
    requires Guarantee(h, g, t) && n < |h.meta| && PairOf(CellAt(h, n, i)).Some?
    ensures PairOf(CellAt(g, n, i)) == PairOf(CellAt(h, n, i))
  {
    assert SlotStep(h.meta[n].path == [], CellAt(h, n, i), CellAt(g, n, i), t);
  }

  lemma HeldStays(h: Heap, g: Heap, t: nat, n: nat, i: nat)
    requires Guarantee(h, g, t) && n < |h.meta|
    requires HeldBy(CellAt(h, n, i)).Some? && HeldBy(CellAt(h, n, i)).value != t
    ensures CellAt(g, n, i) == CellAt(h, n, i)
  {
    assert SlotStep(h.meta[n].path == [], CellAt(h, n, i), CellAt(g, n, i), t);
  }

  lemma SlotStays(h: Heap, g: Heap, n: nat, k: Key)
    requires Extends(h, g) && n < |h.meta|
    ensures Slot(g.meta, n, k) == Slot(h.meta, n, k)
  {
  }

  /** A descent below a root is never cut off. */
  lemma {:induction false} ReachesStays(h: Heap, g: Heap, t: nat, a: nat, b: nat, k: Key)
    requires WF(h) && Guarantee(h, g, t) && a < |h.meta| && h.meta[a].path != []
    requires Reaches(h, a, b, k)
    ensures Reaches(g, a, b, k)
    decreases |h.meta| - a
  {
    if a != b {
      SlotInRange(h, a, k);
      SlotStays(h, g, a, k);
      var i := Slot(h.meta, a, k);
      ChildStays(h, g, t, a, i);
      ReachesStays(h, g, t, CellAt(h, a, i).ptr.id, b, k);
    }
  }
}
