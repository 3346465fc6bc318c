/** Building nodes: bulk load, and the small nodes that inserts create.

    A node is built for a place in a tree: `path` lists the slots above it. Construction adds
    nodes to the heap, the head of what is built first, and changes no older node. */
module Build {
  import opened Wrappers
  import opened Keys
  import opened NodeHeap
  import opened LinearModels

  /** What of the configuration matters for building. */
  datatype Shape = Shape(expansion: real, headroom: real)

  datatype Error = EmptyData | NotSorted

  ghost predicate ShapeOK(shape: Shape) { shape.expansion >= 1.0 && shape.headroom >= 0.0 }

  // ---------------------------------------------------------------------------------
  // What construction keeps

  /** A place in a tree of `h`, and keys that belong there. */
  ghost predicate PlaceFor(h: Heap, path: seq<At>, pairs: seq<Pair>) {
    && (forall j :: 0 <= j < |path| ==> path[j].node < |h.meta|)
    && (forall p :: p in pairs ==> InRegion(h.meta, path, p.key))
  }

  /** What is built is what a compare-and-swap of the protocol links in. */
  lemma GrownIsFragment(h: Heap, g: Heap, path: seq<At>, pairs: seq<Pair>) returns (f: Heap)
    requires Grown(h, g, path, pairs)
    ensures Fragment(h, f, path, pairs) && Append(h, f) == g
  {
    f := Heap(g.meta[|h.meta|..], g.cells[|h.cells|..]);
    assert h.meta + f.meta == g.meta && h.cells + f.cells == g.cells;
  }

  // ---------------------------------------------------------------------------------
  // Nodes

  function NodeMeta(inp: Inputs, model: Model, size: nat, path: seq<At>): Meta {
    Meta((k: Key) => Predict(inp, model, size, k), size, path)
  }

  /** `with_capacity`, `with_capacity_leaf` and `with_split_key`: a node of empty slots. */
  function NewNode(h: Heap, m: Meta): Heap {
    Heap(h.meta + [m], h.cells + [seq(m.capacity, _ => Empty)])
  }

  lemma NewNodeGrown(inp: Inputs, model: Model, size: nat, h: Heap, path: seq<At>)
    requires Monotone(inp) && WF(h) && size > 0
    requires model.Linear? ==> model.slope >= 0.0
    requires forall j :: 0 <= j < |path| ==> path[j].node < |h.meta|
    ensures Grown(h, NewNode(h, NodeMeta(inp, model, size, path)), path, [])
  {
    var m := NodeMeta(inp, model, size, path);
    var g := NewNode(h, m);
    forall a: Key, b: Key | a <= b ensures m.slotOf(a) <= m.slotOf(b) < m.capacity {
      PredictMonotone(inp, model, size, a, b);
    }
    forall p: Pair ensures Lookup(g, |h.meta|, p.key) == None {
      assert CellFor(g, |h.meta|, p.key) == Empty;
    }
  }

  /** Filling an empty slot adds what the new cell binds. */
  lemma FilledBinds(g: Heap, g': Heap, n: nat, i: nat, x: Cell, old_: seq<Pair>, more: seq<Pair>)
    requires WF(g) && Stored(g, g', n, i, x) && CellAt(g, n, i).Empty?
    requires forall p :: p in old_ <==> Lookup(g, n, p.key) == Some(p.val)
    requires forall p :: p in more ==> Slot(g.meta, n, p.key) == i
    requires forall p: Pair :: Slot(g.meta, n, p.key) == i ==>
               (p in more <==> Lookup(g', n, p.key) == Some(p.val))
    ensures forall p :: p in old_ + more <==> Lookup(g', n, p.key) == Some(p.val)
  {
    forall p: Pair ensures p in old_ + more <==> Lookup(g', n, p.key) == Some(p.val) {
      if Slot(g.meta, n, p.key) == i {
        assert CellFor(g, n, p.key).Empty?;
        assert p !in old_;
      } else {
        assert p !in more;
        forall m: nat | n <= m < |g.cells| ensures CellFor(g', m, p.key) == CellFor(g, m, p.key) {
        }
        LookupUnchanged(g, g', n, p.key);
      }
    }
  }

  /** `store_data`, into an empty slot. */
  method StoreData(ghost h: Heap, g: Heap, n: nat, slot: nat, p: Pair, ghost pairs: seq<Pair>) returns (g': Heap)
    requires WF(h) && n == |h.meta| && n < |g.meta| && Grown(h, g, g.meta[n].path, pairs)
    requires InRegion(g.meta, g.meta[n].path, p.key)
    requires Slot(g.meta, n, p.key) == slot && CellAt(g, n, slot).Empty?
    ensures g'.meta == g.meta && Grown(h, g', g.meta[n].path, pairs + [p])
    ensures Stored(g, g', n, slot, Data(p))
  {
    GrownWF(h, g, g.meta[n].path, pairs);
    SlotInRange(g, n, p.key);
    g' := Put(g, n, slot, Data(p));
    PutWF(g, n, slot, Data(p));
    FilledBinds(g, g', n, slot, Data(p), pairs, [p]);
    forall m | |h.meta| <= m < |g'.meta| ensures AtRest(g', m) {
      assert AtRest(g, m);
    }
  }

  /** `store_child`, into an empty slot: links in the tree built last. */
  method StoreChild(ghost h: Heap, ghost g: Heap, built: Heap, n: nat, slot: nat, child: nat, ghost pairs: seq<Pair>,
                    ghost run: seq<Pair>)
    returns (g': Heap)
    requires WF(h) && n == |h.meta| && n < |g.meta| && Grown(h, g, g.meta[n].path, pairs)
    requires slot < |g.cells[n]| && CellAt(g, n, slot).Empty?
    requires child == |g.meta| && Grown(g, built, g.meta[n].path + [At(n, slot)], run)
    ensures g'.meta == built.meta && Grown(h, g', g.meta[n].path, pairs + run)
    ensures Stored(g, g', n, slot, Child(Ptr(child, None), None))
  {
    var x := Child(Ptr(child, None), None);
    ghost var path := g.meta[n].path;
    GrownWF(h, g, path, pairs);
    GrownWF(g, built, path + [At(n, slot)], run);
    assert built.meta[n] == g.meta[n] && built.cells[n] == g.cells[n];
    assert CellOK(built, n, slot, x);
    g' := Put(built, n, slot, x);
    PutWF(built, n, slot, x);
    ChildBinds(g, built, n, slot, child, run);
    FilledBinds(g, g', n, slot, x, pairs, run);
    forall m | |h.meta| <= m < |g'.meta| ensures AtRest(g', m) {
      if m < |g.meta| {
        assert AtRest(g, m);
      } else {
        assert AtRest(built, m);
      }
    }
  }

  lemma ChildBinds(g: Heap, built: Heap, n: nat, slot: nat, child: nat, run: seq<Pair>)
    requires WF(g) && WF(built) && n < |g.meta| && slot < |g.cells[n]|
    requires child == |g.meta| && Grown(g, built, g.meta[n].path + [At(n, slot)], run)
    ensures var g' := Put(built, n, slot, Child(Ptr(child, None), None));
            && Stored(g, g', n, slot, Child(Ptr(child, None), None))
            && (forall p :: p in run ==> Slot(g.meta, n, p.key) == slot)
            && forall p: Pair :: Slot(g.meta, n, p.key) == slot ==>
                 (p in run <==> Lookup(g', n, p.key) == Some(p.val))
  {
    var path := g.meta[n].path + [At(n, slot)];
    var g' := Put(built, n, slot, Child(Ptr(child, None), None));
    forall p | p in run ensures Slot(g.meta, n, p.key) == slot {
      BoundInRegion(built, child, p.key);
      assert path[|path| - 1] == At(n, slot);
    }
    forall p: Pair | Slot(g.meta, n, p.key) == slot
      ensures p in run <==> Lookup(g', n, p.key) == Some(p.val)
    {
      assert CellFor(g', n, p.key) == Child(Ptr(child, None), None);
      LookupUnchanged(built, g', child, p.key);
    }
  }

  // ---------------------------------------------------------------------------------
  // Nodes that split at an ordinal or at a key

  /** A model that sends `lo` and all smaller keys to slot 0 and `hi` and all larger keys to
      the last slot, whatever the key contract leaves unsaid about them. */
  function SplitModel(inp: Inputs, lo: Key, hi: Key): Model {
    var a, b := inp.ordinal(lo), inp.ordinal(hi);
    if a == b then SplitKey(lo) else Midpoint(a + (b - a) / 2)
  }

  lemma SplitSeparates(inp: Inputs, lo: Key, hi: Key, size: nat)
    requires Monotone(inp) && lo < hi
    ensures forall k: Key :: k <= lo ==> Predict(inp, SplitModel(inp, lo, hi), size, k) == 0
    ensures forall k: Key :: k >= hi ==> Predict(inp, SplitModel(inp, lo, hi), size, k) == Last(size)
  {
    assert inp.ordinal(lo) <= inp.ordinal(hi);
  }

  lemma Part(h: Heap, path: seq<At>, pairs: seq<Pair>, from: nat, to: nat)
    requires Ascending(pairs) && PlaceFor(h, path, pairs) && from < to <= |pairs|
    ensures Ascending(pairs[from..to]) && PlaceFor(h, path, pairs[from..to])
    ensures forall p :: p in pairs[from..to] ==> pairs[from].key <= p.key <= pairs[to - 1].key
  {
    forall p | p in pairs[from..to] ensures pairs[from].key <= p.key <= pairs[to - 1].key {
      var i :| from <= i < to && pairs[i] == p;
    }
  }

  /** Where a split node sends the two halves. */
  lemma SplitHalves(inp: Inputs, h: Heap, path: seq<At>, pairs: seq<Pair>, mid: nat, model: Model)
    requires Monotone(inp) && Ascending(pairs) && PlaceFor(h, path, pairs) && 0 < mid < |pairs|
    requires model == SplitModel(inp, pairs[mid - 1].key, pairs[mid].key)
    ensures !model.Linear?
    ensures Ascending(pairs[..mid]) && PlaceFor(h, path, pairs[..mid])
    ensures Ascending(pairs[mid..]) && PlaceFor(h, path, pairs[mid..])
    ensures forall p :: p in pairs[..mid] ==> Predict(inp, model, 2, p.key) == 0
    ensures forall p :: p in pairs[mid..] ==> Predict(inp, model, 2, p.key) == 1
  {
    Part(h, path, pairs, 0, mid);
    Part(h, path, pairs, mid, |pairs|);
    assert pairs[0..mid] == pairs[..mid] && pairs[mid..|pairs|] == pairs[mid..];
    LowHalf(inp, pairs[..mid], pairs[mid - 1].key, pairs[mid].key);
    HighHalf(inp, pairs[mid..], pairs[mid - 1].key, pairs[mid].key);
  }

  lemma LowHalf(inp: Inputs, half: seq<Pair>, lo: Key, hi: Key)
    requires Monotone(inp) && lo < hi && forall p :: p in half ==> p.key <= lo
    ensures forall p :: p in half ==> Predict(inp, SplitModel(inp, lo, hi), 2, p.key) == 0
  {
    SplitSeparates(inp, lo, hi, 2);
  }

  lemma HighHalf(inp: Inputs, half: seq<Pair>, lo: Key, hi: Key)
    requires Monotone(inp) && lo < hi && forall p :: p in half ==> p.key >= hi
    ensures forall p :: p in half ==> Predict(inp, SplitModel(inp, lo, hi), 2, p.key) == 1
  {
    SplitSeparates(inp, lo, hi, 2);
  }

  lemma Halved(pairs: seq<Pair>, mid: nat)
    requires mid <= |pairs|
    ensures pairs[..mid] + pairs[mid..] == pairs
  {
  }

  lemma OneSlot(inp: Inputs, model: Model, k: Key)
    ensures Predict(inp, model, 1, k) == 0
  {
  }

  /** A node of two slots, each for one half of the pairs. */
  ghost predicate Halves(m: Meta, pairs: seq<Pair>) {
    && m.capacity == 2
    && forall i :: 0 <= i < |pairs| ==> m.slotOf(pairs[i].key) == if i < |pairs| / 2 then 0 else 1
  }

  /** A balanced binary tree for keys whose model inputs cannot tell them apart. */
  method BuildDegenerate(inp: Inputs, h: Heap, path: seq<At>, pairs: seq<Pair>) returns (g: Heap)
    requires Monotone(inp) && WF(h) && |pairs| > 0 && Ascending(pairs) && PlaceFor(h, path, pairs)
    ensures Grown(h, g, path, pairs)
    ensures |pairs| > 1 ==> Halves(g.meta[|h.meta|], pairs)
    decreases |pairs|, 1
  {
    if |pairs| == 1 {
      assert pairs == [pairs[0]];
      OneSlot(inp, Linear(0.0, 0.0), pairs[0].key);
      g := BuildOne(inp, Linear(0.0, 0.0), 1, h, path, pairs[0], 0);
      return;
    }
    var mid := |pairs| / 2;
    var lo, hi := pairs[..mid], pairs[mid..];
    var model := SplitModel(inp, pairs[mid - 1].key, pairs[mid].key);
    SplitHalves(inp, h, path, pairs, mid, model);
    Halved(pairs, mid);
    g := BuildSplit(inp, model, h, path, lo, hi);
    forall i | 0 <= i < |pairs| ensures Predict(inp, model, 2, pairs[i].key) == if i < mid then 0 else 1 {
      assert if i < mid then pairs[i] in lo else pairs[i] in hi;
    }
  }

  method BuildSplit(inp: Inputs, model: Model, h: Heap, path: seq<At>, lo: seq<Pair>, hi: seq<Pair>) returns (g: Heap)
    requires Monotone(inp) && WF(h) && !model.Linear?
    requires |lo| > 0 && Ascending(lo) && PlaceFor(h, path, lo)
    requires |hi| > 0 && Ascending(hi) && PlaceFor(h, path, hi)
    requires forall p :: p in lo ==> Predict(inp, model, 2, p.key) == 0
    requires forall p :: p in hi ==> Predict(inp, model, 2, p.key) == 1
    ensures Grown(h, g, path, lo + hi) && g.meta[|h.meta|] == NodeMeta(inp, model, 2, path)
    decreases |lo| + |hi|, 0
  {
    var n := |h.meta|;
    NewNodeGrown(inp, model, 2, h, path);
    g := NewNode(h, NodeMeta(inp, model, 2, path));
    g := BuildHalf(inp, h, g, n, 0, [], lo);
    g := BuildHalf(inp, h, g, n, 1, [] + lo, hi);
    assert [] + lo + hi == lo + hi;
  }

  /** A node with one entry. */
  method BuildOne(inp: Inputs, model: Model, size: nat, h: Heap, path: seq<At>, p: Pair, slot: nat) returns (g: Heap)
    requires Monotone(inp) && WF(h) && PlaceFor(h, path, [p])
    requires size > 0 && (model.Linear? ==> model.slope >= 0.0)
    requires slot == Predict(inp, model, size, p.key)
    ensures Grown(h, g, path, [p])
    ensures g.meta == h.meta + [NodeMeta(inp, model, size, path)]
    ensures |g.cells| == |h.cells| + 1 && |g.cells[|h.cells|]| == size && CellAt(g, |h.meta|, slot) == Data(p)
    ensures forall i :: i != slot ==> CellAt(g, |h.meta|, i).Empty?
  {
    NewNodeGrown(inp, model, size, h, path);
    g := NewNode(h, NodeMeta(inp, model, size, path));
    assert p in [p];
    RegionGrows(h, g, path, p.key);
    g := StoreData(h, g, |h.meta|, slot, p, []);
    assert [] + [p] == [p];
  }

  lemma RegionGrows(h: Heap, g: Heap, path: seq<At>, k: Key)
    requires h.meta <= g.meta && (forall j :: 0 <= j < |path| ==> path[j].node < |h.meta|)
    requires InRegion(h.meta, path, k)
    ensures InRegion(g.meta, path, k)
  {
    InRegionExtends(h, g, path, k);
  }

  /** One half of a split: inline when it is a single entry, otherwise a subtree. */
  method BuildHalf(inp: Inputs, h: Heap, g: Heap, n: nat, slot: nat, ghost done: seq<Pair>, half: seq<Pair>)
    returns (g': Heap)
    requires Monotone(inp) && WF(h) && n == |h.meta| && n < |g.meta| && Grown(h, g, g.meta[n].path, done)
    requires slot < |g.cells[n]| && CellAt(g, n, slot).Empty?
    requires |half| > 0 && Ascending(half) && PlaceFor(h, g.meta[n].path, half)
    requires forall p :: p in half ==> Slot(g.meta, n, p.key) == slot
    ensures |g'.meta| > n && g'.meta[n] == g.meta[n] && Grown(h, g', g.meta[n].path, done + half)
    ensures |g'.cells[n]| == |g.cells[n]|
    ensures forall i :: i != slot ==> CellAt(g', n, i) == CellAt(g, n, i)
    ensures if |half| == 1 then CellAt(g', n, slot) == Data(half[0])
            else CellAt(g', n, slot) == Child(Ptr(|g.meta|, None), None)
                 && |g.meta| < |g'.meta| && Halves(g'.meta[|g.meta|], half)
    decreases |half|, 2
  {
    ghost var path := g.meta[n].path;
    if |half| == 1 {
      RegionGrows(h, g, path, half[0].key);
      g' := StoreData(h, g, n, slot, half[0], done);
      assert [half[0]] == half;
    } else {
      GrownWF(h, g, path, done);
      ChildPlace(h, g, n, slot, half);
      var child := BuildDegenerate(inp, g, g.meta[n].path + [At(n, slot)], half);
      g' := StoreChild(h, g, child, n, slot, |g.meta|, done, half);
    }
  }

  /** Keys that predict to a slot of a node belong below that slot. */
  lemma ChildPlace(h: Heap, g: Heap, n: nat, slot: nat, run: seq<Pair>)
    requires h.meta <= g.meta && n < |g.meta| && WF(g)
    requires PlaceFor(h, g.meta[n].path, run)
    requires forall p :: p in run ==> Slot(g.meta, n, p.key) == slot
    ensures PlaceFor(g, g.meta[n].path + [At(n, slot)], run)
  {
    var path := g.meta[n].path + [At(n, slot)];
    assert NodeOK(g, n);
    forall p | p in run ensures InRegion(g.meta, path, p.key) {
      RegionGrows(h, g, g.meta[n].path, p.key);
    }
  }

  // ---------------------------------------------------------------------------------
  // Recursive construction with fitted models

  function ModelInputs(inp: Inputs, pairs: seq<Pair>): (xs: seq<real>)
    ensures |xs| == |pairs|
    ensures forall i :: 0 <= i < |xs| ==> xs[i] == inp.input(pairs[i].key)
  {
    seq(|pairs|, i requires 0 <= i < |pairs| => inp.input(pairs[i].key))
  }

  function Abs(x: real): real { if x < 0.0 then -x else x }

  /** `is_degenerate_group`: model inputs cannot tell the keys apart. */
  predicate IsDegenerateGroup(inp: Inputs, pairs: seq<Pair>) {
    |pairs| > 1 && Abs(inp.input(pairs[|pairs| - 1].key) - inp.input(pairs[0].key)) < EPSILON
  }

  /** What the head of a tree built from these pairs looks like: it splits pairs that model
      inputs cannot tell apart in the middle, and is fitted to all others. */
  ghost predicate HeadOK(inp: Inputs, shape: Shape, m: Meta, pairs: seq<Pair>) {
    && pairs != []
    && if IsDegenerateGroup(inp, pairs) then Halves(m, pairs) else exists r :: Made(inp, shape, m, pairs, r)
  }

  ghost predicate Made(inp: Inputs, shape: Shape, m: Meta, pairs: seq<Pair>, r: FmcdResult) {
    && pairs != [] && BestFit(ModelInputs(inp, pairs), shape.expansion, shape.headroom, r)
    && m == NodeMeta(inp, r.model, r.size, m.path)
  }

  /** The slot each pair is sent to, in key order. Sorting these by slot has nothing to do. */
  function Assignments(inp: Inputs, pairs: seq<Pair>, model: Model, size: nat): (s: seq<nat>)
    ensures |s| == |pairs|
    ensures forall i :: 0 <= i < |s| ==> s[i] == Predict(inp, model, size, pairs[i].key)
  {
    seq(|pairs|, i requires 0 <= i < |pairs| => Predict(inp, model, size, pairs[i].key))
  }

  lemma AssignmentsSorted(inp: Inputs, pairs: seq<Pair>, model: Model, size: nat)
    requires Monotone(inp) && Ascending(pairs) && size > 0 && (model.Linear? ==> model.slope >= 0.0)
    ensures var s := Assignments(inp, pairs, model, size);
            forall i, j :: 0 <= i <= j < |pairs| ==> s[i] <= s[j] < size
  {
    var s := Assignments(inp, pairs, model, size);
    forall i, j | 0 <= i <= j < |pairs| ensures s[i] <= s[j] < size {
      PredictMonotone(inp, model, size, pairs[i].key, pairs[j].key);
    }
  }

  lemma InputsNondecreasing(inp: Inputs, pairs: seq<Pair>)
    requires Monotone(inp) && Ascending(pairs)
    ensures Nondecreasing(ModelInputs(inp, pairs))
  {
    var xs := ModelInputs(inp, pairs);
    forall i, j | 0 <= i <= j < |xs| ensures xs[i] <= xs[j] {
      assert pairs[i].key <= pairs[j].key;
    }
  }

  lemma AssignmentsAreSlots(inp: Inputs, pairs: seq<Pair>, model: Model, size: nat)
    requires model.Linear?
    ensures Assignments(inp, pairs, model, size) == Slots(ModelInputs(inp, pairs), model, size)
  {
  }

  /** Node `n` and the slots that have to be empty still. */
  ghost predicate Vacant(g: Heap, n: nat, s: seq<nat>, from: nat) {
    forall j :: from <= j < |s| ==> CellAt(g, n, s[j]).Empty?
  }

  /** The first `i` pairs are in the node under construction, and the rest have their slots
      free. */
  ghost predicate BuiltUpTo(inp: Inputs, h: Heap, g: Heap, path: seq<At>, pairs: seq<Pair>, model: Model, size: nat, i: nat) {
    var s := Assignments(inp, pairs, model, size);
    && i <= |pairs| && Grown(h, g, path, pairs[..i])
    && g.meta[|h.meta|] == NodeMeta(inp, model, size, path)
    && Vacant(g, |h.meta|, s, i)
    && (0 < i < |s| ==> s[i - 1] < s[i])
  }

  lemma BuildStarts(inp: Inputs, h: Heap, path: seq<At>, pairs: seq<Pair>, model: Model, size: nat)
    requires Monotone(inp) && WF(h) && size > 0 && (model.Linear? ==> model.slope >= 0.0)
    requires PlaceFor(h, path, pairs)
    ensures BuiltUpTo(inp, h, NewNode(h, NodeMeta(inp, model, size, path)), path, pairs, model, size, 0)
  {
    NewNodeGrown(inp, model, size, h, path);
    assert pairs[..0] == [];
  }

  /** A node without conflicts: all pairs inline, each in a slot of its own. */
  method BuildLeaf(inp: Inputs, h: Heap, path: seq<At>, pairs: seq<Pair>, model: Model, size: nat) returns (g: Heap)
    requires Monotone(inp) && WF(h) && Ascending(pairs) && PlaceFor(h, path, pairs)
    requires size > 0 && model.Linear? && model.slope >= 0.0 && |pairs| > 0
    requires Conflicts(ModelInputs(inp, pairs), model, size) == 0
    ensures Grown(h, g, path, pairs) && g.meta == h.meta + [NodeMeta(inp, model, size, path)]
  {
    ghost var s := Assignments(inp, pairs, model, size);
    AssignmentsAreSlots(inp, pairs, model, size);
    NoConflictsInjective(s);
    AssignmentsSorted(inp, pairs, model, size);
    BuildStarts(inp, h, path, pairs, model, size);
    g := NewNode(h, NodeMeta(inp, model, size, path));
    for i := 0 to |pairs|
      invariant g.meta == h.meta + [NodeMeta(inp, model, size, path)] && BuiltUpTo(inp, h, g, path, pairs, model, size, i)
    {
      g := StoreNext(inp, h, g, path, pairs, model, size, i);
    }
    assert pairs[..|pairs|] == pairs;
  }

  method StoreNext(inp: Inputs, ghost h: Heap, g: Heap, ghost path: seq<At>, pairs: seq<Pair>, ghost model: Model,
                   ghost size: nat, i: nat)
    returns (g': Heap)
    requires WF(h) && PlaceFor(h, path, pairs) && i < |pairs| && |g.meta| == |h.meta| + 1
    requires BuiltUpTo(inp, h, g, path, pairs, model, size, i)
    requires var s := Assignments(inp, pairs, model, size); forall a, b :: 0 <= a < b < |s| ==> s[a] < s[b]
    ensures g'.meta == g.meta && BuiltUpTo(inp, h, g', path, pairs, model, size, i + 1)
  {
    ghost var s := Assignments(inp, pairs, model, size);
    var n := |g.meta| - 1;
    var slot := g.meta[n].slotOf(pairs[i].key);
    assert slot == s[i];
    RegionGrows(h, g, path, pairs[i].key);
    g' := StoreData(h, g, n, slot, pairs[i], pairs[..i]);
    assert pairs[..i] + [pairs[i]] == pairs[..i + 1];
    forall j | i + 1 <= j < |s| ensures CellAt(g', n, s[j]).Empty? {
      assert CellAt(g', n, s[j]) == CellAt(g, n, s[j]);
    }
  }

  /** What a slot of a node gets: a single pair inline, several as a subtree. */
  method BuildRun(inp: Inputs, shape: Shape, h: Heap, g: Heap, n: nat, slot: nat, ghost done: seq<Pair>, run: seq<Pair>)
    returns (g': Heap)
    requires Monotone(inp) && ShapeOK(shape)
    requires WF(h) && n == |h.meta| && n < |g.meta| && Grown(h, g, g.meta[n].path, done)
    requires slot < |g.cells[n]| && CellAt(g, n, slot).Empty?
    requires |run| > 0 && Ascending(run) && PlaceFor(h, g.meta[n].path, run)
    requires forall p :: p in run ==> Slot(g.meta, n, p.key) == slot
    ensures |g'.meta| > n && g'.meta[n] == g.meta[n] && Grown(h, g', g.meta[n].path, done + run)
    ensures |g'.cells[n]| == |g.cells[n]|
    ensures OtherSlotsKept(g, g', n, slot)
    ensures if |run| == 1 then CellAt(g', n, slot) == Data(run[0])
            else CellAt(g', n, slot) == Child(Ptr(|g.meta|, None), None)
                 && |g.meta| < |g'.meta| && HeadOK(inp, shape, g'.meta[|g.meta|], run)
    decreases |run|, 3
  {
    ghost var path := g.meta[n].path;
    if |run| == 1 {
      RegionGrows(h, g, path, run[0].key);
      g' := StoreData(h, g, n, slot, run[0], done);
      assert [run[0]] == run;
    } else {
      GrownWF(h, g, path, done);
      ChildPlace(h, g, n, slot, run);
      var child;
      if IsDegenerateGroup(inp, run) {
        child := BuildDegenerate(inp, g, g.meta[n].path + [At(n, slot)], run);
      } else {
        child := BuildRecursive(inp, shape, g, g.meta[n].path + [At(n, slot)], run);
      }
      g' := StoreChild(h, g, child, n, slot, |g.meta|, done, run);
    }
  }

  ghost predicate SortedSlots(s: seq<nat>) {
    forall i, j :: 0 <= i <= j < |s| ==> s[i] <= s[j]
  }

  /** The assignments from `start` to `end` are all those equal to the first of them. */
  ghost predicate IsRun(s: seq<nat>, start: nat, end: nat) {
    && start < end <= |s| && (forall j :: start <= j < end ==> s[j] == s[start])
    && (end < |s| ==> s[end] != s[start])
  }

  ghost predicate OtherSlotsKept(g: Heap, g': Heap, n: nat, slot: nat) {
    forall i :: i != slot ==> CellAt(g', n, i) == CellAt(g, n, i)
  }

  /** End of the run of equal assignments that starts at `start`. */
  method EndOfRun(s: seq<nat>, start: nat) returns (end: nat)
    requires start < |s|
    ensures IsRun(s, start, end)
  {
    end := start;
    while end < |s| && s[end] == s[start]
      invariant start <= end <= |s|
      invariant forall j :: start <= j < end ==> s[j] == s[start]
    {
      end := end + 1;
    }
  }

  /** The pairs of one run, where they go, and which slots they leave alone. */
  lemma RunPlace(inp: Inputs, h: Heap, path: seq<At>, pairs: seq<Pair>, model: Model, size: nat, start: nat, end: nat)
    requires Ascending(pairs) && PlaceFor(h, path, pairs) && start < end <= |pairs|
    requires IsRun(Assignments(inp, pairs, model, size), start, end)
    ensures var run := pairs[start..end];
            && Ascending(run) && PlaceFor(h, path, run)
            && forall p :: p in run ==> Predict(inp, model, size, p.key) == Assignments(inp, pairs, model, size)[start]
    ensures pairs[..start] + pairs[start..end] == pairs[..end]
  {
    Part(h, path, pairs, start, end);
    var s := Assignments(inp, pairs, model, size);
    forall p | p in pairs[start..end] ensures Predict(inp, model, size, p.key) == s[start] {
      var j :| start <= j < end && pairs[j] == p;
      assert s[j] == s[start];
    }
  }

  /** After a run is built, the slots of the later pairs are still free. */
  lemma RunDone(s: seq<nat>, g: Heap, g': Heap, n: nat, start: nat, end: nat)
    requires SortedSlots(s) && IsRun(s, start, end)
    requires Vacant(g, n, s, start) && OtherSlotsKept(g, g', n, s[start])
    ensures Vacant(g', n, s, end) && (end < |s| ==> s[end - 1] < s[end])
  {
    forall j | end <= j < |s| ensures CellAt(g', n, s[j]).Empty? {
      assert s[start] <= s[end] <= s[j];
      assert CellAt(g', n, s[j]) == CellAt(g, n, s[j]);
    }
  }

  lemma RunRoom(inp: Inputs, h: Heap, g: Heap, path: seq<At>, pairs: seq<Pair>, model: Model, size: nat, i: nat)
    requires BuiltUpTo(inp, h, g, path, pairs, model, size, i) && i < |pairs|
    requires Assignments(inp, pairs, model, size)[i] < size
    ensures var n, slot := |h.meta|, Assignments(inp, pairs, model, size)[i];
            slot < |g.cells[n]| && CellAt(g, n, slot).Empty? && g.meta[n].path == path
    ensures forall p :: p in pairs ==> Slot(g.meta, |h.meta|, p.key) == Predict(inp, model, size, p.key)
  {
    assert NodeOK(g, |h.meta|);
  }

  method BuildNextRun(inp: Inputs, shape: Shape, h: Heap, g: Heap, path: seq<At>, pairs: seq<Pair>, model: Model, size: nat,
                      s: seq<nat>, start: nat)
    returns (g': Heap, end: nat)
    requires Monotone(inp) && ShapeOK(shape) && WF(h) && Ascending(pairs) && PlaceFor(h, path, pairs)
    requires size > 0 && (model.Linear? ==> model.slope >= 0.0)
    requires s == Assignments(inp, pairs, model, size) && start < |s| && s[0] < s[|s| - 1]
    requires BuiltUpTo(inp, h, g, path, pairs, model, size, start)
    ensures start < end <= |s| && BuiltUpTo(inp, h, g', path, pairs, model, size, end)
    decreases |pairs|, 0
  {
    AssignmentsSorted(inp, pairs, model, size);
    end := EndOfRun(s, start);
    RunPlace(inp, h, path, pairs, model, size, start, end);
    RunRoom(inp, h, g, path, pairs, model, size, start);
    g' := BuildRun(inp, shape, h, g, |h.meta|, s[start], pairs[..start], pairs[start..end]);
    RunDone(s, g, g', |h.meta|, start, end);
  }

  /** A node with conflicts: one run of pairs after the other, each into its slot. */
  method BuildNode(inp: Inputs, shape: Shape, h: Heap, path: seq<At>, pairs: seq<Pair>, model: Model, size: nat)
    returns (g: Heap)
    requires Monotone(inp) && ShapeOK(shape) && WF(h) && Ascending(pairs) && PlaceFor(h, path, pairs)
    requires size > 0 && (model.Linear? ==> model.slope >= 0.0) && |pairs| > 0
    requires Predict(inp, model, size, pairs[0].key) < Predict(inp, model, size, pairs[|pairs| - 1].key)
    ensures Grown(h, g, path, pairs) && g.meta[|h.meta|] == NodeMeta(inp, model, size, path)
    decreases |pairs|, 1
  {
    BuildStarts(inp, h, path, pairs, model, size);
    g := NewNode(h, NodeMeta(inp, model, size, path));
    var s := Assignments(inp, pairs, model, size);
    var i := 0;
    while i < |s|
      invariant BuiltUpTo(inp, h, g, path, pairs, model, size, i)
    {
      g, i := BuildNextRun(inp, shape, h, g, path, pairs, model, size, s, i);
    }
    assert pairs[..|pairs|] == pairs;
  }

  /** The recursive construction. Every run that shares a slot is strictly shorter than the
      slice it comes from, because the fitted model separates the first key from the last. */
  method BuildRecursive(inp: Inputs, shape: Shape, h: Heap, path: seq<At>, pairs: seq<Pair>) returns (g: Heap)
    requires Monotone(inp) && ShapeOK(shape)
    requires WF(h) && |pairs| > 0 && Ascending(pairs) && PlaceFor(h, path, pairs)
    ensures Grown(h, g, path, pairs) && HeadOK(inp, shape, g.meta[|h.meta|], pairs)
    decreases |pairs|, 2
  {
    if IsDegenerateGroup(inp, pairs) {
      g := BuildDegenerate(inp, h, path, pairs);
      return;
    }
    var xs := ModelInputs(inp, pairs);
    InputsNondecreasing(inp, pairs);
    var fit := FitFmcd(xs, shape.expansion, shape.headroom);
    assert Made(inp, shape, NodeMeta(inp, fit.model, fit.size, path), pairs, fit);
    if fit.conflicts == 0 {
      g := BuildLeaf(inp, h, path, pairs, fit.model, fit.size);
    } else {
      assert |xs| > 1 by {
        if |xs| == 1 {
          OneKeyNoConflict(xs, fit.model, fit.size);
        }
      }
      g := BuildNode(inp, shape, h, path, pairs, fit.model, fit.size);
    }
  }

  lemma OneKeyNoConflict(xs: seq<real>, m: Model, size: nat)
    requires |xs| == 1 && m.Linear?
    ensures Conflicts(xs, m, size) == 0
  {
    var s := Slots(xs, m, size);
    assert s[0] in Used(s);
    assert Used(s) == {s[0]};
  }

  // ---------------------------------------------------------------------------------
  // Bulk load

  /** Building a new tree from a sorted run; the only inputs refused are empty or unsorted. */
  method BulkLoad(inp: Inputs, shape: Shape, h: Heap, pairs: seq<Pair>) returns (r: Result<Heap, Error>)
    requires Monotone(inp) && ShapeOK(shape) && WF(h)
    ensures pairs == [] ==> r == Err(EmptyData)
    ensures pairs != [] && !Ascending(pairs) ==> r == Err(NotSorted)
    ensures pairs != [] && Ascending(pairs) ==>
              r.Ok? && Grown(h, r.value, [], pairs) && HeadOK(inp, shape, r.value.meta[|h.meta|], pairs)
  {
    if |pairs| == 0 {
      return Err(EmptyData);
    }
    for i := 1 to |pairs|
      invariant forall a, b :: 0 <= a < b < i ==> pairs[a].key < pairs[b].key
    {
      if pairs[i - 1].key >= pairs[i].key {
        return Err(NotSorted);
      }
    }
    var g := BuildRecursive(inp, shape, h, [], pairs);
    r := Ok(g);
  }

  ghost predicate NondecreasingKeys(pairs: seq<Pair>) {
    forall i, j :: 0 <= i <= j < |pairs| ==> pairs[i].key <= pairs[j].key
  }

  /** The pair at `i` is the last one with its key. */
  ghost predicate LastOfKey(pairs: seq<Pair>, i: nat) {
    i < |pairs| && forall j :: i < j < |pairs| ==> pairs[j].key != pairs[i].key
  }

  /** `p` is the last pair with its key among the first `n`. */
  ghost predicate Survives(pairs: seq<Pair>, n: nat, p: Pair) {
    exists i :: 0 <= i < n && LastOfKey(pairs, i) && pairs[i] == p
  }

  /** Dropping duplicate keys from a sorted list: exactly the last pair of each key stays. */
  method Dedup(pairs: seq<Pair>) returns (r: Result<seq<Pair>, Error>)
    ensures pairs == [] ==> r == Err(EmptyData)
    ensures pairs != [] && !NondecreasingKeys(pairs) ==> r == Err(NotSorted)
    ensures pairs != [] && NondecreasingKeys(pairs) ==>
              && r.Ok? && r.value != [] && Ascending(r.value)
              && forall p :: p in r.value <==> Survives(pairs, |pairs|, p)
  {
    if |pairs| == 0 {
      return Err(EmptyData);
    }
    for i := 1 to |pairs|
      invariant forall a, b :: 0 <= a <= b < i ==> pairs[a].key <= pairs[b].key
    {
      if pairs[i - 1].key > pairs[i].key {
        return Err(NotSorted);
      }
    }
    var deduped := KeepLast(pairs);
    r := Ok(deduped);
  }

  method KeepLast(pairs: seq<Pair>) returns (deduped: seq<Pair>)
    requires pairs != [] && NondecreasingKeys(pairs)
    ensures deduped != [] && Ascending(deduped)
    ensures forall p :: p in deduped <==> Survives(pairs, |pairs|, p)
  {
    deduped := [];
    for i := 0 to |pairs| - 1
      invariant Kept(pairs, i, deduped)
    {
      KeptNext(pairs, i, deduped);
      if pairs[i].key != pairs[i + 1].key {
        deduped := deduped + [pairs[i]];
      }
    }
    SurvivesNext(pairs, |pairs| - 1);
    deduped := deduped + [pairs[|pairs| - 1]];
  }

  /** The last pairs of the keys among the first `i` pairs. */
  ghost predicate Kept(pairs: seq<Pair>, i: nat, deduped: seq<Pair>)
    requires i < |pairs|
  {
    && Ascending(deduped)
    && (forall p :: p in deduped ==> p.key < pairs[i].key)
    && forall p :: p in deduped <==> Survives(pairs, i, p)
  }

  lemma KeptNext(pairs: seq<Pair>, i: nat, deduped: seq<Pair>)
    requires NondecreasingKeys(pairs) && i + 1 < |pairs| && Kept(pairs, i, deduped)
    ensures Kept(pairs, i + 1, if pairs[i].key != pairs[i + 1].key then deduped + [pairs[i]] else deduped)
  {
    LastOfRun(pairs, i);
    SurvivesNext(pairs, i);
    assert pairs[i].key <= pairs[i + 1].key;
    if pairs[i].key != pairs[i + 1].key {
      AscendingSnoc(deduped, pairs[i]);
    }
  }

  lemma AscendingSnoc(pairs: seq<Pair>, p: Pair)
    requires Ascending(pairs) && forall q :: q in pairs ==> q.key < p.key
    ensures Ascending(pairs + [p])
  {
  }

  lemma LastOfRun(pairs: seq<Pair>, i: nat)
    requires NondecreasingKeys(pairs) && i + 1 < |pairs|
    ensures LastOfKey(pairs, i) <==> pairs[i].key != pairs[i + 1].key
  {
  }

  lemma SurvivesNext(pairs: seq<Pair>, i: nat)
    requires i < |pairs|
    ensures forall p :: Survives(pairs, i + 1, p) <==> Survives(pairs, i, p) || (LastOfKey(pairs, i) && p == pairs[i])
  {
    forall p ensures Survives(pairs, i + 1, p) <==> Survives(pairs, i, p) || (LastOfKey(pairs, i) && p == pairs[i]) {
      if Survives(pairs, i + 1, p) {
        var k :| 0 <= k < i + 1 && LastOfKey(pairs, k) && pairs[k] == p;
        assert k < i ==> Survives(pairs, i, p);
      }
    }
  }

  // ---------------------------------------------------------------------------------
  // The nodes that inserts create

  /** The model of a conflict node: a line through both keys, or a split. */
  function ConflictModel(inp: Inputs, lo: Key, hi: Key): Model {
    var range := inp.input(hi) - inp.input(lo);
    if Abs(range) < EPSILON then SplitModel(inp, lo, hi) else Through(3.0 / range, inp.input(lo))
  }

  /** Two keys that shared a slot get slots of their own. */
  lemma ConflictSeparates(inp: Inputs, lo: Key, hi: Key)
    requires Monotone(inp) && lo < hi
    ensures var m := ConflictModel(inp, lo, hi);
            && (m.Linear? ==> m.slope >= 0.0)
            && Predict(inp, m, 4, lo) == 0 && Predict(inp, m, 4, hi) == 3
  {
    var range := inp.input(hi) - inp.input(lo);
    if Abs(range) < EPSILON {
      SplitSeparates(inp, lo, hi, 4);
    } else {
      LineSeparates(inp.input(lo), inp.input(hi));
    }
  }

  lemma LineSeparates(a: real, b: real)
    requires a < b
    ensures var m := Through(3.0 / (b - a), a);
            m.slope >= 0.0 && PredictRaw(m.slope, m.intercept, a, 4) == 0 && PredictRaw(m.slope, m.intercept, b, 4) == 3
  {
    Quotient(3.0, b - a);
    Interpolates(3.0 / (b - a), a, b);
  }

  lemma Interpolates(s: real, lo: real, hi: real)
    requires s * (hi - lo) == 3.0
    ensures PredictRaw(s, -s * lo, lo, 4) == 0 && PredictRaw(s, -s * lo, hi, 4) == 3
  {
    Distribute(s, lo, hi);
  }

  lemma Distribute(s: real, lo: real, hi: real)
    ensures s * hi + -s * lo == s * (hi - lo) && s * lo + -s * lo == 0.0
  {
  }

  /** `build_conflict_node`. The two slots always differ, so its fallback for equal slots is
      never taken. */
  method BuildConflict(inp: Inputs, h: Heap, path: seq<At>, p: Pair, q: Pair) returns (g: Heap)
    requires Monotone(inp) && WF(h) && p.key != q.key && PlaceFor(h, path, [p]) && PlaceFor(h, path, [q])
    ensures Grown(h, g, path, if p.key < q.key then [p, q] else [q, p])
    ensures |g.cells| == |h.cells| + 1
    ensures g.cells[|h.cells|] == if p.key < q.key then [Data(p), Empty, Empty, Data(q)] else [Data(q), Empty, Empty, Data(p)]
  {
    var lo, hi := p, q;
    if !(p.key < q.key) {
      lo, hi := q, p;
    }
    assert PlaceFor(h, path, [lo]) && PlaceFor(h, path, [hi]);
    assert lo in [lo] && hi in [hi];
    var n, model := |h.meta|, ConflictModel(inp, lo.key, hi.key);
    ConflictSeparates(inp, lo.key, hi.key);
    g := BuildOne(inp, model, 4, h, path, lo, Predict(inp, model, 4, lo.key));
    RegionGrows(h, g, path, hi.key);
    g := StoreData(h, g, n, Predict(inp, model, 4, hi.key), hi, [lo]);
    assert [lo] + [hi] == [lo, hi];
    assert forall i :: 0 <= i < 4 ==> CellAt(g, n, i) == if i == 0 then Data(lo) else if i == 3 then Data(hi) else Empty;
    FourCells(g, n, Data(lo), Data(hi));
  }

  lemma FourCells(g: Heap, n: nat, a: Cell, b: Cell)
    requires n < |g.cells| && |g.cells[n]| == 4
    requires forall i :: 0 <= i < 4 ==> CellAt(g, n, i) == if i == 0 then a else if i == 3 then b else Empty
    ensures g.cells[n] == [a, Empty, Empty, b]
  {
    forall i | 0 <= i < 4 ensures g.cells[n][i] == [a, Empty, Empty, b][i] {
      assert CellAt(g, n, i) == g.cells[n][i];
    }
  }

  /** `build_single_entry_child`. */
  method BuildSingle(inp: Inputs, h: Heap, path: seq<At>, p: Pair) returns (g: Heap)
    requires Monotone(inp) && WF(h) && PlaceFor(h, path, [p])
    ensures Grown(h, g, path, [p]) && |g.cells| == |h.cells| + 1 && g.cells[|h.cells|] == [Data(p), Empty]
  {
    var model := Linear(1.0, -inp.input(p.key));
    var slot := Predict(inp, model, 2, p.key);
    assert slot == 0 by {
      assert 1.0 * inp.input(p.key) + -inp.input(p.key) == 0.0;
    }
    g := BuildOne(inp, model, 2, h, path, p, slot);
    assert CellAt(g, |h.meta|, 0) == g.cells[|h.cells|][0] && CellAt(g, |h.meta|, 1) == g.cells[|h.cells|][1];
  }

  /** The root of an empty map. */
  method EmptyRoot(inp: Inputs, h: Heap) returns (g: Heap)
    requires Monotone(inp) && WF(h)
    ensures Grown(h, g, [], []) && |g.cells| == |h.cells| + 1
    ensures |g.cells[|h.cells|]| == 64 && forall i :: 0 <= i < 64 ==> g.cells[|h.cells|][i] == Empty
  {
    NewNodeGrown(inp, Linear(1.0, 0.0), 64, h, []);
    g := NewNode(h, NodeMeta(inp, Linear(1.0, 0.0), 64, []));
  }
}
