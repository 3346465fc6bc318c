/** The steps that link new trees in, made with the trees that the construction builds. */
module ProtocolBuild {
  import opened Wrappers
  import opened Keys
  import opened NodeHeap
  import opened LinearModels
  import opened Build
  import opened Protocol
  import opened ProtocolInvariant
  import opened ProtocolSteps

  /** The end of a rebuild of the whole tree, a drain or a clear: the snapshot is bulk-loaded,
      and if that refuses it the old tree is unfrozen. */
  method SwapRoot(inp: Inputs, shape: Shape, ops: seq<Call>, s: State, t: nat) returns (s': State)
    requires Monotone(inp) && ShapeOK(shape) && Inv(ops, s) && t < |ops|
    requires s.pcs[t].Scan? && s.pcs[t].stack == [] && s.pcs[t].job.Whole?
    ensures exists f :: RootSwapStep(ops, s, s', t, f)
  {
    assert PcOK(ops[t], s.h, s.root, t, s.pcs[t]);
    var r, out, pcs := s.pcs[t].job.r, s.pcs[t].out, s.pcs[t := Returned];
    if ops[t].Drain? {
      var g := EmptyRoot(inp, s.h);
      ghost var f := GrownIsFragment(s.h, g, [], []);
      s' := State(g, Ptr(|s.h.meta|, None), pcs);
      assert RootSwapStep(ops, s, s', t, f);
    } else {
      var built := BulkLoad(inp, shape, s.h, out);
      if built.Ok? {
        ghost var f := GrownIsFragment(s.h, built.value, [], out);
        s' := State(built.value, Ptr(|s.h.meta|, None), pcs);
        assert RootSwapStep(ops, s, s', t, f);
      } else {
        s' := State(s.h, Ptr(r, None), pcs);
        assert RootSwapStep(ops, s, s', t, NO_NODES);
      }
    }
  }

  /** The end of a subtree rebuild: the snapshot is built into a new first child, unless there
      is too little of it. */
  method SwapSub(inp: Inputs, shape: Shape, ops: seq<Call>, s: State, t: nat) returns (s': State)
    requires Monotone(inp) && ShapeOK(shape) && Inv(ops, s) && t < |ops|
    requires s.pcs[t].Scan? && s.pcs[t].stack == [] && s.pcs[t].job.Subtree?
    ensures exists f :: SubSwapStep(ops, s, s', t, f)
  {
    assert PcOK(ops[t], s.h, s.root, t, s.pcs[t]);
    var Subtree(r, c) := s.pcs[t].job;
    var k, out, pcs := ops[t].key, s.pcs[t].out, s.pcs[t := Confirm(r)];
    var x, i := CellFor(s.h, r, k), Slot(s.h.meta, r, k);
    SlotInRange(s.h, r, k);
    if |out| <= 1 {
      s' := State(Store(s.h, NO_NODES, r, k, Child(Ptr(c, None), x.stale)), s.root, pcs);
      assert SubSwapStep(ops, s, s', t, NO_NODES);
    } else {
      var g := BuildRecursive(inp, shape, s.h, [At(r, i)], out);
      ghost var f := GrownIsFragment(s.h, g, [At(r, i)], out);
      s' := State(Put(g, r, i, Child(Ptr(|s.h.meta|, None), x.stale)), s.root, pcs);
      assert SubSwapStep(ops, s, s', t, f);
    }
  }

  /** The end of a write: the pair goes inline into an empty slot, and into a new child
      otherwise, together with the pair that was read there if that has another key. */
  method Publish(inp: Inputs, ops: seq<Call>, s: State, t: nat) returns (s': State)
    requires Monotone(inp) && Inv(ops, s) && t < |ops| && s.pcs[t].Owning?
    ensures exists f :: PublishStep(ops, s, s', t, f)
  {
    assert PcOK(ops[t], s.h, s.root, t, s.pcs[t]);
    var Owning(r, first, cur, seen) := s.pcs[t];
    var k, entry, pcs := ops[t].key, Pair(ops[t].key, ops[t].val), s.pcs[t := Validate(r, first)];
    SlotInRange(s.h, cur, k);
    if seen.SawEmpty? {
      s' := State(Store(s.h, NO_NODES, cur, k, Data(entry)), s.root, pcs);
      assert PublishStep(ops, s, s', t, NO_NODES);
    } else {
      var i := Slot(s.h.meta, cur, k);
      ChildPlace(ops, s, t);
      var g := BuildChild(inp, s.h, s.h.meta[cur].path + [At(cur, i)], seen, entry);
      ghost var f := GrownIsFragment(s.h, g, s.h.meta[cur].path + [At(cur, i)], ChildPairs(seen, entry));
      s' := State(Put(g, cur, i, Child(Ptr(|s.h.meta|, None), PairOf(CellFor(s.h, cur, k)))), s.root, pcs);
      assert PublishStep(ops, s, s', t, f);
    }
  }

  /** The new child belongs where it is linked in. */
  lemma ChildPlace(ops: seq<Call>, s: State, t: nat)
    requires Inv(ops, s) && t < |ops| && s.pcs[t].Owning? && IsWriter(ops[t])
    ensures var cur, k := s.pcs[t].cur, ops[t].key;
            cur < |s.h.meta| && PlaceFor(s.h, s.h.meta[cur].path + [At(cur, Slot(s.h.meta, cur, k))],
                                         ChildPairs(s.pcs[t].seen, Pair(k, ops[t].val)))
  {
    var Owning(r, first, cur, seen) := s.pcs[t];
    var k := ops[t].key;
    assert PcOK(ops[t], s.h, s.root, t, s.pcs[t]);
    PathRegion(s.h, k, r, first, cur);
    SlotInRange(s.h, cur, k);
    assert NodeOK(s.h, cur);
  }

  /** The new child of a slot. */
  method BuildChild(inp: Inputs, h: Heap, path: seq<At>, seen: Seen, entry: Pair) returns (g: Heap)
    requires Monotone(inp) && WF(h) && PlaceFor(h, path, ChildPairs(seen, entry))
    ensures Grown(h, g, path, ChildPairs(seen, entry))
  {
    if seen.SawData? && seen.pair.key != entry.key {
      g := BuildConflict(inp, h, path, seen.pair, entry);
    } else {
      g := BuildSingle(inp, h, path, entry);
    }
  }
}
