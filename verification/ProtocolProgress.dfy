/** No call of the protocol is ever stuck: in every reachable state, each call that has not
    returned has a step. In particular the compare-and-swap that ends a freeze can always be
    made, because the tree it links in can always be built. */
module ProtocolProgress {
  import opened Wrappers
  import opened Keys
  import opened NodeHeap
  import opened Protocol
  import opened ProtocolInvariant
  import opened ProtocolSteps

  // ---------------------------------------------------------------------------------
  // A tree for any sorted run

  function CountBelow(pairs: seq<Pair>, k: Key): (n: nat)
    ensures n <= |pairs|
  {
    if pairs == [] then 0
    else CountBelow(pairs[..|pairs| - 1], k) + if pairs[|pairs| - 1].key < k then 1 else 0
  }

  lemma {:induction false} CountMonotone(pairs: seq<Pair>, a: Key, b: Key)
    requires a <= b
    ensures CountBelow(pairs, a) <= CountBelow(pairs, b)
  {
    if pairs != [] {
      CountMonotone(pairs[..|pairs| - 1], a, b);
    }
  }

  lemma {:induction false} CountAll(pairs: seq<Pair>, k: Key)
    requires forall p :: p in pairs ==> p.key < k
    ensures CountBelow(pairs, k) == |pairs|
  {
    if pairs != [] {
      CountAll(pairs[..|pairs| - 1], k);
    }
  }

  lemma {:induction false} CountAt(pairs: seq<Pair>, i: nat)
    requires Ascending(pairs) && i < |pairs|
    ensures CountBelow(pairs, pairs[i].key) == i
  {
    var n := |pairs| - 1;
    if i < n {
      CountAt(pairs[..n], i);
    } else {
      CountAll(pairs[..n], pairs[n].key);
    }
  }

  function Shelf(pairs: seq<Pair>, path: seq<At>): Heap {
    Heap([Meta((k: Key) => CountBelow(pairs, k), |pairs| + 1, path)],
         [seq(|pairs| + 1, i requires 0 <= i => if i < |pairs| then Data(pairs[i]) else Empty)])
  }

  lemma ShelfBinds(h: Heap, path: seq<At>, pairs: seq<Pair>, p: Pair)
    requires WF(h) && Ascending(pairs)
    ensures p in pairs <==> Lookup(Append(h, Shelf(pairs, path)), |h.meta|, p.key) == Some(p.val)
  {
    var g, i := Append(h, Shelf(pairs, path)), CountBelow(pairs, p.key);
    assert CellFor(g, |h.meta|, p.key) == if i < |pairs| then Data(pairs[i]) else Empty;
    if p in pairs {
      var j :| 0 <= j < |pairs| && pairs[j] == p;
      CountAt(pairs, j);
    }
  }

  lemma ShelfOK(h: Heap, path: seq<At>, pairs: seq<Pair>)
    requires WF(h) && Ascending(pairs)
    requires forall j :: 0 <= j < |path| ==> path[j].node < |h.meta|
    requires AllInRegion(h.meta, path, pairs)
    ensures var g := Append(h, Shelf(pairs, path)); NodeOK(g, |h.meta|) && AtRest(g, |h.meta|)
  {
    var n, g := |h.meta|, Append(h, Shelf(pairs, path));
    forall a: Key, b: Key | a <= b ensures g.meta[n].slotOf(a) <= g.meta[n].slotOf(b) < g.meta[n].capacity {
      CountMonotone(pairs, a, b);
    }
    forall i | 0 <= i < |g.cells[n]| ensures CellOK(g, n, i, g.cells[n][i]) {
      if i < |pairs| {
        CountAt(pairs, i);
        assert pairs[i] in pairs;
        InRegionExtends(h, g, path, pairs[i].key);
      }
    }
  }

  /** For any sorted run there is a tree that binds exactly it, at any place where its keys
      belong: one node, with the entries in order. */
  lemma FragmentExists(h: Heap, path: seq<At>, pairs: seq<Pair>)
    requires WF(h) && Ascending(pairs)
    requires forall j :: 0 <= j < |path| ==> path[j].node < |h.meta|
    requires AllInRegion(h.meta, path, pairs)
    ensures Fragment(h, Shelf(pairs, path), path, pairs)
  {
    ShelfOK(h, path, pairs);
    forall p: Pair ensures p in pairs <==> Lookup(Append(h, Shelf(pairs, path)), |h.meta|, p.key) == Some(p.val) {
      ShelfBinds(h, path, pairs, p);
    }
  }

  // ---------------------------------------------------------------------------------
  // Every call has a step

  ghost predicate CanStep(ops: seq<Call>, s: State, t: nat) {
    exists s' :: Next(ops, s, s', t)
  }

  lemma CanRead(ops: seq<Call>, s: State, t: nat, pc: PC)
    requires t < |ops| == |s.pcs| && ReadStep(ops, s, t, pc)
    ensures CanStep(ops, s, t)
  {
    assert Next(ops, s, s.(pcs := s.pcs[t := pc]), t);
  }

  lemma CanCas(ops: seq<Call>, s: State, t: nat)
    requires Inv(ops, s) && t < |ops| && s.pcs[t].Armed?
    ensures CanStep(ops, s, t)
  {
    assert PcOK(ops[t], s.h, s.root, t, s.pcs[t]);
    var Armed(r, first, cur, seen) := s.pcs[t];
    var k := ops[t].key;
    var x := CellFor(s.h, cur, k);
    if seen.SawChild? {
      CanRead(ops, s, t, AfterChildLoad(s.pcs[t], x));
    } else if !SameState(seen, x) {
      CanRead(ops, s, t, Walk(r, first, cur));
    } else {
      SlotInRange(s.h, cur, k);
      var s' := if ops[t].Remove? && x.Data?
        then State(Store(s.h, NO_NODES, cur, k, Tomb(x.pair)), s.root, s.pcs[t := Validate(r, first)])
        else State(Store(s.h, NO_NODES, cur, k, Writing(t, WasOf(x))), s.root, s.pcs[t := Owning(r, first, cur, seen)]);
      assert CasStep(ops, s, s', t);
      assert Next(ops, s, s', t);
    }
  }

  lemma CanPublish(ops: seq<Call>, s: State, t: nat)
    requires Inv(ops, s) && t < |ops| && s.pcs[t].Owning?
    ensures CanStep(ops, s, t)
  {
    assert PcOK(ops[t], s.h, s.root, t, s.pcs[t]);
    var Owning(r, first, cur, seen) := s.pcs[t];
    var k, entry := ops[t].key, Pair(ops[t].key, ops[t].val);
    SlotInRange(s.h, cur, k);
    var i := Slot(s.h.meta, cur, k);
    var path, pairs := s.h.meta[cur].path + [At(cur, i)], ChildPairs(seen, entry);
    PathRegion(s.h, k, r, first, cur);
    assert NodeOK(s.h, cur);
    assert InRegion(s.h.meta, path, k);
    FragmentExists(s.h, path, pairs);
    var f, pcs := Shelf(pairs, path), s.pcs[t := Validate(r, first)];
    var s' := if seen.SawEmpty?
      then State(Store(s.h, NO_NODES, cur, k, Data(entry)), s.root, pcs)
      else State(Store(s.h, f, cur, k, Child(Ptr(|s.h.meta|, None), PairOf(CellFor(s.h, cur, k)))), s.root, pcs);
    assert PublishStep(ops, s, s', t, f);
    assert Next(ops, s, s', t);
  }

  lemma CanFreeze(ops: seq<Call>, s: State, t: nat)
    requires Inv(ops, s) && t < |ops| && s.pcs[t].SubArmed?
    ensures CanStep(ops, s, t)
  {
    assert PcOK(ops[t], s.h, s.root, t, s.pcs[t]);
    var SubArmed(r, c) := s.pcs[t];
    var k := ops[t].key;
    var x := CellFor(s.h, r, k);
    if x.Child? && x.ptr == Ptr(c, None) {
      SlotInRange(s.h, r, k);
      var s' := State(Store(s.h, NO_NODES, r, k, Child(Ptr(c, Some(t)), x.stale)), s.root,
                      s.pcs[t := Scan(Subtree(r, c), [Frame(c, 0)], [])]);
      assert SubFreezeStep(ops, s, s', t);
      assert Next(ops, s, s', t);
    } else {
      CanRead(ops, s, t, Confirm(r));
    }
  }

  /** The end of a subtree rebuild. */
  lemma CanSwapSub(ops: seq<Call>, s: State, t: nat)
    requires Inv(ops, s) && t < |ops| && s.pcs[t].Scan? && s.pcs[t].stack == [] && s.pcs[t].job.Subtree?
    ensures CanStep(ops, s, t)
  {
    assert PcOK(ops[t], s.h, s.root, t, s.pcs[t]);
    var Subtree(r, c) := s.pcs[t].job;
    var k, out := ops[t].key, s.pcs[t].out;
    var x := CellFor(s.h, r, k);
    SlotInRange(s.h, r, k);
    var path, pcs := [At(r, Slot(s.h.meta, r, k))], s.pcs[t := Confirm(r)];
    FragmentExists(s.h, path, out);
    var f := Shelf(out, path);
    var s' := if |out| <= 1
      then State(Store(s.h, NO_NODES, r, k, Child(Ptr(c, None), x.stale)), s.root, pcs)
      else State(Store(s.h, f, r, k, Child(Ptr(|s.h.meta|, None), x.stale)), s.root, pcs);
    assert SubSwapStep(ops, s, s', t, f);
    assert Next(ops, s, s', t);
  }

  /** The end of a rebuild of the whole tree, a drain or a clear. */
  lemma CanSwapRoot(ops: seq<Call>, s: State, t: nat)
    requires Inv(ops, s) && t < |ops| && s.pcs[t].Scan? && s.pcs[t].stack == [] && s.pcs[t].job.Whole?
    ensures CanStep(ops, s, t)
  {
    assert PcOK(ops[t], s.h, s.root, t, s.pcs[t]);
    var r, out := s.pcs[t].job.r, s.pcs[t].out;
    var pairs := if ops[t].Drain? then [] else out;
    FragmentExists(s.h, [], pairs);
    var f, pcs := Shelf(pairs, []), s.pcs[t := Returned];
    var s' := if !ops[t].Drain? && out == []
      then State(s.h, Ptr(r, None), pcs)
      else State(Append(s.h, f), Ptr(|s.h.meta|, None), pcs);
    assert RootSwapStep(ops, s, s', t, f);
    assert Next(ops, s, s', t);
  }

  lemma CanMove(ops: seq<Call>, s: State, t: nat)
    requires Inv(ops, s) && t < |ops| && s.pcs[t] != Returned
    ensures CanStep(ops, s, t)
  {
    var call, here := ops[t], s.pcs[t];
    assert PcOK(call, s.h, s.root, t, here);
    match here
    case Ready => CanRead(ops, s, t, AfterRootLoad(call, s.root));
    case Walk(_, _, cur) => CanRead(ops, s, t, AfterRead(call, here, CellFor(s.h, cur, call.key)));
    case Armed(_, _, _, _) => CanCas(ops, s, t);
    case Owning(_, _, _, _) => CanPublish(ops, s, t);
    case Validate(r, first) =>
      CanRead(ops, s, t, if FirstUnchanged(s.h, call.key, r, first) then Confirm(r) else Walk(r, None, r));
    case SubLoad(r) => CanRead(ops, s, t, AfterSubLoad(r, CellFor(s.h, r, call.key)));
    case SubArmed(_, _) => CanFreeze(ops, s, t);
    case RootArmed(r) =>
      if s.root == Ptr(r, None) {
        var s' := State(s.h, Ptr(r, Some(t)), s.pcs[t := Scan(Whole(r), [Frame(r, 0)], [])]);
        assert RootFreezeStep(ops, s, s', t);
        assert Next(ops, s, s', t);
      } else {
        CanRead(ops, s, t, Returned);
      }
    case Scan(job, stack, _) =>
      if stack != [] {
        CanRead(ops, s, t, AfterVisit(s.h, here));
      } else {
        match job
        case Look => CanRead(ops, s, t, Returned);
        case Subtree(_, _) => CanSwapSub(ops, s, t);
        case Whole(_) => CanSwapRoot(ops, s, t);
      }
    case Confirm(r) => CanRead(ops, s, t, if s.root == Ptr(r, None) then Returned else Ready);
  }

  /** In every reachable state, a call that has not returned can take a step. */
  lemma NeverStuck(ops: seq<Call>, run: seq<State>, i: nat, t: nat)
    requires Run(ops, run) && i < |run| && t < |ops|
    ensures |run[i].pcs| == |ops|
    ensures run[i].pcs[t] != Returned ==> exists s' :: Next(ops, run[i], s', t)
  {
    RunOK(ops, run, i);
    if run[i].pcs[t] != Returned {
      CanMove(ops, run[i], t);
    }
  }
}
