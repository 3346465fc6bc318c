/** No resurrected remove: a key with one remover and no writer is gone for good once the
    remove has returned, however rebuilds and writers of other keys interleave. */
module NoResurrection {
  import opened Wrappers
  import opened Keys
  import opened NodeHeap
  import opened Protocol
  import opened ScanOrder
  import opened SlotLifecycle
  import opened ProtocolInvariant
  import opened ProtocolSteps
  import opened StepLookups

  /** Call `t` is the only remover of `k`, and nothing writes `k`. */
  ghost predicate SoleRemover(ops: seq<Call>, k: Key, t: nat) {
    && t < |ops| && ops[t] == Remove(k)
    && forall u :: 0 <= u < |ops| ==>
         && (ops[u] == Remove(k) ==> u == t)
         && (IsWriter(ops[u]) ==> ops[u].key != k)
  }

  ghost predicate Lacks(h: Heap, n: nat, k: Key) { Lookup(h, n, k) == None }

  /** The snapshot a traversal takes will not contain `k`. */
  ghost predicate CleanScan(h: Heap, stack: seq<Frame>, out: seq<Pair>, k: Key) {
    && !HasKey(out, k)
    && forall j :: 0 <= j < |stack| ==> Lacks(h, stack[j].node, k)
  }

  /** `k` is absent under root `r`, and no rebuild of a subtree of `r` can bring it back. */
  ghost predicate Clean(ops: seq<Call>, s: State, k: Key, r: nat) {
    && |ops| == |s.pcs|
    && Lacks(s.h, r, k)
    && forall u :: 0 <= u < |ops| && Rebuilds(ops[u], s.pcs[u], s.h, r, k) ==>
         CleanScan(s.h, s.pcs[u].stack, s.pcs[u].out, k)
  }

  /** `k` is absent from the current tree, and no rebuild of it can bring it back either. */
  ghost predicate CleanRoot(ops: seq<Call>, s: State, k: Key) {
    && Clean(ops, s, k, s.root.id)
    && forall u :: 0 <= u < |ops| && s.pcs[u].Scan? && s.pcs[u].job.Whole? ==>
         CleanScan(s.h, s.pcs[u].stack, s.pcs[u].out, k)
  }

  /** What the remover has achieved, or may conclude from not finding `k`. */
  ghost predicate Gone(ops: seq<Call>, s: State, k: Key, pc: PC) {
    match pc
    case Walk(r, Some(c), _) => !Lacks(s.h, c, k) || Clean(ops, s, k, r)
    case Armed(r, Some(c), _, _) => !Lacks(s.h, c, k) || Clean(ops, s, k, r)
    case Validate(r, Some(c)) => Lacks(s.h, c, k)
    case Validate(r, None) => Clean(ops, s, k, r)
    case SubLoad(r) => Clean(ops, s, k, r)
    case SubArmed(r, c) => Clean(ops, s, k, r)
    case Scan(Subtree(r, c), _, _) => Clean(ops, s, k, r)
    case Confirm(r) => Clean(ops, s, k, r)
    case Returned => CleanRoot(ops, s, k)
    case _ => true
  }

  // ---------------------------------------------------------------------------------

  lemma StepLacks(ops: seq<Call>, s: State, s': State, t: nat, m: nat, k: Key, t0: nat)
    requires Inv(ops, s) && Next(ops, s, s', t) && SoleRemover(ops, k, t0) && m < |s.h.meta|
    requires s.h.meta[m].path != [] || Clean(ops, s, k, m)
    requires Lacks(s.h, m, k)
    ensures Lacks(s'.h, m, k)
  {
    assert PcOK(ops[t], s.h, s.root, t, s.pcs[t]);
    StepAnswers(ops, s, s', t, m, k, {None});
  }

  /** Only the remover itself takes `k` away. */
  lemma StepFinds(ops: seq<Call>, s: State, s': State, t: nat, m: nat, k: Key, t0: nat)
    requires Inv(ops, s) && Next(ops, s, s', t) && SoleRemover(ops, k, t0) && t != t0 && m < |s.h.meta|
    requires s.h.meta[m].path != [] && !Lacks(s.h, m, k)
    ensures !Lacks(s'.h, m, k)
  {
    assert PcOK(ops[t], s.h, s.root, t, s.pcs[t]);
    StepAnswers(ops, s, s', t, m, k, {Lookup(s.h, m, k)});
  }

  lemma CleanScanStays(ops: seq<Call>, s: State, s': State, t: nat, base: nat, stack: seq<Frame>, out: seq<Pair>,
                       k: Key, t0: nat)
    requires Inv(ops, s) && Next(ops, s, s', t) && SoleRemover(ops, k, t0)
    requires ScanFrom(s.h, base, stack, out)
    requires s.h.meta[base].path != [] || Clean(ops, s, k, base)
    requires CleanScan(s.h, stack, out, k)
    ensures CleanScan(s'.h, stack, out, k)
  {
    forall j | 0 <= j < |stack| ensures Lacks(s'.h, stack[j].node, k) {
      if j > 0 {
        UpperFramesBelowRoots(s.h.meta, stack, j);
      }
      StepLacks(ops, s, s', t, stack[j].node, k, t0);
    }
  }

  /** Whatever a slot binds, its node binds. */
  lemma SlotBound(h: Heap, n: nat, i: nat, k: Key)
    requires WF(h) && n < |h.meta| && i < |h.cells[n]|
    ensures var x := h.cells[n][i];
            && (x.Data? && x.pair.key == k ==> Lookup(h, n, k).Some?)
            && (x.Child? && Lookup(h, x.ptr.id, k).Some? ==> Lookup(h, n, k).Some?)
  {
    assert NodeOK(h, n);
    var x := h.cells[n][i];
    var path := h.meta[n].path + [At(n, i)];
    assert path[|path| - 1] == At(n, i);
    if x.Child? && Lookup(h, x.ptr.id, k).Some? {
      BoundInRegion(h, x.ptr.id, k);
    }
  }

  /** A traversal of nodes without `k` does not come across `k`. */
  lemma CleanVisit(h: Heap, job: Job, stack: seq<Frame>, out: seq<Pair>, k: Key)
    requires WF(h) && stack != [] && Linked(h.meta, stack)
    requires CleanScan(h, stack, out, k)
    ensures var pc := AfterVisit(h, Scan(job, stack, out)); CleanScan(h, pc.stack, pc.out, k)
  {
    var pc := AfterVisit(h, Scan(job, stack, out));
    var top := stack[|stack| - 1];
    assert Lacks(h, top.node, k);
    assert NodeOK(h, top.node);
    if top.next < |h.cells[top.node]| {
      SlotBound(h, top.node, top.next, k);
    }
  }

  lemma CleanStays(ops: seq<Call>, s: State, s': State, t: nat, k: Key, r: nat, t0: nat)
    requires Inv(ops, s) && Next(ops, s, s', t) && SoleRemover(ops, k, t0)
    requires Clean(ops, s, k, r) && IsRoot(s.h, r)
    ensures Clean(ops, s', k, r)
  {
    NextOK(ops, s, s', t);
    StepLacks(ops, s, s', t, r, k, t0);
    forall u | 0 <= u < |ops| && Rebuilds(ops[u], s'.pcs[u], s'.h, r, k)
      ensures CleanScan(s'.h, s'.pcs[u].stack, s'.pcs[u].out, k)
    {
      SlotStays(s.h, s'.h, r, k);
      SlotStays(s.h, s'.h, r, ops[u].key);
      if u != t {
        assert PcOK(ops[u], s.h, s.root, u, s.pcs[u]);
        CleanScanStays(ops, s, s', t, s.pcs[u].job.c, s.pcs[u].stack, s.pcs[u].out, k, t0);
      } else {
        CleanOwnScan(ops, s, s', t, k, r, t0);
      }
    }
  }

  lemma CleanOwnScan(ops: seq<Call>, s: State, s': State, t: nat, k: Key, r: nat, t0: nat)
    requires Inv(ops, s) && Next(ops, s, s', t) && SoleRemover(ops, k, t0)
    requires Clean(ops, s, k, r) && IsRoot(s.h, r)
    requires Inv(ops, s') && Rebuilds(ops[t], s'.pcs[t], s.h, r, k)
    ensures CleanScan(s'.h, s'.pcs[t].stack, s'.pcs[t].out, k)
  {
    ScanSteps(ops, s, s', t);
    if s.pcs[t].SubArmed? {
      SlotInRange(s.h, r, k);
      StepLacks(ops, s, s', t, s.pcs[t].c, k, t0);
    } else {
      CleanVisit(s.h, s.pcs[t].job, s.pcs[t].stack, s.pcs[t].out, k);
    }
  }

  lemma CleanRootStays(ops: seq<Call>, s: State, s': State, t: nat, k: Key, t0: nat)
    requires Inv(ops, s) && Next(ops, s, s', t) && SoleRemover(ops, k, t0)
    requires CleanRoot(ops, s, k)
    ensures CleanRoot(ops, s', k)
  {
    NextOK(ops, s, s', t);
    if s'.root.id == s.root.id {
      CleanStays(ops, s, s', t, k, s.root.id, t0);
      forall u | 0 <= u < |ops| && s'.pcs[u].Scan? && s'.pcs[u].job.Whole?
        ensures CleanScan(s'.h, s'.pcs[u].stack, s'.pcs[u].out, k)
      {
        if u != t {
          assert PcOK(ops[u], s.h, s.root, u, s.pcs[u]);
          CleanScanStays(ops, s, s', t, s.root.id, s.pcs[u].stack, s.pcs[u].out, k, t0);
        } else {
          WholeOwnScan(ops, s, s', t, k, t0);
        }
      }
    } else {
      var f :| RootSwapStep(ops, s, s', t, f);
      RootSwapClean(ops, s, s', t, f, k);
    }
  }

  lemma WholeOwnScan(ops: seq<Call>, s: State, s': State, t: nat, k: Key, t0: nat)
    requires Inv(ops, s) && Next(ops, s, s', t) && SoleRemover(ops, k, t0)
    requires CleanRoot(ops, s, k) && s'.root.id == s.root.id
    requires s'.pcs[t].Scan? && s'.pcs[t].job.Whole?
    ensures CleanScan(s'.h, s'.pcs[t].stack, s'.pcs[t].out, k)
  {
    ScanSteps(ops, s, s', t);
    if s.pcs[t].Scan? {
      CleanVisit(s.h, s.pcs[t].job, s.pcs[t].stack, s.pcs[t].out, k);
    }
  }

  lemma RootSwapClean(ops: seq<Call>, s: State, s': State, t: nat, f: Heap, k: Key)
    requires Inv(ops, s) && t < |ops| && RootSwapStep(ops, s, s', t, f)
    requires CleanRoot(ops, s, k) && s'.root.id != s.root.id
    ensures CleanRoot(ops, s', k)
  {
    RootSwapOK(ops, s, s', t, f);
    assert PcOK(ops[t], s.h, s.root, t, s.pcs[t]);
    var pairs := if ops[t].Drain? then [] else s.pcs[t].out;
    FragmentAnswers(s.h, f, [], pairs, k, {None});
    forall u | 0 <= u < |ops| ensures !Rebuilds(ops[u], s'.pcs[u], s'.h, s'.root.id, k) {
      assert PcOK(ops[u], s.h, s.root, u, s.pcs[u]);
    }
    forall u | 0 <= u < |ops| ensures !(s'.pcs[u].Scan? && s'.pcs[u].job.Whole?) {
      assert PcOK(ops[u], s'.h, s'.root, u, s'.pcs[u]);
    }
  }

  // ---------------------------------------------------------------------------------
  // The remover's own steps

  /** While the first child pointer is not frozen nobody is copying that subtree. */
  lemma UnfrozenClean(ops: seq<Call>, s: State, k: Key, r: nat)
    requires Inv(ops, s) && IsRoot(s.h, r)
    requires var x := CellFor(s.h, r, k); x.Child? ==> x.ptr.lock == None
    requires Lacks(s.h, r, k)
    ensures Clean(ops, s, k, r)
  {
    forall u | 0 <= u < |ops| ensures !Rebuilds(ops[u], s.pcs[u], s.h, r, k) {
      assert PcOK(ops[u], s.h, s.root, u, s.pcs[u]);
    }
  }

  /** Reading a slot: not finding `k` there means `k` was already absent at the descent. */
  lemma ReadGone(ops: seq<Call>, s: State, t: nat, pc: PC, k: Key)
    requires Inv(ops, s) && t < |ops| && ops[t] == Remove(k)
    requires s.pcs[t].Walk? && ReadStep(ops, s, t, pc)
    requires Gone(ops, s, k, s.pcs[t])
    ensures Gone(ops, s, k, pc)
  {
    var Walk(r, first, cur) := s.pcs[t];
    assert PcOK(ops[t], s.h, s.root, t, s.pcs[t]);
    if pc == Confirm(r) {
      assert Lacks(s.h, cur, k);
      if first.Some? {
        ReachesLookup(s.h, first.value, cur, k);
      } else {
        UnfrozenClean(ops, s, k, r);
      }
    }
  }

  lemma ChildLoadGone(ops: seq<Call>, s: State, t: nat, pc: PC, k: Key)
    requires Inv(ops, s) && t < |ops| && ops[t] == Remove(k)
    requires s.pcs[t].Armed? && ReadStep(ops, s, t, pc)
    requires Gone(ops, s, k, s.pcs[t])
    ensures Gone(ops, s, k, pc)
  {
    var Armed(r, first, cur, seen) := s.pcs[t];
    assert PcOK(ops[t], s.h, s.root, t, s.pcs[t]);
    var x := CellFor(s.h, cur, k);
    if seen.SawChild? && x.ptr.lock.None? && first.None? {
      SlotInRange(s.h, r, k);
      if Lacks(s.h, x.ptr.id, k) {
        UnfrozenClean(ops, s, k, r);
      }
    }
  }

  lemma CasGone(ops: seq<Call>, s: State, s': State, t: nat, k: Key)
    requires Inv(ops, s) && t < |ops| && ops[t] == Remove(k) && CasStep(ops, s, s', t)
    ensures Gone(ops, s', k, s'.pcs[t])
  {
    CasOK(ops, s, s', t);
    var Armed(r, first, cur, seen) := s.pcs[t];
    assert PcOK(ops[t], s.h, s.root, t, s.pcs[t]);
    SlotInRange(s.h, cur, k);
    assert Append(s.h, NO_NODES) == s.h;
    assert CellFor(s'.h, cur, k).Tomb?;
    if first.Some? {
      forall n | 0 <= n < |s.h.cells| && n != cur ensures CellFor(s'.h, n, k) == CellFor(s.h, n, k) {
        SlotStays(s.h, s'.h, n, k);
      }
      ReachesAfter(s.h, s'.h, cur, first.value, k);
      ReachesLookup(s'.h, first.value, cur, k);
    } else {
      UnfrozenClean(ops, s', k, r);
    }
  }

  lemma ValidateGone(ops: seq<Call>, s: State, s': State, t: nat, k: Key)
    requires Inv(ops, s) && Next(ops, s, s', t) && SoleRemover(ops, k, t)
    requires s.pcs[t].Validate? && Gone(ops, s, k, s.pcs[t])
    ensures Gone(ops, s', k, s'.pcs[t])
  {
    var Validate(r, first) := s.pcs[t];
    assert PcOK(ops[t], s.h, s.root, t, s.pcs[t]);
    if FirstUnchanged(s.h, k, r, first) {
      if first.Some? {
        SlotInRange(s.h, r, k);
        UnfrozenClean(ops, s, k, r);
      }
      CleanStays(ops, s, s', t, k, r, t);
    }
  }

  lemma ConfirmGone(ops: seq<Call>, s: State, s': State, t: nat, k: Key)
    requires Inv(ops, s) && Next(ops, s, s', t) && SoleRemover(ops, k, t)
    requires s.pcs[t].Confirm? && Gone(ops, s, k, s.pcs[t])
    ensures Gone(ops, s', k, s'.pcs[t])
  {
    assert PcOK(ops[t], s.h, s.root, t, s.pcs[t]);
    if s'.pcs[t] == Returned {
      forall u | 0 <= u < |ops| ensures !(s.pcs[u].Scan? && s.pcs[u].job.Whole?) {
        assert PcOK(ops[u], s.h, s.root, u, s.pcs[u]);
      }
      assert CleanRoot(ops, s, k);
      CleanRootStays(ops, s, s', t, k, t);
    }
  }

  lemma RebuildGone(ops: seq<Call>, s: State, s': State, t: nat, k: Key)
    requires Inv(ops, s) && Next(ops, s, s', t) && SoleRemover(ops, k, t)
    requires SubRoot(s.pcs[t]).Some? && Gone(ops, s, k, s.pcs[t])
    ensures Gone(ops, s', k, s'.pcs[t])
  {
    SubRootStays(ops, s, s', t);
    CleanStays(ops, s, s', t, k, SubRoot(s.pcs[t]).value, t);
  }

  lemma WalkGone(ops: seq<Call>, s: State, s': State, t: nat, k: Key)
    requires Inv(ops, s) && Next(ops, s, s', t) && SoleRemover(ops, k, t)
    requires s.pcs[t].Walk? || s.pcs[t].Armed? || s.pcs[t].Ready?
    requires Gone(ops, s, k, s.pcs[t])
    ensures Gone(ops, s', k, s'.pcs[t])
  {
    if CasStep(ops, s, s', t) {
      CasGone(ops, s, s', t, k);
    } else {
      var pc :| ReadStep(ops, s, t, pc) && s' == s.(pcs := s.pcs[t := pc]);
      if s.pcs[t].Walk? {
        ReadGone(ops, s, t, pc, k);
      } else if s.pcs[t].Armed? {
        ChildLoadGone(ops, s, t, pc, k);
      }
      assert Gone(ops, s, k, pc);
      assert s'.h == s.h && s'.root == s.root;
      forall r | IsRoot(s.h, r) && Clean(ops, s, k, r) ensures Clean(ops, s', k, r) {
        CleanStays(ops, s, s', t, k, r, t);
      }
      NextOK(ops, s, s', t);
      assert PcOK(ops[t], s'.h, s'.root, t, pc);
    }
  }

  lemma OwnStepGone(ops: seq<Call>, s: State, s': State, t: nat, k: Key)
    requires Inv(ops, s) && Next(ops, s, s', t) && SoleRemover(ops, k, t)
    requires Gone(ops, s, k, s.pcs[t])
    ensures Gone(ops, s', k, s'.pcs[t])
  {
    assert PcOK(ops[t], s.h, s.root, t, s.pcs[t]);
    match s.pcs[t]
    case Ready => WalkGone(ops, s, s', t, k);
    case Walk(_, _, _) => WalkGone(ops, s, s', t, k);
    case Armed(_, _, _, _) => WalkGone(ops, s, s', t, k);
    case Validate(_, _) => ValidateGone(ops, s, s', t, k);
    case SubLoad(_) => RebuildGone(ops, s, s', t, k);
    case SubArmed(_, _) => RebuildGone(ops, s, s', t, k);
    case Scan(_, _, _) => RebuildGone(ops, s, s', t, k);
    case Confirm(_) => ConfirmGone(ops, s, s', t, k);
    case _ =>
  }

  lemma OtherStepGone(ops: seq<Call>, s: State, s': State, t: nat, t0: nat, k: Key)
    requires Inv(ops, s) && Next(ops, s, s', t) && SoleRemover(ops, k, t0) && t != t0
    requires Gone(ops, s, k, s.pcs[t0])
    ensures Gone(ops, s', k, s'.pcs[t0])
  {
    var pc := s.pcs[t0];
    assert PcOK(ops[t0], s.h, s.root, t0, pc);
    assert s'.pcs[t0] == pc;
    forall r | IsRoot(s.h, r) && Clean(ops, s, k, r) ensures Clean(ops, s', k, r) {
      CleanStays(ops, s, s', t, k, r, t0);
    }
    match pc
    case Walk(r, Some(c), _) =>
      if !Lacks(s.h, c, k) {
        StepFinds(ops, s, s', t, c, k, t0);
      }
    case Armed(r, Some(c), _, _) =>
      if !Lacks(s.h, c, k) {
        StepFinds(ops, s, s', t, c, k, t0);
      }
    case Validate(r, Some(c)) => StepLacks(ops, s, s', t, c, k, t0);
    case Returned => CleanRootStays(ops, s, s', t, k, t0);
    case _ =>
  }

  lemma {:induction false} GoneHolds(ops: seq<Call>, run: seq<State>, i: nat, k: Key, t0: nat)
    requires Run(ops, run) && i < |run| && SoleRemover(ops, k, t0)
    ensures Inv(ops, run[i]) && Gone(ops, run[i], k, run[i].pcs[t0])
  {
    RunOK(ops, run, i);
    if i > 0 {
      GoneHolds(ops, run, i - 1, k, t0);
      var t := RunStep(ops, run, i - 1);
      if t == t0 {
        OwnStepGone(ops, run[i - 1], run[i], t, k);
      } else {
        OtherStepGone(ops, run[i - 1], run[i], t, t0, k);
      }
    }
  }

  /** In every state of every run in which the sole remover of `k` has returned, and nothing
      ever writes `k`, the current tree does not bind `k`. Rebuilds, drains and writers and
      removers of other keys run freely. */
  lemma NoResurrectedRemove(ops: seq<Call>, run: seq<State>, i: nat, k: Key, t: nat)
    requires Run(ops, run) && i < |run| && SoleRemover(ops, k, t)
    requires t < |run[i].pcs| && run[i].pcs[t] == Returned
    ensures Lookup(run[i].h, run[i].root.id, k) == None
  {
    GoneHolds(ops, run, i, k, t);
  }
}
