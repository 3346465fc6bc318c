/** Every step of every call keeps the protocol invariant, and changes shared memory only as
    the slot lifecycle allows. */
module ProtocolSteps {
  import opened Wrappers
  import opened Keys
  import opened NodeHeap
  import opened Protocol
  import opened ScanOrder
  import opened SlotLifecycle
  import opened ProtocolInvariant

  /** Call `t` holds no slot, except perhaps slot `i` of node `n`. */
  ghost predicate HoldsOnly(h: Heap, t: nat, n: nat, i: nat) {
    forall m, j :: 0 <= m < |h.meta| && HeldBy(CellAt(h, m, j)) == Some(t) ==> m == n && j == i
  }

  lemma HoldersStored(ops: seq<Call>, s: State, s': State, t: nat, n: nat, i: nat, x: Cell, pc: PC)
    requires Inv(ops, s) && t < |ops|
    requires Stored(s.h, s'.h, n, i, x) && s'.root == s.root && s'.pcs == s.pcs[t := pc]
    requires HoldsOnly(s.h, t, n, i) && s.root.lock != Some(t)
    requires forall m, j :: |s.h.meta| <= m < |s'.h.meta| ==> HeldBy(CellAt(s'.h, m, j)).None?
    requires HeldBy(x).Some? ==> HeldBy(x).value == t && HolderOK(ops[t], pc, s'.h, n, i)
    ensures HoldersOK(ops, s')
  {
    forall m, j | 0 <= m < |s'.h.meta| && HeldBy(CellAt(s'.h, m, j)).Some?
      ensures var u := HeldBy(CellAt(s'.h, m, j)).value;
              u < |ops| && HolderOK(ops[u], s'.pcs[u], s'.h, m, j)
    {
      if m < |s.h.meta| && (m != n || j != i) {
        assert CellAt(s'.h, m, j) == CellAt(s.h, m, j);
        var u := HeldBy(CellAt(s.h, m, j)).value;
        assert HolderOK(ops[u], s.pcs[u], s.h, m, j);
        SlotStays(s.h, s'.h, m, ops[u].key);
      }
    }
  }

  lemma InvStored(ops: seq<Call>, s: State, s': State, t: nat, n: nat, i: nat, x: Cell, pc: PC)
    requires Inv(ops, s) && t < |ops| && WF(s'.h)
    requires Stored(s.h, s'.h, n, i, x) && s'.root == s.root && s'.pcs == s.pcs[t := pc]
    requires SlotStep(s.h.meta[n].path == [], CellAt(s.h, n, i), x, t)
    requires HoldersOK(ops, s')
    requires PcOK(ops[t], s'.h, s'.root, t, pc)
    ensures Inv(ops, s') && Guarantee(s.h, s'.h, t)
  {
    StoredGuarantee(s.h, s'.h, n, i, x, t);
    forall u | 0 <= u < |ops| ensures PcOK(ops[u], s'.h, s'.root, u, s'.pcs[u]) {
      if u != t {
        PcStays(ops[u], s.h, s'.h, s.root, s'.root, t, u, s.pcs[u]);
      }
    }
  }

  lemma ChildLoadOK(call: Call, h: Heap, root: Ptr, t: nat, pc: PC)
    requires WF(h) && IsKeyed(call) && pc.Armed? && pc.seen.SawChild? && PcOK(call, h, root, t, pc)
    ensures PcOK(call, h, root, t, AfterChildLoad(pc, CellFor(h, pc.cur, call.key)))
  {
    var k, cur := call.key, pc.cur;
    SlotInRange(h, cur, k);
    var x := CellFor(h, cur, k);
    if x.ptr.lock.None? {
      if pc.first.None? {
        assert h.meta[x.ptr.id].path == [At(cur, Slot(h.meta, cur, k))];
      } else {
        assert Reaches(h, cur, x.ptr.id, k);
        ReachesTrans(h, pc.first.value, cur, x.ptr.id, k);
      }
    }
  }

  lemma VisitOK(call: Call, h: Heap, root: Ptr, t: nat, pc: PC)
    requires WF(h) && pc.Scan? && pc.stack != [] && PcOK(call, h, root, t, pc)
    ensures PcOK(call, h, root, t, AfterVisit(h, pc))
  {
    VisitInOrder(h, pc);
    var pc' := AfterVisit(h, pc);
    var top := pc.stack[|pc.stack| - 1];
    assert NodeOK(h, top.node);
    if !pc.job.Look? {
      var base := if pc.job.Subtree? then pc.job.c else pc.job.r;
      PathsGrow(h.meta, pc.stack);
      forall p | p in pc'.out ensures InRegion(h.meta, h.meta[base].path, p.key) {
        if p !in pc.out {
          assert h.cells[top.node][top.next] == Data(p);
          var path := h.meta[top.node].path + [At(top.node, top.next)];
          assert InRegion(h.meta, path, p.key);
          forall j | 0 <= j < |h.meta[base].path|
            ensures Slot(h.meta, h.meta[base].path[j].node, p.key) == h.meta[base].path[j].slot
          {
            assert path[j] == h.meta[base].path[j];
          }
        }
      }
    }
  }

  lemma ReadOK(ops: seq<Call>, s: State, t: nat, pc: PC)
    requires Inv(ops, s) && t < |ops| && ReadStep(ops, s, t, pc)
    ensures PcOK(ops[t], s.h, s.root, t, pc)
  {
    var call, here := ops[t], s.pcs[t];
    assert PcOK(call, s.h, s.root, t, here);
    match here
    case Ready =>
      if call.Iterate? {
        assert ScanOK(s.h.meta, [Frame(s.root.id, 0)], []);
      }
    case Armed(r, first, cur, seen) =>
      if seen.SawChild? {
        ChildLoadOK(call, s.h, s.root, t, here);
      }
    case Scan(job, stack, out) =>
      if stack != [] {
        VisitOK(call, s.h, s.root, t, here);
      }
    case SubLoad(r) => SlotInRange(s.h, r, call.key);
    case _ =>
  }

  lemma ReadHolders(ops: seq<Call>, s: State, t: nat, pc: PC)
    requires Inv(ops, s) && t < |ops| && ReadStep(ops, s, t, pc)
    ensures HoldersOK(ops, s.(pcs := s.pcs[t := pc]))
  {
    var s' := s.(pcs := s.pcs[t := pc]);
    assert PcOK(ops[t], s.h, s.root, t, s.pcs[t]);
    forall n, i | 0 <= n < |s.h.meta| && HeldBy(CellAt(s.h, n, i)).Some?
      ensures var u := HeldBy(CellAt(s.h, n, i)).value;
              u < |ops| && HolderOK(ops[u], s'.pcs[u], s.h, n, i)
    {
      var u := HeldBy(CellAt(s.h, n, i)).value;
      assert HolderOK(ops[u], s.pcs[u], s.h, n, i);
    }
  }

  lemma ReadInv(ops: seq<Call>, s: State, t: nat, pc: PC)
    requires Inv(ops, s) && t < |ops| && ReadStep(ops, s, t, pc)
    ensures Inv(ops, s.(pcs := s.pcs[t := pc]))
  {
    ReadOK(ops, s, t, pc);
    ReadHolders(ops, s, t, pc);
  }

  lemma HoldsNothing(ops: seq<Call>, s: State, t: nat, n: nat, i: nat)
    requires Inv(ops, s) && t < |ops|
    requires !s.pcs[t].Owning? && !s.pcs[t].Scan?
    ensures HoldsOnly(s.h, t, n, i) && s.root.lock != Some(t)
  {
    forall m, j | 0 <= m < |s.h.meta| ensures HeldBy(CellAt(s.h, m, j)) != Some(t) {
      if HeldBy(CellAt(s.h, m, j)).Some? {
        var u := HeldBy(CellAt(s.h, m, j)).value;
        assert HolderOK(ops[u], s.pcs[u], s.h, m, j);
      }
    }
  }

  lemma HoldsOne(ops: seq<Call>, s: State, t: nat, n: nat, i: nat)
    requires Inv(ops, s) && t < |ops| && IsKeyed(ops[t]) && i == Slot(s.h.meta, n, ops[t].key)
    requires var pc := s.pcs[t]; (pc.Owning? && pc.cur == n) || (pc.Scan? && pc.job.Subtree? && pc.job.r == n)
    ensures HoldsOnly(s.h, t, n, i) && s.root.lock != Some(t)
  {
    forall m, j | 0 <= m < |s.h.meta| && HeldBy(CellAt(s.h, m, j)) == Some(t) ensures m == n && j == i {
      assert HolderOK(ops[t], s.pcs[t], s.h, m, j);
    }
  }

  /** The call's own path survives its own store at the end of that path. */
  lemma OwnPathStays(h: Heap, g: Heap, k: Key, r: nat, first: Option<nat>, cur: nat, x: Cell)
    requires WF(h) && WF(g) && OnPath(h, k, r, first, cur)
    requires Stored(h, g, cur, Slot(h.meta, cur, k), x)
    ensures first.Some? ==> OnPath(g, k, r, first, cur)
    ensures IsRoot(g, r) && cur < |g.meta|
  {
    if first.Some? {
      var c := first.value;
      assert h.meta[c].path != [];
      forall n | 0 <= n < |h.cells| && n != cur ensures CellFor(g, n, k) == CellFor(h, n, k) {
        SlotStays(h, g, n, k);
      }
      ReachesAfter(h, g, cur, c, k);
      if cur == r {
        NoWayToRoot(h, c, r, k);
      }
      SlotStays(h, g, r, k);
      assert CellFor(g, r, k) == CellFor(h, r, k);
    }
  }

  lemma CasOK(ops: seq<Call>, s: State, s': State, t: nat)
    requires Inv(ops, s) && t < |ops| && CasStep(ops, s, s', t)
    ensures Inv(ops, s') && Guarantee(s.h, s'.h, t)
  {
    var Armed(r, first, cur, seen) := s.pcs[t];
    var k := ops[t].key;
    assert PcOK(ops[t], s.h, s.root, t, s.pcs[t]);
    var i, x := Slot(s.h.meta, cur, k), CellFor(s.h, cur, k);
    SlotInRange(s.h, cur, k);
    var y := if ops[t].Remove? && x.Data? then Tomb(x.pair) else Writing(t, WasOf(x));
    StoreNone(s.h, cur, k, y);
    HoldsNothing(ops, s, t, cur, i);
    OwnPathStays(s.h, s'.h, k, r, first, cur, y);
    HoldersStored(ops, s, s', t, cur, i, y, s'.pcs[t]);
    InvStored(ops, s, s', t, cur, i, y, s'.pcs[t]);
  }

  lemma PublishOK(ops: seq<Call>, s: State, s': State, t: nat, f: Heap)
    requires Inv(ops, s) && t < |ops| && PublishStep(ops, s, s', t, f)
    ensures Inv(ops, s') && Guarantee(s.h, s'.h, t)
  {
    var Owning(r, first, cur, seen) := s.pcs[t];
    var k := ops[t].key;
    assert PcOK(ops[t], s.h, s.root, t, s.pcs[t]);
    var i, x := Slot(s.h.meta, cur, k), CellFor(s.h, cur, k);
    SlotInRange(s.h, cur, k);
    HoldsOne(ops, s, t, cur, i);
    var entry := Pair(k, ops[t].val);
    if seen.SawEmpty? {
      var y := Data(entry);
      PathRegion(s.h, k, r, first, cur);
      StoreNone(s.h, cur, k, y);
      OwnPathStays(s.h, s'.h, k, r, first, cur, y);
      HoldersStored(ops, s, s', t, cur, i, y, s'.pcs[t]);
      InvStored(ops, s, s', t, cur, i, y, s'.pcs[t]);
    } else {
      var y := Child(Ptr(|s.h.meta|, None), PairOf(x));
      StoreFragment(s.h, f, ChildPairs(seen, entry), cur, k, PairOf(x));
      OwnPathStays(s.h, s'.h, k, r, first, cur, y);
      HoldersStored(ops, s, s', t, cur, i, y, s'.pcs[t]);
      InvStored(ops, s, s', t, cur, i, y, s'.pcs[t]);
    }
  }

  /** The key of a call lies in the region of the node it has come to. */
  lemma PathRegion(h: Heap, k: Key, r: nat, first: Option<nat>, cur: nat)
    requires WF(h) && OnPath(h, k, r, first, cur)
    ensures InRegion(h.meta, h.meta[cur].path, k)
    ensures InRegion(h.meta, h.meta[cur].path + [At(cur, Slot(h.meta, cur, k))], k)
  {
    if first.Some? {
      ReachesRegion(h, first.value, cur, k);
    }
  }

  lemma FrozenPcOK(call: Call, h: Heap, root: Ptr, t: nat, r: nat, c: nat)
    requires WF(h) && IsKeyed(call) && FirstOK(h, call.key, r, c)
    requires CellFor(h, r, call.key).Child? && CellFor(h, r, call.key).ptr == Ptr(c, Some(t))
    ensures PcOK(call, h, root, t, Scan(Subtree(r, c), [Frame(c, 0)], []))
  {
    assert ScanOK(h.meta, [Frame(c, 0)], []);
  }

  lemma SubFreezeOK(ops: seq<Call>, s: State, s': State, t: nat)
    requires Inv(ops, s) && t < |ops| && SubFreezeStep(ops, s, s', t)
    ensures Inv(ops, s') && Guarantee(s.h, s'.h, t)
  {
    var SubArmed(r, c) := s.pcs[t];
    var k := ops[t].key;
    assert PcOK(ops[t], s.h, s.root, t, s.pcs[t]);
    var i, x := Slot(s.h.meta, r, k), CellFor(s.h, r, k);
    SlotInRange(s.h, r, k);
    var y := Child(Ptr(c, Some(t)), x.stale);
    StoreNone(s.h, r, k, y);
    HoldsNothing(ops, s, t, r, i);
    HoldersStored(ops, s, s', t, r, i, y, s'.pcs[t]);
    FrozenPcOK(ops[t], s'.h, s'.root, t, r, c);
    InvStored(ops, s, s', t, r, i, y, s'.pcs[t]);
  }

  lemma SubSwapOK(ops: seq<Call>, s: State, s': State, t: nat, f: Heap)
    requires Inv(ops, s) && t < |ops| && SubSwapStep(ops, s, s', t, f)
    ensures Inv(ops, s') && Guarantee(s.h, s'.h, t)
  {
    var Subtree(r, c) := s.pcs[t].job;
    var k, out := ops[t].key, s.pcs[t].out;
    assert PcOK(ops[t], s.h, s.root, t, s.pcs[t]);
    var i, x := Slot(s.h.meta, r, k), CellFor(s.h, r, k);
    SlotInRange(s.h, r, k);
    HoldsOne(ops, s, t, r, i);
    if |out| <= 1 {
      var y := Child(Ptr(c, None), x.stale);
      StoreNone(s.h, r, k, y);
      HoldersStored(ops, s, s', t, r, i, y, s'.pcs[t]);
      InvStored(ops, s, s', t, r, i, y, s'.pcs[t]);
    } else {
      var y := Child(Ptr(|s.h.meta|, None), x.stale);
      assert s.h.meta[r].path + [At(r, i)] == [At(r, i)];
      StoreFragment(s.h, f, out, r, k, x.stale);
      HoldersStored(ops, s, s', t, r, i, y, s'.pcs[t]);
      InvStored(ops, s, s', t, r, i, y, s'.pcs[t]);
    }
  }

  lemma RootFreezeOK(ops: seq<Call>, s: State, s': State, t: nat)
    requires Inv(ops, s) && t < |ops| && RootFreezeStep(ops, s, s', t)
    ensures Inv(ops, s') && Guarantee(s.h, s'.h, t)
  {
    var r := s.pcs[t].r;
    assert PcOK(ops[t], s.h, s.root, t, s.pcs[t]);
    assert ScanOK(s'.h.meta, [Frame(r, 0)], []);
    forall u | 0 <= u < |ops| ensures PcOK(ops[u], s'.h, s'.root, u, s'.pcs[u]) {
      if u != t {
        PcStays(ops[u], s.h, s'.h, s.root, s'.root, t, u, s.pcs[u]);
      }
    }
    HoldsNothing(ops, s, t, 0, 0);
    forall n, i | 0 <= n < |s.h.meta| && HeldBy(CellAt(s.h, n, i)).Some?
      ensures var u := HeldBy(CellAt(s.h, n, i)).value;
              u < |ops| && HolderOK(ops[u], s'.pcs[u], s.h, n, i)
    {
      var u := HeldBy(CellAt(s.h, n, i)).value;
      assert HolderOK(ops[u], s.pcs[u], s.h, n, i);
    }
  }

  lemma RootSwapOK(ops: seq<Call>, s: State, s': State, t: nat, f: Heap)
    requires Inv(ops, s) && t < |ops| && RootSwapStep(ops, s, s', t, f)
    ensures Inv(ops, s') && Guarantee(s.h, s'.h, t)
  {
    var r, out := s.pcs[t].job.r, s.pcs[t].out;
    assert PcOK(ops[t], s.h, s.root, t, s.pcs[t]);
    if s'.h != s.h {
      var pairs := if ops[t].Drain? then [] else out;
      AppendWF(s.h, f, [], pairs);
      AppendGuarantee(s.h, f, [], pairs, t);
      assert s'.h.meta[|s.h.meta|] == f.meta[0];
    }
    assert Guarantee(s.h, s'.h, t);
    forall u | 0 <= u < |ops| ensures PcOK(ops[u], s'.h, s'.root, u, s'.pcs[u]) {
      if u != t {
        PcStays(ops[u], s.h, s'.h, s.root, s'.root, t, u, s.pcs[u]);
      }
    }
    RootSwapHolders(ops, s, s', t);
  }

  lemma RootSwapHolders(ops: seq<Call>, s: State, s': State, t: nat)
    requires Inv(ops, s) && t < |ops| && s.pcs[t].Scan? && s.pcs[t].job.Whole?
    requires s'.pcs == s.pcs[t := Returned] && s'.root.lock == None && Extends(s.h, s'.h)
    requires forall m, j :: 0 <= m < |s.h.meta| ==> CellAt(s'.h, m, j) == CellAt(s.h, m, j)
    requires forall m, j :: |s.h.meta| <= m < |s'.h.meta| ==> HeldBy(CellAt(s'.h, m, j)).None?
    ensures HoldersOK(ops, s')
  {
    forall n, i | 0 <= n < |s'.h.meta| && HeldBy(CellAt(s'.h, n, i)).Some?
      ensures var u := HeldBy(CellAt(s'.h, n, i)).value;
              u < |ops| && HolderOK(ops[u], s'.pcs[u], s'.h, n, i)
    {
      var u := HeldBy(CellAt(s.h, n, i)).value;
      assert HolderOK(ops[u], s.pcs[u], s.h, n, i);
      SlotStays(s.h, s'.h, n, ops[u].key);
    }
  }

  /** The invariant is kept by every step, and the step obeys the slot lifecycle. */
  lemma NextOK(ops: seq<Call>, s: State, s': State, t: nat)
    requires Inv(ops, s) && Next(ops, s, s', t)
    ensures Inv(ops, s') && Guarantee(s.h, s'.h, t)
  {
    if pc :| ReadStep(ops, s, t, pc) && s' == s.(pcs := s.pcs[t := pc]) {
      ReadInv(ops, s, t, pc);
    } else if CasStep(ops, s, s', t) {
      CasOK(ops, s, s', t);
    } else if f :| PublishStep(ops, s, s', t, f) {
      PublishOK(ops, s, s', t, f);
    } else if SubFreezeStep(ops, s, s', t) {
      SubFreezeOK(ops, s, s', t);
    } else if f :| SubSwapStep(ops, s, s', t, f) {
      SubSwapOK(ops, s, s', t, f);
    } else if RootFreezeStep(ops, s, s', t) {
      RootFreezeOK(ops, s, s', t);
    } else {
      var f :| RootSwapStep(ops, s, s', t, f);
      RootSwapOK(ops, s, s', t, f);
    }
  }

  lemma InitOK(ops: seq<Call>, s: State)
    requires Init(ops, s)
    ensures Inv(ops, s)
  {
    forall n, i | 0 <= n < |s.h.meta| ensures HeldBy(CellAt(s.h, n, i)).None? {
      assert AtRest(s.h, n) && NodeOK(s.h, n);
    }
  }

  /** The call that makes the step after state `i`. */
  lemma RunStep(ops: seq<Call>, run: seq<State>, i: nat) returns (t: nat)
    requires Run(ops, run) && i + 1 < |run|
    ensures Next(ops, run[i], run[i + 1], t)
  {
    assert StepAt(ops, run, i);
    t :| Next(ops, run[i], run[i + 1], t);
  }

  /** Every state of every run satisfies the invariant. */
  lemma {:induction false} RunOK(ops: seq<Call>, run: seq<State>, i: nat)
    requires Run(ops, run) && i < |run|
    ensures Inv(ops, run[i])
  {
    if i == 0 {
      InitOK(ops, run[0]);
    } else {
      RunOK(ops, run, i - 1);
      var t := RunStep(ops, run, i - 1);
      NextOK(ops, run[i - 1], run[i], t);
    }
  }

  /** The root under which a call rebuilds a subtree. */
  function SubRoot(pc: PC): Option<nat> {
    match pc
    case SubLoad(r) => Some(r)
    case SubArmed(r, _) => Some(r)
    case Scan(Subtree(r, _), _, _) => Some(r)
    case _ => None
  }

  /** A call rebuilding a subtree goes on doing so, or is done with it. */
  lemma SubRootStays(ops: seq<Call>, s: State, s': State, t: nat)
    requires Inv(ops, s) && Next(ops, s, s', t) && SubRoot(s.pcs[t]).Some?
    ensures IsRoot(s.h, SubRoot(s.pcs[t]).value)
    ensures SubRoot(s'.pcs[t]) == SubRoot(s.pcs[t]) || s'.pcs[t] == Confirm(SubRoot(s.pcs[t]).value)
  {
    assert PcOK(ops[t], s.h, s.root, t, s.pcs[t]);
  }

  /** How a call comes to be traversing: by a visit, or by having frozen a pointer. */
  lemma ScanSteps(ops: seq<Call>, s: State, s': State, t: nat)
    requires Inv(ops, s) && Next(ops, s, s', t) && s'.pcs[t].Scan? && !s'.pcs[t].job.Look?
    ensures s.pcs[t].Scan? || s.pcs[t].SubArmed? || s.pcs[t].RootArmed?
    ensures s.pcs[t].Scan? ==> s.pcs[t].stack != [] && s'.h == s.h && s'.pcs[t] == AfterVisit(s.h, s.pcs[t])
    ensures s.pcs[t].SubArmed? ==> SubFreezeStep(ops, s, s', t)
    ensures s.pcs[t].RootArmed? ==> RootFreezeStep(ops, s, s', t)
    ensures PcOK(ops[t], s.h, s.root, t, s.pcs[t])
  {
    assert PcOK(ops[t], s.h, s.root, t, s.pcs[t]);
  }
}
