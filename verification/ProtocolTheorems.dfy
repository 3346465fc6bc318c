/** What the protocol guarantees over whole runs, apart from the fate of single keys. */
module ProtocolTheorems {
  import opened Wrappers
  import opened Keys
  import opened NodeHeap
  import opened Protocol
  import opened SlotLifecycle
  import opened ProtocolInvariant
  import opened ProtocolSteps
  import opened StepLookups

  // ---------------------------------------------------------------------------------
  // Traversals

  /** Whatever interleaves with it, a traversal has yielded strictly ascending keys; and the
      snapshot of a subtree only holds keys that belong under its slot. */
  lemma TraversalsAscend(ops: seq<Call>, run: seq<State>, i: nat, t: nat)
    requires Run(ops, run) && i < |run| && t < |run[i].pcs| && run[i].pcs[t].Scan?
    ensures Ascending(run[i].pcs[t].out)
    ensures var s, pc := run[i], run[i].pcs[t];
            pc.job.Subtree? ==>
              t < |ops| && IsKeyed(ops[t]) &&
              AllInRegion(s.h.meta, [At(pc.job.r, Slot(s.h.meta, pc.job.r, ops[t].key))], pc.out)
  {
    RunOK(ops, run, i);
    assert PcOK(ops[t], run[i].h, run[i].root, t, run[i].pcs[t]);
  }

  // ---------------------------------------------------------------------------------
  // Freezing

  /** The call whose freeze of the root or of a first child is in force. */
  ghost predicate FreezesRoot(pc: PC, r: nat) { pc.Scan? && pc.job == Whole(r) }

  ghost predicate FreezesChild(call: Call, pc: PC, h: Heap, r: nat, i: nat) {
    IsKeyed(call) && pc.Scan? && pc.job.Subtree? && pc.job.r == r && i == Slot(h.meta, r, call.key)
  }

  ghost predicate IsWhole(pc: PC) { pc.Scan? && pc.job.Whole? }

  ghost predicate IsFrozen(x: Cell) { x.Child? && x.ptr.lock.Some? }

  /** A frozen pointer has exactly one owner, and an owner's pointer is frozen: the final
      compare-and-swap of every rebuild, drain and clear finds the pointer it expects. */
  lemma FreezeExclusive(ops: seq<Call>, run: seq<State>, i: nat)
    requires Run(ops, run) && i < |run|
    ensures |run[i].pcs| == |ops|
    ensures run[i].root.lock.Some? <==>
            exists t :: 0 <= t < |ops| && FreezesRoot(run[i].pcs[t], run[i].root.id)
    ensures forall t :: 0 <= t < |ops| && IsWhole(run[i].pcs[t]) ==> RootFrozen(run[i], run[i].pcs[t].job.r)
    ensures forall t, u :: 0 <= t < |ops| && 0 <= u < |ops| && IsWhole(run[i].pcs[t]) && IsWhole(run[i].pcs[u]) ==> t == u
    ensures forall t :: 0 <= t < |ops| && run[i].pcs[t].Scan? && run[i].pcs[t].job.Subtree? ==>
              IsKeyed(ops[t]) && Frozen(run[i].h, run[i].pcs[t].job.r, ops[t].key, run[i].pcs[t].job.c)
    ensures forall t, u, r, j ::
              (0 <= t < |ops| && 0 <= u < |ops|
               && FreezesChild(ops[t], run[i].pcs[t], run[i].h, r, j)
               && FreezesChild(ops[u], run[i].pcs[u], run[i].h, r, j)) ==> t == u
    ensures forall r, j :: 0 <= r < |run[i].h.meta| && IsFrozen(CellAt(run[i].h, r, j)) ==>
              exists t :: 0 <= t < |ops| && FreezesChild(ops[t], run[i].pcs[t], run[i].h, r, j)
  {
    RunOK(ops, run, i);
    var s := run[i];
    forall t | 0 <= t < |ops|
      ensures s.pcs[t].Scan? && s.pcs[t].job.Whole? ==> s.root == Ptr(s.pcs[t].job.r, Some(t))
      ensures s.pcs[t].Scan? && s.pcs[t].job.Subtree? ==>
                IsKeyed(ops[t]) && CellFor(s.h, s.pcs[t].job.r, ops[t].key).Child?
                && CellFor(s.h, s.pcs[t].job.r, ops[t].key).ptr == Ptr(s.pcs[t].job.c, Some(t))
    {
      assert PcOK(ops[t], s.h, s.root, t, s.pcs[t]);
    }
    if s.root.lock.Some? {
      assert FreezesRoot(s.pcs[s.root.lock.value], s.root.id);
    }
    forall r, j | 0 <= r < |s.h.meta| && IsFrozen(CellAt(s.h, r, j))
      ensures exists t :: 0 <= t < |ops| && FreezesChild(ops[t], s.pcs[t], s.h, r, j)
    {
      var t := HeldBy(CellAt(s.h, r, j)).value;
      assert HolderOK(ops[t], s.pcs[t], s.h, r, j);
      assert FreezesChild(ops[t], s.pcs[t], s.h, r, j);
    }
  }

  /** While a call has the root or a first child frozen, no other call's step changes that
      pointer. */
  lemma FrozenUntouched(ops: seq<Call>, run: seq<State>, i: nat, t: nat)
    requires Run(ops, run) && i + 1 < |run| && t < |ops|
    requires |run[i].pcs| == |ops| == |run[i + 1].pcs|
    requires run[i].pcs[t].Scan? && run[i + 1].pcs[t] == run[i].pcs[t]
    ensures run[i].pcs[t].job.Whole? ==> run[i + 1].root == run[i].root
    ensures run[i].pcs[t].job.Subtree? && IsKeyed(ops[t]) ==>
              CellFor(run[i + 1].h, run[i].pcs[t].job.r, ops[t].key) == CellFor(run[i].h, run[i].pcs[t].job.r, ops[t].key)
  {
    RunOK(ops, run, i);
    RunOK(ops, run, i + 1);
    var s, s' := run[i], run[i + 1];
    assert PcOK(ops[t], s.h, s.root, t, s.pcs[t]);
    assert PcOK(ops[t], s'.h, s'.root, t, s'.pcs[t]);
    if s.pcs[t].job.Subtree? {
      var r, k := s.pcs[t].job.r, ops[t].key;
      var u := RunStep(ops, run, i);
      NextOK(ops, s, s', u);
      SlotStays(s.h, s'.h, r, k);
      assert SlotStep(true, CellFor(s.h, r, k), CellFor(s'.h, r, k), u);
    }
  }

  /** A rebuild of the whole tree never has to give up because its snapshot is unsorted. */
  lemma SnapshotAccepted(ops: seq<Call>, run: seq<State>, i: nat, t: nat)
    requires Run(ops, run) && i + 1 < |run| && t < |ops| && ops[t] == Rebuild
    requires |run[i].pcs| == |ops| == |run[i + 1].pcs|
    requires run[i].pcs[t].Scan? && run[i].pcs[t].stack == [] && run[i].pcs[t].out != []
    requires run[i + 1].pcs[t] == Returned
    ensures run[i + 1].root == Ptr(|run[i].h.meta|, None)
    ensures forall p :: p in run[i].pcs[t].out <==>
              Lookup(run[i + 1].h, run[i + 1].root.id, p.key) == Some(p.val)
  {
    RunOK(ops, run, i);
    var s := run[i];
    assert PcOK(ops[t], s.h, s.root, t, s.pcs[t]);
    var u := RunStep(ops, run, i);
    assert u == t;
    assert s.pcs[t].job.Whole?;
    var f :| RootSwapStep(ops, s, run[i + 1], t, f);
  }

  /** A subtree rebuild that has frozen a first child ends by swapping in a tree that binds
      exactly its snapshot, and gives the child free when that has less than two entries. */
  lemma SubtreeSwapped(ops: seq<Call>, run: seq<State>, i: nat, t: nat, p: Pair)
    requires Run(ops, run) && i + 1 < |run| && t < |ops|
    requires |run[i].pcs| == |ops| == |run[i + 1].pcs|
    requires run[i].pcs[t].Scan? && run[i].pcs[t].job.Subtree? && !run[i + 1].pcs[t].Scan?
    ensures var pc, k := run[i].pcs[t], if IsKeyed(ops[t]) then ops[t].key else p.key;
            var y := CellFor(run[i + 1].h, pc.job.r, k);
            && IsKeyed(ops[t]) && y.Child?
            && y.ptr == Ptr(if |pc.out| <= 1 then pc.job.c else |run[i].h.meta|, None)
            && (|pc.out| > 1 ==> (p in pc.out <==> Lookup(run[i + 1].h, |run[i].h.meta|, p.key) == Some(p.val)))
  {
    RunOK(ops, run, i);
    var s := run[i];
    assert PcOK(ops[t], s.h, s.root, t, s.pcs[t]);
    var u := RunStep(ops, run, i);
    assert u == t && s.pcs[t].stack == [];
    var f :| SubSwapStep(ops, s, run[i + 1], t, f);
    var Subtree(r, c) := s.pcs[t].job;
    SlotInRange(s.h, r, ops[t].key);
    if |s.pcs[t].out| > 1 {
      SwappedLookup(s.h, f, r, ops[t].key, s.pcs[t].out, CellFor(s.h, r, ops[t].key).stale, p.key);
    }
  }

  lemma SwappedLookup(h: Heap, f: Heap, r: nat, key: Key, out: seq<Pair>, stale: Option<Pair>, k: Key)
    requires WF(h) && r < |h.meta| && InHeap(h, r, key)
    requires Fragment(h, f, [At(r, Slot(h.meta, r, key))], out)
    ensures var g := Store(h, f, r, key, Child(Ptr(|h.meta|, None), stale));
            && Lookup(g, |h.meta|, k) == Lookup(Append(h, f), |h.meta|, k)
            && CellFor(g, r, key) == Child(Ptr(|h.meta|, None), stale)
  {
    var a, g := Append(h, f), Store(h, f, r, key, Child(Ptr(|h.meta|, None), stale));
    AppendWF(h, f, [At(r, Slot(h.meta, r, key))], out);
    LookupUnchanged(a, g, |h.meta|, k);
  }

  /** A drain or a clear that has frozen the root ends by swapping in an empty tree. */
  lemma DrainEmpties(ops: seq<Call>, run: seq<State>, i: nat, t: nat, k: Key)
    requires Run(ops, run) && i + 1 < |run| && t < |ops| && ops[t] == Drain
    requires |run[i].pcs| == |ops| == |run[i + 1].pcs|
    requires run[i].pcs[t].Scan? && run[i + 1].pcs[t] == Returned
    ensures run[i + 1].root == Ptr(|run[i].h.meta|, None)
    ensures Lookup(run[i + 1].h, run[i + 1].root.id, k) == None
  {
    RunOK(ops, run, i);
    var s := run[i];
    assert PcOK(ops[t], s.h, s.root, t, s.pcs[t]);
    var u := RunStep(ops, run, i);
    assert u == t && s.pcs[t].job.Whole? && s.pcs[t].stack == [];
    var f :| RootSwapStep(ops, s, run[i + 1], t, f);
    FragmentAnswers(s.h, f, [], [], k, {None});
  }

  /** In state `j` call `t` is about to make the final swap of a sweep, and makes it next. */
  ghost predicate SweepEnds(run: seq<State>, j: nat, t: nat) {
    && j + 1 < |run| && t < |run[j].pcs| && t < |run[j + 1].pcs|
    && IsWhole(run[j].pcs[t]) && run[j].pcs[t].stack == [] && run[j + 1].pcs[t] == Returned
  }

  ghost predicate Swept(run: seq<State>, i: nat, t: nat) { exists j :: 0 <= j < i && SweepEnds(run, j, t) }

  /** What the only sweep relies on before it has frozen the root. */
  ghost predicate Undisturbed(ops: seq<Call>, run: seq<State>, i: nat, t: nat)
    requires i < |run|
  {
    && |run[i].pcs| == |ops| && t < |ops|
    && match run[i].pcs[t]
       case Ready => run[i].root.lock == None
       case RootArmed(r) => run[i].root == Ptr(r, None)
       case Returned => Swept(run, i, t)
       case _ => true
  }

  ghost predicate OnlySweep(ops: seq<Call>, t: nat) {
    t < |ops| && IsSweep(ops[t]) && forall u :: 0 <= u < |ops| && u != t ==> !IsSweep(ops[u])
  }

  lemma UndisturbedStep(ops: seq<Call>, run: seq<State>, i: nat, u: nat, t: nat)
    requires i + 1 < |run| && Inv(ops, run[i]) && Next(ops, run[i], run[i + 1], u) && OnlySweep(ops, t)
    requires |ops| == |run[i + 1].pcs| && Undisturbed(ops, run, i, t)
    ensures Undisturbed(ops, run, i + 1, t)
  {
    var s, s' := run[i], run[i + 1];
    assert PcOK(ops[t], s.h, s.root, t, s.pcs[t]);
    assert PcOK(ops[u], s.h, s.root, u, s.pcs[u]);
    if u != t {
      assert s'.root == s.root && s'.pcs[t] == s.pcs[t];
      assert Swept(run, i, t) ==> Swept(run, i + 1, t);
    } else if s'.pcs[t] == Returned {
      assert SweepEnds(run, i, t);
    }
  }

  lemma {:induction false} UndisturbedHolds(ops: seq<Call>, run: seq<State>, i: nat, t: nat)
    requires Run(ops, run) && i < |run| && OnlySweep(ops, t)
    ensures Undisturbed(ops, run, i, t)
  {
    RunOK(ops, run, i);
    if i == 0 {
      assert run[0].pcs[t] == Ready;
    } else {
      UndisturbedHolds(ops, run, i - 1, t);
      RunOK(ops, run, i - 1);
      var u := RunStep(ops, run, i - 1);
      UndisturbedStep(ops, run, i - 1, u, t);
    }
  }

  /** A rebuild, drain or clear that no other of these calls competes with has not returned
      without making its final swap. */
  lemma LoneSweepSwaps(ops: seq<Call>, run: seq<State>, i: nat, t: nat)
    requires Run(ops, run) && i < |run| && OnlySweep(ops, t) && t < |run[i].pcs| && run[i].pcs[t] == Returned
    ensures Swept(run, i, t)
  {
    UndisturbedHolds(ops, run, i, t);
  }

  // ---------------------------------------------------------------------------------
  // The life of a slot

  /** `b` is a possible later state of a slot in state `a`. */
  ghost predicate Later(a: Cell, b: Cell) {
    && Rank(a) <= Rank(b)
    && (Rank(a) == Rank(b) && !a.Child? ==> a == b)
    && (PairOf(a).Some? ==> PairOf(b) == PairOf(a))
  }

  lemma StepGuarantee(ops: seq<Call>, run: seq<State>, i: nat) returns (t: nat)
    requires Run(ops, run) && i + 1 < |run|
    ensures Guarantee(run[i].h, run[i + 1].h, t)
  {
    RunOK(ops, run, i);
    t := RunStep(ops, run, i);
    NextOK(ops, run[i], run[i + 1], t);
  }

  lemma StepLater(ops: seq<Call>, run: seq<State>, i: nat, n: nat, k: nat)
    requires Run(ops, run) && i + 1 < |run|
    ensures Extends(run[i].h, run[i + 1].h)
    ensures n < |run[i].h.meta| ==> Later(CellAt(run[i].h, n, k), CellAt(run[i + 1].h, n, k))
  {
    var t := StepGuarantee(ops, run, i);
    if n < |run[i].h.meta| {
      assert SlotStep(run[i].h.meta[n].path == [], CellAt(run[i].h, n, k), CellAt(run[i + 1].h, n, k), t);
    }
  }

  /** The states of a slot over a run, in order. */
  lemma {:induction false} SlotHistory(ops: seq<Call>, run: seq<State>, i: nat, j: nat, n: nat, k: nat)
    requires Run(ops, run) && i <= j < |run| && n < |run[i].h.meta|
    ensures n < |run[j].h.meta| && Later(CellAt(run[i].h, n, k), CellAt(run[j].h, n, k))
    decreases j - i
  {
    if i < j {
      StepLater(ops, run, i, n, k);
      SlotHistory(ops, run, i + 1, j, n, k);
    }
  }

  /** A slot never re-enters DATA, and its inline pair never changes once published. */
  lemma NoReentry(ops: seq<Call>, run: seq<State>, i: nat, j: nat, l: nat, n: nat, k: nat)
    requires Run(ops, run) && i <= j <= l < |run| && n < |run[i].h.meta|
    requires CellAt(run[i].h, n, k).Data? && CellAt(run[l].h, n, k).Data?
    ensures CellAt(run[j].h, n, k) == CellAt(run[i].h, n, k) == CellAt(run[l].h, n, k)
  {
    SlotHistory(ops, run, i, j, n, k);
    SlotHistory(ops, run, j, l, n, k);
  }

  /** The pair a call cloned before its CAS is the pair of the slot when the CAS succeeds,
      and the child installed over that slot binds it (unless it is being replaced). */
  lemma ClonedPairIsCurrent(ops: seq<Call>, run: seq<State>, i: nat, t: nat, f: Heap)
    requires Run(ops, run) && i + 1 < |run|
    requires t < |ops| == |run[i].pcs| && PublishStep(ops, run[i], run[i + 1], t, f)
    requires run[i].pcs[t].seen.SawData?
    ensures var s, pc, k := run[i], run[i].pcs[t], ops[t].key;
            && CellFor(s.h, pc.cur, k) == Writing(t, WasData(pc.seen.pair))
            && Lookup(run[i + 1].h, pc.cur, k) == Some(ops[t].val)
            && (pc.seen.pair.key != k ==>
                  Lookup(run[i + 1].h, pc.cur, pc.seen.pair.key) == Some(pc.seen.pair.val))
  {
    RunOK(ops, run, i);
    var s, pc, k := run[i], run[i].pcs[t], ops[t].key;
    assert PcOK(ops[t], s.h, s.root, t, pc);
    var x, entry := CellFor(s.h, pc.cur, k), Pair(k, ops[t].val);
    SlotInRange(s.h, pc.cur, k);
    var path := s.h.meta[pc.cur].path + [At(pc.cur, Slot(s.h.meta, pc.cur, k))];
    assert path[|path| - 1] == At(pc.cur, Slot(s.h.meta, pc.cur, k));
    assert InRegion(s.h.meta, path, pc.seen.pair.key);
    LinkedLookup(s.h, f, ChildPairs(pc.seen, entry), pc.cur, k, PairOf(x), k);
    ChildAnswers(s.h, f, path, pc.seen, entry, k);
    LinkedLookup(s.h, f, ChildPairs(pc.seen, entry), pc.cur, k, PairOf(x), pc.seen.pair.key);
    ChildAnswers(s.h, f, path, pc.seen, entry, pc.seen.pair.key);
  }

  // ---------------------------------------------------------------------------------
  // Failed compare-and-swaps

  /** How many of the three states a CAS can start from the slot has left behind. */
  function Spent(x: Cell): (r: nat)
    ensures r <= 3
  {
    match x
    case Empty => 0
    case Writing(_, WasEmpty) => 1
    case Data(_) => 1
    case Tomb(_) => 2
    case _ => 3
  }

  function SeenSpent(seen: Seen): nat {
    match seen
    case SawEmpty => 0
    case SawData(_) => 1
    case SawTomb => 2
    case SawChild => 3
  }

  /** Call `t` is about to try a CAS on slot `j` of node `n`. */
  ghost predicate ArmedAt(call: Call, pc: PC, h: Heap, n: nat, j: nat) {
    && IsKeyed(call) && pc.Armed? && !pc.seen.SawChild?
    && pc.cur == n && j == Slot(h.meta, n, call.key)
  }

  /** The step after state `i` is a failed CAS of call `t` on slot `j` of node `n`. */
  ghost predicate FailsAt(ops: seq<Call>, run: seq<State>, i: nat, t: nat, n: nat, j: nat) {
    && i + 1 < |run| && t < |ops| == |run[i].pcs| == |run[i + 1].pcs|
    && ArmedAt(ops[t], run[i].pcs[t], run[i].h, n, j) && run[i + 1].pcs[t].Walk?
  }

  ghost function Failures(ops: seq<Call>, run: seq<State>, upTo: nat, t: nat, n: nat, j: nat): nat {
    if upTo == 0 then 0
    else Failures(ops, run, upTo - 1, t, n, j) + if FailsAt(ops, run, upTo - 1, t, n, j) then 1 else 0
  }

  lemma SpentGrows(ops: seq<Call>, run: seq<State>, i: nat, n: nat, j: nat)
    requires Run(ops, run) && i + 1 < |run|
    ensures Spent(CellAt(run[i].h, n, j)) <= Spent(CellAt(run[i + 1].h, n, j))
  {
    StepLater(ops, run, i, n, j);
    RunOK(ops, run, i);
  }

  ghost predicate SpentOK(call: Call, pc: PC, h: Heap, n: nat, j: nat, failures: nat) {
    && failures <= Spent(CellAt(h, n, j))
    && (ArmedAt(call, pc, h, n, j) ==> failures <= SeenSpent(pc.seen) <= Spent(CellAt(h, n, j)))
  }

  lemma {:induction false} FailuresSpend(ops: seq<Call>, run: seq<State>, i: nat, t: nat, n: nat, j: nat)
    requires Run(ops, run) && i < |run| && t < |ops|
    ensures |run[i].pcs| == |ops|
    ensures SpentOK(ops[t], run[i].pcs[t], run[i].h, n, j, Failures(ops, run, i, t, n, j))
  {
    RunOK(ops, run, i);
    if i > 0 {
      FailuresSpend(ops, run, i - 1, t, n, j);
      FailureSpends(ops, run, i - 1, t, n, j, Failures(ops, run, i - 1, t, n, j));
    }
  }

  lemma FailureSpends(ops: seq<Call>, run: seq<State>, i: nat, t: nat, n: nat, j: nat, failures: nat)
    requires Run(ops, run) && i + 1 < |run| && t < |ops|
    requires |run[i].pcs| == |ops| && SpentOK(ops[t], run[i].pcs[t], run[i].h, n, j, failures)
    ensures |run[i + 1].pcs| == |ops|
    ensures SpentOK(ops[t], run[i + 1].pcs[t], run[i + 1].h, n, j,
                    failures + if FailsAt(ops, run, i, t, n, j) then 1 else 0)
  {
    RunOK(ops, run, i);
    RunOK(ops, run, i + 1);
    SpentGrows(ops, run, i, n, j);
    var u := RunStep(ops, run, i);
    if u == t {
      OwnFailure(ops, run[i], run[i + 1], t, n, j);
    } else {
      OthersFailure(ops, run[i], run[i + 1], u, t, n, j);
    }
  }

  lemma OthersFailure(ops: seq<Call>, s: State, s': State, u: nat, t: nat, n: nat, j: nat)
    requires Inv(ops, s) && Next(ops, s, s', u) && t < |ops| && t != u
    ensures s'.pcs[t] == s.pcs[t]
    ensures ArmedAt(ops[t], s'.pcs[t], s'.h, n, j) ==> ArmedAt(ops[t], s.pcs[t], s.h, n, j)
  {
    NextOK(ops, s, s', u);
    assert PcOK(ops[t], s.h, s.root, t, s.pcs[t]);
    if IsKeyed(ops[t]) && n < |s.h.meta| {
      SlotStays(s.h, s'.h, n, ops[t].key);
    }
  }

  /** One step of the call: arming reads the present state, failing shows that it is gone. */
  lemma OwnFailure(ops: seq<Call>, s: State, s': State, t: nat, n: nat, j: nat)
    requires Inv(ops, s) && Next(ops, s, s', t)
    requires ArmedAt(ops[t], s.pcs[t], s.h, n, j) ==>
               SeenSpent(s.pcs[t].seen) <= Spent(CellAt(s.h, n, j))
    ensures ArmedAt(ops[t], s.pcs[t], s.h, n, j) && s'.pcs[t].Walk? ==>
              SeenSpent(s.pcs[t].seen) < Spent(CellAt(s.h, n, j)) && s'.h == s.h
    ensures ArmedAt(ops[t], s'.pcs[t], s'.h, n, j) ==>
              s'.h == s.h && SeenSpent(s'.pcs[t].seen) == Spent(CellAt(s.h, n, j))
              && !ArmedAt(ops[t], s.pcs[t], s.h, n, j)
  {
    assert PcOK(ops[t], s.h, s.root, t, s.pcs[t]);
  }

  /** Over a whole run, retries included, a call fails at most three CAS attempts on any one
      slot: every failure means that the slot has left a state for good. */
  lemma FailedCasBound(ops: seq<Call>, run: seq<State>, t: nat, n: nat, j: nat)
    requires Run(ops, run) && t < |ops|
    ensures Failures(ops, run, |run| - 1, t, n, j) <= 3
  {
    FailuresSpend(ops, run, |run| - 1, t, n, j);
  }
}
