/** No lost insert: once an insert has returned, its key stays bound in the current tree,
    however rebuilds and other writers interleave. */
module NoLostInsert {
  import opened Wrappers
  import opened Keys
  import opened NodeHeap
  import opened Protocol
  import opened ScanOrder
  import opened SlotLifecycle
  import opened ProtocolInvariant
  import opened ProtocolSteps
  import opened StepLookups

  /** The values that calls supply for `k`. */
  function Supplied(ops: seq<Call>, k: Key): set<Option<Value>> {
    set t | 0 <= t < |ops| && IsWriter(ops[t]) && ops[t].key == k :: Some(ops[t].val)
  }

  ghost predicate NeverRemoved(ops: seq<Call>, k: Key) {
    forall t :: 0 <= t < |ops| ==> ops[t] != Remove(k)
  }

  /** No call clears or drains. */
  ghost predicate NeverDrained(ops: seq<Call>) {
    forall t :: 0 <= t < |ops| ==> ops[t] != Drain
  }

  /** The step of call `t` swaps in the empty root of a drain whose snapshot contains `k`. */
  ghost predicate DrainTakes(ops: seq<Call>, s: State, s': State, t: nat, k: Key, answers: set<Option<Value>>) {
    && t < |ops| == |s.pcs| == |s'.pcs| && ops[t].Drain?
    && s.pcs[t].Scan? && s.pcs[t].job == Whole(s.root.id) && s.pcs[t].stack == []
    && s'.pcs[t].Returned? && s'.root.id != s.root.id
    && Captured(s.pcs[t].out, k, answers)
  }

  ghost predicate TakenBy(ops: seq<Call>, run: seq<State>, j: nat, u: nat, k: Key, answers: set<Option<Value>>) {
    j + 1 < |run| && DrainTakes(ops, run[j], run[j + 1], u, k, answers)
  }

  /** After state `j`, some drain takes `k` out of the map. */
  ghost predicate TakenAt(ops: seq<Call>, run: seq<State>, j: nat, k: Key, answers: set<Option<Value>>) {
    exists u :: TakenBy(ops, run, j, u, k, answers)
  }

  /** Before state `i`, but after call `t` had returned, some drain took `k` out. */
  ghost predicate Drained(ops: seq<Call>, run: seq<State>, i: nat, t: nat, k: Key) {
    exists j :: 0 <= j < i && TakenAt(ops, run, j, k, Supplied(ops, k)) && t < |run[j].pcs| && run[j].pcs[t] == Returned
  }

  /** The traversal has not yet passed the slot of `k`, and will find it bound there. */
  ghost predicate Ahead(h: Heap, stack: seq<Frame>, k: Key, answers: set<Option<Value>>) {
    |stack| > 0 &&
    var s := Slot(h.meta, stack[0].node, k);
    || (stack[0].next <= s && Answers(h, stack[0].node, k, answers))
    || (|stack| > 1 && s + 1 == stack[0].next && Ahead(h, stack[1..], k, answers))
  }

  /** The snapshot a traversal takes will contain `k`. */
  ghost predicate Good(h: Heap, stack: seq<Frame>, out: seq<Pair>, k: Key, answers: set<Option<Value>>) {
    Captured(out, k, answers) || Ahead(h, stack, k, answers)
  }

  /** No call can move the answer for `k` out of `answers`, which say that it is bound. */
  ghost predicate Keeps(ops: seq<Call>, k: Key, answers: set<Option<Value>>) {
    None !in answers && forall t :: 0 <= t < |ops| ==> Allowed(ops[t], k, answers)
  }

  /** `k` is bound under root `r`, and no rebuild of a subtree of `r` can lose it. */
  ghost predicate Secure(ops: seq<Call>, s: State, k: Key, r: nat, answers: set<Option<Value>>) {
    && |ops| == |s.pcs|
    && Answers(s.h, r, k, answers)
    && forall u :: 0 <= u < |ops| && Rebuilds(ops[u], s.pcs[u], s.h, r, k) ==>
         Good(s.h, s.pcs[u].stack, s.pcs[u].out, k, answers)
  }

  /** `k` is bound in the current tree, and no rebuild of the whole tree can lose it either. */
  ghost predicate SecureRoot(ops: seq<Call>, s: State, k: Key, answers: set<Option<Value>>) {
    && Secure(ops, s, k, s.root.id, answers)
    && forall u :: 0 <= u < |ops| && s.pcs[u].Scan? && s.pcs[u].job.Whole? ==>
         Good(s.h, s.pcs[u].stack, s.pcs[u].out, k, answers)
  }

  /** Call `t` held a slot in state `j`, and has not started over since: it is about to write,
      or has written. */
  ghost predicate Wrote(run: seq<State>, j: nat, i: nat, t: nat) {
    && j <= i < |run| && t < |run[j].pcs| && run[j].pcs[t].Owning?
    && forall l :: j <= l <= i ==> Onward(run, l, t)
  }

  ghost predicate Onward(run: seq<State>, l: nat, t: nat) {
    l < |run| && t < |run[l].pcs| && !run[l].pcs[t].Ready? && !run[l].pcs[t].Walk?
  }

  /** An insert, which returns only after a write, or a `get_or_insert` that has written. */
  ghost predicate Writes(ops: seq<Call>, run: seq<State>, i: nat, t: nat, k: Key) {
    && t < |ops| && IsWriter(ops[t]) && ops[t].key == k
    && (ops[t].Insert? || exists j :: Wrote(run, j, i, t))
  }

  /** What a write of `k` has achieved at each point of its program. */
  ghost predicate Achieved(ops: seq<Call>, s: State, k: Key, pc: PC) {
    match pc
    case Validate(r, Some(c)) => Answers(s.h, c, k, Supplied(ops, k))
    case Validate(r, None) => Secure(ops, s, k, r, Supplied(ops, k))
    case SubLoad(r) => Secure(ops, s, k, r, Supplied(ops, k))
    case SubArmed(r, c) => Secure(ops, s, k, r, Supplied(ops, k))
    case Scan(Subtree(r, c), _, _) => Secure(ops, s, k, r, Supplied(ops, k))
    case Confirm(r) => Secure(ops, s, k, r, Supplied(ops, k))
    case Returned => SecureRoot(ops, s, k, Supplied(ops, k))
    case _ => true
  }

  /** What all writes of `k` have achieved, but for those that a drain has undone since. */
  ghost predicate KeyInv(ops: seq<Call>, run: seq<State>, i: nat, k: Key)
    requires i < |run|
  {
    && |ops| == |run[i].pcs|
    && forall t: nat :: Writes(ops, run, i, t, k) ==>
         Achieved(ops, run[i], k, run[i].pcs[t]) || Drained(ops, run, i, t, k)
  }

  // ---------------------------------------------------------------------------------
  // Snapshots in progress stay good

  /** No step loses `k` below a node that is not a root, or under a root that is secure. */
  lemma StepHolds(ops: seq<Call>, s: State, s': State, t: nat, m: nat, k: Key, answers: set<Option<Value>>)
    requires Inv(ops, s) && Next(ops, s, s', t) && Keeps(ops, k, answers) && m < |s.h.meta|
    requires s.h.meta[m].path != [] || Secure(ops, s, k, m, answers)
    requires Answers(s.h, m, k, answers)
    ensures Answers(s'.h, m, k, answers)
  {
    assert PcOK(ops[t], s.h, s.root, t, s.pcs[t]);
    StepAnswers(ops, s, s', t, m, k, answers);
  }

  lemma {:induction false} AheadStays(h: Heap, g: Heap, stack: seq<Frame>, k: Key, answers: set<Option<Value>>)
    requires Extends(h, g)
    requires forall j :: 0 <= j < |stack| ==> stack[j].node < |h.meta|
    requires forall j :: 0 <= j < |stack| && Answers(h, stack[j].node, k, answers) ==> Answers(g, stack[j].node, k, answers)
    requires Ahead(h, stack, k, answers)
    ensures Ahead(g, stack, k, answers)
  {
    SlotStays(h, g, stack[0].node, k);
    if |stack| > 1 && Slot(h.meta, stack[0].node, k) + 1 == stack[0].next && Ahead(h, stack[1..], k, answers) {
      AheadStays(h, g, stack[1..], k, answers);
    }
  }

  lemma GoodStays(ops: seq<Call>, s: State, s': State, t: nat, base: nat, stack: seq<Frame>, out: seq<Pair>, k: Key,
                  answers: set<Option<Value>>)
    requires Inv(ops, s) && Next(ops, s, s', t) && Keeps(ops, k, answers)
    requires ScanFrom(s.h, base, stack, out)
    requires s.h.meta[base].path != [] || Secure(ops, s, k, base, answers)
    requires Good(s.h, stack, out, k, answers)
    ensures Good(s'.h, stack, out, k, answers)
  {
    if !Captured(out, k, answers) {
      NextOK(ops, s, s', t);
      forall j | 0 <= j < |stack| && Answers(s.h, stack[j].node, k, answers)
        ensures Answers(s'.h, stack[j].node, k, answers)
      {
        if j > 0 {
          UpperFramesBelowRoots(s.h.meta, stack, j);
        }
        StepHolds(ops, s, s', t, stack[j].node, k, answers);
      }
      AheadStays(s.h, s'.h, stack, k, answers);
    }
  }

  /** Visiting the next slot takes `k` into the snapshot or leaves it ahead. */
  lemma {:induction false} AheadVisit(h: Heap, job: Job, stack: seq<Frame>, out: seq<Pair>, k: Key,
                                      answers: set<Option<Value>>)
    requires WF(h) && stack != [] && Linked(h.meta, stack)
    requires Ahead(h, stack, k, answers) && None !in answers
    ensures var pc := AfterVisit(h, Scan(job, stack, out)); Good(h, pc.stack, pc.out, k, answers)
  {
    var pc := AfterVisit(h, Scan(job, stack, out));
    var n, next := stack[0].node, stack[0].next;
    SlotInRange(h, n, k);
    if |stack| == 1 {
      var x := CellAt(h, n, next);
      if x.Data? {
        assert x.pair in pc.out;
      } else if x.Child? {
        assert pc.stack == [Frame(n, next + 1), Frame(x.ptr.id, 0)];
        assert pc.stack[1..] == [Frame(x.ptr.id, 0)];
      }
    } else {
      var upper := stack[1..];
      var pc1 := AfterVisit(h, Scan(job, upper, out));
      assert upper[..|upper| - 1] == stack[1..][..|stack| - 2];
      assert pc.stack == [stack[0]] + pc1.stack && pc.out == pc1.out;
      assert pc.stack[1..] == pc1.stack;
      if next > Slot(h.meta, n, k) {
        assert forall j :: 0 <= j < |upper| ==> upper[j] == stack[j + 1];
        AheadVisit(h, job, upper, out, k, answers);
      }
    }
  }

  lemma GoodVisit(h: Heap, job: Job, stack: seq<Frame>, out: seq<Pair>, k: Key, answers: set<Option<Value>>)
    requires WF(h) && stack != [] && Linked(h.meta, stack)
    requires Good(h, stack, out, k, answers) && None !in answers
    ensures var pc := AfterVisit(h, Scan(job, stack, out)); Good(h, pc.stack, pc.out, k, answers)
  {
    if Captured(out, k, answers) {
      var p :| p in out && p.key == k && Some(p.val) in answers;
      assert p in AfterVisit(h, Scan(job, stack, out)).out;
    } else {
      AheadVisit(h, job, stack, out, k, answers);
    }
  }

  // ---------------------------------------------------------------------------------
  // Security is kept by every step

  lemma SecureStays(ops: seq<Call>, s: State, s': State, t: nat, k: Key, r: nat, answers: set<Option<Value>>)
    requires Inv(ops, s) && Next(ops, s, s', t) && Keeps(ops, k, answers)
    requires Secure(ops, s, k, r, answers) && IsRoot(s.h, r)
    ensures Secure(ops, s', k, r, answers)
  {
    NextOK(ops, s, s', t);
    StepHolds(ops, s, s', t, r, k, answers);
    forall u | 0 <= u < |ops| && Rebuilds(ops[u], s'.pcs[u], s'.h, r, k)
      ensures Good(s'.h, s'.pcs[u].stack, s'.pcs[u].out, k, answers)
    {
      SlotStays(s.h, s'.h, r, k);
      SlotStays(s.h, s'.h, r, ops[u].key);
      if u != t {
        assert PcOK(ops[u], s.h, s.root, u, s.pcs[u]);
        GoodStays(ops, s, s', t, s.pcs[u].job.c, s.pcs[u].stack, s.pcs[u].out, k, answers);
      } else {
        SecureOwnScan(ops, s, s', t, k, r, answers);
      }
    }
  }

  lemma SecureOwnScan(ops: seq<Call>, s: State, s': State, t: nat, k: Key, r: nat, answers: set<Option<Value>>)
    requires Inv(ops, s) && Next(ops, s, s', t) && Keeps(ops, k, answers)
    requires Secure(ops, s, k, r, answers) && IsRoot(s.h, r)
    requires Inv(ops, s') && Rebuilds(ops[t], s'.pcs[t], s.h, r, k)
    ensures Good(s'.h, s'.pcs[t].stack, s'.pcs[t].out, k, answers)
  {
    ScanSteps(ops, s, s', t);
    if s.pcs[t].SubArmed? {
      var c := s.pcs[t].c;
      SlotInRange(s.h, r, k);
      StepHolds(ops, s, s', t, c, k, answers);
      assert Ahead(s'.h, [Frame(c, 0)], k, answers);
    } else {
      GoodVisit(s.h, s.pcs[t].job, s.pcs[t].stack, s.pcs[t].out, k, answers);
    }
  }

  lemma SecureRootStays(ops: seq<Call>, s: State, s': State, t: nat, k: Key, answers: set<Option<Value>>)
    requires Inv(ops, s) && Next(ops, s, s', t) && Keeps(ops, k, answers)
    requires SecureRoot(ops, s, k, answers)
    ensures SecureRoot(ops, s', k, answers) || DrainTakes(ops, s, s', t, k, answers)
  {
    NextOK(ops, s, s', t);
    if s'.root.id == s.root.id {
      SecureStays(ops, s, s', t, k, s.root.id, answers);
      forall u | 0 <= u < |ops| && s'.pcs[u].Scan? && s'.pcs[u].job.Whole?
        ensures Good(s'.h, s'.pcs[u].stack, s'.pcs[u].out, k, answers)
      {
        if u != t {
          assert PcOK(ops[u], s.h, s.root, u, s.pcs[u]);
          GoodStays(ops, s, s', t, s.root.id, s.pcs[u].stack, s.pcs[u].out, k, answers);
        } else {
          WholeOwnScan(ops, s, s', t, k, answers);
        }
      }
    } else {
      var f :| RootSwapStep(ops, s, s', t, f);
      RootSwapSecure(ops, s, s', t, f, k, answers);
    }
  }

  lemma WholeOwnScan(ops: seq<Call>, s: State, s': State, t: nat, k: Key, answers: set<Option<Value>>)
    requires Inv(ops, s) && Next(ops, s, s', t) && Keeps(ops, k, answers)
    requires SecureRoot(ops, s, k, answers) && s'.root.id == s.root.id
    requires s'.pcs[t].Scan? && s'.pcs[t].job.Whole?
    ensures Good(s'.h, s'.pcs[t].stack, s'.pcs[t].out, k, answers)
  {
    ScanSteps(ops, s, s', t);
    if s.pcs[t].RootArmed? {
      assert Ahead(s'.h, [Frame(s.root.id, 0)], k, answers);
    } else {
      GoodVisit(s.h, s.pcs[t].job, s.pcs[t].stack, s.pcs[t].out, k, answers);
    }
  }

  lemma RootSwapSecure(ops: seq<Call>, s: State, s': State, t: nat, f: Heap, k: Key, answers: set<Option<Value>>)
    requires Inv(ops, s) && t < |ops| && RootSwapStep(ops, s, s', t, f) && Keeps(ops, k, answers)
    requires SecureRoot(ops, s, k, answers) && s'.root.id != s.root.id
    ensures if ops[t].Drain? then DrainTakes(ops, s, s', t, k, answers) else SecureRoot(ops, s', k, answers)
  {
    RootSwapOK(ops, s, s', t, f);
    assert PcOK(ops[t], s.h, s.root, t, s.pcs[t]);
    forall u | 0 <= u < |ops| ensures !Rebuilds(ops[u], s'.pcs[u], s'.h, s'.root.id, k) {
      assert PcOK(ops[u], s.h, s.root, u, s.pcs[u]);
    }
    forall u | 0 <= u < |ops| ensures !(s'.pcs[u].Scan? && s'.pcs[u].job.Whole?) {
      assert PcOK(ops[u], s'.h, s'.root, u, s'.pcs[u]);
    }
  }

  // ---------------------------------------------------------------------------------
  // What each point of an insert has achieved

  /** No rebuild of the first child is running while its pointer is not frozen. */
  lemma UnfrozenSecure(ops: seq<Call>, s: State, k: Key, r: nat, answers: set<Option<Value>>)
    requires Inv(ops, s) && IsRoot(s.h, r)
    requires var x := CellFor(s.h, r, k); x.Child? ==> x.ptr.lock == None
    requires Answers(s.h, r, k, answers)
    ensures Secure(ops, s, k, r, answers)
  {
    forall u | 0 <= u < |ops| ensures !Rebuilds(ops[u], s.pcs[u], s.h, r, k) {
      assert PcOK(ops[u], s.h, s.root, u, s.pcs[u]);
    }
  }

  lemma PublishAchieves(ops: seq<Call>, s: State, s': State, t: nat, f: Heap)
    requires Inv(ops, s) && t < |ops| && PublishStep(ops, s, s', t, f)
    ensures Achieved(ops, s', ops[t].key, s'.pcs[t])
  {
    PublishOK(ops, s, s', t, f);
    var Owning(r, first, cur, seen) := s.pcs[t];
    assert PcOK(ops[t], s.h, s.root, t, s.pcs[t]);
    var k := ops[t].key;
    var i, x, entry := Slot(s.h.meta, cur, k), CellFor(s.h, cur, k), Pair(k, ops[t].val);
    SlotInRange(s.h, cur, k);
    if seen.SawEmpty? {
      assert Append(s.h, NO_NODES) == s.h;
    } else {
      StoreFragment(s.h, f, ChildPairs(seen, entry), cur, k, PairOf(x));
      LinkedLookup(s.h, f, ChildPairs(seen, entry), cur, k, PairOf(x), k);
      assert entry in ChildPairs(seen, entry);
    }
    assert Answers(s'.h, cur, k, Supplied(ops, k));
    if first.Some? {
      forall n | 0 <= n < |s.h.cells| && n != cur ensures CellFor(s'.h, n, k) == CellFor(s.h, n, k) {
        SlotStays(s.h, s'.h, n, k);
      }
      ReachesAfter(s.h, s'.h, cur, first.value, k);
      ReachesLookup(s'.h, first.value, cur, k);
    } else {
      forall u | 0 <= u < |ops| ensures !Rebuilds(ops[u], s'.pcs[u], s'.h, r, k) {
        assert PcOK(ops[u], s.h, s.root, u, s.pcs[u]);
        if IsKeyed(ops[u]) {
          SlotStays(s.h, s'.h, r, ops[u].key);
          SlotStays(s.h, s'.h, r, k);
        }
      }
    }
  }

  lemma ValidateAchieves(ops: seq<Call>, s: State, s': State, t: nat, k: Key)
    requires Inv(ops, s) && Next(ops, s, s', t) && Keeps(ops, k, Supplied(ops, k))
    requires IsWriter(ops[t]) && ops[t].key == k && Achieved(ops, s, k, s.pcs[t])
    requires s.pcs[t].Validate?
    ensures Achieved(ops, s', k, s'.pcs[t])
  {
    var Validate(r, first) := s.pcs[t];
    assert PcOK(ops[t], s.h, s.root, t, s.pcs[t]);
    if FirstUnchanged(s.h, k, r, first) {
      if first.Some? {
        SlotInRange(s.h, r, k);
        UnfrozenSecure(ops, s, k, r, Supplied(ops, k));
      }
      SecureStays(ops, s, s', t, k, r, Supplied(ops, k));
    }
  }

  lemma ConfirmAchieves(ops: seq<Call>, s: State, s': State, t: nat, k: Key)
    requires Inv(ops, s) && Next(ops, s, s', t) && Keeps(ops, k, Supplied(ops, k))
    requires IsWriter(ops[t]) && ops[t].key == k && Achieved(ops, s, k, s.pcs[t])
    requires s.pcs[t].Confirm?
    ensures Achieved(ops, s', k, s'.pcs[t])
  {
    var r := s.pcs[t].r;
    assert PcOK(ops[t], s.h, s.root, t, s.pcs[t]);
    if s'.pcs[t] == Returned {
      forall u | 0 <= u < |ops| ensures !(s.pcs[u].Scan? && s.pcs[u].job.Whole?) {
        assert PcOK(ops[u], s.h, s.root, u, s.pcs[u]);
      }
      assert SecureRoot(ops, s, k, Supplied(ops, k));
      SecureRootStays(ops, s, s', t, k, Supplied(ops, k));
    }
  }

  /** While the insert itself rebuilds the subtree it went through. */
  lemma RebuildAchieves(ops: seq<Call>, s: State, s': State, t: nat, k: Key)
    requires Inv(ops, s) && Next(ops, s, s', t) && Keeps(ops, k, Supplied(ops, k))
    requires IsWriter(ops[t]) && ops[t].key == k && Achieved(ops, s, k, s.pcs[t])
    requires SubRoot(s.pcs[t]).Some?
    ensures Achieved(ops, s', k, s'.pcs[t])
  {
    SubRootStays(ops, s, s', t);
    SecureStays(ops, s, s', t, k, SubRoot(s.pcs[t]).value, Supplied(ops, k));
  }

  /** The step of a write itself. */
  lemma OwnStepAchieves(ops: seq<Call>, s: State, s': State, t: nat, k: Key)
    requires Inv(ops, s) && Next(ops, s, s', t) && Keeps(ops, k, Supplied(ops, k))
    requires IsWriter(ops[t]) && ops[t].key == k && Achieved(ops, s, k, s.pcs[t])
    requires ops[t].Insert? || !(s.pcs[t].Ready? || s.pcs[t].Walk?)
    ensures Achieved(ops, s', k, s'.pcs[t])
  {
    assert PcOK(ops[t], s.h, s.root, t, s.pcs[t]);
    match s.pcs[t]
    case Owning(_, _, _, _) =>
      var f :| PublishStep(ops, s, s', t, f);
      PublishAchieves(ops, s, s', t, f);
    case Validate(_, _) => ValidateAchieves(ops, s, s', t, k);
    case SubLoad(_) => RebuildAchieves(ops, s, s', t, k);
    case SubArmed(_, _) => RebuildAchieves(ops, s, s', t, k);
    case Scan(_, _, _) => RebuildAchieves(ops, s, s', t, k);
    case Confirm(_) => ConfirmAchieves(ops, s, s', t, k);
    case _ => EarlyAchieves(ops, s, s', t, k);
  }

  lemma EarlyAchieves(ops: seq<Call>, s: State, s': State, t: nat, k: Key)
    requires Inv(ops, s) && Next(ops, s, s', t)
    requires IsWriter(ops[t]) && ops[t].key == k
    requires var pc := s.pcs[t];
             (ops[t].Insert? && (pc.Ready? || pc.Walk?)) || pc.Armed? || pc.RootArmed? || pc.Returned?
    ensures Achieved(ops, s', k, s'.pcs[t])
  {
    assert PcOK(ops[t], s.h, s.root, t, s.pcs[t]);
  }

  /** Any other call's step. */
  lemma OtherStepAchieves(ops: seq<Call>, s: State, s': State, t: nat, u: nat)
    requires Inv(ops, s) && Next(ops, s, s', t) && u < |ops| && u != t
    requires IsWriter(ops[u]) && Keeps(ops, ops[u].key, Supplied(ops, ops[u].key))
    requires Achieved(ops, s, ops[u].key, s.pcs[u])
    ensures s'.pcs[u] == s.pcs[u]
    ensures Achieved(ops, s', ops[u].key, s'.pcs[u])
         || (s.pcs[u].Returned? && DrainTakes(ops, s, s', t, ops[u].key, Supplied(ops, ops[u].key)))
  {
    var k, pc := ops[u].key, s.pcs[u];
    assert PcOK(ops[u], s.h, s.root, u, pc);
    assert s'.pcs[u] == pc;
    match pc
    case Validate(r, first) =>
      if first.Some? {
        StepHolds(ops, s, s', t, first.value, k, Supplied(ops, k));
      } else {
        SecureStays(ops, s, s', t, k, r, Supplied(ops, k));
      }
    case SubLoad(r) => SecureStays(ops, s, s', t, k, r, Supplied(ops, k));
    case SubArmed(r, c) => SecureStays(ops, s, s', t, k, r, Supplied(ops, k));
    case Scan(Subtree(r, c), _, _) => SecureStays(ops, s, s', t, k, r, Supplied(ops, k));
    case Confirm(r) => SecureStays(ops, s, s', t, k, r, Supplied(ops, k));
    case Returned => SecureRootStays(ops, s, s', t, k, Supplied(ops, k));
    case _ =>
  }

  lemma KeyInvStep(ops: seq<Call>, run: seq<State>, i: nat, t: nat, k: Key)
    requires i + 1 < |run| && Inv(ops, run[i]) && Next(ops, run[i], run[i + 1], t) && Keeps(ops, k, Supplied(ops, k))
    requires KeyInv(ops, run, i, k) && |ops| == |run[i + 1].pcs|
    ensures KeyInv(ops, run, i + 1, k)
  {
    var s, s' := run[i], run[i + 1];
    forall u: nat | Writes(ops, run, i + 1, u, k)
      ensures Achieved(ops, s', k, s'.pcs[u]) || Drained(ops, run, i + 1, u, k)
    {
      if s'.pcs[u].Owning? {
      } else if !Drained(ops, run, i, u, k) {
        WroteBefore(ops, run, i, u, k);
        if u == t {
          OwnStepAchieves(ops, s, s', t, k);
        } else {
          OtherStepAchieves(ops, s, s', t, u);
          assert DrainTakes(ops, s, s', t, k, Supplied(ops, k)) ==> TakenBy(ops, run, i, t, k, Supplied(ops, k));
        }
      }
    }
  }

  lemma WroteBefore(ops: seq<Call>, run: seq<State>, i: nat, t: nat, k: Key)
    requires Writes(ops, run, i + 1, t, k) && i + 1 < |run| && t < |run[i + 1].pcs| && !run[i + 1].pcs[t].Owning?
    ensures Writes(ops, run, i, t, k)
    ensures ops[t].Insert? || Onward(run, i, t)
  {
    if !ops[t].Insert? {
      var j :| Wrote(run, j, i + 1, t);
      assert Wrote(run, j, i, t) && Onward(run, i, t);
    }
  }

  lemma KeyInvBegins(ops: seq<Call>, run: seq<State>, k: Key)
    requires run != [] && Init(ops, run[0])
    ensures KeyInv(ops, run, 0, k)
  {
    forall t: nat | Writes(ops, run, 0, t, k) ensures Achieved(ops, run[0], k, run[0].pcs[t]) {
      assert run[0].pcs[t] == Ready;
    }
  }

  lemma {:induction false} KeyInvHolds(ops: seq<Call>, run: seq<State>, i: nat, k: Key)
    requires Run(ops, run) && i < |run| && NeverRemoved(ops, k)
    ensures Inv(ops, run[i]) && KeyInv(ops, run, i, k)
  {
    RunOK(ops, run, i);
    if i == 0 {
      KeyInvBegins(ops, run, k);
    } else {
      KeyInvHolds(ops, run, i - 1, k);
      var t := RunStep(ops, run, i - 1);
      KeyInvStep(ops, run, i - 1, t, k);
    }
  }

  /** In every state of every run in which an insert of `k` has returned, the current tree
      binds `k` to a value some call supplied for it, or some drain that swapped after the
      insert had returned has such an entry of `k` in its snapshot. Nothing may remove `k`;
      inserts, removes of other keys, subtree and root rebuilds and drains run freely. */
  lemma InsertKeptOrDrained(ops: seq<Call>, run: seq<State>, i: nat, t: nat)
    requires Run(ops, run) && i < |run|
    requires t < |ops| && ops[t].Insert? && NeverRemoved(ops, ops[t].key)
    requires t < |run[i].pcs| && run[i].pcs[t] == Returned
    ensures Lookup(run[i].h, run[i].root.id, ops[t].key) in Supplied(ops, ops[t].key)
         || Drained(ops, run, i, t, ops[t].key)
  {
    KeyInvHolds(ops, run, i, ops[t].key);
    assert Writes(ops, run, i, t, ops[t].key);
  }

  ghost predicate HasReturned(run: seq<State>, i: nat, t: nat) {
    i < |run| && t < |run[i].pcs| && run[i].pcs[t] == Returned
  }

  /** A call that has returned takes no more steps. */
  lemma {:induction false} ReturnedStays(ops: seq<Call>, run: seq<State>, i: nat, n: nat, t: nat)
    requires Run(ops, run) && i <= n < |run| && t < |ops| && HasReturned(run, i, t)
    ensures HasReturned(run, n, t)
    decreases n - i
  {
    if i < n {
      RunOK(ops, run, i);
      var u := RunStep(ops, run, i);
      ReturnedStays(ops, run, i + 1, n, t);
    }
  }

  lemma WroteForGood(ops: seq<Call>, run: seq<State>, j: nat, i: nat, n: nat, t: nat)
    requires Run(ops, run) && i <= n < |run| && t < |ops| && Wrote(run, j, i, t) && HasReturned(run, i, t)
    ensures Wrote(run, j, n, t) && HasReturned(run, n, t)
  {
    forall l | j <= l <= n ensures Onward(run, l, t) {
      if l > i {
        ReturnedStays(ops, run, i, l, t);
      }
    }
    ReturnedStays(ops, run, i, n, t);
  }

  /** A write that has reached its slot and then returned without starting over is never
      lost, whether an insert or a `get_or_insert` made it: in every later state its key is
      bound in the current tree, or a drain has taken it since the call returned. */
  lemma WriteKeptOrDrained(ops: seq<Call>, run: seq<State>, j: nat, i: nat, n: nat, t: nat)
    requires Run(ops, run) && i <= n < |run|
    requires t < |ops| && IsWriter(ops[t]) && NeverRemoved(ops, ops[t].key)
    requires Wrote(run, j, i, t) && HasReturned(run, i, t)
    ensures Lookup(run[n].h, run[n].root.id, ops[t].key) in Supplied(ops, ops[t].key)
         || Drained(ops, run, n, t, ops[t].key)
  {
    WroteForGood(ops, run, j, i, n, t);
    KeyInvHolds(ops, run, n, ops[t].key);
    assert Writes(ops, run, n, t, ops[t].key);
  }

  /** Without drains, it is the current tree. */
  lemma NoLostInsert(ops: seq<Call>, run: seq<State>, i: nat, t: nat)
    requires Run(ops, run) && i < |run|
    requires t < |ops| && ops[t].Insert? && NeverRemoved(ops, ops[t].key) && NeverDrained(ops)
    requires t < |run[i].pcs| && run[i].pcs[t] == Returned
    ensures var found := Lookup(run[i].h, run[i].root.id, ops[t].key);
            found.Some? && found in Supplied(ops, ops[t].key)
  {
    InsertKeptOrDrained(ops, run, i, t);
  }

  /** With a single writer of the key, that is the value it inserted. */
  lemma SoleWriterKeepsValue(ops: seq<Call>, run: seq<State>, i: nat, t: nat)
    requires Run(ops, run) && i < |run|
    requires t < |ops| && ops[t].Insert? && NeverRemoved(ops, ops[t].key) && NeverDrained(ops)
    requires forall u :: 0 <= u < |ops| && u != t && IsWriter(ops[u]) ==> ops[u].key != ops[t].key
    requires t < |run[i].pcs| && run[i].pcs[t] == Returned
    ensures Lookup(run[i].h, run[i].root.id, ops[t].key) == Some(ops[t].val)
  {
    NoLostInsert(ops, run, i, t);
  }

  /** Some drain that swapped between states `i` and `n` took `k` out. */
  ghost predicate TakenBetween(ops: seq<Call>, run: seq<State>, i: nat, n: nat, k: Key, answers: set<Option<Value>>) {
    exists j :: i <= j < n && TakenAt(ops, run, j, k, answers)
  }

  lemma {:induction false} SecureRootHolds(ops: seq<Call>, run: seq<State>, i: nat, n: nat, k: Key,
                                           answers: set<Option<Value>>)
    requires Run(ops, run) && i <= n < |run| && Keeps(ops, k, answers) && SecureRoot(ops, run[i], k, answers)
    ensures SecureRoot(ops, run[n], k, answers) || TakenBetween(ops, run, i, n, k, answers)
    decreases n - i
  {
    if i < n {
      SecureRootHolds(ops, run, i, n - 1, k, answers);
      if !TakenBetween(ops, run, i, n - 1, k, answers) {
        RunOK(ops, run, n - 1);
        var t := RunStep(ops, run, n - 1);
        SecureRootStays(ops, run[n - 1], run[n], t, k, answers);
        assert DrainTakes(ops, run[n - 1], run[n], t, k, answers) ==> TakenBy(ops, run, n - 1, t, k, answers);
        assert TakenAt(ops, run, n - 1, k, answers) ==> TakenBetween(ops, run, i, n, k, answers);
      }
    }
  }

  /** No call inserts or removes `k`; calls may still `get_or_insert` it. */
  ghost predicate NeverWritten(ops: seq<Call>, k: Key) {
    forall t :: 0 <= t < |ops| ==> ops[t] != Remove(k) && !(ops[t].Insert? && ops[t].key == k)
  }

  /** `get_or_insert` never overwrites: an entry that is there from the start, and that no
      insert or remove is about, keeps its value in every state of every run, however calls of
      `get_or_insert` for its key interleave with rebuilds, or a drain takes it with its value. */
  lemma EntryKeepsValue(ops: seq<Call>, run: seq<State>, n: nat, k: Key)
    requires Run(ops, run) && n < |run| && NeverWritten(ops, k)
    requires Lookup(run[0].h, run[0].root.id, k).Some?
    ensures var found := Lookup(run[0].h, run[0].root.id, k);
            Lookup(run[n].h, run[n].root.id, k) == found || TakenBetween(ops, run, 0, n, k, {found})
  {
    var answers := {Lookup(run[0].h, run[0].root.id, k)};
    assert forall t :: 0 <= t < |ops| ==> run[0].pcs[t] == Ready;
    SecureRootHolds(ops, run, 0, n, k, answers);
  }

  // ---------------------------------------------------------------------------------
  // What a returned `get_or_insert` has done

  /** Call `t` is about to read an entry of its own key. */
  ghost predicate Finds(ops: seq<Call>, run: seq<State>, j: nat, t: nat) {
    && j < |run| && t < |ops| && IsKeyed(ops[t]) && t < |run[j].pcs| && run[j].pcs[t].Walk?
    && var x := CellFor(run[j].h, run[j].pcs[t].cur, ops[t].key);
       x.Data? && x.pair.key == ops[t].key
  }

  /** Since state `j`, in which it found its key or held a slot, it has not started over. */
  ghost predicate SettledSince(ops: seq<Call>, run: seq<State>, j: nat, i: nat, t: nat) {
    && (Wrote(run, j, i, t) || (j < i && Finds(ops, run, j, t)))
    && forall l :: j < l <= i ==> Onward(run, l, t)
  }

  ghost predicate Settled(ops: seq<Call>, run: seq<State>, i: nat, t: nat) {
    exists j :: SettledSince(ops, run, j, i, t)
  }

  /** The program points of a write that come after its decision. */
  predicate Decided(pc: PC) { !pc.Ready? && !pc.Walk? && !pc.Armed? }

  lemma SettledStep(ops: seq<Call>, run: seq<State>, i: nat, u: nat, t: nat)
    requires i + 1 < |run| && Inv(ops, run[i]) && Next(ops, run[i], run[i + 1], u)
    requires t < |ops| == |run[i].pcs| == |run[i + 1].pcs| && ops[t].GetOrInsert?
    requires Decided(run[i].pcs[t]) ==> Settled(ops, run, i, t)
    requires Decided(run[i + 1].pcs[t])
    ensures Settled(ops, run, i + 1, t)
  {
    var pc, pc' := run[i].pcs[t], run[i + 1].pcs[t];
    assert PcOK(ops[t], run[i].h, run[i].root, t, pc);
    if pc'.Owning? {
      assert Onward(run, i + 1, t);
      assert SettledSince(ops, run, i + 1, i + 1, t);
    } else if Decided(pc) {
      var j :| SettledSince(ops, run, j, i, t);
      assert Onward(run, i + 1, t);
      assert SettledSince(ops, run, j, i + 1, t);
    } else {
      assert Onward(run, i + 1, t);
      assert SettledSince(ops, run, i, i + 1, t);
    }
  }

  lemma {:induction false} SettledHolds(ops: seq<Call>, run: seq<State>, i: nat, t: nat)
    requires Run(ops, run) && i < |run| && t < |ops| && ops[t].GetOrInsert?
    ensures |run[i].pcs| == |ops| && (Decided(run[i].pcs[t]) ==> Settled(ops, run, i, t))
  {
    RunOK(ops, run, i);
    if i == 0 {
      assert run[0].pcs[t] == Ready;
    } else {
      SettledHolds(ops, run, i - 1, t);
      var u := RunStep(ops, run, i - 1);
      RunOK(ops, run, i - 1);
      if Decided(run[i].pcs[t]) {
        SettledStep(ops, run, i - 1, u, t);
      }
    }
  }

  /** A `get_or_insert` that has returned either found an entry of its key or wrote one, and
      did not start over afterwards. In the second case the entry is not lost. */
  lemma GetOrInsertSettles(ops: seq<Call>, run: seq<State>, i: nat, t: nat)
    requires Run(ops, run) && i < |run| && t < |ops| && ops[t].GetOrInsert? && HasReturned(run, i, t)
    ensures Settled(ops, run, i, t)
  {
    SettledHolds(ops, run, i, t);
  }
}
