/** Range iterators that run while other calls write, remove and rebuild.

    A range iterator never changes the map, so it is modelled beside a run of the protocol:
    each of its steps reads the state the run is in at that moment, and any number of steps
    of other calls happen in between. */
module RangeScans {
  import opened Wrappers
  import opened Keys
  import opened NodeHeap
  import opened Protocol
  import opened ScanOrder
  import opened ProtocolInvariant
  import opened ProtocolSteps
  import opened ProtocolTheorems
  import opened StepLookups
  import opened NoLostInsert
  import Traversal

  type Bound = Traversal.Bound

  /** Where a range iterator is: not begun, seeking below a node, or visiting slots. */
  datatype Phase = Fresh | Seeking(node: nat) | Visiting

  /** The fields of the iterator, the pairs it has met before the start of the range
      (`skipped`, auxiliary), and those it has yielded (`out`). */
  datatype Ranger = Ranger(phase: Phase, stack: seq<Frame>, started: bool, done: bool, skipped: seq<Pair>, out: seq<Pair>)

  const FRESH_RANGER := Ranger(Fresh, [], false, false, [], [])

  /** Loading the root and, with a start bound, beginning the seek. */
  function AfterBegin(root: nat, start: Bound): Ranger {
    if start.Unbounded? then Ranger(Visiting, [Frame(root, 0)], true, false, [], [])
    else Ranger(Seeking(root), [], false, false, [], [])
  }

  /** One level of the seek: into the child the start predicts to, or ending at its slot. */
  function AfterSeek(h: Heap, a: Ranger, n: nat, key: Key): Ranger {
    var p, x := Slot(h.meta, n, key), CellFor(h, n, key);
    if x.Child? then a.(phase := Seeking(x.ptr.id), stack := a.stack + [Frame(n, p + 1)])
    else a.(phase := Visiting, stack := a.stack + [Frame(n, p)])
  }

  /** A pair met on the way: beyond the end, before the start, or yielded. */
  function AfterMeeting(a: Ranger, start: Bound, end: Bound, p: Pair): Ranger {
    if Traversal.PastEnd(end, p.key) then a.(done := true)
    else if !a.started && Traversal.BeforeStart(start, p.key) then a.(skipped := a.skipped + [p])
    else a.(started := true, out := a.out + [p])
  }

  /** One turn of the loop in `next`. */
  function AfterTurn(h: Heap, a: Ranger, start: Bound, end: Bound): Ranger
    requires a.stack != []
  {
    var pc := AfterVisit(h, Scan(Look, a.stack, []));
    var moved := a.(stack := pc.stack);
    if pc.out == [] then moved else AfterMeeting(moved, start, end, pc.out[0])
  }

  ghost predicate RangerStep(s: State, start: Bound, end: Bound, a: Ranger, b: Ranger) {
    match a.phase
    case Fresh => b == AfterBegin(s.root.id, start)
    case Seeking(n) => !start.Unbounded? && b == AfterSeek(s.h, a, n, start.key)
    case Visiting => !a.done && a.stack != [] && b == AfterTurn(s.h, a, start, end)
  }

  /** The `j`-th step of the iterator happens in state `at[j]` of the run. */
  ghost predicate StepsAt(run: seq<State>, at: seq<nat>, trace: seq<Ranger>, start: Bound, end: Bound, j: nat) {
    && j + 1 < |trace| && j < |at| && at[j] < |run|
    && (j > 0 ==> at[j - 1] <= at[j])
    && RangerStep(run[at[j]], start, end, trace[j], trace[j + 1])
  }

  ghost predicate Observes(run: seq<State>, at: seq<nat>, trace: seq<Ranger>, start: Bound, end: Bound) {
    && |trace| == |at| + 1 && trace[0] == FRESH_RANGER
    && forall j :: 0 <= j < |at| ==> StepsAt(run, at, trace, start, end, j)
  }

  // ---------------------------------------------------------------------------------
  // What every iterator keeps

  ghost predicate InRange(start: Bound, end: Bound, p: Pair) {
    !Traversal.BeforeStart(start, p.key) && !Traversal.PastEnd(end, p.key)
  }

  function Met(a: Ranger): seq<Pair> { a.skipped + a.out }

  /** All pairs met ascend, and those yielded lie within the bounds. */
  ghost predicate YieldsOK(start: Bound, end: Bound, a: Ranger) {
    && Ascending(Met(a))
    && (forall p :: p in a.out ==> InRange(start, end, p))
    && (a.started ==> a.out != [] || start.Unbounded?)
    && (!a.started ==> a.out == [])
  }

  ghost predicate RangerOK(h: Heap, start: Bound, end: Bound, a: Ranger) {
    && YieldsOK(start, end, a)
    && match a.phase
       case Fresh => a == FRESH_RANGER
       case Seeking(n) => !a.done && Met(a) == [] && Linked(h.meta, a.stack + [Frame(n, 0)])
       case Visiting => !a.done ==> ScanOK(h.meta, a.stack, Met(a))
  }

  lemma BeginOK(s: State, start: Bound, end: Bound)
    requires IsRoot(s.h, s.root.id)
    ensures RangerOK(s.h, start, end, AfterBegin(s.root.id, start))
  {
    assert [] + [Frame(s.root.id, 0)] == [Frame(s.root.id, 0)];
  }

  lemma SeekOK(h: Heap, start: Bound, end: Bound, a: Ranger)
    requires WF(h) && a.phase.Seeking? && !start.Unbounded? && RangerOK(h, start, end, a)
    ensures RangerOK(h, start, end, AfterSeek(h, a, a.phase.node, start.key))
  {
    SeekLinked(h, a.stack, a.phase.node, start.key);
  }

  lemma SeekLinked(h: Heap, stack: seq<Frame>, n: nat, key: Key)
    requires WF(h) && Linked(h.meta, stack + [Frame(n, 0)])
    ensures Linked(h.meta, stack + [Frame(n, Slot(h.meta, n, key))])
    ensures var x := CellFor(h, n, key);
            x.Child? ==> Linked(h.meta, stack + [Frame(n, Slot(h.meta, n, key) + 1)] + [Frame(x.ptr.id, 0)])
  {
    var p, x := Slot(h.meta, n, key), CellFor(h, n, key);
    assert (stack + [Frame(n, 0)])[|stack|] == Frame(n, 0);
    SlotInRange(h, n, key);
    Retopped(h.meta, stack, n, p);
    if x.Child? {
      Retopped(h.meta, stack, n, p + 1);
      PushedLinked(h.meta, stack + [Frame(n, p + 1)], x.ptr.id);
    }
  }

  /** Links do not depend on the position in the top frame. */
  lemma Retopped(meta: seq<Meta>, stack: seq<Frame>, n: nat, p: nat)
    requires Linked(meta, stack + [Frame(n, 0)])
    ensures Linked(meta, stack + [Frame(n, p)])
  {
    var a, b := stack + [Frame(n, 0)], stack + [Frame(n, p)];
    assert forall j :: 0 <= j < |b| ==> b[j].node == a[j].node && (j < |b| - 1 ==> b[j] == a[j]);
    LinkedSame(meta, a, b);
  }

  lemma LinkedSame(meta: seq<Meta>, a: seq<Frame>, b: seq<Frame>)
    requires Linked(meta, a) && |a| == |b|
    requires forall j :: 0 <= j < |b| ==> b[j].node == a[j].node && (j < |b| - 1 ==> b[j] == a[j])
    ensures Linked(meta, b)
  {
    forall j | 0 <= j < |b| ensures b[j].node < |meta| {
      assert b[j].node == a[j].node;
    }
    forall j | 0 <= j < |b| - 1
      ensures b[j].next > 0 && meta[b[j + 1].node].path == meta[b[j].node].path + [At(b[j].node, b[j].next - 1)]
    {
      assert b[j] == a[j] && b[j + 1].node == a[j + 1].node;
    }
  }

  /** A turn met nothing or one pair; with what was met before, the scan is in order. */
  lemma TurnMeets(h: Heap, stack: seq<Frame>, met: seq<Pair>)
    requires WF(h) && stack != [] && ScanOK(h.meta, stack, met)
    ensures var pc := AfterVisit(h, Scan(Look, stack, []));
            |pc.out| <= 1 && ScanOK(h.meta, pc.stack, met + pc.out)
  {
    VisitInOrder(h, Scan(Look, stack, met));
    var pc, full := AfterVisit(h, Scan(Look, stack, [])), AfterVisit(h, Scan(Look, stack, met));
    assert pc.stack == full.stack && full.out == met + pc.out;
  }

  /** A pair beyond one within the bounds is not before the start. */
  lemma StillStarted(start: Bound, end: Bound, a: Ranger, p: Pair)
    requires YieldsOK(start, end, a) && Ascending(Met(a) + [p]) && a.started
    ensures !Traversal.BeforeStart(start, p.key)
  {
    if a.out != [] {
      var met, last := Met(a) + [p], a.out[|a.out| - 1];
      assert met[|met| - 2] == last && met[|met| - 1] == p && last in a.out;
    }
  }

  lemma MeetingOK(start: Bound, end: Bound, a: Ranger, p: Pair)
    requires YieldsOK(start, end, a) && Ascending(Met(a) + [p])
    ensures YieldsOK(start, end, AfterMeeting(a, start, end, p))
    ensures var b := AfterMeeting(a, start, end, p); b.done || Met(b) == Met(a) + [p]
  {
    Regroup(a.skipped, a.out, [p]);
    if a.started {
      StillStarted(start, end, a, p);
    } else {
      assert a.skipped + [] == a.skipped && (a.skipped + [p]) + [] == a.skipped + [p];
    }
  }

  lemma Regroup(a: seq<Pair>, b: seq<Pair>, c: seq<Pair>)
    ensures a + (b + c) == (a + b) + c
  {
  }

  lemma TurnOK(h: Heap, start: Bound, end: Bound, a: Ranger)
    requires WF(h) && a.phase.Visiting? && !a.done && a.stack != [] && RangerOK(h, start, end, a)
    ensures RangerOK(h, start, end, AfterTurn(h, a, start, end))
  {
    TurnMeets(h, a.stack, Met(a));
    var pc := AfterVisit(h, Scan(Look, a.stack, []));
    if pc.out == [] {
      assert Met(a) + [] == Met(a);
    } else {
      assert pc.out == [pc.out[0]];
      MeetingOK(start, end, a.(stack := pc.stack), pc.out[0]);
    }
  }

  lemma RangerStepOK(s: State, start: Bound, end: Bound, a: Ranger, b: Ranger)
    requires WF(s.h) && IsRoot(s.h, s.root.id)
    requires RangerOK(s.h, start, end, a) && RangerStep(s, start, end, a, b)
    ensures RangerOK(s.h, start, end, b)
  {
    match a.phase
    case Fresh => BeginOK(s, start, end);
    case Seeking(_) => SeekOK(s.h, start, end, a);
    case Visiting => TurnOK(s.h, start, end, a);
  }

  /** Steps of other calls disturb no iterator: all it relies on is immutable. */
  lemma RangerStays(h: Heap, g: Heap, start: Bound, end: Bound, a: Ranger)
    requires h.meta <= g.meta && RangerOK(h, start, end, a)
    ensures RangerOK(g, start, end, a)
  {
    match a.phase
    case Fresh =>
    case Seeking(n) => LinkedExtends(h.meta, g.meta, a.stack + [Frame(n, 0)]);
    case Visiting =>
      if !a.done {
        LinkedExtends(h.meta, g.meta, a.stack);
        if a.stack != [] && Met(a) != [] {
          BehindExtends(h.meta, g.meta, a.stack, Met(a)[|Met(a)| - 1].key);
        }
      }
  }

  lemma LinkedExtends(m: seq<Meta>, m': seq<Meta>, stack: seq<Frame>)
    requires m <= m' && Linked(m, stack)
    ensures Linked(m', stack)
  {
    forall j | 0 <= j < |stack| ensures m'[stack[j].node] == m[stack[j].node] {
    }
  }

  lemma {:induction false} MetaGrows(ops: seq<Call>, run: seq<State>, i: nat, j: nat)
    requires Run(ops, run) && i <= j < |run|
    ensures run[i].h.meta <= run[j].h.meta
    decreases j - i
  {
    if i < j {
      var t := StepGuarantee(ops, run, i);
      MetaGrows(ops, run, i + 1, j);
    }
  }

  /** The iterator after `j` steps is in order in the state its latest step read. */
  lemma {:induction false} RangerHolds(ops: seq<Call>, run: seq<State>, at: seq<nat>, trace: seq<Ranger>,
                                       start: Bound, end: Bound, j: nat)
    requires Run(ops, run) && Observes(run, at, trace, start, end) && j < |at|
    ensures at[j] < |run| && RangerOK(run[at[j]].h, start, end, trace[j + 1])
  {
    assert StepsAt(run, at, trace, start, end, j);
    RunOK(ops, run, at[j]);
    if j > 0 {
      RangerHolds(ops, run, at, trace, start, end, j - 1);
      MetaGrows(ops, run, at[j - 1], at[j]);
      RangerStays(run[at[j - 1]].h, run[at[j]].h, start, end, trace[j]);
    }
    RangerStepOK(run[at[j]], start, end, trace[j], trace[j + 1]);
  }

  /** However its seek and its visits interleave with a run, a range iterator yields strictly
      ascending keys, all of them within its bounds. */
  lemma RangeScanOrdered(ops: seq<Call>, run: seq<State>, at: seq<nat>, trace: seq<Ranger>,
                         start: Bound, end: Bound, j: nat)
    requires Run(ops, run) && Observes(run, at, trace, start, end) && j < |trace|
    ensures Ascending(trace[j].out)
    ensures forall p :: p in trace[j].out ==> !Traversal.BeforeStart(start, p.key) && !Traversal.PastEnd(end, p.key)
  {
    if j > 0 {
      RangerHolds(ops, run, at, trace, start, end, j - 1);
      Traversal.AscendingSuffix(trace[j].skipped, trace[j].out);
      assert forall p :: p in trace[j].out ==> InRange(start, end, p);
    }
  }

  // ---------------------------------------------------------------------------------
  // What no iterator misses

  /** What lies behind a stack is smaller than a key that is still ahead of it. */
  lemma {:induction false} BehindAhead(h: Heap, stack: seq<Frame>, y: Key, k: Key, answers: set<Option<Value>>)
    requires WF(h) && Linked(h.meta, stack) && Behind(h.meta, stack, y) && Ahead(h, stack, k, answers)
    ensures y < k
  {
    if k <= y {
      SlotMonotone(h, stack[0].node, k, y);
      if |stack| > 1 {
        BehindAhead(h, stack[1..], y, k, answers);
      }
    }
  }

  /** The iterator has yielded `k` or will do so; a finished one has. */
  ghost predicate Promised(h: Heap, a: Ranger, k: Key, answers: set<Option<Value>>) {
    match a.phase
    case Fresh => false
    case Seeking(n) => Ahead(h, a.stack + [Frame(n, 0)], k, answers)
    case Visiting => Captured(a.out, k, answers) || (!a.done && Ahead(h, a.stack, k, answers))
  }

  /** The stack of frames to come; its bottom is the root that was loaded. */
  function Frames(a: Ranger): seq<Frame> {
    if a.phase.Seeking? then a.stack + [Frame(a.phase.node, 0)] else a.stack
  }

  ghost predicate Rooted(a: Ranger, r: nat) {
    !a.phase.Fresh? && (Frames(a) != [] ==> Frames(a)[0].node == r)
  }

  /** Replacing the top frame, which is about a whole node, by frames that still lead to `k`. */
  lemma {:induction false} AheadRetopped(h: Heap, stack: seq<Frame>, n: nat, tail: seq<Frame>, k: Key,
                                         answers: set<Option<Value>>)
    requires Ahead(h, stack + [Frame(n, 0)], k, answers)
    requires Answers(h, n, k, answers) ==> Ahead(h, tail, k, answers)
    ensures Ahead(h, stack + tail, k, answers)
  {
    var old_ := stack + [Frame(n, 0)];
    if stack == [] {
      assert stack + tail == tail;
    } else if !(stack[0].next <= Slot(h.meta, stack[0].node, k) && Answers(h, stack[0].node, k, answers)) {
      assert old_[1..] == stack[1..] + [Frame(n, 0)];
      AheadRetopped(h, stack[1..], n, tail, k, answers);
      assert (stack + tail)[1..] == stack[1..] + tail;
    }
  }

  lemma SeekPromises(h: Heap, start: Bound, end: Bound, a: Ranger, k: Key, answers: set<Option<Value>>)
    requires WF(h) && a.phase.Seeking? && !start.Unbounded? && RangerOK(h, start, end, a)
    requires !Traversal.BeforeStart(start, k)
    requires Promised(h, a, k, answers)
    ensures Promised(h, AfterSeek(h, a, a.phase.node, start.key), k, answers)
  {
    var n := a.phase.node;
    var p, x := Slot(h.meta, n, start.key), CellFor(h, n, start.key);
    assert (a.stack + [Frame(n, 0)])[|a.stack|] == Frame(n, 0);
    SlotMonotone(h, n, start.key, k);
    SlotInRange(h, n, k);
    if x.Child? {
      var tail := [Frame(n, p + 1), Frame(x.ptr.id, 0)];
      assert tail[1..] == [Frame(x.ptr.id, 0)];
      AheadRetopped(h, a.stack, n, tail, k, answers);
      assert a.stack + tail == (a.stack + [Frame(n, p + 1)]) + [Frame(x.ptr.id, 0)];
    } else {
      AheadRetopped(h, a.stack, n, [Frame(n, p)], k, answers);
    }
  }

  lemma TurnPromises(h: Heap, start: Bound, end: Bound, a: Ranger, k: Key, answers: set<Option<Value>>)
    requires WF(h) && a.phase.Visiting? && !a.done && a.stack != [] && RangerOK(h, start, end, a)
    requires !Traversal.BeforeStart(start, k) && !Traversal.PastEnd(end, k)
    requires Promised(h, a, k, answers) && None !in answers
    ensures Promised(h, AfterTurn(h, a, start, end), k, answers)
  {
    var b := AfterTurn(h, a, start, end);
    var pc := AfterVisit(h, Scan(Look, a.stack, []));
    TurnMeets(h, a.stack, Met(a));
    if Captured(a.out, k, answers) {
      var p :| p in a.out && p.key == k && Some(p.val) in answers;
      assert p in b.out;
    } else {
      AheadVisit(h, Look, a.stack, [], k, answers);
      if Captured(pc.out, k, answers) {
        assert pc.out[0] in b.out;
      } else if pc.out != [] {
        var p := pc.out[0];
        assert (Met(a) + pc.out)[|Met(a)|] == p;
        BehindAhead(h, pc.stack, p.key, k, answers);
      }
    }
  }

  /** What an iterator under root `r` relies on, to reach `k`. */
  ghost predicate Tracked(ops: seq<Call>, s: State, a: Ranger, r: nat, k: Key, answers: set<Option<Value>>) {
    && IsRoot(s.h, r) && Secure(ops, s, k, r, answers)
    && Rooted(a, r) && Promised(s.h, a, k, answers)
  }

  lemma AheadStep(ops: seq<Call>, s: State, s': State, t: nat, r: nat, stack: seq<Frame>, k: Key,
                  answers: set<Option<Value>>)
    requires Inv(ops, s) && Next(ops, s, s', t) && Keeps(ops, k, answers)
    requires Linked(s.h.meta, stack) && (stack != [] ==> stack[0].node == r) && Secure(ops, s, k, r, answers)
    requires Ahead(s.h, stack, k, answers)
    ensures Ahead(s'.h, stack, k, answers)
  {
    NextOK(ops, s, s', t);
    forall j | 0 <= j < |stack| && Answers(s.h, stack[j].node, k, answers) ensures Answers(s'.h, stack[j].node, k, answers) {
      if j > 0 {
        UpperFramesBelowRoots(s.h.meta, stack, j);
      }
      StepHolds(ops, s, s', t, stack[j].node, k, answers);
    }
    AheadStays(s.h, s'.h, stack, k, answers);
  }

  lemma TrackedStep(ops: seq<Call>, s: State, s': State, t: nat, start: Bound, end: Bound, a: Ranger, r: nat,
                    k: Key, answers: set<Option<Value>>)
    requires Inv(ops, s) && Next(ops, s, s', t) && Keeps(ops, k, answers)
    requires RangerOK(s.h, start, end, a) && Tracked(ops, s, a, r, k, answers)
    ensures RangerOK(s'.h, start, end, a) && Tracked(ops, s', a, r, k, answers)
  {
    NextOK(ops, s, s', t);
    RangerStays(s.h, s'.h, start, end, a);
    SecureStays(ops, s, s', t, k, r, answers);
    if !Captured(a.out, k, answers) || a.phase.Seeking? {
      AheadStep(ops, s, s', t, r, Frames(a), k, answers);
    }
  }

  lemma {:induction false} TrackedAlong(ops: seq<Call>, run: seq<State>, i: nat, n: nat, start: Bound, end: Bound, a: Ranger,
                                        r: nat, k: Key, answers: set<Option<Value>>)
    requires Run(ops, run) && i <= n < |run| && Keeps(ops, k, answers)
    requires RangerOK(run[i].h, start, end, a) && Tracked(ops, run[i], a, r, k, answers)
    ensures RangerOK(run[n].h, start, end, a) && Tracked(ops, run[n], a, r, k, answers)
    decreases n - i
  {
    if i < n {
      RunOK(ops, run, i);
      var t := RunStep(ops, run, i);
      TrackedStep(ops, run[i], run[i + 1], t, start, end, a, r, k, answers);
      TrackedAlong(ops, run, i + 1, n, start, end, a, r, k, answers);
    }
  }

  lemma TrackedTurn(ops: seq<Call>, s: State, start: Bound, end: Bound, a: Ranger, b: Ranger, r: nat,
                    k: Key, answers: set<Option<Value>>)
    requires Inv(ops, s) && RangerStep(s, start, end, a, b) && RangerOK(s.h, start, end, a)
    requires Tracked(ops, s, a, r, k, answers) && None !in answers
    requires !Traversal.BeforeStart(start, k) && !Traversal.PastEnd(end, k)
    ensures Tracked(ops, s, b, r, k, answers)
  {
    if a.phase.Seeking? {
      SeekPromises(s.h, start, end, a, k, answers);
    } else {
      TurnPromises(s.h, start, end, a, k, answers);
    }
    StaysRooted(s, start, end, a, b, r);
  }

  lemma StaysRooted(s: State, start: Bound, end: Bound, a: Ranger, b: Ranger, r: nat)
    requires RangerStep(s, start, end, a, b) && Rooted(a, r)
    ensures Rooted(b, r)
  {
    match a.phase
    case Seeking(n) => assert Frames(a)[0] == if a.stack == [] then Frame(n, 0) else a.stack[0];
    case Visiting => SameBottom(s.h, a.stack);
    case Fresh =>
  }

  lemma SameBottom(h: Heap, stack: seq<Frame>)
    requires stack != []
    ensures var after := AfterVisit(h, Scan(Look, stack, [])).stack; after != [] ==> after[0].node == stack[0].node
  {
  }

  /** The root a range iterator loads is the current one. */
  lemma TrackedBegin(ops: seq<Call>, s: State, start: Bound, k: Key, answers: set<Option<Value>>)
    requires Inv(ops, s) && SecureRoot(ops, s, k, answers)
    ensures Tracked(ops, s, AfterBegin(s.root.id, start), s.root.id, k, answers)
  {
    var r := s.root.id;
    assert [] + [Frame(r, 0)] == [Frame(r, 0)];
  }

  lemma {:induction false} TrackedHolds(ops: seq<Call>, run: seq<State>, at: seq<nat>, trace: seq<Ranger>,
                                        start: Bound, end: Bound, j: nat, k: Key, answers: set<Option<Value>>)
    requires Run(ops, run) && Observes(run, at, trace, start, end) && j < |at| && at[0] < |run|
    requires Keeps(ops, k, answers) && SecureRoot(ops, run[at[0]], k, answers)
    requires !Traversal.BeforeStart(start, k) && !Traversal.PastEnd(end, k)
    ensures at[j] < |run| && Tracked(ops, run[at[j]], trace[j + 1], run[at[0]].root.id, k, answers)
  {
    assert StepsAt(run, at, trace, start, end, j);
    RunOK(ops, run, at[j]);
    if j == 0 {
      TrackedBegin(ops, run[at[0]], start, k, answers);
    } else {
      TrackedHolds(ops, run, at, trace, start, end, j - 1, k, answers);
      RangerHolds(ops, run, at, trace, start, end, j - 1);
      TrackedAlong(ops, run, at[j - 1], at[j], start, end, trace[j], run[at[0]].root.id, k, answers);
      TrackedTurn(ops, run[at[j]], start, end, trace[j], trace[j + 1], run[at[0]].root.id, k, answers);
    }
  }

  /** The iterator has returned nothing, and will not go on. */
  predicate Finished(a: Ranger) { a.phase.Visiting? && (a.done || a.stack == []) }

  /** A range iterator misses no key within its bounds that an insert had added before the
      iterator loaded the root, and that nothing removes: once it has finished, it has yielded
      the key with a value some call supplied, whatever was written, removed, rebuilt or
      drained while it ran; unless a drain had taken the key before. */
  lemma RangeScanComplete(ops: seq<Call>, run: seq<State>, at: seq<nat>, trace: seq<Ranger>,
                          start: Bound, end: Bound, j: nat, t: nat)
    requires Run(ops, run) && Observes(run, at, trace, start, end) && j < |trace| && Finished(trace[j])
    requires t < |ops| && ops[t].Insert? && NeverRemoved(ops, ops[t].key)
    requires at != [] && at[0] < |run| && HasReturned(run, at[0], t) && !Drained(ops, run, at[0], t, ops[t].key)
    requires InRange(start, end, Pair(ops[t].key, ops[t].val))
    ensures Captured(trace[j].out, ops[t].key, Supplied(ops, ops[t].key))
  {
    var k := ops[t].key;
    KeyInvHolds(ops, run, at[0], k);
    assert Writes(ops, run, at[0], t, k);
    TrackedHolds(ops, run, at, trace, start, end, j - 1, k, Supplied(ops, k));
  }

  /** ... nor one that was there from the start and that no insert or remove is about; that
      one it yields with its value. */
  lemma RangeScanKeepsEntries(ops: seq<Call>, run: seq<State>, at: seq<nat>, trace: seq<Ranger>,
                              start: Bound, end: Bound, j: nat, p: Pair)
    requires Run(ops, run) && Observes(run, at, trace, start, end) && j < |trace| && Finished(trace[j])
    requires at != [] && at[0] < |run| && InRange(start, end, p) && NeverWritten(ops, p.key) && NeverDrained(ops)
    requires Lookup(run[0].h, run[0].root.id, p.key) == Some(p.val)
    ensures p in trace[j].out
  {
    assert forall t :: 0 <= t < |ops| ==> run[0].pcs[t] == Ready;
    SecureRootHolds(ops, run, 0, at[0], p.key, {Some(p.val)});
    TrackedHolds(ops, run, at, trace, start, end, j - 1, p.key, {Some(p.val)});
  }

  // ---------------------------------------------------------------------------------
  // Full iteration

  /** A full iteration under root `r` has met `k` or will do so. */
  ghost predicate Iterates(ops: seq<Call>, s: State, t: nat, r: nat, k: Key, answers: set<Option<Value>>) {
    && t < |s.pcs| && s.pcs[t].Scan? && s.pcs[t].job.Look?
    && IsRoot(s.h, r) && Secure(ops, s, k, r, answers)
    && (s.pcs[t].stack != [] ==> s.pcs[t].stack[0].node == r)
    && Good(s.h, s.pcs[t].stack, s.pcs[t].out, k, answers)
  }

  lemma IteratesStep(ops: seq<Call>, s: State, s': State, u: nat, t: nat, r: nat, k: Key, answers: set<Option<Value>>)
    requires Inv(ops, s) && Next(ops, s, s', u) && Keeps(ops, k, answers)
    requires t < |ops| && Iterates(ops, s, t, r, k, answers)
    ensures t < |s'.pcs| && (s'.pcs[t] == Returned || Iterates(ops, s', t, r, k, answers))
  {
    NextOK(ops, s, s', u);
    SecureStays(ops, s, s', u, k, r, answers);
    assert PcOK(ops[t], s.h, s.root, t, s.pcs[t]);
    var stack, out := s.pcs[t].stack, s.pcs[t].out;
    if u != t {
      if !Captured(out, k, answers) {
        AheadStep(ops, s, s', u, r, stack, k, answers);
      }
    } else if stack != [] {
      GoodVisit(s.h, Look, stack, out, k, answers);
    }
  }

  lemma IteratesBegin(ops: seq<Call>, s: State, s': State, u: nat, t: nat, k: Key, answers: set<Option<Value>>)
    requires Inv(ops, s) && Next(ops, s, s', u) && Keeps(ops, k, answers) && SecureRoot(ops, s, k, answers)
    requires t < |ops| && ops[t].Iterate? && s.pcs[t].Ready? && t < |s'.pcs| && !s'.pcs[t].Ready?
    ensures Iterates(ops, s', t, s.root.id, k, answers)
  {
    SecureStays(ops, s, s', u, k, s.root.id, answers);
    assert s'.pcs[t] == AfterRootLoad(ops[t], s.root) && s'.h == s.h;
  }

  lemma {:induction false} IteratesHolds(ops: seq<Call>, run: seq<State>, i: nat, n: nat, t: nat, k: Key,
                                         answers: set<Option<Value>>)
    requires Run(ops, run) && i < n < |run| && t < |ops| && ops[t].Iterate? && Keeps(ops, k, answers)
    requires SecureRoot(ops, run[i], k, answers)
    requires t < |run[i].pcs| && run[i].pcs[t].Ready? && t < |run[i + 1].pcs| && !run[i + 1].pcs[t].Ready?
    ensures t < |run[n].pcs|
    ensures run[n].pcs[t] == Returned || Iterates(ops, run[n], t, run[i].root.id, k, answers)
    decreases n
  {
    RunOK(ops, run, n - 1);
    var u := RunStep(ops, run, n - 1);
    if n == i + 1 {
      IteratesBegin(ops, run[i], run[n], u, t, k, answers);
    } else {
      IteratesHolds(ops, run, i, n - 1, t, k, answers);
      if run[n - 1].pcs[t] == Returned {
        ReturnedStays(ops, run, n - 1, n, t);
      } else {
        IteratesStep(ops, run[n - 1], run[n], u, t, run[i].root.id, k, answers);
      }
    }
  }

  /** A full iteration misses no key that an insert had added before the iterator loaded the
      root, and that nothing removes, unless a drain had taken it before. */
  lemma IterationComplete(ops: seq<Call>, run: seq<State>, i: nat, n: nat, t: nat, u: nat)
    requires Run(ops, run) && i < n < |run| && t < |ops| && ops[t].Iterate?
    requires t < |run[i].pcs| && run[i].pcs[t].Ready? && t < |run[i + 1].pcs| && !run[i + 1].pcs[t].Ready?
    requires t < |run[n].pcs| && run[n].pcs[t].Scan? && run[n].pcs[t].stack == []
    requires u < |ops| && ops[u].Insert? && NeverRemoved(ops, ops[u].key)
    requires HasReturned(run, i, u) && !Drained(ops, run, i, u, ops[u].key)
    ensures Captured(run[n].pcs[t].out, ops[u].key, Supplied(ops, ops[u].key))
  {
    var k := ops[u].key;
    KeyInvHolds(ops, run, i, k);
    assert Writes(ops, run, i, u, k);
    IteratesHolds(ops, run, i, n, t, k, Supplied(ops, k));
  }

  // ---------------------------------------------------------------------------------
  // With nothing interleaved

  ghost predicate Quiet(h: Heap, r: nat) { WF(h) && Traversal.AllAtRest(h) && r < |h.meta| }

  /** What has been yielded and what is still to come make up the entries within the bounds. */
  ghost predicate Still(h: Heap, r: nat, start: Bound, end: Bound, a: Ranger) {
    var all := Traversal.Within(Traversal.Entries(h, r, 0), start, end);
    && Traversal.StackOK(h, a.stack)
    && match a.phase
       case Fresh => a == FRESH_RANGER
       case Seeking(n) =>
         var rest := Traversal.Entries(h, n, 0) + Traversal.Rest(h, a.stack);
         && n < |h.meta| && a.out == [] && !a.started && !a.done
         && Ascending(rest) && Traversal.Within(rest, start, end) == all
       case Visiting =>
         var rest := Traversal.Rest(h, a.stack);
         && Ascending(rest)
         && (a.started ==> forall p :: p in rest ==> !Traversal.BeforeStart(start, p.key))
         && a.out + (if a.done then [] else Traversal.Within(rest, start, end)) == all
  }

  lemma BeginStill(h: Heap, r: nat, start: Bound, end: Bound)
    requires Quiet(h, r)
    ensures Still(h, r, start, end, AfterBegin(r, start))
  {
    Traversal.EntriesAscend(h, r, 0);
    Traversal.OnlyRoot(h, r);
    var all := Traversal.Entries(h, r, 0);
    assert all + Traversal.Rest(h, []) == all;
    assert [] + Traversal.Within(all, start, end) == Traversal.Within(all, start, end);
  }

  /** Leaving out what lies before the start. */
  lemma SkipStart(skip: seq<Pair>, rest: seq<Pair>, start: Bound, end: Bound)
    requires Ascending(skip + rest) && forall p :: p in skip ==> Traversal.BeforeStart(start, p.key)
    ensures Ascending(rest) && Traversal.Within(rest, start, end) == Traversal.Within(skip + rest, start, end)
  {
    Traversal.AscendingSuffix(skip, rest);
    Traversal.WithinSkips(skip, rest, start, end);
  }

  /** What a seek keeps of a node: its entries from the slot of the start on. */
  lemma SeekKeeps(h: Heap, n: nat, below: seq<Pair>, start: Bound, end: Bound)
    requires WF(h) && n < |h.meta| && !start.Unbounded? && Ascending(Traversal.Entries(h, n, 0) + below)
    ensures var kept := Traversal.Entries(h, n, Slot(h.meta, n, start.key)) + below;
            && Ascending(kept)
            && Traversal.Within(kept, start, end) == Traversal.Within(Traversal.Entries(h, n, 0) + below, start, end)
  {
    var p := Slot(h.meta, n, start.key);
    SlotInRange(h, n, start.key);
    var skip, kept := Traversal.EntriesBefore(h, n, p), Traversal.Entries(h, n, p);
    Traversal.SplitEntries(h, n, p);
    forall q | q in skip ensures Traversal.BeforeStart(start, q.key) {
      Traversal.BeforeIsLess(h, n, p, q, start.key);
    }
    Traversal.Regroup(skip, kept, below);
    SkipStart(skip, kept + below, start, end);
  }

  /** One level of the seek changes nothing about what the stack has still to yield. */
  lemma SeekRest(h: Heap, stack: seq<Frame>, n: nat, p: nat)
    requires WF(h) && Traversal.StackOK(h, stack) && n < |h.cells| && p < |h.cells[n]|
    ensures var x, rest := h.cells[n][p], Traversal.Entries(h, n, p) + Traversal.Rest(h, stack);
            && Traversal.StackOK(h, stack + [Frame(n, p)]) && Traversal.StackOK(h, stack + [Frame(n, p + 1)])
            && Traversal.Rest(h, stack + [Frame(n, p)]) == rest
            && (x.Child? ==>
                  && n < x.ptr.id < |h.cells|
                  && Traversal.Entries(h, x.ptr.id, 0) + Traversal.Rest(h, stack + [Frame(n, p + 1)]) == rest)
  {
    var x := h.cells[n][p];
    Traversal.RestPush(h, stack, Frame(n, p));
    Traversal.RestPush(h, stack, Frame(n, p + 1));
    assert NodeOK(h, n) && CellOK(h, n, p, x);
    if x.Child? {
      EntriesOfChild(h, n, p, Traversal.Rest(h, stack));
    }
  }

  lemma SeekStill(h: Heap, r: nat, start: Bound, end: Bound, a: Ranger)
    requires Quiet(h, r) && a.phase.Seeking? && !start.Unbounded? && Still(h, r, start, end, a)
    ensures Still(h, r, start, end, AfterSeek(h, a, a.phase.node, start.key))
  {
    var n, below := a.phase.node, Traversal.Rest(h, a.stack);
    SlotInRange(h, n, start.key);
    SeekKeeps(h, n, below, start, end);
    SeekRest(h, a.stack, n, Slot(h.meta, n, start.key));
    var kept := Traversal.Within(Traversal.Entries(h, n, Slot(h.meta, n, start.key)) + below, start, end);
    assert [] + kept == kept;
  }

  lemma EntriesOfChild(h: Heap, n: nat, p: nat, below: seq<Pair>)
    requires n < |h.cells| && p < |h.cells[n]|
    requires var x := h.cells[n][p]; x.Child? && n < x.ptr.id < |h.cells|
    ensures Traversal.Entries(h, n, p) + below
         == Traversal.Entries(h, h.cells[n][p].ptr.id, 0) + (Traversal.Entries(h, n, p + 1) + below)
  {
    Traversal.Regroup(Traversal.Entries(h, h.cells[n][p].ptr.id, 0), Traversal.Entries(h, n, p + 1), below);
  }

  /** A visit takes the next entry off the rest, or leaves the rest as it is. */
  lemma VisitRest(h: Heap, stack: seq<Frame>)
    requires WF(h) && Traversal.AllAtRest(h) && Traversal.StackOK(h, stack) && stack != []
    ensures var pc := AfterVisit(h, Scan(Look, stack, []));
            && Traversal.StackOK(h, pc.stack)
            && (pc.out == [] ==> Traversal.Rest(h, pc.stack) == Traversal.Rest(h, stack))
            && (pc.out != [] ==> pc.out == [pc.out[0]] && pc.out + Traversal.Rest(h, pc.stack) == Traversal.Rest(h, stack))
  {
    var top := stack[|stack| - 1];
    if top.next >= |h.cells[top.node]| {
      NothingLeft(h, stack);
    } else {
      Traversal.PassRest(h, stack);
      assert AtRest(h, top.node);
      var x := h.cells[top.node][top.next];
      if x.Child? {
        Traversal.DescendRest(h, stack);
      } else if x.Data? {
        assert [] + [x.pair] == [x.pair];
      }
    }
  }

  lemma NothingLeft(h: Heap, stack: seq<Frame>)
    requires stack != [] && Traversal.StackOK(h, stack)
    requires var top := stack[|stack| - 1]; top.next >= |h.cells[top.node]|
    ensures Traversal.Rest(h, stack[..|stack| - 1]) == Traversal.Rest(h, stack)
  {
  }

  lemma TurnStill(h: Heap, r: nat, start: Bound, end: Bound, a: Ranger)
    requires Quiet(h, r) && a.phase.Visiting? && !a.done && a.stack != [] && Still(h, r, start, end, a)
    requires a.started || a.out == []
    ensures Still(h, r, start, end, AfterTurn(h, a, start, end))
  {
    VisitRest(h, a.stack);
    var pc := AfterVisit(h, Scan(Look, a.stack, []));
    var rest := Traversal.Rest(h, pc.stack);
    if pc.out != [] {
      var p := pc.out[0];
      Traversal.YieldWithin(p, rest, start, end);
      Traversal.Regroup(a.out, [p], Traversal.Within(rest, start, end));
      assert forall q :: q in rest ==> q in [p] + rest;
    }
  }

  lemma {:induction false} StillHolds(run: seq<State>, at: seq<nat>, trace: seq<Ranger>, start: Bound, end: Bound,
                                      h: Heap, r: nat, j: nat)
    requires Observes(run, at, trace, start, end) && j < |trace| && Quiet(h, r)
    requires forall i :: 0 <= i < |at| ==> at[i] < |run| && run[at[i]].h == h && run[at[i]].root.id == r
    ensures Still(h, r, start, end, trace[j]) && (trace[j].started || trace[j].out == [])
  {
    if j > 0 {
      StillHolds(run, at, trace, start, end, h, r, j - 1);
      assert StepsAt(run, at, trace, start, end, j - 1);
      match trace[j - 1].phase
      case Fresh => BeginStill(h, r, start, end);
      case Seeking(_) => SeekStill(h, r, start, end, trace[j - 1]);
      case Visiting => TurnStill(h, r, start, end, trace[j - 1]);
    }
  }

  /** With no change to the tree in between, a range iterator yields exactly the entries
      within its bounds, in order. */
  lemma QuietRangeScan(run: seq<State>, at: seq<nat>, trace: seq<Ranger>, start: Bound, end: Bound,
                       h: Heap, r: nat, j: nat)
    requires Observes(run, at, trace, start, end) && j < |trace| && Finished(trace[j]) && Quiet(h, r)
    requires forall i :: 0 <= i < |at| ==> at[i] < |run| && run[at[i]].h == h && run[at[i]].root.id == r
    ensures trace[j].out == Traversal.Within(Traversal.Entries(h, r, 0), start, end)
  {
    StillHolds(run, at, trace, start, end, h, r, j);
    assert trace[j].out + [] == trace[j].out;
  }
}
