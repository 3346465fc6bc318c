/** The lock-free protocol as a state machine. A call of the map's interface is one process;
    any number of them run, and each atomic access to shared memory is one step. */
module Protocol {
  import opened Wrappers
  import opened Keys
  import opened NodeHeap

  /** `Drain` stands for `drain` and `clear`, which differ only in what they return. */
  datatype Call =
    | Insert(key: Key, val: Value)
    | GetOrInsert(key: Key, val: Value)
    | Remove(key: Key)
    | Iterate
    | Rebuild
    | Drain

  /** What a call last read in a slot. */
  datatype Seen = SawEmpty | SawTomb | SawData(pair: Pair) | SawChild

  /** An entry of a traversal stack: the slot to visit next in a node. */
  datatype Frame = Frame(node: nat, next: nat)

  /** Why a traversal runs: for the caller, to rebuild the first child `c` of root `r`, or to
      replace the whole tree under root `r`. */
  datatype Job = Look | Subtree(r: nat, c: nat) | Whole(r: nat)

  /** Program counter of a call. `r` is the root it works under and `first` the child it
      descended into from that root. */
  datatype PC =
    | Ready
    | Walk(r: nat, first: Option<nat>, cur: nat)
    | Armed(r: nat, first: Option<nat>, cur: nat, seen: Seen)
    | Owning(r: nat, first: Option<nat>, cur: nat, seen: Seen)
    | Validate(r: nat, first: Option<nat>)
    | SubLoad(r: nat)
    | SubArmed(r: nat, c: nat)
    | RootArmed(r: nat)
    | Scan(job: Job, stack: seq<Frame>, out: seq<Pair>)
    | Confirm(r: nat)
    | Returned

  datatype State = State(h: Heap, root: Ptr, pcs: seq<PC>)

  predicate IsKeyed(call: Call) { call.Insert? || call.GetOrInsert? || call.Remove? }

  predicate IsSweep(call: Call) { call.Rebuild? || call.Drain? }

  predicate IsWriter(call: Call) { call.Insert? || call.GetOrInsert? }

  // ---------------------------------------------------------------------------------
  // Steps that only read shared memory

  function AfterRootLoad(call: Call, root: Ptr): PC {
    if call.Iterate? then Scan(Look, [Frame(root.id, 0)], [])
    else if IsKeyed(call) then
      if root.lock.Some? then Ready else Walk(root.id, None, root.id)
    else
      if root.lock.Some? then Returned else RootArmed(root.id)
  }

  /** Reading the state of the predicted slot; on WRITING the call spins. */
  function AfterRead(call: Call, pc: PC, x: Cell): PC
    requires IsKeyed(call) && pc.Walk?
  {
    match x
    case Writing(_, _) => pc
    case Empty =>
      if call.Remove? then Confirm(pc.r) else Armed(pc.r, pc.first, pc.cur, SawEmpty)
    case Tomb(_) =>
      if call.Remove? then Confirm(pc.r) else Armed(pc.r, pc.first, pc.cur, SawTomb)
    case Data(p) =>
      if (call.Remove? && p.key != call.key) || (call.GetOrInsert? && p.key == call.key)
      then Confirm(pc.r)
      else Armed(pc.r, pc.first, pc.cur, SawData(p))
    case Child(_, _) => Armed(pc.r, pc.first, pc.cur, SawChild)
  }

  /** Loading a child pointer; a frozen one sends the call back to the slot. */
  function AfterChildLoad(pc: PC, x: Cell): PC
    requires pc.Armed?
  {
    if x.Child? && x.ptr.lock.None?
    then Walk(pc.r, if pc.first.None? then Some(x.ptr.id) else pc.first, x.ptr.id)
    else Walk(pc.r, pc.first, pc.cur)
  }

  function AfterSubLoad(r: nat, x: Cell): PC {
    if x.Child? && x.ptr.lock.None? then SubArmed(r, x.ptr.id) else Confirm(r)
  }

  /** The stack after passing its top slot. */
  function Moved(stack: seq<Frame>): seq<Frame>
    requires stack != []
  {
    var top := stack[|stack| - 1];
    stack[..|stack| - 1] + [Frame(top.node, top.next + 1)]
  }

  /** One visit of a traversal. */
  function AfterVisit(h: Heap, pc: PC): PC
    requires pc.Scan? && pc.stack != []
  {
    var top := pc.stack[|pc.stack| - 1];
    var rest := pc.stack[..|pc.stack| - 1];
    var moved := Moved(pc.stack);
    if top.node >= |h.cells| || top.next >= |h.cells[top.node]| then pc.(stack := rest)
    else match h.cells[top.node][top.next]
      case Writing(_, _) => pc
      case Data(p) => pc.(stack := moved, out := pc.out + [p])
      case Child(ptr, _) => pc.(stack := moved + [Frame(ptr.id, 0)])
      case _ => pc.(stack := moved)
  }

  /** Still the first child, and not frozen. */
  predicate FirstUnchanged(h: Heap, k: Key, r: nat, first: Option<nat>) {
    first.Some? ==>
      var x := CellFor(h, r, k);
      x.Child? && x.ptr == Ptr(first.value, None)
  }

  ghost predicate ReadStep(ops: seq<Call>, s: State, t: nat, pc: PC)
    requires t < |ops| == |s.pcs|
  {
    var call, here := ops[t], s.pcs[t];
    match here
    case Ready => pc == AfterRootLoad(call, s.root)
    case Walk(_, _, cur) => IsKeyed(call) && pc == AfterRead(call, here, CellFor(s.h, cur, call.key))
    case Armed(r, first, cur, seen) =>
      && IsKeyed(call)
      && var x := CellFor(s.h, cur, call.key);
      if seen.SawChild? then pc == AfterChildLoad(here, x)
      else !SameState(seen, x) && pc == Walk(r, first, cur)
    case Validate(r, first) =>
      && IsKeyed(call)
      && if FirstUnchanged(s.h, call.key, r, first)
         then pc == Confirm(r) || (first.Some? && pc == SubLoad(r))
         else pc == Walk(r, None, r)
    case SubLoad(r) => IsKeyed(call) && pc == AfterSubLoad(r, CellFor(s.h, r, call.key))
    case SubArmed(r, c) =>
      && IsKeyed(call)
      && !(CellFor(s.h, r, call.key).Child? && CellFor(s.h, r, call.key).ptr == Ptr(c, None))
      && pc == Confirm(r)
    case RootArmed(r) => s.root != Ptr(r, None) && pc == Returned
    case Scan(job, stack, out) =>
      if stack != [] then pc == AfterVisit(s.h, here)
      else (match job
        case Look => pc == Returned
        case Subtree(r, c) => IsKeyed(call) && !Frozen(s.h, r, call.key, c) && pc == Confirm(r)
        case Whole(r) => !RootFrozen(s, r) && pc == Returned)
    case Confirm(r) => pc == if s.root == Ptr(r, None) then Returned else Ready
    case _ => false
  }

  // ---------------------------------------------------------------------------------
  // Compare-and-swap steps

  /** The slot is still in the state that was read; a CAS compares nothing else. */
  predicate SameState(seen: Seen, x: Cell) {
    match seen
    case SawEmpty => x.Empty?
    case SawTomb => x.Tomb?
    case SawData(_) => x.Data?
    case SawChild => x.Child?
  }

  function WasOf(x: Cell): Was {
    match x
    case Data(p) => WasData(p)
    case Tomb(p) => WasTomb(p)
    case _ => WasEmpty
  }

  /** The first child pointer of root `r` for key `k` is the frozen `c`. */
  predicate Frozen(h: Heap, r: nat, k: Key, c: nat) {
    var x := CellFor(h, r, k);
    x.Child? && x.ptr.id == c && x.ptr.lock.Some?
  }

  predicate RootFrozen(s: State, r: nat) { s.root.id == r && s.root.lock.Some? }

  ghost predicate InHeap(h: Heap, n: nat, k: Key) {
    n < |h.cells| && Slot(h.meta, n, k) < |h.cells[n]|
  }

  /** `h` with the slot `k` predicts to in `n` replaced, after adding the nodes of `f`. */
  function Store(h: Heap, f: Heap, n: nat, k: Key, x: Cell): Heap
    requires InHeap(h, n, k)
  {
    Put(Append(h, f), n, Slot(h.meta, n, k), x)
  }

  /** DATA -> TOMBSTONE for `remove`; otherwise claiming the slot as WRITING. */
  ghost predicate CasStep(ops: seq<Call>, s: State, s': State, t: nat)
    requires t < |ops| == |s.pcs|
  {
    && IsKeyed(ops[t])
    && s.pcs[t].Armed? && !s.pcs[t].seen.SawChild?
    && var Armed(r, first, cur, seen), k := s.pcs[t], ops[t].key;
    && InHeap(s.h, cur, k)
    && var x := CellFor(s.h, cur, k);
    && SameState(seen, x)
    && s'.root == s.root
    && if ops[t].Remove? && x.Data? then
         && s'.h == Store(s.h, NO_NODES, cur, k, Tomb(x.pair))
         && s'.pcs == s.pcs[t := Validate(r, first)]
       else
         && s'.h == Store(s.h, NO_NODES, cur, k, Writing(t, WasOf(x)))
         && s'.pcs == s.pcs[t := Owning(r, first, cur, seen)]
  }

  /** What the new child of a slot holds: the new pair, and the pair that was read in the
      slot when it has another key. */
  function ChildPairs(seen: Seen, new_: Pair): seq<Pair> {
    if seen.SawData? && seen.pair.key < new_.key then [seen.pair, new_]
    else if seen.SawData? && seen.pair.key > new_.key then [new_, seen.pair]
    else [new_]
  }

  /** Ending the WRITING state: publishing the pair inline, or a child built beforehand. */
  ghost predicate PublishStep(ops: seq<Call>, s: State, s': State, t: nat, f: Heap)
    requires t < |ops| == |s.pcs|
  {
    && IsWriter(ops[t])
    && s.pcs[t].Owning?
    && var Owning(r, first, cur, seen), k := s.pcs[t], ops[t].key;
    && InHeap(s.h, cur, k) && cur < |s.h.meta|
    && s'.root == s.root
    && s'.pcs == s.pcs[t := Validate(r, first)]
    && var entry := Pair(k, ops[t].val);
    && if seen.SawEmpty? then
         s'.h == Store(s.h, NO_NODES, cur, k, Data(entry))
       else
         && Fragment(s.h, f, s.h.meta[cur].path + [At(cur, Slot(s.h.meta, cur, k))], ChildPairs(seen, entry))
         && s'.h == Store(s.h, f, cur, k, Child(Ptr(|s.h.meta|, None), PairOf(CellFor(s.h, cur, k))))
  }

  /** Freezing the first child pointer. */
  ghost predicate SubFreezeStep(ops: seq<Call>, s: State, s': State, t: nat)
    requires t < |ops| == |s.pcs|
  {
    && IsKeyed(ops[t])
    && s.pcs[t].SubArmed?
    && var SubArmed(r, c), k := s.pcs[t], ops[t].key;
    && InHeap(s.h, r, k)
    && var x := CellFor(s.h, r, k);
    && x.Child? && x.ptr == Ptr(c, None)
    && s'.root == s.root
    && s'.h == Store(s.h, NO_NODES, r, k, Child(Ptr(c, Some(t)), x.stale))
    && s'.pcs == s.pcs[t := Scan(Subtree(r, c), [Frame(c, 0)], [])]
  }

  /** End of a subtree rebuild: unfreezing a subtree too small to rebuild, or swapping in
      the tree built from the snapshot. */
  ghost predicate SubSwapStep(ops: seq<Call>, s: State, s': State, t: nat, f: Heap)
    requires t < |ops| == |s.pcs|
  {
    && IsKeyed(ops[t])
    && s.pcs[t].Scan? && s.pcs[t].stack == [] && s.pcs[t].job.Subtree?
    && var Subtree(r, c), k, out := s.pcs[t].job, ops[t].key, s.pcs[t].out;
    && InHeap(s.h, r, k)
    && Frozen(s.h, r, k, c)
    && var x := CellFor(s.h, r, k);
    && s'.root == s.root
    && s'.pcs == s.pcs[t := Confirm(r)]
    && if |out| <= 1 then
         s'.h == Store(s.h, NO_NODES, r, k, Child(Ptr(c, None), x.stale))
       else
         && Fragment(s.h, f, [At(r, Slot(s.h.meta, r, k))], out)
         && s'.h == Store(s.h, f, r, k, Child(Ptr(|s.h.meta|, None), x.stale))
  }

  ghost predicate RootFreezeStep(ops: seq<Call>, s: State, s': State, t: nat)
    requires t < |ops| == |s.pcs|
  {
    && s.pcs[t].RootArmed?
    && var r := s.pcs[t].r;
    && s.root == Ptr(r, None)
    && s'.root == Ptr(r, Some(t))
    && s'.h == s.h
    && s'.pcs == s.pcs[t := Scan(Whole(r), [Frame(r, 0)], [])]
  }

  /** End of `rebuild`, `drain` or `clear`: unfreezing when there is nothing to rebuild from,
      or swapping in the new root. */
  ghost predicate RootSwapStep(ops: seq<Call>, s: State, s': State, t: nat, f: Heap)
    requires t < |ops| == |s.pcs|
  {
    && s.pcs[t].Scan? && s.pcs[t].stack == [] && s.pcs[t].job.Whole?
    && var r, out := s.pcs[t].job.r, s.pcs[t].out;
    && RootFrozen(s, r)
    && s'.pcs == s.pcs[t := Returned]
    && if !ops[t].Drain? && (out == [] || !Ascending(out)) then
         s'.root == Ptr(r, None) && s'.h == s.h
       else
         && Fragment(s.h, f, [], if ops[t].Drain? then [] else out)
         && s'.h == Append(s.h, f)
         && s'.root == Ptr(|s.h.meta|, None)
  }

  // ---------------------------------------------------------------------------------

  ghost predicate Next(ops: seq<Call>, s: State, s': State, t: nat) {
    && t < |ops| == |s.pcs|
    && ( || (exists pc :: ReadStep(ops, s, t, pc) && s' == s.(pcs := s.pcs[t := pc]))
         || CasStep(ops, s, s', t)
         || (exists f :: PublishStep(ops, s, s', t, f))
         || SubFreezeStep(ops, s, s', t)
         || (exists f :: SubSwapStep(ops, s, s', t, f))
         || RootFreezeStep(ops, s, s', t)
         || (exists f :: RootSwapStep(ops, s, s', t, f)))
  }

  /** Any well-formed tree at rest, and no call begun. */
  ghost predicate Init(ops: seq<Call>, s: State) {
    && |s.pcs| == |ops|
    && (forall t :: 0 <= t < |s.pcs| ==> s.pcs[t] == Ready)
    && WF(s.h)
    && (forall n :: 0 <= n < |s.h.meta| ==> AtRest(s.h, n))
    && IsRoot(s.h, s.root.id) && s.root.lock == None
  }

  ghost predicate Step(ops: seq<Call>, s: State, s': State) {
    exists t :: Next(ops, s, s', t)
  }

  ghost predicate StepAt(ops: seq<Call>, run: seq<State>, i: nat) {
    i + 1 < |run| && Step(ops, run[i], run[i + 1])
  }

  /** A run: from an initial state, one step of some call at a time. */
  ghost predicate Run(ops: seq<Call>, run: seq<State>) {
    && |run| > 0
    && Init(ops, run[0])
    && forall i :: 0 <= i < |run| - 1 ==> StepAt(ops, run, i)
  }
}
