/** Prediction models of nodes, and FMCD model fitting.

    Arithmetic is over exact reals: rounding errors of floating point are abstracted. */
module LinearModels {
  import opened Keys

  /** What the index knows of a key besides its order: the model input and the exact ordinal. */
  datatype Inputs = Inputs(input: Key -> real, ordinal: Key -> int)

  /** The key contract. Neither mapping needs to be injective. */
  ghost predicate Monotone(inp: Inputs) {
    forall a: Key, b: Key :: a <= b ==> inp.input(a) <= inp.input(b) && inp.ordinal(a) <= inp.ordinal(b)
  }

  /** 2^-52, the machine epsilon of a 64-bit float. */
  const EPSILON: real := 1.0 / 4503599627370496.0

  const MAX_FMCD_CANDIDATES: nat := 32

  /** A linear function, or a binary split at an ordinal or at a key. */
  datatype Model =
    | Linear(slope: real, intercept: real)
    | Midpoint(mid: int)
    | SplitKey(boundary: Key)

  function Last(size: nat): nat { if size == 0 then 0 else size - 1 }

  /** Rounding to the nearest slot, clamped to the array. */
  function Clamp(pos: real, size: nat): (slot: nat)
    ensures slot <= Last(size)
  {
    var r := (pos + 0.5).Floor;
    if r < 0 then 0 else if r > Last(size) then Last(size) else r
  }

  function PredictRaw(slope: real, intercept: real, x: real, size: nat): nat {
    Clamp(slope * x + intercept, size)
  }

  function Predict(inp: Inputs, model: Model, size: nat, k: Key): nat {
    match model
    case Linear(slope, intercept) => PredictRaw(slope, intercept, inp.input(k), size)
    case Midpoint(mid) => if inp.ordinal(k) <= mid then 0 else Last(size)
    case SplitKey(boundary) => if k <= boundary then 0 else Last(size)
  }

  lemma ScaleMonotone(slope: real, x: real, y: real)
    requires slope >= 0.0 && x <= y
    ensures slope * x <= slope * y
  {
    assert slope * (y - x) >= 0.0;
  }

  lemma ClampMonotone(p: real, q: real, size: nat)
    requires p <= q
    ensures Clamp(p, size) <= Clamp(q, size)
  {
  }

  lemma PositionsOrdered(slope: real, intercept: real, x: real, y: real, size: nat, p: real, q: real)
    requires p <= q && p == slope * x + intercept && q == slope * y + intercept
    ensures PredictRaw(slope, intercept, x, size) <= PredictRaw(slope, intercept, y, size)
  {
    ClampMonotone(p, q, size);
  }

  lemma ShiftMonotone(slope: real, intercept: real, x: real, y: real)
    requires slope >= 0.0 && x <= y
    ensures slope * x + intercept <= slope * y + intercept
  {
    ScaleMonotone(slope, x, y);
  }

  lemma PredictRawMonotone(slope: real, intercept: real, x: real, y: real, size: nat)
    requires slope >= 0.0 && x <= y
    ensures PredictRaw(slope, intercept, x, size) <= PredictRaw(slope, intercept, y, size)
  {
    ShiftMonotone(slope, intercept, x, y);
    PositionsOrdered(slope, intercept, x, y, size, slope * x + intercept, slope * y + intercept);
  }

  /** Prediction is monotone in the key order for all three kinds of model, although model
      inputs and ordinals are only non-strictly monotone, and never leaves the array. */
  lemma PredictMonotone(inp: Inputs, model: Model, size: nat, a: Key, b: Key)
    requires Monotone(inp) && a <= b
    requires model.Linear? ==> model.slope >= 0.0
    requires size > 0
    ensures Predict(inp, model, size, a) <= Predict(inp, model, size, b) < size
  {
    if model.Linear? {
      PredictRawMonotone(model.slope, model.intercept, inp.input(a), inp.input(b), size);
    }
  }

  // ---------------------------------------------------------------------------------
  // Conflicts

  ghost predicate Nondecreasing(xs: seq<real>) {
    forall i, j :: 0 <= i <= j < |xs| ==> xs[i] <= xs[j]
  }

  /** The slots the inputs are sent to. */
  function Slots(xs: seq<real>, m: Model, size: nat): (s: seq<nat>)
    requires m.Linear?
    ensures |s| == |xs|
    ensures forall i :: 0 <= i < |s| ==> s[i] == PredictRaw(m.slope, m.intercept, xs[i], size)
  {
    seq(|xs|, i requires 0 <= i < |xs| => PredictRaw(m.slope, m.intercept, xs[i], size))
  }

  ghost function Used(s: seq<nat>): set<nat> {
    set i | 0 <= i < |s| :: s[i]
  }

  /** The number of keys that find their slot taken by an earlier key. */
  ghost function Conflicts(xs: seq<real>, m: Model, size: nat): int
    requires m.Linear?
  {
    |xs| - |Used(Slots(xs, m, size))|
  }

  lemma UsedSnoc(s: seq<nat>, i: nat)
    requires i < |s|
    ensures Used(s[..i + 1]) == Used(s[..i]) + {s[i]}
  {
    assert forall x :: x in Used(s[..i]) ==> x in Used(s[..i + 1]) by {
      forall x | x in Used(s[..i]) ensures x in Used(s[..i + 1]) {
        var j :| 0 <= j < i && s[..i][j] == x;
        assert s[..i + 1][j] == x;
      }
    }
    assert s[..i + 1][i] == s[i];
    forall x | x in Used(s[..i + 1]) ensures x in Used(s[..i]) + {s[i]} {
      var j :| 0 <= j < i + 1 && s[..i + 1][j] == x;
      if j < i {
        assert s[..i][j] == x;
      }
    }
  }

  lemma {:induction false} UsedBound(s: seq<nat>)
    ensures |Used(s)| <= |s|
  {
    if s != [] {
      var i := |s| - 1;
      UsedBound(s[..i]);
      UsedSnoc(s, i);
      assert s[..i + 1] == s;
    }
  }

  /** No conflicts means that all slots are different. */
  lemma {:induction false} NoConflictsInjective(s: seq<nat>)
    requires |Used(s)| == |s|
    ensures forall i, j :: 0 <= i < j < |s| ==> s[i] != s[j]
  {
    if s != [] {
      var n := |s| - 1;
      UsedSnoc(s, n);
      assert s[..n + 1] == s;
      UsedBound(s[..n]);
      NoConflictsInjective(s[..n]);
      forall i | 0 <= i < n ensures s[i] != s[n] {
        assert s[..n][i] in Used(s[..n]);
      }
    }
  }

  lemma SlotsNondecreasing(xs: seq<real>, m: Model, size: nat)
    requires Nondecreasing(xs) && m.Linear? && m.slope >= 0.0
    ensures forall i, j :: 0 <= i <= j < |xs| ==> Slots(xs, m, size)[i] <= Slots(xs, m, size)[j]
  {
    var s := Slots(xs, m, size);
    forall i, j | 0 <= i <= j < |xs| ensures s[i] <= s[j] {
      PredictRawMonotone(m.slope, m.intercept, xs[i], xs[j], size);
    }
  }

  /** In a nondecreasing sequence, a slot is new exactly when it differs from its neighbour. */
  lemma UsedNext(s: seq<nat>, i: nat)
    requires 0 < i < |s| && forall a, b :: 0 <= a <= b < |s| ==> s[a] <= s[b]
    ensures |Used(s[..i + 1])| == |Used(s[..i])| + if s[i] == s[i - 1] then 0 else 1
  {
    UsedSnoc(s, i);
    assert s[..i][i - 1] in Used(s[..i]);
    if s[i] != s[i - 1] {
      forall x | x in Used(s[..i]) ensures x < s[i] {
        var j :| 0 <= j < i && s[..i][j] == x;
        assert s[j] <= s[i - 1];
      }
    } else {
      assert Used(s[..i + 1]) == Used(s[..i]);
    }
  }

  /** Counting only adjacent repetitions finds all conflicts of sorted keys. */
  method CountConflictsFast(xs: seq<real>, m: Model, size: nat) returns (conflicts: nat)
    requires |xs| > 0 && Nondecreasing(xs) && m.Linear? && m.slope >= 0.0
    ensures conflicts == Conflicts(xs, m, size) < |xs|
  {
    ghost var s := Slots(xs, m, size);
    SlotsNondecreasing(xs, m, size);
    conflicts := 0;
    var prev := PredictRaw(m.slope, m.intercept, xs[0], size);
    UsedFirst(s);
    for i := 1 to |xs|
      invariant prev == s[i - 1]
      invariant conflicts == i - |Used(s[..i])| < i
    {
      var slot := PredictRaw(m.slope, m.intercept, xs[i], size);
      assert slot == s[i];
      UsedNext(s, i);
      if slot == prev {
        conflicts := conflicts + 1;
      }
      prev := slot;
    }
    assert s[..|xs|] == s;
  }

  lemma UsedFirst(s: seq<nat>)
    requires |s| > 0
    ensures |Used(s[..1])| == 1
  {
    UsedSnoc(s, 0);
    assert Used(s[..1]) == {s[0]};
  }

  /** Counting with an occupancy table finds the conflicts of keys in any order. */
  method CountConflicts(xs: seq<real>, m: Model, size: nat) returns (conflicts: nat)
    requires m.Linear? && size > 0
    ensures conflicts == Conflicts(xs, m, size)
  {
    ghost var s := Slots(xs, m, size);
    var occupied := new bool[size](_ => false);
    conflicts := 0;
    for i := 0 to |xs|
      invariant forall x :: 0 <= x < size ==> (occupied[x] <==> x in Used(s[..i]))
      invariant conflicts == i - |Used(s[..i])|
    {
      var slot := PredictRaw(m.slope, m.intercept, xs[i], size);
      UsedSnoc(s, i);
      if occupied[slot] {
        assert Used(s[..i + 1]) == Used(s[..i]);
        conflicts := conflicts + 1;
      } else {
        assert |Used(s[..i + 1])| == |Used(s[..i])| + 1;
        occupied[slot] := true;
      }
    }
    assert s[..|xs|] == s;
  }

  // ---------------------------------------------------------------------------------
  // FMCD

  datatype FmcdResult = FmcdResult(model: Model, size: nat, conflicts: nat)

  function Ceil(x: real): int { -(-x).Floor }

  function ArraySize(n: nat, expansion: real, headroom: real): nat {
    var c := Ceil(n as real * expansion * (1.0 + headroom));
    if c < n then n else c
  }

  /** The model for slope `s` that sends input `first` to slot 0. */
  function Through(s: real, first: real): Model { Linear(s, -s * first) }

  function KeyRange(xs: seq<real>): real
    requires |xs| > 0
  {
    xs[|xs| - 1] - xs[0]
  }

  /** Linear interpolation over the key range and its headroom. */
  function Baseline(xs: seq<real>, headroom: real, size: nat): Model
    requires |xs| > 0 && KeyRange(xs) * (1.0 + headroom) > 0.0
  {
    Through((size as real - 1.0) / (KeyRange(xs) * (1.0 + headroom)), xs[0])
  }

  /** The j-th candidate moves one largest gap by `j` slots. */
  function CandidateModel(xs: seq<real>, gap: real, j: nat): Model
    requires |xs| > 0 && gap > 0.0
  {
    Through(j as real / gap, xs[0])
  }

  function Gap(xs: seq<real>, i: nat): real
    requires i + 1 < |xs|
  {
    xs[i + 1] - xs[i]
  }

  /** `gap` is the largest of the first `n` gaps between neighbours, or zero. */
  ghost predicate LargestOf(xs: seq<real>, n: nat, gap: real)
    requires n < |xs|
  {
    && gap >= 0.0
    && (forall i :: 0 <= i < n ==> Gap(xs, i) <= gap)
    && (gap == 0.0 || exists i :: 0 <= i < n && Gap(xs, i) == gap)
  }

  ghost predicate IsMaxGap(xs: seq<real>, gap: real) {
    |xs| > 0 && LargestOf(xs, |xs| - 1, gap)
  }

  /** The j-th FMCD candidate is tried when its slope keeps the last key in the array. */
  predicate Candidate(j: nat, gap: real, size: nat, range: real) {
    1 <= j <= MAX_FMCD_CANDIDATES && gap > EPSILON && range > 0.0
    && j as real / gap <= (size as real - 1.0) / range
  }

  lemma SizeBound(n: nat, expansion: real, headroom: real)
    requires n >= 2 && expansion >= 1.0 && headroom >= 0.0
    ensures ArraySize(n, expansion, headroom) as real >= 2.0 * (1.0 + headroom)
    ensures ArraySize(n, expansion, headroom) >= n
  {
    var mult := 1.0 + headroom;
    var x := n as real * expansion;
    assert x >= n as real by {
      ScaleMonotone(n as real, 1.0, expansion);
    }
    ScaleMonotone(mult, 2.0, x);
    assert x * mult == n as real * expansion * (1.0 + headroom);
    assert Ceil(x * mult) as real >= x * mult;
  }

  /** The size is the number of keys, expanded and with headroom, rounded up. */
  lemma SizeExact(n: nat, expansion: real, headroom: real)
    requires n >= 1 && expansion >= 1.0 && headroom >= 0.0
    ensures var wanted := n as real * expansion * (1.0 + headroom);
            wanted <= ArraySize(n, expansion, headroom) as real < wanted + 1.0
  {
    var x := n as real * expansion;
    ScaleMonotone(n as real, 1.0, expansion);
    ScaleMonotone(x, 1.0, 1.0 + headroom);
    CeilExact(x * (1.0 + headroom));
  }

  lemma CeilExact(x: real)
    ensures x <= Ceil(x) as real < x + 1.0
  {
  }

  /** Inside the array a position goes to the nearest slot, and outside to the nearer end. */
  lemma ClampNearest(pos: real, size: nat)
    requires size > 0
    ensures 0.0 <= pos <= size as real - 1.0 ==> -0.5 <= Clamp(pos, size) as real - pos <= 0.5
    ensures pos < 0.0 ==> Clamp(pos, size) == 0
    ensures pos > size as real - 1.0 ==> Clamp(pos, size) == size - 1
  {
    FloorExact(pos + 0.5);
  }

  lemma FloorExact(x: real)
    ensures x - 1.0 < x.Floor as real <= x
  {
  }

  /** The baseline sends the first key to position 0, and the last key so far that the array
      reaches beyond it by the headroom. */
  lemma BaselinePlaces(xs: seq<real>, headroom: real, size: nat)
    requires |xs| > 0 && KeyRange(xs) * (1.0 + headroom) > 0.0
    ensures var m := Baseline(xs, headroom, size); var last := xs[|xs| - 1];
            && m.slope * xs[0] + m.intercept == 0.0
            && (m.slope * last + m.intercept) * (1.0 + headroom) == size as real - 1.0
  {
    var m, last, spread := Baseline(xs, headroom, size), xs[|xs| - 1], KeyRange(xs) * (1.0 + headroom);
    assert m.slope * last + m.intercept == m.slope * KeyRange(xs);
    Associate(m.slope, KeyRange(xs), 1.0 + headroom);
    DivideBack(size as real - 1.0, spread);
  }

  lemma DivideBack(a: real, b: real)
    requires b > 0.0
    ensures a / b * b == a
  {
  }

  /** Candidate `j` sends the first key to position 0, and moves the largest gap by `j`. */
  lemma CandidatePlaces(xs: seq<real>, gap: real, j: nat, i: nat)
    requires i + 1 < |xs| && gap > 0.0 && Gap(xs, i) == gap
    ensures var m := CandidateModel(xs, gap, j);
            && m.slope * xs[0] + m.intercept == 0.0
            && (m.slope * xs[i + 1] + m.intercept) - (m.slope * xs[i] + m.intercept) == j as real
  {
    var s := j as real / gap;
    assert s * xs[i + 1] - s * xs[i] == s * Gap(xs, i);
    DivideBack(j as real, gap);
  }

  /** The candidates are the first 32, as long as the last key stays in the array. */
  lemma CandidatesAre(j: nat, gap: real, size: nat, range: real)
    requires gap > 0.0 && range > 0.0
    ensures Candidate(j, gap, size, range)
       <==> 1 <= j <= 32 && gap > 1.0 / 4503599627370496.0 && j as real / gap * range <= size as real - 1.0
  {
    var s, top := j as real / gap, size as real - 1.0;
    DivideBack(top, range);
    if s <= top / range {
      ScaleMonotone(range, s, top / range);
    } else {
      ScaleStrict(top / range, s, range);
    }
  }

  /** A model through the first input separates the last one from it whenever the last one's
      position is at least one slot away. */
  lemma FarApart(xs: seq<real>, s: real, size: nat)
    requires |xs| > 0 && size >= 2 && s * KeyRange(xs) >= 1.0
    ensures var m := Through(s, xs[0]);
            PredictRaw(m.slope, m.intercept, xs[0], size) == 0 <
            PredictRaw(m.slope, m.intercept, xs[|xs| - 1], size)
  {
    var last := xs[|xs| - 1];
    assert s * xs[0] + -s * xs[0] == 0.0;
    assert s * last + -s * xs[0] == s * KeyRange(xs);
  }

  /** The linear baseline separates the first key from the last. */
  lemma BaselineSeparates(xs: seq<real>, expansion: real, headroom: real)
    requires |xs| >= 2 && expansion >= 1.0 && headroom >= 0.0 && KeyRange(xs) >= EPSILON
    ensures KeyRange(xs) * (1.0 + headroom) > 0.0
    ensures var size := ArraySize(|xs|, expansion, headroom);
            var s := (size as real - 1.0) / (KeyRange(xs) * (1.0 + headroom));
            size >= 2 && s > 0.0 && s * KeyRange(xs) >= 1.0
  {
    var size := ArraySize(|xs|, expansion, headroom);
    var mult := 1.0 + headroom;
    SizeBound(|xs|, expansion, headroom);
    var r := KeyRange(xs);
    Stretch(r, mult, size as real - 1.0);
  }

  lemma Stretch(r: real, mult: real, top: real)
    requires r > 0.0 && mult >= 1.0 && top >= mult
    ensures r * mult > 0.0
    ensures top / (r * mult) > 0.0 && top / (r * mult) * r >= 1.0
  {
    ScaleMonotone(r, 1.0, mult);
    var spread := r * mult;
    var s := top / spread;
    Quotient(top, spread);
    Reach(s, r, mult, top);
  }

  lemma Quotient(a: real, b: real)
    requires a > 0.0 && b > 0.0
    ensures a / b > 0.0 && a / b * b == a
  {
  }

  lemma Reach(s: real, r: real, mult: real, top: real)
    requires s * (r * mult) == top && mult >= 1.0 && top >= mult
    ensures s * r >= 1.0
  {
    Associate(s, r, mult);
    Cancel(s * r, 1.0, mult);
  }

  lemma Cancel(a: real, b: real, c: real)
    requires c > 0.0 && a * c >= b * c
    ensures a >= b
  {
    if a < b {
      ScaleStrict(a, b, c);
    }
  }

  lemma ScaleStrict(a: real, b: real, c: real)
    requires a < b && c > 0.0
    ensures a * c < b * c
  {
    assert (b - a) * c > 0.0;
  }

  lemma Associate(a: real, b: real, c: real)
    ensures a * (b * c) == (a * b) * c
  {
  }

  /** A largest gap never exceeds the key range, so every candidate slope moves the last key
      at least one slot away from the first. */
  lemma CandidateSeparates(xs: seq<real>, gap: real, j: nat, size: nat)
    requires |xs| >= 2 && Nondecreasing(xs) && IsMaxGap(xs, gap)
    requires Candidate(j, gap, size, KeyRange(xs))
    ensures j as real / gap > 0.0 && j as real / gap * KeyRange(xs) >= 1.0
  {
    var r := KeyRange(xs);
    assert gap <= r by {
      var i :| 0 <= i < |xs| - 1 && Gap(xs, i) == gap;
      assert xs[0] <= xs[i] && xs[i + 1] <= xs[|xs| - 1];
    }
    Step(j as real, gap, r);
  }

  lemma Step(j: real, gap: real, r: real)
    requires j >= 1.0 && 0.0 < gap <= r
    ensures j / gap > 0.0 && j / gap * r >= 1.0
  {
    Quotient(j, gap);
    ScaleMonotone(j / gap, gap, r);
  }

  /** What `fit_fmcd` promises of its result: a monotone model, its conflicts, and for keys
      that are far enough apart, the first and the last key in different slots. */
  ghost predicate Fitted(xs: seq<real>, expansion: real, headroom: real, r: FmcdResult)
    requires |xs| > 0
  {
    && r.model.Linear? && r.model.slope >= 0.0
    && r.size >= |xs|
    && r.conflicts == Conflicts(xs, r.model, r.size)
    && (|xs| > 1 && KeyRange(xs) >= EPSILON ==>
          && r.size == ArraySize(|xs|, expansion, headroom)
          && PredictRaw(r.model.slope, r.model.intercept, xs[0], r.size)
           < PredictRaw(r.model.slope, r.model.intercept, xs[|xs| - 1], r.size))
  }

  method LargestGap(xs: seq<real>) returns (gap: real)
    requires |xs| > 0
    ensures IsMaxGap(xs, gap)
  {
    gap := 0.0;
    for i := 0 to |xs| - 1
      invariant LargestOf(xs, i, gap)
    {
      var g := Gap(xs, i);
      if g > gap {
        gap := g;
      }
    }
  }

  ghost predicate Separates(xs: seq<real>, m: Model, size: nat)
    requires |xs| > 0
  {
    && m.Linear? && m.slope >= 0.0
    && PredictRaw(m.slope, m.intercept, xs[0], size) < PredictRaw(m.slope, m.intercept, xs[|xs| - 1], size)
  }

  /** Conflicts of the j-th candidate. */
  ghost function CandidateConflicts(xs: seq<real>, gap: real, j: nat, size: nat): int
    requires gap > 0.0 && |xs| > 0
  {
    Conflicts(xs, CandidateModel(xs, gap, j), size)
  }

  /** The model is the baseline or one of the candidates. */
  ghost predicate Tried(xs: seq<real>, gap: real, size: nat, base: Model, m: Model)
    requires gap > 0.0 && |xs| > 0
  {
    m == base || exists j :: Candidate(j, gap, size, KeyRange(xs)) && m == CandidateModel(xs, gap, j)
  }

  /** The fitted model is the baseline, or a candidate for the largest gap. */
  ghost predicate FromCandidates(xs: seq<real>, headroom: real, r: FmcdResult)
    requires |xs| > 0 && KeyRange(xs) * (1.0 + headroom) > 0.0
  {
    || r.model == Baseline(xs, headroom, r.size)
    || exists gap, j :: IsMaxGap(xs, gap) && Candidate(j, gap, r.size, KeyRange(xs)) && r.model == CandidateModel(xs, gap, j)
  }

  lemma TriedSeparates(xs: seq<real>, gap: real, size: nat, base: Model, m: Model)
    requires |xs| >= 2 && Nondecreasing(xs) && IsMaxGap(xs, gap) && gap > EPSILON && size >= 2
    requires Separates(xs, base, size) && Tried(xs, gap, size, base, m)
    ensures Separates(xs, m, size)
  {
    if m != base {
      var j :| Candidate(j, gap, size, KeyRange(xs)) && m == CandidateModel(xs, gap, j);
      ThroughSeparates(xs, gap, j, size, j as real / gap);
    }
  }

  lemma ThroughSeparates(xs: seq<real>, gap: real, j: nat, size: nat, s: real)
    requires |xs| >= 2 && Nondecreasing(xs) && IsMaxGap(xs, gap) && size >= 2
    requires Candidate(j, gap, size, KeyRange(xs)) && s == j as real / gap
    ensures Separates(xs, Through(s, xs[0]), size)
  {
    CandidateSeparates(xs, gap, j, size);
    FarApart(xs, s, size);
  }

  /** The candidate loop: stops at the first slope that is too steep, or once nothing
      conflicts. */
  method TryCandidates(xs: seq<real>, gap: real, size: nat, base: Model, c: nat) returns (best: Model, conflicts: nat)
    requires |xs| >= 2 && Nondecreasing(xs) && IsMaxGap(xs, gap) && gap > EPSILON
    requires KeyRange(xs) > 0.0
    requires base.Linear? && c == Conflicts(xs, base, size)
    ensures Tried(xs, gap, size, base, best)
    ensures conflicts == Conflicts(xs, best, size) <= c
    ensures forall j :: Candidate(j, gap, size, KeyRange(xs)) ==> conflicts <= CandidateConflicts(xs, gap, j, size)
  {
    best, conflicts := base, c;
    var maxSlope := (size as real - 1.0) / KeyRange(xs);
    for j := 1 to MAX_FMCD_CANDIDATES + 1
      invariant Tried(xs, gap, size, base, best)
      invariant conflicts == Conflicts(xs, best, size) <= c
      invariant forall i :: 1 <= i < j && Candidate(i, gap, size, KeyRange(xs)) ==>
                  conflicts <= CandidateConflicts(xs, gap, i, size)
    {
      var slope := j as real / gap;
      if slope > maxSlope {
        SteeperRejected(xs, gap, j, size);
        return;
      }
      CandidateSeparates(xs, gap, j, size);
      var model := CandidateModel(xs, gap, j);
      var found := CountConflictsFast(xs, model, size);
      if found < conflicts {
        best, conflicts := model, found;
      }
      if conflicts == 0 {
        ConflictsNonnegative(xs, gap, size);
        return;
      }
    }
  }

  lemma SteeperRejected(xs: seq<real>, gap: real, j: nat, size: nat)
    requires |xs| > 0 && gap > 0.0 && KeyRange(xs) > 0.0
    requires j as real / gap > (size as real - 1.0) / KeyRange(xs)
    ensures forall i :: j <= i ==> !Candidate(i, gap, size, KeyRange(xs))
  {
    forall i: nat | j <= i ensures !Candidate(i, gap, size, KeyRange(xs)) {
      DivideMonotone(j as real, i as real, gap);
    }
  }

  lemma ConflictsNonnegative(xs: seq<real>, gap: real, size: nat)
    requires |xs| > 0 && gap > 0.0
    ensures forall i :: CandidateConflicts(xs, gap, i, size) >= 0
  {
    forall i: nat ensures CandidateConflicts(xs, gap, i, size) >= 0 {
      UsedBound(Slots(xs, CandidateModel(xs, gap, i), size));
    }
  }

  lemma DivideMonotone(a: real, b: real, c: real)
    requires a <= b && c > 0.0
    ensures a / c <= b / c
  {
    var x, y := a / c, b / c;
    if y < x {
      ScaleStrict(y, x, c);
    }
  }

  /** What `fit_fmcd` returns: a single key gets a single slot, keys that cannot be told apart
      the middle of the array, and all others the baseline or a candidate, such that no
      admissible candidate has fewer conflicts. */
  ghost predicate BestFit(xs: seq<real>, expansion: real, headroom: real, r: FmcdResult)
    requires |xs| > 0
  {
    && Fitted(xs, expansion, headroom, r)
    && (|xs| == 1 ==> r == FmcdResult(Linear(0.0, 0.0), 1, 0))
    && (|xs| > 1 && KeyRange(xs) < EPSILON ==>
          r.size == ArraySize(|xs|, expansion, headroom) && r.model == Linear(0.0, (r.size / 2) as real))
    && (|xs| > 1 && KeyRange(xs) >= EPSILON ==>
          && KeyRange(xs) * (1.0 + headroom) > 0.0 && FromCandidates(xs, headroom, r)
          && r.conflicts <= Conflicts(xs, Baseline(xs, headroom, r.size), r.size)
          && forall gap, j :: IsMaxGap(xs, gap) && Candidate(j, gap, r.size, KeyRange(xs)) ==>
               r.conflicts <= CandidateConflicts(xs, gap, j, r.size))
  }

  /** FMCD: the linear baseline, improved by slopes that are multiples of the inverse of the
      largest gap. No admissible candidate has fewer conflicts than the result. */
  method FitFmcd(xs: seq<real>, expansion: real, headroom: real) returns (r: FmcdResult)
    requires |xs| > 0 && expansion >= 1.0
    requires headroom >= 0.0 && Nondecreasing(xs)
    ensures BestFit(xs, expansion, headroom, r)
  {
    var n := |xs|;
    if n == 1 {
      ConstantConflicts(xs, Linear(0.0, 0.0), 1);
      return FmcdResult(Linear(0.0, 0.0), 1, 0);
    }
    var size := ArraySize(n, expansion, headroom);
    SizeBound(n, expansion, headroom);
    var range := KeyRange(xs);
    if range < EPSILON {
      var m := Linear(0.0, (size / 2) as real);
      ConstantConflicts(xs, m, size);
      return FmcdResult(m, size, n - 1);
    }
    BaselineSeparates(xs, expansion, headroom);
    var base := Baseline(xs, headroom, size);
    FarApart(xs, base.slope, size);
    var lin := CountConflictsFast(xs, base, size);
    r := FmcdResult(base, size, lin);
    if lin != 0 {
      var gap := LargestGap(xs);
      if gap > EPSILON {
        var best, conflicts := TryCandidates(xs, gap, size, base, lin);
        TriedSeparates(xs, gap, size, base, best);
        r := FmcdResult(best, size, conflicts);
      }
      MaxGapUnique(xs, gap);
    } else {
      forall gap | IsMaxGap(xs, gap) && gap > EPSILON
        ensures forall j :: CandidateConflicts(xs, gap, j, size) >= 0
      {
        ConflictsNonnegative(xs, gap, size);
      }
    }
  }

  lemma MaxGapUnique(xs: seq<real>, gap: real)
    requires Nondecreasing(xs) && IsMaxGap(xs, gap)
    ensures forall g :: IsMaxGap(xs, g) ==> g == gap
  {
    forall g | IsMaxGap(xs, g) ensures g == gap {
      if g != 0.0 {
        var i :| 0 <= i < |xs| - 1 && Gap(xs, i) == g;
      }
      if gap != 0.0 {
        var i :| 0 <= i < |xs| - 1 && Gap(xs, i) == gap;
      }
    }
  }

  /** All keys in one slot. */
  lemma ConstantConflicts(xs: seq<real>, m: Model, size: nat)
    requires |xs| > 0 && m.Linear? && m.slope == 0.0
    ensures Conflicts(xs, m, size) == |xs| - 1
  {
    var s := Slots(xs, m, size);
    assert s[0] in Used(s);
    assert Used(s) == {s[0]};
  }
}
