/** Byte-string keys: their model input and their exact ordinal. */
module KeyBytes {
  import opened Bytes
  import opened Keys
  import opened LinearModels

  /** The first `w` bytes, padded with zeros on the right. */
  function Padded(key: Bytes, w: nat): (b: Bytes)
    ensures |b| == w
    ensures forall i :: 0 <= i < w ==> b[i] == if i < |key| then key[i] else 0
  {
    seq(w, i requires 0 <= i < w => if i < |key| then key[i] else 0)
  }

  function BigEndian(b: Bytes): nat {
    if b == [] then 0 else b[0] * Pow256(|b| - 1) + BigEndian(b[1..])
  }

  lemma {:induction false} BigEndianBound(b: Bytes)
    ensures BigEndian(b) < Pow256(|b|)
  {
    if b != [] {
      BigEndianBound(b[1..]);
      LeadBound(b[0], Pow256(|b| - 1));
    }
  }

  lemma LeadBound(d: Byte, p: nat)
    ensures d * p + p <= 256 * p
  {
  }

  lemma LeadGap(c: Byte, d: Byte, p: nat)
    requires c < d
    ensures c * p + p <= d * p
  {
    GapProduct(c, d - c, p);
  }

  /** Numbers of the same width compare like their bytes. */
  lemma {:induction false} BigEndianOrder(a: Bytes, b: Bytes)
    requires |a| == |b| && Less(a, b)
    ensures BigEndian(a) < BigEndian(b)
  {
    if a[0] == b[0] {
      BigEndianOrder(a[1..], b[1..]);
    } else {
      BigEndianBound(a[1..]);
      LeadGap(a[0], b[0], Pow256(|a| - 1));
    }
  }

  /** Padding may identify keys, but never swaps them. */
  lemma {:induction false} PaddedOrder(a: Bytes, b: Bytes, w: nat)
    requires Less(a, b)
    ensures Padded(a, w) == Padded(b, w) || Less(Padded(a, w), Padded(b, w))
  {
    if w > 0 {
      var p, q := Padded(a, w), Padded(b, w);
      if a == [] {
        ZerosLeast(p, q);
      } else if a[0] == b[0] {
        PaddedOrder(a[1..], b[1..], w - 1);
        assert p[1..] == Padded(a[1..], w - 1) && q[1..] == Padded(b[1..], w - 1);
        assert p == [p[0]] + p[1..] && q == [q[0]] + q[1..];
      }
    }
  }

  lemma {:induction false} ZerosLeast(p: Bytes, q: Bytes)
    requires |p| == |q| && forall i :: 0 <= i < |p| ==> p[i] == 0
    ensures p == q || Less(p, q)
  {
    if p != [] && q[0] == 0 {
      ZerosLeast(p[1..], q[1..]);
      assert p == [p[0]] + p[1..] && q == [q[0]] + q[1..];
    }
  }

  /** Reading the padded prefix of a key as a big-endian number, through a zeroed buffer. */
  method PrefixNumber(key: Bytes, w: nat) returns (n: nat)
    ensures n == BigEndian(Padded(key, w))
  {
    var buf := new Byte[w](_ => 0);
    var len := if |key| < w then |key| else w;
    for i := 0 to len
      invariant forall j :: 0 <= j < w ==> buf[j] == if j < i then key[j] else 0
    {
      buf[i] := key[i];
    }
    assert buf[..] == Padded(key, w);
    n := 0;
    for i := 0 to w
      invariant n * Pow256(w - i) + BigEndian(buf[i..]) == BigEndian(Padded(key, w))
    {
      Shift(n, buf[i], Pow256(w - i - 1));
      assert buf[i..][1..] == buf[i + 1..];
      n := n * 256 + buf[i];
    }
  }

  lemma Shift(n: nat, d: Byte, p: nat)
    ensures n * (256 * p) + d * p == (n * 256 + d) * p
  {
  }

  // ---------------------------------------------------------------------------------
  // Model input

  /** Conversion of 64-bit numbers to floating point: it rounds, but keeps the order. */
  ghost predicate OrderKeeping(cast: nat -> real) {
    forall a: nat, b: nat :: a <= b ==> cast(a) <= cast(b)
  }

  function ModelInput(cast: nat -> real, key: Bytes): real {
    cast(BigEndian(Padded(key, 8)))
  }

  lemma PrefixOrder(a: Bytes, b: Bytes, w: nat)
    requires Less(a, b)
    ensures BigEndian(Padded(a, w)) <= BigEndian(Padded(b, w))
    ensures BigEndian(Padded(a, w)) == BigEndian(Padded(b, w)) <==> Padded(a, w) == Padded(b, w)
  {
    PaddedOrder(a, b, w);
    if Padded(a, w) != Padded(b, w) {
      BigEndianOrder(Padded(a, w), Padded(b, w));
    }
  }

  /** The model input of byte strings is monotone in lexicographic order. */
  lemma ModelInputMonotone(cast: nat -> real, a: Bytes, b: Bytes)
    requires OrderKeeping(cast) && Less(a, b)
    ensures ModelInput(cast, a) <= ModelInput(cast, b)
  {
    PrefixOrder(a, b, 8);
  }

  // ---------------------------------------------------------------------------------
  // Exact ordinal

  const I128_MIN: int := -0x8000_0000_0000_0000_0000_0000_0000_0000

  /** A 128-bit number reinterpreted as signed. */
  function AsSigned(u: nat): int
    requires u < -2 * I128_MIN
  {
    if u < -I128_MIN then u else u + 2 * I128_MIN
  }

  /** Exclusive or with the smallest signed number: it flips just the sign bit. */
  function FlipSign(i: int): int
    requires I128_MIN <= i < -I128_MIN
  {
    if i >= 0 then i + I128_MIN else i - I128_MIN
  }

  lemma Width16()
    ensures Pow256(16) == -2 * I128_MIN
  {
    assert Pow256(4) == U32 && Pow256(8) == U64 by {
      Widths();
    }
    assert Pow256(10) == 256 * Pow256(9) == 65536 * Pow256(8);
    assert Pow256(12) == 256 * Pow256(11) == 65536 * Pow256(10);
    assert Pow256(14) == 256 * Pow256(13) == 65536 * Pow256(12);
    assert Pow256(16) == 256 * Pow256(15) == 65536 * Pow256(14);
  }

  function Ordinal(key: Bytes): int {
    var u := BigEndian(Padded(key, 16));
    BigEndianBound(Padded(key, 16));
    Width16();
    FlipSign(AsSigned(u))
  }

  /** Reinterpreting and flipping the sign is the shift that maps all zeros to the smallest
      signed number. */
  lemma OrdinalIsShift(key: Bytes)
    ensures Ordinal(key) == BigEndian(Padded(key, 16)) + I128_MIN
    ensures I128_MIN <= Ordinal(key) < -I128_MIN
  {
    BigEndianBound(Padded(key, 16));
    Width16();
  }

  /** The ordinal is monotone, and tells two keys apart exactly when their padded 16-byte
      prefixes differ. */
  lemma OrdinalOrder(a: Bytes, b: Bytes)
    requires Less(a, b)
    ensures Ordinal(a) <= Ordinal(b)
    ensures Ordinal(a) < Ordinal(b) <==> Padded(a, 16) != Padded(b, 16)
  {
    OrdinalIsShift(a);
    OrdinalIsShift(b);
    PrefixOrder(a, b, 16);
  }

  /** Byte arrays of a fixed size up to 16 meet the strict contract. */
  lemma OrdinalInjectiveForShortArrays(a: Bytes, b: Bytes)
    requires |a| == |b| <= 16 && Less(a, b)
    ensures Ordinal(a) < Ordinal(b)
  {
    OrdinalOrder(a, b);
    if Padded(a, 16) == Padded(b, 16) {
      forall i | 0 <= i < |a| ensures a[i] == b[i] {
        assert Padded(a, 16)[i] == Padded(b, 16)[i];
      }
      assert a == b;
      LessIrreflexive(a);
    }
  }

  /** Strings do not: a trailing zero byte is invisible to the ordinal. */
  lemma OrdinalNotInjective()
    ensures Less([97], [97, 0]) && Ordinal([97]) == Ordinal([97, 0])
  {
    assert Less([], [0]);
    assert [97][1..] == [] && [97, 0][1..] == [0];
    assert Padded([97], 16) == Padded([97, 0], 16);
  }

  /** Both depend on the padded 16-byte prefix alone. */
  lemma PrefixDecides(cast: nat -> real, key: Bytes)
    ensures ModelInput(cast, key) == ModelInput(cast, Padded(key, 16)) && Ordinal(key) == Ordinal(Padded(key, 16))
    ensures ModelInput(cast, key) == cast(Prefix(key) / Pow256(8)) && Ordinal(key) == Prefix(key) + I128_MIN
  {
    assert Padded(Padded(key, 16), 8) == Padded(key, 8) && Padded(Padded(key, 16), 16) == Padded(key, 16);
    assert Padded(key, 16) == Padded(key, 8) + Padded(key, 16)[8..];
    BigEndianLead(Padded(key, 8), Padded(key, 16)[8..]);
    OrdinalIsShift(key);
    OrdinalIsShift(Padded(key, 16));
  }

  /** The padded 16-byte prefix as a number. */
  function Prefix(key: Bytes): nat { BigEndian(Padded(key, 16)) }

  lemma {:induction false} BigEndianConcat(a: Bytes, b: Bytes)
    ensures BigEndian(a + b) == BigEndian(a) * Pow256(|b|) + BigEndian(b)
  {
    if a == [] {
      assert a + b == b;
    } else {
      assert (a + b)[1..] == a[1..] + b;
      BigEndianConcat(a[1..], b);
      Pow256Sum(|a| - 1, |b|);
      Distribute(a[0], Pow256(|a| - 1), Pow256(|b|), BigEndian(a[1..]));
    }
  }

  lemma Distribute(d: nat, p: nat, q: nat, r: nat)
    ensures (d * p + r) * q == d * (p * q) + r * q
  {
  }

  lemma {:induction false} Pow256Sum(m: nat, n: nat)
    ensures Pow256(m + n) == Pow256(m) * Pow256(n)
  {
    if m > 0 {
      Pow256Sum(m - 1, n);
    }
  }

  lemma BigEndianLead(a: Bytes, b: Bytes)
    ensures BigEndian(a + b) / Pow256(|b|) == BigEndian(a)
  {
    BigEndianConcat(a, b);
    BigEndianBound(b);
    WholeQuotient(BigEndian(a), Pow256(|b|), BigEndian(b));
  }

  // ---------------------------------------------------------------------------------
  // The contract of the index

  /** Where a byte string stands in the order of keys. */
  function Position(x: Bytes): (p: Key)
    ensures 0.0 <= p < 1.0
  {
    if x == [] then 0.0 else (x[0] as real + 1.0 + Position(x[1..])) / 257.0
  }

  lemma {:induction false} PositionIncreases(a: Bytes, b: Bytes)
    requires Less(a, b)
    ensures Position(a) < Position(b)
  {
    if a != [] && a[0] == b[0] {
      PositionIncreases(a[1..], b[1..]);
    }
  }

  /** Positions order byte strings lexicographically. */
  lemma PositionOrder(a: Bytes, b: Bytes)
    ensures Less(a, b) <==> Position(a) < Position(b)
    ensures a == b <==> Position(a) == Position(b)
  {
    LessTotal(a, b);
    LessIrreflexive(a);
    if Less(a, b) {
      PositionIncreases(a, b);
    } else if Less(b, a) {
      PositionIncreases(b, a);
    }
  }

  /** Some byte string up to the position has this prefix. */
  ghost predicate Reached(k: Key, n: nat) {
    exists x :: Position(x) <= k && Prefix(x) == n
  }

  /** The greatest such prefix up to `n`. */
  ghost function GreatestReached(k: Key, n: nat): (g: nat)
    ensures g <= n && (g > 0 ==> Reached(k, g))
    ensures forall m: nat :: g < m <= n ==> !Reached(k, m)
  {
    if n == 0 || Reached(k, n) then n else GreatestReached(k, n - 1)
  }

  /** Every position, also one between byte strings, has the prefix of the greatest up to it. */
  ghost function Rank(k: Key): nat { GreatestReached(k, Pow256(16) - 1) }

  lemma GreatestMonotone(a: Key, b: Key, n: nat)
    requires a <= b
    ensures GreatestReached(a, n) <= GreatestReached(b, n)
  {
    var g := GreatestReached(a, n);
    if g > 0 {
      var x :| Position(x) <= a && Prefix(x) == g;
      assert Position(x) <= b;
      assert Reached(b, g);
    }
  }

  lemma GreatestOfPosition(x: Bytes, n: nat)
    requires Prefix(x) <= n
    ensures GreatestReached(Position(x), n) == Prefix(x)
  {
    var g := GreatestReached(Position(x), n);
    assert Reached(Position(x), Prefix(x));
    if g > Prefix(x) {
      var y :| Position(y) <= Position(x) && Prefix(y) == g;
      PositionOrder(y, x);
      if Less(y, x) {
        PrefixOrder(y, x, 16);
      }
    }
  }

  /** Byte strings as keys of the index. */
  ghost function ByteInputs(cast: nat -> real): Inputs {
    Inputs((k: Key) => cast(Rank(k) / Pow256(8)), (k: Key) => Rank(k) + I128_MIN)
  }

  /** Every byte string, at its position, has its own model input and ordinal. */
  lemma ByteKeysInputs(cast: nat -> real, x: Bytes)
    ensures ByteInputs(cast).input(Position(x)) == ModelInput(cast, x)
    ensures ByteInputs(cast).ordinal(Position(x)) == Ordinal(x)
  {
    BigEndianBound(Padded(x, 16));
    GreatestOfPosition(x, Pow256(16) - 1);
    PrefixDecides(cast, x);
  }

  lemma QuotientMonotone(a: nat, b: nat, d: nat)
    requires a <= b && d > 0
    ensures a / d <= b / d
  {
    var q, r, s, t := a / d, a % d, b / d, b % d;
    assert a == q * d + r && b == s * d + t;
    if q > s {
      GapProduct(s, q - s, d);
    }
  }

  /** Byte strings, all of them, meet what the index relies on. */
  lemma ByteKeysMonotone(cast: nat -> real)
    requires OrderKeeping(cast)
    ensures Monotone(ByteInputs(cast))
  {
    forall a: Key, b: Key | a <= b ensures Ordered(ByteInputs(cast), a, b) {
      GreatestMonotone(a, b, Pow256(16) - 1);
      QuotientMonotone(Rank(a), Rank(b), Pow256(8));
    }
    OrderedIsMonotone(ByteInputs(cast));
  }

  ghost predicate Ordered(inp: Inputs, a: Key, b: Key) {
    inp.input(a) <= inp.input(b) && inp.ordinal(a) <= inp.ordinal(b)
  }

  lemma OrderedIsMonotone(inp: Inputs)
    requires forall a: Key, b: Key :: a <= b ==> Ordered(inp, a, b)
    ensures Monotone(inp)
  {
    forall a: Key, b: Key | a <= b ensures inp.input(a) <= inp.input(b) && inp.ordinal(a) <= inp.ordinal(b) {
      assert Ordered(inp, a, b);
    }
  }
}
