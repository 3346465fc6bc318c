/** Byte strings: fixed-width little-endian numbers, big-endian numbers, and lexicographic
    order. */
module Bytes {
  type Byte = b: int | 0 <= b < 256

  type Bytes = seq<Byte>

  function Pow256(w: nat): (p: nat)
    ensures p > 0
  {
    if w == 0 then 1 else 256 * Pow256(w - 1)
  }

  // ---------------------------------------------------------------------------------
  // Little-endian numbers of a fixed width

  /** The low `w` bytes of `n`; anything above is cut off, as an integer cast does. */
  function LittleEndian(n: nat, w: nat): (b: Bytes)
    ensures |b| == w
  {
    if w == 0 then [] else [n % 256] + LittleEndian(n / 256, w - 1)
  }

  function FromLittleEndian(b: Bytes): nat {
    if b == [] then 0 else b[0] + 256 * FromLittleEndian(b[1..])
  }

  /** What fits in the width comes back. */
  lemma {:induction false} LittleEndianRoundTrip(n: nat, w: nat)
    requires n < Pow256(w)
    ensures FromLittleEndian(LittleEndian(n, w)) == n
  {
    if w > 0 {
      LittleEndianRoundTrip(n / 256, w - 1);
      assert LittleEndian(n, w)[1..] == LittleEndian(n / 256, w - 1);
    }
  }

  /** Every string of bytes is the encoding of the number it reads as. */
  lemma {:induction false} LittleEndianOf(b: Bytes)
    ensures FromLittleEndian(b) < Pow256(|b|) && LittleEndian(FromLittleEndian(b), |b|) == b
  {
    if b != [] {
      LittleEndianOf(b[1..]);
      var n := FromLittleEndian(b[1..]);
      assert (b[0] + 256 * n) % 256 == b[0] && (b[0] + 256 * n) / 256 == n;
      HeadTail(b);
    }
  }

  /** Byte `i` of a number is the one of weight 256 to the power of `i`: the lowest first. */
  lemma {:induction false} LittleEndianByte(n: nat, w: nat, i: nat)
    requires i < w
    ensures LittleEndian(n, w)[i] == n / Pow256(i) % 256
  {
    if i > 0 {
      LittleEndianByte(n / 256, w - 1, i - 1);
      DivideTwice(n, Pow256(i - 1));
    }
  }

  lemma DivideTwice(n: nat, d: nat)
    requires d > 0
    ensures n / 256 / d == n / (256 * d)
  {
    var q, r := n / 256 / d, n / 256 % d;
    assert n / 256 == q * d + r;
    var rest := 256 * r + n % 256;
    assert n == q * (256 * d) + rest;
    assert rest <= 256 * (d - 1) + 255 < 256 * d;
    WholeQuotient(q, 256 * d, rest);
  }

  lemma GapProduct(c: nat, gap: nat, p: nat)
    requires gap > 0
    ensures (c + gap) * p == c * p + gap * p >= c * p + p
  {
    var rest: nat := gap - 1;
    assert rest * p >= 0;
    assert gap * p == rest * p + p;
  }

  lemma WholeQuotient(q: nat, d: nat, r: nat)
    requires r < d
    ensures (q * d + r) / d == q
  {
    SameQuotient(q, (q * d + r) / d, d, r, (q * d + r) % d);
  }

  lemma SameQuotient(q: nat, s: nat, d: nat, r: nat, t: nat)
    requires q * d + r == s * d + t && r < d && t < d
    ensures q == s
  {
    if q < s {
      GapProduct(q, s - q, d);
    } else if s < q {
      GapProduct(s, q - s, d);
    }
  }

  /** Numbers of 4 and 8 bytes, written out. */
  lemma FourBytes(n: nat)
    ensures LittleEndian(n, 4) == [n % 256, n / 0x100 % 256, n / 0x1_0000 % 256, n / 0x100_0000 % 256]
  {
    var b := LittleEndian(n, 4);
    LittleEndianByte(n, 4, 0);
    LittleEndianByte(n, 4, 1);
    LittleEndianByte(n, 4, 2);
    LittleEndianByte(n, 4, 3);
    Powers();
    assert b == [b[0], b[1], b[2], b[3]];
  }

  lemma EightBytes(n: nat)
    ensures LittleEndian(n, 8) == [n % 256, n / 0x100 % 256, n / 0x1_0000 % 256, n / 0x100_0000 % 256,
                                   n / 0x1_0000_0000 % 256, n / 0x100_0000_0000 % 256,
                                   n / 0x1_0000_0000_0000 % 256, n / 0x100_0000_0000_0000 % 256]
  {
    var b := LittleEndian(n, 8);
    forall i: nat | i < 8 ensures b[i] == n / Pow256(i) % 256 {
      LittleEndianByte(n, 8, i);
    }
    Powers();
    assert b == [b[0], b[1], b[2], b[3], b[4], b[5], b[6], b[7]];
  }

  lemma Powers()
    ensures Pow256(0) == 1 && Pow256(1) == 0x100 && Pow256(2) == 0x1_0000 && Pow256(3) == 0x100_0000
    ensures Pow256(4) == 0x1_0000_0000 && Pow256(5) == 0x100_0000_0000
    ensures Pow256(6) == 0x1_0000_0000_0000 && Pow256(7) == 0x100_0000_0000_0000
  {
    assert Pow256(1) == 256 * Pow256(0);
    assert Pow256(3) == 256 * Pow256(2);
    assert Pow256(5) == 256 * Pow256(4);
    assert Pow256(7) == 256 * Pow256(6);
  }

  /** The length, cut to 32 bits, and then the bytes. */
  function Prefixed(b: Bytes): (p: Bytes)
    ensures |p| == 4 + |b|
  {
    LittleEndian(|b|, 4) + b
  }

  /** Numbers of 32 and 64 bits. */
  const U32: nat := 0x1_0000_0000
  const U64: nat := 0x1_0000_0000_0000_0000

  lemma Widths()
    ensures Pow256(4) == U32 && Pow256(8) == U64
  {
    assert Pow256(3) == 256 * Pow256(2);
    assert Pow256(5) == 256 * Pow256(4);
    assert Pow256(7) == 256 * Pow256(6);
  }

  // ---------------------------------------------------------------------------------
  // Lexicographic order

  predicate Less(a: Bytes, b: Bytes) {
    b != [] && (a == [] || a[0] < b[0] || (a[0] == b[0] && Less(a[1..], b[1..])))
  }

  lemma {:induction false} LessIrreflexive(a: Bytes)
    ensures !Less(a, a)
  {
    if a != [] {
      LessIrreflexive(a[1..]);
    }
  }

  lemma {:induction false} LessTotal(a: Bytes, b: Bytes)
    ensures Less(a, b) || a == b || Less(b, a)
  {
    if a != [] && b != [] && a[0] == b[0] {
      LessTotal(a[1..], b[1..]);
      assert a == [a[0]] + a[1..] && b == [b[0]] + b[1..];
    }
  }

  lemma {:induction false} LessTransitive(a: Bytes, b: Bytes, c: Bytes)
    requires Less(a, b) && Less(b, c)
    ensures Less(a, c)
  {
    if a != [] && a[0] == b[0] == c[0] {
      LessTransitive(a[1..], b[1..], c[1..]);
    }
  }

  lemma LessAsymmetric(a: Bytes, b: Bytes)
    requires Less(a, b)
    ensures !Less(b, a) && a != b
  {
    LessIrreflexive(a);
    if Less(b, a) {
      LessTransitive(a, b, a);
    }
  }

  // ---------------------------------------------------------------------------------
  // Concatenation

  /** The images of the elements, one after the other. */
  function Join<T, U>(f: T -> seq<U>, xs: seq<T>): seq<U> {
    if xs == [] then [] else f(xs[0]) + Join(f, xs[1..])
  }

  lemma {:induction false} JoinConcat<T, U>(f: T -> seq<U>, xs: seq<T>, ys: seq<T>)
    ensures Join(f, xs + ys) == Join(f, xs) + Join(f, ys)
  {
    if xs == [] {
      assert xs + ys == ys;
    } else {
      assert (xs + ys)[1..] == xs[1..] + ys;
      JoinConcat(f, xs[1..], ys);
    }
  }

  lemma JoinOne<T, U>(f: T -> seq<U>, x: T)
    ensures Join(f, [x]) == f(x)
  {
  }

  lemma JoinCons<T, U>(f: T -> seq<U>, x: T, xs: seq<T>)
    ensures Join(f, [x] + xs) == f(x) + Join(f, xs)
  {
    assert ([x] + xs)[1..] == xs;
  }

  lemma JoinSnoc<T, U>(f: T -> seq<U>, xs: seq<T>, x: T)
    ensures Join(f, xs + [x]) == Join(f, xs) + f(x)
  {
    JoinConcat(f, xs, [x]);
    JoinOne(f, x);
  }

  lemma JoinSplit<T, U>(f: T -> seq<U>, xs: seq<T>, i: nat)
    requires i < |xs|
    ensures Join(f, xs) == Join(f, xs[..i]) + (f(xs[i]) + Join(f, xs[i + 1..]))
  {
    var front, tail := xs[..i], xs[i..];
    assert front + tail == xs;
    assert tail[0] == xs[i] && tail[1..] == xs[i + 1..];
    JoinConcat(f, front, tail);
  }

  lemma {:induction false} InJoin<T, U>(f: T -> seq<U>, xs: seq<T>, y: U)
    ensures y in Join(f, xs) <==> exists i :: 0 <= i < |xs| && y in f(xs[i])
  {
    if xs != [] {
      InJoin(f, xs[1..], y);
      if y in Join(f, xs[1..]) {
        var i :| 0 <= i < |xs[1..]| && y in f(xs[1..][i]);
        assert y in f(xs[i + 1]);
      }
      if i :| 0 < i < |xs| && y in f(xs[i]) {
        assert y in f(xs[1..][i - 1]);
      }
    }
  }

  lemma Regroup<T>(a: seq<T>, b: seq<T>, c: seq<T>)
    ensures a + (b + c) == (a + b) + c
  {
  }

  lemma HeadTail<T>(s: seq<T>)
    requires s != []
    ensures [s[0]] + s[1..] == s
  {
  }
}
