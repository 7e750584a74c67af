/** Bitwise operations on natural numbers and on byte strings: powers of two, the bitwise and, right
    shifts and masks, and what they mean in terms of quotients. Numbers are unbounded; the width of a
    word is a parameter where it matters. */
module Bits {
  import opened Php

  function Pow2(n: nat): (r: nat)
    ensures r >= 1
  {
    if n == 0 then 1 else 2 * Pow2(n - 1)
  }

  /** Bitwise and of two non-negative integers. */
  function And(x: nat, y: nat): nat
    decreases x
  {
    if x == 0 then 0 else (x % 2) * (y % 2) + 2 * And(x / 2, y / 2)
  }

  /** x shifted right by k bits. */
  function Shr(x: nat, k: nat): nat
    decreases k
  {
    if k == 0 then x else Shr(x / 2, k - 1)
  }

  /** A right shift is the quotient by a power of two. */
  lemma {:induction false} ShrIsQuotient(x: nat, k: nat)
    ensures Shr(x, k) == x / Pow2(k)
    decreases k
  {
    if k > 0 {
      ShrIsQuotient(x / 2, k - 1);
      HalfQuotient(x, Pow2(k - 1));
    }
  }

  /** And is the bitwise and: bit i of the result is 1 exactly when bit i of both operands is. */
  lemma {:induction false} AndBit(x: nat, y: nat, i: nat)
    ensures Shr(And(x, y), i) % 2 == 1 <==> Shr(x, i) % 2 == 1 && Shr(y, i) % 2 == 1
    decreases i
  {
    if x == 0 {
      ShrZero(i);
    } else {
      AndHalves(x, y);
      if i > 0 { AndBit(x / 2, y / 2, i - 1); }
    }
  }

  lemma HalfQuotient(x: nat, p: nat)
    requires p > 0
    ensures x / 2 / p == x / (2 * p)
  {
    var q, r := x / 2 / p, x / 2 % p;
    assert x / 2 == p * q + r;
    assert 2 * (p * q) == (2 * p) * q;
    DivModUnique(x, 2 * p, q, 2 * r + x % 2);
  }

  lemma {:induction false} ShrZero(k: nat)
    ensures Shr(0, k) == 0
    decreases k
  {
    if k > 0 { ShrZero(k - 1); }
  }

  lemma AndHalves(x: nat, y: nat)
    requires x > 0
    ensures And(x, y) / 2 == And(x / 2, y / 2)
    ensures And(x, y) % 2 == 1 <==> x % 2 == 1 && y % 2 == 1
  {
    var b := (x % 2) * (y % 2);
    assert x % 2 == 0 || x % 2 == 1;
    assert b == if x % 2 == 1 then y % 2 else 0;
  }

  lemma AndEven(x: nat, h: nat)
    ensures And(x, 2 * h) == 2 * And(x / 2, h)
  {
    assert 2 * h % 2 == 0 && 2 * h / 2 == h;
  }

  lemma AndOdd(x: nat, h: nat)
    ensures And(x, 2 * h + 1) == x % 2 + 2 * And(x / 2, h)
  {
    assert (2 * h + 1) % 2 == 1 && (2 * h + 1) / 2 == h;
  }

  lemma {:induction false} Pow2Monotone(a: nat, b: nat)
    requires a <= b
    ensures Pow2(a) <= Pow2(b)
  {
    if a < b { Pow2Monotone(a, b - 1); }
  }

  /** w - k ones followed by k zeros. */
  function Ones(w: nat, k: nat): nat
    requires k <= w
  {
    Pow2Monotone(k, w);
    Pow2(w) - Pow2(k)
  }

  lemma {:induction false} AndAllOnes(x: nat, w: nat)
    requires x < Pow2(w)
    ensures And(x, Ones(w, 0)) == x
    decreases w
  {
    if w > 0 {
      AndAllOnes(x / 2, w - 1);
      AndOdd(x, Ones(w - 1, 0));
    }
  }

  /** x and y agree under a mask of w - k ones and k zeros. */
  predicate AgreeUnderMask(x: nat, y: nat, w: nat, k: nat)
    requires k <= w
  {
    And(x, Ones(w, k)) == And(y, Ones(w, k))
  }

  /** Two w-bit numbers agree under the mask exactly when they agree after dropping its k low bits. */
  lemma {:induction false} MaskedEqual(x: nat, y: nat, w: nat, k: nat)
    requires k <= w && x < Pow2(w) && y < Pow2(w)
    ensures AgreeUnderMask(x, y, w, k) <==> Shr(x, k) == Shr(y, k)
    decreases w
  {
    if k == 0 {
      AndAllOnes(x, w);
      AndAllOnes(y, w);
    } else {
      MaskedEqual(x / 2, y / 2, w - 1, k - 1);
      OnesDoubled(w, k);
      AndEven(x, Ones(w - 1, k - 1));
      AndEven(y, Ones(w - 1, k - 1));
    }
  }

  lemma OnesDoubled(w: nat, k: nat)
    requires 0 < k <= w
    ensures Ones(w, k) == 2 * Ones(w - 1, k - 1)
  {
  }

  lemma QuotientInterval(x: nat, q: nat, p: nat)
    requires p > 0
    ensures q * p / p == q
    ensures x / p == q <==> q * p <= x < q * p + p
  {
    assert q * p == p * q + 0;
    DivModUnique(q * p, p, q, 0);
    assert x == p * (x / p) + x % p;
    if q * p <= x < q * p + p { DivModUnique(x, p, q, x - p * q); }
  }

  lemma {:induction false} ShrShr(x: nat, a: nat, b: nat)
    ensures Shr(x, a + b) == Shr(Shr(x, a), b)
    decreases a
  {
    if a > 0 { ShrShr(x / 2, a - 1, b); }
  }

  /** Dropping fewer than 8 bits keeps the leading part and the rest of the last byte apart. */
  lemma {:induction false} ShrApart(v: nat, b: nat, u: nat, c: nat, m: nat, k: nat)
    requires k <= m && b < Pow2(m) && c < Pow2(m)
    ensures Shr(v * Pow2(m) + b, k) == Shr(u * Pow2(m) + c, k) <==> v == u && Shr(b, k) == Shr(c, k)
    decreases k
  {
    var p := Pow2(m);
    if k == 0 {
      assert v * p == p * v && u * p == p * u;
      DivModUnique(v * p + b, p, v, b);
      DivModUnique(u * p + c, p, u, c);
    } else {
      var h := Pow2(m - 1);
      Halve(v, h, b);
      Halve(u, h, c);
      ShrApart(v, b / 2, u, c / 2, m - 1, k - 1);
    }
  }

  lemma Halve(v: nat, h: nat, b: nat)
    ensures (v * (2 * h) + b) / 2 == v * h + b / 2
  {
    assert v * (2 * h) == 2 * (v * h);
  }

  lemma AndZero(x: nat)
    ensures And(x, 0) == 0
    decreases x
  {
    if x > 0 { AndZero(x / 2); }
  }

  lemma Pow2Four(k: nat)
    ensures Pow2(k + 4) == 16 * Pow2(k)
  {
    assert Pow2(k + 4) == 2 * Pow2(k + 3);
    assert Pow2(k + 2) == 2 * Pow2(k + 1);
  }

  lemma Pow2Eight(k: nat)
    ensures Pow2(k + 8) == 256 * Pow2(k)
  {
    Pow2Four(k);
    Pow2Four(k + 4);
  }

  lemma Pow2Bytes(n: nat)
    requires n > 0
    ensures Pow2(8 * n) == 256 * Pow2(8 * (n - 1))
  {
    var k := 8 * (n - 1);
    assert 8 * n == k + 8;
    Pow2Eight(k);
  }

  lemma Scaled(v: nat, p: nat)
    ensures 256 * (v * p) == v * (256 * p)
  {
  }

  // ---------------------------------------------------------------- bytes

  type Byte = b: int | 0 <= b < 256 witness 0

  function AndBytes(x: seq<Byte>, y: seq<Byte>): (r: seq<nat>)
    requires |x| == |y|
    ensures |r| == |x|
  {
    if x == [] then [] else AndBytes(x[..|x| - 1], y[..|y| - 1]) + [And(x[|x| - 1], y[|y| - 1])]
  }

  /** Big-endian value of an address in network byte order. */
  function Value(s: seq<Byte>): nat {
    if s == [] then 0 else 256 * Value(s[..|s| - 1]) + s[|s| - 1]
  }

  /** Byte i of the mask with `bits` leading ones: a full byte, a partial byte, or nothing. */
  function MaskByte(bits: nat, i: nat): Byte {
    if i < bits / 8 then 255
    else if i == bits / 8 && bits % 8 != 0 then 255 * Pow2(8 - bits % 8) % 256
    else 0
  }

  function MaskBytes(bits: nat, n: nat): (r: seq<Byte>)
    ensures |r| == n
  {
    seq(n, i requires 0 <= i < n => MaskByte(bits, i))
  }

  lemma ShrByte(v: nat, b: Byte)
    ensures Shr(256 * v + b, 8) == v
  {
    var x := 256 * v + b;
    assert Shr(x, 8) == x / 2 / 2 / 2 / 2 / 2 / 2 / 2 / 2 by {
      assert Shr(x, 8) == Shr(x / 2 / 2, 6) == Shr(x / 2 / 2 / 2 / 2, 4) == Shr(x / 2 / 2 / 2 / 2 / 2 / 2, 2);
    }
  }

  lemma AndBytesSnoc(x: seq<Byte>, bits: nat)
    requires x != []
    ensures
      var n := |x| - 1;
      AndBytes(x, MaskBytes(bits, |x|)) == AndBytes(x[..n], MaskBytes(bits, n)) + [And(x[n], MaskByte(bits, n))]
  {
    assert MaskBytes(bits, |x|)[..|x| - 1] == MaskBytes(bits, |x| - 1);
  }

  lemma LastByteDropped(v: nat, b: Byte, u: nat, c: Byte, bits: nat, n: nat)
    requires bits <= 8 * n
    ensures And(b, MaskByte(bits, n)) == And(c, MaskByte(bits, n))
    ensures Shr(256 * v + b, 8 * (n + 1) - bits) == Shr(v, 8 * n - bits)
    ensures Shr(256 * u + c, 8 * (n + 1) - bits) == Shr(u, 8 * n - bits)
  {
    AndZero(b);
    AndZero(c);
    DropByte(v, b, 8 * n - bits);
    DropByte(u, c, 8 * n - bits);
  }

  lemma LastByteKept(v: nat, b: Byte, u: nat, c: Byte, bits: nat, n: nat)
    requires 8 * n < bits <= 8 * (n + 1)
    ensures Shr(256 * v + b, 8 * (n + 1) - bits) == Shr(256 * u + c, 8 * (n + 1) - bits)
       <==> v == u && And(b, MaskByte(bits, n)) == And(c, MaskByte(bits, n))
  {
    var k := 8 * (n + 1) - bits;
    LastMaskByteOnes(bits, n);
    MaskedByteEqual(b, c, k);
    KeepByte(v, b, u, c, k);
  }

  lemma DropByte(v: nat, b: Byte, k: nat)
    ensures Shr(256 * v + b, k + 8) == Shr(v, k)
  {
    ShrShr(256 * v + b, 8, k);
    ShrByte(v, b);
  }

  lemma KeepByte(v: nat, b: Byte, u: nat, c: Byte, k: nat)
    requires k < 8
    ensures Shr(256 * v + b, k) == Shr(256 * u + c, k) <==> v == u && Shr(b, k) == Shr(c, k)
  {
    assert Pow2(8) == 256;
    ShrApart(v, b, u, c, 8, k);
  }

  /** `chr(0xff << (8 - r))` is r ones followed by 8 - r zeros. */
  lemma LastMaskByteOnes(bits: nat, n: nat)
    requires 8 * n < bits <= 8 * (n + 1)
    ensures MaskByte(bits, n) == Ones(8, 8 * (n + 1) - bits)
  {
    assert Pow2(8) == 256;
    if bits == 8 * (n + 1) {
      assert bits / 8 == n + 1;
    } else {
      assert bits / 8 == n && bits % 8 == bits - 8 * n;
      var p := Pow2(8 - bits % 8);
      Pow2Monotone(8 - bits % 8, 8);
      assert 255 * p == 256 * (p - 1) + (256 - p);
      DivModUnique(255 * p, 256, p - 1, 256 - p);
      assert 256 - p != 256;
    }
  }

  lemma MaskedByteEqual(b: Byte, c: Byte, k: nat)
    requires k <= 8
    ensures And(b, Ones(8, k)) == And(c, Ones(8, k)) <==> Shr(b, k) == Shr(c, k)
  {
    assert Pow2(8) == 256;
    MaskedEqual(b, c, 8, k);
  }

  lemma {:induction false} FullBytes(x: seq<Byte>, bits: nat)
    requires bits >= 8 * |x|
    ensures AndBytes(x, MaskBytes(bits, |x|)) == x
  {
    if x != [] {
      var n := |x| - 1;
      assert MaskBytes(bits, |x|)[..n] == MaskBytes(bits, n);
      FullBytes(x[..n], bits);
      assert Pow2(8) == 256 && Pow2(0) == 1;
      AndAllOnes(x[n], 8);
    }
  }

  lemma {:induction false} ValueInjective(x: seq<Byte>, y: seq<Byte>)
    requires |x| == |y|
    ensures Value(x) == Value(y) <==> x == y
  {
    if x != [] {
      var n := |x| - 1;
      ValueInjective(x[..n], y[..n]);
      assert x == x[..n] + [x[n]] && y == y[..n] + [y[n]];
    }
  }

  function Zeros(n: nat): (r: seq<Byte>)
    ensures |r| == n
  {
    seq(n, _ => 0)
  }

  lemma {:induction false} ValuePadded(s: seq<Byte>, n: nat)
    ensures Value(s + Zeros(n)) == Value(s) * Pow2(8 * n)
    decreases n
  {
    if n == 0 {
      assert s + Zeros(0) == s && Pow2(0) == 1;
    } else {
      var t := s + Zeros(n);
      assert t[..|t| - 1] == s + Zeros(n - 1) && t[|t| - 1] == 0;
      ValuePadded(s, n - 1);
      Pow2Bytes(n);
      Scaled(Value(s), Pow2(8 * (n - 1)));
    }
  }

  lemma ValueShort(a: Byte, b: Byte)
    ensures Value([a]) == a && Value([a, b]) == 256 * a + b
  {
    assert [a][..0] == [] && [a, b][..1] == [a];
  }

  lemma {:induction false} ValueOfZeros(n: nat)
    ensures Value(Zeros(n)) == 0
  {
    if n > 0 {
      ValueOfZeros(n - 1);
      assert Zeros(n)[..n - 1] == Zeros(n - 1);
    }
  }
}
