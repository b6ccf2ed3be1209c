/**
 Matching client addresses against CIDR ranges.

 JavaScript's bit operators are written out as ECMAScript defines them: operands are taken modulo 2^32,
 results of `<<`, `|`, `&` and `~` are signed, and `>>> 0` makes them unsigned. `MatchMeaning` shows that
 the shift-and-mask test compares the leading prefix bits, that is, the quotients by 2^(32 - prefix)
 (section 3.1 of RFC 4632).
 */
module Cidr {

  // ---------------------------------------------------------------- 32-bit operators

  const TWO31: int := 0x8000_0000
  const TWO32: int := 0x1_0000_0000

  function Pow2(n: nat): (p: nat)
    ensures p >= 1
  {
    if n == 0 then 1 else 2 * Pow2(n - 1)
  }

  function ToUint32(x: int): (u: nat)
    ensures u < TWO32
  {
    x % TWO32
  }

  function ToInt32(x: int): int {
    if ToUint32(x) >= TWO31 then ToUint32(x) - TWO32 else ToUint32(x)
  }

  /** Bit by bit on numbers without sign, from the lowest bit up. */
  function AndBits(x: nat, y: nat): nat {
    if x == 0 || y == 0 then 0
    else (if x % 2 == 1 && y % 2 == 1 then 1 else 0) + 2 * AndBits(x / 2, y / 2)
  }

  function OrBits(x: nat, y: nat): nat
    decreases x + y
  {
    if x == 0 then y else if y == 0 then x
    else (if x % 2 == 1 || y % 2 == 1 then 1 else 0) + 2 * OrBits(x / 2, y / 2)
  }

  function BitAnd(x: int, y: int): int { ToInt32(AndBits(ToUint32(x), ToUint32(y))) }

  function BitOr(x: int, y: int): int { ToInt32(OrBits(ToUint32(x), ToUint32(y))) }

  function BitNot(x: int): int { ToInt32(-x - 1) }

  function ShiftLeft(x: int, n: nat): int { ToInt32(ToUint32(x) * Pow2(n % 32)) }

  /** `x >>> 0` */
  function Unsigned(x: int): nat { ToUint32(x) }

  // ---------------------------------------------------------------- addresses

  type Octets = seq<nat>

  predicate IsQuad(o: Octets) {
    |o| == 4 && forall i :: 0 <= i < 4 ==> o[i] <= 255
  }

  function IpToNumber(o: Octets): nat
    requires IsQuad(o)
  {
    Unsigned(BitOr(BitOr(BitOr(ShiftLeft(o[0], 24), ShiftLeft(o[1], 16)), ShiftLeft(o[2], 8)), o[3]))
  }

  /** The address as a number. */
  function Address(o: Octets): (a: nat)
    requires IsQuad(o)
    ensures a < TWO32
  {
    o[0] * 0x100_0000 + o[1] * 0x1_0000 + o[2] * 0x100 + o[3]
  }

  function Mask(prefix: nat): nat
    requires prefix <= 32
  {
    if prefix == 0 then 0 else Unsigned(ShiftLeft(BitNot(0), 32 - prefix))
  }

  /** The test at the end of `ipMatchesCIDR`. */
  predicate SameMasked(client: Octets, range: Octets, prefix: nat)
    requires IsQuad(client) && IsQuad(range) && prefix <= 32
  {
    BitAnd(IpToNumber(client), Mask(prefix)) == BitAnd(IpToNumber(range), Mask(prefix))
  }

  /** The network part of an address: its leading `prefix` bits. */
  function Network(o: Octets, prefix: nat): nat
    requires IsQuad(o) && prefix <= 32
  {
    Address(o) / Pow2(32 - prefix)
  }

  // ---------------------------------------------------------------- arithmetic of the operators

  lemma {:induction false} Pow2At32()
    ensures Pow2(32) == TWO32 && Pow2(24) == 0x100_0000 && Pow2(16) == 0x1_0000 && Pow2(8) == 0x100
  {
    assert Pow2(4) == 16;
    assert Pow2(8) == 0x100;
    assert Pow2(12) == 0x1000;
    assert Pow2(16) == 0x1_0000;
    assert Pow2(20) == 0x10_0000;
    assert Pow2(24) == 0x100_0000;
    assert Pow2(28) == 0x1000_0000;
    assert Pow2(32) == TWO32;
  }

  lemma {:induction false} Pow2Grows(m: nat, n: nat)
    requires m <= n
    ensures Pow2(m) <= Pow2(n)
    decreases n
  {
    if m >= n {
    } else {
      Pow2Grows(m, n - 1);
    }
  }

  /** x * 2^n and x / 2^n by doubling and halving: the proofs below need no multiplication. */
  function Doubled(x: nat, n: nat): nat {
    if n == 0 then x else 2 * Doubled(x, n - 1)
  }

  function Halved(x: nat, n: nat): nat {
    if n == 0 then x else Halved(x / 2, n - 1)
  }

  lemma {:induction false} DoubledIs(x: nat, n: nat)
    ensures Doubled(x, n) == x * Pow2(n)
  {
    if n == 0 {
    } else {
      DoubledIs(x, n - 1);
      DoubleProduct(x, Pow2(n - 1));
    }
  }

  lemma {:induction false} DoubleProduct(x: int, y: int)
    ensures 2 * (x * y) == x * (2 * y)
  {}

  lemma {:induction false} HalvedIs(x: nat, n: nat)
    ensures Halved(x, n) == x / Pow2(n)
  {
    if n == 0 {
    } else {
      HalvedIs(x / 2, n - 1);
      DivTwice(x, Pow2(n - 1));
    }
  }

  lemma {:induction false} DivTwice(x: nat, q: nat)
    requires q > 0
    ensures x / 2 / q == x / (2 * q)
  {
    var d, r := x / 2 / q, x / 2 % q;
    assert x / 2 == d * q + r;
    var low := 2 * r + x % 2;
    DoubleProduct(d, q);
    assert x == d * (2 * q) + low && low < 2 * q;
    QuotientIs(x, d, 2 * q, low);
  }

  lemma {:induction false} QuotientIs(x: nat, d: nat, q: nat, r: nat)
    requires q > 0 && x == d * q + r && r < q
    ensures x / q == d
  {
    var e := x / q;
    MulStrict(e, d, q);
    MulStrict(d, e, q);
    assert x == e * q + x % q;
  }

  lemma {:induction false} MulStrict(a: int, b: int, q: nat)
    ensures a < b ==> a * q + q <= b * q
  {
    if a < b {
      var d := b - a - 1;
      assert b == a + 1 + d && d * q >= 0;
      assert (a + 1 + d) * q == a * q + q + d * q;
    }
  }

  lemma {:induction false} DoubledSplits(a: nat, b: nat, s: nat)
    ensures Doubled(a, s) == Doubled(b, s) <==> a == b
  {
    if s == 0 {
    } else {
      DoubledSplits(a, b, s - 1);
    }
  }

  lemma {:induction false} DoubledHalved(x: nat, s: nat)
    ensures Doubled(Halved(x, s), s) <= x
    decreases s
  {
    if s == 0 {
    } else {
      DoubledHalved(x / 2, s - 1);
    }
  }

  lemma {:induction false} SignedRoundTrip(x: int)
    ensures ToUint32(ToInt32(x)) == ToUint32(x)
  {}

  /** Or of a multiple of 2^k and a number below 2^k is their sum. */
  lemma {:induction false} OrDisjoint(a: nat, b: nat, k: nat)
    requires b < Pow2(k)
    ensures OrBits(Doubled(a, k), b) == Doubled(a, k) + b
    decreases k
  {
    if k > 0 && a > 0 && b > 0 {
      OrDisjoint(a, b / 2, k - 1);
      assert Doubled(a, k) / 2 == Doubled(a, k - 1) && Doubled(a, k) % 2 == 0;
    } else if a == 0 {
      DoubledIs(0, k);
    }
  }

  /** One step of assembling an address: or-ing the next lower field in adds it. */
  lemma {:induction false} OrField(high: int, low: int, a: nat, b: nat, k: nat)
    requires ToUint32(high) == Doubled(a, k) && ToUint32(low) == b && b < Pow2(k)
    requires Doubled(a, k) + b < TWO32
    ensures ToUint32(BitOr(high, low)) == Doubled(a, k) + b
  {
    OrDisjoint(a, b, k);
    SignedRoundTrip(Doubled(a, k) + b);
  }

  lemma {:induction false} SmallUnsigned(x: int)
    requires 0 <= x < TWO32
    ensures ToUint32(x) == x
  {}

  lemma {:induction false} ShiftOctet(x: nat, n: nat)
    requires n < 32 && x <= 255 && Doubled(x, n) < TWO32
    ensures ToUint32(ShiftLeft(x, n)) == Doubled(x, n)
  {
    SmallUnsigned(x);
    ShiftSmall(x, n, Doubled(x, n));
    SmallUnsigned(Doubled(x, n));
  }

  lemma {:induction false} ShiftSmall(x: nat, n: nat, v: nat)
    requires n < 32 && ToUint32(x) == x && v == Doubled(x, n)
    ensures ToUint32(ShiftLeft(x, n)) == ToUint32(v)
  {
    DoubledIs(x, n);
    assert ShiftLeft(x, n) == ToInt32(v);
    SignedRoundTrip(v);
  }

  lemma {:induction false} DoubledConstants(x: nat)
    ensures Doubled(x, 8) == 0x100 * x && Doubled(x, 16) == 0x1_0000 * x && Doubled(x, 24) == 0x100_0000 * x
  {
    Pow2At32();
    DoubledIs(x, 8); DoubledIs(x, 16); DoubledIs(x, 24);
  }

  /** Three or-steps assemble the address, highest octet first. */
  lemma {:induction false} Assembled(o: Octets, s0: int, s1: int, s2: int)
    requires IsQuad(o) && ToUint32(s0) == 0x100_0000 * o[0] && ToUint32(s1) == 0x1_0000 * o[1]
             && ToUint32(s2) == 0x100 * o[2]
    ensures ToUint32(BitOr(s0, s1)) == 0x1_0000 * (0x100 * o[0] + o[1])
    ensures ToUint32(BitOr(BitOr(s0, s1), s2)) == 0x100 * (0x1_0000 * o[0] + 0x100 * o[1] + o[2])
    ensures ToUint32(BitOr(BitOr(BitOr(s0, s1), s2), o[3])) == Address(o)
  {
    var t1 := BitOr(s0, s1);
    var t2 := BitOr(t1, s2);
    OrAt(s0, s1, o[0], 0x1_0000 * o[1], 24, 0x100_0000);
    OrAt(t1, s2, 0x100 * o[0] + o[1], 0x100 * o[2], 16, 0x1_0000);
    SmallUnsigned(o[3]);
    OrAt(t2, o[3], 0x1_0000 * o[0] + 0x100 * o[1] + o[2], o[3], 8, 0x100);
  }

  lemma {:induction false} OrAt(high: int, low: int, a: nat, b: nat, k: nat, q: nat)
    requires (k == 8 && q == 0x100) || (k == 16 && q == 0x1_0000) || (k == 24 && q == 0x100_0000)
    requires ToUint32(high) == q * a && ToUint32(low) == b && b < q && q * a + b < TWO32
    ensures ToUint32(BitOr(high, low)) == q * a + b
  {
    Pow2At32();
    DoubledConstants(a);
    OrField(high, low, a, b, k);
  }

  lemma {:induction false} IpToNumberIsAddress(o: Octets)
    requires IsQuad(o)
    ensures IpToNumber(o) == Address(o)
  {
    DoubledConstants(o[0]); DoubledConstants(o[1]); DoubledConstants(o[2]);
    ShiftOctet(o[0], 24); ShiftOctet(o[1], 16); ShiftOctet(o[2], 8);
    Assembled(o, ShiftLeft(o[0], 24), ShiftLeft(o[1], 16), ShiftLeft(o[2], 8));
  }

  lemma {:induction false} AndAll(x: nat, n: nat)
    requires x < Pow2(n)
    ensures AndBits(x, Pow2(n) - 1) == x
    decreases n
  {
    if n == 0 {
    } else {
      AndAll(x / 2, n - 1);
      assert (Pow2(n) - 1) / 2 == Pow2(n - 1) - 1;
    }
  }

  /** And with ones from bit s up and zeros below clears the lowest s bits. */
  lemma {:induction false} AndHigh(x: nat, s: nat, n: nat)
    requires x < Pow2(n) && s <= n
    ensures Pow2(s) <= Pow2(n)
    ensures AndBits(x, Pow2(n) - Pow2(s)) == Doubled(Halved(x, s), s)
    decreases n
  {
    Pow2Grows(s, n);
    if s == 0 {
      AndAll(x, n);
    } else {
      Pow2Grows(s - 1, n - 1);
      AndHigh(x / 2, s - 1, n - 1);
      var m := Pow2(n - 1) - Pow2(s - 1);
      assert Pow2(n) - Pow2(s) == 2 * m && (2 * m) / 2 == m && (2 * m) % 2 == 0;
      if x == 0 || m == 0 {
        assert AndBits(x / 2, m) == 0;
      }
    }
  }

  lemma {:induction false} MaskIs(prefix: nat)
    requires 1 <= prefix <= 32
    ensures Pow2(32 - prefix) <= TWO32 && Mask(prefix) == TWO32 - Pow2(32 - prefix)
  {
    var q := Pow2(32 - prefix);
    MaskSize(32 - prefix);
    MaskArithmetic(q);
    ShiftOnes(32 - prefix, (TWO32 - 1) * q);
  }

  lemma {:induction false} MaskSize(s: nat)
    requires s <= 31
    ensures Pow2(s) < TWO32
  {
    Pow2Grows(s, 31);
    Pow2At32();
    assert Pow2(32) == 2 * Pow2(31);
  }

  lemma {:induction false} ShiftOnes(s: nat, v: nat)
    requires s <= 31 && v == (TWO32 - 1) * Pow2(s)
    ensures Unsigned(ShiftLeft(BitNot(0), s)) == ToUint32(v)
  {
    assert ToUint32(BitNot(0)) == TWO32 - 1;
    assert ShiftLeft(BitNot(0), s) == ToInt32(v);
    SignedRoundTrip(v);
  }

  lemma {:induction false} MaskArithmetic(q: nat)
    requires 1 <= q < TWO32
    ensures (TWO32 - 1) * q >= 0 && ToUint32((TWO32 - 1) * q) == TWO32 - q
  {
    var k := q - 1;
    assert (TWO32 - 1) * q == TWO32 * k + (TWO32 - q);
    ModOfSum(k, TWO32 - q);
  }

  lemma {:induction false} ModOfSum(k: nat, r: nat)
    requires r < TWO32
    ensures (TWO32 * k + r) % TWO32 == r
  {}

  lemma {:induction false} HalvedToZero(x: nat, n: nat)
    requires x < Pow2(n)
    ensures Halved(x, n) == 0
  {
    if n == 0 {
    } else {
      HalvedToZero(x / 2, n - 1);
    }
  }

  lemma {:induction false} MaskedIs(x: nat, prefix: nat, s: nat)
    requires x < TWO32 && prefix <= 32 && s == 32 - prefix
    ensures Doubled(Halved(x, s), s) < TWO32 && BitAnd(x, Mask(prefix)) == ToInt32(Doubled(Halved(x, s), s))
  {
    DoubledHalved(x, s);
    SmallUnsigned(x);
    assert Pow2(s + prefix) == TWO32 by { Pow2At32(); }
    if prefix == 0 {
      HalvedToZero(x, s);
      DoubledIs(0, s);
      assert AndBits(x, 0) == 0;
    } else {
      MaskIs(prefix);
      SmallUnsigned(Mask(prefix));
      AndHigh(x, s, s + prefix);
    }
  }

  lemma {:induction false} SignedInjective(a: int, b: int)
    requires 0 <= a < TWO32 && 0 <= b < TWO32
    ensures ToInt32(a) == ToInt32(b) <==> a == b
  {}

  /** For every pair of addresses and every prefix from 0 to 32 the masked test compares the network parts. */
  lemma {:induction false} MatchMeaning(client: Octets, range: Octets, prefix: nat)
    requires IsQuad(client) && IsQuad(range) && prefix <= 32
    ensures SameMasked(client, range, prefix) <==> Network(client, prefix) == Network(range, prefix)
  {
    IpToNumberIsAddress(client);
    IpToNumberIsAddress(range);
    MaskedNumbers(Address(client), Address(range), prefix, 32 - prefix);
  }

  lemma {:induction false} MaskedNumbers(x: nat, y: nat, prefix: nat, s: nat)
    requires x < TWO32 && y < TWO32 && prefix <= 32 && s == 32 - prefix
    ensures BitAnd(x, Mask(prefix)) == BitAnd(y, Mask(prefix)) <==> x / Pow2(s) == y / Pow2(s)
  {
    MaskedIs(x, prefix, s);
    MaskedIs(y, prefix, s);
    SignedInjective(Doubled(Halved(x, s), s), Doubled(Halved(y, s), s));
    DoubledSplits(Halved(x, s), Halved(y, s), s);
    HalvedIs(x, s);
    HalvedIs(y, s);
  }
}
