/** Big-endian bit strings, and digits of a fixed number of bits (RFC 4648, sections 6 and 8). */
module Bits {
  import opened Basics

  type Bitstring = seq<bool>

  function Pow2(w: nat): (p: nat)
    ensures p > 0
  {
    if w == 0 then 1 else 2 * Pow2(w - 1)
  }

  /** The `w` low bits of `n`, most significant first. */
  function BitsOf(n: nat, w: nat): (bits: Bitstring)
    ensures |bits| == w
  {
    if w == 0 then [] else BitsOf(n / 2, w - 1) + [n % 2 == 1]
  }

  function Number(bits: Bitstring): nat {
    if bits == [] then 0 else 2 * Number(bits[..|bits| - 1]) + (if bits[|bits| - 1] then 1 else 0)
  }

  lemma {:induction false} NumberOfBits(n: nat, w: nat)
    requires n < Pow2(w)
    ensures Number(BitsOf(n, w)) == n
  {
    if w > 0 {
      NumberOfBits(n / 2, w - 1);
      assert BitsOf(n, w)[..w - 1] == BitsOf(n / 2, w - 1);
    }
  }

  lemma {:induction false} BitsOfNumber(bits: Bitstring)
    ensures Number(bits) < Pow2(|bits|)
    ensures BitsOf(Number(bits), |bits|) == bits
  {
    if bits != [] {
      BitsOfNumber(bits[..|bits| - 1]);
      assert Number(bits) / 2 == Number(bits[..|bits| - 1]);
    }
  }

  /** The digits, each written with `w` bits, one after the other. */
  function Spread(digits: seq<nat>, w: nat): Bitstring {
    if digits == [] then [] else BitsOf(digits[0], w) + Spread(digits[1..], w)
  }

  /** The whole groups of `w` bits, read as digits. */
  function Gather(bits: Bitstring, w: nat): seq<nat>
    requires w > 0
  {
    if |bits| < w then [] else [Number(bits[..w])] + Gather(bits[w..], w)
  }

  predicate Digits(digits: seq<nat>, w: nat) {
    forall d :: d in digits ==> d < Pow2(w)
  }

  lemma Step(n: nat, w: nat)
    requires n > 0
    ensures n * w == (n - 1) * w + w && (n - 1) * w >= 0
  {
  }

  lemma {:induction false} SpreadLength(digits: seq<nat>, w: nat)
    ensures |Spread(digits, w)| == |digits| * w
  {
    if digits != [] {
      SpreadLength(digits[1..], w);
      Step(|digits|, w);
    }
  }

  lemma {:induction false} GatherSpread(digits: seq<nat>, w: nat)
    requires w > 0 && Digits(digits, w)
    ensures Gather(Spread(digits, w), w) == digits
  {
    if digits != [] {
      var bits := Spread(digits, w);
      assert bits[..w] == BitsOf(digits[0], w) && bits[w..] == Spread(digits[1..], w);
      assert digits[0] in digits;
      NumberOfBits(digits[0], w);
      assert forall d :: d in digits[1..] ==> d in digits;
      GatherSpread(digits[1..], w);
    }
  }

  lemma {:induction false} SpreadGather(bits: Bitstring, w: nat, n: nat)
    requires w > 0 && |bits| == n * w
    ensures |Gather(bits, w)| == n && Digits(Gather(bits, w), w)
    ensures Spread(Gather(bits, w), w) == bits
  {
    if n > 0 {
      Step(n, w);
      BitsOfNumber(bits[..w]);
      SpreadGather(bits[w..], w, n - 1);
      assert bits == bits[..w] + bits[w..];
    } else {
      assert n * w == 0;
    }
  }

  /// Numbers

  /** The number that these digits write, most significant first. */
  function InBase(digits: seq<nat>, base: nat): nat {
    if digits == [] then 0 else InBase(digits[..|digits| - 1], base) * base + digits[|digits| - 1]
  }

  lemma {:induction false} NumberConcat(a: Bitstring, b: Bitstring)
    ensures Number(a + b) == Number(a) * Pow2(|b|) + Number(b)
  {
    if b == [] {
      assert a + b == a;
    } else {
      var n := |b| - 1;
      assert (a + b)[..|a| + n] == a + b[..n];
      NumberConcat(a, b[..n]);
      assert Number(a) * Pow2(n + 1) == 2 * (Number(a) * Pow2(n));
    }
  }

  lemma {:induction false} SpreadConcat(a: seq<nat>, b: seq<nat>, w: nat)
    ensures Spread(a + b, w) == Spread(a, w) + Spread(b, w)
  {
    if a == [] {
      assert a + b == b;
    } else {
      assert (a + b)[1..] == a[1..] + b;
      SpreadConcat(a[1..], b, w);
    }
  }

  /** The bits of the digits write the number the digits write. */
  lemma {:induction false} SpreadWrites(digits: seq<nat>, w: nat)
    requires Digits(digits, w)
    ensures Number(Spread(digits, w)) == InBase(digits, Pow2(w))
  {
    if digits != [] {
      var n := |digits| - 1;
      var d := digits[n];
      assert d in digits && forall x :: x in digits[..n] ==> x in digits;
      SpreadWrites(digits[..n], w);
      assert digits == digits[..n] + [d];
      SpreadConcat(digits[..n], [d], w);
      assert Spread([d], w) == BitsOf(d, w);
      NumberConcat(Spread(digits[..n], w), BitsOf(d, w));
      NumberOfBits(d, w);
    }
  }

  /** And so do the digits they are gathered into. */
  lemma GatherWrites(bits: Bitstring, w: nat, n: nat)
    requires w > 0 && |bits| == n * w
    ensures InBase(Gather(bits, w), Pow2(w)) == Number(bits)
  {
    SpreadGather(bits, w, n);
    SpreadWrites(Gather(bits, w), w);
  }
}
