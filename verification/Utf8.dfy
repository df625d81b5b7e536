/** The texts that are accepted are the encodings of Unicode scalar values (RFC 3629, sections 3 and 4). */
module Utf8 {
  import opened Basics
  import opened Cbor

  predicate IsScalar(n: nat) {
    n <= 0x10_FFFF && !(0xD800 <= n <= 0xDFFF)
  }

  /** One scalar value in as many bytes as it takes, six bits in each byte but the first. */
  function EncodeScalar(n: nat): (bytes: Bytes)
    requires IsScalar(n)
    ensures bytes != []
  {
    if n < 0x80 then [n]
    else if n < 0x800 then [0xc0 + n / 64, 0x80 + n % 64]
    else if n < 0x1_0000 then [0xe0 + n / 4096, 0x80 + n / 64 % 64, 0x80 + n % 64]
    else [0xf0 + n / 0x4_0000, 0x80 + n / 4096 % 64, 0x80 + n / 64 % 64, 0x80 + n % 64]
  }

  function EncodeScalars(scalars: seq<nat>): Bytes
    requires forall n :: n in scalars ==> IsScalar(n)
  {
    if scalars == [] then [] else EncodeScalar(scalars[0]) + EncodeScalars(scalars[1..])
  }

  lemma SplitScalar(n: nat)
    ensures n == 64 * (n / 64) + n % 64 && n / 64 == 64 * (n / 4096) + n / 64 % 64
    ensures n / 4096 == 64 * (n / 0x4_0000) + n / 4096 % 64
  {
  }

  /** A scalar in front is well-formed if what follows is. */
  lemma ScalarInFront(n: nat, rest: Bytes)
    requires IsScalar(n)
    ensures ValidUtf8(EncodeScalar(n) + rest) <==> ValidUtf8(rest)
  {
    hide ValidUtf8;
    var bytes, size := EncodeScalar(n) + rest, |EncodeScalar(n)|;
    assert bytes[size..] == rest;
    SplitScalar(n);
    FrontDecides(bytes);
  }

  /** What the first byte says about how many follow, and which. */
  function FrontSize(bytes: Bytes): nat
    requires bytes != []
  {
    var b := bytes[0];
    if b <= 0x7f then 1
    else if 0xc2 <= b <= 0xdf && Continuation(bytes, 1) then 2
    else if 0xe0 <= b <= 0xef && Continuation(bytes, 1) && Continuation(bytes, 2)
            && (b == 0xe0 ==> bytes[1] >= 0xa0) && (b == 0xed ==> bytes[1] <= 0x9f) then 3
    else if 0xf0 <= b <= 0xf4 && Continuation(bytes, 1) && Continuation(bytes, 2) && Continuation(bytes, 3)
            && (b == 0xf0 ==> bytes[1] >= 0x90) && (b == 0xf4 ==> bytes[1] <= 0x8f) then 4
    else 0
  }

  lemma FrontDecides(bytes: Bytes)
    requires bytes != []
    ensures FrontSize(bytes) <= |bytes|
    ensures ValidUtf8(bytes) <==> FrontSize(bytes) > 0 && ValidUtf8(bytes[FrontSize(bytes)..])
  {
  }

  /** The six bits of a continuation byte. */
  function Low(bytes: Bytes, i: nat): nat
    requires Continuation(bytes, i)
  {
    var b: int := bytes[i];
    b - 0x80
  }

  /** The scalar value in front of a well-formed text. */
  function FrontScalar(bytes: Bytes): nat
    requires bytes != [] && FrontSize(bytes) > 0
  {
    var b: int := bytes[0];
    match FrontSize(bytes)
    case 1 => b
    case 2 => 64 * (b - 0xc0) + Low(bytes, 1)
    case 3 => 64 * (64 * (b - 0xe0) + Low(bytes, 1)) + Low(bytes, 2)
    case _ => 64 * (64 * (64 * (b - 0xf0) + Low(bytes, 1)) + Low(bytes, 2)) + Low(bytes, 3)
  }

  lemma SixBits(high: nat, low: nat)
    requires low < 64
    ensures (64 * high + low) / 64 == high && (64 * high + low) % 64 == low
  {
  }

  lemma TwoBack(high: nat, a: nat)
    requires 2 <= high < 32 && a < 64
    ensures IsScalar(64 * high + a) && EncodeScalar(64 * high + a) == [0xc0 + high, 0x80 + a]
  {
    SixBits(high, a);
  }

  lemma ThreeBack(high: nat, a: nat, b: nat)
    requires high < 16 && a < 64 && b < 64 && (high == 0 ==> a >= 32) && (high == 13 ==> a < 32)
    ensures var n := 64 * (64 * high + a) + b; IsScalar(n) && EncodeScalar(n) == [0xe0 + high, 0x80 + a, 0x80 + b]
  {
    var n := 64 * (64 * high + a) + b;
    SixBits(high, a);
    SixBits(64 * high + a, b);
    SplitScalar(n);
  }

  lemma FourBack(high: nat, a: nat, b: nat, c: nat)
    requires high < 5 && a < 64 && b < 64 && c < 64 && (high == 0 ==> a >= 16) && (high == 4 ==> a < 16)
    ensures var n := 64 * (64 * (64 * high + a) + b) + c;
            IsScalar(n) && EncodeScalar(n) == [0xf0 + high, 0x80 + a, 0x80 + b, 0x80 + c]
  {
    var n := 64 * (64 * (64 * high + a) + b) + c;
    SixBits(high, a);
    SixBits(64 * high + a, b);
    SixBits(64 * (64 * high + a) + b, c);
    SplitScalar(n);
  }

  lemma FrontIsScalar(bytes: Bytes)
    requires bytes != [] && FrontSize(bytes) > 0
    ensures FrontSize(bytes) <= |bytes| && IsScalar(FrontScalar(bytes))
    ensures EncodeScalar(FrontScalar(bytes)) == bytes[..FrontSize(bytes)]
  {
    hide EncodeScalar, IsScalar;
    var b: int := bytes[0];
    match FrontSize(bytes)
    case 1 => OneBack(b);
    case 2 => TwoBack(b - 0xc0, Low(bytes, 1));
    case 3 => ThreeBack(b - 0xe0, Low(bytes, 1), Low(bytes, 2));
    case _ => FourBack(b - 0xf0, Low(bytes, 1), Low(bytes, 2), Low(bytes, 3));
  }

  lemma OneBack(n: nat)
    requires n < 0x80
    ensures IsScalar(n) && EncodeScalar(n) == [n]
  {
  }

  lemma {:induction false} EncodedIsValid(scalars: seq<nat>)
    requires forall n :: n in scalars ==> IsScalar(n)
    ensures ValidUtf8(EncodeScalars(scalars))
  {
    hide EncodeScalar;
    if scalars != [] {
      EncodedIsValid(scalars[1..]);
      ScalarInFront(scalars[0], EncodeScalars(scalars[1..]));
    }
  }

  lemma {:induction false} ValidIsEncoded(bytes: Bytes) returns (scalars: seq<nat>)
    requires ValidUtf8(bytes)
    ensures (forall n :: n in scalars ==> IsScalar(n)) && bytes == EncodeScalars(scalars)
    decreases |bytes|
  {
    hide ValidUtf8, FrontSize, FrontScalar, EncodeScalar;
    if bytes == [] {
      scalars := [];
    } else {
      FrontDecides(bytes);
      var size := FrontSize(bytes);
      var more := ValidIsEncoded(bytes[size..]);
      FrontIsScalar(bytes);
      scalars := [FrontScalar(bytes)] + more;
      assert scalars[1..] == more;
      assert bytes == bytes[..size] + bytes[size..];
    }
  }

  /** A byte string is accepted as text exactly if it encodes some scalar values. */
  lemma Utf8Exactly(bytes: Bytes)
    ensures ValidUtf8(bytes) <==>
            exists scalars: seq<nat> :: (forall n :: n in scalars ==> IsScalar(n)) && bytes == EncodeScalars(scalars)
  {
    hide ValidUtf8;
    if ValidUtf8(bytes) {
      var scalars := ValidIsEncoded(bytes);
    }
    if scalars: seq<nat> :| (forall n :: n in scalars ==> IsScalar(n)) && bytes == EncodeScalars(scalars) {
      EncodedIsValid(scalars);
    }
  }
}
