/** Identities and digests as text: types.rs. */
module Rendering {
  import opened Basics
  import opened Bits
  import opened Text
  import Core

  const HEX_DIGITS := "0123456789abcdef"
  const BASE32_SYMBOLS := "ABCDEFGHIJKLMNOPQRSTUVWXYZ234567"
  const REPOSITORY_PREFIX := "styrene:git:v1:"

  datatype TextError = WrongForm | NotDecodable | UnsupportedPrefix

  predicate IsUpper(c: char) { 'A' <= c <= 'Z' }

  predicate HasUpper(s: string) {
    exists i :: 0 <= i < |s| && IsUpper(s[i])
  }

  function LowerChar(c: char): char {
    if IsUpper(c) then c - 'A' + 'a' else c
  }

  function UpperChar(c: char): char {
    if 'a' <= c <= 'z' then c - 'a' + 'A' else c
  }

  function ToLower(s: string): (r: string)
    ensures |r| == |s|
  {
    seq(|s|, i requires 0 <= i < |s| => LowerChar(s[i]))
  }

  function ToUpper(s: string): (r: string)
    ensures |r| == |s|
  {
    seq(|s|, i requires 0 <= i < |s| => UpperChar(s[i]))
  }

  /** The position of `c` among `symbols`. */
  function IndexOf(symbols: string, c: char): (k: Option<nat>)
    ensures k.Some? ==> k.value < |symbols| && symbols[k.value] == c
    ensures k.None? ==> c !in symbols
  {
    if symbols == [] then None
    else if symbols[|symbols| - 1] == c then Some(|symbols| - 1)
    else IndexOf(symbols[..|symbols| - 1], c)
  }

  /** Every digit as its symbol. */
  function Symbols(symbols: string, digits: seq<nat>): (s: string)
    requires forall d :: d in digits ==> d < |symbols|
    ensures |s| == |digits|
    ensures forall i :: 0 <= i < |s| ==> digits[i] < |symbols| && s[i] == symbols[digits[i]]
  {
    assert forall i :: 0 <= i < |digits| ==> digits[i] in digits;
    seq(|digits|, i requires 0 <= i < |digits| && digits[i] < |symbols| => symbols[digits[i]])
  }

  function DigitsOf(symbols: string, s: string): (digits: Option<seq<nat>>)
    ensures digits.Some? ==> |digits.value| == |s|
    ensures digits.Some? ==> forall i :: 0 <= i < |s| ==> Some(digits.value[i]) == IndexOf(symbols, s[i])
    ensures digits.None? ==> exists i :: 0 <= i < |s| && IndexOf(symbols, s[i]).None?
  {
    if forall i :: 0 <= i < |s| ==> IndexOf(symbols, s[i]).Some?
    then Some(seq(|s|, i requires 0 <= i < |s| && IndexOf(symbols, s[i]).Some? => IndexOf(symbols, s[i]).value))
    else None
  }

  /// Hexadecimal identities

  function HexDigits(bytes: Bytes): (digits: seq<nat>) {
    Gather(Spread(bytes, 8), 4)
  }

  lemma PowersOfTwo()
    ensures Pow2(4) == 16 && Pow2(5) == 32 && Pow2(8) == 256
  {
    assert Pow2(2) == 4;
    assert Pow2(3) == 8;
    assert Pow2(6) == 64;
    assert Pow2(7) == 128;
  }

  lemma HexDigitsRange(bytes: Bytes)
    ensures |HexDigits(bytes)| == 2 * |bytes|
    ensures forall d :: d in HexDigits(bytes) ==> d < |HEX_DIGITS|
  {
    PowersOfTwo();
    SpreadLength(bytes, 8);
    SpreadGather(Spread(bytes, 8), 4, 2 * |bytes|);
  }

  /** `hex::encode`: two lower-case digits a byte. */
  function Hex(bytes: Bytes): (s: string)
    ensures |s| == 2 * |bytes|
  {
    HexDigitsRange(bytes);
    Symbols(HEX_DIGITS, HexDigits(bytes))
  }

  /** The whole bytes of a bit string. */
  function ToBytes(bits: Bitstring): (bytes: Bytes)
    ensures bytes == Gather(bits, 8)
  {
    ByteRange(bits);
    var digits := Gather(bits, 8);
    assert forall i :: 0 <= i < |digits| ==> digits[i] in digits && digits[i] < 256;
    digits
  }

  lemma {:induction false} ByteRange(bits: Bitstring)
    ensures forall d :: d in Gather(bits, 8) ==> d < 256
  {
    if |bits| >= 8 {
      PowersOfTwo();
      BitsOfNumber(bits[..8]);
      ByteRange(bits[8..]);
    }
  }

  /** `hex::decode` of an even number of characters; it takes both cases. */
  function HexDecode(s: string): Option<Bytes> {
    var digits := DigitsOf(HEX_DIGITS, ToLower(s));
    if digits.None? then None else Some(ToBytes(Spread(digits.value, 4)))
  }

  /** `StyreneIdentity::from_hex`. */
  function FromHex(value: string): Result<Bytes, TextError> {
    if |value| != 32 || HasUpper(value) then Err(WrongForm)
    else
      var bytes := HexDecode(value);
      if bytes.None? then Err(NotDecodable)
      else if |bytes.value| != 16 then Err(WrongForm)
      else Ok(bytes.value)
  }

  /// Base32 digests

  /** Zero bits fill the last group of five. */
  const PADDING: Bitstring := [false, false, false, false]

  function Base32Digits(bytes: Bytes): seq<nat> {
    Gather(Spread(bytes, 8) + PADDING, 5)
  }

  lemma Base32DigitsRange(bytes: Bytes)
    requires |bytes| == 32
    ensures |Base32Digits(bytes)| == 52
    ensures forall d :: d in Base32Digits(bytes) ==> d < |BASE32_SYMBOLS|
  {
    PowersOfTwo();
    SpreadLength(bytes, 8);
    SpreadGather(Spread(bytes, 8) + PADDING, 5, 52);
  }

  /** `Digest::base32`: 32 bytes as 52 lower-case symbols. */
  function Base32(bytes: Bytes): (s: string)
    requires |bytes| == 32
    ensures |s| == 52
  {
    Base32DigitsRange(bytes);
    ToLower(Symbols(BASE32_SYMBOLS, Base32Digits(bytes)))
  }

  /** Strict decoding of 52 symbols: the four bits past the last byte must be zero. */
  function Base32Decode(s: string): Option<Bytes>
    requires |s| == 52
  {
    var digits := DigitsOf(BASE32_SYMBOLS, s);
    if digits.None? then None
    else
      SpreadLength(digits.value, 5);
      var bits := Spread(digits.value, 5);
      if bits[256..] != PADDING then None else Some(ToBytes(bits[..256]))
  }

  function RepositoryText(digest: Bytes): string
    requires |digest| == 32
  {
    REPOSITORY_PREFIX + Base32(digest)
  }

  /** `RepositoryId::from_str`. */
  function ParseRepository(value: string): Result<Bytes, TextError> {
    if !StartsWith(value, REPOSITORY_PREFIX) then Err(UnsupportedPrefix)
    else
      var encoded := value[|REPOSITORY_PREFIX|..];
      if |encoded| != 52 || HasUpper(encoded) then Err(WrongForm)
      else
        var digest := Base32Decode(ToUpper(encoded));
        if digest.None? then Err(NotDecodable)
        else if |digest.value| != 32 then Err(WrongForm)
        else Ok(digest.value)
  }

  /// Round trips

  predicate AllDistinct(symbols: string) {
    forall i, j :: 0 <= i < j < |symbols| ==> symbols[i] != symbols[j]
  }

  /** Symbols and digits are inverse to each other. */
  lemma DigitsOfSymbols(symbols: string, digits: seq<nat>)
    requires AllDistinct(symbols) && forall d :: d in digits ==> d < |symbols|
    ensures DigitsOf(symbols, Symbols(symbols, digits)) == Some(digits)
  {
    var s := Symbols(symbols, digits);
    forall i | 0 <= i < |s|
      ensures IndexOf(symbols, s[i]) == Some(digits[i])
    {
      assert digits[i] in digits;
      var k := IndexOf(symbols, s[i]);
      assert symbols[digits[i]] == s[i];
    }
    assert DigitsOf(symbols, s).value == digits;
  }

  lemma SymbolsOfDigits(symbols: string, s: string)
    requires DigitsOf(symbols, s).Some?
    ensures var digits := DigitsOf(symbols, s).value;
            && (forall d :: d in digits ==> d < |symbols|)
            && Symbols(symbols, digits) == s
  {
    var digits := DigitsOf(symbols, s).value;
    forall i | 0 <= i < |s|
      ensures digits[i] < |symbols| && symbols[digits[i]] == s[i]
    {
      assert IndexOf(symbols, s[i]) == Some(digits[i]);
    }
  }

  /** Bytes and their hexadecimal digits are inverse to each other. */
  lemma HexDigitsBack(bytes: Bytes)
    ensures ToBytes(Spread(HexDigits(bytes), 4)) == bytes
  {
    PowersOfTwo();
    SpreadLength(bytes, 8);
    SpreadGather(Spread(bytes, 8), 4, 2 * |bytes|);
    GatherSpread(bytes, 8);
  }

  lemma HexDigitsThere(digits: seq<nat>)
    requires |digits| % 2 == 0 && forall d :: d in digits ==> d < |HEX_DIGITS|
    ensures var bytes := ToBytes(Spread(digits, 4));
            2 * |bytes| == |digits| && HexDigits(bytes) == digits
  {
    PowersOfTwo();
    SpreadLength(digits, 4);
    SpreadGather(Spread(digits, 4), 8, |digits| / 2);
    GatherSpread(digits, 4);
  }

  lemma HexSymbols()
    ensures AllDistinct(HEX_DIGITS) && !HasUpper(HEX_DIGITS)
  {
  }

  lemma HexIsLower(bytes: Bytes)
    ensures !HasUpper(Hex(bytes)) && ToLower(Hex(bytes)) == Hex(bytes)
  {
    var s := Hex(bytes);
    HexDigitsRange(bytes);
    HexSymbols();
    forall i | 0 <= i < |s|
      ensures !IsUpper(s[i])
    {
      assert HexDigits(bytes)[i] in HexDigits(bytes);
      assert s[i] == HEX_DIGITS[HexDigits(bytes)[i]];
    }
  }

  /** `hex::decode` undoes `hex::encode`. */
  lemma HexReads(bytes: Bytes)
    ensures HexDecode(Hex(bytes)) == Some(bytes)
  {
    HexDigitsRange(bytes);
    HexSymbols();
    HexIsLower(bytes);
    DigitsOfSymbols(HEX_DIGITS, HexDigits(bytes));
    HexDigitsBack(bytes);
  }

  /** What a hexadecimal digit and a base32 symbol count. */
  predicate CountsHex(c: char, d: nat) {
    ('0' <= c <= '9' && d == (c - '0') as nat) || ('a' <= c <= 'f' && d == (c - 'a') as nat + 10)
  }

  predicate CountsBase32(c: char, d: nat) {
    ('a' <= c <= 'z' && d == (c - 'a') as nat) || ('2' <= c <= '7' && d == (c - '2') as nat + 26)
  }

  /** The digits are those of the number that the bytes write. */
  lemma HexIsNumber(bytes: Bytes) returns (digits: seq<nat>)
    ensures |digits| == |Hex(bytes)| == 2 * |bytes|
    ensures forall i :: 0 <= i < |digits| ==> CountsHex(Hex(bytes)[i], digits[i])
    ensures InBase(digits, 16) == InBase(bytes, 256)
  {
    digits := HexDigits(bytes);
    HexDigitsRange(bytes);
    forall i | 0 <= i < |digits|
      ensures CountsHex(Hex(bytes)[i], digits[i])
    {
      assert digits[i] in digits;
      HexTable(digits[i]);
    }
    PowersOfTwo();
    SpreadLength(bytes, 8);
    GatherWrites(Spread(bytes, 8), 4, 2 * |bytes|);
    SpreadWrites(bytes, 8);
  }

  lemma HexTable(d: nat)
    requires d < 16
    ensures CountsHex(HEX_DIGITS[d], d)
  {
  }

  lemma HexWrites(s: string)
    requires |s| % 2 == 0 && !HasUpper(s) && HexDecode(s).Some?
    ensures 2 * |HexDecode(s).value| == |s| && Hex(HexDecode(s).value) == s
  {
    assert ToLower(s) == s;
    SymbolsOfDigits(HEX_DIGITS, s);
    HexDigitsThere(DigitsOf(HEX_DIGITS, s).value);
  }

  /** `from_hex` accepts exactly the printed identities. */
  lemma FromHexExact(value: string, bytes: Bytes)
    ensures FromHex(value) == Ok(bytes) <==> |bytes| == 16 && value == Hex(bytes)
  {
    hide Hex, HexDecode, HasUpper;
    if |bytes| == 16 && value == Hex(bytes) {
      HexReads(bytes);
      HexIsLower(bytes);
    }
    if FromHex(value) == Ok(bytes) {
      HexWrites(value);
    }
  }

  lemma Base32Table(k: nat)
    requires k < 32
    ensures BASE32_SYMBOLS[k] == if k < 26 then 'A' + k as char else '2' + (k - 26) as char
  {
  }

  lemma Base32Alphabet()
    ensures AllDistinct(BASE32_SYMBOLS)
  {
    forall i, j | 0 <= i < j < 32
      ensures BASE32_SYMBOLS[i] != BASE32_SYMBOLS[j]
    {
      Base32Table(i);
      Base32Table(j);
    }
  }

  lemma Base32DigitsBack(digest: Bytes)
    requires |digest| == 32
    ensures var bits := Spread(Base32Digits(digest), 5);
            |bits| == 260 && bits[256..] == PADDING && ToBytes(bits[..256]) == digest
  {
    PowersOfTwo();
    var bits := Spread(digest, 8) + PADDING;
    SpreadLength(digest, 8);
    SpreadGather(bits, 5, 52);
    GatherSpread(digest, 8);
    assert bits[..256] == Spread(digest, 8) && bits[256..] == PADDING;
  }

  lemma Base32DigitsThere(digits: seq<nat>)
    requires |digits| == 52 && forall d :: d in digits ==> d < |BASE32_SYMBOLS|
    requires |Spread(digits, 5)| == 260 && Spread(digits, 5)[256..] == PADDING
    ensures var digest := ToBytes(Spread(digits, 5)[..256]);
            |digest| == 32 && Base32Digits(digest) == digits
  {
    PowersOfTwo();
    var bits := Spread(digits, 5);
    SpreadGather(bits[..256], 8, 32);
    assert bits == bits[..256] + bits[256..];
    GatherSpread(digits, 5);
  }

  lemma LowerUpper(s: string)
    requires forall i :: 0 <= i < |s| ==> s[i] in BASE32_SYMBOLS
    ensures ToUpper(ToLower(s)) == s && !HasUpper(ToLower(s))
  {
  }

  lemma UpperLower(s: string)
    requires !HasUpper(s)
    ensures ToLower(ToUpper(s)) == s
  {
  }

  lemma Base32Reads(digest: Bytes)
    requires |digest| == 32
    ensures !HasUpper(Base32(digest)) && Base32Decode(ToUpper(Base32(digest))) == Some(digest)
  {
    hide ToLower, ToUpper, HasUpper;
    var digits := Base32Digits(digest);
    Base32DigitsRange(digest);
    Base32Alphabet();
    DigitsOfSymbols(BASE32_SYMBOLS, digits);
    LowerUpper(Symbols(BASE32_SYMBOLS, digits));
    Base32DigitsBack(digest);
  }

  /** The symbols are the digits of the number that the bytes write, moved up four bits. */
  lemma Base32IsNumber(digest: Bytes) returns (digits: seq<nat>)
    requires |digest| == 32
    ensures |digits| == |Base32(digest)| == 52
    ensures forall i :: 0 <= i < |digits| ==> CountsBase32(Base32(digest)[i], digits[i])
    ensures InBase(digits, 32) == 16 * InBase(digest, 256)
  {
    digits := Base32Digits(digest);
    Base32DigitsRange(digest);
    forall i | 0 <= i < |digits|
      ensures CountsBase32(Base32(digest)[i], digits[i])
    {
      assert digits[i] in digits;
      SymbolTable(digits[i]);
    }
    PowersOfTwo();
    SpreadLength(digest, 8);
    GatherWrites(Spread(digest, 8) + PADDING, 5, 52);
    SpreadWrites(digest, 8);
    NumberConcat(Spread(digest, 8), PADDING);
    PaddingIsZero();
  }

  lemma PaddingIsZero()
    ensures Number(PADDING) == 0
  {
    assert PADDING == BitsOf(0, 4) by { assert BitsOf(0, 2) == [false, false]; }
    PowersOfTwo();
    NumberOfBits(0, 4);
  }

  lemma SymbolTable(d: nat)
    requires d < 32
    ensures CountsBase32(LowerChar(BASE32_SYMBOLS[d]), d)
  {
  }

  lemma Base32Writes(encoded: string)
    requires |encoded| == 52 && !HasUpper(encoded) && Base32Decode(ToUpper(encoded)).Some?
    ensures var digest := Base32Decode(ToUpper(encoded)).value;
            |digest| == 32 && Base32(digest) == encoded
  {
    hide ToLower, ToUpper, HasUpper;
    var upper := ToUpper(encoded);
    var digits := DigitsOf(BASE32_SYMBOLS, upper).value;
    SymbolsOfDigits(BASE32_SYMBOLS, upper);
    SpreadLength(digits, 5);
    Base32DigitsThere(digits);
    UpperLower(encoded);
  }

  /** A repository id is read back from its text, and nothing but such a text is read. */
  lemma ParseRepositoryExact(value: string, digest: Bytes)
    ensures ParseRepository(value) == Ok(digest) <==> |digest| == 32 && value == RepositoryText(digest)
  {
    hide Base32, Base32Decode, HasUpper, ToUpper;
    if |digest| == 32 && value == RepositoryText(digest) {
      assert value[|REPOSITORY_PREFIX|..] == Base32(digest);
      Base32Reads(digest);
    }
    if ParseRepository(value) == Ok(digest) {
      Base32Writes(value[|REPOSITORY_PREFIX|..]);
      assert value == REPOSITORY_PREFIX + value[|REPOSITORY_PREFIX|..];
    }
  }

  predicate LowerBase32(c: char) {
    'a' <= c <= 'z' || '2' <= c <= '7'
  }

  lemma SymbolIndex(c: char)
    requires !IsUpper(c)
    ensures var k := IndexOf(BASE32_SYMBOLS, UpperChar(c));
            && (k.Some? <==> LowerBase32(c))
            && (k == Some(0) <==> c == 'a') && (k == Some(16) <==> c == 'q')
  {
    var k := IndexOf(BASE32_SYMBOLS, UpperChar(c));
    if k.Some? {
      Base32Table(k.value);
    }
    if 'a' <= c <= 'z' {
      Base32Table((c - 'a') as int);
    } else if '2' <= c <= '7' {
      Base32Table((c - '2') as int + 26);
    }
  }

  lemma TrailingBits(d: nat)
    requires d < 32
    ensures BitsOf(d, 5)[1..] == PADDING <==> d == 0 || d == 16
  {
    NumberOfBits(d, 5);
    var bits := BitsOf(d, 5);
    assert bits == [bits[0], bits[1], bits[2], bits[3], bits[4]];
    BitsOfFive(bits[0], bits[1], bits[2], bits[3], bits[4]);
    PowersOfTwo();
  }

  lemma BitsOfFive(a: bool, b: bool, c: bool, d: bool, e: bool)
    ensures Number([a, b, c, d, e]) == (if a then 16 else 0) + (if b then 8 else 0) + (if c then 4 else 0) +
                                       (if d then 2 else 0) + (if e then 1 else 0)
  {
    var one: Bitstring, two: Bitstring, three: Bitstring := [a], [a, b], [a, b, c];
    var four: Bitstring, five: Bitstring := [a, b, c, d], [a, b, c, d, e];
    assert two[..1] == one && three[..2] == two && four[..3] == three && five[..4] == four;
    assert Number(one) == if a then 1 else 0;
    assert Number(two) == 2 * Number(one) + (if b then 1 else 0);
    assert Number(three) == 2 * Number(two) + (if c then 1 else 0);
    assert Number(four) == 2 * Number(three) + (if d then 1 else 0);
  }

  /** What `from_str` takes, symbol by symbol: the last of the 52 carries one bit only. */
  lemma AcceptedDigests(encoded: string)
    ensures ParseRepository(REPOSITORY_PREFIX + encoded).Ok? <==>
            && |encoded| == 52
            && (forall i :: 0 <= i < 52 ==> LowerBase32(encoded[i]))
            && (encoded[51] == 'a' || encoded[51] == 'q')
  {
    var value := REPOSITORY_PREFIX + encoded;
    assert value[|REPOSITORY_PREFIX|..] == encoded;
    if |encoded| == 52 && !HasUpper(encoded) {
      DigitsWhen(encoded);
      if DigitsOf(BASE32_SYMBOLS, ToUpper(encoded)).Some? {
        var digits := DigitsOf(BASE32_SYMBOLS, ToUpper(encoded)).value;
        LastSymbol(digits, encoded);
        if Base32Decode(ToUpper(encoded)).Some? {
          Base32Writes(encoded);
        }
      }
    }
  }

  lemma DigitsWhen(encoded: string)
    requires !HasUpper(encoded)
    ensures DigitsOf(BASE32_SYMBOLS, ToUpper(encoded)).Some? <==> forall i :: 0 <= i < |encoded| ==> LowerBase32(encoded[i])
  {
    forall i | 0 <= i < |encoded|
      ensures IndexOf(BASE32_SYMBOLS, ToUpper(encoded)[i]).Some? <==> LowerBase32(encoded[i])
    {
      SymbolIndex(encoded[i]);
    }
  }

  lemma LastSymbol(digits: seq<nat>, encoded: string)
    requires |encoded| == 52 && !HasUpper(encoded) && DigitsOf(BASE32_SYMBOLS, ToUpper(encoded)) == Some(digits)
    ensures |Spread(digits, 5)| == 260
    ensures Spread(digits, 5)[256..] == PADDING <==> encoded[51] == 'a' || encoded[51] == 'q'
  {
    LastDigit(digits, encoded);
    SpreadLength(digits, 5);
    SpreadLength(digits[..51], 5);
    SpreadConcat(digits[..51], digits[51..], 5);
    assert digits == digits[..51] + digits[51..];
    assert Spread(digits[51..], 5) == BitsOf(digits[51], 5);
    assert Spread(digits, 5)[256..] == BitsOf(digits[51], 5)[1..];
    TrailingBits(digits[51]);
  }

  lemma LastDigit(digits: seq<nat>, encoded: string)
    requires |encoded| == 52 && !HasUpper(encoded) && DigitsOf(BASE32_SYMBOLS, ToUpper(encoded)) == Some(digits)
    ensures |digits| == 52 && digits[51] < 32
    ensures digits[51] == 0 || digits[51] == 16 <==> encoded[51] == 'a' || encoded[51] == 'q'
  {
    SymbolIndex(encoded[51]);
  }
}
