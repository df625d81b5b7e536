/**
 Deterministic CBOR (RFC 8949, sections 3 and 4.2.1) for values of fixed schemas: codec.rs, with the
 encoding its `array`, `index_only` and `transparent` types derive.
 */
module Cbor {
  import opened Basics

  /// Heads

  function Pow256(w: nat): (p: nat)
    ensures p > 0
  {
    if w == 0 then 1 else 256 * Pow256(w - 1)
  }

  lemma Pow256Values()
    ensures Pow256(1) == 0x100 && Pow256(2) == 0x1_0000 && Pow256(4) == 0x1_0000_0000
    ensures Pow256(8) == U64_MAX + 1
  {
    assert Pow256(3) == 0x100_0000;
    assert Pow256(5) == 0x100_0000_0000;
    assert Pow256(6) == 0x1_0000_0000_0000;
    assert Pow256(7) == 0x100_0000_0000_0000;
  }

  function BigEndian(n: nat, width: nat): (bytes: Bytes)
    ensures |bytes| == width
  {
    if width == 0 then [] else BigEndian(n / 256, width - 1) + [n % 256]
  }

  function FromBigEndian(bytes: Bytes): (n: nat)
    ensures n < Pow256(|bytes|)
  {
    if bytes == [] then 0 else 256 * FromBigEndian(bytes[..|bytes| - 1]) + bytes[|bytes| - 1]
  }

  lemma {:induction false} BigEndianBack(n: nat, width: nat)
    requires n < Pow256(width)
    ensures FromBigEndian(BigEndian(n, width)) == n
  {
    if width > 0 {
      BigEndianBack(n / 256, width - 1);
      assert BigEndian(n, width)[..width - 1] == BigEndian(n / 256, width - 1);
    }
  }

  const UNSIGNED := 0
  const BYTE_STRING := 2
  const TEXT_STRING := 3
  const ARRAY := 4
  const NULL: byte := 0xf6

  /** The shortest head of a major type and argument. */
  function Head(major: nat, n: u64): (bytes: Bytes)
    requires major < 7
    ensures bytes != [] && bytes[0] / 32 == major
  {
    if n < 24 then [32 * major + n]
    else if n < 0x100 then [32 * major + 24] + BigEndian(n, 1)
    else if n < 0x1_0000 then [32 * major + 25] + BigEndian(n, 2)
    else if n < 0x1_0000_0000 then [32 * major + 26] + BigEndian(n, 4)
    else [32 * major + 27] + BigEndian(n, 8)
  }

  function Width(info: nat): Option<nat> {
    if info < 24 then Some(0) else if info == 24 then Some(1) else if info == 25 then Some(2)
    else if info == 26 then Some(4) else if info == 27 then Some(8) else None
  }

  /** The argument of a head of the major type, in however many bytes it was written, and what follows. */
  function ReadHead(major: nat, bytes: Bytes): (r: Option<(u64, Bytes)>)
  {
    if bytes == [] || bytes[0] / 32 != major then None
    else
      var info := bytes[0] % 32;
      var width := Width(info);
      if width.None? || |bytes| < 1 + width.value then None
      else if width.value == 0 then Some((info, bytes[1..]))
      else
        Pow256Values();
        Some((FromBigEndian(bytes[1..1 + width.value]), bytes[1 + width.value..]))
  }

  lemma ReadHeadOf(major: nat, n: u64, rest: Bytes)
    requires major < 7
    ensures ReadHead(major, Head(major, n) + rest) == Some((n, rest))
  {
    Pow256Values();
    var head := Head(major, n);
    var bytes := head + rest;
    var width := Width(bytes[0] % 32).value;
    assert |head| == 1 + width;
    assert bytes[1 + width..] == rest;
    if width > 0 {
      assert bytes[1..1 + width] == head[1..] == BigEndian(n, width);
      BigEndianBack(n, width);
    }
  }

  /** No shorter head reads as this argument, and of its length no other. */
  lemma HeadIsShortest(major: nat, n: u64, bytes: Bytes, rest: Bytes)
    requires major < 7 && ReadHead(major, bytes) == Some((n, rest))
    ensures |Head(major, n)| <= |bytes| - |rest|
    ensures |Head(major, n)| == |bytes| - |rest| ==> bytes == Head(major, n) + rest
  {
    Pow256Values();
    var info := bytes[0] % 32;
    var width := Width(info).value;
    assert bytes[0] == 32 * major + info;
    assert bytes == bytes[..1 + width] + rest;
    if width > 0 {
      BigEndianThere(bytes[1..1 + width]);
      assert bytes[..1 + width] == [bytes[0]] + bytes[1..1 + width];
    }
  }

  lemma {:induction false} BigEndianThere(bytes: Bytes)
    ensures BigEndian(FromBigEndian(bytes), |bytes|) == bytes
  {
    if bytes != [] {
      var n := |bytes| - 1;
      BigEndianThere(bytes[..n]);
      var high := FromBigEndian(bytes[..n]);
      assert FromBigEndian(bytes) / 256 == high && FromBigEndian(bytes) % 256 == bytes[n];
      assert bytes == bytes[..n] + [bytes[n]];
    }
  }

  /// Text

  predicate Continuation(bytes: Bytes, i: nat) {
    i < |bytes| && 0x80 <= bytes[i] <= 0xbf
  }

  /** Well-formed UTF-8 (RFC 3629, section 4): no overlong form, no surrogate, nothing past U+10FFFF. */
  predicate ValidUtf8(bytes: Bytes)
    decreases |bytes|
  {
    if bytes == [] then true
    else
      var b := bytes[0];
      if b <= 0x7f then ValidUtf8(bytes[1..])
      else if 0xc2 <= b <= 0xdf then Continuation(bytes, 1) && ValidUtf8(bytes[2..])
      else if 0xe0 <= b <= 0xef then
        && Continuation(bytes, 1) && Continuation(bytes, 2)
        && (b == 0xe0 ==> bytes[1] >= 0xa0) && (b == 0xed ==> bytes[1] <= 0x9f)
        && ValidUtf8(bytes[3..])
      else
        && 0xf0 <= b <= 0xf4
        && Continuation(bytes, 1) && Continuation(bytes, 2) && Continuation(bytes, 3)
        && (b == 0xf0 ==> bytes[1] >= 0x90) && (b == 0xf4 ==> bytes[1] <= 0x8f)
        && ValidUtf8(bytes[4..])
  }

  /// Schemas and their values

  datatype Schema =
    | Unsigned(max: u64)
    | Text
    | Fixed(size: u64)
    | List(element: Schema)
    | Record(fields: seq<Schema>)
    | Nullable(inner: Schema)
    | Enumeration(count: u64)
    | Choice(cases: seq<Schema>)

  datatype Value =
    | Number(n: nat)
    | Chunk(bytes: Bytes)
    | Items(items: seq<Value>)
    | Null
    | Case(variant: nat, args: Value)

  /** The values a Rust type of this schema has. */
  predicate Conforms(s: Schema, v: Value)
    decreases v, s
  {
    match s
    case Unsigned(max) => v.Number? && v.n <= max
    case Text => v.Chunk? && |v.bytes| <= U64_MAX && ValidUtf8(v.bytes)
    case Fixed(size) => v.Chunk? && |v.bytes| == size
    case List(element) => v.Items? && |v.items| <= U64_MAX && ConformList(element, v.items)
    case Record(fields) => v.Items? && |fields| <= U64_MAX && ConformFields(fields, v.items)
    case Nullable(inner) => v == Null || (!inner.Nullable? && Conforms(inner, v))
    case Enumeration(count) => v.Number? && v.n < count
    case Choice(cases) =>
      v.Case? && v.variant < |cases| && v.variant <= U64_MAX && Conforms(cases[v.variant], v.args)
  }

  predicate ConformList(element: Schema, items: seq<Value>)
    decreases items
  {
    items == [] || (Conforms(element, items[0]) && ConformList(element, items[1..]))
  }

  predicate ConformFields(fields: seq<Schema>, items: seq<Value>)
    decreases items
  {
    |fields| == |items| &&
    (items == [] || (Conforms(fields[0], items[0]) && ConformFields(fields[1..], items[1..])))
  }

  /// Encoding

  function Encode(s: Schema, v: Value): (bytes: Bytes)
    requires Conforms(s, v)
    ensures bytes != []
    decreases v, s
  {
    match s
    case Unsigned(_) => Head(UNSIGNED, v.n)
    case Text => Head(TEXT_STRING, |v.bytes|) + v.bytes
    case Fixed(_) => Head(BYTE_STRING, |v.bytes|) + v.bytes
    case List(element) => Head(ARRAY, |v.items|) + EncodeList(element, v.items)
    case Record(fields) => Head(ARRAY, |fields|) + EncodeFields(fields, v.items)
    case Nullable(inner) => if v == Null then [NULL] else Encode(inner, v)
    case Enumeration(_) => Head(UNSIGNED, v.n)
    case Choice(cases) =>
      Head(ARRAY, 2) + Head(UNSIGNED, v.variant) + Encode(cases[v.variant], v.args)
  }

  function EncodeList(element: Schema, items: seq<Value>): Bytes
    requires ConformList(element, items)
    decreases items
  {
    if items == [] then [] else Encode(element, items[0]) + EncodeList(element, items[1..])
  }

  function EncodeFields(fields: seq<Schema>, items: seq<Value>): Bytes
    requires ConformFields(fields, items)
    decreases items
  {
    if items == [] then [] else Encode(fields[0], items[0]) + EncodeFields(fields[1..], items[1..])
  }

  /// Decoding

  /** A value and the bytes after it. */
  type Parsed<T> = Option<(T, Bytes)>

  function ReadChunk(major: nat, bytes: Bytes): Parsed<Bytes> {
    var head := ReadHead(major, bytes);
    if head.None? || |head.value.1| < head.value.0 then None
    else Some((head.value.1[..head.value.0], head.value.1[head.value.0..]))
  }

  /** Decoding of one value; heads may be longer than need be, and bytes may follow. */
  function Decode(s: Schema, bytes: Bytes): Parsed<Value>
    decreases s, 0
  {
    match s
    case Unsigned(max) =>
      var head := ReadHead(UNSIGNED, bytes);
      if head.None? || head.value.0 > max then None else Some((Number(head.value.0), head.value.1))
    case Text =>
      var chunk := ReadChunk(TEXT_STRING, bytes);
      if chunk.None? || !ValidUtf8(chunk.value.0) then None else Some((Chunk(chunk.value.0), chunk.value.1))
    case Fixed(size) =>
      var chunk := ReadChunk(BYTE_STRING, bytes);
      if chunk.None? || |chunk.value.0| != size then None else Some((Chunk(chunk.value.0), chunk.value.1))
    case List(element) =>
      var head := ReadHead(ARRAY, bytes);
      if head.None? then None
      else
        var items := DecodeList(element, head.value.0, head.value.1);
        if items.None? then None else Some((Items(items.value.0), items.value.1))
    case Record(fields) =>
      var head := ReadHead(ARRAY, bytes);
      if head.None? || head.value.0 != |fields| then None
      else
        var items := DecodeFields(fields, head.value.1);
        if items.None? then None else Some((Items(items.value.0), items.value.1))
    case Nullable(inner) =>
      if bytes != [] && bytes[0] == NULL then Some((Null, bytes[1..]))
      else if inner.Nullable? then None
      else Decode(inner, bytes)
    case Enumeration(count) =>
      var head := ReadHead(UNSIGNED, bytes);
      if head.None? || head.value.0 >= count then None else Some((Number(head.value.0), head.value.1))
    case Choice(cases) =>
      var pair := ReadHead(ARRAY, bytes);
      if pair.None? || pair.value.0 != 2 then None
      else
        var variant := ReadHead(UNSIGNED, pair.value.1);
        if variant.None? || variant.value.0 >= |cases| then None
        else
          var args := Decode(cases[variant.value.0], variant.value.1);
          if args.None? then None else Some((Case(variant.value.0, args.value.0), args.value.1))
  }

  function DecodeList(element: Schema, n: nat, bytes: Bytes): (r: Parsed<seq<Value>>)
    ensures r.Some? ==> |r.value.0| == n
    decreases element, n + 1
  {
    if n == 0 then Some(([], bytes))
    else
      var first := Decode(element, bytes);
      if first.None? then None
      else
        var rest := DecodeList(element, n - 1, first.value.1);
        if rest.None? then None else Some(([first.value.0] + rest.value.0, rest.value.1))
  }

  function DecodeFields(fields: seq<Schema>, bytes: Bytes): Parsed<seq<Value>>
    decreases fields, 0
  {
    if fields == [] then Some(([], bytes))
    else
      var first := Decode(fields[0], bytes);
      if first.None? then None
      else
        var rest := DecodeFields(fields[1..], first.value.1);
        if rest.None? then None else Some(([first.value.0] + rest.value.0, rest.value.1))
  }

  /// Decoding undoes encoding

  lemma ReadChunkOf(major: nat, chunk: Bytes, rest: Bytes)
    requires major < 7 && |chunk| <= U64_MAX
    ensures ReadChunk(major, Head(major, |chunk|) + chunk + rest) == Some((chunk, rest))
  {
    ReadHeadOf(major, |chunk|, chunk + rest);
    assert Head(major, |chunk|) + chunk + rest == Head(major, |chunk|) + (chunk + rest);
  }

  lemma {:induction false} NotNull(s: Schema, v: Value)
    requires Conforms(s, v) && !s.Nullable?
    ensures Encode(s, v)[0] != NULL
  {
  }

  lemma {:induction false} DecodeEncode(s: Schema, v: Value, rest: Bytes)
    requires Conforms(s, v)
    ensures Decode(s, Encode(s, v) + rest) == Some((v, rest))
    decreases v, s
  {
    match s
    case Unsigned(_) => ReadHeadOf(UNSIGNED, v.n, rest);
    case Text => ReadChunkOf(TEXT_STRING, v.bytes, rest);
    case Fixed(_) => ReadChunkOf(BYTE_STRING, v.bytes, rest);
    case List(element) =>
      var body := EncodeList(element, v.items);
      assert Encode(s, v) + rest == Head(ARRAY, |v.items|) + (body + rest);
      ReadHeadOf(ARRAY, |v.items|, body + rest);
      DecodeEncodeList(element, v.items, rest);
    case Record(fields) =>
      var body := EncodeFields(fields, v.items);
      assert Encode(s, v) + rest == Head(ARRAY, |fields|) + (body + rest);
      ReadHeadOf(ARRAY, |fields|, body + rest);
      DecodeEncodeFields(fields, v.items, rest);
    case Nullable(inner) =>
      if v == Null {
        assert (Encode(s, v) + rest)[1..] == rest;
      } else {
        NotNull(inner, v);
        DecodeEncode(inner, v, rest);
      }
    case Enumeration(_) => ReadHeadOf(UNSIGNED, v.n, rest);
    case Choice(cases) =>
      var inner := Encode(cases[v.variant], v.args) + rest;
      assert Encode(s, v) + rest == Head(ARRAY, 2) + (Head(UNSIGNED, v.variant) + inner);
      ReadHeadOf(ARRAY, 2, Head(UNSIGNED, v.variant) + inner);
      ReadHeadOf(UNSIGNED, v.variant, inner);
      DecodeEncode(cases[v.variant], v.args, rest);
  }

  lemma {:induction false} DecodeEncodeList(element: Schema, items: seq<Value>, rest: Bytes)
    requires ConformList(element, items)
    ensures DecodeList(element, |items|, EncodeList(element, items) + rest) == Some((items, rest))
    decreases items
  {
    if items == [] {
      assert EncodeList(element, items) + rest == rest;
    } else {
      var tail := EncodeList(element, items[1..]);
      assert EncodeList(element, items) + rest == Encode(element, items[0]) + (tail + rest);
      DecodeEncode(element, items[0], tail + rest);
      DecodeEncodeList(element, items[1..], rest);
      assert items == [items[0]] + items[1..];
    }
  }

  lemma {:induction false} DecodeEncodeFields(fields: seq<Schema>, items: seq<Value>, rest: Bytes)
    requires ConformFields(fields, items)
    ensures DecodeFields(fields, EncodeFields(fields, items) + rest) == Some((items, rest))
    decreases items
  {
    if items == [] {
      assert EncodeFields(fields, items) + rest == rest;
    } else {
      var tail := EncodeFields(fields[1..], items[1..]);
      assert EncodeFields(fields, items) + rest == Encode(fields[0], items[0]) + (tail + rest);
      DecodeEncode(fields[0], items[0], tail + rest);
      DecodeEncodeFields(fields[1..], items[1..], rest);
      assert items == [items[0]] + items[1..];
    }
  }

  /// Decoding yields values of the schema

  lemma {:induction false} DecodeConforms(s: Schema, bytes: Bytes)
    requires Decode(s, bytes).Some?
    ensures Conforms(s, Decode(s, bytes).value.0)
    decreases s, 0
  {
    match s
    case List(element) =>
      var head := ReadHead(ARRAY, bytes).value;
      DecodeListConforms(element, head.0, head.1);
    case Record(fields) =>
      DecodeFieldsConform(fields, ReadHead(ARRAY, bytes).value.1);
    case Nullable(inner) =>
      if bytes == [] || bytes[0] != NULL {
        DecodeConforms(inner, bytes);
      }
    case Choice(cases) =>
      var variant := ReadHead(UNSIGNED, ReadHead(ARRAY, bytes).value.1).value;
      DecodeConforms(cases[variant.0], variant.1);
    case _ =>
  }

  lemma {:induction false} DecodeListConforms(element: Schema, n: nat, bytes: Bytes)
    requires DecodeList(element, n, bytes).Some?
    ensures ConformList(element, DecodeList(element, n, bytes).value.0)
    decreases element, n + 1
  {
    if n > 0 {
      DecodeConforms(element, bytes);
      DecodeListConforms(element, n - 1, Decode(element, bytes).value.1);
    }
  }

  lemma {:induction false} DecodeFieldsConform(fields: seq<Schema>, bytes: Bytes)
    requires DecodeFields(fields, bytes).Some?
    ensures ConformFields(fields, DecodeFields(fields, bytes).value.0)
    decreases fields, 0
  {
    if fields != [] {
      DecodeConforms(fields[0], bytes);
      DecodeFieldsConform(fields[1..], Decode(fields[0], bytes).value.1);
    }
  }

  /// Canonical bytes

  datatype CodecError = Undecodable | NonCanonical

  type Reader = Bytes -> Parsed<Value>

  /** A decoder of the schema's type: it yields its values, and reads what the encoder writes. */
  ghost predicate Reads(s: Schema, read: Reader) {
    && (forall bytes :: read(bytes).Some? ==> Conforms(s, read(bytes).value.0))
    && forall v, rest :: Conforms(s, v) ==> read(Encode(s, v) + rest) == Some((v, rest))
  }

  /** `from_canonical_bytes`: decode, refuse what follows, encode again and compare. */
  ghost function FromCanonicalBytes(s: Schema, read: Reader, bytes: Bytes): Result<Value, CodecError>
    requires Reads(s, read)
  {
    var parsed := read(bytes);
    if parsed.None? then Err(Undecodable)
    else if parsed.value.1 != [] then Err(NonCanonical)
    else if Encode(s, parsed.value.0) != bytes then Err(NonCanonical)
    else Ok(parsed.value.0)
  }

  lemma DecodeReads(s: Schema)
    ensures Reads(s, bytes => Decode(s, bytes))
  {
    forall bytes | Decode(s, bytes).Some?
      ensures Conforms(s, Decode(s, bytes).value.0)
    {
      DecodeConforms(s, bytes);
    }
    forall v, rest | Conforms(s, v)
      ensures Decode(s, Encode(s, v) + rest) == Some((v, rest))
    {
      DecodeEncode(s, v, rest);
    }
  }

  /**
   However lenient the decoder, the accepted bytes are exactly those the encoder writes, and each is read
   back as the value it was written for.
   */
  lemma CanonicalExact(s: Schema, read: Reader, bytes: Bytes, v: Value)
    requires Reads(s, read)
    ensures FromCanonicalBytes(s, read, bytes) == Ok(v) <==> Conforms(s, v) && bytes == Encode(s, v)
  {
    if Conforms(s, v) && bytes == Encode(s, v) {
      assert Encode(s, v) + [] == bytes;
    }
  }

  /** Encodings of one schema are injective and prefix-free. */
  lemma PrefixFree(s: Schema, v: Value, w: Value, rest: Bytes, rest': Bytes)
    requires Conforms(s, v) && Conforms(s, w)
    requires Encode(s, v) + rest == Encode(s, w) + rest'
    ensures v == w && rest == rest'
  {
    DecodeEncode(s, v, rest);
    DecodeEncode(s, w, rest');
  }

  lemma LongHeadDecodes(n: u64, max: u64)
    requires n <= max && n < 24
    ensures Decode(Unsigned(max), [24, n]) == Some((Number(n), []))
  {
    var bytes: Bytes := [24, n];
    assert bytes[1..2] == [n] && bytes[2..] == [];
    assert FromBigEndian([n]) == n;
  }

  lemma ShortHeads(max: u64, v: Value, n: u64)
    requires n < 24
    ensures Conforms(Unsigned(max), v) ==> Encode(Unsigned(max), v) != [24, n]
  {
    if Conforms(Unsigned(max), v) && 24 <= v.n < 0x100 {
      assert BigEndian(v.n, 1) == [v.n];
      assert Encode(Unsigned(max), v)[1] == v.n;
    }
  }

  /** The decoder is lenient indeed: every head may be written longer, and is then refused. */
  lemma LongHeadsRefused(read: Reader, n: u64, max: u64)
    requires n <= max && n < 24 && Reads(Unsigned(max), read)
    ensures Decode(Unsigned(max), [24, n]) == Some((Number(n), []))
    ensures FromCanonicalBytes(Unsigned(max), read, [24, n]).Err?
  {
    var bytes: Bytes := [24, n];
    LongHeadDecodes(n, max);
    var accepted := FromCanonicalBytes(Unsigned(max), read, bytes);
    if accepted.Ok? {
      ShortHeads(max, accepted.value, n);
      hide *;
      CanonicalExact(Unsigned(max), read, bytes, accepted.value);
    }
  }
}
