/** The bytes that the repository's tests fix, as instances of the encodings. */
module KnownAnswers {
  import opened Basics
  import opened Cbor
  import opened Core
  import opened Schemas
  import opened Encodings
  import opened Ideals
  import RefNames
  import Refs

  function Repeat(b: byte, n: nat): (bytes: Bytes)
    ensures |bytes| == n && forall i :: 0 <= i < n ==> bytes[i] == b
  {
    seq(n, i => b)
  }

  const GOLDEN_IDENTITY: Bytes :=
    [0x34, 0x75, 0x0f, 0x98, 0xbd, 0x59, 0xfc, 0xfc, 0x94, 0x6d, 0xa4, 0x5a, 0xaa, 0xbe, 0x93, 0x3b]

  lemma {:induction false} AsciiIsUtf8(bytes: Bytes)
    requires forall i :: 0 <= i < |bytes| ==> bytes[i] < 0x80
    ensures ValidUtf8(bytes)
  {
    if bytes != [] {
      AsciiIsUtf8(bytes[1..]);
    }
  }

  lemma AsciiIsText(s: string)
    requires Ascii(s) && |s| <= U64_MAX
    ensures IsText(s)
  {
    AsciiIsUtf8(BytesOf(s));
  }

  lemma {:induction false} SmallFlat(bytes: Bytes)
    requires forall i :: 0 <= i < |bytes| ==> bytes[i] < 24
    ensures Flatten(NumbersBytes(bytes)) == bytes
  {
    if bytes != [] {
      SmallFlat(bytes[1..]);
      assert NumbersBytes(bytes)[1..] == NumbersBytes(bytes[1..]);
      assert bytes == [bytes[0]] + bytes[1..];
    }
  }

  /** Heads of arguments below 24 and below 256. */
  lemma Heads(major: nat, n: nat)
    requires major < 7 && n < 256
    ensures Head(major, n) == if n < 24 then [32 * major + n] else [32 * major + 24, n]
  {
    assert BigEndian(n, 1) == [n];
  }

  lemma OneFlat(a: Bytes)
    ensures Flatten([a]) == a
  {
  }

  /// The frame of a reference signature

  function GoldenPayload(repository: Digest, publisher: Identity): RefPayload {
    RefPayload(1, RepositoryId(repository), publisher, 3, None, 0,
               [RefTarget("refs/heads/main", GitObjectId("sha256", Repeat(5, 32)))])
  }

  function GoldenTarget(): Bytes {
    [0x82] + Flatten([[0x6f] + BytesOf("refs/heads/main"),
                      [0x82] + Flatten([[0x66] + BytesOf("sha256"), [0x98, 0x20] + Repeat(5, 32)])])
  }

  /** An absent parent is `f6`; the object's bytes are an array. */
  function GoldenBytes(): Bytes {
    [0x87] + Flatten([[0x01], [0x58, 0x20] + Repeat(4, 32), [0x50] + GOLDEN_IDENTITY, [0x03], [0xf6], [0x00],
                      [0x81] + GoldenTarget()])
  }

  lemma GoldenTargetEncodes()
    ensures EncodableTarget(RefTarget("refs/heads/main", GitObjectId("sha256", Repeat(5, 32))))
    ensures TargetBytes(RefTarget("refs/heads/main", GitObjectId("sha256", Repeat(5, 32)))) == GoldenTarget()
  {
    hide Flatten, Repeat, ValidUtf8, Head, BytesOf, NumbersBytes;
    AsciiIsText("refs/heads/main");
    AsciiIsText("sha256");
    SmallFlat(Repeat(5, 32));
    Heads(ARRAY, 32);
    Heads(ARRAY, 2);
    Heads(TEXT_STRING, 6);
    Heads(TEXT_STRING, 15);
  }

  lemma GoldenPayloadEncodes(r: Rendition, repository: Digest, publisher: Identity)
    requires r.digest(repository) == Repeat(4, 32) && RefNames.IdentityBytes(publisher) == GOLDEN_IDENTITY
    ensures EncodableRefs(GoldenPayload(repository, publisher).refs)
    ensures Array(PayloadParts(r, GoldenPayload(repository, publisher))) == GoldenBytes()
  {
    hide Flatten, Repeat, Head, TargetBytes, GoldenTarget, EncodableTarget, RefNames.IdentityBytes;
    GoldenTargetEncodes();
    var p := GoldenPayload(repository, publisher);
    OneFlat(RefParts(p.refs)[0]);
    assert RefParts(p.refs) == [GoldenTarget()];
    Heads(ARRAY, 7);
    Heads(ARRAY, 1);
    Heads(UNSIGNED, 0);
    Heads(UNSIGNED, 1);
    Heads(UNSIGNED, 3);
    Heads(BYTE_STRING, 16);
    Heads(BYTE_STRING, 32);
  }

  /** What is signed for the golden payload is the separator and then the golden bytes. */
  lemma GoldenFrame(r: Rendition, repository: Digest, publisher: Identity)
    requires r.digest(repository) == Repeat(4, 32) && RefNames.IdentityBytes(publisher) == GOLDEN_IDENTITY
    ensures Signs(Refs.SignatureFrame(GoldenPayload(repository, publisher)))
    ensures IsOctets("styrene/git/ref-transition-signature/v1\0")
    ensures SignInput(r, Refs.SignatureFrame(GoldenPayload(repository, publisher)))
         == BytesOf("styrene/git/ref-transition-signature/v1\0") + GoldenBytes()
  {
    hide Repeat, GoldenBytes, GoldenPayload, PayloadParts, PayloadItems, EncodableRefs, Array, RefNames.IdentityBytes;
    hide Conforms, Encode, BytesOf;
    var p := GoldenPayload(repository, publisher);
    GoldenPayloadEncodes(r, repository, publisher);
    PayloadEncodes(r, p);
    ProtocolMessages(p);
    SeparatorShape(RefSignature);
    assert Separator(RefSignature) == "styrene/git/ref-transition-signature/v1\0";
  }

  /** Every decoder reads the golden bytes as that payload. */
  lemma GoldenReadsBack(r: Rendition, repository: Digest, publisher: Identity, read: Reader)
    requires r.digest(repository) == Repeat(4, 32) && RefNames.IdentityBytes(publisher) == GOLDEN_IDENTITY
    requires Reads(REF_PAYLOAD, read)
    ensures EncodableRefs(GoldenPayload(repository, publisher).refs)
    ensures FromCanonicalBytes(REF_PAYLOAD, read, GoldenBytes())
         == Ok(Items(PayloadItems(r, GoldenPayload(repository, publisher))))
  {
    hide Repeat, GoldenBytes, GoldenPayload, PayloadParts, PayloadItems, EncodableRefs, Array, RefNames.IdentityBytes;
    hide FromCanonicalBytes, Reads;
    GoldenPayloadEncodes(r, repository, publisher);
    PayloadEncodes(r, GoldenPayload(repository, publisher));
    CanonicalExact(REF_PAYLOAD, read, GoldenBytes(), Items(PayloadItems(r, GoldenPayload(repository, publisher))));
  }

  /// A document

  function GoldenDocument(delegate: Identity): IdentityDocument {
    IdentityDocument(1, "small-project", "container integration fixture", "main", Public, [delegate], 1)
  }

  function GoldenDocumentBytes(): Bytes {
    [0x87] + Flatten([[0x01], [0x6d] + BytesOf("small-project"), [0x78, 0x1d] + BytesOf("container integration fixture"),
                      [0x64] + BytesOf("main"), [0x00], [0x81] + ([0x50] + GOLDEN_IDENTITY), [0x01]])
  }

  /** The golden document has the golden bytes. */
  lemma GoldenDocumentEncodes(delegate: Identity)
    requires RefNames.IdentityBytes(delegate) == GOLDEN_IDENTITY
    ensures EncodableDocument(GoldenDocument(delegate))
    ensures EncodesAs(DOCUMENT, Items(DocumentItems(GoldenDocument(delegate))), GoldenDocumentBytes())
  {
    hide Flatten, Head, RefNames.IdentityBytes, BytesOf, ValidUtf8, EncodesAs, DocumentItems;
    AsciiIsText("small-project");
    AsciiIsText("container integration fixture");
    AsciiIsText("main");
    assert IdentityParts([delegate]) == [IdentityPart(delegate)];
    OneFlat(IdentityPart(delegate));
    Heads(ARRAY, 1);
    Heads(ARRAY, 7);
    Heads(UNSIGNED, 0);
    Heads(UNSIGNED, 1);
    Heads(BYTE_STRING, 16);
    Heads(TEXT_STRING, 4);
    Heads(TEXT_STRING, 13);
    Heads(TEXT_STRING, 29);
    DocumentEncodes(GoldenDocument(delegate));
  }
}
