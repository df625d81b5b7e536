/** The signed and hashed values' schemas, and the bytes that are signed and hashed. */
module Schemas {
  import opened Basics
  import opened Cbor
  import opened Core

  /// Schemas, field by field

  const DIGEST := Fixed(32)
  const PUBLIC_KEY := Fixed(32)
  const SIGNATURE := Fixed(64)
  const IDENTITY := Fixed(16)
  const U8 := Unsigned(0xFF)
  const U16 := Unsigned(U16_MAX)
  const U32 := Unsigned(U32_MAX)
  const U64 := Unsigned(U64_MAX)

  /** A vector of bytes is an array of integers, not a byte string. */
  const BYTE_VECTOR := List(U8)

  /** version, name, description, default branch, visibility, delegates, threshold */
  const DOCUMENT := Record([U8, Text, Text, Text, Enumeration(2), List(IDENTITY), U16])

  /** version, purpose, identity, identity key, repository key, key epoch */
  const BINDING_PAYLOAD := Record([U8, Text, IDENTITY, PUBLIC_KEY, PUBLIC_KEY, U32])
  const BINDING := Record([BINDING_PAYLOAD, SIGNATURE])

  /** version, repository, parent, sequence, document */
  const IDENTITY_PAYLOAD := Record([U8, DIGEST, DIGEST, U64, DOCUMENT])

  /** identity, key epoch, signature */
  const APPROVAL := Record([IDENTITY, U32, SIGNATURE])
  const IDENTITY_TRANSITION := Record([IDENTITY_PAYLOAD, List(APPROVAL)])

  /** algorithm, bytes */
  const OBJECT_ID := Record([Text, BYTE_VECTOR])

  /** name, target */
  const REF_TARGET := Record([Text, OBJECT_ID])

  /** version, repository, publisher, key epoch, parent, sequence, refs */
  const REF_PAYLOAD := Record([U8, DIGEST, IDENTITY, U32, Nullable(DIGEST), U64, List(REF_TARGET)])
  const REF_TRANSITION := Record([REF_PAYLOAD, SIGNATURE])

  /** repository, publisher, transition, sequence, refs */
  const REF_STATE := Record([DIGEST, IDENTITY, DIGEST, U64, List(REF_TARGET)])

  /** a publisher transition, or an object */
  const PREREQUISITE := Choice([Record([DIGEST]), Record([OBJECT_ID])])

  /** kind, length, digest */
  const PAYLOAD_DESCRIPTOR := Record([Enumeration(1), U64, DIGEST])

  /** version, repository, publisher, prerequisites, resulting transition, three digests */
  const MANIFEST :=
    Record([U8, DIGEST, IDENTITY, List(PREREQUISITE), DIGEST, DIGEST, DIGEST, PAYLOAD_DESCRIPTOR])

  /** manifest, binding, transition, payload */
  const TRANSFER := Record([MANIFEST, BYTE_VECTOR, BYTE_VECTOR, BYTE_VECTOR])

  /// Domains

  predicate Ascii(s: string) {
    forall i :: 0 <= i < |s| ==> s[i] as int < 0x80
  }

  /** A string as the model has them: one character a byte. */
  predicate IsOctets(s: string) {
    forall i :: 0 <= i < |s| ==> s[i] as int < 0x100
  }

  function BytesOf(s: string): (bytes: Bytes)
    requires IsOctets(s)
    ensures |bytes| == |s| && forall i :: 0 <= i < |s| ==> bytes[i] == s[i] as int
  {
    seq(|s|, i requires 0 <= i < |s| => s[i] as int)
  }

  datatype Domain =
    | RepositoryIdentifier
    | IdentityRoot
    | IdentityTransitionId
    | RefTransitionId
    | RefSignature
    | TransferBinding
    | TransferTransition
    | TransferPayload

  function Purpose(domain: Domain): string {
    match domain
    case RepositoryIdentifier => "repository-id"
    case IdentityRoot => "identity-root"
    case IdentityTransitionId => "identity-transition"
    case RefTransitionId => "ref-transition"
    case RefSignature => "ref-transition-signature"
    case TransferBinding => "transfer-binding"
    case TransferTransition => "transfer-transition"
    case TransferPayload => "transfer-payload"
  }

  function Separator(domain: Domain): string {
    DomainSeparator(Purpose(domain))
  }

  /** What follows the separator: a value of a schema, or the raw bytes of a pack. */
  function Contents(domain: Domain): Option<Schema> {
    match domain
    case RepositoryIdentifier => Some(DOCUMENT)
    case IdentityRoot => Some(DOCUMENT)
    case IdentityTransitionId => Some(IDENTITY_TRANSITION)
    case RefTransitionId => Some(REF_TRANSITION)
    case RefSignature => Some(REF_PAYLOAD)
    case TransferBinding => Some(BINDING)
    case TransferTransition => Some(REF_TRANSITION)
    case TransferPayload => None
  }

  /** Ends in its only NUL. */
  predicate Terminated(s: string) {
    s != "" && s[|s| - 1] == '\0' && forall i :: 0 <= i < |s| - 1 ==> s[i] != '\0'
  }

  predicate PlainChar(c: char) {
    'a' <= c <= 'z' || '0' <= c <= '9' || c == '-' || c == '/'
  }

  lemma PurposePlain(domain: Domain)
    ensures forall i :: 0 <= i < |Purpose(domain)| ==> PlainChar(Purpose(domain)[i])
  {
  }

  lemma SeparatorShape(domain: Domain)
    ensures Ascii(Separator(domain)) && Terminated(Separator(domain))
  {
    hide Purpose;
    PurposePlain(domain);
    var s := Separator(domain);
    forall i | 0 <= i < |s| - 1
      ensures PlainChar(s[i])
    {
      if 12 <= i < 12 + |Purpose(domain)| {
        assert s[i] == Purpose(domain)[i - 12];
      }
    }
  }

  lemma SeparatorsDiffer(a: Domain, b: Domain)
    requires Separator(a) == Separator(b)
    ensures a == b
  {
    var p, q := Purpose(a), Purpose(b);
    assert |Separator(a)| == |p| + 16 && |Separator(b)| == |q| + 16;
    assert Separator(a)[12] == p[0] && Separator(b)[12] == q[0];
    assert Separator(a)[21] == p[9] && Separator(b)[21] == q[9];
  }

  /** `domain_digest` hashes the separator followed by the value; so does `signature_frame` frame it. */
  function Framed(domain: Domain, value: Bytes): Bytes {
    SeparatorShape(domain);
    BytesOf(Separator(domain)) + value
  }

  /** From what is hashed, the domain and the value can be told. */
  lemma FramesDecode(a: Domain, value: Bytes, b: Domain, value': Bytes)
    requires Framed(a, value) == Framed(b, value')
    ensures a == b && value == value'
  {
    hide Purpose, DomainSeparator, Separator;
    SeparatorShape(a);
    SeparatorShape(b);
    var da, db := Separator(a), Separator(b);
    var frame, frame' := Framed(a, value), Framed(b, value');
    assert forall i :: 0 <= i < |da| ==> frame[i] == da[i] as int;
    assert forall i :: 0 <= i < |db| ==> frame'[i] == db[i] as int;
    assert frame[|da| - 1] == 0 && frame'[|db| - 1] == 0;
    assert |da| == |db|;
    assert da == db;
    SeparatorsDiffer(a, b);
    assert frame[|da|..] == value && frame'[|da|..] == value';
  }

  /** Equal hash inputs come from the same value of the same kind. */
  lemma HashInputsDiffer(a: Domain, v: Value, b: Domain, w: Value)
    requires Contents(a).Some? && Conforms(Contents(a).value, v)
    requires Contents(b).Some? && Conforms(Contents(b).value, w)
    requires Framed(a, Encode(Contents(a).value, v)) == Framed(b, Encode(Contents(b).value, w))
    ensures a == b && v == w
  {
    FramesDecode(a, Encode(Contents(a).value, v), b, Encode(Contents(b).value, w));
    PrefixFree(Contents(a).value, v, w, [], []);
  }

  /// Signed messages

  /** What repository and identity keys sign: only references are framed with a separator. */
  datatype Signable = SignedRefs(v: Value) | SignedIdentity(v: Value) | SignedBinding(v: Value)

  predicate WellFormed(m: Signable) {
    match m
    case SignedRefs(v) => Conforms(REF_PAYLOAD, v)
    case SignedIdentity(v) => Conforms(IDENTITY_PAYLOAD, v)
    case SignedBinding(v) => Conforms(BINDING_PAYLOAD, v)
  }

  function SignedBytes(m: Signable): Bytes
    requires WellFormed(m)
  {
    match m
    case SignedRefs(v) => Framed(RefSignature, Encode(REF_PAYLOAD, v))
    case SignedIdentity(v) => Encode(IDENTITY_PAYLOAD, v)
    case SignedBinding(v) => Encode(BINDING_PAYLOAD, v)
  }

  lemma FirstByte(m: Signable)
    requires WellFormed(m)
    ensures SignedBytes(m) != []
    ensures SignedBytes(m)[0] == match m case SignedRefs(_) => 0x73 case SignedIdentity(_) => 0x85 case SignedBinding(_) => 0x86
  {
    match m
    case SignedRefs(v) => SeparatorShape(RefSignature);
    case SignedIdentity(v) => assert Head(ARRAY, 5) == [0x85];
    case SignedBinding(v) => assert Head(ARRAY, 6) == [0x86];
  }

  /** No signature made for one purpose, or one value, is one for another. */
  lemma SignedBytesDiffer(m: Signable, n: Signable)
    requires WellFormed(m) && WellFormed(n) && SignedBytes(m) == SignedBytes(n)
    ensures m == n
  {
    hide SignedBytes;
    FirstByte(m);
    FirstByte(n);
    SameKind(m, n);
  }

  lemma SameKind(m: Signable, n: Signable)
    requires WellFormed(m) && WellFormed(n) && SignedBytes(m) == SignedBytes(n)
    requires (m.SignedRefs? && n.SignedRefs?) || (m.SignedIdentity? && n.SignedIdentity?) || (m.SignedBinding? && n.SignedBinding?)
    ensures m == n
  {
    match m
    case SignedRefs(v) =>
      HashInputsDiffer(RefSignature, v, RefSignature, n.v);
    case SignedIdentity(v) =>
      PrefixFree(IDENTITY_PAYLOAD, v, n.v, [], []);
    case SignedBinding(v) =>
      PrefixFree(BINDING_PAYLOAD, v, n.v, [], []);
  }
}
