/**
 The protocol's values as CBOR values and as bytes, field by field, and what its ideal digests, signatures
 and blob ids stand for.
 */
module Encodings {
  import opened Basics
  import opened Cbor
  import opened Core
  import opened Schemas
  import opened RefNames
  import opened Store

  type Octets32 = bytes: Bytes | |bytes| == 32 witness seq(32, _ => 0)
  type Octets64 = bytes: Bytes | |bytes| == 64 witness seq(64, _ => 0)

  /** The bytes of digests and signatures. */
  datatype Rendition = Rendition(digest: Digest -> Octets32, signature: Signature -> Octets64)

  /** Different members of these sets have different bytes. */
  predicate Faithful(r: Rendition, digests: set<Digest>, signatures: set<Signature>) {
    && (forall d, e :: d in digests && e in digests && r.digest(d) == r.digest(e) ==> d == e)
    && forall s, t :: s in signatures && t in signatures && r.signature(s) == r.signature(t) ==> s == t
  }

  /// Encodings put together from those of the parts

  function Flatten(parts: seq<Bytes>): Bytes {
    if parts == [] then [] else parts[0] + Flatten(parts[1..])
  }

  /** The schema has this value, and its canonical bytes are these. */
  predicate EncodesAs(s: Schema, v: Value, bytes: Bytes) {
    Conforms(s, v) && Encode(s, v) == bytes
  }

  /** An array of the parts, in order. */
  function Array(parts: seq<Bytes>): Bytes
    requires |parts| <= U64_MAX
  {
    Head(ARRAY, |parts|) + Flatten(parts)
  }

  lemma {:induction false} FieldsFlatten(fields: seq<Schema>, items: seq<Value>, parts: seq<Bytes>)
    requires |fields| == |items| == |parts|
    requires forall i :: 0 <= i < |items| ==> EncodesAs(fields[i], items[i], parts[i])
    ensures ConformFields(fields, items) && EncodeFields(fields, items) == Flatten(parts)
  {
    if items != [] {
      assert EncodesAs(fields[0], items[0], parts[0]);
      FieldsFlatten(fields[1..], items[1..], parts[1..]);
    }
  }

  lemma RecordAs(fields: seq<Schema>, items: seq<Value>, parts: seq<Bytes>)
    requires |fields| == |items| == |parts| <= U64_MAX
    requires forall i :: 0 <= i < |items| ==> EncodesAs(fields[i], items[i], parts[i])
    ensures EncodesAs(Record(fields), Items(items), Array(parts))
  {
    hide Head;
    FieldsFlatten(fields, items, parts);
  }

  lemma {:induction false} ListFlattens(element: Schema, items: seq<Value>, parts: seq<Bytes>)
    requires |items| == |parts|
    requires forall i :: 0 <= i < |items| ==> EncodesAs(element, items[i], parts[i])
    ensures ConformList(element, items) && EncodeList(element, items) == Flatten(parts)
  {
    if items != [] {
      assert EncodesAs(element, items[0], parts[0]);
      ListFlattens(element, items[1..], parts[1..]);
    }
  }

  lemma ListAs(element: Schema, items: seq<Value>, parts: seq<Bytes>)
    requires |items| == |parts| <= U64_MAX
    requires forall i :: 0 <= i < |items| ==> EncodesAs(element, items[i], parts[i])
    ensures EncodesAs(List(element), Items(items), Array(parts))
  {
    hide Head;
    ListFlattens(element, items, parts);
  }

  lemma TwoAs(f: Schema, g: Schema, v: Value, w: Value, p: Bytes, q: Bytes)
    requires EncodesAs(f, v, p) && EncodesAs(g, w, q)
    ensures EncodesAs(Record([f, g]), Items([v, w]), Array([p, q]))
  {
    hide EncodesAs, Array;
    RecordAs([f, g], [v, w], [p, q]);
  }

  lemma FiveAs(fields: seq<Schema>, items: seq<Value>, parts: seq<Bytes>)
    requires |fields| == |items| == |parts| == 5
    requires EncodesAs(fields[0], items[0], parts[0]) && EncodesAs(fields[1], items[1], parts[1])
    requires EncodesAs(fields[2], items[2], parts[2]) && EncodesAs(fields[3], items[3], parts[3])
    requires EncodesAs(fields[4], items[4], parts[4])
    ensures EncodesAs(Record(fields), Items(items), Array(parts))
  {
    hide EncodesAs, Array;
    RecordAs(fields, items, parts);
  }

  lemma SevenAs(fields: seq<Schema>, items: seq<Value>, parts: seq<Bytes>)
    requires |fields| == |items| == |parts| == 7
    requires EncodesAs(fields[0], items[0], parts[0]) && EncodesAs(fields[1], items[1], parts[1])
    requires EncodesAs(fields[2], items[2], parts[2]) && EncodesAs(fields[3], items[3], parts[3])
    requires EncodesAs(fields[4], items[4], parts[4]) && EncodesAs(fields[5], items[5], parts[5])
    requires EncodesAs(fields[6], items[6], parts[6])
    ensures EncodesAs(Record(fields), Items(items), Array(parts))
  {
    hide EncodesAs, Array;
    RecordAs(fields, items, parts);
  }

  /// Numbers, byte strings, texts

  function NumberBytes(n: u64): Bytes { Head(UNSIGNED, n) }

  lemma NumberAs(max: u64, n: u64)
    requires n <= max
    ensures EncodesAs(Unsigned(max), Number(n), NumberBytes(n))
  {
  }

  lemma EnumerationAs(count: u64, n: u64)
    requires n < count
    ensures EncodesAs(Enumeration(count), Number(n), NumberBytes(n))
  {
  }

  function ChunkBytes(bytes: Bytes): Bytes
    requires |bytes| <= U64_MAX
  {
    Head(BYTE_STRING, |bytes|) + bytes
  }

  lemma ChunkAs(bytes: Bytes)
    requires |bytes| <= U64_MAX
    ensures EncodesAs(Fixed(|bytes|), Chunk(bytes), ChunkBytes(bytes))
  {
  }

  /** Every Rust string is one: UTF-8, and no longer than a length can say. */
  predicate IsText(s: string) {
    IsOctets(s) && |s| <= U64_MAX && ValidUtf8(BytesOf(s))
  }

  function Word(s: string): Value
    requires IsOctets(s)
  {
    Chunk(BytesOf(s))
  }

  function WordBytes(s: string): Bytes
    requires IsOctets(s) && |s| <= U64_MAX
  {
    Head(TEXT_STRING, |s|) + BytesOf(s)
  }

  lemma WordAs(s: string)
    requires IsText(s)
    ensures EncodesAs(Text, Word(s), WordBytes(s))
  {
  }

  lemma WordInjective(s: string, t: string)
    requires IsOctets(s) && IsOctets(t) && Word(s) == Word(t)
    ensures s == t
  {
    forall i | 0 <= i < |s|
      ensures s[i] == t[i]
    {
      assert BytesOf(s)[i] == BytesOf(t)[i];
    }
  }

  function Numbers(bytes: Bytes): (items: seq<Value>)
    ensures |items| == |bytes| && forall i :: 0 <= i < |bytes| ==> items[i] == Number(bytes[i])
  {
    seq(|bytes|, i requires 0 <= i < |bytes| => Number(bytes[i]))
  }

  /** Each byte as an integer: one byte below 24, else two. */
  function NumbersBytes(bytes: Bytes): (parts: seq<Bytes>)
    ensures |parts| == |bytes| && forall i :: 0 <= i < |bytes| ==> parts[i] == NumberBytes(bytes[i])
  {
    seq(|bytes|, i requires 0 <= i < |bytes| => NumberBytes(bytes[i]))
  }

  function Vector(bytes: Bytes): Value {
    Items(Numbers(bytes))
  }

  function VectorBytes(bytes: Bytes): Bytes
    requires |bytes| <= U64_MAX
  {
    Array(NumbersBytes(bytes))
  }

  lemma VectorAs(bytes: Bytes)
    requires |bytes| <= U64_MAX
    ensures EncodesAs(BYTE_VECTOR, Vector(bytes), VectorBytes(bytes))
  {
    hide EncodesAs, Array, NumberBytes;
    forall i | 0 <= i < |bytes|
      ensures EncodesAs(U8, Numbers(bytes)[i], NumbersBytes(bytes)[i])
    {
      NumberAs(0xFF, bytes[i]);
    }
    ListAs(U8, Numbers(bytes), NumbersBytes(bytes));
  }

  lemma VectorInjective(a: Bytes, b: Bytes)
    requires Vector(a) == Vector(b)
    ensures a == b
  {
    forall i | 0 <= i < |a|
      ensures a[i] == b[i]
    {
      assert Numbers(a)[i] == Numbers(b)[i];
    }
  }

  /// Identities

  function IdentityValue(identity: Identity): Value {
    Chunk(IdentityBytes(identity))
  }

  function IdentityPart(identity: Identity): Bytes {
    ChunkBytes(IdentityBytes(identity))
  }

  lemma IdentityAs(identity: Identity)
    ensures EncodesAs(IDENTITY, IdentityValue(identity), IdentityPart(identity))
  {
    ChunkAs(IdentityBytes(identity));
  }

  function IdentityValues(ids: seq<Identity>): (items: seq<Value>)
    ensures |items| == |ids| && forall i :: 0 <= i < |ids| ==> items[i] == IdentityValue(ids[i])
  {
    seq(|ids|, i requires 0 <= i < |ids| => IdentityValue(ids[i]))
  }

  function IdentityParts(ids: seq<Identity>): (parts: seq<Bytes>)
    ensures |parts| == |ids| && forall i :: 0 <= i < |ids| ==> parts[i] == IdentityPart(ids[i])
  {
    seq(|ids|, i requires 0 <= i < |ids| => IdentityPart(ids[i]))
  }

  lemma IdentitiesAs(ids: seq<Identity>)
    requires |ids| <= U64_MAX
    ensures EncodesAs(List(IDENTITY), Items(IdentityValues(ids)), Array(IdentityParts(ids)))
  {
    hide EncodesAs, Array, IdentityValue, IdentityPart;
    forall i | 0 <= i < |ids|
      ensures EncodesAs(IDENTITY, IdentityValues(ids)[i], IdentityParts(ids)[i])
    {
      IdentityAs(ids[i]);
    }
    ListAs(IDENTITY, IdentityValues(ids), IdentityParts(ids));
  }

  lemma IdentitiesInjective(a: seq<Identity>, b: seq<Identity>)
    requires IdentityValues(a) == IdentityValues(b)
    ensures a == b
  {
    hide IdentityBytes;
    assert |a| == |IdentityValues(a)| == |b|;
    forall i | 0 <= i < |a|
      ensures a[i] == b[i]
    {
      assert IdentityValues(a)[i] == IdentityValues(b)[i];
      IdentityBytesInjective(a[i], b[i]);
    }
  }

  /// Documents

  predicate EncodableDocument(d: IdentityDocument) {
    IsText(d.name) && IsText(d.description) && IsText(d.defaultBranch) && |d.delegates| <= U64_MAX
  }

  function VisibilityIndex(v: Visibility): nat {
    match v
    case Public => 0
    case Private => 1
  }

  function DocumentItems(d: IdentityDocument): (items: seq<Value>)
    requires EncodableDocument(d)
    ensures |items| == 7
  {
    [Number(d.version), Word(d.name), Word(d.description), Word(d.defaultBranch),
     Number(VisibilityIndex(d.visibility)), Items(IdentityValues(d.delegates)), Number(d.threshold)]
  }

  function DocumentParts(d: IdentityDocument): (parts: seq<Bytes>)
    requires EncodableDocument(d)
    ensures |parts| == 7
  {
    [NumberBytes(d.version), WordBytes(d.name), WordBytes(d.description), WordBytes(d.defaultBranch),
     NumberBytes(VisibilityIndex(d.visibility)), Array(IdentityParts(d.delegates)), NumberBytes(d.threshold)]
  }

  /** The bytes of a document. */
  lemma DocumentEncodes(d: IdentityDocument)
    requires EncodableDocument(d)
    ensures EncodesAs(DOCUMENT, Items(DocumentItems(d)), Array(DocumentParts(d)))
  {
    hide EncodesAs, Array, NumberBytes, Word, WordBytes, IsText;
    NumberAs(0xFF, d.version);
    WordAs(d.name);
    WordAs(d.description);
    WordAs(d.defaultBranch);
    EnumerationAs(2, VisibilityIndex(d.visibility));
    IdentitiesAs(d.delegates);
    NumberAs(U16_MAX, d.threshold);
    SevenAs([U8, Text, Text, Text, Enumeration(2), List(IDENTITY), U16], DocumentItems(d), DocumentParts(d));
  }

  lemma SevenEqual(a: seq<Value>, b: seq<Value>)
    requires |a| == |b| == 7 && a == b
    ensures a[0] == b[0] && a[1] == b[1] && a[2] == b[2] && a[3] == b[3] && a[4] == b[4] && a[5] == b[5] && a[6] == b[6]
  {
  }

  lemma FiveEqual(a: seq<Value>, b: seq<Value>)
    requires |a| == |b| == 5 && a == b
    ensures a[0] == b[0] && a[1] == b[1] && a[2] == b[2] && a[3] == b[3] && a[4] == b[4]
  {
  }

  lemma DocumentInjective(d: IdentityDocument, e: IdentityDocument)
    requires EncodableDocument(d) && EncodableDocument(e) && DocumentItems(d) == DocumentItems(e)
    ensures d == e
  {
    hide Word, IdentityValues;
    SevenEqual(DocumentItems(d), DocumentItems(e));
    WordInjective(d.name, e.name);
    WordInjective(d.description, e.description);
    WordInjective(d.defaultBranch, e.defaultBranch);
    IdentitiesInjective(d.delegates, e.delegates);
  }

  /// References

  predicate EncodableObject(o: GitObjectId) {
    IsText(o.algorithm) && |o.bytes| <= U64_MAX
  }

  predicate EncodableTarget(t: RefTarget) {
    IsText(t.name) && EncodableObject(t.target)
  }

  function TargetItems(t: RefTarget): (items: seq<Value>)
    requires EncodableTarget(t)
    ensures |items| == 2
  {
    [Word(t.name), Items([Word(t.target.algorithm), Vector(t.target.bytes)])]
  }

  function TargetBytes(t: RefTarget): Bytes
    requires EncodableTarget(t)
  {
    Array([WordBytes(t.name), Array([WordBytes(t.target.algorithm), VectorBytes(t.target.bytes)])])
  }

  lemma TargetEncodes(t: RefTarget)
    requires EncodableTarget(t)
    ensures EncodesAs(REF_TARGET, Items(TargetItems(t)), TargetBytes(t))
  {
    hide EncodesAs, Array, Word, WordBytes, Vector, VectorBytes, ValidUtf8;
    WordAs(t.target.algorithm);
    VectorAs(t.target.bytes);
    TwoAs(Text, BYTE_VECTOR, Word(t.target.algorithm), Vector(t.target.bytes),
          WordBytes(t.target.algorithm), VectorBytes(t.target.bytes));
    WordAs(t.name);
    TwoAs(Text, OBJECT_ID, Word(t.name), Items([Word(t.target.algorithm), Vector(t.target.bytes)]),
          WordBytes(t.name), Array([WordBytes(t.target.algorithm), VectorBytes(t.target.bytes)]));
  }

  lemma TargetInjective(t: RefTarget, u: RefTarget)
    requires EncodableTarget(t) && EncodableTarget(u) && TargetItems(t) == TargetItems(u)
    ensures t == u
  {
    hide Word, Vector;
    var v, w := TargetItems(t), TargetItems(u);
    assert v[0] == w[0] && v[1] == w[1];
    var a, b := v[1].items, w[1].items;
    assert a[0] == b[0] && a[1] == b[1];
    WordInjective(t.name, u.name);
    WordInjective(t.target.algorithm, u.target.algorithm);
    VectorInjective(t.target.bytes, u.target.bytes);
  }

  predicate EncodableRefs(refs: seq<RefTarget>) {
    |refs| <= U64_MAX && forall i :: 0 <= i < |refs| ==> EncodableTarget(refs[i])
  }

  function RefItems(refs: seq<RefTarget>): (items: seq<Value>)
    requires EncodableRefs(refs)
    ensures |items| == |refs| && forall i :: 0 <= i < |refs| ==> items[i] == Items(TargetItems(refs[i]))
  {
    seq(|refs|, i requires 0 <= i < |refs| => Items(TargetItems(refs[i])))
  }

  function RefParts(refs: seq<RefTarget>): (parts: seq<Bytes>)
    requires EncodableRefs(refs)
    ensures |parts| == |refs| && forall i :: 0 <= i < |refs| ==> parts[i] == TargetBytes(refs[i])
  {
    seq(|refs|, i requires 0 <= i < |refs| => TargetBytes(refs[i]))
  }

  lemma RefsEncode(refs: seq<RefTarget>)
    requires EncodableRefs(refs)
    ensures EncodesAs(List(REF_TARGET), Items(RefItems(refs)), Array(RefParts(refs)))
  {
    hide EncodesAs, Array, EncodableTarget, TargetItems, TargetBytes;
    forall i | 0 <= i < |refs|
      ensures EncodesAs(REF_TARGET, RefItems(refs)[i], RefParts(refs)[i])
    {
      TargetEncodes(refs[i]);
    }
    ListAs(REF_TARGET, RefItems(refs), RefParts(refs));
  }

  lemma RefsInjective(refs: seq<RefTarget>, others: seq<RefTarget>)
    requires EncodableRefs(refs) && EncodableRefs(others) && RefItems(refs) == RefItems(others)
    ensures refs == others
  {
    hide EncodableTarget, TargetItems;
    assert |refs| == |RefItems(refs)| == |others|;
    forall i | 0 <= i < |refs|
      ensures refs[i] == others[i]
    {
      assert RefItems(refs)[i] == RefItems(others)[i];
      TargetInjective(refs[i], others[i]);
    }
  }

  /// Reference transitions and states

  function DigestBytes(r: Rendition, d: Digest): Bytes {
    ChunkBytes(r.digest(d))
  }

  lemma DigestAs(r: Rendition, d: Digest)
    ensures EncodesAs(DIGEST, Chunk(r.digest(d)), DigestBytes(r, d))
  {
    ChunkAs(r.digest(d));
  }

  function ParentValue(r: Rendition, parent: Option<Digest>): Value {
    if parent.None? then Null else Chunk(r.digest(parent.value))
  }

  function ParentBytes(r: Rendition, parent: Option<Digest>): Bytes {
    if parent.None? then [NULL] else DigestBytes(r, parent.value)
  }

  lemma ParentAs(r: Rendition, parent: Option<Digest>)
    ensures EncodesAs(Nullable(DIGEST), ParentValue(r, parent), ParentBytes(r, parent))
  {
    if parent.Some? {
      DigestAs(r, parent.value);
    }
  }

  function PayloadItems(r: Rendition, p: RefPayload): (items: seq<Value>)
    requires EncodableRefs(p.refs)
    ensures |items| == 7
  {
    [Number(p.version), Chunk(r.digest(p.repository.digest)), IdentityValue(p.publisher), Number(p.keyEpoch),
     ParentValue(r, p.parent), Number(p.sequence), Items(RefItems(p.refs))]
  }

  function PayloadParts(r: Rendition, p: RefPayload): (parts: seq<Bytes>)
    requires EncodableRefs(p.refs)
    ensures |parts| == 7
  {
    [NumberBytes(p.version), DigestBytes(r, p.repository.digest), IdentityPart(p.publisher), NumberBytes(p.keyEpoch),
     ParentBytes(r, p.parent), NumberBytes(p.sequence), Array(RefParts(p.refs))]
  }

  /** The bytes of a reference payload: an absent parent is `f6`, and an object's bytes are an array. */
  lemma PayloadEncodes(r: Rendition, p: RefPayload)
    requires EncodableRefs(p.refs)
    ensures EncodesAs(REF_PAYLOAD, Items(PayloadItems(r, p)), Array(PayloadParts(r, p)))
  {
    hide EncodesAs, Array, NumberBytes, DigestBytes, IdentityPart, IdentityValue, EncodableRefs, ParentValue, ParentBytes;
    NumberAs(0xFF, p.version);
    DigestAs(r, p.repository.digest);
    IdentityAs(p.publisher);
    NumberAs(U32_MAX, p.keyEpoch);
    ParentAs(r, p.parent);
    NumberAs(U64_MAX, p.sequence);
    RefsEncode(p.refs);
    SevenAs([U8, DIGEST, IDENTITY, U32, Nullable(DIGEST), U64, List(REF_TARGET)], PayloadItems(r, p), PayloadParts(r, p));
  }

  function PayloadDigests(p: RefPayload): set<Digest> {
    {p.repository.digest} + if p.parent.None? then {} else {p.parent.value}
  }

  lemma PayloadInjective(r: Rendition, p: RefPayload, q: RefPayload)
    requires EncodableRefs(p.refs) && EncodableRefs(q.refs)
    requires Faithful(r, PayloadDigests(p) + PayloadDigests(q), {}) && PayloadItems(r, p) == PayloadItems(r, q)
    ensures p == q
  {
    hide EncodableRefs, RefItems, IdentityBytes;
    SevenEqual(PayloadItems(r, p), PayloadItems(r, q));
    IdentityBytesInjective(p.publisher, q.publisher);
    RefsInjective(p.refs, q.refs);
    assert p.repository.digest in PayloadDigests(p) && q.repository.digest in PayloadDigests(q);
    assert p.parent.Some? ==> p.parent.value in PayloadDigests(p);
    assert q.parent.Some? ==> q.parent.value in PayloadDigests(q);
  }

  function SignatureBytes(r: Rendition, s: Signature): Bytes {
    ChunkBytes(r.signature(s))
  }

  lemma SignatureAs(r: Rendition, s: Signature)
    ensures EncodesAs(SIGNATURE, Chunk(r.signature(s)), SignatureBytes(r, s))
  {
    ChunkAs(r.signature(s));
  }

  function RefTransitionItems(r: Rendition, t: RefTransition): (items: seq<Value>)
    requires EncodableRefs(t.payload.refs)
    ensures |items| == 2
  {
    [Items(PayloadItems(r, t.payload)), Chunk(r.signature(t.signature))]
  }

  lemma RefTransitionEncodes(r: Rendition, t: RefTransition)
    requires EncodableRefs(t.payload.refs)
    ensures EncodesAs(REF_TRANSITION, Items(RefTransitionItems(r, t)),
                      Array([Array(PayloadParts(r, t.payload)), SignatureBytes(r, t.signature)]))
  {
    hide EncodesAs, Array, EncodableRefs, PayloadItems, PayloadParts, SignatureBytes;
    PayloadEncodes(r, t.payload);
    SignatureAs(r, t.signature);
    TwoAs(REF_PAYLOAD, SIGNATURE, Items(PayloadItems(r, t.payload)), Chunk(r.signature(t.signature)),
          Array(PayloadParts(r, t.payload)), SignatureBytes(r, t.signature));
  }

  lemma RefTransitionInjective(r: Rendition, t: RefTransition, u: RefTransition)
    requires EncodableRefs(t.payload.refs) && EncodableRefs(u.payload.refs)
    requires Faithful(r, PayloadDigests(t.payload) + PayloadDigests(u.payload), {t.signature, u.signature})
    requires RefTransitionItems(r, t) == RefTransitionItems(r, u)
    ensures t == u
  {
    hide EncodableRefs, PayloadItems;
    assert RefTransitionItems(r, t)[0] == RefTransitionItems(r, u)[0];
    assert RefTransitionItems(r, t)[1] == RefTransitionItems(r, u)[1];
    PayloadInjective(r, t.payload, u.payload);
  }

  function StateItems(r: Rendition, s: RefState): (items: seq<Value>)
    requires EncodableRefs(s.refs)
    ensures |items| == 5
  {
    [Chunk(r.digest(s.repository.digest)), IdentityValue(s.publisher), Chunk(r.digest(s.transition)),
     Number(s.sequence), Items(RefItems(s.refs))]
  }

  function StateParts(r: Rendition, s: RefState): (parts: seq<Bytes>)
    requires EncodableRefs(s.refs)
    ensures |parts| == 5
  {
    [DigestBytes(r, s.repository.digest), IdentityPart(s.publisher), DigestBytes(r, s.transition),
     NumberBytes(s.sequence), Array(RefParts(s.refs))]
  }

  lemma StateEncodes(r: Rendition, s: RefState)
    requires EncodableRefs(s.refs)
    ensures EncodesAs(REF_STATE, Items(StateItems(r, s)), Array(StateParts(r, s)))
  {
    hide EncodesAs, Array, NumberBytes, DigestBytes, IdentityPart, IdentityValue, EncodableRefs;
    DigestAs(r, s.repository.digest);
    IdentityAs(s.publisher);
    DigestAs(r, s.transition);
    NumberAs(U64_MAX, s.sequence);
    RefsEncode(s.refs);
    FiveAs([DIGEST, IDENTITY, DIGEST, U64, List(REF_TARGET)], StateItems(r, s), StateParts(r, s));
  }

  lemma StateInjective(r: Rendition, s: RefState, t: RefState)
    requires EncodableRefs(s.refs) && EncodableRefs(t.refs)
    requires Faithful(r, {s.repository.digest, s.transition, t.repository.digest, t.transition}, {})
    requires StateItems(r, s) == StateItems(r, t)
    ensures s == t
  {
    hide EncodableRefs, RefItems, IdentityBytes;
    FiveEqual(StateItems(r, s), StateItems(r, t));
    IdentityBytesInjective(s.publisher, t.publisher);
    RefsInjective(s.refs, t.refs);
  }

  /// Identity transitions

  function IdentityPayloadItems(r: Rendition, p: IdentityPayload): (items: seq<Value>)
    requires EncodableDocument(p.document)
    ensures |items| == 5
  {
    [Number(p.version), Chunk(r.digest(p.repository.digest)), Chunk(r.digest(p.parent)), Number(p.sequence),
     Items(DocumentItems(p.document))]
  }

  function IdentityPayloadParts(r: Rendition, p: IdentityPayload): (parts: seq<Bytes>)
    requires EncodableDocument(p.document)
    ensures |parts| == 5
  {
    [NumberBytes(p.version), DigestBytes(r, p.repository.digest), DigestBytes(r, p.parent), NumberBytes(p.sequence),
     Array(DocumentParts(p.document))]
  }

  lemma IdentityPayloadEncodes(r: Rendition, p: IdentityPayload)
    requires EncodableDocument(p.document)
    ensures EncodesAs(IDENTITY_PAYLOAD, Items(IdentityPayloadItems(r, p)), Array(IdentityPayloadParts(r, p)))
  {
    hide EncodesAs, Array, NumberBytes, DigestBytes, EncodableDocument, DocumentItems, DocumentParts;
    NumberAs(0xFF, p.version);
    DigestAs(r, p.repository.digest);
    DigestAs(r, p.parent);
    NumberAs(U64_MAX, p.sequence);
    DocumentEncodes(p.document);
    FiveAs([U8, DIGEST, DIGEST, U64, DOCUMENT], IdentityPayloadItems(r, p), IdentityPayloadParts(r, p));
  }

  lemma IdentityPayloadInjective(r: Rendition, p: IdentityPayload, q: IdentityPayload)
    requires EncodableDocument(p.document) && EncodableDocument(q.document)
    requires Faithful(r, {p.repository.digest, p.parent, q.repository.digest, q.parent}, {})
    requires IdentityPayloadItems(r, p) == IdentityPayloadItems(r, q)
    ensures p == q
  {
    hide EncodableDocument, DocumentItems;
    FiveEqual(IdentityPayloadItems(r, p), IdentityPayloadItems(r, q));
    DocumentInjective(p.document, q.document);
  }

  function ApprovalItems(r: Rendition, a: Approval): (items: seq<Value>)
    ensures |items| == 3
  {
    [IdentityValue(a.identity), Number(a.keyEpoch), Chunk(r.signature(a.signature))]
  }

  function ApprovalBytes(r: Rendition, a: Approval): Bytes {
    Array([IdentityPart(a.identity), NumberBytes(a.keyEpoch), SignatureBytes(r, a.signature)])
  }

  lemma ApprovalEncodes(r: Rendition, a: Approval)
    ensures EncodesAs(APPROVAL, Items(ApprovalItems(r, a)), ApprovalBytes(r, a))
  {
    hide EncodesAs, Array, NumberBytes, IdentityPart, IdentityValue, SignatureBytes;
    IdentityAs(a.identity);
    NumberAs(U32_MAX, a.keyEpoch);
    SignatureAs(r, a.signature);
    RecordAs([IDENTITY, U32, SIGNATURE], ApprovalItems(r, a),
             [IdentityPart(a.identity), NumberBytes(a.keyEpoch), SignatureBytes(r, a.signature)]);
  }

  lemma ApprovalInjective(r: Rendition, a: Approval, b: Approval)
    requires Faithful(r, {}, {a.signature, b.signature}) && ApprovalItems(r, a) == ApprovalItems(r, b)
    ensures a == b
  {
    hide IdentityBytes;
    var v, w := ApprovalItems(r, a), ApprovalItems(r, b);
    assert v[0] == w[0] && v[1] == w[1] && v[2] == w[2];
    IdentityBytesInjective(a.identity, b.identity);
  }

  function ApprovalValues(r: Rendition, approvals: seq<Approval>): (items: seq<Value>)
    ensures |items| == |approvals| && forall i :: 0 <= i < |approvals| ==> items[i] == Items(ApprovalItems(r, approvals[i]))
  {
    seq(|approvals|, i requires 0 <= i < |approvals| => Items(ApprovalItems(r, approvals[i])))
  }

  function ApprovalParts(r: Rendition, approvals: seq<Approval>): (parts: seq<Bytes>)
    ensures |parts| == |approvals| && forall i :: 0 <= i < |approvals| ==> parts[i] == ApprovalBytes(r, approvals[i])
  {
    seq(|approvals|, i requires 0 <= i < |approvals| => ApprovalBytes(r, approvals[i]))
  }

  lemma ApprovalsEncode(r: Rendition, approvals: seq<Approval>)
    requires |approvals| <= U64_MAX
    ensures EncodesAs(List(APPROVAL), Items(ApprovalValues(r, approvals)), Array(ApprovalParts(r, approvals)))
  {
    hide EncodesAs, Array, ApprovalItems, ApprovalBytes;
    forall i | 0 <= i < |approvals|
      ensures EncodesAs(APPROVAL, ApprovalValues(r, approvals)[i], ApprovalParts(r, approvals)[i])
    {
      ApprovalEncodes(r, approvals[i]);
    }
    ListAs(APPROVAL, ApprovalValues(r, approvals), ApprovalParts(r, approvals));
  }

  function ApprovalSignatures(approvals: seq<Approval>): set<Signature> {
    set i | 0 <= i < |approvals| :: approvals[i].signature
  }

  lemma ApprovalsInjective(r: Rendition, a: seq<Approval>, b: seq<Approval>)
    requires Faithful(r, {}, ApprovalSignatures(a) + ApprovalSignatures(b)) && ApprovalValues(r, a) == ApprovalValues(r, b)
    ensures a == b
  {
    hide ApprovalItems;
    assert |a| == |ApprovalValues(r, a)| == |b|;
    forall i | 0 <= i < |a|
      ensures a[i] == b[i]
    {
      assert ApprovalValues(r, a)[i] == ApprovalValues(r, b)[i];
      assert a[i].signature in ApprovalSignatures(a) && b[i].signature in ApprovalSignatures(b);
      ApprovalInjective(r, a[i], b[i]);
    }
  }

  predicate EncodableIdentityTransition(t: IdentityTransition) {
    EncodableDocument(t.payload.document) && |t.approvals| <= U64_MAX
  }

  function IdentityTransitionItems(r: Rendition, t: IdentityTransition): (items: seq<Value>)
    requires EncodableIdentityTransition(t)
    ensures |items| == 2
  {
    [Items(IdentityPayloadItems(r, t.payload)), Items(ApprovalValues(r, t.approvals))]
  }

  lemma IdentityTransitionEncodes(r: Rendition, t: IdentityTransition)
    requires EncodableIdentityTransition(t)
    ensures EncodesAs(IDENTITY_TRANSITION, Items(IdentityTransitionItems(r, t)),
                      Array([Array(IdentityPayloadParts(r, t.payload)), Array(ApprovalParts(r, t.approvals))]))
  {
    hide EncodesAs, Array, EncodableDocument, IdentityPayloadItems, IdentityPayloadParts, ApprovalValues, ApprovalParts;
    IdentityPayloadEncodes(r, t.payload);
    ApprovalsEncode(r, t.approvals);
    TwoAs(IDENTITY_PAYLOAD, List(APPROVAL), Items(IdentityPayloadItems(r, t.payload)), Items(ApprovalValues(r, t.approvals)),
          Array(IdentityPayloadParts(r, t.payload)), Array(ApprovalParts(r, t.approvals)));
  }
}
