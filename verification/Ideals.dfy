/**
 What the ideal digests, signatures and blob ids of the protocol stand for: equal bytes are hashed, signed or
 stored exactly for equal values.
 */
module Ideals {
  import opened Basics
  import opened Cbor
  import opened Core
  import opened Schemas
  import opened Encodings
  import opened Store
  import Refs
  import Identities
  import IdentityHistory
  import RefNames

  /// Hashed values

  function SchemaOf(c: Content): Schema {
    match c
    case DocumentContent(_) => DOCUMENT
    case RefTransitionContent(_) => REF_TRANSITION
    case IdentityTransitionContent(_) => IDENTITY_TRANSITION
  }

  predicate Encodable(c: Content) {
    match c
    case DocumentContent(document) => EncodableDocument(document)
    case RefTransitionContent(t) => EncodableRefs(t.payload.refs)
    case IdentityTransitionContent(t) => EncodableIdentityTransition(t)
  }

  function ContentValue(r: Rendition, c: Content): Value
    requires Encodable(c)
  {
    match c
    case DocumentContent(document) => Items(DocumentItems(document))
    case RefTransitionContent(t) => Items(RefTransitionItems(r, t))
    case IdentityTransitionContent(t) => Items(IdentityTransitionItems(r, t))
  }

  /** The digests inside a value, and the signatures. */
  function DigestsIn(c: Content): set<Digest> {
    match c
    case DocumentContent(_) => {}
    case RefTransitionContent(t) => PayloadDigests(t.payload)
    case IdentityTransitionContent(t) => {t.payload.repository.digest, t.payload.parent}
  }

  function SignaturesIn(c: Content): set<Signature> {
    match c
    case DocumentContent(_) => {}
    case RefTransitionContent(t) => {t.signature}
    case IdentityTransitionContent(t) => ApprovalSignatures(t.approvals)
  }

  lemma ContentConforms(r: Rendition, c: Content)
    requires Encodable(c)
    ensures Conforms(SchemaOf(c), ContentValue(r, c))
  {
    hide Conforms, Encode, EncodableDocument, EncodableRefs, DocumentItems, RefTransitionItems, IdentityTransitionItems;
    match c
    case DocumentContent(document) => DocumentEncodes(document);
    case RefTransitionContent(t) => RefTransitionEncodes(r, t);
    case IdentityTransitionContent(t) => IdentityTransitionEncodes(r, t);
  }

  lemma SchemasDiffer(c: Content, d: Content)
    requires SchemaOf(c) == SchemaOf(d)
    ensures c.DocumentContent? == d.DocumentContent? && c.RefTransitionContent? == d.RefTransitionContent?
  {
    var s, t := SchemaOf(c).fields, SchemaOf(d).fields;
    assert |s| == |t| && s[0] == t[0];
    assert |DOCUMENT.fields| == 7 && |REF_TRANSITION.fields| == 2 && |IDENTITY_TRANSITION.fields| == 2;
    assert |REF_PAYLOAD.fields| == 7 && |IDENTITY_PAYLOAD.fields| == 5;
  }

  lemma FaithfulWithin(r: Rendition, digests: set<Digest>, signatures: set<Signature>, fewer: set<Digest>, fewerSignatures: set<Signature>)
    requires Faithful(r, digests, signatures) && fewer <= digests && fewerSignatures <= signatures
    ensures Faithful(r, fewer, fewerSignatures)
  {
  }

  lemma ContentInjective(r: Rendition, c: Content, d: Content)
    requires Encodable(c) && Encodable(d) && SchemaOf(c) == SchemaOf(d)
    requires Faithful(r, DigestsIn(c) + DigestsIn(d), SignaturesIn(c) + SignaturesIn(d))
    requires ContentValue(r, c) == ContentValue(r, d)
    ensures c == d
  {
    hide Conforms, EncodableDocument, EncodableRefs, DocumentItems, Faithful;
    hide PayloadItems, IdentityPayloadItems, ApprovalValues, PayloadDigests, ApprovalSignatures;
    SchemasDiffer(c, d);
    var digests, signatures := DigestsIn(c) + DigestsIn(d), SignaturesIn(c) + SignaturesIn(d);
    match c
    case DocumentContent(document) =>
      DocumentInjective(document, d.document);
    case RefTransitionContent(t) =>
      var u := d.refTransition;
      FaithfulWithin(r, digests, signatures, PayloadDigests(t.payload) + PayloadDigests(u.payload), {t.signature, u.signature});
      RefTransitionInjective(r, t, u);
    case IdentityTransitionContent(t) =>
      var u := d.identityTransition;
      var v, w := IdentityTransitionItems(r, t), IdentityTransitionItems(r, u);
      assert v[0] == w[0] && v[1] == w[1];
      FaithfulWithin(r, digests, signatures,
                     {t.payload.repository.digest, t.payload.parent, u.payload.repository.digest, u.payload.parent}, {});
      IdentityPayloadInjective(r, t.payload, u.payload);
      FaithfulWithin(r, digests, signatures, {}, ApprovalSignatures(t.approvals) + ApprovalSignatures(u.approvals));
      ApprovalsInjective(r, t.approvals, u.approvals);
  }

  /** The domain hashes values of this kind. */
  predicate Hashes(domain: Domain, c: Content) {
    Encodable(c) && Schemas.Contents(domain) == Some(SchemaOf(c))
  }

  /** The bytes that are hashed. */
  function HashInput(r: Rendition, domain: Domain, c: Content): Bytes
    requires Hashes(domain, c)
  {
    ContentConforms(r, c);
    Framed(domain, Encode(SchemaOf(c), ContentValue(r, c)))
  }

  /** The same bytes are hashed exactly for the same ideal digest. */
  lemma DigestsStandForBytes(r: Rendition, a: Domain, c: Content, b: Domain, d: Content)
    requires Hashes(a, c) && Hashes(b, d)
    requires Faithful(r, DigestsIn(c) + DigestsIn(d), SignaturesIn(c) + SignaturesIn(d))
    ensures HashInput(r, a, c) == HashInput(r, b, d) <==> Blake3(Separator(a), c) == Blake3(Separator(b), d)
  {
    hide Conforms, Encode, ContentValue, SchemaOf, DigestsIn, SignaturesIn, Encodable, Faithful, Schemas.Contents, Separator, Framed;
    ContentConforms(r, c);
    ContentConforms(r, d);
    if HashInput(r, a, c) == HashInput(r, b, d) {
      HashInputsDiffer(a, ContentValue(r, c), b, ContentValue(r, d));
      ContentInjective(r, c, d);
    }
    if Separator(a) == Separator(b) {
      SeparatorsDiffer(a, b);
    }
  }

  /** The separators are the ones the protocol uses. */
  lemma SeparatorsAre()
    ensures Separator(RefTransitionId) == Refs.TRANSITION_DOMAIN
    ensures Separator(RefSignature) == Refs.SIGNATURE_DOMAIN
    ensures Separator(RepositoryIdentifier) == Identities.REPOSITORY_ID_DOMAIN
    ensures Separator(IdentityRoot) == Identities.IDENTITY_ROOT_DOMAIN
    ensures Separator(IdentityTransitionId) == Identities.IDENTITY_TRANSITION_DOMAIN
  {
  }

  /** The digests of the protocol are of such domains and values. */
  lemma ProtocolDigests(t: RefTransition, u: IdentityTransition, document: IdentityDocument)
    requires EncodableRefs(t.payload.refs) && EncodableIdentityTransition(u) && EncodableDocument(document)
    ensures Refs.TransitionId(t) == Blake3(Separator(RefTransitionId), RefTransitionContent(t))
    ensures Hashes(RefTransitionId, RefTransitionContent(t))
    ensures IdentityHistory.TransitionId(u) == Blake3(Separator(IdentityTransitionId), IdentityTransitionContent(u))
    ensures Hashes(IdentityTransitionId, IdentityTransitionContent(u))
    ensures Identities.RepositoryIdOf(document).digest == Blake3(Separator(RepositoryIdentifier), DocumentContent(document))
    ensures Hashes(RepositoryIdentifier, DocumentContent(document))
    ensures Identities.InitialState(document).Ok? ==>
              Identities.InitialState(document).value.transition == Blake3(Separator(IdentityRoot), DocumentContent(document))
    ensures Hashes(IdentityRoot, DocumentContent(document))
  {
    hide EncodableRefs, EncodableDocument, EncodableIdentityTransition, Identities.Validate, Separator;
    SeparatorsAre();
  }

  /// Signed values

  /** References are signed under the separator, identity payloads without one. */
  predicate Signs(m: Message) {
    match m
    case RefMessage(domain, p) => domain == Separator(RefSignature) && EncodableRefs(p.refs)
    case IdentityMessage(p) => EncodableDocument(p.document)
  }

  function SignableOf(r: Rendition, m: Message): Signable
    requires Signs(m)
  {
    match m
    case RefMessage(_, p) => SignedRefs(Items(PayloadItems(r, p)))
    case IdentityMessage(p) => SignedIdentity(Items(IdentityPayloadItems(r, p)))
  }

  function MessageDigests(m: Message): set<Digest> {
    match m
    case RefMessage(_, p) => PayloadDigests(p)
    case IdentityMessage(p) => {p.repository.digest, p.parent}
  }

  lemma MessageConforms(r: Rendition, m: Message)
    requires Signs(m)
    ensures WellFormed(SignableOf(r, m))
  {
    hide Conforms, Encode, EncodableDocument, EncodableRefs, PayloadItems, IdentityPayloadItems, Separator;
    match m
    case RefMessage(_, p) => PayloadEncodes(r, p);
    case IdentityMessage(p) => IdentityPayloadEncodes(r, p);
  }

  /** The bytes that are signed. */
  function SignInput(r: Rendition, m: Message): Bytes
    requires Signs(m)
  {
    MessageConforms(r, m);
    SignedBytes(SignableOf(r, m))
  }

  /** The same bytes are signed exactly for the same message. */
  lemma MessagesStandForBytes(r: Rendition, m: Message, n: Message)
    requires Signs(m) && Signs(n) && Faithful(r, MessageDigests(m) + MessageDigests(n), {})
    ensures SignInput(r, m) == SignInput(r, n) <==> m == n
  {
    hide SignedBytes, WellFormed, EncodableDocument, EncodableRefs, PayloadItems, IdentityPayloadItems, Separator;
    hide PayloadDigests, Faithful;
    MessageConforms(r, m);
    MessageConforms(r, n);
    if SignInput(r, m) == SignInput(r, n) {
      SignedBytesDiffer(SignableOf(r, m), SignableOf(r, n));
      match m
      case RefMessage(_, p) =>
        FaithfulWithin(r, MessageDigests(m) + MessageDigests(n), {}, PayloadDigests(p) + PayloadDigests(n.refPayload), {});
        PayloadInjective(r, p, n.refPayload);
      case IdentityMessage(p) =>
        var q := n.identityPayload;
        FaithfulWithin(r, MessageDigests(m) + MessageDigests(n), {}, {p.repository.digest, p.parent, q.repository.digest, q.parent}, {});
        IdentityPayloadInjective(r, p, q);
    }
  }

  /** What the protocol signs are such messages. */
  lemma ProtocolMessages(p: RefPayload)
    requires EncodableRefs(p.refs)
    ensures Refs.SignatureFrame(p) == RefMessage(Separator(RefSignature), p) && Signs(Refs.SignatureFrame(p))
  {
    hide EncodableRefs, Separator;
    SeparatorsAre();
  }

  /// From a hash and signatures that do not collide to ideal ones

  /** A digest or signature, with what it was made from. */
  datatype Made =
    | Hash(domain: Domain, content: Content)
    | Sign(key: PublicKey, message: Message)
    | RawHash(code: nat)
    | RawSign(code: nat)
  {
    predicate IsDigest() { Hash? || RawHash? }

    function AsDigest(): Digest
      requires IsDigest()
    {
      if Hash? then Blake3(Separator(domain), content) else RawDigest(code)
    }

    function AsSignature(): Signature
      requires !IsDigest()
    {
      if Sign? then Signed(key, message) else RawSignature(code)
    }

    predicate Formed() {
      match this
      case Hash(domain, content) => Hashes(domain, content)
      case Sign(_, message) => Signs(message)
      case _ => true
    }
  }

  function DigestsOf(log: seq<Made>): set<Digest> {
    set i | 0 <= i < |log| && log[i].IsDigest() :: log[i].AsDigest()
  }

  function SignaturesOf(log: seq<Made>): set<Signature> {
    set i | 0 <= i < |log| && !log[i].IsDigest() :: log[i].AsSignature()
  }

  /** The parts of an entry were made before it. */
  predicate MadeFrom(e: Made, before: seq<Made>) {
    match e
    case Hash(_, content) => DigestsIn(content) <= DigestsOf(before) && SignaturesIn(content) <= SignaturesOf(before)
    case Sign(_, message) => MessageDigests(message) <= DigestsOf(before)
    case _ => true
  }

  /** Digests and signatures in an order in which they can be made. */
  predicate Making(log: seq<Made>) {
    forall i :: 0 <= i < |log| ==> log[i].Formed() && MadeFrom(log[i], log[..i])
  }

  /** What goes into the hash function or the signer; `Foreign` stands for bytes that came from neither. */
  datatype Input = HashOf(bytes: Bytes) | SignatureOf(key: PublicKey, bytes: Bytes) | Foreign(code: nat)

  function InputOf(r: Rendition, e: Made): Input
    requires e.Formed()
  {
    match e
    case Hash(domain, content) => HashOf(HashInput(r, domain, content))
    case Sign(key, message) => SignatureOf(key, SignInput(r, message))
    case RawHash(code) => Foreign(code)
    case RawSign(code) => Foreign(code)
  }

  /** Of one kind, with the same bytes. */
  predicate Alike(r: Rendition, e: Made, f: Made) {
    && e.IsDigest() == f.IsDigest()
    && if e.IsDigest() then r.digest(e.AsDigest()) == r.digest(f.AsDigest())
       else r.signature(e.AsSignature()) == r.signature(f.AsSignature())
  }

  /** No two inputs of the run have one hash or one signature. */
  predicate CollisionFree(r: Rendition, log: seq<Made>)
    requires Making(log)
  {
    forall i, j :: 0 <= i < |log| && 0 <= j < |log| && Alike(r, log[i], log[j]) ==> InputOf(r, log[i]) == InputOf(r, log[j])
  }

  predicate Same(e: Made, f: Made) {
    && e.IsDigest() == f.IsDigest()
    && if e.IsDigest() then e.AsDigest() == f.AsDigest() else e.AsSignature() == f.AsSignature()
  }

  lemma SameIsEqual(e: Made, f: Made)
    requires Same(e, f)
    ensures e == f
  {
    hide Separator;
    if e.Hash? {
      SeparatorsDiffer(e.domain, f.domain);
    }
  }

  /** Equal inputs were made from equal values, if their parts are told apart. */
  lemma EqualInputs(r: Rendition, before: seq<Made>, e: Made, f: Made)
    requires e.Formed() && f.Formed() && e.IsDigest() == f.IsDigest() && InputOf(r, e) == InputOf(r, f)
    requires MadeFrom(e, before) && MadeFrom(f, before) && Faithful(r, DigestsOf(before), SignaturesOf(before))
    ensures Same(e, f)
  {
    hide Faithful, DigestsOf, SignaturesOf, Hashes, Signs, HashInput, SignInput, Separator, DigestsIn, SignaturesIn, MessageDigests;
    match e
    case Hash(domain, content) =>
      FaithfulWithin(r, DigestsOf(before), SignaturesOf(before),
                     DigestsIn(content) + DigestsIn(f.content), SignaturesIn(content) + SignaturesIn(f.content));
      DigestsStandForBytes(r, domain, content, f.domain, f.content);
    case Sign(key, message) =>
      FaithfulWithin(r, DigestsOf(before), SignaturesOf(before), MessageDigests(message) + MessageDigests(f.message), {});
      MessagesStandForBytes(r, message, f.message);
    case RawHash(_) =>
    case RawSign(_) =>
  }

  lemma MadeFromMore(e: Made, log: seq<Made>, i: nat, n: nat)
    requires i <= n <= |log| && MadeFrom(e, log[..i])
    ensures MadeFrom(e, log[..n])
  {
    hide DigestsIn, SignaturesIn, MessageDigests;
    assert DigestsOf(log[..i]) <= DigestsOf(log[..n]) by {
      forall k | 0 <= k < i && log[k].IsDigest()
        ensures log[k].AsDigest() in DigestsOf(log[..n])
      {
        assert log[..n][k] == log[k];
      }
    }
    assert SignaturesOf(log[..i]) <= SignaturesOf(log[..n]) by {
      forall k | 0 <= k < i && !log[k].IsDigest()
        ensures log[k].AsSignature() in SignaturesOf(log[..n])
      {
        assert log[..n][k] == log[k];
      }
    }
  }

  /** Told apart, entry by entry. */
  predicate Distinguished(r: Rendition, log: seq<Made>) {
    forall i, j :: 0 <= i < |log| && 0 <= j < |log| && Alike(r, log[i], log[j]) ==> Same(log[i], log[j])
  }

  lemma FaithfulIsDistinguished(r: Rendition, log: seq<Made>)
    ensures Faithful(r, DigestsOf(log), SignaturesOf(log)) <==> Distinguished(r, log)
  {
    hide Separator;
    if Faithful(r, DigestsOf(log), SignaturesOf(log)) {
      forall i, j | 0 <= i < |log| && 0 <= j < |log| && Alike(r, log[i], log[j])
        ensures Same(log[i], log[j])
      {
        if log[i].IsDigest() {
          assert log[i].AsDigest() in DigestsOf(log) && log[j].AsDigest() in DigestsOf(log);
        } else {
          assert log[i].AsSignature() in SignaturesOf(log) && log[j].AsSignature() in SignaturesOf(log);
        }
      }
    }
    if Distinguished(r, log) {
      forall d, e | d in DigestsOf(log) && e in DigestsOf(log) && r.digest(d) == r.digest(e)
        ensures d == e
      {
        var i :| 0 <= i < |log| && log[i].IsDigest() && log[i].AsDigest() == d;
        var j :| 0 <= j < |log| && log[j].IsDigest() && log[j].AsDigest() == e;
        assert Alike(r, log[i], log[j]);
      }
      forall s, t | s in SignaturesOf(log) && t in SignaturesOf(log) && r.signature(s) == r.signature(t)
        ensures s == t
      {
        var i :| 0 <= i < |log| && !log[i].IsDigest() && log[i].AsSignature() == s;
        var j :| 0 <= j < |log| && !log[j].IsDigest() && log[j].AsSignature() == t;
        assert Alike(r, log[i], log[j]);
      }
    }
  }

  /** Two entries of which all parts are told apart. */
  lemma AlikeIsSame(r: Rendition, log: seq<Made>, n: nat, i: nat, j: nat)
    requires i <= n < |log| && j <= n && Making(log) && CollisionFree(r, log)
    requires Faithful(r, DigestsOf(log[..n]), SignaturesOf(log[..n])) && Alike(r, log[i], log[j])
    ensures Same(log[i], log[j])
  {
    hide Faithful, DigestsOf, SignaturesOf, MadeFrom, InputOf, Same;
    assert InputOf(r, log[i]) == InputOf(r, log[j]);
    MadeFromMore(log[i], log, i, n);
    MadeFromMore(log[j], log, j, n);
    EqualInputs(r, log[..n], log[i], log[j]);
  }

  lemma {:induction false} PrefixDistinguished(r: Rendition, log: seq<Made>, n: nat)
    requires n <= |log| && Making(log) && CollisionFree(r, log)
    ensures Distinguished(r, log[..n])
  {
    hide Faithful, Making, CollisionFree, Alike, Same;
    if n > 0 {
      PrefixDistinguished(r, log, n - 1);
      FaithfulIsDistinguished(r, log[..n - 1]);
      forall i, j | 0 <= i < n && 0 <= j < n && Alike(r, log[i], log[j])
        ensures Same(log[i], log[j])
      {
        AlikeIsSame(r, log, n - 1, i, j);
      }
    }
  }

  /**
   The ideal digests and signatures of a run are told apart by their bytes exactly if the hash and the
   signatures do not collide on what the run hashes and signs.
   */
  lemma IdealsAreFaithful(r: Rendition, log: seq<Made>)
    requires Making(log)
    ensures CollisionFree(r, log) <==> Faithful(r, DigestsOf(log), SignaturesOf(log))
  {
    hide Faithful, DigestsOf, SignaturesOf, MadeFrom, InputOf, Same, Alike;
    FaithfulIsDistinguished(r, log);
    assert log[..|log|] == log;
    if CollisionFree(r, log) {
      PrefixDistinguished(r, log, |log|);
    }
    if Distinguished(r, log) {
      forall i, j | 0 <= i < |log| && 0 <= j < |log| && Alike(r, log[i], log[j])
        ensures InputOf(r, log[i]) == InputOf(r, log[j])
      {
        SameIsEqual(log[i], log[j]);
      }
    }
  }

  /// Stored blobs

  predicate Storable(b: BlobContent) {
    match b
    case StateBlob(s) => EncodableRefs(s.refs)
    case TransitionBlob(t) => EncodableRefs(t.payload.refs)
  }

  function BlobParts(r: Rendition, b: BlobContent): Bytes
    requires Storable(b)
  {
    match b
    case StateBlob(s) => Array(StateParts(r, s))
    case TransitionBlob(t) => Array([Array(PayloadParts(r, t.payload)), SignatureBytes(r, t.signature)])
  }

  function BlobDigests(b: BlobContent): set<Digest> {
    match b
    case StateBlob(s) => {s.repository.digest, s.transition}
    case TransitionBlob(t) => PayloadDigests(t.payload)
  }

  function BlobSignatures(b: BlobContent): set<Signature> {
    match b
    case StateBlob(_) => {}
    case TransitionBlob(t) => {t.signature}
  }

  /** The same bytes are stored exactly for the same blob, states and transitions together. */
  lemma BlobsStandForBytes(r: Rendition, a: BlobContent, b: BlobContent)
    requires Storable(a) && Storable(b)
    requires Faithful(r, BlobDigests(a) + BlobDigests(b), BlobSignatures(a) + BlobSignatures(b))
    ensures BlobParts(r, a) == BlobParts(r, b) <==> a == b
  {
    hide EncodableRefs, Faithful, PayloadDigests, Encode, Conforms, Flatten, StateParts, PayloadParts, SignatureBytes;
    hide StateItems, RefTransitionItems;
    var digests, signatures := BlobDigests(a) + BlobDigests(b), BlobSignatures(a) + BlobSignatures(b);
    if BlobParts(r, a) == BlobParts(r, b) {
      assert BlobParts(r, a)[0] == BlobParts(r, b)[0];
      assert Head(ARRAY, 5)[0] == 0x85 && Head(ARRAY, 2)[0] == 0x82;
      match a
      case StateBlob(s) =>
        StateEncodes(r, s);
        StateEncodes(r, b.state);
        PrefixFree(REF_STATE, Items(StateItems(r, s)), Items(StateItems(r, b.state)), [], []);
        FaithfulWithin(r, digests, signatures, {s.repository.digest, s.transition, b.state.repository.digest, b.state.transition}, {});
        StateInjective(r, s, b.state);
      case TransitionBlob(t) =>
        RefTransitionEncodes(r, t);
        RefTransitionEncodes(r, b.transition);
        PrefixFree(REF_TRANSITION, Items(RefTransitionItems(r, t)), Items(RefTransitionItems(r, b.transition)), [], []);
        FaithfulWithin(r, digests, signatures, PayloadDigests(t.payload) + PayloadDigests(b.transition.payload),
                       {t.signature, b.transition.signature});
        RefTransitionInjective(r, t, b.transition);
    }
  }

  /// Transfers

  /** A manifest, a binding and a transition, each canonical, and a pack. */
  datatype Shipment = Shipment(manifest: Value, binding: Value, transition: RefTransition, pack: Bytes)

  predicate Shippable(r: Rendition, s: Shipment) {
    && Conforms(MANIFEST, s.manifest) && Conforms(BINDING, s.binding) && EncodableRefs(s.transition.payload.refs)
    && |Encode(BINDING, s.binding)| <= U64_MAX && |TransitionBytes(r, s.transition)| <= U64_MAX && |s.pack| <= U64_MAX
  }

  function TransitionBytes(r: Rendition, t: RefTransition): Bytes
    requires EncodableRefs(t.payload.refs)
  {
    Array([Array(PayloadParts(r, t.payload)), SignatureBytes(r, t.signature)])
  }

  /** Binding, transition and pack travel as arrays of integers. */
  function ShipmentItems(r: Rendition, s: Shipment): (items: seq<Value>)
    requires Shippable(r, s)
    ensures |items| == 4
  {
    [s.manifest, Vector(Encode(BINDING, s.binding)), Vector(TransitionBytes(r, s.transition)), Vector(s.pack)]
  }

  lemma ShipmentConforms(r: Rendition, s: Shipment)
    requires Shippable(r, s)
    ensures Conforms(TRANSFER, Items(ShipmentItems(r, s)))
  {
    hide Conforms, Encode, EncodableRefs, TransitionBytes, VectorBytes, Vector;
    VectorAs(Encode(BINDING, s.binding));
    VectorAs(TransitionBytes(r, s.transition));
    VectorAs(s.pack);
    RecordAs([MANIFEST, BYTE_VECTOR, BYTE_VECTOR, BYTE_VECTOR], ShipmentItems(r, s),
             [Encode(MANIFEST, s.manifest), VectorBytes(Encode(BINDING, s.binding)),
              VectorBytes(TransitionBytes(r, s.transition)), VectorBytes(s.pack)]);
  }

  /** Transfers of equal bytes carry one manifest, binding, transition and pack. */
  lemma TransfersStandForBytes(r: Rendition, s: Shipment, t: Shipment)
    requires Shippable(r, s) && Shippable(r, t)
    requires Faithful(r, PayloadDigests(s.transition.payload) + PayloadDigests(t.transition.payload),
                      {s.transition.signature, t.transition.signature})
    ensures Conforms(TRANSFER, Items(ShipmentItems(r, s))) && Conforms(TRANSFER, Items(ShipmentItems(r, t)))
    ensures Encode(TRANSFER, Items(ShipmentItems(r, s))) == Encode(TRANSFER, Items(ShipmentItems(r, t))) <==> s == t
  {
    hide Conforms, Encode, EncodableRefs, Vector, PayloadParts, SignatureBytes, PayloadDigests, Array, Faithful, RefTransitionItems;
    ShipmentConforms(r, s);
    ShipmentConforms(r, t);
    if Encode(TRANSFER, Items(ShipmentItems(r, s))) == Encode(TRANSFER, Items(ShipmentItems(r, t))) {
      PrefixFree(TRANSFER, Items(ShipmentItems(r, s)), Items(ShipmentItems(r, t)), [], []);
      var v, w := ShipmentItems(r, s), ShipmentItems(r, t);
      assert v[0] == w[0] && v[1] == w[1] && v[2] == w[2] && v[3] == w[3];
      VectorInjective(Encode(BINDING, s.binding), Encode(BINDING, t.binding));
      VectorInjective(TransitionBytes(r, s.transition), TransitionBytes(r, t.transition));
      VectorInjective(s.pack, t.pack);
      PrefixFree(BINDING, s.binding, t.binding, [], []);
      RefTransitionEncodes(r, s.transition);
      RefTransitionEncodes(r, t.transition);
      PrefixFree(REF_TRANSITION, Items(RefTransitionItems(r, s.transition)), Items(RefTransitionItems(r, t.transition)), [], []);
      RefTransitionInjective(r, s.transition, t.transition);
    }
  }
}
