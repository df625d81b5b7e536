/**
 The signed values of the repository.  Digests and signatures are ideal: a digest is the value it
 hashes under its domain separator, a signature is the key and the message it signs, so neither can
 collide or be forged.  `RawDigest` and `RawSignature` stand for bytes that are no such thing.
 */
module Core {
  import opened Basics

  /** A publisher or delegate: its 16 bytes read as a big-endian number, which keeps the byte order. */
  type Identity = n: int | 0 <= n <= U128_MAX

  datatype PublicKey = PublicKey(code: nat, onCurve: bool)

  /** A private key, known by the public key that checks its signatures. */
  datatype SigningKey = SigningKey(code: nat) {
    function Public(): PublicKey { PublicKey(code, true) }

    function Sign(message: Message): Signature { Signed(Public(), message) }
  }

  datatype GitObjectId = GitObjectId(algorithm: string, bytes: seq<byte>) {
    predicate Valid() {
      || (algorithm == "sha1" && |bytes| == 20)
      || (algorithm == "sha256" && |bytes| == 32)
    }
  }

  datatype RefTarget = RefTarget(name: string, target: GitObjectId)

  datatype RefPayload = RefPayload(
    version: byte,
    repository: RepositoryId,
    publisher: Identity,
    keyEpoch: u32,
    parent: Option<Digest>,
    sequence: u64,
    refs: seq<RefTarget>)

  datatype RefTransition = RefTransition(payload: RefPayload, signature: Signature)

  datatype RefState = RefState(
    repository: RepositoryId,
    publisher: Identity,
    transition: Digest,
    sequence: u64,
    refs: seq<RefTarget>)

  datatype Visibility = Public | Private

  datatype IdentityDocument = IdentityDocument(
    version: byte,
    name: string,
    description: string,
    defaultBranch: string,
    visibility: Visibility,
    delegates: seq<Identity>,
    threshold: u16)

  datatype IdentityPayload = IdentityPayload(
    version: byte,
    repository: RepositoryId,
    parent: Digest,
    sequence: u64,
    document: IdentityDocument)

  datatype Approval = Approval(identity: Identity, keyEpoch: u32, signature: Signature)

  datatype IdentityTransition = IdentityTransition(payload: IdentityPayload, approvals: seq<Approval>)

  datatype IdentityState = IdentityState(
    repository: RepositoryId,
    transition: Digest,
    sequence: u64,
    document: IdentityDocument)

  datatype RepositoryId = RepositoryId(digest: Digest)

  /** What is hashed or signed for one purpose starts with its separator. */
  function DomainSeparator(purpose: string): string {
    "styrene/git/" + purpose + "/v1\0"
  }

  datatype Digest = Blake3(domain: string, content: Content) | RawDigest(code: nat)

  datatype Content =
    | DocumentContent(document: IdentityDocument)
    | RefTransitionContent(refTransition: RefTransition)
    | IdentityTransitionContent(identityTransition: IdentityTransition)

  datatype Message =
    | RefMessage(domain: string, refPayload: RefPayload)
    | IdentityMessage(identityPayload: IdentityPayload)

  datatype Signature = Signed(key: PublicKey, message: Message) | RawSignature(code: nat)

  /** Strict signature verification; a key off the curve verifies nothing. */
  predicate Verifies(key: PublicKey, message: Message, signature: Signature) {
    key.onCurve && signature == Signed(key, message)
  }

  /** A signer binding; `genuine` is the verdict of the binding's own identity and signature checks. */
  datatype SignerBinding = SignerBinding(
    identity: Identity, repositoryKey: PublicKey, keyEpoch: u32, genuine: bool)

  datatype SignerSelection = SignerSelection(
    identity: Identity, repositoryKey: PublicKey, keyEpoch: u32)

  datatype CoreError =
    | InvalidBinding
    | InvalidSignature
    | InvalidRefTransition(refProblem: RefProblem)
    | InvalidIdentity(documentProblem: DocumentProblem)
    | InvalidIdentityTransition(identityProblem: IdentityProblem)

  datatype RefProblem = SequenceExhausted | ContextMismatch | NotSorted | BadName | BadObjectId

  datatype DocumentProblem =
    UnsupportedVersion | EmptyName | BadBranch | NoDelegates | BadThreshold | DelegatesNotSorted

  datatype IdentityProblem =
    | IdentitySequenceExhausted
    | LineageMismatch
    | ApprovalsNotSorted
    | MissingSelection
    | SelectionMismatch
    | EpochMismatch
    | ThresholdNotMet

  /** The selection a binding yields once it verifies. */
  function Selection(binding: SignerBinding): Result<SignerSelection, CoreError> {
    if binding.genuine then
      Ok(SignerSelection(binding.identity, binding.repositoryKey, binding.keyEpoch))
    else
      Err(InvalidBinding)
  }

  function VerifySelected(binding: SignerBinding, selected: SignerSelection): Result<(), CoreError> {
    if binding.genuine
      && binding.identity == selected.identity
      && binding.repositoryKey == selected.repositoryKey
      && binding.keyEpoch == selected.keyEpoch
    then Ok(()) else Err(InvalidBinding)
  }
}
