# Styrene Git: model and proofs

A self-certifying Git repository keeps, for each publisher, a signed history of reference maps, and for
the repository as a whole a history of identity documents that its delegates approve by threshold.
Replicas exchange transitions and packs over any carrier; a remote helper talks to a local daemon on
behalf of `git fetch` and `git push`. This project models the parts of that system whose correctness
does not show in any single function, and proves what they promise together:

- **The publisher commit protocol** (`Store`, `Index`, `CommitMachine`, `Repositories`, `Solo`,
  `Answers`, `Duplicates`, `Overtaken`, `RefNames`, `Promotion`). `Repository::commit` as a step machine:
  any number of calls on any publishers, interleaved step by step, with calls that stop anywhere,
  transactions that fail for no reason, transactions that take effect although the caller is told
  otherwise, and reads that get lost.
  The same operation is a class with mutable objects, blobs and refs, proved to be a run of the machine.
- **Replication** (`Objects`, `Transfers`, `Admission`, `Convergence`, `Liveness`, `Redelivery`,
  `Interleavings`). What is let in and what it is answered, exactly. Transfers delivered in any order,
  duplicated, lost, disturbed or made up, one after the other or applied by many calls at once: safety of
  every replica, agreement between replicas, convergence once every step has come through, and what a
  repeated delivery is answered.
- **Signed histories** (`Refs`, `History`, `Identities`, `IdentityHistory`, `Canonical`). Reference
  chains, threshold approval, and the vote on the canonical head.
- **Text and bytes** (`Order`, `Text`, `Bits`, `Rendering`, `Splitting`, `Urls`, `Cbor`, `Utf8`, `Schemas`,
  `Encodings`, `Ideals`, `KnownAnswers`). Hexadecimal and base32 (RFC 4648, sections 3.5, 6 and 8), the URL grammar,
  deterministic CBOR (RFC 8949, sections 3 and 4.2.1) with the domain separators in front of it, and the
  encodings of the protocol's values.
- **The remote helper** (`Ipc`, `Client`, `Sessions`, `Exchanges`, `RemoteOperations`, `Batches`, `Outcomes`,
  `Daemons`, `CommandLoop`, `Framing`, `Scripts`, `Transcripts`, `Reports`, `Conversations`). The
  single-flight session, the batches on top of it, the line protocol, what is carried out and what is
  reported; and that all of it succeeds on a daemon that does its job.

How things are represented:

- In the protocol modules a digest is the value it hashes under its domain separator and a signature is
  the key and the message, so neither collides or is forged; raw digests and signatures stand for bytes
  that are no such thing. `Ideals` joins this to the bytes: the ideal digests and signatures of a run are
  told apart by their bytes exactly if the hash and the signer do not collide on what it hashes and signs.
  A signer binding carries the verdict of its own checks.
- A value of a Rust type that is encoded is a `Cbor.Value` that conforms to the type's schema; byte vectors
  are arrays of integers there, as in the repository's golden bytes.
- A Git blob's id is its content, a ref transaction is a list of guarded edits that all happen or none
  does, and the object set only grows. The all-zero id in a guard means that the ref must not
  exist, and no object has that id.
- A block of output is modelled by what it reports; the block of a fetch names its commands, of which only a
  blank line is written.
- Strings are sequences of UTF-8 bytes, one character a byte; identities are numbers in the order of their
  16 bytes. The 16-bit counters of approvals and votes are written modulo 65536, as in builds without
  overflow checks; with overflow checks the same inputs stop the program.
- What the program does not control is a parameter: which step runs next, what Git or the file system
  refuses, what the transport answers (any function of everything sent so far), and the encoded size of a
  request.

Where the code and its documentation disagree, the model follows the code:

- The replication contract says that of two concurrent duplicate deliveries both callers observe the same
  final state. `Duplicates` proves that they do whenever both succeed, and shows runs without any fault
  in which one of them fails because a later transition landed first: after its own transaction failed, or
  already at its first look. `Overtaken.OvertakenExactly` gives the exact condition over every run, and
  `Answers.SucceedsExactly` says of any undisturbed call when it succeeds.
- The contract also promises "already present" for any committed transfer that is delivered again. The code
  compares with the publisher's current transition only. `Redelivery.OlderTransferNotPresent` is a failing
  input, and `Redelivery.RedeliveryExactly` shows that the promise holds for the latest step alone, while
  the repository never changes.
- Approvals and votes are counted in 16 bits. `IdentityHistory.ThresholdRuleExactly` and
  `Canonical.QualifiesExactly` give the exact bound up to which the threshold rules hold, with
  `UnanimityRejected` and `UnanimityIgnored` as the inputs beyond it.
- A failing `show-ref` reads as a missing ref (crates/styrene-git-store/src/lib.rs:431-442). The machine
  includes such lost reads; safety does not depend on them, because the transaction's guards decide.
- The head printed for each publisher by the canonical-head service is that of the branch `main`, whatever
  the document's default branch is called; the vote itself uses the default branch.

## Model

| member | source | states |
|---|---|---|
| Index.StateGuardDecides | crates/styrene-git-store/src/lib.rs:369-429 | the key lemma: with the index in agreement, the whole generated transaction passes its guards if and only if the state ref still holds the blob id that was read; every delete, update and create guard follows from that one |
| Index.CommitKeepsIndex | crates/styrene-git-store/src/lib.rs:369-429 | such a transaction makes the new state current, keeps state, namespace refs and transition refs of all publishers in agreement, and touches no ref of anybody else |
| Index.EditsOwnKeys | crates/styrene-git-store/src/lib.rs:369-429 | a transaction edits only refs of the publisher that commits |
| Index.EditsDistinct | crates/styrene-git-store/src/lib.rs:369-429 | no ref is edited twice in one transaction |
| Index.LineageCount | crates/styrene-git-core/src/refs.rs:114-121 | a chain numbered up to n consists of n + 1 different transitions |
| CommitMachine.IndexAgreesWithState | crates/styrene-git-store/src/lib.rs:239-273 | in every reachable state, whatever the interleaving, crashes and faults: the namespace refs are exactly the map of the stored state, the transition refs exactly the accepted chain, sequence + 1 of them, and a publisher without a state has no refs |
| CommitMachine.EffectiveIffUnmoved | crates/styrene-git-store/src/lib.rs:341-357 | in every run, a ref transaction takes effect exactly if the state read at the start of the call is still the current one and Git does not break it |
| CommitMachine.CommitsLinearize | crates/styrene-git-store/src/lib.rs:313-357 | the transactions that took effect, replayed one at a time from nothing as atomic verify-and-apply, are all accepted and yield exactly the stored state |
| CommitMachine.AppliedAtMostOnce | crates/styrene-git-store/src/lib.rs:421-424 | over a whole run no transition takes effect twice; Answers.AnsweredAppliedOnce says the same of the answers |
| CommitMachine.AlreadyPresentWasCurrent | crates/styrene-git-store/src/lib.rs:326-330 | a call reports "already present" only for its own transition, and only if the reported state was current at one of that call's own successful reads |
| CommitMachine.ReportedIsOwn | crates/styrene-git-store/src/lib.rs:341-356 | whatever a call reports as applied or present carries its own transition id |
| CommitMachine.AcceptedStaysReachable | crates/styrene-git-store/src/lib.rs:331-336 | every target of every state accepted at any moment, and everything reachable from it, is in the object set from then on |
| CommitMachine.TransitionRefStays | crates/styrene-git-store/src/lib.rs:421-424 | a recorded transition ref is there for good |
| CommitMachine.OthersLeaveRefsAlone | crates/styrene-git-store/src/lib.rs:369-429 | a stretch in which no transaction of a publisher takes effect, however many calls of others commit and wherever its own calls stop, leaves every ref of that publisher as it was |
| Answers.AppliedTookEffect | crates/styrene-git-store/src/lib.rs:341-346 | an answer "applied" comes from one step of the run, the call's own transaction, which took effect and made the reported state current |
| Answers.AnsweredAppliedOnce | crates/styrene-git-store/src/lib.rs:421-424 | in every run at most one call answers "applied" for a transition |
| Answers.AppliedIsLinearized | crates/styrene-git-store/src/lib.rs:313-357 | every answer "applied" is a place in the linear order of effects: replaying the publisher's effects up to that step ends with this call's commit, in the reported state |
| Answers.CurrentIsLatest | crates/styrene-git-store/src/lib.rs:239-254 | in every run the publisher's stored state is of a transition if and only if that transition is the publisher's latest effect |
| Answers.SucceedsExactly | crates/styrene-git-store/src/lib.rs:313-357 | in every run an undisturbed call that has returned reports success if and only if its own transaction took effect or its transition was the publisher's latest effect at the call's last look, the first or the second |
| CommitMachine.RunKeepsInv | crates/styrene-git-store/src/lib.rs:313-357 | the invariant behind the above is kept by every step of every run |
| Repositories.Repository.Commit | crates/styrene-git-store/src/lib.rs:313-357 | the imperative `commit` does to the repository, and answers, exactly what the specification function CommitOnce says, for every combination of faults |
| Repositories.Repository.UpdatePublisherRefs | crates/styrene-git-store/src/lib.rs:369-429 | the edits are built in loops and run as one all-or-nothing transaction; its guards, the new refs and the answer |
| Repositories.Repository.PublisherStateWithObject | crates/styrene-git-store/src/lib.rs:239-254 | reading a state: absent, damaged, somebody else's, or loaded with the id it was read under |
| Repositories.Repository.VerifyTargets | crates/styrene-git-store/src/lib.rs:498-531 | the target checks, in order, over quarantine and repository together |
| Repositories.Repository.PromoteObjects | crates/styrene-git-store/src/lib.rs:586-608 | object by object, possibly stopping half-way: nothing is removed, and exactly the objects reached so far are added |
| Repositories.Repository.MoveRefs | crates/styrene-git-store/src/lib.rs:341-356 | the transaction and, if it fails, the second look at the state |
| Solo.CommitOnceIsSound | crates/styrene-git-store/src/lib.rs:313-357 | alone, with any faults: the repository stays sound, only this publisher moves, by one accepted transition at most, and an Ok answer is the current state |
| Solo.CommitOnceApplies | crates/styrene-git-store/src/lib.rs:313-357 | undisturbed, a call applies its transition exactly when it verifies on the current state, its targets are present and connected, and it is not current already; it answers "already present" exactly when it is current and presented at home under its genuine, selected binding; an applied state is current afterwards, and nothing changes otherwise |
| Solo.ArriveExactly | crates/styrene-git-store/src/lib.rs:320-323 | a call gets past the door exactly with a quarantine of this repository and a genuine binding that is the selected one, and is refused with the matching error otherwise |
| Solo.CommitRefusedFor | crates/styrene-git-store/src/lib.rs:313-340 | the error of every undisturbed call that is refused, in the order of the checks: another repository, binding, verification, the first target of another format or absent, connectivity |
| Answers.OnlyTheBoundEnter | crates/styrene-git-store/src/lib.rs:320-323 | in every run, whatever is under way or has succeeded was presented at home under a genuine and selected binding |
| Store.LoadExactly | crates/styrene-git-store/src/lib.rs:239-273 | a state is loaded exactly from a blob that is there, holds a state, and is this publisher's in this repository; another's is told apart from a damaged one |
| Solo.CommitIsARun | crates/styrene-git-store/src/lib.rs:313-357 | the sequential `commit` is a run of the step machine, repository and answer alike |
| Store.CheckEachExact | crates/styrene-git-store/src/lib.rs:498-531 | the per-target checks pass exactly for valid ids of the repository's format that are present |
| Store.PerformAllAt | crates/styrene-git-store/src/lib.rs:385-429 | what each edited ref holds after a transaction |
| Store.EntriesOfSorted | crates/styrene-git-store/src/lib.rs:377-388 | on a sorted list the ordered map of references is the list itself |
| Duplicates.DuplicatesAgree | openspec/changes/bootstrap-self-certifying-repositories/specs/replication-contract.md:62-66 | in every run, two calls with one transition that both succeed report the same state |
| Duplicates.ReportsTheState | crates/styrene-git-store/src/lib.rs:341-356 | that state is the one the transition itself leads to, whether reported as applied or as present |
| Duplicates.LoserLooksAgain | crates/styrene-git-store/src/lib.rs:347-355 | a call whose transaction failed answers "already present" exactly if its transition is still current when it looks again, and with the failure otherwise; calls that never come to a transaction are in Overtaken.OvertakenExactly |
| Duplicates.DuplicateOvertaken | openspec/changes/bootstrap-self-certifying-repositories/specs/replication-contract.md:62-66 | a concrete fault-free run in which one of two duplicate calls applies the transition and the other reports an error: the documented promise fails once a later transition lands in between |
| Duplicates.DuplicateTooLate | crates/styrene-git-store/src/lib.rs:324-332 | a concrete fault-free run in which a duplicate fails already at its first look, with a core error, because a later transition is current |
| Overtaken.OvertakenExactly | openspec/changes/bootstrap-self-certifying-repositories/specs/replication-contract.md:62-66 | the exact condition, over every run: two calls present one commit, which takes effect in the run, and one of them reports a state; the other, in its turn, supplied and undisturbed, reports the same state if and only if no later commit of the publisher had taken effect at its last look, the first or the second |
| Overtaken.ReturnsExactly | crates/styrene-git-store/src/lib.rs:313-357 | call by call: such a call succeeds if and only if no later commit had taken effect at its last look, whoever brought its own commit about |
| Overtaken.AppliedLanded | crates/styrene-git-store/src/lib.rs:341-346 | a commit that some call answers "applied" has taken effect in the run |
| Answers.LatestMeansNothingLater | crates/styrene-git-core/src/refs.rs:164-210 | in a history that replays, a transition is the latest exactly if it is the last one, and then nothing follows it |
| Promotion.FileSystem.Promote | crates/styrene-git-store/src/lib.rs:586-608 | the recursive directory merge: whether it succeeds or stops half-way, no file is removed or overwritten and whatever is new is the source's (or a racing writer's); on success every source file has its place taken, and it fails only over an obstruction: a file where a directory should be, or a refused path |
| Promotion.FileSystem.PromoteEntry | crates/styrene-git-store/src/lib.rs:588-606 | the same for one directory entry |
| Promotion.FileSystem.HardLink | crates/styrene-git-store/src/lib.rs:599-604 | a file that appears between the check and the link is left as it is and is no error |
| Promotion.FileSystem.CreateDirectory | crates/styrene-git-store/src/lib.rs:595-597 | directory creation, which fails over a file |
| Promotion.PromotionIsUnion | crates/styrene-git-store/src/lib.rs:586-608 | where a path fixes the content, a successful promotion is exactly the union of both stores |
| RefNames.NamesInjective | crates/styrene-git-store/src/lib.rs:571-584 | the spelled ref names are injective in publisher and name or id, and disjoint across kinds and publishers |
| RefNames.FlatTransactionAgrees | crates/styrene-git-store/src/lib.rs:369-429 | on the flat map of named refs a transaction succeeds exactly when it does on the structured refs, with the same result, as long as the hash does not collide on the digests involved |
| RefNames.IdentityBytesInjective | crates/styrene-git-core/src/types.rs:54-55 | different identities have different 16 bytes |
| Transfers.RunTransfer | crates/styrene-git-protocol/src/lib.rs:218-264 | the imperative `apply_transfer` is its specification function ApplyTransfer, repository and answer, which the Admission rows characterise |
| Admission.ValidateExactly | crates/styrene-git-protocol/src/lib.rs:150-175 | validation passes exactly the transfers of version 1 within the limit whose length and three digests are those of the manifest and whose prerequisites are in strict order |
| Admission.ManifestFixesContent | crates/styrene-git-protocol/src/lib.rs:150-175 | two transfers that validate under one manifest are the same: the manifest fixes binding, transition and pack |
| Admission.TamperingRefused | crates/styrene-git-protocol/src/lib.rs:218-226 | any other binding, transition or pack under the manifest of an intact transfer leaves the repository as it is, whatever else happens, and is answered by an integrity mismatch, or as too large |
| Admission.AdmitExactly | crates/styrene-git-protocol/src/lib.rs:224-235 | which transfers are let in, exactly: intact, for this repository, canonical, under a genuine and selected binding, by the manifest's publisher and with the manifest's transition id |
| Admission.RefusedFor | crates/styrene-git-protocol/src/lib.rs:150-235 | the error of every transfer that is not let in, in the order of the checks, whatever happens around it |
| Admission.MissingIs | crates/styrene-git-protocol/src/lib.rs:243-257 | the missing prerequisites in the clear: another current transition, or an object that is not there |
| Admission.AppliesExactly | crates/styrene-git-protocol/src/lib.rs:218-264 | what an undisturbed application answers, each case if and only if: present, missing with exactly the unmet prerequisites, applied with the new state current and the pack's objects there; unless applied, nothing changes |
| Admission.ExportExactly | crates/styrene-git-protocol/src/lib.rs:197-216 | an export succeeds exactly if the transition is accepted on the state before it; what it carries and asks for, and that it is intact exactly within the limit |
| Transfers.MissingAmong | crates/styrene-git-protocol/src/lib.rs:243-257 | the prerequisite loop computes the specified list |
| Transfers.MissingExactly | crates/styrene-git-protocol/src/lib.rs:243-257 | the missing prerequisites are exactly the unmet ones, none exactly when all are met, and an error exactly when one cannot be looked up |
| Transfers.CollectPrerequisites | crates/styrene-git-protocol/src/lib.rs:111-124 | the list of prerequisites: the parent first, then the sorted distinct objects |
| Transfers.NewValidates | crates/styrene-git-protocol/src/lib.rs:111-175 | every transfer the program makes passes its own validation exactly within the payload limit, and names exactly the given prerequisites |
| Convergence.DeliverIsSound | crates/styrene-git-protocol/src/lib.rs:218-264 | a delivery leaves the repository as it is, or sound and advanced by one accepted transition of the selected publisher alone |
| Convergence.NeverBackwards | crates/styrene-git-protocol/src/lib.rs:218-264 | fed any sequence of deliveries, a replica is always at no state or at a state of the publisher's history, and from any moment to any later one never goes back |
| Convergence.ReplicasComparable | crates/styrene-git-protocol/src/lib.rs:218-264 | of two replicas fed differently, one has accepted all that the other has; equal accepted sets mean equal states and conversely |
| Convergence.AcceptedIsNext | crates/styrene-git-core/src/refs.rs:164-210 | the only transition of a history that one of its states accepts is the next |
| Liveness.ApplyIsIdempotent | crates/styrene-git-protocol/src/lib.rs:236-241 | an immediate second delivery of an applied or present transfer is found present and changes nothing; later ones are in Redelivery.RedeliveryExactly |
| Liveness.RedeliveryMovesNothing | crates/styrene-git-protocol/src/lib.rs:218-264 | whatever goes wrong around it, an immediate second delivery moves no publisher's state |
| Liveness.OutcomeIsCurrent | crates/styrene-git-protocol/src/lib.rs:259-263 | what an application reports is the publisher's state afterwards, of the delivered transition |
| Liveness.PrerequisitesMet | crates/styrene-git-protocol/src/lib.rs:197-216 | at the position a transfer was exported for, none of its prerequisites is missing |
| Liveness.GoodDeliveryAdvances | crates/styrene-git-protocol/src/lib.rs:197-264 | an exported transfer with a covering pack, delivered undisturbed at its position, moves the replica to the next state |
| Liveness.Converges | crates/styrene-git-protocol/src/lib.rs:197-264 | if the exported transfers of all steps occur in order among the deliveries, wherever they stand and whatever comes between, the replica ends in the last state |
| Redelivery.RedeliveryExactly | crates/styrene-git-protocol/src/lib.rs:236-257 | a replica that has accepted k transitions is sent, with no read lost, any transfer of an earlier step i again: the repository does not change at all, and the answer is "already present" if and only if i is the latest step; otherwise an error or missing prerequisites |
| Redelivery.OldTransfersMoveNothing | openspec/changes/bootstrap-self-certifying-repositories/specs/replication-contract.md:51-60 | whatever goes wrong around it, a transfer of an accepted step moves no publisher's state |
| Redelivery.OlderTransferNotPresent | openspec/changes/bootstrap-self-certifying-repositories/specs/replication-contract.md:56-60 | the concrete failing input: a transfer the replica accepted, delivered again undisturbed after the next one, is answered by an error |
| Interleavings.MovesAreARun | crates/styrene-git-protocol/src/lib.rs:218-264 | any number of `apply_transfer` calls interleaved operation by operation, with each other and with commits, are for the repository a run of the commit machine, so all results about its runs hold of them |
| Interleavings.ApplyIsARun | crates/styrene-git-protocol/src/lib.rs:218-264 | the sequential `apply_transfer`, under any faults, is one of these interleaved runs, repository and answer alike |
| Interleavings.NeverBackwards | crates/styrene-git-protocol/src/lib.rs:218-264 | in every such run, wherever its calls stop, the publisher is at a position of its history at every moment and never goes back |
| Interleavings.ReplicasComparable | crates/styrene-git-protocol/src/lib.rs:218-264 | of any two replicas, whatever runs on each, one has accepted all that the other has; equal accepted sets mean equal states and conversely |
| Interleavings.AnswersAreTrue | crates/styrene-git-protocol/src/lib.rs:236-263 | in every such run a state reported as applied or present is of the transfer's own transition and was the publisher's current state at some moment |
| Objects.ToSortedSetIs | crates/styrene-git-protocol/src/lib.rs:118-120 | sorting and dropping duplicates keeps the members and yields a strictly sorted list |
| Objects.SortedSetUnique | crates/styrene-git-protocol/src/lib.rs:118-120 | a strictly sorted list is determined by its members |
| Objects.ObjectLessExactly | crates/styrene-git-core/src/refs.rs:15-22 | the order of object ids, in the clear: by algorithm, then byte by byte |
| Order.TextLessExactly | crates/styrene-git-core/src/refs.rs:221-226 | the order of names, in the clear: a proper prefix, or smaller at the first difference |
| Refs.ValidateRefsExact | crates/styrene-git-core/src/refs.rs:221-241 | the checks pass exactly for lists sorted and unique by name whose names and ids are all valid |
| Refs.SortSortsExactly | crates/styrene-git-core/src/refs.rs:135 | sorting makes a list acceptable exactly when its names differ |
| Refs.Target | crates/styrene-git-core/src/refs.rs:258-265 | the binary search returns what the map holds; on any list it returns an entry of that name or nothing |
| Refs.LookupExactly | crates/styrene-git-core/src/refs.rs:258-265 | on a sorted list a lookup finds a target exactly if the list has that entry |
| Refs.SignedExactly | crates/styrene-git-core/src/refs.rs:122-162 | signing succeeds exactly with a genuine binding, its key, distinct valid references and a sequence number left |
| Refs.SignThenVerify | crates/styrene-git-core/src/refs.rs:122-210 | what is signed on a state verifies on that state under the binding's selection, and yields the signed references, sorted |
| Refs.VerifyExactly | crates/styrene-git-core/src/refs.rs:164-210 | verification succeeds exactly if the binding is genuine and selected, the payload is made for this repository, signer and parent, its references are good and in strict order, and the signature is the selected key's over the framed payload; and what state it yields |
| Refs.RejectedFor | crates/styrene-git-core/src/refs.rs:164-210 | the error of every transition that does not verify, in the order of the checks |
| Refs.VerifiedIsSigned | crates/styrene-git-core/src/refs.rs:122-210 | the converse of signing: whatever verifies is what the holder of the selected key gets from `signed` on that state and those references |
| Refs.VerifyFixesContext | crates/styrene-git-core/src/refs.rs:164-210 | a transition that verifies twice does so in one repository, under one binding and selection, and on states of one transition |
| History.ReplayIsChain | crates/styrene-git-core/src/refs.rs:164-210 | a log that replays is a chain of accepted states |
| History.StateShape | crates/styrene-git-core/src/refs.rs:180-208 | along a chain sequences count from zero, parents are the previous ids, and every state keeps its references valid and strictly sorted |
| History.HistoryDistinct | crates/styrene-git-core/src/refs.rs:115-120 | no transition occurs twice in a chain |
| History.VerifiesOnlyOnItsParent | crates/styrene-git-core/src/refs.rs:164-210 | a transition of a chain verifies on exactly one state of that chain, in that repository only, under its own binding and selection only |
| Identities.AccumulateIs | crates/styrene-git-core/src/identity.rs:298-318 | after any sequence of approvals the list is strictly sorted and holds exactly the last approval of each identity |
| Identities.WithApprovalIs | crates/styrene-git-core/src/identity.rs:309-316 | one approval replaces its identity's earlier one and keeps the order |
| Identities.ApprovalOrderIrrelevant | crates/styrene-git-core/src/identity.rs:298-318 | any permutation of approvals by distinct identities yields the same list |
| Identities.Proposal.Approve | crates/styrene-git-core/src/identity.rs:298-318 | the retain, push and sort of `approve`, and its refusal of a foreign key |
| Identities.ValidateExactly | crates/styrene-git-core/src/identity.rs:69-118 | a document validates exactly if it is of version 1, named, has a good branch name, a threshold between one and the number of delegates, and its delegates in strict order; the branch name spelled out character by character |
| IdentityHistory.VerifyTransition | crates/styrene-git-core/src/identity.rs:320-388 | the imperative verification with its counting loop is the specification function Verify, which VerifiesWhen and the rejection rows characterise |
| IdentityHistory.CheckExactly | crates/styrene-git-core/src/identity.rs:352-374 | an approval passes exactly if its identity has a selection, of that identity and epoch, whose key is on the curve and signed this very payload; otherwise the error is the first of these that fails |
| IdentityHistory.CountIsCardinality | crates/styrene-git-core/src/identity.rs:348-376 | the loop succeeds exactly if every approval by a prior delegate is an endorsement in that sense, and then its 16-bit counter is the number of distinct prior delegates approving, modulo 65536 |
| IdentityHistory.VerifiesWhen | crates/styrene-git-core/src/identity.rs:320-388 | when verification succeeds, exactly, for any number of delegates: version, repository, parent and sequence, a sensible document, ordered approvals, every approval by a prior delegate signed by the selected key in the selected epoch over this payload, and enough of them modulo 65536; and the state it yields |
| IdentityHistory.RejectedFor | crates/styrene-git-core/src/identity.rs:325-381 | the errors for an exhausted sequence, a wrong lineage and a missed threshold |
| IdentityHistory.RejectedApproval | crates/styrene-git-core/src/identity.rs:348-374 | an approval by a prior delegate that is no endorsement fails the transition with its own error, if it is the first |
| IdentityHistory.AlwaysGovernable | crates/styrene-git-core/src/identity.rs:320-388 | nobody is locked out: of any valid state, however many its delegates, a threshold of them can adopt any valid document |
| IdentityHistory.ThresholdRule | crates/styrene-git-core/src/identity.rs:320-388 | up to 65535 delegates verification succeeds exactly under the promised rule: lineage, valid document, sorted approvals, every delegate approval valid, threshold reached by distinct prior delegates; others never count |
| IdentityHistory.UnanimityRejected | crates/styrene-git-core/src/identity.rs:348-381 | 65536 valid approvals count as none: the concrete transition that meets the rule and is rejected |
| IdentityHistory.ThresholdRuleExactly | crates/styrene-git-core/src/identity.rs:320-388 | for a valid prior document the rule holds of all transitions and selections if and only if it names at most 65535 delegates |
| IdentityHistory.HistoryShape | crates/styrene-git-core/src/identity.rs:381-410 | over any run the repository id is fixed, sequence counts the accepted steps, every document is valid and comes from its transition |
| IdentityHistory.IdsDistinct | crates/styrene-git-core/src/identity.rs:381-410 | no transition id recurs, the root's included |
| IdentityHistory.AcceptedOnce | crates/styrene-git-core/src/identity.rs:325-337 | an accepted transition is rejected at every other state of its history and at every state of every other repository |
| IdentityHistory.SiblingsExclude | crates/styrene-git-core/src/identity.rs:325-337 | two different transitions of one parent have different ids and neither verifies on top of the other |
| IdentityHistory.ApprovedProposalVerifies | crates/styrene-git-core/src/identity.rs:279-388 | a proposal with any sequence of approvals verifies if and only if the last approval of each prior delegate among them is valid and the number of these delegates, modulo 65536, reaches the threshold: the order of approving and the approvals of others never matter |
| IdentityHistory.SignersDecide | crates/styrene-git-core/src/identity.rs:279-388 | propose, let any signers approve in any order, any of them repeatedly, and verify: it succeeds if and only if the document is sensible, each delegate's last approval was under its selected key and epoch, and enough delegates, modulo 65536, are among the signers |
| Canonical.CountVotes | crates/styrene-git-core/src/canonical.rs:25-31 | the vote loop: an entry for every commit voted for, counting the delegate entries that hold it, modulo 65536 |
| Canonical.DeriveCanonicalHead | crates/styrene-git-core/src/canonical.rs:15-51 | with one qualifying commit the decision is an advance to it exactly if there is no head or it is a descendant other than the head, retain exactly if it is the head, diverged exactly otherwise; without one it is retain or no agreement |
| Canonical.TallyIsVoters | crates/styrene-git-core/src/canonical.rs:25-31 | over distinct delegates the tally of a commit is the number of delegates whose branch is at it |
| Canonical.QualifiesWhen | crates/styrene-git-core/src/canonical.rs:33-36 | for every valid document and all states, to qualify is to stand at the default branch of delegates whose number, modulo 65536, reaches the threshold |
| Canonical.UnanimityIgnored | crates/styrene-git-core/src/canonical.rs:25-36 | for every valid document of more delegates there are states under which enough of them hold a commit that does not qualify: 65536 votes count as none |
| Canonical.QualifiesExactly | crates/styrene-git-core/src/canonical.rs:25-36 | so the vote rule holds of all states and commits if and only if the valid document names at most 65535 delegates |
| Canonical.MajorityIsUnique | crates/styrene-git-core/src/canonical.rs:33-43 | at most one commit qualifies once twice the threshold exceeds the delegate count |
| Canonical.MinoritySplits | crates/styrene-git-core/src/canonical.rs:33-43 | otherwise, for any two commits there are states under which both qualify |
| Canonical.UniqueExactly | crates/styrene-git-core/src/canonical.rs:33-43 | so uniqueness over all states holds if and only if twice the threshold exceeds the delegate count |
| Canonical.OthersHaveNoVote | crates/styrene-git-core/src/canonical.rs:27-31 | entries of anybody but the delegates have no influence |
| Canonical.RepositoryContext.State | crates/styrene-git-functional/src/operator.rs:406-457 | the call that gathers states in a loop, decides, and moves the stored head on an advance only |
| Canonical.HeadStep | crates/styrene-git-functional/src/operator.rs:432-452 | one call leaves the head or moves it to a qualifying descendant |
| Canonical.HeadMovesExactly | crates/styrene-git-functional/src/operator.rs:432-452 | when one call of a run moves the head, exactly: to the only qualifying commit, if there is no head yet or the commit is reported as a descendant of the head and is not the head; otherwise the head stays |
| Canonical.GatheredExactly | crates/styrene-git-functional/src/operator.rs:416-431 | the gathered states are those of the delegates asked for that have one, or nothing if one cannot be read |
| Canonical.MainHeadExactly | crates/styrene-git-functional/src/operator.rs:421-424 | the head shown for a publisher is where its `refs/heads/main` stands |
| Canonical.HeadsFastForward | crates/styrene-git-functional/src/operator.rs:432-452 | over any run of decisions a head never goes back to none, and successive heads form an ancestor chain |
| Rendering.FromHexExact | crates/styrene-git-core/src/types.rs:93-109 | `from_hex` accepts exactly the printed identities and reads each back |
| Rendering.HexReads | crates/styrene-git-core/src/types.rs:93-95 | decoding undoes encoding for any bytes |
| Rendering.HexIsNumber | crates/styrene-git-core/src/types.rs:89-91 | what is printed, by an independent measure: two digits a byte, `0` to `9` and `a` to `f`, that write in base 16 the number the bytes write in base 256 |
| Rendering.ParseRepositoryExact | crates/styrene-git-core/src/types.rs:132-157 | a repository id is read exactly from its printed text |
| Rendering.AcceptedDigests | crates/styrene-git-core/src/types.rs:141-156 | symbol by symbol: 52 lower-case base32 symbols of which the last is `a` or `q`, as four trailing bits must be zero |
| Rendering.Base32Reads | crates/styrene-git-core/src/types.rs:57-61 | 52 symbols carry the 256 bits back, with zero padding bits |
| Rendering.Base32IsNumber | crates/styrene-git-core/src/types.rs:57-61 | 52 symbols, `a` to `z` and `2` to `7`, that write in base 32 sixteen times the number the bytes write in base 256 |
| Urls.ParseExact | crates/styrene-git-remote/src/lib.rs:54-150 | a text is read as a URL exactly when the URL is well formed and the text is how it prints: both round trips, byte for byte |
| Urls.DisplayInjective | crates/styrene-git-remote/src/lib.rs:91-110 | different URLs print differently |
| Urls.ParseLabelsExact | crates/styrene-git-remote/src/lib.rs:112-138 | a query is read as labels exactly when it is how valid labels are written |
| Urls.ParseViewExact | crates/styrene-git-remote/src/lib.rs:70-80 | path segments are read as a view exactly when they are how it prints |
| Urls.LabelsTextIs | crates/styrene-git-remote/src/lib.rs:101-108 | the printing loop is a question mark and the joined fields |
| Splitting.SplitExact | crates/styrene-git-remote/src/lib.rs:70 | a text is cut into given parts exactly when it is their join and none holds the separator |
| Splitting.SplitOnceIs | crates/styrene-git-remote/src/lib.rs:67-69 | `split_once` cuts at the first separator |
| Cbor.CanonicalExact | crates/styrene-git-core/src/codec.rs:12-24 | for any decoder that reads what the encoder writes, however lenient, the accepted byte strings are exactly the encoder's image, each read as the value it was written for |
| Cbor.DecodeEncode | crates/styrene-git-core/src/codec.rs:8-11 | decoding after encoding is the identity, whatever follows |
| Cbor.PrefixFree | crates/styrene-git-core/src/codec.rs:8-11 | encodings of one schema are injective and prefix-free |
| Cbor.DecodeConforms | crates/styrene-git-core/src/codec.rs:13-16 | decoding yields values of the schema only |
| Cbor.DecodeReads | crates/styrene-git-core/src/codec.rs:13-16 | the modelled decoder, which takes over-long heads and trailing bytes, is one of those decoders |
| Cbor.LongHeadsRefused | crates/styrene-git-core/src/codec.rs:20-22 | a concrete over-long head is decoded and then refused as non-canonical |
| Cbor.HeadIsShortest | crates/styrene-git-core/src/codec.rs:8-22 | no head that reads as a number is shorter than the encoder's, and of the same length only the encoder's is |
| Utf8.Utf8Exactly | crates/styrene-git-core/src/codec.rs:8-22 | a byte string is accepted as text exactly if it is the UTF-8 encoding (RFC 3629) of some Unicode scalar values |
| Schemas.FramesDecode | crates/styrene-git-core/src/codec.rs:29-34 | from separator and value joined, both can be told: no separator-value pair reads as another |
| Schemas.HashInputsDiffer | crates/styrene-git-core/src/codec.rs:29-34 | equal hash inputs come from the same value of the same kind |
| Schemas.SignedBytesDiffer | crates/styrene-git-core/src/refs.rs:213-219 | no signed message of one purpose or value is one of another, though only references are framed with a separator |
| Encodings.DocumentEncodes | crates/styrene-git-core/src/identity.rs:27-44 | the bytes of any identity document, field by field, heads of every size included; the value conforms to its schema |
| Encodings.PayloadEncodes | crates/styrene-git-core/src/refs.rs:86-103 | the bytes of any reference payload: absent parent as `f6`, object bytes as an array of integers |
| Encodings.RefTransitionEncodes | crates/styrene-git-core/src/refs.rs:105-112 | the bytes of any signed reference transition |
| Encodings.StateEncodes | crates/styrene-git-core/src/refs.rs:243-256 | the bytes of any stored publisher state |
| Encodings.IdentityTransitionEncodes | crates/styrene-git-core/src/identity.rs:243-276 | the bytes of any identity transition with its approvals |
| Encodings.DocumentInjective | crates/styrene-git-core/src/identity.rs:27-44 | different documents are encoded from different values |
| Encodings.PayloadInjective | crates/styrene-git-core/src/refs.rs:86-103 | and so are different reference payloads, if the digests in them have different bytes |
| Ideals.DigestsStandForBytes | crates/styrene-git-core/src/codec.rs:29-34 | documents, reference transitions and identity transitions, under whatever domain each is hashed: the hashed bytes are equal if and only if the ideal digests are, if the digests and signatures inside are told apart |
| Ideals.ProtocolDigests | docs/signed-domains.md:25-31 | the repository id, both transition ids and the identity root are such digests |
| Ideals.MessagesStandForBytes | crates/styrene-git-core/src/refs.rs:213-219 | the signed bytes are equal if and only if the messages are, references and identity payloads together |
| Ideals.IdealsAreFaithful | docs/signed-domains.md:16-18 | over all digests and signatures of a run, in the order in which they are made: the ideal ones are told apart by their bytes if and only if the hash and the signer do not collide on what the run hashes and signs |
| Ideals.BlobsStandForBytes | crates/styrene-git-store/src/lib.rs:336-337 | the bytes stored for two blobs, states or transitions, are equal if and only if the blobs are |
| Ideals.TransfersStandForBytes | crates/styrene-git-protocol/src/lib.rs:97-108 | the bytes of two transfers are equal if and only if manifest, binding, transition and pack are |
| KnownAnswers.GoldenFrame | crates/styrene-git-core/src/refs.rs:295-318 | the frame that is signed for the golden payload is the separator followed by the golden bytes |
| KnownAnswers.GoldenReadsBack | crates/styrene-git-core/src/refs.rs:295-318 | the golden bytes are read back as that payload by every decoder |
| KnownAnswers.GoldenDocumentEncodes | crates/styrene-git-core/tests/spike.rs:234-243 | the golden document has the golden bytes |
| Ipc.IsGranted | crates/styrene-git-remote/src/client.rs:356-365 | the binary search over a strictly sorted grant is membership |
| Client.NewClient | crates/styrene-git-remote/src/client.rs:42-53 | a zero response limit is refused; otherwise the session starts empty with the configured id |
| Client.GitIpcClient.SendRequest | crates/styrene-git-remote/src/client.rs:201-254 | the imperative `send` is the specification function Send on the session, for any transport; the Exchanges rows say when it sends, succeeds and fails |
| Client.GitIpcClient.NegotiateCapabilities | crates/styrene-git-remote/src/client.rs:67-86 | `negotiate`, cached, failing the session on invalid capabilities |
| Client.GitIpcClient.NextId | crates/styrene-git-remote/src/client.rs:256-262 | ids count up and end after the largest |
| Client.GitIpcClient.CheckRequest | crates/styrene-git-remote/src/client.rs:264-313 | the gate, with its binary search, answers exactly as specified by membership and limits, and changes nothing |
| Client.GitIpcClient.Push | crates/styrene-git-remote/src/client.rs:130-147 | session and result of a push are those of a mutating Ask: the committed result, or the error |
| Client.GitIpcClient.Fetch | crates/styrene-git-remote/src/client.rs:109-128 | session and result of a fetch are those of Ask with these wants and haves: the pack, or the error |
| Client.GitIpcClient.ListRefs | crates/styrene-git-remote/src/client.rs:88-97 | session and result are those of Ask for this repository and view: the listing, or the error |
| Client.GitIpcClient.ListPushRefs | crates/styrene-git-remote/src/client.rs:99-107 | session and result are those of Ask for this repository: the listing, or the error |
| Client.GitIpcClient.RequestOperation | crates/styrene-git-remote/src/client.rs:149-180 | starting, reading and cancelling an operation: session and result are those of Ask with that request |
| Client.GitIpcClient.ListObservations | crates/styrene-git-remote/src/client.rs:182-199 | session and result are those of Ask with that page request |
| Sessions.GateExact | crates/styrene-git-remote/src/client.rs:264-313 | the gate opens exactly for capability requests and, after negotiation, for requests within the granted set and every count and byte limit |
| Sessions.SendCases | crates/styrene-git-remote/src/client.rs:201-254 | everything one send can do: silent with a local error, or exactly one request under the next id, permitted and small enough, with the matching way to end |
| Exchanges.SendExactly | crates/styrene-git-remote/src/client.rs:201-252 | a request is sent exactly if nothing local stands in its way; the call returns a body exactly if the reply is within the limit, of this version and id, of the kind and about the thing asked for, and within the granted limits, and the session is usable then; the daemon's own error likewise; anything else fails the session |
| Exchanges.HeldBackFor | crates/styrene-git-remote/src/client.rs:201-233 | what keeps a request from being sent, with its error, in the order of the checks |
| Exchanges.FailsFor | crates/styrene-git-remote/src/client.rs:315-336 | what is wrong with a reply, with its error, in the order of the checks |
| Exchanges.PushFailsFor | crates/styrene-git-remote/src/client.rs:219-251 | a push fails like any other request, but as a push of unknown outcome unless the daemon says no |
| Exchanges.NegotiateExactly | crates/styrene-git-remote/src/client.rs:67-86 | negotiation yields what is held already, and otherwise exactly the capabilities of an accepted answer of this version with no capability twice |
| Sessions.RelevantExactly | crates/styrene-git-remote/src/client.rs:383-426 | which answers are of the kind, and about the repository, view or operation, that was asked for, answer by answer |
| Sessions.TraceIsSound | crates/styrene-git-remote/src/client.rs:67-313 | over any run of calls and any transport: ids strictly increase and are never reused; every request but a capability request follows a valid negotiation, is permitted by it, and no request exceeds its size limit |
| Sessions.FailedForever | crates/styrene-git-remote/src/client.rs:202-204 | once failed, a session sends nothing, whatever is called |
| Sessions.ExhaustedForever | crates/styrene-git-remote/src/client.rs:256-262 | once ids have run out nothing more is sent |
| Sessions.PushNeverSilent | crates/styrene-git-remote/src/client.rs:130-147 | a push ends in a local error exactly when nothing was sent; success means a reply of matching version and id that says this repository's push was committed |
| Sessions.IndeterminateIsLast | crates/styrene-git-remote/src/client.rs:219-251 | a push of unknown outcome is the last request of its session and the only such push |
| Sessions.FallbackUnreachable | crates/styrene-git-remote/src/client.rs:140-146 | no accepted answer is of another kind: the fallback arm of every call is dead |
| RemoteOperations.RemoteSession.List | crates/styrene-git-remote/src/operations.rs:54-65 | negotiate, ask, and hand over only a listing whose order, names, ids and head are valid; session and result as specified |
| RemoteOperations.RemoteSession.ListForPush | crates/styrene-git-remote/src/operations.rs:67-73 | the same for pushes |
| RemoteOperations.RemoteSession.RunFetch | crates/styrene-git-remote/src/operations.rs:75-127 | the imperative `fetch_batch` is the specification function FetchBatch |
| RemoteOperations.RemoteSession.RunPush | crates/styrene-git-remote/src/operations.rs:129-197 | the imperative `push_batch` is the specification function PushBatch |
| RemoteOperations.CollectFetch | crates/styrene-git-remote/src/operations.rs:81-114 | the loops check commands and haves in order and yield sorted, bounded wants and haves, as specified by PrepareFetch |
| RemoteOperations.CollectPush | crates/styrene-git-remote/src/operations.rs:142-193 | the loop fills destinations, updates and objects command by command and fails at the first bad one, as specified by PreparePush, which PlanIs characterises |
| RemoteOperations.AllPresent | crates/styrene-git-remote/src/operations.rs:121-126 | the loop stops at the first object that is absent or cannot be looked up, and succeeds only if every one is present |
| RemoteOperations.ValidateEntriesExact | crates/styrene-git-remote/src/operations.rs:214-226 | a listing's entries pass exactly if every name and object id does |
| Outcomes.ReferenceExactly | crates/styrene-git-remote/src/operations.rs:228-250 | which references are valid, spelled out: under `refs/`, components that are not empty, have no dot at either end and no `.lock`, no two dots, no `@{`, none of eight characters, no control character |
| Outcomes.GoodListingExactly | crates/styrene-git-remote/src/operations.rs:200-226 | a listing passes exactly if its names are in strict order and every name and id is good |
| Outcomes.ListingExactly | crates/styrene-git-remote/src/operations.rs:54-65 | `list` yields a listing exactly if negotiation succeeds, the daemon answers the request for this repository and view with it, and its entries and head are good |
| Outcomes.PushListingExactly | crates/styrene-git-remote/src/operations.rs:67-73 | the same for `list for-push` |
| Outcomes.PrepareFetchExactly | crates/styrene-git-remote/src/operations.rs:81-114 | what a fetch asks for and offers, exactly: the wanted objects once each in order, and what Git names as common, within the limits |
| Outcomes.FetchBatchExactly | crates/styrene-git-remote/src/operations.rs:75-127 | a fetch batch succeeds if and only if its commands and haves are good, the daemon answers with a pack within the limit, Git takes it, and every wanted object is then there |
| Outcomes.PlanExactly | crates/styrene-git-remote/src/operations.rs:142-181 | a push plan succeeds exactly if every destination is good and named once and every source resolves to an object of the format |
| Outcomes.PreparePushExactly | crates/styrene-git-remote/src/operations.rs:129-193 | the updates and the pack of a push, exactly: from what the listing shows to what the source resolves to, and all that is new less what is listed |
| Outcomes.PushBatchExactly | crates/styrene-git-remote/src/operations.rs:129-197 | a push batch succeeds with a result if and only if the daemon lists good references, the commands are good and few enough, Git makes the pack, and the daemon answers that this very push is committed with that result |
| Daemons.RequestSucceeds | crates/styrene-git-remote/src/client.rs:201-354 | on a daemon that does its job every permitted request returns the daemon's answer and leaves the session usable |
| Daemons.ListSucceeds | crates/styrene-git-remote/src/operations.rs:54-65 | so `list` shows what such a daemon lists |
| Daemons.PushListSucceeds | crates/styrene-git-remote/src/operations.rs:67-73 | and so does `list for-push` |
| Daemons.FetchSucceeds | crates/styrene-git-remote/src/operations.rs:75-127 | a fetch of good commands succeeds on it, if Git takes the pack and has the objects then |
| Daemons.PushSucceeds | crates/styrene-git-remote/src/operations.rs:129-197 | a push of good commands is reported as the daemon committed it |
| Batches.PlanIs | crates/styrene-git-remote/src/operations.rs:142-181 | updates map one to one, in order, to the commands, with distinct names and the listing's value as expected; the objects to send are exactly the resolved ones |
| Batches.PackAlwaysFits | crates/styrene-git-remote/src/git.rs:275-313 | the include and exclude counts always fit the revision bound, which never overflows, and formats never mismatch: preparation can only fail in Git itself or on the pack's size |
| Batches.PushPassesGate | crates/styrene-git-remote/src/operations.rs:129-197 | the prepared push passes every local check of the client |
| Batches.PushBatchTrace | crates/styrene-git-remote/src/operations.rs:129-197 | a push batch sends no push and fails, or exactly one, last, with those updates, after the listing they expect; its outcome is that push's |
| Batches.PushBatchNeverSilent | crates/styrene-git-remote/src/operations.rs:129-197 | any error other than a remote or indeterminate one means that no push was sent; success means the daemon committed it |
| Batches.FetchPassesLimits | crates/styrene-git-remote/src/operations.rs:75-127 | the prepared fetch asks for the sorted distinct wants and passes the client's limits |
| Batches.FetchBatchSucceeds | crates/styrene-git-remote/src/operations.rs:75-127 | success means that exactly those wants were asked for, last, that every wanted object is then present, and that a received pack was installed; Outcomes.FetchBatchExactly has the converse |
| CommandLoop.Input.NextLine | crates/styrene-git-remote/src/command_loop.rs:157-174 | the line returned and the input left are those of ReadLine, which LinesAreWhole characterises |
| CommandLoop.CollectFetches | crates/styrene-git-remote/src/command_loop.rs:64-73 | the loop reads commands up to the blank line and stops at the first error or the end of input, leaving the rest |
| CommandLoop.CollectPushes | crates/styrene-git-remote/src/command_loop.rs:80-89 | the same for pushes |
| CommandLoop.Helper.RunCommand | crates/styrene-git-remote/src/command_loop.rs:34-103 | one command: session, input left, output text and whether the loop stops, as specified by Serve |
| CommandLoop.Helper.RunCommandLoop | crates/styrene-git-remote/src/command_loop.rs:11-107 | the imperative loop is the specification function Run: session, remaining input, output text and result, which the Scripts and Conversations rows characterise |
| Scripts.LineExactly | crates/styrene-git-remote/src/command_loop.rs:157-174 | a line is read exactly if the input starts with it, it is within the limit and can be read |
| Scripts.FetchLinesExactly | crates/styrene-git-remote/src/command_loop.rs:64-73 | a batch of fetches is read exactly as it is written, a line each and a blank line |
| Scripts.PushLinesExactly | crates/styrene-git-remote/src/command_loop.rs:80-89 | the same for pushes |
| Scripts.RunExecutes | crates/styrene-git-remote/src/command_loop.rs:24-103 | wherever a command can be read in its place, it is carried out: the listing, fetch or push batch is run on just the commands read, its block is written, and the run goes on with the rest or ends with the batch's error |
| Scripts.RunStops | crates/styrene-git-remote/src/command_loop.rs:24-107 | wherever none can be read the run ends, nothing more being sent or written: well at the end of input or a blank line, otherwise with exactly the error of what stands there |
| Conversations.BlocksAreAnswers | crates/styrene-git-remote/src/command_loop.rs:11-107 | over any run, from any session: every listing, fetch and push block has its own request of the run, at increasing places, and is the answer to it: the daemon's listing to that question; a fetch of just the objects read, answered with a pack that was installed, every object there; a committed push of just the references read. Of the other requests only the last can be more than a query, and then the run failed |
| Framing.LinesAreWhole | crates/styrene-git-remote/src/command_loop.rs:157-174 | a command is one whole input line: within the limit it is read and nothing of the next one, over the limit it is an error and never cut in two |
| Framing.ParsePushExact | crates/styrene-git-remote/src/command_loop.rs:127-148 | a line is read as a push exactly when it is how the command is written; so parsing is injective with printing as its inverse |
| Framing.ParseFetchExact | crates/styrene-git-remote/src/command_loop.rs:109-125 | a line is read as a fetch exactly when it is how the fetch is written, in either case of the hexadecimal digits |
| Framing.ObjectFromHexExact | crates/styrene-git-core/src/refs.rs:39-60 | an object id is read from its hexadecimal form in either case, and from nothing else |
| Framing.OutputDecodes | crates/styrene-git-remote/src/command_loop.rs:39-102 | a reader that cuts the output at blank lines gets the written blocks back, each whole |
| Transcripts.RunWrites | crates/styrene-git-remote/src/command_loop.rs:11-107 | over any run the first block is the advertisement and the only one, an error block comes last and only if the run fails, and no line is blank or holds a newline |
| Transcripts.RunDecodes | crates/styrene-git-remote/src/command_loop.rs:11-107 | so the text a run writes decodes to its blocks |
| Transcripts.ListingDecodes | crates/styrene-git-remote/src/command_loop.rs:43-52 | a listing block is read back as the listing, head included |
| Transcripts.PushListingDecodes | crates/styrene-git-remote/src/command_loop.rs:53-60 | the same for push listings |
| Transcripts.StatusesDecode | crates/styrene-git-remote/src/command_loop.rs:90-103 | one status for each command, in order, all successes or all failures |
| Transcripts.StatusesMean | crates/styrene-git-remote/src/command_loop.rs:90-103 | for one push command, from any session: successes are written only for a push the daemon committed, failures only for one that was never sent, was refused, or has an unknown outcome |
| Reports.ReportsAreTrue | crates/styrene-git-remote/src/command_loop.rs:11-107 | over any run, from any session: the pushes reported as successes are, in order, at increasing places among the requests of this run, each with exactly the commands' references in order and answered as committed; and the only other push sent is the last request, which the last block reports as failed with that push's error |
| Reports.BatchPushes | crates/styrene-git-remote/src/operations.rs:129-197 | one push batch sends no push, or one, last, of the commands' references; success means committed, and an error with a push sent is that push's |
| Transcripts.RunKeepsRest | crates/styrene-git-remote/src/command_loop.rs:24-107 | the input left is the end of the input: nothing is skipped and nothing comes back |

## Left out

- Liveness.ApplyIsIdempotent: asks that the read of the state is not lost on the second delivery, because a lost read makes it end in an error; that it still changes nothing is RedeliveryMovesNothing.
- Redelivery.RedeliveryExactly: asks the same; with lost reads OldTransfersMoveNothing holds.
- Admission.AppliesExactly: of an application with no disturbance; TamperingRefused and RefusedFor hold under any, and Convergence.DeliverIsSound says what may happen under any.
- Daemons.FetchSucceeds: the daemon never answers with an error and takes requests of any size, and Git indexes any pack; the exact condition for one batch is Outcomes.FetchBatchExactly.
- Overtaken.OvertakenExactly: the duplicate runs without faults, its parent has landed at each of its looks and its objects are at hand, because without these any call may fail; SucceedsExactly asks for no more than that its looks are not lost, it does not stop, and it is told of its transaction.
- Interleavings.AnswersAreTrue: each reference lookup, blob read and object probe is one step; a pack is imported in one step, into a quarantine nobody else sees.
- Canonical.DeriveCanonicalHead: takes reference lists that are sorted, as verification and commit leave them, and so do QualifiesWhen and MainHeadExactly; the binary search is unspecified on others.
- Framing.LinesAreWhole: which chunks of input are read without an I/O error and are UTF-8 is a parameter.
- Promotion.FileSystem.Promote: directory listings are taken once and in some order; permissions and links are left to the parameter that refuses paths.
- RefNames.FlatTransactionAgrees: assumes that the hash does not collide on the finitely many digests in play.
- Cryptography: Ed25519, BLAKE3 and SHA-256 are ideal, under the condition that Ideals.IdealsAreFaithful makes exact, and the checks inside a signer binding are one verdict. Binding an identity to its public key by hash is not modelled.
- Git and the file system as processes: subprocesses, pipes, quarantine directories, creating and opening repositories, `fsck`, and the textual form of the ref transaction. Every other reason for which Git may refuse objects or a transaction is a parameter.
- Readers that see half of a ref transaction, directory and file conflicts between ref names, and garbage collection.
- Decoder leniency beyond over-long heads and trailing bytes, such as indefinite lengths and surplus array elements, is not in the modelled decoder; Cbor.CanonicalExact holds for every decoder that reads what the encoder writes.
- Encodings of IPC messages, which have trailing optional fields; a request has a size and a response is what decoding made of it. Operation states and observation kinds, which the client does not check.
- The constructor that sorts a document's delegates, accessors, and object ids from and to hexadecimal beyond what commands need: easy members.
- Error texts, and the operation fields of error messages.
- Hashes as concrete numbers: the golden bytes of the signed frame are proved, the golden digests are not.
- The functional crate apart from the keeper of the canonical head, state summaries and wants, and the daemon.
- Output that fails to be written.
