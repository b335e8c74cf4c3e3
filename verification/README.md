# Software Oath: a verified model

Software Oath takes alerts, repairs the repositories they concern inside isolated workers, proves what it did with
signed receipts, and leaves the decision to an owner. This project models its core in Dafny and proves what its code
and its documentation promise. Each module names the source file it follows.

- **The run protocol** (`RunRecords`, `RunProtocol`, `RunInvariants`, `RunTheorems`, `RunCancellation`,
  `RunWitnesses`, `RunDelivery`): a durable queue of runs shared by any number of workers under time-limited leases,
  with a CI monitor, owners and operators. One step is one store operation or one tick of the clock. What goes wrong
  in it is shown to be reachable from an empty control plane, and what a worker did to be what is attested to.
  `StoreSpec` and `ControlPlaneStore` hold the store itself as a class over its collections, `StoreRefinesProtocol`
  shows that its operations are steps of the protocol, `CiMonitor` is the loop of the monitor, and `StaleMonitor` is
  what it does to what has happened since it looked.
- **Evidence that binds** (`JsonText`, `CanonicalJson`, `JsonReader`, `SignedDocuments`, `MigrationSpecification`,
  `MerkleBundle`, `AttestationBundles`): the canonical printer on which every signature rests, a reader that undoes
  it, signing and checking, and the Merkle root of exported bundles. SHA-256 and Ed25519 are parameters; results about
  hashes say that otherwise two different hashed texts have one digest.
- **Graph algorithms** (`DependencyGraph`, `DependencyGraphBuilder`, `DependencyGraphTheorems`,
  `DependencyGraphContents`, `RemovalAnalysis`, `ConnectedFiles`): upserts and what they add up to, breadth-first
  removal impact, and the import closure.
- **Concurrent schema migrations** (`SchemaMigrations`).
- **The verdict on a repair** (`GitStatus`, `OathEvidence`, `CostReview`, `RepairVerdict`), the **rate limiter**
  (`RateLimiter`), **optimizer arithmetic** over the reals (`Rounding`, `PriceRanges`, `EmailPricing`,
  `MigrationEffort`, `Recommendation`) and the **icon file writer** (`IconFile`).

`Wrappers`, `Lists`, `Sorting` and `Texts` are shared: the stable sort of the language, its lists and its strings of
UTF-16 units.

## Assumptions

- A *fenced* execution is one in which no worker writes to a run at or after the end of its own lease, whether the
  lease ran out or the worker gave it back. The code does not enforce this; the theorems that need it say so, and
  `LateWritesHitTheNextWorker` and `LogFailureUndoesPublication` show why it is needed. The clock never goes back.
- Ids are new whenever they are made, as random UUIDs are.
- The monitor's reading of one run and its write are one step, and cancellation is one step as in the database;
  `StaleMonitorReopensIff` and `SplitCancellationIsAtomicIff` say what happens otherwise.
- An owner's decision is one step. `server.ts` reads the run and builds the attestation before the store checks the
  status again and writes, so an attestation of a run that changed in between is not modelled.
- A claim step may take any claimable run; that the store takes the oldest is proved of the store.
- Signing rests on two hypotheses, correctness and unforgeability of the scheme, stated where they are used. JSON values
  have no `undefined` inside arrays, and numbers are their printed lexemes.
- Timestamps are integers. Money is real, and rounding takes halves upwards.

## Where the code and its promises part

- `docs/DEPLOYMENT.md` says that stale leases are recoverable. They are exactly if the lost run has an attempt left
  and nobody asked to cancel it; otherwise the run stays in the queue for good, unclaimable and not retryable.
- Operators can ask for a cancellation of any run. It takes effect, short of a retry, exactly if the run is cancelled
  already, or has no owner, or is inside the lease of a worker with a cancellation check ahead (`TakesCancel`). No
  write but a retry takes the owner away, so a cancellation asked for while the run waits for its next attempt, after
  its worker died, in CI, in review or while its worker delivers never takes effect, and in review the owner can still
  approve the run.
- A monitor pass that was overtaken by an owner's decision takes the decision back.
- A log line that fails after the pull request was opened puts the run back into `retry_wait` or `blocked`.
- The database admits one decision per run ever, so a run rejected and retried can never be approved there. The file
  store admits one per retry.
- Object keys that `localeCompare` ties but that differ make the canonical text depend on the order of entries.
- The check of an exported bundle returns the counts of its manifest, which neither the root nor the signature covers.
- The scope check sees a wholly untracked directory as one path. A directory that leads to a protected path, such as a
  new `.github` where `.github` is allowed, passes while protected files below it may be added.
- Edge ids of the dependency graph are ambiguous where "->" occurs in a source and in a target that fit together, and
  then a relation that was found has no edge. A service whose own name starts with `service:` is not the one removal
  analysis looks for.
- A rate limit of zero still admits one request per window.
- A repair that adds less than half a cent to a cost of zero counts as a hundred percent.

## Model

| member | source | states |
|---|---|---|
| RunTheorems.LeasesAreExclusive | src/control-plane/store.ts:181-214 | In every reachable state at most one worker is inside its lease for a run, a leased run is in the queue and cannot be claimed, and a run that has left the queue has no live lease |
| RunTheorems.LateWritesHitTheNextWorker | src/control-plane/store.ts:216-229 | `updateRun` is not fenced by owner: whenever a live worker outlasts its lease, a second worker can be inside the run when any write the first still makes lands |
| RunTheorems.SecondClaim | src/control-plane/store.ts:187-211 | The two steps of that interleaving: the clock reaches the end of the lease, and another worker claims the run while the first is unchanged |
| RunTheorems.LogFailureUndoesPublication | src/control-plane/orchestrator.ts:590-616 | If the log line after opening the pull request fails, the catch block takes the run out of `ci_pending` into `retry_wait` or `blocked`, writing after the worker gave its own lease back |
| RunTheorems.SplitCancellationIsAtomicIff | src/control-plane/store.ts:241-254 | Reading and then writing cancels as one statement does exactly if ownership did not change in between or the run was cancelled anyway; a claim in between leaves a cancelled run under a live lease |
| RunTheorems.LifecycleHolds | src/control-plane/orchestrator.ts:519-595 | No owner means `received` or `cancelled`; in and after CI all delivery data is set, so an attestation can always be made; approvals and attestations pair up and number at most one more than the retries; an approved run is `completed` |
| RunTheorems.DecisionIsAttested | src/control-plane/postgres.ts:244-330 | The attestation of a decision carries the decision, the run, its repository, its branch, its pull request and its commit, and the run ends completed or blocked by it |
| RunDelivery.MovesNote | src/control-plane/orchestrator.ts:248-616 | What each write of a worker changes in its run, field by field, and that it changes no other record |
| RunDelivery.WhatWasDoneIsAttested | src/control-plane/orchestrator.ts:248-596 | An undisturbed worker brings its run to a decision whose attestation names the very repair, commit, branch and pull request that it recorded, whatever they are |
| RunDelivery.RouteIs | src/control-plane/orchestrator.ts:248-616 | What a worker can do at each point of `process`, and that it can fail anywhere before it fails and be lost anywhere |
| RunDelivery.RouteGoesOn | src/control-plane/orchestrator.ts:248-616 | Where each write leads it |
| RunTheorems.AttemptsAreBounded | src/control-plane/store.ts:187-211 | Attempts stay between zero and the limit, claims within the limit times one more than the retries, and a run that waits for its next attempt has one left |
| RunTheorems.LastClaimLeavesRetryWait | src/control-plane/store.ts:205-210 | The status `retry_wait` alone does not mean that an attempt is left: after a claim of a waiting run one is left exactly if two were |
| RunTheorems.ApprovalIsFinal | src/control-plane/store.ts:150-173 | Over every later fenced execution a run that an owner approved stays `completed` until its data is deleted |
| RunTheorems.DatabaseDecidesOnce | migrations/0001_control_plane.sql:49-50 | With one approval per run in the database, no decision is ever accepted on a run that has one, however often it is rejected and retried |
| RunTheorems.WaitingLasts | src/control-plane/orchestrator.ts:602-615 | A run that waits until a time keeps waiting until then, whatever happens besides a claim of it |
| RunTheorems.FailureBacksOff | src/control-plane/orchestrator.ts:602-615 | After a failure on attempt k, and until it is claimed, the run can be claimed just when 1, 2, 4, 8, 16, 32 or, from the seventh attempt on, 60 minutes have passed, unless it is deleted or to be cancelled |
| RunTheorems.RetryDelays | src/control-plane/orchestrator.ts:605-608 | The delay is a minute at first, then twice the one before up to an hour, which the seventh attempt has reached |
| RunTheorems.StuckForever | src/control-plane/store.ts:187-202 | A run in the queue that is out of attempts or asked to be cancelled, without a worker, keeps its status over every fenced execution until its data is deleted |
| RunTheorems.StaleLeasesAreRecoverableIff | docs/DEPLOYMENT.md:201 | The documented promise that stale leases are recoverable holds exactly if the lost run has an attempt left and nobody asked to cancel it |
| RunTheorems.CrashOnLastAttemptStrands | src/control-plane/orchestrator.ts:204-235 | A worker that dies on the last attempt strands its run: no later execution changes its status |
| RunCancellation.CancellationTakesEffectIff | src/control-plane/store.ts:241-254 | A cancellation that is asked for can take effect, short of a retry, exactly if the run is cancelled already, or has no owner, or is inside the lease of a worker that has a cancellation check ahead |
| RunCancellation.CancellationNeverTakesEffect | src/control-plane/orchestrator.ts:170-181 | In every other case no later fenced execution without a retry of the run reaches `cancelled` |
| RunCancellation.CancellationDoesNotStopApproval | src/control-plane/postgres.ts:244-330 | A run in review is such a case: after a cancellation was asked for, its owner can still approve it to `completed` |
| RunTheorems.CancelDuringBackoffStrands | src/control-plane/store.ts:241-254 | While a run waits for its next attempt, a cancellation also strands it: its status never changes again |
| RunWitnesses.LostRunIsReachable | src/control-plane/orchestrator.ts:204-235 | From an empty control plane a worker can die on the last attempt and strand its run |
| RunWitnesses.DeliveryIsReachable | src/control-plane/orchestrator.ts:519-595 | A worker with an attempt to spare can get to the write that publishes, where a late write and a failing log line do their harm |
| RunWitnesses.ReviewIsReachable | src/control-plane/orchestrator.ts:627-676 | A run can get into review, where no cancellation takes effect |
| RunWitnesses.StrandedBackoffIsReachable | src/control-plane/orchestrator.ts:602-615 | A run can wait for its next attempt and be stranded there by a cancellation |
| RunWitnesses.UndecidableReviewIsReachable | src/control-plane/postgres.ts:244-330 | On the database a rejected and retried run can come back to review, where nobody can decide on it any more |
| RunTheorems.ClaimsRunOut | src/control-plane/store.ts:187-211 | Without new runs and retries, the attempts that remain bound all further claims, fenced or not |
| RunInvariants.StepKeeps | src/control-plane/orchestrator.ts:170-235 | Every enabled fenced step of workers, monitor, owners and operators keeps the invariant |
| RunInvariants.RunKeeps | src/control-plane/orchestrator.ts:193-235 | The invariant holds over every fenced execution |
| RunInvariants.WriteKeeps | src/control-plane/orchestrator.ts:519-595 | Every write a worker makes inside its lease keeps the invariant |
| RunInvariants.ClaimKeeps | src/control-plane/store.ts:181-214 | A claim keeps the invariant: it starts the only live lease of its run |
| RunInvariants.DecisionKeeps | src/control-plane/postgres.ts:244-330 | An owner's decision keeps the invariant and adds one approval and one attestation |
| RunInvariants.DeleteKeeps | src/control-plane/store.ts:340-371 | Deleting the data of a repository keeps the invariant while workers may still hold its runs |
| CiMonitor.MonitorCi | src/control-plane/orchestrator.ts:627-676 | A pass with no other update in between moves every run whose checks are concluded, and no other, and returns their number |
| CiMonitor.Settle | src/control-plane/orchestrator.ts:633-674 | One run of the pass: nothing is written unless its checks are concluded |
| CiMonitor.WriteIsAStep | src/control-plane/orchestrator.ts:660-672 | The write for one run is the monitor's step of the protocol |
| CiMonitor.PassingIs | src/control-plane/orchestrator.ts:633-672 | What a pass makes of a run: approval where the checks passed, the failure where they failed, nothing otherwise |
| StaleMonitor.StaleMonitorReopensIff | src/control-plane/orchestrator.ts:629-662 | Whatever happens between the listing of a run and the write of its pass, short of a retry, the write leaves the run undecided, and so takes back a decision exactly if the owner made one in between |
| StaleMonitor.StaleMonitorReopens | src/control-plane/orchestrator.ts:629-662 | Two passes with one listing around an owner's approval leave a run that is approved and waits for approval, a state the protocol never reaches and in which the database accepts no decision |
| ControlPlaneStore.FileControlPlaneStore.constructor | src/control-plane/store.ts:47-72 | An empty store has integrity |
| ControlPlaneStore.FileControlPlaneStore.AddIncident | src/control-plane/store.ts:95-118 | Stores an incident and its run, or answers with the stored ones and changes nothing |
| ControlPlaneStore.FileControlPlaneStore.ClaimRun | src/control-plane/store.ts:181-214 | Claims the oldest claimable run, and none exactly if there is none |
| ControlPlaneStore.FileControlPlaneStore.UpdateRun | src/control-plane/store.ts:216-229 | Patches the named run and nothing else; fails and changes nothing if it is not there |
| ControlPlaneStore.FileControlPlaneStore.RetryRun | src/control-plane/store.ts:256-270 | Resets a blocked, cancelled or CI-failed run; otherwise fails and changes nothing |
| ControlPlaneStore.FileControlPlaneStore.Decide | src/control-plane/store.ts:150-173 | Records approval, attestation and audit and sets the status together, or fails and changes nothing |
| ControlPlaneStore.FileControlPlaneStore.RequestCancellation | src/control-plane/store.ts:241-254 | Read and write with nothing in between do what the one statement of the database does |
| ControlPlaneStore.FileControlPlaneStore.AppendLog | src/control-plane/store.ts:231-235 | Adds one log line and changes nothing else |
| ControlPlaneStore.FileControlPlaneStore.AppendAudit | src/control-plane/store.ts:315-319 | Adds one audit event and changes nothing else |
| ControlPlaneStore.FileControlPlaneStore.DeleteRepositoryData | src/control-plane/store.ts:340-371 | Filters every collection on a copy, writes it back, and returns the repair ids and the true number of records removed |
| StoreSpec.OldestClaimable | src/control-plane/store.ts:188-204 | Filtering, stable sorting by creation time and taking the first selects the oldest claimable run, and none exactly if there is none |
| StoreSpec.StoreKeepsIntegrity | src/control-plane/store.ts:74-118 | Over any sequence of operations ids and deliveries stay unique, every run, approval and attestation names a stored record, and no incident has two runs |
| StoreSpec.OneIncidentPerAlert | src/control-plane/store.ts:95-118 | However often one alert is delivered among other operations, one incident is stored and exactly one answer is not a duplicate |
| StoreSpec.OneRunPerAlert | src/control-plane/store.ts:95-118 | Over any operations but deletions an alert has exactly one incident and one run if it was ever delivered, and none otherwise |
| StoreSpec.DuplicatesNameStoredRuns | src/control-plane/store.ts:103-113 | A duplicate is answered with the stored incident of the same alert and its stored run |
| StoreSpec.DeletionIsExact | src/control-plane/store.ts:351-363 | In each of the eleven collections deletion removes exactly the records of the repository and keeps incidents that a surviving run shares |
| StoreSpec.DeletionCountsRemoved | src/control-plane/store.ts:347-368 | The returned number is the sum, over the eleven collections, of the records that are gone |
| StoreSpec.RepairIdsAre | src/control-plane/store.ts:343-346 | The repair ids returned by a deletion are exactly those of the runs of the repository |
| StoreRefinesProtocol.ClaimIsAStep | src/control-plane/postgres.ts:331-362 | Claiming on the store is a claim step of the protocol, and possible whenever one is |
| StoreRefinesProtocol.UpdateIsAStep | src/control-plane/store.ts:216-229 | A worker's update of the store is its protocol move, also when the run is gone |
| StoreRefinesProtocol.CancelIsAStep | src/control-plane/postgres.ts:420-434 | Cancelling on the store is the protocol's step, enabled exactly if the run is there |
| StoreRefinesProtocol.RetryIsAStep | src/control-plane/postgres.ts:436-448 | Retrying on the store is the protocol's step, enabled exactly if the store accepts it |
| StoreRefinesProtocol.DecisionIsAStep | src/control-plane/postgres.ts:244-330 | Deciding on the store, with the attestation made from the stored run, is the protocol's step |
| StoreRefinesProtocol.DeliveryIsAStep | src/control-plane/store.ts:95-118 | A delivery is a create step, or no step at all if it is a duplicate |
| StoreRefinesProtocol.DeletionIsAStep | src/control-plane/store.ts:340-371 | Deletion on the store is the protocol's step |
| CanonicalJson.PrinterIsFaithful | src/repair/signature.ts:28-36 | Equal canonical texts mean equal JSON values under every collation; equal values print equally wherever the collation tells the keys of each object apart |
| CanonicalJson.ValueCut | src/repair/signature.ts:28-36 | A printed value can be cut off the front of a text in only one way |
| JsonReader.CanonicalIsRead | src/repair/signature.ts:28-36 | A reader of the JSON grammar reads every canonical text to its end and gets an equal value |
| JsonReader.ValueIsRead | src/repair/signature.ts:28-36 | In front of whatever may follow a value, it reads that value and leaves what follows |
| CanonicalJson.OrderFreeIffUntied | src/repair/signature.ts:31-34 | An object prints the same text in every order of its entries exactly if `localeCompare` ties no two of its defined keys |
| CanonicalJson.SavedPrintsSame | src/repair/signature.ts:31-32 | Dropping undefined entries, as saving and reading back does, leaves the printed text as it is |
| JsonText.ReadEscaped | src/repair/signature.ts:29 | Reading an escaped string gives the string back, for every sequence of UTF-16 units, lone surrogates included |
| JsonText.EscapedIsClean | src/repair/signature.ts:29 | A printed string has no control character and no lone surrogate |
| JsonText.QuotedCut | src/repair/signature.ts:34 | A string literal ends where it ends |
| SignedDocuments.SignedDocumentsVerify | src/repair/signature.ts:46-108 | A signed receipt or attestation verifies under the matching trusted key, also after its undefined entries were dropped, and after its entries were put into any other order if no keys are tied |
| SignedDocuments.MessageDetermines | src/repair/signature.ts:65-100 | The signed text determines the kind of document, its printed content and the metadata of the signature |
| SignedDocuments.ReceiptIsAcceptedIff | src/repair/signature.ts:74-108 | A receipt is accepted exactly if it is signed with Ed25519 and valid under the non-empty key trusted under its name, or, in a test process that trusts no key, under its own |
| SignedDocuments.AttestationIsAcceptedIff | src/control-plane/attestation.ts:112-144 | So is an attestation |
| SignedDocuments.UntrustedKeysAreRefused | src/repair/signature.ts:83-88 | Outside a test process what names an unknown key is refused, whatever key it carries |
| SignedDocuments.SignatureNames | src/repair/signature.ts:46-72 | A signature names its signer and its time and carries the given public key, or the one of the private key |
| SignedDocuments.VerifiedDocumentsWereSigned | src/control-plane/attestation.ts:112-144 | What verifies under a trusted key is what its holder signed: the same kind of document, equal as a value, under the same metadata |
| MigrationSpecification.ParseIsIdempotent | src/optimizer/contracts.ts:113-181 | Validating a validated specification changes nothing, and neither does saving it |
| MigrationSpecification.SchemaIsSound | src/optimizer/contracts.ts:113-181 | The twenty-one fields have different names, none of them `version` |
| MigrationSpecification.PriceTwice | src/optimizer/contracts.ts:75-84 | Parsing a parsed price range gives it back |
| MigrationSpecification.SignedSpecificationVerifies | src/optimizer/migration-specification.ts:61-143 | A signed specification verifies as it is, with an authorization attached, after it was saved, and after its entries were put into any other order if no keys are tied |
| MigrationSpecification.ReorderedParses | src/optimizer/contracts.ts:113-181 | Validating a stored specification gives the specification that was stored, whatever the storage did to the order of its entries |
| MigrationSpecification.AuthorizationIsNotSigned | src/optimizer/migration-specification.ts:114-143 | The check gives the same answer whatever authorization is attached |
| MigrationSpecification.VerifiedSpecificationsWereSigned | src/optimizer/migration-specification.ts:100-134 | An envelope that verifies holds, as a value, exactly what the holder of the key signed |
| MigrationSpecification.OnlyTrustedSpecifications | src/optimizer/migration-specification.ts:100-134 | An envelope verifies exactly if its specification is valid, the digests agree, the prose is that of the specification, and the signature is valid under the key trusted under its name |
| MigrationSpecification.SigningSucceedsIff | src/optimizer/migration-specification.ts:61-98 | Signing succeeds exactly if the specification is valid, the digests agree and every version is filled in |
| MigrationSpecification.AuthorizedIff | src/optimizer/migration-specification.ts:136-143 | An envelope is authorized exactly if it was not before and the reason has three units or more once trimmed |
| MigrationSpecification.ProseIsOfTheSpecification | src/optimizer/migration-specification.ts:40-54 | The prose holds the five plans of the specification under their own names, and a summary |
| MigrationSpecification.SummaryNames | src/optimizer/migration-specification.ts:40-54 | The summary names source, target, repository and the first twelve digits of the commit |
| MigrationSpecification.RelativePathIff | src/optimizer/contracts.ts:67-73 | A path is accepted exactly if it does not begin with a slash and no segment between slashes or backslashes is `..` |
| MigrationSpecification.FieldsAreAcceptedIff | src/optimizer/contracts.ts:113-181 | The fields are accepted exactly if each means what its kind asks for |
| MigrationSpecification.DigestsAreHex | src/optimizer/contracts.ts:113-181 | In a valid specification the digests have 64 hexadecimal digits and the commit 40 or 64 |
| MigrationSpecification.ScopeIsStated | src/optimizer/contracts.ts:113-181 | A valid specification allows some paths, none of which leaves the repository, and states some behaviour and some verification |
| MigrationSpecification.PlansAreStated | src/optimizer/contracts.ts:113-181 | Its names are filled in, and its plans are lists of filled texts |
| MigrationSpecification.PriceIsStated | src/optimizer/contracts.ts:113-181 | Its price is an ordered range of amounts that are not negative, and its date a date |
| MerkleBundle.ComputeMerkleRoot | src/control-plane/bundle.ts:39-65 | The nested loops compute the root of the layer function |
| MerkleBundle.RootIgnoresOrder | src/control-plane/bundle.ts:48 | The root does not depend on the order of the records |
| MerkleBundle.RootBindsRecords | src/control-plane/bundle.ts:39-65 | Lists of object records of any lengths have one root exactly if they are the same bag of records, or else two different texts that were hashed have one digest |
| MerkleBundle.TreesBind | src/control-plane/bundle.ts:49-62 | Two trees with one root digest are one tree, or a collision can be named: no record can pass for an inner node |
| MerkleBundle.BagsBind | src/control-plane/bundle.ts:40-48 | Equal bags of digests come from equal bags of records, if no two different records share a digest |
| AttestationBundles.VerifyAttestationBundle | src/control-plane/bundle.ts:190-255 | Accepts exactly the bundles whose root, signature if any, and final attestations hold, and returns the counts of the manifest |
| AttestationBundles.CheckAttestations | src/control-plane/bundle.ts:236-249 | The loop over the final attestations passes exactly if each of them does |
| AttestationBundles.ExportedBundlesAreAccepted | src/control-plane/bundle.ts:130-188 | An exported bundle passes the check, signed under a trusted key or not, if its final attestations do |
| AttestationBundles.PayloadDetermines | src/control-plane/bundle.ts:67-115 | The payload that stands for a bundle tells its root and its time |
| AttestationBundles.OneRootOneContent | src/control-plane/bundle.ts:39-65 | Two bundles with one root hold the same record texts, and each record of the one is, as a value, a record of the other, or a hash collision can be named |
| AttestationBundles.AcceptedBundlesWereExported | src/control-plane/bundle.ts:190-255 | A signed bundle that passes holds the records of an export signed for the same time, or a hash collision can be named |
| AttestationBundles.AcceptedAttestationsWereSigned | src/control-plane/bundle.ts:236-249 | Each final attestation of a bundle that passes was signed by the holder of its key, and is the record whose text went into the root |
| AttestationBundles.AcceptedKeysAreTrusted | src/control-plane/bundle.ts:218-249 | Outside a test process the signature of an accepted bundle and each of its attestations name a trusted key |
| AttestationBundles.ExportsHoldTheirRecords | src/control-plane/bundle.ts:130-188 | An export holds the records it was given, each list with its own count |
| AttestationBundles.PayloadHolds | src/control-plane/bundle.ts:67-115 | The payload has the time of the bundle, and its root as the digest of the patch |
| AttestationBundles.DocumentsAreRead | src/control-plane/attestation.ts:98-111 | A signed document is read back from the record that holds it |
| AttestationBundles.StringifiedInOrder | src/control-plane/bundle.ts:40-42 | `JSON.stringify` is the canonical printer without its sorting: the entries come in their own order |
| AttestationBundles.CountsAndListsAreNotCovered | src/control-plane/bundle.ts:200-255 | The check covers neither the counts it returns nor which list a record is in |
| DependencyGraphBuilder.StrongestConfidence | src/optimizer/dependency-graph.ts:60-68 | The loop returns the greatest confidence of the evidence |
| DependencyGraphBuilder.Strongest | src/optimizer/dependency-graph.ts:60-68 | It is at least every confidence, and one of them or `low` |
| DependencyGraphBuilder.FirstOfKey | src/optimizer/dependency-graph.ts:110-111 | The merged evidence has every key once |
| DependencyGraphBuilder.GraphBuilder.UpsertNode | src/optimizer/dependency-graph.ts:104-113 | Adds a node, or merges the evidence of the node that has its id |
| DependencyGraphBuilder.GraphBuilder.UpsertEdge | src/optimizer/dependency-graph.ts:115-122 | Adds an edge unless it is a loop, or adds its evidence to the edge that has its id |
| DependencyGraphBuilder.GraphBuilder.AddCapability | src/optimizer/dependency-graph.ts:137-160 | The upserts of one capability and the files that show it |
| DependencyGraphBuilder.GraphBuilder.AddSignal | src/optimizer/dependency-graph.ts:167-192 | The upserts of one signal |
| DependencyGraphBuilder.GraphBuilder.AddObservation | src/optimizer/dependency-graph.ts:124-193 | The upserts of one observed service |
| DependencyGraphBuilder.BuildDependencyGraph | src/optimizer/dependency-graph.ts:100-202 | The nested loops record the facts of the analysis in order, then sort |
| DependencyGraphTheorems.BuiltGraphsAreWellFormed | src/optimizer/dependency-graph.ts:100-202 | Ids are unique, every edge joins two nodes and leads strictly downwards, and the nodes are exactly those observed |
| DependencyGraphTheorems.BuiltGraphsAreSorted | src/optimizer/dependency-graph.ts:195-201 | Nodes and edges are sorted by id |
| DependencyGraphTheorems.EdgesAreRelations | src/optimizer/dependency-graph.ts:115-122 | On every analysis each edge is a relation that was found, under the id of its ends, and each relation that was found has an edge of its id |
| DependencyGraphContents.NodesAreExactly | src/optimizer/dependency-graph.ts:124-193 | The nodes are exactly the observed services, the capabilities used of them, what their signals name, and the files of all these, by their full ids |
| DependencyGraphContents.RelationsAreExactly | src/optimizer/dependency-graph.ts:124-193 | The relations are exactly those of the analysis, from which end to which and of which kind, and so are the edges where ids are unambiguous |
| DependencyGraphContents.KindsAreExact | src/optimizer/dependency-graph.ts:124-193 | A package, a setting or a resource in the graph comes from a signal of its kind, a capability from a use, a file from evidence |
| DependencyGraphContents.NodesCarryTheirTexts | src/optimizer/dependency-graph.ts:104-113 | A node has the texts of what it stands for; with evidence merged in, its confidence is the strongest of it |
| DependencyGraphContents.EdgesCarryTheirEvidence | src/optimizer/dependency-graph.ts:115-122 | An edge has the evidence of every relation under its id, all of it and in order |
| DependencyGraphContents.KeysAgreeIff | src/optimizer/dependency-graph.ts:70-72 | Evidence has one key exactly if file, line and reason agree, where file names have no colon |
| DependencyGraphTheorems.SignalsAreThoseOfTheService | src/optimizer/dependency-graph.ts:162-166 | The signals taken for a service are exactly those with the key of some evidence of its observation or of a use of it |
| DependencyGraphTheorems.EdgesMatchIff | src/optimizer/dependency-graph.ts:115-122 | The edges are exactly the relations that were found if and only if no two of these share an edge id |
| DependencyGraphTheorems.EdgeIdsCollideIff | src/optimizer/dependency-graph.ts:117 | Two relations share an edge id exactly if they are one, or the source of the one is that of the other with an arrow and a part added, and its target is the other's target with that part and arrow taken off |
| DependencyGraphTheorems.ArrowFreeIdsAreInjective | src/optimizer/dependency-graph.ts:117 | If no source contains an arrow, or no target does, no two relations share an edge id |
| DependencyGraphTheorems.EdgeIdDetermines | src/optimizer/dependency-graph.ts:117 | An edge id determines ends and relationship among relations whose sources contain no arrow |
| DependencyGraphTheorems.ArrowsCollide | src/optimizer/dependency-graph.ts:100-122 | In the graph of an analysis whose two capabilities and files contain an arrow, two relations that were found have one edge between them |
| DependencyGraphTheorems.EvidenceIsKept | src/optimizer/dependency-graph.ts:110-112 | A node holds exactly the evidence, up to its key, that was observed for its id |
| DependencyGraphTheorems.WalksAreShort | src/optimizer/dependency-graph.ts:100-202 | A downward graph has no cycle and no walk of more than two edges |
| DependencyGraphTheorems.RemovalIsComplete | src/optimizer/dependency-graph.ts:225-231 | On a built graph removal analysis drops no id that reaches the service, and what is indirect is a file at distance two |
| DependencyGraphTheorems.CapabilityFilesAreAffected | src/optimizer/dependency-graph.ts:137-160 | Where edge ids are unambiguous no use is missed: every file that shows a capability of an observed service is affected by its removal |
| DependencyGraphTheorems.SignalFilesAreAffected | src/optimizer/dependency-graph.ts:162-192 | Where edge ids are unambiguous no signal at the evidence of a service that names a package, a setting or a resource is missed: its file is affected and what it names is affected directly |
| DependencyGraphTheorems.CallingFilesAreAffected | src/optimizer/dependency-graph.ts:162-182 | The file of any other signal at the evidence of a service is affected directly |
| DependencyGraphTheorems.TargetIsTheServiceIff | src/optimizer/dependency-graph.ts:205 | Removal analysis aims at the named service exactly if its name does not itself start with `service:` |
| RemovalAnalysis.IndexIncoming | src/optimizer/dependency-graph.ts:206-211 | The index lists the edges into every id |
| RemovalAnalysis.Follow | src/optimizer/dependency-graph.ts:215-222 | One round queues what leads to the current id and is new, one step further |
| RemovalAnalysis.Search | src/optimizer/dependency-graph.ts:213-223 | The queue loop reaches exactly the ids that reach the service, each once, with the exact length of the shortest walk, on any graph |
| RemovalAnalysis.SearchIsComplete | src/optimizer/dependency-graph.ts:213-223 | Once every queued id is followed, no walk is missed and none is shorter |
| RemovalAnalysis.AnalyzeRemoval | src/optimizer/dependency-graph.ts:204-266 | The impact is the summary of the affected nodes, each once, with exact distances, nearest first |
| RemovalAnalysis.ImpactIsExact | src/optimizer/dependency-graph.ts:229-236 | Affected is what reaches the service, direct what is at distance one, indirect the rest; files, capabilities and configuration are those of the affected nodes |
| RemovalAnalysis.LevelIsExact | src/optimizer/dependency-graph.ts:237-239 | The level is low exactly if nothing is affected, high exactly if a capability or three files are |
| ConnectedFiles.ConnectedFilesOf | src/optimizer/resend.ts:84-105 | The passes end with exactly the direct files and the sources with a chain of resolved imports to one |
| ConnectedFiles.ConnectedIsLeast | src/optimizer/resend.ts:84-105 | That is the least set holding the direct files and closed under importing |
| ConnectedFiles.OrderDoesNotMatter | src/optimizer/resend.ts:92 | The result does not depend on the order of the sources |
| ConnectedFiles.FirstIn | src/optimizer/resend.ts:72-81 | The first candidate that is a source is found |
| ConnectedFiles.TargetsResolveInOrder | src/optimizer/resend.ts:72-81 | The candidates of a target, in order: itself, itself with each of six extensions, its index file with each of four |
| ConnectedFiles.ImportsFileIff | src/optimizer/resend.ts:84-105 | A source imports a file exactly if the file is the first candidate of one of its targets that is a source, and has a name |
| ConnectedFiles.GroupUses | src/optimizer/resend.ts:246-260 | One group per capability, with the evidence of all its uses in the order found |
| ConnectedFiles.MergeCapabilities | src/optimizer/resend.ts:246-263 | The groups, sorted by capability |
| SchemaMigrations.AvailableAreShipped | src/control-plane/postgres.ts:1052-1060 | The migrations are in strict order of their file names, unit by unit |
| Texts.TextLeIff | src/control-plane/postgres.ts:1053-1055 | The order of `sort`: one text is at most another exactly if it is its start, or has the smaller code unit at the first place where they differ |
| SchemaMigrations.ExecutedExactlyOnce | src/control-plane/postgres.ts:1099-1130 | Over every interleaving and any crashes a migration is newly recorded exactly if its SQL was executed, and then once |
| SchemaMigrations.AppliedListsPartition | src/control-plane/postgres.ts:1088-1130 | The lists of what the runners applied divide up the newly recorded names |
| SchemaMigrations.ExecutionIsSorted | src/control-plane/postgres.ts:1099-1130 | The SQL is executed in the order of the names, unit by unit: a name that is the start of another, or has the smaller code unit where they first differ, comes first |
| SchemaMigrations.ShippedFilesInOrder | src/control-plane/postgres.ts:1052-1060 | However the directory lists the nine files of the release, they are migrated in the order of their numbers |
| SchemaMigrations.CompatibleIff | src/control-plane/postgres.ts:1027-1037 | A record is accepted exactly if each of its names is that of a shipped migration, under its checksum or none |
| SchemaMigrations.ReadyIff | src/control-plane/postgres.ts:1039-1050 | The database is ready exactly if it is compatible and the recorded names are those shipped |
| SchemaMigrations.FailsOnlyIfItsSqlDoes | src/control-plane/postgres.ts:1099-1131 | Where no checksum differs a migration fails only if it is not recorded and its SQL fails, and then nothing is changed |
| SchemaMigrations.PrefixStays | src/control-plane/postgres.ts:1099-1130 | From a prefix of the migrations the record stays a prefix |
| SchemaMigrations.ReadyForEver | src/control-plane/postgres.ts:1039-1055 | Once one runner has returned, readiness is accepted in every later state and every checksum is recorded |
| SchemaMigrations.IncompatibleIsLeftAlone | src/control-plane/postgres.ts:1024-1037 | A database with an unknown or modified migration is left as it is and no runner returns |
| SchemaMigrations.Database.Transaction | src/control-plane/postgres.ts:1100-1128 | One transaction is one step of a runner |
| SchemaMigrations.Database.MigrateAll | src/control-plane/postgres.ts:1099-1130 | The loop applies what is missing, in order, up to the first failure |
| SchemaMigrations.Database.RunMigrations | src/control-plane/postgres.ts:1084-1130 | A run alone is a run of the protocol, returns what was missing, and succeeds if the record is compatible and all SQL goes through |
| SchemaMigrations.AloneIsARun | src/control-plane/postgres.ts:1099-1130 | The loop of one runner is a run of the protocol |
| OathEvidence.CollectEvidence | src/maintainer/run.ts:69-136 | The nested loops record, for every requirement of every rule in order, what its command returned or that a human must look |
| OathEvidence.ReadyIffKept | src/domain/oath.ts:184-246 | The report is `ready` exactly if every requirement is kept by a command that exited with zero and no rule has a severity that needs a human |
| OathEvidence.BlockedIffBroken | src/domain/oath.ts:198-200 | The report is `blocked` exactly if some command did not exit with zero |
| OathEvidence.RulePasses | src/domain/oath.ts:184-213 | A rule passes exactly if every requirement of every rule with its id is kept |
| OathEvidence.NothingIsMissed | src/domain/oath.ts:186-191 | Collected evidence has every required kind |
| OathEvidence.SummaryAddsUp | src/domain/oath.ts:221-225 | Every rule is counted once in the summary |
| OathEvidence.ReportCounts | src/domain/oath.ts:216-246 | Each number of the report counts the rules of its own status, and together they count every rule |
| CostReview.EvaluateCostChange | src/integrations/infracost.ts:172-241 | Status, amounts, objections and duration |
| CostReview.CostBlockedIff | src/integrations/infracost.ts:172-221 | The cost is blocked exactly if infrastructure was found and an asked for estimate is missing, a rise reaches the next cent over a limit in amount or percent, a currency differs, or an unpriced resource meets an asked for estimate |
| CostReview.CostReviewRequiredIff | src/integrations/infracost.ts:172-221 | It is left to the owner exactly if nothing blocks and an estimate is missing, a resource is unpriced or the cost rises by half a cent |
| CostReview.ObjectionsAre | src/integrations/infracost.ts:194-212 | Which objection is raised when |
| CostReview.CostPassesIff | src/integrations/infracost.ts:190-219 | With non-negative costs the cost passes exactly if both versions are estimated in full in the currency of the policy and the rise is under half a cent; where nothing was paid before, only if the percentage limit allows a hundred |
| CostReview.CostPassesOnlyIf | src/integrations/infracost.ts:199-219 | What a passing cost tells without any assumption on the amounts |
| CostReview.RoundedSign | src/integrations/infracost.ts:168-170 | A rounded change is not positive exactly if the change is below half a cent less the rounding constant |
| RepairVerdict.RunRepair | src/repair/run.ts:229-340 | The steps of a repair run give the verdict on what Git reports, or its parse error |
| RepairVerdict.ReadyIff | src/repair/run.ts:235-339 | A repair is `ready` exactly if the patch is not empty, every path that Git names is unprotected and allowed, the oath is kept, the finding is gone and nothing got worse, and the cost has no objection |
| RepairVerdict.BlockedIff | src/repair/proof.ts:36-52 | A repair is `blocked` exactly if the patch is empty, a named path is out of scope, a command failed, the finding is still there or something got worse, or an enabled policy stops it for its cost, in terms of the two estimates |
| RepairVerdict.ReadyRaisesNoCost | src/repair/run.ts:290-339 | Under an enabled cost policy a ready repair touches no infrastructure or raises its cost by less than half a cent |
| RepairVerdict.ProofHoldsIff | src/repair/proof.ts:12-33 | Nothing blocks exactly if the finding is gone and every critical or high finding was already one, by the last record of its id |
| RepairVerdict.ScopeIffNamed | src/repair/run.ts:237-243 | The scope check passes exactly if something changed and every path that an entry names, new or original, is in scope |
| RepairVerdict.PassingScopeProtectsIff | src/repair/run.ts:230-243 | With files below an untracked directory counted as touched, a passing scope check leaves every protected file alone exactly if no directory that Git names leads to a protected path |
| RepairVerdict.PassingScopeIsAllowed | src/repair/run.ts:160-164 | Every file that a passing change may touch, named or below a named directory, lies at or below an allowed path |
| RepairVerdict.NewWorkflowPasses | src/repair/run.ts:147-164 | Where `.github` is allowed, the entry for a new directory `.github` makes a repair `ready` that may add a protected workflow |
| RepairVerdict.ProtectionIgnoresSpelling | src/repair/run.ts:147-158 | A protected path is protected with either separator and with or without a leading "./" |
| RepairVerdict.ProtectedIff | src/repair/run.ts:147-158 | Protected are exactly the oath, the two owners files, and `.software-oath` and `.github/workflows` with all below them |
| RepairVerdict.WasSevereIff | src/repair/proof.ts:12-33 | A finding was severe exactly if the last one of its id was critical or high |
| RepairVerdict.ChooseFinding | src/repair/run.ts:75-93 | The chosen finding is the named one, or without a name one that may be repaired unasked; it fails exactly if there is none |
| RepairVerdict.GateFollowsTheDecision | src/control-plane/server.ts:1643-1655 | On the receipt of a repair run the gate refuses an approval exactly if its decision is `blocked` |
| GitStatus.ParsePorcelainV1Z | src/repair/git-status.ts:6-32 | The loop returns the sorted paths of the records read, or the first error |
| GitStatus.PrintedEntriesAreRead | src/repair/git-status.ts:7-27 | Printed entries are read back, each with its status and its paths |
| GitStatus.PathsAreExact | src/repair/git-status.ts:28-31 | The lists are strictly sorted and hold exactly the paths named, and exactly the untracked ones |
| GitStatus.OnlyEntriesAreAccepted | src/repair/git-status.ts:10-27 | Nothing but entries is accepted: the filled fields are those of the records |
| RateLimiter.Limiter.constructor | src/control-plane/server.ts:155-156 | A limiter starts without buckets |
| RateLimiter.Limiter.Admit | src/control-plane/server.ts:159-169 | Opens a window, counts a request or refuses it, and tells how long to wait |
| RateLimiter.OpenedWindowsAreBounded | src/control-plane/server.ts:160-169 | Every window holds at most the limit, a limit below one working as one |
| RateLimiter.AnyIntervalIsBounded | src/control-plane/server.ts:160-169 | Any half-open interval of one window length holds fewer than twice the limit of accepted requests of a key |
| RateLimiter.TheBoundIsMet | src/control-plane/server.ts:160-169 | The bound cannot be improved: with a limit of two, three requests fit |
| RateLimiter.RefusedOnlyWhenFull | src/control-plane/server.ts:163-166 | A request is refused only if a window around it holds the limit |
| RateLimiter.RefusedIffFull | src/control-plane/server.ts:160-169 | Over every history of requests, a request is refused exactly if it falls into a window that was opened for its key and is full |
| RateLimiter.AcceptedAfterQuiet | src/control-plane/server.ts:161-162 | Whoever has not been served for the length of a window is served, whatever the limit and whatever others did |
| RateLimiter.WaitingIsEnough | src/control-plane/server.ts:164 | Waiting as long as told suffices, and a second less does not unless the answer is one |
| MigrationEffort.AssessOperationalComplexity | src/optimizer/migration-estimate.ts:35-64 | The level and the yearly cost follow from the points of what is asked for, and the reasons are exactly those that apply |
| MigrationEffort.ComplexityInFigures | src/optimizer/migration-estimate.ts:39-57 | The points of each wish, the levels they reach and the hours they take, in figures |
| MigrationEffort.ComplexityIsMonotone | src/optimizer/migration-estimate.ts:39-57 | Asking for more never lowers the level or any part of the cost |
| MigrationEffort.Add | src/optimizer/migration-estimate.ts:82-89 | Adding a driver to whole and half hours is exact despite the rounding |
| MigrationEffort.AddCounts | src/optimizer/migration-estimate.ts:90-114 | The five counted drivers add up to the plain sum |
| MigrationEffort.AddScope | src/optimizer/migration-estimate.ts:115-126 | The four chosen drivers add up to the plain sum |
| MigrationEffort.LeastHours | src/optimizer/migration-estimate.ts:82-126 | The least hours in figures |
| MigrationEffort.LikelyHours | src/optimizer/migration-estimate.ts:82-126 | The likely hours in figures |
| MigrationEffort.MostHours | src/optimizer/migration-estimate.ts:82-126 | The most hours in figures |
| MigrationEffort.EstimateMigrationEffort | src/optimizer/migration-estimate.ts:66-145 | Fails exactly on a non-positive rate or a negative count; otherwise the hours are the unrounded closed form |
| MigrationEffort.EstimateIsOrdered | src/optimizer/migration-estimate.ts:128-144 | Hours, cost and risk allowance stay ordered from least to greatest |
| MigrationEffort.EstimateIsMonotone | src/optimizer/migration-estimate.ts:90-143 | Larger counts, choices or rates never make any part of the estimate smaller |
| EmailPricing.EstimateEmailPricing | src/optimizer/pricing.ts:115-201 | It fails exactly on a negative amount, a wrong override or a volume over the plan; what is incomplete names exactly what is missing; what is complete is the owner's amount or the catalog's |
| EmailPricing.CollectMissing | src/optimizer/pricing.ts:127-131 | Each input is listed exactly if it is missing, once, in the order of the source |
| EmailPricing.ShippedRules | src/optimizer/pricing.ts:13-94 | The shipped rules have positive steps and no negative price, take every volume, and only that of Postmark lacks a price for an address |
| EmailPricing.PricingIsMonotone | src/optimizer/pricing.ts:151-170 | More volume never costs less, and what has a price has one at every smaller volume |
| EmailPricing.PlanCostMonotone | src/optimizer/pricing.ts:101-108 | A plan's cost grows with the volume from its minimum |
| EmailPricing.StepsCover | src/optimizer/pricing.ts:105-107 | The overage is billed in the least number of steps that covers it |
| EmailPricing.PlanCostIs | src/optimizer/pricing.ts:101-108 | A volume costs the minimum and the price of each of the least steps that cover what is over |
| EmailPricing.ResendPrices | src/optimizer/pricing.ts:22-32 | The prices of Resend in figures |
| EmailPricing.SesPrices | src/optimizer/pricing.ts:43-62 | A month at SES in figures, with attachments and an address |
| EmailPricing.StaleIff | src/optimizer/pricing.ts:110-113 | A price is stale exactly if a date cannot be read or it is older than so many days |
| Recommendation.SavingsAreOrdered | src/optimizer/recommendation.ts:23-32 | Savings of ordered prices are ordered and not negative |
| Recommendation.ValueIsOrdered | src/optimizer/recommendation.ts:34-52 | So is their value after cost and risk |
| Recommendation.PaybackIsOrderedIff | src/optimizer/recommendation.ts:54-72 | The payback range is ordered exactly if no quotient exceeds the number that stands for never |
| Recommendation.EstimatesAreSound | src/optimizer/recommendation.ts:34-72 | Every migration estimate meets what these lemmas ask for |
| Recommendation.ReplacePaysBackWithinAYear | src/optimizer/recommendation.ts:155-173 | What is replaced has a likely payback under twelve months whatever the policy's limit, if costs are not negative |
| Recommendation.ReplaceIff | src/optimizer/recommendation.ts:74-193 | A replacement is advised exactly if prices are fresh, nothing is unknown, the required capabilities bear the status out and every clause of the policy holds |
| Recommendation.KeepIff | src/optimizer/recommendation.ts:74-193 | Keeping is advised exactly if the target is incompatible, or all is known and some clause of the policy is not met |
| Recommendation.InvestigateIff | src/optimizer/recommendation.ts:90-135 | A closer look is advised exactly if the status claims more than the capabilities show, or both prices are there and something is open |
| Recommendation.InsufficientDataIff | src/optimizer/recommendation.ts:116-135 | More data is asked for exactly if a price is missing and nothing else settles the question |
| Recommendation.AmountsAre | src/optimizer/recommendation.ts:23-52 | The savings and their value, from the prices and the costs at the opposite ends of their ranges |
| Recommendation.PaybackPaysBack | src/optimizer/recommendation.ts:54-72 | The months of payback times the yearly savings are twelve times what is spent |
| IconFile.BuildIco | scripts/generate-assets.ts:193-220 | Writes the file exactly if every number fits its field, and throws otherwise |
| IconFile.WriteHeader | scripts/generate-assets.ts:199-202 | The header of six bytes |
| IconFile.WriteEntry | scripts/generate-assets.ts:206-214 | A directory entry of sixteen bytes, written field by field |
| IconFile.EntrySelectsImage | scripts/generate-assets.ts:204-219 | The length and offset read from directory entry i select exactly the bytes of image i |
| IconFile.HeaderIsRead | scripts/generate-assets.ts:199-202 | The header tells the kind of file and the number of images |
| IconFile.PlanesAndBitsAreRead | scripts/generate-assets.ts:208-211 | Every entry tells of no palette, one plane and thirty-two bits |
| IconFile.FitsIff | scripts/generate-assets.ts:199-213 | What has to fit, in figures |
| IconFile.RegionsFillTheFile | scripts/generate-assets.ts:197-219 | The image regions follow one another without a gap from the directory to the end of the file |
| IconFile.ReadsBack | scripts/generate-assets.ts:212-213 | A little-endian field gives its number back |
| IconFile.DimensionsAreReadIff | scripts/generate-assets.ts:206-207 | A dimension is read back exactly if it is between one and 256 |

## Left out

- The web interface, HTTP routing, OAuth, cookies, webhooks, and the clients of GitHub, Sentry, S3, Infracost and Docker: input and output; their outcomes are parameters or steps anyone may take.
- The optimizer's detection patterns, label texts, reasons and checklists in words: regular expressions and prose.
- `localImportTargets`: an arbitrary function of a source, since it rests on a regular expression and path arithmetic.
- `monitorCi` against concurrent updates: its method is proved without interleaving; its single writes are steps of the protocol, and writes from an old listing are treated by `StaleMonitorReopensIff`.
- The file store's cancellation against concurrent updates: `FileControlPlaneStore.RequestCancellation` has nothing between its read and its write; the split is treated by `SplitCancellationIsAtomicIff`.
- Sessions, heartbeats, questions, knowledge and optimizer records of the store beyond what deletion removes: plain insertions and filters.
- The contents of receipts, attestations and specifications beyond the fields that the modelled code reads: they are JSON values.
- AttestationBundles.PayloadDetermines: the constant entries of the payload are an arbitrary function, because binding rests on the two entries that carry the root and the time.
- MigrationEffort.EstimateMigrationEffort: counts are integers, so the rejection of fractions is not modelled.
- EmailPricing.EstimateEmailPricing: a billed plan with an overage step of zero is not modelled, because the code then divides by zero; `ShippedRules` shows that the shipped plans have none.
- EmailPricing.PricingIsMonotone: volumes are integers, so the rejection of fractions is not modelled.
- AttestationBundles.AcceptedAttestationsWereSigned: signature entries that are not texts count as no signature, which the code would let its library reject.
- CiMonitor.MonitorCi: leaves out the log lines of the pass and the monitor without a GitHub client, which does nothing.
- RepairVerdict.RunRepair: leaves out the worktree, the agent and the safety check of the workspace, which only stop a run.
- CostReview.CostPassesIff: `normalizeInfracostOutput` is not part of this model, so its amounts are assumed not to be negative here; `CostPassesOnlyIf` does without.
- SchemaMigrations.ExecutedExactlyOnce: a migration's SQL and its record are one transaction, so SQL that commits on its own is not modelled.
- RateLimiter.WaitingIsEnough: is about a client that is alone in its bucket while it waits.
- Floating-point error: amounts are reals.
- Readiness checklists, compatibility catalogs, onboarding discovery and the steward: flat tables, or code that is not in the repository.
