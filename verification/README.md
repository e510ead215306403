# Models of the reference state machines and their text algorithms

The repository defines what its benchmarks mean by "correct" through a few small state
machines and algorithms. This project models them and proves what they promise, for every
input and over every run.

- **Catalog** (`Catalog.dfy`, `CatalogRuns.dfy`, `CatalogCommits.dfy`, `CatalogAnswers.dfy`):
  a table catalog with compare-and-swap on a metadata pointer, idempotent commits, hash-chained
  receipts, evidence logs, tombstones and restart.
- **Capability engine** (`Guard.dfy`, `GuardRuns.dfy`, `GuardDeath.dfy`, `GuardAnswers.dfy`,
  `GuardDecisions.dfy`): grants and their clearance lattice, minting, attenuation, revocation
  by id and by epoch, leases, guarded operations, audit.
- **Memory store** (`Memory.dfy`, `MemoryRuns.dfy`, `MemoryContents.dfy`, `MemoryTenants.dfy`,
  `MemoryWords.dfy`, `MemoryDecisions.dfy`): nonces, policy-filtered ranked recall, idempotent
  replacement, forgetting with its cascade.
- **Authentication and the agent tool** (`Identity.dfy`, `Authenticated.dfy`,
  `AuthenticatedRuns.dfy`, `AuthenticatedDecisions.dfy`, `Agent.dfy`, `AgentRuns.dfy`,
  `AgentDecisions.dfy`): the store behind registered identities, and behind the harness's tool
  contract.
- **Answer extraction and the agent loop** (`Json.dfy`, `Bridge.dfy`, `AgentLoop.dfy`,
  `AgentLoopBounds.dfy`, `AgentLoopTrace.dfy`, `AgentAnswers.dfy`): the bracket scanner, the
  final-answer parser and the bounded loop. JSON follows RFC 8259: strings section 7, numbers
  section 6, literals section 3, objects section 4, arrays section 5.
- **Tables and percentiles** (`Tables.dfy`, `RenderedTables.dfy`, `Percentile.dfy`): the
  cross-track table check and the nearest-rank percentile.
- `Ordering.dfy`, `Decimal.dfy` and `Wrappers.dfy` hold what these share: sorting and its
  uniqueness, decimal printing and its injectivity, options.

How it is built. Each machine has a state value, a `Step` function from a state and a call to
the next state and the answer, and a class whose methods update fields in place as the source
does; a method's contract ties its new state and its answer to `Step`. A run is any sequence of
calls, restarts included, from the initial state; `At(calls, i)` is the state before call `i`.
The other modules of a machine prove properties of all runs. Those named for answers and
decisions say exactly when each call succeeds, what it is told and what it changes, with every
test written out, so that they hold the transition functions to the source one operation at a
time.

Hashes and MACs are free terms over what they digest: equal digests have equal inputs. For the
capability engine a caller may present any capability whatever, except that an engine seal on
it must be one the engine has issued (`GuardRuns.Obtainable`); the fields around the seal are
arbitrary.

`{:induction false}` marks lemmas that Dafny need not try to prove by induction on its own, and
`hide` keeps the definitions a proof does not need out of its way.

## Where the code and its descriptions differ

The models follow the code.

- An idempotent commit retry is described as an exact retry (catalog `backend.py:147`); the code
  returns the stored outcome for any commit under that key, whatever it asks for, even after the
  table was dropped. `CatalogCommits.RetryOfAnotherRequest` gives a run,
  `CatalogCommits.RetryAttestsExactly` says exactly when the stored receipt is of the request.
- Creating an existing table resets it and reuses its first pointer, so a pointer identifies
  only the history since the last create: `CatalogCommits.RecreateReusesPointer` gives the run,
  `CatalogCommits.PointersEqualExactly` the exact extent.
- Attenuation is called strictly narrowing (capability `backend.py:197`); the code also allows
  equal grants and an equal lease. `GuardAnswers.AttenuationMayKeepAll` shows it on any live
  capability, `GuardAnswers.AttenuationIsStrict` says exactly when an attenuation is strict.
- A negative tick turns the clock back and revives expired capabilities: the run is
  `GuardDeath.ExpiredLease`, the exact conditions are `GuardDeath.TickKeepsDeath` and
  `GuardDeath.DeathKeptExactly`.
- Revoking by id does not cascade to derived capabilities: `GuardDeath.RevokeDoesNotCascade`
  shows it on any capability the engine accepts.
- A capability's fresh id may have been revoked before it is given out:
  `GuardDeath.FreshIdRevoked` gives the run, `GuardAnswers.FreshMintIsLive` the exact condition.
- An improve checks neither the tenant, space and size of the replacement nor the state of what
  it replaces: `MemoryContents.ImproveStoresAnything` and
  `MemoryContents.ImproveRevivesForgotten`; `MemoryContents.StoredInBounds` says exactly when
  what is stored lies within its actor's bounds.
- The adapter's listing never lists anything: `AgentRuns.ListIsEmpty`.
- A negative percentage can make Python's negative index wrap around:
  `Percentile.NegativePercentageWraps` gives an input, `Percentile.MonotoneExactly` the exact
  extent of monotonicity.

## Model

| member | source | states |
|---|---|---|
| CatalogRuns.ChainWellFormed | docs/book/code/catalog-provenance/catalog_provenance/backend.py:136-213 | in every reachable catalog the walk from a table's head receipt reaches the empty hash in exactly `snapshotId` steps (one more if dropped); every receipt on it verifies, names the table, counts snapshots down to 1 and links to the pointer the older one installed, the oldest to the creation pointer, and the newest commit installed the stored pointer |
| CatalogRuns.HeadDeterminesHistory | docs/book/code/catalog-provenance/catalog_provenance/backend.py:57-65 | tamper evidence: in any store of receipts whatever, if the walk from the head hash a reachable catalog recorded for a table verifies, it meets exactly the receipts that catalog recorded, in order, down to the table's creation |
| CatalogRuns.ReplayExact | docs/book/code/catalog-provenance/catalog_provenance/backend.py:215-218 | replay accepts a receipt if and only if some winning call of the run answered with that receipt, field for field |
| CatalogRuns.ReplayPermanent | docs/book/code/catalog-provenance/catalog_provenance/backend.py:215-228 | a receipt once accepted by replay is accepted in every later state, through restart, tombstone and re-creation |
| CatalogRuns.ReceiptDeterminesCall | docs/book/code/catalog-provenance/catalog_provenance/backend.py:157-166 | two winning calls, in any two states, that answer with the same receipt are the same call with the same arguments, nonce and principal included |
| CatalogRuns.ScanReceiptBindsPolicy | docs/book/code/catalog-provenance/catalog_provenance/backend.py:78-87 | a scan receipt verifies against a list of policy hashes if and only if that list is exactly the hash of the policy it was planned under |
| CatalogRuns.StepEvidence | docs/book/code/catalog-provenance/catalog_provenance/backend.py:144-213 | a winning call adds one entry to audit and outbox (and lineage, for a commit), all for its own verifying receipt, and touches no other table; every other call, rejected, retried, scan, replay or restart, leaves all of it unchanged |
| CatalogRuns.EvidenceConserved | docs/book/code/catalog-provenance/catalog_provenance/backend.py:168-181 | over any run one log of accepted transitions explains audit, outbox, lineage (its commits) and the receipt store's keys, entry for entry |
| CatalogRuns.OutcomesHonest | docs/book/code/catalog-provenance/catalog_provenance/backend.py:178-192 | whatever any call of any run answers, retries included, the evidence its flags claim is in the logs and its receipt is accepted by replay |
| CatalogCommits.OneWinnerPerPointer | docs/book/code/catalog-provenance/catalog_provenance/backend.py:149-155 | if two commits to a table win on the same expected pointer, a create of that table lies between them |
| CatalogCommits.PointersDistinct | docs/book/code/catalog-provenance/catalog_provenance/backend.py:157-172 | while a table is not created anew, its pointers at two moments are equal if and only if no commit to it won in between; the row below has the case with creates |
| CatalogCommits.PointersEqualExactly | docs/book/code/catalog-provenance/catalog_provenance/backend.py:136-172 | at any two moments, creates between or not, of one run or of two, pointers are equal if and only if they are of one table, as many commits to it have won since its last create and, if any has, the last one wrote the same |
| CatalogCommits.PointerIsHistory | docs/book/code/catalog-provenance/catalog_provenance/backend.py:136-172 | in every run a table's snapshot number is the count of the commits won since its last create, and its pointer the digest of that count and the last update |
| CatalogCommits.AssertionWinsExactly | docs/book/code/catalog-provenance/catalog_provenance/backend.py:144-155 | an assertion read at one moment wins at a later one if and only if the table is live, the call is within bounds and under no used key, and the history since the last create is alike: exactly when a stale assertion wins after a re-creation |
| CatalogCommits.RecreateReusesPointer | docs/book/code/catalog-provenance/catalog_provenance/backend.py:136-139 | the smallest run in which a table created again lets a second commit win on the same pointer |
| CatalogCommits.KeyWinsOnce | docs/book/code/catalog-provenance/catalog_provenance/backend.py:146-182 | after a commit wins under a non-empty key no later commit with it wins or changes anything, and each that is not oversized gets the first outcome back, across restarts and drops |
| CatalogCommits.RetryAttestsExactly | docs/book/code/catalog-provenance/catalog_provenance/backend.py:146-182 | the receipt a commit under a used key gets back carries that call's request hash, principal and policy hash if and only if the call repeats the first one in every argument |
| CatalogCommits.RetryOfAnotherRequest | docs/book/code/catalog-provenance/catalog_provenance/backend.py:146-148 | a run in which a request for another table, by someone else and after a drop, is told it succeeded |
| CatalogAnswers.CommitAnswersExactly | docs/book/code/catalog-provenance/catalog_provenance/backend.py:144-182 | after any run a commit is told ok if and only if it wins (table standing, expected pointer that of the history, at most 4,096 characters, key unused) or is within the bound under a key an earlier commit won with; a win gets its receipt, spelled out, and all flags; a refusal gets the first failed test's error and nothing else |
| CatalogAnswers.ScanAnswersExactly | docs/book/code/catalog-provenance/catalog_provenance/backend.py:184-192 | a scan is told ok if and only if the table stands; its receipt names the reader, the policy's hash and the current snapshot |
| CatalogAnswers.DropAnswersExactly | docs/book/code/catalog-provenance/catalog_provenance/backend.py:194-213 | a drop is told ok if and only if the table stands, with its receipt spelled out and audit and outbox claimed, not lineage |
| CatalogAnswers.PlainAnswers | docs/book/code/catalog-provenance/catalog_provenance/backend.py:136-139 | creates and restarts succeed without evidence; a replay succeeds if and only if the run has answered with that receipt |
| CatalogAnswers.TableIsHistory | docs/book/code/catalog-provenance/catalog_provenance/backend.py:136-213 | a table is known if and only if it was created, and its entry is its history: pointer, snapshot number and head receipt since the last create, and dropped if and only if a drop came after it |
| CatalogAnswers.KeysAreWins | docs/book/code/catalog-provenance/catalog_provenance/backend.py:146-182 | a key is stored if and only if it is not empty and a commit of the run won under it |
| Catalog.ReferenceCatalog.CommitTo | docs/book/code/catalog-provenance/catalog_provenance/backend.py:141-182 | the commit performed in place, through the table entry and the logs, moves the catalog to the state the transition function gives and answers as it does |
| Catalog.ReferenceCatalog.Drop | docs/book/code/catalog-provenance/catalog_provenance/backend.py:194-213 | the tombstone performed in place agrees with its transition function in state and answer |
| Catalog.ReferenceCatalog.Create | docs/book/code/catalog-provenance/catalog_provenance/backend.py:136-139 | a create installs a fresh entry, replacing any existing one, and leaves the logs alone |
| Catalog.ReferenceCatalog.Scan | docs/book/code/catalog-provenance/catalog_provenance/backend.py:184-192 | a scan answers as the transition function says and changes nothing |
| Catalog.ReferenceCatalog.Replay | docs/book/code/catalog-provenance/catalog_provenance/backend.py:215-218 | replay answers whether the receipt verifies and is recorded |
| Catalog.ReferenceCatalog.Restart | docs/book/code/catalog-provenance/catalog_provenance/backend.py:220-228 | a restarted catalog is a new object with new table entries and the same durable state; the one it was made from is untouched |
| GuardRuns.ImpliedTransitive | docs/book/code/capability/capability_adversarial/backend.py:70-77 | grants implied by grants that are themselves implied by a root are implied by the root, reads going through the ceiling |
| Guard.ReadCeiling | docs/book/code/capability/capability_adversarial/backend.py:61-67 | the max loop finds the highest level among the read grants, or -1 |
| Guard.Ceiling | docs/book/code/capability/capability_adversarial/backend.py:61-67 | the ceiling bounds every read grant and is one of them unless it is -1 |
| GuardRuns.AcceptedDescendsFromMint | docs/book/code/capability/capability_adversarial/backend.py:164-215 | over any run and for any presented capability with a seal its holder could have: if the engine accepts it, it goes back through finitely many attenuations to one mint of the run, is no wider, longer-lived or elsewhere than that mint, and all its grants are covered by what that mint call itself asked for, all of which the policy then allowed |
| GuardRuns.MintAnswers | docs/book/code/capability/capability_adversarial/backend.py:180-193 | a mint, or a request the wire check lets through, succeeds if and only if the policy allows every grant asked for; the capability then has exactly those grants, sorted, the call's subject, resource and operation, the end of its lease, the current epoch, the next identifier and its seal |
| GuardRuns.RevealWasAllowed | docs/book/code/capability/capability_adversarial/backend.py:227-238 | cleartext is handed out only under a read, at the value's label or above, that the mint of that authority asked for and the policy then allowed |
| GuardAnswers.FreshMintReveals | docs/book/code/capability/capability_adversarial/backend.py:180-238 | the other direction: a reveal under a fresh mint hands out the cleartext if and only if its lease is positive, its id was not revoked beforehand and one of its grants reads the label |
| GuardAnswers.CleartextWasAllowed | docs/book/code/capability/capability_adversarial/backend.py:227-290 | over every call of every run, not reveals only: an answer that carries anything but the redaction marker is a reveal's, is the cleartext of its value, and was covered by the policy in force when that authority was minted |
| GuardAnswers.CapabilityWasMinted | docs/book/code/capability/capability_adversarial/backend.py:180-280 | over every call of every run: a capability that any answer carries is bounded by a mint of the run so far, and that mint was no request with an unknown field |
| GuardRuns.DeclassifyWasAllowed | docs/book/code/capability/capability_adversarial/backend.py:240-249 | declassification succeeds only for a resource, and under a declassify grant, that a mint asked for and the policy then allowed |
| GuardRuns.InvokeWasAllowed | docs/book/code/capability/capability_adversarial/backend.py:251-267 | a tool runs only for the resource and operation its authority was minted for, by a mint that asked for that tool outright under a policy that allowed it |
| GuardAnswers.AttenuationIsStrict | docs/book/code/capability/capability_adversarial/backend.py:195-215 | an attenuation that succeeds is strictly narrower than its parent if and only if it asks for an earlier end or for grants that leave some grant of the parent uncovered |
| GuardAnswers.AttenuationMayKeepAll | docs/book/code/capability/capability_adversarial/backend.py:195-215 | every live capability can be attenuated to one with the same grants and the same end |
| GuardDecisions.AcceptedExactly | docs/book/code/capability/capability_adversarial/backend.py:164-177 | over any run the engine accepts what is presented if and only if it is a capability it issued, its id was never revoked, no general revocation came since its epoch, and the ticks add up to less than its end |
| GuardDecisions.AttenuateAnswers | docs/book/code/capability/capability_adversarial/backend.py:195-215 | an attenuation succeeds if and only if the parent is accepted, covers every grant asked for and ends no earlier; the derived capability has exactly what was asked; otherwise it answers the first failed test |
| GuardDecisions.RevealAnswers | docs/book/code/capability/capability_adversarial/backend.py:227-238 | a reveal succeeds if and only if the capability is accepted, for the resource, and holds a grant that reads the label; every other answer, the exception for an unknown label included, with its audit entry |
| GuardDecisions.DeclassifyAnswers | docs/book/code/capability/capability_adversarial/backend.py:240-249 | a declassification succeeds if and only if the capability is accepted, for the resource, and holds the grant; every other answer with its audit entry |
| GuardDecisions.InvokeAnswers | docs/book/code/capability/capability_adversarial/backend.py:251-267 | a tool runs if and only if the capability is accepted, holds the tool's grant and is for that resource and operation; every refusal with its reason and audit entry |
| GuardDecisions.OtherAnswers | docs/book/code/capability/capability_adversarial/backend.py:269-280 | a request with an unknown field is refused and logged with the fields in order, one that lacks a field raises, and the setters log revocations only |
| GuardDecisions.Clearance | docs/book/code/capability/capability_adversarial/backend.py:45-67 | three labels, public below internal below sensitive; a read grant reads up to its label and nothing else reads |
| GuardDecisions.ImpliedExactly | docs/book/code/capability/capability_adversarial/backend.py:70-77 | a read is implied if and only if a read at least as high is held, any other grant if and only if it is held itself |
| GuardDecisions.PolicyIsHistory | docs/book/code/capability/capability_adversarial/backend.py:149-150 | what a subject may be minted on a resource is what the last policy call for them granted |
| GuardDecisions.StateIsHistory | docs/book/code/capability/capability_adversarial/backend.py:139-153 | the clock is the ticks added up, the epoch the number of general revocations, the revoked ids those of the revocations made |
| GuardDecisions.CapIdExactly | docs/book/code/capability/capability_adversarial/backend.py:155-157 | identifiers are cap- and the count in decimal, zeros in front up to four digits |
| GuardDeath.DeathIsPermanent | docs/book/code/capability/capability_adversarial/backend.py:164-177 | a capability once refused is refused at every later moment whose clock is not behind, whatever the ticks in between |
| GuardDeath.RevocationIsPermanent | docs/book/code/capability/capability_adversarial/backend.py:171-174 | a capability refused because it is forged or revoked, by id or by epoch, is refused for ever, whatever the clock does |
| GuardDeath.RevivalIsTheClock | docs/book/code/capability/capability_adversarial/backend.py:152-177 | a capability refused at one moment of a run is accepted at a later one if and only if its lease had ended, the clock is then back before its end, and nothing revoked it |
| GuardDeath.DeathKeptExactly | docs/book/code/capability/capability_adversarial/backend.py:152-177 | between two moments of a run every capability that could be presented and was refused stays refused if and only if no issued, unrevoked capability has its lease end between the later clock and the earlier one |
| GuardDeath.TickKeepsDeath | docs/book/code/capability/capability_adversarial/backend.py:152-153 | a tick revives nothing that could be presented, after any run, if and only if it is not negative |
| GuardDeath.ExpiredLease | docs/book/code/capability/capability_adversarial/backend.py:152-193 | the run that shows it: grant, mint with a lease of one, tick once; the issued capability is refused, and accepted again after any tick back |
| GuardDeath.RevokeIsPrecise | docs/book/code/capability/capability_adversarial/backend.py:155-157 | revoking one issued capability's id kills it and changes the verdict on no other issued capability: identifiers are injective in the counter |
| GuardDeath.RevokeDoesNotCascade | docs/book/code/capability/capability_adversarial/backend.py:195-220 | over any run, attenuating any capability the engine accepts and then revoking it leaves it refused and the derived one accepted, if and only if the id the derived one got had not been revoked in advance |
| GuardDeath.RevokeAllKills | docs/book/code/capability/capability_adversarial/backend.py:222-224 | after a revoke_all every capability issued before it, and every descendant ever issued from one, is refused |
| GuardDeath.LiveAncestors | docs/book/code/capability/capability_adversarial/backend.py:195-220 | a live capability's ancestor is live unless its own id was revoked: unexpired and of a live epoch in every case |
| GuardAnswers.FreshMintIsLive | docs/book/code/capability/capability_adversarial/backend.py:180-193 | a fresh mint is accepted if and only if its lease is positive and its id was not revoked in advance |
| GuardDeath.FreshIdRevoked | docs/book/code/capability/capability_adversarial/backend.py:155-220 | a feasible run, grant, revoke the first id, mint, in which the engine gives out a capability it refuses |
| GuardAnswers.AuditIsHonest | docs/book/code/capability/capability_adversarial/backend.py:159-161 | the audit log only grows, by at most one entry a call, and an outcome claims an entry exactly when one was written; an exception changes nothing |
| GuardAnswers.SmuggledRequestsErase | docs/book/code/capability/capability_adversarial/backend.py:269-280 | taking every request with an unknown field out of a run changes the answer of no other call, then or later, and nothing of the state but the audit log |
| Guard.Engine.Check | docs/book/code/capability/capability_adversarial/backend.py:164-177 | verification's chain of tests answers the five-part predicate: present, sealed, not revoked, of a live epoch, unexpired |
| Guard.Engine.MintCapability | docs/book/code/capability/capability_adversarial/backend.py:180-193 | minting in place agrees with its transition function in state, answer and audit entry |
| Guard.Engine.AttenuateCapability | docs/book/code/capability/capability_adversarial/backend.py:195-215 | attenuation in place agrees with its transition function in every branch |
| Guard.Engine.RevealValue | docs/book/code/capability/capability_adversarial/backend.py:227-238 | reveal in place agrees with its transition function, an unknown label raising as the source does |
| Guard.Engine.InvokeTool | docs/book/code/capability/capability_adversarial/backend.py:251-267 | invoke in place agrees with its transition function in every branch |
| Guard.Engine.RestartEngine | docs/book/code/capability/capability_adversarial/backend.py:282-290 | a restarted engine is a new object with the same durable state |
| MemoryRuns.RecallExact | adversarial_cognition/backend.py:142-160 | over any run an unreplayed recall within the query bound answers exactly the current, authorised, in-window memories with a positive score, each once, by falling score and then id |
| MemoryRuns.ExactRankingUnique | adversarial_cognition/backend.py:159 | that description has one answer: two decisions that meet it have the same ids in the same order |
| MemoryRuns.RecallCanonical | adversarial_cognition/backend.py:142-160 | two stores that agree on what the actor may see give the same ids and the same receipt, whatever their insertion orders and whatever else they hide |
| MemoryRuns.WordsSplit | adversarial_cognition/backend.py:53-54 | the words of a text joined across a non-token character are the union of the words of its parts |
| MemoryRuns.TokensOfJoined | adversarial_cognition/backend.py:53-54 | the tokenizer gives back any list of tokens joined by spaces |
| MemoryRuns.QueryOrderIrrelevant | adversarial_cognition/backend.py:142-160 | two queries within the bound made of the same space-joined parts, in any order and with any repetition, get the same ids, receipt and state |
| MemoryWords.WordsExactly | adversarial_cognition/backend.py:53-54 | a text's words are its maximal runs of letters and digits, in lower case |
| MemoryWords.ScoreExactly | adversarial_cognition/backend.py:156 | a memory's score is the number of words it shares with the query |
| Ordering.LexExactly | adversarial_cognition/backend.py:159 | ids that score alike are in the order of their code points: a prefix first, else by the first difference |
| MemoryDecisions.RecallExactly | adversarial_cognition/backend.py:142-160 | after any run a recall is allowed if and only if its nonce is fresh and its query within 4,096 characters; it returns exactly the current memories of the actor's tenant, space and purpose, within its clearance and window, that share a word, ranked by shared words and then id, with that ranking in its receipt |
| MemoryRuns.ForgetIsOneHop | adversarial_cognition/backend.py:187-197 | an allowed forget marks its target and every memory that lists it, and nothing else: one hop |
| MemoryRuns.ForgottenIsNotRecalled | adversarial_cognition/backend.py:187-206 | after an allowed forget its target, and whatever then listed it as a source, is in no later recall by anyone until a current memory is stored under that id |
| MemoryDecisions.ForgetExactly | adversarial_cognition/backend.py:187-197 | after any run a forget is allowed if and only if its nonce is fresh, its actor may mutate and the target is stored with the actor's tenant, space and purpose and within its clearance; it then changes the target and what lists it, and any other forget changes no memory |
| MemoryDecisions.ForgottenHasCause | adversarial_cognition/backend.py:187-197 | over runs a memory is Forgotten only because such a forget reached it or it was stored so |
| MemoryRuns.RetiredStays | adversarial_cognition/backend.py:149-197 | a memory that is not current stays so after a call if and only if the call does not store a current memory under its id |
| MemoryContents.StoredHasOrigin | adversarial_cognition/backend.py:129-185 | no write-up, over any run: whatever the store holds was stored by some call of the run, unchanged but for its retirement, by an actor who may mutate and is cleared for it; by a remember, also within its own tenant and space and the size bound |
| MemoryDecisions.RememberExactly | adversarial_cognition/backend.py:129-140 | after any run a remember is allowed if and only if its nonce is fresh, its actor may mutate, the text is within 4,096 characters and the memory of the actor's tenant and space and within its clearance; every error, and exactly what is stored |
| MemoryDecisions.ImproveExactly | adversarial_cognition/backend.py:162-185 | after any run an improve gets the earlier decision under a used key, and otherwise goes through if and only if the digest is the one expected, the memory the actor's and the replacement within its clearance; every error, and exactly what changes |
| MemoryContents.StoredIsRecalled | adversarial_cognition/backend.py:129-185 | what a remember or an improve stored is in a later allowed recall if and only if that actor may see it at that date and the query shares a word with it, until a call changes that id |
| MemoryContents.SupersededIsNotRecalled | adversarial_cognition/backend.py:180-181 | after an improve the memory it replaced is in no recall until a current memory is stored under that id |
| MemoryContents.StoredInBounds | adversarial_cognition/backend.py:132-138 | a stored memory lies in its actor's own tenant, space and size bound if and only if the call was a remember, or an improve whose replacement does |
| MemoryContents.ConfinedStore | adversarial_cognition/backend.py:129-185 | in a run whose improves all have such replacements, whatever is stored lies within the bounds of an actor who stored it |
| MemoryContents.ImproveStoresAnything | adversarial_cognition/backend.py:175-181 | without that, an improve stores any replacement its actor is cleared for, whatever its tenant, space, purpose, size or state |
| MemoryContents.ImproveRevivesForgotten | adversarial_cognition/backend.py:175-181 | nor is the state of what is replaced checked: remember, forget and improve under the same id make a forgotten memory current again |
| MemoryTenants.GroupsDoNotInterfere | adversarial_cognition/backend.py:114-206 | non-interference over whole runs: if everyone keeps to the dids, tenants, ids and idempotency keys of one of two groups, each call of a group is answered as if the other group's calls and the restarts had never been made |
| MemoryTenants.SharedIdInterferes | adversarial_cognition/backend.py:138 | without that it fails: an actor of another tenant that stores its own memory under an id in use takes the first memory away from its owner |
| MemoryRuns.NoncesAreBurned | adversarial_cognition/backend.py:114-119 | the claimed (did, nonce) pairs are exactly those of the calls made so far |
| MemoryRuns.NonceWorksOnce | adversarial_cognition/backend.py:114-143 | a later call with a did and nonce already used is refused as a replay and changes nothing |
| MemoryRuns.ImproveIsIdempotent | adversarial_cognition/backend.py:171-185 | once an improve has gone through under a key, every later improve under it by a mutating actor with a fresh nonce gets the same decision and moves only the nonces |
| Memory.AdversarialBackend.RememberMemory | adversarial_cognition/backend.py:129-140 | remember in place agrees with its transition function in state and decision |
| Memory.AdversarialBackend.RecallIds | adversarial_cognition/backend.py:142-160 | the collecting loop and the sort answer as the transition function says and change only the nonces |
| Memory.AdversarialBackend.ImproveMemory | adversarial_cognition/backend.py:162-185 | improve in place agrees with its transition function, an overwrite of the same id included |
| Memory.AdversarialBackend.ForgetMemory | adversarial_cognition/backend.py:187-197 | forget and its cascade loop over a snapshot of the store agree with the one-hop map |
| Memory.AdversarialBackend.RestartBackend | adversarial_cognition/backend.py:199-206 | a restarted store is a new object with the same memories, nonces and idempotency records |
| AuthenticatedRuns.Refines | adversarial_cognition/backend_v2.py:48-105 | any run of the authenticated backend leaves its core exactly as the run of the bare store with unauthenticated calls erased and each other call made by the registered actor |
| AuthenticatedRuns.AnswersRefine | adversarial_cognition/backend_v2.py:67-105 | each answer is the bare store's answer to the actor built from the record whose did is the caller's; a caller who does not authenticate is denied, burns no nonce and changes no state |
| AuthenticatedRuns.RecalledIsAuthorized | adversarial_cognition/backend_v2.py:75-81 | every recalled memory is current, in its window and authorised under the registered tenant, space, clearance and purpose of an authenticated caller |
| AuthenticatedDecisions.ForgetExactly | adversarial_cognition/backend_v2.py:101-105 | a forget is allowed if and only if the caller is registered with its own credential, the nonce is free, and the registry's record may mutate and has the target's tenant, space and purpose and enough clearance |
| AuthenticatedDecisions.RememberExactly | adversarial_cognition/backend_v2.py:67-73 | a remember is allowed if and only if the registered record, field by field, lets it store that memory; and exactly what is stored |
| AuthenticatedDecisions.ImproveExactly | adversarial_cognition/backend_v2.py:83-99 | an improve is allowed if and only if the registered record may mutate and its key is used or the target is the record's and as expected |
| AuthenticatedDecisions.RecallExactly | adversarial_cognition/backend_v2.py:75-81 | a recall returns exactly the current memories the registered record owns whose window the date is in and that share a word with the query |
| AuthenticatedDecisions.StrangersAreDenied | adversarial_cognition/backend_v2.py:70-72 | anyone not registered with that credential is denied, whatever the request, and changes nothing |
| AuthenticatedDecisions.RegistryIsHistory | adversarial_cognition/backend_v2.py:27-43 | the registry holds the four principals, attributes spelled out, and the last record enrolled under each did |
| AuthenticatedRuns.RunFiled | adversarial_cognition/identity.py:53-57 | every record of every reachable registry is filed under its own did |
| Identity.IdentityRegistry.Register | adversarial_cognition/identity.py:53-60 | registering files the record under its did and issues that did's credential |
| Identity.IdentityRegistry.Open | adversarial_cognition/identity.py:62-70 | a session opens exactly for a registered did presenting its own credential, with its record |
| Authenticated.AuthenticatedBackend.constructor | adversarial_cognition/backend_v2.py:38-43 | the backend starts with an empty core, the four principals registered and a credential for each |
| Authenticated.AuthenticatedBackend.ForgetMemory | adversarial_cognition/backend_v2.py:101-105 | the wrapper's forget agrees with its transition function |
| AgentRuns.Refines | adapters/agent_backends/marciana_agent.py:39-46 | the adapter's backend is the authenticated backend after exactly the calls made since the last reset |
| AgentRuns.NeverRefusedAsReplay | adapters/agent_backends/marciana_agent.py:61-113 | no tool call of any run, whatever the session, is refused as a nonce replay: the next nonce is always unclaimed |
| AgentRuns.RunSpent | adapters/agent_backends/marciana_agent.py:61-63 | the core's nonces always lie among those the counter has already given out |
| AgentRuns.SessionsLast | adapters/agent_backends/marciana_agent.py:45-59 | whoever authenticates once authenticates in every state, across restarts and resets |
| AgentRuns.ReadRows | adapters/agent_backends/marciana_agent.py:83-97 | a successful read has one row per recalled id, in order, with the first 200 characters of the stored text |
| AgentDecisions.WrittenIsRead | adapters/agent_backends/marciana_agent.py:65-97 | after a write that succeeds, a later successful read by anyone returns its id if and only if the query shares a word with the written text, the day is in the written window or its defaults, and the reader has the store's tenant, space and purpose and clearance three for a private write, one otherwise; until that id is disturbed; and the row has the first 200 characters written |
| AgentDecisions.WriteExactly | adapters/agent_backends/marciana_agent.py:65-81 | a write succeeds if and only if the session is a principal's of the store's tenant and space, cleared for a private write or not, and the text is within bounds; every error, and exactly the memory stored |
| AgentDecisions.ReadExactly | adapters/agent_backends/marciana_agent.py:83-97 | a read succeeds if and only if the session is a principal's and the query within bounds, and returns exactly what is readable to it |
| AgentDecisions.DeleteExactly | adapters/agent_backends/marciana_agent.py:99-105 | a delete succeeds if and only if the session is a principal's that owns what is stored under the id |
| AgentDecisions.StrangersFail | adapters/agent_backends/marciana_agent.py:65-113 | with no session or one that is no principal's a tool call fails and changes no memory |
| AgentRuns.DeletedIsNotRead | adapters/agent_backends/marciana_agent.py:83-105 | after a delete that reports success its target, and what was derived from it, is in no later read by anyone until a write of that id succeeds |
| AgentRuns.ListIsEmpty | adapters/agent_backends/marciana_agent.py:107-113 | listing always succeeds with no ids, since the empty query scores nothing |
| Agent.MarcianaAgentBackend.ReadMemories | adapters/agent_backends/marciana_agent.py:83-97 | the read tool in place, nonce counter and row loop included, agrees with its transition function |
| Agent.MarcianaAgentBackend.OpenSession | adapters/agent_backends/marciana_agent.py:54-59 | a session is opened for exactly the credential the registry issued to that did |
| Bridge.ExtractUndoesStringify | adapters/letta/bridge.js:50-80 | for every prose without an opening bracket, every list of strings and every suffix, the scanner recovers the first eight strings of the printed array |
| Bridge.ExtractsFirstArray | adapters/letta/bridge.js:50-80 | the same for any JSON spelling of the array: whatever white space, escapes and brackets inside strings it has |
| Bridge.ScanReachesClose | adapters/letta/bridge.js:56-68 | started at an array's opening bracket the scanner arrives at exactly that array's own closing bracket |
| Bridge.SkipValue | adapters/letta/bridge.js:56-68 | over any JSON value inside an array the quote, escape and depth scanner is back at the same depth, outside any string |
| Bridge.ExtractExact | adapters/letta/bridge.js:50-80 | the whole contract, on every text: the first eight strings of the leftmost JSON array of strings that stands in it, and nothing when none stands |
| Bridge.IdsFrom | adapters/letta/bridge.js:50-80 | the two nested loops compute the extraction function |
| Json.ParseUndoesStringify | adapters/letta/bridge.js:70 | reading back a printed array of any strings, lone surrogates included, gives those strings, in JavaScript's and Python's dialects |
| AgentLoopBounds.ParseFinalRecovers | agent_harness/loop.py:42-72 | an array in prose with no '[' before it and no ']' after it is recovered exactly, unless the prose makes the whole answer some other JSON value, in which case the answer is an abstention |
| AgentLoopBounds.ParseFinalUndoesStringify | agent_harness/loop.py:42-72 | a printed array of any strings, bare or in such prose, gives its first eight strings, each cut to 64 characters, unless the prose makes the whole answer some other JSON value |
| AgentLoopBounds.ParseFinalBounded | agent_harness/loop.py:68-72 | an answer never has more than eight ids or an id of more than 64 characters |
| AgentAnswers.ParseFinalExactly | agent_harness/loop.py:49-72 | on every text: bare of blanks it is read as JSON, or when it is no JSON text what is between its outermost brackets is; an array gives its ids and anything else none |
| AgentAnswers.AnswerIdsExactly | agent_harness/loop.py:68-72 | an answer's ids are those of the first eight items that can be shown, in order, each cut to 64 characters |
| AgentAnswers.IntegersAreShown | agent_harness/loop.py:69-70 | an integer, -0 included, is shown as it is printed in decimal |
| AgentAnswers.OthersAreShown | agent_harness/loop.py:69-70 | strings are shown as they are and booleans as Python prints them; everything else is left out |
| AgentLoopBounds.OperationBounded | agent_harness/loop.py:79-120 | for every transport and backend at most six transcripts are sent, each of at most 24,000 characters, each extending the one before and all starting with the same two messages; ids come only from the last reply, one that asked for no tool |
| AgentLoopTrace.OperationIsConversation | agent_harness/loop.py:79-120 | every operation is a conversation: each transcript is the one before, the model's content and one tool message per call with the first 2,000 characters of that call's own result; it ends with a parsed answer, a transport error cut to 256 characters, or the budget, the latter if and only if the next transcript exceeds 24,000 characters or six turns have passed |
| AgentLoopTrace.ConversationUnique | agent_harness/loop.py:79-120 | a world and an opening determine that conversation and its result |
| AgentLoopTrace.CharsAdd | agent_harness/loop.py:75-76 | a transcript costs the lengths of its contents added up |
| AgentLoop.RunOperation | agent_harness/loop.py:79-120 | the turn loop, with its appends and early returns, computes the loop function and sends exactly its transcripts |
| AgentLoop.TranscriptChars | agent_harness/loop.py:75-76 | the sum of the content lengths |
| Tables.AssertNoCrossTrackTable | render_results.py:150-175 | the streaming check raises if and only if some maximal block of table rows, one ending with the document included, has cells naming executed systems of two tracks; it then names, in order, all the tracks of the first such block |
| RenderedTables.ReportIsCaught | render_results.py:82-175 | for a rendered report, rows, header rules and other lines, the check's condition for raising holds if and only if some table of it names, in the cells of its rows or the dashes of its rules, executed systems of two tracks |
| RenderedTables.CellsOfRow | render_results.py:129 | splitting a rendered row gives back the pieces of its cells, one to a cell that has no bar, each between its two spaces |
| RenderedTables.LineNames | render_results.py:158-173 | a rendered line is read as a row if and only if it is a row or a rule, and the check finds in it exactly the names it was given |
| RenderedTables.LinesOfDocument | render_results.py:171 | splitting a joined document gives back its lines |
| Tables.SystemTracks | render_results.py:137-147 | the executed systems, each with its stamped or derived track |
| Tables.TracksExactly | render_results.py:137-147 | a system has a track if and only if it was executed: the stamped one, else agent-memory for an agent loop and memory-store otherwise |
| RenderedTables.SplitLinesExactly | render_results.py:171 | on every text the lines are what lies between its line breaks, a carriage return and line feed counting as one |
| RenderedTables.SplitExactly | render_results.py:162 | cells cut a row at every bar |
| RenderedTables.IsRowExactly | render_results.py:172 | a line is a row if and only if its first character that is no blank is a bar |
| Percentile.PercentileIsOrderStatistic | adversarial_cognition/metrics.py:24-29 | the result is one of the values, with at most `Rank` values below it and more than `Rank` up to it: a description without sorting |
| Percentile.OrderStatisticUnique | adversarial_cognition/metrics.py:24-29 | that description has one answer |
| Percentile.RankInside | adversarial_cognition/metrics.py:28 | on [0, 100] the rank is inside the list and within one half of p(n-1)/100, an exact half going to the even rank |
| Percentile.RankNearest | adversarial_cognition/metrics.py:28 | up to 100 the rank is the nearest, ties to even, and above it is the last |
| Percentile.NegativeRankCountsBack | adversarial_cognition/metrics.py:28-29 | a negative rank within the list gives the order statistic that many from the end |
| Percentile.PercentileMonotone | adversarial_cognition/metrics.py:24-29 | from the first percentage on whose rank is not negative, with no upper bound, a higher percentage never gives a smaller value |
| Percentile.RankNotNegative | adversarial_cognition/metrics.py:28 | the rank is not negative if and only if p(n-1) is at least -50 |
| Percentile.MonotoneExactly | adversarial_cognition/metrics.py:24-29 | on lists of n values the percentile is monotone from a percentage on if and only if that percentage times (n-1) is at least -50: below it some list of that very length breaks it |
| Percentile.PercentileExtremes | adversarial_cognition/metrics.py:24-29 | 0 gives the minimum and 100, or anything above, the maximum |
| Percentile.PercentileIgnoresOrder | adversarial_cognition/metrics.py:27 | the order of the values does not matter, at any percentage |
| Percentile.NegativePercentageWraps | adversarial_cognition/metrics.py:28-29 | an input beyond that limit: -100 percent of a list of two gives its maximum and 0 percent its minimum |
| Percentile.IndexErrorExactly | adversarial_cognition/metrics.py:28-29 | the subscript is out of range if and only if p(n-1) is below -100n - 50, or equal to it with n odd |

## Left out

- Bit-level SHA-256 and HMAC and the byte layout of what they digest: digests and MACs are free
  terms, so their injectivity is built in and collisions do not exist; a caller who spells a
  digest out passes that term, of 71 characters in the catalog. `Agent.Sha`, the digest of a
  written text, is an injective stand-in; nothing else about it is used.
- Who can learn a seal: `GuardRuns.Obtainable` states what a caller may present; how a seal could
  leak from a holder is outside the model.
- Identity.IdentityRegistry.Open: does not model the TypeError that comparing digests raises for
  a registered did when the presented text has non-ASCII characters; the model answers None.
- Full Unicode lower-casing in the tokenizer: `lower` is ASCII and leaves every other character
  as it is, none of which is part of a token.
- Calendar dates are day numbers; parsing ISO dates, and its errors, in the agent adapter.
- Python values outside the declared types (a receipt field that is no string, a grant that is
  no text, a message content that is no string, a missing key of the transport's reply).
- The recursion limit and the digit limit of Python's JSON reader, and its handling of numbers
  beyond their spelling: an integer is kept as the text it was written as.
- Floating-point rounding in `percentile`: percentages and values are exact reals.
- `JSON.parse` and `json.loads` belong to their languages: they are modelled after RFC 8259, and
  only reading back printed strings and integers is proved of the readers themselves.
- The adapter's `provision`, which renames the credentials the registry issued.
- The transport, the tool dispatch and the backend behind the agent loop: arbitrary functions of
  the turn, the transcript and the call. The exception path of a transport is its `Failed` reply.
- A dictionary's iteration order is modelled for the memory store only, where recall could
  depend on it; the report's systems are a map.
- The seeded memories: ordinary remember calls, so every run property covers them.
- The rest of the report renderer (only its row and document joining is modelled), the other
  functions of `metrics.py` and `tracks.py`, the rest of the Letta bridge.
- The vendored copies of the memory store under `docs/book/code/cognition`, the adapters to other
  products, the fixed case corpora and gates, corpus loaders, command lines, files and the
  network: plumbing or finite tables.
- `sanitize_links.py`: it is not idempotent on nested brackets, and nothing modelled here uses it.
- Unconditional non-interference between tenants: it is false, since the code shares ids and
  idempotency keys between them (`MemoryTenants.SharedIdInterferes`);
  `MemoryTenants.GroupsDoNotInterfere` has the condition.
- RenderedTables.ReportIsCaught: does not cover a row whose cell has a line break of its own, such
  as an error detail of several lines; `Tables.AssertNoCrossTrackTable` covers such documents.
