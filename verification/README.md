# Backoffice control plane: a verified model

A model of the stateful and parsing core of the operator backoffice: the session store and its two
backends, the JSON checks around sign-in and signing, the audit chain, the signing key ring, the
pending logins, the draft reports, and the operator contract that the server checks and relays and
the browser checks again. `dafny verify dfyconfig.toml` checks everything below.

## How it is organised

**Operator sessions.** `SessionRecords` has the record, the table and the two orders rows are listed
in; `SessionSteps` says, command by command, what the store does. `MemorySessionStore` is the class
with its two maps, updated in place; `SqlSessionStore` is the set of single-snapshot statements with
SQL's three-valued logic. Both are proved to act as the same step, so `SessionBackends` can relate
whole runs. `SessionFields` says what each command does record by record and field by field.
`SessionRuns` proves what every run keeps. `SubjectLock` and `TombstoneBound` are the write protocol of
several instances over one database, as a state machine over begin, lookup, lock, statement and commit;
`SerialRuns` proves that its transactions, run alone, are the store's own statements.

**JSON.** `JsonText` is the grammar of RFC 8259 as trees that remember how they were written, over
UTF-16 code units; `JsonGrammar` proves that a text is written by one tree only, and `JsonLiterals` what
each literal stands for. `DuplicateMembers` is the scanner of the sign-in code, `RequestBody` the
hand-written parser of a flat string object, `CanonicalJson` the two checks of what may be signed, over
JavaScript values with their holes, accessors and prototypes, and `PayloadFields` what they let through.

**Audit, keys, logins, reports.** `AuditChain`, `AuditStores` and `AuditProtocol` go from the chain to
the stores and to concurrent appends; the hash is an arbitrary function, and each result that needs it
to be injective hands over the colliding pair instead. `SigningKeys` is the ring over any number of
rotations and verification on both ends, for any signature scheme in which a key's signature verifies
under that key. `PendingLogins` is the insertion-ordered store and its two handlers, `LoginFields` what
they store and hand out. `ReportDecimals` and `ReportCsv` are the amounts and the export, `ReportFields`
what their digits and characters are worth.

**The contract.** `ContractJson` has JSON values as the parsers see them and the reference grammars;
`Texts` and `Timestamps` relate the order of texts to the order of instants, `Calendar` the instants to
the calendar; `ContractPages` settles once what a loop accepts that compares each row with those before
it. `Dossier`, `QueueItems`, `QueueContract`, `QueueItemDetail`, `AuditFeedContract`, `SubjectActivity`,
`SubjectRows` and `SubjectDetail` have, for each view, the server's parser, the copy it sends on, the
browser's parser and the theorem that connects them; `ContractFields` and `SubjectFields` spell the
accepted views out.

## What the proofs found

Where the code and its own account of itself differ, the model follows the code.

- A revoke looks its session's subject up before it locks it. The bound on revoked rows holds in every
  interleaving in which a revoke that updates a row holds the lock of that row's subject
  (`TombstoneBound.GuardedRunsBoundTombstones`), as it does while ids are fresh and revokes name
  committed sessions. If the row is not there yet the revoke goes on without a lock; if the row is swept
  and its id issued to another subject it holds the wrong one. In both cases the bound can be exceeded by
  one (`TombstoneBound.MissedLookupExceedsTheBound`, `TombstoneBound.ReissuedIdExceedsTheBound`). The
  bound itself is one more than the configured number in either store
  (`SessionRuns.RevokeFillsTombstones`).
- The duplicate-member scanner has no end-of-text condition inside a literal. It runs for ever exactly
  when a literal never closes and nothing ahead of it is rejected
  (`DuplicateMembers.EndlessExactlyWhenUnclosed`). One caller parses first and is safe; the other scans
  first, and a body holding a lone quote is such a text (`DuplicateMembers.LoneQuoteIsEndless`).
- The check of what may be signed lets through arrays with computed elements or named members and
  objects with hidden members; those, and only those, can serialize to something other than what was
  checked (`CanonicalJson.CanonicalRoundTrip`). Signing itself runs no check: the envelope
  it returns verifies exactly when the payload passes the check and the request id is not empty
  (`SigningKeys.KeyProvider.Sign`), while the text it signs, parsed again, fails a check only by its depth
  (`CanonicalJson.SignedTextPassesByDepth`).
- The browser accepts a signature written in non-canonical base64url, the server does not; apart from
  that the two ends agree (`SigningKeys.BothEndsAgree`).
- Stored audit events are rebuilt with their members in one fixed order, so a chain whose sources list
  them otherwise cannot be read back (`AuditStores.RowRoundTrip`).
- An append's snapshot is older than the lock it takes, so the lock alone would not order appends; the
  primary key does (`AuditProtocol.OneCommitPerHead`, `AuditProtocol.OnlyThePrimaryKeyStopsIt`).
- While the clock does not run backwards, lazy expiry is seen exactly when a conflict depends on an
  evicted row (`SessionBackends.LazyExpiryIsInvisible`), so never where ids and digests are not
  presented twice. A clock that runs back and an id that is reused both show it
  (`SessionBackends.BackwardClockIsVisible`, `SessionBackends.ReusedIdIsVisible`).
- An exported report with an empty row reads back with one empty cell in its place
  (`ReportCsv.ExportReadsBack`).
- The browser's audit feed parser takes targets of a foreign kind that the server refuses
  (`AuditFeedContract.BrowserTakesForeignTargets`); that and the pinned instant are the only differences
  (`AuditFeedContract.ServerAcceptsWhatBrowserDoes`). For the other views too, what the browser accepts
  beyond the server is stated exactly.

## Model

| member | source | states |
|---|---|---|
| `MemorySessionStore.LookupIsScan` | backoffice/src/server/session-store.ts:565-574 | in every state that keeps the two maps inverse, the digest map answers a lookup exactly as a scan of all records would |
| `MemorySessionStore.Store.SweepExpired` | backoffice/src/server/session-store.ts:440-453 | the sweep removes exactly the unrevoked expired records from both maps and returns how many |
| `MemorySessionStore.Store.EvictSubjectOverflow` | backoffice/src/server/session-store.ts:455-472 | eviction by sorting and slicing removes exactly the rows ranked beyond `keep` by (time, id), from both maps |
| `MemorySessionStore.Store.Live` | backoffice/src/server/session-store.ts:484-490 | lazy expiry: a stale record is dropped from both maps and reads as absent |
| `MemorySessionStore.Store.IssueSession` | backoffice/src/server/session-store.ts:507-555 | the three in-place passes and the insert act as the issue step on the session map and keep the maps inverse; conflicts and bad commands change nothing |
| `MemorySessionStore.Store.GetSession` | backoffice/src/server/session-store.ts:556-564 | the read acts as the get step, lazy expiry included |
| `MemorySessionStore.Store.GetSessionByTokenDigest` | backoffice/src/server/session-store.ts:565-574 | the read through the digest map acts as a get of the one record that holds the digest |
| `MemorySessionStore.Store.RefreshSession` | backoffice/src/server/session-store.ts:575-602 | rotation frees the old digest, takes the new one, and moves expiry and last use forward only |
| `MemorySessionStore.Store.RevokeSession` | backoffice/src/server/session-store.ts:603-634 | trimming the tombstones and then marking the record acts as the revoke step |
| `MemorySessionStore.Store.BindDevice` | backoffice/src/server/session-store.ts:635-658 | the device slot is written once, on a live record |
| `MemorySessionStore.Store.SweepExpiredSessions` | backoffice/src/server/session-store.ts:659-665 | the sweep command acts as the sweep step |
| `MemorySessionStore.Store.ListSessions` | backoffice/src/server/session-store.ts:666-685 | the listing is the subject's live rows by last use and id, cut at the limit |
| `MemorySessionStore.Store.CountSessions` | backoffice/src/server/session-store.ts:686-698 | the counting loop returns the number of live rows |
| `SessionFields.IssueAccepted` | backoffice/src/server/session-store.ts:318-364 | a login is accepted exactly when its id, subject, digests, texts, instants and bound are in their grammars and ranges, written out |
| `SessionFields.OthersAccepted` | backoffice/src/server/session-store.ts:366-426 | the same for every other command |
| `SessionFields.IssueInFields` | backoffice/src/server/session-store.ts:507-555 | a login conflicts exactly when its id or digest is taken; otherwise the record stored and answered has the command's own id, subject, email, name, role, digests and instants, unrevoked, and of the subject's unexpired others off its device the most recently issued stay, one less than the bound |
| `SessionFields.GetInFields` | backoffice/src/server/session-store.ts:556-564 | a read answers the record while it is revoked or unexpired; an expired one goes and reads as null |
| `SessionFields.GetByTokenInFields` | backoffice/src/server/session-store.ts:565-574 | the same by digest; no record with the digest reads as null |
| `SessionFields.RefreshInFields` | backoffice/src/server/session-store.ts:575-602 | a refresh writes the new digest and the later of the two expiries and last uses, and no other field or row, on a live record only, and conflicts exactly when another record has the digest |
| `SessionFields.RevokeInFields` | backoffice/src/server/session-store.ts:603-634 | a revoke writes the later of clock and issue as the revocation on a live record, and of the subject's other revoked records the latest stay, up to the bound |
| `SessionFields.BindInFields` | backoffice/src/server/session-store.ts:635-658 | a binding writes the device and the later last use, and nothing else, on a live record without one |
| `SessionFields.SweepInFields` | backoffice/src/server/session-store.ts:659-665 | after a sweep exactly the revoked and the unexpired records are there, unchanged, and the answer is how many went |
| `SessionFields.ListInFields` | backoffice/src/server/session-store.ts:666-685 | a listing has the subject's live records, later last use first and smaller id first among equals, as many as there are up to the limit, and none left out was used later than one listed |
| `SessionFields.CountInFields` | backoffice/src/server/session-store.ts:686-698 | the count is the number of unrevoked records that expire after the clock |
| `SessionRecords.SliceIsOffset` | backoffice/src/server/session-store.ts:462-471 | sorting rows and slicing off the first n removes exactly the rows SQL keeps under ORDER BY ... OFFSET n |
| `SessionRecords.SortedUnique` | backoffice/src/server/session-store.ts:679-681 | a set of rows has exactly one listing in the store's order, ids breaking ties |
| `SqlSessionStore.DoomedAgrees` | backoffice/src/server/postgres-session-store.ts:76-138 | deleting the union of the doomed branches at once, NULL tests and OFFSET included, leaves what sweeping, displacing and trimming in turn leave |
| `SqlSessionStore.ColumnsAreKeys` | backoffice/src/server/postgres-session-store.ts:108-109 | ORDER BY issued_at_ms, revoked_at_ms or last_used_at_ms DESC, session_id ASC ranks the rows of a statement as the memory store's comparators do |
| `SqlSessionStore.IssueAgrees` | backoffice/src/server/postgres-session-store.ts:76-138 | the single-snapshot issue statement gives the same table and answer as the memory store's passes |
| `SqlSessionStore.GetAgrees` | backoffice/src/server/postgres-session-store.ts:140-153 | the get statement agrees with the memory step |
| `SqlSessionStore.GetByTokenAgrees` | backoffice/src/server/postgres-session-store.ts:155-168 | the get-by-digest statement agrees with the memory step |
| `SqlSessionStore.RefreshAgrees` | backoffice/src/server/postgres-session-store.ts:170-222 | the guarded update agrees with the memory step, conflicts and stale rows included |
| `SqlSessionStore.RevokeAgrees` | backoffice/src/server/postgres-session-store.ts:224-286 | the revoke statement, which orders tombstones in the snapshot before the mark, agrees with the memory step |
| `SqlSessionStore.BindAgrees` | backoffice/src/server/postgres-session-store.ts:288-329 | the bind statement agrees with the memory step |
| `SqlSessionStore.ListAgrees` | backoffice/src/server/postgres-session-store.ts:338-347 | the ordered and limited select agrees with the memory listing |
| `SqlSessionStore.CountAgrees` | backoffice/src/server/postgres-session-store.ts:349-354 | the count agrees with the memory count |
| `SqlSessionStore.BackendsAgree` | backoffice/src/server/postgres-session-store.ts:76-354 | one statement is one step: the two backends agree on every command, from every keyed table with unique digests |
| `SessionBackends.RunsAgree` | backoffice/src/server/postgres-session-store.ts:597-656 | in queue order, any command list gets the same answers and leaves the same rows on both backends |
| `SessionBackends.StepExact` | backoffice/src/server/session-store.ts:484-490 | a store that has lost only expired rows answers a command, a sweep apart, as a store that filters them and never evicts, exactly when an issue or refresh conflicts in both or in neither |
| `SessionBackends.LazyExpiryIsInvisible` | backoffice/src/server/session-store.ts:484-490 | over every run with a nondecreasing clock, every command but a sweep answers as in the filtering store exactly when the conflicts are the same at every step |
| `SessionBackends.FreshRunsHideLazyExpiry` | backoffice/src/server/session-store.ts:233-243 | from the empty store, a run whose ids and digests are never presented twice meets that condition throughout |
| `SessionBackends.ReusedIdIsVisible` | backoffice/src/server/session-store.ts:513-520 | a run that does not: once a read has evicted an expired row, its id is issued again in the one store and conflicts in the other |
| `SessionBackends.BackwardClockIsVisible` | backoffice/src/server/session-store.ts:484-490 | the clock condition is needed: a read at a later instant makes an earlier one answer absent |
| `SessionRuns.StepKeepsInv` | backoffice/migrations/0002_operator_sessions.sql:132-175 | every command keeps the CHECK constraints, the primary key and the unique digest index |
| `SessionRuns.StepEvolves` | backoffice/migrations/0002_operator_sessions.sql:189-233 | no command makes the mutation trigger raise: identity and issue time stay, expiry and last use do not decrease, the device slot is written once, revocation is final |
| `SessionRuns.RunEvolves` | backoffice/migrations/0002_operator_sessions.sql:189-233 | the same between any two states of a run, for an id not issued anew |
| `SessionRuns.RotatedTokenIsDead` | backoffice/src/server/session-store.ts:773-790 | after a rotation the old bearer never resolves again, whatever commands follow, unless it is presented anew |
| `SessionRuns.RevokedIsTerminal` | backoffice/src/server/session-store.ts:773-790 | a revoked session is never updated, never answers as live and never resolves until evicted and issued anew |
| `SessionRuns.RunsStayBounded` | backoffice/src/server/session-store.ts:528-538 | over every run with fixed bounds a subject never has more than `active` unrevoked nor more than `tombstones + 1` revoked records |
| `SessionRuns.RevokeFillsTombstones` | backoffice/src/server/session-store.ts:615-632 | the `+ 1` is reached: the record being revoked does not compete with the tombstones trimmed before it |
| `SessionRuns.TrimEvictsOldest` | backoffice/src/server/session-store.ts:455-472 | every row kept was revoked, or issued if it never was, no earlier than every row evicted, the smaller id kept among equals |
| `SessionRuns.ExactlyKept` | backoffice/src/server/session-store.ts:455-472 | when something is evicted exactly `keep` rows of the class stay |
| `SessionRuns.LoginDisplacesDevice` | backoffice/src/server/session-store.ts:521-527 | after a device-bound issue the new record is the only unrevoked one on that device |
| `SubjectLock.StepIsSafe` | backoffice/src/server/postgres-session-store.ts:597-656 | every step of the write protocol, in any interleaving of transactions, keeps the invariant behind the bound |
| `SubjectLock.CommitIsStatement` | backoffice/src/server/postgres-session-store.ts:76-336 | for every command, what a transaction commits on the rows it has read is the table its statement leaves, and the indexes and the trigger let it |
| `SubjectLock.InterleavingsKeepConstraints` | backoffice/migrations/0002_operator_sessions.sql:132-175 | in every interleaving the committed rows meet the CHECK constraints and no two have one id or one bearer digest |
| `SubjectLock.CommitEvolves` | backoffice/migrations/0002_operator_sessions.sql:189-233 | a commit changes a row that stays only as the trigger allows, however old the statement's snapshot is |
| `SerialRuns.SerialRunsAreStoreRuns` | backoffice/src/server/postgres-session-store.ts:597-656 | transactions run one after the other are allowed every step and leave the rows of the store's own run, for any list of accepted commands |
| `SubjectLock.NoInterleavingExceedsTheBound` | backoffice/src/server/postgres-session-store.ts:711-744 | with the subject lock taken before the issue's snapshot, no interleaving leaves a subject more than maxPerSubject unrevoked committed rows, even when subjects share a lock |
| `SubjectLock.UnlockedSnapshotsExceedTheBound` | backoffice/src/server/postgres-session-store.ts:377-389 | without the lock, two issues that both take their snapshot before either commits break the bound |
| `SubjectLock.TwoUnlockedLogins` | backoffice/src/server/postgres-session-store.ts:377-389 | two concrete logins that do so |
| `TombstoneBound.GuardedRunsBoundTombstones` | backoffice/src/server/postgres-session-store.ts:782-815 | in every interleaving in which a revoke that updates a row holds the lock of that row's subject, no subject ever has more than maxRevokedPerSubject + 1 revoked rows |
| `TombstoneBound.DisciplinedRunsAreGuarded` | backoffice/src/server/postgres-session-store.ts:807-815 | a run in which ids are never reissued and a revoke names a session whose issue has committed meets that guard throughout |
| `TombstoneBound.DisciplinedRunsBoundTombstones` | backoffice/src/server/postgres-session-store.ts:782-815 | so such a run, in any interleaving, keeps the bound |
| `TombstoneBound.MissedLookupExceedsTheBound` | backoffice/src/server/postgres-session-store.ts:807-815 | a revoke whose subject lookup runs before the issue commits takes no lock, and beside another revoke leaves one tombstone too many |
| `TombstoneBound.SceneExists` | backoffice/src/server/postgres-session-store.ts:807-815 | a concrete table and commands for which that happens |
| `TombstoneBound.ReissuedIdExceedsTheBound` | backoffice/src/server/postgres-session-store.ts:807-815 | a revoke of a committed session whose row is swept and reissued under another subject before its statement runs holds the wrong lock, and beside another revoke leaves one tombstone too many |
| `TombstoneBound.ReissueSceneExists` | backoffice/src/server/postgres-session-store.ts:807-815 | a concrete table and commands for which that happens |
| `DuplicateMembers.AssertNoDuplicateMembers` | backoffice/src/server/oidc.ts:159-181 | on every text on which it ends, the loop with its index and scope stack returns exactly the outcome of the scan it is specified by, and it ends on all those texts |
| `DuplicateMembers.EndOfLiteral` | backoffice/src/server/oidc.ts:168-170 | from an opening quote the inner loop stops at the first quote that no backslash escapes |
| `DuplicateMembers.ScanDecidesDuplicates` | backoffice/src/server/oidc.ts:159-181 | on every JSON text, with any nesting, white space and escapes, the scan rejects exactly when some object in the tree has two members with equal decoded names (section 4 of RFC 8259) |
| `DuplicateMembers.ClosedLiteralsTerminate` | backoffice/src/server/oidc.ts:194-198 | closed literals are enough for the scan to return: the caller that parses first meets this |
| `DuplicateMembers.UnclosedLiteralsDecide` | backoffice/src/server/oidc.ts:159-181 | with an unclosed literal in the text, the scan rejects exactly what it rejects ahead of the first such literal, with the same verdict, and otherwise never returns |
| `DuplicateMembers.EndlessExactlyWhenUnclosed` | backoffice/src/server/oidc.ts:159-181 | the scan runs for ever exactly when some literal never closes and the text ahead of the first such literal is scanned cleanly |
| `DuplicateMembers.NoQuoteAhead` | backoffice/src/server/oidc.ts:168-170 | from an unclosed literal on, the inner loop never meets the quote it waits for, however far it runs |
| `DuplicateMembers.LoneQuoteIsEndless` | backoffice/src/server/oidc.ts:147-148 | a one-character body is such a text, and the caller that scans before it parses does not exclude it |
| `JsonGrammar.TextDeterminesValue` | backoffice/src/server/oidc.ts:188-200 | a JSON text is written by one tree only, so what a scan says of the tree is a statement about the text |
| `JsonLiterals.SpellingDecodes` | backoffice/src/server/request-body.ts:40-50 | every literal of the tables of section 7 of RFC 8259, its digits in either case, decodes to what the tables say |
| `JsonLiterals.DecodedIsSpelling` | backoffice/src/server/request-body.ts:40-50 | and a body that decodes is such a literal |
| `JsonLiterals.EveryUnitHasEscapes` | backoffice/src/server/request-body.ts:40-50 | every code unit is what its four digits decode to, each in upper or lower case |
| `JsonLiterals.AtomsAreValues` | backoffice/src/server/oidc.ts:188-200 | whatever is written in the characters of numbers and literal names is a value of the grammar |
| `RequestBody.Parser.Parse` | backoffice/src/server/request-body.ts:23-70 | the parser with its shared index returns the specified result and, when it accepts, has consumed the whole text |
| `RequestBody.Parser.ReadString` | backoffice/src/server/request-body.ts:23-70 | readString returns the decoded literal at the index and moves the index strictly forward past it |
| `RequestBody.Parser.ReadMembers` | backoffice/src/server/request-body.ts:23-70 | the member loop, index strictly advancing, collects the members and refuses a decoded name read before |
| `RequestBody.RenderingsAreRead` | backoffice/src/server/request-body.ts:23-70 | every rendering of a flat string map, whatever its white space and escapes, is read as that map when its decoded names are distinct, and refused otherwise |
| `RequestBody.AcceptsExactlyFlatObjects` | backoffice/src/server/request-body.ts:23-70 | the parser accepts exactly the objects of sections 4 and 7 of RFC 8259 whose values are strings and whose decoded names are distinct |
| `CanonicalJson.ChecksAgree` | backoffice/src/data/client.ts:340-357 | on parsed values the server's and the browser's check accept the same trees, depth bound included |
| `CanonicalJson.EscapeRoundTrip` | backoffice/src/server/signing.ts:34-61 | every string, lone surrogates included, survives being written as a literal and read back |
| `CanonicalJson.CanonicalRoundTrip` | backoffice/src/server/signing.ts:34-61 | a value the server's check accepts reads back from its serialization as itself exactly when it has no computed elements, named array members or hidden members |
| `PayloadFields.PayloadInFields` | backoffice/src/server/signing.ts:34-61 | the check accepts a value exactly when everything that occurs in it, by elements and visible members, is null, a boolean, a finite number, a string, a plain array without holes or an ordinary object without symbols or visible accessors, and at most sixteen levels down |
| `PayloadFields.StringInFields` | backoffice/src/server/signing.ts:108-130 | a string is signed with each unit as it is, by its two-character escape, or, a control or lone surrogate, by four lower-case digits |
| `PayloadFields.LeavesAreWritten` | backoffice/src/server/signing.ts:108-130 | null, booleans and numbers are written by their names and digits, minus zero as 0, what is no number and a hole as null, and undefined not at all |
| `CanonicalJson.SerializationReadsBack` | backoffice/src/server/signing.ts:34-61 | any JSON value written by the text of a payload that passed the check and is faithful reads back as that payload |
| `CanonicalJson.SignedTextPassesByDepth` | backoffice/src/server/signing.ts:108-130 | signing runs no check: whatever is signed, what is parsed from its text passes either end's check exactly when the text nests at most sixteen deep |
| `CanonicalJson.SignedPayloadsPassBothChecks` | backoffice/src/data/client.ts:394-409 | a payload that passed the server's check and is faithful passes the browser's check once parsed |
| `CanonicalJson.ComputedElementsChange` | backoffice/src/server/signing.ts:41-48 | the check lets through an array element computed by a getter, and the serialization can differ from what was checked |
| `SigningKeys.RingIsWindow` | backoffice/src/server/signing.ts:156-182 | after n rotations the ring is versions n, n - 1, ... in order, the first active, the others retired at the rotation that replaced them, min(n, maximum + 1) in all |
| `SigningKeys.FindInRing` | backoffice/src/server/signing.ts:249-250 | the key of a rotation is found exactly when the window still holds it |
| `SigningKeys.EnvelopeOutlivesRotations` | backoffice/src/server/signing.ts:213-271 | an envelope signed at t verifies after r more rotations exactly when r is at most the window and the first of them was not earlier than t |
| `SigningKeys.VerifiesExactly` | backoffice/src/server/signing.ts:213-271 | after any rotations any envelope verifies exactly when it is of version 1 with a request id, a payload that passes the check and a canonical signature that verifies, and names by key id and number a rotation in the window that was not replaced before it was issued |
| `SigningKeys.PublishedKeysetIsValid` | backoffice/src/data/client.ts:423-438 | the published keyset is valid to the browser exactly when it has at most eight keys |
| `SigningKeys.BothEndsAgree` | backoffice/src/data/client.ts:463-513 | for parsed payloads the browser accepts an envelope exactly when the server would, within resource and clock, had its signature been written in canonical base64url |
| `SigningKeys.KeyProvider.Rotate` | backoffice/src/server/signing.ts:156-182 | rotation replaces the ring by the next ring of the history |
| `SigningKeys.KeyProvider.Sign` | backoffice/src/server/signing.ts:184-211 | the envelope names the key of the last rotation and the number of rotations as its version, carries the caller's fields, and, for a correct scheme and distinct key ids, verifies at once exactly when the request id is not empty and the payload passes the check |
| `SigningKeys.KeyProvider.Verify` | backoffice/src/server/signing.ts:213-271 | verification decides exactly the shape, key, retirement and signature conditions |
| `AuditChain.BuildAuditChain` | backoffice/src/server/controls.ts:22-30 | the loop builds the linked chain of the sources, or nothing when one cannot be canonicalized |
| `AuditChain.VerifyAuditChain` | backoffice/src/server/controls.ts:52-64 | the loop accepts exactly the chains that are numbered, linked from genesis and hashed correctly |
| `AuditChain.BuiltChainVerifies` | backoffice/src/server/controls.ts:22-64 | a built chain verifies |
| `AuditChain.HeadSettlesChain` | backoffice/src/server/controls.ts:32-64 | two verified chains with one head hash are equal up to tone, or exhibit a collision of the hash |
| `AuditChain.HeadsDiffer` | backoffice/src/server/controls.ts:52-64 | no two positions of a verified chain share a head, short of a collision |
| `AuditStores.MemoryAuditStore.Open` | backoffice/src/server/audit-store.ts:61-69 | the store opens exactly when the seed fits a safe capacity and can be canonicalized, on the chain built from it |
| `AuditStores.MemoryAuditStore.Append` | backoffice/src/server/audit-store.ts:86-105 | compare and append: the head, the event id and the capacity are checked in order, and the chain grows by the one built event |
| `AuditStores.AppendInFields` | backoffice/src/server/audit-store.ts:86-105 | an append succeeds exactly when the head is the expected one, the id is new, there is room and the event can be canonicalized; the event added has the next number, the expected head, the source's facts, its hash and its tone; otherwise the first test that fails is answered |
| `AuditStores.MemoryAuditStore.Snapshot` | backoffice/src/server/audit-store.ts:71-84 | the snapshot is the whole verified chain and its head |
| `AuditStores.AppendKeeps` | backoffice/src/server/audit-store.ts:86-105 | every attempt keeps the chain verified, an extension, within capacity and free of repeated ids |
| `AuditStores.RunKeeps` | backoffice/src/server/audit-store.ts:56-113 | over any run every snapshot extends every earlier one |
| `AuditStores.OneAppendPerHead` | backoffice/src/server/audit-store.ts:86-91 | of the appends of a run that expect one head at most one succeeds, or the hash collides |
| `AuditStores.RowRoundTrip` | backoffice/src/server/postgres-audit-store.ts:39-54 | a stored event reads back as itself exactly when its members are listed in the order the store rebuilds |
| `AuditStores.ChainRoundTrip` | backoffice/src/server/postgres-audit-store.ts:39-54 | the stored rows of a chain read back as that chain exactly when every event lists its members in the order the store rebuilds |
| `AuditProtocol.StepKeepsInv` | backoffice/src/server/postgres-audit-store.ts:137-163 | every step of concurrent serializable transactions keeps the committed rows a verified chain with unique event ids |
| `AuditProtocol.RunKeepsInv` | backoffice/src/server/postgres-audit-store.ts:85-163 | in every interleaving the table only grows and stays verified, seeding included |
| `AuditProtocol.ProposalIsAppend` | backoffice/src/server/postgres-audit-store.ts:137-163 | on the rows it has read a transaction may write exactly the event the in-memory store would append, and the constraints let it |
| `AuditProtocol.OneCommitPerHead` | backoffice/src/server/postgres-audit-store.ts:137-163 | of the transactions that expect one head at most one commits, although each judges a snapshot older than its lock, or the hash collides |
| `AuditProtocol.OnlyThePrimaryKeyStopsIt` | backoffice/migrations/0001_append_only_audit.sql:15-25 | the run of two such transactions: under the lock the second passes its head check and the unique event ids, its row would break the chain, and the primary key is what refuses it |
| `AuditProtocol.RivalsExist` | backoffice/migrations/0001_append_only_audit.sql:15-25 | two such transactions, for any hash |
| `ReportDecimals.FormatThenParse` | backoffice/src/server/reports.ts:72-84 | parseDecimal(formatDecimal(u, s), s) = u for all u and s |
| `ReportDecimals.ParseThenFormat` | backoffice/src/server/reports.ts:72-84 | printing a parsed amount gives its canonical padded form |
| `ReportFields.ParsedWorth` | backoffice/src/server/reports.ts:72-78 | parseDecimal accepts exactly digits with at most `scale` decimals and gives the sum of each digit times the power of ten of its place |
| `ReportFields.FormattedWorth` | backoffice/src/server/reports.ts:80-84 | formatDecimal prints a whole part without leading zeros and all the decimals of the scale, worth the units |
| `ReportFields.ExposureWorth` | backoffice/src/server/reports.ts:86-90 | an exposure counts exactly when, white space apart, it is an amount of at most two decimals and the rouble sign |
| `ReportDecimals.AlertTotals` | backoffice/src/server/reports.ts:244-286 | the printed exposure and per-asset totals parse back to the exact sums of the parsed inputs |
| `ReportCsv.LineReads` | backoffice/src/server/reports.ts:475-485 | an RFC 4180 reader (section 2) reads a printed line back as exactly its neutralised cells |
| `ReportCsv.FileReads` | backoffice/src/server/reports.ts:487-509 | a file of lines reads back record for record, neutralised, an empty record as one empty cell |
| `ReportCsv.ExportCsv` | backoffice/src/server/reports.ts:487-509 | the pushed and joined lines are the file of the report's records |
| `ReportFields.RecordsInFields` | backoffice/src/server/reports.ts:487-508 | the records are the fields under their heading, a blank line, the rows of the sections in order as id, key, value and unit, and each table with a blank line, its title and columns above its rows |
| `ReportCsv.ExportReadsBack` | backoffice/src/server/reports.ts:487-509 | the whole export reads back to the report's records exactly when no table has an empty column list or an empty row |
| `ReportCsv.NeutralisedIsSafe` | backoffice/src/server/reports.ts:475-481 | no neutralised cell starts a formula, and neutralising again changes nothing |
| `ReportFields.CellInFields` | backoffice/src/server/reports.ts:475-481 | a cell gets an apostrophe exactly when white space and then one of the eight formula characters, or a tab or line break, starts it, and is quoted exactly when it holds a quote, a comma or a line break |
| `PendingLogins.ExpiringStore.Get` | backoffice/src/server/session.ts:23-31 | an expired entry is deleted on sight and reads as absent |
| `PendingLogins.ExpiringStore.Set` | backoffice/src/server/session.ts:33-39 | setting sweeps the expired entries and keeps the place of a key already there |
| `PendingLogins.ExpiringStore.Take` | backoffice/src/server/session.ts:41-45 | taking returns the live entry and removes it |
| `PendingLogins.ExpiringStore.RetainNewest` | backoffice/src/server/session.ts:51-57 | trimming removes exactly the oldest matching entries beyond the limit |
| `PendingLogins.HandleLogin` | backoffice/src/server/server.ts:574-598 | a login stores its entry and trims first by initiator, then in all |
| `PendingLogins.HandleCallback` | backoffice/src/server/server.ts:648-659 | a callback whose cookie has the state takes the entry and goes on with it only if it also has the nonce; any other leaves the store alone |
| `PendingLogins.RunsStayBounded` | backoffice/src/server/server.ts:594-598 | over every run of logins and callbacks at most 2 logins per initiator and 256 in all are pending |
| `PendingLogins.LoginSurvives` | backoffice/src/server/server.ts:584-598 | the login just stored survives its own trimming |
| `PendingLogins.TakenAtMostOnce` | backoffice/src/server/server.ts:655-658 | each state is handed out at most once |
| `LoginFields.LoginInFields` | backoffice/src/server/server.ts:574-598 | the entry stored last has the login's state, nonce, verifier, former session and deadline, for the session's subject, the initiator of the login whose cookie is shown, or itself; the others were there and have not expired; at most 2 of an initiator and 256 in all are left |
| `LoginFields.CallbackInFields` | backoffice/src/server/server.ts:648-659 | that login's callback is handed exactly what it stored, before the deadline and with its state and nonce in the cookie, and nothing otherwise |
| `LoginFields.TakenInFields` | backoffice/src/server/server.ts:648-659 | whatever a callback is handed was stored under its state, is unexpired and has the cookie's nonce, and the entry is gone afterwards |
| `LoginFields.RetainedInFields` | backoffice/src/server/session.ts:51-57 | trimming keeps an entry of the initiator exactly when at most `limit` of the initiator's were stored from it on |
| `Timestamps.OrderOfTextsIsOrderOfInstants` | backoffice/src/data/operator.ts:426-432 | accepted timestamps compare as texts exactly as their instants do, and one instant has one text (section 5.1 of RFC 3339) |
| `Calendar.AcceptedInFields` | backoffice/src/data/operator.ts:426-432 | a timestamp is accepted exactly when its digits and separators are in their places and name a month, a day of that month and a time of the day |
| `Calendar.InstantInFields` | backoffice/src/data/operator.ts:426-432 | its instant is its day's number times the milliseconds of a day and its hours, minutes, seconds and milliseconds |
| `Calendar.DaysSucceed` | backoffice/src/data/operator.ts:426-432 | each date of the calendar, leap years included, is numbered one more than the date before it |
| `Texts.LessByFirstDifference` | backoffice/src/server/session-store.ts:467 | texts are ordered by their first difference |
| `ContractPages.ScanAcceptsStandingLists` | backoffice/src/server/customer-api-client.ts:1201-1297 | a loop that tests each item against those collected accepts exactly the lists that stand as a whole |
| `Dossier.ServerParseKyc` | backoffice/src/server/customer-api-client.ts:834-926 | the server's loop over the attempts accepts exactly the dossiers that stand within the snapshot |
| `Dossier.BrowserParseKyc` | backoffice/src/data/operator.ts:626-723 | the browser's loop accepts exactly the dossiers that stand and fit the roster's status |
| `Dossier.AdjacentTestsReachEveryPair` | backoffice/src/data/operator.ts:695-707 | the string tests of neighbours order every pair of attempts by instants |
| `Dossier.AttemptsDoNotOverlap` | backoffice/src/data/operator.ts:680-707 | all attempts, pairwise, occupy non-overlapping submitted-to-decided intervals newest first, and only the newest can be in review or approved |
| `Dossier.AcceptedDossiersAreExact` | backoffice/src/server/customer-api-client.ts:834-926 | both parsers read exactly the wire form of what they accept, nothing dropped or made up |
| `Dossier.BrowserAcceptsWhatServerRelays` | backoffice/src/server/server.ts:943-956 | a dossier the server accepts is accepted by the browser with every field preserved |
| `Dossier.ServerAcceptsWhatBrowserDoes` | backoffice/src/server/customer-api-client.ts:834-926 | the converse: of the dossiers the browser accepts, the server accepts exactly those in which nothing lies past its snapshot |
| `SubjectFields.DossierInFields` | backoffice/src/server/customer-api-client.ts:834-926 | the dossier by its fields on both ends: each attempt's decision and reason by its state, each older one ended before the next was submitted, the header the newest one's, the roster's bound and the snapshot |
| `QueueContract.ServerParseQueue` | backoffice/src/server/customer-api-client.ts:1187-1346 | the server accepts exactly the views whose items stand, are in the kind's order throughout, age from the snapshot, and are counted by the summary |
| `QueueContract.BrowserParseQueue` | backoffice/src/data/operator.ts:957-1103 | the browser's loop, tallying under its own spelling, accepts exactly the views whose items stand and are counted by the summary |
| `QueueContract.AcceptedQueuesAreExact` | backoffice/src/server/customer-api-client.ts:1187-1346 | both parsers read exactly the wire form of what they accept |
| `QueueContract.AcceptedQueuesAddUp` | backoffice/src/server/customer-api-client.ts:1298-1312 | the states of an accepted summary add up to its count, and the server's page is ordered pairwise |
| `ContractFields.QueueInFields` | backoffice/src/server/customer-api-client.ts:1187-1346 | the browser takes a view exactly when its items are in their grammars, under distinct references, and the summary is the number of items in each state; the server exactly when moreover cases and alerts go by sla_due_at and tickets by opened_at, the smaller reference first among equals, and ages count from submission or opening to the snapshot |
| `QueueContract.BrowserAcceptsWhatServerRelays` | backoffice/src/server/server.ts:1036-1091 | for every queue kind, a view the server accepts is accepted by the browser as the same view |
| `QueueContract.ServerAcceptsWhatBrowserDoes` | backoffice/src/server/customer-api-client.ts:1187-1346 | the converse: of the views the browser accepts, the server, asked for their kind, accepts exactly those in the kind's order whose ages are counted to its snapshot |
| `QueueItemDetail.ServerParseItem` | backoffice/src/server/customer-api-client.ts:1360-1511 | the server accepts exactly the item details that stand, flags in order and instants within the snapshot included |
| `QueueItemDetail.BrowserParseItem` | backoffice/src/data/operator.ts:1114-1245 | the browser accepts exactly the item details that stand without the snapshot's tests |
| `QueueItemDetail.FlagsInOrder` | backoffice/src/server/customer-api-client.ts:1406-1419 | the loop over neighbouring flags decides whether the whole list is in order |
| `QueueItemDetail.ServerItemIsExact` | backoffice/src/server/customer-api-client.ts:1360-1511 | the server reads exactly the wire form of what it accepts |
| `QueueItemDetail.BrowserItemIsExact` | backoffice/src/data/operator.ts:1114-1245 | the browser reads exactly the wire form of what it accepts |
| `QueueItemDetail.BrowserAcceptsWhatServerRelays` | backoffice/src/server/server.ts:1196-1257 | for every kind, an item the server accepts is accepted by the browser as the same item |
| `QueueItemDetail.ServerAcceptsWhatBrowserDoes` | backoffice/src/server/customer-api-client.ts:1360-1511 | the converse: of the items the browser accepts, the server accepts exactly those whose age is counted to its snapshot, with the flags in order and dossier, flags and last message within it |
| `SubjectFields.ItemInFields` | backoffice/src/server/customer-api-client.ts:1360-1511 | the item detail by its fields for each kind, on both ends |
| `AuditFeedContract.ServerParseFeed` | backoffice/src/server/customer-api-client.ts:1541-1621 | the server accepts exactly the feeds taken at the pinned instant, newest first pairwise, with each target in its kind's grammar |
| `AuditFeedContract.BrowserParseFeed` | backoffice/src/data/operator.ts:1299-1374 | the browser accepts exactly the feeds newest first pairwise with targets of any grammar |
| `AuditFeedContract.AcceptedFeedsAreExact` | backoffice/src/server/customer-api-client.ts:1541-1621 | both parsers read exactly the wire form of what they accept |
| `AuditFeedContract.BrowserAcceptsWhatServerRelays` | backoffice/src/server/server.ts:1310-1327 | a feed the server accepts is accepted by the browser as the same feed |
| `AuditFeedContract.ServerAcceptsWhatBrowserDoes` | backoffice/src/server/customer-api-client.ts:1541-1621 | the converse: of the feeds the browser accepts, the server accepts exactly those taken at its pinned instant in which every target is in the grammar of its own kind |
| `ContractFields.FeedInFields` | backoffice/src/server/customer-api-client.ts:1541-1621 | the feed by its fields on both ends: actions with their target kinds, references, later instants first and greater references first among equals, and nothing after the feed's own instant |
| `AuditFeedContract.BrowserTakesForeignTargets` | backoffice/src/data/operator.ts:1262 | one feed, written out, that the browser accepts and the server refuses whatever it pins: a flag review of a customer reference |
| `SubjectActivity.ServerParsePage` | backoffice/src/server/customer-api-client.ts:784-825 | the server accepts exactly the pages whose items stand within the account and the snapshot, in order, under distinct references |
| `SubjectActivity.BrowserParsePage` | backoffice/src/data/operator.ts:577-617 | the browser accepts the same without the snapshot |
| `SubjectActivity.AcceptedPagesAreExact` | backoffice/src/server/customer-api-client.ts:709-825 | both parsers read exactly the wire form of what they accept |
| `SubjectActivity.UnderTheSnapshot` | backoffice/src/server/customer-api-client.ts:784-825 | of the pages that stand without a snapshot, those in which nothing lies past it, and no others, stand under one |
| `SubjectFields.ActivityInFields` | backoffice/src/server/customer-api-client.ts:709-825 | the activity by its fields on both ends: kinds with their summaries, whose reference each kind has, which carry money and how much, inside the account, newest first |
| `SubjectRows.ServerParseList` | backoffice/src/server/customer-api-client.ts:651-700 | the server accepts exactly the lists of standing rows under distinct references |
| `SubjectRows.BrowserParseList` | backoffice/src/data/operator.ts:438-495 | the browser accepts exactly the same lists in camelCase |
| `SubjectRows.ServerParseBalances` | backoffice/src/server/customer-api-client.ts:935-971 | the balances are one row per asset in the fixed order, each at its scale |
| `SubjectRows.BrowserParseBalances` | backoffice/src/data/operator.ts:732-768 | the same on the browser |
| `SubjectRows.ServerBalancesAreExact` | backoffice/src/server/customer-api-client.ts:935-971 | the server reads exactly the wire form of the balances that stand |
| `SubjectRows.BrowserBalancesAreExact` | backoffice/src/data/operator.ts:732-768 | the browser reads exactly the camelCase wire form of the same balances |
| `SubjectFields.ListInFields` | backoffice/src/server/customer-api-client.ts:651-700 | the list by its fields on both ends |
| `SubjectFields.BalancesInFields` | backoffice/src/server/customer-api-client.ts:935-971 | the balances by their fields on both ends: RUB, TON and USDT with 2, 9 and 6 decimals |
| `SubjectRows.BrowserAcceptsWhatServerRelays` | backoffice/src/server/server.ts:854-867 | a subject list the server accepts is accepted by the browser as the same list |
| `SubjectDetail.ServerParseDetail` | backoffice/src/server/customer-api-client.ts:984-1131 | parsing block by block accepts exactly the details that stand as a whole, cross-block conditions included |
| `SubjectDetail.BrowserParseDetail` | backoffice/src/data/operator.ts:776-909 | the same on the browser, which takes the roster's status into the dossier parser |
| `SubjectDetail.AcceptedDetailsAreExact` | backoffice/src/server/customer-api-client.ts:984-1131 | both parsers read exactly the wire form of what they accept |
| `SubjectDetail.BrowserAcceptsWhatServerRelays` | backoffice/src/server/server.ts:917-963 | a detail the server accepts is accepted by the browser as the same detail |
| `SubjectDetail.ServerAcceptsWhatBrowserDoes` | backoffice/src/server/customer-api-client.ts:984-1131 | the converse: of the details the browser accepts, the server accepts exactly those in which neither an event nor the dossier lies past its snapshot |
| `SubjectDetail.ApprovalIsConsistent` | backoffice/src/server/customer-api-client.ts:1031-1108 | an approval among the events of an accepted detail means a verified subject, and a dossier beside it is approved, decided at that instant and submitted inside the account window |
| `SubjectFields.DetailInFields` | backoffice/src/server/customer-api-client.ts:984-1131 | the detail by its fields on both ends, with all its blocks say of each other: limits, closed accounts that hold nothing, transitions by roster status, flags counted, the dossier at the instants of the transitions |

## Left out

- SessionBackends.LazyExpiryIsInvisible: says nothing of the number a sweep reports, which in the filtering store counts rows the other has already lost.
- SubjectLock.NoInterleavingExceedsTheBound: each statement is atomic on its snapshot and re-examines a row it updates only as far as the protocol model says; PostgreSQL's row locks themselves are not modelled.
- AuditProtocol.RunKeepsInv: the unique constraint on the hash, the retention period and the ban on updates are not modelled; each could only refuse more.
- AuditStores.ChainRoundTrip: date and time columns are taken to return the instant that was stored.
- CanonicalJson.CanonicalRoundTrip: a finite number is represented by the text JavaScript prints for it, and `toJSON` methods and proxies are not modelled.
- SigningKeys.EnvelopeOutlivesRotations: key ids are taken to be fresh at every rotation, and the signature scheme is abstract.
- Dossier.AttemptsDoNotOverlap: a text of the right form whose calendar date does not exist is simply not accepted, whether the engine rejects it or throws.
- PendingLogins.RunsStayBounded: a request is one step; the wait for the session lookup between reading the presented login and storing the new one is not an interleaving point.
- PendingLogins.TakenAtMostOnce: states are taken to be fresh, as the random values they are.
- ReportDecimals.AlertTotals: the counting sections of the reports, which only tally enumerated labels.
- SubjectActivity.ServerParsePage: the union of all summaries is not looked up separately, because the summaries of the item's own kind are part of it.
- Sorting object keys to compare key sets: a parsed object's names are distinct, so an exact key set is set equality.
- `localeCompare` beyond the references it is applied to, on which it agrees with the code-unit order.
- The operator admin view and its capability list: membership tests settled by one branch.
- The session directory above the store (wrappers around one store call each), apart from `resolveToken`.
- Strings with unpaired surrogates in session commands: the model's strings have none, so the refusal of email and name on that ground has nothing to refuse.
- The in-process write queue, and the initialize, close and failure latch of the PostgreSQL store: they remove interleavings and depend on the driver.
- Request routing, cookies, headers, fetch, bounded stream reading and the identity provider's token validation.
- Real hashing, signatures, key generation and random values.
- The provider evidence replay and the step-up service, whose stores are not part of this model.
- Demo data, role tables, configuration parsing, translations and screens.
