# XCF facilitator: a verified model

XCF sells exact payment matching: a merchant posts a challenge, a payer sends the amount on chain, and the facilitator
answers with a signed receipt. Its promises are exact amounts, idempotency, and that each on-chain event is used once
(README.md:21-26 of the repository). This project models the code those promises rest on and proves them.

Run `dafny verify dfyconfig.toml`.

## What is modelled

* **Payments.dfy, Facilitator.dfy.** The PostgreSQL tables are maps keyed by their primary or unique keys. Each handler
  is a function of the tables, and `Facilitator.Service` is the object whose methods perform it statement by statement.
  Where PostgreSQL may answer in several ways (rows created at the same moment, LIMIT 1 over several rows) every legal
  answer is allowed, and results hold for all of them.
* **Protocol.dfy, ProtocolLaws.dfy, ProtocolRuns.dfy, Solvency.dfy, Race.dfy.** The facilitator as a transition system.
  Fulfil is split at its database round trips (read match, read event, start and answer the claim statement, update,
  commit or abort), so that creates, resets, posts, ingestion and other fulfils fall anywhere between. Transactions run
  at READ COMMITTED: statements that touch a row another transaction holds wait, and the claim statement's two arms
  share one snapshot.
* **ReceiptRuns.dfy, Race.dfy, Relabel.dfy.** When a receipt agrees with its row, how many events a challenge takes, and
  what a rewritten registry key does to claims.
* **PaymentCases.dfy, ReceiptCases.dfy.** The same answers, rows and receipts stated in terms of the request's, the
  registry's, the metadata's and the event's own fields, each answer exactly when it is given.
* **Challenges.dfy, SearchLaws.dfy, Json.dfy, JsValues.dfy.** Search, exact match, the GET alias and the idempotent
  upsert; JavaScript's conversions of JSON values, and what the way through a JSONB column and back does to key order.
* **NetworkId.dfy, Decimals.dfy, Numerals.dfy, Text.dfy, Lists.dfy.** Network identity, the three decimal conversions,
  and the string operations they use.
* **Signer.dfy.** Compact JWS tokens over an abstract signature scheme and JSON codec.
* **PltStore.dfy, PltSearch.dfy.** The bulk insert with its flat parameter array and numbered tuples, and the
  compilation of event filters to numbered clauses, both read back the way PostgreSQL reads them.
* **Paging.dfy, WalletSource.dfy, Worker.dfy, WorkerRuns.dfy, DryRuns.dfy, Fixture.dfy.** The two event sources and the
  ingestion worker. The worker is a state machine whose steps are its separate effects, with a crash possible between any
  two; `WorkerRuns.StreamWorker` is the imperative loop, proved to perform runs of that machine. The wallet proxy's answer
  is the first 100 transactions with a greater id, ascending.
* **Inventory.dfy.** The migration report on network spellings.

## Promises the code keeps only under a condition

Each of these is proved as an if-and-only-if, or with the family of inputs on which it fails.

* *Identical payload, same outcome.* The comparison is of JSON text with what JSONB returns, so a payload conflicts with
  itself exactly when its keys are not in the order in which they are read back (`IdenticalRepostAccepted`). The README
  promises the answer 422 for a different payload; the code answers 409.
* *The receipt agrees with its row.* The signed contract is copied from the row's metadata without comparison, so a
  contract there that does not fit the challenge separates them in an ordinary fulfil (`NoResetAgrees`,
  `ForeignContract`). So does a reset between fulfil's match read and its commit: in what was paid, exactly when the last
  one asks for another tuple; in the receipt as a whole, also when its expiry takes another effect or its contract
  differs (`CommitAgreesIff`, `ResetRace`, `ExpiryRaceHappens`). The receipt's payment event, chain id and token agree
  with the claimed event in every interleaving (`FulfilledIsBacked`).
* *One event for one challenge, and one receipt.* Two overlapping fulfils of one challenge on two transactions both
  commit: the second receipt replaces the first, and both events stay claimed (`OverlapTakesTwo`). Without a reset, and
  if no commit happens while another request is on its way to a different event, a challenge takes at most one event
  (`OneClaimWithoutOverlap`); a receipt is final as long as the requests still under way hold the same proof
  (`ReceiptIsFinal`, `SameEventSameProof`), and repeating the fulfil replays it (`RepeatAfterRun`).
* *Exact match finds the row.* The search is capped at 100 rows although the caller asks for 250; whether the row is
  found can depend on how rows created at one moment are ordered (`FoundIff`).
* *Claims follow their events.* Rewriting a registry key relabels stored events; that is safe exactly when the normal
  form stays or no such event was claimed (`RelabelIff`).
* *Round trips.* `fromMinorUnits` with no decimals ends in a bare dot, which `toMinorUnits` refuses (`MinorRoundTrip`);
  the extractor writes a negative remainder's sign after the point (`ExtractorAgrees`).
* *The worker always advances.* With an overlap of 100 or more it can stop for good (`SafeOverlaps`).
* *Nothing is skipped.* A cursor of 0 means "from now", so coverage starts when a cursor is first stored
  (`GapFree`, `ColdCrashSkips`, `GenesisIsComplete`).
* *The clamp.* It never applies to a cursor the worker stored itself; if it did, the stored cursor would not move
  (`ClampNeverFires`, `ClampIsNotStored`).
* *A dry run changes nothing.* It writes no row, and with its default setting no cursor, so a live run after it loses
  nothing (`DryRunLosesNothing`); told to persist its cursor, it passes over what it read (`PersistedDryRunSkips`).
* *The fixture drains.* Exactly when cursors are positive and distinct (`DrainsIff`).
* *POST /payments without an expiry* is accepted by the handler's types, but the column is NOT NULL
  (db/migrations/001_init.sql:11), so the model answers with the database's error.

## Model

| member | source | states |
|---|---|---|
| `Solvency.Solvent` | src/routes/crp.payments.ts:886-953 | Over every interleaving of create, reset, ingest and fulfil from empty tables: the receipts of a network class, token and recipient add up to exactly the amounts of distinct stored transfers, hence to at most all its transfers when none is negative |
| `Solvency.ReceiptsAreTransfers` | src/routes/crp.payments.ts:864-884 | The same equality for any tables in order: pairing each fulfilled challenge with its claimed event is injective, stays inside the pool and preserves the amount |
| `ProtocolLaws.FulfilledIsBacked` | src/routes/crp.payments.ts:886-953 | Over every run, each fulfilled challenge owns a claim on a stored transfer with its receipt's transaction, network class, token, recipient, amount and block |
| `ProtocolLaws.OneEventBacksOne` | src/routes/crp.payments.ts:353-412 | Over every run, two claims on one event are one claim with one owner |
| `ProtocolLaws.ClaimsAreForever` | src/routes/crp.payments.ts:371-389 | From any reachable state on, no run removes a claim or gives it to another challenge |
| `ProtocolLaws.StepKeeps` | src/routes/crp.payments.ts:641-985 | Each of the twelve kinds of step keeps the invariant of tables and requests in flight, and only adds events and claims |
| `ProtocolLaws.RunKeeps` | src/routes/crp.payments.ts:641-985 | The same over every sequence of steps |
| `ProtocolLaws.LoserChangesNothing` | src/routes/crp.payments.ts:391-411 | A request whose event another challenge owns ends without changing a table: told the owner if its statement's snapshot had the claim, with a failed lookup if the claim was committed after the snapshot |
| `ProtocolLaws.OneWinnerPerEvent` | src/routes/crp.payments.ts:886-953 | Any two commits of one run on one event are by the same challenge |
| `ProtocolLaws.ClaimKeyIsExact` | src/routes/crp.payments.ts:371-389 | Two claims that fit one stored event have the same key, so the equivalent-network arm cannot find a second claim |
| `ProtocolLaws.SelectedIsEvidence` | src/routes/crp.payments.ts:740-832 | The event the lookup selects, through any spelling of the network, is evidence for the receipt built from it; the receipt's event carries the request's tuple, and its contract is that of the matched row's metadata filled up from the request |
| `ProtocolRuns.FirstWriterWins` | src/store/repo.pg.ts:72-143 | After a first post, over any run without a reset, a further post changes nothing and answers "same payload" exactly when it equals what the first payload reads back as, up to the spelling of the network; otherwise conflict |
| `ProtocolRuns.RunKeepsPayload` | src/routes/crp.payments.ts:471-488 | The payload fields of a stored challenge change in no run without POST /payments for its key |
| `ProtocolRuns.ReceiptIsFinal` | src/routes/crp.payments.ts:720-735 | Over every run without a reset, a fulfilled challenge keeps its proof and its payload as long as every request that read it earlier holds the same proof; if no such request is left its whole row stays as it is |
| `ReceiptRuns.CommitAgreesIff` | src/routes/crp.payments.ts:710-940 | Over any run from a request's match read to its commit: what the receipt says was paid agrees with the row it is stored in if and only if the contract in the matched row's metadata fits that row, and no POST /payments for the challenge was accepted in between or the last one asks for the same tuple; the whole receipt, with its expiry and every contract member, if and only if that last one also has an expiry of the same effect and the same contract |
| `ReceiptRuns.EventAgreesIff` | src/routes/crp.payments.ts:710-940 | The payment event, chain id and asset alone, from any state in which the row has the tuple: they agree with the row at commit if and only if no reset was accepted or the last one asks for the same tuple |
| `ReceiptRuns.NoResetAgrees` | src/routes/crp.payments.ts:792-832 | Without a reset between match read and commit, row and receipt agree, in what was paid and in whole, if and only if the merchant, network, recipient and amount in metadata.contract are absent or repeat the row's own |
| `ProtocolRuns.AgreementDecides` | src/routes/crp.payments.ts:787-832 | What was paid, for one receipt and any row: decided by the request that last wrote the row and by the contract in the metadata that was read |
| `ProtocolRuns.FullAgreementDecides` | src/routes/crp.payments.ts:787-884 | The whole receipt: decided by whether the last write repeats the challenge that was read, in tuple, effective expiry and contract, and by that contract |
| `Race.ForeignContract` | src/routes/crp.payments.ts:792-832 | Every fulfil that settles a challenge whose metadata holds a contract that does not fit stores, with no reset and nothing else under way, a receipt that agrees with the event and disagrees with the row |
| `Race.ForeignContractHappens` | src/routes/crp.payments.ts:792-832 | Concrete requests: a challenge for 7 to "a" is posted, and the signed contract says 1000000 to "b" |
| `Race.SettlesFromEmpty` | src/routes/crp.payments.ts:420-985 | A run from empty tables on which all of this happens: an event is ingested, a challenge posted and fulfilled, and its receipt says 7 to "a" |
| `ReceiptRuns.SameEventSameProof` | src/routes/crp.payments.ts:787-884 | Two requests that matched one payload and selected one event hold the same proof, up to the spelling of the contract's network |
| `ReceiptRuns.OwnsWhatItCommits` | src/routes/crp.payments.ts:886-953 | Over every run a challenge owns exactly the claims it owned before and those its own requests committed on |
| `ReceiptRuns.OneClaimWithoutOverlap` | src/routes/crp.payments.ts:710-953 | Over every run without a reset in which no commit for the challenge happens while another request for it, past its match read, has yet to select an event or has selected a different one, the challenge takes at most one event |
| `ReceiptRuns.RepeatAfterRun` | src/routes/crp.payments.ts:720-735 | After a fulfil that succeeded and any run without a reset, with only requests for the same proof under way, repeating it changes no table and replays the same proof whenever the search finds the row |
| `Race.OverlapTakesTwo` | src/routes/crp.payments.ts:710-953 | For any two fulfils of one challenge that would each settle on different events there is a run, without a reset, in which both commit: the second receipt replaces the first and both events stay claimed |
| `ProtocolRuns.FulfilIsARun` | src/routes/crp.payments.ts:641-985 | The handler run without interruption is one of the interleaved runs and ends in the same tables |
| `ProtocolRuns.HandlersAreRuns` | src/routes/crp.payments.ts:420-515 | So is every other handler, and a change of the registry, in one step |
| `Race.ResetRace` | src/routes/crp.payments.ts:471-488 | For every fulfil that would succeed and every accepted reset of its challenge there is a run of the two that ends fulfilled; what was paid agrees with the row if and only if the reset asks for the same tuple, the whole receipt if and only if it repeats the challenge, given that the metadata's contract fits |
| `Race.ResetRaceHappens` | src/routes/crp.payments.ts:471-488 | Concrete tables and requests on which what was paid disagrees |
| `Race.ExpiryRaceHappens` | src/routes/crp.payments.ts:834-846 | Concrete ones on which a reset to the same tuple leaves a row that expires at 60 with a receipt signed to expire at 100 |
| `PaymentLaws.FulfilOutcome` | src/routes/crp.payments.ts:641-985 | An uninterrupted fulfil settles exactly when its preconditions hold, changes nothing otherwise, and when it settles changes only its row and one claim: the row is backed and agrees with the receipt's event and expiry, and with the whole receipt if and only if the contract in its metadata fits it |
| `PaymentLaws.SettleOutcome` | src/routes/crp.payments.ts:886-953 | Claim and update together keep the tables in order and leave the challenge backed by the claimed event |
| `PaymentLaws.RepeatedFulfil` | src/routes/crp.payments.ts:722-735 | Repeating a fulfil that succeeded changes no table; the reply is the stored row with the same receipt whenever the search finds the row, which it does with at most 100 rows on the shelf |
| `PaymentLaws.FulfilReplays` | src/routes/crp.payments.ts:722-735 | A fulfil of a challenge that is already fulfilled changes nothing and replays the row the search returns |
| `PaymentLaws.OnlyOwnerReclaims` | src/routes/crp.payments.ts:391-411 | After any run, resets included, the owner of a claim is given its event again without an insert and everyone else is refused by the owner's name |
| `PaymentLaws.ClaimDecides` | src/routes/crp.payments.ts:353-412 | The claim statement succeeds if and only if nobody else owns a claim on the event, however its network is spelled |
| `PaymentLaws.CreateThenMatch` | src/routes/crp.payments.ts:420-515 | A challenge just created has the tuple a match with the same body asks for, is stored in normal form, and no other row changed |
| `PaymentLaws.FulfilReplies` | src/routes/crp.payments.ts:641-985 | Which answer an admitted, uninterrupted fulfil gives, each exactly when: no match, replay, match only, bad amount, no event (then none is stored that fits), event claimed (naming an owner of the event); the two internal errors never |
| `PaymentLaws.ClaimNamesOwner` | src/routes/crp.payments.ts:391-411 | A refused claim names another challenge that owns a claim on the event, and the lookup never fails |
| `PaymentLaws.TxHashIsCanonical` | src/routes/crp.payments.ts:86-93 | Transaction hashes are looked up in one form whatever their case and outer white space, and no two different hashes share it |
| `PaymentLaws.TxHashForm` | src/routes/crp.payments.ts:86-93 | That form: none for a blank text; 32 to 128 hexadecimal digits of either case in low letters, digit by digit; anything else only trimmed |
| `PaymentLaws.GetPltAssetWhere` | src/store/pltAssets.pg.ts:32-71 | The registry lookup finds a row under one of the names exactly when there is one |
| `PaymentLaws.RegistryRespectsClass` | src/routes/crp.payments.ts:244-300 | Equivalent spellings of a network resolve an asset alike when the registry rows of its names do not contradict each other |
| `PaymentCases.NormalizeDecides` | src/routes/crp.payments.ts:244-300 | An asset is refused as disabled if and only if its registry row is, as a mismatch if and only if the row is enabled and has other decimals than the positive ones given; else it takes the row's decimals; without a row, or for another kind, it stays as it is; the genesis index is the given one, else the default |
| `PaymentCases.RegistryReads` | src/store/pltAssets.pg.ts:32-71 | The row that counts is the one under the network's own normal form, else the one under its other name; nothing is found if and only if neither exists |
| `PaymentCases.CreateReplies` | src/routes/crp.payments.ts:428-515 | Which answer POST /payments gives, each if and only if: bad request (a blank field, decimals that are no number, or a mismatch), disabled, the missing expiry, created; and that only its own row changes, and only then |
| `PaymentCases.CreatedRowSays` | src/routes/crp.payments.ts:471-515 | Every field of the row written, from the request: trimmed text, normal network, the registry's decimals, policy and metadata as they read back, pending, no receipt, created now or when it first was |
| `PaymentCases.AdmitReplies` | src/routes/crp.payments.ts:641-708 | Which refusal fulfil's admission gives, each if and only if, and every field of what it admits otherwise |
| `PaymentCases.FulfilRefusals` | src/routes/crp.payments.ts:641-760 | The replies "asset disabled" and "bad request" of fulfil itself, each if and only if |
| `PaymentCases.NeverDisabled` | src/routes/crp.payments.ts:276-278 | A PLT challenge all of whose registry rows are disabled is neither created nor admitted |
| `PaymentCases.LookupMeans` | src/routes/crp.payments.ts:187-237 | The lookup answers with the first event, by index, that is a transfer of the asked transaction, network, genesis index, token, recipient and exact amount as a rational, and with none if and only if no event is |
| `PaymentCases.NoEventIff` | src/routes/crp.payments.ts:752-783 | Fulfil answers "no event" if and only if it looks for one and no stored event pays for the request in that sense |
| `ReceiptCases.SettledReceipt` | src/routes/crp.payments.ts:740-953 | A fulfil that settles: its event is the first that pays, the receipt's members are the event's and the request's, each under its own name, its contract says what the stored metadata says, and the one claim taken is on the event's own key |
| `ReceiptCases.BuiltContractSays` | src/routes/crp.payments.ts:792-832 | All nine members of a contract over the metadata: contractId, version and frozen flag (missing means true) of metadata.contract, method and path of its resource, and merchant, network, amount and recipient from it or else the request's; a string is itself, null and absent are the fallback, and the last six are trimmed |
| `ReceiptCases.ContractIsDetermined` | src/routes/crp.payments.ts:792-832 | No other contract says the same |
| `ReceiptCases.PostedContractIsSigned` | src/routes/crp.payments.ts:420-985 | From post to receipt: a challenge just created and then fulfilled has, in its signed receipt, the contract its poster put in the metadata |
| `ReceiptCases.SettledChain` | src/routes/crp.payments.ts:824 | A receipt for a request on "concordium:testnet" or "concordium:mainnet", in any case, carries that network's genesis hash |
| `PaymentLaws.NormalizeAssetStable` | src/routes/crp.payments.ts:244-300 | Normalising an asset by the registry twice is doing it once; only decimals can change, and only from "not provided" |
| `Facilitator.Service.constructor` | src/routes/crp.payments.ts:420-424 | Starts from empty tables that are in order, with the given asset registry |
| `Facilitator.Service.CreatePayment` | src/routes/crp.payments.ts:420-515 | The imperative handler: its new tables and reply are those of the specification, and the invariant holds |
| `Facilitator.Service.PostChallenge` | src/store/repo.pg.ts:72-143 | The imperative upsert, likewise |
| `Facilitator.Service.InsertPltTransfers` | src/store/plt.pg.ts:206-278 | Ingestion keeps every challenge backed |
| `Facilitator.Service.FindPltEventByTx` | src/routes/crp.payments.ts:187-237 | Returns a matching event with the least index, or nothing exactly when no event matches |
| `Facilitator.Service.ClaimPltEvent` | src/routes/crp.payments.ts:353-412 | The claim statement: an allowed answer, its verdict, and the new claim table |
| `Facilitator.Service.ClaimAndPersist` | src/routes/crp.payments.ts:886-953 | Claim, update, commit, with rollback on every refusal: new tables and reply are those of the specification |
| `Facilitator.Service.Fulfil` | src/routes/crp.payments.ts:641-985 | The whole handler, statement by statement: some answers PostgreSQL may give lead to exactly the specified tables and reply, and the invariant holds |
| `Challenges.SearchPayments` | src/store/match.pg.ts:64-134 | Returns distinct rows that pass the filters, newest first, as many as the cap allows, none left out that is newer than one returned |
| `Challenges.FindExactMatch` | src/routes/crp.payments.ts:306-335 | Searches, then returns the first row with the exact tuple |
| `ChallengeLaws.ExactMatchIsUnique` | src/routes/crp.payments.ts:306-335 | A returned row is the row of the request's (merchant, nonce) with the requested tuple up to network equivalence; it is returned exactly when it is on the page |
| `ChallengeLaws.TupleIff` | src/routes/crp.payments.ts:317-332 | The tuple field by field: a row has it if and only if amount and recipient are the same text, its network is a name of the request's, its asset's type and token are those strings and its decimals the same number |
| `SearchLaws.FoundIff` | src/store/match.pg.ts:116-131 | A row with the requested tuple is found in every answer PostgreSQL may give if and only if fewer than 100 other rows on the shelf are at least as new, and in none if and only if 100 are newer |
| `ChallengeLaws.FoundWithinCap` | src/store/match.pg.ts:116-119 | Hence with at most 100 rows for the merchant, token and recipient it is always found |
| `ChallengeLaws.PageMembership` | src/store/match.pg.ts:116-131 | When a selected row is on the page: fewer than `limit` others at least as new put it there, `limit` newer ones keep it out |
| `ChallengeLaws.PageLength` | src/store/match.pg.ts:116-119 | How many rows an answer has: 25 without a limit, the limit from 1 to 100, 1 below and 100 above, unless fewer are selected |
| `ChallengeLaws.FiltersNarrow` | src/store/match.pg.ts:85-114 | The merchant, recipient and status filters each narrow the selection by their own condition |
| `ChallengeLaws.TokenNarrows` | src/store/match.pg.ts:100-104 | So does the token's; without any filter every row is selected |
| `ChallengeLaws.NetworkNarrows` | src/store/match.pg.ts:76-98 | The network filter keeps the rows of the candidates given, else those stored under a name of the network given, unless it is blank |
| `ChallengeLaws.AliasAgrees` | src/http/crpExactMatchAlias.ts:220-242 | Below the cap, for rows written by POST /payments, the GET alias returns the same row as POST match although it filters networks before the cap |
| `ChallengeLaws.RepostAnswers` | src/store/repo.pg.ts:120-143 | A post straight after another is "same payload" exactly when it equals the first as the application reads it back, up to network spelling, and changes nothing |
| `ChallengeLaws.FirstPost` | src/store/repo.pg.ts:72-118 | The row a first post stores: its payload, JSON as it reads back and null as {}, pending, without a receipt, created now |
| `ChallengeLaws.IdenticalRepostAccepted` | src/store/repo.pg.ts:128-135 | "Same nonce, identical payload, same outcome" holds if and only if every object in the payload lists its keys in read order: array indexes ascending, then the others by length and bytes |
| `ChallengeLaws.KeyOrderMatters` | src/store/repo.pg.ts:130 | Two concrete assets: one out of order, and the shape POST /payments writes, in order |
| `ChallengeLaws.IndexKeysComeFirst` | src/store/repo.pg.ts:128-135 | An object with an index key that is out of JSONB order and still comes back as it was written |
| `JsLaws.ReadBackFixedIff` | src/store/repo.pg.ts:106-135 | Storing a value in a JSONB column and parsing what comes back returns it unchanged if and only if its keys were in read order; what comes back is a fixed point |
| `JsLaws.IndexOrder` | src/store/repo.pg.ts:106-135 | On array indexes JSONB's order of keys, by length and bytes, is the numeric order |
| `JsLaws.GetReadBack` | src/store/repo.pg.ts:106-135 | A member of a value read back is the member of the value, read back: of several fields with one key, the last |
| `JsLaws.IndexIff` | src/store/repo.pg.ts:128-135 | The keys a JavaScript object lists first are the numerals of the numbers below 2^32 - 1 |
| `JsLaws.MemberTextCases` | src/store/match.pg.ts:100-104 | `asset->>key`: a string is itself, numbers and booleans are printed, null and absent are NULL |
| `JsLaws.TextReadsBack` | src/routes/crp.payments.ts:792-832 | The way through a JSONB column and back does not change the text `String()` makes of a value |
| `JsLaws.NumberCases` | src/routes/crp.payments.ts:330 | `Number()`: an integer and its text are that integer, null and blank text 0, an absent member and an object no number |
| `Json.JsonbFixedIff` | src/store/repo.pg.ts:106-111 | The JSON text of a JSONB column is the text written if and only if its keys were in JSONB order |
| `Json.JsonbIsOrdered` | src/store/repo.pg.ts:106-111 | The JSON text of a JSONB column has its keys in JSONB order at every level |
| `NetworkId.NormalizeIdempotent` | src/lib/networkId.ts:18-41 | Normalising twice is normalising once, for every text |
| `NetworkId.NormalizeIsTrimmed` | src/lib/networkId.ts:18-41 | A normal form has no outer white space |
| `NetworkId.NamesNormalize` | src/lib/networkId.ts:18-27 | Blank text, and only that, normalises to the empty text; the two legacy names, in any case and with white space around them, to themselves |
| `NetworkId.CaipNormalizes` | src/lib/networkId.ts:29-37 | "ccd:" in any case, a reference and whatever follows its next colon: the prefix is written low, the reference trimmed, the rest dropped |
| `NetworkId.OthersPass` | src/lib/networkId.ts:39-40 | Any other text is only trimmed |
| `NetworkId.ReceiptNames` | src/routes/crp.payments.ts:110-115 | The chain id of a receipt is never a legacy name: it is the network's normal form, or the genesis hash written out here when that form is a legacy name |
| `NetworkId.LegacyNamesBecomeChainIds` | src/routes/crp.payments.ts:110-115 | Both legacy names, in any case, become "ccd:4221332d34e1694168c2a0c0b3fd0f27" and "ccd:9dd9ca4d19e9393877d2c44b70f89acb" |
| `NetworkId.EquivalenceRelation` | src/store/repo.pg.ts:54-64 | networksEquivalent is reflexive, symmetric and transitive |
| `NetworkId.CanonicalIsCompleteInvariant` | src/routes/crp.payments.ts:110-115 | Two ids are equivalent exactly when the receipt chain id is the same |
| `NetworkId.CandidatesAreTheClass` | src/lib/networkId.ts:48-75 | For an id that does not normalise to the empty text, the candidates are exactly the normal forms equivalent to it, each once; otherwise there are none |
| `NetworkId.CandidatesRespectClass` | src/lib/networkId.ts:48-75 | Equivalent ids have the same candidates |
| `NetworkId.NamesAreCandidates` | src/lib/networkId.ts:48-75 | The candidates of any id are exactly the nonempty normal forms of its equivalents |
| `NetworkId.CollectCandidates` | src/lib/networkId.ts:48-75 | The insertion-ordered set built add by add is the candidate list |
| `Decimals.ToMinorUnits` | src/crp/decimals-registry.ts:75-107 | The loop computes the specified result or error |
| `Decimals.FromMinorUnits` | src/crp/decimals-registry.ts:109-136 | The loop computes the specified result or error |
| `DecimalLaws.ToMinorExact` | src/crp/decimals-registry.ts:75-107 | Accepted exactly for well-formed amounts with no more places than the token has; the result is the canonical numeral of amount * 10^decimals |
| `DecimalLaws.AmountGrammar` | src/crp/decimals-registry.ts:80-86 | The amounts accepted are an optional minus, digits and optionally a point with more digits, and denote those digits |
| `DecimalLaws.ToMinorErrors` | src/crp/decimals-registry.ts:75-97 | Which of the three errors is given, each if and only if |
| `DecimalLaws.FromMinorErrors` | src/crp/decimals-registry.ts:112-120 | Which of the two errors is given, each if and only if |
| `DecimalLaws.TextTestIsNumeric` | src/routes/crp.payments.ts:214 | `amount_raw::text = $5` holds exactly when the stored integer and the amount are the same rational |
| `DecimalLaws.FromMinorExact` | src/crp/decimals-registry.ts:109-136 | For d >= 1 the major form denotes minor / 10^d; for d = 0 it ends in a bare dot and is no amount |
| `DecimalLaws.MinorRoundTrip` | src/crp/decimals-registry.ts:75-136 | Minor to major and back is the canonical form for every signed digit string when d >= 1, and an error when d = 0 |
| `DecimalLaws.MajorRoundTrip` | src/crp/decimals-registry.ts:75-136 | Major to minor and back denotes the same rational, for d >= 1 |
| `DecimalLaws.FormatRoundTrip` | src/worker/pltDecimals.ts:55-75 | The worker's display form converts back to the canonical minor amount for every d >= 0 |
| `DecimalLaws.FormatIsShort` | src/worker/pltDecimals.ts:55-75 | That form has no zero at the end of its fraction, no point without one, and no leading zero that was not given |
| `DecimalLaws.FormatOdd` | src/worker/pltDecimals.ts:55-75 | The empty text becomes "0", and negative decimals change nothing |
| `DecimalLaws.ExtractorAgrees` | src/crp/pltExtractor.ts:71-77 | Division, remainder and padding give the same text as pad-and-slice if and only if d >= 1 and the amount is not negative or has no fractional part |
| `DecimalLaws.ExtractorDiffers` | src/crp/pltExtractor.ts:71-77 | What is written where they differ: ".0" without decimals, and below zero the remainder's minus after the point |
| `Numerals.IntTextInjective` | src/routes/crp.payments.ts:214 | Printed integers are equal as text exactly when they are equal |
| `Numerals.NumeralIsUnique` | src/crp/decimals-registry.ts:95-107 | A digit text without leading zeros is the only numeral of its value |
| `Relabel.RelabelIff` | src/store/plt.pg.ts:129-137 | Rewriting a registry key, which relabels stored events by cascade, keeps every claim and receipt in order if and only if the new key is taken and the rewrite fails, the new name has the old one's normal form, or no relabelled event was claimed |
| `Relabel.SafeWithFlights` | src/store/plt.pg.ts:129-137 | A rewrite to a name of the same normal form keeps the whole invariant, with requests in flight |
| `Relabel.NormalizingIsSafe` | src/tools/reportCaip2NetworkInventory.ts:174-183 | Rewriting a registry key to its normal form is safe at any moment |
| `Relabel.AliasFreesEvent` | src/routes/crp.payments.ts:371-389 | After an unsafe rewrite a claimed event can be claimed by another challenge |
| `Signer.Base64RoundTrip` | src/crypto/signer.ts:25-32 | Decoding the base64 text of any bytes gives the bytes (RFC 4648, section 4) |
| `Signer.RestoreBase64` | src/crypto/signer.ts:28-32 | The padding loop computes the restored text |
| `Signer.PaddingRestored` | src/crypto/signer.ts:25-32 | The padding re-added is the padding stripped, and no URL-form text contains a dot |
| `Signer.UrlRoundTrip` | src/crypto/signer.ts:25-32 | b64urlToBuf(b64url(x)) = x for every byte string |
| `Signer.SignedTokenVerifies` | src/crypto/signer.ts:62-92 | Every signed token splits into its three parts and verifies with its payload, for any correct signature scheme and JSON codec |
| `Signer.AcceptedTokenIsSigned` | src/crypto/signer.ts:71-96 | Hence an accepted token is two dot-free parts, a dot and a signature that verifies over exactly those parts, and the payload is the second part's |
| `Signer.VerdictIff` | src/crypto/signer.ts:71-96 | Verification answers with a header and a payload if and only if the token has three parts that carry them, the header says "EdDSA" and the signature is good; which error is given otherwise |
| `Signer.RestoreForm` | src/crypto/signer.ts:28-32 | The text handed to the base64 decoder, character by character |
| `Signer.Rfc4648Vectors` | src/crypto/signer.ts:25-27 | The encoder on the vectors of RFC 4648, section 10 |
| `Signer.UrlVector` | src/crypto/signer.ts:25-27 | A byte string whose text uses both characters that the URL form replaces |
| `PltStore.BuildInsert` | src/store/plt.pg.ts:213-269 | The tuples numbered 13 * i + k read the flat array back as the i-th event, column by column |
| `PltStore.TupleDenotes` | src/store/plt.pg.ts:217-245 | The tuple numbered from 13 * i denotes the i-th event |
| `PltStore.EventStore.InsertPltTransfers` | src/store/plt.pg.ts:206-278 | The table becomes that of row-by-row INSERT ... DO NOTHING; the count is the number of rows added |
| `PltStore.EventStore.Execute` | src/store/plt.pg.ts:271-277 | PostgreSQL's side of the statement: rows added in order, conflicts skipped, new rows counted |
| `PltStore.InsertKeys` | src/store/plt.pg.ts:271-274 | An insert adds exactly the batch's keys and keeps every stored row |
| `PltStore.FirstOccurrenceWins` | src/store/plt.pg.ts:271-274 | A new key gets the content of its first occurrence in the batch field by field, its amount read as an integer |
| `PltStore.InsertIdempotent` | src/store/plt.pg.ts:271-274 | Inserting a batch whose keys are stored changes nothing |
| `WorkerRuns.GapFree` | src/worker/main.ts:250-343 | Over every run with crashes between any two effects, restarts, growth and other writers: each transaction that names the watched token and an amount, after the covered start and up to the stored cursor, has its row, alone under its key, with its own content unless another program wrote the key first |
| `WorkerRuns.GenesisIsComplete` | src/worker/main.ts:206-214 | With zero meaning genesis there is no covered start: every transaction that names the watched token and an amount, up to the stored cursor, has its row |
| `WorkerRuns.NeverGoesBack` | src/worker/main.ts:149-160 | From any state and over any run without an override: the stored cursor never decreases, the covered start never moves, no event row changes or disappears |
| `Worker.ClampNeverFires` | src/worker/main.ts:190-204 | In every state the invariant allows the start-up clamp does not apply |
| `WorkerRuns.ClampIsNotStored` | src/worker/main.ts:191-203 | If the clamp did apply it would lower only the cursor in memory; the stored one stays, because the write keeps the greater value |
| `Worker.StepKeeps` | src/worker/main.ts:222-344 | Growth, other writers, boot, fetch, insert, cursor write and crash each keep the worker's invariant |
| `Worker.BootKeeps` | src/worker/main.ts:166-220 | A restart resumes at the stored cursor; with none stored, "from now" sets the covered start to the latest id |
| `WorkerRuns.ColdCrashSkips` | src/worker/main.ts:206-214 | Why coverage starts there: a crash before the first cursor is stored makes the restart pass over a transaction, for every matching first transaction |
| `WorkerRuns.DryRunWritesNoRow` | src/worker/main.ts:307-327 | In a dry run no event row is the worker's |
| `DryRuns.SilentKeepsCursor` | src/worker/main.ts:335-337 | Over every run without a start, a dry run that does not persist its cursor leaves the stored cursor where it was |
| `DryRuns.TickStores` | src/worker/main.ts:262-338 | Whatever the settings, a tick stores the greater of the two cursors if it advances and is not a dry one that keeps its cursor to itself, and nothing otherwise |
| `DryRuns.DryRunLosesNothing` | src/worker/main.ts:166-344 | From a state with a stored cursor, any dry run that keeps its cursor to itself, without an override and with a guard that is not negative, leaves the stored cursor where it was; and after any live run that follows, every transfer of the token from the covered start to the stored cursor has its row |
| `DryRuns.PersistedDryRunSkips` | src/worker/main.ts:335-337 | A dry run that does persist its cursor passes over every transfer it reads that has no row |
| `DryRuns.StartCursor` | src/worker/main.ts:166-220 | The start cursor, case by case: override, stored cursor or 0; how far the clamp rewinds; "from now"; and what is stored |
| `WorkerRuns.OnlyTransfers` | src/worker/main.ts:262-338 | Over every run each row that is the worker's reports a transaction of the history that names the watched token and an amount |
| `WorkerRuns.TicksDrain` | src/worker/main.ts:262-338 | With an overlap of at most 99, n ticks read at least n * (100 - overlap) of what was unread, however the history grows |
| `WorkerRuns.TicksIngest` | src/worker/main.ts:262-338 | Hence within ceil(unread / (100 - overlap)) ticks every transaction that names the watched token and an amount has its row |
| `WorkerRuns.StreamWorker.constructor` | src/worker/main.ts:366-376 | Starts at the resolved cursor |
| `WorkerRuns.StreamWorker.UpsertCursor` | src/worker/main.ts:149-160 | Stores the greater of the old and the new cursor |
| `WorkerRuns.StreamWorker.ResolveStartCursor` | src/worker/main.ts:166-220 | Override, stored cursor, clamp and "from now", as specified |
| `WorkerRuns.StreamWorker.RunTick` | src/worker/main.ts:256-338 | One turn of the loop performs the four steps of a tick |
| `WorkerRuns.StreamWorker.RunWorker` | src/worker/main.ts:222-344 | The loop performs a run of the state machine, with the number of ticks maxTicks and the stop request allow |
| `WalletSource.FetchSince` | src/worker/pltSource.concordium.ts:94-225 | Returns exactly one event, in order and field by field, for each transaction between the old cursor and the one it returns that names the watched token and an amount |
| `WalletSource.MatchesIff` | src/worker/pltSource.concordium.ts:134-148 | The test a transaction is filtered by: it names the watched token and its amount is not blank |
| `WalletSource.FetchReports` | src/worker/pltSource.concordium.ts:94-225 | Each event fetched reports a transaction between the cursors that names the watched token and an amount, each such transaction is reported by exactly one, in order, and field by field |
| `WalletSource.BestId` | src/worker/pltSource.concordium.ts:117-122 | The greatest id seen, never below the cursor |
| `WalletSource.NewTransactions` | src/worker/pltSource.concordium.ts:124-128 | The transactions strictly past the cursor |
| `WalletSource.Extract` | src/worker/pltSource.concordium.ts:130-203 | One event for each transaction that names the token and an amount, in order and field by field |
| `WalletSource.NewerIsBetween` | src/worker/pltSource.concordium.ts:97-128 | The new part of a page is what lies between the cursors, whatever the overlap |
| `WalletSource.OverlapGivesPrefix` | src/worker/pltSource.concordium.ts:97-128 | The events fetched with an overlap are a prefix of those fetched with none |
| `Paging.AdvanceReads` | src/worker/pltSource.concordium.ts:97-122 | After a fetch the cursor has read exactly to the later of where it was and the page's end |
| `Paging.FetchProgress` | src/worker/pltSource.concordium.ts:97-122 | A fetch advances if and only if something is unread and fewer than 100 read ids lie in the overlap window, and how far |
| `Paging.SafeOverlaps` | src/worker/pltSource.concordium.ts:97-122 | Every fetch with something unread advances if and only if the overlap is at most 99 |
| `Paging.StuckOnDenseIds` | src/worker/pltSource.concordium.ts:97-122 | For each overlap from 100 on, ids on which the worker stops for good |
| `Paging.Drains` | src/worker/pltSource.concordium.ts:97-122 | The draining bound on ids alone |
| `Fixture.CursorIsLexicographic` | src/worker/pltSource.fixture.ts:43-47 | Derived cursors order rows by height, then index, and are equal only for equal positions, while indices stay below a million |
| `Fixture.CursorsCollide` | src/worker/pltSource.fixture.ts:43-47 | From a million on: the family of rows that share a cursor |
| `Fixture.ParsedAre` | src/worker/pltSource.fixture.ts:79-110 | The rows that count are the objects with block hash and height, transaction, event index, amount and token; the k-th item comes from the k-th of them |
| `Fixture.FullRow` | src/worker/pltSource.fixture.ts:86-107 | An item's fields are its row's, each under its own name |
| `Fixture.BareRow` | src/worker/pltSource.fixture.ts:86-107 | The defaults: the derived cursor, the configured network, a finalized transfer, seen now |
| `Fixture.SliceLength` | src/worker/pltSource.fixture.ts:120 | A page is a front of what is past the cursor: as many as the limit, or all but the last -limit |
| `Fixture.FixtureSource.Load` | src/worker/pltSource.fixture.ts:62-115 | Reads the file once, keeps the usable rows sorted, fails on a missing file or no array without caching |
| `Fixture.FixtureSource.FetchSince` | src/worker/pltSource.fixture.ts:117-148 | The next page past the cursor and its greatest cursor, or the loading error |
| `Fixture.SortIsStable` | src/worker/pltSource.fixture.ts:112 | The sort is sorted, keeps every item, and keeps the file order of equal cursors |
| `Fixture.FetchesAre` | src/worker/pltSource.fixture.ts:117-124 | k fetches from 0 return the first k * limit items in order |
| `Fixture.DrainsIff` | src/worker/pltSource.fixture.ts:117-124 | Repeated fetching yields every item once, in order, and ends, for every page size, if and only if the cursors are positive and no two are equal |
| `PltSearch.BuildWhereClause` | src/plt/pltSearch.ts:90-134 | The chain of conditional pushes compiles the filter's parts |
| `PltSearch.NumbersAreInOrder` | src/plt/pltSearch.ts:96-99 | Clause i names parameter i: each parameter once, in order |
| `PltSearch.StatementMeansFilter` | src/plt/pltSearch.ts:90-134 | The compiled statement selects exactly the rows that satisfy the conjunction of the given filters |
| `PltSearch.TextIgnoresValues` | src/plt/pltSearch.ts:96-99 | The SQL text depends only on which filters are present, not on their values |
| `PltSearch.AnswerIsTheFilter` | src/plt/pltSearch.ts:141-171 | Every returned row satisfies the filter; one left out comes no earlier, and none is left out of an answer shorter than the limit |
| `PltSearch.AnswerPage` | src/plt/pltSearch.ts:141-171 | How many rows an answer has, 50 unless a limit other than 0 is asked for and never more than 500, and its order: latest block first, then by event index |
| `Inventory.Group` | src/tools/reportCaip2NetworkInventory.ts:160-184 | Groups source keys by target key and collects the rewrites |
| `Inventory.Collide` | src/tools/reportCaip2NetworkInventory.ts:186-200 | Collects the collisions and, for fields without bars, counts each colliding row once |
| `Inventory.Report` | src/tools/reportCaip2NetworkInventory.ts:158-208 | Rewrites plus no-ops are all rows; collisions and their count; skipped rows are the rows in collisions |
| `Inventory.RewritesAre` | src/tools/reportCaip2NetworkInventory.ts:168-184 | The proposed rewrites are exactly the rows whose network is not in normal form |
| `Inventory.KeyTextIsRow` | src/tools/reportCaip2NetworkInventory.ts:54-56 | For fields without bars the key text identifies the row |
| `Inventory.CollisionsAreMerges` | src/tools/reportCaip2NetworkInventory.ts:186-196 | A collision is reported exactly where two different rows differ only in how their network is spelled |
| `Inventory.NoCollisionIffSafe` | src/tools/reportCaip2NetworkInventory.ts:186-196 | The collision list is empty if and only if the rewrite keeps the keys apart |
| `Inventory.DependencyGaps` | src/tools/reportCaip2NetworkInventory.ts:216-243 | The loop over events collects the gaps |
| `Inventory.GapsAre` | src/tools/reportCaip2NetworkInventory.ts:233-241 | A gap is reported exactly for an event whose network is not in normal form and from which no asset row differs in spelling alone |
| `Inventory.NoGapUnderForeignKey` | src/tools/reportCaip2NetworkInventory.ts:108-112 | No gap while the foreign key from events to assets holds |

## Left out

- Solvency.Solvent: the inequality assumes that no stored transfer of the pool is negative, which the chain guarantees and the table does not; the equality with the backing transfers needs no such assumption.
- PaymentLaws.FulfilOutcome: the receipt's signature, key id and constant fields, and `updated_at`, are not part of the model.
- Facilitator.Service.Fulfil: the webhook, the wording of errors and the read of the row after the commit are not modelled.
- Challenges.SearchPayments: the text of its WHERE clause is not modelled.
- Challenges.FindExactMatch: JSON numbers are integers, and `Number()` of a text is exact: floating-point rounding of long literals is not modelled.
- ChallengeLaws.IdenticalRepostAccepted: for bodies of the declared types; the route checks none, and a body whose amount or pay_to is a number is compared with the text column and conflicts with itself whatever its keys.
- ProtocolRuns.FirstWriterWins: the upsert's insert and its later select are one step; a reset between the two would change only the answer, not a table.
- ProtocolLaws.StepKeeps: POST /payments reads the asset registry and writes its row in one step, so a registry change between the two is not modelled; registry rows are added and updated but never renamed within a run, which is what `Relabel.RelabelIff` is about.
- PltStore.EventStore.InsertPltTransfers: amounts are integer texts, as the input type's comment demands; the NUMERIC(38, 0) range and the foreign key's check on insert, either of which can only make an insert fail, are not modelled.
- WalletSource.FetchSince: transactions without a numeric id or block time, the three sample events and the log line are not modelled; a failed request is a crash in the state machine.
- WorkerRuns.StreamWorker.RunWorker: sleeping, signals and logging are not modelled; a stop request is the end of the given list of views. One worker per cursor key.
- PltSearch.StatementMeansFilter: amount bounds are integer texts; the spelling of columns and operators in the SQL text is a fixed fragment.
- Inventory.Collide: fields that contain a bar can make two keys share a text; the count of skipped rows is stated for fields without one.
- Inventory.Report: the sorting of the lists for display is not modelled.
- Signer.SignedTokenVerifies: Ed25519, JSON text and Node's lenient base64 decoder are abstract; the decoder is required to agree with RFC 4648 where that gives a meaning.
- NetworkId.NormalizeIdempotent: lower-casing is ASCII, which decides the comparisons with the ASCII literals the same way.
- Timestamps are whole seconds or milliseconds given as integers; clocks are parameters.
- The markFulfilled helper and the admin routes: not mounted by the server.
- Fulfil for assets other than PLT, or with requireEvent off, beyond the fact that it writes nothing.
- GET exact match with requireEvent on, the event search route, pagination of other read routes, and challenge expiry.
- Concordium gRPC decoding, the probe and debugging tools, DDL and migration scripts, readiness and metrics.
