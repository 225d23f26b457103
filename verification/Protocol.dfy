/**
 * The facilitator as a transition system: autocommit requests, and fulfil split at its database round trips, so
 * that any other step may happen in between. Transactions run at READ COMMITTED (PostgreSQL 16 manual, 13.2.1);
 * the claim statement's two arms share one snapshot (7.8.4).
 */
module Protocol {
  import opened Text
  import opened Numerals
  import opened NetworkId
  import opened Decimals
  import opened PltStore
  import opened Challenges
  import opened Payments

  /** How far a fulfil request in flight has come. */
  datatype Phase =
    | AdmittedPhase(req: Request, genesisIndex: int, txHash: string, needsEvent: bool)
    | Matched(req: Request, genesisIndex: int, txHash: string, row: Challenge)
    | Chosen(job: Job)                                   // event read, receipt signed
    | Claiming(job: Job, snapshot: ClaimTable)           // claim statement started
    | Claimed(job: Job, inserted: bool)                  // claim answered; an inserted row is not committed yet
    | Updated(job: Job, inserted: bool)                  // challenge row updated and locked

  datatype Sys = Sys(db: Db, flights: map<int, Phase>)

  const EMPTY := Sys(Db(map[], map[], map[], map[]), map[])

  datatype Label =
    | Create(input: CreateInput, default: int)
    | Post(key: ChallengeKey, payload: Payload, now: int)
    | Ingest(batch: seq<EventInput>)
    | SetAssets(assets: Registry)                        // rows are added, decimals and enabled change
    | Admission(t: int, fulfil: FulfilInput, default: int)
    | ReadMatch(t: int, rows: seq<ChallengeKey>)
    | ReadEvent(t: int, event: Option<EventKey>)
    | StartClaim(t: int)
    | AnswerClaim(t: int, answer: Option<ClaimAnswer>)
    | UpdateRow(t: int)
    | Commit(t: int)
    | Abort(t: int)

  /** A transaction that has inserted a claim or locked a row and not finished. */
  predicate HoldsClaim(p: Phase, c: ClaimKey) { (p.Claimed? || p.Updated?) && p.inserted && p.job.claim == c }

  predicate HoldsRow(p: Phase, k: ChallengeKey) { p.Updated? && KeyFor(p.job.req) == k }

  predicate ClaimFree(s: Sys, t: int, c: ClaimKey) {
    forall u :: u in s.flights && u != t ==> !HoldsClaim(s.flights[u], c)
  }

  predicate RowFree(s: Sys, t: int, k: ChallengeKey) {
    forall u :: u in s.flights && u != t ==> !HoldsRow(s.flights[u], k)
  }

  predicate CreateMayRun(s: Sys, input: CreateInput) {
    forall u :: u in s.flights ==> !HoldsRow(s.flights[u], KeyFor(Clean(input.body)))
  }

  /** When a step can happen; a statement that would wait for another transaction's row cannot. */
  ghost predicate Enabled(s: Sys, l: Label) {
    match l
    case Create(input, default) => CreateMayRun(s, input)
    case Post(key, payload, now) => true
    case Ingest(batch) => IntegerAmounts(batch)
    case SetAssets(assets) => s.db.assets.Keys <= assets.Keys
    case Admission(t, fulfil, default) => t !in s.flights
    case ReadMatch(t, rows) =>
      && t in s.flights && s.flights[t].AdmittedPhase?
      && IsSearchResult(s.db.challenges, MatchFilters(s.flights[t].req), rows)
    case ReadEvent(t, event) =>
      && t in s.flights && s.flights[t].Matched?
      && (event.Some? ==> event.value in s.db.events)
      && EventAnswered(s.db.events, s.flights[t], event)
    case StartClaim(t) => t in s.flights && s.flights[t].Chosen?
    case AnswerClaim(t, answer) =>
      && t in s.flights && s.flights[t].Claiming?
      && ClaimFree(s, t, s.flights[t].job.claim)
      && IsClaimAnswer(s.db.claims, s.flights[t].snapshot, s.flights[t].job.claim, KeyFor(s.flights[t].job.req), answer)
    case UpdateRow(t) =>
      && t in s.flights && s.flights[t].Claimed?
      && RowFree(s, t, KeyFor(s.flights[t].job.req))
    case Commit(t) => t in s.flights && s.flights[t].Updated? && KeyFor(s.flights[t].job.req) in s.db.challenges
    case Abort(t) => t in s.flights
  }

  ghost predicate EventAnswered(events: EventTable, p: Phase, event: Option<EventKey>)
    requires p.Matched?
  {
    match ToMinor(p.req.amount, p.req.asset.decimals)
    case Err(_) => true
    case Ok(minor) => IsEventAnswer(events, QueryFor(p.req, p.genesisIndex, minor, p.txHash), event)
  }

  function Land(s: Sys, t: int): Sys { s.(flights := s.flights - {t}) }

  function Fly(s: Sys, t: int, p: Phase): Sys { s.(flights := s.flights[t := p]) }

  /** The state after an enabled step. */
  ghost function Apply(s: Sys, l: Label): Sys
    requires Enabled(s, l)
  {
    match l
    case Create(input, default) => s.(db := CreatePayment(s.db, default, input).0)
    case Post(key, payload, now) => s.(db := s.db.(challenges := UpsertChallenge(s.db.challenges, key, payload, now).0))
    case Ingest(batch) => s.(db := s.db.(events := InsertAll(s.db.events, batch)))
    case SetAssets(assets) => s.(db := s.db.(assets := assets))
    case Admission(t, fulfil, default) => (
      match Admit(s.db, default, fulfil)
      case Refused(_) => s
      case Admitted(req, g, tx, needsEvent) => Fly(s, t, AdmittedPhase(req, g, tx, needsEvent)))
    case ReadMatch(t, rows) => AfterMatch(s, t, rows)
    case ReadEvent(t, event) => AfterEvent(s, t, event)
    case StartClaim(t) => Fly(s, t, Claiming(s.flights[t].job, s.db.claims))
    case AnswerClaim(t, answer) => AfterClaim(s, t, answer)
    case UpdateRow(t) => AfterUpdate(s, t)
    case Commit(t) => Land(s.(db := Committed(s.db, s.flights[t])), t)
    case Abort(t) => Land(s, t)
  }

  function AfterClaim(s: Sys, t: int, answer: Option<ClaimAnswer>): Sys
    requires t in s.flights && s.flights[t].Claiming?
  {
    var job := s.flights[t].job;
    if Judge(answer, KeyFor(job.req)).ClaimedBySelf? then Fly(s, t, Claimed(job, job.claim !in s.db.claims)) else Land(s, t)
  }

  function AfterUpdate(s: Sys, t: int): Sys
    requires t in s.flights && s.flights[t].Claimed?
  {
    var p := s.flights[t];
    if KeyFor(p.job.req) in s.db.challenges then Fly(s, t, Updated(p.job, p.inserted)) else Land(s, t)
  }

  function Committed(db: Db, p: Phase): Db
    requires p.Updated? && KeyFor(p.job.req) in db.challenges
  {
    var k := KeyFor(p.job.req);
    db.(claims := if p.inserted then db.claims[p.job.claim := k] else db.claims,
        challenges := db.challenges[k := db.challenges[k].(status := Fulfilled, receipt := Some(p.job.receipt))])
  }

  function AfterMatch(s: Sys, t: int, rows: seq<ChallengeKey>): Sys
    requires t in s.flights && s.flights[t].AdmittedPhase?
    requires forall i :: 0 <= i < |rows| ==> rows[i] in s.db.challenges
  {
    var p := s.flights[t];
    match FindExact(s.db.challenges, rows, p.req)
    case None => Land(s, t)
    case Some(k) =>
      FindExactIn(s.db.challenges, rows, p.req);
      var row := s.db.challenges[k];
      if (row.status == Fulfilled && row.receipt.Some?) || !p.needsEvent then Land(s, t)
      else Fly(s, t, Matched(p.req, p.genesisIndex, p.txHash, row))
  }

  function AfterEvent(s: Sys, t: int, event: Option<EventKey>): Sys
    requires t in s.flights && s.flights[t].Matched?
    requires event.Some? ==> event.value in s.db.events
  {
    var p := s.flights[t];
    var (job, _) := SelectJob(s.db, Admitted(p.req, p.genesisIndex, p.txHash, true), p.row, event);
    match job case None => Land(s, t) case Some(j) => Fly(s, t, Chosen(j))
  }

  ghost predicate IsRun(s: Sys, ls: seq<Label>)
    decreases |ls|
  {
    ls == [] || (Enabled(s, ls[0]) && IsRun(Apply(s, ls[0]), ls[1..]))
  }

  ghost function Exec(s: Sys, ls: seq<Label>): Sys
    requires IsRun(s, ls)
    decreases |ls|
  {
    if ls == [] then s else Exec(Apply(s, ls[0]), ls[1..])
  }

  /* ---------- the invariant ---------- */

  /** A claim names a stored event by its key, its network in normal form and its genesis index. */
  predicate ClaimFits(events: EventTable, c: ClaimKey) {
    && EventOf(c) in events
    && c.network == NormalizeNetworkId(events[EventOf(c)].network)
    && c.genesisIndex == events[EventOf(c)].genesisIndex
  }

  /** The receipt says what the claimed event says. */
  predicate Evidence(events: EventTable, c: ClaimKey, r: Receipt) {
    && ClaimFits(events, c) && c.network != ""
    && var e := events[EventOf(c)];
       && e.eventType == "transfer"
       && r.txHash == c.txHash
       && r.chainId == CanonicalChainId(e.network)
       && r.tokenId == e.assetId
       && e.toAddress == Some(r.to)
       && r.amountRaw == IntText(e.amountRaw)
       && r.from == (if e.fromAddress == Some("") then None else e.fromAddress)
       && r.blockHash == e.blockHash && r.blockHeight == e.blockHeight && r.settledAt == e.occurredAt
       && (r.expiresAt.Some? ==> r.expiresAt.value > r.settledAt)
  }

  predicate BackedBy(db: Db, k: ChallengeKey, c: ClaimKey) {
    && k in db.challenges && db.challenges[k].receipt.Some? && db.challenges[k].receipt.value.nonce == k.nonce
    && c in db.claims && db.claims[c] == k
    && Evidence(db.events, c, db.challenges[k].receipt.value)
  }

  ghost predicate Backed(db: Db, k: ChallengeKey) { exists c :: BackedBy(db, k, c) }

  ghost predicate RowInv(db: Db, k: ChallengeKey)
    requires k in db.challenges
  {
    var row := db.challenges[k];
    && (row.status == Pending || row.status == Fulfilled)
    && (row.status == Fulfilled <==> row.receipt.Some?)
    && (row.status == Fulfilled ==> Backed(db, k))
  }

  ghost predicate DbInv(db: Db) {
    && (forall c :: c in db.claims ==> ClaimFits(db.events, c))
    && (forall k :: k in db.challenges ==> RowInv(db, k))
  }

  /** The receipt carries the request's own tuple, its amount in minor units. */
  predicate ReceiptFor(req: Request, r: Receipt) {
    && r.chainId == CanonicalChainId(req.network)
    && r.assetType == req.asset.kind
    && r.tokenId == req.asset.tokenId && r.decimals == req.asset.decimals
    && r.to == req.payTo && r.nonce == req.nonce
    && ToMinor(req.amount, req.asset.decimals) == Ok(r.amountRaw)
  }

  /** A receipt names the challenge's expiry if it lies after the settlement, and none otherwise. */
  predicate ExpiresWith(row: Challenge, r: Receipt) {
    r.expiresAt == if row.expiry > r.settledAt then Some(row.expiry) else None
  }

  /** The handlers trim what they compare. */
  predicate Tidy(req: Request) { IsTrimmed(req.merchantId) && IsTrimmed(req.amount) && IsTrimmed(req.payTo) }

  predicate JobOk(db: Db, job: Job) {
    Evidence(db.events, job.claim, job.receipt) && ReceiptFor(job.req, job.receipt) && KeyFor(job.req) in db.challenges
  }

  predicate SubTable(a: ClaimTable, b: ClaimTable) { forall c :: c in a ==> c in b && b[c] == a[c] }

  ghost predicate FlightOk(db: Db, p: Phase) {
    match p
    case AdmittedPhase(req, _, _, needsEvent) => Complete(req) && Tidy(req) && (needsEvent ==> req.asset.kind == PLT)
    case Matched(req, _, _, _) => KeyFor(req) in db.challenges && req.asset.kind == PLT
    case Chosen(job) => JobOk(db, job)
    case Claiming(job, snapshot) => JobOk(db, job) && SubTable(snapshot, db.claims)
    case Claimed(job, inserted) => JobOk(db, job) && ClaimHeld(db, job, inserted)
    case Updated(job, inserted) => JobOk(db, job) && ClaimHeld(db, job, inserted)
  }

  predicate ClaimHeld(db: Db, job: Job, inserted: bool) {
    if inserted then job.claim !in db.claims
    else job.claim in db.claims && db.claims[job.claim] == KeyFor(job.req)
  }

  ghost predicate FlightsOk(s: Sys) { forall t :: t in s.flights ==> FlightOk(s.db, s.flights[t]) }

  /** No two transactions hold the same uncommitted claim or the same row. */
  ghost predicate Exclusive(s: Sys) {
    forall t :: t in s.flights ==>
      && ((s.flights[t].Claimed? || s.flights[t].Updated?) && s.flights[t].inserted ==> ClaimFree(s, t, s.flights[t].job.claim))
      && (s.flights[t].Updated? ==> RowFree(s, t, KeyFor(s.flights[t].job.req)))
  }

  ghost predicate Inv(s: Sys) { DbInv(s.db) && FlightsOk(s) && Exclusive(s) }
}
