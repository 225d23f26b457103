/** The payment handlers of src/routes/crp.payments.ts, each as one function of the tables. */
module Payments {
  import opened Text
  import opened Numerals
  import opened NetworkId
  import opened Json
  import opened JsValues
  import opened Decimals
  import opened PltStore
  import opened Challenges

  /* ---------- tables ---------- */

  /** PRIMARY KEY (network, network_genesis_index, asset_id). */
  datatype AssetKey = AssetKey(network: string, genesisIndex: int, assetId: string)

  datatype AssetRow = AssetRow(decimals: int, enabled: bool)

  type Registry = map<AssetKey, AssetRow>

  /** PRIMARY KEY (network, network_genesis_index, tx_hash, event_index). */
  datatype ClaimKey = ClaimKey(network: string, genesisIndex: int, txHash: string, eventIndex: int)

  type ClaimTable = map<ClaimKey, ChallengeKey>

  datatype Db = Db(challenges: ChallengeTable, events: EventTable, claims: ClaimTable, assets: Registry)

  /* ---------- request handling ---------- */

  /** A request body's payment tuple; decimals are absent when they are not a number. */
  datatype Body = Body(
    merchantId: string,
    nonce: string,
    network: string,
    kind: string,
    tokenId: string,
    decimals: Option<int>,
    amount: string,
    payTo: string
  )

  function Clean(b: Body): Request {
    Request(Trim(b.merchantId), Trim(b.nonce), NormalizeNetworkId(Trim(b.network)),
            Asset(Trim(b.kind), Trim(b.tokenId), if b.decimals.Some? then b.decimals.value else 0),
            Trim(b.amount), Trim(b.payTo))
  }

  predicate Acceptable(b: Body) { b.decimals.Some? && Complete(Clean(b)) }

  predicate IsHash(s: string) {
    32 <= |s| <= 128 && forall i :: 0 <= i < |s| ==> IsDigit(s[i]) || 'a' <= s[i] <= 'f'
  }

  function ToOptionalTxHash(raw: string): Option<string> {
    var s := Trim(raw);
    if s == "" then None else if IsHash(Lower(s)) then Some(Lower(s)) else Some(s)
  }

  /** The registry row under the first candidate network that has one. */
  function GetPltAsset(reg: Registry, candidates: seq<string>, genesisIndex: int, assetId: string): Option<AssetRow> {
    if candidates == [] then None
    else if AssetKey(candidates[0], genesisIndex, assetId) in reg
    then Some(reg[AssetKey(candidates[0], genesisIndex, assetId)])
    else GetPltAsset(reg, candidates[1..], genesisIndex, assetId)
  }

  const PLT := "PLT"

  datatype Normalized = Normal(asset: Asset, genesisIndex: int) | AssetDisabled | DecimalsMismatch

  /** Decimals of 0 or less count as not provided. */
  function NormalizeAsset(reg: Registry, network: string, asset: Asset, genesisIndex: Option<int>, default: int): Normalized {
    var g := if genesisIndex.Some? then genesisIndex.value else default;
    if asset.kind != PLT then Normal(asset, g)
    else
      match GetPltAsset(reg, NetworkCandidates(network), g, asset.tokenId)
      case None => Normal(asset, g)
      case Some(row) =>
        if !row.enabled then AssetDisabled
        else if asset.decimals > 0 && asset.decimals != row.decimals then DecimalsMismatch
        else Normal(asset.(decimals := row.decimals), g)
  }

  /* ---------- POST /payments ---------- */

  datatype CreateInput = CreateInput(
    body: Body,
    genesisIndex: Option<int>,
    expiry: Option<int>,
    policy: Json,
    metadata: Json,
    now: int
  )

  datatype CreateReply = CreateBadRequest | CreateAssetDisabled | CreateDatabaseError | CreateOk(row: Challenge)

  function PlainObject(j: Json): Json { if j.JObj? then j else JObj([]) }

  function AssetJson(a: Asset): Json {
    JObj([Field("type", JStr(a.kind)), Field("tokenId", JStr(a.tokenId)), Field("decimals", JNum(a.decimals))])
  }

  /** The upsert: pending, no receipt, the old creation time if the row exists; the expiry column is NOT NULL. */
  function CreatePayment(db: Db, default: int, input: CreateInput): (Db, CreateReply) {
    var r := Clean(input.body);
    if !Acceptable(input.body) then (db, CreateBadRequest)
    else
      match NormalizeAsset(db.assets, r.network, r.asset, input.genesisIndex, default)
      case AssetDisabled => (db, CreateAssetDisabled)
      case DecimalsMismatch => (db, CreateBadRequest)
      case Normal(asset, _) =>
        match input.expiry
        case None => (db, CreateDatabaseError)
        case Some(expiry) =>
          var k := KeyFor(r);
          var row := Challenge(r.network, ReadBack(AssetJson(asset)), r.amount, r.payTo, expiry,
                               ReadBack(PlainObject(input.policy)), ReadBack(PlainObject(input.metadata)), Pending, None,
                               if k in db.challenges then db.challenges[k].createdAt else input.now);
          (db.(challenges := db.challenges[k := row]), CreateOk(row))
  }

  /* ---------- POST /payments/fulfill ---------- */

  datatype FulfilInput = FulfilInput(body: Body, genesisIndex: Option<int>, txHash: string, requireEvent: bool)

  datatype Reply =
    | BadRequest
    | DisabledAsset
    | NoMatch
    | Replay(row: Challenge)
    | MatchOnly(row: Challenge)
    | NoEvent
    | EventClaimed(owner: ChallengeKey)
    | ClaimLookupFailed
    | UpdateFailed
    | Done(receipt: Receipt)

  datatype Admission = Refused(reply: Reply) | Admitted(req: Request, genesisIndex: int, txHash: string, needsEvent: bool)

  function Admit(db: Db, default: int, input: FulfilInput): Admission {
    var r := Clean(input.body);
    var tx := ToOptionalTxHash(input.txHash);
    var needsEvent := input.requireEvent && r.asset.kind == PLT;
    if !Acceptable(input.body) then Refused(BadRequest)
    else if needsEvent && tx.None? then Refused(BadRequest)
    else
      match NormalizeAsset(db.assets, r.network, r.asset, input.genesisIndex, default)
      case AssetDisabled => Refused(DisabledAsset)
      case DecimalsMismatch => Refused(BadRequest)
      case Normal(asset, g) => Admitted(r.(asset := asset), g, if tx.Some? then tx.value else "", needsEvent)
  }

  /** `findPltEventByTx`'s parameters and its WHERE clause. */
  datatype EventQuery = EventQuery(
    networks: seq<string>,
    genesisIndex: int,
    tokenId: string,
    payTo: string,
    amountMinor: string,
    txHash: string
  )

  predicate EventMatches(q: EventQuery, k: EventKey, e: PltEvent) {
    && e.network in q.networks
    && e.genesisIndex == q.genesisIndex
    && e.assetId == q.tokenId
    && e.toAddress == Some(q.payTo)
    && IntText(e.amountRaw) == q.amountMinor
    && k.txHash == q.txHash
    && e.eventType == "transfer"
  }

  /** ORDER BY event_index ASC LIMIT 1. */
  ghost predicate IsEventAnswer(events: EventTable, q: EventQuery, answer: Option<EventKey>) {
    match answer
    case None => forall k :: k in events ==> !EventMatches(q, k, events[k])
    case Some(best) =>
      && best in events && EventMatches(q, best, events[best])
      && forall k :: k in events && EventMatches(q, k, events[k]) ==> best.eventIndex <= k.eventIndex
  }

  /** What the claim-and-persist transaction works on. */
  datatype Job = Job(req: Request, claim: ClaimKey, receipt: Receipt)

  function EventOf(c: ClaimKey): EventKey { EventKey(c.txHash, c.eventIndex) }

  /** The contract in a challenge's metadata, if it is a plain object. */
  function OwnContract(metadata: Json): Option<Json> {
    match Get(metadata, "contract")
    case Some(JObj(fields)) => Some(JObj(fields))
    case _ => None
  }

  /** The contract of a receipt: the one in the metadata, member by member, filled up from the request. */
  function BuildContract(req: Request, metadata: Json): Contract {
    var own := OwnContract(metadata);
    var resource := Member(own, "resource");
    Contract(
      TextOf(Member(own, "contractId"), ""),
      TextOf(Member(own, "contractVersion"), ""),
      Member(own, "isFrozen").None? || Truthy(Member(own, "isFrozen").value),
      Trim(TextOf(Member(own, "merchantId"), req.merchantId)),
      Trim(TextOf(Member(resource, "method"), "")),
      Trim(TextOf(Member(resource, "path"), "")),
      Trim(TextOf(Member(own, "network"), req.network)),
      Trim(TextOf(Member(own, "amount"), req.amount)),
      Trim(TextOf(Member(own, "payTo"), req.payTo))
    )
  }

  function BuildReceipt(req: Request, k: EventKey, e: PltEvent, amountMinor: string, matched: Challenge): Receipt {
    Receipt(
      BuildContract(req, matched.metadata),
      CanonicalChainId(NormalizeNetworkId(e.network)),
      PLT,
      req.asset.tokenId,
      req.asset.decimals,
      req.nonce,
      e.occurredAt,
      if matched.expiry > e.occurredAt then Some(matched.expiry) else None,
      k.txHash,
      e.blockHash,
      e.blockHeight,
      amountMinor,
      if e.fromAddress == Some("") then None else e.fromAddress,
      req.payTo
    )
  }

  /** The claim's key: the event's, with its network in normal form. */
  function ClaimKeyFor(genesisIndex: int, k: EventKey, e: PltEvent): ClaimKey {
    ClaimKey(NormalizeNetworkId(e.network), genesisIndex, k.txHash, k.eventIndex)
  }

  function BuildJob(req: Request, genesisIndex: int, k: EventKey, e: PltEvent, amountMinor: string, matched: Challenge): Job {
    Job(req, ClaimKeyFor(genesisIndex, k, e), BuildReceipt(req, k, e, amountMinor, matched))
  }

  function QueryFor(req: Request, genesisIndex: int, amountMinor: string, txHash: string): EventQuery {
    EventQuery(NetworkCandidates(req.network), genesisIndex, req.asset.tokenId, req.payTo, amountMinor, txHash)
  }

  /* ---------- claimPltEvent ---------- */

  datatype ClaimAnswer = ClaimAnswer(owner: ChallengeKey, inserted: bool)

  datatype ClaimResult = ClaimedBySelf(inserted: bool) | ClaimedByOther(owner: ChallengeKey) | LookupFailed

  /** Existing claims on the same event under any equivalent network. */
  predicate SameEventClaim(c: ClaimKey, d: ClaimKey) {
    && d.network in NetworkCandidates(c.network)
    && d.genesisIndex == c.genesisIndex && d.txHash == c.txHash && d.eventIndex == c.eventIndex
  }

  /**
   * The one row the statement returns. The insert sees the committed table; the second arm reads the statement's
   * snapshot. Of several rows LIMIT 1 may keep any.
   */
  ghost predicate IsClaimAnswer(committed: ClaimTable, snapshot: ClaimTable, c: ClaimKey, self: ChallengeKey,
                                answer: Option<ClaimAnswer>) {
    match answer
    case None => c in committed && forall d :: d in snapshot ==> !SameEventClaim(c, d)
    case Some(a) =>
      || (a == ClaimAnswer(self, true) && c !in committed)
      || (!a.inserted && exists d :: d in snapshot && SameEventClaim(c, d) && snapshot[d] == a.owner)
  }

  function Judge(answer: Option<ClaimAnswer>, self: ChallengeKey): ClaimResult {
    match answer
    case None => LookupFailed
    case Some(a) => if a.owner == self then ClaimedBySelf(a.inserted) else ClaimedByOther(a.owner)
  }

  /** INSERT ... ON CONFLICT DO NOTHING on the exact key. */
  function InsertClaim(claims: ClaimTable, c: ClaimKey, self: ChallengeKey): ClaimTable {
    if c in claims then claims else claims[c := self]
  }

  /** The challenge update and the claim, committed together. */
  function Settle(db: Db, job: Job): Db
    requires KeyFor(job.req) in db.challenges
  {
    var k := KeyFor(job.req);
    db.(claims := InsertClaim(db.claims, job.claim, k),
        challenges := db.challenges[k := db.challenges[k].(status := Fulfilled, receipt := Some(job.receipt))])
  }

  /** The answers PostgreSQL gives to one fulfil request's queries. */
  datatype Answers = Answers(rows: seq<ChallengeKey>, event: Option<EventKey>, claim: Option<ClaimAnswer>)

  /** The last part of the handler, once an event is selected. */
  function ClaimAndPersist(db: Db, job: Job, answer: Option<ClaimAnswer>): (Db, Reply) {
    var self := KeyFor(job.req);
    match Judge(answer, self)
    case LookupFailed => (db, ClaimLookupFailed)
    case ClaimedByOther(owner) => (db, EventClaimed(owner))
    case ClaimedBySelf(_) =>
      if self in db.challenges then (Settle(db, job), Done(job.receipt)) else (db, UpdateFailed)
  }

  /** Selecting the event for a matched row; None when the handler answers without one. */
  function SelectJob(db: Db, adm: Admission, matched: Challenge, event: Option<EventKey>): (Option<Job>, Reply)
    requires adm.Admitted?
    requires event.Some? ==> event.value in db.events
  {
    match ToMinor(adm.req.amount, adm.req.asset.decimals)
    case Err(_) => (None, BadRequest)
    case Ok(minor) =>
      match event
      case None => (None, NoEvent)
      case Some(k) => (Some(BuildJob(adm.req, adm.genesisIndex, k, db.events[k], minor, matched)), NoEvent)
  }

  /** The handler run without interruption. */
  function Fulfil(db: Db, default: int, input: FulfilInput, ans: Answers): (Db, Reply)
    requires forall i :: 0 <= i < |ans.rows| ==> ans.rows[i] in db.challenges
    requires ans.event.Some? ==> ans.event.value in db.events
  {
    match Admit(db, default, input)
    case Refused(reply) => (db, reply)
    case Admitted(req, g, tx, needsEvent) =>
      match FindExact(db.challenges, ans.rows, req)
      case None => (db, NoMatch)
      case Some(k) =>
        FindExactIn(db.challenges, ans.rows, req);
        var row := db.challenges[k];
        if row.status == Fulfilled && row.receipt.Some? then (db, Replay(row))
        else if !needsEvent then (db, MatchOnly(row))
        else
          var (job, reply) := SelectJob(db, Admitted(req, g, tx, needsEvent), row, ans.event);
          match job
          case None => (db, reply)
          case Some(j) => ClaimAndPersist(db, j, ans.claim)
  }

  lemma {:induction false} FindExactIn(t: ChallengeTable, rows: seq<ChallengeKey>, r: Request)
    requires forall i :: 0 <= i < |rows| ==> rows[i] in t
    ensures FindExact(t, rows, r).Some? ==> FindExact(t, rows, r).value in rows
  {
    hide ExactTuple;
    if rows == [] || ExactTuple(r, rows[0], t[rows[0]]) {
    } else {
      FindExactIn(t, rows[1..], r);
    }
  }

  /** The row fulfil's match read finds, unless it is fulfilled already or no event is asked for. */
  function MatchedRow(db: Db, req: Request, rows: seq<ChallengeKey>, needsEvent: bool): Option<Challenge>
    requires forall i :: 0 <= i < |rows| ==> rows[i] in db.challenges
  {
    match FindExact(db.challenges, rows, req)
    case None => None
    case Some(k) =>
      FindExactIn(db.challenges, rows, req);
      var row := db.challenges[k];
      if (row.status == Fulfilled && row.receipt.Some?) || !needsEvent then None else Some(row)
  }

  /** The answers are the ones the handler's own queries have on these tables, as far as it gets. */
  ghost predicate AnswersFit(db: Db, default: int, input: FulfilInput, ans: Answers) {
    && (forall i :: 0 <= i < |ans.rows| ==> ans.rows[i] in db.challenges)
    && (ans.event.Some? ==> ans.event.value in db.events)
    && (match Admit(db, default, input)
        case Refused(_) => true
        case Admitted(req, g, tx, needsEvent) =>
          && IsSearchResult(db.challenges, MatchFilters(req), ans.rows)
          && (MatchedRow(db, req, ans.rows, needsEvent).Some? ==> EventAndClaimFit(db, req, g, tx, ans)))
  }

  ghost predicate EventAndClaimFit(db: Db, req: Request, g: int, tx: string, ans: Answers)
    requires ans.event.Some? ==> ans.event.value in db.events
  {
    match ToMinor(req.amount, req.asset.decimals)
    case Err(_) => true
    case Ok(minor) =>
      && IsEventAnswer(db.events, QueryFor(req, g, minor, tx), ans.event)
      && (ans.event.Some? ==>
            IsClaimAnswer(db.claims, db.claims, ClaimKeyFor(g, ans.event.value, db.events[ans.event.value]), KeyFor(req), ans.claim))
  }
}
