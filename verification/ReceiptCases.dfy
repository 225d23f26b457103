/** What a signed receipt says, member by member, in terms of the metadata, the event and the request it came from. */
module ReceiptCases {
  import opened Text
  import opened Numerals
  import opened NetworkId
  import opened Json
  import opened JsValues
  import opened JsLaws
  import opened Decimals
  import opened PltStore
  import opened Challenges
  import opened ChallengeLaws
  import opened Payments
  import opened Protocol
  import opened ProtocolLaws
  import opened PaymentLaws
  import opened PaymentCases

  /* ---------- the contract ---------- */

  /** metadata.contract.key, if the contract is an object. */
  function InContract(metadata: Json, key: string): Option<Json> {
    match Get(metadata, "contract")
    case Some(JObj(fields)) => Get(JObj(fields), key)
    case _ => None
  }

  /** metadata.contract.resource.key. */
  function InResource(metadata: Json, key: string): Option<Json> {
    match InContract(metadata, "resource")
    case Some(resource) => Get(resource, key)
    case None => None
  }

  /** A member's text: a string is itself, absent and null are the fallback, other values are printed. */
  predicate Says(member: Option<Json>, fallback: string, text: string) {
    match member
    case None => text == fallback
    case Some(JNull) => text == fallback
    case Some(JStr(s)) => text == s
    case Some(JNum(n)) => text == IntText(n)
    case Some(JBool(b)) => text == if b then "true" else "false"
    case Some(JObj(_)) => text == "[object Object]"
    case Some(JArr(items)) => text == ToText(JArr(items))
  }

  /** The same, with the white space around it taken off. */
  ghost predicate SaysTrimmed(member: Option<Json>, fallback: string, text: string) {
    exists whole :: Says(member, fallback, whole) && text == Trim(whole)
  }

  /** A missing flag counts as set; false, 0 and the empty text do not. */
  predicate SaysFrozen(member: Option<Json>, frozen: bool) {
    match member
    case None => frozen
    case Some(JNull) => frozen
    case Some(JBool(b)) => frozen == b
    case Some(JNum(n)) => frozen == (n != 0)
    case Some(JStr(s)) => frozen == (s != "")
    case _ => frozen
  }

  /** The nine members of a receipt's contract: what the metadata says, filled up from the request. */
  ghost predicate ContractSays(c: Contract, metadata: Json, merchantId: string, network: string, amount: string, payTo: string) {
    && Says(InContract(metadata, "contractId"), "", c.contractId)
    && Says(InContract(metadata, "contractVersion"), "", c.contractVersion)
    && SaysFrozen(InContract(metadata, "isFrozen"), c.isFrozen)
    && SaysTrimmed(InContract(metadata, "merchantId"), merchantId, c.merchantId)
    && SaysTrimmed(InResource(metadata, "method"), "", c.resourceMethod)
    && SaysTrimmed(InResource(metadata, "path"), "", c.resourcePath)
    && SaysTrimmed(InContract(metadata, "network"), network, c.network)
    && SaysTrimmed(InContract(metadata, "amount"), amount, c.amount)
    && SaysTrimmed(InContract(metadata, "payTo"), payTo, c.payTo)
  }

  lemma TextSays(member: Option<Json>, fallback: string)
    ensures var present := if member == Some(JNull) then None else member;
            Says(member, fallback, TextOf(present, fallback))
  {
  }

  lemma ContractMember(metadata: Json, key: string)
    ensures Member(OwnContract(metadata), key)
            == if InContract(metadata, key) == Some(JNull) then None else InContract(metadata, key)
  {
    hide Lookup;
  }

  lemma ResourceMember(metadata: Json, key: string)
    ensures Member(Member(OwnContract(metadata), "resource"), key)
            == if InResource(metadata, key) == Some(JNull) then None else InResource(metadata, key)
  {
    hide Lookup;
    ContractMember(metadata, "resource");
  }

  /** The contract the service signs says exactly that. */
  lemma BuiltContractSays(req: Request, metadata: Json)
    ensures ContractSays(BuildContract(req, metadata), metadata, req.merchantId, req.network, req.amount, req.payTo)
  {
    hide Says, Member, InContract, InResource, OwnContract, ToText, Trim;
    TextMember(metadata, "contractId", "");
    TextMember(metadata, "contractVersion", "");
    FrozenMember(metadata);
    TextMember(metadata, "merchantId", req.merchantId);
    TextMember(metadata, "network", req.network);
    TextMember(metadata, "amount", req.amount);
    TextMember(metadata, "payTo", req.payTo);
    TextInResource(metadata, "method");
    TextInResource(metadata, "path");
  }

  lemma TextMember(metadata: Json, key: string, fallback: string)
    ensures Says(InContract(metadata, key), fallback, TextOf(Member(OwnContract(metadata), key), fallback))
  {
    hide InContract, OwnContract, Says, TextOf, Member;
    ContractMember(metadata, key);
    TextSays(InContract(metadata, key), fallback);
  }

  lemma TextInResource(metadata: Json, key: string)
    ensures Says(InResource(metadata, key), "", TextOf(Member(Member(OwnContract(metadata), "resource"), key), ""))
  {
    hide InResource, OwnContract, Says, TextOf, Member;
    ResourceMember(metadata, key);
    TextSays(InResource(metadata, key), "");
  }

  lemma FrozenMember(metadata: Json)
    ensures var m := Member(OwnContract(metadata), "isFrozen");
            SaysFrozen(InContract(metadata, "isFrozen"), m.None? || Truthy(m.value))
  {
    hide InContract, OwnContract, Member;
    ContractMember(metadata, "isFrozen");
  }

  /** At most one contract says what the metadata and the request say. */
  lemma ContractIsDetermined(c: Contract, d: Contract, metadata: Json, m: string, n: string, a: string, p: string)
    requires ContractSays(c, metadata, m, n, a, p) && ContractSays(d, metadata, m, n, a, p)
    ensures c == d
  {
    hide InContract, InResource, ToText, Trim;
  }

  /* ---------- through the database ---------- */

  lemma SaysReadBack(member: Option<Json>, fallback: string, text: string)
    ensures var back := MemberReadBack(member);
            && (Says(back, fallback, text) <==> Says(member, fallback, text))
            && (SaysTrimmed(back, fallback, text) <==> SaysTrimmed(member, fallback, text))
  {
    hide Trim, ToText, JsonbItems, ParsedItems, JsonbFields, ParsedFields;
    if member.Some? { TextReadsBack(member.value); }
    var back := MemberReadBack(member);
    assert forall t :: Says(back, fallback, t) <==> Says(member, fallback, t);
  }

  lemma ContractReadsBack(metadata: Json, key: string)
    ensures InContract(ReadBack(metadata), key) == MemberReadBack(InContract(metadata, key))
  {
    hide Lookup, JsonbItems, ParsedItems, JsonbFields, ParsedFields;
    GetReadBack(metadata, "contract");
    if Get(metadata, "contract").Some? { GetReadBack(Get(metadata, "contract").value, key); }
  }

  lemma ResourceReadsBack(metadata: Json, key: string)
    ensures InResource(ReadBack(metadata), key) == MemberReadBack(InResource(metadata, key))
  {
    hide InContract, Get, ReadBack;
    ContractReadsBack(metadata, "resource");
    if InContract(metadata, "resource").Some? { GetReadBack(InContract(metadata, "resource").value, key); }
  }

  lemma FrozenReadsBack(member: Option<Json>, frozen: bool)
    ensures SaysFrozen(MemberReadBack(member), frozen) <==> SaysFrozen(member, frozen)
  {
    hide JsonbItems, ParsedItems, JsonbFields, ParsedFields;
  }

  /** What a contract says in stored metadata it says in the metadata that was posted. */
  lemma PostedMetadataSays(c: Contract, metadata: Json, m: string, n: string, a: string, p: string)
    ensures ContractSays(c, ReadBack(metadata), m, n, a, p) <==> ContractSays(c, metadata, m, n, a, p)
  {
    hide InContract, InResource, Says, SaysTrimmed, SaysFrozen, ReadBack;
    ContractReadsBack(metadata, "contractId");
    ContractReadsBack(metadata, "contractVersion");
    ContractReadsBack(metadata, "isFrozen");
    ContractReadsBack(metadata, "merchantId");
    ContractReadsBack(metadata, "network");
    ContractReadsBack(metadata, "amount");
    ContractReadsBack(metadata, "payTo");
    ResourceReadsBack(metadata, "method");
    ResourceReadsBack(metadata, "path");
    SaysReadBack(InContract(metadata, "contractId"), "", c.contractId);
    SaysReadBack(InContract(metadata, "contractVersion"), "", c.contractVersion);
    FrozenReadsBack(InContract(metadata, "isFrozen"), c.isFrozen);
    SaysReadBack(InContract(metadata, "merchantId"), m, c.merchantId);
    SaysReadBack(InContract(metadata, "network"), n, c.network);
    SaysReadBack(InContract(metadata, "amount"), a, c.amount);
    SaysReadBack(InContract(metadata, "payTo"), p, c.payTo);
    SaysReadBack(InResource(metadata, "method"), "", c.resourceMethod);
    SaysReadBack(InResource(metadata, "path"), "", c.resourcePath);
  }

  /* ---------- the receipt of a settled fulfil ---------- */

  /** What the rest of the receipt says about the event it is for. */
  predicate EventSays(r: Receipt, k: EventKey, e: PltEvent) {
    && r.chainId == CanonicalChainId(e.network)
    && r.settledAt == e.occurredAt && r.txHash == k.txHash && r.blockHash == e.blockHash && r.blockHeight == e.blockHeight
    && r.from == (if e.fromAddress == Some("") then None else e.fromAddress)
  }

  /** And about the challenge. */
  predicate RequestSays(r: Receipt, req: Request, minor: int, expiry: int) {
    && r.assetType == "PLT" && r.tokenId == req.asset.tokenId && r.decimals == req.asset.decimals
    && r.nonce == req.nonce && r.to == req.payTo && r.amountRaw == IntText(minor)
    && r.expiresAt == (if expiry > r.settledAt then Some(expiry) else None)
  }

  /**
   * A fulfil that settles. Its event is a stored transfer that pays for the request, the first of its transaction that
   * does; the receipt says what that event says, and the request's tuple; the contract says what the challenge's metadata
   * says; and the one claim taken is on the event's key, with the network in normal form.
   */
  lemma SettledReceipt(db: Db, default: int, input: FulfilInput, ans: Answers)
    requires DbInv(db) && AnswersFit(db, default, input, ans) && Fulfil(db, default, input, ans).1.Done?
    ensures var a := Admit(db, default, input);
            a.Admitted? && KeyFor(a.req) in db.challenges && ans.event.Some?
    ensures var a := Admit(db, default, input);
            var (row, k) := (db.challenges[KeyFor(a.req)], ans.event.value);
            var r := Fulfil(db, default, input, ans).1.receipt;
            && FirstPaying(db.events, a.req, a.genesisIndex, a.txHash, Some(k))
            && EventSays(r, k, db.events[k])
            && RequestSays(r, a.req, db.events[k].amountRaw, row.expiry)
            && ContractSays(r.contract, row.metadata, a.req.merchantId, a.req.network, a.req.amount, a.req.payTo)
            && Fulfil(db, default, input, ans).0.claims
               == db.claims[ClaimKey(NormalizeNetworkId(db.events[k].network), a.genesisIndex, k.txHash, k.eventIndex) := KeyFor(a.req)]
  {
    hide Admit, IsSearchResult, MatchFilters, ExactTuple, IsClaimAnswer, ToMinor, IsEventAnswer, ClaimOpen, Pays, FirstPaying,
         BuildContract, ContractSays, EventSays, RequestSays, DbInv, AnswersFit, BackedBy, SettledBy, NormalizeNetworkId;
    FulfilOutcome(db, default, input, ans);
    var a := Admit(db, default, input);
    BuiltContractSays(a.req, db.challenges[KeyFor(a.req)].metadata);
    LooksForEvent(db, default, input, ans, a);
    SettledFields(db, default, input, ans);
  }

  lemma SettledFields(db: Db, default: int, input: FulfilInput, ans: Answers)
    requires DbInv(db) && AnswersFit(db, default, input, ans) && WillSettle(db, default, input, ans)
    requires Fulfil(db, default, input, ans).1.Done?
    ensures var a := Admit(db, default, input);
            var (row, k) := (db.challenges[KeyFor(a.req)], ans.event.value);
            var r := Fulfil(db, default, input, ans).1.receipt;
            && EventSays(r, k, db.events[k])
            && RequestSays(r, a.req, db.events[k].amountRaw, row.expiry)
            && Fulfil(db, default, input, ans).0.claims
               == db.claims[ClaimKey(NormalizeNetworkId(db.events[k].network), a.genesisIndex, k.txHash, k.eventIndex) := KeyFor(a.req)]
  {
    hide Admit, IsSearchResult, MatchFilters, ExactTuple, IsClaimAnswer, ToMinor, BuildContract, DbInv, AnswersFit, NormalizeNetworkId,
         EventMatches;
    FitAnswers(db, default, input, ans);
    var a := Admit(db, default, input);
    var k := ans.event.value;
    var e := db.events[k];
    AdmitIsComplete(db, default, input);
    ExactMatchIsUnique(db.challenges, a.req, ans.rows);
    NormalizeIdempotent(e.network);
    SelectedAmount(db, default, input, ans);
    assert EventOf(ClaimKeyFor(a.genesisIndex, k, e)) == k;
  }

  lemma FitAnswers(db: Db, default: int, input: FulfilInput, ans: Answers)
    requires AnswersFit(db, default, input, ans) && Admit(db, default, input).Admitted?
    ensures IsSearchResult(db.challenges, MatchFilters(Admit(db, default, input).req), ans.rows)
    ensures ans.event.Some? ==> ans.event.value in db.events
  {
    hide Admit, IsSearchResult, MatchFilters;
  }

  /** The stored amount is the request's in minor units. */
  lemma SelectedAmount(db: Db, default: int, input: FulfilInput, ans: Answers)
    requires DbInv(db) && AnswersFit(db, default, input, ans) && WillSettle(db, default, input, ans)
    ensures var a := Admit(db, default, input);
            ToMinor(a.req.amount, a.req.asset.decimals) == Ok(IntText(db.events[ans.event.value].amountRaw))
  {
    hide Admit, IsSearchResult, MatchFilters, ExactTuple, IsClaimAnswer, ToMinor, DbInv, ClaimOpen;
    AdmitIsComplete(db, default, input);
    ExactMatchIsUnique(db.challenges, Admit(db, default, input).req, ans.rows);
  }

  /** A receipt for one of the two legacy names, in any case, carries the network's genesis hash. */
  lemma SettledChain(db: Db, default: int, input: FulfilInput, ans: Answers)
    requires DbInv(db) && AnswersFit(db, default, input, ans) && Fulfil(db, default, input, ans).1.Done?
    ensures var (name, r) := (Lower(Trim(input.body.network)), Fulfil(db, default, input, ans).1.receipt);
            && (name == "concordium:testnet" ==> r.chainId == "ccd:4221332d34e1694168c2a0c0b3fd0f27")
            && (name == "concordium:mainnet" ==> r.chainId == "ccd:9dd9ca4d19e9393877d2c44b70f89acb")
            && r.chainId == CanonicalChainId(input.body.network)
  {
    hide Admit, DbInv, AnswersFit, NormalizeNetworkId, Trim, Lower, Fulfil, RequestSays, ContractSays, SameRational, IsAmount, Denotes,
         NetworksEquivalent, Malformed, AsksDisabled, Means, NeedsEvent, ReceiptForm;
    SettledReceipt(db, default, input, ans);
    AdmitReplies(db, default, input);
    var a, e := Admit(db, default, input), db.events[ans.event.value];
    CanonicalIsCompleteInvariant(a.req.network, e.network);
    NormalizeIdempotent(input.body.network);
    LegacyNamesBecomeChainIds(input.body.network);
  }

  /** From post to receipt: a challenge just created and then fulfilled has the contract its poster put in the metadata. */
  lemma PostedContractIsSigned(db: Db, default: int, create: CreateInput, input: FulfilInput, ans: Answers)
    requires CreatePayment(db, default, create).1.CreateOk?
    requires var posted := CreatePayment(db, default, create).0;
             DbInv(posted) && AnswersFit(posted, default, input, ans) && Fulfil(posted, default, input, ans).1.Done?
    requires Trim(input.body.merchantId) == Trim(create.body.merchantId) && Trim(input.body.nonce) == Trim(create.body.nonce)
    ensures var b := input.body;
            ContractSays(Fulfil(CreatePayment(db, default, create).0, default, input, ans).1.receipt.contract,
                         if create.metadata.JObj? then create.metadata else JObj([]),
                         Trim(b.merchantId), NormalizeNetworkId(b.network), Trim(b.amount), Trim(b.payTo))
  {
    var posted := CreatePayment(db, default, create).0;
    var receipt := Fulfil(posted, default, input, ans).1.receipt;
    hide Admit, DbInv, AnswersFit, NormalizeNetworkId, Trim, Fulfil, CreatePayment, RequestSays, ContractSays, EventSays, FirstPaying,
         Malformed, AsksDisabled, Means, NeedsEvent, Filled, Disabled, Mismatched, ReadBack;
    CreateReplies(db, default, create);
    CreatedRowSays(db, default, create);
    SettledReceipt(posted, default, input, ans);
    AdmitReplies(posted, default, input);
    var b, metadata := input.body, if create.metadata.JObj? then create.metadata else JObj([]);
    PostedMetadataSays(receipt.contract, metadata, Trim(b.merchantId), NormalizeNetworkId(b.network), Trim(b.amount), Trim(b.payTo));
  }
}
