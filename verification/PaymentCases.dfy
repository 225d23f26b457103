/** What POST /payments and fulfil answer and write, case by case, in terms of the request's own fields. */
module PaymentCases {
  import opened Text
  import opened NetworkId
  import opened Json
  import opened JsValues
  import opened Decimals
  import opened DecimalLaws
  import opened PltStore
  import opened Challenges
  import opened ChallengeLaws
  import opened Payments
  import opened Protocol
  import opened ProtocolLaws
  import opened PaymentLaws

  /* ---------- the registry ---------- */

  /** The row that counts: the one under the network's own normal form, else one under another of its names. */
  ghost predicate RowIs(reg: Registry, network: string, g: int, id: string, row: AssetRow) {
    exists n :: IsNameOf(n, network) && AssetKey(n, g, id) in reg && reg[AssetKey(n, g, id)] == row
                && (n != NormalizeNetworkId(network) ==> AssetKey(NormalizeNetworkId(network), g, id) !in reg)
  }

  ghost predicate NoRow(reg: Registry, network: string, g: int, id: string) {
    forall n :: IsNameOf(n, network) ==> AssetKey(n, g, id) !in reg
  }

  /** The lookup finds that row, and nothing exactly when there is none; so there is at most one. */
  lemma RegistryReads(reg: Registry, network: string, g: int, id: string, row: AssetRow)
    ensures GetPltAsset(reg, NetworkCandidates(network), g, id) == Some(row) <==> RowIs(reg, network, g, id, row)
    ensures GetPltAsset(reg, NetworkCandidates(network), g, id) == None <==> NoRow(reg, network, g, id)
  {
    var names := NetworkCandidates(network);
    var n := NormalizeNetworkId(network);
    NamesAreCandidates(network);
    hide NormalizeNetworkId, NetworksEquivalent, IsNameOf;
    GetPltAssetWhere(reg, names, g, id);
    assert n == "" ==> names == [];
    assert n != "" ==> names[0] == n && |names| <= 2;
    if n != "" && AssetKey(n, g, id) !in reg && |names| == 2 {
      assert names[1..] == [names[1]];
      assert GetPltAsset(reg, names, g, id) == GetPltAsset(reg, [names[1]], g, id);
    }
  }

  function Index(g: Option<int>, default: int): int { match g case None => default case Some(n) => n }

  /**
   * An asset against the registry: refused as disabled exactly when its row is, as a mismatch exactly when its row is
   * enabled and has other decimals than the positive ones given; otherwise it takes its row's decimals. Without a row,
   * or for another kind of asset, it stays as it is.
   */
  lemma NormalizeDecides(reg: Registry, network: string, a: Asset, g: Option<int>, default: int)
    ensures var r := NormalizeAsset(reg, network, a, g, default);
            var index := Index(g, default);
            && (a.kind != "PLT" || NoRow(reg, network, index, a.tokenId) ==> r == Normal(a, index))
            && (a.kind == "PLT" && !NoRow(reg, network, index, a.tokenId) ==>
                  exists row :: RowIs(reg, network, index, a.tokenId, row))
            && (forall row :: a.kind == "PLT" && RowIs(reg, network, index, a.tokenId, row) ==>
                  && (r == AssetDisabled <==> !row.enabled)
                  && (r == DecimalsMismatch <==> row.enabled && a.decimals > 0 && a.decimals != row.decimals)
                  && (row.enabled && (a.decimals <= 0 || a.decimals == row.decimals) ==>
                        r == Normal(Asset("PLT", a.tokenId, row.decimals), index)))
  {
    hide RowIs, NoRow, GetPltAsset;
    var index := Index(g, default);
    forall row ensures GetPltAsset(reg, NetworkCandidates(network), index, a.tokenId) == Some(row)
                       <==> RowIs(reg, network, index, a.tokenId, row) {
      RegistryReads(reg, network, index, a.tokenId, row);
    }
    RegistryReads(reg, network, index, a.tokenId, AssetRow(0, false));
    hide NetworkCandidates;
    match GetPltAsset(reg, NetworkCandidates(network), index, a.tokenId)
    case None =>
    case Some(row) => assert RowIs(reg, network, index, a.tokenId, row);
  }

  /* ---------- requests ---------- */

  /** Decimals are a number and no field of the tuple is blank. */
  predicate Filled(b: Body) {
    && b.decimals.Some?
    && !Blank(b.merchantId) && !Blank(b.nonce) && !Blank(b.network) && !Blank(b.kind) && !Blank(b.tokenId)
    && !Blank(b.amount) && !Blank(b.payTo)
  }

  ghost predicate Disabled(reg: Registry, b: Body, index: int) {
    Trim(b.kind) == "PLT" && exists row :: RowIs(reg, b.network, index, Trim(b.tokenId), row) && !row.enabled
  }

  ghost predicate Mismatched(reg: Registry, b: Body, index: int)
    requires b.decimals.Some?
  {
    && Trim(b.kind) == "PLT"
    && exists row :: RowIs(reg, b.network, index, Trim(b.tokenId), row) && row.enabled && b.decimals.value > 0
                     && b.decimals.value != row.decimals
  }

  /** The decimals a request is taken to mean: its registry row's, else its own. */
  ghost predicate Means(reg: Registry, b: Body, index: int, decimals: int)
    requires b.decimals.Some?
  {
    if Trim(b.kind) == "PLT" && !NoRow(reg, b.network, index, Trim(b.tokenId))
    then exists row :: RowIs(reg, b.network, index, Trim(b.tokenId), row) && row.enabled && decimals == row.decimals
    else decimals == b.decimals.value
  }

  lemma AcceptableIff(b: Body)
    ensures Acceptable(b) <==> Filled(b)
  {
    hide Trim, Blank;
    TrimBlank(b.merchantId);
    TrimBlank(b.nonce);
    TrimBlank(b.kind);
    TrimBlank(b.tokenId);
    TrimBlank(b.amount);
    TrimBlank(b.payTo);
    TrimNetwork(b.network);
  }

  lemma TrimNetwork(network: string)
    ensures NormalizeNetworkId(Trim(network)) == NormalizeNetworkId(network)
    ensures NormalizeNetworkId(network) == "" <==> Blank(network)
  {
    TrimTrims(network);
    TrimTrims(Trim(network));
    NamesNormalize(network);
  }

  /** The registry's three verdicts on a request. */
  lemma RequestDecides(reg: Registry, b: Body, g: Option<int>, default: int)
    requires Filled(b)
    ensures var r := NormalizeAsset(reg, Clean(b).network, Clean(b).asset, g, default);
            var index := Index(g, default);
            && (r == AssetDisabled <==> Disabled(reg, b, index))
            && (r == DecimalsMismatch <==> Mismatched(reg, b, index))
            && (r.Normal? ==> r.genesisIndex == index && r.asset.kind == Trim(b.kind) && r.asset.tokenId == Trim(b.tokenId)
                              && Means(reg, b, index, r.asset.decimals))
  {
    hide Trim, RowIs, NoRow, NormalizeAsset, NormalizeNetworkId, Blank;
    var c, index := Clean(b), Index(g, default);
    NormalizeDecides(reg, c.network, c.asset, g, default);
    NormalizeAssetCases(reg, c.network, c.asset, g, default);
    forall row ensures RowIs(reg, c.network, index, c.asset.tokenId, row) <==> RowIs(reg, b.network, index, c.asset.tokenId, row) {
      RowOfName(reg, b.network, index, c.asset.tokenId, row);
    }
    RowOfName(reg, b.network, index, c.asset.tokenId, AssetRow(0, false));
  }

  lemma NormalizeAssetCases(reg: Registry, network: string, a: Asset, g: Option<int>, default: int)
    ensures var r := NormalizeAsset(reg, network, a, g, default); r == AssetDisabled || r == DecimalsMismatch || r.Normal?
  {
  }

  /** A request's network is looked up by its normal form. */
  lemma RowOfName(reg: Registry, network: string, index: int, id: string, row: AssetRow)
    ensures RowIs(reg, NormalizeNetworkId(Trim(network)), index, id, row) <==> RowIs(reg, network, index, id, row)
    ensures NoRow(reg, NormalizeNetworkId(Trim(network)), index, id) <==> NoRow(reg, network, index, id)
  {
    TrimNetwork(network);
    var n := NormalizeNetworkId(network);
    NormalizeIdempotent(network);
    hide NormalizeNetworkId, Trim;
    assert NetworkCandidates(n) == NetworkCandidates(network);
    NamesAreCandidates(n);
    NamesAreCandidates(network);
    hide IsNameOf, NetworkCandidates;
  }

  /* ---------- POST /payments ---------- */

  /** Which answer POST /payments gives, each exactly when, and that only a created row changes a table, its own. */
  lemma CreateReplies(db: Db, default: int, input: CreateInput)
    ensures var (after, reply) := CreatePayment(db, default, input);
            var b, index := input.body, Index(input.genesisIndex, default);
            var accepted := Filled(b) && !Disabled(db.assets, b, index) && !Mismatched(db.assets, b, index);
            && (reply == CreateBadRequest <==> !Filled(b) || Mismatched(db.assets, b, index))
            && (reply == CreateAssetDisabled <==> Filled(b) && Disabled(db.assets, b, index))
            && (reply == CreateDatabaseError <==> accepted && input.expiry == None)
            && (reply.CreateOk? <==> accepted && input.expiry.Some?)
            && after == (if reply.CreateOk?
                         then db.(challenges := db.challenges[ChallengeKey(Trim(b.merchantId), Trim(b.nonce)) := reply.row])
                         else db)
  {
    hide Clean, Disabled, Mismatched, NormalizeAsset, Means, ReadBack;
    AcceptableIff(input.body);
    CleanKey(input.body);
    if Filled(input.body) { RequestDecides(db.assets, input.body, input.genesisIndex, default); }
  }

  lemma CleanKey(b: Body)
    ensures KeyFor(Clean(b)) == ChallengeKey(Trim(b.merchantId), Trim(b.nonce))
  {
  }

  /**
   * The row an accepted POST /payments writes: the request's fields trimmed and its network in normal form, the
   * registry's decimals, policy and metadata as they read back, or an empty object in place of anything but an object;
   * pending, without a receipt, and created now unless the challenge existed.
   */
  lemma CreatedRowSays(db: Db, default: int, input: CreateInput)
    requires CreatePayment(db, default, input).1.CreateOk?
    ensures var row := CreatePayment(db, default, input).1.row;
            var b := input.body;
            var key := ChallengeKey(Trim(b.merchantId), Trim(b.nonce));
            && Filled(b)
            && row.network == NormalizeNetworkId(b.network) && row.amount == Trim(b.amount) && row.payTo == Trim(b.payTo)
            && Get(row.asset, "type") == Some(JStr(Trim(b.kind))) && Get(row.asset, "tokenId") == Some(JStr(Trim(b.tokenId)))
            && (exists d :: Means(db.assets, b, Index(input.genesisIndex, default), d) && Get(row.asset, "decimals") == Some(JNum(d)))
            && Some(row.expiry) == input.expiry
            && row.policy == ReadBack(if input.policy.JObj? then input.policy else JObj([]))
            && row.metadata == ReadBack(if input.metadata.JObj? then input.metadata else JObj([]))
            && row.status == Pending && row.receipt == None
            && row.createdAt == if key in db.challenges then db.challenges[key].createdAt else input.now
  {
    var b := input.body;
    var norm := NormalizeAsset(db.assets, Clean(b).network, Clean(b).asset, input.genesisIndex, default);
    CleanFields(b);
    AcceptableIff(b);
    assert Filled(b) && b.decimals.Some?;
    hide Clean, Filled, Acceptable, Means, NormalizeAsset, ReadBack, Trim, NormalizeNetworkId, AssetJson, Get;
    RequestDecides(db.assets, b, input.genesisIndex, default);
    AssetJsonReads(norm.asset);
    AssetMembers(norm.asset);
    assert Means(db.assets, b, Index(input.genesisIndex, default), norm.asset.decimals);
  }

  lemma AssetMembers(a: Asset)
    ensures Get(AssetJson(a), "type") == Some(JStr(a.kind)) && Get(AssetJson(a), "tokenId") == Some(JStr(a.tokenId))
    ensures Get(AssetJson(a), "decimals") == Some(JNum(a.decimals))
  {
    hide Lookup;
    var f := AssetJson(a).fields;
    assert |f[0].key| == 4 && |f[1].key| == 7 && |f[2].key| == 8;
    LookupThree(f);
    assert f[2].key == "decimals" && f[0].key == "type" && f[1].key == "tokenId";
  }

  lemma CleanFields(b: Body)
    ensures var r := Clean(b);
            && KeyFor(r) == ChallengeKey(Trim(b.merchantId), Trim(b.nonce))
            && r.merchantId == Trim(b.merchantId) && r.nonce == Trim(b.nonce)
            && r.network == NormalizeNetworkId(b.network) && r.amount == Trim(b.amount) && r.payTo == Trim(b.payTo)
  {
    TrimNetwork(b.network);
  }

  /* ---------- fulfil's admission ---------- */

  predicate NeedsEvent(input: FulfilInput) { input.requireEvent && Trim(input.body.kind) == "PLT" }

  /** Refused for what the request says, before any challenge is read. */
  ghost predicate Malformed(db: Db, default: int, input: FulfilInput) {
    || !Filled(input.body) || (NeedsEvent(input) && Blank(input.txHash))
    || Mismatched(db.assets, input.body, Index(input.genesisIndex, default))
  }

  ghost predicate AsksDisabled(db: Db, default: int, input: FulfilInput) {
    && Filled(input.body) && !(NeedsEvent(input) && Blank(input.txHash))
    && Disabled(db.assets, input.body, Index(input.genesisIndex, default))
  }

  /** Which refusal fulfil's admission gives, each exactly when; what it admits otherwise is the request, cleaned. */
  lemma AdmitReplies(db: Db, default: int, input: FulfilInput)
    ensures var r := Admit(db, default, input);
            var b, index := input.body, Index(input.genesisIndex, default);
            && (r == Refused(BadRequest) <==> Malformed(db, default, input))
            && (r == Refused(DisabledAsset) <==> AsksDisabled(db, default, input))
            && (r.Admitted? <==> !Malformed(db, default, input) && !AsksDisabled(db, default, input))
            && (r.Admitted? ==>
                  && r.req.merchantId == Trim(b.merchantId) && r.req.nonce == Trim(b.nonce)
                  && r.req.network == NormalizeNetworkId(b.network)
                  && r.req.amount == Trim(b.amount) && r.req.payTo == Trim(b.payTo)
                  && r.req.asset.kind == Trim(b.kind) && r.req.asset.tokenId == Trim(b.tokenId)
                  && Means(db.assets, b, index, r.req.asset.decimals)
                  && r.genesisIndex == index && r.needsEvent == NeedsEvent(input)
                  && (!Blank(input.txHash) ==> Some(r.txHash) == ToOptionalTxHash(input.txHash)))
  {
    CleanFields(input.body);
    CleanKind(input.body);
    AcceptableIff(input.body);
    TxHashForm(input.txHash);
    hide Clean, Acceptable, Filled, Disabled, Mismatched, Means, NormalizeAsset, Trim, NormalizeNetworkId, Blank, ToOptionalTxHash;
    if Filled(input.body) { RequestDecides(db.assets, input.body, input.genesisIndex, default); }
  }

  lemma CleanKind(b: Body)
    ensures Clean(b).asset.kind == Trim(b.kind)
  {
  }

  /** Fulfil's own answers of both kinds; a bad request is also an amount that has no minor units. */
  lemma FulfilRefusals(db: Db, default: int, input: FulfilInput, ans: Answers)
    requires DbInv(db) && AnswersFit(db, default, input, ans)
    ensures var reply := Fulfil(db, default, input, ans).1;
            var a := Admit(db, default, input);
            && (reply == DisabledAsset <==> AsksDisabled(db, default, input))
            && (reply == BadRequest <==>
                  || Malformed(db, default, input)
                  || (a.Admitted? && HasTuple(db.challenges, a.req) && KeyFor(a.req) in ans.rows && NeedsEvent(input)
                      && db.challenges[KeyFor(a.req)].status == Pending && ToMinor(a.req.amount, a.req.asset.decimals).Err?))
  {
    hide Malformed, AsksDisabled, Admit, AnswersFit, DbInv, ToMinor, HasTuple, NeedsEvent;
    AdmitReplies(db, default, input);
    var a := Admit(db, default, input);
    if a.Admitted? {
      FulfilReplies(db, default, input, ans, a);
      NotDisabled(db, default, input, ans);
    } else {
      RefusedReply(db, default, input, ans);
    }
  }

  lemma RefusedReply(db: Db, default: int, input: FulfilInput, ans: Answers)
    requires AnswersFit(db, default, input, ans) && Admit(db, default, input).Refused?
    ensures Fulfil(db, default, input, ans).1 == Admit(db, default, input).reply
  {
    hide Admit;
  }

  lemma NotDisabled(db: Db, default: int, input: FulfilInput, ans: Answers)
    requires AnswersFit(db, default, input, ans) && Admit(db, default, input).Admitted?
    ensures Fulfil(db, default, input, ans).1 != DisabledAsset
  {
    hide Admit, ToMinor, BuildJob, FindExact, IsSearchResult, IsEventAnswer, IsClaimAnswer, MatchFilters;
  }

  /** The registry has no row for the asset under any name of the network, or an enabled one. */
  ghost predicate NotAllDisabled(reg: Registry, network: string, index: int, id: string) {
    (exists n :: n in NetworkCandidates(network) && AssetKey(n, index, id) in reg) ==>
      exists n :: n in NetworkCandidates(network) && AssetKey(n, index, id) in reg && reg[AssetKey(n, index, id)].enabled
  }

  /** A PLT challenge whose registry rows are all disabled is neither created nor admitted. */
  lemma NeverDisabled(db: Db, default: int, create: CreateInput, fulfil: FulfilInput)
    ensures var b := create.body;
            CreatePayment(db, default, create).1.CreateOk? && Trim(b.kind) == "PLT" ==>
              NotAllDisabled(db.assets, b.network, Index(create.genesisIndex, default), Trim(b.tokenId))
    ensures var b := fulfil.body;
            Admit(db, default, fulfil).Admitted? && Trim(b.kind) == "PLT" ==>
              NotAllDisabled(db.assets, b.network, Index(fulfil.genesisIndex, default), Trim(b.tokenId))
  {
    hide Trim, Filled, Disabled, Mismatched, NotAllDisabled, CreatePayment, Admit, NeedsEvent, Blank;
    CreateReplies(db, default, create);
    AdmitReplies(db, default, fulfil);
    if !Disabled(db.assets, create.body, Index(create.genesisIndex, default)) {
      EnabledRow(db.assets, create.body, Index(create.genesisIndex, default));
    }
    if !Disabled(db.assets, fulfil.body, Index(fulfil.genesisIndex, default)) {
      EnabledRow(db.assets, fulfil.body, Index(fulfil.genesisIndex, default));
    }
  }

  lemma EnabledRow(reg: Registry, b: Body, index: int)
    requires !Disabled(reg, b, index)
    ensures Trim(b.kind) == "PLT" ==> NotAllDisabled(reg, b.network, index, Trim(b.tokenId))
  {
    hide Trim, NormalizeNetworkId, Blank;
    NamesAreCandidates(b.network);
    hide IsNameOf, NetworkCandidates;
    var own, id := NormalizeNetworkId(b.network), Trim(b.tokenId);
    if Trim(b.kind) == "PLT" && exists n :: n in NetworkCandidates(b.network) && AssetKey(n, index, id) in reg {
      var n :| n in NetworkCandidates(b.network) && AssetKey(n, index, id) in reg;
      var m := if AssetKey(own, index, id) in reg then own else n;
      OwnName(b.network, n);
      assert RowIs(reg, b.network, index, id, reg[AssetKey(m, index, id)]);
    }
  }

  /* ---------- the event lookup ---------- */

  /** The event is the transfer the request names: its transaction, network, token, recipient and exact amount. */
  ghost predicate Pays(req: Request, g: int, tx: string, k: EventKey, e: PltEvent) {
    && e.eventType == "transfer" && k.txHash == tx
    && IsNameOf(e.network, req.network) && e.genesisIndex == g
    && e.assetId == req.asset.tokenId && e.toAddress == Some(req.payTo)
    && req.asset.decimals >= 0 && IsAmount(Trim(req.amount))
    && SameRational(Decimal(e.amountRaw, req.asset.decimals), Denotes(Trim(req.amount)))
  }

  lemma QueryMeans(req: Request, g: int, tx: string, minor: string, k: EventKey, e: PltEvent)
    requires ToMinor(req.amount, req.asset.decimals) == Ok(minor)
    ensures EventMatches(QueryFor(req, g, minor, tx), k, e) <==> Pays(req, g, tx, k, e)
  {
    hide IsNameOf, NetworkCandidates, IsAmount, Trim, SameRational, ToMinor;
    NamesAreCandidates(req.network);
    ToMinorExact(req.amount, req.asset.decimals);
    TextTestIsNumeric(e.amountRaw, req.amount, req.asset.decimals);
  }

  /** The lookup's answer: a paying event of least index, or none exactly when no event pays. */
  ghost predicate FirstPaying(events: EventTable, req: Request, g: int, tx: string, answer: Option<EventKey>) {
    match answer
    case None => forall k :: k in events ==> !Pays(req, g, tx, k, events[k])
    case Some(best) =>
      && best in events && Pays(req, g, tx, best, events[best])
      && forall k :: k in events && Pays(req, g, tx, k, events[k]) ==> best.eventIndex <= k.eventIndex
  }

  lemma LookupMeans(events: EventTable, req: Request, g: int, tx: string, minor: string, answer: Option<EventKey>)
    requires ToMinor(req.amount, req.asset.decimals) == Ok(minor)
    ensures IsEventAnswer(events, QueryFor(req, g, minor, tx), answer) <==> FirstPaying(events, req, g, tx, answer)
  {
    hide EventMatches, Pays, ToMinor;
    forall k | k in events ensures EventMatches(QueryFor(req, g, minor, tx), k, events[k]) <==> Pays(req, g, tx, k, events[k]) {
      QueryMeans(req, g, tx, minor, k, events[k]);
    }
  }

  /** Fulfil answers "no event" exactly when it looks for one and no stored event pays for the request. */
  lemma NoEventIff(db: Db, default: int, input: FulfilInput, ans: Answers, a: Admission)
    requires DbInv(db) && AnswersFit(db, default, input, ans) && a == Admit(db, default, input) && a.Admitted?
    ensures Fulfil(db, default, input, ans).1 == NoEvent <==>
              && HasTuple(db.challenges, a.req) && KeyFor(a.req) in ans.rows && db.challenges[KeyFor(a.req)].status == Pending
              && a.needsEvent && ToMinor(a.req.amount, a.req.asset.decimals).Ok?
              && forall k :: k in db.events ==> !Pays(a.req, a.genesisIndex, a.txHash, k, db.events[k])
  {
    hide Pays, ToMinor, Admit, ExactTuple, EventMatches, IsSearchResult, IsClaimAnswer, DbInv, AnswersFit;
    FulfilReplies(db, default, input, ans, a);
    var k := KeyFor(a.req);
    if HasTuple(db.challenges, a.req) && k in ans.rows && db.challenges[k].status == Pending && a.needsEvent
       && ToMinor(a.req.amount, a.req.asset.decimals).Ok? {
      LooksForEvent(db, default, input, ans, a);
    }
  }

  /** What the handler's lookup is given and answers. */
  lemma LooksForEvent(db: Db, default: int, input: FulfilInput, ans: Answers, a: Admission)
    requires DbInv(db) && AnswersFit(db, default, input, ans) && a == Admit(db, default, input) && a.Admitted?
    requires HasTuple(db.challenges, a.req) && KeyFor(a.req) in ans.rows && db.challenges[KeyFor(a.req)].status == Pending
    requires a.needsEvent && ToMinor(a.req.amount, a.req.asset.decimals).Ok?
    ensures FirstPaying(db.events, a.req, a.genesisIndex, a.txHash, ans.event)
  {
    hide Pays, ToMinor, Admit, EventMatches, IsSearchResult, IsClaimAnswer, DbInv, IsEventAnswer, FirstPaying, ExactTuple, MatchFilters;
    AdmitIsComplete(db, default, input);
    ExactMatchIsUnique(db.challenges, a.req, ans.rows);
    var minor := ToMinor(a.req.amount, a.req.asset.decimals).value;
    LookupMeans(db.events, a.req, a.genesisIndex, a.txHash, minor, ans.event);
  }
}
