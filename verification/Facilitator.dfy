/** What one uninterrupted fulfil request does. */
module PaymentLaws {
  import opened Text
  import opened NetworkId
  import opened Json
  import opened JsValues
  import opened JsLaws
  import opened Decimals
  import opened PltStore
  import opened Challenges
  import opened ChallengeLaws
  import opened Payments
  import opened Protocol
  import opened ProtocolLaws
  import opened ProtocolRuns

  /** Normalising an asset that the registry has already normalised changes nothing. */
  lemma NormalizeAssetStable(reg: Registry, network: string, a: Asset, g: Option<int>, default: int)
    requires NormalizeAsset(reg, network, a, g, default).Normal?
    ensures var n := NormalizeAsset(reg, network, a, g, default);
            NormalizeAsset(reg, network, n.asset, g, default) == n
            && n.asset.kind == a.kind && n.asset.tokenId == a.tokenId
            && (a.decimals > 0 ==> n.asset == a)
  {
    hide GetPltAsset, NetworkCandidates;
  }

  /** The registry lookup finds a row under one of the candidate names exactly when there is one. */
  lemma {:induction false} GetPltAssetWhere(reg: Registry, names: seq<string>, g: int, id: string)
    ensures GetPltAsset(reg, names, g, id) == None <==> forall n :: n in names ==> AssetKey(n, g, id) !in reg
    ensures GetPltAsset(reg, names, g, id).Some? ==>
              exists n :: n in names && AssetKey(n, g, id) in reg && reg[AssetKey(n, g, id)] == GetPltAsset(reg, names, g, id).value
  {
    if names == [] {
    } else {
      assert names == [names[0]] + names[1..];
      GetPltAssetWhere(reg, names[1..], g, id);
    }
  }

  /** The rows a network's names have in the registry do not contradict each other. */
  ghost predicate Consistent(reg: Registry, network: string, g: int, id: string) {
    var names := NetworkCandidates(network);
    forall n, m | n in names && m in names && AssetKey(n, g, id) in reg && AssetKey(m, g, id) in reg ::
      reg[AssetKey(n, g, id)] == reg[AssetKey(m, g, id)]
  }

  /** With a consistent registry, equivalent spellings of a network resolve an asset alike. */
  lemma RegistryRespectsClass(reg: Registry, a: string, b: string, asset: Asset, g: Option<int>, default: int)
    requires NetworksEquivalent(a, b)
    requires Consistent(reg, a, if g.Some? then g.value else default, asset.tokenId)
    ensures NormalizeAsset(reg, a, asset, g, default) == NormalizeAsset(reg, b, asset, g, default)
  {
    hide NetworkCandidates, NetworksEquivalent, GetPltAsset;
    var index := if g.Some? then g.value else default;
    forall x ensures x in NetworkCandidates(a) <==> x in NetworkCandidates(b) { CandidatesRespectClass(a, b, x); }
    GetPltAssetWhere(reg, NetworkCandidates(a), index, asset.tokenId);
    GetPltAssetWhere(reg, NetworkCandidates(b), index, asset.tokenId);
  }

  /** A transaction hash is looked up in one form, whatever its case and outer white space. */
  lemma TxHashIsCanonical(a: string, b: string)
    requires IsHash(Lower(Trim(a)))
    ensures ToOptionalTxHash(a) == ToOptionalTxHash(b) <==> Lower(Trim(a)) == Lower(Trim(b))
    ensures ToOptionalTxHash(ToOptionalTxHash(a).value) == ToOptionalTxHash(a)
  {
    hide Trim;
    var h := Lower(Trim(a));
    assert Lower(h) == h;
    assert !IsSpace(h[0]) && !IsSpace(h[|h| - 1]);
    TrimTrims(h);
    assert Trim(b) == h ==> Lower(Trim(b)) == h;
  }

  /** Hexadecimal digits of either case. */
  predicate Hex(s: string) {
    forall i :: 0 <= i < |s| ==> '0' <= s[i] <= '9' || 'a' <= s[i] <= 'f' || 'A' <= s[i] <= 'F'
  }

  /** That form: none for a blank text, low hexadecimal digits for a hash of 32 to 128 of them, else only trimmed. */
  lemma TxHashForm(raw: string)
    ensures ToOptionalTxHash(raw) == None <==> Blank(raw)
    ensures var s := Trim(raw);
            !Blank(raw) ==>
              var h := ToOptionalTxHash(raw).value;
              && |h| == |s|
              && (32 <= |s| <= 128 && Hex(s) ==>
                    forall i :: 0 <= i < |s| ==> h[i] == if 'A' <= s[i] <= 'F' then s[i] - 'A' + 'a' else s[i])
              && (!(32 <= |s| <= 128 && Hex(s)) ==> h == s)
  {
    hide Trim;
    TrimBlank(raw);
    var s := Trim(raw);
    assert IsHash(Lower(s)) ==> Hex(s) by {
      if IsHash(Lower(s)) {
        forall i | 0 <= i < |s| ensures '0' <= s[i] <= '9' || 'a' <= s[i] <= 'f' || 'A' <= s[i] <= 'F' {
          assert Lower(s)[i] == LowerChar(s[i]);
        }
      }
    }
  }

  /** The request a create or fulfil body stands for once the registry has spoken. */
  function Resolved(reg: Registry, default: int, b: Body, g: Option<int>): Option<Request> {
    match NormalizeAsset(reg, Clean(b).network, Clean(b).asset, g, default)
    case Normal(asset, _) => if Acceptable(b) then Some(Clean(b).(asset := asset)) else None
    case _ => None
  }

  lemma LookupThree(f: seq<Field>)
    requires |f| == 3 && f[0].key != f[1].key && f[0].key != f[2].key && f[1].key != f[2].key
    ensures forall i :: 0 <= i < 3 ==> Lookup(f, f[i].key) == Some(f[i].value)
  {
    assert f[..2] == [f[0], f[1]] && f[..2][..1] == [f[0]];
    assert Lookup(f, f[1].key) == Lookup(f[..2], f[1].key);
    assert Lookup(f, f[0].key) == Lookup(f[..2], f[0].key) == Lookup(f[..2][..1], f[0].key);
  }

  lemma AssetJsonReads(a: Asset)
    ensures ReadBack(AssetJson(a)) == AssetJson(a) && AssetIs(AssetJson(a), a)
  {
    hide Lookup, InReadOrder, ReadBack;
    var f := AssetJson(a).fields;
    assert |f[0].key| == 4 && |f[1].key| == 7 && |f[2].key| == 8;
    LookupThree(f);
    AssetJsonOrdered(a);
  }

  lemma AssetJsonOrdered(a: Asset)
    ensures ReadBack(AssetJson(a)) == AssetJson(a)
  {
    KeyOrderMatters(JStr(a.tokenId), JStr(a.kind), JNum(a.decimals));
    ReadBackFixedIff(AssetJson(a));
  }

  /** A challenge just created has the tuple a match or fulfil with the same body asks for. */
  lemma CreateThenMatch(db: Db, default: int, input: CreateInput)
    requires CreatePayment(db, default, input).1.CreateOk?
    ensures var t := CreatePayment(db, default, input).0.challenges;
            var req := Resolved(db.assets, default, input.body, input.genesisIndex);
            && req.Some? && HasTuple(t, req.value) && WrittenByCreate(t[KeyFor(req.value)])
            && (var row := t[KeyFor(req.value)];
                row.status == Pending && row.receipt == None && Some(row.expiry) == input.expiry
                && row.metadata == ReadBack(PlainObject(input.metadata))
                && (KeyFor(req.value) in db.challenges ==> row.createdAt == db.challenges[KeyFor(req.value)].createdAt))
            && forall k :: k in db.challenges && k != KeyFor(req.value) ==> k in t && t[k] == db.challenges[k]
  {
    hide ReadBack, GetPltAsset, AssetJson, NormalizeAsset, NormalizeNetworkId, Trim, IsTrimmed, AssetIs, WrittenByCreate, CandidatesOf;
    var b := input.body;
    var req := Resolved(db.assets, default, b, input.genesisIndex).value;
    var row := CreatePayment(db, default, input).0.challenges[KeyFor(req)];
    AssetJsonReads(req.asset);
    CleanNetwork(b);
    ResolvedAsset(db.assets, default, b, input.genesisIndex);
    TrimTrims(b.kind);
    TrimTrims(b.tokenId);
    CreatedRow(row, req.asset);
  }

  /** What an accepted POST /payments writes. */
  function WriteOf(reg: Registry, default: int, input: CreateInput): Option<Write> {
    match (Resolved(reg, default, input.body, input.genesisIndex), input.expiry)
    case (Some(ask), Some(expiry)) => Some(Write(ask, expiry, ReadBack(PlainObject(input.metadata))))
    case _ => None
  }

  /** The row was written by w. */
  predicate WrittenBy(t: ChallengeTable, k: ChallengeKey, w: Write) {
    && k in t && KeyFor(w.ask) == k && ExactTuple(w.ask, k, t[k]) && t[k].payTo == w.ask.payTo
    && t[k].expiry == w.expiry && t[k].metadata == w.metadata
  }

  lemma CreateIsWritten(db: Db, default: int, input: CreateInput)
    requires CreatePayment(db, default, input).1.CreateOk?
    ensures var w := WriteOf(db.assets, default, input);
            w.Some? && WrittenBy(CreatePayment(db, default, input).0.challenges, KeyFor(Clean(input.body)), w.value)
  {
    hide CreatePayment, ExactTuple, WrittenByCreate, ReadBack, NormalizeAsset, Clean;
    CreateThenMatch(db, default, input);
    ResolvedKey(db.assets, default, input.body, input.genesisIndex);
  }

  lemma ResolvedKey(reg: Registry, default: int, b: Body, g: Option<int>)
    requires Resolved(reg, default, b, g).Some?
    ensures KeyFor(Resolved(reg, default, b, g).value) == KeyFor(Clean(b))
  {
    hide Clean, NormalizeAsset, Acceptable;
  }

  /** A cleaned network is in normal form, trimmed and its own candidate. */
  lemma CleanNetwork(b: Body)
    ensures var n := Clean(b).network;
            NormalizeNetworkId(n) == n && IsTrimmed(n) && Trim(n) == n && (n != "" ==> n in NetworkCandidates(n))
  {
    var n := Clean(b).network;
    NormalizeIdempotent(Trim(b.network));
    NormalizeIsTrimmed(Trim(b.network));
    TrimTrims(n);
    hide NormalizeNetworkId;
    CandidatesAreTheClass(n, n);
  }

  lemma CreatedRow(row: Challenge, a: Asset)
    requires NormalizeNetworkId(row.network) == row.network && IsTrimmed(row.network)
    requires AssetIs(row.asset, a) && IsTrimmed(a.kind) && IsTrimmed(a.tokenId)
    ensures WrittenByCreate(row)
  {
  }

  lemma ResolvedAsset(reg: Registry, default: int, b: Body, g: Option<int>)
    requires Resolved(reg, default, b, g).Some?
    ensures var req := Resolved(reg, default, b, g).value;
            req.asset.kind == Trim(b.kind) && req.asset.tokenId == Trim(b.tokenId)
  {
    NormalizeAssetStable(reg, Clean(b).network, Clean(b).asset, g, default);
  }

  /** The claim statement on an event someone owns: the owner gets it back, everybody else is refused. */
  lemma ClaimOnOwnedEvent(db: Db, c: ClaimKey, self: ChallengeKey, answer: Option<ClaimAnswer>)
    requires DbInv(db) && c in db.claims && c.network != ""
    requires IsClaimAnswer(db.claims, db.claims, c, self, answer)
    ensures Judge(answer, self) == if self == db.claims[c] then ClaimedBySelf(false) else ClaimedByOther(db.claims[c])
    ensures InsertClaim(db.claims, c, self) == db.claims
  {
    assert ClaimFits(db.events, c);
    SelfClaims(db, c);
    forall d | d in db.claims && SameEventClaim(c, d) ensures d == c {
      assert ClaimFits(db.events, d);
      ClaimKeyIsExact(db.events, c, d);
    }
  }

  /** The claim statement on an event nobody owns inserts and succeeds. */
  lemma ClaimOnFreeEvent(db: Db, c: ClaimKey, self: ChallengeKey, answer: Option<ClaimAnswer>)
    requires DbInv(db) && ClaimFits(db.events, c) && c !in db.claims
    requires IsClaimAnswer(db.claims, db.claims, c, self, answer)
    ensures Judge(answer, self) == ClaimedBySelf(true)
  {
    assert forall d :: d in db.claims ==> ClaimFits(db.events, d);
  }

  /**
   * Reuse over runs. Once k owns a claim, then after any run at all, resets included, a claim statement on that
   * event gives it to k again without inserting, and refuses everyone else by k's name.
   */
  lemma OnlyOwnerReclaims(s: Sys, ls: seq<Label>, c: ClaimKey, self: ChallengeKey, answer: Option<ClaimAnswer>)
    requires Inv(s) && IsRun(s, ls) && c in s.db.claims && c.network != ""
    requires var end := Exec(s, ls).db; IsClaimAnswer(end.claims, end.claims, c, self, answer)
    ensures Judge(answer, self) == if self == s.db.claims[c] then ClaimedBySelf(false) else ClaimedByOther(s.db.claims[c])
  {
    RunKeeps(s, ls);
    ClaimOnOwnedEvent(Exec(s, ls).db, c, self, answer);
  }

  /** When the handler succeeds, with the tables as they are. */
  ghost predicate WillSettle(db: Db, default: int, input: FulfilInput, ans: Answers)
    requires AnswersFit(db, default, input, ans)
  {
    match Admit(db, default, input)
    case Refused(_) => false
    case Admitted(req, g, tx, needsEvent) =>
      && needsEvent
      && HasTuple(db.challenges, req) && KeyFor(req) in ans.rows
      && db.challenges[KeyFor(req)].status == Pending
      && ToMinor(req.amount, req.asset.decimals).Ok?
      && ans.event.Some?
      && ClaimOpen(db, ans.event.value, KeyFor(req))
  }

  /** Nobody else owns a claim on the event. */
  ghost predicate ClaimOpen(db: Db, e: EventKey, self: ChallengeKey) {
    forall c :: c in db.claims && EventOf(c) == e ==> db.claims[c] == self
  }

  /** The job of a fulfil request that selects an event. */
  lemma SelectedJob(db: Db, default: int, input: FulfilInput, ans: Answers) returns (job: Job)
    requires DbInv(db) && AnswersFit(db, default, input, ans) && Admit(db, default, input).Admitted?
    requires var req := Admit(db, default, input).req;
             HasTuple(db.challenges, req) && ToMinor(req.amount, req.asset.decimals).Ok? && ans.event.Some?
    requires var a := Admit(db, default, input); MatchedRow(db, a.req, ans.rows, a.needsEvent) == Some(db.challenges[KeyFor(a.req)])
    ensures var a := Admit(db, default, input); var row := db.challenges[KeyFor(a.req)];
            SelectJob(db, a, row, ans.event).0 == Some(job) && job.req == a.req && JobOk(db, job)
    ensures EventOf(job.claim) == ans.event.value
    ensures var row := db.challenges[KeyFor(job.req)];
            ExpiresWith(row, job.receipt) && job.receipt.contract == BuildContract(job.req, row.metadata)
    ensures IsClaimAnswer(db.claims, db.claims, job.claim, KeyFor(job.req), ans.claim)
  {
    hide Admit, IsSearchResult, MatchFilters, ExactTuple, RowInv, ClaimFits, IsClaimAnswer, ToMinor, Evidence, ReceiptFor, EventMatches;
    var a := Admit(db, default, input);
    var row := db.challenges[KeyFor(a.req)];
    AdmitIsComplete(db, default, input);
    job := SelectJob(db, a, row, ans.event).0.value;
    SelectedIsEvidence(db, a.req, a.genesisIndex, a.txHash, ToMinor(a.req.amount, a.req.asset.decimals).value, ans.event.value, row);
  }

  /** The claim a job needs is open exactly when its statement succeeds. */
  lemma ClaimDecides(db: Db, job: Job, answer: Option<ClaimAnswer>)
    requires DbInv(db) && JobOk(db, job)
    requires IsClaimAnswer(db.claims, db.claims, job.claim, KeyFor(job.req), answer)
    ensures Judge(answer, KeyFor(job.req)).ClaimedBySelf? <==> ClaimOpen(db, EventOf(job.claim), KeyFor(job.req))
  {
    hide ReceiptFor, RowInv, IsClaimAnswer;
    var c, self := job.claim, KeyFor(job.req);
    EvidenceFits(db.events, c, job.receipt);
    if c in db.claims { ClaimOnOwnedEvent(db, c, self, answer); } else { ClaimOnFreeEvent(db, c, self, answer); }
    forall d | d in db.claims && EventOf(d) == EventOf(c) ensures d == c {
      assert ClaimFits(db.events, d);
      ClaimKeyIsExact(db.events, c, d);
    }
  }

  /**
   * One uninterrupted fulfil: it changes the tables exactly when it settles, and then only the matched row and the
   * event's claim; the row becomes fulfilled, agrees with its receipt's payment event, is backed by the selected event,
   * and agrees with the whole receipt exactly when the contract in its metadata fits it.
   */
  lemma FulfilOutcome(db: Db, default: int, input: FulfilInput, ans: Answers)
    requires DbInv(db) && AnswersFit(db, default, input, ans)
    ensures var (after, reply) := Fulfil(db, default, input, ans);
            && DbInv(after)
            && (reply.Done? <==> WillSettle(db, default, input, ans))
            && (!reply.Done? ==> after == db)
            && (reply.Done? ==>
                  var k := KeyFor(Admit(db, default, input).req);
                  && SettledBy(db, after, k, ans.event.value, reply.receipt)
                  && reply.receipt.contract == BuildContract(Admit(db, default, input).req, db.challenges[k].metadata))
  {
    hide Admit, IsSearchResult, MatchFilters, ExactTuple, RowInv, ClaimFits, IsClaimAnswer, ToMinor, Evidence, ReceiptFor, IsEventAnswer, ClaimOpen;
    AdmitRefusal(db, default, input);
    match Admit(db, default, input) {
      case Refused(_) =>
      case Admitted(req, g, tx, needsEvent) =>
        AdmitIsComplete(db, default, input);
        ExactMatchIsUnique(db.challenges, req, ans.rows);
        if HasTuple(db.challenges, req) && KeyFor(req) in ans.rows {
          RowStatus(db, KeyFor(req));
          if db.challenges[KeyFor(req)].status == Pending && needsEvent && ToMinor(req.amount, req.asset.decimals).Ok? && ans.event.Some? {
            var job := SelectedJob(db, default, input, ans);
            ClaimDecides(db, job, ans.claim);
            if ClaimOpen(db, EventOf(job.claim), KeyFor(job.req)) { SettleOutcome(db, job); }
          }
        }
    }
  }

  /** Somebody else owns a claim on the event. */
  ghost predicate OwnedBy(db: Db, e: EventKey, owner: ChallengeKey) {
    exists c :: c in db.claims && EventOf(c) == e && db.claims[c] == owner
  }

  /**
   * Which refusal an uninterrupted, admitted fulfil answers with: no match exactly when the tuple is not found, a
   * replay exactly when the row is fulfilled, no event exactly when no stored event fits the query, "claimed" with the
   * name of the event's owner; the two internal errors never.
   */
  lemma FulfilReplies(db: Db, default: int, input: FulfilInput, ans: Answers, a: Admission)
    requires DbInv(db) && AnswersFit(db, default, input, ans) && a == Admit(db, default, input) && a.Admitted?
    ensures var reply := Fulfil(db, default, input, ans).1;
            var k := KeyFor(a.req);
            var found := HasTuple(db.challenges, a.req) && k in ans.rows;
            var minor := ToMinor(a.req.amount, a.req.asset.decimals);
            var asks := found && db.challenges[k].status == Pending && a.needsEvent && minor.Ok?;
            && (reply == NoMatch <==> !found)
            && (reply.Replay? <==> found && db.challenges[k].status == Fulfilled)
            && (reply.MatchOnly? <==> found && db.challenges[k].status == Pending && !a.needsEvent)
            && (reply.Replay? || reply.MatchOnly? ==> reply.row == db.challenges[k])
            && (reply == BadRequest <==> found && db.challenges[k].status == Pending && a.needsEvent && minor.Err?)
            && (reply == NoEvent <==> asks && ans.event == None)
            && (asks && ans.event == None ==>
                  forall e :: e in db.events ==> !EventMatches(QueryFor(a.req, a.genesisIndex, minor.value, a.txHash), e, db.events[e]))
            && (reply.EventClaimed? <==> asks && ans.event.Some? && !ClaimOpen(db, ans.event.value, k))
            && (reply.EventClaimed? ==> reply.owner != k && OwnedBy(db, ans.event.value, reply.owner))
            && reply != ClaimLookupFailed && reply != UpdateFailed
  {
    hide Admit, IsSearchResult, MatchFilters, ExactTuple, RowInv, ClaimFits, IsClaimAnswer, ToMinor, Evidence, ReceiptFor,
         EventMatches, ClaimOpen, OwnedBy, QueryFor;
    AdmitIsComplete(db, default, input);
    ExactMatchIsUnique(db.challenges, a.req, ans.rows);
    var k := KeyFor(a.req);
    if HasTuple(db.challenges, a.req) && k in ans.rows {
      RowStatus(db, k);
      if db.challenges[k].status == Pending && a.needsEvent && ToMinor(a.req.amount, a.req.asset.decimals).Ok? && ans.event.Some? {
        var job := SelectedJob(db, default, input, ans);
        ClaimDecides(db, job, ans.claim);
        ClaimNamesOwner(db, job, ans.claim);
      }
    }
  }

  /** A refused claim names an owner of the event, and never fails to find one. */
  lemma ClaimNamesOwner(db: Db, job: Job, answer: Option<ClaimAnswer>)
    requires DbInv(db) && JobOk(db, job)
    requires IsClaimAnswer(db.claims, db.claims, job.claim, KeyFor(job.req), answer)
    ensures var result := Judge(answer, KeyFor(job.req));
            !result.LookupFailed?
            && (result.ClaimedByOther? ==> result.owner != KeyFor(job.req) && OwnedBy(db, EventOf(job.claim), result.owner))
  {
    hide ReceiptFor, RowInv, IsClaimAnswer;
    var c, self := job.claim, KeyFor(job.req);
    EvidenceFits(db.events, c, job.receipt);
    if c in db.claims { ClaimOnOwnedEvent(db, c, self, answer); } else { ClaimOnFreeEvent(db, c, self, answer); }
  }

  lemma AdmitRefusal(db: Db, default: int, input: FulfilInput)
    ensures Admit(db, default, input).Refused? ==> !Admit(db, default, input).reply.Done?
  {
    hide Clean, Acceptable, NormalizeAsset, ToOptionalTxHash;
  }

  lemma RowStatus(db: Db, k: ChallengeKey)
    requires DbInv(db) && k in db.challenges
    ensures var row := db.challenges[k];
            (row.status == Fulfilled && row.receipt.Some?) <==> row.status != Pending
  {
    assert RowInv(db, k);
  }

  predicate SettledBy(db: Db, after: Db, k: ChallengeKey, e: EventKey, r: Receipt) {
    && k in db.challenges && k in after.challenges
    && after.challenges == db.challenges[k := db.challenges[k].(status := Fulfilled, receipt := Some(r))]
    && after.events == db.events && after.assets == db.assets
    && EventAgrees(after.challenges[k], r) && ExpiresWith(after.challenges[k], r)
    && (RowAgrees(k, after.challenges[k], r) <==> ContractFits(k, db.challenges[k]))
    && (FullyAgrees(k, after.challenges[k], r) <==> ContractFits(k, db.challenges[k]))
    && (exists c :: c in after.claims && BackedBy(after, k, c) && EventOf(c) == e && after.claims == db.claims[c := k])
  }

  lemma SettleOutcome(db: Db, job: Job)
    requires DbInv(db) && JobOk(db, job) && ClaimOpen(db, EventOf(job.claim), KeyFor(job.req))
    requires HasTuple(db.challenges, job.req) && Tidy(job.req) && ExpiresWith(db.challenges[KeyFor(job.req)], job.receipt)
    requires job.receipt.contract == BuildContract(job.req, db.challenges[KeyFor(job.req)].metadata)
    ensures DbInv(Settle(db, job))
    ensures SettledBy(db, Settle(db, job), KeyFor(job.req), EventOf(job.claim), job.receipt)
  {
    hide ToMinor, RowInv, ClaimFits, Evidence, NormalizeNetworkId, Trim, ExactTuple, EventAgrees, ContractFits, BuildContract,
         ReceiptFor, IsTrimmed, FullyAgrees, RowAgrees, Repeats;
    var k := KeyFor(job.req);
    var p := Updated(job, job.claim !in db.claims);
    assert Settle(db, job) == Committed(db, p);
    CommitTables(db, p);
    var row := db.challenges[k];
    var row' := Settle(db, job).challenges[k];
    SameTuple(job.req, row, row');
    AgreementDecides(k, row', job.req, job.req, row, job.receipt);
    FullAgreementDecides(k, row', Write(job.req, row.expiry, row.metadata), job.req, row, job.receipt);
    RepeatsItself(job.req, row, job.receipt.settledAt);
    EventDecides(row', job.req, job.req, job.receipt);
    AsksTheSame(job.req);
    assert job.claim in Settle(db, job).claims;
  }

  /** Status and receipt do not enter the tuple. */
  lemma SameTuple(req: Request, row: Challenge, row': Challenge)
    requires PayloadOf(row) == PayloadOf(row')
    ensures ExactTuple(req, KeyFor(req), row) == ExactTuple(req, KeyFor(req), row')
  {
  }

  lemma AsksTheSame(req: Request)
    ensures SameAsk(req, req)
  {
    EquivalenceRelation(req.network, req.network, req.network);
  }

  lemma RowsStored(t: ChallengeTable, f: Filters, rows: seq<ChallengeKey>)
    requires IsSearchResult(t, f, rows)
    ensures forall i :: 0 <= i < |rows| ==> rows[i] in t
  {
  }

  /** A fulfil request for a row that is fulfilled already changes nothing and, if it finds the row, replays it. */
  lemma FulfilReplays(db: Db, default: int, input: FulfilInput, ans: Answers, req: Request)
    requires DbInv(db) && AnswersFit(db, default, input, ans)
    requires Admit(db, default, input).Admitted? && Admit(db, default, input).req == req
    requires HasTuple(db.challenges, req) && db.challenges[KeyFor(req)].status == Fulfilled
    ensures Fulfil(db, default, input, ans) ==
            (db, if KeyFor(req) in ans.rows then Replay(db.challenges[KeyFor(req)]) else NoMatch)
    ensures |Shelf(db.challenges, req)| <= 100 && IsTrimmed(db.challenges[KeyFor(req)].network) ==> KeyFor(req) in ans.rows
  {
    hide IsSearchResult, MatchFilters, ExactTuple, RowInv, ClaimFits, IsClaimAnswer, ToMinor, IsEventAnswer, Admit, Shelf, IsTrimmed;
    AdmitIsComplete(db, default, input);
    RowStatus(db, KeyFor(req));
    ExactMatchIsUnique(db.challenges, req, ans.rows);
    if |Shelf(db.challenges, req)| <= 100 && IsTrimmed(db.challenges[KeyFor(req)].network) {
      FoundWithinCap(db.challenges, req, ans.rows);
    }
  }

  /** Repeating a fulfil that settled changes no table; if the row is found again the reply carries its receipt. */
  lemma RepeatedFulfil(db: Db, default: int, input: FulfilInput, ans: Answers, after: Db, receipt: Receipt, again: Answers,
                       req: Request)
    requires DbInv(db) && AnswersFit(db, default, input, ans)
    requires Fulfil(db, default, input, ans) == (after, Done(receipt))
    requires AnswersFit(after, default, input, again)
    requires Admit(db, default, input).Admitted? && Admit(db, default, input).req == req
    ensures KeyFor(req) in after.challenges && after.challenges[KeyFor(req)].receipt == Some(receipt)
    ensures Fulfil(after, default, input, again) ==
            (after, if KeyFor(req) in again.rows then Replay(after.challenges[KeyFor(req)]) else NoMatch)
    ensures |Shelf(after.challenges, req)| <= 100 && IsTrimmed(after.challenges[KeyFor(req)].network) ==> KeyFor(req) in again.rows
  {
    hide ExactTuple, RowInv, ClaimFits, ToMinor, Evidence, ClaimOpen, RowAgrees, Shelf, IsTrimmed, Admit, IsSearchResult,
         IsClaimAnswer, IsEventAnswer, BuildReceipt;
    FulfilOutcome(db, default, input, ans);
    AdmitReadsRegistry(db, after, default, input);
    SettledKeepsTuple(db, after, req);
    FulfilReplays(after, default, input, again, req);
  }

  lemma AdmitReadsRegistry(a: Db, b: Db, default: int, input: FulfilInput)
    requires a.assets == b.assets
    ensures Admit(a, default, input) == Admit(b, default, input)
  {
  }

  lemma SettledKeepsTuple(db: Db, after: Db, req: Request)
    requires HasTuple(db.challenges, req) && KeyFor(req) in after.challenges
    requires PayloadOf(after.challenges[KeyFor(req)]) == PayloadOf(db.challenges[KeyFor(req)])
    ensures HasTuple(after.challenges, req)
  {
  }
}

/** The service object: the four tables, and the handlers that change them statement by statement. */
module Facilitator {
  import opened Text
  import opened JsValues
  import opened Decimals
  import opened PltStore
  import opened Challenges
  import opened Payments
  import opened Protocol
  import opened ProtocolLaws
  import opened PaymentLaws

  class Service {
    const defaultGenesisIndex: int
    var challenges: ChallengeTable
    var events: EventTable
    var claims: ClaimTable
    var assets: Registry

    function Tables(): Db
      reads this
    {
      Db(challenges, events, claims, assets)
    }

    ghost predicate Valid()
      reads this
    {
      DbInv(Tables())
    }

    constructor (defaultGenesisIndex: int, assets: Registry)
      ensures Valid() && Tables() == Db(map[], map[], map[], assets)
      ensures this.defaultGenesisIndex == defaultGenesisIndex
    {
      this.defaultGenesisIndex, this.assets := defaultGenesisIndex, assets;
      challenges, events, claims := map[], map[], map[];
    }

    /** What the worker and the ingestion tools do to the event table. */
    method InsertPltTransfers(batch: seq<EventInput>)
      requires Valid() && IntegerAmounts(batch)
      modifies this`events
      ensures Valid() && events == InsertAll(old(events), batch)
    {
      IngestKeeps(Sys(Tables(), map[]), batch);
      events := InsertAll(events, batch);
    }

    method CreatePayment(input: CreateInput) returns (reply: CreateReply)
      requires Valid()
      modifies this
      ensures Valid()
      ensures (Tables(), reply) == Payments.CreatePayment(old(Tables()), defaultGenesisIndex, input)
    {
      hide Clean, Acceptable, NormalizeAsset, ClaimFits, RowInv;
      ghost var before := Tables();
      var r := Clean(input.body);
      if !Acceptable(input.body) { return CreateBadRequest; }
      var norm := NormalizeAsset(assets, r.network, r.asset, input.genesisIndex, defaultGenesisIndex);
      if norm.AssetDisabled? { return CreateAssetDisabled; }
      if norm.DecimalsMismatch? { return CreateBadRequest; }
      if input.expiry.None? { return CreateDatabaseError; }
      var k := KeyFor(r);
      var createdAt := if k in challenges then challenges[k].createdAt else input.now;
      var row := Challenge(r.network, ReadBack(AssetJson(norm.asset)), r.amount, r.payTo, input.expiry.value,
                           ReadBack(PlainObject(input.policy)), ReadBack(PlainObject(input.metadata)), Pending, None, createdAt);
      PendingRowKeeps(before, k, row);
      challenges := challenges[k := row];
      reply := CreateOk(row);
    }

    method PostChallenge(key: ChallengeKey, payload: Payload, now: int) returns (result: UpsertResult)
      requires Valid()
      modifies this
      ensures Valid()
      ensures (challenges, result) == UpsertChallenge(old(challenges), key, payload, now)
      ensures events == old(events) && claims == old(claims) && assets == old(assets)
    {
      hide ComparesEqual, ClaimFits, RowInv;
      if key !in challenges {
        PendingRowKeeps(Tables(), key, StoredRow(payload, now));
        challenges := challenges[key := StoredRow(payload, now)];
        return Created(challenges[key]);
      }
      var row := challenges[key];
      result := if ComparesEqual(row, payload) then SamePayload(row) else Conflict;
    }

    /** The event of a transaction with the asked token, recipient and amount, the first by index. */
    method FindPltEventByTx(q: EventQuery) returns (answer: Option<EventKey>)
      ensures IsEventAnswer(events, q, answer) && (answer.Some? ==> answer.value in events)
    {
      hide EventMatches;
      answer := None;
      var todo := events.Keys;
      while todo != {}
        invariant todo <= events.Keys
        invariant answer.Some? ==> answer.value in events && EventMatches(q, answer.value, events[answer.value])
        invariant forall k :: k in events && k !in todo && EventMatches(q, k, events[k]) ==>
                                answer.Some? && answer.value.eventIndex <= k.eventIndex
        decreases todo
      {
        var k :| k in todo;
        if EventMatches(q, k, events[k]) && (answer.None? || k.eventIndex < answer.value.eventIndex) {
          answer := Some(k);
        }
        todo := todo - {k};
      }
    }

    /** INSERT ... ON CONFLICT DO NOTHING, UNION ALL the claims the statement's snapshot has on the event. */
    method ClaimPltEvent(c: ClaimKey, self: ChallengeKey) returns (result: ClaimResult, ghost answer: Option<ClaimAnswer>)
      modifies this`claims
      ensures IsClaimAnswer(old(claims), old(claims), c, self, answer)
      ensures result == Judge(answer, self)
      ensures claims == InsertClaim(old(claims), c, self)
    {
      hide SameEventClaim;
      var snapshot := claims;
      var row: Option<ClaimAnswer> := None;
      if c !in claims {
        claims := claims[c := self];
        row := Some(ClaimAnswer(self, true));
      } else {
        var arm := set d | d in snapshot && SameEventClaim(c, d);
        if arm != {} {
          var d :| d in arm;
          row := Some(ClaimAnswer(snapshot[d], false));
        } else {
          assert forall d :: d in snapshot && SameEventClaim(c, d) ==> d in arm;
        }
      }
      answer := row;
      if row.None? { return LookupFailed, answer; }
      if row.value.owner == self { return ClaimedBySelf(row.value.inserted), answer; }
      return ClaimedByOther(row.value.owner), answer;
    }

    /** BEGIN; claim; update; COMMIT, with ROLLBACK on every refusal. */
    method ClaimAndPersist(job: Job) returns (reply: Reply, ghost answer: Option<ClaimAnswer>)
      modifies this`claims, this`challenges
      ensures IsClaimAnswer(old(claims), old(claims), job.claim, KeyFor(job.req), answer)
      ensures (Tables(), reply) == Payments.ClaimAndPersist(old(Tables()), job, answer)
    {
      hide IsClaimAnswer;
      var begin := claims;
      var self := KeyFor(job.req);
      var claim;
      claim, answer := ClaimPltEvent(job.claim, self);
      if !claim.ClaimedBySelf? {
        claims := begin;
        return if claim.ClaimedByOther? then EventClaimed(claim.owner) else ClaimLookupFailed, answer;
      }
      if self !in challenges {
        claims := begin;
        return UpdateFailed, answer;
      }
      challenges := challenges[self := challenges[self].(status := Fulfilled, receipt := Some(job.receipt))];
      reply := Done(job.receipt);
    }

    method Fulfil(input: FulfilInput) returns (reply: Reply, ghost ans: Answers)
      requires Valid()
      modifies this
      ensures Valid()
      ensures AnswersFit(old(Tables()), defaultGenesisIndex, input, ans)
      ensures (Tables(), reply) == Payments.Fulfil(old(Tables()), defaultGenesisIndex, input, ans)
    {
      hide DbInv, IsSearchResult, MatchFilters, ExactTuple, IsClaimAnswer, IsEventAnswer, ToMinor, Admit, BuildReceipt;
      ghost var before := Tables();
      ans := Answers([], None, None);
      var admission := Admit(Tables(), defaultGenesisIndex, input);
      if admission.Refused? { return admission.reply, ans; }
      var req := admission.req;
      var found;
      ghost var rows;
      found, rows := FindExactMatch(challenges, req);
      RowsStored(challenges, MatchFilters(req), rows);
      ans := ans.(rows := rows);
      if found.None? { return NoMatch, ans; }
      FindExactIn(challenges, rows, req);
      var row := challenges[found.value];
      if row.status == Fulfilled && row.receipt.Some? { return Replay(row), ans; }
      if !admission.needsEvent { return MatchOnly(row), ans; }
      var minor := ToMinorUnits(req.amount, req.asset.decimals);
      if minor.Err? { return BadRequest, ans; }
      var event := FindPltEventByTx(QueryFor(req, admission.genesisIndex, minor.value, admission.txHash));
      ans := ans.(event := event);
      if event.None? { return NoEvent, ans; }
      var job := BuildJob(req, admission.genesisIndex, event.value, events[event.value], minor.value, row);
      ghost var claim;
      reply, claim := ClaimAndPersist(job);
      ans := ans.(claim := claim);
      FulfilOutcome(before, defaultGenesisIndex, input, ans);
    }
  }
}
