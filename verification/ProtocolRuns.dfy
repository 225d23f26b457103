/** What holds between two moments of a run: stored payloads, receipts, and the handler run without interruption. */
module ProtocolRuns {
  import opened Text
  import opened NetworkId
  import opened Json
  import opened JsValues
  import opened Decimals
  import opened PltStore
  import opened Challenges
  import opened ChallengeLaws
  import opened Payments
  import opened Protocol
  import opened ProtocolLaws

  /** The one step that rewrites a challenge's payload: POST /payments for its key. */
  predicate Resets(l: Label, k: ChallengeKey) { l.Create? && KeyFor(Clean(l.input.body)) == k }

  predicate NoReset(ls: seq<Label>, k: ChallengeKey) { forall i :: 0 <= i < |ls| ==> !Resets(ls[i], k) }

  /* ---------- first writer wins ---------- */

  lemma StepKeepsPayload(s: Sys, l: Label, k: ChallengeKey)
    requires Enabled(s, l) && k in s.db.challenges && !Resets(l, k)
    ensures var t := Apply(s, l).db.challenges;
            k in t && PayloadOf(t[k]) == PayloadOf(s.db.challenges[k]) && t[k].createdAt == s.db.challenges[k].createdAt
  {
    hide NormalizeAsset, Clean, Acceptable, AssetJson, Admit, SelectJob, FindExact;
  }

  lemma {:induction false} RunKeepsPayload(s: Sys, ls: seq<Label>, k: ChallengeKey)
    requires IsRun(s, ls) && k in s.db.challenges && NoReset(ls, k)
    ensures var t := Exec(s, ls).db.challenges; k in t && PayloadOf(t[k]) == PayloadOf(s.db.challenges[k])
    decreases |ls|
  {
    if ls == [] {
    } else {
      StepKeepsPayload(s, ls[0], k);
      assert NoReset(ls[1..], k);
      RunKeepsPayload(Apply(s, ls[0]), ls[1..], k);
    }
  }

  /**
   * First writer wins. After POST /v1/challenges has created a challenge, and whatever runs next short of a reset,
   * a further post of q changes nothing, and answers "same payload" exactly when q is what the first payload reads
   * back as, up to the spelling of the network, otherwise "conflict".
   */
  lemma FirstWriterWins(s: Sys, k: ChallengeKey, p: Payload, now: int, ls: seq<Label>, q: Payload, later: int)
    requires k !in s.db.challenges
    requires IsRun(Apply(s, Post(k, p, now)), ls) && NoReset(ls, k)
    ensures var end := Exec(Apply(s, Post(k, p, now)), ls).db.challenges;
            var (after, answer) := UpsertChallenge(end, k, q, later);
            && after == end
            && (answer.SamePayload? || answer == Conflict)
            && (answer.SamePayload? <==>
                SameUpToNetwork(p.(asset := ReadBack(p.asset), policy := ReadBack(OrEmpty(p.policy)),
                                   metadata := ReadBack(OrEmpty(p.metadata))), q))
  {
    var s1 := Apply(s, Post(k, p, now));
    assert PayloadOf(s1.db.challenges[k]) == p.(asset := ReadBack(p.asset), policy := ReadBack(OrEmpty(p.policy)),
                                                metadata := ReadBack(OrEmpty(p.metadata)));
    RunKeepsPayload(s1, ls, k);
  }

  /* ---------- a fulfilled challenge ---------- */

  /** The request works on k and has already read its row. */
  predicate PastMatch(p: Phase, k: ChallengeKey) {
    match p
    case AdmittedPhase(_, _, _, _) => false
    case Matched(req, _, _, _) => KeyFor(req) == k
    case _ => KeyFor(p.job.req) == k
  }

  predicate NonePastMatch(s: Sys, k: ChallengeKey) {
    forall t :: t in s.flights ==> !PastMatch(s.flights[t], k)
  }

  /** Two receipts are one proof up to the spelling of the contract's network. */
  predicate SameProof(a: Receipt, b: Receipt) {
    && NetworksEquivalent(a.contract.network, b.contract.network)
    && a.(contract := a.contract.(network := b.contract.network)) == b
  }

  /** The request has selected its event, and its receipt is the same proof as r. */
  predicate HoldsProof(p: Phase, r: Receipt) { !p.AdmittedPhase? && !p.Matched? && SameProof(p.job.receipt, r) }

  /** The challenge is fulfilled with the proof r, and every request that read its row before holds the same proof. */
  ghost predicate Settled(s: Sys, k: ChallengeKey, r: Receipt) {
    && k in s.db.challenges && s.db.challenges[k].status == Fulfilled
    && s.db.challenges[k].receipt.Some? && SameProof(s.db.challenges[k].receipt.value, r)
    && forall t :: t in s.flights && PastMatch(s.flights[t], k) ==> HoldsProof(s.flights[t], r)
  }

  lemma MatchSeesFulfilled(s: Sys, k: ChallengeKey, t: int, rows: seq<ChallengeKey>)
    requires Inv(s) && t in s.flights && s.flights[t].AdmittedPhase?
    requires k in s.db.challenges && s.db.challenges[k].status == Fulfilled && s.db.challenges[k].receipt.Some?
    requires IsSearchResult(s.db.challenges, MatchFilters(s.flights[t].req), rows)
    ensures var s' := AfterMatch(s, t, rows);
            forall u :: u in s'.flights && PastMatch(s'.flights[u], k) ==> u in s.flights && s'.flights[u] == s.flights[u]
  {
    hide ExactTuple, MatchFilters, RowInv, ClaimFits;
    var p := s.flights[t];
    assert FlightOk(s.db, p);
    FindExactIn(s.db.challenges, rows, p.req);
    ExactMatchIsUnique(s.db.challenges, p.req, rows);
  }

  /** What one step short of a reset leaves of a fulfilled challenge. */
  lemma StepKeepsSettled(s: Sys, l: Label, k: ChallengeKey, r: Receipt)
    requires Inv(s) && Enabled(s, l) && Settled(s, k, r) && !Resets(l, k)
    ensures Settled(Apply(s, l), k, r)
    ensures PayloadOf(Apply(s, l).db.challenges[k]) == PayloadOf(s.db.challenges[k])
  {
    hide NormalizeAsset, Clean, Acceptable, AssetJson, FindExact, RowInv, ClaimFits, IsSearchResult, IsClaimAnswer,
         IsEventAnswer, FlightOk, SameProof;
    StepKeepsPayload(s, l, k);
    match l
    case ReadMatch(t, rows) => MatchSeesFulfilled(s, k, t, rows);
    case ReadEvent(t, event) =>
      assert !PastMatch(s.flights[t], k);
    case Admission(t, fulfil, default) =>
    case _ =>
  }

  lemma StepKeepsRow(s: Sys, l: Label, k: ChallengeKey, r: Receipt)
    requires Inv(s) && Enabled(s, l) && Settled(s, k, r) && NonePastMatch(s, k) && !Resets(l, k)
    ensures NonePastMatch(Apply(s, l), k)
    ensures k in Apply(s, l).db.challenges && Apply(s, l).db.challenges[k] == s.db.challenges[k]
  {
    hide NormalizeAsset, Clean, Acceptable, AssetJson, FindExact, RowInv, ClaimFits, IsSearchResult, IsClaimAnswer,
         IsEventAnswer, FlightOk, SameProof;
    match l
    case ReadMatch(t, rows) => MatchSeesFulfilled(s, k, t, rows);
    case ReadEvent(t, event) =>
      assert !PastMatch(s.flights[t], k);
    case Admission(t, fulfil, default) =>
    case _ =>
  }

  /**
   * A receipt is final until a reset, as long as every request that read the challenge before it was fulfilled holds
   * the same proof: over every run without POST /payments for its key the row stays fulfilled with that proof and its
   * payload. If no such request is left, the whole row stays as it is.
   */
  lemma {:induction false} ReceiptIsFinal(s: Sys, ls: seq<Label>, k: ChallengeKey, r: Receipt)
    requires Inv(s) && IsRun(s, ls) && Settled(s, k, r) && NoReset(ls, k)
    ensures Settled(Exec(s, ls), k, r)
    ensures PayloadOf(Exec(s, ls).db.challenges[k]) == PayloadOf(s.db.challenges[k])
    ensures NonePastMatch(s, k) ==>
              NonePastMatch(Exec(s, ls), k) && Exec(s, ls).db.challenges[k] == s.db.challenges[k]
    decreases |ls|
  {
    hide Enabled, Apply, Inv, Settled, Resets, NonePastMatch;
    if ls == [] {
    } else {
      RowExists(s, k, r);
      StepKeepsSettled(s, ls[0], k, r);
      RowExists(Apply(s, ls[0]), k, r);
      StepKeeps(s, ls[0]);
      if NonePastMatch(s, k) { StepKeepsRow(s, ls[0], k, r); }
      assert NoReset(ls[1..], k);
      ReceiptIsFinal(Apply(s, ls[0]), ls[1..], k, r);
      RowExists(Exec(s, ls), k, r);
    }
  }

  lemma RowExists(s: Sys, k: ChallengeKey, r: Receipt)
    requires Settled(s, k, r)
    ensures k in s.db.challenges
  {
  }

  /* ---------- receipt and row ---------- */

  /** The row says what the receipt's payment event, chain id and asset say. */
  predicate EventAgrees(row: Challenge, r: Receipt) {
    && CanonicalChainId(row.network) == r.chainId
    && Get(row.asset, "type") == Some(JStr(r.assetType))
    && Get(row.asset, "tokenId") == Some(JStr(r.tokenId))
    && ToNumber(Get(row.asset, "decimals")) == Some(r.decimals)
    && row.payTo == r.to
    && ToMinor(row.amount, r.decimals) == Ok(r.amountRaw)
  }

  /** The row says what the rest of the receipt's contract says, up to the network's spelling and in minor units. */
  predicate ContractAgrees(k: ChallengeKey, row: Challenge, r: Receipt) {
    && r.contract.merchantId == k.merchantId
    && NetworksEquivalent(r.contract.network, row.network)
    && r.contract.payTo == row.payTo
    && ToMinor(r.contract.amount, r.decimals) == ToMinor(row.amount, r.decimals)
  }

  /** The stored row asks for what its receipt says was paid: merchant, network, asset, amount and recipient. */
  predicate RowAgrees(k: ChallengeKey, row: Challenge, r: Receipt) { EventAgrees(row, r) && ContractAgrees(k, row, r) }

  /** Two contracts are one, up to the spelling of the network and the writing of the amount. */
  predicate SameContract(a: Contract, b: Contract, decimals: int) {
    && a.contractId == b.contractId && a.contractVersion == b.contractVersion && a.isFrozen == b.isFrozen
    && a.merchantId == b.merchantId && a.payTo == b.payTo
    && a.resourceMethod == b.resourceMethod && a.resourcePath == b.resourcePath
    && NetworksEquivalent(a.network, b.network)
    && ToMinor(a.amount, decimals) == ToMinor(b.amount, decimals)
  }

  /** The contract a receipt made from the row as it stands would carry. */
  function RowContract(k: ChallengeKey, row: Challenge): Contract {
    BuildContract(Request(k.merchantId, k.nonce, row.network, Asset("", "", 0), row.amount, row.payTo), row.metadata)
  }

  /** The stored row says everything its receipt says: what was paid, when it expires, and the whole contract. */
  predicate FullyAgrees(k: ChallengeKey, row: Challenge, r: Receipt) {
    RowAgrees(k, row, r) && ExpiresWith(row, r) && SameContract(r.contract, RowContract(k, row), r.decimals)
  }

  /** What an accepted POST /payments writes: its request, expiry, and metadata as read back. */
  datatype Write = Write(ask: Request, expiry: int, metadata: Json)

  /** The expiry a receipt over an event of that time names. */
  function ExpiryAfter(expiry: int, settledAt: int): Option<int> { if expiry > settledAt then Some(expiry) else None }

  /**
   * A write repeats the challenge `matched` for the request req over an event of time settledAt: the same tuple, an
   * expiry of the same effect, and the same contract.
   */
  predicate Repeats(w: Write, req: Request, matched: Challenge, settledAt: int) {
    && SameAsk(w.ask, req)
    && ExpiryAfter(w.expiry, settledAt) == ExpiryAfter(matched.expiry, settledAt)
    && SameContract(BuildContract(w.ask, w.metadata), BuildContract(req, matched.metadata), req.asset.decimals)
  }

  /**
   * The contract in a challenge's own metadata leaves out, or repeats, its merchant, network, recipient and amount: a
   * merchant can check this before posting.
   */
  predicate ContractFits(k: ChallengeKey, row: Challenge) {
    var own := OwnContract(row.metadata);
    var decimals := ToNumber(Get(row.asset, "decimals"));
    && Trim(TextOf(Member(own, "merchantId"), k.merchantId)) == k.merchantId
    && NetworksEquivalent(Trim(TextOf(Member(own, "network"), row.network)), row.network)
    && Trim(TextOf(Member(own, "payTo"), row.payTo)) == row.payTo
    && (decimals.Some? ==> ToMinor(TextOf(Member(own, "amount"), row.amount), decimals.value) == ToMinor(row.amount, decimals.value))
  }

  /** Two requests ask for one tuple, up to the spelling of the network and the writing of the amount. */
  predicate SameAsk(w: Request, req: Request) {
    && NetworksEquivalent(w.network, req.network)
    && w.asset == req.asset
    && w.payTo == req.payTo
    && ToMinor(w.amount, w.asset.decimals) == ToMinor(req.amount, req.asset.decimals)
  }

  lemma CanonicalTrim(n: string)
    ensures CanonicalChainId(Trim(n)) == CanonicalChainId(n)
  {
    hide ReceiptForm, Split, Lower;
    TrimTrims(n);
    assert Trim(Trim(n)) == Trim(n);
    assert NormalizeNetworkId(Trim(n)) == NormalizeNetworkId(n);
  }

  /** A row with a request's tuple is on the request's network. */
  lemma TupleNetwork(req: Request, k: ChallengeKey, row: Challenge)
    requires ExactTuple(req, k, row)
    ensures CanonicalChainId(row.network) == CanonicalChainId(req.network)
  {
    hide NormalizeNetworkId, Trim, NetworkCandidates, CanonicalChainId;
    SameClass(req.network, Trim(row.network));
    CanonicalTrim(row.network);
  }

  lemma ToMinorTrims(a: string, d: int)
    ensures ToMinor(Trim(a), d) == ToMinor(a, d)
  {
    hide IsAmount, StripLeadingZeros, Signed;
    TrimTrims(a);
    TrimTrims(Trim(a));
  }

  /** The payment event's side: it agrees with a row written by w exactly when w asks for the same. */
  lemma EventDecides(row: Challenge, w: Request, req: Request, r: Receipt)
    requires ExactTuple(w, KeyFor(w), row) && row.payTo == w.payTo && ReceiptFor(req, r)
    ensures EventAgrees(row, r) <==> SameAsk(w, req)
  {
    hide ToMinor, NormalizeNetworkId, Trim, NetworkCandidates, ToNumber, CanonicalChainId, NetworksEquivalent;
    TupleNetwork(w, KeyFor(w), row);
    CanonicalIsCompleteInvariant(w.network, req.network);
  }

  /** The contract's side, on the row it was read from. */
  lemma ContractDecides(k: ChallengeKey, req: Request, matched: Challenge, r: Receipt)
    requires KeyFor(req) == k && ExactTuple(req, k, matched) && matched.payTo == req.payTo && Tidy(req)
    requires r.decimals == req.asset.decimals && r.contract == BuildContract(req, matched.metadata)
    ensures ContractAgrees(k, matched, r) <==> ContractFits(k, matched)
  {
    hide ToMinor, NormalizeNetworkId, Trim, NetworkCandidates, ToNumber, CanonicalChainId, NetworksEquivalent, IsTrimmed, Member,
         OwnContract, ToText;
    var own := OwnContract(matched.metadata);
    TupleNetwork(req, k, matched);
    TrimTrims(req.merchantId);
    TrimTrims(req.payTo);
    ToMinorTrims(TextOf(Member(own, "amount"), req.amount), r.decimals);
    if Member(own, "network").None? {
      CanonicalTrim(req.network);
      CanonicalTrim(matched.network);
      CanonicalIsCompleteInvariant(Trim(req.network), matched.network);
      CanonicalIsCompleteInvariant(Trim(matched.network), matched.network);
    }
  }

  /** A contract agrees alike with two rows that ask for one tuple. */
  lemma ContractFollows(k: ChallengeKey, row: Challenge, matched: Challenge, r: Receipt)
    requires CanonicalChainId(row.network) == CanonicalChainId(matched.network) && row.payTo == matched.payTo
    requires ToMinor(row.amount, r.decimals) == ToMinor(matched.amount, r.decimals)
    ensures ContractAgrees(k, row, r) <==> ContractAgrees(k, matched, r)
  {
    hide ToMinor, CanonicalChainId, NetworksEquivalent;
    CanonicalIsCompleteInvariant(r.contract.network, row.network);
    CanonicalIsCompleteInvariant(r.contract.network, matched.network);
  }

  /**
   * A receipt made from the row `matched` for the request req agrees with a row last written by w exactly when w asks
   * for the same tuple as req and the contract in `matched`'s metadata fits it.
   */
  lemma AgreementDecides(k: ChallengeKey, row: Challenge, w: Request, req: Request, matched: Challenge, r: Receipt)
    requires KeyFor(w) == k && ExactTuple(w, k, row) && row.payTo == w.payTo
    requires KeyFor(req) == k && ExactTuple(req, k, matched) && matched.payTo == req.payTo && Tidy(req)
    requires ReceiptFor(req, r) && r.contract == BuildContract(req, matched.metadata)
    ensures RowAgrees(k, row, r) <==> SameAsk(w, req) && ContractFits(k, matched)
  {
    hide ToMinor, NetworkCandidates, AssetIs, CanonicalChainId, NetworksEquivalent, BuildContract, ContractFits, ContractAgrees,
         EventAgrees, IsTrimmed;
    EventDecides(row, w, req, r);
    ContractDecides(k, req, matched, r);
    if SameAsk(w, req) {
      TupleNetwork(w, k, row);
      TupleNetwork(req, k, matched);
      CanonicalIsCompleteInvariant(w.network, req.network);
      ContractFollows(k, row, matched, r);
    }
  }

  lemma SameContractLaws(a: Contract, b: Contract, c: Contract, decimals: int)
    ensures SameContract(a, a, decimals)
    ensures SameContract(a, b, decimals) <==> SameContract(b, a, decimals)
    ensures SameContract(a, b, decimals) && SameContract(b, c, decimals) ==> SameContract(a, c, decimals)
  {
    hide NetworksEquivalent, ToMinor;
    EquivalenceRelation(a.network, b.network, c.network);
  }

  /** Requests for one tuple get one contract from one metadata. */
  lemma ContractOfSameAsk(a: Request, b: Request, metadata: Json, decimals: int)
    requires a.merchantId == b.merchantId && a.payTo == b.payTo && ToMinor(a.amount, decimals) == ToMinor(b.amount, decimals)
    requires CanonicalChainId(a.network) == CanonicalChainId(b.network)
    ensures SameContract(BuildContract(a, metadata), BuildContract(b, metadata), decimals)
  {
    hide Trim, CanonicalChainId, NetworksEquivalent, Member, OwnContract, ToText, Truthy, ToMinor;
    var x, y := BuildContract(a, metadata), BuildContract(b, metadata);
    CanonicalTrim(a.network);
    CanonicalTrim(b.network);
    CanonicalIsCompleteInvariant(x.network, y.network);
    ToMinorTrims(a.amount, decimals);
    ToMinorTrims(b.amount, decimals);
  }

  /** The row's own contract is that of the write that last wrote it. */
  lemma RowContractIs(k: ChallengeKey, row: Challenge, w: Write, decimals: int)
    requires KeyFor(w.ask) == k && ExactTuple(w.ask, k, row) && row.payTo == w.ask.payTo && row.metadata == w.metadata
    ensures SameContract(RowContract(k, row), BuildContract(w.ask, w.metadata), decimals)
  {
    hide CanonicalChainId, NetworkCandidates, AssetIs, BuildContract, SameContract, ToMinor;
    TupleNetwork(w.ask, k, row);
    ContractOfSameAsk(Request(k.merchantId, k.nonce, row.network, Asset("", "", 0), row.amount, row.payTo), w.ask, w.metadata, decimals);
  }

  /**
   * The whole receipt: one made from the row `matched` agrees fully with a row last written by w exactly when w repeats
   * that challenge and the contract in its metadata fits it.
   */
  lemma FullAgreementDecides(k: ChallengeKey, row: Challenge, w: Write, req: Request, matched: Challenge, r: Receipt)
    requires KeyFor(w.ask) == k && ExactTuple(w.ask, k, row) && row.payTo == w.ask.payTo
    requires row.expiry == w.expiry && row.metadata == w.metadata
    requires KeyFor(req) == k && ExactTuple(req, k, matched) && matched.payTo == req.payTo && Tidy(req)
    requires ReceiptFor(req, r) && r.contract == BuildContract(req, matched.metadata) && ExpiresWith(matched, r)
    ensures FullyAgrees(k, row, r) <==> Repeats(w, req, matched, r.settledAt) && ContractFits(k, matched)
  {
    hide ExactTuple, BuildContract, RowContract, SameContract, SameAsk, ContractFits, RowAgrees, Tidy;
    AgreementDecides(k, row, w.ask, req, matched, r);
    RowContractIs(k, row, w, r.decimals);
    SameContractLaws(r.contract, RowContract(k, row), BuildContract(w.ask, w.metadata), r.decimals);
    SameContractLaws(r.contract, BuildContract(w.ask, w.metadata), RowContract(k, row), r.decimals);
    SameContractLaws(RowContract(k, row), BuildContract(w.ask, w.metadata), r.contract, r.decimals);
  }

  /** A challenge repeats itself. */
  lemma RepeatsItself(req: Request, matched: Challenge, settledAt: int)
    ensures Repeats(Write(req, matched.expiry, matched.metadata), req, matched, settledAt)
  {
    hide BuildContract, SameContract, NetworksEquivalent;
    EquivalenceRelation(req.network, req.network, req.network);
    var c := BuildContract(req, matched.metadata);
    SameContractLaws(c, c, c, req.asset.decimals);
  }

  /* ---------- the handler without interruption ---------- */

  predicate NoResetAtAll(ls: seq<Label>) { forall i :: 0 <= i < |ls| ==> !ls[i].Create? }

  lemma StepThen(s: Sys, l: Label, s1: Sys, rest: seq<Label>)
    requires Enabled(s, l) && Apply(s, l) == s1 && IsRun(s1, rest)
    ensures IsRun(s, [l] + rest) && Exec(s, [l] + rest) == Exec(s1, rest)
    ensures NoResetAtAll(rest) && !l.Create? ==> NoResetAtAll([l] + rest)
  {
    hide Enabled, Apply;
    assert ([l] + rest)[1..] == rest;
  }

  lemma NoStep(s: Sys)
    ensures IsRun(s, []) && Exec(s, []) == s && NoResetAtAll([])
  {
  }

  lemma {:induction false} Append(s: Sys, a: seq<Label>, b: seq<Label>)
    requires IsRun(s, a) && IsRun(Exec(s, a), b)
    ensures IsRun(s, a + b) && Exec(s, a + b) == Exec(Exec(s, a), b)
    decreases |a|
  {
    hide Enabled, Apply;
    if a == [] {
      assert a + b == b;
    } else {
      assert (a + b)[1..] == a[1..] + b;
      Append(Apply(s, a[0]), a[1..], b);
    }
  }

  /** The match read of a request in flight. */
  lemma MatchStep(s: Sys, t: int, a: Admission, rows: seq<ChallengeKey>)
    requires a.Admitted? && t in s.flights && s.flights[t] == AdmittedPhase(a.req, a.genesisIndex, a.txHash, a.needsEvent)
    requires IsSearchResult(s.db.challenges, MatchFilters(a.req), rows)
    requires forall i :: 0 <= i < |rows| ==> rows[i] in s.db.challenges
    ensures Enabled(s, ReadMatch(t, rows))
    ensures Apply(s, ReadMatch(t, rows)) ==
            match MatchedRow(s.db, a.req, rows, a.needsEvent)
            case None => Land(s, t)
            case Some(row) => Fly(s, t, Matched(a.req, a.genesisIndex, a.txHash, row))
  {
    hide IsSearchResult, MatchFilters, FindExact;
    FindExactIn(s.db.challenges, rows, a.req);
  }

  /** Its event read. */
  lemma EventStep(s: Sys, t: int, a: Admission, row: Challenge, ans: Answers)
    requires a.Admitted? && t in s.flights && s.flights[t] == Matched(a.req, a.genesisIndex, a.txHash, row)
    requires ans.event.Some? ==> ans.event.value in s.db.events
    requires EventAndClaimFit(s.db, a.req, a.genesisIndex, a.txHash, ans)
    ensures Enabled(s, ReadEvent(t, ans.event))
    ensures Apply(s, ReadEvent(t, ans.event)) ==
            match SelectJob(s.db, a, row, ans.event).0 case None => Land(s, t) case Some(job) => Fly(s, t, Chosen(job))
  {
    hide IsEventAnswer, IsClaimAnswer, ToMinor, BuildReceipt;
  }

  /** No other request holds a claim or a row. */
  predicate Quiet(s: Sys, t: int) {
    forall u :: u in s.flights && u != t ==> !s.flights[u].Claimed? && !s.flights[u].Updated?
  }

  /** The transaction of one request while no other holds a lock: it does what the uninterrupted handler does. */
  lemma FromChosen(s: Sys, t: int, job: Job, answer: Option<ClaimAnswer>) returns (ls: seq<Label>)
    requires t in s.flights && s.flights[t] == Chosen(job) && Quiet(s, t)
    requires IsClaimAnswer(s.db.claims, s.db.claims, job.claim, KeyFor(job.req), answer)
    ensures IsRun(s, ls) && NoResetAtAll(ls)
    ensures Exec(s, ls) == Land(s.(db := ClaimAndPersist(s.db, job, answer).0), t)
  {
    hide IsClaimAnswer, IsRun, Exec, NoResetAtAll;
    var s1 := Fly(s, t, Claiming(job, s.db.claims));
    assert Enabled(s, StartClaim(t)) && Apply(s, StartClaim(t)) == s1;
    var tail := FromClaiming(s1, t, job, answer);
    StepThen(s, StartClaim(t), s1, tail);
    ls := [StartClaim(t)] + tail;
    assert Land(s1.(db := ClaimAndPersist(s.db, job, answer).0), t) == Land(s.(db := ClaimAndPersist(s.db, job, answer).0), t);
  }

  lemma FromClaiming(s: Sys, t: int, job: Job, answer: Option<ClaimAnswer>) returns (ls: seq<Label>)
    requires t in s.flights && s.flights[t] == Claiming(job, s.db.claims) && Quiet(s, t)
    requires IsClaimAnswer(s.db.claims, s.db.claims, job.claim, KeyFor(job.req), answer)
    ensures IsRun(s, ls) && NoResetAtAll(ls)
    ensures Exec(s, ls) == Land(s.(db := ClaimAndPersist(s.db, job, answer).0), t)
  {
    hide IsClaimAnswer, IsRun, Exec, NoResetAtAll;
    var l := AnswerClaim(t, answer);
    assert Enabled(s, l);
    if Judge(answer, KeyFor(job.req)).ClaimedBySelf? {
      var s1 := Fly(s, t, Claimed(job, job.claim !in s.db.claims));
      assert Apply(s, l) == s1;
      var rest := FromClaimed(s1, t, job);
      StepThen(s, l, s1, rest);
      ls := [l] + rest;
      var db := ClaimAndPersist(s.db, job, answer).0;
      assert Land(s1.(db := db), t) == Land(s.(db := db), t);
    } else {
      assert Apply(s, l) == Land(s, t);
      NoStep(Land(s, t));
      StepThen(s, l, Land(s, t), []);
      ls := [l] + [];
    }
  }

  lemma FromClaimed(s: Sys, t: int, job: Job) returns (ls: seq<Label>)
    requires t in s.flights && s.flights[t] == Claimed(job, job.claim !in s.db.claims) && Quiet(s, t)
    ensures IsRun(s, ls) && NoResetAtAll(ls)
    ensures Exec(s, ls) == Land(s.(db := if KeyFor(job.req) in s.db.challenges then Settle(s.db, job) else s.db), t)
  {
    hide IsRun, Exec, NoResetAtAll;
    var l := UpdateRow(t);
    assert Enabled(s, l);
    if KeyFor(job.req) in s.db.challenges {
      var s1 := Fly(s, t, Updated(job, job.claim !in s.db.claims));
      assert Apply(s, l) == s1;
      var s2 := Land(s.(db := Settle(s.db, job)), t);
      assert Enabled(s1, Commit(t)) && Apply(s1, Commit(t)) == s2;
      NoStep(s2);
      StepThen(s1, Commit(t), s2, []);
      StepThen(s, l, s1, [Commit(t)] + []);
      ls := [l] + ([Commit(t)] + []);
    } else {
      assert Apply(s, l) == Land(s, t);
      NoStep(Land(s, t));
      StepThen(s, l, Land(s, t), []);
      ls := [l] + [];
    }
  }

  /** Every handler but fulfil, and a change of the registry, is a run of one step, whatever the tables. */
  lemma HandlersAreRuns(db: Db, default: int, input: CreateInput, key: ChallengeKey, payload: Payload, now: int,
                        batch: seq<EventInput>, assets: Registry)
    ensures var l := [Create(input, default)];
            IsRun(Sys(db, map[]), l) && Exec(Sys(db, map[]), l) == Sys(CreatePayment(db, default, input).0, map[])
    ensures var l := [Post(key, payload, now)];
            && IsRun(Sys(db, map[]), l)
            && Exec(Sys(db, map[]), l) == Sys(db.(challenges := UpsertChallenge(db.challenges, key, payload, now).0), map[])
    ensures var l := [Ingest(batch)];
            IntegerAmounts(batch) ==>
              IsRun(Sys(db, map[]), l) && Exec(Sys(db, map[]), l) == Sys(db.(events := InsertAll(db.events, batch)), map[])
    ensures var l := [SetAssets(assets)];
            db.assets.Keys <= assets.Keys ==>
              IsRun(Sys(db, map[]), l) && Exec(Sys(db, map[]), l) == Sys(db.(assets := assets), map[])
  {
    var s := Sys(db, map[]);
    AloneIsRun(s, Create(input, default));
    AloneIsRun(s, Post(key, payload, now));
    if IntegerAmounts(batch) { AloneIsRun(s, Ingest(batch)); }
    if db.assets.Keys <= assets.Keys { AloneIsRun(s, SetAssets(assets)); }
    hide IsRun, Exec, CreatePayment, UpsertChallenge, InsertAll, IntegerAmounts, Clean;
  }

  lemma AloneIsRun(s: Sys, l: Label)
    requires Enabled(s, l)
    ensures IsRun(s, [l]) && Exec(s, [l]) == Apply(s, l)
  {
    hide Enabled, Apply;
    NoStep(Apply(s, l));
    StepThen(s, l, Apply(s, l), []);
    assert [l] + [] == [l];
  }

  /** Fulfil run alone is one of the interleaved runs, so every result about runs covers it. */
  lemma FulfilIsARun(db: Db, default: int, input: FulfilInput, ans: Answers) returns (ls: seq<Label>)
    requires DbInv(db) && AnswersFit(db, default, input, ans)
    ensures IsRun(Sys(db, map[]), ls) && NoResetAtAll(ls)
    ensures Exec(Sys(db, map[]), ls) == Sys(Fulfil(db, default, input, ans).0, map[])
  {
    hide IsSearchResult, MatchFilters, FindExact, DbInv, NormalizeAsset, Clean, Acceptable, IsRun, Exec, NoResetAtAll,
         SelectJob, EventAndClaimFit;
    var s0 := Sys(db, map[]);
    var l0 := Admission(0, input, default);
    match Admit(db, default, input) {
      case Refused(_) =>
        NoStep(s0);
        ls := [];
      case Admitted(req, g, tx, needsEvent) =>
        var s1 := Sys(db, map[0 := AdmittedPhase(req, g, tx, needsEvent)]);
        assert Enabled(s0, l0) && Apply(s0, l0) == s1;
        var rest := FromMatch(s1, Admitted(req, g, tx, needsEvent), default, input, ans);
        StepThen(s0, l0, s1, rest);
        ls := [l0] + rest;
    }
  }

  lemma FromMatch(s: Sys, a: Admission, default: int, input: FulfilInput, ans: Answers) returns (ls: seq<Label>)
    requires AnswersFit(s.db, default, input, ans) && a == Admit(s.db, default, input) && a.Admitted?
    requires s.flights == map[0 := AdmittedPhase(a.req, a.genesisIndex, a.txHash, a.needsEvent)]
    ensures IsRun(s, ls) && NoResetAtAll(ls)
    ensures Exec(s, ls) == Sys(Fulfil(s.db, default, input, ans).0, map[])
  {
    hide IsSearchResult, MatchFilters, FindExact, Admit, IsRun, Exec, NoResetAtAll, SelectJob, EventAndClaimFit, Enabled, Apply;
    MatchStep(s, 0, a, ans.rows);
    var l := ReadMatch(0, ans.rows);
    assert Land(s, 0) == Sys(s.db, map[]);
    match MatchedRow(s.db, a.req, ans.rows, a.needsEvent) {
      case None =>
        NoStep(Land(s, 0));
        StepThen(s, l, Land(s, 0), []);
        ls := [l] + [];
      case Some(row) =>
        var s1 := Sys(s.db, map[0 := Matched(a.req, a.genesisIndex, a.txHash, row)]);
        assert Fly(s, 0, Matched(a.req, a.genesisIndex, a.txHash, row)) == s1;
        var rest := FromEvent(s1, a, row, ans);
        StepThen(s, l, s1, rest);
        ls := [l] + rest;
    }
  }

  lemma FromEvent(s: Sys, a: Admission, row: Challenge, ans: Answers) returns (ls: seq<Label>)
    requires a.Admitted? && s.flights == map[0 := Matched(a.req, a.genesisIndex, a.txHash, row)]
    requires ans.event.Some? ==> ans.event.value in s.db.events
    requires EventAndClaimFit(s.db, a.req, a.genesisIndex, a.txHash, ans)
    ensures IsRun(s, ls) && NoResetAtAll(ls)
    ensures var job := SelectJob(s.db, a, row, ans.event).0;
            Exec(s, ls) == Sys(if job.None? then s.db else ClaimAndPersist(s.db, job.value, ans.claim).0, map[])
  {
    hide IsEventAnswer, IsClaimAnswer, ToMinor, BuildReceipt, IsRun, Exec, NoResetAtAll, Enabled, Apply, ClaimAndPersist;
    EventStep(s, 0, a, row, ans);
    var l := ReadEvent(0, ans.event);
    assert Land(s, 0) == Sys(s.db, map[]);
    match SelectJob(s.db, a, row, ans.event).0 {
      case None =>
        NoStep(Land(s, 0));
        StepThen(s, l, Land(s, 0), []);
        ls := [l] + [];
      case Some(job) =>
        var s1 := Fly(s, 0, Chosen(job));
        var rest := FromChosen(s1, 0, job, ans.claim);
        StepThen(s, l, s1, rest);
        ls := [l] + rest;
        assert Land(s1.(db := ClaimAndPersist(s.db, job, ans.claim).0), 0) == Sys(ClaimAndPersist(s.db, job, ans.claim).0, map[]);
    }
  }
}
