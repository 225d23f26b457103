/** Receipts over runs: when one agrees with the row it is stored in, and how many events one challenge takes. */
module ReceiptRuns {
  import opened Text
  import opened NetworkId
  import opened JsValues
  import opened Decimals
  import opened PltStore
  import opened Challenges
  import opened ChallengeLaws
  import opened Payments
  import opened Protocol
  import opened ProtocolLaws
  import opened ProtocolRuns
  import opened PaymentLaws

  /* ---------- receipt and row ---------- */

  /** The request asks for req and works on the row it matched. */
  predicate WorksOn(p: Phase, req: Request, row: Challenge) {
    match p
    case AdmittedPhase(_, _, _, _) => false
    case Matched(r, _, _, matched) => r == req && matched == row
    case _ => p.job.req == req && p.job.receipt.contract == BuildContract(req, row.metadata) && ExpiresWith(row, p.job.receipt)
  }

  /** The request ids of a run are not used again for request t. */
  predicate NoAdmission(ls: seq<Label>, t: int) { forall i :: 0 <= i < |ls| ==> !(ls[i].Admission? && ls[i].t == t) }

  lemma EventWorksOn(s: Sys, t: int, event: Option<EventKey>, req: Request, row: Challenge)
    requires Enabled(s, ReadEvent(t, event)) && WorksOn(s.flights[t], req, row)
    ensures var s' := Apply(s, ReadEvent(t, event)); t in s'.flights ==> WorksOn(s'.flights[t], req, row)
  {
    hide EventAnswered, ToMinor, BuildContract;
  }

  lemma StepWorksOn(s: Sys, l: Label, t: int, req: Request, row: Challenge)
    requires Enabled(s, l) && !(l.Admission? && l.t == t)
    requires t in s.flights ==> WorksOn(s.flights[t], req, row)
    ensures t in Apply(s, l).flights ==> WorksOn(Apply(s, l).flights[t], req, row)
  {
    if l.ReadEvent? && l.t == t {
      EventWorksOn(s, t, l.event, req, row);
    } else {
      hide Clean, FindExact, IsSearchResult, IsClaimAnswer, EventAnswered, BuildContract, CreatePayment, UpsertChallenge, Admit,
           SelectJob, ExpiresWith, Committed, ClaimFree, RowFree, CreateMayRun;
    }
  }

  lemma {:induction false} RunWorksOn(s: Sys, ls: seq<Label>, t: int, req: Request, row: Challenge)
    requires IsRun(s, ls) && NoAdmission(ls, t)
    requires t in s.flights ==> WorksOn(s.flights[t], req, row)
    ensures t in Exec(s, ls).flights ==> WorksOn(Exec(s, ls).flights[t], req, row)
    decreases |ls|
  {
    hide Enabled, Apply, WorksOn;
    if ls == [] {
    } else {
      StepWorksOn(s, ls[0], t, req, row);
      assert NoAdmission(ls[1..], t);
      RunWorksOn(Apply(s, ls[0]), ls[1..], t, req, row);
    }
  }

  /** What a step writes for k: the request, expiry and metadata of an accepted POST /payments. */
  function Written(db: Db, l: Label, k: ChallengeKey): Option<Write> {
    if l.Create? && KeyFor(Clean(l.input.body)) == k && CreatePayment(db, l.default, l.input).1.CreateOk?
    then WriteOf(db.assets, l.default, l.input)
    else None
  }

  /** The last accepted POST /payments for k in a run. */
  ghost function LastWrite(s: Sys, ls: seq<Label>, k: ChallengeKey): Option<Write>
    requires IsRun(s, ls)
    decreases |ls|
  {
    if ls == [] then None
    else
      var later := LastWrite(Apply(s, ls[0]), ls[1..], k);
      if later.Some? then later else Written(s.db, ls[0], k)
  }

  function Or(w: Option<Write>, first: Write): Write { if w.Some? then w.value else first }

  lemma StepWrites(s: Sys, l: Label, k: ChallengeKey, w: Write)
    requires Enabled(s, l) && WrittenBy(s.db.challenges, k, w)
    ensures WrittenBy(Apply(s, l).db.challenges, k, Or(Written(s.db, l, k), w))
  {
    if Resets(l, k) {
      ResetWrites(s, l, k, w);
    } else {
      hide Clean, Acceptable, CreatePayment, NormalizeAsset, Apply, Enabled, ExactTuple;
      StepKeepsPayload(s, l, k);
      SameTuple(w.ask, s.db.challenges[k], Apply(s, l).db.challenges[k]);
    }
  }

  lemma ResetWrites(s: Sys, l: Label, k: ChallengeKey, w: Write)
    requires Enabled(s, l) && WrittenBy(s.db.challenges, k, w) && Resets(l, k)
    ensures WrittenBy(Apply(s, l).db.challenges, k, Or(Written(s.db, l, k), w))
  {
    hide Acceptable, NormalizeAsset, ExactTuple, Trim, NormalizeNetworkId, Clean, Resolved, ReadBack;
    if CreatePayment(s.db, l.default, l.input).1.CreateOk? {
      CreateIsWritten(s.db, l.default, l.input);
    } else {
      RefusedCreate(s.db, l.default, l.input);
    }
  }

  lemma RefusedCreate(db: Db, default: int, input: CreateInput)
    requires !CreatePayment(db, default, input).1.CreateOk?
    ensures CreatePayment(db, default, input).0 == db
  {
    hide Clean, Acceptable, NormalizeAsset;
  }

  lemma {:induction false} RunWrites(s: Sys, ls: seq<Label>, k: ChallengeKey, w: Write)
    requires IsRun(s, ls) && WrittenBy(s.db.challenges, k, w)
    ensures WrittenBy(Exec(s, ls).db.challenges, k, Or(LastWrite(s, ls, k), w))
    decreases |ls|
  {
    hide Enabled, Apply, WrittenBy, Written;
    if ls == [] {
    } else {
      StepWrites(s, ls[0], k, w);
      RunWrites(Apply(s, ls[0]), ls[1..], k, Or(Written(s.db, ls[0], k), w));
    }
  }

  /**
   * Receipt and row, exactly. Take any run from a request's match read to its commit. What the receipt says was paid
   * agrees with the row it is stored in if and only if the contract in the matched row's metadata fits that row, and
   * either no POST /payments for the challenge was accepted in between or the last one asks for the same tuple again.
   * The whole receipt agrees if and only if that last one also has an expiry of the same effect and the same contract.
   */
  lemma CommitAgreesIff(s: Sys, t: int, rows: seq<ChallengeKey>, ls: seq<Label>, req: Request, end: Sys)
    requires Inv(s) && Enabled(s, ReadMatch(t, rows)) && req == s.flights[t].req
    requires IsRun(Apply(s, ReadMatch(t, rows)), ls) && NoAdmission(ls, t)
    requires end == Exec(Apply(s, ReadMatch(t, rows)), ls) && Enabled(end, Commit(t))
    ensures var k := KeyFor(req);
            var w := LastWrite(Apply(s, ReadMatch(t, rows)), ls, k);
            var after := Apply(end, Commit(t)).db.challenges;
            && k in s.db.challenges && k in after && after[k].receipt.Some?
            && (RowAgrees(k, after[k], after[k].receipt.value) <==>
                (w.Some? ==> SameAsk(w.value.ask, req)) && ContractFits(k, s.db.challenges[k]))
            && (FullyAgrees(k, after[k], after[k].receipt.value) <==>
                (w.Some? ==> Repeats(w.value, req, s.db.challenges[k], after[k].receipt.value.settledAt))
                && ContractFits(k, s.db.challenges[k]))
  {
    hide Evidence, RowInv, ClaimFits, IsSearchResult, MatchFilters, ExactTuple, FindExact, RowAgrees, FullyAgrees, Repeats,
         SameAsk, ContractFits, ReceiptFor, BuildContract, ToMinor, LastWrite, WorksOn, Tidy, Complete, IsRun, Exec;
    var k := KeyFor(req);
    var s1 := Apply(s, ReadMatch(t, rows));
    var w := LastWrite(s1, ls, k);
    MatchedState(s, t, rows, req, s1, ls);
    var row := s.db.challenges[k];
    var first := Write(req, row.expiry, row.metadata);
    RunWorksOn(s1, ls, t, req, row);
    RunWrites(s1, ls, k, first);
    MatchKeeps(s, t, rows);
    RunKeeps(s1, ls);
    CommitDecides(end, t, k, Or(w, first), req, row);
    AsksTheSame(req);
    RepeatsItself(req, row, Apply(end, Commit(t)).db.challenges[k].receipt.value.settledAt);
  }

  /** After a match read that leaves the request in flight, it works on the stored row, which has its tuple. */
  lemma MatchedState(s: Sys, t: int, rows: seq<ChallengeKey>, req: Request, s1: Sys, ls: seq<Label>)
    requires Inv(s) && Enabled(s, ReadMatch(t, rows)) && req == s.flights[t].req && s1 == Apply(s, ReadMatch(t, rows))
    requires IsRun(s1, ls) && NoAdmission(ls, t) && t in Exec(s1, ls).flights
    ensures s1.db == s.db && t in s1.flights && Tidy(req) && KeyFor(req) in s.db.challenges
    ensures var row := s.db.challenges[KeyFor(req)];
            WorksOn(s1.flights[t], req, row) && WrittenBy(s1.db.challenges, KeyFor(req), Write(req, row.expiry, row.metadata))
  {
    hide ExactTuple, MatchFilters, RowInv, ClaimFits, IsRun, Exec;
    var p := s.flights[t];
    assert FlightOk(s.db, p);
    FindExactIn(s.db.challenges, rows, p.req);
    ExactMatchIsUnique(s.db.challenges, p.req, rows);
    if t !in s1.flights { StaysLanded(s1, ls, t); }
  }

  lemma {:induction false} StaysLanded(s: Sys, ls: seq<Label>, t: int)
    requires IsRun(s, ls) && NoAdmission(ls, t) && t !in s.flights
    ensures t !in Exec(s, ls).flights
    decreases |ls|
  {
    hide FindExact, SelectJob, Admit, CreatePayment, UpsertChallenge, IsSearchResult, EventAnswered, IsClaimAnswer;
    if ls == [] {
    } else {
      assert NoAdmission(ls[1..], t);
      StaysLanded(Apply(s, ls[0]), ls[1..], t);
    }
  }

  lemma CommitDecides(end: Sys, t: int, k: ChallengeKey, w: Write, req: Request, matched: Challenge)
    requires Inv(end) && Enabled(end, Commit(t)) && WorksOn(end.flights[t], req, matched)
    requires WrittenBy(end.db.challenges, k, w)
    requires KeyFor(req) == k && ExactTuple(req, k, matched) && matched.payTo == req.payTo && Tidy(req)
    ensures var after := Apply(end, Commit(t)).db.challenges;
            && k in after && after[k].receipt.Some?
            && (RowAgrees(k, after[k], after[k].receipt.value) <==> SameAsk(w.ask, req) && ContractFits(k, matched))
            && (FullyAgrees(k, after[k], after[k].receipt.value) <==>
                Repeats(w, req, matched, after[k].receipt.value.settledAt) && ContractFits(k, matched))
  {
    hide Evidence, RowInv, ClaimFits, ExactTuple, RowAgrees, FullyAgrees, Repeats, SameAsk, ContractFits, ReceiptFor,
         BuildContract, Tidy;
    assert FlightOk(end.db, end.flights[t]);
    var row := Apply(end, Commit(t)).db.challenges[k];
    SameTuple(w.ask, end.db.challenges[k], row);
    AgreementDecides(k, row, w.ask, req, matched, end.flights[t].job.receipt);
    FullAgreementDecides(k, row, w, req, matched, end.flights[t].job.receipt);
  }

  /**
   * The payment event's side alone, from any state in which the row has a request's tuple: at the request's commit, the
   * row agrees with the receipt's event, chain and asset if and only if no POST /payments was accepted in between or
   * the last one asks for the same tuple again.
   */
  lemma EventAgreesIff(s: Sys, ls: seq<Label>, end: Sys, t: int, job: Job)
    requires Inv(s) && IsRun(s, ls) && end == Exec(s, ls) && Enabled(end, Commit(t)) && job == end.flights[t].job
    requires HasTuple(s.db.challenges, job.req)
    ensures var k := KeyFor(job.req);
            var w := LastWrite(s, ls, k);
            var after := Apply(end, Commit(t)).db.challenges;
            k in after && (EventAgrees(after[k], job.receipt) <==> (w.Some? ==> SameAsk(w.value.ask, job.req)))
  {
    hide Evidence, RowInv, ClaimFits, ExactTuple, EventAgrees, SameAsk, ReceiptFor, LastWrite, IsRun, Exec;
    var k := KeyFor(job.req);
    var first := Write(job.req, s.db.challenges[k].expiry, s.db.challenges[k].metadata);
    var w := Or(LastWrite(s, ls, k), first);
    RunWrites(s, ls, k, first);
    RunKeeps(s, ls);
    assert FlightOk(end.db, end.flights[t]);
    var row := Apply(end, Commit(t)).db.challenges[k];
    SameTuple(w.ask, end.db.challenges[k], row);
    EventDecides(row, w.ask, job.req, job.receipt);
    AsksTheSame(job.req);
  }

  lemma {:induction false} NothingWritten(s: Sys, ls: seq<Label>, k: ChallengeKey)
    requires IsRun(s, ls) && NoReset(ls, k)
    ensures LastWrite(s, ls, k) == None
    decreases |ls|
  {
    hide Enabled, Apply, CreatePayment, Resolved, Clean;
    if ls == [] {
    } else {
      assert NoReset(ls[1..], k);
      NothingWritten(Apply(s, ls[0]), ls[1..], k);
    }
  }

  /** Without a reset in between, the contract in the metadata alone decides whether row and receipt agree, in part or whole. */
  lemma NoResetAgrees(s: Sys, t: int, rows: seq<ChallengeKey>, ls: seq<Label>, req: Request, end: Sys)
    requires Inv(s) && Enabled(s, ReadMatch(t, rows)) && req == s.flights[t].req
    requires IsRun(Apply(s, ReadMatch(t, rows)), ls) && NoAdmission(ls, t) && NoReset(ls, KeyFor(req))
    requires end == Exec(Apply(s, ReadMatch(t, rows)), ls) && Enabled(end, Commit(t))
    ensures var k := KeyFor(req);
            var after := Apply(end, Commit(t)).db.challenges;
            && k in s.db.challenges && k in after && after[k].receipt.Some?
            && (RowAgrees(k, after[k], after[k].receipt.value) <==> ContractFits(k, s.db.challenges[k]))
            && (FullyAgrees(k, after[k], after[k].receipt.value) <==> ContractFits(k, s.db.challenges[k]))
  {
    hide Enabled, Apply, Inv, LastWrite, RowAgrees, FullyAgrees, Repeats, ContractFits, SameAsk;
    NothingWritten(Apply(s, ReadMatch(t, rows)), ls, KeyFor(req));
    CommitAgreesIff(s, t, rows, ls, req, end);
  }

  /* ---------- two requests for one challenge ---------- */

  /** The receipt was made for req from the row it matched. */
  predicate MadeFrom(job: Job, k: ChallengeKey, row: Challenge) {
    && KeyFor(job.req) == k && ExactTuple(job.req, k, row)
    && job.receipt.contract == BuildContract(job.req, row.metadata) && ExpiresWith(row, job.receipt)
  }

  lemma SameContract(a: Request, b: Request, row: Challenge)
    requires a.merchantId == b.merchantId && a.amount == b.amount && a.payTo == b.payTo
    requires CanonicalChainId(a.network) == CanonicalChainId(b.network)
    ensures var (x, y) := (BuildContract(a, row.metadata), BuildContract(b, row.metadata));
            NetworksEquivalent(x.network, y.network) && x.(network := y.network) == y
  {
    hide Trim, CanonicalChainId, NetworksEquivalent, Member, OwnContract, ToText, Truthy;
    CanonicalTrim(a.network);
    CanonicalTrim(b.network);
    CanonicalIsCompleteInvariant(Trim(a.network), Trim(b.network));
    var x := BuildContract(a, row.metadata).network;
    CanonicalIsCompleteInvariant(x, x);
  }

  /** Two requests that matched one payload and selected one event hold the same proof. */
  lemma SameEventSameProof(db: Db, a: Job, b: Job, k: ChallengeKey, rowA: Challenge, rowB: Challenge)
    requires JobOk(db, a) && JobOk(db, b) && EventOf(a.claim) == EventOf(b.claim)
    requires MadeFrom(a, k, rowA) && MadeFrom(b, k, rowB) && PayloadOf(rowA) == PayloadOf(rowB)
    ensures SameProof(a.receipt, b.receipt)
  {
    hide ToMinor, ToNumber, NetworkCandidates, CanonicalChainId, BuildContract, NetworksEquivalent, Trim;
    TupleNetwork(a.req, k, rowA);
    TupleNetwork(b.req, k, rowB);
    SameContract(a.req, b.req, rowA);
  }

  /** The claims a challenge owns. */
  function Owned(claims: ClaimTable, k: ChallengeKey): set<ClaimKey> { set c | c in claims && claims[c] == k }

  /** The claim a step commits for k. */
  function CommittedIn(s: Sys, l: Label, k: ChallengeKey): set<ClaimKey> {
    if l.Commit? && l.t in s.flights && s.flights[l.t].Updated? && KeyFor(s.flights[l.t].job.req) == k
    then {s.flights[l.t].job.claim} else {}
  }

  /** The claims that the commits of a run are for. */
  ghost function CommittedBy(s: Sys, ls: seq<Label>, k: ChallengeKey): set<ClaimKey>
    requires IsRun(s, ls)
    decreases |ls|
  {
    if ls == [] then {} else CommittedIn(s, ls[0], k) + CommittedBy(Apply(s, ls[0]), ls[1..], k)
  }

  lemma StepOwns(s: Sys, l: Label, k: ChallengeKey)
    requires Inv(s) && Enabled(s, l)
    ensures Owned(Apply(s, l).db.claims, k) == Owned(s.db.claims, k) + CommittedIn(s, l, k)
  {
    hide NormalizeAsset, Clean, Acceptable, AssetJson, FindExact, RowInv, ClaimFits, IsSearchResult, IsClaimAnswer,
         EventAnswered, Evidence, ReceiptFor, Admit, SelectJob, UpsertChallenge;
    if l.Commit? { assert FlightOk(s.db, s.flights[l.t]); }
  }

  /** Over every run: a challenge owns exactly the claims it owned before and those its requests committed on. */
  lemma {:induction false} OwnsWhatItCommits(s: Sys, ls: seq<Label>, k: ChallengeKey)
    requires Inv(s) && IsRun(s, ls)
    ensures Owned(Exec(s, ls).db.claims, k) == Owned(s.db.claims, k) + CommittedBy(s, ls, k)
    decreases |ls|
  {
    hide Enabled, Apply, Inv, Owned, CommittedIn;
    if ls == [] {
    } else {
      StepOwns(s, ls[0], k);
      StepKeeps(s, ls[0]);
      OwnsWhatItCommits(Apply(s, ls[0]), ls[1..], k);
    }
  }

  /** Every request past its match read for k has selected the event e. */
  predicate AllOn(s: Sys, k: ChallengeKey, e: EventKey) {
    forall t :: t in s.flights && PastMatch(s.flights[t], k) ==>
      !s.flights[t].Matched? && EventOf(s.flights[t].job.claim) == e
  }

  /** A commit for k happens only while no request for k is on its way to another event. */
  predicate Undisputed(s: Sys, l: Label, k: ChallengeKey) {
    CommittedIn(s, l, k) != {} ==> AllOn(s, k, EventOf(s.flights[l.t].job.claim))
  }

  ghost predicate AlwaysUndisputed(s: Sys, ls: seq<Label>, k: ChallengeKey)
    requires IsRun(s, ls)
    decreases |ls|
  {
    ls != [] ==> Undisputed(s, ls[0], k) && AlwaysUndisputed(Apply(s, ls[0]), ls[1..], k)
  }

  /** The challenge is fulfilled, owns just the claim c, and the requests still past their match read are on its event. */
  ghost predicate SettledOn(s: Sys, k: ChallengeKey, c: ClaimKey) {
    && Owned(s.db.claims, k) == {c} && AllOn(s, k, EventOf(c))
    && k in s.db.challenges && s.db.challenges[k].status == Fulfilled && s.db.challenges[k].receipt.Some?
  }

  ghost predicate OneClaim(s: Sys, k: ChallengeKey) {
    Owned(s.db.claims, k) == {} || exists c :: SettledOn(s, k, c)
  }

  lemma StepKeepsOneClaim(s: Sys, l: Label, k: ChallengeKey)
    requires Inv(s) && Enabled(s, l) && !Resets(l, k) && Undisputed(s, l, k) && OneClaim(s, k)
    ensures OneClaim(Apply(s, l), k)
  {
    hide Inv, Enabled, Apply, Owned, Resets, SettledOn;
    StepOwns(s, l, k);
    if Owned(s.db.claims, k) == {} {
      if CommittedIn(s, l, k) != {} { CommitSettles(s, l.t, k); }
    } else {
      var c :| SettledOn(s, k, c);
      StepKeepsClaim(s, l, k, c);
    }
  }

  /** The first commit for k. */
  lemma CommitSettles(s: Sys, t: int, k: ChallengeKey)
    requires Inv(s) && Enabled(s, Commit(t)) && KeyFor(s.flights[t].job.req) == k && Owned(s.db.claims, k) == {}
    requires AllOn(s, k, EventOf(s.flights[t].job.claim))
    ensures SettledOn(Apply(s, Commit(t)), k, s.flights[t].job.claim)
  {
    hide RowInv, ClaimFits, Evidence, ReceiptFor, FlightOk, Owned;
    StepOwns(s, Commit(t), k);
  }

  /** Later steps leave a settled challenge its one claim. */
  lemma StepKeepsClaim(s: Sys, l: Label, k: ChallengeKey, c: ClaimKey)
    requires Inv(s) && Enabled(s, l) && !Resets(l, k) && SettledOn(s, k, c)
    ensures SettledOn(Apply(s, l), k, c)
  {
    StepOwns(s, l, k);
    if CommittedIn(s, l, k) != {} { SameClaim(s, l.t, k, c); }
    StepKeepsOnly(s, l, k, c);
  }

  lemma SameClaim(s: Sys, t: int, k: ChallengeKey, c: ClaimKey)
    requires Inv(s) && SettledOn(s, k, c) && CommittedIn(s, Commit(t), k) != {}
    ensures s.flights[t].job.claim == c
  {
    hide ReceiptFor, RowInv;
    assert FlightOk(s.db, s.flights[t]);
    EvidenceFits(s.db.events, s.flights[t].job.claim, s.flights[t].job.receipt);
    assert c in Owned(s.db.claims, k);
    assert ClaimFits(s.db.events, c);
    ClaimKeyIsExact(s.db.events, s.flights[t].job.claim, c);
  }

  lemma PostKeepsRow(t: ChallengeTable, key: ChallengeKey, payload: Payload, now: int, k: ChallengeKey)
    requires k in t
    ensures var t' := UpsertChallenge(t, key, payload, now).0; k in t' && t'[k] == t[k]
  {
    hide ComparesEqual, StoredRow;
  }

  lemma JobAsks(db: Db, a: Admission, row: Challenge, event: Option<EventKey>)
    requires a.Admitted? && (event.Some? ==> event.value in db.events)
    ensures var job := SelectJob(db, a, row, event).0; job.Some? ==> job.value.req == a.req
  {
    hide ToMinor, BuildReceipt;
  }

  /** The row stays fulfilled, and no request joins those past their match read. */
  lemma StepKeepsOnly(s: Sys, l: Label, k: ChallengeKey, c: ClaimKey)
    requires Inv(s) && Enabled(s, l) && !Resets(l, k) && SettledOn(s, k, c)
    ensures var s' := Apply(s, l);
            && AllOn(s', k, EventOf(c))
            && k in s'.db.challenges && s'.db.challenges[k].status == Fulfilled && s'.db.challenges[k].receipt.Some?
  {
    hide NormalizeAsset, Clean, Acceptable, AssetJson, FindExact, IsSearchResult, IsClaimAnswer, EventAnswered, Inv, Owned,
         UpsertChallenge, Admit, SelectJob, Judge, ClaimFree, RowFree;
    StepKeepsPayload(s, l, k);
    match l
    case ReadMatch(t, rows) => MatchSeesFulfilled(s, k, t, rows);
    case ReadEvent(t, event) =>
      var p := s.flights[t];
      assert !PastMatch(p, k);
      JobAsks(s.db, Admitted(p.req, p.genesisIndex, p.txHash, true), p.row, event);
    case Post(key, payload, now) => PostKeepsRow(s.db.challenges, key, payload, now, k);
    case Admission(t, fulfil, default) =>
    case _ =>
  }

  lemma SameAsItself(r: Receipt)
    ensures SameProof(r, r)
  {
    EquivalenceRelation(r.contract.network, r.contract.network, r.contract.network);
  }

  /**
   * One event for one challenge. Over every run without a reset in which no commit for the challenge happens while
   * another request for it, past its match read, has yet to select an event or has selected a different one, a
   * challenge that owns no claim at the start owns at most one at the end.
   */
  lemma {:induction false} OneClaimWithoutOverlap(s: Sys, ls: seq<Label>, k: ChallengeKey)
    requires Inv(s) && IsRun(s, ls) && NoReset(ls, k) && AlwaysUndisputed(s, ls, k) && OneClaim(s, k)
    ensures OneClaim(Exec(s, ls), k) && |Owned(Exec(s, ls).db.claims, k)| <= 1
    decreases |ls|
  {
    hide Enabled, Apply, Inv, Owned, Resets, Undisputed;
    if ls == [] {
    } else {
      StepKeepsOneClaim(s, ls[0], k);
      StepKeeps(s, ls[0]);
      assert NoReset(ls[1..], k);
      OneClaimWithoutOverlap(Apply(s, ls[0]), ls[1..], k);
    }
  }

  /* ---------- repeating a fulfil ---------- */

  /**
   * Idempotence over runs. After a fulfil that succeeded, and any run without a reset, with at most requests for the
   * same proof under way, repeating the fulfil changes no table and, if it finds the row, replays the same proof; with
   * at most 100 rows on the shelf it finds it. If no other request had read the challenge, it is the very same row.
   */
  lemma RepeatAfterRun(db: Db, default: int, input: FulfilInput, ans: Answers, receipt: Receipt, s: Sys, ls: seq<Label>,
                       end: Sys, again: Answers, req: Request)
    requires DbInv(db) && AnswersFit(db, default, input, ans)
    requires Fulfil(db, default, input, ans) == (s.db, Done(receipt)) && Admit(db, default, input).req == req
    requires Inv(s) && forall t :: t in s.flights && PastMatch(s.flights[t], KeyFor(req)) ==> HoldsProof(s.flights[t], receipt)
    requires IsRun(s, ls) && NoReset(ls, KeyFor(req)) && end == Exec(s, ls)
    requires Admit(end.db, default, input).Admitted? && Admit(end.db, default, input).req == req
    requires AnswersFit(end.db, default, input, again)
    ensures var k := KeyFor(req);
            && k in s.db.challenges && k in end.db.challenges && end.db.challenges[k].receipt.Some?
            && SameProof(end.db.challenges[k].receipt.value, receipt)
            && (NonePastMatch(s, k) ==> end.db.challenges[k] == s.db.challenges[k])
            && Fulfil(end.db, default, input, again) ==
               (end.db, if k in again.rows then Replay(end.db.challenges[k]) else NoMatch)
            && (|Shelf(end.db.challenges, req)| <= 100 && IsTrimmed(end.db.challenges[k].network) ==> k in again.rows)
  {
    hide ExactTuple, RowInv, ClaimFits, ToMinor, Evidence, ClaimOpen, RowAgrees, FullyAgrees, EventAgrees, ContractFits, Shelf,
         IsTrimmed, Admit, IsSearchResult, IsClaimAnswer, EventAndClaimFit, BuildContract, FlightsOk, Exclusive, IsRun, Exec,
         SameProof, Fulfil, MatchedRow;
    var k := KeyFor(req);
    FulfilOutcome(db, default, input, ans);
    SameAsItself(receipt);
    SettledKeepsTuple(db, s.db, req);
    assert Settled(s, k, receipt);
    ReceiptIsFinal(s, ls, k, receipt);
    RunKeeps(s, ls);
    SettledKeepsTuple(s.db, end.db, req);
    FulfilReplays(end.db, default, input, again, req);
  }
}
