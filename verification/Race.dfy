/**
 * What separates a receipt from its row, and a challenge from its one event: a reset or a second request between the
 * match read and the commit, and a contract in the metadata that does not fit.
 */
module Race {
  import opened Text
  import opened Numerals
  import opened NetworkId
  import opened Json
  import opened JsValues
  import opened JsLaws
  import opened Decimals
  import opened PltStore
  import opened Challenges
  import opened ChallengeLaws
  import opened Payments
  import opened Protocol
  import opened ProtocolLaws
  import opened ProtocolRuns
  import opened PaymentLaws

  /** The first half of a fulfil that would settle: up to the signed receipt, no table changed. */
  lemma ReachChosen(s: Sys, t: int, default: int, input: FulfilInput, ans: Answers) returns (ls: seq<Label>, job: Job)
    requires DbInv(s.db) && t !in s.flights
    requires AnswersFit(s.db, default, input, ans) && WillSettle(s.db, default, input, ans)
    ensures IsRun(s, ls) && NoResetAtAll(ls) && Exec(s, ls) == Fly(s, t, Chosen(job))
    ensures job.req == Admit(s.db, default, input).req && JobOk(s.db, job) && Tidy(job.req)
    ensures HasTuple(s.db.challenges, job.req)
    ensures var row := s.db.challenges[KeyFor(job.req)];
            job.receipt.contract == BuildContract(job.req, row.metadata) && ExpiresWith(row, job.receipt)
    ensures EventOf(job.claim) in s.db.events && job.receipt.settledAt == s.db.events[EventOf(job.claim)].occurredAt
    ensures IsClaimAnswer(s.db.claims, s.db.claims, job.claim, KeyFor(job.req), ans.claim)
    ensures ans.event == Some(EventOf(job.claim)) && ClaimOpen(s.db, EventOf(job.claim), KeyFor(job.req))
  {
    hide IsSearchResult, MatchFilters, ExactTuple, RowInv, ClaimFits, Admit, IsEventAnswer, IsClaimAnswer, ToMinor, ClaimOpen,
         Evidence, ReceiptFor, BuildContract, Tidy, Complete;
    var a := Admit(s.db, default, input);
    AdmitIsComplete(s.db, default, input);
    ExactMatchIsUnique(s.db.challenges, a.req, ans.rows);
    RowStatus(s.db, KeyFor(a.req));
    job := SelectedJob(s.db, default, input, ans);
    SettledWhen(s.db, job);
    ls := ChosenRun(s, t, default, input, ans, s.db.challenges[KeyFor(a.req)], job);
  }

  lemma SettledWhen(db: Db, job: Job)
    requires JobOk(db, job)
    ensures EventOf(job.claim) in db.events && job.receipt.settledAt == db.events[EventOf(job.claim)].occurredAt
  {
    hide ReceiptFor;
  }

  lemma ChosenRun(s: Sys, t: int, default: int, input: FulfilInput, ans: Answers, row: Challenge, job: Job)
    returns (ls: seq<Label>)
    requires t !in s.flights && AnswersFit(s.db, default, input, ans) && Admit(s.db, default, input).Admitted?
    requires var a := Admit(s.db, default, input);
             MatchedRow(s.db, a.req, ans.rows, a.needsEvent) == Some(row) && SelectJob(s.db, a, row, ans.event).0 == Some(job)
    ensures IsRun(s, ls) && NoResetAtAll(ls) && Exec(s, ls) == Fly(s, t, Chosen(job))
  {
    hide IsSearchResult, MatchFilters, Admit, EventAndClaimFit, MatchedRow, SelectJob, IsRun, Exec, NoResetAtAll;
    var a := Admit(s.db, default, input);
    var s1 := Fly(s, t, AdmittedPhase(a.req, a.genesisIndex, a.txHash, a.needsEvent));
    var s2 := Fly(s, t, Matched(a.req, a.genesisIndex, a.txHash, row));
    var s3 := Fly(s, t, Chosen(job));
    MatchStep(s1, t, a, ans.rows);
    assert Fly(s1, t, Matched(a.req, a.genesisIndex, a.txHash, row)) == s2;
    EventStep(s2, t, a, row, ans);
    assert Fly(s2, t, Chosen(job)) == s3;
    NoStep(s3);
    StepThen(s2, ReadEvent(t, ans.event), s3, []);
    StepThen(s1, ReadMatch(t, ans.rows), s2, [ReadEvent(t, ans.event)] + []);
    StepThen(s, Admission(t, input, default), s1, [ReadMatch(t, ans.rows)] + ([ReadEvent(t, ans.event)] + []));
    ls := [Admission(t, input, default)] + ([ReadMatch(t, ans.rows)] + ([ReadEvent(t, ans.event)] + []));
  }

  /**
   * For every fulfil that would settle on its own and every accepted reset of its challenge, there is a run of the two
   * that ends with the row fulfilled. What was paid agrees with the row exactly when the reset asks for the same tuple,
   * and the whole receipt exactly when it repeats the challenge, if the metadata's contract fits.
   */
  lemma ResetRace(db: Db, default: int, input: FulfilInput, ans: Answers, reset: CreateInput)
    returns (ls: seq<Label>, r: Receipt)
    requires DbInv(db) && AnswersFit(db, default, input, ans) && WillSettle(db, default, input, ans)
    requires CreatePayment(db, default, reset).1.CreateOk?
    requires KeyFor(Clean(reset.body)) == KeyFor(Admit(db, default, input).req)
    ensures IsRun(Sys(db, map[]), ls)
    ensures var end := Exec(Sys(db, map[]), ls).db;
            var k := KeyFor(Clean(reset.body));
            var w := WriteOf(db.assets, default, reset);
            var req := Admit(db, default, input).req;
            && k in db.challenges && k in end.challenges && end.challenges[k].status == Fulfilled
            && end.challenges[k].receipt == Some(r) && w.Some? && WrittenBy(end.challenges, k, w.value)
            && ExpiresWith(db.challenges[k], r) && r.settledAt == db.events[ans.event.value].occurredAt
            && (RowAgrees(k, end.challenges[k], r) <==> SameAsk(w.value.ask, req) && ContractFits(k, db.challenges[k]))
            && (FullyAgrees(k, end.challenges[k], r) <==>
                Repeats(w.value, req, db.challenges[k], r.settledAt) && ContractFits(k, db.challenges[k]))
  {
    hide IsSearchResult, MatchFilters, ExactTuple, RowInv, ClaimFits, Admit, IsEventAnswer, IsClaimAnswer, ToMinor, ClaimOpen,
         Evidence, Clean, NormalizeAsset, Acceptable, AssetJson, AnswersFit, WillSettle, IsRun, Exec, ReceiptFor, BuildContract,
         RowAgrees, FullyAgrees, Repeats, SameAsk, ContractFits, Tidy, Resolved, WriteOf, ExpiresWith;
    var first, job := ReachChosen(Sys(db, map[]), 0, default, input, ans);
    ClaimDecides(db, job, ans.claim);
    CreateIsWritten(db, default, reset);
    var (db', reply) := CreatePayment(db, default, reset);
    var l := Create(reset, default);
    var s := Fly(Sys(db, map[]), 0, Chosen(job));
    assert Enabled(s, l) && Apply(s, l) == s.(db := db');
    var last := FromChosen(s.(db := db'), 0, job, ans.claim);
    StepThen(s, l, s.(db := db'), last);
    ls := first + ([l] + last);
    r := job.receipt;
    Append(Sys(db, map[]), first, [l] + last);
    SettledRow(db', job, WriteOf(db.assets, default, reset).value, db.challenges[KeyFor(job.req)]);
  }

  /** The row a job commits to, last written by w. */
  lemma SettledRow(db: Db, job: Job, w: Write, matched: Challenge)
    requires WrittenBy(db.challenges, KeyFor(job.req), w)
    requires ExactTuple(job.req, KeyFor(job.req), matched) && matched.payTo == job.req.payTo && Tidy(job.req)
    requires ReceiptFor(job.req, job.receipt)
    requires job.receipt.contract == BuildContract(job.req, matched.metadata) && ExpiresWith(matched, job.receipt)
    ensures var k := KeyFor(job.req);
            var row := Settle(db, job).challenges[k];
            && WrittenBy(Settle(db, job).challenges, k, w)
            && (RowAgrees(k, row, job.receipt) <==> SameAsk(w.ask, job.req) && ContractFits(k, matched))
            && (FullyAgrees(k, row, job.receipt) <==>
                Repeats(w, job.req, matched, job.receipt.settledAt) && ContractFits(k, matched))
  {
    hide ExactTuple, ReceiptFor, BuildContract, RowAgrees, FullyAgrees, Repeats, SameAsk, ContractFits, Tidy, ExpiresWith;
    var k := KeyFor(job.req);
    var row := Settle(db, job).challenges[k];
    SameTuple(w.ask, db.challenges[k], row);
    AgreementDecides(k, row, w.ask, job.req, matched, job.receipt);
    FullAgreementDecides(k, row, w, job.req, matched, job.receipt);
  }

  /** The answer of a claim statement on an event that nobody else owns. */
  function OwnAnswer(claims: ClaimTable, c: ClaimKey, self: ChallengeKey): Option<ClaimAnswer> {
    Some(ClaimAnswer(self, c !in claims))
  }

  lemma OwnAnswerFits(db: Db, job: Job)
    requires DbInv(db) && JobOk(db, job) && (job.claim in db.claims ==> db.claims[job.claim] == KeyFor(job.req))
    ensures var answer := OwnAnswer(db.claims, job.claim, KeyFor(job.req));
            IsClaimAnswer(db.claims, db.claims, job.claim, KeyFor(job.req), answer)
            && ClaimAndPersist(db, job, answer) == (Settle(db, job), Done(job.receipt))
  {
    hide ReceiptFor, RowInv;
    EvidenceFits(db.events, job.claim, job.receipt);
    if job.claim in db.claims {
      assert ClaimFits(db.events, job.claim);
      SelfClaims(db, job.claim);
    }
  }

  /**
   * Two requests for one challenge. For any two fulfils of one challenge that would each settle on their own, on
   * different events, there is a run without a reset in which both commit: the second receipt replaces the first, and
   * the challenge owns a claim on each event.
   */
  lemma OverlapTakesTwo(db: Db, default: int, one: FulfilInput, ansOne: Answers, two: FulfilInput, ansTwo: Answers)
    returns (ls: seq<Label>, first: Job, second: Job)
    requires DbInv(db)
    requires AnswersFit(db, default, one, ansOne) && WillSettle(db, default, one, ansOne)
    requires AnswersFit(db, default, two, ansTwo) && WillSettle(db, default, two, ansTwo)
    requires KeyFor(Admit(db, default, one).req) == KeyFor(Admit(db, default, two).req) && ansOne.event != ansTwo.event
    ensures IsRun(Sys(db, map[]), ls) && NoResetAtAll(ls)
    ensures ansOne.event == Some(EventOf(first.claim)) && ansTwo.event == Some(EventOf(second.claim))
    ensures var end := Exec(Sys(db, map[]), ls).db;
            var k := KeyFor(Admit(db, default, one).req);
            && k in end.challenges && end.challenges[k].receipt == Some(second.receipt)
            && first.receipt.txHash == first.claim.txHash && second.receipt.txHash == second.claim.txHash
            && first.claim in end.claims && end.claims[first.claim] == k
            && second.claim in end.claims && end.claims[second.claim] == k
  {
    hide IsSearchResult, MatchFilters, ExactTuple, RowInv, ClaimFits, Admit, IsClaimAnswer, AnswersFit, WillSettle, IsRun, Exec,
         ReceiptFor, BuildContract, Tidy, ClaimOpen, NoResetAtAll, Settle, Evidence;
    var s := Sys(db, map[]);
    var a, b;
    a, first := ReachChosen(s, 0, default, one, ansOne);
    b, second := ReachChosen(Fly(s, 0, Chosen(first)), 1, default, two, ansTwo);
    var s2 := Fly(Fly(s, 0, Chosen(first)), 1, Chosen(second));
    Append(s, a, b);
    NoResetSum(a, b);
    var c, d := BothCommit(s2, first, second, ansOne, ansTwo);
    Append(s, a + b, c);
    Append(s, a + b + c, d);
    NoResetSum(a + b, c);
    NoResetSum(a + b + c, d);
    ls := a + b + c + d;
    OpenIsOwn(db, first);
    OpenIsOwn(db, second);
    TwoSettled(db, first, second);
  }

  lemma OpenIsOwn(db: Db, job: Job)
    requires ClaimOpen(db, EventOf(job.claim), KeyFor(job.req))
    ensures job.claim in db.claims ==> db.claims[job.claim] == KeyFor(job.req)
  {
  }

  lemma NoResetSum(a: seq<Label>, b: seq<Label>)
    requires NoResetAtAll(a) && NoResetAtAll(b)
    ensures NoResetAtAll(a + b)
  {
  }

  /** Two requests in flight commit one after the other. */
  lemma BothCommit(s: Sys, first: Job, second: Job, ansOne: Answers, ansTwo: Answers) returns (c: seq<Label>, d: seq<Label>)
    requires DbInv(s.db) && s.flights == map[0 := Chosen(first), 1 := Chosen(second)]
    requires JobOk(s.db, first) && JobOk(s.db, second) && KeyFor(first.req) == KeyFor(second.req)
    requires EventOf(first.claim) != EventOf(second.claim)
    requires ClaimOpen(s.db, EventOf(first.claim), KeyFor(first.req)) && ClaimOpen(s.db, EventOf(second.claim), KeyFor(second.req))
    ensures IsRun(s, c) && IsRun(Exec(s, c), d) && NoResetAtAll(c) && NoResetAtAll(d)
    ensures JobOk(Settle(s.db, first), second)
    ensures Exec(Exec(s, c), d) == Sys(Settle(Settle(s.db, first), second), map[])
  {
    hide RowInv, ClaimFits, ReceiptFor, IsRun, Exec, NoResetAtAll, Evidence, IsClaimAnswer;
    OwnAnswerFits(s.db, first);
    c := FromChosen(s, 0, first, OwnAnswer(s.db.claims, first.claim, KeyFor(first.req)));
    var db' := Settle(s.db, first);
    var s1 := Sys(db', map[1 := Chosen(second)]);
    assert Land(s.(db := db'), 0) == s1;
    SettleKeepsJob(s.db, first, second);
    OwnAnswerFits(db', second);
    d := FromChosen(s1, 1, second, OwnAnswer(db'.claims, second.claim, KeyFor(second.req)));
    assert Land(s1.(db := Settle(db', second)), 1) == Sys(Settle(db', second), map[]);
  }

  lemma SettleKeepsJob(db: Db, first: Job, second: Job)
    requires DbInv(db) && JobOk(db, first) && JobOk(db, second) && KeyFor(first.req) == KeyFor(second.req)
    requires EventOf(first.claim) != EventOf(second.claim)
    requires ClaimOpen(db, EventOf(first.claim), KeyFor(first.req)) && ClaimOpen(db, EventOf(second.claim), KeyFor(second.req))
    ensures DbInv(Settle(db, first)) && JobOk(Settle(db, first), second)
    ensures second.claim in Settle(db, first).claims ==> Settle(db, first).claims[second.claim] == KeyFor(second.req)
  {
    hide RowInv, ClaimFits, ReceiptFor, Evidence;
    var p := Updated(first, first.claim !in db.claims);
    assert Settle(db, first) == Committed(db, p);
    assert first.claim in db.claims ==> db.claims[first.claim] == KeyFor(first.req);
    CommitTables(db, p);
    EvidencePersists(db, Settle(db, first), second.claim, second.receipt);
  }

  lemma TwoSettled(db: Db, first: Job, second: Job)
    requires JobOk(db, first) && JobOk(Settle(db, first), second) && KeyFor(first.req) == KeyFor(second.req)
    requires first.claim in db.claims ==> db.claims[first.claim] == KeyFor(first.req)
    requires second.claim in db.claims ==> db.claims[second.claim] == KeyFor(second.req)
    requires EventOf(first.claim) != EventOf(second.claim)
    ensures var end := Settle(Settle(db, first), second);
            var k := KeyFor(first.req);
            && k in end.challenges && end.challenges[k].receipt == Some(second.receipt)
            && first.receipt.txHash == first.claim.txHash && second.receipt.txHash == second.claim.txHash
            && first.claim in end.claims && end.claims[first.claim] == k
            && second.claim in end.claims && end.claims[second.claim] == k
  {
    hide ClaimFits, ReceiptFor;
  }

  /**
   * A contract in the metadata that does not fit the challenge. Every fulfil that settles such a challenge, with no
   * reset and nothing else under way, stores a receipt that disagrees with its row, though it agrees with the event.
   */
  lemma ForeignContract(db: Db, default: int, input: FulfilInput, ans: Answers, k: ChallengeKey)
    requires DbInv(db) && AnswersFit(db, default, input, ans) && WillSettle(db, default, input, ans)
    requires k == KeyFor(Admit(db, default, input).req) && !ContractFits(k, db.challenges[k])
    ensures var (after, reply) := Fulfil(db, default, input, ans);
            && reply.Done? && k in after.challenges && after.challenges[k].receipt == Some(reply.receipt)
            && EventAgrees(after.challenges[k], reply.receipt) && !RowAgrees(k, after.challenges[k], reply.receipt)
  {
    hide Admit, IsSearchResult, ExactTuple, RowInv, ClaimFits, IsClaimAnswer, Evidence, EventAgrees, RowAgrees, ContractFits,
         ClaimOpen, Fulfil;
    FulfilOutcome(db, default, input, ans);
  }

  /* ---------- a concrete instance ---------- */

  function PltBody(payTo: string): Body { Body("m", "n", "x", "PLT", "T", Some(0), "7", payTo) }

  function PltRequest(payTo: string): Request { Request("m", "n", "x", Asset("PLT", "T", 0), "7", payTo) }

  lemma OneChar(s: string)
    requires |s| == 1 && !IsSpace(s[0])
    ensures Trim(s) == s && (s[0] != 'c' ==> NormalizeNetworkId(s) == s)
  {
    TrimTrims(s);
    assert |Lower(s)| == 1 && |TESTNET| == 18 && |MAINNET| == 18;
  }

  lemma CleanExample(payTo: string)
    requires |payTo| == 1 && !IsSpace(payTo[0])
    ensures Clean(PltBody(payTo)) == PltRequest(payTo) && Acceptable(PltBody(payTo))
  {
    hide Trim, NormalizeNetworkId;
    OneChar("m");
    OneChar("n");
    OneChar("x");
    OneChar("T");
    OneChar("7");
    OneChar(payTo);
    TrimTrims("PLT");
  }

  lemma SevenMinor()
    ensures ToMinor("7", 0) == Ok("7") && IntText(7) == "7"
  {
    OneChar("7");
    SplitWhole("7", '.');
    assert Parts("7") == ["7"];
    assert "7" + "" + Zeros(0) == "7";
    assert StripLeadingZeros("7") == "7";
  }

  function ExampleRow(metadata: Json): Challenge {
    Challenge("x", AssetJson(Asset("PLT", "T", 0)), "7", "a", 100, JObj([]), metadata, Pending, None, 0)
  }

  function ExampleEvent(): PltEvent {
    PltEvent("b", 1, "x", 7, true, "transfer", None, Some("a"), 7, "T", 50)
  }

  function ExampleDb(metadata: Json): Db {
    Db(map[ChallengeKey("m", "n") := ExampleRow(metadata)], map[EventKey("h", 0) := ExampleEvent()], map[], map[])
  }

  function ExampleInput(): FulfilInput { FulfilInput(PltBody("a"), None, "h", true) }

  function ExampleKey(): ChallengeKey { ChallengeKey("m", "n") }

  function ExampleAnswers(): Answers {
    Answers([ExampleKey()], Some(EventKey("h", 0)), Some(ClaimAnswer(ExampleKey(), true)))
  }

  lemma NetworkX()
    ensures NormalizeNetworkId("x") == "x" && Trim("x") == "x" && NetworkCandidates("x") == ["x"]
  {
    OneChar("x");
    assert |TESTNET_CHAIN_ID| == 36 && |MAINNET_CHAIN_ID| == 36 && |TESTNET| == 18 && |MAINNET| == 18 by {
      FourNames();
    }
    assert Alias("x") == "x";
  }

  lemma ExampleAdmitted(metadata: Json)
    ensures Admit(ExampleDb(metadata), 7, ExampleInput()) == Admitted(PltRequest("a"), 7, "h", true)
  {
    hide Trim, NormalizeNetworkId, NetworkCandidates, Clean, Lower, GetPltAsset, Acceptable;
    NoAssets(NetworkCandidates("x"), 7, "T");
    CleanExample("a");
    OneChar("h");
    assert |"h"| == 1 && !IsHash(Lower("h"));
  }

  lemma ExampleHasTuple(metadata: Json)
    ensures HasTuple(ExampleDb(metadata).challenges, PltRequest("a"))
    ensures Selected(MatchFilters(PltRequest("a")), ExampleKey(), ExampleRow(metadata))
  {
    hide NormalizeNetworkId, Trim, NetworkCandidates, AssetIs, AssetJson, Get, MemberText;
    NetworkX();
    var asset := Asset("PLT", "T", 0);
    AssetJsonReads(asset);
    TokenOf(AssetJson(asset), asset);
    StringMember(AssetJson(asset), "tokenId", "T");
    assert ExampleRow(metadata).asset == AssetJson(asset) && PltRequest("a").asset == asset;
  }

  lemma TokenOf(j: Json, a: Asset)
    requires AssetIs(j, a)
    ensures Get(j, "tokenId") == Some(JStr(a.tokenId))
  {
  }

  lemma ExampleSearch(metadata: Json)
    ensures IsSearchResult(ExampleDb(metadata).challenges, MatchFilters(PltRequest("a")), [ExampleKey()])
  {
    ExampleHasTuple(metadata);
    hide Selected, MatchFilters;
    var f, t := MatchFilters(PltRequest("a")), ExampleDb(metadata).challenges;
    assert Selected(f, ExampleKey(), t[ExampleKey()]);
    assert SelectedKeys(t, f) == {ExampleKey()};
  }

  lemma ExampleEventFits(metadata: Json)
    ensures EventAndClaimFit(ExampleDb(metadata), PltRequest("a"), 7, "h", ExampleAnswers())
  {
    hide NormalizeNetworkId, NetworkCandidates, ToMinor, IntText, SameEventClaim;
    NetworkX();
    SevenMinor();
    var q := QueryFor(PltRequest("a"), 7, "7", "h");
    assert EventMatches(q, EventKey("h", 0), ExampleEvent());
  }

  lemma ExampleSettles(metadata: Json)
    ensures DbInv(ExampleDb(metadata)) && AnswersFit(ExampleDb(metadata), 7, ExampleInput(), ExampleAnswers())
    ensures WillSettle(ExampleDb(metadata), 7, ExampleInput(), ExampleAnswers())
  {
    hide Trim, NormalizeNetworkId, NetworkCandidates, Clean, ToMinor, IsSearchResult, MatchFilters, EventAndClaimFit, Admit,
         ExactTuple, AssetIs, GetPltAsset, Acceptable, AssetJson;
    ExampleAdmitted(metadata);
    ExampleSearch(metadata);
    ExampleHasTuple(metadata);
    ExampleEventFits(metadata);
    SevenMinor();
  }

  /** A reset of the example to another recipient or expiry. */
  function ExampleReset(payTo: string, expiry: int): CreateInput {
    CreateInput(PltBody(payTo), None, Some(expiry), JObj([]), JObj([]), 1)
  }

  lemma ExampleResolved(payTo: string, expiry: int)
    requires |payTo| == 1 && !IsSpace(payTo[0])
    ensures Resolved(map[], 7, PltBody(payTo), None) == Some(PltRequest(payTo))
    ensures CreatePayment(ExampleDb(JObj([])), 7, ExampleReset(payTo, expiry)).1.CreateOk?
    ensures var w := WriteOf(map[], 7, ExampleReset(payTo, expiry)); w.Some? && w.value.ask == PltRequest(payTo) && w.value.expiry == expiry
  {
    hide Trim, NormalizeNetworkId, NetworkCandidates, Clean, GetPltAsset, Acceptable, AssetJson, ReadBack;
    NoAssets(NetworkCandidates("x"), 7, "T");
    CleanExample(payTo);
  }

  lemma PlainFits()
    ensures ContractFits(ExampleKey(), ExampleRow(JObj([])))
  {
    hide Trim, NormalizeNetworkId, NetworkCandidates, ToMinor, ToNumber, AssetJson, NetworksEquivalent;
    OneChar("m");
    OneChar("x");
    OneChar("a");
    EquivalenceRelation("x", "x", "x");
  }

  /** The inputs of `ResetRace` exist: seven minor units to "a", and a reset to "z" while the fulfil is under way. */
  lemma ResetRaceHappens() returns (ls: seq<Label>)
    ensures IsRun(Sys(ExampleDb(JObj([])), map[]), ls)
    ensures var end := Exec(Sys(ExampleDb(JObj([])), map[]), ls).db; var k := ExampleKey();
            && k in end.challenges && end.challenges[k].receipt.Some?
            && !RowAgrees(k, end.challenges[k], end.challenges[k].receipt.value)
  {
    hide Trim, NormalizeNetworkId, NetworkCandidates, Clean, ToMinor, Admit, RowAgrees, FullyAgrees, Repeats, GetPltAsset,
         Acceptable, AssetJson, AnswersFit, WillSettle, ContractFits, NetworksEquivalent, DbInv, Resolved, IsRun, Exec,
         CreatePayment, WriteOf, ExactTuple, ExpiresWith;
    ExampleSettles(JObj([]));
    ExampleAdmitted(JObj([]));
    CleanExample("z");
    ExampleResolved("z", 200);
    var r;
    ls, r := ResetRace(ExampleDb(JObj([])), 7, ExampleInput(), ExampleAnswers(), ExampleReset("z", 200));
  }

  /**
   * A reset to the same tuple can still separate them: while a fulfil over the event of time 50 is under way, the
   * challenge's expiry moves from 100 to 60. The row ends with 60, its signed receipt with 100.
   */
  lemma ExpiryRaceHappens() returns (ls: seq<Label>)
    ensures IsRun(Sys(ExampleDb(JObj([])), map[]), ls)
    ensures var end := Exec(Sys(ExampleDb(JObj([])), map[]), ls).db; var k := ExampleKey();
            && k in end.challenges && end.challenges[k].receipt.Some? && end.challenges[k].expiry == 60
            && end.challenges[k].receipt.value.expiresAt == Some(100)
            && RowAgrees(k, end.challenges[k], end.challenges[k].receipt.value)
            && !FullyAgrees(k, end.challenges[k], end.challenges[k].receipt.value)
  {
    hide Trim, NormalizeNetworkId, NetworkCandidates, Clean, ToMinor, Admit, RowAgrees, FullyAgrees, GetPltAsset, SameAsk,
         Acceptable, AssetJson, AnswersFit, WillSettle, ContractFits, NetworksEquivalent, DbInv, Resolved, IsRun, Exec,
         CreatePayment, WriteOf, ExactTuple, SameContract, BuildContract;
    ExampleSettles(JObj([]));
    ExampleAdmitted(JObj([]));
    CleanExample("a");
    ExampleResolved("a", 60);
    PlainFits();
    AsksTheSame(PltRequest("a"));
    var r;
    ls, r := ResetRace(ExampleDb(JObj([])), 7, ExampleInput(), ExampleAnswers(), ExampleReset("a", 60));
  }

  /** From empty tables: the event is ingested, the challenge posted and fulfilled, and its receipt says 7 to "a". */
  lemma SettlesFromEmpty() returns (ls: seq<Label>)
    ensures IsRun(EMPTY, ls)
    ensures var end := Exec(EMPTY, ls).db; var k := ExampleKey();
            && k in end.challenges && end.challenges[k].status == Fulfilled && end.challenges[k].receipt.Some?
            && end.challenges[k].receipt.value.amountRaw == "7" && end.challenges[k].receipt.value.to == "a"
            && EventKey("h", 0) in end.events && end.events[EventKey("h", 0)].amountRaw == 7
  {
    hide ToMinor, AnswersFit, WillSettle, DbInv, Fulfil, CreatePayment, IsRun, Exec, AssetJson, Clean, EventAgrees, RowAgrees, FullyAgrees,
         ContractFits, BackedBy, IntVal, InsertAll, NormalizeNetworkId, Admit, CreateMayRun, BuildContract;
    var none := JObj([]);
    var batch := [EventInput("b", 1, "h", 0, "x", 7, true, "transfer", None, Some("a"), "7", "T", 50)];
    var posted := CreateInput(PltBody("a"), None, Some(100), none, none, 0);
    ExampleIngested(batch);
    NothingHeld(posted);
    assert ReadBack(none) == none by { ReadBackFixedIff(none); }
    ExampleCreated(none);
    ExampleSettles(none);
    ExampleAdmitted(none);
    FulfilOutcome(ExampleDb(none), 7, ExampleInput(), ExampleAnswers());
    var settle := FulfilIsARun(ExampleDb(none), 7, ExampleInput(), ExampleAnswers());
    var s1 := Sys(Db(map[], map[EventKey("h", 0) := ExampleEvent()], map[], map[]), map[]);
    StepThen(s1, Create(posted, 7), Sys(ExampleDb(none), map[]), settle);
    StepThen(EMPTY, Ingest(batch), s1, [Create(posted, 7)] + settle);
    ls := [Ingest(batch)] + ([Create(posted, 7)] + settle);
    var (after, reply) := Fulfil(ExampleDb(none), 7, ExampleInput(), ExampleAnswers());
    SevenToA(after.challenges[ExampleKey()], reply.receipt);
  }

  lemma ExampleIngested(batch: seq<EventInput>)
    requires batch == [EventInput("b", 1, "h", 0, "x", 7, true, "transfer", None, Some("a"), "7", "T", 50)]
    ensures IntegerAmounts(batch) && InsertAll(map[], batch) == map[EventKey("h", 0) := ExampleEvent()]
  {
    assert Unsign("7") == "7" && AllDigits("7") && NatVal("7"[..0]) == 0;
    assert IntVal("7") == 7;
    assert batch[..0] == [] && InsertAll(map[], batch[..0]) == map[];
  }

  lemma NothingHeld(input: CreateInput)
    ensures forall db: Db :: CreateMayRun(Sys(db, map[]), input)
  {
  }

  /** { contract: { payTo: "b", amount: "1000000" } } */
  function ForeignMetadata(): Json {
    JObj([Field("contract", JObj([Field("payTo", JStr("b")), Field("amount", JStr("1000000"))]))])
  }

  lemma ForeignMembers()
    ensures var own := OwnContract(ForeignMetadata());
            Member(own, "payTo") == Some(JStr("b")) && Member(own, "amount") == Some(JStr("1000000"))
    ensures ReadBack(ForeignMetadata()) == ForeignMetadata()
  {
    hide JsLess;
    var inner := [Field("payTo", JStr("b")), Field("amount", JStr("1000000"))];
    ShorterFirst("payTo", "amount");
    assert inner[..1] == [inner[0]] && inner[0].key == "payTo" && inner[1].key == "amount" && |inner[0].key| != |inner[1].key|;
    assert Lookup(inner, "amount") == Some(JStr("1000000"));
    assert Lookup(inner, "payTo") == Lookup(inner[..1], "payTo") == Some(JStr("b"));
    assert JsIncreasing(inner);
    InnerOrdered(inner);
    ReadBackFixedIff(ForeignMetadata());
  }

  lemma InnerOrdered(inner: seq<Field>)
    requires JsIncreasing(inner) && forall i :: 0 <= i < |inner| ==> inner[i].value.JStr?
    ensures InReadOrder(JObj([Field("contract", JObj(inner))]))
  {
    hide JsLess;
    var outer := [Field("contract", JObj(inner))];
    assert InReadOrder(outer[0].value);
  }

  /**
   * The inputs of `ForeignContract` exist: POST /payments asks for 7 to "a" with that metadata, and an ordinary fulfil
   * then signs a contract for 1000000 to "b" over the event of 7 to "a".
   */
  lemma ForeignContractHappens()
    ensures var posted := CreateInput(PltBody("a"), None, Some(100), JObj([]), ForeignMetadata(), 0);
            var before := Db(map[], map[EventKey("h", 0) := ExampleEvent()], map[], map[]);
            CreatePayment(before, 7, posted).0 == ExampleDb(ForeignMetadata())
    ensures AnswersFit(ExampleDb(ForeignMetadata()), 7, ExampleInput(), ExampleAnswers())
    ensures var (after, reply) := Fulfil(ExampleDb(ForeignMetadata()), 7, ExampleInput(), ExampleAnswers());
            && reply.Done? && ExampleKey() in after.challenges
            && after.challenges[ExampleKey()].receipt == Some(reply.receipt)
            && reply.receipt.contract.amount == "1000000" && reply.receipt.contract.payTo == "b"
            && reply.receipt.amountRaw == "7" && reply.receipt.to == "a"
            && !RowAgrees(ExampleKey(), after.challenges[ExampleKey()], reply.receipt)
  {
    hide Trim, NormalizeNetworkId, NetworkCandidates, ToMinor, Admit, AnswersFit, Clean, AssetJson, WillSettle, NetworksEquivalent,
         DbInv, Fulfil, OwnContract, Member, ReadBack, RowAgrees, EventAgrees, ContractFits, CreatePayment;
    var db := ExampleDb(ForeignMetadata());
    ForeignMembers();
    ExampleCreated(ForeignMetadata());
    ExampleSettles(ForeignMetadata());
    ExampleAdmitted(ForeignMetadata());
    ForeignDoesNotFit();
    ForeignContract(db, 7, ExampleInput(), ExampleAnswers(), ExampleKey());
    FulfilOutcome(db, 7, ExampleInput(), ExampleAnswers());
    var (after, reply) := Fulfil(db, 7, ExampleInput(), ExampleAnswers());
    SevenToA(after.challenges[ExampleKey()], reply.receipt);
  }

  lemma ForeignDoesNotFit()
    ensures !ContractFits(ExampleKey(), ExampleRow(ForeignMetadata()))
    ensures var c := BuildContract(PltRequest("a"), ForeignMetadata()); c.amount == "1000000" && c.payTo == "b"
  {
    hide Trim, ForeignMetadata, ContractFits, BuildContract, OwnContract, Member, AssetJson;
    ForeignMembers();
    OneChar("b");
    LongAmount();
    assert |"a"| == 1 && "a"[0] != "b"[0];
    OwnMembersCount(PltRequest("a"), ExampleKey(), ExampleRow(ForeignMetadata()), "b", "1000000");
  }

  /** A recipient and an amount in the metadata's contract are what the receipt's contract names. */
  lemma OwnMembersCount(req: Request, k: ChallengeKey, row: Challenge, payTo: string, amount: string)
    requires var own := OwnContract(row.metadata);
             Member(own, "payTo") == Some(JStr(payTo)) && Member(own, "amount") == Some(JStr(amount))
    ensures var c := BuildContract(req, row.metadata); c.payTo == Trim(payTo) && c.amount == Trim(amount)
    ensures Trim(payTo) != row.payTo ==> !ContractFits(k, row)
  {
    hide Trim, NetworksEquivalent, ToMinor, OwnContract, Member, ToNumber;
  }

  lemma SevenToA(row: Challenge, r: Receipt)
    requires EventAgrees(row, r) && PayloadOf(row) == PayloadOf(ExampleRow(row.metadata))
    ensures r.amountRaw == "7" && r.to == "a"
  {
    hide ToMinor, CanonicalChainId, AssetJson, Get, ToNumber;
    AssetJsonReads(Asset("PLT", "T", 0));
    SevenMinor();
  }

  lemma LongAmount()
    ensures Trim("1000000") == "1000000"
  {
    TrimTrims("1000000");
  }

  lemma ExampleCreated(metadata: Json)
    requires metadata.JObj? && ReadBack(metadata) == metadata
    ensures var posted := CreateInput(PltBody("a"), None, Some(100), JObj([]), metadata, 0);
            var before := Db(map[], map[EventKey("h", 0) := ExampleEvent()], map[], map[]);
            CreatePayment(before, 7, posted).0 == ExampleDb(metadata)
  {
    hide Trim, NormalizeNetworkId, NetworkCandidates, GetPltAsset, Acceptable, Clean, ReadBack, AssetJson;
    CleanExample("a");
    NoAssets(NetworkCandidates("x"), 7, "T");
    AssetJsonReads(Asset("PLT", "T", 0));
    assert ReadBack(JObj([])) == JObj([]) by { ReadBackFixedIff(JObj([])); }
  }

  lemma {:induction false} NoAssets(candidates: seq<string>, g: int, assetId: string)
    ensures GetPltAsset(map[], candidates, g, assetId) == None
  {
    if candidates == [] {
    } else {
      NoAssets(candidates[1..], g, assetId);
    }
  }
}
