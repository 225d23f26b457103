/** The invariant of the protocol, step by step and over every run. */
module ProtocolLaws {
  import opened Text
  import opened NetworkId
  import opened Decimals
  import opened PltStore
  import opened Challenges
  import opened Payments
  import opened Protocol
  import ChallengeLaws

  /** Events and claims are never removed or changed, and no challenge disappears. */
  ghost predicate Grows(a: Db, b: Db) {
    && (forall k :: k in a.events ==> k in b.events && b.events[k] == a.events[k])
    && SubTable(a.claims, b.claims)
    && a.challenges.Keys <= b.challenges.Keys
  }

  lemma EvidencePersists(a: Db, b: Db, c: ClaimKey, r: Receipt)
    requires Grows(a, b) && Evidence(a.events, c, r)
    ensures Evidence(b.events, c, r)
  {
  }

  /** A backed row that is not rewritten stays backed. */
  lemma BackingPersists(a: Db, b: Db, k: ChallengeKey)
    requires Grows(a, b) && k in a.challenges && Backed(a, k) && b.challenges[k] == a.challenges[k]
    ensures Backed(b, k)
  {
    hide Evidence, ReceiptFor;
    var c :| BackedBy(a, k, c);
    EvidencePersists(a, b, c, a.challenges[k].receipt.value);
    assert BackedBy(b, k, c);
  }

  lemma RowPersists(a: Db, b: Db, k: ChallengeKey)
    requires Grows(a, b) && k in a.challenges && RowInv(a, k) && b.challenges[k] == a.challenges[k]
    ensures RowInv(b, k)
  {
    if a.challenges[k].status == Fulfilled { BackingPersists(a, b, k); }
  }

  /** A change of tables that adds no claim keeps every request in flight in order. */
  lemma FlightPersists(a: Db, b: Db, p: Phase)
    requires Grows(a, b) && a.claims == b.claims && FlightOk(a, p)
    ensures FlightOk(b, p)
  {
    hide Evidence, ReceiptFor;
    if !p.AdmittedPhase? && !p.Matched? {
      EvidencePersists(a, b, p.job.claim, p.job.receipt);
    }
  }

  lemma DbStepKeeps(s: Sys, db: Db)
    requires Inv(s) && DbInv(db) && Grows(s.db, db) && s.db.claims == db.claims
    ensures Inv(s.(db := db))
  {
    hide Evidence, ReceiptFor;
    var s' := s.(db := db);
    forall t | t in s'.flights ensures FlightOk(s'.db, s'.flights[t]) {
      FlightPersists(s.db, db, s.flights[t]);
    }
    assert Exclusive(s') by {
      forall t | t in s'.flights
        ensures ((s'.flights[t].Claimed? || s'.flights[t].Updated?) && s'.flights[t].inserted ==> ClaimFree(s', t, s'.flights[t].job.claim))
                && (s'.flights[t].Updated? ==> RowFree(s', t, KeyFor(s'.flights[t].job.req)))
      {
      }
    }
  }

  /** Giving one request a new phase keeps the invariant if the phase is in order and takes only free locks. */
  lemma FlyKeeps(s: Sys, t: int, p: Phase)
    requires Inv(s) && FlightOk(s.db, p)
    requires (p.Claimed? || p.Updated?) && p.inserted ==> ClaimFree(s, t, p.job.claim)
    requires p.Updated? ==> RowFree(s, t, KeyFor(p.job.req))
    ensures Inv(Fly(s, t, p))
  {
    hide Evidence, ReceiptFor;
    var s' := Fly(s, t, p);
    forall u | u in s'.flights
      ensures ((s'.flights[u].Claimed? || s'.flights[u].Updated?) && s'.flights[u].inserted ==> ClaimFree(s', u, s'.flights[u].job.claim))
              && (s'.flights[u].Updated? ==> RowFree(s', u, KeyFor(s'.flights[u].job.req)))
    {
      if u != t {
        assert s'.flights[u] == s.flights[u];
      }
    }
  }

  lemma LandKeeps(s: Sys, t: int)
    requires Inv(s)
    ensures Inv(Land(s, t))
  {
    hide Evidence, ReceiptFor;
    var s' := Land(s, t);
    forall u | u in s'.flights
      ensures ((s'.flights[u].Claimed? || s'.flights[u].Updated?) && s'.flights[u].inserted ==> ClaimFree(s', u, s'.flights[u].job.claim))
              && (s'.flights[u].Updated? ==> RowFree(s', u, KeyFor(s'.flights[u].job.req)))
    {
      assert s'.flights[u] == s.flights[u];
    }
  }

  /* ---------- steps ---------- */

  /** Rewriting one row as pending without a receipt keeps the tables in order. */
  lemma PendingRowKeeps(db: Db, k: ChallengeKey, row: Challenge)
    requires DbInv(db) && row.status == Pending && row.receipt == None
    ensures var db' := db.(challenges := db.challenges[k := row]); DbInv(db') && Grows(db, db')
  {
    var db' := db.(challenges := db.challenges[k := row]);
    forall j | j in db'.challenges ensures RowInv(db', j) {
      if j != k { RowPersists(db, db', j); }
    }
  }

  lemma CreateKeeps(s: Sys, input: CreateInput, default: int)
    requires Inv(s)
    ensures Inv(s.(db := CreatePayment(s.db, default, input).0))
    ensures Grows(s.db, CreatePayment(s.db, default, input).0)
  {
    hide NormalizeAsset, Clean, Acceptable, AssetJson, RowInv, ClaimFits, FlightOk;
    var (db, reply) := CreatePayment(s.db, default, input);
    if reply.CreateOk? {
      PendingRowKeeps(s.db, KeyFor(Clean(input.body)), reply.row);
      DbStepKeeps(s, db);
    }
  }

  lemma PostKeeps(s: Sys, key: ChallengeKey, payload: Payload, now: int)
    requires Inv(s)
    ensures var db := s.db.(challenges := UpsertChallenge(s.db.challenges, key, payload, now).0);
            Inv(s.(db := db)) && Grows(s.db, db)
  {
    if key !in s.db.challenges {
      PendingRowKeeps(s.db, key, StoredRow(payload, now));
      DbStepKeeps(s, s.db.(challenges := s.db.challenges[key := StoredRow(payload, now)]));
    }
  }

  /** Tables whose events grew and whose rows and claims did not change are in order. */
  lemma EventsGrowKeeps(s: Sys, db: Db)
    requires Inv(s) && Grows(s.db, db) && db.claims == s.db.claims && db.challenges == s.db.challenges
    ensures Inv(s.(db := db))
  {
    forall k | k in db.challenges ensures RowInv(db, k) { RowPersists(s.db, db, k); }
    DbStepKeeps(s, db);
  }

  lemma IngestKeeps(s: Sys, batch: seq<EventInput>)
    requires Inv(s) && IntegerAmounts(batch)
    ensures var db := s.db.(events := InsertAll(s.db.events, batch)); Inv(s.(db := db)) && Grows(s.db, db)
  {
    InsertKeys(s.db.events, batch);
    EventsGrowKeeps(s, s.db.(events := InsertAll(s.db.events, batch)));
  }

  /** The event the lookup selects is evidence for the receipt built from it, which carries the request's tuple. */
  lemma SelectedIsEvidence(db: Db, req: Request, g: int, tx: string, minor: string, k: EventKey, matched: Challenge)
    requires k in db.events && EventMatches(QueryFor(req, g, minor, tx), k, db.events[k])
    requires ToMinor(req.amount, req.asset.decimals) == Ok(minor) && req.asset.kind == PLT
    ensures var job := BuildJob(req, g, k, db.events[k], minor, matched);
            && Evidence(db.events, job.claim, job.receipt) && ReceiptFor(req, job.receipt)
            && job.receipt.contract == BuildContract(req, matched.metadata) && ExpiresWith(matched, job.receipt)
  {
    hide ToMinor, NormalizeNetworkId, ReceiptForm, CandidatesOf;
    var n := db.events[k].network;
    CandidatesAreNames(req.network, n);
    SameClass(req.network, n);
  }

  lemma SameClass(a: string, x: string)
    requires x in NetworkCandidates(a)
    ensures CanonicalChainId(x) == CanonicalChainId(a) && CanonicalChainId(NormalizeNetworkId(x)) == CanonicalChainId(x)
  {
    CandidatesAreNames(a, x);
    CandidatesAreTheClass(a, x);
    CanonicalIsCompleteInvariant(a, x);
  }

  lemma EventKeeps(s: Sys, t: int, event: Option<EventKey>)
    requires Inv(s) && t in s.flights && s.flights[t].Matched? && (event.Some? ==> event.value in s.db.events)
    requires EventAnswered(s.db.events, s.flights[t], event)
    ensures Inv(AfterEvent(s, t, event))
  {
    hide Evidence, ReceiptFor, EventMatches, RowInv, ClaimFits, QueryFor;
    var p := s.flights[t];
    assert FlightOk(s.db, p);
    var (job, _) := SelectJob(s.db, Admitted(p.req, p.genesisIndex, p.txHash, true), p.row, event);
    match job {
      case None => LandKeeps(s, t);
      case Some(j) =>
        var minor := ToMinor(p.req.amount, p.req.asset.decimals).value;
        SelectedIsEvidence(s.db, p.req, p.genesisIndex, p.txHash, minor, event.value, p.row);
        FlyKeeps(s, t, Chosen(j));
    }
  }

  /** Two claims on one event have one key, so the equivalent-network arm can only find the exact claim. */
  lemma ClaimKeyIsExact(events: EventTable, c: ClaimKey, d: ClaimKey)
    requires ClaimFits(events, c) && ClaimFits(events, d) && EventOf(c) == EventOf(d)
    ensures c == d
  {
  }

  lemma AnswerKeeps(s: Sys, t: int, answer: Option<ClaimAnswer>)
    requires Inv(s) && t in s.flights && s.flights[t].Claiming? && ClaimFree(s, t, s.flights[t].job.claim)
    requires var p := s.flights[t]; IsClaimAnswer(s.db.claims, p.snapshot, p.job.claim, KeyFor(p.job.req), answer)
    ensures Inv(AfterClaim(s, t, answer))
  {
    hide Evidence, ReceiptFor, IsClaimAnswer, RowInv, ClaimFits;
    var p := s.flights[t];
    var c, self := p.job.claim, KeyFor(p.job.req);
    assert FlightOk(s.db, p);
    if Judge(answer, self).ClaimedBySelf? {
      if c in s.db.claims { SelfAnswerOwns(s.db, p, answer); }
      FlyKeeps(s, t, Claimed(p.job, c !in s.db.claims));
    } else {
      LandKeeps(s, t);
    }
  }

  /** An existing claim answered as one's own is one's own. */
  lemma SelfAnswerOwns(db: Db, p: Phase, answer: Option<ClaimAnswer>)
    requires DbInv(db) && p.Claiming? && FlightOk(db, p) && p.job.claim in db.claims
    requires IsClaimAnswer(db.claims, p.snapshot, p.job.claim, KeyFor(p.job.req), answer)
    requires Judge(answer, KeyFor(p.job.req)).ClaimedBySelf?
    ensures db.claims[p.job.claim] == KeyFor(p.job.req)
  {
    var d :| d in p.snapshot && SameEventClaim(p.job.claim, d) && p.snapshot[d] == answer.value.owner;
    ClaimKeyIsExact(db.events, p.job.claim, d);
  }

  /** The tables after a commit. */
  lemma CommitTables(db: Db, p: Phase)
    requires DbInv(db) && p.Updated? && FlightOk(db, p)
    ensures var db' := Committed(db, p); DbInv(db') && Grows(db, db')
    ensures BackedBy(Committed(db, p), KeyFor(p.job.req), p.job.claim)
  {
    hide Evidence, ReceiptFor;
    var db', k := Committed(db, p), KeyFor(p.job.req);
    EvidenceFits(db.events, p.job.claim, p.job.receipt);
    ReceiptNonce(p.job.req, p.job.receipt);
    assert Grows(db, db');
    EvidencePersists(db, db', p.job.claim, p.job.receipt);
    assert BackedBy(db', k, p.job.claim);
    forall j | j in db'.challenges ensures RowInv(db', j) {
      if j != k { RowPersists(db, db', j); }
    }
  }

  lemma ReceiptNonce(req: Request, r: Receipt)
    requires ReceiptFor(req, r)
    ensures r.nonce == KeyFor(req).nonce
  {
  }

  lemma CommitFlights(s: Sys, t: int, u: int)
    requires Inv(s) && t in s.flights && s.flights[t].Updated? && u in s.flights && u != t
    requires KeyFor(s.flights[t].job.req) in s.db.challenges
    ensures FlightOk(Committed(s.db, s.flights[t]), s.flights[u])
  {
    hide Evidence, ReceiptFor, RowInv, ClaimFits, BackedBy;
    var p, q := s.flights[t], s.flights[u];
    var db' := Committed(s.db, p);
    assert FlightOk(s.db, p) && FlightOk(s.db, q);
    CommitTables(s.db, p);
    if !q.AdmittedPhase? && !q.Matched? {
      EvidencePersists(s.db, db', q.job.claim, q.job.receipt);
      if p.inserted && (q.Claimed? || q.Updated?) && q.inserted {
        assert !HoldsClaim(q, p.job.claim);
      }
    }
  }

  lemma CommitKeeps(s: Sys, t: int)
    requires Inv(s) && t in s.flights && s.flights[t].Updated? && KeyFor(s.flights[t].job.req) in s.db.challenges
    ensures Inv(Land(s.(db := Committed(s.db, s.flights[t])), t)) && Grows(s.db, Committed(s.db, s.flights[t]))
  {
    hide Evidence, ReceiptFor;
    var p := s.flights[t];
    assert FlightOk(s.db, p);
    CommitTables(s.db, p);
    LandKeeps(s, t);
    var s' := Land(s.(db := Committed(s.db, p)), t);
    forall u | u in s'.flights ensures FlightOk(s'.db, s'.flights[u]) { CommitFlights(s, t, u); }
    assert s'.flights == Land(s, t).flights;
    SameFlightsExclusive(Land(s, t), s');
  }

  lemma SameFlightsExclusive(a: Sys, b: Sys)
    requires a.flights == b.flights && Exclusive(a)
    ensures Exclusive(b)
  {
    forall u | u in b.flights
      ensures ((b.flights[u].Claimed? || b.flights[u].Updated?) && b.flights[u].inserted ==> ClaimFree(b, u, b.flights[u].job.claim))
              && (b.flights[u].Updated? ==> RowFree(b, u, KeyFor(b.flights[u].job.req)))
    {
      assert a.flights[u] == b.flights[u];
    }
  }

  lemma MatchKeeps(s: Sys, t: int, rows: seq<ChallengeKey>)
    requires Inv(s) && t in s.flights && s.flights[t].AdmittedPhase?
    requires IsSearchResult(s.db.challenges, MatchFilters(s.flights[t].req), rows)
    ensures Inv(AfterMatch(s, t, rows))
  {
    hide ExactTuple, MatchFilters;
    var p := s.flights[t];
    FindExactIn(s.db.challenges, rows, p.req);
    var s' := AfterMatch(s, t, rows);
    if t in s'.flights {
      var k := FindExact(s.db.challenges, rows, p.req).value;
      assert FlightOk(s.db, p);
      ChallengeLaws.ExactMatchIsUnique(s.db.challenges, p.req, rows);
      FlyKeeps(s, t, Matched(p.req, p.genesisIndex, p.txHash, s.db.challenges[k]));
    } else {
      LandKeeps(s, t);
    }
  }

  lemma AdmitIsComplete(db: Db, default: int, input: FulfilInput)
    ensures var a := Admit(db, default, input);
            a.Admitted? ==> Complete(a.req) && Tidy(a.req) && (a.needsEvent ==> a.req.asset.kind == PLT)
  {
    TrimTrims(input.body.merchantId);
    TrimTrims(input.body.amount);
    TrimTrims(input.body.payTo);
    hide IsTrimmed, Trim, NormalizeNetworkId, NetworkCandidates, ToOptionalTxHash, GetPltAsset;
  }

  /** Every enabled step keeps the invariant, and never removes or changes an event or a claim. */
  lemma StepKeeps(s: Sys, l: Label)
    requires Inv(s) && Enabled(s, l)
    ensures Inv(Apply(s, l)) && Grows(s.db, Apply(s, l).db)
  {
    match l
    case Create(input, default) => CreateKeeps(s, input, default);
    case Post(key, payload, now) => PostKeeps(s, key, payload, now);
    case Ingest(batch) => IngestKeeps(s, batch);
    case SetAssets(assets) => EventsGrowKeeps(s, s.db.(assets := assets));
    case Admission(t, fulfil, default) => AdmissionKeeps(s, t, fulfil, default);
    case ReadMatch(t, rows) => MatchKeeps(s, t, rows);
    case ReadEvent(t, event) => EventKeeps(s, t, event);
    case StartClaim(t) => StartClaimKeeps(s, t);
    case AnswerClaim(t, answer) => AnswerKeeps(s, t, answer);
    case UpdateRow(t) => UpdateKeeps(s, t);
    case Commit(t) => CommitKeeps(s, t);
    case Abort(t) => LandKeeps(s, t);
  }

  lemma AdmissionKeeps(s: Sys, t: int, fulfil: FulfilInput, default: int)
    requires Inv(s) && Enabled(s, Admission(t, fulfil, default))
    ensures Inv(Apply(s, Admission(t, fulfil, default))) && Apply(s, Admission(t, fulfil, default)).db == s.db
  {
    hide Admit, Complete, Tidy, DbInv, Exclusive;
    AdmitIsComplete(s.db, default, fulfil);
    match Admit(s.db, default, fulfil) {
      case Refused(_) =>
      case Admitted(req, g, tx, needsEvent) => FlyKeeps(s, t, AdmittedPhase(req, g, tx, needsEvent));
    }
  }

  lemma StartClaimKeeps(s: Sys, t: int)
    requires Inv(s) && t in s.flights && s.flights[t].Chosen?
    ensures Inv(Fly(s, t, Claiming(s.flights[t].job, s.db.claims)))
  {
    hide Evidence, ReceiptFor;
    var p := s.flights[t];
    assert FlightOk(s.db, p);
    FlyKeeps(s, t, Claiming(p.job, s.db.claims));
  }

  lemma UpdateKeeps(s: Sys, t: int)
    requires Inv(s) && t in s.flights && s.flights[t].Claimed? && RowFree(s, t, KeyFor(s.flights[t].job.req))
    ensures Inv(AfterUpdate(s, t))
  {
    hide Evidence, ReceiptFor;
    var p := s.flights[t];
    assert FlightOk(s.db, p);
    FlyKeeps(s, t, Updated(p.job, p.inserted));
  }

  /** Over every run: the invariant holds at the end, and events and claims only grow. */
  lemma {:induction false} RunKeeps(s: Sys, ls: seq<Label>)
    requires Inv(s) && IsRun(s, ls)
    ensures Inv(Exec(s, ls)) && Grows(s.db, Exec(s, ls).db)
    decreases |ls|
  {
    if ls == [] {
    } else {
      StepKeeps(s, ls[0]);
      RunKeeps(Apply(s, ls[0]), ls[1..]);
      GrowsTransitive(s.db, Apply(s, ls[0]).db, Exec(s, ls).db);
    }
  }

  lemma GrowsTransitive(a: Db, b: Db, c: Db)
    requires Grows(a, b) && Grows(b, c)
    ensures Grows(a, c)
  {
  }

  lemma EmptyIsFine()
    ensures Inv(EMPTY)
  {
  }

  /* ---------- main results ---------- */

  /**
   * Backing and exclusivity. In every state reachable from the empty tables, each fulfilled challenge owns a claim
   * on a stored transfer with its receipt's transaction, token, recipient and amount, and no event backs two
   * challenges.
   */
  lemma FulfilledIsBacked(ls: seq<Label>, k: ChallengeKey)
    requires IsRun(EMPTY, ls)
    ensures var db := Exec(EMPTY, ls).db;
            k in db.challenges && db.challenges[k].status == Fulfilled ==> exists c :: BackedBy(db, k, c)
  {
    EmptyIsFine();
    RunKeeps(EMPTY, ls);
    var db := Exec(EMPTY, ls).db;
    if k in db.challenges && db.challenges[k].status == Fulfilled {
      assert RowInv(db, k) && Backed(db, k);
    }
  }

  lemma OneEventBacksOne(ls: seq<Label>, k1: ChallengeKey, k2: ChallengeKey, c1: ClaimKey, c2: ClaimKey)
    requires IsRun(EMPTY, ls)
    requires var db := Exec(EMPTY, ls).db;
             c1 in db.claims && db.claims[c1] == k1 && c2 in db.claims && db.claims[c2] == k2 && EventOf(c1) == EventOf(c2)
    ensures c1 == c2 && k1 == k2
  {
    EmptyIsFine();
    RunKeeps(EMPTY, ls);
    var db := Exec(EMPTY, ls).db;
    assert ClaimFits(db.events, c1) && ClaimFits(db.events, c2);
    ClaimKeyIsExact(db.events, c1, c2);
  }

  /** Claims are never removed or given to another owner, from any reachable state on. */
  lemma ClaimsAreForever(before: seq<Label>, after: seq<Label>, c: ClaimKey)
    requires IsRun(EMPTY, before) && IsRun(Exec(EMPTY, before), after)
    requires c in Exec(EMPTY, before).db.claims
    ensures var end := Exec(Exec(EMPTY, before), after).db;
            c in end.claims && end.claims[c] == Exec(EMPTY, before).db.claims[c]
  {
    EmptyIsFine();
    RunKeeps(EMPTY, before);
    RunKeeps(Exec(EMPTY, before), after);
  }

  /**
   * The claim race. When the claim statement of a request is answered and another challenge already owns a
   * committed claim on the event, the request lands without having changed any table: with that owner's name if
   * the statement's snapshot had the claim, with a failed lookup if it was committed later.
   */
  lemma LoserChangesNothing(s: Sys, t: int, answer: Option<ClaimAnswer>)
    requires Inv(s) && Enabled(s, AnswerClaim(t, answer))
    requires var job := s.flights[t].job;
             job.claim in s.db.claims && s.db.claims[job.claim] != KeyFor(job.req)
    ensures Apply(s, AnswerClaim(t, answer)) == Land(s, t)
    ensures var p := s.flights[t];
            Judge(answer, KeyFor(p.job.req)) ==
            if p.job.claim in p.snapshot then ClaimedByOther(s.db.claims[p.job.claim]) else LookupFailed
  {
    var p := s.flights[t];
    var c := p.job.claim;
    assert FlightOk(s.db, p);
    SnapshotArmIsExact(s.db, p, c);
    if c in p.snapshot { SelfClaims(s.db, c); }
  }

  /** On a job's event, the snapshot arm sees the exact claim or nothing. */
  lemma SnapshotArmIsExact(db: Db, p: Phase, c: ClaimKey)
    requires DbInv(db) && p.Claiming? && FlightOk(db, p) && c == p.job.claim
    ensures forall d :: d in p.snapshot && SameEventClaim(c, d) ==> d == c
  {
    forall d | d in p.snapshot && SameEventClaim(c, d) ensures d == c {
      ClaimKeyIsExact(db.events, c, d);
    }
  }

  /** A claim is among the rows its own statement looks up. */
  lemma SelfClaims(db: Db, c: ClaimKey)
    requires ClaimFits(db.events, c) && c.network != ""
    ensures SameEventClaim(c, c)
  {
    NormalizeIdempotent(db.events[EventOf(c)].network);
    CandidatesAreTheClass(c.network, c.network);
  }

  /** At most one challenge ever commits on an event: two commits of one run on one event have one owner. */
  lemma OneWinnerPerEvent(s: Sys, t: int, ls: seq<Label>, u: int)
    requires Inv(s) && Enabled(s, Commit(t))
    requires IsRun(Apply(s, Commit(t)), ls) && Enabled(Exec(Apply(s, Commit(t)), ls), Commit(u))
    requires EventOf(s.flights[t].job.claim) == EventOf(Exec(Apply(s, Commit(t)), ls).flights[u].job.claim)
    ensures KeyFor(s.flights[t].job.req) == KeyFor(Exec(Apply(s, Commit(t)), ls).flights[u].job.req)
  {
    hide Evidence, ReceiptFor, RowInv, ClaimFits;
    var s1 := Apply(s, Commit(t));
    var s2 := Exec(s1, ls);
    var job, c := s2.flights[u].job, s.flights[t].job.claim;
    CommitKeeps(s, t);
    assert FlightOk(s.db, s.flights[t]);
    CommitTables(s.db, s.flights[t]);
    RunKeeps(s1, ls);
    assert FlightOk(s2.db, s2.flights[u]);
    EvidenceFits(s2.db.events, job.claim, job.receipt);
    ClaimKeyIsExact(s2.db.events, c, job.claim);
  }

  lemma EvidenceFits(events: EventTable, c: ClaimKey, r: Receipt)
    requires Evidence(events, c, r)
    ensures ClaimFits(events, c) && c.network != ""
  {
  }
}
