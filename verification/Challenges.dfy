/** The challenge table: its search (src/store/match.pg.ts), exact match and idempotent upsert (src/store/repo.pg.ts). */
module Challenges {
  import opened Text
  import opened Lists
  import opened NetworkId
  import opened Json
  import opened JsValues
  import opened JsLaws

  /** PRIMARY KEY (merchant_id, nonce). */
  datatype ChallengeKey = ChallengeKey(merchantId: string, nonce: string)

  datatype Status = Pending | Fulfilled | Expired | Invalid | PolicyFailed

  /** The contract of a proof payload, apart from its chain id and asset, which the receipt names once. */
  datatype Contract = Contract(
    contractId: string,
    contractVersion: string,
    isFrozen: bool,
    merchantId: string,
    resourceMethod: string,
    resourcePath: string,
    network: string,
    amount: string,
    payTo: string
  )

  /** The signed proof payload; times are seconds. */
  datatype Receipt = Receipt(
    contract: Contract,
    chainId: string,
    assetType: string,
    tokenId: string,
    decimals: int,
    nonce: string,
    settledAt: int,
    expiresAt: Option<int>,
    txHash: string,
    blockHash: string,
    blockHeight: int,
    amountRaw: string,
    from: Option<string>,
    to: string
  )

  datatype Challenge = Challenge(
    network: string,
    asset: Json,
    amount: string,
    payTo: string,
    expiry: int,
    policy: Json,
    metadata: Json,
    status: Status,
    receipt: Option<Receipt>,
    createdAt: int
  )

  type ChallengeTable = map<ChallengeKey, Challenge>

  datatype Asset = Asset(kind: string, tokenId: string, decimals: int)

  /** The tuple of match and fulfil, after trimming and network normalisation. */
  datatype Request = Request(
    merchantId: string,
    nonce: string,
    network: string,
    asset: Asset,
    amount: string,
    payTo: string
  )

  function KeyFor(r: Request): ChallengeKey { ChallengeKey(r.merchantId, r.nonce) }

  /** What the handlers check before they search. */
  predicate Complete(r: Request) {
    && r.merchantId != "" && r.nonce != "" && r.network != "" && r.asset.kind != ""
    && r.asset.tokenId != "" && r.amount != "" && r.payTo != ""
  }

  /* ---------- search ---------- */

  /** An empty string or list is an absent filter. */
  datatype Filters = Filters(
    merchantId: string,
    network: string,
    candidates: seq<string>,
    tokenId: string,
    payTo: string,
    status: Option<Status>,
    limit: Option<int>
  )

  function EffectiveCandidates(f: Filters): seq<string> {
    if f.candidates != [] then f.candidates
    else if f.network != "" then NetworkCandidates(f.network)
    else []
  }

  function EffectiveLimit(f: Filters): (n: nat)
    ensures 1 <= n <= 100
  {
    match f.limit
    case None => 25
    case Some(n) => if n < 1 then 1 else if n > 100 then 100 else n
  }

  predicate Selected(f: Filters, k: ChallengeKey, c: Challenge) {
    && (f.merchantId != "" ==> k.merchantId == f.merchantId)
    && (EffectiveCandidates(f) != [] ==> c.network in EffectiveCandidates(f))
    && (f.tokenId != "" ==> MemberText(c.asset, "tokenId") == Some(f.tokenId))
    && (f.payTo != "" ==> c.payTo == f.payTo)
    && (f.status.Some? ==> c.status == f.status.value)
  }

  function SelectedKeys(t: ChallengeTable, f: Filters): set<ChallengeKey> {
    set k | k in t && Selected(f, k, t[k])
  }

  /**
   * The answers PostgreSQL may give: selected rows, newest first, cut at the limit; rows created at the same
   * moment may come in any order.
   */
  ghost predicate IsSearchResult(t: ChallengeTable, f: Filters, res: seq<ChallengeKey>) {
    && Distinct(res)
    && |res| == Min(EffectiveLimit(f), |SelectedKeys(t, f)|)
    && (forall i :: 0 <= i < |res| ==> res[i] in SelectedKeys(t, f))
    && (forall i, j :: 0 <= i < j < |res| ==> t[res[i]].createdAt >= t[res[j]].createdAt)
    && (forall k, i :: k in SelectedKeys(t, f) && k !in res && 0 <= i < |res| ==> t[k].createdAt <= t[res[i]].createdAt)
  }

  /** A selected row with no newer selected row left. */
  method Newest(t: ChallengeTable, rest: set<ChallengeKey>) returns (k: ChallengeKey)
    requires rest != {} && rest <= t.Keys
    ensures k in rest && forall j :: j in rest ==> t[j].createdAt <= t[k].createdAt
  {
    k :| k in rest;
    var todo := rest - {k};
    while todo != {}
      invariant todo <= rest && k in rest
      invariant forall j :: j in rest - todo ==> t[j].createdAt <= t[k].createdAt
      decreases todo
    {
      var j :| j in todo;
      if t[j].createdAt > t[k].createdAt { k := j; }
      todo := todo - {j};
    }
  }

  /** The query itself; it shows that an answer always exists. */
  method SearchPayments(t: ChallengeTable, f: Filters) returns (res: seq<ChallengeKey>)
    ensures IsSearchResult(t, f, res)
  {
    hide Selected;
    res := [];
    var rest := SelectedKeys(t, f);
    while |res| < EffectiveLimit(f) && rest != {}
      invariant rest <= SelectedKeys(t, f) && |res| <= EffectiveLimit(f)
      invariant |res| + |rest| == |SelectedKeys(t, f)|
      invariant forall i :: 0 <= i < |res| ==> res[i] in SelectedKeys(t, f) && res[i] !in rest
      invariant forall k :: k in SelectedKeys(t, f) ==> k in rest || k in res
      invariant Distinct(res)
      invariant forall i, j :: 0 <= i < j < |res| ==> t[res[i]].createdAt >= t[res[j]].createdAt
      invariant forall k, i :: k in rest && 0 <= i < |res| ==> t[k].createdAt <= t[res[i]].createdAt
      decreases rest
    {
      var k := Newest(t, rest);
      ghost var was := res;
      res := res + [k];
      rest := rest - {k};
      assert forall j :: j in was || j == k ==> j in res by {
        forall j | j in was ensures j in res {
          var i :| 0 <= i < |was| && was[i] == j;
          assert res[i] == j;
        }
        assert res[|was|] == k;
      }
    }
  }

  /* ---------- exact match ---------- */

  predicate AssetIs(asset: Json, a: Asset) {
    && Get(asset, "type") == Some(JStr(a.kind))
    && Get(asset, "tokenId") == Some(JStr(a.tokenId))
    && ToNumber(Get(asset, "decimals")) == Some(a.decimals)
  }

  /** The in-memory comparison of POST match and fulfil. */
  predicate ExactTuple(r: Request, k: ChallengeKey, c: Challenge) {
    && k.nonce == r.nonce
    && c.amount == r.amount
    && Trim(c.network) in NetworkCandidates(r.network)
    && AssetIs(c.asset, r.asset)
  }

  function MatchFilters(r: Request): Filters {
    var cands := NetworkCandidates(r.network);
    Filters(r.merchantId, if |cands| == 1 then cands[0] else "", [], r.asset.tokenId, r.payTo, None, Some(250))
  }

  /** `rows.find(...)`. */
  function FindExact(t: ChallengeTable, rows: seq<ChallengeKey>, r: Request): Option<ChallengeKey>
    requires forall i :: 0 <= i < |rows| ==> rows[i] in t
  {
    if rows == [] then None
    else if ExactTuple(r, rows[0], t[rows[0]]) then Some(rows[0])
    else FindExact(t, rows[1..], r)
  }

  method FindExactMatch(t: ChallengeTable, r: Request) returns (found: Option<ChallengeKey>, ghost rows: seq<ChallengeKey>)
    ensures IsSearchResult(t, MatchFilters(r), rows)
    ensures found == FindExact(t, rows, r)
  {
    hide ExactTuple, MatchFilters;
    var res := SearchPayments(t, MatchFilters(r));
    rows := res;
    found := None;
    for i := 0 to |res|
      invariant found == None && FindExact(t, rows, r) == FindExact(t, rows[i..], r)
    {
      if ExactTuple(r, res[i], t[res[i]]) { return Some(res[i]), rows; }
      assert rows[i..][1..] == rows[i + 1..];
    }
  }

  /** The tuple comparison of the GET alias: trimmed text, no network check in memory. */
  predicate AliasTuple(r: Request, k: ChallengeKey, c: Challenge) {
    && k.nonce == r.nonce
    && c.amount == r.amount
    && TrimmedMember(c.asset, "type", r.asset.kind)
    && TrimmedMember(c.asset, "tokenId", r.asset.tokenId)
    && ToNumber(Get(c.asset, "decimals")) == Some(r.asset.decimals)
  }

  predicate TrimmedMember(asset: Json, key: string, value: string) {
    match Get(asset, key)
    case Some(JStr(s)) => Trim(s) == value
    case _ => false
  }

  function AliasFilters(r: Request): Filters {
    Filters(r.merchantId, r.network, NetworkCandidates(r.network), r.asset.tokenId, r.payTo, None, Some(100))
  }

  function FindAlias(t: ChallengeTable, rows: seq<ChallengeKey>, r: Request): Option<ChallengeKey>
    requires forall i :: 0 <= i < |rows| ==> rows[i] in t
  {
    if rows == [] then None
    else if AliasTuple(r, rows[0], t[rows[0]]) then Some(rows[0])
    else FindAlias(t, rows[1..], r)
  }

  /* ---------- idempotent creation ---------- */

  /** The body of POST /v1/challenges after normalisation; expiry in milliseconds is compared as an instant. */
  datatype Payload = Payload(
    network: string,
    asset: Json,
    amount: string,
    payTo: string,
    expiry: int,
    policy: Json,
    metadata: Json
  )

  datatype UpsertResult = Created(row: Challenge) | SamePayload(row: Challenge) | Conflict

  /** `x ?? {}`. */
  function OrEmpty(j: Json): Json { if j == JNull then JObj([]) else j }

  function StoredRow(p: Payload, now: int): Challenge {
    Challenge(p.network, ReadBack(p.asset), p.amount, p.payTo, p.expiry, ReadBack(OrEmpty(p.policy)),
              ReadBack(OrEmpty(p.metadata)), Pending, None, now)
  }

  /** The comparison of a stored row with a new payload; JSON text is compared, so key order counts. */
  predicate ComparesEqual(row: Challenge, p: Payload) {
    && NetworksEquivalent(row.network, p.network)
    && row.asset == p.asset
    && row.amount == p.amount
    && row.payTo == p.payTo
    && row.expiry == p.expiry
    && OrEmpty(row.policy) == OrEmpty(p.policy)
    && OrEmpty(row.metadata) == OrEmpty(p.metadata)
  }

  function UpsertChallenge(t: ChallengeTable, k: ChallengeKey, p: Payload, now: int): (ChallengeTable, UpsertResult) {
    if k !in t then (t[k := StoredRow(p, now)], Created(StoredRow(p, now)))
    else if ComparesEqual(t[k], p) then (t, SamePayload(t[k]))
    else (t, Conflict)
  }

  /** The payload fields of a stored row. */
  function PayloadOf(c: Challenge): Payload {
    Payload(c.network, c.asset, c.amount, c.payTo, c.expiry, c.policy, c.metadata)
  }

  /** Same challenge as far as a merchant is concerned: equal up to the spelling of the network. */
  predicate SameUpToNetwork(p: Payload, q: Payload) {
    NetworksEquivalent(p.network, q.network) && p.(network := q.network, policy := OrEmpty(p.policy), metadata := OrEmpty(p.metadata))
                                                == q.(policy := OrEmpty(q.policy), metadata := OrEmpty(q.metadata))
  }

  /** All JSON of the payload lists its keys in read order: checkable before the call. */
  predicate PayloadInOrder(p: Payload) {
    InReadOrder(p.asset) && InReadOrder(OrEmpty(p.policy)) && InReadOrder(OrEmpty(p.metadata))
  }
}

/** What exact match and idempotent creation promise. */
module ChallengeLaws {
  import opened Text
  import opened Lists
  import opened NetworkId
  import opened Numerals
  import opened Json
  import opened JsValues
  import opened JsLaws
  import opened Challenges

  /** Each filter that is given narrows the selection by its own condition. */
  lemma FiltersNarrow(t: ChallengeTable, f: Filters)
    ensures SelectedKeys(t, f)
            == set k | k in SelectedKeys(t, f.(merchantId := "")) && (f.merchantId == "" || k.merchantId == f.merchantId)
    ensures SelectedKeys(t, f) == set k | k in SelectedKeys(t, f.(payTo := "")) && (f.payTo == "" || t[k].payTo == f.payTo)
    ensures SelectedKeys(t, f)
            == set k | k in SelectedKeys(t, f.(status := None)) && (f.status == None || t[k].status == f.status.value)
  {
    hide MemberText, NetworkCandidates;
  }

  /** Likewise the token's; without any filter every row is selected. */
  lemma TokenNarrows(t: ChallengeTable, f: Filters)
    ensures SelectedKeys(t, f)
            == set k | k in SelectedKeys(t, f.(tokenId := ""))
                       && (f.tokenId == "" || MemberText(t[k].asset, "tokenId") == Some(f.tokenId))
    ensures SelectedKeys(t, Filters("", "", [], "", "", None, f.limit)) == t.Keys
  {
    hide MemberText, NetworkCandidates;
  }

  /** The network filter: the candidates given, else the names of the network given, unless it has none. */
  lemma NetworkNarrows(t: ChallengeTable, f: Filters)
    ensures SelectedKeys(t, f)
            == set k | k in SelectedKeys(t, f.(network := "", candidates := []))
                       && (f.candidates != [] ==> t[k].network in f.candidates)
                       && (f.candidates == [] && !Blank(f.network) ==> IsNameOf(t[k].network, f.network))
  {
    NamesNormalize(f.network);
    NamesAreCandidates(f.network);
    hide MemberText, NetworkCandidates, NormalizeNetworkId, IsNameOf;
  }

  /** How long an answer is: 25 unless a limit is asked for, and never less than 1 or more than 100 unless rows run out. */
  lemma PageLength(t: ChallengeTable, f: Filters, res: seq<ChallengeKey>)
    requires IsSearchResult(t, f, res)
    ensures var n := |SelectedKeys(t, f)|;
            && (f.limit == None ==> |res| == Min(25, n))
            && (f.limit.Some? && 1 <= f.limit.value <= 100 ==> |res| == Min(f.limit.value, n))
            && (f.limit.Some? && f.limit.value < 1 ==> |res| == Min(1, n))
            && (f.limit.Some? && f.limit.value > 100 ==> |res| == Min(100, n))
  {
    hide Selected;
  }

  /** The selected rows at least as new as k's, and those strictly newer; k itself left out. */
  ghost function NotOlder(t: ChallengeTable, f: Filters, k: ChallengeKey): set<ChallengeKey>
    requires k in t
  {
    set j | j in SelectedKeys(t, f) && j != k && t[j].createdAt >= t[k].createdAt
  }

  ghost function Newer(t: ChallengeTable, f: Filters, k: ChallengeKey): set<ChallengeKey>
    requires k in t
  {
    set j | j in SelectedKeys(t, f) && j != k && t[j].createdAt > t[k].createdAt
  }

  lemma PageLacks(t: ChallengeTable, f: Filters, res: seq<ChallengeKey>, k: ChallengeKey)
    requires IsSearchResult(t, f, res) && k in SelectedKeys(t, f) && k !in res
    ensures |NotOlder(t, f, k)| >= EffectiveLimit(f)
  {
    hide Selected, Distinct, EffectiveLimit;
    forall j | j in AsSet(res) ensures j in NotOlder(t, f, k) {
      assert j in res;
    }
    UnlistedHasMany(res, SelectedKeys(t, f), k, NotOlder(t, f, k));
  }

  lemma PageHas(t: ChallengeTable, f: Filters, res: seq<ChallengeKey>, k: ChallengeKey)
    requires IsSearchResult(t, f, res) && k in res
    ensures k in t && |Newer(t, f, k)| < EffectiveLimit(f)
  {
    hide Selected, Distinct, EffectiveLimit;
    var i :| 0 <= i < |res| && res[i] == k;
    forall j | j in Newer(t, f, k) ensures j in AsSet(res) - {k} {
      assert j in res;
    }
    ListedHasFewer(res, k, Newer(t, f, k));
  }

  /**
   * When a selected row is on the page: surely if fewer than `limit` others are at least as new, and surely not
   * if `limit` others are newer. Without ties in creation time this is an if-and-only-if.
   */
  lemma PageMembership(t: ChallengeTable, f: Filters, res: seq<ChallengeKey>, k: ChallengeKey)
    requires IsSearchResult(t, f, res) && k in SelectedKeys(t, f)
    ensures |NotOlder(t, f, k)| < EffectiveLimit(f) ==> k in res
    ensures |Newer(t, f, k)| >= EffectiveLimit(f) ==> k !in res
  {
    hide IsSearchResult, NotOlder, Newer, EffectiveLimit;
    if k in res { PageHas(t, f, res, k); } else { PageLacks(t, f, res, k); }
  }

  /** With at most `limit` selected rows the page is all of them. */
  lemma WholePage(t: ChallengeTable, f: Filters, res: seq<ChallengeKey>)
    requires IsSearchResult(t, f, res) && |SelectedKeys(t, f)| <= EffectiveLimit(f)
    ensures AsSet(res) == SelectedKeys(t, f)
  {
    hide Selected;
    DistinctCount(res);
    SubsetCount(AsSet(res), SelectedKeys(t, f));
  }

  lemma {:induction false} FindExactWhere(t: ChallengeTable, rows: seq<ChallengeKey>, r: Request)
    requires forall i :: 0 <= i < |rows| ==> rows[i] in t
    ensures FindExact(t, rows, r).Some? <==> exists i :: 0 <= i < |rows| && ExactTuple(r, rows[i], t[rows[i]])
    ensures FindExact(t, rows, r).Some? ==>
              var k := FindExact(t, rows, r).value; k in rows && ExactTuple(r, k, t[k])
  {
    hide ExactTuple;
    if rows == [] {
    } else {
      FindExactWhere(t, rows[1..], r);
      if exists i :: 0 <= i < |rows| && ExactTuple(r, rows[i], t[rows[i]]) {
        var i :| 0 <= i < |rows| && ExactTuple(r, rows[i], t[rows[i]]);
        if i > 0 { assert rows[1..][i - 1] == rows[i]; }
      }
    }
  }

  lemma {:induction false} FindAliasWhere(t: ChallengeTable, rows: seq<ChallengeKey>, r: Request)
    requires forall i :: 0 <= i < |rows| ==> rows[i] in t
    ensures FindAlias(t, rows, r).Some? <==> exists i :: 0 <= i < |rows| && AliasTuple(r, rows[i], t[rows[i]])
    ensures FindAlias(t, rows, r).Some? ==>
              var k := FindAlias(t, rows, r).value; k in rows && AliasTuple(r, k, t[k])
  {
    hide AliasTuple;
    if rows == [] {
    } else {
      FindAliasWhere(t, rows[1..], r);
      if exists i :: 0 <= i < |rows| && AliasTuple(r, rows[i], t[rows[i]]) {
        var i :| 0 <= i < |rows| && AliasTuple(r, rows[i], t[rows[i]]);
        if i > 0 { assert rows[1..][i - 1] == rows[i]; }
      }
    }
  }

  /** The one row an exact match may return. */
  predicate HasTuple(t: ChallengeTable, r: Request) {
    && KeyFor(r) in t
    && ExactTuple(r, KeyFor(r), t[KeyFor(r)])
    && t[KeyFor(r)].payTo == r.payTo
  }

  /** The tuple, field by field: equal text, a name of the same network, and decimals that are the same number. */
  lemma TupleIff(t: ChallengeTable, r: Request)
    ensures HasTuple(t, r) <==>
              var k := ChallengeKey(r.merchantId, r.nonce);
              && k in t && t[k].amount == r.amount && t[k].payTo == r.payTo && IsNameOf(Trim(t[k].network), r.network)
              && Get(t[k].asset, "type") == Some(JStr(r.asset.kind)) && Get(t[k].asset, "tokenId") == Some(JStr(r.asset.tokenId))
              && ToNumber(Get(t[k].asset, "decimals")) == Some(r.asset.decimals)
  {
    NamesAreCandidates(r.network);
    hide NetworkCandidates, IsNameOf, Trim, ToNumber, Get;
  }

  /**
   * A returned row is the row of the request's (merchant, nonce), and it has the requested tuple up to the
   * spelling of the network. It is returned exactly when it is on the page.
   */
  lemma ExactMatchIsUnique(t: ChallengeTable, r: Request, rows: seq<ChallengeKey>)
    requires Complete(r) && IsSearchResult(t, MatchFilters(r), rows)
    ensures FindExact(t, rows, r) == (if HasTuple(t, r) && KeyFor(r) in rows then Some(KeyFor(r)) else None)
    ensures FindExact(t, rows, r).Some? ==> NetworksEquivalent(r.network, Trim(t[KeyFor(r)].network))
  {
    FindExactWhere(t, rows, r);
    forall i | 0 <= i < |rows| && ExactTuple(r, rows[i], t[rows[i]])
      ensures rows[i] == KeyFor(r) && t[rows[i]].payTo == r.payTo
    {
      assert Selected(MatchFilters(r), rows[i], t[rows[i]]);
    }
    if HasTuple(t, r) && KeyFor(r) in rows {
      var i :| 0 <= i < |rows| && rows[i] == KeyFor(r);
    }
    if FindExact(t, rows, r).Some? {
      CandidatesAreTheClass(r.network, Trim(t[KeyFor(r)].network));
    }
  }

  /** The rows one merchant has for one token and recipient. */
  function Shelf(t: ChallengeTable, r: Request): set<ChallengeKey> {
    set k | k in t && k.merchantId == r.merchantId && MemberText(t[k].asset, "tokenId") == Some(r.asset.tokenId)
            && t[k].payTo == r.payTo
  }

  lemma ShelfBounds(t: ChallengeTable, r: Request)
    requires Complete(r)
    ensures SelectedKeys(t, MatchFilters(r)) <= Shelf(t, r) && SelectedKeys(t, AliasFilters(r)) <= Shelf(t, r)
  {
  }

  lemma StringMember(j: Json, key: string, value: string)
    requires Get(j, key) == Some(JStr(value))
    ensures MemberText(j, key) == Some(value)
  {
  }

  /** A row with the tuple and a trimmed network passes both SQL filters. */
  lemma TupleIsSelected(t: ChallengeTable, r: Request)
    requires Complete(r) && HasTuple(t, r) && IsTrimmed(t[KeyFor(r)].network)
    ensures KeyFor(r) in SelectedKeys(t, MatchFilters(r)) && KeyFor(r) in SelectedKeys(t, AliasFilters(r))
  {
    hide MemberText, ToNumber, Trim, IsTrimmed, NormalizeNetworkId;
    var c := t[KeyFor(r)];
    StringMember(c.asset, "tokenId", r.asset.tokenId);
    TrimTrims(c.network);
    var n := NormalizeNetworkId(r.network);
    NormalizeIdempotent(r.network);
    if |NetworkCandidates(r.network)| == 1 {
      assert NetworkCandidates(r.network) == [n];
      assert NetworkCandidates(n) == NetworkCandidates(r.network);
    }
  }

  /** The search cap is 100 although the caller asks for 250: below it the match is always found. */
  lemma FoundWithinCap(t: ChallengeTable, r: Request, rows: seq<ChallengeKey>)
    requires Complete(r) && IsSearchResult(t, MatchFilters(r), rows)
    requires HasTuple(t, r) && IsTrimmed(t[KeyFor(r)].network)
    ensures |NotOlder(t, MatchFilters(r), KeyFor(r))| < 100 ==> FindExact(t, rows, r) == Some(KeyFor(r))
    ensures |Newer(t, MatchFilters(r), KeyFor(r))| >= 100 ==> FindExact(t, rows, r) == None
    ensures |Shelf(t, r)| <= 100 ==> FindExact(t, rows, r) == Some(KeyFor(r))
  {
    TupleIsSelected(t, r);
    PageMembership(t, MatchFilters(r), rows, KeyFor(r));
    ExactMatchIsUnique(t, r, rows);
    if |Shelf(t, r)| <= 100 {
      ShelfBounds(t, r);
      SubsetCount(SelectedKeys(t, MatchFilters(r)), Shelf(t, r));
      WholePage(t, MatchFilters(r), rows);
      assert KeyFor(r) in AsSet(rows);
    }
  }

  /** What POST /payments writes: a network in normal form and trimmed text in the asset. */
  predicate WrittenByCreate(c: Challenge) {
    && NormalizeNetworkId(c.network) == c.network
    && IsTrimmed(c.network)
    && (forall key :: key in {"type", "tokenId"} ==>
          match Get(c.asset, key) { case Some(JStr(s)) => IsTrimmed(s) case _ => true })
  }

  /** On such rows the two in-memory comparisons agree once the network is a candidate. */
  lemma TuplesAgree(r: Request, k: ChallengeKey, c: Challenge)
    requires WrittenByCreate(c)
    ensures ExactTuple(r, k, c) <==> AliasTuple(r, k, c) && c.network in NetworkCandidates(r.network)
  {
    hide NetworkCandidates, NormalizeNetworkId, Trim, IsTrimmed;
    TrimTrims(c.network);
    assert "type" in {"type", "tokenId"} && "tokenId" in {"type", "tokenId"};
    match Get(c.asset, "type") {
      case Some(JStr(s)) => TrimTrims(s);
      case _ =>
    }
    match Get(c.asset, "tokenId") {
      case Some(JStr(s)) => TrimTrims(s);
      case _ =>
    }
  }

  /**
   * POST match filters networks after the cap, the GET alias before it. On rows written by POST /payments, and
   * with at most 100 of them for the merchant, token and recipient, both return the same row.
   */
  lemma AliasAgrees(t: ChallengeTable, r: Request, rows: seq<ChallengeKey>, aliasRows: seq<ChallengeKey>)
    requires Complete(r) && NormalizeNetworkId(r.network) == r.network
    requires IsSearchResult(t, MatchFilters(r), rows) && IsSearchResult(t, AliasFilters(r), aliasRows)
    requires forall k :: k in Shelf(t, r) ==> WrittenByCreate(t[k])
    requires |Shelf(t, r)| <= 100
    ensures FindExact(t, rows, r) == FindAlias(t, aliasRows, r)
  {
    ShelfBounds(t, r);
    SubsetCount(SelectedKeys(t, AliasFilters(r)), Shelf(t, r));
    WholePage(t, AliasFilters(r), aliasRows);
    FindAliasWhere(t, aliasRows, r);
    ExactMatchIsUnique(t, r, rows);
    var k := KeyFor(r);
    forall i | 0 <= i < |aliasRows| && AliasTuple(r, aliasRows[i], t[aliasRows[i]])
      ensures aliasRows[i] == k && HasTuple(t, r)
    {
      AliasRowHasTuple(t, r, aliasRows[i]);
    }
    if HasTuple(t, r) {
      ExactRowIsShelved(t, r);
      TuplesAgree(r, k, t[k]);
      TupleIsSelected(t, r);
      FoundWithinCap(t, r, rows);
      assert k in AsSet(aliasRows);
      var i :| 0 <= i < |aliasRows| && aliasRows[i] == k;
    }
  }

  lemma ExactRowIsShelved(t: ChallengeTable, r: Request)
    requires HasTuple(t, r)
    ensures KeyFor(r) in Shelf(t, r)
  {
  }

  lemma AliasRowHasTuple(t: ChallengeTable, r: Request, k: ChallengeKey)
    requires Complete(r) && NormalizeNetworkId(r.network) == r.network
    requires k in SelectedKeys(t, AliasFilters(r)) && WrittenByCreate(t[k]) && AliasTuple(r, k, t[k])
    ensures k == KeyFor(r) && HasTuple(t, r)
  {
    assert Selected(AliasFilters(r), k, t[k]);
    CandidatesAreTheClass(r.network, r.network);
    assert NetworkCandidates(r.network) != [];
    TuplesAgree(r, k, t[k]);
  }

  /* ---------- idempotent creation ---------- */

  /**
   * Posting p and then q, with nothing in between, answers "same payload" exactly when q equals what a JSONB
   * column gives back for p, up to the spelling of the network; otherwise it is a conflict and changes nothing.
   */
  lemma RepostAnswers(t: ChallengeTable, k: ChallengeKey, p: Payload, q: Payload, now: int, later: int)
    requires k !in t
    ensures var (t1, r1) := UpsertChallenge(t, k, p, now);
            var (t2, r2) := UpsertChallenge(t1, k, q, later);
            && r1.Created? && t2 == t1
            && (r2 == SamePayload(t1[k]) || r2 == Conflict)
            && (r2.SamePayload? <==>
                SameUpToNetwork(p.(asset := ReadBack(p.asset), policy := ReadBack(OrEmpty(p.policy)),
                                   metadata := ReadBack(OrEmpty(p.metadata))), q))
  {
  }

  /** The row a first post stores: its payload, JSON as it reads back and null as {}, pending, without a receipt, created now. */
  lemma FirstPost(t: ChallengeTable, k: ChallengeKey, p: Payload, now: int)
    requires k !in t
    ensures var (t1, r) := UpsertChallenge(t, k, p, now);
            && r.Created? && t1 == t[k := r.row]
            && PayloadOf(r.row) == p.(asset := ReadBack(p.asset), policy := ReadBack(if p.policy == JNull then JObj([]) else p.policy),
                                      metadata := ReadBack(if p.metadata == JNull then JObj([]) else p.metadata))
            && r.row.status == Pending && r.row.receipt == None && r.row.createdAt == now
  {
    hide ReadBack;
  }

  /**
   * The promise "same nonce and identical payload, same outcome" is kept exactly for payloads whose JSON lists
   * its keys in read order; any other payload conflicts with itself.
   */
  lemma IdenticalRepostAccepted(t: ChallengeTable, k: ChallengeKey, p: Payload, now: int, later: int)
    requires k !in t
    ensures var (t1, _) := UpsertChallenge(t, k, p, now);
            UpsertChallenge(t1, k, p, later).1.SamePayload? <==> PayloadInOrder(p)
  {
    EquivalenceRelation(p.network, p.network, p.network);
    ReadBackFixedIff(p.asset);
    ReadBackFixedIff(OrEmpty(p.policy));
    ReadBackFixedIff(OrEmpty(p.metadata));
    NotNull(OrEmpty(p.policy));
    NotNull(OrEmpty(p.metadata));
  }

  lemma NotNull(j: Json)
    requires j != JNull
    ensures OrEmpty(ReadBack(j)) == ReadBack(j)
  {
  }

  /** { tokenId, type } is out of order; { type, tokenId, decimals }, which POST /payments writes, is in order. */
  lemma KeyOrderMatters(tokenId: Json, kind: Json, decimals: Json)
    ensures !InReadOrder(JObj([Field("tokenId", tokenId), Field("type", kind)]))
    ensures InReadOrder(kind) && InReadOrder(tokenId) && InReadOrder(decimals) ==>
              InReadOrder(JObj([Field("type", kind), Field("tokenId", tokenId), Field("decimals", decimals)]))
  {
    hide JsLess;
    ShorterFirst("type", "tokenId");
    ShorterFirst("tokenId", "decimals");
    ShorterFirst("type", "decimals");
    var f := [Field("tokenId", tokenId), Field("type", kind)];
    assert !JsLess(f[0].key, f[1].key);
    var g := [Field("type", kind), Field("tokenId", tokenId), Field("decimals", decimals)];
    assert g[0].key == "type" && g[1].key == "tokenId" && g[2].key == "decimals";
    assert JsIncreasing(g);
    assert g[0].value == kind && g[1].value == tokenId && g[2].value == decimals;
  }

  /** { "10": x, "b": y } is out of JSONB order, but the application reads it back as it wrote it. */
  lemma IndexKeysComeFirst(x: Json, y: Json)
    requires InReadOrder(x) && InReadOrder(y)
    ensures var j := JObj([Field("10", x), Field("b", y)]);
            !InJsonbOrder(j) && ReadBack(j) == j
  {
    var f := [Field("10", x), Field("b", y)];
    AsciiLength("10");
    AsciiLength("b");
    assert !KeyLess(f[0].key, f[1].key);
    TenIsIndex();
    assert !IsDigit('b');
    assert JsLess(f[0].key, f[1].key);
    assert JsIncreasing(f);
    assert forall i :: 0 <= i < |f| ==> InReadOrder(f[i].value);
    ReadBackFixedIff(JObj(f));
  }

  lemma TenIsIndex()
    ensures IsIndex("10")
  {
    var s := "10";
    assert s[..1] == "1" && s[..1][..0] == "";
    assert NatVal("1") == 1 && NatVal(s) == 10;
  }

  lemma ShorterFirst(a: string, b: string)
    requires forall i :: 0 <= i < |a| ==> a[i] as int < 0x80
    requires forall i :: 0 <= i < |b| ==> b[i] as int < 0x80
    requires 0 < |a| < |b| && !IsDigit(a[0]) && !IsDigit(b[0])
    ensures JsLess(a, b) && !JsLess(b, a)
  {
    AsciiLength(a);
    AsciiLength(b);
  }
}
