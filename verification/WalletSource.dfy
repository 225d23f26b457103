/** The wallet-proxy event source: src/worker/pltSource.concordium.ts. */
module WalletSource {
  import opened Text
  import opened Numerals
  import opened PltStore
  import opened Paging

  /** One account transaction as the wallet proxy reports it; absent or ill-typed fields are None. */
  datatype Tx = Tx(
    id: int,
    hash: Option<string>,
    blockHash: string,
    blockHeight: int,
    blockTime: int,
    tokenId: Option<string>,
    amount: Option<string>,
    source: Option<string>,
    destination: Option<string>
  )

  datatype NodeConfig = NodeConfig(network: string, genesisIndex: int, assetId: string, overlap: int)

  function TextOr(s: Option<string>, otherwise: string): string { if s.Some? then s.value else otherwise }

  /** A transfer of the watched token. */
  predicate Matches(cfg: NodeConfig, tx: Tx) {
    TextOr(tx.tokenId, "") == cfg.assetId && Trim(TextOr(tx.amount, "")) != ""
  }

  /** The same on the transaction's own fields: it names the token, and its amount is not blank. */
  predicate IsTransferOf(assetId: string, tx: Tx) {
    && (tx.tokenId == Some(assetId) || (tx.tokenId == None && assetId == ""))
    && tx.amount.Some? && !Blank(tx.amount.value)
  }

  lemma MatchesIff(cfg: NodeConfig, tx: Tx)
    ensures Matches(cfg, tx) <==> IsTransferOf(cfg.assetId, tx)
  {
    TrimBlank(TextOr(tx.amount, ""));
  }

  function TxHash(tx: Tx): string { TextOr(tx.hash, "id:" + IntText(tx.id)) }

  function EventOf(cfg: NodeConfig, tx: Tx): EventInput {
    EventInput(tx.blockHash, tx.blockHeight, TxHash(tx), 0, cfg.network, cfg.genesisIndex, true, "transfer",
               tx.source, tx.destination, TextOr(tx.amount, ""), cfg.assetId, tx.blockTime)
  }

  /** The event says what the transaction and the configuration say. */
  predicate Reports(cfg: NodeConfig, tx: Tx, e: EventInput) {
    && (if tx.hash.Some? then e.txHash == tx.hash.value else e.txHash == "id:" + IntText(tx.id)) && e.eventIndex == 0
    && e.network == cfg.network && e.genesisIndex == cfg.genesisIndex && e.assetId == cfg.assetId
    && Some(e.amountRaw) == tx.amount && e.fromAddress == tx.source && e.toAddress == tx.destination
    && e.eventType == "transfer" && e.finalized
    && e.blockHash == tx.blockHash && e.blockHeight == tx.blockHeight && e.occurredAt == tx.blockTime
  }

  /** The transfers of a token in a history after the cursor `low`, up to and including `high`. */
  function Transfers(assetId: string, txs: seq<Tx>, low: int, high: int): seq<Tx> {
    if txs == [] then []
    else
      var n := |txs| - 1;
      Transfers(assetId, txs[..n], low, high)
      + (if low < txs[n].id <= high && IsTransferOf(assetId, txs[n]) then [txs[n]] else [])
  }

  /** One event for each transaction, in order. */
  predicate ReportsAll(cfg: NodeConfig, txs: seq<Tx>, events: seq<EventInput>) {
    |events| == |txs| && forall i :: 0 <= i < |txs| ==> Reports(cfg, txs[i], events[i])
  }

  function Ids(chain: seq<Tx>): (ids: seq<int>)
    ensures |ids| == |chain| && forall i :: 0 <= i < |chain| ==> ids[i] == chain[i].id
  {
    seq(|chain|, i requires 0 <= i < |chain| => chain[i].id)
  }

  /** An account's history in the order the proxy lists it; its ids start from 1. */
  predicate Ordered(chain: seq<Tx>) {
    Increasing(Ids(chain)) && forall i :: 0 <= i < |chain| ==> chain[i].id > 0
  }

  /** The transactions after the cursor `low`, up to and including `high`. */
  function Between(chain: seq<Tx>, low: int, high: int): seq<Tx> {
    var l, h := Upto(Ids(chain), low), Upto(Ids(chain), high);
    if l <= h then chain[l..h] else []
  }

  /** The proxy's answer: the first LIMIT transactions with a greater id, ascending. */
  function Answer(chain: seq<Tx>, from: int): seq<Tx> {
    chain[Upto(Ids(chain), from)..PageEnd(Ids(chain), from, LIMIT)]
  }

  lemma AnswerIds(chain: seq<Tx>, from: int)
    requires Ordered(chain)
    ensures Ids(Answer(chain, from)) == Page(Ids(chain), from, LIMIT)
  {
    PageIsSlice(Ids(chain), from, LIMIT);
  }

  /** `txs.filter(tx => tx.id > last)`. */
  function Newer(txs: seq<Tx>, last: int): seq<Tx> {
    if txs == [] then []
    else
      var n := |txs| - 1;
      Newer(txs[..n], last) + (if txs[n].id > last then [txs[n]] else [])
  }

  /** The events of the matching transactions, in order. */
  function EventsIn(cfg: NodeConfig, txs: seq<Tx>): seq<EventInput> {
    if txs == [] then []
    else
      var n := |txs| - 1;
      EventsIn(cfg, txs[..n]) + (if Matches(cfg, txs[n]) then [EventOf(cfg, txs[n])] else [])
  }

  /** Of a page whose first k transactions are read already, the rest is new. */
  lemma {:induction false} NewerIsRest(txs: seq<Tx>, k: nat, last: int)
    requires k <= |txs|
    requires forall i :: 0 <= i < |txs| ==> (i < k <==> txs[i].id <= last)
    ensures Newer(txs, last) == txs[k..]
  {
    if txs == [] {
    } else {
      var n := |txs| - 1;
      if k <= n {
        NewerIsRest(txs[..n], k, last);
        assert txs[n].id > last;
        assert txs[k..] == txs[..n][k..] + [txs[n]];
      } else {
        NewerIsRest(txs[..n], n, last);
        assert txs[n].id <= last;
        assert txs[..n][n..] == [] && txs[k..] == [];
      }
    }
  }

  /** The cursor one call returns, in terms of the history alone. */
  function BestAfter(cfg: NodeConfig, chain: seq<Tx>, last: int): int {
    Advance(Ids(chain), last, cfg.overlap, LIMIT)
  }

  /** The events one call returns: those of everything between the old cursor and the new one. */
  function EventsAfter(cfg: NodeConfig, chain: seq<Tx>, last: int): seq<EventInput> {
    EventsIn(cfg, Between(chain, last, BestAfter(cfg, chain, last)))
  }

  lemma NewInSlice(chain: seq<Tx>, u: nat, v: nat, e: nat, last: int)
    requires u <= v <= |chain| && u <= e <= |chain|
    requires forall i :: 0 <= i < |chain| ==> (i < v <==> chain[i].id <= last)
    ensures Newer(chain[u..e], last) == if v <= e then chain[v..e] else []
  {
    NewerIsRest(chain[u..e], if v <= e then v - u else e - u, last);
    if v <= e { assert chain[u..e][v - u..] == chain[v..e]; }
  }

  /** The new transactions of the answer are exactly those between the old cursor and the new one. */
  lemma NewerIsBetween(chain: seq<Tx>, last: int, overlap: int)
    requires Ordered(chain)
    ensures var best := Advance(Ids(chain), last, overlap, LIMIT);
            && best >= last
            && Newer(Answer(chain, CursorFrom(last, overlap)), last) == Between(chain, last, best)
  {
    hide Upto, Advance, Newer, CursorFrom, PageEnd;
    var ids, from := Ids(chain), CursorFrom(last, overlap);
    AdvanceReads(ids, last, overlap, LIMIT);
    Window(ids, last, overlap);
    UptoSplits(ids, last);
    NewInSlice(chain, Upto(ids, from), Upto(ids, last), PageEnd(ids, from, LIMIT), last);
  }

  /** The first loop: the greatest id seen, starting from the cursor. */
  method BestId(txs: seq<Tx>, last: int) returns (best: int)
    ensures best == BestOf(Ids(txs), last)
  {
    best := last;
    ghost var ids := Ids(txs);
    for i := 0 to |txs|
      invariant best == BestOf(ids[..i], last)
    {
      assert ids[..i + 1][..i] == ids[..i];
      if txs[i].id > best { best := txs[i].id; }
    }
    assert ids[..|txs|] == ids;
  }

  /** The filter: only what is strictly past the cursor. */
  method NewTransactions(txs: seq<Tx>, last: int) returns (newTxs: seq<Tx>)
    ensures newTxs == Newer(txs, last)
  {
    newTxs := [];
    for i := 0 to |txs|
      invariant newTxs == Newer(txs[..i], last)
    {
      assert txs[..i + 1][..i] == txs[..i];
      if txs[i].id > last { newTxs := newTxs + [txs[i]]; }
    }
    assert txs[..|txs|] == txs;
  }

  /** The last loop: an event for each transfer of the token, skipping the rest. */
  method Extract(cfg: NodeConfig, txs: seq<Tx>) returns (events: seq<EventInput>)
    ensures events == EventsIn(cfg, txs)
    ensures forall low, high :: (forall i :: 0 <= i < |txs| ==> low < txs[i].id <= high) ==>
              ReportsAll(cfg, Transfers(cfg.assetId, txs, low, high), events)
  {
    hide Matches, EventOf, ReportsAll, Transfers, Reports;
    events := [];
    for i := 0 to |txs|
      invariant events == EventsIn(cfg, txs[..i])
    {
      assert txs[..i + 1][..i] == txs[..i];
      if !Matches(cfg, txs[i]) { continue; }
      events := events + [EventOf(cfg, txs[i])];
    }
    assert txs[..|txs|] == txs;
    forall low, high | forall i :: 0 <= i < |txs| ==> low < txs[i].id <= high
      ensures ReportsAll(cfg, Transfers(cfg.assetId, txs, low, high), events)
    {
      assert txs[0..|txs|] == txs;
      EventsReport(cfg, txs, 0, |txs|, low, high);
    }
  }

  /** The events of a slice report its transfers. */
  lemma {:induction false} EventsReport(cfg: NodeConfig, chain: seq<Tx>, l: nat, h: nat, low: int, high: int)
    requires l <= h <= |chain|
    requires forall i :: 0 <= i < |chain| ==> (l <= i < h <==> low < chain[i].id <= high)
    ensures ReportsAll(cfg, Transfers(cfg.assetId, chain, low, high), EventsIn(cfg, chain[l..h]))
    decreases |chain|
  {
    hide Matches, IsTransferOf, ReportsAll, EventOf;
    if chain == [] {
      NothingReports(cfg);
      assert chain[l..h] == [];
    } else {
      var n := |chain| - 1;
      if h <= n {
        assert !(low < chain[n].id <= high);
        assert Transfers(cfg.assetId, chain, low, high) == Transfers(cfg.assetId, chain[..n], low, high);
        EventsReport(cfg, chain[..n], l, h, low, high);
        assert chain[..n][l..h] == chain[l..h];
      } else if l == h {
        assert !(low < chain[n].id <= high);
        assert Transfers(cfg.assetId, chain, low, high) == Transfers(cfg.assetId, chain[..n], low, high);
        EventsReport(cfg, chain[..n], n, n, low, high);
        assert chain[..n][n..n] == chain[l..h];
      } else {
        EventsReport(cfg, chain[..n], l, n, low, high);
        assert chain[l..h][..n - l] == chain[..n][l..n] && chain[l..h][n - l] == chain[n];
        MatchesIff(cfg, chain[n]);
        var txs, events := Transfers(cfg.assetId, chain[..n], low, high), EventsIn(cfg, chain[..n][l..n]);
        assert low < chain[n].id <= high;
        if IsTransferOf(cfg.assetId, chain[n]) {
          OneMoreReport(cfg, txs, events, chain[n]);
          assert EventsIn(cfg, chain[l..h]) == events + [EventOf(cfg, chain[n])];
        } else {
          assert Transfers(cfg.assetId, chain, low, high) == txs && EventsIn(cfg, chain[l..h]) == events;
        }
      }
    }
  }

  lemma NothingReports(cfg: NodeConfig)
    ensures ReportsAll(cfg, [], [])
  {
  }

  lemma OneMoreReport(cfg: NodeConfig, txs: seq<Tx>, events: seq<EventInput>, tx: Tx)
    requires ReportsAll(cfg, txs, events) && IsTransferOf(cfg.assetId, tx)
    ensures ReportsAll(cfg, txs + [tx], events + [EventOf(cfg, tx)])
  {
    hide Reports;
    assert Reports(cfg, tx, EventOf(cfg, tx)) by { OneReport(cfg, tx); }
  }

  lemma OneReport(cfg: NodeConfig, tx: Tx)
    requires IsTransferOf(cfg.assetId, tx)
    ensures Reports(cfg, tx, EventOf(cfg, tx))
  {
  }

  lemma FetchReports(cfg: NodeConfig, chain: seq<Tx>, last: int)
    requires Ordered(chain)
    ensures var best := BestAfter(cfg, chain, last);
            ReportsAll(cfg, Transfers(cfg.assetId, chain, last, best), EventsAfter(cfg, chain, last))
  {
    hide Upto, Advance, ReportsAll, Transfers, EventsIn;
    var ids, best := Ids(chain), BestAfter(cfg, chain, last);
    AdvanceReads(ids, last, cfg.overlap, LIMIT);
    UptoSplits(ids, last);
    UptoSplits(ids, best);
    EventsReport(cfg, chain, Upto(ids, last), Upto(ids, best), last, best);
  }

  /** fetchSince: the best id of the page, and the events of the new transactions in it. */
  method FetchSince(cfg: NodeConfig, chain: seq<Tx>, last: int) returns (events: seq<EventInput>, best: int)
    requires Ordered(chain)
    ensures best == BestAfter(cfg, chain, last) && events == EventsAfter(cfg, chain, last)
    ensures ReportsAll(cfg, Transfers(cfg.assetId, chain, last, best), events)
  {
    hide Upto, PageEnd, Answer, BestOf, Newer, EventsIn, ReportsAll, Transfers;
    FetchReports(cfg, chain, last);
    var from := CursorFrom(last, cfg.overlap);
    var txs := Answer(chain, from);
    AnswerIds(chain, from);
    best := BestId(txs, last);
    NewerIsBetween(chain, last, cfg.overlap);
    var newTxs := NewTransactions(txs, last);
    events := Extract(cfg, newTxs);
  }

  lemma {:induction false} EventsOfSum(cfg: NodeConfig, a: seq<Tx>, b: seq<Tx>)
    ensures EventsIn(cfg, a + b) == EventsIn(cfg, a) + EventsIn(cfg, b)
  {
    if b == [] {
      assert a + b == a;
    } else {
      var n := |b| - 1;
      EventsOfSum(cfg, a, b[..n]);
      assert (a + b)[..|a| + n] == a + b[..n];
    }
  }

  /** A wider overlap never gets further. */
  lemma OverlapReadsLess(ids: seq<int>, last: int, overlap: int)
    requires Readable(ids, last)
    ensures var best, plain := Advance(ids, last, overlap, LIMIT), Advance(ids, last, 0, LIMIT);
            last <= best <= plain && Upto(ids, last) <= Upto(ids, best) <= Upto(ids, plain)
  {
    hide Advance, Upto;
    AdvanceReads(ids, last, overlap, LIMIT);
    AdvanceReads(ids, last, 0, LIMIT);
    Window(ids, last, overlap);
    Window(ids, last, 0);
    var e, f := PageEnd(ids, CursorFrom(last, overlap), LIMIT), PageEnd(ids, CursorFrom(last, 0), LIMIT);
    assert e <= f;
    assert e > Upto(ids, last) ==> At(ids, e - 1) <= At(ids, f - 1);
  }

  /** Widening the overlap only shortens the answer: its events are a prefix of those fetched with no overlap. */
  lemma OverlapGivesPrefix(cfg: NodeConfig, chain: seq<Tx>, last: int)
    requires Ordered(chain)
    ensures var plain := cfg.(overlap := 0);
            && BestAfter(cfg, chain, last) <= BestAfter(plain, chain, last)
            && EventsAfter(cfg, chain, last) <= EventsAfter(plain, chain, last)
  {
    var best, plainBest := BestAfter(cfg, chain, last), BestAfter(cfg.(overlap := 0), chain, last);
    hide Advance, Upto, EventsIn;
    OverlapReadsLess(Ids(chain), last, cfg.overlap);
    var v, e, f := Upto(Ids(chain), last), Upto(Ids(chain), best), Upto(Ids(chain), plainBest);
    assert chain[v..f] == chain[v..e] + chain[e..f];
    EventsOfSum(cfg, chain[v..e], chain[e..f]);
    EventsIgnoreOverlap(cfg, chain[v..f]);
  }

  lemma {:induction false} EventsIgnoreOverlap(cfg: NodeConfig, txs: seq<Tx>)
    ensures EventsIn(cfg.(overlap := 0), txs) == EventsIn(cfg, txs)
  {
    if txs == [] {
    } else {
      EventsIgnoreOverlap(cfg, txs[..|txs| - 1]);
    }
  }

  /** Membership both ways: an event is fetched exactly for each matching transaction. */
  lemma {:induction false} EventsAreMatches(cfg: NodeConfig, txs: seq<Tx>)
    ensures forall tx :: tx in txs && Matches(cfg, tx) ==> EventOf(cfg, tx) in EventsIn(cfg, txs)
    ensures forall e :: e in EventsIn(cfg, txs) ==> exists tx :: tx in txs && Matches(cfg, tx) && e == EventOf(cfg, tx)
  {
    if txs == [] {
    } else {
      var n := |txs| - 1;
      EventsAreMatches(cfg, txs[..n]);
      assert txs == txs[..n] + [txs[n]];
    }
  }
}
