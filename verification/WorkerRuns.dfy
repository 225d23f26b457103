/** What holds of every run of the ingestion worker, and the imperative worker that performs such runs. */
module WorkerRuns {
  import opened Text
  import opened PltStore
  import opened Numerals
  import opened Lists
  import opened Paging
  import opened WalletSource
  import opened Worker

  lemma {:induction false} RunKeeps(cfg: Config, steps: seq<Step>, w: World)
    requires Plain(cfg) && Inv(cfg, w) && IsRun(cfg, steps, w)
    ensures Inv(cfg, Exec(cfg, steps, w))
  {
    hide Inv, Plain, Enabled, Apply;
    if steps == [] {
    } else {
      StepKeeps(cfg, steps[0], w);
      RunKeeps(cfg, steps[1..], Apply(cfg, steps[0], w));
    }
  }

  lemma EmptyIsFine(cfg: Config)
    ensures Inv(cfg, EMPTY)
  {
  }

  /** The key a transaction's row has: its hash, or its id where the proxy gives no hash. */
  function RowKey(tx: Tx): EventKey { EventKey(if tx.hash.Some? then tx.hash.value else "id:" + IntText(tx.id), 0) }

  lemma RowKeyIs(node: NodeConfig, tx: Tx)
    ensures KeyFor(node, tx) == RowKey(tx) && (Matches(node, tx) <==> IsTransferOf(node.assetId, tx))
  {
    hide Trim, IsTransferOf;
    MatchesIff(node, tx);
  }

  /** A row's columns say what the transaction and the worker's configuration say. */
  predicate Says(node: NodeConfig, tx: Tx, k: EventKey, row: PltEvent) {
    && k == RowKey(tx)
    && row.network == node.network && row.genesisIndex == node.genesisIndex && row.assetId == node.assetId
    && tx.amount.Some? && IsSigned(tx.amount.value) && row.amountRaw == IntVal(tx.amount.value)
    && row.fromAddress == tx.source && row.toAddress == tx.destination && row.eventType == "transfer"
    && row.blockHash == tx.blockHash && row.blockHeight == tx.blockHeight && row.occurredAt == tx.blockTime && row.finalized
  }

  lemma RowSays(node: NodeConfig, tx: Tx)
    requires IsSigned(TextOr(tx.amount, ""))
    ensures Says(node, tx, KeyFor(node, tx), RowOf(EventOf(node, tx)))
  {
  }

  /**
   * Crash-safe ingestion. However the run interleaves growth, other programs' inserts, ticks, crashes and restarts:
   * once a cursor is stored it is positive and not ahead of the chain; a transfer of the watched token after `since`
   * and up to the stored cursor has its row; no other transaction has that row's key; and unless another program wrote
   * it first, the row's content is the transaction's.
   */
  lemma GapFree(cfg: Config, steps: seq<Step>, tx: Tx)
    requires Plain(cfg) && IsRun(cfg, steps, EMPTY)
    requires var w := Exec(cfg, steps, EMPTY);
             w.stored.Some? && tx in w.chain && w.since < tx.id <= w.stored.value && IsTransferOf(cfg.node.assetId, tx)
    ensures var w := Exec(cfg, steps, EMPTY);
            var k := RowKey(tx);
            && 0 < w.stored.value <= Latest(w.chain)
            && k in w.table
            && (forall other :: other in w.chain && RowKey(other) == k ==> other == tx)
            && (k !in w.others ==> Says(cfg.node, tx, k, w.table[k]))
  {
    EmptyIsFine(cfg);
    RunKeeps(cfg, steps, EMPTY);
    RowKeyIs(cfg.node, tx);
    OneTxPerKey(cfg, Exec(cfg, steps, EMPTY), tx);
  }

  lemma OneTxPerKey(cfg: Config, w: World, tx: Tx)
    requires Inv(cfg, w) && tx in w.chain && RowKey(tx) in w.table
    ensures var k := RowKey(tx);
            && (forall other :: other in w.chain && RowKey(other) == k ==> other == tx)
            && (k !in w.others ==> Says(cfg.node, tx, k, w.table[k]))
  {
    hide Matches, RowOf, TxHash, Ordered, IsSigned, Says, RowKey;
    var i :| 0 <= i < |w.chain| && w.chain[i] == tx;
    RowKeyIs(cfg.node, tx);
    forall other | other in w.chain && RowKey(other) == RowKey(tx) ensures other == tx {
      var j :| 0 <= j < |w.chain| && w.chain[j] == other;
      RowKeyIs(cfg.node, other);
      assert TxHash(w.chain[i]) == TxHash(w.chain[j]);
    }
    var k := RowKey(tx);
    if k !in w.others {
      assert IsRowOf(cfg.node, w.chain, k, w.table[k]);
      var source :| source in w.chain && Matches(cfg.node, source) && IsSigned(TextOr(source.amount, ""))
             && k == KeyFor(cfg.node, source) && w.table[k] == RowOf(EventOf(cfg.node, source));
      RowKeyIs(cfg.node, source);
      RowSays(cfg.node, source);
    }
  }

  /** And nothing else: over every run, each row that no other program wrote is a transfer of the watched token. */
  lemma OnlyTransfers(cfg: Config, steps: seq<Step>, k: EventKey)
    requires Plain(cfg) && IsRun(cfg, steps, EMPTY)
    requires var w := Exec(cfg, steps, EMPTY); k in w.table && k !in w.others
    ensures var w := Exec(cfg, steps, EMPTY);
            exists tx :: tx in w.chain && IsTransferOf(cfg.node.assetId, tx) && Says(cfg.node, tx, k, w.table[k])
  {
    hide Matches, RowOf, TxHash, Ordered, IsSigned, Says, KeyFor, EventOf;
    EmptyIsFine(cfg);
    RunKeeps(cfg, steps, EMPTY);
    var w := Exec(cfg, steps, EMPTY);
    assert IsRowOf(cfg.node, w.chain, k, w.table[k]);
    RowIsTransfer(cfg.node, w.chain, k, w.table[k]);
  }

  lemma RowIsTransfer(node: NodeConfig, chain: seq<Tx>, k: EventKey, row: PltEvent)
    requires IsRowOf(node, chain, k, row)
    ensures exists tx :: tx in chain && IsTransferOf(node.assetId, tx) && Says(node, tx, k, row)
  {
    hide Matches, Says, IsSigned, RowOf;
    var tx :| tx in chain && Matches(node, tx) && IsSigned(TextOr(tx.amount, ""))
           && k == KeyFor(node, tx) && row == RowOf(EventOf(node, tx));
    RowKeyIs(node, tx);
    RowSays(node, tx);
  }

  /** With zero meaning genesis nothing is skipped: coverage starts at the first transaction. */
  lemma GenesisIsComplete(cfg: Config, steps: seq<Step>, tx: Tx)
    requires Plain(cfg) && cfg.zeroIsGenesis && IsRun(cfg, steps, EMPTY)
    requires var w := Exec(cfg, steps, EMPTY);
             w.stored.Some? && tx in w.chain && tx.id <= w.stored.value && IsTransferOf(cfg.node.assetId, tx)
    ensures RowKey(tx) in Exec(cfg, steps, EMPTY).table
  {
    RowKeyIs(cfg.node, tx);
    EmptyIsFine(cfg);
    RunKeeps(cfg, steps, EMPTY);
    var w := Exec(cfg, steps, EMPTY);
    LatestIsGreatest(w.chain);
  }

  /** What no step of the worker undoes. */
  ghost predicate Later(a: World, b: World) {
    && (a.stored.Some? ==> b.stored.Some? && a.stored.value <= b.stored.value && a.since == b.since)
    && Appends(a.chain, b.chain)
    && (forall k :: k in a.table ==> k in b.table && b.table[k] == a.table[k])
  }

  lemma StepGoesOn(cfg: Config, step: Step, w: World)
    requires Enabled(cfg, step, w) && cfg.startOverride.None?
    ensures Later(w, Apply(cfg, step, w))
  {
    hide WellFormed, Keys, EventsAfter, BestAfter, Latest;
    match step
    case Insert => InsertKeys(w.table, w.proc.events);
    case Foreign(rows) => InsertKeys(w.table, rows);
    case _ =>
  }

  /**
   * In every run without an override, whatever the other settings, from any state: the stored cursor never decreases,
   * `since` never moves once it is set, and no event row is changed or removed.
   */
  lemma {:induction false} NeverGoesBack(cfg: Config, steps: seq<Step>, w: World)
    requires cfg.startOverride.None? && IsRun(cfg, steps, w)
    ensures Later(w, Exec(cfg, steps, w))
  {
    hide Enabled, Apply;
    if steps == [] {
    } else {
      StepGoesOn(cfg, steps[0], w);
      NeverGoesBack(cfg, steps[1..], Apply(cfg, steps[0], w));
    }
  }

  /**
   * When the guard does fire, it lowers only the cursor in memory: with a rewind that is not negative the stored
   * cursor stays where it was, so every restart clamps again until the chain has caught up.
   */
  lemma ClampIsNotStored(cfg: Config, stored: int, latest: int)
    requires cfg.startOverride.None? && cfg.maxAheadGuard >= 0 && cfg.rewindOnClamp >= 0
    requires latest > 0 && Clamps(cfg, stored, latest)
    ensures var (start, kept) := ResolveStart(cfg, Some(stored), latest);
            start <= latest < stored && kept == Some(stored)
  {
  }

  /* ---------- dry runs ---------- */

  /** In a dry run the worker writes no event row: the table holds only what others wrote. */
  lemma {:induction false} DryRunWritesNoRow(cfg: Config, steps: seq<Step>, w: World)
    requires cfg.dryRun && IsRun(cfg, steps, w) && w.table.Keys == w.others
    ensures Exec(cfg, steps, w).table.Keys == Exec(cfg, steps, w).others
  {
    hide Keys, WellFormed, EventsAfter, BestAfter, ResolveStart;
    if steps == [] {
    } else {
      if steps[0].Foreign? { InsertKeys(w.table, steps[0].rows); }
      DryRunWritesNoRow(cfg, steps[1..], Apply(cfg, steps[0], w));
    }
  }

  /* ---------- ticks ---------- */

  /** One turn of the loop, the account's history having grown to `history` meanwhile. */
  function Tick(history: seq<Tx>): seq<Step> { [Grow(history), Fetch, Insert, Persist] }

  /** The history after the last of the views. */
  function Now(chain: seq<Tx>, views: seq<seq<Tx>>): seq<Tx> {
    if views == [] then chain else views[|views| - 1]
  }

  /** A history for each tick, each extending the one before. */
  predicate Growing(node: NodeConfig, chain: seq<Tx>, views: seq<seq<Tx>>) {
    views == [] ||
    var front := views[..|views| - 1];
    Growing(node, chain, front) && WellFormed(node, Now(chain, views)) && Appends(Now(chain, front), Now(chain, views))
  }

  function Ticks(views: seq<seq<Tx>>): seq<Step> {
    if views == [] then [] else Ticks(views[..|views| - 1]) + Tick(views[|views| - 1])
  }

  lemma {:induction false} ExecConcat(cfg: Config, a: seq<Step>, b: seq<Step>, w: World)
    requires IsRun(cfg, a, w) && IsRun(cfg, b, Exec(cfg, a, w))
    ensures IsRun(cfg, a + b, w) && Exec(cfg, a + b, w) == Exec(cfg, b, Exec(cfg, a, w))
  {
    hide Enabled, Apply;
    if a == [] {
      assert a + b == b;
    } else {
      ExecConcat(cfg, a[1..], b, Apply(cfg, a[0], w));
      assert (a + b)[1..] == a[1..] + b;
    }
  }

  /** The state after a tick. */
  function AfterTick(cfg: Config, history: seq<Tx>, w: World): World
    requires w.proc.Idle? && IntegerAmounts(EventsAfter(cfg.node, history, w.proc.cursor))
  {
    var cursor := w.proc.cursor;
    var best := BestAfter(cfg.node, history, cursor);
    var table := if cfg.dryRun then w.table else InsertAll(w.table, EventsAfter(cfg.node, history, cursor));
    Advanced(cfg, w.(chain := history, table := table, proc := Inserted(cursor, best)))
  }

  lemma EventsAreIntegers(node: NodeConfig, history: seq<Tx>, cursor: int)
    requires WellFormed(node, history)
    ensures IntegerAmounts(EventsAfter(node, history, cursor))
  {
    hide EventsIn, IntegerAmounts, Ordered, Matches, TxHash, Between;
    var txs := Between(history, cursor, BestAfter(node, history, cursor));
    BetweenIs(history, cursor, BestAfter(node, history, cursor));
    MatchesAreGood(node, history, txs);
  }

  lemma TickRuns(cfg: Config, history: seq<Tx>, w: World)
    requires w.proc.Idle? && WellFormed(cfg.node, history) && Appends(w.chain, history)
    ensures IntegerAmounts(EventsAfter(cfg.node, history, w.proc.cursor))
    ensures IsRun(cfg, Tick(history), w) && Exec(cfg, Tick(history), w) == AfterTick(cfg, history, w)
  {
    hide WellFormed, EventsAfter, BestAfter, IntegerAmounts, InsertAll, IsRun, Exec;
    EventsAreIntegers(cfg.node, history, w.proc.cursor);
    var w1 := Apply(cfg, Grow(history), w);
    var w2 := Apply(cfg, Fetch, w1);
    var w3 := Apply(cfg, Insert, w2);
    OneStep(cfg, Persist, [], w3);
    OneStep(cfg, Insert, [Persist], w2);
    OneStep(cfg, Fetch, [Insert, Persist], w1);
    OneStep(cfg, Grow(history), [Fetch, Insert, Persist], w);
    assert [Persist] + [] == [Persist];
    assert [Insert] + [Persist] == [Insert, Persist];
    assert [Fetch] + [Insert, Persist] == [Fetch, Insert, Persist];
    assert [Grow(history)] + [Fetch, Insert, Persist] == Tick(history);
    Done(cfg, Apply(cfg, Persist, w3));
  }

  lemma Done(cfg: Config, w: World)
    ensures IsRun(cfg, [], w) && Exec(cfg, [], w) == w
  {
  }

  lemma OneStep(cfg: Config, step: Step, rest: seq<Step>, w: World)
    requires Enabled(cfg, step, w)
    ensures IsRun(cfg, [step] + rest, w) == IsRun(cfg, rest, Apply(cfg, step, w))
    ensures IsRun(cfg, rest, Apply(cfg, step, w)) ==>
              Exec(cfg, [step] + rest, w) == Exec(cfg, rest, Apply(cfg, step, w))
  {
    hide Enabled, Apply;
    assert ([step] + rest)[1..] == rest;
  }

  /** Any number of ticks is a run, and ends idle. */
  lemma {:induction false} TicksRun(cfg: Config, views: seq<seq<Tx>>, w: World)
    requires w.proc.Idle? && Growing(cfg.node, w.chain, views)
    ensures IsRun(cfg, Ticks(views), w)
    ensures Exec(cfg, Ticks(views), w).proc.Idle?
    ensures Exec(cfg, Ticks(views), w).chain == Now(w.chain, views)
  {
    hide WellFormed, IsRun, Exec, Appends, EventsAfter, BestAfter;
    Done(cfg, w);
    if views == [] {
    } else {
      var n := |views| - 1;
      TicksRun(cfg, views[..n], w);
      var before := Exec(cfg, Ticks(views[..n]), w);
      TickRuns(cfg, views[n], before);
      ExecConcat(cfg, Ticks(views[..n]), Tick(views[n]), w);
    }
  }

  /** The last of several ticks. */
  lemma LastTick(cfg: Config, views: seq<seq<Tx>>, w: World)
    requires w.proc.Idle? && views != [] && Growing(cfg.node, w.chain, views)
    ensures var n := |views| - 1;
            && IsRun(cfg, Ticks(views[..n]), w) && IsRun(cfg, Ticks(views), w)
            && var before := Exec(cfg, Ticks(views[..n]), w);
            && before.proc.Idle? && IntegerAmounts(EventsAfter(cfg.node, views[n], before.proc.cursor))
            && Exec(cfg, Ticks(views), w) == AfterTick(cfg, views[n], before)
  {
    hide WellFormed, IsRun, Exec, Appends, EventsAfter, BestAfter;
    var n := |views| - 1;
    TicksRun(cfg, views[..n], w);
    TicksRun(cfg, views, w);
    var before := Exec(cfg, Ticks(views[..n]), w);
    TickRuns(cfg, views[n], before);
    ExecConcat(cfg, Ticks(views[..n]), Tick(views[n]), w);
  }

  /**
   * Progress. With an overlap of at most 99, n ticks read at least n * Fresh(overlap) of the transactions that were
   * unread at the start, however the history grows meanwhile.
   */
  lemma {:induction false} TicksDrain(cfg: Config, views: seq<seq<Tx>>, w: World)
    requires w.proc.Idle? && w.proc.cursor >= 0 && WellFormed(cfg.node, w.chain) && Growing(cfg.node, w.chain, views)
    requires cfg.node.overlap <= 99
    ensures IsRun(cfg, Ticks(views), w) && Exec(cfg, Ticks(views), w).proc.Idle?
    ensures var ids := Ids(w.chain);
            var c := Exec(cfg, Ticks(views), w).proc.cursor;
            c >= w.proc.cursor && Upto(ids, c) >= Min(|ids|, Upto(ids, w.proc.cursor) + |views| * Fresh(cfg.node.overlap))
  {
    hide WellFormed, IsRun, Exec, Upto, Fresh, EventsAfter, IntegerAmounts, InsertAll, Fresh, Paging.Advance;
    TicksRun(cfg, views, w);
    if views == [] {
      Done(cfg, w);
    } else {
      var n := |views| - 1;
      TicksDrain(cfg, views[..n], w);
      LastTick(cfg, views, w);
      OrderedOf(cfg.node, w.chain);
      GrewFrom(cfg.node, w.chain, views);
      var before := Exec(cfg, Ticks(views[..n]), w);
      var ids := Ids(w.chain);
      DrainStep(ids, Ids(views[n]), before.proc.cursor, cfg.node.overlap,
                Upto(ids, w.proc.cursor) + n * Fresh(cfg.node.overlap));
      NextMultiple(n, Fresh(cfg.node.overlap));
    }
  }

  lemma {:induction false} GrewFrom(node: NodeConfig, chain: seq<Tx>, views: seq<seq<Tx>>)
    requires Growing(node, chain, views) && Ordered(chain)
    ensures var now := Now(chain, views); Appends(chain, now) && Ordered(now) && Extends(Ids(chain), Ids(now))
  {
    hide Matches, TxHash;
    if views == [] {
    } else {
      GrewFrom(node, chain, views[..|views| - 1]);
    }
  }

  /** Ticks that start with nothing stored set `since` to the cursor they start from. */
  lemma {:induction false} TicksSince(cfg: Config, views: seq<seq<Tx>>, w: World)
    requires Persists(cfg) && w.proc.Idle? && w.stored.None? && Growing(cfg.node, w.chain, views)
    ensures IsRun(cfg, Ticks(views), w) && Exec(cfg, Ticks(views), w).proc.Idle?
    ensures var end := Exec(cfg, Ticks(views), w);
            if end.stored.None? then end.proc.cursor == w.proc.cursor else end.since == w.proc.cursor
  {
    hide WellFormed, IsRun, Exec, Appends, EventsAfter, BestAfter, InsertAll, IntegerAmounts;
    TicksRun(cfg, views, w);
    if views == [] {
      Done(cfg, w);
    } else {
      TicksSince(cfg, views[..|views| - 1], w);
      LastTick(cfg, views, w);
    }
  }

  /**
   * Everything unread is ingested within ceil(unread / Fresh(overlap)) ticks: after that many, every matching
   * transaction of the account's history at the start has its row.
   */
  lemma TicksIngest(cfg: Config, views: seq<seq<Tx>>, w: World, tx: Tx)
    requires Plain(cfg) && Inv(cfg, w) && w.proc.Idle? && Growing(cfg.node, w.chain, views)
    requires cfg.node.overlap <= 99
    requires |w.chain| - Upto(Ids(w.chain), w.proc.cursor) <= |views| * Fresh(cfg.node.overlap)
    requires tx in w.chain && IsTransferOf(cfg.node.assetId, tx) && tx.id > (if w.stored.Some? then w.since else 0)
    ensures IsRun(cfg, Ticks(views), w) && RowKey(tx) in Exec(cfg, Ticks(views), w).table
  {
    hide WellFormed, IsRun, Exec, Own, Upto, Fresh, Ticks, Growing, Ordered, Matches, KeyFor, RowKey, IsTransferOf;
    RowKeyIs(cfg.node, tx);
    OrderedOf(cfg.node, w.chain);
    LatestIsGreatest(w.chain);
    TicksDrain(cfg, views, w);
    ReadIsPassed(w.chain, Exec(cfg, Ticks(views), w).proc.cursor, tx);
    RunKeeps(cfg, Ticks(views), w);
    NeverGoesBack(cfg, Ticks(views), w);
    if w.stored.None? { TicksSince(cfg, views, w); }
    PassedIsCovered(cfg, w, Exec(cfg, Ticks(views), w), tx);
  }

  lemma PassedIsCovered(cfg: Config, w: World, end: World, tx: Tx)
    requires Inv(cfg, end) && end.proc.Idle? && Later(w, end)
    requires w.stored.None? && end.stored.Some? ==> end.since == 0
    requires tx in w.chain && Matches(cfg.node, tx) && tx.id > (if w.stored.Some? then w.since else 0)
    requires 0 < tx.id <= end.proc.cursor
    ensures KeyFor(cfg.node, tx) in end.table
  {
    hide WellFormed, Own, Matches, KeyFor, Latest;
    assert tx in end.chain by { assert w.chain <= end.chain; }
  }

  lemma OrderedOf(node: NodeConfig, chain: seq<Tx>)
    requires WellFormed(node, chain)
    ensures Ordered(chain)
  {
  }

  lemma ReadIsPassed(chain: seq<Tx>, cursor: int, tx: Tx)
    requires Ordered(chain) && tx in chain && Upto(Ids(chain), cursor) >= |chain|
    ensures tx.id <= cursor
  {
    UptoSplits(Ids(chain), cursor);
    var i :| 0 <= i < |chain| && chain[i] == tx;
  }

  /**
   * Why coverage starts only at `since`: unless zero means genesis, a crash before the first cursor is stored makes
   * the restart begin "from now", past a transaction that was never ingested.
   */
  lemma ColdCrashSkips(cfg: Config, tx: Tx)
    requires Plain(cfg) && !cfg.zeroIsGenesis && WellFormed(cfg.node, [tx])
    ensures var steps := [Boot, Grow([tx]), Crash, Boot];
            && IsRun(cfg, steps, EMPTY)
            && Exec(cfg, steps, EMPTY) == World([tx], map[], {}, Some(tx.id), tx.id, Idle(tx.id))
  {
    hide WellFormed, IsRun, Exec;
    assert tx.id > 0 by { OrderedOf(cfg.node, [tx]); assert [tx][0] == tx; }
    var w1 := Apply(cfg, Boot, EMPTY);
    var w2 := Apply(cfg, Grow([tx]), w1);
    var w3 := Apply(cfg, Crash, w2);
    OneStep(cfg, Boot, [], w3);
    Done(cfg, Apply(cfg, Boot, w3));
    assert [Boot] + [] == [Boot];
    OneStep(cfg, Crash, [Boot], w2);
    assert [Crash] + [Boot] == [Crash, Boot];
    OneStep(cfg, Grow([tx]), [Crash, Boot], w1);
    assert [Grow([tx])] + [Crash, Boot] == [Grow([tx]), Crash, Boot];
    OneStep(cfg, Boot, [Grow([tx]), Crash, Boot], EMPTY);
    assert [Boot] + [Grow([tx]), Crash, Boot] == [Boot, Grow([tx]), Crash, Boot];
  }

  /* ---------- the worker itself ---------- */

  /** runDemo's worker on the wallet-proxy source, the row of crp_stream_cursors beside it. */
  class StreamWorker {
    const cfg: Config
    const store: EventStore
    var lastHeightExclusive: int
    var stored: Option<int>

    /** The idle states of the machine with this worker's table and cursors. */
    ghost predicate Represents(w: World)
      reads this, store
    {
      w.table == store.table && w.stored == stored && w.proc == Idle(lastHeightExclusive)
    }

    constructor (cfg: Config, store: EventStore, stored: Option<int>, latest: int)
      ensures this.cfg == cfg && this.store == store
      ensures (lastHeightExclusive, this.stored) == ResolveStart(cfg, stored, latest)
    {
      this.cfg, this.store, this.stored, this.lastHeightExclusive := cfg, store, stored, 0;
      new;
      var start := ResolveStartCursor(latest);
      lastHeightExclusive := start;
    }

    method UpsertCursor(height: int)
      modifies this`stored
      ensures stored == Upsert(old(stored), height)
    {
      if stored.None? {
        stored := Some(height);
      } else if height > stored.value {
        stored := Some(height);
      }
    }

    method ResolveStartCursor(latest: int) returns (start: int)
      modifies this`stored
      ensures (start, stored) == ResolveStart(cfg, old(stored), latest)
    {
      start := 0;
      if cfg.startOverride.Some? {
        start := cfg.startOverride.value;
      } else if stored.Some? {
        start := stored.value;
      }
      if latest > 0 {
        if start > latest + cfg.maxAheadGuard {
          start := Max(0, latest - cfg.rewindOnClamp);
          UpsertCursor(start);
        }
        if start == 0 && !cfg.zeroIsGenesis {
          start := latest;
          UpsertCursor(start);
        }
      }
    }

    /** One turn of the loop. */
    method RunTick(history: seq<Tx>, ghost w: World)
      requires Represents(w) && WellFormed(cfg.node, history) && Appends(w.chain, history)
      modifies this, store
      ensures IsRun(cfg, Tick(history), w) && Represents(Exec(cfg, Tick(history), w))
    {
      hide WellFormed, IsRun, Exec, BestAfter, EventsAfter, IntegerAmounts, InsertAll;
      TickRuns(cfg, history, w);
      var prevCursor := lastHeightExclusive;
      OrderedOf(cfg.node, history);
      var events, bestHeight := FetchSince(cfg.node, history, prevCursor);
      var advanced := bestHeight > prevCursor;
      if |events| > 0 {
        if !cfg.dryRun {
          var inserted := store.InsertPltTransfers(events);
        }
      } else {
        NothingToInsert(store.table, events);
      }
      if advanced {
        lastHeightExclusive := bestHeight;
        if !cfg.dryRun || cfg.persistCursorInDryRun {
          UpsertCursor(bestHeight);
        }
      }
    }

    /**
     * The loop: a tick for each view of the account's history until a stop is requested after the last of them, or
     * maxTicks is reached. Its effect is a run of the state machine.
     */
    method RunWorker(views: seq<seq<Tx>>, maxTicks: int, ghost w: World) returns (ticks: nat)
      requires Represents(w) && Growing(cfg.node, w.chain, views)
      modifies this, store
      ensures ticks == if 0 < maxTicks < |views| then maxTicks else |views|
      ensures Growing(cfg.node, w.chain, views[..ticks])
      ensures IsRun(cfg, Ticks(views[..ticks]), w) && Represents(Exec(cfg, Ticks(views[..ticks]), w))
    {
      hide WellFormed, IsRun, Exec, Appends;
      var tick := 0;
      ticks := 0;
      Done(cfg, w);
      GrowingFront(cfg.node, w.chain, views, 0);
      while true
        invariant 0 <= ticks <= |views| && tick == ticks && (maxTicks > 0 ==> ticks <= maxTicks)
        invariant Growing(cfg.node, w.chain, views[..ticks])
        invariant IsRun(cfg, Ticks(views[..ticks]), w) && Represents(Exec(cfg, Ticks(views[..ticks]), w))
        decreases |views| - ticks
      {
        if ticks == |views| { break; }
        tick := tick + 1;
        if maxTicks > 0 && tick > maxTicks { break; }
        ghost var now := Exec(cfg, Ticks(views[..ticks]), w);
        GrowingFront(cfg.node, w.chain, views, ticks + 1);
        assert views[..ticks + 1][..ticks] == views[..ticks];
        TicksRun(cfg, views[..ticks], w);
        RunTick(views[ticks], now);
        ExecConcat(cfg, Ticks(views[..ticks]), Tick(views[ticks]), w);
        ticks := ticks + 1;
      }
    }
  }

  lemma NothingToInsert(table: EventTable, events: seq<EventInput>)
    requires events == []
    ensures InsertAll(table, events) == table
  {
  }

  lemma {:induction false} GrowingFront(node: NodeConfig, chain: seq<Tx>, views: seq<seq<Tx>>, n: nat)
    requires Growing(node, chain, views) && n <= |views|
    ensures Growing(node, chain, views[..n])
    decreases |views|
  {
    hide WellFormed, Appends;
    if n < |views| {
      GrowingFront(node, chain, views[..|views| - 1], n);
      assert views[..|views| - 1][..n] == views[..n];
    } else {
      assert views[..n] == views;
    }
  }
}
