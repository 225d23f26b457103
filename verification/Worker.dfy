/**
 * The ingestion worker, src/worker/main.ts, as a state machine whose steps are the worker's separate effects: a crash
 * may fall between any two of them.
 */
module Worker {
  import opened Text
  import opened PltStore
  import opened Numerals
  import opened Lists
  import opened Paging
  import opened WalletSource

  datatype Config = Config(
    node: NodeConfig,
    startOverride: Option<int>,
    zeroIsGenesis: bool,
    maxAheadGuard: int,
    rewindOnClamp: int,
    dryRun: bool,
    persistCursorInDryRun: bool
  )

  /** Where the process stands within a tick; everything in it is lost in a crash. */
  datatype Proc =
    | Down
    | Idle(cursor: int)
    | Fetched(cursor: int, events: seq<EventInput>, best: int)
    | Inserted(cursor: int, best: int)

  /**
   * `chain` is the account's history, `table` the event table, `stored` the row of crp_stream_cursors. Two history
   * variables: `others` are the keys other programs wrote first, `since` the cursor at which `stored` was first set.
   */
  datatype World = World(
    chain: seq<Tx>,
    table: EventTable,
    others: set<EventKey>,
    stored: Option<int>,
    since: int,
    proc: Proc
  )

  const EMPTY := World([], map[], {}, None, 0, Down)

  /** The id of the account's latest transaction, 0 when there is none. */
  function Latest(chain: seq<Tx>): int { if chain == [] then 0 else chain[|chain| - 1].id }

  /** ON CONFLICT DO UPDATE SET last_height = GREATEST(old, new). */
  function Upsert(stored: Option<int>, height: int): Option<int> {
    Some(if stored.Some? then Max(stored.value, height) else height)
  }

  predicate Clamps(cfg: Config, start: int, latest: int) { start > latest + cfg.maxAheadGuard }

  /** The start cursor and the stored cursor after resolving it. */
  function ResolveStart(cfg: Config, stored: Option<int>, latest: int): (int, Option<int>) {
    var start := if cfg.startOverride.Some? then cfg.startOverride.value
                 else if stored.Some? then stored.value
                 else 0;
    if latest <= 0 then (start, stored)
    else
      var clamps := Clamps(cfg, start, latest);
      var clamped := if clamps then Max(0, latest - cfg.rewindOnClamp) else start;
      var kept := if clamps then Upsert(stored, clamped) else stored;
      if clamped == 0 && !cfg.zeroIsGenesis then (latest, Upsert(kept, latest)) else (clamped, kept)
  }

  datatype Step =
    | Grow(history: seq<Tx>)          // the account gets more transactions
    | Foreign(rows: seq<EventInput>)  // another program ingests events
    | Boot                            // resolveStartCursor
    | Fetch                           // source.fetchSince
    | Insert                          // insertPltTransfers
    | Persist                         // the cursor in memory and in the table
    | Crash

  /** A history is well formed: every transaction has its own hash, and the token's amounts are integers. */
  predicate WellFormed(node: NodeConfig, chain: seq<Tx>) {
    && Ordered(chain)
    && (forall i, j :: 0 <= i < j < |chain| ==> TxHash(chain[i]) != TxHash(chain[j]))
    && (forall i :: 0 <= i < |chain| && Matches(node, chain[i]) ==> IsSigned(TextOr(chain[i].amount, "")))
  }

  /** Transactions are only ever appended. */
  predicate Appends(a: seq<Tx>, b: seq<Tx>) { |a| <= |b| && b[..|a|] == a }

  predicate Enabled(cfg: Config, step: Step, w: World) {
    match step
    case Grow(history) => Appends(w.chain, history) && WellFormed(cfg.node, history)
    case Foreign(rows) => IntegerAmounts(rows)
    case Boot => w.proc.Down?
    case Fetch => w.proc.Idle?
    case Insert => w.proc.Fetched? && IntegerAmounts(w.proc.events)
    case Persist => w.proc.Inserted?
    case Crash => !w.proc.Down?
  }

  function Booted(cfg: Config, w: World): World {
    var (start, kept) := ResolveStart(cfg, w.stored, Latest(w.chain));
    w.(stored := kept, since := if w.stored.None? then start else w.since, proc := Idle(start))
  }

  predicate Persists(cfg: Config) { !cfg.dryRun || cfg.persistCursorInDryRun }

  function Advanced(cfg: Config, w: World): World
    requires w.proc.Inserted?
  {
    if w.proc.best <= w.proc.cursor then w.(proc := Idle(w.proc.cursor))
    else if !Persists(cfg) then w.(proc := Idle(w.proc.best))
    else w.(stored := Upsert(w.stored, w.proc.best),
            since := if w.stored.None? then w.proc.cursor else w.since,
            proc := Idle(w.proc.best))
  }

  function Apply(cfg: Config, step: Step, w: World): World
    requires Enabled(cfg, step, w)
  {
    match step
    case Grow(history) => w.(chain := history)
    case Foreign(rows) => w.(table := InsertAll(w.table, rows), others := w.others + (Keys(rows) - w.table.Keys))
    case Boot => Booted(cfg, w)
    case Fetch =>
      w.(proc := Fetched(w.proc.cursor, EventsAfter(cfg.node, w.chain, w.proc.cursor),
                         BestAfter(cfg.node, w.chain, w.proc.cursor)))
    case Insert =>
      w.(table := if cfg.dryRun then w.table else InsertAll(w.table, w.proc.events),
         proc := Inserted(w.proc.cursor, w.proc.best))
    case Persist => Advanced(cfg, w)
    case Crash => w.(proc := Down)
  }

  predicate IsRun(cfg: Config, steps: seq<Step>, w: World) {
    steps == [] || (Enabled(cfg, steps[0], w) && IsRun(cfg, steps[1..], Apply(cfg, steps[0], w)))
  }

  function Exec(cfg: Config, steps: seq<Step>, w: World): World
    requires IsRun(cfg, steps, w)
  {
    if steps == [] then w else Exec(cfg, steps[1..], Apply(cfg, steps[0], w))
  }

  /* ---------- what every step keeps ---------- */

  /** The ordinary setting: no override, rows are written, the guard is not negative. */
  predicate Plain(cfg: Config) { cfg.startOverride.None? && !cfg.dryRun && cfg.maxAheadGuard >= 0 }

  function KeyFor(node: NodeConfig, tx: Tx): EventKey { KeyOf(EventOf(node, tx)) }

  /** Every matching transaction after `low`, up to `high`, has its row. */
  ghost predicate Covered(node: NodeConfig, chain: seq<Tx>, table: EventTable, low: int, high: int) {
    forall tx :: tx in chain && low < tx.id <= high && Matches(node, tx) ==> KeyFor(node, tx) in table
  }

  ghost predicate IsRowOf(node: NodeConfig, chain: seq<Tx>, k: EventKey, row: PltEvent) {
    exists tx :: tx in chain && Matches(node, tx) && IsSigned(TextOr(tx.amount, ""))
              && k == KeyFor(node, tx) && row == RowOf(EventOf(node, tx))
  }

  /** What the worker wrote comes from the chain. */
  ghost predicate Own(node: NodeConfig, chain: seq<Tx>, table: EventTable, others: set<EventKey>) {
    forall k :: k in table && k !in others ==> IsRowOf(node, chain, k, table[k])
  }

  function Memory(stored: Option<int>): int { if stored.Some? then stored.value else 0 }

  ghost predicate GoodFetch(node: NodeConfig, chain: seq<Tx>, cursor: int, events: seq<EventInput>, best: int) {
    && IntegerAmounts(events)
    && (forall tx :: tx in chain && cursor < tx.id <= best && Matches(node, tx) ==> EventOf(node, tx) in events)
    && (forall i :: 0 <= i < |events| ==> IsRowOf(node, chain, KeyOf(events[i]), RowOf(events[i])))
  }

  ghost predicate ProcOk(cfg: Config, w: World) {
    match w.proc
    case Down => true
    case Idle(cursor) => cursor == Memory(w.stored)
    case Fetched(cursor, events, best) =>
      && cursor == Memory(w.stored) && cursor <= best <= Latest(w.chain)
      && GoodFetch(cfg.node, w.chain, cursor, events, best)
    case Inserted(cursor, best) =>
      && cursor == Memory(w.stored) && cursor <= best <= Latest(w.chain)
      && Covered(cfg.node, w.chain, w.table, cursor, best)
  }

  ghost predicate CursorOk(cfg: Config, w: World) {
    w.stored.Some? ==>
      && 0 < w.stored.value <= Latest(w.chain)
      && 0 <= w.since <= w.stored.value
      && (cfg.zeroIsGenesis ==> w.since == 0)
      && Covered(cfg.node, w.chain, w.table, w.since, w.stored.value)
  }

  ghost predicate Inv(cfg: Config, w: World) {
    && WellFormed(cfg.node, w.chain)
    && Own(cfg.node, w.chain, w.table, w.others)
    && CursorOk(cfg, w)
    && ProcOk(cfg, w)
  }

  /** The latest id is the greatest. */
  lemma LatestIsGreatest(chain: seq<Tx>)
    requires Ordered(chain)
    ensures Latest(chain) >= 0 && forall tx :: tx in chain ==> 0 < tx.id <= Latest(chain)
  {
    assert forall i :: 0 <= i < |chain| ==> Ids(chain)[i] <= Latest(chain);
  }

  /** Growth leaves everything up to the old latest id as it was. */
  lemma OldIsOld(a: seq<Tx>, b: seq<Tx>)
    requires Appends(a, b) && Ordered(a) && Ordered(b)
    ensures Latest(a) <= Latest(b)
    ensures forall tx :: tx in b ==> (tx in a <==> tx.id <= Latest(a))
  {
    LatestIsGreatest(a);
    LatestIsGreatest(b);
    assert a <= b;
    forall i | |a| <= i < |b| ensures b[i].id > Latest(a) {
      assert a != [] ==> Ids(b)[|a| - 1] < Ids(b)[i];
    }
    forall tx | tx in b && tx.id <= Latest(a) ensures tx in a {
      var i :| 0 <= i < |b| && b[i] == tx;
    }
  }

  lemma GrowKeeps(cfg: Config, w: World, history: seq<Tx>)
    requires Plain(cfg) && Inv(cfg, w) && Enabled(cfg, Grow(history), w)
    ensures Inv(cfg, Apply(cfg, Grow(history), w))
  {
    hide Matches, KeyOf, RowOf, TxHash, Ordered, Latest;
    OldIsOld(w.chain, history);
    LatestIsGreatest(w.chain);
    forall k, row | IsRowOf(cfg.node, w.chain, k, row) ensures IsRowOf(cfg.node, history, k, row) {
      var tx :| tx in w.chain && Matches(cfg.node, tx) && IsSigned(TextOr(tx.amount, ""))
             && k == KeyFor(cfg.node, tx) && row == RowOf(EventOf(cfg.node, tx));
      assert tx in history;
    }
  }

  /** An insert only adds the batch's rows. */
  lemma {:induction false} InsertedRows(table: EventTable, es: seq<EventInput>, k: EventKey)
    requires IntegerAmounts(es)
    requires k in InsertAll(table, es) && k !in table
    ensures exists i :: 0 <= i < |es| && KeyOf(es[i]) == k && InsertAll(table, es)[k] == RowOf(es[i])
  {
    hide KeyOf, RowOf;
    if es == [] {
    } else {
      var n := |es| - 1;
      if k in InsertAll(table, es[..n]) {
        InsertedRows(table, es[..n], k);
        var i :| 0 <= i < n && KeyOf(es[..n][i]) == k && InsertAll(table, es[..n])[k] == RowOf(es[..n][i]);
        assert KeyOf(es[i]) == k;
      } else {
        assert KeyOf(es[n]) == k;
      }
    }
  }

  lemma ForeignKeeps(cfg: Config, w: World, rows: seq<EventInput>)
    requires Plain(cfg) && Inv(cfg, w) && Enabled(cfg, Foreign(rows), w)
    ensures Inv(cfg, Apply(cfg, Foreign(rows), w))
  {
    hide Matches, EventOf, KeyOf, RowOf, WellFormed, Keys, IsRowOf, GoodFetch, InsertAll, Latest;
    InsertKeys(w.table, rows);
  }

  lemma InsertKeeps(cfg: Config, w: World)
    requires Plain(cfg) && Inv(cfg, w) && Enabled(cfg, Insert, w)
    ensures Inv(cfg, Apply(cfg, Insert, w))
  {
    hide Matches, EventOf, RowOf, WellFormed, IsRowOf, Latest, InsertAll;
    var events := w.proc.events;
    var table := InsertAll(w.table, events);
    InsertKeys(w.table, events);
    forall k | k in table && k !in w.others ensures IsRowOf(cfg.node, w.chain, k, table[k]) {
      if k !in w.table { InsertedRows(w.table, events, k); }
    }
    forall tx | tx in w.chain && w.proc.cursor < tx.id <= w.proc.best && Matches(cfg.node, tx)
      ensures KeyFor(cfg.node, tx) in table
    {
      var i :| 0 <= i < |events| && events[i] == EventOf(cfg.node, tx);
      assert KeyOf(events[i]) in Keys(events);
    }
  }

  /** A fetch finds what lies between the cursors, and never runs past the latest id. */
  lemma FetchIsGood(cfg: Config, chain: seq<Tx>, cursor: int)
    requires WellFormed(cfg.node, chain) && cursor <= Latest(chain)
    ensures var best := BestAfter(cfg.node, chain, cursor);
            && cursor <= best <= Latest(chain)
            && GoodFetch(cfg.node, chain, cursor, EventsAfter(cfg.node, chain, cursor), best)
  {
    hide Matches, EventOf, KeyOf, RowOf, Advance, Upto, TxHash;
    var ids := Ids(chain);
    var best := BestAfter(cfg.node, chain, cursor);
    AdvanceReads(ids, cursor, cfg.node.overlap, LIMIT);
    LatestIsGreatest(chain);
    BetweenIs(chain, cursor, best);
    MatchesAreGood(cfg.node, chain, Between(chain, cursor, best));
  }

  lemma BetweenIs(chain: seq<Tx>, low: int, high: int)
    requires Ordered(chain)
    ensures forall tx :: tx in Between(chain, low, high) <==> tx in chain && low < tx.id <= high
  {
    hide Upto;
    UptoSplits(Ids(chain), low);
    UptoSplits(Ids(chain), high);
    var l, h := Upto(Ids(chain), low), Upto(Ids(chain), high);
    assert forall i :: 0 <= i < |chain| ==> (l <= i < h <==> low < chain[i].id <= high);
    if l <= h { SliceIs(chain, l, h, low, high); }
  }

  lemma SliceIs(chain: seq<Tx>, l: nat, h: nat, low: int, high: int)
    requires l <= h <= |chain|
    requires forall i :: 0 <= i < |chain| ==> (l <= i < h <==> low < chain[i].id <= high)
    ensures forall tx :: tx in chain[l..h] <==> tx in chain && low < tx.id <= high
  {
    forall tx | tx in chain && low < tx.id <= high ensures tx in chain[l..h] {
      var i :| 0 <= i < |chain| && chain[i] == tx;
      assert chain[l..h][i - l] == tx;
    }
    forall tx | tx in chain[l..h] ensures tx in chain && low < tx.id <= high {
      var i :| 0 <= i < h - l && chain[l..h][i] == tx;
      assert chain[l + i] == tx;
    }
  }

  lemma MatchesAreGood(node: NodeConfig, chain: seq<Tx>, txs: seq<Tx>)
    requires WellFormed(node, chain) && forall tx :: tx in txs ==> tx in chain
    ensures var events := EventsIn(node, txs);
            && IntegerAmounts(events)
            && (forall tx :: tx in txs && Matches(node, tx) ==> EventOf(node, tx) in events)
            && forall i :: 0 <= i < |events| ==> IsRowOf(node, chain, KeyOf(events[i]), RowOf(events[i]))
  {
    hide Matches, KeyOf, RowOf, Ordered, TxHash, EventsIn;
    EventsAreMatches(node, txs);
    var events := EventsIn(node, txs);
    forall i | 0 <= i < |events|
      ensures IsSigned(events[i].amountRaw) && IsRowOf(node, chain, KeyOf(events[i]), RowOf(events[i]))
    {
      assert events[i] in events;
      var tx :| tx in txs && Matches(node, tx) && events[i] == EventOf(node, tx);
      assert tx in chain;
    }
  }

  lemma FetchKeeps(cfg: Config, w: World)
    requires Plain(cfg) && Inv(cfg, w) && Enabled(cfg, Fetch, w)
    ensures Inv(cfg, Apply(cfg, Fetch, w))
  {
    hide GoodFetch, BestAfter, EventsAfter, Own, Covered;
    LatestIsGreatest(w.chain);
    FetchIsGood(cfg, w.chain, w.proc.cursor);
  }

  /** The clamp at start-up never fires: a stored cursor is never ahead of the chain. */
  lemma ClampNeverFires(cfg: Config, w: World)
    requires Plain(cfg) && Inv(cfg, w)
    ensures !Clamps(cfg, Memory(w.stored), Latest(w.chain))
  {
    LatestIsGreatest(w.chain);
  }

  lemma BootKeeps(cfg: Config, w: World)
    requires Plain(cfg) && Inv(cfg, w) && Enabled(cfg, Boot, w)
    ensures Inv(cfg, Apply(cfg, Boot, w))
    ensures w.stored.Some? ==> Apply(cfg, Boot, w) == w.(proc := Idle(w.stored.value))
    ensures w.stored.None? && Apply(cfg, Boot, w).stored.Some? ==>
              !cfg.zeroIsGenesis && Apply(cfg, Boot, w).since == Latest(w.chain)
  {
    hide Own, Ordered, Matches;
    LatestIsGreatest(w.chain);
  }

  lemma AdvanceKeeps(cfg: Config, w: World)
    requires Plain(cfg) && Inv(cfg, w) && Enabled(cfg, Persist, w)
    ensures Inv(cfg, Apply(cfg, Persist, w))
    ensures w.stored.None? && Apply(cfg, Persist, w).stored.Some? ==> Apply(cfg, Persist, w).since == 0
  {
    hide Own, WellFormed, Matches, KeyFor, Latest;
  }

  /** One step keeps the invariant. */
  lemma StepKeeps(cfg: Config, step: Step, w: World)
    requires Plain(cfg) && Inv(cfg, w) && Enabled(cfg, step, w)
    ensures Inv(cfg, Apply(cfg, step, w))
  {
    match step
    case Grow(history) => GrowKeeps(cfg, w, history);
    case Foreign(rows) => ForeignKeeps(cfg, w, rows);
    case Boot => BootKeeps(cfg, w);
    case Fetch => FetchKeeps(cfg, w);
    case Insert => InsertKeeps(cfg, w);
    case Persist => AdvanceKeeps(cfg, w);
    case Crash =>
  }
}
