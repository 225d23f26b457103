/** What a dry run may move: the cursor in memory, the stored one only when asked to, and never a row. */
module DryRuns {
  import opened Text
  import opened PltStore
  import opened WalletSource
  import opened Worker
  import opened WorkerRuns

  /** The greater of a stored height, if there is one, and another. */
  function Greatest(stored: Option<int>, height: int): int {
    match stored case None => height case Some(n) => if n > height then n else height
  }

  /**
   * The start cursor, case by case: the override, else the stored cursor, else 0; rewound when it is ahead of the chain
   * by more than the guard; and "from now" when it is 0 and zero does not mean genesis. Only the last two are stored,
   * and the stored cursor never goes down.
   */
  lemma StartCursor(cfg: Config, stored: Option<int>, latest: int)
    ensures var (start, kept) := ResolveStart(cfg, stored, latest);
            var chosen := if cfg.startOverride.Some? then cfg.startOverride.value
                          else if stored.Some? then stored.value else 0;
            var rewound := if latest - cfg.rewindOnClamp > 0 then latest - cfg.rewindOnClamp else 0;
            var ahead := latest > 0 && chosen > latest + cfg.maxAheadGuard;
            var fromNow := latest > 0 && !cfg.zeroIsGenesis && (if ahead then rewound == 0 else chosen == 0);
            && start == (if fromNow then latest else if ahead then rewound else chosen)
            && (!ahead && !fromNow ==> kept == stored)
            && (ahead && !fromNow ==> kept == Some(Greatest(stored, rewound)))
            && (fromNow ==> kept == Some(Greatest(stored, latest)))
  {
  }

  /** One tick, whatever the settings: what it stores, and that a dry one leaves the table alone. */
  lemma TickStores(cfg: Config, history: seq<Tx>, w: World)
    requires w.proc.Idle? && WellFormed(cfg.node, history) && Appends(w.chain, history)
    ensures IsRun(cfg, Tick(history), w)
    ensures var end := Exec(cfg, Tick(history), w);
            && end.proc.Idle? && end.proc.cursor >= w.proc.cursor
            && end.stored == (if end.proc.cursor > w.proc.cursor && (cfg.dryRun ==> cfg.persistCursorInDryRun)
                              then Some(Greatest(w.stored, end.proc.cursor)) else w.stored)
            && (cfg.dryRun ==> end.table == w.table)
  {
    hide WellFormed, EventsAfter, BestAfter, IntegerAmounts, InsertAll, IsRun, Exec, Ordered;
    TickRuns(cfg, history, w);
    OrderedOf(cfg.node, history);
    CursorGrows(cfg.node, history, w.proc.cursor);
  }

  lemma CursorGrows(node: NodeConfig, chain: seq<Tx>, cursor: int)
    requires Ordered(chain)
    ensures BestAfter(node, chain, cursor) >= cursor
  {
    NewerIsBetween(chain, cursor, node.overlap);
  }

  /** A dry run that does not persist its cursor. */
  predicate Silent(cfg: Config) { cfg.dryRun && !cfg.persistCursorInDryRun }

  predicate NoBoot(steps: seq<Step>) { forall i :: 0 <= i < |steps| ==> !steps[i].Boot? }

  /** However long it runs, it leaves the stored cursor alone. */
  lemma {:induction false} SilentKeepsCursor(cfg: Config, steps: seq<Step>, w: World)
    requires Silent(cfg) && NoBoot(steps) && IsRun(cfg, steps, w)
    ensures Exec(cfg, steps, w).stored == w.stored && Exec(cfg, steps, w).since == w.since
  {
    hide WellFormed, Keys, EventsAfter, BestAfter, InsertAll;
    if steps == [] {
    } else {
      assert NoBoot(steps[1..]);
      SilentKeepsCursor(cfg, steps[1..], Apply(cfg, steps[0], w));
    }
  }

  /* ---------- a dry run and then a live one ---------- */

  /** What is stored is in order for a live worker: everything but the process. */
  ghost predicate StoredOk(live: Config, w: World) {
    && WellFormed(live.node, w.chain) && Own(live.node, w.chain, w.table, w.others)
    && w.stored.Some? && CursorOk(live, w)
  }

  /** The dry worker's settings: silent, no override, a guard that is not negative. */
  predicate DryFor(dry: Config, live: Config) {
    Silent(dry) && dry.startOverride.None? && dry.maxAheadGuard >= 0 && dry.node == live.node
  }

  lemma DryStepKeeps(dry: Config, live: Config, step: Step, w: World)
    requires Plain(live) && DryFor(dry, live) && StoredOk(live, w) && Enabled(dry, step, w)
    ensures var w' := Apply(dry, step, w); StoredOk(live, w') && w'.stored == w.stored && w'.since == w.since
  {
    match step
    case Grow(history) => GrowKeeps(live, w.(proc := Down), history);
    case Foreign(rows) => ForeignKeeps(live, w.(proc := Down), rows);
    case Boot =>
      OrderedOf(live.node, w.chain);
      LatestIsGreatest(w.chain);
      BootKeepsStored(dry, w);
    case _ => ProcessOnly(dry, step, w);
  }

  lemma BootKeepsStored(dry: Config, w: World)
    requires dry.startOverride.None? && dry.maxAheadGuard >= 0
    requires w.stored.Some? && 0 < w.stored.value <= Latest(w.chain)
    ensures Booted(dry, w) == w.(proc := Idle(w.stored.value))
  {
    hide Latest;
  }

  /** The other steps of a silent dry run change nothing but the process. */
  lemma ProcessOnly(dry: Config, step: Step, w: World)
    requires Silent(dry) && Enabled(dry, step, w) && !step.Grow? && !step.Foreign? && !step.Boot?
    ensures Apply(dry, step, w) == w.(proc := Apply(dry, step, w).proc)
  {
    hide EventsAfter, BestAfter, InsertAll;
  }

  lemma {:induction false} DryRunKeeps(dry: Config, live: Config, steps: seq<Step>, w: World)
    requires Plain(live) && DryFor(dry, live) && StoredOk(live, w) && IsRun(dry, steps, w)
    ensures var end := Exec(dry, steps, w); StoredOk(live, end) && end.stored == w.stored && end.since == w.since
  {
    hide Enabled, Apply, StoredOk, Plain, DryFor;
    if steps == [] {
    } else {
      DryStepKeeps(dry, live, steps[0], w);
      DryRunKeeps(dry, live, steps[1..], Apply(dry, steps[0], w));
    }
  }

  /**
   * A dry run is harmless. From any state of a live worker with a stored cursor, any dry run without an override leaves
   * the stored cursor where it was, and a live worker that goes on from there still loses nothing: each transfer of
   * the token after the covered start and up to its stored cursor has its row.
   */
  lemma DryRunLosesNothing(live: Config, dry: Config, w: World, dryly: seq<Step>, steps: seq<Step>, tx: Tx)
    requires Plain(live) && DryFor(dry, live) && Inv(live, w) && w.stored.Some?
    requires IsRun(dry, dryly, w.(proc := Down))
    requires IsRun(live, steps, Exec(dry, dryly, w.(proc := Down)).(proc := Down))
    requires var end := Exec(live, steps, Exec(dry, dryly, w.(proc := Down)).(proc := Down));
             end.stored.Some? && tx in end.chain && w.since < tx.id <= end.stored.value && IsTransferOf(live.node.assetId, tx)
    ensures Exec(dry, dryly, w.(proc := Down)).stored == w.stored
    ensures RowKey(tx) in Exec(live, steps, Exec(dry, dryly, w.(proc := Down)).(proc := Down)).table
  {
    hide IsRun, Exec, WellFormed, Own, IsTransferOf, Covered;
    DryRunKeeps(dry, live, dryly, w.(proc := Down));
    var between := Exec(dry, dryly, w.(proc := Down)).(proc := Down);
    RunKeeps(live, steps, between);
    NeverGoesBack(live, steps, between);
    RowKeyIs(live.node, tx);
    CoveredHas(live.node, Exec(live, steps, between), tx);
  }

  lemma CoveredHas(node: NodeConfig, w: World, tx: Tx)
    requires w.stored.Some? && Covered(node, w.chain, w.table, w.since, w.stored.value)
    requires tx in w.chain && w.since < tx.id <= w.stored.value && Matches(node, tx)
    ensures KeyFor(node, tx) in w.table
  {
  }

  /** A dry run that does persist its cursor passes over every transfer it reads and that has no row yet. */
  lemma PersistedDryRunSkips(cfg: Config, history: seq<Tx>, w: World, tx: Tx)
    requires cfg.dryRun && cfg.persistCursorInDryRun
    requires w.proc.Idle? && WellFormed(cfg.node, history) && Appends(w.chain, history) && IsRun(cfg, Tick(history), w)
    requires tx in history && RowKey(tx) !in w.table
    requires var end := Exec(cfg, Tick(history), w); end.proc.Idle? && w.proc.cursor < tx.id <= end.proc.cursor
    ensures var end := Exec(cfg, Tick(history), w);
            end.stored.Some? && tx.id <= end.stored.value && RowKey(tx) !in end.table
  {
    hide WellFormed, IsRun, Exec, RowKey;
    TickStores(cfg, history, w);
  }
}
