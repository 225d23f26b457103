/** Compiling an event filter to SQL: src/plt/pltSearch.ts. */
module PltSearch {
  import opened Text
  import opened Lists
  import opened Numerals
  import opened PltStore

  /** An absent filter is None; an empty string counts as absent. Amount bounds are integer texts. */
  datatype Filter = Filter(
    fromAddress: Option<string>,
    toAddress: Option<string>,
    assetId: Option<string>,
    genesisIndex: Option<int>,
    finalized: Option<bool>,
    minAmountRaw: Option<string>,
    maxAmountRaw: Option<string>,
    limit: Option<int>
  )

  predicate Given(s: Option<string>) { s.Some? && s.value != "" }

  predicate IntegerBounds(f: Filter) {
    (Given(f.minAmountRaw) ==> IsSigned(f.minAmountRaw.value)) && (Given(f.maxAmountRaw) ==> IsSigned(f.maxAmountRaw.value))
  }

  /** What the filter promises: its present parts, combined with AND. */
  predicate Satisfies(f: Filter, row: PltEvent)
    requires IntegerBounds(f)
  {
    && (Given(f.fromAddress) ==> row.fromAddress == f.fromAddress)
    && (Given(f.toAddress) ==> row.toAddress == f.toAddress)
    && (Given(f.assetId) ==> Some(row.assetId) == f.assetId)
    && (f.genesisIndex.Some? ==> row.genesisIndex == f.genesisIndex.value)
    && (f.finalized.Some? ==> row.finalized == f.finalized.value)
    && (Given(f.minAmountRaw) ==> row.amountRaw >= IntVal(f.minAmountRaw.value))
    && (Given(f.maxAmountRaw) ==> row.amountRaw <= IntVal(f.maxAmountRaw.value))
  }

  /* ---------- the statement ---------- */

  datatype Value = VText(s: string) | VInt(n: int) | VBool(b: bool)

  datatype Fragment = FromEq | ToEq | AssetEq | GenesisEq | FinalizedEq | AmountAtLeast | AmountAtMost

  /** `1 = 1`, or a fragment followed by the number of its parameter. */
  datatype Clause = Always | Test(fragment: Fragment, number: nat)

  datatype Where = Where(clauses: seq<Clause>, params: seq<Value>)

  /** A fragment's comparison with its parameter; comparing with NULL is not true. */
  predicate FragmentHolds(fragment: Fragment, v: Value, row: PltEvent) {
    match fragment
    case FromEq => v.VText? && row.fromAddress == Some(v.s)
    case ToEq => v.VText? && row.toAddress == Some(v.s)
    case AssetEq => v.VText? && row.assetId == v.s
    case GenesisEq => v.VInt? && row.genesisIndex == v.n
    case FinalizedEq => v.VBool? && row.finalized == v.b
    case AmountAtLeast => v.VText? && IsSigned(v.s) && row.amountRaw >= IntVal(v.s)
    case AmountAtMost => v.VText? && IsSigned(v.s) && row.amountRaw <= IntVal(v.s)
  }

  predicate ClauseHolds(c: Clause, params: seq<Value>, row: PltEvent) {
    c.Always? || (1 <= c.number <= |params| && FragmentHolds(c.fragment, params[c.number - 1], row))
  }

  /** The clauses are joined by AND. */
  predicate Selects(w: Where, row: PltEvent) {
    forall i :: 0 <= i < |w.clauses| ==> ClauseHolds(w.clauses[i], w.params, row)
  }

  /** The closure `push`. */
  function Push(w: Where, fragment: Fragment, v: Value): Where {
    var params := w.params + [v];
    Where(w.clauses + [Test(fragment, |params|)], params)
  }

  /** One `if (...) push(...)`. */
  datatype Part = Part(given: bool, fragment: Fragment, value: Value)

  function PushIf(w: Where, p: Part): Where { if p.given then Push(w, p.fragment, p.value) else w }

  function Compiled(parts: seq<Part>): Where {
    if parts == [] then Where([Always], []) else PushIf(Compiled(parts[..|parts| - 1]), parts[|parts| - 1])
  }

  function TextOf(s: Option<string>): Value { VText(if s.Some? then s.value else "") }

  /** The parts in the order the filter is examined. */
  function Parts(f: Filter): seq<Part> {
    [ Part(Given(f.fromAddress), FromEq, TextOf(f.fromAddress)),
      Part(Given(f.toAddress), ToEq, TextOf(f.toAddress)),
      Part(Given(f.assetId), AssetEq, TextOf(f.assetId)),
      Part(f.genesisIndex.Some?, GenesisEq, VInt(if f.genesisIndex.Some? then f.genesisIndex.value else 0)),
      Part(f.finalized.Some?, FinalizedEq, VBool(f.finalized == Some(true))),
      Part(Given(f.minAmountRaw), AmountAtLeast, TextOf(f.minAmountRaw)),
      Part(Given(f.maxAmountRaw), AmountAtMost, TextOf(f.maxAmountRaw)) ]
  }

  method BuildWhereClause(f: Filter) returns (w: Where)
    ensures w == Compiled(Parts(f))
  {
    hide Given, TextOf, Push, Compiled;
    w := Where([Always], []);
    ghost var p := Parts(f);
    if Given(f.fromAddress) { w := Push(w, FromEq, TextOf(f.fromAddress)); }
    CompiledNone();
    CompiledNext(p, 0);
    if Given(f.toAddress) { w := Push(w, ToEq, TextOf(f.toAddress)); }
    CompiledNext(p, 1);
    if Given(f.assetId) { w := Push(w, AssetEq, TextOf(f.assetId)); }
    CompiledNext(p, 2);
    if f.genesisIndex.Some? { w := Push(w, GenesisEq, VInt(f.genesisIndex.value)); }
    CompiledNext(p, 3);
    if f.finalized.Some? { w := Push(w, FinalizedEq, VBool(f.finalized.value)); }
    CompiledNext(p, 4);
    if Given(f.minAmountRaw) { w := Push(w, AmountAtLeast, TextOf(f.minAmountRaw)); }
    CompiledNext(p, 5);
    if Given(f.maxAmountRaw) { w := Push(w, AmountAtMost, TextOf(f.maxAmountRaw)); }
    CompiledNext(p, 6);
    assert p[..7] == p;
  }

  lemma CompiledNone()
    ensures Compiled([]) == Where([Always], [])
  {
  }

  lemma CompiledNext(p: seq<Part>, i: nat)
    requires i < |p|
    ensures p[..0] == [] && Compiled(p[..i + 1]) == PushIf(Compiled(p[..i]), p[i])
  {
    assert p[..i + 1][..i] == p[..i];
  }

  /** Clause i tests parameter i: every parameter is named once, in order. */
  lemma {:induction false} NumbersAreInOrder(parts: seq<Part>)
    ensures var w := Compiled(parts);
            && |w.clauses| == |w.params| + 1 && w.clauses[0] == Always
            && forall i :: 0 < i < |w.clauses| ==> w.clauses[i].Test? && w.clauses[i].number == i
  {
    if parts == [] {
    } else {
      NumbersAreInOrder(parts[..|parts| - 1]);
    }
  }

  predicate PartHolds(p: Part, row: PltEvent) { p.given ==> FragmentHolds(p.fragment, p.value, row) }

  predicate PartsHold(parts: seq<Part>, row: PltEvent) {
    forall i :: 0 <= i < |parts| ==> PartHolds(parts[i], row)
  }

  /** A compiled statement selects the rows on which every given part holds. */
  lemma {:induction false} CompiledSelects(parts: seq<Part>, row: PltEvent)
    ensures Selects(Compiled(parts), row) <==> PartsHold(parts, row)
  {
    hide FragmentHolds;
    if parts == [] {
    } else {
      var n := |parts| - 1;
      CompiledSelects(parts[..n], row);
      NumbersAreInOrder(parts[..n]);
      if parts[n].given { PushSelects(Compiled(parts[..n]), parts[n], row); }
    }
  }

  lemma PushSelects(w: Where, p: Part, row: PltEvent)
    requires |w.clauses| == |w.params| + 1 && w.clauses[0] == Always
    requires forall i :: 0 < i < |w.clauses| ==> w.clauses[i].Test? && w.clauses[i].number == i
    ensures Selects(Push(w, p.fragment, p.value), row) <==> Selects(w, row) && FragmentHolds(p.fragment, p.value, row)
  {
    hide FragmentHolds;
    var r := Push(w, p.fragment, p.value);
    forall i | 0 <= i < |w.clauses| ensures ClauseHolds(r.clauses[i], r.params, row) == ClauseHolds(w.clauses[i], w.params, row) {
      assert r.clauses[i] == w.clauses[i];
    }
    assert ClauseHolds(r.clauses[|w.clauses|], r.params, row) == FragmentHolds(p.fragment, p.value, row);
    if Selects(r, row) {
      forall i | 0 <= i < |w.clauses| ensures ClauseHolds(w.clauses[i], w.params, row) {
        assert ClauseHolds(r.clauses[i], r.params, row);
      }
    }
  }

  /** The compiled statement means the filter: it selects exactly the rows that satisfy it. */
  lemma StatementMeansFilter(f: Filter, row: PltEvent)
    requires IntegerBounds(f)
    ensures Selects(Compiled(Parts(f)), row) <==> Satisfies(f, row)
  {
    hide Selects, Compiled, IsSigned, IntVal, PartsHold;
    CompiledSelects(Parts(f), row);
    SevenHold(Parts(f), row);
  }

  lemma SevenHold(p: seq<Part>, row: PltEvent)
    requires |p| == 7
    ensures PartsHold(p, row)
              == (PartHolds(p[0], row) && PartHolds(p[1], row) && PartHolds(p[2], row) && PartHolds(p[3], row)
                  && PartHolds(p[4], row) && PartHolds(p[5], row) && PartHolds(p[6], row))
  {
    hide PartHolds;
  }

  /** The SQL text depends only on which filters are present, never on their values. */
  lemma {:induction false} TextIgnoresValues(a: seq<Part>, b: seq<Part>)
    requires |a| == |b|
    requires forall i :: 0 <= i < |a| ==> a[i].given == b[i].given && a[i].fragment == b[i].fragment
    ensures Compiled(a).clauses == Compiled(b).clauses && |Compiled(a).params| == |Compiled(b).params|
  {
    if a == [] {
    } else {
      TextIgnoresValues(a[..|a| - 1], b[..|b| - 1]);
    }
  }

  /* ---------- the query ---------- */

  /** LIMIT: 50 when absent or zero, otherwise kept between 1 and 500. */
  function LimitOf(f: Filter): (n: nat)
    ensures 1 <= n <= 500
  {
    if f.limit.None? || f.limit.value == 0 then 50
    else if f.limit.value < 1 then 1
    else if f.limit.value > 500 then 500
    else f.limit.value
  }

  function SelectedKeys(w: Where, table: EventTable): set<EventKey> { set k | k in table && Selects(w, table[k]) }

  /** ORDER BY block_height DESC, event_index ASC. */
  predicate NotAfter(table: EventTable, a: EventKey, b: EventKey)
    requires a in table && b in table
  {
    table[a].blockHeight > table[b].blockHeight
    || (table[a].blockHeight == table[b].blockHeight && a.eventIndex <= b.eventIndex)
  }

  /** The answers PostgreSQL may give: rows the order does not separate may come in any order. */
  ghost predicate IsAnswer(f: Filter, table: EventTable, res: seq<EventKey>) {
    var keys := SelectedKeys(Compiled(Parts(f)), table);
    && Distinct(res)
    && (forall i :: 0 <= i < |res| ==> res[i] in keys)
    && |res| == Min(|keys|, LimitOf(f))
    && (forall i, j :: 0 <= i < j < |res| ==> NotAfter(table, res[i], res[j]))
    && (forall k, i :: k in keys && k !in res && 0 <= i < |res| ==> NotAfter(table, res[i], k))
  }

  /**
   * Every returned row satisfies the filter; a row that does and is not returned comes no earlier than any that is;
   * and an answer shorter than the limit leaves out none.
   */
  lemma AnswerIsTheFilter(f: Filter, table: EventTable, res: seq<EventKey>, k: EventKey)
    requires IntegerBounds(f) && IsAnswer(f, table, res) && k in table
    ensures k in res ==> Satisfies(f, table[k])
    ensures Satisfies(f, table[k]) && k !in res ==>
              |res| == LimitOf(f) && forall i :: 0 <= i < |res| ==> res[i] in table && NotAfter(table, res[i], k)
  {
    hide Satisfies, Parts, Compiled, NotAfter, LimitOf, IntegerBounds;
    StatementMeansFilter(f, table[k]);
    var keys := SelectedKeys(Compiled(Parts(f)), table);
    if k in keys && k !in res {
      DistinctCount(res);
      assert AsSet(res) <= keys - {k};
      SubsetCount(AsSet(res) + {k}, keys);
    }
  }

  /** How long an answer is, and its order: 50 rows unless a limit other than 0 is asked for, at most 500, latest blocks first. */
  lemma AnswerPage(f: Filter, table: EventTable, res: seq<EventKey>)
    requires IntegerBounds(f) && IsAnswer(f, table, res)
    ensures var n := |set k | k in table && Satisfies(f, table[k])|;
            && (f.limit == None || f.limit == Some(0) ==> |res| == Min(n, 50))
            && (f.limit.Some? && 1 <= f.limit.value <= 500 ==> |res| == Min(n, f.limit.value))
            && (f.limit.Some? && f.limit.value < 0 ==> |res| == Min(n, 1))
            && (f.limit.Some? && f.limit.value > 500 ==> |res| == Min(n, 500))
    ensures forall i, j :: 0 <= i < j < |res| ==>
              && res[i] in table && res[j] in table && table[res[i]].blockHeight >= table[res[j]].blockHeight
              && (table[res[i]].blockHeight == table[res[j]].blockHeight ==> res[i].eventIndex <= res[j].eventIndex)
  {
    hide Satisfies, Parts, Compiled, IntegerBounds, Selects;
    forall k | k in table ensures Selects(Compiled(Parts(f)), table[k]) <==> Satisfies(f, table[k]) { StatementMeansFilter(f, table[k]); }
    assert SelectedKeys(Compiled(Parts(f)), table) == set k | k in table && Satisfies(f, table[k]);
  }
}
