/** The event table and its bulk, idempotent insert: src/store/plt.pg.ts. */
module PltStore {
  import opened Text
  import opened Numerals

  /** UNIQUE (transaction_hash, event_index). */
  datatype EventKey = EventKey(txHash: string, eventIndex: int)

  /** A stored row, apart from its key and its bookkeeping columns; times are seconds. */
  datatype PltEvent = PltEvent(
    blockHash: string,
    blockHeight: int,
    network: string,
    genesisIndex: int,
    finalized: bool,
    eventType: string,
    fromAddress: Option<string>,
    toAddress: Option<string>,
    amountRaw: int,
    assetId: string,
    occurredAt: int
  )

  type EventTable = map<EventKey, PltEvent>

  /** What callers pass: `amountRaw` is "integer string, already in minor units". */
  datatype EventInput = EventInput(
    blockHash: string,
    blockHeight: int,
    txHash: string,
    eventIndex: int,
    network: string,
    genesisIndex: int,
    finalized: bool,
    eventType: string,
    fromAddress: Option<string>,
    toAddress: Option<string>,
    amountRaw: string,
    assetId: string,
    occurredAt: int
  )

  function KeyOf(e: EventInput): EventKey { EventKey(e.txHash, e.eventIndex) }

  function RowOf(e: EventInput): PltEvent
    requires IsSigned(e.amountRaw)
  {
    PltEvent(e.blockHash, e.blockHeight, e.network, e.genesisIndex, e.finalized, e.eventType,
             e.fromAddress, e.toAddress, IntVal(e.amountRaw), e.assetId, e.occurredAt)
  }

  predicate IntegerAmounts(es: seq<EventInput>) {
    forall i :: 0 <= i < |es| ==> IsSigned(es[i].amountRaw)
  }

  /** INSERT ... ON CONFLICT (transaction_hash, event_index) DO NOTHING, row after row. */
  function InsertAll(table: EventTable, es: seq<EventInput>): EventTable
    requires IntegerAmounts(es)
  {
    if es == [] then table
    else
      var before := InsertAll(table, es[..|es| - 1]);
      var e := es[|es| - 1];
      if KeyOf(e) in before then before else before[KeyOf(e) := RowOf(e)]
  }

  /** A query parameter; times travel as timestamps. */
  datatype Param = PText(s: string) | PBool(b: bool) | PTime(t: int) | PNull

  function OptionalText(s: Option<string>): Param {
    match s case None => PNull case Some(t) => PText(t)
  }

  const COLUMNS := 13

  /** The thirteen values pushed for one event, in column order. */
  function Values(e: EventInput): (v: seq<Param>)
    ensures |v| == COLUMNS
  {
    [ PText(e.blockHash), PText(IntText(e.blockHeight)), PText(e.txHash), PText(IntText(e.eventIndex)),
      PText(e.network), PText(IntText(e.genesisIndex)), PBool(e.finalized),
      PText(e.eventType), OptionalText(e.fromAddress), OptionalText(e.toAddress),
      PText(e.amountRaw), PText(e.assetId), PTime(e.occurredAt) ]
  }

  /** The parameters a VALUES tuple names: `$n` is `params[n - 1]`. */
  function Gather(tuple: seq<nat>, params: seq<Param>): Option<seq<Param>> {
    if tuple == [] then Some([])
    else
      match Gather(tuple[..|tuple| - 1], params)
      case None => None
      case Some(front) =>
        var n := tuple[|tuple| - 1];
        if 1 <= n <= |params| then Some(front + [params[n - 1]]) else None
  }

  predicate NullableText(p: Param) { p.PText? || p.PNull? }

  predicate IntegerParam(p: Param) { p.PText? && IsSigned(p.s) }

  function ReadNullable(p: Param): Option<string>
    requires NullableText(p)
  {
    if p.PNull? then None else Some(p.s)
  }

  /** The types of the thirteen columns. */
  predicate RowTypes(v: seq<Param>) {
    && |v| == COLUMNS
    && v[0].PText? && IntegerParam(v[1]) && v[2].PText? && IntegerParam(v[3])
    && v[4].PText? && IntegerParam(v[5]) && v[6].PBool?
    && v[7].PText? && NullableText(v[8]) && NullableText(v[9])
    && IntegerParam(v[10]) && v[11].PText? && v[12].PTime?
  }

  function ReadRow(v: seq<Param>): Option<EventInput> {
    if !RowTypes(v) then None
    else Some(EventInput(v[0].s, IntVal(v[1].s), v[2].s, IntVal(v[3].s), v[4].s, IntVal(v[5].s), v[6].b,
                         v[7].s, ReadNullable(v[8]), ReadNullable(v[9]), v[10].s, v[11].s, v[12].t))
  }

  /** The row a VALUES tuple of parameter numbers denotes, its values cast to the column types. */
  function ReadTuple(tuple: seq<nat>, params: seq<Param>): Option<EventInput> {
    match Gather(tuple, params)
    case None => None
    case Some(v) => ReadRow(v)
  }

  /** The numbers from + 1, ..., from + n. */
  function Consecutive(from: nat, n: nat): (t: seq<nat>)
    ensures |t| == n
  {
    if n == 0 then [] else Consecutive(from, n - 1) + [from + n]
  }

  /** The flat parameter array of a batch. */
  function FlatValues(es: seq<EventInput>): (v: seq<Param>)
    ensures |v| == COLUMNS * |es|
  {
    if es == [] then [] else FlatValues(es[..|es| - 1]) + Values(es[|es| - 1])
  }

  /** The thirteen values read back column by column are the event. */
  lemma ReadRowOfValues(e: EventInput)
    requires IsSigned(e.amountRaw)
    ensures ReadRow(Values(e)) == Some(e)
  {
    hide IntText, IsSigned, IntVal;
    IntTextReads(e.blockHeight);
    IntTextReads(e.eventIndex);
    IntTextReads(e.genesisIndex);
  }

  /** Consecutive numbers gather a slice. */
  lemma {:induction false} GatherSlice(from: nat, n: nat, params: seq<Param>)
    requires from + n <= |params|
    ensures Gather(Consecutive(from, n), params) == Some(params[from..from + n])
  {
    if n == 0 {
      assert params[from..from] == [];
    } else {
      GatherSlice(from, n - 1, params);
      var t := Consecutive(from, n);
      assert t[..n - 1] == Consecutive(from, n - 1) && t[n - 1] == from + n;
      assert params[from..from + n] == params[from..from + n - 1] + [params[from + n - 1]];
    }
  }

  /** The i-th event's values lie at 13 * i in the flat array. */
  lemma {:induction false} FlatAt(es: seq<EventInput>, i: nat)
    requires i < |es|
    ensures FlatValues(es)[i * COLUMNS..i * COLUMNS + COLUMNS] == Values(es[i])
  {
    hide Values;
    var n := |es| - 1;
    var front := FlatValues(es[..n]);
    if i == n {
    } else {
      FlatAt(es[..n], i);
      assert FlatValues(es)[i * COLUMNS..i * COLUMNS + COLUMNS] == front[i * COLUMNS..i * COLUMNS + COLUMNS];
    }
  }

  /** The tuple numbered from 13 * i denotes the i-th event. */
  lemma TupleDenotes(es: seq<EventInput>, i: nat)
    requires IntegerAmounts(es) && i < |es|
    ensures ReadTuple(Consecutive(i * COLUMNS, COLUMNS), FlatValues(es)) == Some(es[i])
  {
    GatherSlice(i * COLUMNS, COLUMNS, FlatValues(es));
    FlatAt(es, i);
    ReadRowOfValues(es[i]);
  }

  /** The thirteen numbers of the template text. */
  function TupleText(base: nat): seq<nat> {
    [base + 1, base + 2, base + 3, base + 4, base + 5, base + 6, base + 7,
     base + 8, base + 9, base + 10, base + 11, base + 12, base + 13]
  }

  lemma TupleTextNumbers(base: nat)
    ensures TupleText(base) == Consecutive(base, COLUMNS)
  {
    ConsecutiveAt(base, COLUMNS);
  }

  lemma {:induction false} ConsecutiveAt(from: nat, n: nat)
    ensures forall k :: 0 <= k < n ==> Consecutive(from, n)[k] == from + k + 1
  {
    if n == 0 {
    } else {
      ConsecutiveAt(from, n - 1);
    }
  }

  /** The flat parameter array and the numbered tuples, built one event at a time. */
  method BuildInsert(events: seq<EventInput>) returns (tuples: seq<seq<nat>>, values: seq<Param>)
    requires IntegerAmounts(events)
    ensures |values| == COLUMNS * |events| && |tuples| == |events|
    ensures forall i :: 0 <= i < |events| ==> ReadTuple(tuples[i], values) == Some(events[i])
  {
    hide Values, ReadTuple, TupleText;
    tuples, values := [], [];
    for i := 0 to |events|
      invariant values == FlatValues(events[..i])
      invariant |tuples| == i && forall j :: 0 <= j < i ==> tuples[j] == Consecutive(j * COLUMNS, COLUMNS)
    {
      var base := i * COLUMNS;
      assert events[..i + 1][..i] == events[..i];
      values := values + Values(events[i]);
      TupleTextNumbers(base);
      tuples := tuples + [TupleText(base)];
    }
    assert events[..|events|] == events;
    forall i | 0 <= i < |events| ensures ReadTuple(tuples[i], values) == Some(events[i]) {
      TupleDenotes(events, i);
    }
  }

  /** PostgreSQL's reading of the statement's VALUES list. */
  method ReadValues(tuples: seq<seq<nat>>, values: seq<Param>, ghost events: seq<EventInput>)
    returns (rows: seq<EventInput>)
    requires |tuples| == |events|
    requires forall i :: 0 <= i < |events| ==> ReadTuple(tuples[i], values) == Some(events[i])
    ensures rows == events
  {
    rows := [];
    for i := 0 to |tuples|
      invariant rows == events[..i]
    {
      rows := rows + [ReadTuple(tuples[i], values).value];
    }
  }

  /** The table a class instance stands for, and the insert the worker and the tools call. */
  class EventStore {
    var table: EventTable

    constructor ()
      ensures table == map[]
    {
      table := map[];
    }

    method InsertPltTransfers(events: seq<EventInput>) returns (inserted: nat)
      requires IntegerAmounts(events)
      modifies this
      ensures table == InsertAll(old(table), events)
      ensures inserted == |table| - |old(table)|
    {
      if |events| == 0 { return 0; }
      var tuples, values := BuildInsert(events);
      var rows := ReadValues(tuples, values, events);
      inserted := Execute(rows);
    }

    /** PostgreSQL's side: add the rows that conflict with nothing, counting them. */
    method Execute(rows: seq<EventInput>) returns (inserted: nat)
      requires IntegerAmounts(rows)
      modifies this
      ensures table == InsertAll(old(table), rows)
      ensures inserted == |table| - |old(table)|
    {
      hide RowOf, KeyOf;
      inserted := 0;
      ghost var was := table;
      for i := 0 to |rows|
        invariant table == InsertAll(was, rows[..i])
        invariant inserted == |table| - |was|
      {
        var k := KeyOf(rows[i]);
        assert rows[..i + 1][..i] == rows[..i];
        if k !in table {
          table := table[k := RowOf(rows[i])];
          inserted := inserted + 1;
        }
      }
      assert rows[..|rows|] == rows;
    }
  }

  /** The keys of a batch. */
  function Keys(es: seq<EventInput>): set<EventKey> { set i | 0 <= i < |es| :: KeyOf(es[i]) }

  /** The insert adds exactly the batch's keys and keeps every stored row as it was. */
  lemma {:induction false} InsertKeys(table: EventTable, es: seq<EventInput>)
    requires IntegerAmounts(es)
    ensures InsertAll(table, es).Keys == table.Keys + Keys(es)
    ensures forall k :: k in table ==> InsertAll(table, es)[k] == table[k]
  {
    if es == [] {
    } else {
      var n := |es| - 1;
      InsertKeys(table, es[..n]);
      KeysOfFront(es);
    }
  }

  lemma KeysOfFront(es: seq<EventInput>)
    requires es != []
    ensures Keys(es) == Keys(es[..|es| - 1]) + {KeyOf(es[|es| - 1])}
  {
    var n := |es| - 1;
    forall k | k in Keys(es) ensures k in Keys(es[..n]) + {KeyOf(es[n])} {
      var i :| 0 <= i < |es| && KeyOf(es[i]) == k;
      if i < n { assert KeyOf(es[..n][i]) == k; }
    }
    forall k | k in Keys(es[..n]) ensures k in Keys(es) {
      var i :| 0 <= i < n && KeyOf(es[..n][i]) == k;
      assert KeyOf(es[i]) == k;
    }
  }

  /** The row says what the event says, its amount read as an integer. */
  predicate Holds(k: EventKey, row: PltEvent, e: EventInput) {
    && k.txHash == e.txHash && k.eventIndex == e.eventIndex
    && row.blockHash == e.blockHash && row.blockHeight == e.blockHeight && row.network == e.network
    && row.genesisIndex == e.genesisIndex && row.finalized == e.finalized && row.eventType == e.eventType
    && row.fromAddress == e.fromAddress && row.toAddress == e.toAddress && row.assetId == e.assetId
    && IsSigned(e.amountRaw) && row.amountRaw == IntVal(e.amountRaw) && row.occurredAt == e.occurredAt
  }

  lemma RowHolds(e: EventInput)
    requires IsSigned(e.amountRaw)
    ensures Holds(KeyOf(e), RowOf(e), e)
  {
  }

  /** A new key gets the content of its first occurrence in the batch. */
  lemma {:induction false} FirstOccurrenceWins(table: EventTable, es: seq<EventInput>, i: nat)
    requires IntegerAmounts(es) && i < |es| && KeyOf(es[i]) !in table
    requires forall j :: 0 <= j < i ==> KeyOf(es[j]) != KeyOf(es[i])
    ensures KeyOf(es[i]) in InsertAll(table, es) && Holds(KeyOf(es[i]), InsertAll(table, es)[KeyOf(es[i])], es[i])
  {
    RowHolds(es[i]);
    hide KeyOf, RowOf, Holds, IsSigned;
    var n := |es| - 1;
    if i < n {
      FirstOccurrenceWins(table, es[..n], i);
    } else {
      InsertKeys(table, es[..n]);
      assert KeyOf(es[i]) !in Keys(es[..n]);
    }
  }

  /** Inserting a batch whose keys are all stored changes nothing, so a repeated insert is a no-op. */
  lemma {:induction false} InsertIdempotent(table: EventTable, es: seq<EventInput>)
    requires IntegerAmounts(es) && Keys(es) <= table.Keys
    ensures InsertAll(table, es) == table
  {
    if es == [] {
    } else {
      var n := |es| - 1;
      KeysOfFront(es);
      InsertIdempotent(table, es[..n]);
    }
  }
}
