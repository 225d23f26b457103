/** The fixture event source: src/worker/pltSource.fixture.ts. */
module Fixture {
  import opened Text
  import opened Lists
  import opened PltStore

  /** A row of the fixture file; an absent field is None, or "" where the source treats the two alike. */
  datatype FixtureRow = FixtureRow(
    cursor: Option<int>,
    network: Option<string>,
    genesisIndex: Option<int>,
    blockHash: string,
    blockHeight: Option<int>,
    txHash: string,
    eventIndex: Option<int>,
    eventType: Option<string>,
    fromAddress: Option<string>,
    toAddress: Option<string>,
    amountRaw: string,
    assetId: string,
    occurredAt: Option<int>,
    finalized: Option<bool>
  )

  /** What the path holds: nothing, JSON that is no array, or an array whose non-objects are None. */
  datatype File = Missing | NotArray | Rows(rows: seq<Option<FixtureRow>>)

  datatype Item = Item(cursor: int, event: EventInput)

  datatype Options = Options(network: string, genesisIndex: int, limit: int)

  function Or<T>(value: Option<T>, otherwise: T): T { if value.Some? then value.value else otherwise }

  const STRIDE := 1_000_000

  function DeriveCursor(row: FixtureRow): int {
    if row.cursor.Some? then row.cursor.value
    else Or(row.blockHeight, 0) * STRIDE + Or(row.eventIndex, 0)
  }

  predicate Usable(row: Option<FixtureRow>) {
    && row.Some?
    && row.value.blockHash != "" && row.value.blockHeight.Some?
    && row.value.txHash != "" && row.value.eventIndex.Some?
    && row.value.amountRaw != "" && row.value.assetId != ""
  }

  function ItemOf(opts: Options, row: FixtureRow, now: int): Item {
    Item(DeriveCursor(row),
         EventInput(row.blockHash, Or(row.blockHeight, 0), row.txHash, Or(row.eventIndex, 0),
                    Or(row.network, opts.network), Or(row.genesisIndex, opts.genesisIndex), Or(row.finalized, true),
                    Or(row.eventType, "transfer"), row.fromAddress, row.toAddress, row.amountRaw, row.assetId,
                    Or(row.occurredAt, now)))
  }

  /** The items of the usable rows, in file order. */
  function Parsed(opts: Options, rows: seq<Option<FixtureRow>>, now: int): seq<Item> {
    if rows == [] then []
    else
      var n := |rows| - 1;
      Parsed(opts, rows[..n], now) + (if Usable(rows[n]) then [ItemOf(opts, rows[n].value, now)] else [])
  }

  /** An item's fields are its row's, each under its own name. */
  lemma FullRow(opts: Options, now: int, cursor: int, network: string, g: int, block: string, height: int, tx: string, index: int,
                kind: string, from: Option<string>, to: Option<string>, amount: string, asset: string, at: int, finalized: bool)
    ensures ItemOf(opts, FixtureRow(Some(cursor), Some(network), Some(g), block, Some(height), tx, Some(index), Some(kind), from, to,
                                    amount, asset, Some(at), Some(finalized)), now)
            == Item(cursor, EventInput(block, height, tx, index, network, g, finalized, kind, from, to, amount, asset, at))
  {
  }

  /** A row with no more than it needs is a finalized transfer on the configured network, seen now. */
  lemma BareRow(opts: Options, now: int, block: string, height: int, tx: string, index: int, from: Option<string>, to: Option<string>,
                amount: string, asset: string)
    ensures ItemOf(opts, FixtureRow(None, None, None, block, Some(height), tx, Some(index), None, from, to, amount, asset, None, None), now)
            == Item(height * 1_000_000 + index,
                    EventInput(block, height, tx, index, opts.network, opts.genesisIndex, true, "transfer", from, to, amount, asset, now))
  {
  }

  /** An object with all of what an event needs. */
  predicate HasAll(row: Option<FixtureRow>) {
    match row
    case None => false
    case Some(FixtureRow(_, _, _, block, height, tx, index, _, _, _, amount, asset, _, _)) =>
      block != "" && height != None && tx != "" && index != None && amount != "" && asset != ""
  }

  /** The k-th item comes from the k-th row that has all of it. */
  lemma {:induction false} ParsedAre(opts: Options, rows: seq<Option<FixtureRow>>, now: int, i: nat)
    requires i < |rows|
    ensures |Parsed(opts, rows[..i], now)| <= |Parsed(opts, rows, now)|
    ensures HasAll(rows[i]) ==>
              var at := |Parsed(opts, rows[..i], now)|;
              at < |Parsed(opts, rows, now)| && Parsed(opts, rows, now)[at] == ItemOf(opts, rows[i].value, now)
    ensures |Parsed(opts, rows[..i + 1], now)| == |Parsed(opts, rows[..i], now)| + (if HasAll(rows[i]) then 1 else 0)
  {
    hide ItemOf;
    var n := |rows| - 1;
    assert rows[..i + 1][..i] == rows[..i];
    if i < n {
      assert rows[..n][..i] == rows[..i] && rows[..n][..i + 1] == rows[..i + 1];
      ParsedAre(opts, rows[..n], now, i);
    } else {
      assert rows[..i + 1] == rows;
    }
  }

  /* ---------- the derived cursor ---------- */

  /**
   * Rows without an explicit cursor are ordered by height, then by event index, and only the same position shares a
   * cursor, as long as the indices stay below a million.
   */
  lemma CursorIsLexicographic(a: FixtureRow, b: FixtureRow)
    requires a.cursor.None? && b.cursor.None?
    requires 0 <= Or(a.eventIndex, 0) < STRIDE && 0 <= Or(b.eventIndex, 0) < STRIDE
    ensures var (h, i) := (Or(a.blockHeight, 0), Or(a.eventIndex, 0));
            var (k, j) := (Or(b.blockHeight, 0), Or(b.eventIndex, 0));
            && (DeriveCursor(a) < DeriveCursor(b) <==> h < k || (h == k && i < j))
            && (DeriveCursor(a) == DeriveCursor(b) <==> h == k && i == j)
  {
    var h, k := Or(a.blockHeight, 0), Or(b.blockHeight, 0);
    if h < k {
      assert k * STRIDE >= (h + 1) * STRIDE;
    } else if k < h {
      assert h * STRIDE >= (k + 1) * STRIDE;
    }
  }

  /** From a million on they collide: (height, i + 1,000,000) has the cursor of (height + 1, i). */
  lemma CursorsCollide(a: FixtureRow, b: FixtureRow, height: int, i: int)
    requires a.cursor.None? && b.cursor.None?
    requires a.blockHeight == Some(height) && a.eventIndex == Some(i + STRIDE)
    requires b.blockHeight == Some(height + 1) && b.eventIndex == Some(i)
    ensures DeriveCursor(a) == DeriveCursor(b)
  {
    assert (height + 1) * STRIDE == height * STRIDE + STRIDE;
  }

  /* ---------- sorting ---------- */

  predicate Sorted(items: seq<Item>) {
    forall i, j :: 0 <= i < j < |items| ==> items[i].cursor <= items[j].cursor
  }

  function InsertItem(x: Item, items: seq<Item>): seq<Item> {
    var n := |items| - 1;
    if items == [] || items[n].cursor <= x.cursor then items + [x]
    else InsertItem(x, items[..n]) + [items[n]]
  }

  /** `items.sort((a, b) => a.cursor - b.cursor)`, which is stable. */
  function SortByCursor(items: seq<Item>): seq<Item> {
    if items == [] then [] else InsertItem(items[|items| - 1], SortByCursor(items[..|items| - 1]))
  }

  /** The items with one cursor, in order. */
  function At(items: seq<Item>, cursor: int): seq<Item> {
    if items == [] then []
    else
      var n := |items| - 1;
      At(items[..n], cursor) + (if items[n].cursor == cursor then [items[n]] else [])
  }

  lemma {:induction false} InsertKeepsOrder(x: Item, items: seq<Item>, bound: int)
    requires Sorted(items) && x.cursor <= bound && forall i :: 0 <= i < |items| ==> items[i].cursor <= bound
    ensures var r := InsertItem(x, items);
            Sorted(r) && forall i :: 0 <= i < |r| ==> r[i].cursor <= bound
  {
    var n := |items| - 1;
    if items == [] || items[n].cursor <= x.cursor {
    } else {
      InsertKeepsOrder(x, items[..n], items[n].cursor);
    }
  }

  lemma {:induction false} InsertKeepsItems(x: Item, items: seq<Item>)
    ensures multiset(InsertItem(x, items)) == multiset(items) + multiset{x}
  {
    var n := |items| - 1;
    if items == [] || items[n].cursor <= x.cursor {
    } else {
      InsertKeepsItems(x, items[..n]);
      assert items == items[..n] + [items[n]];
    }
  }

  lemma {:induction false} InsertKeepsTies(x: Item, items: seq<Item>, cursor: int)
    requires Sorted(items)
    ensures At(InsertItem(x, items), cursor) == At(items, cursor) + (if x.cursor == cursor then [x] else [])
  {
    var n := |items| - 1;
    if items == [] || items[n].cursor <= x.cursor {
      assert (items + [x])[..|items|] == items;
    } else {
      InsertKeepsTies(x, items[..n], cursor);
      var front := InsertItem(x, items[..n]);
      assert (front + [items[n]])[..|front|] == front;
    }
  }

  lemma {:induction false} SortIsSorted(items: seq<Item>) returns (bound: int)
    ensures Sorted(SortByCursor(items))
    ensures forall i :: 0 <= i < |SortByCursor(items)| ==> SortByCursor(items)[i].cursor <= bound
  {
    hide InsertItem;
    bound := 0;
    if items == [] {
    } else {
      var x := items[|items| - 1];
      bound := SortIsSorted(items[..|items| - 1]);
      if bound < x.cursor { bound := x.cursor; }
      InsertKeepsOrder(x, SortByCursor(items[..|items| - 1]), bound);
    }
  }

  lemma {:induction false} SortKeepsItems(items: seq<Item>)
    ensures multiset(SortByCursor(items)) == multiset(items)
  {
    hide InsertItem;
    if items == [] {
    } else {
      var n := |items| - 1;
      SortKeepsItems(items[..n]);
      InsertKeepsItems(items[n], SortByCursor(items[..n]));
      assert items == items[..n] + [items[n]];
    }
  }

  lemma {:induction false} SortKeepsTies(items: seq<Item>, cursor: int)
    ensures At(SortByCursor(items), cursor) == At(items, cursor)
  {
    hide InsertItem;
    if items == [] {
    } else {
      var n := |items| - 1;
      SortKeepsTies(items[..n], cursor);
      var bound := SortIsSorted(items[..n]);
      InsertKeepsTies(items[n], SortByCursor(items[..n]), cursor);
    }
  }

  /** The sort is sorted, keeps every item, and keeps the file order among equal cursors. */
  lemma SortIsStable(items: seq<Item>, cursor: int)
    ensures var r := SortByCursor(items);
            Sorted(r) && multiset(r) == multiset(items) && At(r, cursor) == At(items, cursor)
  {
    hide SortByCursor, At, Sorted;
    var bound := SortIsSorted(items);
    SortKeepsItems(items);
    SortKeepsTies(items, cursor);
  }

  /* ---------- fetching ---------- */

  /** `all.filter((x) => x.cursor > last)`. */
  function Past(items: seq<Item>, last: int): seq<Item> {
    if items == [] then []
    else
      var n := |items| - 1;
      Past(items[..n], last) + (if items[n].cursor > last then [items[n]] else [])
  }

  /** `s.slice(0, n)`; a negative n drops from the end. */
  function Slice<T>(s: seq<T>, n: int): seq<T> {
    if n >= |s| then s else if n >= 0 then s[..n] else if |s| + n > 0 then s[..|s| + n] else []
  }

  /** A slice is a front of the list: n elements if there are as many, or all but the last -n. */
  lemma SliceLength<T>(s: seq<T>, n: int)
    ensures Slice(s, n) <= s && |Slice(s, n)| == if n >= 0 then Min(n, |s|) else Max(|s| + n, 0)
  {
  }

  function Page(items: seq<Item>, last: int, limit: int): seq<Item> { Slice(Past(items, last), limit) }

  /** The greatest cursor of a page, or the old one. */
  function Best(page: seq<Item>, last: int): int {
    if page == [] then last
    else if |page| == 1 then page[0].cursor
    else
      var n := |page| - 1;
      if page[n].cursor > Best(page[..n], last) then page[n].cursor else Best(page[..n], last)
  }

  function Events(page: seq<Item>): (events: seq<EventInput>)
    ensures |events| == |page| && forall i :: 0 <= i < |page| ==> events[i] == page[i].event
  {
    seq(|page|, i requires 0 <= i < |page| => page[i].event)
  }

  class FixtureSource {
    const opts: Options
    var cached: Option<seq<Item>>

    constructor (opts: Options)
      ensures this.opts == opts && cached == None
    {
      this.opts, cached := opts, None;
    }

    /** load: the file is read once; a file that is missing or no array is an error and is read again next time. */
    method Load(file: File, now: int) returns (r: Result<seq<Item>>)
      modifies this
      ensures old(cached).Some? ==> r == Ok(old(cached).value)
      ensures old(cached).None? && file.Rows? ==> r == Ok(SortByCursor(Parsed(opts, file.rows, now)))
      ensures old(cached).None? && !file.Rows? ==> r.Err?
      ensures cached == if r.Ok? then Some(r.value) else None
    {
      if cached.Some? { return Ok(cached.value); }
      match file
      case Missing => return Err("[fixture] file not found");
      case NotArray => return Err("[fixture] expected JSON array at root");
      case Rows(rows) =>
        var items := [];
        for i := 0 to |rows|
          invariant items == Parsed(opts, rows[..i], now)
        {
          assert rows[..i + 1][..i] == rows[..i];
          if !Usable(rows[i]) { continue; }
          items := items + [ItemOf(opts, rows[i].value, now)];
        }
        assert rows[..|rows|] == rows;
        items := SortByCursor(items);
        cached := Some(items);
        return Ok(items);
    }

    method FetchSince(file: File, now: int, last: int) returns (r: Result<(seq<EventInput>, int)>)
      modifies this
      ensures cached == if old(cached).Some? then old(cached)
                        else if file.Rows? then Some(SortByCursor(Parsed(opts, file.rows, now)))
                        else None
      ensures match cached
              case None => r.Err?
              case Some(items) =>
                r == Ok((Events(Page(items, last, opts.limit)), Best(Page(items, last, opts.limit), last)))
    {
      var all := Load(file, now);
      if all.Err? { return Err(all.error); }
      var page := Page(all.value, last, opts.limit);
      return Ok((Events(page), Best(page, last)));
    }
  }

  /* ---------- draining ---------- */

  /** The cursor after k fetches from 0, each starting where the one before ended. */
  function Cursor(items: seq<Item>, limit: int, k: nat): int {
    if k == 0 then 0
    else
      var c := Cursor(items, limit, k - 1);
      Best(Page(items, c, limit), c)
  }

  /** Everything those fetches return, in the order returned. */
  function Collected(items: seq<Item>, limit: int, k: nat): seq<Item> {
    if k == 0 then []
    else Collected(items, limit, k - 1) + Page(items, Cursor(items, limit, k - 1), limit)
  }

  /** Fetching until nothing more comes yields each item once, in order. */
  ghost predicate Drains(items: seq<Item>, limit: int) {
    exists k: nat :: Collected(items, limit, k) == items && Page(items, Cursor(items, limit, k), limit) == []
  }

  predicate Strict(items: seq<Item>) {
    && (forall i, j :: 0 <= i < j < |items| ==> items[i].cursor < items[j].cursor)
    && (forall i :: 0 <= i < |items| ==> items[i].cursor > 0)
  }

  lemma {:induction false} PastIsRest(items: seq<Item>, m: nat, last: int)
    requires m <= |items|
    requires forall i :: 0 <= i < |items| ==> (i < m <==> items[i].cursor <= last)
    ensures Past(items, last) == items[m..]
  {
    if items == [] {
    } else {
      var n := |items| - 1;
      PastIsRest(items[..n], if m <= n then m else n, last);
      if m <= n { assert items[m..] == items[..n][m..] + [items[n]]; }
    }
  }

  lemma {:induction false} BestIsLast(page: seq<Item>, last: int)
    requires Sorted(page)
    ensures Best(page, last) == if page == [] then last else page[|page| - 1].cursor
  {
    if |page| <= 1 {
    } else {
      BestIsLast(page[..|page| - 1], last);
    }
  }

  /** The cursor that stands for the first m items. */
  function Mark(items: seq<Item>, m: nat): int
    requires m <= |items|
  {
    if m == 0 then 0 else items[m - 1].cursor
  }

  /** One fetch from the mark of m items returns the next `limit` of them. */
  lemma NextPage(items: seq<Item>, m: nat, limit: nat)
    requires Strict(items) && m <= |items|
    ensures var e := Min(m + limit, |items|);
            && Page(items, Mark(items, m), limit) == items[m..e]
            && Best(items[m..e], Mark(items, m)) == Mark(items, e)
  {
    PastIsRest(items, m, Mark(items, m));
    var e := Min(m + limit, |items|);
    assert items[m..][..e - m] == items[m..e];
    BestIsLast(items[m..e], Mark(items, m));
  }

  /** k fetches return the first k * limit items, or all. */
  lemma {:induction false} FetchesAre(items: seq<Item>, limit: nat, k: nat)
    requires Strict(items)
    ensures var m := Min(k * limit, |items|);
            Collected(items, limit, k) == items[..m] && Cursor(items, limit, k) == Mark(items, m)
  {
    hide Page, Best, Mark, Strict;
    if k == 0 {
      assert Mark(items, 0) == 0 by { MarkZero(items); }
    } else {
      FetchesAre(items, limit, k - 1);
      var m := Min((k - 1) * limit, |items|);
      NextPage(items, m, limit);
      assert k * limit == (k - 1) * limit + limit;
      var e := Min(m + limit, |items|);
      assert items[..m] + items[m..e] == items[..e];
      assert e == Min(k * limit, |items|);
    }
  }

  lemma MarkZero(items: seq<Item>)
    ensures Mark(items, 0) == 0
  {
  }

  /** ceil(n / limit) fetches are enough, and the next one is empty. */
  lemma StrictDrains(items: seq<Item>, limit: nat)
    requires Strict(items) && limit >= 1
    ensures Drains(items, limit)
  {
    hide Page, Best, Mark, Strict, Cursor, Collected;
    var n := |items|;
    FetchesAre(items, limit, n);
    AtLeast(n, limit);
    assert items[..n] == items;
    NextPage(items, n, limit);
    assert Collected(items, limit, n) == items && Page(items, Cursor(items, limit, n), limit) == [];
  }

  lemma AtLeast(n: nat, limit: nat)
    requires limit >= 1
    ensures n * limit >= n
  {
    assert n * limit == n + n * (limit - 1);
  }

  /** Nothing at or below the cursor ever comes again. */
  lemma {:induction false} PastIsPast(items: seq<Item>, last: int)
    ensures forall i :: 0 <= i < |Past(items, last)| ==> Past(items, last)[i].cursor > last
  {
    if items == [] {
    } else {
      PastIsPast(items[..|items| - 1], last);
    }
  }

  lemma {:induction false} BestIsForward(page: seq<Item>, last: int)
    requires forall i :: 0 <= i < |page| ==> page[i].cursor > last
    ensures Best(page, last) >= last
  {
    if |page| <= 1 {
    } else {
      BestIsForward(page[..|page| - 1], last);
    }
  }

  /** From the first cursor on, whatever is collected later lies past it. */
  lemma {:induction false} LaterIsPast(items: seq<Item>, limit: int, k: nat, from: nat)
    requires from <= k
    ensures var early := Collected(items, limit, from);
            var all := Collected(items, limit, k);
            && |early| <= |all| && all[..|early|] == early
            && Cursor(items, limit, k) >= Cursor(items, limit, from)
            && forall i :: |early| <= i < |all| ==> all[i].cursor > Cursor(items, limit, from)
  {
    hide Past, Best;
    if from == k {
    } else {
      LaterIsPast(items, limit, k - 1, from);
      var c := Cursor(items, limit, k - 1);
      PastIsPast(items, c);
      BestIsForward(Page(items, c, limit), c);
    }
  }

  /**
   * What draining needs, exactly: for sorted items, every page size drains the source if and only if the cursors are
   * positive and no two are equal. A tie across a page's end loses the second event.
   */
  lemma DrainsIff(items: seq<Item>)
    requires Sorted(items)
    ensures (forall limit: nat :: limit >= 1 ==> Drains(items, limit)) <==> Strict(items)
  {
    if Strict(items) {
      forall limit: nat | limit >= 1 ensures Drains(items, limit) { StrictDrains(items, limit); }
    } else if exists i :: 0 <= i < |items| && items[i].cursor <= 0 {
      var i :| 0 <= i < |items| && items[i].cursor <= 0;
      NonPositiveIsLost(items, i);
    } else {
      var i := FirstTie(items);
      TieIsLost(items, i);
    }
  }

  lemma NonPositiveIsLost(items: seq<Item>, i: nat)
    requires i < |items| && items[i].cursor <= 0
    ensures !Drains(items, 1)
  {
    forall k: nat ensures Collected(items, 1, k) != items {
      LaterIsPast(items, 1, k, 0);
    }
  }

  lemma FirstTie(items: seq<Item>) returns (i: nat)
    requires Sorted(items) && !Strict(items)
    requires forall i :: 0 <= i < |items| ==> items[i].cursor > 0
    ensures i + 1 < |items| && items[i].cursor == items[i + 1].cursor
  {
    var a, b :| 0 <= a < b < |items| && items[a].cursor >= items[b].cursor;
    i := a;
    assert items[a].cursor <= items[a + 1].cursor <= items[b].cursor;
  }

  /** The first fetch returns the first items. */
  lemma FirstPage(items: seq<Item>, limit: nat)
    requires Sorted(items) && 1 <= limit <= |items|
    requires forall j :: 0 <= j < |items| ==> items[j].cursor > 0
    ensures Collected(items, limit, 1) == items[..limit] && Cursor(items, limit, 1) == items[limit - 1].cursor
  {
    hide Best, Past, Sorted;
    PastIsRest(items, 0, 0);
    assert items[0..] == items;
    assert Page(items, 0, limit) == items[..limit];
    SortedFront(items, limit);
    BestIsLast(items[..limit], 0);
    NoFetchYet(items, limit);
    assert [] + items[..limit] == items[..limit];
  }

  lemma SortedFront(items: seq<Item>, n: nat)
    requires Sorted(items) && n <= |items|
    ensures Sorted(items[..n])
  {
  }

  lemma TieIsLost(items: seq<Item>, i: nat)
    requires Sorted(items) && i + 1 < |items| && items[i].cursor == items[i + 1].cursor
    requires forall j :: 0 <= j < |items| ==> items[j].cursor > 0
    ensures !Drains(items, i + 1)
  {
    hide Page, Sorted, Collected, Cursor;
    var limit := i + 1;
    FirstPage(items, limit);
    forall k: nat ensures Collected(items, limit, k) != items {
      if k >= 1 {
        LaterIsPast(items, limit, k, 1);
      } else {
        NoFetchYet(items, limit);
      }
    }
  }

  lemma NoFetchYet(items: seq<Item>, limit: int)
    ensures Collected(items, limit, 0) == [] && Cursor(items, limit, 0) == 0
  {
  }
}
