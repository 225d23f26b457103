/** Cursor paging over increasing ids: what a bounded page after an overlap window can and cannot reach. */
module Paging {
  import opened Lists

  predicate Increasing(ids: seq<int>) {
    forall i, j :: 0 <= i < j < |ids| ==> ids[i] < ids[j]
  }

  /** How many of the ids are at most c. */
  function Upto(ids: seq<int>, c: int): (n: nat)
    ensures n <= |ids|
  {
    if ids == [] then 0
    else if ids[|ids| - 1] <= c then |ids|
    else Upto(ids[..|ids| - 1], c)
  }

  /** The ids greater than `from`, in order. */
  function After(ids: seq<int>, from: int): seq<int> {
    if ids == [] then []
    else After(ids[..|ids| - 1], from) + (if ids[|ids| - 1] > from then [ids[|ids| - 1]] else [])
  }

  function Take<T>(s: seq<T>, n: nat): seq<T> { if |s| <= n then s else s[..n] }

  function Page(ids: seq<int>, from: int, limit: nat): seq<int> { Take(After(ids, from), limit) }

  /** The greatest of the cursor and the page's ids: the cursor never moves back. */
  function BestOf(page: seq<int>, cursor: int): int {
    if page == [] then cursor else Max(BestOf(page[..|page| - 1], cursor), page[|page| - 1])
  }

  function CursorFrom(cursor: int, overlap: int): int { Max(0, cursor - Max(0, overlap)) }

  /** The cursor after one fetch. */
  function Advance(ids: seq<int>, cursor: int, overlap: int, limit: nat): int {
    BestOf(Page(ids, CursorFrom(cursor, overlap), limit), cursor)
  }

  lemma {:induction false} UptoSplits(ids: seq<int>, c: int)
    requires Increasing(ids)
    ensures forall i :: 0 <= i < |ids| ==> (i < Upto(ids, c) <==> ids[i] <= c)
  {
    if ids == [] || ids[|ids| - 1] <= c {
    } else {
      UptoSplits(ids[..|ids| - 1], c);
    }
  }

  /** Reading a position that may not exist. */
  function At(ids: seq<int>, i: int): int { if 0 <= i < |ids| then ids[i] else 0 }

  lemma UptoIs(ids: seq<int>, c: int, n: nat)
    requires Increasing(ids) && n <= |ids|
    requires forall i :: 0 <= i < n ==> ids[i] <= c
    requires forall i :: n <= i < |ids| ==> ids[i] > c
    ensures Upto(ids, c) == n
  {
    UptoSplits(ids, c);
    var k := Upto(ids, c);
    assert k < n ==> At(ids, k) <= c;
    assert k > n ==> At(ids, n) <= c;
  }

  lemma {:induction false} AfterIsSuffix(ids: seq<int>, from: int)
    requires Increasing(ids)
    ensures After(ids, from) == ids[Upto(ids, from)..]
  {
    if ids == [] {
    } else {
      var n := |ids| - 1;
      AfterIsSuffix(ids[..n], from);
      UptoSplits(ids, from);
      if ids[n] <= from {
        UptoIs(ids[..n], from, n);
        assert After(ids, from) == [];
      } else {
        assert ids[Upto(ids, from)..] == ids[..n][Upto(ids, from)..] + [ids[n]];
      }
    }
  }

  /** Increasing integers are at least as far apart as their positions. */
  lemma {:induction false} Spread(ids: seq<int>, i: nat, j: nat)
    requires Increasing(ids) && i <= j < |ids|
    ensures ids[j] - ids[i] >= j - i
  {
    if i == j {
    } else {
      Spread(ids, i, j - 1);
    }
  }

  /** At most c - from ids lie in (from, c]. */
  lemma Gap(ids: seq<int>, from: int, c: int)
    requires Increasing(ids) && from <= c
    ensures 0 <= Upto(ids, c) - Upto(ids, from) <= c - from
  {
    var u, v := Upto(ids, from), Upto(ids, c);
    UptoSplits(ids, from);
    UptoSplits(ids, c);
    assert u > v ==> At(ids, v) <= from;
    if v > u { Spread(ids, u, v - 1); }
  }

  /** Where the page ends, as a position in the ids. */
  function PageEnd(ids: seq<int>, from: int, limit: nat): (e: nat)
    ensures Upto(ids, from) <= e <= |ids|
  {
    if Upto(ids, from) + limit < |ids| then Upto(ids, from) + limit else |ids|
  }

  lemma PageIsSlice(ids: seq<int>, from: int, limit: nat)
    requires Increasing(ids)
    ensures Page(ids, from, limit) == ids[Upto(ids, from)..PageEnd(ids, from, limit)]
  {
    AfterIsSuffix(ids, from);
  }

  lemma {:induction false} BestOfIncreasing(page: seq<int>, cursor: int)
    requires Increasing(page)
    ensures BestOf(page, cursor) == if page == [] then cursor else Max(cursor, page[|page| - 1])
  {
    if page == [] {
    } else {
      BestOfIncreasing(page[..|page| - 1], cursor);
    }
  }

  /** A cursor below zero is possible only as a start-up override; then every id has to be positive. */
  predicate Readable(ids: seq<int>, cursor: int) {
    Increasing(ids) && (cursor >= 0 || forall i :: 0 <= i < |ids| ==> ids[i] > 0)
  }

  /** The overlap window ends at the cursor. */
  lemma Window(ids: seq<int>, cursor: int, overlap: int)
    requires Readable(ids, cursor)
    ensures 0 <= Upto(ids, cursor) - Upto(ids, CursorFrom(cursor, overlap)) <= Max(0, overlap)
  {
    if cursor >= 0 {
      Gap(ids, CursorFrom(cursor, overlap), cursor);
    } else {
      UptoIs(ids, 0, 0);
      UptoIs(ids, cursor, 0);
    }
  }

  /** After a fetch the cursor has read exactly to the later of where it was and the page's end. */
  lemma AdvanceReads(ids: seq<int>, cursor: int, overlap: int, limit: nat)
    requires Readable(ids, cursor)
    ensures var c := Advance(ids, cursor, overlap, limit);
            var e := PageEnd(ids, CursorFrom(cursor, overlap), limit);
            && c >= cursor
            && Upto(ids, c) == Max(Upto(ids, cursor), e)
            && (c > cursor <==> e > Upto(ids, cursor))
            && (c > cursor ==> c == ids[e - 1])
  {
    var from := CursorFrom(cursor, overlap);
    var u, e := Upto(ids, from), PageEnd(ids, from, limit);
    PageIsSlice(ids, from, limit);
    var page := ids[u..e];
    BestOfIncreasing(page, cursor);
    UptoSplits(ids, cursor);
    Window(ids, cursor, overlap);
    if e > u {
      assert page[|page| - 1] == ids[e - 1];
      if ids[e - 1] > cursor { UptoIs(ids, ids[e - 1], e); }
    }
  }

  /* ---------- progress ---------- */

  const LIMIT := 100

  /**
   * A fetch with something unread moves the cursor exactly when fewer than a hundred ids that are read already lie
   * in the overlap window; it then reads a hundred minus that many, or all there is.
   */
  lemma FetchProgress(ids: seq<int>, cursor: int, overlap: int)
    requires Readable(ids, cursor)
    ensures var seen := Upto(ids, cursor) - Upto(ids, CursorFrom(cursor, overlap));
            var unread := |ids| - Upto(ids, cursor);
            var c := Advance(ids, cursor, overlap, LIMIT);
            && 0 <= seen <= Max(0, overlap)
            && (c > cursor <==> unread > 0 && seen < LIMIT)
            && Upto(ids, c) - Upto(ids, cursor) == Min(unread, Max(0, LIMIT - seen))
  {
    hide Advance, Upto, Readable;
    Window(ids, cursor, overlap);
    AdvanceReads(ids, cursor, overlap, LIMIT);
  }

  /** An overlap setting under which a fetch with something unread always advances. */
  ghost predicate AlwaysAdvances(overlap: int) {
    forall ids: seq<int>, cursor: nat ::
      Increasing(ids) && Upto(ids, cursor) < |ids| ==> Advance(ids, cursor, overlap, LIMIT) > cursor
  }

  /** 1, 2, ..., n. */
  function Dense(n: nat): (ids: seq<int>)
    ensures |ids| == n && Increasing(ids) && forall i :: 0 <= i < n ==> ids[i] == i + 1
  {
    seq(n, i => i + 1)
  }

  lemma DenseUpto(n: nat, c: nat)
    ensures Upto(Dense(n), c) == Min(n, c)
  {
    UptoIs(Dense(n), c, Min(n, c));
  }

  /** Overlaps up to 99 are safe; from 100 on, dense ids stop the worker for good. */
  lemma SafeOverlaps(overlap: int)
    ensures AlwaysAdvances(overlap) <==> overlap <= 99
  {
    if overlap <= 99 {
      forall ids: seq<int>, cursor: nat | Increasing(ids) && Upto(ids, cursor) < |ids|
        ensures Advance(ids, cursor, overlap, LIMIT) > cursor
      {
        FetchProgress(ids, cursor, overlap);
      }
    } else {
      StuckOnDenseIds(overlap);
    }
  }

  /** The failing family: ids 1 to 2 * overlap read up to `overlap`. */
  lemma StuckOnDenseIds(overlap: nat)
    requires overlap >= 100
    ensures var ids := Dense(2 * overlap);
            Increasing(ids) && Upto(ids, overlap) < |ids| && Advance(ids, overlap, overlap, LIMIT) == overlap
  {
    DenseUpto(2 * overlap, overlap);
    DenseUpto(2 * overlap, 0);
    FetchProgress(Dense(2 * overlap), overlap, overlap);
    AdvanceReads(Dense(2 * overlap), overlap, overlap, LIMIT);
  }

  /** What was appended to a growing list of ids. */
  predicate Extends(a: seq<int>, b: seq<int>) { |a| <= |b| && b[..|a|] == a }

  lemma UptoOfPrefix(a: seq<int>, b: seq<int>, c: int)
    requires Extends(a, b) && Increasing(b)
    ensures Increasing(a) && Upto(a, c) == Min(|a|, Upto(b, c))
  {
    UptoSplits(b, c);
    UptoIs(a, c, Min(|a|, Upto(b, c)));
  }

  /** The cursor after fetching from each view in turn. */
  function Fetches(views: seq<seq<int>>, cursor: int, overlap: int): int {
    if views == [] then cursor
    else Advance(views[|views| - 1], Fetches(views[..|views| - 1], cursor, overlap), overlap, LIMIT)
  }

  /** The ids read by every fetch when no more than the window's worth is read twice. */
  function Fresh(overlap: int): int { LIMIT - Max(0, overlap) }

  /**
   * Draining: of the ids unread at the start, n fetches read at least n * Fresh(overlap), however the list grows
   * meanwhile; so ceil(unread / Fresh(overlap)) fetches read them all.
   */
  lemma {:induction false} Drains(ids: seq<int>, views: seq<seq<int>>, cursor: nat, overlap: int)
    requires overlap <= 99
    requires forall i :: 0 <= i < |views| ==> Increasing(views[i]) && Extends(ids, views[i])
    requires Increasing(ids)
    ensures var c := Fetches(views, cursor, overlap);
            c >= cursor && Upto(ids, c) >= Min(|ids|, Upto(ids, cursor) + |views| * Fresh(overlap))
  {
    hide Fresh;
    if views == [] {
    } else {
      var n := |views| - 1;
      Drains(ids, views[..n], cursor, overlap);
      DrainStep(ids, views[n], Fetches(views[..n], cursor, overlap), overlap, Upto(ids, cursor) + n * Fresh(overlap));
      NextMultiple(n, Fresh(overlap));
    }
  }

  lemma DrainStep(ids: seq<int>, view: seq<int>, before: nat, overlap: int, read: int)
    requires overlap <= 99 && Increasing(view) && Extends(ids, view)
    requires Upto(ids, before) >= Min(|ids|, read)
    ensures var c := Advance(view, before, overlap, LIMIT);
            c >= before && Upto(ids, c) >= Min(|ids|, read + Fresh(overlap))
  {
    FetchProgress(view, before, overlap);
    AdvanceReads(view, before, overlap, LIMIT);
    UptoOfPrefix(ids, view, before);
    UptoOfPrefix(ids, view, Advance(view, before, overlap, LIMIT));
  }

  lemma NextMultiple(n: int, m: int)
    ensures (n + 1) * m == n * m + m
  {
  }
}
