/** The network migration report: src/tools/reportCaip2NetworkInventory.ts. */
module Inventory {
  import opened Text
  import opened Lists
  import opened NetworkId

  /** A row's key: its network and the rest of its primary key, as text. */
  datatype Row = Row(network: string, rest: seq<string>)

  const BAR := '|'

  function RowKey(parts: seq<string>): string { Join(parts, BAR) }

  /** The row with its network in normal form: what the proposed rewrite makes of it. */
  function Rewritten(r: Row): Row { r.(network := NormalizeNetworkId(r.network)) }

  function KeyText(r: Row): string { RowKey([r.network] + r.rest) }

  predicate Legacy(r: Row) { Rewritten(r) != r }

  /** The source keys of the rows whose target key is t. */
  function Sources(rows: seq<Row>, t: string): set<string> {
    set i | 0 <= i < |rows| && KeyText(Rewritten(rows[i])) == t :: KeyText(rows[i])
  }

  function Targets(rows: seq<Row>): set<string> { set i | 0 <= i < |rows| :: KeyText(Rewritten(rows[i])) }

  predicate Collides(rows: seq<Row>, t: string) { |Sources(rows, t)| > 1 }

  /** The reported collisions: each colliding target key with its distinct source keys. */
  function Collisions(rows: seq<Row>): map<string, set<string>> {
    map t | t in Targets(rows) && Collides(rows, t) :: Sources(rows, t)
  }

  function LegacyRows(rows: seq<Row>): seq<Row> {
    if rows == [] then []
    else LegacyRows(rows[..|rows| - 1]) + (if Legacy(rows[|rows| - 1]) then [rows[|rows| - 1]] else [])
  }

  /** The source keys of all rows in a collision. */
  function Skipped(rows: seq<Row>, targets: set<string>): set<string> {
    set i | 0 <= i < |rows| && KeyText(Rewritten(rows[i])) in targets && Collides(rows, KeyText(Rewritten(rows[i])))
      :: KeyText(rows[i])
  }

  /* ---------- keys as text ---------- */

  predicate BarFree(r: Row) { BAR !in r.network && forall i :: 0 <= i < |r.rest| ==> BAR !in r.rest[i] }

  lemma {:induction false} SplitOfJoin(parts: seq<string>)
    requires parts != [] && forall i :: 0 <= i < |parts| ==> BAR !in parts[i]
    ensures Split(Join(parts, BAR), BAR) == parts
  {
    if |parts| == 1 {
      SplitWhole(parts[0], BAR);
    } else {
      SplitOfJoin(parts[1..]);
      SplitFirst(parts[0], BAR, Join(parts[1..], BAR));
      assert parts == [parts[0]] + parts[1..];
    }
  }

  /** Without bars in the fields, the key text identifies the row. */
  lemma KeyTextIsRow(a: Row, b: Row)
    requires BarFree(a) && BarFree(b)
    ensures KeyText(a) == KeyText(b) <==> a == b
  {
    SplitOfJoin([a.network] + a.rest);
    SplitOfJoin([b.network] + b.rest);
    if KeyText(a) == KeyText(b) {
      assert [a.network] + a.rest == [b.network] + b.rest;
      assert a.network == ([a.network] + a.rest)[0] == ([b.network] + b.rest)[0] == b.network;
      assert a.rest == ([a.network] + a.rest)[1..] == ([b.network] + b.rest)[1..] == b.rest;
    }
  }

  lemma {:induction false} SplitKeepsFree(s: string, sep: char)
    requires BAR !in s
    ensures forall i :: 0 <= i < |Split(s, sep)| ==> BAR !in Split(s, sep)[i]
  {
    if s == "" {
    } else {
      SplitKeepsFree(s[1..], sep);
    }
  }

  lemma NormalizeKeepsFree(raw: string)
    requires BAR !in raw
    ensures BAR !in NormalizeNetworkId(raw)
  {
    hide Trim, Split, Lower;
    TrimSubset(raw);
    var parts := Split(Trim(raw), ':');
    SplitKeepsFree(Trim(raw), ':');
    if |parts| >= 2 { TrimSubset(parts[1]); }
  }

  lemma RewrittenIsFree(r: Row)
    requires BarFree(r)
    ensures BarFree(Rewritten(r))
  {
    hide NormalizeNetworkId;
    NormalizeKeepsFree(r.network);
  }

  /* ---------- the report for one table ---------- */

  /** The grouping loop: for each target key, in the order first met, the source keys pushed under it. */
  method Group(rows: seq<Row>) returns (order: seq<string>, targetMap: map<string, seq<string>>, rewrites: seq<Row>)
    ensures rewrites == LegacyRows(rows)
    ensures targetMap.Keys == Targets(rows)
    ensures forall t :: t in order <==> t in targetMap
    ensures Distinct(order)
    ensures forall t, k :: t in targetMap ==> (k in targetMap[t] <==> k in Sources(rows, t))
  {
    hide KeyText, Rewritten, Legacy;
    order, targetMap, rewrites := [], map[], [];
    for i := 0 to |rows|
      invariant rewrites == LegacyRows(rows[..i])
      invariant targetMap.Keys == Targets(rows[..i])
      invariant forall t :: t in order <==> t in targetMap
      invariant Distinct(order)
      invariant forall t, k :: t in targetMap ==> (k in targetMap[t] <==> k in Sources(rows[..i], t))
    {
      var sourceKey, targetKey := KeyText(rows[i]), KeyText(Rewritten(rows[i]));
      if targetKey !in targetMap {
        order, targetMap := order + [targetKey], targetMap[targetKey := []];
      }
      targetMap := targetMap[targetKey := targetMap[targetKey] + [sourceKey]];
      if Legacy(rows[i]) { rewrites := rewrites + [rows[i]]; }
      OneMore(rows, i);
    }
    assert rows[..|rows|] == rows;
  }

  /** What a row adds to the specification. */
  lemma OneMore(rows: seq<Row>, i: nat)
    requires i < |rows|
    ensures LegacyRows(rows[..i + 1]) == LegacyRows(rows[..i]) + (if Legacy(rows[i]) then [rows[i]] else [])
    ensures var t := KeyText(Rewritten(rows[i]));
            && Targets(rows[..i + 1]) == Targets(rows[..i]) + {t}
            && Sources(rows[..i + 1], t) == Sources(rows[..i], t) + {KeyText(rows[i])}
            && forall u :: u != t ==> Sources(rows[..i + 1], u) == Sources(rows[..i], u)
  {
    hide KeyText, Rewritten, Legacy;
    assert rows[..i + 1][..i] == rows[..i];
    assert rows[..i + 1] == rows[..i] + [rows[i]];
  }

  /** The counts of a table's summary. */
  datatype Summary = Summary(totalRows: nat, proposedRewrites: nat, noOpRows: int, collisionCandidates: nat, skippedRows: nat)

  predicate AllFree(rows: seq<Row>) { forall i :: 0 <= i < |rows| ==> BarFree(rows[i]) }

  /** The loop over the groups: a collision for each target with more than one source key, and the sum of their sizes. */
  method Collide(ghost rows: seq<Row>, order: seq<string>, targetMap: map<string, seq<string>>)
    returns (collisions: map<string, set<string>>, skipped: nat)
    requires targetMap.Keys == Targets(rows)
    requires forall t :: t in order <==> t in targetMap
    requires Distinct(order)
    requires forall t, k :: t in targetMap ==> (k in targetMap[t] <==> k in Sources(rows, t))
    ensures collisions == Collisions(rows)
    ensures AllFree(rows) ==> skipped == |Skipped(rows, Targets(rows))|
  {
    hide KeyText, Rewritten, Sources, Skipped, Collides, AllFree, Targets;
    collisions := map[];
    skipped := 0;
    NoTargetYet(rows);
    for i := 0 to |order|
      invariant forall t :: t in collisions <==> t in order[..i] && Collides(rows, t)
      invariant forall t :: t in collisions ==> collisions[t] == Sources(rows, t)
      invariant AllFree(rows) ==> skipped == |Skipped(rows, AsSet(order[..i]))|
    {
      var t := order[i];
      var uniq := set k | k in targetMap[t];
      assert uniq == Sources(rows, t);
      CollidesMeans(rows, t);
      OneMoreTarget(rows, order, i);
      if |uniq| > 1 {
        collisions := collisions[t := uniq];
        skipped := skipped + |uniq|;
      }
    }
    assert order[..|order|] == order;
    assert AsSet(order) == Targets(rows);
  }

  lemma NoTargetYet(rows: seq<Row>)
    ensures Skipped(rows, AsSet([])) == {}
  {
  }

  lemma CollidesMeans(rows: seq<Row>, t: string)
    ensures Collides(rows, t) <==> |Sources(rows, t)| > 1
  {
  }

  /** The report on assets or claims. */
  method Report(rows: seq<Row>)
    returns (summary: Summary, rewrites: seq<Row>, collisions: map<string, set<string>>)
    ensures rewrites == LegacyRows(rows) && collisions == Collisions(rows)
    ensures summary.totalRows == |rows| && summary.proposedRewrites == |rewrites|
    ensures summary.proposedRewrites + summary.noOpRows == summary.totalRows
    ensures summary.collisionCandidates == |collisions|
    ensures AllFree(rows) ==> summary.skippedRows == |Skipped(rows, Targets(rows))|
  {
    hide Targets, Sources, Collisions, Skipped, AllFree;
    var order, targetMap;
    order, targetMap, rewrites := Group(rows);
    var skipped;
    collisions, skipped := Collide(rows, order, targetMap);
    summary := Summary(|rows|, |rewrites|, |rows| - |rewrites|, |collisions|, skipped);
  }

  /** The skipped rows of one more target. */
  lemma OneMoreTarget(rows: seq<Row>, order: seq<string>, i: nat)
    requires i < |order| && forall j :: 0 <= j < i ==> order[j] != order[i]
    ensures var more := if Collides(rows, order[i]) then Sources(rows, order[i]) else {};
            && Skipped(rows, AsSet(order[..i + 1])) == Skipped(rows, AsSet(order[..i])) + more
            && (AllFree(rows) ==>
                  |Skipped(rows, AsSet(order[..i + 1]))| == |Skipped(rows, AsSet(order[..i]))| + |more|)
  {
    hide KeyText, Rewritten, BarFree, Collides;
    var t := order[i];
    var before, after := Skipped(rows, AsSet(order[..i])), Skipped(rows, AsSet(order[..i + 1]));
    var more := if Collides(rows, t) then Sources(rows, t) else {};
    assert AsSet(order[..i + 1]) == AsSet(order[..i]) + {t};
    assert t !in AsSet(order[..i]);
    if AllFree(rows) {
      forall k | k in before && k in more ensures false {
        var a :| 0 <= a < |rows| && KeyText(Rewritten(rows[a])) in AsSet(order[..i]) && KeyText(rows[a]) == k;
        var b :| 0 <= b < |rows| && KeyText(Rewritten(rows[b])) == t && KeyText(rows[b]) == k;
        KeyTextIsRow(rows[a], rows[b]);
      }
    }
  }

  /* ---------- what the report means ---------- */

  /** The rewrite makes the two rows one: they differ at most in how their network is spelled. */
  predicate Merge(a: Row, b: Row) { a.rest == b.rest && NormalizeNetworkId(a.network) == NormalizeNetworkId(b.network) }

  lemma MergeIff(a: Row, b: Row)
    ensures Rewritten(a) == Rewritten(b) <==> Merge(a, b)
  {
    hide NormalizeNetworkId;
  }

  /** The proposed rewrites are, in order, the rows whose network is not in normal form. */
  lemma {:induction false} RewritesAre(rows: seq<Row>, r: Row)
    ensures r in LegacyRows(rows) <==> r in rows && NormalizeNetworkId(r.network) != r.network
    ensures multiset(LegacyRows(rows))[r] == if NormalizeNetworkId(r.network) != r.network then multiset(rows)[r] else 0
    ensures LegacyRows([r]) == if NormalizeNetworkId(r.network) != r.network then [r] else []
  {
    hide NormalizeNetworkId;
    assert [r][..0] == [];
    if rows == [] {
    } else {
      var n := |rows| - 1;
      RewritesAre(rows[..n], r);
      assert rows == rows[..n] + [rows[n]];
    }
  }

  /** A collision is reported exactly where normalising would merge two different rows. */
  lemma CollisionsAreMerges(rows: seq<Row>, t: string)
    requires AllFree(rows)
    ensures t in Collisions(rows) <==>
              exists a, b :: a in rows && b in rows && a != b && Merge(a, b) && KeyText(Row(NormalizeNetworkId(a.network), a.rest)) == t
  {
    hide KeyText, BarFree, NormalizeNetworkId;
    if t in Collisions(rows) {
      var k, l := TwoMembers(Sources(rows, t));
      var i :| 0 <= i < |rows| && KeyText(Rewritten(rows[i])) == t && KeyText(rows[i]) == k;
      var j :| 0 <= j < |rows| && KeyText(Rewritten(rows[j])) == t && KeyText(rows[j]) == l;
      SameTarget(rows[i], rows[j]);
      assert rows[i] in rows && rows[j] in rows && rows[i] != rows[j];
    }
    if a, b :| a in rows && b in rows && a != b && Merge(a, b) && KeyText(Row(NormalizeNetworkId(a.network), a.rest)) == t {
      KeyTextIsRow(a, b);
      var i :| 0 <= i < |rows| && rows[i] == a;
      var j :| 0 <= j < |rows| && rows[j] == b;
      assert {KeyText(a), KeyText(b)} <= Sources(rows, t);
      AtLeastTwo(Sources(rows, t), KeyText(a), KeyText(b));
    }
  }

  lemma SameTarget(a: Row, b: Row)
    requires BarFree(a) && BarFree(b)
    ensures KeyText(Rewritten(a)) == KeyText(Rewritten(b)) <==> Rewritten(a) == Rewritten(b)
  {
    hide KeyText, Rewritten, BarFree;
    RewrittenIsFree(a);
    RewrittenIsFree(b);
    KeyTextIsRow(Rewritten(a), Rewritten(b));
  }

  lemma TwoMembers(s: set<string>) returns (k: string, l: string)
    requires |s| > 1
    ensures k in s && l in s && k != l
  {
    k :| k in s;
    assert |s - {k}| > 0;
    l :| l in s - {k};
  }

  lemma AtLeastTwo(s: set<string>, k: string, l: string)
    requires k in s && l in s && k != l
    ensures |s| > 1
  {
    assert s == {k, l} + (s - {k, l});
  }

  /** The collision list is empty exactly when the rewrite keeps the rows' keys apart. */
  lemma NoCollisionIffSafe(rows: seq<Row>)
    requires AllFree(rows)
    ensures Collisions(rows) == map[] <==>
              forall a, b :: a in rows && b in rows && Merge(a, b) ==> a == b
  {
    hide KeyText, BarFree, Collisions, Merge;
    forall t ensures t in Collisions(rows) <==>
      exists a, b :: a in rows && b in rows && a != b && Merge(a, b) && KeyText(Row(NormalizeNetworkId(a.network), a.rest)) == t
    {
      CollisionsAreMerges(rows, t);
    }
    if Collisions(rows) == map[] {
      forall a, b | a in rows && b in rows && Merge(a, b) ensures a == b {
        assert KeyText(Row(NormalizeNetworkId(a.network), a.rest)) !in Collisions(rows);
      }
    }
  }

  /* ---------- events and the assets they refer to ---------- */

  /** The events whose rewritten asset key no asset row would have. */
  function Gaps(events: seq<Row>, universe: set<string>): seq<Row> {
    if events == [] then []
    else
      var e := events[|events| - 1];
      Gaps(events[..|events| - 1], universe) + (if Legacy(e) && KeyText(Rewritten(e)) !in universe then [e] else [])
  }

  /** The loop over events; each is given by its asset key. */
  method DependencyGaps(events: seq<Row>, assets: seq<Row>) returns (gaps: seq<Row>)
    ensures gaps == Gaps(events, Targets(assets))
  {
    hide KeyText, Rewritten, Legacy;
    var universe := Targets(assets);
    gaps := [];
    for i := 0 to |events|
      invariant gaps == Gaps(events[..i], universe)
    {
      assert events[..i + 1][..i] == events[..i];
      if Legacy(events[i]) {
        if KeyText(Rewritten(events[i])) !in universe { gaps := gaps + [events[i]]; }
      }
    }
    assert events[..|events|] == events;
  }

  /** A gap is reported exactly for a legacy event that no asset row matches after both are rewritten. */
  lemma {:induction false} GapsAre(events: seq<Row>, assets: seq<Row>, e: Row)
    requires AllFree(events) && AllFree(assets)
    ensures e in Gaps(events, Targets(assets)) <==>
              e in events && NormalizeNetworkId(e.network) != e.network && forall a :: a in assets ==> !Merge(a, e)
  {
    hide KeyText, BarFree, NormalizeNetworkId, Targets, Merge;
    if events == [] {
    } else {
      var n := |events| - 1;
      GapsAre(events[..n], assets, e);
      assert events == events[..n] + [events[n]];
      InUniverse(assets, events[n]);
    }
  }

  lemma InUniverse(assets: seq<Row>, e: Row)
    requires BarFree(e) && AllFree(assets)
    ensures KeyText(Rewritten(e)) in Targets(assets) <==> exists a :: a in assets && Merge(a, e)
  {
    hide KeyText, Rewritten, BarFree, Merge;
    forall a ensures Rewritten(a) == Rewritten(e) <==> Merge(a, e) { MergeIff(a, e); }
    if KeyText(Rewritten(e)) in Targets(assets) {
      var i :| 0 <= i < |assets| && KeyText(Rewritten(assets[i])) == KeyText(Rewritten(e));
      SameTarget(assets[i], e);
      assert assets[i] in assets;
    }
    if a :| a in assets && Merge(a, e) {
      var i :| 0 <= i < |assets| && assets[i] == a;
    }
  }

  /** While the foreign key from events to assets holds, no gap is ever reported. */
  lemma {:induction false} NoGapUnderForeignKey(events: seq<Row>, assets: seq<Row>)
    requires forall e :: e in events ==> e in assets
    ensures Gaps(events, Targets(assets)) == []
  {
    hide KeyText, Rewritten, Legacy;
    if events == [] {
    } else {
      var e := events[|events| - 1];
      NoGapUnderForeignKey(events[..|events| - 1], assets);
      assert e in assets;
      var i :| 0 <= i < |assets| && assets[i] == e;
    }
  }
}
