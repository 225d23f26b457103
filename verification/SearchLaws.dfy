/** When the capped search is sure to return a row, and when it may: rows created at one moment come in any order. */
module SearchLaws {
  import opened Text
  import opened Lists
  import opened Challenges
  import opened ChallengeLaws

  predicate Descending(rank: map<ChallengeKey, int>, res: seq<ChallengeKey>)
    requires forall i :: 0 <= i < |res| ==> res[i] in rank
  {
    forall i, j :: 0 <= i < j < |res| ==> rank[res[i]] >= rank[res[j]]
  }

  /** No key left out ranks above one that is listed. */
  ghost predicate Covers(keys: set<ChallengeKey>, rank: map<ChallengeKey, int>, res: seq<ChallengeKey>)
    requires keys <= rank.Keys && forall i :: 0 <= i < |res| ==> res[i] in rank
  {
    forall k, i :: k in keys && k !in res && 0 <= i < |res| ==> rank[k] <= rank[res[i]]
  }

  /** The first n keys by descending rank. */
  ghost predicate IsTop(keys: set<ChallengeKey>, rank: map<ChallengeKey, int>, n: nat, res: seq<ChallengeKey>)
    requires keys <= rank.Keys
  {
    && Distinct(res)
    && |res| == Min(n, |keys|)
    && (forall i :: 0 <= i < |res| ==> res[i] in keys)
    && Descending(rank, res)
    && Covers(keys, rank, res)
  }

  lemma {:induction false} Greatest(keys: set<ChallengeKey>, rank: map<ChallengeKey, int>) returns (m: ChallengeKey)
    requires keys != {} && keys <= rank.Keys
    ensures m in keys && forall k :: k in keys ==> rank[k] <= rank[m]
    decreases keys
  {
    m :| m in keys;
    if keys == {m} {
    } else {
      var other := Greatest(keys - {m}, rank);
      if rank[other] > rank[m] { m := other; }
    }
  }

  lemma {:induction false} TopExists(keys: set<ChallengeKey>, rank: map<ChallengeKey, int>, n: nat)
    returns (res: seq<ChallengeKey>)
    requires keys <= rank.Keys
    ensures IsTop(keys, rank, n, res)
    decreases n
  {
    if n == 0 || keys == {} {
      res := [];
    } else {
      var m := Greatest(keys, rank);
      var rest := TopExists(keys - {m}, rank, n - 1);
      res := [m] + rest;
      GreatestFirst(keys, rank, n, m, rest, res);
    }
  }

  lemma GreatestFirst(keys: set<ChallengeKey>, rank: map<ChallengeKey, int>, n: nat, m: ChallengeKey,
                      rest: seq<ChallengeKey>, res: seq<ChallengeKey>)
    requires keys <= rank.Keys && m in keys && n > 0 && IsTop(keys - {m}, rank, n - 1, rest) && res == [m] + rest
    requires forall k :: k in keys ==> rank[k] <= rank[m]
    ensures IsTop(keys, rank, n, res)
  {
    hide Distinct, Descending, Covers;
    assert |keys - {m}| == |keys| - 1;
    assert m !in rest;
    DistinctFront(m, rest);
    forall i | 0 <= i < |res| ensures res[i] in keys {
      if i > 0 { assert res[i] == rest[i - 1]; }
    }
    DescendingFront(rank, m, rest);
    CoversFront(keys, rank, m, rest);
  }

  lemma DistinctFront(m: ChallengeKey, rest: seq<ChallengeKey>)
    requires Distinct(rest) && m !in rest
    ensures Distinct([m] + rest)
  {
  }

  lemma DescendingFront(rank: map<ChallengeKey, int>, m: ChallengeKey, rest: seq<ChallengeKey>)
    requires m in rank && forall i :: 0 <= i < |rest| ==> rest[i] in rank && rank[rest[i]] <= rank[m]
    requires Descending(rank, rest)
    ensures Descending(rank, [m] + rest)
  {
  }

  lemma CoversFront(keys: set<ChallengeKey>, rank: map<ChallengeKey, int>, m: ChallengeKey, rest: seq<ChallengeKey>)
    requires keys <= rank.Keys && m in keys && (forall i :: 0 <= i < |rest| ==> rest[i] in rank)
    requires forall k :: k in keys ==> rank[k] <= rank[m]
    requires Covers(keys - {m}, rank, rest)
    ensures Covers(keys, rank, [m] + rest)
  {
    var res := [m] + rest;
    forall k, i | k in keys && k !in res && 0 <= i < |res| ensures rank[k] <= rank[res[i]] {
      if i > 0 {
        assert res[i] == rest[i - 1];
        assert k !in rest;
        assert k in keys - {m};
      }
    }
  }

  /** The keys ranked above k. */
  ghost function Above(keys: set<ChallengeKey>, rank: map<ChallengeKey, int>, k: ChallengeKey): set<ChallengeKey>
    requires keys <= rank.Keys && k in rank
  {
    set j | j in keys && rank[j] > rank[k]
  }

  lemma TopHas(keys: set<ChallengeKey>, rank: map<ChallengeKey, int>, n: nat, res: seq<ChallengeKey>, k: ChallengeKey)
    requires keys <= rank.Keys && IsTop(keys, rank, n, res) && k in res
    ensures |Above(keys, rank, k)| < n
  {
    hide Distinct, Descending;
    var i :| 0 <= i < |res| && res[i] == k;
    forall j | j in Above(keys, rank, k) ensures j in AsSet(res) - {k} {
      assert j in res;
    }
    ListedHasFewer(res, k, Above(keys, rank, k));
  }

  lemma TopLacks(keys: set<ChallengeKey>, rank: map<ChallengeKey, int>, n: nat, res: seq<ChallengeKey>, k: ChallengeKey)
    requires keys <= rank.Keys && IsTop(keys, rank, n, res) && k in keys && k !in res
    requires forall j :: j in keys && j != k ==> rank[j] != rank[k]
    ensures |Above(keys, rank, k)| >= n
  {
    hide Distinct, Descending;
    forall j | j in AsSet(res) ensures j in Above(keys, rank, k) {
      assert j in res;
    }
    UnlistedHasMany(res, keys, k, Above(keys, rank, k));
  }

  /** A key whose rank nobody shares is among the first n exactly when fewer than n rank above it. */
  lemma TopMembership(keys: set<ChallengeKey>, rank: map<ChallengeKey, int>, n: nat, res: seq<ChallengeKey>, k: ChallengeKey)
    requires keys <= rank.Keys && IsTop(keys, rank, n, res) && k in keys
    requires forall j :: j in keys && j != k ==> rank[j] != rank[k]
    ensures k in res <==> |Above(keys, rank, k)| < n
  {
    hide IsTop, Above;
    if k in res { TopHas(keys, rank, n, res, k); } else { TopLacks(keys, rank, n, res, k); }
  }

  /** Creation times doubled, with k's moved by one: the order of creation, with k put first or last among its equals. */
  function Moved(t: ChallengeTable, k: ChallengeKey, shift: int): map<ChallengeKey, int> {
    map j | j in t :: 2 * t[j].createdAt + (if j == k then shift else 0)
  }

  lemma DescendingInTime(t: ChallengeTable, k: ChallengeKey, shift: int, res: seq<ChallengeKey>)
    requires -1 <= shift <= 1 && (forall i :: 0 <= i < |res| ==> res[i] in t) && Descending(Moved(t, k, shift), res)
    ensures forall i, j :: 0 <= i < j < |res| ==> t[res[i]].createdAt >= t[res[j]].createdAt
  {
    var rank := Moved(t, k, shift);
    forall i, j | 0 <= i < j < |res| ensures t[res[i]].createdAt >= t[res[j]].createdAt {
      assert rank[res[i]] >= rank[res[j]];
    }
  }

  lemma CoversInTime(t: ChallengeTable, keys: set<ChallengeKey>, k: ChallengeKey, shift: int, res: seq<ChallengeKey>)
    requires -1 <= shift <= 1 && keys <= t.Keys && (forall i :: 0 <= i < |res| ==> res[i] in t)
    requires Covers(keys, Moved(t, k, shift), res)
    ensures forall j, i :: j in keys && j !in res && 0 <= i < |res| ==> t[j].createdAt <= t[res[i]].createdAt
  {
    var rank := Moved(t, k, shift);
    forall j, i | j in keys && j !in res && 0 <= i < |res| ensures t[j].createdAt <= t[res[i]].createdAt {
      assert rank[j] <= rank[res[i]];
    }
  }

  /** An order that only moves k among its equals gives a legal page. */
  lemma TopIsPage(t: ChallengeTable, f: Filters, k: ChallengeKey, shift: int, res: seq<ChallengeKey>)
    requires -1 <= shift <= 1 && IsTop(SelectedKeys(t, f), Moved(t, k, shift), EffectiveLimit(f), res)
    ensures IsSearchResult(t, f, res)
  {
    hide Selected, EffectiveLimit, Descending, Covers, Distinct;
    DescendingInTime(t, k, shift, res);
    CoversInTime(t, SelectedKeys(t, f), k, shift, res);
  }

  lemma MovedPage(t: ChallengeTable, f: Filters, k: ChallengeKey, shift: int) returns (res: seq<ChallengeKey>)
    requires k in SelectedKeys(t, f) && (shift == 1 || shift == -1)
    ensures IsSearchResult(t, f, res)
    ensures k in res <==> |if shift == 1 then Newer(t, f, k) else NotOlder(t, f, k)| < EffectiveLimit(f)
  {
    hide Selected, IsTop, IsSearchResult, EffectiveLimit;
    var keys, rank := SelectedKeys(t, f), Moved(t, k, shift);
    res := TopExists(keys, rank, EffectiveLimit(f));
    TopIsPage(t, f, k, shift, res);
    TopMembership(keys, rank, EffectiveLimit(f), res, k);
    AboveIs(t, f, k, shift);
  }

  lemma AboveIs(t: ChallengeTable, f: Filters, k: ChallengeKey, shift: int)
    requires k in t && (shift == 1 || shift == -1)
    ensures Above(SelectedKeys(t, f), Moved(t, k, shift), k) == if shift == 1 then Newer(t, f, k) else NotOlder(t, f, k)
  {
    hide Selected;
  }

  /**
   * Whether the exact match finds a row with the requested tuple, exactly: in every legal answer of the search if and
   * only if fewer than 100 other rows on the shelf are at least as new; in none if and only if 100 are newer. In
   * between it depends on the order PostgreSQL happens to give rows created at one moment.
   */
  lemma FoundIff(t: ChallengeTable, r: Request)
    requires Complete(r) && HasTuple(t, r) && IsTrimmed(t[KeyFor(r)].network)
    ensures (forall rows :: IsSearchResult(t, MatchFilters(r), rows) ==> FindExact(t, rows, r) == Some(KeyFor(r)))
              <==> |NotOlder(t, MatchFilters(r), KeyFor(r))| < 100
    ensures (forall rows :: IsSearchResult(t, MatchFilters(r), rows) ==> FindExact(t, rows, r) == None)
              <==> |Newer(t, MatchFilters(r), KeyFor(r))| >= 100
  {
    hide HasTuple, Selected, FindExact;
    var f, k := MatchFilters(r), KeyFor(r);
    TupleIsSelected(t, r);
    assert EffectiveLimit(f) == 100;
    var without := MovedPage(t, f, k, -1);
    var with := MovedPage(t, f, k, 1);
    forall rows | IsSearchResult(t, f, rows)
      ensures FindExact(t, rows, r) == if k in rows then Some(k) else None
    {
      ExactMatchIsUnique(t, r, rows);
    }
    forall rows | IsSearchResult(t, f, rows)
      ensures (|NotOlder(t, f, k)| < 100 ==> k in rows) && (|Newer(t, f, k)| >= 100 ==> k !in rows)
    {
      PageMembership(t, f, rows, k);
    }
  }
}
