/** Sums over finite maps. */
module Sums {

  ghost function Sum<T>(m: map<T, int>): int {
    if m == map[] then 0
    else
      var x :| x in m;
      m[x] + Sum(m - {x})
  }

  /** Any entry may be taken first. */
  lemma {:induction false} SumTake<T>(m: map<T, int>, x: T)
    requires x in m
    ensures Sum(m) == m[x] + Sum(m - {x})
    decreases |m|
  {
    var y :| y in m && Sum(m) == m[y] + Sum(m - {y});
    if y == x {
    } else {
      SumTake(m - {y}, x);
      SumTake(m - {x}, y);
      assert m - {y} - {x} == m - {x} - {y};
    }
  }

  /** Restriction of a map to some keys. */
  function Only<T, U>(m: map<T, U>, keys: set<T>): map<T, U> { map k | k in m && k in keys :: m[k] }

  ghost predicate Injective<A, B>(m: map<A, B>) {
    forall a, b :: a in m && b in m && m[a] == m[b] ==> a == b
  }

  /** Entries paired off one to one with entries of equal value have the same sum as their partners. */
  lemma {:induction false} SumPaired<A, B>(f: map<A, int>, g: map<B, int>, pairing: map<A, B>)
    requires pairing.Keys == f.Keys && Injective(pairing)
    requires forall a :: a in f ==> pairing[a] in g && g[pairing[a]] == f[a]
    ensures Sum(f) == Sum(Only(g, pairing.Values))
    decreases |f|
  {
    if f == map[] {
      assert Only(g, pairing.Values) == map[];
    } else {
      var a :| a in f;
      SumTake(f, a);
      SumTake(Only(g, pairing.Values), pairing[a]);
      ValuesWithout(pairing, a);
      SumPaired(f - {a}, g, pairing - {a});
      assert Only(g, pairing.Values) - {pairing[a]} == Only(g, (pairing - {a}).Values);
    }
  }

  lemma ValuesWithout<A, B>(pairing: map<A, B>, a: A)
    requires a in pairing && Injective(pairing)
    ensures (pairing - {a}).Values == pairing.Values - {pairing[a]} && Injective(pairing - {a})
  {
    forall k | k in pairing.Values - {pairing[a]} ensures k in (pairing - {a}).Values {
      var c :| c in pairing && pairing[c] == k;
      assert c in pairing - {a} && (pairing - {a})[c] == k;
    }
    forall k | k in (pairing - {a}).Values ensures k in pairing.Values - {pairing[a]} {
      var c :| c in pairing - {a} && (pairing - {a})[c] == k;
      assert pairing[c] == k;
    }
  }

  /** Leaving out entries that are not negative can only lower the sum. */
  lemma {:induction false} SumOnly<T>(g: map<T, int>, keys: set<T>)
    requires forall k :: k in g ==> g[k] >= 0
    ensures Sum(Only(g, keys)) <= Sum(g)
    decreases |g|
  {
    if g == map[] {
      assert Only(g, keys) == map[];
    } else {
      var k :| k in g;
      SumTake(g, k);
      SumOnly(g - {k}, keys);
      OnlyWithout(g, keys, k);
      if k in keys { SumTake(Only(g, keys), k); }
    }
  }

  lemma OnlyWithout<T>(g: map<T, int>, keys: set<T>, k: T)
    ensures Only(g, keys) - {k} == Only(g - {k}, keys)
    ensures k !in keys ==> Only(g, keys) == Only(g - {k}, keys)
  {
  }
}

/** No more is receipted than was received, per network class, token and recipient. */
module Solvency {
  import opened Text
  import opened Numerals
  import opened NetworkId
  import opened PltStore
  import opened Challenges
  import opened Payments
  import opened Protocol
  import opened ProtocolLaws
  import opened Sums

  /** One network class (by its receipt form), token and recipient. */
  datatype Pool = Pool(chainId: string, tokenId: string, payTo: string)

  predicate PaidInto(row: Challenge, pool: Pool) {
    && row.status == Fulfilled && row.receipt.Some?
    && row.receipt.value.chainId == pool.chainId
    && row.receipt.value.tokenId == pool.tokenId
    && row.receipt.value.to == pool.payTo
  }

  predicate ReceivedIn(e: PltEvent, pool: Pool) {
    && e.eventType == "transfer"
    && CanonicalChainId(e.network) == pool.chainId
    && e.assetId == pool.tokenId
    && e.toAddress == Some(pool.payTo)
  }

  function ReceiptAmount(r: Receipt): int {
    if IsSigned(r.amountRaw) then IntVal(r.amountRaw) else 0
  }

  /** What the receipts of the fulfilled challenges say was paid into a pool, and what its transfers brought. */
  ghost function Receipted(db: Db, pool: Pool): map<ChallengeKey, int> {
    map k | k in db.challenges && PaidInto(db.challenges[k], pool) :: ReceiptAmount(db.challenges[k].receipt.value)
  }

  ghost function Received(db: Db, pool: Pool): map<EventKey, int> {
    map k | k in db.events && ReceivedIn(db.events[k], pool) :: db.events[k].amountRaw
  }

  /** The claim that backs a fulfilled challenge. */
  ghost function BackingClaim(db: Db, k: ChallengeKey): ClaimKey
    requires Backed(db, k)
  {
    var c :| BackedBy(db, k, c);
    c
  }

  ghost function Backing(db: Db, pool: Pool): map<ChallengeKey, EventKey>
    requires DbInv(db)
  {
    map k | k in Receipted(db, pool) :: EventOf(BackingClaim(db, k))
  }

  lemma BackingValue(db: Db, pool: Pool, k: ChallengeKey)
    requires DbInv(db) && k in Receipted(db, pool)
    ensures var e := EventOf(BackingClaim(db, k));
            e in Received(db, pool) && Received(db, pool)[e] == Receipted(db, pool)[k]
  {
    var c := BackingClaim(db, k);
    assert BackedBy(db, k, c);
    IntTextReads(db.events[EventOf(c)].amountRaw);
  }

  lemma BackingInjective(db: Db, pool: Pool)
    requires DbInv(db)
    ensures Injective(Backing(db, pool))
  {
    var m := Backing(db, pool);
    forall a, b | a in m && b in m && m[a] == m[b] ensures a == b {
      var c, d := BackingClaim(db, a), BackingClaim(db, b);
      assert BackedBy(db, a, c) && BackedBy(db, b, d);
      ClaimKeyIsExact(db.events, c, d);
    }
  }

  /** The receipts of a pool add up to exactly the transfers that back them, one transfer for each. */
  lemma ReceiptsAreTransfers(db: Db, pool: Pool)
    requires DbInv(db)
    ensures Injective(Backing(db, pool)) && Backing(db, pool).Values <= Received(db, pool).Keys
    ensures Sum(Receipted(db, pool)) == Sum(Only(Received(db, pool), Backing(db, pool).Values))
  {
    var m := Backing(db, pool);
    BackingInjective(db, pool);
    forall k | k in m ensures m[k] in Received(db, pool) && Received(db, pool)[m[k]] == Receipted(db, pool)[k] {
      BackingValue(db, pool, k);
    }
    SumPaired(Receipted(db, pool), Received(db, pool), m);
  }

  /**
   * Solvency. In every state reachable from the empty tables, by any interleaving of creation, reset, ingestion and
   * fulfilment, the receipts of a pool add up to at most its transfers, when no stored transfer is negative; and
   * always to exactly the transfers an injection gives them.
   */
  lemma Solvent(ls: seq<Label>, pool: Pool)
    requires IsRun(EMPTY, ls)
    ensures var db := Exec(EMPTY, ls).db;
            && DbInv(db)
            && Injective(Backing(db, pool)) && Backing(db, pool).Values <= Received(db, pool).Keys
            && Sum(Receipted(db, pool)) == Sum(Only(Received(db, pool), Backing(db, pool).Values))
            && ((forall k :: k in Received(db, pool) ==> db.events[k].amountRaw >= 0)
                ==> Sum(Receipted(db, pool)) <= Sum(Received(db, pool)))
  {
    EmptyIsFine();
    RunKeeps(EMPTY, ls);
    var db := Exec(EMPTY, ls).db;
    ReceiptsAreTransfers(db, pool);
    if forall k :: k in Received(db, pool) ==> db.events[k].amountRaw >= 0 {
      SumOnly(Received(db, pool), Backing(db, pool).Values);
    }
  }
}
