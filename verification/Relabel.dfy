/**
 * Rewriting a registry key. The event table's foreign key is ON UPDATE CASCADE (src/store/plt.pg.ts), so the rewrite
 * relabels stored events, under claims that were made with the old name.
 */
module Relabel {
  import opened Text
  import opened NetworkId
  import opened PltStore
  import opened Challenges
  import opened Payments
  import opened Protocol
  import opened ProtocolLaws

  predicate RefersTo(e: PltEvent, key: AssetKey) {
    e.network == key.network && e.genesisIndex == key.genesisIndex && e.assetId == key.assetId
  }

  /** The new key is another row's: the update violates the primary key. */
  predicate Taken(db: Db, key: AssetKey, name: string) { name != key.network && key.(network := name) in db.assets }

  /** UPDATE crp_plt_assets SET network = name WHERE the key is `key`, with its cascade; it fails on a taken key. */
  function Relabelled(db: Db, key: AssetKey, name: string): Db
    requires key in db.assets
  {
    if Taken(db, key, name) then db
    else
      db.(assets := (db.assets - {key})[key.(network := name) := db.assets[key]],
          events := map k | k in db.events ::
                      if RefersTo(db.events[k], key) then db.events[k].(network := name) else db.events[k])
  }

  /** Some claim was made on an event the rewrite relabels. */
  predicate Claimed(db: Db, key: AssetKey) {
    exists c :: c in db.claims && EventOf(c) in db.events && RefersTo(db.events[EventOf(c)], key)
  }

  lemma EvidenceFollows(db: Db, key: AssetKey, name: string, c: ClaimKey, r: Receipt)
    requires key in db.assets && Evidence(db.events, c, r)
    requires RefersTo(db.events[EventOf(c)], key) ==> NormalizeNetworkId(name) == NormalizeNetworkId(key.network)
    ensures Evidence(Relabelled(db, key, name).events, c, r)
  {
    hide NormalizeNetworkId;
  }

  lemma RowFollows(db: Db, key: AssetKey, name: string, k: ChallengeKey)
    requires DbInv(db) && key in db.assets && k in db.challenges
    requires NormalizeNetworkId(name) == NormalizeNetworkId(key.network) || !Claimed(db, key)
    ensures RowInv(Relabelled(db, key, name), k)
  {
    hide NormalizeNetworkId, Evidence;
    assert RowInv(db, k);
    if db.challenges[k].status == Fulfilled {
      var c :| BackedBy(db, k, c);
      assert ClaimFits(db.events, c);
      EvidenceFollows(db, key, name, c, db.challenges[k].receipt.value);
      assert BackedBy(Relabelled(db, key, name), k, c);
    }
  }

  /**
   * A rewrite keeps every claim and receipt in order exactly when the new name has the old one's normal form, or no
   * event it relabels was claimed, or it fails: normalising a name is safe, going over to the network's other alias is
   * not.
   */
  lemma RelabelIff(db: Db, key: AssetKey, name: string)
    requires DbInv(db) && key in db.assets
    ensures DbInv(Relabelled(db, key, name)) <==>
            Taken(db, key, name) || NormalizeNetworkId(name) == NormalizeNetworkId(key.network) || !Claimed(db, key)
  {
    hide NormalizeNetworkId, RowInv;
    var db' := Relabelled(db, key, name);
    if Taken(db, key, name) {
    } else if NormalizeNetworkId(name) == NormalizeNetworkId(key.network) || !Claimed(db, key) {
      forall c | c in db'.claims ensures ClaimFits(db'.events, c) {
        assert ClaimFits(db.events, c);
      }
      forall k | k in db'.challenges ensures RowInv(db', k) { RowFollows(db, key, name, k); }
    } else {
      var c :| c in db.claims && EventOf(c) in db.events && RefersTo(db.events[EventOf(c)], key);
      assert ClaimFits(db.events, c);
      assert !ClaimFits(db'.events, c);
    }
  }

  lemma FlightFollows(db: Db, key: AssetKey, name: string, p: Phase)
    requires key in db.assets && FlightOk(db, p) && NormalizeNetworkId(name) == NormalizeNetworkId(key.network)
    ensures FlightOk(Relabelled(db, key, name), p)
  {
    hide NormalizeNetworkId, Evidence, ReceiptFor;
    if !p.AdmittedPhase? && !p.Matched? {
      EvidenceFollows(db, key, name, p.job.claim, p.job.receipt);
    }
  }

  /** Rewriting a name to one of the same normal form is safe at any moment, with requests in flight. */
  lemma SafeWithFlights(s: Sys, key: AssetKey, name: string)
    requires Inv(s) && key in s.db.assets && NormalizeNetworkId(name) == NormalizeNetworkId(key.network)
    ensures Inv(s.(db := Relabelled(s.db, key, name)))
  {
    hide NormalizeNetworkId, DbInv, FlightOk, Relabelled;
    var s' := s.(db := Relabelled(s.db, key, name));
    RelabelIff(s.db, key, name);
    forall t | t in s'.flights ensures FlightOk(s'.db, s'.flights[t]) { FlightFollows(s.db, key, name, s.flights[t]); }
    SameFlightsExclusive(s, s');
  }

  lemma NormalizingIsSafe(s: Sys, key: AssetKey)
    requires Inv(s) && key in s.db.assets
    ensures Inv(s.(db := Relabelled(s.db, key, NormalizeNetworkId(key.network))))
  {
    hide NormalizeNetworkId, Inv;
    NormalizeIdempotent(key.network);
    SafeWithFlights(s, key, NormalizeNetworkId(key.network));
  }

  /** After an unsafe rewrite a claimed event can be claimed again: PostgreSQL may answer another challenge with success. */
  lemma AliasFreesEvent(db: Db, key: AssetKey, name: string, c: ClaimKey, other: ChallengeKey)
    requires DbInv(db) && key in db.assets && NormalizeNetworkId(name) != NormalizeNetworkId(key.network)
    requires !Taken(db, key, name) && c in db.claims && RefersTo(db.events[EventOf(c)], key) && db.claims[c] != other
    ensures var db' := Relabelled(db, key, name);
            var again := ClaimKeyFor(key.genesisIndex, EventOf(c), db'.events[EventOf(c)]);
            IsClaimAnswer(db'.claims, db'.claims, again, other, Some(ClaimAnswer(other, true)))
  {
    hide NormalizeNetworkId, RowInv;
    assert ClaimFits(db.events, c);
    assert forall d :: d in db.claims ==> ClaimFits(db.events, d);
  }
}
