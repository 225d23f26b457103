/** Network identity: src/lib/networkId.ts, with the equivalence of src/store/repo.pg.ts and the receipt form. */
module NetworkId {
  import opened Text

  const TESTNET_CHAIN_ID := "ccd:4221332d34e1694168c2a0c0b3fd0f27"
  const MAINNET_CHAIN_ID := "ccd:9dd9ca4d19e9393877d2c44b70f89acb"
  const TESTNET := "concordium:testnet"
  const MAINNET := "concordium:mainnet"
  const CCD := "ccd:"

  function NormalizeNetworkId(raw: string): string {
    var s := Trim(raw);
    if s == "" then s
    else
      var lower := Lower(s);
      if lower == TESTNET then TESTNET
      else if lower == MAINNET then MAINNET
      else if CCD <= lower then
        var parts := Split(s, ':');
        if |parts| >= 2 && Trim(parts[1]) != "" then CCD + Trim(parts[1]) else CCD
      else s
  }

  /** The other spelling of a normalised id whose genesis hash is known; any other id is its own alias. */
  function Alias(n: string): string {
    if n == TESTNET_CHAIN_ID then TESTNET
    else if n == MAINNET_CHAIN_ID then MAINNET
    else if n == TESTNET then TESTNET_CHAIN_ID
    else if n == MAINNET then MAINNET_CHAIN_ID
    else n
  }

  /** The candidates of an id already in normal form. */
  function CandidatesOf(n: string): seq<string> {
    if n == "" then [] else if Alias(n) == n then [n] else [n, Alias(n)]
  }

  function NetworkCandidates(raw: string): seq<string> {
    CandidatesOf(NormalizeNetworkId(raw))
  }

  predicate NetworksEquivalent(a: string, b: string) {
    var left, right := NormalizeNetworkId(a), NormalizeNetworkId(b);
    left == right || right in NetworkCandidates(left)
  }

  /** The receipt form of an id already in normal form. */
  function ReceiptForm(n: string): string {
    if n == TESTNET then TESTNET_CHAIN_ID else if n == MAINNET then MAINNET_CHAIN_ID else n
  }

  function CanonicalChainId(network: string): string {
    ReceiptForm(NormalizeNetworkId(network))
  }

  /** `Set.add` on an insertion-ordered set. */
  function Add(out: seq<string>, x: string): seq<string> {
    if x in out then out else out + [x]
  }

  /** The source's own construction of the candidate list, one `add` at a time. */
  method CollectCandidates(raw: string) returns (out: seq<string>)
    ensures out == NetworkCandidates(raw)
  {
    var normalized := NormalizeNetworkId(raw);
    hide NormalizeNetworkId;
    out := [];
    if normalized != "" { out := Add(out, normalized); }
    if CCD <= normalized {
      if normalized == TESTNET_CHAIN_ID { out := Add(out, TESTNET); }
      if normalized == MAINNET_CHAIN_ID { out := Add(out, MAINNET); }
    }
    if normalized == TESTNET { out := Add(out, TESTNET_CHAIN_ID); }
    if normalized == MAINNET { out := Add(out, MAINNET_CHAIN_ID); }
    FourNames();
  }

  lemma FourNames()
    ensures TESTNET != MAINNET && TESTNET_CHAIN_ID != MAINNET_CHAIN_ID
    ensures CCD <= TESTNET_CHAIN_ID && CCD <= MAINNET_CHAIN_ID
    ensures TESTNET[1] == 'o' && MAINNET[1] == 'o' && CCD[1] == 'c'
  {
    assert TESTNET[11] == 't' && MAINNET[11] == 'm';
    assert TESTNET_CHAIN_ID[4] == '4' && MAINNET_CHAIN_ID[4] == '9';
  }

  /** Any trimmed, colon-free, nonempty reference keeps its form under normalisation. */
  lemma CcdFixed(x: string)
    requires x != "" && IsTrimmed(x) && ':' !in x
    ensures NormalizeNetworkId(CCD + x) == CCD + x
  {
    var s := CCD + x;
    TrimTrims(s);
    TrimTrims(x);
    assert Lower(s)[..4] == CCD;
    assert s == "ccd" + [':'] + x;
    SplitFirst("ccd", ':', x);
    SplitWhole(x, ':');
    FourNames();
    assert Lower(s)[1] == 'c';
  }

  lemma BareCcdFixed()
    ensures NormalizeNetworkId(CCD) == CCD
  {
    TrimTrims(CCD);
    assert CCD == "ccd" + [':'] + "";
    SplitFirst("ccd", ':', "");
    FourNames();
    TrimTrims("");
    assert Lower(CCD)[1] == 'c';
  }

  /** Stated of a variable: the verifier would otherwise evaluate the normalisation of a long literal. */
  lemma ChainIdFixed(n: string)
    requires n == TESTNET_CHAIN_ID || n == MAINNET_CHAIN_ID
    ensures NormalizeNetworkId(n) == n
  {
    var x := n[4..];
    ChainIdShape(n);
    CcdFixed(x);
    assert CCD + x == n;
  }

  lemma ChainIdShape(n: string)
    requires n == TESTNET_CHAIN_ID || n == MAINNET_CHAIN_ID
    ensures |n| == 36 && n[..4] == CCD && ':' !in n[4..] && IsTrimmed(n[4..])
  {
    ChainIdHead(n);
    forall i | 4 <= i < 36 ensures n[i] != ':' && !IsSpace(n[i]) { ChainIdChar(n, i); }
    assert forall i :: 0 <= i < 32 ==> n[4..][i] == n[4 + i];
  }

  lemma ChainIdHead(n: string)
    requires n == TESTNET_CHAIN_ID || n == MAINNET_CHAIN_ID
    ensures |n| == 36 && n[..4] == CCD
  {
    assert n[0] == 'c' && n[1] == 'c' && n[2] == 'd' && n[3] == ':';
  }

  lemma ChainIdChar(n: string, i: nat)
    requires (n == TESTNET_CHAIN_ID || n == MAINNET_CHAIN_ID) && 4 <= i < 36
    ensures |n| == 36 && ('0' <= n[i] <= '9' || 'a' <= n[i] <= 'f')
  {
  }

  lemma LegacyFixed()
    ensures NormalizeNetworkId(TESTNET) == TESTNET
    ensures NormalizeNetworkId(MAINNET) == MAINNET
  {
    TrimTrims(TESTNET);
    TrimTrims(MAINNET);
    FourNames();
  }

  /** The alias of a normal form is a normal form, and aliasing undoes itself. */
  lemma AliasLaws(n: string)
    ensures Alias(Alias(n)) == n && (Alias(n) == "" <==> n == "")
    ensures ReceiptForm(n) == n || ReceiptForm(n) == Alias(n)
    ensures ReceiptForm(Alias(n)) == ReceiptForm(n) && ReceiptForm(ReceiptForm(n)) == ReceiptForm(n)
  {
    FourNames();
  }

  lemma AliasNormal(n: string)
    requires NormalizeNetworkId(n) == n
    ensures NormalizeNetworkId(Alias(n)) == Alias(n)
  {
    if n == TESTNET_CHAIN_ID || n == MAINNET_CHAIN_ID { LegacyFixed(); }
    if n == TESTNET || n == MAINNET { ChainIdFixed(Alias(n)); }
  }

  lemma ReceiptFormDecides(n: string, m: string)
    ensures ReceiptForm(n) == ReceiptForm(m) <==> (n == m || n == Alias(m))
  {
    FourNames();
  }

  /** Normalising twice is normalising once. */
  lemma NormalizeIdempotent(raw: string)
    ensures NormalizeNetworkId(NormalizeNetworkId(raw)) == NormalizeNetworkId(raw)
  {
    var s := Trim(raw);
    TrimTrims(raw);
    TrimTrims(s);
    var parts := Split(s, ':');
    if s != "" && Lower(s) != TESTNET && Lower(s) != MAINNET && CCD <= Lower(s) {
      if |parts| >= 2 && Trim(parts[1]) != "" {
        SplitParts(s, ':');
        TrimTrims(parts[1]);
        TrimSubset(parts[1]);
        CcdFixed(Trim(parts[1]));
      } else {
        BareCcdFixed();
      }
    } else {
      LegacyFixed();
    }
  }

  lemma NormalizeIsTrimmed(raw: string)
    ensures IsTrimmed(NormalizeNetworkId(raw))
  {
    hide Split, Lower, Trim;
    TrimTrims(raw);
    var parts := Split(Trim(raw), ':');
    if |parts| >= 2 {
      TrimTrims(parts[1]);
      PrefixIsTrimmed(Trim(parts[1]));
    }
  }

  lemma PrefixIsTrimmed(x: string)
    requires IsTrimmed(x)
    ensures IsTrimmed(CCD + x) && IsTrimmed(CCD) && IsTrimmed(TESTNET) && IsTrimmed(MAINNET)
  {
  }

  lemma TrimSubset(s: string)
    ensures forall c :: c in Trim(s) ==> c in s
  {
    TrimStartSubset(s);
    TrimEndSubset(TrimStart(s));
  }

  lemma {:induction false} TrimStartSubset(s: string)
    ensures forall c :: c in TrimStart(s) ==> c in s
  {
    if s == "" || !IsSpace(s[0]) {
    } else {
      TrimStartSubset(s[1..]);
    }
  }

  lemma {:induction false} TrimEndSubset(s: string)
    ensures forall c :: c in TrimEnd(s) ==> c in s
  {
    if s == "" || !IsSpace(s[|s| - 1]) {
    } else {
      TrimEndSubset(s[..|s| - 1]);
    }
  }

  /* ---------- the names themselves ---------- */

  /** White space normalises to nothing; the two legacy names to themselves, whatever their case. */
  lemma NamesNormalize(raw: string)
    ensures NormalizeNetworkId(raw) == "" <==> Blank(raw)
    ensures Lower(Trim(raw)) == "concordium:testnet" ==> NormalizeNetworkId(raw) == "concordium:testnet"
    ensures Lower(Trim(raw)) == "concordium:mainnet" ==> NormalizeNetworkId(raw) == "concordium:mainnet"
  {
    TrimBlank(raw);
    FourNames();
  }

  /** A chain id is "ccd:", whatever its case, and a reference up to the next colon: the prefix is written low, the rest trimmed. */
  lemma CaipNormalizes(raw: string, prefix: string, x: string, tail: string)
    requires Trim(raw) == prefix + ":" + x + tail && Lower(prefix) == "ccd"
    requires ':' !in x && (tail == "" || tail[0] == ':')
    ensures NormalizeNetworkId(raw) == "ccd:" + Trim(x)
  {
    hide Trim;
    var s := Trim(raw);
    assert Lower(s)[..4] == CCD;
    assert Lower(s)[1] == 'c';
    FourNames();
    NoColon(prefix);
    assert s == prefix + [':'] + (x + tail);
    SplitFirst(prefix, ':', x + tail);
    if tail == "" {
      assert x + tail == x;
      SplitWhole(x, ':');
    } else {
      assert x + tail == x + [':'] + tail[1..];
      SplitFirst(x, ':', tail[1..]);
    }
    assert CCD + "" == CCD;
  }

  lemma NoColon(prefix: string)
    requires Lower(prefix) == "ccd"
    ensures ':' !in prefix
  {
    forall i | 0 <= i < |prefix| ensures prefix[i] != ':' {
      assert Lower(prefix)[i] == LowerChar(prefix[i]) && "ccd"[i] != ':';
    }
  }

  /** Any other text is only trimmed. */
  lemma OthersPass(raw: string)
    requires Lower(Trim(raw)) != "concordium:testnet" && Lower(Trim(raw)) != "concordium:mainnet"
    requires !("ccd:" <= Lower(Trim(raw)))
    ensures NormalizeNetworkId(raw) == Trim(raw)
  {
  }

  /** The chain id a receipt carries: never a legacy name, and the normal form unless that is one. */
  lemma ReceiptNames(network: string)
    ensures var (c, n) := (CanonicalChainId(network), NormalizeNetworkId(network));
            && c != "concordium:testnet" && c != "concordium:mainnet"
            && (n == "concordium:testnet" ==> c == "ccd:4221332d34e1694168c2a0c0b3fd0f27")
            && (n == "concordium:mainnet" ==> c == "ccd:9dd9ca4d19e9393877d2c44b70f89acb")
            && (n != "concordium:testnet" && n != "concordium:mainnet" ==> c == n)
  {
    hide NormalizeNetworkId;
    FourNames();
  }

  /** The two legacy names, in any case and with white space around them, become their genesis hashes. */
  lemma LegacyNamesBecomeChainIds(network: string)
    ensures Lower(Trim(network)) == "concordium:testnet" ==>
              CanonicalChainId(network) == "ccd:4221332d34e1694168c2a0c0b3fd0f27"
    ensures Lower(Trim(network)) == "concordium:mainnet" ==>
              CanonicalChainId(network) == "ccd:9dd9ca4d19e9393877d2c44b70f89acb"
  {
    hide NormalizeNetworkId, CanonicalChainId, Trim;
    NamesNormalize(network);
    ReceiptNames(network);
  }

  /** The receipt's chain id decides equivalence: two ids are equivalent exactly when it is the same. */
  lemma CanonicalIsCompleteInvariant(a: string, b: string)
    ensures NetworksEquivalent(a, b) <==> CanonicalChainId(a) == CanonicalChainId(b)
  {
    var n, m := NormalizeNetworkId(a), NormalizeNetworkId(b);
    NormalizeIdempotent(a);
    ReceiptFormDecides(m, n);
    AliasLaws(n);
    assert m in CandidatesOf(n) <==> n != "" && (m == n || m == Alias(n));
  }

  lemma EquivalenceRelation(a: string, b: string, c: string)
    ensures NetworksEquivalent(a, a)
    ensures NetworksEquivalent(a, b) <==> NetworksEquivalent(b, a)
    ensures NetworksEquivalent(a, b) && NetworksEquivalent(b, c) ==> NetworksEquivalent(a, c)
  {
    CanonicalIsCompleteInvariant(a, b);
    CanonicalIsCompleteInvariant(b, a);
    CanonicalIsCompleteInvariant(b, c);
    CanonicalIsCompleteInvariant(a, c);
  }

  /**
   * The candidate list of an id that does not normalise to "" is its whole class in normal form, each
   * member once; an id that does has no candidates although it is equivalent to itself.
   */
  lemma CandidatesAreTheClass(a: string, x: string)
    ensures NormalizeNetworkId(a) != "" ==>
              (x in NetworkCandidates(a) <==> NormalizeNetworkId(x) == x && NetworksEquivalent(a, x))
    ensures NormalizeNetworkId(a) == "" ==> NetworkCandidates(a) == [] && NetworksEquivalent(a, "")
    ensures forall i, j :: 0 <= i < j < |NetworkCandidates(a)| ==> NetworkCandidates(a)[i] != NetworkCandidates(a)[j]
  {
    TrimTrims("");
    assert NormalizeNetworkId("") == "";
    NormalizeIdempotent(a);
    hide NormalizeNetworkId, Trim;
    var n := NormalizeNetworkId(a);
    AliasNormal(n);
  }

  lemma CandidatesAreNames(a: string, x: string)
    requires x in NetworkCandidates(a)
    ensures x != "" && NormalizeNetworkId(x) == x
  {
    var n := NormalizeNetworkId(a);
    NormalizeIdempotent(a);
    AliasNormal(n);
    AliasLaws(n);
  }

  /** Equivalent ids have the same candidates, whatever spelling the caller used. */
  lemma CandidatesRespectClass(a: string, b: string, x: string)
    requires NetworksEquivalent(a, b)
    ensures x in NetworkCandidates(a) <==> x in NetworkCandidates(b)
  {
    var n, m := NormalizeNetworkId(a), NormalizeNetworkId(b);
    NormalizeIdempotent(a);
    AliasLaws(n);
  }

  /** A normal form other than "" of a network equivalent to this one. */
  predicate IsNameOf(n: string, network: string) {
    n != "" && NormalizeNetworkId(n) == n && NetworksEquivalent(network, n)
  }

  /** The candidates of an id are exactly its names. */
  lemma NamesAreCandidates(network: string)
    ensures forall n :: n in NetworkCandidates(network) <==> IsNameOf(n, network)
    ensures NetworkCandidates(network) == CandidatesOf(NormalizeNetworkId(network))
  {
    forall n ensures n in NetworkCandidates(network) <==> IsNameOf(n, network) {
      CandidatesAreTheClass(network, n);
      if n in NetworkCandidates(network) { CandidatesAreNames(network, n); }
      if NormalizeNetworkId(network) == "" { EmptyClass(network, n); }
    }
  }

  lemma EmptyClass(network: string, n: string)
    requires NormalizeNetworkId(network) == ""
    ensures !IsNameOf(n, network)
  {
    TrimTrims("");
    assert NormalizeNetworkId("") == "";
    hide NormalizeNetworkId;
  }

  /** An id with names has its own normal form among them. */
  lemma OwnName(network: string, n: string)
    requires IsNameOf(n, network)
    ensures IsNameOf(NormalizeNetworkId(network), network)
  {
    NormalizeIdempotent(network);
    NamesAreCandidates(network);
    hide NormalizeNetworkId;
    CandidatesAreTheClass(network, NormalizeNetworkId(network));
  }
}
