/** Deciding whether a token already trades against WETH: a Uniswap V3
    pool on any of four fee tiers or a Uniswap V2 pair, with the answer kept
    in a cache whose entries live for ten minutes. */
module Listing {
  import opened Wrappers
  import opened Addresses
  import opened Chain

  /** One factory call. */
  datatype Query = PoolQuery(fee: nat) | PairQuery

  /** The V3 fee tiers, in the order they are tried. */
  const FEE_TIERS: seq<int> := [100, 500, 3000, 10000]

  /** Every call a full lookup can make, in the order it makes them. */
  const LOOKUP_ORDER: seq<Query> :=
    [PoolQuery(100), PoolQuery(500), PoolQuery(3000), PoolQuery(10000), PairQuery]

  /** The order is the fee tiers in turn, then the pair. */
  lemma LookupOrderShape()
    ensures |LOOKUP_ORDER| == |FEE_TIERS| + 1 && LOOKUP_ORDER[|FEE_TIERS|] == PairQuery
    ensures forall i :: 0 <= i < |FEE_TIERS| ==> LOOKUP_ORDER[i] == PoolQuery(FEE_TIERS[i])
  {
  }

  function Ask(o: Oracles, token: Address, q: Query): Result<Address> {
    match q
    case PoolQuery(fee) => o.getPool(token, fee)
    case PairQuery => o.getPair(token)
  }

  /** The call returned the zero address: nothing there, go on. */
  predicate IsEmpty(answer: Result<Address>) {
    answer == Ok(ZERO_ADDRESS)
  }

  /** The call returned a pool or pair. */
  predicate IsHit(answer: Result<Address>) {
    answer.Ok? && answer.value != ZERO_ADDRESS
  }

  /** What a lookup decided and the calls it made, in order. */
  datatype Lookup = Lookup(listed: bool, issued: seq<Query>)

  /** Making the calls `qs` in order inside one `try`: stop with True at the
      first non-zero address, stop with False at the first call that raises,
      and answer False when every call returned zero. */
  function Scan(o: Oracles, token: Address, qs: seq<Query>): (r: Lookup)
    ensures |r.issued| <= |qs| && r.issued == qs[..|r.issued|]
    ensures qs != [] ==> r.issued != []
    ensures forall j :: 0 <= j < |r.issued| - 1 ==> IsEmpty(Ask(o, token, qs[j]))
    ensures 0 < |r.issued| < |qs| ==> !IsEmpty(Ask(o, token, qs[|r.issued| - 1]))
    ensures r.listed <==> r.issued != [] && IsHit(Ask(o, token, qs[|r.issued| - 1]))
    decreases |qs|
  {
    if qs == [] then Lookup(false, [])
    else
      match Ask(o, token, qs[0])
      case Err => Lookup(false, [qs[0]])
      case Ok(found) =>
        if found != ZERO_ADDRESS then Lookup(true, [qs[0]])
        else Lookup(Scan(o, token, qs[1..]).listed, [qs[0]] + Scan(o, token, qs[1..]).issued)
  }

  /** The uncached part of `is_token_listed` (lines 71-86). */
  function Resolve(o: Oracles, token: Address): Lookup {
    Scan(o, token, LOOKUP_ORDER)
  }

  /** A scan whose first `i` calls returned zero stops at call `i` when that
      one did not. */
  lemma ScanStopsAt(o: Oracles, token: Address, qs: seq<Query>, i: nat)
    requires i < |qs|
    requires forall j :: 0 <= j < i ==> IsEmpty(Ask(o, token, qs[j]))
    requires !IsEmpty(Ask(o, token, qs[i]))
    ensures Scan(o, token, qs) == Lookup(IsHit(Ask(o, token, qs[i])), qs[..i + 1])
  {
  }

  /** A scan in which every call returned zero makes them all and answers False. */
  lemma ScanAllEmpty(o: Oracles, token: Address, qs: seq<Query>)
    requires forall j :: 0 <= j < |qs| ==> IsEmpty(Ask(o, token, qs[j]))
    ensures Scan(o, token, qs) == Lookup(false, qs)
  {
  }

  /** The lookup answers True exactly when some call returned a non-zero
      address and every call before it returned zero. */
  lemma ResolveListedIff(o: Oracles, token: Address)
    ensures Resolve(o, token).listed <==>
      exists i :: 0 <= i < |LOOKUP_ORDER| && IsHit(Ask(o, token, LOOKUP_ORDER[i])) &&
        forall j :: 0 <= j < i ==> IsEmpty(Ask(o, token, LOOKUP_ORDER[j]))
  {
    var r := Resolve(o, token);
    var n := |r.issued|;
    if r.listed {
      assert IsHit(Ask(o, token, LOOKUP_ORDER[n - 1]));
    } else {
      forall i | 0 <= i < |LOOKUP_ORDER| && IsHit(Ask(o, token, LOOKUP_ORDER[i]))
        ensures exists j :: 0 <= j < i && !IsEmpty(Ask(o, token, LOOKUP_ORDER[j]))
      {
        if i > n - 1 {
          assert !IsEmpty(Ask(o, token, LOOKUP_ORDER[n - 1]));
        }
      }
    }
  }

  /** The V2 pair is asked for exactly when all four V3 pools came back zero. */
  lemma PairOnlyAfterEmptyPools(o: Oracles, token: Address)
    ensures PairQuery in Resolve(o, token).issued <==>
      forall i :: 0 <= i < |FEE_TIERS| ==> IsEmpty(o.getPool(token, FEE_TIERS[i]))
  {
    var r := Resolve(o, token);
    var n := |r.issued|;
    LookupOrderShape();
    if PairQuery in r.issued {
      var k :| 0 <= k < n && r.issued[k] == PairQuery;
      assert LOOKUP_ORDER[k] == PairQuery;
      assert k == 4 && n == 5;
      forall i | 0 <= i < |FEE_TIERS| ensures IsEmpty(o.getPool(token, FEE_TIERS[i])) {
        assert IsEmpty(Ask(o, token, LOOKUP_ORDER[i]));
      }
    } else {
      assert n < 5;
      assert !IsEmpty(o.getPool(token, FEE_TIERS[n - 1])) by {
        assert !IsEmpty(Ask(o, token, LOOKUP_ORDER[n - 1]));
      }
    }
  }

  /** A factory call that raises ends the lookup: nothing after it is asked
      and the answer is False. */
  lemma FailureAbandonsLookup(o: Oracles, token: Address, i: nat)
    requires i < |LOOKUP_ORDER|
    requires forall j :: 0 <= j < i ==> IsEmpty(Ask(o, token, LOOKUP_ORDER[j]))
    requires Ask(o, token, LOOKUP_ORDER[i]).Err?
    ensures Resolve(o, token) == Lookup(false, LOOKUP_ORDER[..i + 1])
  {
    ScanStopsAt(o, token, LOOKUP_ORDER, i);
  }

  /** How long a cached decision lives, in seconds. */
  const TTL: int := 600

  /** A decision and the time from which it no longer counts. */
  datatype CacheEntry = CacheEntry(listed: bool, expires: int)

  type Cache = map<Address, CacheEntry>

  /** `token in token_cache` at time `now`. */
  predicate Live(cache: Cache, token: Address, now: int) {
    token in cache && now < cache[token].expires
  }

  /** What `is_token_listed` answers, the calls it makes and the cache it leaves. */
  datatype Answer = Answer(listed: bool, issued: seq<Query>, cache: Cache)

  /** `is_token_listed(token)` at time `now` (lines 67-86). */
  function CachedLookup(cache: Cache, token: Address, o: Oracles, now: int): Answer {
    if Live(cache, token, now) then Answer(cache[token].listed, [], cache)
    else
      var l := Resolve(o, token);
      Answer(l.listed, l.issued, cache[token := CacheEntry(l.listed, now + TTL)])
  }

  /** A live entry is answered from the cache with no factory call; a miss
      makes the lookup's calls, and then the token is live in the cache,
      holding True exactly when a call found a non-zero address; no other
      token's entry changes. */
  lemma CachedLookupEffect(cache: Cache, token: Address, o: Oracles, now: int)
    ensures var a := CachedLookup(cache, token, o, now);
      && (Live(cache, token, now) ==> a.listed == cache[token].listed && a.issued == [] && a.cache == cache)
      && (!Live(cache, token, now) ==>
            && a.issued == Resolve(o, token).issued
            && Live(a.cache, token, now)
            && a.cache[token] == CacheEntry(a.listed, now + TTL)
            && (a.listed <==> exists q :: q in a.issued && IsHit(Ask(o, token, q))))
      && (forall t :: t != token ==> (t in a.cache <==> t in cache) && (t in cache ==> a.cache[t] == cache[t]))
  {
    if !Live(cache, token, now) {
      var l := Resolve(o, token);
      var n := |l.issued|;
      if l.listed {
        assert l.issued[n - 1] in l.issued;
      } else {
        forall q | q in l.issued ensures !IsHit(Ask(o, token, q)) {
          var k :| 0 <= k < n && l.issued[k] == q;
          if k < n - 1 {
            assert IsEmpty(Ask(o, token, LOOKUP_ORDER[k]));
          }
        }
      }
    }
  }

  /** A decision made on a miss is served from the cache, whatever the chain
      now answers, until ten minutes have passed. */
  lemma StableWithinTtl(cache: Cache, token: Address, o: Oracles, o': Oracles, now: int, later: int, a: Answer)
    requires !Live(cache, token, now) && a == CachedLookup(cache, token, o, now)
    requires now <= later < now + TTL
    ensures CachedLookup(a.cache, token, o', later) == Answer(a.listed, [], a.cache)
  {
  }
}
