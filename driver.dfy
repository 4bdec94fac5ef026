/** The running monitor: the module-level state of the program (the seen
    hashes and the listing cache) and the polling loop's block pointer, kept
    in one object and changed in place by its methods. */
module Driver {
  import opened Wrappers
  import opened Hex
  import opened Addresses
  import opened Approval
  import opened SeenTxs
  import opened Chain
  import opened Listing
  import opened Pipeline

  class Monitor {
    /** `seen_txs`, oldest first. */
    var seen: seq<string>
    /** `token_cache`. */
    var cache: Cache
    /** `last_block` of `monitor_transactions`. */
    var lastBlock: int

    ghost predicate Valid()
      reads this
    {
      |seen| <= SEEN_CAPACITY
    }

    /** Empty state; the pointer starts one below the head read at start-up. */
    constructor (head: int)
      ensures Valid()
      ensures seen == [] && cache == map[] && lastBlock == head - 1
    {
      seen := [];
      cache := map[];
      lastBlock := head - 1;
    }

    /** `is_token_listed(token)` at time `now`; `issued` lists the factory
        calls made, in order. */
    method IsTokenListed(token: Address, o: Oracles, now: int) returns (listed: bool, issued: seq<Query>)
      modifies this`cache
      ensures Answer(listed, issued, cache) == CachedLookup(old(cache), token, o, now)
    {
      if Live(cache, token, now) {
        return cache[token].listed, [];
      }
      listed, issued := QueryFactories(token, o);
      cache := cache[token := CacheEntry(listed, now + TTL)];
    }

    /** `process_transaction(tx)` at time `now`: the alert it prints, if any. */
    method ProcessTransaction(tx: Tx, o: Oracles, now: int) returns (alert: Option<Alert>)
      requires Valid()
      modifies this`seen, this`cache
      ensures Valid()
      ensures (State(seen, cache), alert) == Step(State(old(seen), old(cache)), tx, o, ROUTERS, now)
    {
      if tx.hash in seen || tx.to.None? {
        return None;
      }
      if !IsApproveCall(tx.input) {
        return None;
      }
      var token := ChecksumAddress(tx.to.value);
      if token.None? || IsWeth(token.value) {
        return None;
      }
      var call := Decode(tx.input);
      if call.None? {
        return None;
      }
      seen := Appended(seen, tx.hash);
      var router := RouterLabel(ROUTERS, call.value.spender);
      var listed, _ := IsTokenListed(token.value, o, now);
      if listed {
        return None;
      }
      if HolderCount(o, token.value) > HOLDER_LIMIT {
        return None;
      }
      var info := Info(o, token.value);
      alert := Some(Alert(info.name, info.symbol, tx.hash, token.value, call.value.spender, DisplayLabel(router)));
    }

    /** The transactions of one block, handled one after another;
        transaction `i` sees the answers `answers(i)`. */
    method ProcessBlock(txs: seq<Tx>, answers: nat -> Oracles, now: int) returns (alerts: seq<Alert>)
      requires Valid()
      modifies this`seen, this`cache
      ensures Valid()
      ensures (State(seen, cache), alerts) == RunBlock(State(old(seen), old(cache)), txs, answers, ROUTERS, now)
    {
      alerts := [];
      for i := 0 to |txs|
        invariant Valid()
        invariant (State(seen, cache), alerts) == RunBlock(State(old(seen), old(cache)), txs[..i], answers, ROUTERS, now)
      {
        var alert := ProcessTransaction(txs[i], answers(i), now);
        assert txs[..i + 1][..i] == txs[..i];
        alerts := alerts + AlertList(alert);
      }
      assert txs[..|txs|] == txs;
    }

    /** One turn of the loop in `monitor_transactions`, given what reading
        the head returned; `o` answers the block fetch and `answers(i)` the
        requests made for the block's transaction `i`. */
    method PollOnce(head: Result<int>, o: Oracles, answers: nat -> Oracles, now: int) returns (alerts: seq<Alert>)
      requires Valid()
      modifies this
      ensures Valid()
      ensures lastBlock == NextLast(old(lastBlock), head, o)
      ensures match Polled(old(lastBlock), head, o)
        case None => alerts == [] && seen == old(seen) && cache == old(cache)
        case Some(block) =>
          (State(seen, cache), alerts) == RunBlock(State(old(seen), old(cache)), block.1, answers, ROUTERS, now)
    {
      if head.Err? || head.value == lastBlock {
        return [];
      }
      var block := o.getBlock(head.value);
      if block.Err? {
        return [];
      }
      alerts := ProcessBlock(block.value, answers, now);
      lastBlock := head.value;
    }
  }

  /** The `try` block of `is_token_listed` (lines 71-85): the V3 pools on the
      fee tiers in order, then the V2 pair; True at the first non-zero
      address, False once a call raises (the `except` path) or when all five
      return zero. */
  method QueryFactories(token: Address, o: Oracles) returns (listed: bool, issued: seq<Query>)
    ensures Lookup(listed, issued) == Resolve(o, token)
  {
    LookupOrderShape();
    issued := [];
    for i := 0 to |FEE_TIERS|
      invariant forall j :: 0 <= j < i ==> IsEmpty(Ask(o, token, LOOKUP_ORDER[j]))
      invariant issued == LOOKUP_ORDER[..i]
    {
      var fee := FEE_TIERS[i];
      issued := issued + [PoolQuery(fee)];
      assert issued == LOOKUP_ORDER[..i + 1];
      var pool := o.getPool(token, fee);
      if pool.Err? || pool.value != ZERO_ADDRESS {
        ScanStopsAt(o, token, LOOKUP_ORDER, i);
        return pool.Ok?, issued;
      }
    }
    issued := issued + [PairQuery];
    var pair := o.getPair(token);
    if pair.Err? || pair.value != ZERO_ADDRESS {
      ScanStopsAt(o, token, LOOKUP_ORDER, 4);
      return pair.Ok?, issued;
    }
    ScanAllEmpty(o, token, LOOKUP_ORDER);
    listed := false;
  }
}
