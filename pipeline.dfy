/** The per-transaction decision of the monitor as a function of the state
    it keeps (the seen hashes and the listing cache), the transaction, the
    answers of the outside world and the clock; then a block of them, and the
    polling loop's block pointer. */
module Pipeline {
  import opened Wrappers
  import opened Hex
  import opened Addresses
  import opened Approval
  import opened SeenTxs
  import opened Chain
  import opened Listing

  /** A token with more holders than this is skipped. */
  const HOLDER_LIMIT: nat := 100

  /** What `get_holder_count` returns when its request raises. */
  const HOLDER_FALLBACK: nat := 9999

  /** What `get_token_info` returns when one of its calls raises. */
  const INFO_FALLBACK: TokenInfo := TokenInfo("Unknown", "UNK", 18)

  /** `get_holder_count(token)`: the number of balance entries, or the
      fallback when the request raises. */
  function HolderCount(o: Oracles, token: Address): nat {
    match o.balanceCount(token)
    case Ok(n) => n
    case Err => HOLDER_FALLBACK
  }

  /** `get_token_info(token)`. */
  function Info(o: Oracles, token: Address): TokenInfo {
    match o.tokenInfo(token)
    case Ok(info) => info
    case Err => INFO_FALLBACK
  }

  /** An approval that got past the filters: the token (the checksummed
      `to`), the spender and the amount. */
  datatype Candidate = Candidate(token: Address, spender: Address, amount: nat)

  /** Lines 117-131 of `process_transaction`: None when the handler returns
      or raises before it records the hash. */
  function Screen(seen: seq<string>, tx: Tx): Option<Candidate> {
    if tx.hash in seen || tx.to.None? then None
    else if !IsApproveCall(tx.input) then None
    else
      match ChecksumAddress(tx.to.value)
      case None => None
      case Some(token) =>
        if IsWeth(token) then None
        else
          match Decode(tx.input)
          case None => None
          case Some(call) => Some(Candidate(token, call.spender, call.amount))
  }

  /** The transactions the handler drops at once: a hash already recorded, a
      contract creation, calldata that does not start with the approve
      selector, or a call on WETH. */
  predicate Irrelevant(seen: seq<string>, tx: Tx) {
    || tx.hash in seen
    || tx.to.None?
    || !IsApproveCall(tx.input)
    || (ChecksumAddress(tx.to.value).Some? && IsWeth(ChecksumAddress(tx.to.value).value))
  }

  /** A new approval on a token other than WETH whose `to` normalises. */
  predicate RelevantApproval(seen: seq<string>, tx: Tx, token: Address) {
    && tx.hash !in seen
    && tx.to.Some?
    && IsApproveCall(tx.input)
    && ChecksumAddress(tx.to.value) == Some(token)
    && !IsWeth(token)
  }

  /** The state the handler shares between transactions. */
  datatype State = State(seen: seq<string>, cache: Cache)

  /** The lines the handler prints for a candidate. */
  datatype Alert = Alert(name: string, symbol: string, hash: string, token: Address, spender: Address, router: string)

  /** `process_transaction(tx)` at time `now` with the router table `routers`. */
  function Step(s: State, tx: Tx, o: Oracles, routers: seq<(string, string)>, now: int): (r: (State, Option<Alert>))
    requires |s.seen| <= SEEN_CAPACITY
    ensures |r.0.seen| <= SEEN_CAPACITY
    ensures r.0.seen == s.seen || r.0.seen == Appended(s.seen, tx.hash)
    ensures r.1.Some? ==> r.1.value.hash == tx.hash && tx.hash in r.0.seen
  {
    match Screen(s.seen, tx)
    case None => (s, None)
    case Some(c) =>
      var seen := Appended(s.seen, tx.hash);
      var router := RouterLabel(routers, c.spender);
      var a := CachedLookup(s.cache, c.token, o, now);
      if a.listed then (State(seen, a.cache), None)
      else if HolderCount(o, c.token) > HOLDER_LIMIT then (State(seen, a.cache), None)
      else
        var info := Info(o, c.token);
        (State(seen, a.cache), Some(Alert(info.name, info.symbol, tx.hash, c.token, c.spender, DisplayLabel(router))))
  }

  /** An irrelevant transaction gives no alert and leaves the seen hashes and
      the listing cache as they were. */
  lemma IrrelevantIgnored(s: State, tx: Tx, o: Oracles, routers: seq<(string, string)>, now: int)
    requires |s.seen| <= SEEN_CAPACITY
    requires Irrelevant(s.seen, tx)
    ensures Step(s, tx, o, routers, now) == (s, None)
  {
  }

  /** For a new approval on a token other than WETH, the hash is recorded
      exactly when the calldata decodes, i.e. has at least 37 bytes; shorter
      calldata raises inside the handler, which then leaves everything as it
      was. */
  lemma RecordedExactlyWhenDecoded(s: State, tx: Tx, token: Address, o: Oracles, routers: seq<(string, string)>, now: int)
    requires |s.seen| <= SEEN_CAPACITY
    requires RelevantApproval(s.seen, tx, token)
    ensures Step(s, tx, o, routers, now).0.seen == if |tx.input| >= 37 then Appended(s.seen, tx.hash) else s.seen
    ensures |tx.input| < 37 ==> Step(s, tx, o, routers, now) == (s, None)
  {
  }

  /** For a new decodable approval: the hash is recorded before the listing
      and holder gates, the token's listing is looked up (and cached) whatever
      follows, and an alert is made exactly when the token is not listed and
      has at most 100 holders; the alert names the token, the spender taken
      from bytes [16, 36) and the router label. */
  lemma AlertIffUnlistedAndFewHolders(s: State, tx: Tx, token: Address, o: Oracles, routers: seq<(string, string)>, now: int)
    requires |s.seen| <= SEEN_CAPACITY
    requires RelevantApproval(s.seen, tx, token) && |tx.input| >= 37
    ensures var r := Step(s, tx, o, routers, now);
      var a := CachedLookup(s.cache, token, o, now);
      && r.0 == State(Appended(s.seen, tx.hash), a.cache)
      && (r.1.Some? <==> !a.listed && HolderCount(o, token) <= HOLDER_LIMIT)
      && (r.1.Some? ==>
            && r.1.value.token == token
            && r.1.value.spender == Address(tx.input[16..36])
            && r.1.value.router == DisplayLabel(RouterLabel(routers, Address(tx.input[16..36])))
            && r.1.value.name == Info(o, token).name)
  {
  }

  /** When the holder request raises, the fallback of 9999 is over the limit
      and no alert is made. */
  lemma HolderFailureSuppressesAlert(s: State, tx: Tx, token: Address, o: Oracles, routers: seq<(string, string)>, now: int)
    requires |s.seen| <= SEEN_CAPACITY
    requires RelevantApproval(s.seen, tx, token)
    requires o.balanceCount(token).Err?
    ensures Step(s, tx, o, routers, now).1.None?
  {
  }

  /** An error reply to the holder request has no `result` and counts as no
      holders at all, so the holder gate lets the token through: an unlisted
      token is reported. */
  lemma ErrorReplyPassesHolderGate(s: State, tx: Tx, token: Address, o: Oracles, routers: seq<(string, string)>, now: int)
    requires |s.seen| <= SEEN_CAPACITY
    requires RelevantApproval(s.seen, tx, token) && |tx.input| >= 37
    requires o.balanceCount(token) == Ok(0)
    ensures Step(s, tx, o, routers, now).1.Some? <==> !CachedLookup(s.cache, token, o, now).listed
  {
    AlertIffUnlistedAndFewHolders(s, tx, token, o, routers, now);
  }

  /** The router table only labels alerts: it never changes what is
      recorded, what is cached or whether an alert is made. */
  lemma LabelNeverFilters(s: State, tx: Tx, o: Oracles, routers: seq<(string, string)>, routers': seq<(string, string)>, now: int)
    requires |s.seen| <= SEEN_CAPACITY
    ensures Step(s, tx, o, routers, now).0 == Step(s, tx, o, routers', now).0
    ensures Step(s, tx, o, routers, now).1.Some? == Step(s, tx, o, routers', now).1.Some?
  {
  }

  /** Handling a transaction a second time straight after the first gives no
      alert and changes nothing, whatever the chain and the clock say. */
  lemma ReplaySuppressed(s: State, tx: Tx, o: Oracles, o': Oracles, routers: seq<(string, string)>, now: int, later: int)
    requires |s.seen| <= SEEN_CAPACITY
    ensures var s1 := Step(s, tx, o, routers, now).0;
      Step(s1, tx, o', routers, later) == (s1, None)
  {
    var s1 := Step(s, tx, o, routers, now).0;
    if Screen(s.seen, tx).Some? {
      assert tx.hash in s1.seen;
    }
  }

  /** An alert is made for an unlisted token with few holders, and the token
      is then cached as not listed; when it was not cached before, the entry
      lives for the next ten minutes. */
  lemma AlertCachesUnlisted(s: State, tx: Tx, token: Address, o: Oracles, routers: seq<(string, string)>, now: int)
    requires |s.seen| <= SEEN_CAPACITY
    requires RelevantApproval(s.seen, tx, token) && |tx.input| >= 37
    requires !CachedLookup(s.cache, token, o, now).listed && HolderCount(o, token) <= HOLDER_LIMIT
    ensures var r := Step(s, tx, o, routers, now);
      && r.1.Some? && r.1.value.token == token
      && Live(r.0.cache, token, now) && !r.0.cache[token].listed
      && (!Live(s.cache, token, now) ==> r.0.cache[token] == CacheEntry(false, now + TTL))
  {
    CachedLookupEffect(s.cache, token, o, now);
  }

  /** The cache is a listing cache, not an alert suppressor: a second new
      approval on a token that was just reported, within the ten minutes, is
      reported again when the holder gate lets it through, and no factory is
      asked again. */
  lemma NoRepeatSuppression(s: State, tx: Tx, tx': Tx, token: Address, o: Oracles, o': Oracles,
                            routers: seq<(string, string)>, now: int, later: int)
    requires |s.seen| <= SEEN_CAPACITY
    requires RelevantApproval(s.seen, tx, token) && |tx.input| >= 37
    requires !Live(s.cache, token, now)
    requires !Resolve(o, token).listed && HolderCount(o, token) <= HOLDER_LIMIT
    requires now <= later < now + TTL
    requires RelevantApproval(Appended(s.seen, tx.hash), tx', token) && |tx'.input| >= 37
    requires HolderCount(o', token) <= HOLDER_LIMIT
    ensures var s1 := Step(s, tx, o, routers, now).0;
      && Step(s, tx, o, routers, now).1.Some?
      && Step(s1, tx', o', routers, later).1.Some?
      && CachedLookup(s1.cache, token, o', later).issued == []
  {
    var s1 := Step(s, tx, o, routers, now).0;
    AlertIffUnlistedAndFewHolders(s, tx, token, o, routers, now);
    AlertCachesUnlisted(s, tx, token, o, routers, now);
    AlertIffUnlistedAndFewHolders(s1, tx', token, o', routers, later);
  }

  function AlertList(a: Option<Alert>): seq<Alert> {
    if a.Some? then [a.value] else []
  }

  /** The transactions of a block handled one after another, in order: the
      state left and the alerts made. Transaction `i` sees the answers
      `answers(i)`, since every handler makes its own requests. */
  function RunBlock(s: State, txs: seq<Tx>, answers: nat -> Oracles, routers: seq<(string, string)>, now: int): (r: (State, seq<Alert>))
    requires |s.seen| <= SEEN_CAPACITY
    ensures |r.0.seen| <= SEEN_CAPACITY
    ensures |r.1| <= |txs|
    decreases |txs|
  {
    if txs == [] then (s, [])
    else
      var before := RunBlock(s, txs[..|txs| - 1], answers, routers, now);
      var after := Step(before.0, txs[|txs| - 1], answers(|txs| - 1), routers, now);
      (after.0, before.1 + AlertList(after.1))
  }

  /** The block a poll hands to the handler: none when reading the head
      raised, when the head has not moved since `last`, or when fetching the
      block raised; otherwise the block at the head, whatever the gap. */
  function Polled(last: int, head: Result<int>, o: Oracles): Option<(int, seq<Tx>)> {
    if head.Err? || head.value == last then None
    else
      match o.getBlock(head.value)
      case Err => None
      case Ok(txs) => Some((head.value, txs))
  }

  /** `last_block` after one turn of the loop. */
  function NextLast(last: int, head: Result<int>, o: Oracles): int {
    if Polled(last, head, o).Some? then head.value else last
  }

  /** The pointer only ever moves to an observed head, and only once that
      head's block was fetched; heights between the old pointer and the head
      are never fetched. */
  lemma PointerFollowsHead(last: int, head: Result<int>, o: Oracles)
    ensures NextLast(last, head, o) != last ==>
      head.Ok? && NextLast(last, head, o) == head.value && o.getBlock(head.value).Ok? &&
      Polled(last, head, o) == Some((head.value, o.getBlock(head.value).value))
    ensures head.Err? || o.getBlock(head.value).Err? ==> NextLast(last, head, o) == last
  {
  }
}
