# Approval sniper for new tokens on Base

The program watches Base blocks for ERC-20 `approve(spender, amount)` calls.
For each approval it works out the token and the spender. It skips tokens
that already have a Uniswap pool. It also skips tokens whose "holder count"
is over 100: the program's name for the length of the `tokenBalances` list in
the reply to an `alchemy_getTokenBalances(token, "erc20")` request. For every
other token it prints an alert. This project models that decision
chain in Dafny. It covers:

- the calldata screening and decoding in `process_transaction`;
- the bounded record of seen transaction hashes (`deque(maxlen=5000)`);
- the Uniswap V3/V2 listing lookup and its ten-minute cache (`is_token_listed`);
- the holder gate and the router label;
- the polling loop's block pointer (`monitor_transactions`).

The model is in layers:

| file | module | contents |
|---|---|---|
| `wrappers.dfy` | `Wrappers` | `Option`, `Result` |
| `hex.dfy` | `Hex` | `bytes.hex()`, `int(s, 16)`, big-endian values, the hex/bytes round trips |
| `addresses.dfy` | `Addresses` | 20-byte addresses, `to_checksum_address` on the texts the program builds, WETH, the router table |
| `approval.dfy` | `Approval` | the approve selector and the calldata decoding through the hexadecimal text |
| `seen_txs.dfy` | `SeenTxs` | the 5000-entry FIFO of hashes |
| `chain.dfy` | `Chain` | transactions, token metadata, and the outside world as a record of answer functions (`Oracles`) |
| `listing.dfy` | `Listing` | the factory lookup order, its early exits, the TTL cache |
| `pipeline.dfy` | `Pipeline` | `process_transaction` as a pure step over the shared state, a block of steps, one poll |
| `driver.dfy` | `Driver` | class `Monitor` holding `seen_txs`, `token_cache` and `last_block`; its methods are proved equal to the pure step functions |

The factory calls, the holder request, the token metadata calls and the
block fetch go through `Oracles`. That record gives each call's answer, or
`Err` when the call raises. Each transaction of a block gets its own record,
because each handler call makes its own requests. The chain head that
`w3.eth.block_number` reads (`test.py:160`, `test.py:164`) is a parameter:
the constructor's `head` and `PollOnce`'s `head`, a `Result` for the read in
the loop. Time is a parameter `now`. Each
method of `Monitor` updates the object in place. Its postcondition ties the
new fields and the result to the functions in `Pipeline` and `Listing`, and
the properties are proved as lemmas about those functions.

Decisions taken from the code:

- An address is kept as its bytes. The EIP-55 checksum text is a one-to-one
  function of the bytes. So the comparisons of that text as it is (the cache
  key at `test.py:68`, the zero-address tests at `test.py:74` and
  `test.py:79`) compare bytes. The comparisons after `.lower()` (WETH at
  `test.py:126`, the routers at `test.py:135`) compare the lower-case text,
  which is `"0x"` plus the lower-case hex of the bytes
  (`Addresses.AddressText`).
- `input_data.hex()` is modelled as `"0x"` followed by the hex digits. That
  is the behaviour of `hexbytes` before version 1.0, and it is the one the
  offsets 34 and 74 in `test.py:130-131` are written for. Python slicing
  clamps out-of-range bounds, and the model does the same. So calldata of at
  least 37 bytes decodes, and shorter calldata raises inside the handler.
- A cached decision counts while `now < stored_at + 600`.
- The holder count falls back to 9999 only when the request raises: a
  transport error, a body that is not JSON, or a `"result": null`.
  `requests.post` does not raise on an HTTP error status, and a JSON-RPC
  error reply (a rejected API key, a rate limit) has no `"result"`. Then
  `response.get("result", {}).get("tokenBalances", [])` gives `[]`, the
  count is 0, and the gate passes (`Pipeline.ErrorReplyPassesHolderGate`).
  The model keeps this behaviour of the code.

## Model

| member | source | states |
|---|---|---|
| Hex.HexValueOfToHex | test.py:129-131 | Parsing the hex text of bytes with `int(_, 16)` gives their big-endian value. |
| Hex.ParseBytesOfToHex | test.py:129-130 | Turning hex text back into bytes inverts `bytes.hex()`. |
| Hex.BigEndianAppend | test.py:131 | The big-endian value of `a + b` is `value(a) * 256^|b| + value(b)`. |
| Hex.ParseHexIntOfToHex | test.py:131 | `int(_, 16)` of the hex text of some bytes raises when there are no bytes, and otherwise gives their big-endian value. |
| Addresses.ChecksumAddress | test.py:124 | Normalisation succeeds exactly on `"0x"` plus 40 hex digits in either case; anything else raises. The result has 20 bytes, and its lower-case text is the input's lower-case text. |
| Addresses.ChecksumIgnoresCase | test.py:124-126 | Two texts that normalise give the same address exactly when they are equal ignoring case, so the WETH test matches any spelling of WETH's address. |
| Addresses.ChecksumOfText | test.py:130 | Normalising an address's lower-case text gives the same address back. |
| Addresses.AddressTextIsLower | test.py:126 | `.lower()` leaves the lower-case text of an address unchanged. |
| Addresses.RouterLabel | test.py:135 | `None` exactly when no router matches. Otherwise the label is the first matching entry's, in table order. |
| Addresses.UnknownExactlyWhenNoRouter | test.py:152 | With the program's router table, the alert shows "Unknown" exactly when the spender matches none of the three routers. |
| Approval.Slice | test.py:130-131 | A Python slice clamps to the string and has length `min(j, n) - min(i, n)`. |
| Approval.Decode | test.py:129-131 | Decoding succeeds exactly when the calldata has at least 37 bytes. The spender is bytes [16, 36) and the amount is the big-endian value of bytes [36, end). |
| Approval.DecodeTextOf | test.py:129-131 | Slicing the hex text at 34..74 and 74.. reads exactly those byte ranges. |
| Approval.PaddingIgnored | test.py:129-131 | Calldata that differs only in its first 16 bytes (selector and address padding) decodes the same. |
| Approval.TrailingBytesInAmount | test.py:131 | On calldata longer than the 68-byte ABI encoding, the extra bytes become low-order digits of the amount. |
| Approval.DecodeUnprefixed | test.py:129-131 | The same slicing on hex text without `"0x"`: succeeds exactly at 38 bytes or more, and reads bytes [17, 37) and [37, end). |
| Approval.UnprefixedMisreads | test.py:129-131 | A concrete approval whose spender reads as `0x01` followed by zeros with the prefix and as the zero address without it. |
| Approval.ShortCallOnlyPrefixed | test.py:129-131 | Every 37-byte calldata decodes with the prefix and raises without it. |
| SeenTxs.Appended | test.py:133 | Appending keeps at most 5000 hashes and puts the new hash last. The earlier hashes are kept in order, except that the oldest is dropped when the deque is full. |
| SeenTxs.AppendAllIsNewest | test.py:62 | After any sequence of appends, the deque holds the newest 5000 hashes of the whole history, in order. |
| SeenTxs.RecordedHashSurvives | test.py:117 | A hash stays recorded while fewer than 5000 hashes are appended after it. |
| SeenTxs.OldestEvictedFirst | test.py:62 | 5001 distinct appends to an empty deque evict exactly the first hash. |
| Listing.LookupOrderShape | test.py:72-78 | The factories are asked in a fixed order: the V3 pools with fee 100, 500, 3000 and 10000, then the V2 pair. |
| Listing.Scan | test.py:71-86 | The calls made are a prefix of the order. Every call but the last returned zero, and a stop before the end is at a non-zero answer or a raise. The answer is True exactly when the last call returned a non-zero address. |
| Listing.ScanStopsAt | test.py:72-81 | A lookup stops right after the first call that did not return zero. |
| Listing.ResolveListedIff | test.py:71-86 | The token is listed exactly when some call returns a non-zero address and every call before it returned zero. |
| Listing.PairOnlyAfterEmptyPools | test.py:72-78 | The V2 pair is asked for exactly when all four V3 pools returned zero. |
| Listing.FailureAbandonsLookup | test.py:71-86 | A raising call ends the lookup with False, and no later call is made. |
| Listing.CachedLookupEffect | test.py:65-86 | A live entry answers with no call and leaves the cache as it is. A miss makes the lookup's calls and stores the answer for 600 seconds. The answer is True exactly when some call found a non-zero address. No other token's entry changes. |
| Listing.StableWithinTtl | test.py:65-69 | A decision made on a miss is served unchanged for the next ten minutes, whatever the chain answers. |
| Pipeline.Step | test.py:115-156 | At most 5000 hashes are kept. The seen hashes either stay the same or get the transaction's hash appended. An alert carries the transaction's hash, which is then recorded. |
| Pipeline.IrrelevantIgnored | test.py:117-127 | A recorded hash, a contract creation, a non-approve call or a WETH approval gives no alert and changes nothing. |
| Pipeline.RecordedExactlyWhenDecoded | test.py:129-133 | A new approval on a token other than WETH is recorded exactly when its calldata decodes (at least 37 bytes). Otherwise the exception leaves everything as it was. |
| Pipeline.AlertIffUnlistedAndFewHolders | test.py:133-152 | For a decodable new approval, the hash is recorded and the listing is looked up and cached. An alert is made exactly when the token is unlisted and has a holder count of at most 100. The alert names the token, the spender from bytes [16, 36) and the router label. |
| Pipeline.HolderFailureSuppressesAlert | test.py:141-144 | A holder request that raises falls back to 9999, which is over the limit, so no alert is made. |
| Pipeline.ErrorReplyPassesHolderGate | test.py:98-99 | An error reply to the holder request (no `result`) does not raise: it counts as 0 holders, so the gate passes and an unlisted token is reported. |
| Pipeline.LabelNeverFilters | test.py:135-152 | The router table changes neither the new state nor whether an alert is made. |
| Pipeline.ReplaySuppressed | test.py:117-133 | Handling a transaction again straight after the first time gives no alert and changes nothing, whatever the chain and the clock say. The suppression lasts while fewer than 5000 hashes have been recorded since (`SeenTxs.RecordedHashSurvives`). Once the hash is evicted, a replay is handled as a new transaction. |
| Pipeline.AlertCachesUnlisted | test.py:137-152 | A new decodable approval on an unlisted token with a holder count of at most 100 gives an alert, and leaves the token cached as not listed. If it was not cached before, the entry expires at `now + 600`. |
| Pipeline.NoRepeatSuppression | test.py:137-152 | A second new approval on a reported token within ten minutes is reported again when the holder gate passes, and no factory is asked again. |
| Pipeline.RunBlock | test.py:172-173 | Handling a block keeps at most 5000 hashes and makes at most one alert per transaction. Each transaction sees its own answers from the outside world. |
| Pipeline.PointerFollowsHead | test.py:160-177 | `last_block` moves only to an observed head whose block was fetched. A failed head read or block fetch leaves it unchanged. |
| Driver.Monitor.constructor | test.py:160 | Start-up state: no seen hashes, an empty cache, and a pointer one below the head. |
| Driver.Monitor.IsTokenListed | test.py:67-86 | The answer, the calls made and the new cache are those of `Listing.CachedLookup`. |
| Driver.QueryFactories | test.py:71-85 | The loop over the fee tiers and the pair call give exactly the answer and the call sequence of `Listing.Resolve`. |
| Driver.Monitor.ProcessTransaction | test.py:115-156 | The new fields and the alert are those of `Pipeline.Step` with the program's router table. |
| Driver.Monitor.ProcessBlock | test.py:172-173 | The block's transactions are handled in order, transaction `i` with its own answers: new fields and alerts as in `Pipeline.RunBlock`. |
| Driver.Monitor.PollOnce | test.py:162-177 | One turn of the loop: the pointer becomes `Pipeline.NextLast`, and the block that `Pipeline.Polled` selects is processed (none otherwise). |

## Left out

- Connecting to the RPC with retries (`test.py:42-51`), building the contract objects (`test.py:54-59`) and the environment variables: setup with no decision in it.
- The HTTP request for holder balances (`test.py:90-98`) and the ERC-20 metadata calls (`test.py:104-111`): their outcome is an `Oracles` field, with `Err` standing for any exception.
- Concurrency: `ThreadPoolExecutor(max_workers=10)` runs handlers in parallel, so the unlocked check-then-append on `seen_txs` and the cache can race. The model handles a block's transactions one after another, in order, with one clock reading per block.
- Pipeline.RunBlock: states bounds only. Its relation to a step-by-step run is `Driver.Monitor.ProcessBlock`'s postcondition.
- `human_amount` (`test.py:147`): floating point is not modelled. The amount is decoded (its failure path is modelled) but not printed. The `OverflowError` that a huge amount would raise after the hash and the cache were recorded is not modelled.
- Printing, logging, `time.strftime` and `time.sleep`: output only.
- EIP-55 mixed-case checksums (Keccak-256): the checksum text is a one-to-one function of the bytes, so the model keeps bytes and never computes the mixed-case spelling.
- Addresses.ChecksumAddress: models only the `"0x"` plus 40 hex digits input that the program passes. Other forms the library accepts (unprefixed text, `0X`, raw bytes) are not modelled.
- Hex.ParseHexInt and Hex.ParseHexIntOfToHex: signs, whitespace, underscores and a `0x` prefix, all accepted by `int(s, 16)`, cannot occur in `bytes.hex()` output and are not modelled.
- The `TTLCache` size limit of 10000 entries and its least-recently-used eviction: entries only expire by time in the model.
- The unbounded `while True` loop and the `continue` after `sleep(1)`: modelled one turn at a time by `PollOnce`. The start-up read of the head at `test.py:160` sits outside the `try`, so its failure ends the program. The model's constructor takes the head it read. A failing turn retries at once, with no back-off.

## Findings

| source | as written | input that shows it | evidently intended | confidence | as-written member | corrected member |
|---|---|---|---|---|---|---|
| test.py:129-131 | The slice offsets 34 and 74 assume `HexBytes.hex()` returns a `"0x"` prefix. From `hexbytes` 1.0 on it does not, and the same slices read one byte late: bytes [17, 37) as the spender and [37, end) as the amount. | `Approval.MISREAD_EXAMPLE`: an approve to spender `0x01` followed by 19 zero bytes, for amount 5. Without the prefix it reads the spender as the zero address. Any 37-byte calldata raises instead of decoding (`Approval.ShortCallOnlyPrefixed`). | Spender = bytes [16, 36), amount = bytes [36, end), whatever the library version. | not executed | Approval.UnprefixedMisreads | Approval.Decode |
