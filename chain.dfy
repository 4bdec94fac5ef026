/** What the monitor receives from the chain and the services it calls. The
    network calls themselves are not modelled: each one is a function
    parameter whose answer is a value or a raised exception. */
module Chain {
  import opened Wrappers
  import opened Hex
  import opened Addresses

  /** A transaction as `get_block(..., full_transactions=True)` returns it:
      the text of `tx["hash"].hex()`, `tx["to"]` (None for a contract
      creation) and the calldata `tx["input"]`. */
  datatype Tx = Tx(hash: string, to: Option<string>, input: seq<byte>)

  /** `(name, symbol, decimals)` of an ERC-20 token. */
  datatype TokenInfo = TokenInfo(name: string, symbol: string, decimals: nat)

  /** The answers of the outside world to the requests of one handler call
      (or, for `getBlock`, of one turn of the polling loop); each handler
      call in a block gets its own record, so two transactions of one block
      can see different answers.
      - getPool(token, fee): `factory_v3.functions.getPool(token, WETH, fee).call()`
      - getPair(token): `factory_v2.functions.getPair(token, WETH).call()`
      - balanceCount(token): the length of `tokenBalances` in the reply to
        the `alchemy_getTokenBalances` request, 0 when the reply has no
        `result` or no `tokenBalances` (an error reply, such as a rejected
        key or a rate limit); Err when the request, the JSON decoding or the
        lookups in it raise
      - tokenInfo(token): the `name()`, `symbol()` and `decimals()` calls
      - getBlock(height): `get_block(height, full_transactions=True)`, its transactions */
  datatype Oracles = Oracles(
    getPool: (Address, nat) -> Result<Address>,
    getPair: Address -> Result<Address>,
    balanceCount: Address -> Result<nat>,
    tokenInfo: Address -> Result<TokenInfo>,
    getBlock: int -> Result<seq<Tx>>)
}
