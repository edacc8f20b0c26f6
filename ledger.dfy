/** The ledger tables the explorer reads, each held as a sequence of rows,
    and the storage that answers the handlers' sub-queries. */
module Ledger {
  import opened Results

  /** Rust's `i64`: the type of timestamps and of the HTTP time bounds. */
  type i64 = x: int | -0x8000_0000_0000_0000 <= x < 0x8000_0000_0000_0000

  /** One transfer output of a native transaction's content: whether its
      `asset_type` and its `amount` are `Confidential`. */
  datatype Output = Output(assetConfidential: bool, amountConfidential: bool)

  /** A row of `native_txs`. */
  datatype NativeTx = NativeTx(timestamp: i64, address: string, outputs: seq<Output>)

  /** A row of `evm_txs`. */
  datatype EvmTx = EvmTx(timestamp: i64, sender: string)

  /** A row of `transaction`, the table of all transactions. */
  datatype TxRow = TxRow(timestamp: i64)

  /** A row of `n2e` or `e2n`, the bridge (prism) tables; only counted. */
  datatype BridgeEvent = BridgeEvent(id: nat)

  datatype Snapshot = Snapshot(
    transactions: seq<TxRow>,
    nativeTxs: seq<NativeTx>,
    evmTxs: seq<EvmTx>,
    n2e: seq<BridgeEvent>,
    e2n: seq<BridgeEvent>)

  const Empty := Snapshot([], [], [], [], [])

  function NativeTime(tx: NativeTx): int { tx.timestamp }
  function NativeAddress(tx: NativeTx): string { tx.address }
  function EvmTime(tx: EvmTx): int { tx.timestamp }
  function EvmSender(tx: EvmTx): string { tx.sender }

  /** The sub-queries the handlers issue, one constructor per SQL statement. */
  datatype Query =
    | TxsCount | AddrCount | DailyTxsCount                  // v2_statistics
    | NativeCount | HideAmountOrType | HideAmountAndType
    | EvmCount | PrismN2e | PrismE2n                        // v2_distribute
    | WindowNativeAddrs | WindowEvmSenders                  // v2_address_count

  /** The one kind of error: a connection, execution or row-decoding failure
      of some sub-query. */
  datatype StorageError = QueryFailed(query: Query)

  /** The ledger as the handlers see it, with the sub-queries that fail when
      issued (failures are not modelled any finer than that). */
  datatype Storage = Storage(ledger: Snapshot, failing: set<Query>)

  /** Issue sub-query `q`, whose meaning over the ledger is `count`. */
  function Fetch(st: Storage, q: Query, count: int): (r: Result<int, StorageError>)
    ensures r.Success? <==> q !in st.failing
    ensures r.Success? ==> r.value == count
    ensures r.Failure? ==> r.error == QueryFailed(q)
  {
    if q in st.failing then Failure(QueryFailed(q)) else Success(count)
  }
}
