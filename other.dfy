/** The three read-only aggregation handlers of the explorer's v2 API:
    chain statistics, the distribution of transactions over categories,
    and the number of active addresses in a time window. */
module Other {
  import opened Results
  import opened Seqs
  import opened Ledger
  import opened Decimal
  import opened Window

  // ------------------------------------------------------------------
  // v2_statistics
  // ------------------------------------------------------------------

  datatype V2StatisticsData = V2StatisticsData(activeAddrs: int, totalTxs: int, dailyTxs: int)

  /** `timestamp >= midnight`: unlike the window bounds, inclusive. */
  function SinceMidnight(midnight: int): TxRow -> bool {
    (row: TxRow) => row.timestamp >= midnight
  }

  function ActiveAddrs(l: Snapshot): nat {
    CountDistinct(l.nativeTxs, NativeAddress)
  }

  function DailyTxs(l: Snapshot, midnight: int): nat {
    Count(l.transactions, SinceMidnight(midnight))
  }

  /** The statistics over one ledger snapshot. `midnight` is the epoch
      second of 00:00 UTC on the server's local calendar date: the handler
      takes the local date but converts 00:00 of it with
      `NaiveDateTime::timestamp`, which ignores the time zone. */
  function Statistics(l: Snapshot, midnight: int): (d: V2StatisticsData)
    ensures d.totalTxs == |l.transactions|
    ensures 0 <= d.dailyTxs <= d.totalTxs
    ensures 0 <= d.activeAddrs <= |l.nativeTxs|
    ensures d.activeAddrs == 0 <==> l.nativeTxs == []
  {
    V2StatisticsData(ActiveAddrs(l), |l.transactions|, DailyTxs(l, midnight))
  }

  /** The handler: three sub-queries, the first failure aborts the whole. */
  function V2Statistics(st: Storage, midnight: int): (r: Result<V2StatisticsData, StorageError>)
    ensures r.Success? <==> TxsCount !in st.failing && AddrCount !in st.failing && DailyTxsCount !in st.failing
    ensures r.Success? ==> r.value == Statistics(st.ledger, midnight)
    ensures r.Failure? ==> r.error.query in st.failing
  {
    var totalTxs :- Fetch(st, TxsCount, |st.ledger.transactions|);
    var activeAddrs :- Fetch(st, AddrCount, ActiveAddrs(st.ledger));
    var dailyTxs :- Fetch(st, DailyTxsCount, DailyTxs(st.ledger, midnight));
    Success(V2StatisticsData(activeAddrs, totalTxs, dailyTxs))
  }

  /** The inclusive daily bound is the strict window that opens one second
      before midnight: a row stamped exactly at midnight counts. */
  lemma DailyIsWindowFromPreviousSecond(l: Snapshot, midnight: int)
    ensures DailyTxs(l, midnight)
         == Count(l.transactions, (row: TxRow) => InWindow(row.timestamp, Some(midnight - 1), None))
  {
    FilterExtensional(l.transactions, SinceMidnight(midnight),
                      (row: TxRow) => InWindow(row.timestamp, Some(midnight - 1), None));
  }

  /** The ledger is append-only: new rows never lower the daily count. */
  lemma DailyGrowsWithAppendedRows(l: Snapshot, more: seq<TxRow>, midnight: int)
    ensures DailyTxs(l, midnight) <= DailyTxs(l.(transactions := l.transactions + more), midnight)
    ensures DailyTxs(l.(transactions := l.transactions + more), midnight)
         == DailyTxs(l, midnight) + Count(more, SinceMidnight(midnight))
  {
    FilterAppend(l.transactions, more, SinceMidnight(midnight));
  }

  /** A later day boundary counts no more rows. */
  lemma DailyShrinksWithLaterMidnight(l: Snapshot, earlier: int, later: int)
    requires earlier <= later
    ensures DailyTxs(l, later) <= DailyTxs(l, earlier)
  {
    CountMonotone(l.transactions, SinceMidnight(later), SinceMidnight(earlier));
  }

  lemma EmptyLedgerStatistics(midnight: int)
    ensures Statistics(Empty, midnight) == V2StatisticsData(0, 0, 0)
  {
  }

  // ------------------------------------------------------------------
  // v2_distribute
  // ------------------------------------------------------------------

  datatype V2TxsDistribute = V2TxsDistribute(transparent: int, privacy: int, prism: int, evmCompatible: int)

  /** `content @? '$...outputs[*].asset_type.Confidential'`. */
  predicate ConcealsAssetType(tx: NativeTx) {
    exists i :: 0 <= i < |tx.outputs| && tx.outputs[i].assetConfidential
  }

  /** `content @? '$...outputs[*].amount.Confidential'`. */
  predicate ConcealsAmount(tx: NativeTx) {
    exists i :: 0 <= i < |tx.outputs| && tx.outputs[i].amountConfidential
  }

  /** The two tests OR-ed, as in the `hide_amount_or_type` query: some
      single output conceals one of the two fields. */
  predicate HidesAmountOrType(tx: NativeTx)
    ensures HidesAmountOrType(tx) <==>
      exists i :: 0 <= i < |tx.outputs| && (tx.outputs[i].assetConfidential || tx.outputs[i].amountConfidential)
  {
    ConcealsAssetType(tx) || ConcealsAmount(tx)
  }

  /** The two tests AND-ed, as in the `hide_amount_and_type` query: each
      test may be met by a different output. */
  predicate HidesAmountAndType(tx: NativeTx)
    ensures HidesAmountAndType(tx) ==> HidesAmountOrType(tx)
    ensures SomeOutputHidesBoth(tx) ==> HidesAmountAndType(tx)
  {
    ConcealsAssetType(tx) && ConcealsAmount(tx)
  }

  /** Neither field concealed in any output. */
  predicate FullyTransparent(tx: NativeTx) {
    !HidesAmountOrType(tx)
  }

  /** One output that conceals both fields: a stronger reading of "hides
      amount and type" than the query implements. */
  predicate SomeOutputHidesBoth(tx: NativeTx) {
    exists i :: 0 <= i < |tx.outputs| && tx.outputs[i].assetConfidential && tx.outputs[i].amountConfidential
  }

  function HideEither(l: Snapshot): nat {
    Count(l.nativeTxs, HidesAmountOrType)
  }

  function HideBoth(l: Snapshot): nat {
    Count(l.nativeTxs, HidesAmountAndType)
  }

  /** AND implies OR over the same two tests, so the counts are nested. */
  lemma HideCountsOrdered(l: Snapshot)
    ensures HideBoth(l) <= HideEither(l) <= |l.nativeTxs|
  {
    CountMonotone(l.nativeTxs, HidesAmountAndType, HidesAmountOrType);
  }

  /** The distribution over one ledger snapshot. The combining formula adds
      `hideBoth` on top of `hideEither`: `privacy` exceeds the number of
      concealing transactions by `hideBoth`, and `transparent` falls short
      of the number of fully transparent ones by as many, while the two
      still add up to the native count. */
  function Distribution(l: Snapshot): (d: V2TxsDistribute)
    ensures d.transparent + d.privacy == |l.nativeTxs|
    ensures d.privacy == Count(l.nativeTxs, HidesAmountOrType) + HideBoth(l)
    ensures d.transparent == Count(l.nativeTxs, FullyTransparent) - HideBoth(l)
    ensures 0 <= d.privacy <= 2 * |l.nativeTxs|
    ensures d.prism == |l.n2e| + |l.e2n| && d.evmCompatible == |l.evmTxs|
  {
    HideCountsOrdered(l);
    CountComplement(l.nativeTxs, HidesAmountOrType, FullyTransparent);
    var privacy := HideEither(l) + HideBoth(l);
    V2TxsDistribute(|l.nativeTxs| - privacy, privacy, |l.n2e| + |l.e2n|, |l.evmTxs|)
  }

  /** The handler: six sub-queries, the first failure aborts the whole. */
  function V2Distribute(st: Storage): (r: Result<V2TxsDistribute, StorageError>)
    ensures r.Success? <==> {NativeCount, HideAmountOrType, HideAmountAndType, EvmCount, PrismN2e, PrismE2n} !! st.failing
    ensures r.Success? ==> r.value == Distribution(st.ledger)
    ensures r.Failure? ==> r.error.query in st.failing
  {
    var l := st.ledger;
    var nativeCount :- Fetch(st, NativeCount, |l.nativeTxs|);
    var hideEither :- Fetch(st, HideAmountOrType, HideEither(l));
    var hideBoth :- Fetch(st, HideAmountAndType, HideBoth(l));
    var evmCount :- Fetch(st, EvmCount, |l.evmTxs|);
    var n2eCount :- Fetch(st, PrismN2e, |l.n2e|);
    var e2nCount :- Fetch(st, PrismE2n, |l.e2n|);
    var privacy := hideEither + hideBoth;
    Success(V2TxsDistribute(nativeCount - privacy, privacy, n2eCount + e2nCount, evmCount))
  }

  /** `transparent` is negative exactly when the two privacy counts together
      exceed the native count; it is when every native transaction hides
      both fields. */
  lemma TransparentNegative(l: Snapshot)
    ensures Distribution(l).transparent < 0 <==> HideEither(l) + HideBoth(l) > |l.nativeTxs|
    ensures (l.nativeTxs != [] && forall i :: 0 <= i < |l.nativeTxs| ==> HidesAmountAndType(l.nativeTxs[i]))
            ==> Distribution(l).transparent == -|l.nativeTxs| < 0
  {
    if forall i :: 0 <= i < |l.nativeTxs| ==> HidesAmountAndType(l.nativeTxs[i]) {
      FilterAll(l.nativeTxs, HidesAmountAndType);
      FilterAll(l.nativeTxs, HidesAmountOrType);
    }
  }

  /** Without concealment everything native is transparent. */
  lemma NoConcealmentAllTransparent(l: Snapshot)
    requires forall i :: 0 <= i < |l.nativeTxs| ==> FullyTransparent(l.nativeTxs[i])
    ensures Distribution(l).privacy == 0
    ensures Distribution(l).transparent == |l.nativeTxs|
  {
    FilterAll(l.nativeTxs, FullyTransparent);
    CountComplement(l.nativeTxs, HidesAmountOrType, FullyTransparent);
    HideCountsOrdered(l);
  }

  /** One output hiding both fields passes the AND-ed query, but the query
      also passes a transaction whose two fields are hidden in different
      outputs. */
  lemma AndedTestsMayUseDifferentOutputs()
    ensures forall tx :: SomeOutputHidesBoth(tx) ==> HidesAmountAndType(tx)
    ensures var tx := NativeTx(0, "addr", [Output(true, false), Output(false, true)]);
            HidesAmountAndType(tx) && !SomeOutputHidesBoth(tx)
  {
    var tx := NativeTx(0, "addr", [Output(true, false), Output(false, true)]);
    assert tx.outputs[0].assetConfidential;
    assert tx.outputs[1].amountConfidential;
  }

  lemma EmptyLedgerDistribution()
    ensures Distribution(Empty) == V2TxsDistribute(0, 0, 0, 0)
  {
  }

  // ------------------------------------------------------------------
  // v2_address_count
  // ------------------------------------------------------------------

  datatype AddressCount = AddressCount(addressCount: int)

  const NativeBase := "select count(distinct address) as cnt from native_txs "
  const EvmBase := "select count(distinct sender) as cnt from evm_txs "

  /** Rows whose timestamp lies strictly inside the window. */
  function InWindowRow<T>(time: T -> int, start: Option<int>, end: Option<int>): T -> bool {
    (row: T) => InWindow(time(row), start, end)
  }

  /** Rows that satisfy every bound of a parsed WHERE clause. */
  function Admits<T>(time: T -> int, bs: seq<Bound>): T -> bool {
    (row: T) => HoldsAll(bs, time(row))
  }

  /** `count(distinct column)` over the rows inside the window: never more
      than the number of those rows. */
  function WindowDistinct<T(==)>(rows: seq<T>, time: T -> int, column: T -> string,
                                 start: Option<int>, end: Option<int>): (n: nat)
    ensures n <= Count(rows, InWindowRow(time, start, end))
  {
    CountDistinct(Filter(rows, InWindowRow(time, start, end)), column)
  }

  /** The address count as a row filter: distinct native addresses plus
      distinct EVM senders inside the window, not deduplicated across the
      two chains. */
  function AddressCountOf(l: Snapshot, start: Option<int>, end: Option<int>): (n: nat)
    ensures n <= Count(l.nativeTxs, InWindowRow(NativeTime, start, end))
               + Count(l.evmTxs, InWindowRow(EvmTime, start, end))
  {
    WindowDistinct(l.nativeTxs, NativeTime, NativeAddress, start, end)
    + WindowDistinct(l.evmTxs, EvmTime, EvmSender, start, end)
  }

  /** The handler's outcome as a row filter, failures included. */
  function AddressCountOutcome(st: Storage, start: Option<int>, end: Option<int>): (r: Result<AddressCount, StorageError>)
    ensures r.Success? <==> WindowNativeAddrs !in st.failing && WindowEvmSenders !in st.failing
    ensures r.Failure? ==> r.error.query in st.failing
    ensures r.Success? ==> 0 <= r.value.addressCount <= Count(st.ledger.nativeTxs, InWindowRow(NativeTime, start, end))
                                                       + Count(st.ledger.evmTxs, InWindowRow(EvmTime, start, end))
  {
    if WindowNativeAddrs in st.failing then Failure(QueryFailed(WindowNativeAddrs))
    else if WindowEvmSenders in st.failing then Failure(QueryFailed(WindowEvmSenders))
    else Success(AddressCount(AddressCountOf(st.ledger, start, end)))
  }

  /** What a distinct-count query text computes on a table: the distinct
      `column` values among the rows its WHERE suffix admits; None when the
      text is not `base` followed by a suffix ParseWhere reads. */
  function EvalDistinctQuery<T(==)>(sql: string, base: string, rows: seq<T>,
                                    time: T -> int, column: T -> string): (r: Option<nat>)
    ensures r.Some? ==> r.value <= |rows|
  {
    if |sql| < |base| || sql[..|base|] != base then None
    else
      match ParseWhere(sql[|base|..])
      case None => None
      case Some(bs) => Some(CountDistinct(Filter(rows, Admits(time, bs)), column))
  }

  /** Issue a distinct-count query text against the storage. */
  function RunDistinctQuery<T(==)>(st: Storage, q: Query, sql: string, base: string, rows: seq<T>,
                                   time: T -> int, column: T -> string): Result<int, StorageError>
  {
    if q in st.failing then Failure(QueryFailed(q))
    else
      match EvalDistinctQuery(sql, base, rows, time, column)
      case None => Failure(QueryFailed(q))
      case Some(n) => Success(n)
  }

  /** The predicate list: one entry per supplied bound, the start bound
      first, each the text of that bound. */
  method BuildParams(start: Option<i64>, end: Option<i64>) returns (params: seq<string>)
    ensures |params| == (if start.Some? then 1 else 0) + (if end.Some? then 1 else 0)
    ensures start.Some? ==> params[0] == "timestamp > " + IntText(start.value) + " "
    ensures end.Some? ==> params[|params| - 1] == "timestamp < " + IntText(end.value) + " "
    ensures params == RenderAll(WindowBounds(start, end))
  {
    params := [];
    if start.Some? {
      params := params + ["timestamp > " + IntText(start.value) + " "];
    }
    if end.Some? {
      params := params + ["timestamp < " + IntText(end.value) + " "];
    }
  }

  /** Both base queries get the same suffix, or none when there are no
      predicates. */
  method BuildQueries(params: seq<string>) returns (sqlNative: string, sqlEvm: string)
    ensures sqlNative == NativeBase + WhereClause(params)
    ensures sqlEvm == EvmBase + WhereClause(params)
  {
    sqlNative := NativeBase;
    sqlEvm := EvmBase;
    if params != [] {
      sqlNative := sqlNative + Where + Join(params, And);
      sqlEvm := sqlEvm + Where + Join(params, And);
    }
  }

  /** A query text built from the window's bounds counts exactly the
      distinct values inside the window. */
  lemma QueryTextMeansWindow<T>(base: string, rows: seq<T>, time: T -> int, column: T -> string,
                                start: Option<int>, end: Option<int>)
    ensures EvalDistinctQuery(base + WhereClause(RenderAll(WindowBounds(start, end))), base, rows, time, column)
         == Some(WindowDistinct(rows, time, column, start, end))
  {
    var bs := WindowBounds(start, end);
    var sql := base + WhereClause(RenderAll(bs));
    assert sql[..|base|] == base && sql[|base|..] == WhereClause(RenderAll(bs));
    WhereText(bs);
    FilterExtensional(rows, Admits(time, bs), InWindowRow(time, start, end));
  }

  /** Fetch the count of one query text built from the window: it fails
      only when the storage fails that query, and otherwise returns the
      distinct count inside the window. */
  method FetchWindowCount<T(==)>(st: Storage, q: Query, sql: string, base: string, params: seq<string>,
                                 rows: seq<T>, time: T -> int, column: T -> string,
                                 start: Option<int>, end: Option<int>)
    returns (r: Result<int, StorageError>)
    requires params == RenderAll(WindowBounds(start, end))
    requires sql == base + WhereClause(params)
    ensures r == if q in st.failing then Failure(QueryFailed(q))
                 else Success(WindowDistinct(rows, time, column, start, end) as int)
  {
    QueryTextMeansWindow(base, rows, time, column, start, end);
    r := RunDistinctQuery(st, q, sql, base, rows, time, column);
  }

  /** The handler: build the predicate list and the two query texts, run
      both, and add the counts. Its outcome is the row-filter outcome. */
  method V2AddressCount(st: Storage, start: Option<i64>, end: Option<i64>)
    returns (r: Result<AddressCount, StorageError>)
    ensures r == AddressCountOutcome(st, start, end)
  {
    var params := BuildParams(start, end);
    var sqlNative, sqlEvm := BuildQueries(params);
    var nativeCount :- FetchWindowCount(st, WindowNativeAddrs, sqlNative, NativeBase, params,
                                        st.ledger.nativeTxs, NativeTime, NativeAddress, start, end);
    var evmCount :- FetchWindowCount(st, WindowEvmSenders, sqlEvm, EvmBase, params,
                                     st.ledger.evmTxs, EvmTime, EvmSender, start, end);
    r := Success(AddressCount(nativeCount + evmCount));
  }

  /** Both bounds are strict: a row stamped exactly at a supplied bound is
      outside the window. */
  lemma BoundaryRowExcluded<T>(rows: seq<T>, time: T -> int, start: Option<int>, end: Option<int>, row: T)
    requires (start.Some? && time(row) == start.value) || (end.Some? && time(row) == end.value)
    ensures row !in Filter(rows, InWindowRow(time, start, end))
  {
    FilterMembers(rows, InWindowRow(time, start, end));
  }

  /** A window with `start >= end` admits no row: the count is zero, not an
      error. */
  lemma DegenerateWindowCountsZero(l: Snapshot, start: int, end: int)
    requires start >= end
    ensures AddressCountOf(l, Some(start), Some(end)) == 0
  {
    var native := Filter(l.nativeTxs, InWindowRow(NativeTime, Some(start), Some(end)));
    var evm := Filter(l.evmTxs, InWindowRow(EvmTime, Some(start), Some(end)));
    assert native != [] ==> InWindow(NativeTime(native[0]), Some(start), Some(end));
    assert evm != [] ==> InWindow(EvmTime(evm[0]), Some(start), Some(end));
  }

  /** Without bounds every row counts: the native part is the statistics'
      `active_addrs`. */
  lemma UnboundedWindowCountsAll(l: Snapshot)
    ensures AddressCountOf(l, None, None) == ActiveAddrs(l) + CountDistinct(l.evmTxs, EvmSender)
  {
    FilterAll(l.nativeTxs, InWindowRow(NativeTime, None, None));
    FilterAll(l.evmTxs, InWindowRow(EvmTime, None, None));
  }

  /** A window contained in another never has more active addresses. */
  lemma NarrowerWindowNoMoreAddresses(l: Snapshot, start: Option<int>, end: Option<int>,
                                      start': Option<int>, end': Option<int>)
    requires forall t :: InWindow(t, start', end') ==> InWindow(t, start, end)
    ensures AddressCountOf(l, start', end') <= AddressCountOf(l, start, end)
  {
    ImageOfFilterMonotone(l.nativeTxs, InWindowRow(NativeTime, start', end'),
                          InWindowRow(NativeTime, start, end), NativeAddress);
    ImageOfFilterMonotone(l.evmTxs, InWindowRow(EvmTime, start', end'),
                          InWindowRow(EvmTime, start, end), EvmSender);
  }

  /** The address count never deduplicates across chains: it is the number
      of distinct addresses active on either chain in the window, plus one
      more for every address active on both. */
  lemma AddressCountNotDeduplicated(l: Snapshot, start: Option<int>, end: Option<int>)
    ensures var native := Image(Filter(l.nativeTxs, InWindowRow(NativeTime, start, end)), NativeAddress);
            var evm := Image(Filter(l.evmTxs, InWindowRow(EvmTime, start, end)), EvmSender);
            AddressCountOf(l, start, end) == |native + evm| + |native * evm|
  {
  }

  /** An example: one address with one transaction on each chain gives an
      address count of two. */
  lemma CrossChainAddressCountedTwice()
    ensures AddressCountOf(Snapshot([], [NativeTx(1, "a", [])], [EvmTx(1, "a")], [], []), None, None) == 2
  {
    var l := Snapshot([], [NativeTx(1, "a", [])], [EvmTx(1, "a")], [], []);
    UnboundedWindowCountsAll(l);
    assert Image(l.nativeTxs, NativeAddress) == {"a"};
    assert Image(l.evmTxs, EvmSender) == {"a"};
  }

  lemma EmptyLedgerAddressCount(start: Option<int>, end: Option<int>)
    ensures AddressCountOf(Empty, start, end) == 0
  {
  }
}
