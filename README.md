# Explorer v2 aggregation handlers, modelled in Dafny

This project models the three read-only aggregation handlers of the
blockchain explorer's v2 API (`explorer/src/service/v2/other.rs`):

- `v2_statistics`: the number of rows of the `transaction` table, the number
  of distinct `address` values in `native_txs`, and the number of
  `transaction` rows stamped at or after the daily cutoff. The cutoff is the epoch
  second of 00:00 UTC on the server's local date (other.rs:53-56):
  `NaiveDateTime::timestamp` ignores the time zone;
- `v2_distribute`: the distribution of transactions into transparent,
  privacy, prism (bridge) and EVM-compatible counts, with the source's
  combining formula reproduced literally;
- `v2_address_count`: distinct native addresses plus distinct EVM senders
  inside an optional, strictly open time window.

The ledger is abstract: each table is a sequence of row records
(`Ledger.Snapshot`). A query's meaning is a count over a filtered sequence
(`Seqs.Filter`, `Seqs.Count`, `Seqs.CountDistinct`). Each sub-query can fail
(`Ledger.Storage.failing`). A handler chains its sub-queries with `:-`, as
the source chains them with `?`, so any failure aborts the whole handler.

The address count is modelled twice:

- as the source builds it: a method pushes the predicate strings and appends
  `WHERE … AND …` to both base queries, and the resulting text is then read
  back by a small reader of that suffix (`Window.ParseWhere`);
- as a row filter `InWindow(t, start, end)`.

`Other.V2AddressCount` proves that the two agree. Printing and reading back a
bound round-trips (`Window.ParseBoundText`, `Decimal.ParseIntText`), so the
text means exactly the window.

Modules: `Results` (Option/Result), `Seqs` (counting over rows), `Ledger`
(row records, storage, sub-query names), `Decimal` (the decimal text of an
`i64` and its reader), `Window` (bounds, their text and its reader), `Other`
(the three handlers and their properties).

The model follows the code; three points deserve a note:

- `total_txs` and `daily_txs` count the `transaction` table, not
  `native_txs` (other.rs:39, 55).
- The "hides amount and type" query ANDs two independent existence tests over
  the outputs. The two tests may be satisfied by different outputs; no single
  output has to conceal both (other.rs:112;
  `Other.AndedTestsMayUseDifferentOutputs`).
- `transparent + privacy` always equals the native count, since
  `transparent = native - privacy` (other.rs:130-131). The double counting
  shows up elsewhere. `privacy` exceeds the number
  of concealing transactions by `hideBoth`, and `transparent` falls short of
  the number of fully transparent transactions by as much. `transparent` can
  therefore be negative (`Other.Distribution`, `Other.TransparentNegative`).

## Model

| member | source | states |
|---|---|---|
| `Other.Statistics` | explorer/src/service/v2/other.rs:38-61 | `total_txs` is the row count of `transaction`; `0 <= daily_txs <= total_txs`; `active_addrs` is at most the number of `native_txs` rows and is zero exactly when that table is empty |
| `Other.V2Statistics` | explorer/src/service/v2/other.rs:35-74 | succeeds exactly when none of its three sub-queries fails, and then returns the statistics of the ledger; a failure names a failing sub-query (no partial record) |
| `Other.DailyIsWindowFromPreviousSecond` | explorer/src/service/v2/other.rs:53-57 | the inclusive `timestamp >= midnight` count equals the strict window opening at `midnight - 1`, so a row stamped exactly at midnight counts |
| `Other.DailyGrowsWithAppendedRows` | explorer/src/service/v2/other.rs:54-61 | appending rows to `transaction` raises `daily_txs` by exactly the appended rows on or after midnight, so it never decreases within a day |
| `Other.DailyShrinksWithLaterMidnight` | explorer/src/service/v2/other.rs:53-57 | a later day boundary never counts more rows |
| `Other.EmptyLedgerStatistics` | explorer/src/service/v2/other.rs:39-61 | an empty ledger gives all-zero statistics |
| `Other.HideCountsOrdered` | explorer/src/service/v2/other.rs:106-116 | AND implies OR over the same two tests, so `hideBoth <= hideEither <= native_count` |
| `Other.Distribution` | explorer/src/service/v2/other.rs:102-133 | `transparent + privacy == native_count`; `privacy` is the OR count plus the AND count; `transparent` is the number of fully transparent native txs minus `hideBoth`; `0 <= privacy <= 2 * native_count`; `prism = n2e + e2n` and `evm_compatible = evm` row counts |
| `Other.V2Distribute` | explorer/src/service/v2/other.rs:99-145 | succeeds exactly when none of its six sub-queries fails, and then returns the distribution of the ledger |
| `Other.TransparentNegative` | explorer/src/service/v2/other.rs:130-131 | `transparent < 0` exactly when `hideEither + hideBoth > native_count`; when every native tx hides both fields (and there is one), `transparent == -native_count` |
| `Other.NoConcealmentAllTransparent` | explorer/src/service/v2/other.rs:106-131 | with no concealed field anywhere, `privacy == 0` and `transparent == native_count` |
| `Other.AndedTestsMayUseDifferentOutputs` | explorer/src/service/v2/other.rs:112 | one output hiding both fields passes the AND-ed query, and so does a transaction whose asset type and amount are hidden in two different outputs |
| `Other.EmptyLedgerDistribution` | explorer/src/service/v2/other.rs:102-133 | an empty ledger gives an all-zero distribution |
| `Other.BuildParams` | explorer/src/service/v2/other.rs:153-159 | one predicate per supplied bound: 0, 1 or 2 entries, `"timestamp > {start} "` first when present, `"timestamp < {end} "` last when present; the list is the text of the window's bounds |
| `Other.BuildQueries` | explorer/src/service/v2/other.rs:161-167 | with no predicates both queries are the bare base strings, otherwise both get the identical suffix `"WHERE " + join(params, " AND ")` |
| `Other.V2AddressCount` | explorer/src/service/v2/other.rs:147-184 | the handler built from text has exactly the outcome of the row-filter definition: distinct native addresses plus distinct EVM senders in the window, or the failure of the first failing sub-query |
| `Other.QueryTextMeansWindow` | explorer/src/service/v2/other.rs:153-167 | a base query followed by the suffix built from the window counts exactly the distinct values of the rows strictly inside the window |
| `Other.FetchWindowCount` | explorer/src/service/v2/other.rs:169-175 | fetching a query text built from the window's predicates fails only when the storage fails that query, and otherwise returns the distinct count of the rows strictly inside the window |
| `Other.EvalDistinctQuery` | explorer/src/service/v2/other.rs:169-175 | a distinct count read from a query text is never more than the table's row count |
| `Other.WindowDistinct` | explorer/src/service/v2/other.rs:161-162 | a distinct count inside the window is at most the number of rows inside the window |
| `Other.AddressCountOf` | explorer/src/service/v2/other.rs:161-181 | `address_count` is at most the native rows plus the EVM rows inside the window |
| `Other.BoundaryRowExcluded` | explorer/src/service/v2/other.rs:154-159 | both bounds are strict: a row stamped exactly at a supplied bound is outside the window |
| `Other.DegenerateWindowCountsZero` | explorer/src/service/v2/other.rs:153-181 | when `start >= end` no row qualifies and `address_count` is 0, not an error |
| `Other.UnboundedWindowCountsAll` | explorer/src/service/v2/other.rs:161-181 | with no bounds every row counts; the native part equals the statistics' `active_addrs` |
| `Other.NarrowerWindowNoMoreAddresses` | explorer/src/service/v2/other.rs:153-181 | a window contained in another never yields a larger `address_count` |
| `Other.AddressCountNotDeduplicated` | explorer/src/service/v2/other.rs:161-181 | for every ledger and window, `address_count` is the number of distinct addresses active on either chain plus the number active on both: an address active on both chains is counted once per chain, with no deduplication |
| `Other.CrossChainAddressCountedTwice` | explorer/src/service/v2/other.rs:181 | an example: one address with one transaction on each chain gives `address_count == 2` |
| `Other.EmptyLedgerAddressCount` | explorer/src/service/v2/other.rs:161-181 | an empty ledger gives `address_count == 0` for any window |
| `Window.WindowBounds` | explorer/src/service/v2/other.rs:153-159 | the bounds the handler collects: one per supplied bound, start first; joined by AND they hold exactly for the timestamps strictly inside the window |
| `Window.WhereText` | explorer/src/service/v2/other.rs:164-167 | the suffix appended to a base query reads back as the bounds it was written from (nothing for no bounds) |
| `Window.ParseConjunctionText` | explorer/src/service/v2/other.rs:165 | predicates joined by `" AND "` read back as the bound list, in order |
| `Window.ParseBoundText` | explorer/src/service/v2/other.rs:155-158 | the text of one predicate, whatever follows it, reads back as that bound |
| `Decimal.ParseIntText` | explorer/src/service/v2/other.rs:155-158 | the decimal text of an `i64`, followed by a non-digit, reads back as the same value |
| `Decimal.NatText` | explorer/src/service/v2/other.rs:155-158 | the digits of a bound's magnitude are non-empty, all digits, and start with `0` only for zero (no leading zeros) |
| `Ledger.Fetch` | explorer/src/service/v2/other.rs:40-43 | one `fetch_one(...).await?` followed by `try_get("cnt")?`: it succeeds exactly when the storage does not fail that sub-query, and then yields the count; a failure names that sub-query |
| `Decimal.IntText` | explorer/src/service/v2/other.rs:155-158 | Rust's `{}` for a bound: non-empty, a leading `-` exactly for a negative value, and digits everywhere else |
| `Window.InWindow` | explorer/src/service/v2/other.rs:153-159 | the row filter of the optional window; with both bounds supplied, a timestamp can lie inside only when `end >= start + 2`, because both bounds are strict |
| `Window.JoinShape` | explorer/src/service/v2/other.rs:165 | `params.join(" AND ")` starts with the first predicate, and its length is the predicates' total length plus one separator per gap |
| `Window.WhereClauseShape` | explorer/src/service/v2/other.rs:164-167 | the appended suffix is empty exactly when `params` is empty; otherwise it starts with `"WHERE "` followed by the first predicate |
| `Other.AddressCountOutcome` | explorer/src/service/v2/other.rs:161-181 | the handler's outcome as a row filter: success exactly when neither windowed sub-query fails, a failure names a failing sub-query, and a success counts at most the native plus EVM rows inside the window |
| `Other.HidesAmountOrType` | explorer/src/service/v2/other.rs:106 | the OR-ed `WHERE` of `hide_amount_or_type`: holds exactly when some single output conceals its asset type or its amount |
| `Other.HidesAmountAndType` | explorer/src/service/v2/other.rs:112 | the AND-ed `WHERE` of `hide_amount_and_type`: implies the OR-ed test, and holds whenever one output conceals both fields |
| `Seqs.FilterMembers` | explorer/src/service/v2/other.rs:54-57 | a `WHERE` filter keeps a row exactly when the row is in the table and satisfies the condition |
| `Seqs.CountDistinct` | explorer/src/service/v2/other.rs:46 | `count(distinct …)` is at most the number of rows and is zero exactly on an empty table |

## Left out

- Connection-pool locking and acquisition (`api.storage.lock().await.acquire().await?`, other.rs:36, 100, 152): a failed acquisition aborts the handler like a failed sub-query. It is not modelled, and the success conditions of `Other.V2Statistics`, `Other.V2Distribute` and `Other.AddressCountOutcome` assume the connection was obtained.
- SQL execution (`sqlx::query`, `fetch_one`, `try_get`): each query is modelled by its meaning over row sequences. Failure is modelled only as the named sub-query failing, with no finer cause.
- Point-in-time inconsistency between sub-queries: all sub-queries of one handler read the same `Ledger.Snapshot`. Rows written between two sub-queries are not modelled. Every proved fact that relates counts read by different sub-queries holds for the real handler only because of this single snapshot. These facts are:
  - `daily_txs <= total_txs` in `Other.Statistics`; `total_txs` is read at other.rs:39-43, before `daily_txs` at other.rs:54-61;
  - `hideBoth <= hideEither <= native_count` in `Other.HideCountsOrdered`, as it applies to `Other.V2Distribute`; `native_count` is read at other.rs:102-104, before the two hide counts at other.rs:106-116;
  - `privacy <= 2 * native_count` and `transparent == Count(FullyTransparent) - hideBoth` in `Other.Distribution`;
  - the `transparent == -native_count` clause of `Other.TransparentNegative`.

  For example, a concealing row appended after `native_count` is read can make `hideEither` exceed `native_count` in the real handler. The identity `transparent + privacy == native_count` and the equivalence in `Other.TransparentNegative` are arithmetic on the values read, so they hold regardless.
- `Local::now()` and the cutoff computation: the cutoff is a parameter of the statistics (`midnight`). It is the epoch second of 00:00 UTC on the server's local date (other.rs:53-56; `NaiveDateTime::timestamp` ignores the zone), which differs from local midnight by the server's UTC offset.
- The poem_openapi response enums and envelopes (`code: 200`, `message: ""`, the 404 variant that is never built, the 500 mapping done by the caller): the handlers return a `Result` whose failure stands for the error response.
- The PostgreSQL jsonpath `@?` operator and the JSON layout of `content`: each output is two booleans, `assetConfidential` and `amountConfidential`.
- `Window.ParseWhere` reads only the suffix text the handler writes. It is not a SQL parser, and the base query strings are treated as fixed prefixes.
- `i64` overflow in the sums `hide_amount_or_type_count + hide_amount_and_type_count`, `n2e_count + e2n_count` and `native_count + evm_count`: counts are unbounded integers, because table sizes stay far below 2^63.
