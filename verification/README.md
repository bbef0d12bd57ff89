# Live paper trading: factor stubs and daily ingestion, modelled in Dafny

This project models two parts of a small equity-research repository.

- **The factor library** (`src/factors.py`). It has five factor functions:
  size, value, momentum, quality and low-volatility. In this code each one is
  a placeholder. It returns a column that carries the input panel's row index
  unchanged, holds `0.0` in every row, and is named after the function. The
  model states these facts for every panel, including the empty panel and
  panels with missing cells. It also proves that a column depends on the row
  index only.
- **The decision logic of the daily ingestion job** (`src/data.py`). This
  covers four pieces:
  - the rewrite of scraped S&P 500 symbols, which turns every `.` into `-`;
  - the checks and record construction in `get_balance_sheet`;
  - the loop of `daily_update`, where each ticker is tried in turn and a
    failure is reported as a skip line rather than stopping the run;
  - the append-only writes to the price and balance-sheet tables.

The network and the library calls become plain inputs:

- the scraped `Symbol` column becomes a sequence of strings;
- the downloaded price frame becomes a sequence of price rows;
- the quote provider's per-ticker balance sheet and `info` dictionary become a
  `Feed` map from ticker to `Snapshot`. A ticker absent from the map is one for
  which the provider raised.

Each SQLite table becomes a `Store.Table<T>` object holding a `seq` of rows.
The `db_path` and `table_name` parameters become the choice of which table
object is passed in.

Modules: `Wrappers` (Option and Result), `Factors`, `Tickers`,
`BalanceSheets`, `Store` and `Ingest`.

### Facts about the code that the model keeps

- **Factor formulas.** All five factor functions return zeros. The code has no
  logarithmic, pass-through or lookback formula, and the model has none either.
- **Empty panel.** The empty panel yields an empty zero column, not an error.
- **Skip lines.** `daily_update` prints one SKIPPED line per failing ticker
  and returns nothing. The model's `DailyUpdate` returns those lines as `Skip`
  values.
- **Book value.** Only the `Stockholders Equity` line item is read.

## Model

| member | source | states |
|---|---|---|
| `Factors.ZeroColumn` | src/factors.py:15 | broadcasting 0.0 over `df.index` gives a column with the given name, one entry per panel row, the panel's labels in the panel's order, and 0.0 everywhere |
| `Factors.SizeFactor` | src/factors.py:11-15 | the column is named "size_factor", is aligned with the panel's row index, and is all 0.0 |
| `Factors.ValueFactor` | src/factors.py:17-21 | the column is named "value_factor", is aligned with the panel's row index, and is all 0.0 |
| `Factors.MomentumFactor` | src/factors.py:23-27 | the column is named "momentum_factor", is aligned with the panel's row index, and is all 0.0 |
| `Factors.QualityFactor` | src/factors.py:29-33 | the column is named "quality_factor", is aligned with the panel's row index, and is all 0.0 |
| `Factors.LowVolFactor` | src/factors.py:35-39 | the column is named "low_vol_factor", is aligned with the panel's row index, and is all 0.0 |
| `Factors.Compute` | src/factor_test.py:29-35 | calling any exported factor yields a column named after the function (its `__name__`), aligned with the panel and all zero |
| `Factors.DependsOnIndexOnly` | src/factors.py:15 | two panels with the same row index get identical factor columns, whatever their cells hold |
| `Factors.ZeroWhateverTheCells` | src/factors.py:11-39 | a panel whose every cell is missing gets the same factor column as the original panel |
| `Factors.EmptyPanelEmptyColumn` | src/factors.py:15 | the empty panel yields an empty named column rather than an error |
| `Factors.ExportedNamesDistinct` | src/factors.py:3-9 | the five exported functions have five distinct names, so attaching them by name adds five columns |
| `Tickers.Normalise` | src/data.py:22 | the result has the input's length, has '-' where the input has '.', keeps every other character, and contains no '.' |
| `Tickers.NormaliseAll` | src/data.py:15-22 | the ticker list keeps the number and order of the scraped symbols, and each entry is its symbol with dots replaced |
| `Tickers.NormaliseIdempotent` | src/data.py:22 | normalising a normalised ticker changes nothing |
| `Tickers.NormaliseKeepsDotless` | src/data.py:22 | a symbol without '.' passes through unchanged |
| `Tickers.NormaliseAllIdempotent` | src/data.py:22 | normalising the whole list twice equals normalising it once |
| `BalanceSheets.Latest` | src/data.py:48 | the latest report date is one of the sheet's dates and no date is later |
| `BalanceSheets.BookToMarket` | src/data.py:60 | the ratio is NaN exactly when the book value is NaN; otherwise ratio × price × shares equals the book value |
| `BalanceSheets.BuildRecord` | src/data.py:43-69 | fails with the no-data error iff the sheet has no rows or no columns; fails with the missing-equity error iff it is non-empty but has no 'Stockholders Equity' row; fails with the missing-shares-or-price error iff a share count or price is absent or zero; otherwise yields a record for the ticker whose date is the latest report date, whose book value is that date's equity entry, whose price is `regularMarketPrice` when truthy and `currentPrice` otherwise, whose shares and price are non-zero, and whose book-to-market times price times shares gives back the book value |
| `Ingest.Attempt` | src/data.py:42-69 | a ticker the provider has no data for fails as unavailable; a success is a record for that same ticker; any other failure is one of the three validation errors |
| `Store.Table.constructor` | src/data.py:37 | the table opens holding exactly its existing rows |
| `Store.Table.Append` | src/data.py:38 | the rows afterwards are the previous rows followed by the frame; the old rows are a prefix and nothing is overwritten |
| `Ingest.GetPrices` | src/data.py:24-40 | the price table afterwards is the old table followed by the downloaded frame, and the frame is returned |
| `Ingest.GetBalanceSheet` | src/data.py:42-74 | the outcome is the validation result; on success exactly that one record is appended, and on failure the table is untouched |
| `Ingest.DailyUpdate` | src/data.py:76-90 | the price frame is appended once; after that, the returned skip lines and the appended balance-sheet rows are those of trying every normalised ticker in list order |
| `Ingest.RunsCompose` | src/data.py:84-88 | processing `a + b` skips and writes what processing `a` and then `b` does, in that order |
| `Ingest.FailureIsolated` | src/data.py:84-88 | a failing ticker adds one skip line and takes nothing away from the rows written for the tickers after it |
| `Ingest.EveryTickerAttempted` | src/data.py:84-88 | the skip lines and the written rows together number exactly as many as the tickers |
| `Ingest.SkippedExactly` | src/data.py:84-88 | a (ticker, error) pair is skipped iff the ticker is in the list and its attempt fails with that error |
| `Ingest.WrittenExactly` | src/data.py:84-88 | a record is written iff its ticker is in the list and that ticker's attempt succeeds with that record |

The contracts above are written in terms of a few helper definitions. They
have no contract of their own and no row in the table:

- `BalanceSheets.IsEmpty` is `bs.empty` (src/data.py:45).
- `BalanceSheets.At` is `bs.loc[item, date]` (src/data.py:50).
- `BalanceSheets.Get` is `info.get` (src/data.py:55-56).
- `BalanceSheets.Truthy` is Python truthiness, as tested at src/data.py:56-57.
- `BalanceSheets.QuotedPrice` is the `or` fallback for the price (src/data.py:56).
- `Ingest.Skipped` gives the SKIPPED lines printed by the loop at src/data.py:84-88.
- `Ingest.Written` gives the rows that loop appends through src/data.py:72.
- `Factors.Index` is `df.index` (src/factors.py:15).
- `Factors.Blanked` is a panel with every cell missing, used only to state
  `ZeroWhateverTheCells`.

## Left out

- **Network calls.** These are the Wikipedia scrape (`pd.read_html`), the
  `yf.download`, `yf.Ticker`, `.balance_sheet` and `.info` calls, and the
  SQLite connection handling. Their results are inputs to the model, and their
  own failures collapse into the single `Unavailable` error.
- **Pandas reshaping in `get_prices`.** The `stack`, `rename_axis`,
  `reset_index` and `insert` steps are left out because their behaviour lives
  in the library. The model receives the already reshaped frame.
- **Failures of `get_prices` and the balance-sheet write.** In the source, a
  failure of `get_prices`, including its price write at src/data.py:38, aborts
  `daily_update`. A failure inside the balance-sheet `to_sql` (src/data.py:72)
  would be caught as a skip. The model assumes the download has already
  happened and that writes succeed.
- **Scheduler and clock.** The `schedule` loop, `time.sleep`, `datetime.now`
  and the yesterday/today date range are timing plumbing and are not
  modelled.
- **Console output.** The `print` calls are not modelled, except the skip
  lines, which are returned as `Skip` values.
- **Float arithmetic.** The book-to-market division is stated over reals.
  IEEE rounding is not modelled. A NaN inside `info` is not modelled either;
  a key is either absent, zero or a real number.
- **Balance-sheet labels.** Duplicate line-item or date labels in a balance
  sheet are not modelled. With duplicates, `bs.loc` would return a Series
  instead of a scalar.
- **Mutating the panel.** `src/factor_test.py` attaches the columns to the
  panel afterwards. It is a script over the database, and it serves only as
  evidence for the zero, name and alignment properties. Factor purity holds
  by construction, because Dafny functions cannot mutate their argument.
- **`src/list.py`.** It only prints provider metadata.
- **Formulas the code does not have.** The logarithmic size factor,
  book-to-market value factor and grouped 21/252-row momentum factor are not
  implemented in the code, so they are not invented here. The same goes for
  loading a panel with a schema error.
