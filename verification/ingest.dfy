/**
 * The ingestion steps of src/data.py with the network calls replaced by
 * values: `get_prices` receives the already downloaded price frame,
 * `get_balance_sheet` and `daily_update` receive a feed that holds, per
 * ticker, the balance sheet and `info` dictionary the quote provider returns
 * (a ticker absent from the feed is one for which the provider raised).
 */
module Ingest {
  import opened Wrappers
  import opened Tickers
  import opened BalanceSheets
  import opened Store

  /** A row of the price table: one (date, ticker) observation. */
  datatype PriceRow = PriceRow(date: Date, ticker: string, open: real, high: real, low: real, close: real, volume: int)

  /** What the quote provider returns for one ticker. */
  datatype Snapshot = Snapshot(sheet: BalanceSheet, info: Info)

  type Feed = map<string, Snapshot>

  /** A "[t] SKIPPED (e)" line of `daily_update`. */
  datatype Skip = Skip(ticker: string, reason: IngestError)

  /** The outcome of `get_balance_sheet(t)` before its table write. */
  function Attempt(t: string, feed: Feed): (r: Result<Record, IngestError>)
    ensures t !in feed ==> r == Failure(Unavailable(t))
    ensures r.Success? ==> t in feed && r.value.ticker == t
    ensures t in feed && r.Failure? ==>
              r.error in {NoBalanceSheetData(t), MissingStockholdersEquity, MissingSharesOrPrice}
  {
    if t in feed then BuildRecord(t, feed[t].sheet, feed[t].info) else Failure(Unavailable(t))
  }

  /** The skip lines printed for `tickers`, in order. */
  function Skipped(tickers: seq<string>, feed: Feed): seq<Skip>
  {
    if tickers == [] then []
    else
      var t := tickers[|tickers| - 1];
      var r := Attempt(t, feed);
      Skipped(tickers[..|tickers| - 1], feed) + (if r.Failure? then [Skip(t, r.error)] else [])
  }

  /** The balance-sheet rows written for `tickers`, in order. */
  function Written(tickers: seq<string>, feed: Feed): seq<Record>
  {
    if tickers == [] then []
    else
      var t := tickers[|tickers| - 1];
      var r := Attempt(t, feed);
      Written(tickers[..|tickers| - 1], feed) + (if r.Success? then [r.value] else [])
  }

  /** `get_prices`: appends the downloaded frame to the price table and returns it. */
  method GetPrices(frame: seq<PriceRow>, table: Table<PriceRow>) returns (df: seq<PriceRow>)
    modifies table
    ensures df == frame
    ensures table.rows == old(table.rows) + frame
  {
    table.Append(frame);
    df := frame;
  }

  /** `get_balance_sheet`: validates, builds the record, and appends it on success only. */
  method GetBalanceSheet(ticker: string, feed: Feed, table: Table<Record>) returns (r: Result<Record, IngestError>)
    modifies table
    ensures r == Attempt(ticker, feed)
    ensures r.Success? ==> table.rows == old(table.rows) + [r.value]
    ensures r.Failure? ==> table.rows == old(table.rows)
  {
    r := Attempt(ticker, feed);
    if r.Success? {
      table.Append([r.value]);
    }
  }

  /**
   * `daily_update`: normalises the scraped symbols, appends the price frame,
   * then tries every ticker in order, collecting the failures instead of
   * stopping at them.
   */
  method DailyUpdate(symbols: seq<string>, priceFrame: seq<PriceRow>, feed: Feed,
                     prices: Table<PriceRow>, sheets: Table<Record>)
    returns (skipped: seq<Skip>)
    modifies prices, sheets
    ensures prices.rows == old(prices.rows) + priceFrame
    ensures skipped == Skipped(NormaliseAll(symbols), feed)
    ensures sheets.rows == old(sheets.rows) + Written(NormaliseAll(symbols), feed)
  {
    var tickers := NormaliseAll(symbols);
    var _ := GetPrices(priceFrame, prices);
    skipped := [];
    var i := 0;
    while i < |tickers|
      invariant 0 <= i <= |tickers|
      invariant prices.rows == old(prices.rows) + priceFrame
      invariant skipped == Skipped(tickers[..i], feed)
      invariant sheets.rows == old(sheets.rows) + Written(tickers[..i], feed)
    {
      var r := GetBalanceSheet(tickers[i], feed, sheets);
      if r.Failure? {
        skipped := skipped + [Skip(tickers[i], r.error)];
      }
      assert tickers[..i + 1][..i] == tickers[..i];
      i := i + 1;
    }
    assert tickers[..i] == tickers;
  }

  /** Processing a list is processing its two halves one after the other. */
  lemma {:induction false} RunsCompose(a: seq<string>, b: seq<string>, feed: Feed)
    ensures Skipped(a + b, feed) == Skipped(a, feed) + Skipped(b, feed)
    ensures Written(a + b, feed) == Written(a, feed) + Written(b, feed)
  {
    if b == [] {
      assert a + b == a;
    } else {
      var b' := b[..|b| - 1];
      assert (a + b)[..|a + b| - 1] == a + b';
      RunsCompose(a, b', feed);
    }
  }

  /** A failing ticker stops nothing: the tickers after it are still recorded. */
  lemma FailureIsolated(before: seq<string>, t: string, after: seq<string>, feed: Feed)
    requires Attempt(t, feed).Failure?
    ensures Written(before + [t] + after, feed) == Written(before, feed) + Written(after, feed)
    ensures Skipped(before + [t] + after, feed) ==
              Skipped(before, feed) + [Skip(t, Attempt(t, feed).error)] + Skipped(after, feed)
  {
    var r := Attempt(t, feed);
    assert [t][..0] == [];
    assert Written([t], feed) == Written([], feed) + [];
    assert Skipped([t], feed) == Skipped([], feed) + [Skip(t, r.error)];
    var front := before + [t];
    RunsCompose(before, [t], feed);
    assert Written(front, feed) == Written(before, feed);
    assert Skipped(front, feed) == Skipped(before, feed) + [Skip(t, r.error)];
    RunsCompose(front, after, feed);
  }

  /** Every ticker is either skipped or written, exactly once. */
  lemma {:induction false} EveryTickerAttempted(tickers: seq<string>, feed: Feed)
    ensures |Skipped(tickers, feed)| + |Written(tickers, feed)| == |tickers|
  {
    if tickers != [] {
      EveryTickerAttempted(tickers[..|tickers| - 1], feed);
    }
  }

  /** The skipped tickers are exactly those whose fetch raised, with its error. */
  lemma {:induction false} SkippedExactly(tickers: seq<string>, feed: Feed, t: string, e: IngestError)
    ensures Skip(t, e) in Skipped(tickers, feed) <==> t in tickers && Attempt(t, feed) == Failure(e)
  {
    if tickers != [] {
      var init := tickers[..|tickers| - 1];
      SkippedExactly(init, feed, t, e);
      assert tickers == init + [tickers[|tickers| - 1]];
    }
  }

  /** The written rows are exactly the records of the tickers that succeeded. */
  lemma {:induction false} WrittenExactly(tickers: seq<string>, feed: Feed, rec: Record)
    ensures rec in Written(tickers, feed) <==> rec.ticker in tickers && Attempt(rec.ticker, feed) == Success(rec)
  {
    if tickers != [] {
      var init := tickers[..|tickers| - 1];
      WrittenExactly(init, feed, rec);
      assert tickers == init + [tickers[|tickers| - 1]];
    }
  }
}
