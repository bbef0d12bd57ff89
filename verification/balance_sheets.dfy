/**
 * The validation and record construction of `get_balance_sheet` (src/data.py),
 * with the quote provider's balance sheet and `info` dictionary given as values.
 */
module BalanceSheets {
  import opened Wrappers

  /** A report date, as a day number; only its order matters here. */
  type Date = int

  const StockholdersEquity: string := "Stockholders Equity"
  const SharesOutstanding: string := "sharesOutstanding"
  const RegularMarketPrice: string := "regularMarketPrice"
  const CurrentPrice: string := "currentPrice"

  /** A float cell of the balance sheet: a number or NaN. */
  datatype Cell = NaN | Num(x: real)

  /**
   * A balance sheet frame: line items are its row labels, report dates its
   * column labels; a (line item, date) pair of the grid that has no entry in
   * `cells` holds NaN.
   */
  datatype BalanceSheet = BalanceSheet(lineItems: seq<string>, dates: seq<Date>, cells: map<(string, Date), real>)

  /** The `info` dictionary: a key that is absent reads as `None`. */
  type Info = map<string, real>

  /** The single-row frame that is appended to the balance-sheet table. */
  datatype Record = Record(
    date: Date,
    ticker: string,
    bookValue: Cell,
    sharesOutstanding: real,
    currentPrice: real,
    bookToMarket: Cell)

  /** Why a ticker's balance sheet could not be recorded. */
  datatype IngestError =
    | Unavailable(ticker: string)         // the quote provider raised
    | NoBalanceSheetData(ticker: string)  // ValueError: empty balance sheet
    | MissingStockholdersEquity           // KeyError: no 'Stockholders Equity' row
    | MissingSharesOrPrice                // KeyError: share count or price absent or zero

  /** A frame is empty when it has no rows or no columns. */
  predicate IsEmpty(bs: BalanceSheet)
  {
    |bs.lineItems| == 0 || |bs.dates| == 0
  }

  /** `bs.loc[item, date]` for a label pair inside the grid. */
  function At(bs: BalanceSheet, item: string, date: Date): Cell
  {
    if (item, date) in bs.cells then Num(bs.cells[(item, date)]) else NaN
  }

  /** `info.get(key)`. */
  function Get(info: Info, key: string): Option<real>
  {
    if key in info then Some(info[key]) else None
  }

  /** Python truthiness of an optional number: present and non-zero. */
  predicate Truthy(o: Option<real>)
  {
    o.Some? && o.value != 0.0
  }

  /** `info.get('regularMarketPrice') or info.get('currentPrice')`. */
  function QuotedPrice(info: Info): Option<real>
  {
    var regular := Get(info, RegularMarketPrice);
    if Truthy(regular) then regular else Get(info, CurrentPrice)
  }

  /** `bs.columns.max()`: the latest report date. */
  function Latest(dates: seq<Date>): (m: Date)
    requires |dates| > 0
    ensures m in dates
    ensures forall d :: d in dates ==> d <= m
  {
    if |dates| == 1 then dates[0]
    else
      var rest := Latest(dates[1..]);
      assert forall d :: d in dates ==> d == dates[0] || d in dates[1..];
      if dates[0] < rest then rest else dates[0]
  }

  /** `(book_value / shares) / price`; NaN book value gives NaN. */
  function BookToMarket(bookValue: Cell, shares: real, price: real): (btm: Cell)
    requires shares != 0.0 && price != 0.0
    ensures btm.Num? <==> bookValue.Num?
    ensures btm.Num? ==> btm.x * price * shares == bookValue.x
  {
    match bookValue
    case NaN => NaN
    case Num(b) => Num((b / shares) / price)
  }

  /** Everything `get_balance_sheet` does before the table write. */
  function BuildRecord(ticker: string, bs: BalanceSheet, info: Info): (r: Result<Record, IngestError>)
    ensures r == Failure(NoBalanceSheetData(ticker)) <==> IsEmpty(bs)
    ensures r == Failure(MissingStockholdersEquity) <==>
              !IsEmpty(bs) && StockholdersEquity !in bs.lineItems
    ensures r == Failure(MissingSharesOrPrice) <==>
              && !IsEmpty(bs) && StockholdersEquity in bs.lineItems
              && (!Truthy(Get(info, SharesOutstanding)) || !Truthy(QuotedPrice(info)))
    ensures r.Success? <==>
              && !IsEmpty(bs) && StockholdersEquity in bs.lineItems
              && Truthy(Get(info, SharesOutstanding)) && Truthy(QuotedPrice(info))
    ensures r.Success? ==>
              && r.value.ticker == ticker
              && r.value.date in bs.dates
              && (forall d :: d in bs.dates ==> d <= r.value.date)
              && StockholdersEquity in bs.lineItems
              && r.value.bookValue == At(bs, StockholdersEquity, r.value.date)
    ensures r.Success? ==>
              && Get(info, SharesOutstanding) == Some(r.value.sharesOutstanding)
              && r.value.sharesOutstanding != 0.0
              && r.value.currentPrice != 0.0
              && (Truthy(Get(info, RegularMarketPrice)) ==> Get(info, RegularMarketPrice) == Some(r.value.currentPrice))
              && (!Truthy(Get(info, RegularMarketPrice)) ==> Get(info, CurrentPrice) == Some(r.value.currentPrice))
    ensures r.Success? ==>
              && (r.value.bookToMarket.Num? <==> r.value.bookValue.Num?)
              && (r.value.bookToMarket.Num? ==>
                    r.value.bookToMarket.x * r.value.currentPrice * r.value.sharesOutstanding == r.value.bookValue.x)
  {
    if IsEmpty(bs) then Failure(NoBalanceSheetData(ticker))
    else
      var latest := Latest(bs.dates);
      if StockholdersEquity !in bs.lineItems then Failure(MissingStockholdersEquity)
      else
        var bookValue := At(bs, StockholdersEquity, latest);
        var shares := Get(info, SharesOutstanding);
        var price := QuotedPrice(info);
        if !Truthy(shares) || !Truthy(price) then Failure(MissingSharesOrPrice)
        else
          Success(Record(latest, ticker, bookValue, shares.value, price.value,
                         BookToMarket(bookValue, shares.value, price.value)))
  }
}
