/**
 * Ticker normalisation of `fetch_sp500_tickers` (src/data.py): the symbols read
 * from the index's constituent table are rewritten for the quote provider by
 * replacing every '.' with '-'.
 */
module Tickers {

  /** `r` is `s` with every '.' replaced by '-' and every other character kept. */
  ghost predicate DotsReplaced(s: string, r: string)
  {
    |r| == |s| && forall j :: 0 <= j < |s| ==> r[j] == (if s[j] == '.' then '-' else s[j])
  }

  /** `t.replace('.', '-')`. */
  function Normalise(t: string): (r: string)
    ensures DotsReplaced(t, r)
    ensures '.' !in r
  {
    if t == [] then []
    else [if t[0] == '.' then '-' else t[0]] + Normalise(t[1..])
  }

  /** The comprehension over the scraped `Symbol` column. */
  function NormaliseAll(symbols: seq<string>): (tickers: seq<string>)
    ensures |tickers| == |symbols|
    ensures forall i :: 0 <= i < |symbols| ==> DotsReplaced(symbols[i], tickers[i]) && '.' !in tickers[i]
  {
    seq(|symbols|, i requires 0 <= i < |symbols| => Normalise(symbols[i]))
  }

  /** Normalising a normalised ticker changes nothing. */
  lemma NormaliseIdempotent(t: string)
    ensures Normalise(Normalise(t)) == Normalise(t)
  {
  }

  /** A ticker without a '.' is already normalised. */
  lemma NormaliseKeepsDotless(t: string)
    requires '.' !in t
    ensures Normalise(t) == t
  {
  }

  /** Normalising the whole list twice gives the same list as once. */
  lemma NormaliseAllIdempotent(symbols: seq<string>)
    ensures NormaliseAll(NormaliseAll(symbols)) == NormaliseAll(symbols)
  {
    var once := NormaliseAll(symbols);
    forall i | 0 <= i < |symbols|
      ensures NormaliseAll(once)[i] == once[i]
    {
      NormaliseIdempotent(symbols[i]);
    }
  }
}
