/**
 * The factor library of src/factors.py. Every factor maps a panel to a column
 * that carries exactly the panel's row index, holds 0.0 in every row and is
 * named after the factor; none of them reads a column of the panel.
 */
module Factors {

  /** A cell of a loaded table: a number, a text, a timestamp, or missing. */
  datatype Field = Missing | Number(x: real) | Text(s: string) | Timestamp(day: int)

  /** A row of a panel: its index label (`key`) and its named cells. */
  datatype Row = Row(key: int, cells: map<string, Field>)

  /** A panel is its rows in index order. */
  datatype Panel = Panel(rows: seq<Row>)

  /** A named column of reals over an index. */
  datatype Series = Series(name: string, index: seq<int>, values: seq<real>)

  /** The row index of a panel, in row order. */
  function Index(df: Panel): seq<int>
  {
    seq(|df.rows|, i requires 0 <= i < |df.rows| => df.rows[i].key)
  }

  /** The column has one value per row of the panel, under the same labels in the same order. */
  ghost predicate Aligned(df: Panel, s: Series)
  {
    s.index == Index(df) && |s.values| == |s.index|
  }

  ghost predicate AllZero(s: Series)
  {
    forall i :: 0 <= i < |s.values| ==> s.values[i] == 0.0
  }

  /** A scalar 0.0 broadcast over the panel's index, as `pd.Series(0.0, index=df.index, name=name)`. */
  function ZeroColumn(df: Panel, name: string): (s: Series)
    ensures s.name == name
    ensures Aligned(df, s) && AllZero(s)
    ensures |s.values| == |df.rows|
  {
    Series(name, Index(df), seq(|df.rows|, _ => 0.0))
  }

  function SizeFactor(df: Panel): (s: Series)
    ensures s.name == "size_factor"
    ensures Aligned(df, s) && AllZero(s)
  {
    ZeroColumn(df, "size_factor")
  }

  function ValueFactor(df: Panel): (s: Series)
    ensures s.name == "value_factor"
    ensures Aligned(df, s) && AllZero(s)
  {
    ZeroColumn(df, "value_factor")
  }

  function MomentumFactor(df: Panel): (s: Series)
    ensures s.name == "momentum_factor"
    ensures Aligned(df, s) && AllZero(s)
  {
    ZeroColumn(df, "momentum_factor")
  }

  function QualityFactor(df: Panel): (s: Series)
    ensures s.name == "quality_factor"
    ensures Aligned(df, s) && AllZero(s)
  {
    ZeroColumn(df, "quality_factor")
  }

  function LowVolFactor(df: Panel): (s: Series)
    ensures s.name == "low_vol_factor"
    ensures Aligned(df, s) && AllZero(s)
  {
    ZeroColumn(df, "low_vol_factor")
  }

  /** The five exported factor functions, in the order of the module's `__all__`. */
  datatype Factor = Size | Value | Momentum | Quality | LowVol

  const Exported: seq<Factor> := [Size, Value, Momentum, Quality, LowVol]

  /** The Python name of a factor function. */
  function Name(f: Factor): string
  {
    match f
    case Size => "size_factor"
    case Value => "value_factor"
    case Momentum => "momentum_factor"
    case Quality => "quality_factor"
    case LowVol => "low_vol_factor"
  }

  /** Calling the factor function `f` on a panel. */
  function Compute(f: Factor, df: Panel): (s: Series)
    ensures s.name == Name(f)
    ensures Aligned(df, s) && AllZero(s)
  {
    match f
    case Size => SizeFactor(df)
    case Value => ValueFactor(df)
    case Momentum => MomentumFactor(df)
    case Quality => QualityFactor(df)
    case LowVol => LowVolFactor(df)
  }

  /** A factor column depends on the panel's index only, never on a cell. */
  lemma DependsOnIndexOnly(f: Factor, a: Panel, b: Panel)
    requires Index(a) == Index(b)
    ensures Compute(f, a) == Compute(f, b)
  {
  }

  /** The panel with the same rows and columns as `df`, every cell of it missing. */
  function Blanked(df: Panel): Panel
  {
    Panel(seq(|df.rows|, i requires 0 <= i < |df.rows| =>
      Row(df.rows[i].key, map c | c in df.rows[i].cells :: Missing)))
  }

  /** Missing cells make no difference: a panel whose every cell is missing gets the same column. */
  lemma ZeroWhateverTheCells(f: Factor, df: Panel)
    ensures Compute(f, Blanked(df)) == Compute(f, df)
  {
  }

  /** The empty panel yields the empty column, not an error. */
  lemma EmptyPanelEmptyColumn(f: Factor)
    ensures Compute(f, Panel([])) == Series(Name(f), [], [])
  {
  }

  /** Attaching every exported factor by its name adds five distinct columns. */
  lemma ExportedNamesDistinct()
    ensures |Exported| == 5
    ensures forall i, j :: 0 <= i < j < |Exported| ==> Name(Exported[i]) != Name(Exported[j])
  {
  }
}
