/**
 * The "Sales Forecast" tab: the sales table is filtered down to one SKU, the
 * filtered rows are copied, and thirty projected rows are appended, one per
 * day starting at the latest historical date.
 *
 * Dates are day numbers. The projected sales figures are random draws in the
 * dashboard; here they are a parameter, one value per projected day.
 */
module Forecast {

  /** One row of the sales table: a day, a SKU and that day's sales figure. */
  datatype SalesRow = SalesRow(date: int, sku: string, sales: real)

  /** Number of projected days. */
  const Horizon: nat := 30

  /** True when every row of `rows` belongs to `sku`. */
  predicate AllOfSku(rows: seq<SalesRow>, sku: string)
  {
    forall i :: 0 <= i < |rows| ==> rows[i].sku == sku
  }

  /**
   * `sales[sales['sku'] == sku]`: the rows of `sku`, in their original order.
   */
  function FilterBySku(sales: seq<SalesRow>, sku: string): (r: seq<SalesRow>)
    ensures |r| <= |sales|
    ensures AllOfSku(r, sku)
    ensures forall row :: row in r <==> row in sales && row.sku == sku
  {
    if sales == [] then []
    else if sales[0].sku == sku then [sales[0]] + FilterBySku(sales[1..], sku)
    else FilterBySku(sales[1..], sku)
  }

  /** A single row is kept exactly when it has the selected SKU. */
  lemma FilterOneRow(row: SalesRow, sku: string)
    ensures FilterBySku([row], sku) == if row.sku == sku then [row] else []
  {
  }

  /**
   * Filtering distributes over concatenation: kept rows stay in their
   * original order, and repeated rows are kept as often as they occur.
   */
  lemma {:induction false} FilterAppend(a: seq<SalesRow>, b: seq<SalesRow>, sku: string)
    ensures FilterBySku(a + b, sku) == FilterBySku(a, sku) + FilterBySku(b, sku)
  {
    if a == [] {
      assert a + b == b;
    } else {
      assert (a + b)[0] == a[0];
      assert (a + b)[1..] == a[1..] + b;
      FilterAppend(a[1..], b, sku);
    }
  }

  /** Filtering rows that already all belong to `sku` keeps every one of them. */
  lemma {:induction false} FilterKeepsOwnRows(rows: seq<SalesRow>, sku: string)
    requires AllOfSku(rows, sku)
    ensures FilterBySku(rows, sku) == rows
  {
    if rows != [] {
      FilterKeepsOwnRows(rows[1..], sku);
    }
  }

  /** `rows['date'].max()`. */
  function MaxDate(rows: seq<SalesRow>): (m: int)
    requires rows != []
    ensures forall i :: 0 <= i < |rows| ==> rows[i].date <= m
    ensures exists i :: 0 <= i < |rows| && rows[i].date == m
  {
    if |rows| == 1 then rows[0].date
    else
      var rest := MaxDate(rows[1..]);
      assert forall i :: 1 <= i < |rows| ==> rows[i] == rows[1..][i - 1];
      if rows[0].date >= rest then rows[0].date else rest
  }

  /** `pd.date_range(start=start, periods=periods, freq='D')`. */
  function DateRange(start: int, periods: nat): (dates: seq<int>)
    ensures |dates| == periods
    ensures periods > 0 ==> dates[0] == start
    ensures forall i :: 0 <= i < periods - 1 ==> dates[i + 1] == dates[i] + 1
  {
    seq(periods, i => start + i)
  }

  /** The projected rows: each date paired with the selected SKU and its value. */
  function ProjectedRows(dates: seq<int>, sku: string, values: seq<real>): (rows: seq<SalesRow>)
    requires |values| == |dates|
    ensures |rows| == |dates|
    ensures AllOfSku(rows, sku)
    ensures forall i :: 0 <= i < |rows| ==> rows[i].date == dates[i] && rows[i].sales == values[i]
  {
    seq(|dates|, i requires 0 <= i < |dates| => SalesRow(dates[i], sku, values[i]))
  }

  /**
   * The forecast table for the selected SKU: its historical rows followed by
   * `Horizon` projected rows, dated daily from the latest historical date on.
   */
  function ForecastSeries(history: seq<SalesRow>, sku: string, values: seq<real>): (forecast: seq<SalesRow>)
    requires history != []
    requires |values| == Horizon
    ensures |forecast| == |history| + Horizon
  {
    history + ProjectedRows(DateRange(MaxDate(history), Horizon), sku, values)
  }

  /** The historical rows come back unchanged as the forecast's prefix. */
  lemma ForecastKeepsHistory(history: seq<SalesRow>, sku: string, values: seq<real>)
    requires history != [] && |values| == Horizon
    ensures ForecastSeries(history, sku, values)[..|history|] == history
  {
  }

  /**
   * Projected row `i` is dated `i` days after the latest historical date,
   * carries the selected SKU and the `i`-th projected value.
   */
  lemma ForecastProjectedRow(history: seq<SalesRow>, sku: string, values: seq<real>, i: nat)
    requires history != [] && |values| == Horizon
    requires i < Horizon
    ensures ForecastSeries(history, sku, values)[|history| + i] == SalesRow(MaxDate(history) + i, sku, values[i])
  {
  }

  /**
   * The first projected day is the latest historical day itself, so that
   * date appears twice in the forecast, and the projected dates then follow
   * one day apart.
   */
  lemma ForecastDates(history: seq<SalesRow>, sku: string, values: seq<real>)
    requires history != [] && |values| == Horizon
    ensures var f := ForecastSeries(history, sku, values);
      && (exists j :: 0 <= j < |history| && f[j].date == f[|history|].date)
      && (forall i :: |history| <= i < |f| - 1 ==> f[i + 1].date == f[i].date + 1)
      && (forall i, j :: 0 <= j < |history| <= i < |f| ==> f[j].date <= f[i].date)
  {
    var f := ForecastSeries(history, sku, values);
    var m := MaxDate(history);
    var j :| 0 <= j < |history| && history[j].date == m;
    assert f[j] == history[j];
    forall i | |history| <= i < |f|
      ensures f[i].date == m + (i - |history|)
    {
      ForecastProjectedRow(history, sku, values, i - |history|);
    }
  }

  /**
   * The table for SKU `sku` cut from the whole sales table: the SKU's rows,
   * then the projection. The SKU is picked from those present in the table.
   */
  function SkuForecast(sales: seq<SalesRow>, sku: string, values: seq<real>): (forecast: seq<SalesRow>)
    requires exists row :: row in sales && row.sku == sku
    requires |values| == Horizon
    ensures AllOfSku(forecast, sku)
    ensures |forecast| == |FilterBySku(sales, sku)| + Horizon
    ensures forecast[..|forecast| - Horizon] == FilterBySku(sales, sku)
  {
    var history := FilterBySku(sales, sku);
    var row :| row in sales && row.sku == sku;
    assert row in history;
    var forecast := ForecastSeries(history, sku, values);
    ForecastKeepsHistory(history, sku, values);
    forall i | 0 <= i < |forecast| ensures forecast[i].sku == sku {
      if i >= |history| {
        ForecastProjectedRow(history, sku, values, i - |history|);
      }
    }
    forecast
  }

  /**
   * Filtering a SKU's forecast by that SKU gives it back whole: the forecast
   * holds no row of another SKU.
   */
  lemma SkuForecastFilterRoundTrip(sales: seq<SalesRow>, sku: string, values: seq<real>)
    requires exists row :: row in sales && row.sku == sku
    requires |values| == Horizon
    ensures FilterBySku(SkuForecast(sales, sku, values), sku) == SkuForecast(sales, sku, values)
  {
    FilterKeepsOwnRows(SkuForecast(sales, sku, values), sku);
  }
}
