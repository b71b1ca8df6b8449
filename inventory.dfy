/**
 * The "Inventory Summary" tab of the dashboard: the product catalog, the
 * shelf-status rule, the per-product summary rows and the colour that each
 * status cell is styled with.
 *
 * The shelf and POS counts are random draws in the dashboard; here they are
 * parameters, one per catalog product.
 */
module Inventory {

  /** A catalog entry: SKU, display name and low-stock threshold. */
  datatype Product = Product(sku: string, name: string, threshold: nat)

  /** The three-way status shown in the summary table. */
  datatype Status = Good | Low | OutOfStock

  /** One row of the summary table. */
  datatype SummaryRow = SummaryRow(
    sku: string,
    productName: string,
    shelfCount: nat,
    posCount: nat,
    status: Status)

  /** The catalog the dashboard loads. */
  function MockCatalog(): (products: seq<Product>)
    ensures |products| == 3
    ensures forall i, j :: 0 <= i < j < |products| ==> products[i].sku != products[j].sku
  {
    [ Product("A123", "Product A", 10),
      Product("B456", "Product B", 5),
      Product("C789", "Product C", 8) ]
  }

  // ---------------------------------------------------------------------------
  // The status rule
  // ---------------------------------------------------------------------------

  /**
   * The status of a product whose shelf shows `detected` items, against the
   * product's own threshold: Good at or above the threshold, otherwise Low
   * while anything is left, otherwise Out-of-stock.
   */
  function StatusOf(detected: nat, threshold: nat): (s: Status)
    ensures s == Good <==> detected >= threshold
    ensures s == Low <==> 0 < detected < threshold
    ensures s == OutOfStock <==> detected == 0 && threshold > 0
  {
    if detected >= threshold then Good
    else if detected > 0 then Low
    else OutOfStock
  }

  /** Severity order of the statuses: Good < Low < Out-of-stock. */
  function Severity(s: Status): nat
  {
    match s
    case Good => 0
    case Low => 1
    case OutOfStock => 2
  }

  /** More stock on the shelf never makes the status worse. */
  lemma StatusMonotone(d1: nat, d2: nat, threshold: nat)
    requires d1 <= d2
    ensures Severity(StatusOf(d2, threshold)) <= Severity(StatusOf(d1, threshold))
  {
  }

  /** With a zero threshold every count, even an empty shelf, is Good. */
  lemma ZeroThresholdAlwaysGood(detected: nat)
    ensures StatusOf(detected, 0) == Good
  {
  }

  // ---------------------------------------------------------------------------
  // The summary table
  // ---------------------------------------------------------------------------

  /** The row the dashboard builds for one product and its two counts. */
  function RowFor(product: Product, detected: nat, pos: nat): (row: SummaryRow)
    ensures row.sku == product.sku && row.productName == product.name
    ensures row.shelfCount == detected && row.posCount == pos
    ensures row.status == StatusOf(detected, product.threshold)
  {
    SummaryRow(product.sku, product.name, detected, pos, StatusOf(detected, product.threshold))
  }

  /**
   * Builds the summary table: one row per product, in catalog order, from the
   * counts drawn for that product (`detected[i]`, `pos[i]` for `products[i]`).
   */
  method BuildSummary(products: seq<Product>, detected: seq<nat>, pos: seq<nat>)
    returns (rows: seq<SummaryRow>)
    requires |detected| == |products| && |pos| == |products|
    ensures |rows| == |products|
    ensures forall i :: 0 <= i < |rows| ==>
      && rows[i].sku == products[i].sku
      && rows[i].productName == products[i].name
      && rows[i].shelfCount == detected[i]
      && rows[i].posCount == pos[i]
      && rows[i].status == StatusOf(detected[i], products[i].threshold)
  {
    rows := [];
    var i := 0;
    while i < |products|
      invariant 0 <= i <= |products|
      invariant |rows| == i
      invariant forall k :: 0 <= k < i ==> rows[k] == RowFor(products[k], detected[k], pos[k])
    {
      rows := rows + [RowFor(products[i], detected[i], pos[i])];
      i := i + 1;
    }
  }

  /**
   * The Inventory Summary tab: the summary of the catalog the dashboard
   * loads, one row per product with its own SKU and threshold.
   */
  method CatalogSummary(detected: seq<nat>, pos: seq<nat>) returns (rows: seq<SummaryRow>)
    requires |detected| == 3 && |pos| == 3
    ensures |rows| == 3
    ensures forall i, j :: 0 <= i < j < |rows| ==> rows[i].sku != rows[j].sku
    ensures rows[0].sku == "A123" && rows[0].status == StatusOf(detected[0], 10)
    ensures rows[1].sku == "B456" && rows[1].status == StatusOf(detected[1], 5)
    ensures rows[2].sku == "C789" && rows[2].status == StatusOf(detected[2], 8)
    ensures forall i :: 0 <= i < 3 ==> rows[i] == RowFor(MockCatalog()[i], detected[i], pos[i])
  {
    var products := MockCatalog();
    rows := BuildSummary(products, detected, pos);
  }

  /**
   * The status column does not depend on the POS count: the rows built for
   * one product and one shelf count agree on everything but the POS column.
   */
  lemma StatusIgnoresPos(product: Product, detected: nat, pos1: nat, pos2: nat)
    ensures RowFor(product, detected, pos1).status == RowFor(product, detected, pos2).status
    ensures RowFor(product, detected, pos1) == RowFor(product, detected, pos2).(posCount := pos1)
  {
  }

  // ---------------------------------------------------------------------------
  // Status colours
  // ---------------------------------------------------------------------------

  /** The text the dashboard writes in the Status column. */
  function StatusLabel(s: Status): (text: string)
    ensures text != "" && text in StatusColors
  {
    match s
    case Good => "Good"
    case Low => "Low"
    case OutOfStock => "Out-of-stock"
  }

  /** The CSS style per status label. */
  const StatusColors: map<string, string> := map[
    "Good" := "background-color: #d4edda",
    "Low" := "background-color: #fff3cd",
    "Out-of-stock" := "background-color: #f8d7da"
  ]

  /** The style applied to a Status cell holding `x`; unknown text gets none. */
  function CellStyle(x: string): (style: string)
    ensures x in StatusColors ==> style == StatusColors[x]
    ensures x !in StatusColors ==> style == ""
  {
    if x in StatusColors then StatusColors[x] else ""
  }

  /** Every status has its own, non-empty style: no status cell is left plain. */
  lemma EveryStatusStyled(s: Status, t: Status)
    ensures StatusLabel(s) in StatusColors
    ensures CellStyle(StatusLabel(s)) != ""
    ensures s != t ==> CellStyle(StatusLabel(s)) != CellStyle(StatusLabel(t))
  {
  }

  /** The colour table has an entry for exactly the labels the rule produces. */
  lemma ColorTableMatchesStatuses()
    ensures StatusColors.Keys == {StatusLabel(Good), StatusLabel(Low), StatusLabel(OutOfStock)}
  {
  }
}
