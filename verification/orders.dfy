/** `OrdersPage.LoadOrdersFromExcel`: reads the order sheet (an id in column
    1, a customer name in column 2, and from column 3 on one quantity per
    catalog product, in catalog order) into order cards, keeping only rows
    with a valid id, a customer name and at least one positive quantity. */
module Orders {
  import opened Wrappers
  import opened Numbers
  import opened Strings
  import opened Sheet
  import opened Catalog
  import opened ProductSummary

  datatype ProductQuantity = ProductQuantity(productName: string, quantity: real)

  datatype OrderRow = OrderRow(orderId: int, customerName: string, quantities: seq<ProductQuantity>)

  /** `decimal.TryParse(text, out q) ? q : 0` */
  function CellQuantity(text: string): real
  {
    ParseDecimal(text).GetOr(0.0)
  }

  function Min(a: int, b: int): int
  {
    if a < b then a else b
  }

  /** How many product columns of a row are read: columns 3 to `cols`, but
      only as far as there are products. */
  function ProductColumns(cols: int, products: seq<Product>): nat
  {
    if cols < 3 then 0 else Min(cols - 2, |products|)
  }

  /** The quantities of row `row`: product `k` with the quantity in column `k + 3`. */
  function RowQuantities(g: Grid, row: int, cols: int, products: seq<Product>): (r: seq<ProductQuantity>)
    ensures |r| == ProductColumns(cols, products)
  {
    seq(ProductColumns(cols, products),
        k requires 0 <= k < ProductColumns(cols, products) =>
          ProductQuantity(products[k].name, QuantityAt(g, row, k)))
  }

  predicate HasPositive(qs: seq<ProductQuantity>)
  {
    exists k :: 0 <= k < |qs| && qs[k].quantity > 0.0
  }

  lemma HasPositiveSnoc(qs: seq<ProductQuantity>, q: ProductQuantity)
    ensures HasPositive(qs + [q]) <==> HasPositive(qs) || q.quantity > 0.0
  {
    if HasPositive(qs) {
      var k :| 0 <= k < |qs| && qs[k].quantity > 0.0;
      assert (qs + [q])[k] == qs[k];
    }
    if HasPositive(qs + [q]) && q.quantity <= 0.0 {
      var k :| 0 <= k < |qs + [q]| && (qs + [q])[k].quantity > 0.0;
      assert qs[k] == (qs + [q])[k];
    }
  }

  /** The quantity read from the column of product `k`. */
  function QuantityAt(g: Grid, row: int, k: int): real
  {
    CellQuantity(CellText(g, row, k + 3))
  }

  /** One row of the sheet: skipped without a parsable id, without a
      customer name, or without a positive quantity. */
  function RowOrder(g: Grid, row: int, cols: int, products: seq<Product>): Option<OrderRow>
  {
    var idText := CellText(g, row, 1);
    var id := ParseInt32(idText);
    var name := CellText(g, row, 2);
    if IsBlank(idText) || id.None? then None
    else if IsBlank(name) then None
    else
      var qs := RowQuantities(g, row, cols, products);
      if HasPositive(qs) then Some(OrderRow(id.value, name, qs)) else None
  }

  /** The orders of rows 2 to `rows`, in row order. */
  function KeptOrders(g: Grid, rows: int, cols: int, products: seq<Product>): seq<OrderRow>
    decreases rows
  {
    if rows < 2 then []
    else
      KeptOrders(g, rows - 1, cols, products) +
      (match RowOrder(g, rows, cols, products) case None => [] case Some(o) => [o])
  }

  /** The column loop of one row: a quantity for each product column, and
      whether any of them is positive. */
  method ReadQuantities(g: Grid, row: int, cols: int, products: seq<Product>)
    returns (qs: seq<ProductQuantity>, hasNonZero: bool)
    ensures qs == RowQuantities(g, row, cols, products)
    ensures hasNonZero <==> HasPositive(qs)
  {
    qs := [];
    hasNonZero := false;
    var col := 3;
    while col <= cols
      invariant 3 <= col <= (if cols < 3 then 3 else cols + 1)
      invariant qs == RowQuantities(g, row, col - 1, products)
      invariant hasNonZero <==> HasPositive(qs)
    {
      var quantity := CellQuantity(CellText(g, row, col));
      if col - 3 < |products| {
        HasPositiveSnoc(qs, ProductQuantity(products[col - 3].name, quantity));
        qs := qs + [ProductQuantity(products[col - 3].name, quantity)];
        if quantity > 0.0 {
          hasNonZero := true;
        }
      }
      assert qs == RowQuantities(g, row, col, products);
      col := col + 1;
    }
  }

  /** The body of the row loop. */
  method ReadRow(g: Grid, row: int, cols: int, products: seq<Product>) returns (o: Option<OrderRow>)
    ensures o == RowOrder(g, row, cols, products)
  {
    var idText := CellText(g, row, 1);
    var id := ParseInt32(idText);
    if IsBlank(idText) || id.None? {
      return None;
    }
    var name := CellText(g, row, 2);
    if IsBlank(name) {
      return None;
    }
    var qs, hasNonZero := ReadQuantities(g, row, cols, products);
    if hasNonZero {
      return Some(OrderRow(id.value, name, qs));
    }
    return None;
  }

  /** The page's loops: `None` for a sheet without a used range ("The Excel
      sheet is empty or has no data."), else `orders` followed by the order of
      every row that is kept. */
  method LoadOrdersFromExcel(g: Grid, products: seq<Product>, orders: seq<OrderRow>)
    returns (r: Option<seq<OrderRow>>)
    ensures r.None? <==> g.dim.None?
    ensures r.Some? ==> r.value == orders + KeptOrders(g, g.dim.value.rows, g.dim.value.cols, products)
  {
    if g.dim.None? {
      return None;
    }
    var rows := g.dim.value.rows as int;
    var cols := g.dim.value.cols as int;
    var acc := orders;
    var row := 2;
    while row <= rows
      invariant 2 <= row <= (if rows < 2 then 2 else rows + 1)
      invariant acc == orders + KeptOrders(g, row - 1, cols, products)
    {
      acc := AddRowOrder(g, row, cols, products, orders, acc);
      row := row + 1;
    }
    return Some(acc);
  }

  /** One pass of the row loop: the row's order, if it is kept, joins the list. */
  method AddRowOrder(g: Grid, row: int, cols: int, products: seq<Product>, orders: seq<OrderRow>,
                     acc: seq<OrderRow>) returns (acc': seq<OrderRow>)
    requires row >= 2 && acc == orders + KeptOrders(g, row - 1, cols, products)
    ensures acc' == orders + KeptOrders(g, row, cols, products)
  {
    var o := ReadRow(g, row, cols, products);
    acc' := acc;
    if o.Some? {
      acc' := acc + [o.value];
    }
  }

  /** Every kept order comes from a row with a valid id, a customer name
      that is not blank and a positive quantity, and lists one quantity per
      product column in catalog order. */
  lemma {:induction false} KeptOrdersAreValid(g: Grid, rows: int, cols: int, products: seq<Product>, i: int)
    requires 0 <= i < |KeptOrders(g, rows, cols, products)|
    ensures var o := KeptOrders(g, rows, cols, products)[i];
            && Int32Min <= o.orderId <= Int32Max
            && !IsBlank(o.customerName)
            && HasPositive(o.quantities)
            && |o.quantities| == ProductColumns(cols, products)
            && forall k :: 0 <= k < |o.quantities| ==> o.quantities[k].productName == products[k].name
    decreases rows
  {
    var before := KeptOrders(g, rows - 1, cols, products);
    if i < |before| {
      KeptOrdersAreValid(g, rows - 1, cols, products, i);
    }
  }

  /** A row is kept exactly when it has a valid id, a customer name and a
      positive quantity; its order then carries the value the id text spells,
      the name as written and the row's quantities. */
  lemma RowOrderKept(g: Grid, row: int, cols: int, products: seq<Product>)
    ensures RowOrder(g, row, cols, products).Some? <==>
            && ParseInt32(CellText(g, row, 1)).Some?
            && !IsBlank(CellText(g, row, 2))
            && exists k :: 0 <= k < ProductColumns(cols, products) && QuantityAt(g, row, k) > 0.0
    ensures RowOrder(g, row, cols, products).Some? ==>
            var o := RowOrder(g, row, cols, products).value;
            && AllDigits(Unsigned(CellText(g, row, 1)))
            && o.orderId == SignedValue(CellText(g, row, 1))
            && o.customerName == CellText(g, row, 2)
            && o.quantities == RowQuantities(g, row, cols, products)
  {
    if ParseInt32(CellText(g, row, 1)).Some? {
      ParsedIdIsNotBlank(CellText(g, row, 1));
    }
    RowHasPositive(g, row, cols, products);
  }

  /** Text that parses as an integer is not blank. */
  lemma ParsedIdIsNotBlank(t: string)
    requires ParseInt32(t).Some?
    ensures !IsBlank(t)
  {
    assert IsDigit(t[0]) || IsDigit(t[1]);
  }

  /** A row has a positive quantity exactly when one of its product columns does. */
  lemma RowHasPositive(g: Grid, row: int, cols: int, products: seq<Product>)
    ensures HasPositive(RowQuantities(g, row, cols, products)) <==>
            exists k :: 0 <= k < ProductColumns(cols, products) && QuantityAt(g, row, k) > 0.0
  {
    var qs := RowQuantities(g, row, cols, products);
    if exists k :: 0 <= k < ProductColumns(cols, products) && QuantityAt(g, row, k) > 0.0 {
      var k :| 0 <= k < ProductColumns(cols, products) && QuantityAt(g, row, k) > 0.0;
      assert qs[k].quantity > 0.0;
    }
  }

  /** The two pages read the same cell differently: the order list parses
      the whole text, so a quantity followed by a superscript annotation
      counts 0 there, while the summary counts its leading digits. */
  lemma AnnotatedCellReadsDifferently(digits: string)
    requires |digits| > 0 && AllDigits(digits)
    ensures CellQuantity(digits + "\U{1D43}") == 0.0
    ensures DecodeCell(digits + "\U{1D43}").quantity == DigitsValue(digits) as real
  {
    var text := digits + "\U{1D43}";
    NonAsciiIsNotDecimal('\U{1D43}');
    assert text[|digits|] == '\U{1D43}';
    CellQuantityOfNonDecimal(text, |digits|);
    DecodeCellQuantityOfParts(digits, "\U{1D43}");
  }

  /** Text with a character no decimal can hold counts 0. */
  lemma CellQuantityOfNonDecimal(text: string, i: int)
    requires 0 <= i < |text| && !DecimalChar(text[i])
    ensures CellQuantity(text) == 0.0
  {
    ParseDecimalRejects(text, i);
  }

  /** And a decimal quantity "3.5" counts 3.5 in the order list but 3 in the summary. */
  lemma DecimalCellReadsDifferently(whole: string, frac: string)
    requires |whole| > 0 && AllDigits(whole) && AllDigits(frac)
    ensures CellQuantity(whole + ("." + frac)) == FractionValue(whole, frac)
    ensures DecodeCell(whole + ("." + frac)).quantity == DigitsValue(whole) as real
  {
    ParseDecimalOfFraction(whole, frac);
    DecodeCellOfDecimalText(whole, frac);
  }
}
