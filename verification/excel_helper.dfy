/** `ExcelHelper.SaveReceiptToExcelAsync`: lays a receipt out on a fresh
    worksheet (a header row, one row per item, and a total row holding a SUM
    formula over the item rows). The row writers here are shared with the
    file-list page, which appends the same layout to an existing sheet. */
module ExcelHelper {
  import opened Wrappers
  import opened Numbers
  import opened Sheet
  import opened ReceiptItems

  const HeaderTitles: seq<string> := ["Product Name", "Quantity", "Unit Price", "Total Price"]

  /** The four cells of an item row: name, quantity, unit price, total price. */
  function ItemCell(item: ReceiptItem, col: int): CellValue
    requires 1 <= col <= 4
  {
    if col == 1 then Text(item.name)
    else if col == 2 then Number(item.quantity)
    else if col == 3 then Number(item.unitPrice)
    else Number(item.TotalPrice())
  }

  predicate InItemBlock(p: Pos, row: int, n: int)
  {
    row <= p.0 < row + n && 1 <= p.1 <= 4
  }

  /** Writes the four column titles into row 1. */
  function WriteHeader(ws: Worksheet): (r: Worksheet)
    ensures forall p :: Get(r, p) ==
              if p.0 == 1 && 1 <= p.1 <= 4 then Some(Text(HeaderTitles[p.1 - 1])) else Get(ws, p)
  {
    var w1 := SetCell(ws, 1, 1, Text(HeaderTitles[0]));
    var w2 := SetCell(w1, 1, 2, Text(HeaderTitles[1]));
    var w3 := SetCell(w2, 1, 3, Text(HeaderTitles[2]));
    SetCell(w3, 1, 4, Text(HeaderTitles[3]))
  }

  /** Writes one item into columns 1 to 4 of `row`. */
  function WriteItemRow(ws: Worksheet, item: ReceiptItem, row: int): (r: Worksheet)
    requires row >= 1
    ensures forall p :: Get(r, p) == if p.0 == row && 1 <= p.1 <= 4 then Some(ItemCell(item, p.1)) else Get(ws, p)
  {
    var w1 := SetCell(ws, row, 1, ItemCell(item, 1));
    var w2 := SetCell(w1, row, 2, ItemCell(item, 2));
    var w3 := SetCell(w2, row, 3, ItemCell(item, 3));
    SetCell(w3, row, 4, ItemCell(item, 4))
  }

  /** The `foreach` loop over the items from item `k` on: item `j` goes into
      row `start + j`. */
  function WriteItemsFrom(ws: Worksheet, items: seq<ReceiptItem>, start: int, k: nat): (r: Worksheet)
    requires start >= 1 && k <= |items|
    decreases |items| - k
  {
    if k == |items| then ws
    else WriteItemsFrom(WriteItemRow(ws, items[k], start + k), items, start, k + 1)
  }

  function WriteItems(ws: Worksheet, items: seq<ReceiptItem>, start: int): (r: Worksheet)
    requires start >= 1
  {
    WriteItemsFrom(ws, items, start, 0)
  }

  /** After the item loop, each cell of the item block holds its item's value
      and every other cell is as before. */
  lemma {:induction false} WriteItemsFromAt(ws: Worksheet, items: seq<ReceiptItem>, start: int, k: nat, p: Pos)
    requires start >= 1 && k <= |items|
    ensures Get(WriteItemsFrom(ws, items, start, k), p) ==
            if InItemBlock(p, start + k, |items| - k) then Some(ItemCell(items[p.0 - start], p.1)) else Get(ws, p)
    decreases |items| - k
  {
    if k < |items| {
      WriteItemsFromAt(WriteItemRow(ws, items[k], start + k), items, start, k + 1, p);
    }
  }

  lemma WriteItemsAt(ws: Worksheet, items: seq<ReceiptItem>, start: int, p: Pos)
    requires start >= 1
    ensures Get(WriteItems(ws, items, start), p) ==
            if InItemBlock(p, start, |items|) then Some(ItemCell(items[p.0 - start], p.1)) else Get(ws, p)
  {
    WriteItemsFromAt(ws, items, start, 0, p);
  }

  /** The text of the total formula `SUM(D{first}:D{last})`. */
  function SumFormula(first: nat, last: nat): string
  {
    "SUM(D" + NatToString(first) + ":D" + NatToString(last) + ")"
  }

  /** Reads the row range back out of a `SUM(D{first}:D{last})` formula. */
  function SumRange(f: string): Option<(nat, nat)>
  {
    if |f| < 5 || f[..5] != "SUM(D" then None
    else
      var rest := f[5..];
      var a := LeadingDigits(rest);
      var rest2 := rest[|a|..];
      if |a| == 0 || |rest2| < 2 || rest2[..2] != ":D" then None
      else
        var rest3 := rest2[2..];
        var b := LeadingDigits(rest3);
        if |b| == 0 || rest3[|b|..] != ")" then None
        else Some((DigitsValue(a), DigitsValue(b)))
  }

  /** The formula text names exactly the rows it was built from. */
  lemma SumRangeOfSumFormula(first: nat, last: nat)
    ensures SumRange(SumFormula(first, last)) == Some((first, last))
  {
    var a := NatToString(first);
    var b := NatToString(last);
    var f := SumFormula(first, last);
    assert f[..5] == "SUM(D";
    var rest := f[5..];
    assert rest == a + (":D" + b + ")");
    LeadingDigitsOfDigitsThen(a, ":D" + b + ")");
    var rest2 := rest[|a|..];
    assert rest2 == ":D" + b + ")";
    var rest3 := rest2[2..];
    assert rest3 == b + ")";
    LeadingDigitsOfDigitsThen(b, ")");
    assert rest3[|b|..] == ")";
  }

  /** Writes the total row: `Total` in column 3 and the SUM formula over rows
      `first` to `row - 1` of column D in column 4. */
  function WriteTotal(ws: Worksheet, row: int, first: nat): (r: Worksheet)
    requires row >= 1
    ensures forall p :: Get(r, p) ==
              if p == (row, 3) then Some(Text("Total"))
              else if p == (row, 4) then Some(Formula(SumFormula(first, row - 1)))
              else Get(ws, p)
  {
    SetCell(SetCell(ws, row, 3, Text("Total")), row, 4, Formula(SumFormula(first, row - 1)))
  }

  /** `SaveReceiptToExcelAsync`, without the directory choice, the
      timestamped file name and the file write: no sheet for no items, else
      the header, the items from row 2, and the total row. */
  function SaveReceiptToExcel(items: seq<ReceiptItem>): (r: Option<Worksheet>)
    ensures r.None? <==> |items| == 0
  {
    if |items| == 0 then None
    else
      var ws := WriteItems(WriteHeader(EmptySheet), items, 2);
      Some(WriteTotal(ws, 2 + |items|, 2))
  }

  /** Each writer keeps every written cell inside the used range. */
  lemma WriteHeaderWellFormed(ws: Worksheet)
    requires WellFormed(ws)
    ensures WellFormed(WriteHeader(ws))
  {
  }

  lemma {:induction false} WriteItemsFromWellFormed(ws: Worksheet, items: seq<ReceiptItem>, start: int, k: nat)
    requires start >= 1 && k <= |items| && WellFormed(ws)
    ensures WellFormed(WriteItemsFrom(ws, items, start, k))
    decreases |items| - k
  {
    if k < |items| {
      WriteItemsFromWellFormed(WriteItemRow(ws, items[k], start + k), items, start, k + 1);
    }
  }

  lemma WriteTotalWellFormed(ws: Worksheet, row: int, first: nat)
    requires row >= 1 && WellFormed(ws)
    ensures WellFormed(WriteTotal(ws, row, first))
  {
  }

  /** A saved receipt sheet keeps every written cell inside its used range. */
  lemma SavedReceiptWellFormed(items: seq<ReceiptItem>)
    requires |items| > 0
    ensures WellFormed(SaveReceiptToExcel(items).value)
  {
    WriteHeaderWellFormed(EmptySheet);
    WriteItemsFromWellFormed(WriteHeader(EmptySheet), items, 2, 0);
    WriteTotalWellFormed(WriteItems(WriteHeader(EmptySheet), items, 2), 2 + |items|, 2);
  }

  /** The cell layout of a receipt sheet, written out directly: the titles
      in row 1, item `k` in row `k + 2`, `Total` and the SUM over rows 2 to
      `n + 1` in row `n + 2`, and nothing anywhere else. */
  function ReceiptCell(items: seq<ReceiptItem>, p: Pos): Option<CellValue>
  {
    var n := |items|;
    if p.0 == 1 && 1 <= p.1 <= 4 then Some(Text(HeaderTitles[p.1 - 1]))
    else if 2 <= p.0 < n + 2 && 1 <= p.1 <= 4 then Some(ItemCell(items[p.0 - 2], p.1))
    else if p == (n + 2, 3) then Some(Text("Total"))
    else if p == (n + 2, 4) then Some(Formula(SumFormula(2, n + 1)))
    else None
  }

  /** A saved receipt has exactly the layout of `ReceiptCell`, and its total
      formula covers exactly the item rows. */
  lemma ReceiptSheetLayout(items: seq<ReceiptItem>)
    requires |items| > 0
    ensures forall p :: Get(SaveReceiptToExcel(items).value, p) == ReceiptCell(items, p)
    ensures SumRange(SaveReceiptToExcel(items).value.cells[(|items| + 2, 4)].f) == Some((2, |items| + 1))
  {
    var ws := SaveReceiptToExcel(items).value;
    forall p
      ensures Get(ws, p) == ReceiptCell(items, p)
    {
      ReceiptCellAt(items, p);
    }
    assert Get(ws, (|items| + 2, 4)) == Some(Formula(SumFormula(2, |items| + 1)));
    SumRangeOfSumFormula(2, |items| + 1);
  }

  lemma ReceiptCellAt(items: seq<ReceiptItem>, p: Pos)
    requires |items| > 0
    ensures Get(SaveReceiptToExcel(items).value, p) == ReceiptCell(items, p)
  {
    var n := |items|;
    var h := WriteHeader(EmptySheet);
    var body := WriteItems(h, items, 2);
    assert SaveReceiptToExcel(items).value == WriteTotal(body, 2 + n, 2);
    WriteItemsAt(h, items, 2, p);
    if p.0 == 1 {
      assert Get(body, p) == Get(h, p);
    } else if 2 <= p.0 < n + 2 && 1 <= p.1 <= 4 {
      assert Get(body, p) == Some(ItemCell(items[p.0 - 2], p.1));
    } else {
      assert Get(body, p) == Get(h, p) == None;
    }
  }
}
