/** `ExcelFileListPage`: a list of spreadsheet files of which at most one is
    checked, and the saving of the current receipt's items into the checked
    file's first worksheet. */
module ExcelFileList {
  import opened Wrappers
  import opened Strings
  import opened Sheet
  import opened ReceiptItems
  import opened ExcelFiles
  import opened ExcelHelper

  /** The binding context of the checkbox that raised `CheckedChanged`: a file
      of the list, given by its position, or something that is not an `ExcelFile`. */
  datatype CheckSender = NotAnExcelFile | FileAt(index: int)

  predicate AtMostOneSelected(files: seq<ExcelFile>)
  {
    forall i, j :: 0 <= i < |files| && 0 <= j < |files| && files[i].isSelected && files[j].isSelected ==> i == j
  }

  /** `OnFileCheckedChanged`: every file's `IsSelected` is set to "this is
      the sender and the box is now checked". Returns the new list and the
      positions of the files that raised a notification, in list order. */
  method OnFileCheckedChanged(files: seq<ExcelFile>, sender: CheckSender, value: bool)
    returns (r: seq<ExcelFile>, raised: seq<int>)
    ensures |r| == |files|
    ensures sender.NotAnExcelFile? ==> r == files && raised == []
    ensures sender.FileAt? ==> forall i :: 0 <= i < |r| ==> r[i].isSelected == (i == sender.index && value)
    ensures forall i :: 0 <= i < |r| ==> r[i].fileName == files[i].fileName && r[i].filePath == files[i].filePath
    ensures forall i :: i in raised <==> 0 <= i < |files| && r[i].isSelected != files[i].isSelected
    ensures forall a, b :: 0 <= a < b < |raised| ==> raised[a] < raised[b]
    ensures sender.FileAt? ==> AtMostOneSelected(r)
    ensures AtMostOneSelected(files) ==> AtMostOneSelected(r)
  {
    if sender.NotAnExcelFile? {
      return files, [];
    }
    r := [];
    raised := [];
    var i := 0;
    while i < |files|
      invariant 0 <= i <= |files| && |r| == i
      invariant forall k :: 0 <= k < i ==> r[k].isSelected == (k == sender.index && value)
      invariant forall k :: 0 <= k < i ==> r[k].fileName == files[k].fileName && r[k].filePath == files[k].filePath
      invariant forall k :: k in raised <==> 0 <= k < i && r[k].isSelected != files[k].isSelected
      invariant forall a, b :: 0 <= a < b < |raised| ==> raised[a] < raised[b]
      invariant forall a :: 0 <= a < |raised| ==> raised[a] < i
    {
      var (f, notes) := SetIsSelected(files[i], i == sender.index && value);
      r := r + [f];
      if notes != [] {
        raised := raised + [i];
      }
      i := i + 1;
    }
  }

  /** `GetSelectedFilePath`: the path of the first selected file, or null. */
  function GetSelectedFilePath(files: seq<ExcelFile>): (r: Option<string>)
    ensures r.None? <==> forall i :: 0 <= i < |files| ==> !files[i].isSelected
    ensures r.Some? ==> exists i :: 0 <= i < |files| && files[i].isSelected && r.value == files[i].filePath
                                    && forall j :: 0 <= j < i ==> !files[j].isSelected
  {
    if |files| == 0 then None
    else if files[0].isSelected then Some(files[0].filePath)
    else
      var r := GetSelectedFilePath(files[1..]);
      assert forall i :: 0 < i < |files| ==> files[i] == files[1..][i - 1];
      r
  }

  /** The first row `SaveReceiptItemsToSelectedFileAsync` writes to:
      `worksheet.Dimension?.Rows + 1 ?? 1`. */
  function StartRow(ws: Worksheet): nat
  {
    match ws.dim
    case None => 1
    case Some(d) => d.rows + 1
  }

  /** The row of the first item: row 2 under a freshly written header, else the start row. */
  function FirstItemRow(ws: Worksheet): nat
  {
    if StartRow(ws) == 1 then 2 else StartRow(ws)
  }

  /** The header (on an empty sheet only) and the item rows. */
  function AppendItems(ws: Worksheet, items: seq<ReceiptItem>): Worksheet
  {
    var w := if StartRow(ws) == 1 then WriteHeader(ws) else ws;
    WriteItems(w, items, FirstItemRow(ws))
  }

  /** The header, the item rows and the total row, with the total formula
      summing column D from row `anchor` to the last item row. */
  function AppendRows(ws: Worksheet, items: seq<ReceiptItem>, anchor: nat): Worksheet
  {
    WriteTotal(AppendItems(ws, items), FirstItemRow(ws) + |items|, anchor)
  }

  /** The rows the page appends, as written: the total formula is anchored at
      D2 whatever the first item row is. */
  function AppendReceipt(ws: Worksheet, items: seq<ReceiptItem>): Worksheet
  {
    AppendRows(ws, items, 2)
  }

  /** The rows the page appends with the total formula anchored at the first
      item row of this receipt, so that it sums this receipt only. */
  function AppendReceiptCorrected(ws: Worksheet, items: seq<ReceiptItem>): Worksheet
  {
    AppendRows(ws, items, FirstItemRow(ws))
  }

  datatype SaveOutcome =
    | NoFileSelected           // returns silently
    | NothingToSave            // the "No items to save!" warning
    | Saved(path: string, sheet: Worksheet)

  /** `SaveReceiptItemsToSelectedFileAsync`, with the file's first worksheet
      given as `existing` (`None` when the file has none and a new one is
      added) and the file write left out. */
  function SaveReceiptItemsToSelectedFile(files: seq<ExcelFile>, items: seq<ReceiptItem>,
                                          existing: Option<Worksheet>): (r: SaveOutcome)
    ensures r.NoFileSelected? <==> IsNullOrEmpty(GetSelectedFilePath(files))
    ensures r.NothingToSave? <==> !IsNullOrEmpty(GetSelectedFilePath(files)) && |items| == 0
    ensures r.Saved? ==> Some(r.path) == GetSelectedFilePath(files) && |r.path| > 0
    ensures r.Saved? ==> forall p :: Get(r.sheet, p) == AppendedCell(existing.GetOr(EmptySheet), items, 2, p)
  {
    var path := GetSelectedFilePath(files);
    if IsNullOrEmpty(path) then NoFileSelected
    else if |items| == 0 then NothingToSave
    else
      var ws := existing.GetOr(EmptySheet);
      AppendRowsEverywhere(ws, items, 2);
      Saved(path.value, AppendReceipt(ws, items))
  }

  /** The same save with the corrected total formula. */
  function SaveReceiptItemsToSelectedFileCorrected(files: seq<ExcelFile>, items: seq<ReceiptItem>,
                                                   existing: Option<Worksheet>): (r: SaveOutcome)
    ensures r.NoFileSelected? <==> IsNullOrEmpty(GetSelectedFilePath(files))
    ensures r.NothingToSave? <==> !IsNullOrEmpty(GetSelectedFilePath(files)) && |items| == 0
    ensures r.Saved? ==> Some(r.path) == GetSelectedFilePath(files) && |r.path| > 0
    ensures r.Saved? ==> forall p :: Get(r.sheet, p) == AppendedCell(existing.GetOr(EmptySheet), items, FirstItemRow(existing.GetOr(EmptySheet)), p)
  {
    var path := GetSelectedFilePath(files);
    if IsNullOrEmpty(path) then NoFileSelected
    else if |items| == 0 then NothingToSave
    else
      var ws := existing.GetOr(EmptySheet);
      AppendRowsEverywhere(ws, items, FirstItemRow(ws));
      Saved(path.value, AppendReceiptCorrected(ws, items))
  }

  /** What a cell holds after the header and item rows are appended: the
      titles in row 1 of a sheet that had no rows, item `k` in row
      `FirstItemRow + k`, and otherwise what it held before. */
  lemma AppendItemsAt(ws: Worksheet, items: seq<ReceiptItem>, p: Pos)
    ensures Get(AppendItems(ws, items), p) ==
            if InItemBlock(p, FirstItemRow(ws), |items|) then Some(ItemCell(items[p.0 - FirstItemRow(ws)], p.1))
            else if StartRow(ws) == 1 && p.0 == 1 && 1 <= p.1 <= 4 then Some(Text(HeaderTitles[p.1 - 1]))
            else Get(ws, p)
  {
    var w := if StartRow(ws) == 1 then WriteHeader(ws) else ws;
    WriteItemsAt(w, items, FirstItemRow(ws), p);
  }

  /** What a cell holds after a receipt is appended, written out directly:
      `Total` and the formula on the row after the last item, the item rows,
      the titles in row 1 of a sheet that had no rows, and otherwise what the
      cell held before. */
  function AppendedCell(ws: Worksheet, items: seq<ReceiptItem>, anchor: nat, p: Pos): Option<CellValue>
  {
    var first := FirstItemRow(ws);
    var last := first + |items|;
    if p == (last, 3) then Some(Text("Total"))
    else if p == (last, 4) then Some(Formula(SumFormula(anchor, last - 1)))
    else if first <= p.0 < last && 1 <= p.1 <= 4 then Some(ItemCell(items[p.0 - first], p.1))
    else if StartRow(ws) == 1 && p.0 == 1 && 1 <= p.1 <= 4 then Some(Text(HeaderTitles[p.1 - 1]))
    else Get(ws, p)
  }

  lemma AppendRowsAt(ws: Worksheet, items: seq<ReceiptItem>, anchor: nat, p: Pos)
    ensures Get(AppendRows(ws, items, anchor), p) == AppendedCell(ws, items, anchor, p)
  {
    var last := FirstItemRow(ws) + |items|;
    if p != (last, 3) && p != (last, 4) {
      assert Get(AppendRows(ws, items, anchor), p) == Get(AppendItems(ws, items), p);
      AppendItemsAt(ws, items, p);
    }
  }

  /** `AppendRowsAt` for every cell at once. */
  lemma AppendRowsEverywhere(ws: Worksheet, items: seq<ReceiptItem>, anchor: nat)
    ensures forall p :: Get(AppendRows(ws, items, anchor), p) == AppendedCell(ws, items, anchor, p)
  {
    forall p {
      AppendRowsAt(ws, items, anchor, p);
    }
  }

  /** Appending keeps every written cell inside the used range. */
  lemma AppendRowsWellFormed(ws: Worksheet, items: seq<ReceiptItem>, anchor: nat)
    requires WellFormed(ws)
    ensures WellFormed(AppendRows(ws, items, anchor))
  {
    var w := if StartRow(ws) == 1 then WriteHeader(ws) else ws;
    if StartRow(ws) == 1 {
      WriteHeaderWellFormed(ws);
    }
    WriteItemsFromWellFormed(w, items, FirstItemRow(ws), 0);
    WriteTotalWellFormed(AppendItems(ws, items), FirstItemRow(ws) + |items|, anchor);
  }

  /** Appending keeps every cell the sheet already had outside the rows it
      writes. */
  lemma AppendReceiptKeepsCells(ws: Worksheet, items: seq<ReceiptItem>, p: Pos)
    requires p.0 < StartRow(ws)
    ensures Get(AppendReceipt(ws, items), p) == Get(ws, p)
  {
    AppendRowsAt(ws, items, 2, p);
  }

  /** Into a sheet without rows, appending writes the column titles to row 1. */
  lemma AppendReceiptHeader(ws: Worksheet, items: seq<ReceiptItem>, c: int)
    requires ws.dim.None? && 1 <= c <= 4
    ensures Get(AppendReceipt(ws, items), (1, c)) == Some(Text(HeaderTitles[c - 1]))
  {
    AppendRowsAt(ws, items, 2, (1, c));
  }

  /** Item `k` lands on row `FirstItemRow + k`. */
  lemma AppendReceiptItem(ws: Worksheet, items: seq<ReceiptItem>, k: int, c: int)
    requires 0 <= k < |items| && 1 <= c <= 4
    ensures Get(AppendReceipt(ws, items), (FirstItemRow(ws) + k, c)) == Some(ItemCell(items[k], c))
  {
    AppendRowsAt(ws, items, 2, (FirstItemRow(ws) + k, c));
  }

  /** The total row follows the last item and, as written, sums from D2. */
  lemma AppendReceiptTotal(ws: Worksheet, items: seq<ReceiptItem>)
    ensures var last := FirstItemRow(ws) + |items|;
            && Get(AppendReceipt(ws, items), (last, 3)) == Some(Text("Total"))
            && Get(AppendReceipt(ws, items), (last, 4)) == Some(Formula(SumFormula(2, last - 1)))
  {
    AppendRowsAt(ws, items, 2, (FirstItemRow(ws) + |items|, 3));
    AppendRowsAt(ws, items, 2, (FirstItemRow(ws) + |items|, 4));
  }

  /** As written, appending to a sheet that already has rows sums from D2,
      that is over rows this save did not write. Concretely, saving the same
      one-item receipt twice into an empty sheet puts the first receipt's
      total formula (row 3) inside the second receipt's SUM(D2:D4). */
  lemma AppendedTotalCountsEarlierTotal()
    ensures var item := ReceiptItem("Apple", 1.0, 0.99);
            var once := AppendReceipt(EmptySheet, [item]);
            var twice := AppendReceipt(once, [item]);
            && Get(twice, (3, 4)) == Some(Formula(SumFormula(2, 2)))
            && Get(twice, (5, 4)) == Some(Formula(SumFormula(2, 4)))
  {
    var item := ReceiptItem("Apple", 1.0, 0.99);
    var once := AppendReceipt(EmptySheet, [item]);
    assert FirstItemRow(EmptySheet) == 2;
    AppendReceiptTotal(EmptySheet, [item]);
    assert WriteHeader(EmptySheet).dim == Some(Dim(1, 4));
    assert AppendItems(EmptySheet, [item]) == WriteItemRow(WriteHeader(EmptySheet), item, 2) by {
      assert WriteItemsFrom(WriteItemRow(WriteHeader(EmptySheet), item, 2), [item], 2, 1)
          == WriteItemRow(WriteHeader(EmptySheet), item, 2);
    }
    assert WriteItemRow(WriteHeader(EmptySheet), item, 2).dim == Some(Dim(2, 4));
    assert once.dim == Some(Dim(3, 4));
    assert FirstItemRow(once) == 4;
    AppendReceiptKeepsCells(once, [item], (3, 4));
    AppendReceiptTotal(once, [item]);
  }

  /** As written, whenever the sheet already has a row below its first the
      formula's range starts above the first item row of this save. */
  lemma AppendedTotalStartsAboveItems(ws: Worksheet, items: seq<ReceiptItem>)
    requires ws.dim.Some? && ws.dim.value.rows >= 2
    ensures var last := FirstItemRow(ws) + |items|;
            && Get(AppendReceipt(ws, items), (last, 4)) == Some(Formula(SumFormula(2, last - 1)))
            && 2 < FirstItemRow(ws)
  {
    AppendReceiptTotal(ws, items);
  }

  /** Corrected, the total row follows the last item and sums exactly the
      item rows of this save. */
  lemma CorrectedTotal(ws: Worksheet, items: seq<ReceiptItem>)
    ensures var first := FirstItemRow(ws);
            var last := first + |items|;
            && Get(AppendReceiptCorrected(ws, items), (last, 3)) == Some(Text("Total"))
            && Get(AppendReceiptCorrected(ws, items), (last, 4)) == Some(Formula(SumFormula(first, last - 1)))
  {
    var first := FirstItemRow(ws);
    var last := first + |items|;
    AppendRowsAt(ws, items, first, (last, 3));
    AppendRowsAt(ws, items, first, (last, 4));
  }

  /** Corrected, every row in the formula's range holds the total price of
      one of the items just written. */
  lemma CorrectedTotalCoversOwnItems(ws: Worksheet, items: seq<ReceiptItem>, row: int)
    requires FirstItemRow(ws) <= row < FirstItemRow(ws) + |items|
    ensures Get(AppendReceiptCorrected(ws, items), (row, 4)) == Some(Number(items[row - FirstItemRow(ws)].TotalPrice()))
  {
    AppendRowsAt(ws, items, FirstItemRow(ws), (row, 4));
  }
}
