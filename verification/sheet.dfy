/** The spreadsheet as the pages see it. A worksheet is a map from
    (row, column) positions, both 1-based, to cell contents, together with its
    used range (`worksheet.Dimension`), which is absent for an empty sheet. */
module Sheet {
  import opened Wrappers

  /** (row, column) */
  type Pos = (int, int)

  /** The used range, taken to start at cell A1, so that `rows` is also the
      last used row and `cols` the last used column. */
  datatype Dim = Dim(rows: nat, cols: nat)

  /** The read side: the text each cell displays (its `.Text`); a cell that
      is not in the map displays "". */
  datatype Grid = Grid(text: map<Pos, string>, dim: Option<Dim>)

  function CellText(g: Grid, row: int, col: int): string
  {
    if (row, col) in g.text then g.text[(row, col)] else ""
  }

  /** The write side: a cell holds a string, a number or a formula. */
  datatype CellValue = Text(s: string) | Number(n: real) | Formula(f: string)

  datatype Worksheet = Worksheet(cells: map<Pos, CellValue>, dim: Option<Dim>)

  /** The content of the cell at `p`, or `None` for a cell never written. */
  function Get(ws: Worksheet, p: Pos): Option<CellValue>
  {
    if p in ws.cells then Some(ws.cells[p]) else None
  }

  const EmptySheet: Worksheet := Worksheet(map[], None)

  /** Every written cell lies inside the used range, and a sheet without a
      used range has no cells. */
  predicate WellFormed(ws: Worksheet)
  {
    match ws.dim
    case None => ws.cells == map[]
    case Some(d) => forall p :: p in ws.cells ==> 1 <= p.0 <= d.rows && 1 <= p.1 <= d.cols
  }

  function Max(a: int, b: int): int
  {
    if a < b then b else a
  }

  /** `worksheet.Cells[row, col].Value = v` (or `.Formula = f`): the cell
      takes the new content and the used range grows just enough to cover it. */
  function SetCell(ws: Worksheet, row: int, col: int, v: CellValue): (r: Worksheet)
    requires row >= 1 && col >= 1
    ensures r.cells == ws.cells[(row, col) := v]
    ensures r.dim.Some? && r.dim.value.rows >= row && r.dim.value.cols >= col
    ensures ws.dim.Some? ==> r.dim.value.rows >= ws.dim.value.rows && r.dim.value.cols >= ws.dim.value.cols
    ensures r.dim.value.rows == row || (ws.dim.Some? && r.dim.value.rows == ws.dim.value.rows)
    ensures r.dim.value.cols == col || (ws.dim.Some? && r.dim.value.cols == ws.dim.value.cols)
  {
    var d := match ws.dim
      case None => Dim(row, col)
      case Some(d) => Dim(Max(d.rows, row), Max(d.cols, col));
    Worksheet(ws.cells[(row, col) := v], Some(d))
  }

  /** Writing a cell keeps every written cell inside the used range. */
  lemma SetCellWellFormed(ws: Worksheet, row: int, col: int, v: CellValue)
    requires row >= 1 && col >= 1 && WellFormed(ws)
    ensures WellFormed(SetCell(ws, row, col, v))
  {
  }
}
