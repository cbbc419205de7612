/** `ExcelFile`: a file offered for selection, whose `IsSelected` setter
    notifies only on a real change. */
module ExcelFiles {
  import opened Wrappers

  datatype ExcelFile = ExcelFile(fileName: string, filePath: string, isSelected: bool)

  /** The `IsSelected` setter. */
  function SetIsSelected(f: ExcelFile, v: bool): (r: (ExcelFile, Notifications))
    ensures r.0.isSelected == v
    ensures r.0.fileName == f.fileName && r.0.filePath == f.filePath
    ensures f.isSelected == v ==> r.0 == f && r.1 == []
    ensures f.isSelected != v ==> r.1 == ["IsSelected"]
  {
    if f.isSelected != v then (f.(isSelected := v), ["IsSelected"]) else (f, [])
  }

  /** Setting the same value twice in a row raises at most one notification,
      and none the second time. */
  lemma SetIsSelectedTwice(f: ExcelFile, v: bool)
    ensures var (f1, n1) := SetIsSelected(f, v);
            var (f2, n2) := SetIsSelected(f1, v);
            f2 == f1 && n2 == [] && |n1| + |n2| <= 1
  {
  }
}
