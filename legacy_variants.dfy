/** The first data-sheet reader (src/variants.rs): a cell looked up by name
    with debug over variant over default priority, where only a truly
    empty cell is passed over. */
module LegacyVariants {
  import opened Common
  import opened Errors
  import opened Workbook
  import Variant

  predicate IsEmptyCell(c: Cell) { c.Empty? }

  /** `retrieve_cell_data` */
  function RetrieveCellData(ds: DataSheet, name: string): (r: Result<Cell, NvmError>)
    ensures name !in ds.names ==> r == Err(RetrievalError("index not found for " + name))
    ensures r.Ok? <==> Select(ds, name, IsEmptyCell).Some?
    ensures r.Ok? ==> r.value == Select(ds, name, IsEmptyCell).value && !r.value.Empty?
    ensures name in ds.names && r.Err? ==> r.error == RetrievalError("data not found for " + name)
  {
    if name !in ds.names then Err(RetrievalError("index not found for " + name))
    else
      match Select(ds, name, IsEmptyCell)
      case Some(c) => Ok(c)
      case None => Err(RetrievalError("data not found for " + name))
  }

  /** The debug cell wins whenever it is present and not empty, whatever the
      other columns hold. */
  lemma DebugCellWins(ds: DataSheet, name: string, i: nat)
    requires FirstIndex(ds.names, name) == Some(i)
    requires ds.debugs.Some? && i < |ds.debugs.value| && !ds.debugs.value[i].Empty?
    ensures RetrieveCellData(ds, name) == Ok(ds.debugs.value[i])
  {
  }

  /** A cell of only spaces counts as a value here, while the later reader
      (src/variant/mod.rs) passes over it: with such a debug cell and a
      default of 7, the two readers return different cells. */
  lemma WhitespaceCellIsAValueHere()
    ensures var ds := DataSheet(["x"], [Int(7)], Some([Text(" ")]), None, map[]);
      && RetrieveCellData(ds, "x") == Ok(Text(" "))
      && Variant.RetrieveCell(ds, "x") == Ok(Int(7))
  {
    var ds := DataSheet(["x"], [Int(7)], Some([Text(" ")]), None, map[]);
    assert FirstIndex(ds.names, "x") == Some(0);
    assert AllWhitespace(" ") by { assert IsWhitespace(' '); }
  }
}
