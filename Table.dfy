/**
 * The extracted table as the panel receives it from the store: a flat list of
 * cells, and header and data rows given as lists of indices into that list.
 */
module Table {

  /** One extracted cell: its identifier, its bounding box, the page it was found on and its text. */
  datatype Cell = Cell(id: int, bbox: (int, int, int, int), pageNumber: int, value: string)

  /** The `tablefields` record: header rows, data rows and the cells they index. */
  datatype TableData = TableData(headers: seq<seq<int>>, data: seq<seq<int>>, cells: seq<Cell>)

  /** `cells[i]` is a cell; every other index reads `undefined`. */
  predicate Refers(cells: seq<Cell>, i: int)
  {
    0 <= i < |cells|
  }

  /** How many indices of `row` denote a cell. */
  function CountRefs(cells: seq<Cell>, row: seq<int>): (n: nat)
    ensures n <= |row|
  {
    if row == [] then 0
    else CountRefs(cells, row[..|row| - 1]) + (if Refers(cells, row[|row| - 1]) then 1 else 0)
  }
}
