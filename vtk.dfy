/**
 * The parts of VTK's unstructured-grid conventions that the mesh encoder
 * targets: the cell-type numbers of vtkCellType.h for the two linear cells
 * used, the number of points each of those cells has, and the
 * count-prefixed "cell array" layout together with a reader for it.
 * These definitions are independent of the encoder and serve as its
 * reference.
 */
module Vtk {
  import opened Wrappers

  /** Cell-type numbers, as enumerated in vtkCellType.h. */
  const VTK_QUAD: int := 9
  const VTK_HEXAHEDRON: int := 12

  /** Points of a cell of the given type: a quadrilateral has 4, a hexahedron 8. */
  function PointsPerCell(cellType: int): Option<nat>
  {
    if cellType == VTK_QUAD then Some(4)
    else if cellType == VTK_HEXAHEDRON then Some(8)
    else None
  }

  /** Sum over the cells of (point count + 1): the length of their cell array. */
  function CellArraySize(cells: seq<seq<int>>): nat
  {
    if cells == [] then 0 else |cells[0]| + 1 + CellArraySize(cells[1..])
  }

  /**
   * The cell array of a list of cells: each cell is written as its own point
   * count followed by its point ids, cells in order.
   */
  function CellArray(cells: seq<seq<int>>): (buf: seq<int>)
    ensures |buf| == CellArraySize(cells)
  {
    if cells == [] then [] else [|cells[0]|] + cells[0] + CellArray(cells[1..])
  }

  /**
   * Reads a cell array the way a grid builder does: take the leading count n,
   * then the next n ids as one cell, and repeat until the buffer is used up.
   * A negative count or a count that runs past the end makes the buffer
   * unreadable.
   */
  function ReadCells(buf: seq<int>): (r: Option<seq<seq<int>>>)
    ensures r.Some? ==> CellArraySize(r.value) == |buf|
    decreases |buf|
  {
    if buf == [] then Some([])
    else
      var n := buf[0];
      if n < 0 || |buf| - 1 < n then None
      else
        match ReadCells(buf[1 + n..])
        case None => None
        case Some(rest) => Some([buf[1..1 + n]] + rest)
  }

  /** Reading a written cell array gives back exactly the cells written. */
  lemma {:induction false} ReadCellArray(cells: seq<seq<int>>)
    ensures ReadCells(CellArray(cells)) == Some(cells)
  {
    if cells != [] {
      var c := cells[0];
      var buf := CellArray(cells);
      assert buf == [|c|] + c + CellArray(cells[1..]);
      assert buf[0] == |c|;
      assert buf[1..1 + |c|] == c;
      assert buf[1 + |c|..] == CellArray(cells[1..]);
      ReadCellArray(cells[1..]);
      assert [c] + cells[1..] == cells;
    }
  }

  /** Whatever the reader accepts is the cell array of the cells it returns. */
  lemma {:induction false} ReadCellsIsCellArray(buf: seq<int>)
    requires ReadCells(buf).Some?
    ensures CellArray(ReadCells(buf).value) == buf
    decreases |buf|
  {
    if buf != [] {
      var n := buf[0];
      ReadCellsIsCellArray(buf[1 + n..]);
      var cells := ReadCells(buf).value;
      assert cells[0] == buf[1..1 + n];
      assert cells[1..] == ReadCells(buf[1 + n..]).value;
      assert buf == [n] + buf[1..1 + n] + buf[1 + n..];
    }
  }
}
