/**
 * The grid encoding of rippl's PyVista manager: turning a homogeneous mesh
 * record into the connectivity buffer and the cell-type array that a VTK
 * unstructured grid is built from.
 */
module Pyvista {
  import opened Wrappers
  import Vtk

  /**
   * The mesh record handed to the manager: element rows of 0-based node
   * indices, the nodes-per-element count K and the element count. Node
   * coordinates are passed through untouched and are not part of the model.
   */
  datatype MeshData = MeshData(elements: seq<seq<int>>, numNodesPerElement: int, numElements: int)

  /** The errors the encoder can raise. */
  datatype Error =
    | CellTypeNotImplemented  // K is neither 4 nor 8
    | NegativeDimensions      // a negative element count given to the array constructor

  /** Every element row has exactly K node indices; the encoder assumes this without checking it. */
  predicate WellShaped(m: MeshData)
  {
    forall i :: 0 <= i < |m.elements| ==> |m.elements[i]| == m.numNodesPerElement
  }

  /** The stated element count agrees with the number of rows; also assumed, never checked. */
  predicate CountsAgree(m: MeshData)
  {
    m.numElements == |m.elements|
  }

  /** Each row preceded by the constant k, rows in order. */
  function CountPrefixed(rows: seq<seq<int>>, k: int): (buf: seq<int>)
    ensures (forall i :: 0 <= i < |rows| ==> |rows[i]| == k) ==> |buf| == |rows| * (k + 1)
  {
    if rows == [] then []
    else
      var tail := CountPrefixed(rows[1..], k);
      assert (forall i :: 0 <= i < |rows| ==> |rows[i]| == k) ==> |tail| == (|rows| - 1) * (k + 1);
      [k] + rows[0] + tail
  }

  /**
   * The connectivity buffer: a column holding K stacked beside the element
   * rows, flattened row by row.
   */
  function Connectivity(m: MeshData): (buf: seq<int>)
    ensures WellShaped(m) ==> |buf| == |m.elements| * (m.numNodesPerElement + 1)
  {
    CountPrefixed(m.elements, m.numNodesPerElement)
  }

  /** The offsets of block i among blocks of width w: it starts one block after block i-1 and ends inside n blocks. */
  lemma BlockOffsets(i: nat, n: nat, w: nat)
    requires i < n
    ensures (i + 1) * w == i * w + w
    ensures (i + 1) * w <= n * w
    ensures 0 < i ==> i * w == w + (i - 1) * w
  {
  }

  /** Block i of a uniform count-prefixed buffer is [k] followed by row i. */
  lemma {:induction false} CountPrefixedBlock(rows: seq<seq<int>>, k: nat, i: nat)
    requires forall r :: 0 <= r < |rows| ==> |rows[r]| == k
    requires i < |rows|
    ensures (i + 1) * (k + 1) <= |CountPrefixed(rows, k)|
    ensures CountPrefixed(rows, k)[i * (k + 1)..(i + 1) * (k + 1)] == [k] + rows[i]
  {
    var w := k + 1;
    var buf := CountPrefixed(rows, k);
    var tail := CountPrefixed(rows[1..], k);
    assert buf == ([k] + rows[0]) + tail;
    BlockOffsets(i, |rows|, w);
    if i == 0 {
      assert buf[..w] == [k] + rows[0];
    } else {
      CountPrefixedBlock(rows[1..], k, i - 1);
      var lo := (i - 1) * w;
      assert buf[w + lo..w + lo + w] == tail[lo..lo + w];
    }
  }

  /**
   * For every element i of a well-shaped mesh, position i*(K+1) holds K and
   * the K positions after it hold the element's node indices in order.
   */
  lemma ConnectivityBlock(m: MeshData, i: nat)
    requires WellShaped(m)
    requires i < |m.elements|
    ensures var k := m.numNodesPerElement;
      && Connectivity(m)[i * (k + 1)] == k
      && forall j :: 0 <= j < k ==> Connectivity(m)[i * (k + 1) + 1 + j] == m.elements[i][j]
  {
    var k := m.numNodesPerElement;
    assert k == |m.elements[i]|;
    CountPrefixedBlock(m.elements, k, i);
    BlockOffsets(i, |m.elements|, k + 1);
    BlockEntries(Connectivity(m), i * (k + 1), k, m.elements[i]);
  }

  /** A block [k] + row starting at lo holds k at lo and row[j] at lo + 1 + j. */
  lemma BlockEntries(buf: seq<int>, lo: nat, k: nat, row: seq<int>)
    requires |row| == k && lo + k + 1 <= |buf|
    requires buf[lo..lo + k + 1] == [k] + row
    ensures buf[lo] == k
    ensures forall j :: 0 <= j < k ==> buf[lo + 1 + j] == row[j]
  {
    var block := buf[lo..lo + k + 1];
    assert buf[lo] == block[0];
    forall j | 0 <= j < k
      ensures buf[lo + 1 + j] == row[j]
    {
      assert buf[lo + 1 + j] == block[1 + j];
    }
  }

  /** Rows prefixed by a uniform k that equals their length are the VTK cell array of those rows. */
  lemma {:induction false} CountPrefixedIsCellArray(rows: seq<seq<int>>, k: int)
    requires forall i :: 0 <= i < |rows| ==> |rows[i]| == k
    ensures CountPrefixed(rows, k) == Vtk.CellArray(rows)
  {
    if rows != [] {
      CountPrefixedIsCellArray(rows[1..], k);
    }
  }

  /** If prefixing every row with k gives the VTK cell array of the rows, every row has k entries. */
  lemma {:induction false} CellArrayIsCountPrefixed(rows: seq<seq<int>>, k: int)
    requires CountPrefixed(rows, k) == Vtk.CellArray(rows)
    ensures forall i :: 0 <= i < |rows| ==> |rows[i]| == k
  {
    if rows != [] {
      var buf := CountPrefixed(rows, k);
      assert buf == [k] + rows[0] + CountPrefixed(rows[1..], k);
      assert buf == [|rows[0]|] + rows[0] + Vtk.CellArray(rows[1..]);
      assert k == buf[0] == |rows[0]|;
      assert CountPrefixed(rows[1..], k) == buf[1 + k..] == Vtk.CellArray(rows[1..]);
      CellArrayIsCountPrefixed(rows[1..], k);
      forall i | 0 <= i < |rows|
        ensures |rows[i]| == k
      {
        if i > 0 { assert rows[i] == rows[1..][i - 1]; }
      }
    }
  }

  /**
   * The connectivity buffer is VTK's cell array of the elements exactly when
   * the mesh is well shaped: the constant prefix K matches every row's length.
   */
  lemma ConnectivityIsCellArray(m: MeshData)
    ensures WellShaped(m) <==> Connectivity(m) == Vtk.CellArray(m.elements)
  {
    if WellShaped(m) {
      CountPrefixedIsCellArray(m.elements, m.numNodesPerElement);
    }
    if Connectivity(m) == Vtk.CellArray(m.elements) {
      CellArrayIsCountPrefixed(m.elements, m.numNodesPerElement);
    }
  }

  /** A grid builder reading the connectivity buffer recovers the element rows exactly. */
  lemma ReadConnectivity(m: MeshData)
    requires WellShaped(m)
    ensures Vtk.ReadCells(Connectivity(m)) == Some(m.elements)
  {
    ConnectivityIsCellArray(m);
    Vtk.ReadCellArray(m.elements);
  }

  /** Cuts a buffer into consecutive blocks of k+1 and drops each block's first entry; a short remainder is ignored. */
  function SplitBlocks(buf: seq<int>, k: nat): (rows: seq<seq<int>>)
    ensures forall i :: 0 <= i < |rows| ==> |rows[i]| == k
    decreases |buf|
  {
    if |buf| < k + 1 then [] else [buf[1..k + 1]] + SplitBlocks(buf[k + 1..], k)
  }

  /** Cutting the connectivity buffer into blocks of K+1 and dropping the counts gives back the elements. */
  lemma {:induction false} SplitConnectivity(rows: seq<seq<int>>, k: nat)
    requires forall i :: 0 <= i < |rows| ==> |rows[i]| == k
    ensures SplitBlocks(Connectivity(MeshData(rows, k, |rows|)), k) == rows
  {
    if rows != [] {
      var buf := Connectivity(MeshData(rows, k, |rows|));
      var tail := Connectivity(MeshData(rows[1..], k, |rows| - 1));
      assert buf == [k] + rows[0] + tail;
      assert buf[1..k + 1] == rows[0];
      assert buf[k + 1..] == tail;
      SplitConnectivity(rows[1..], k);
      assert [rows[0]] + rows[1..] == rows;
    }
  }

  /**
   * The closed lookup from nodes per element to VTK cell type: 4 nodes is a
   * quadrilateral, 8 nodes a hexahedron, anything else is not implemented.
   * A code returned names a cell with exactly k points.
   */
  function CellTypeCode(k: int): (r: Result<int, Error>)
    ensures r.Success? <==> k == 4 || k == 8
    ensures r.Failure? ==> r.error == CellTypeNotImplemented
    ensures r.Success? ==> Vtk.PointsPerCell(r.value) == Some(k)
  {
    if k == 4 then Success(Vtk.VTK_QUAD)
    else if k == 8 then Success(Vtk.VTK_HEXAHEDRON)
    else Failure(CellTypeNotImplemented)
  }

  /** The lookup is the only VTK code naming a cell with k points among those modelled: it agrees with PointsPerCell both ways. */
  lemma CellTypeCodeExact(k: int, code: int)
    ensures CellTypeCode(k) == Success(code) <==> Vtk.PointsPerCell(code) == Some(k)
  {
  }

  /**
   * The cell-type array: the code for K repeated once per element, using the
   * stated element count. An unsupported K fails first; a negative count
   * fails when the array is allocated.
   */
  function CellTypeArray(m: MeshData): (r: Result<seq<int>, Error>)
    ensures r.Success? <==> (m.numNodesPerElement == 4 || m.numNodesPerElement == 8) && m.numElements >= 0
    ensures m.numNodesPerElement != 4 && m.numNodesPerElement != 8 ==> r == Failure(CellTypeNotImplemented)
    ensures r.Success? ==> |r.value| == m.numElements
    ensures r.Success? ==> forall i :: 0 <= i < |r.value| ==> r.value[i] == CellTypeCode(m.numNodesPerElement).value
  {
    match CellTypeCode(m.numNodesPerElement)
    case Failure(e) => Failure(e)
    case Success(code) =>
      if m.numElements < 0 then Failure(NegativeDimensions)
      else Success(seq(m.numElements, _ => code))
  }

  /**
   * The two buffers handed to the unstructured-grid constructor, connectivity
   * first, then cell types; a failing cell-type lookup stops the import before
   * the grid is built.
   */
  function ImportBuffers(m: MeshData): (r: Result<(seq<int>, seq<int>), Error>)
    ensures r.Success? <==> (m.numNodesPerElement == 4 || m.numNodesPerElement == 8) && m.numElements >= 0
    ensures m.numNodesPerElement != 4 && m.numNodesPerElement != 8 ==> r == Failure(CellTypeNotImplemented)
    ensures r.Failure? ==> r.error == CellTypeArray(m).error
    ensures r.Success? ==> r.value.0 == Connectivity(m) && r.value.1 == CellTypeArray(m).value
  {
    var connectivity := Connectivity(m);
    match CellTypeArray(m)
    case Failure(e) => Failure(e)
    case Success(types) => Success((connectivity, types))
  }

  /**
   * For a well-shaped record whose counts agree, a successful import yields a
   * consistent grid: the connectivity reads back as the elements, there is one
   * cell type per cell, and each cell has as many points as its type demands.
   */
  lemma ImportedGridConsistent(m: MeshData)
    requires WellShaped(m) && CountsAgree(m)
    requires ImportBuffers(m).Success?
    ensures var (connectivity, types) := ImportBuffers(m).value;
      && Vtk.ReadCells(connectivity) == Some(m.elements)
      && |types| == |m.elements|
      && forall i :: 0 <= i < |types| ==> Vtk.PointsPerCell(types[i]) == Some(|m.elements[i]|)
  {
    ReadConnectivity(m);
  }

  /** One quadrilateral on nodes 0..3 encodes as [4, 0, 1, 2, 3] with cell type 9. */
  lemma SingleQuadExample()
    ensures var m := MeshData([[0, 1, 2, 3]], 4, 1);
      ImportBuffers(m) == Success(([4, 0, 1, 2, 3], [9]))
  {
    var m := MeshData([[0, 1, 2, 3]], 4, 1);
    assert m.elements[1..] == [];
    assert Connectivity(m) == [4] + [0, 1, 2, 3] + [];
    assert CellTypeArray(m).value == [9];
    assert CellTypeArray(m) == Success([9]);
    assert Connectivity(m) == [4, 0, 1, 2, 3];
    assert ImportBuffers(m) == Success((Connectivity(m), [9]));
  }
}
