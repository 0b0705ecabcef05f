# rippl grid encoding in Dafny

rippl meshes a geometry with Gmsh and shows the result with PyVista. The
PyVista manager (`rippl/pyvista.py`) turns the mesh record it is given into
the two integer arrays a VTK unstructured grid is built from:

- the **connectivity buffer**: for each element, the nodes-per-element count
  `K` followed by the element's `K` node indices, elements in order, all in
  one flat array;
- the **cell-type array**: one VTK cell-type number per element, chosen by a
  closed lookup on `K` (4 nodes: `VTK_QUAD` = 9; 8 nodes: `VTK_HEXAHEDRON` =
  12; anything else raises "Used cell type is not implemented!").

The model has three modules:

- `Wrappers` (`wrappers.dfy`): `Option` and `Result`, the latter standing for
  a call that returns or raises.
- `Vtk` (`vtk.dfy`): the VTK conventions the encoder targets, stated
  independently of it: the cell-type numbers of vtkCellType.h, the number of
  points of a quadrilateral and a hexahedron, VTK's count-prefixed cell array
  (`CellArray`) and a reader for it (`ReadCells`) that takes a leading count
  and then that many point ids, cell by cell. The reader and writer are proved
  inverse in both directions.
- `Pyvista` (`pyvista.dfy`): the mesh record `MeshData(elements,
  numNodesPerElement, numElements)` and the manager's two encoders,
  `Connectivity` and `CellTypeArray`, plus `ImportBuffers`, the pair of
  buffers `import_mesh` passes to the grid constructor.

The source checks neither that every element row has `K` entries nor that
`num_elements` equals the number of rows (the connectivity side sizes its
count column from the rows, the cell-type side uses `num_elements`). The
model does not invent those checks: `Connectivity` and `CellTypeArray` are
total, and the layout lemmas take `WellShaped` (every row has `K` entries)
and `CountsAgree` (`numElements == |elements|`) as preconditions. Without
`WellShaped` the buffer still carries `K`, not each row's own length, as its
prefix; `ConnectivityIsCellArray` shows that the two coincide exactly when
the rows are well shaped (`CellArrayIsCountPrefixed` is the converse half).

Only `K` = 4 and `K` = 8 are handled, and the encoder does not check row
lengths.

## Model

| member | source | states |
|---|---|---|
| Pyvista.CountPrefixed | rippl/pyvista.py:28-36 | stacking a constant column `k` beside rows that all have `k` entries and flattening gives `|rows| * (k + 1)` entries |
| Pyvista.Connectivity | rippl/pyvista.py:25-36 | for a well-shaped mesh the connectivity buffer has `M * (K + 1)` entries, `M` the number of element rows |
| Pyvista.CountPrefixedBlock | rippl/pyvista.py:28-36 | block `i` (entries `i*(k+1)` up to `(i+1)*(k+1)`) of the flattened buffer is `[k]` followed by row `i` |
| Pyvista.ConnectivityBlock | rippl/pyvista.py:28-36 | for every element `i`, position `i*(K+1)` holds `K` and position `i*(K+1)+1+j` holds node `j` of element `i`, for every `j < K` |
| Pyvista.CountPrefixedIsCellArray | rippl/pyvista.py:28-36 | prefixing every row with a `k` equal to its length yields VTK's cell array of the rows |
| Pyvista.CellArrayIsCountPrefixed | rippl/pyvista.py:28-36 | if prefixing every row with `k` gives VTK's cell array of the rows, every row has exactly `k` entries |
| Pyvista.ConnectivityIsCellArray | rippl/pyvista.py:25-36 | the connectivity buffer is the VTK count-prefixed cell array of the elements if and only if every row has `K` entries |
| Pyvista.ReadConnectivity | rippl/pyvista.py:25-36 | reading the connectivity buffer count by count recovers the element rows exactly, in order |
| Pyvista.SplitBlocks | rippl/pyvista.py:28-36 | cutting a buffer into blocks of `k + 1` and dropping each block's count gives rows of exactly `k` entries |
| Pyvista.SplitConnectivity | rippl/pyvista.py:28-36 | splitting the connectivity buffer into blocks of `K + 1` and dropping each block's first entry recovers `elements` exactly |
| Pyvista.CellTypeCode | rippl/pyvista.py:45-50 | the lookup succeeds exactly for `K` = 4 and `K` = 8, otherwise fails with the not-implemented error; a code returned is a VTK cell with exactly `K` points (4 gives 9, 8 gives 12) |
| Pyvista.CellTypeCodeExact | rippl/pyvista.py:42-48 | the lookup gives `code` for `K` exactly when VTK's cell `code` has `K` points, both directions |
| Pyvista.CellTypeArray | rippl/pyvista.py:38-52 | succeeds exactly when `K` is 4 or 8 and the element count is non-negative; an unsupported `K` gives the not-implemented error and no array; on success the array has `num_elements` entries, all equal to the one code for `K` |
| Pyvista.ImportBuffers | rippl/pyvista.py:54-59 | the grid's buffers exist exactly when `K` is 4 or 8 and the element count is non-negative; an unsupported `K` gives the not-implemented error, and every error is the cell-type array's; on success they are the connectivity buffer and the cell-type array |
| Pyvista.ImportedGridConsistent | rippl/pyvista.py:54-59 | for a well-shaped record with agreeing counts, a successful import gives a connectivity that reads back as the elements, one cell type per cell, and every cell has as many points as its type has |
| Pyvista.SingleQuadExample | rippl/pyvista.py:25-59 | one quadrilateral on nodes 0, 1, 2, 3 encodes as connectivity `[4, 0, 1, 2, 3]` and cell types `[9]` |
| Vtk.CellArray | rippl/pyvista.py:26 | VTK's cell array has one count entry plus the point ids for every cell |
| Vtk.ReadCells | rippl/pyvista.py:55-57 | a buffer the grid reader accepts has exactly one count entry plus the point ids for every cell it reads |
| Vtk.ReadCellArray | rippl/pyvista.py:55-57 | reading a written cell array gives back exactly the cells written |
| Vtk.ReadCellsIsCellArray | rippl/pyvista.py:55-57 | every buffer the reader accepts is the cell array of the cells it returns |

## Left out

- `Manager.__init__`, `__enter__`, `__exit__` (rippl/pyvista.py:13-23): they store the record and log section markers; logging (`rippl/log.py`) is I/O.
- `import_mesh` (rippl/pyvista.py:54-59): only the two buffers it computes, in its order, are modelled (`ImportBuffers`); the `pv.UnstructuredGrid` constructor and the `self.mesh` field it sets are a foreign library call.
- `show_mesh` (rippl/pyvista.py:61-65): interactive plotting.
- Node coordinates: floats passed to PyVista unchanged, with no arithmetic on them.
- Mesh extraction: the code that builds the mesh record (element-type checks, 1-based to 0-based renumbering) lies outside `rippl/pyvista.py`; the record is taken as given.
- `rippl/path.py` and `examples/rectangle/main.py`: directory creation, clocks and orchestration.
- Pyvista.Connectivity: numpy's own shape errors (a ragged or non-two-dimensional `elements`) are not modelled; the model's buffer is defined for any rows, and its layout is stated only for well-shaped ones.
- The 64-bit integer width of the numpy arrays is not modelled: the encoders copy indices and constants without arithmetic, so no value can wrap.
