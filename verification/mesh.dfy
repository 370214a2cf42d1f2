/** The 2D mesh generator (`generate` in src/generate_mesh.py): four ports
    per tile and a link each way between every pair of vertically or
    horizontally adjacent tiles. */
module Mesh {
  import opened Wrappers
  import opened Coarse
  import opened Topology

  /** The links appended for tile (r, c): down to the next row, then right
      to the next column, each in both directions. */
  function Cell(rows: nat, cols: nat, r: int, c: int): seq<Request> {
    (if r < rows - 1 then [Link(r, c, 0, r + 1, c, 2), Link(r + 1, c, 2, r, c, 0)] else [])
      + (if c < cols - 1 then [Link(r, c, 1, r, c + 1, 3), Link(r, c + 1, 3, r, c, 1)] else [])
  }

  function Row(rows: nat, cols: nat, r: int): seq<Request> {
    Flat(seq(cols, c => Cell(rows, cols, r, c)))
  }

  /** The connection list, tile by tile in row-major order. */
  function Links(rows: nat, cols: nat): seq<Request> {
    Flat(seq(rows, r => Row(rows, cols, r)))
  }

  /** The tile's ports and the connection list. */
  function Generate(rows: nat, cols: nat): (n: Net)
    ensures n.ports == MeshPorts && |n.ports.ms| == 4 && |n.ports.ss| == 4
    ensures n.conns == Links(rows, cols)
  {
    Net(MeshPorts, Links(rows, cols))
  }

  lemma RowMembers(rows: nat, cols: nat, r: int)
    ensures forall q :: q in Row(rows, cols, r) <==> exists c :: 0 <= c < cols && q in Cell(rows, cols, r, c)
  {
    var cs := seq(cols, c => Cell(rows, cols, r, c));
    FlatMembers(cs);
    assert forall c :: 0 <= c < cols ==> cs[c] == Cell(rows, cols, r, c);
  }

  /** A vertical link between (r, c) and (r+1, c) on ports 0 and 2. */
  predicate Vertical(rows: nat, cols: nat, q: Request) {
    && 0 <= q.m.col < cols && q.s.col == q.m.col
    && ((q.m.port == 0 && q.s.port == 2 && q.s.row == q.m.row + 1 && 0 <= q.m.row && q.s.row < rows)
        || (q.m.port == 2 && q.s.port == 0 && q.s.row == q.m.row - 1 && 0 <= q.s.row && q.m.row < rows))
  }

  /** A horizontal link between (r, c) and (r, c+1) on ports 1 and 3. */
  predicate Horizontal(rows: nat, cols: nat, q: Request) {
    && 0 <= q.m.row < rows && q.s.row == q.m.row
    && ((q.m.port == 1 && q.s.port == 3 && q.s.col == q.m.col + 1 && 0 <= q.m.col && q.s.col < cols)
        || (q.m.port == 3 && q.s.port == 1 && q.s.col == q.m.col - 1 && 0 <= q.s.col && q.m.col < cols))
  }

  /** The mesh has exactly the links between neighbouring tiles, in both
      directions, on the ports that face each other. */
  lemma MeshLinks(rows: nat, cols: nat)
    ensures forall q :: q in Links(rows, cols) <==> Vertical(rows, cols, q) || Horizontal(rows, cols, q)
  {
    var rs := seq(rows, r => Row(rows, cols, r));
    FlatMembers(rs);
    forall r | 0 <= r < rows {
      RowMembers(rows, cols, r);
    }
    forall q | Vertical(rows, cols, q) || Horizontal(rows, cols, q) ensures q in Links(rows, cols) {
      var r := if q.m.port == 2 then q.m.row - 1 else q.m.row;
      var c := if q.m.port == 3 then q.m.col - 1 else q.m.col;
      assert q in Cell(rows, cols, r, c);
      assert q in rs[r];
    }
  }

  function RowKey(e: End): int { if e.port == 2 then e.row - 1 else e.row }
  function ColKey(e: End): int { if e.port == 3 then e.col - 1 else e.col }

  /** Within row `r` no end repeats, and every end names row `r`. */
  lemma RowUnshared(rows: nat, cols: nat, r: int)
    ensures Unshared(Row(rows, cols, r))
    ensures forall q :: q in Row(rows, cols, r) ==> RowKey(q.m) == r && RowKey(q.s) == r
  {
    RowNoRepeat(rows, cols, r);
    RowKeys(rows, cols, r);
  }

  lemma RowNoRepeat(rows: nat, cols: nat, r: int)
    ensures Unshared(Row(rows, cols, r))
  {
    CellsKeyed(rows, cols, r);
    FlatUnshared(seq(cols, c => Cell(rows, cols, r, c)), ColKey, ColKey);
  }

  lemma RowKeys(rows: nat, cols: nat, r: int)
    ensures forall q :: q in Row(rows, cols, r) ==> RowKey(q.m) == r && RowKey(q.s) == r
  {
    RowMembers(rows, cols, r);
  }

  /** The ends of the links of tile (r, c) name column `c`. */
  lemma CellsKeyed(rows: nat, cols: nat, r: int)
    ensures Keyed(seq(cols, c => Cell(rows, cols, r, c)), ColKey, ColKey)
    ensures forall c :: 0 <= c < cols ==> Unshared(Cell(rows, cols, r, c))
  {
  }

  /** No master end and no slave end repeats, so `validate_connections`
      accepts the mesh. */
  lemma MeshUnshared(rows: nat, cols: nat)
    ensures Unshared(Links(rows, cols))
    ensures ValidateConnections(Links(rows, cols)) == Pass
  {
    var rs := seq(rows, r => Row(rows, cols, r));
    forall r | 0 <= r < rows {
      RowUnshared(rows, cols, r);
    }
    assert Keyed(rs, RowKey, RowKey) by {
      forall i, k | 0 <= i < |rs| && 0 <= k < |rs[i]| ensures RowKey(rs[i][k].m) == i && RowKey(rs[i][k].s) == i {
        RowUnshared(rows, cols, i);
        assert rs[i][k] in Row(rows, cols, i);
      }
    }
    FlatUnshared(rs, RowKey, RowKey);
  }

  /** Every pair of vertical neighbours gives two links and so does every
      pair of horizontal neighbours. */
  lemma MeshCount(rows: nat, cols: nat)
    requires rows >= 1 && cols >= 1
    ensures |Links(rows, cols)| == 2 * cols * (rows - 1) + 2 * rows * (cols - 1)
  {
    var rs := seq(rows, r => Row(rows, cols, r));
    forall r | 0 <= r < rows ensures |rs[r]| == 2 * (cols - 1) + (if r < rows - 1 then 2 * cols else 0) {
      RowCount(rows, cols, r);
    }
    FlatAllButLast(rs, 2 * (cols - 1), 2 * cols);
    assert rows * (2 * (cols - 1)) == 2 * rows * (cols - 1);
    assert (rows - 1) * (2 * cols) == 2 * cols * (rows - 1);
  }

  lemma RowCount(rows: nat, cols: nat, r: int)
    requires cols >= 1
    ensures |Row(rows, cols, r)| == 2 * (cols - 1) + (if r < rows - 1 then 2 * cols else 0)
  {
    var d := if r < rows - 1 then 2 else 0;
    FlatAllButLast(seq(cols, c => Cell(rows, cols, r, c)), d, 2);
    assert cols * d + (cols - 1) * 2 == 2 * (cols - 1) + (if r < rows - 1 then 2 * cols else 0);
  }

  /** A 2 x 2 array has eight mesh links. */
  lemma MeshTwoByTwo()
    ensures |Links(2, 2)| == 8
  {
    MeshCount(2, 2);
  }
}
