/** The 2D torus generator (`generate` in src/generate_torus.py): the
    mesh ports, and from every tile a link to the next row and the next
    column with wrap-around, plus the links back when bidirectional. */
module Torus {
  import opened Wrappers
  import opened Coarse
  import opened Topology

  /** The links appended for tile (r, c). */
  function Cell(rows: nat, cols: nat, bidir: bool, r: int, c: int): seq<Request>
    requires rows > 0 && cols > 0
  {
    [Link(r, c, 0, (r + 1) % rows, c, 2), Link(r, c, 1, r, (c + 1) % cols, 3)]
      + (if bidir then [Link(r, c, 2, (r - 1) % rows, c, 0), Link(r, c, 3, r, (c - 1) % cols, 1)] else [])
  }

  function Row(rows: nat, cols: nat, bidir: bool, r: int): seq<Request>
    requires rows > 0
  {
    Flat(seq(cols, c requires 0 <= c < cols => Cell(rows, cols, bidir, r, c)))
  }

  function Links(rows: nat, cols: nat, bidir: bool): seq<Request> {
    Flat(seq(rows, r requires 0 <= r < rows => Row(rows, cols, bidir, r)))
  }

  /** `config` is `[bidirectional]`; an empty config is fatal. */
  function Generate(rows: nat, cols: nat, config: seq<bool>): (r: Result<Net>)
    ensures r.Ok? <==> |config| >= 1
    ensures r.Ok? ==> r.value == Net(MeshPorts, Links(rows, cols, config[0]))
  {
    if |config| < 1 then Err("Config format: [<bidirectional>]")
    else Ok(Net(MeshPorts, Links(rows, cols, config[0])))
  }

  lemma RowMembers(rows: nat, cols: nat, bidir: bool, r: int)
    requires rows > 0
    ensures forall q :: q in Row(rows, cols, bidir, r) <==> exists c :: 0 <= c < cols && q in Cell(rows, cols, bidir, r, c)
  {
    var cs: seq<seq<Request>> := seq(cols, c requires 0 <= c < cols => Cell(rows, cols, bidir, r, c));
    FlatMembers(cs);
    assert forall c :: 0 <= c < cols ==> cs[c] == Cell(rows, cols, bidir, r, c);
  }

  lemma LinksMembers(rows: nat, cols: nat, bidir: bool)
    ensures forall q :: q in Links(rows, cols, bidir) <==>
              exists r, c :: 0 <= r < rows && 0 <= c < cols && q in Cell(rows, cols, bidir, r, c)
  {
    var rs: seq<seq<Request>> := seq(rows, r requires 0 <= r < rows => Row(rows, cols, bidir, r));
    FlatMembers(rs);
    assert forall r :: 0 <= r < rows ==> rs[r] == Row(rows, cols, bidir, r);
    forall r | 0 <= r < rows {
      RowMembers(rows, cols, bidir, r);
    }
    forall q | q in Links(rows, cols, bidir)
      ensures exists r, c :: 0 <= r < rows && 0 <= c < cols && q in Cell(rows, cols, bidir, r, c)
    {
      var r :| 0 <= r < rows && q in rs[r];
      var c :| 0 <= c < cols && q in Cell(rows, cols, bidir, r, c);
    }
    forall q, r, c | 0 <= r < rows && 0 <= c < cols && q in Cell(rows, cols, bidir, r, c)
      ensures q in Links(rows, cols, bidir)
    {
      assert q in rs[r];
    }
  }

  /** Every tile links forward to the next row on ports 0 to 2 and to the
      next column on ports 1 to 3, wrapping around; the backward links on
      ports 2 to 0 and 3 to 1 are there exactly when bidirectional. */
  lemma TorusLinks(rows: nat, cols: nat, bidir: bool, r: int, c: int)
    requires 0 <= r < rows && 0 <= c < cols
    ensures Link(r, c, 0, (r + 1) % rows, c, 2) in Links(rows, cols, bidir)
    ensures Link(r, c, 1, r, (c + 1) % cols, 3) in Links(rows, cols, bidir)
    ensures Link(r, c, 2, (r - 1) % rows, c, 0) in Links(rows, cols, bidir) <==> bidir
    ensures Link(r, c, 3, r, (c - 1) % cols, 1) in Links(rows, cols, bidir) <==> bidir
  {
    LinksMembers(rows, cols, bidir);
    assert Link(r, c, 0, (r + 1) % rows, c, 2) in Cell(rows, cols, bidir, r, c);
    assert Link(r, c, 1, r, (c + 1) % cols, 3) in Cell(rows, cols, bidir, r, c);
    if bidir {
      assert Link(r, c, 2, (r - 1) % rows, c, 0) in Cell(rows, cols, bidir, r, c);
      assert Link(r, c, 3, r, (c - 1) % cols, 1) in Cell(rows, cols, bidir, r, c);
    }
  }

  /** Every end lies on a tile of the array and uses a mesh port. */
  lemma TorusInRange(rows: nat, cols: nat, bidir: bool)
    ensures forall q :: q in Links(rows, cols, bidir) ==> OnArray(rows, cols, q.m) && OnArray(rows, cols, q.s)
  {
    LinksMembers(rows, cols, bidir);
    forall q | q in Links(rows, cols, bidir) ensures OnArray(rows, cols, q.m) && OnArray(rows, cols, q.s) {
      var r, c :| 0 <= r < rows && 0 <= c < cols && q in Cell(rows, cols, bidir, r, c);
      CellInRange(rows, cols, bidir, r, c);
    }
  }

  lemma CellInRange(rows: nat, cols: nat, bidir: bool, r: int, c: int)
    requires 0 <= r < rows && 0 <= c < cols
    ensures forall q :: q in Cell(rows, cols, bidir, r, c) ==> OnArray(rows, cols, q.m) && OnArray(rows, cols, q.s)
  {
    assert 0 <= (r + 1) % rows < rows && 0 <= (r - 1) % rows < rows;
    assert 0 <= (c + 1) % cols < cols && 0 <= (c - 1) % cols < cols;
  }

  predicate OnArray(rows: nat, cols: nat, e: End) {
    0 <= e.row < rows && 0 <= e.col < cols && 0 <= e.port < 4
  }

  /** Two links per tile, four when bidirectional. */
  lemma TorusCount(rows: nat, cols: nat, bidir: bool)
    ensures |Links(rows, cols, bidir)| == (if bidir then 4 else 2) * rows * cols
  {
    var n := if bidir then 4 else 2;
    var rs: seq<seq<Request>> := seq(rows, r requires 0 <= r < rows => Row(rows, cols, bidir, r));
    forall r | 0 <= r < rows ensures |rs[r]| == cols * n {
      RowCount(rows, cols, bidir, r);
    }
    FlatUniform(rs, cols * n);
    Reorder(rows, cols, n);
  }

  lemma Reorder(a: int, b: int, c: int)
    ensures a * (b * c) == c * a * b
  {
  }

  lemma RowCount(rows: nat, cols: nat, bidir: bool, r: int)
    requires rows > 0
    ensures |Row(rows, cols, bidir, r)| == cols * (if bidir then 4 else 2)
  {
    FlatUniform(seq(cols, c requires 0 <= c < cols => Cell(rows, cols, bidir, r, c)), if bidir then 4 else 2);
  }

  /** Stepping forward then back on a ring of `n` returns to the start. */
  lemma Wrap(x: int, n: nat)
    requires 0 <= x < n
    ensures ((x + 1) % n - 1) % n == x && ((x - 1) % n + 1) % n == x
  {
    if x + 1 == n {
      assert (x + 1) % n == 0;
    } else {
      assert (x + 1) % n == x + 1;
    }
    if x == 0 {
      assert (x - 1) % n == n - 1;
    } else {
      assert (x - 1) % n == x - 1;
    }
  }

  /** The tile row whose loop iteration made a link with this end. */
  function MasterRowKey(e: End): int { e.row }
  function MasterColKey(e: End): int { e.col }

  function SlaveRowKey(rows: nat, e: End): int {
    if rows == 0 then e.row
    else if e.port == 2 then (e.row - 1) % rows else if e.port == 0 then (e.row + 1) % rows else e.row
  }

  function SlaveColKey(cols: nat, e: End): int {
    if cols == 0 then e.col
    else if e.port == 3 then (e.col - 1) % cols else if e.port == 1 then (e.col + 1) % cols else e.col
  }

  lemma CellKeys(rows: nat, cols: nat, bidir: bool, r: int, c: int, q: Request)
    requires 0 <= r < rows && 0 <= c < cols && q in Cell(rows, cols, bidir, r, c)
    ensures MasterRowKey(q.m) == r && SlaveRowKey(rows, q.s) == r
    ensures MasterColKey(q.m) == c && SlaveColKey(cols, q.s) == c
  {
    Wrap(r, rows);
    Wrap(c, cols);
  }

  lemma RowUnshared(rows: nat, cols: nat, bidir: bool, r: int)
    requires 0 <= r < rows && cols > 0
    ensures Unshared(Row(rows, cols, bidir, r))
    ensures forall q :: q in Row(rows, cols, bidir, r) ==> MasterRowKey(q.m) == r && SlaveRowKey(rows, q.s) == r
  {
    var cs: seq<seq<Request>> := seq(cols, c requires 0 <= c < cols => Cell(rows, cols, bidir, r, c));
    var sk := (e: End) => SlaveColKey(cols, e);
    forall c, k | 0 <= c < cols && 0 <= k < |cs[c]| ensures MasterColKey(cs[c][k].m) == c && sk(cs[c][k].s) == c {
      CellKeys(rows, cols, bidir, r, c, cs[c][k]);
    }
    FlatUnshared(cs, MasterColKey, sk);
    RowMembers(rows, cols, bidir, r);
    forall q | q in Row(rows, cols, bidir, r) ensures MasterRowKey(q.m) == r && SlaveRowKey(rows, q.s) == r {
      var c :| 0 <= c < cols && q in Cell(rows, cols, bidir, r, c);
      CellKeys(rows, cols, bidir, r, c, q);
    }
  }

  /** No master end and no slave end repeats, so `validate_connections`
      accepts the torus. */
  lemma TorusUnshared(rows: nat, cols: nat, bidir: bool)
    ensures Unshared(Links(rows, cols, bidir))
  {
    if rows == 0 || cols == 0 {
      TorusCount(rows, cols, bidir);
      return;
    }
    var rs: seq<seq<Request>> := seq(rows, r requires 0 <= r < rows => Row(rows, cols, bidir, r));
    var sk := (e: End) => SlaveRowKey(rows, e);
    forall r, k | 0 <= r < rows && 0 <= k < |rs[r]| ensures MasterRowKey(rs[r][k].m) == r && sk(rs[r][k].s) == r {
      RowUnshared(rows, cols, bidir, r);
      assert rs[r][k] in Row(rows, cols, bidir, r);
    }
    forall r | 0 <= r < rows ensures Unshared(rs[r]) {
      RowUnshared(rows, cols, bidir, r);
    }
    FlatUnshared(rs, MasterRowKey, sk);
  }
}
