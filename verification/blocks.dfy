/** What a built tile and a composed module have in common: a grid, the
    bounding boxes of the tiles inside it, its routed paths, its ports and
    PHYs with their label <-> location tables, and its logical graph.
    Also the mirror transform, which both classes implement the same way. */
module Blocks {
  import opened Wrappers
  import opened Cells

  datatype Port = Port(lab: Label, loc: Loc)
  datatype PhyPort = PhyPort(lab: Label, loc: Loc, dir: string)
  /** A tile's anchor (lower-left cell) and its extent in rows and columns. */
  datatype Box = Box(loc: Loc, height: int, width: int)
  datatype Edge = Edge(src: Label, dst: Label)

  /** The pair of dictionaries `*_loc_to_lab` and `*_lab_to_loc`. */
  datatype Tables = Tables(locToLab: map<Loc, Label>, labToLoc: map<Label, Loc>)

  datatype Block = Block(
    nRows: nat, nCols: nat, grid: Grid,
    tiles: seq<Box>, paths: seq<seq<Loc>>,
    masters: seq<Port>, slaves: seq<Port>, phys: seq<PhyPort>,
    mTab: Tables, sTab: Tables, pTab: Tables,
    vertices: seq<Label>, edges: seq<Edge>, delays: map<Edge, int>)

  function PhyAsPorts(ps: seq<PhyPort>): (r: seq<Port>)
    ensures |r| == |ps| && forall k :: 0 <= k < |ps| ==> r[k] == Port(ps[k].lab, ps[k].loc)
  {
    seq(|ps|, k requires 0 <= k < |ps| => Port(ps[k].lab, ps[k].loc))
  }

  function Labels(ps: seq<Port>): (r: seq<Label>)
    ensures |r| == |ps| && forall k :: 0 <= k < |ps| ==> r[k] == ps[k].lab
  {
    seq(|ps|, k requires 0 <= k < |ps| => ps[k].lab)
  }

  function Locs(ps: seq<Port>): (r: seq<Loc>)
    ensures |r| == |ps| && forall k :: 0 <= k < |ps| ==> r[k] == ps[k].loc
  {
    seq(|ps|, k requires 0 <= k < |ps| => ps[k].loc)
  }

  /** Both dictionaries filled by walking the ports in order, so that a
      later port overwrites an earlier one with the same key. */
  function TablesOf(ps: seq<Port>): Tables
  {
    if |ps| == 0 then Tables(map[], map[])
    else
      var t := TablesOf(ps[..|ps| - 1]);
      var p := ps[|ps| - 1];
      Tables(t.locToLab[p.loc := p.lab], t.labToLoc[p.lab := p.loc])
  }

  /** A location is a key of `loc_to_lab` iff some port sits there. */
  lemma {:induction false} LocKeys(ps: seq<Port>, l: Loc)
    ensures l in TablesOf(ps).locToLab <==> exists k :: 0 <= k < |ps| && ps[k].loc == l
  {
    if |ps| > 0 {
      var init := ps[..|ps| - 1];
      LocKeys(init, l);
      if l in TablesOf(init).locToLab {
        var k :| 0 <= k < |init| && init[k].loc == l;
        assert ps[k].loc == l;
      }
    }
  }

  /** A label is a key of `lab_to_loc` iff some port carries it. */
  lemma {:induction false} LabKeys(ps: seq<Port>, x: Label)
    ensures x in TablesOf(ps).labToLoc <==> exists k :: 0 <= k < |ps| && ps[k].lab == x
  {
    if |ps| > 0 {
      var init := ps[..|ps| - 1];
      LabKeys(init, x);
      if x in TablesOf(init).labToLoc {
        var k :| 0 <= k < |init| && init[k].lab == x;
        assert ps[k].lab == x;
      }
    }
  }

  /** A location maps to the label of the LAST port sitting there. */
  lemma {:induction false} LocLookup(ps: seq<Port>, k: nat)
    requires k < |ps|
    requires forall j :: k < j < |ps| ==> ps[j].loc != ps[k].loc
    ensures ps[k].loc in TablesOf(ps).locToLab && TablesOf(ps).locToLab[ps[k].loc] == ps[k].lab
  {
    if k < |ps| - 1 {
      var init := ps[..|ps| - 1];
      LocLookup(init, k);
    }
  }

  /** A label maps to the location of the LAST port carrying it. */
  lemma {:induction false} LabLookup(ps: seq<Port>, k: nat)
    requires k < |ps|
    requires forall j :: k < j < |ps| ==> ps[j].lab != ps[k].lab
    ensures ps[k].lab in TablesOf(ps).labToLoc && TablesOf(ps).labToLoc[ps[k].lab] == ps[k].loc
  {
    if k < |ps| - 1 {
      var init := ps[..|ps| - 1];
      LabLookup(init, k);
    }
  }

  /** No two ports share a location. */
  predicate UniqueLocs(ps: seq<Port>) {
    forall i, j :: 0 <= i < j < |ps| ==> ps[i].loc != ps[j].loc
  }

  /** No two ports share a label. */
  predicate UniqueLabs(ps: seq<Port>) {
    forall i, j :: 0 <= i < j < |ps| ==> ps[i].lab != ps[j].lab
  }

  lemma InverseAt(ps: seq<Port>, k: nat)
    requires UniqueLabs(ps) && UniqueLocs(ps) && k < |ps|
    ensures ps[k].lab in TablesOf(ps).labToLoc && TablesOf(ps).labToLoc[ps[k].lab] == ps[k].loc
    ensures ps[k].loc in TablesOf(ps).locToLab && TablesOf(ps).locToLab[ps[k].loc] == ps[k].lab
  {
    LocLookup(ps, k);
    LabLookup(ps, k);
  }

  /** With pairwise distinct labels and pairwise distinct locations the two
      dictionaries are inverse to each other on exactly the ports' entries. */
  lemma TablesAreInverse(ps: seq<Port>)
    requires UniqueLabs(ps) && UniqueLocs(ps)
    ensures forall k :: 0 <= k < |ps| ==>
              ps[k].lab in TablesOf(ps).labToLoc && TablesOf(ps).labToLoc[ps[k].lab] == ps[k].loc
              && ps[k].loc in TablesOf(ps).locToLab && TablesOf(ps).locToLab[ps[k].loc] == ps[k].lab
    ensures forall l :: l in TablesOf(ps).locToLab ==>
              TablesOf(ps).locToLab[l] in TablesOf(ps).labToLoc
              && TablesOf(ps).labToLoc[TablesOf(ps).locToLab[l]] == l
  {
    forall k | 0 <= k < |ps|
      ensures ps[k].lab in TablesOf(ps).labToLoc && TablesOf(ps).labToLoc[ps[k].lab] == ps[k].loc
      ensures ps[k].loc in TablesOf(ps).locToLab && TablesOf(ps).locToLab[ps[k].loc] == ps[k].lab
    {
      InverseAt(ps, k);
    }
    forall l | l in TablesOf(ps).locToLab
      ensures TablesOf(ps).locToLab[l] in TablesOf(ps).labToLoc
      ensures TablesOf(ps).labToLoc[TablesOf(ps).locToLab[l]] == l
    {
      LocKeys(ps, l);
      var k :| 0 <= k < |ps| && ps[k].loc == l;
    }
  }

  /** The tables a block carries are the ones its port lists induce. */
  predicate TablesConsistent(b: Block) {
    && b.mTab == TablesOf(b.masters)
    && b.sTab == TablesOf(b.slaves)
    && b.pTab == TablesOf(PhyAsPorts(b.phys))
  }

  // ---------------------------------------------------------------- mirror

  function Flip(x: int, n: int, on: bool): int {
    if on then n - 1 - x else x
  }

  function MirrorLoc(l: Loc, rows: int, cols: int, xm: bool, ym: bool): Loc {
    (Flip(l.0, rows, xm), Flip(l.1, cols, ym))
  }

  function MirrorGrid(g: Grid, rows: nat, cols: nat, xm: bool, ym: bool): (r: Grid)
    requires IsRect(g, rows, cols)
    ensures IsRect(r, rows, cols)
    ensures forall i, j :: 0 <= i < rows && 0 <= j < cols ==>
              r[i][j] == g[Flip(i, rows, xm)][Flip(j, cols, ym)]
  {
    seq(rows, i requires 0 <= i < rows =>
      seq(cols, j requires 0 <= j < cols => g[Flip(i, rows, xm)][Flip(j, cols, ym)]))
  }

  function MirrorPorts(ps: seq<Port>, rows: int, cols: int, xm: bool, ym: bool): seq<Port> {
    seq(|ps|, k requires 0 <= k < |ps| =>
      Port(ps[k].lab, MirrorLoc(ps[k].loc, rows, cols, xm, ym)))
  }

  function MirrorPhys(ps: seq<PhyPort>, rows: int, cols: int, xm: bool, ym: bool): seq<PhyPort> {
    seq(|ps|, k requires 0 <= k < |ps| =>
      PhyPort(ps[k].lab, MirrorLoc(ps[k].loc, rows, cols, xm, ym), ps[k].dir))
  }

  /** Cell `l` lies in box `b`. */
  predicate Covers(b: Box, l: Loc) {
    b.loc.0 <= l.0 < b.loc.0 + b.height && b.loc.1 <= l.1 < b.loc.1 + b.width
  }

  /** A tile box is re-anchored at `size - old - extent`, so that it keeps
      its extent and covers exactly the reflections of the cells it
      covered. */
  function MirrorBoxes(bs: seq<Box>, rows: int, cols: int, xm: bool, ym: bool): (r: seq<Box>)
    ensures |r| == |bs|
    ensures forall k :: 0 <= k < |bs| ==> r[k].height == bs[k].height && r[k].width == bs[k].width
    ensures forall k, l :: 0 <= k < |bs| ==>
              (Covers(r[k], l) <==> Covers(bs[k], MirrorLoc(l, rows, cols, xm, ym)))
  {
    seq(|bs|, k requires 0 <= k < |bs| =>
      Box((if xm then rows - bs[k].loc.0 - bs[k].height else bs[k].loc.0,
           if ym then cols - bs[k].loc.1 - bs[k].width else bs[k].loc.1),
          bs[k].height, bs[k].width))
  }

  function MirrorPath(p: seq<Loc>, rows: int, cols: int, xm: bool, ym: bool): (r: seq<Loc>)
    ensures |r| == |p|
  {
    seq(|p|, k requires 0 <= k < |p| => MirrorLoc(p[k], rows, cols, xm, ym))
  }

  function MirrorPaths(ps: seq<seq<Loc>>, rows: int, cols: int, xm: bool, ym: bool): (r: seq<seq<Loc>>)
    ensures |r| == |ps|
  {
    seq(|ps|, k requires 0 <= k < |ps| => MirrorPath(ps[k], rows, cols, xm, ym))
  }

  /** Each port keeps its label and moves to the reflected location. */
  predicate PortsReflected(ps: seq<Port>, qs: seq<Port>, rows: int, cols: int, xm: bool, ym: bool) {
    && |qs| == |ps|
    && forall k :: 0 <= k < |ps| ==>
         qs[k].lab == ps[k].lab && qs[k].loc == MirrorLoc(ps[k].loc, rows, cols, xm, ym)
  }

  /** Each PHY keeps its label and direction and moves to the reflected
      location. */
  predicate PhysReflected(ps: seq<PhyPort>, qs: seq<PhyPort>, rows: int, cols: int, xm: bool, ym: bool) {
    && |qs| == |ps|
    && forall k :: 0 <= k < |ps| ==>
         && qs[k].lab == ps[k].lab && qs[k].dir == ps[k].dir
         && qs[k].loc == MirrorLoc(ps[k].loc, rows, cols, xm, ym)
  }

  /** Each path visits the reflections of its waypoints, in order. */
  predicate PathsReflected(ps: seq<seq<Loc>>, qs: seq<seq<Loc>>, rows: int, cols: int, xm: bool, ym: bool) {
    && |qs| == |ps|
    && forall k :: 0 <= k < |ps| ==>
         && |qs[k]| == |ps[k]|
         && forall i :: 0 <= i < |ps[k]| ==> qs[k][i] == MirrorLoc(ps[k][i], rows, cols, xm, ym)
  }

  /** Reflects the block; a pure function returning a new value, so a
      block placed twice with different flags is never corrupted. The
      graph is not touched: labels are kept and only locations move. */
  function Mirror(b: Block, xm: bool, ym: bool): (r: Block)
    requires IsRect(b.grid, b.nRows, b.nCols)
    ensures IsRect(r.grid, r.nRows, r.nCols) && r.nRows == b.nRows && r.nCols == b.nCols
    ensures forall i, j :: 0 <= i < b.nRows && 0 <= j < b.nCols ==>
              r.grid[i][j] == b.grid[Flip(i, b.nRows, xm)][Flip(j, b.nCols, ym)]
    ensures PortsReflected(b.masters, r.masters, b.nRows, b.nCols, xm, ym)
    ensures PortsReflected(b.slaves, r.slaves, b.nRows, b.nCols, xm, ym)
    ensures PhysReflected(b.phys, r.phys, b.nRows, b.nCols, xm, ym)
    ensures |r.tiles| == |b.tiles|
    ensures forall k :: 0 <= k < |b.tiles| ==>
              r.tiles[k].height == b.tiles[k].height && r.tiles[k].width == b.tiles[k].width
    ensures forall k, l :: 0 <= k < |b.tiles| ==>
              (Covers(r.tiles[k], l) <==> Covers(b.tiles[k], MirrorLoc(l, b.nRows, b.nCols, xm, ym)))
    ensures PathsReflected(b.paths, r.paths, b.nRows, b.nCols, xm, ym)
    ensures Labels(r.masters) == Labels(b.masters) && Labels(r.slaves) == Labels(b.slaves)
    ensures TablesConsistent(r)
    ensures r.vertices == b.vertices && r.edges == b.edges && r.delays == b.delays
  {
    var ms := MirrorPorts(b.masters, b.nRows, b.nCols, xm, ym);
    var ss := MirrorPorts(b.slaves, b.nRows, b.nCols, xm, ym);
    var ps := MirrorPhys(b.phys, b.nRows, b.nCols, xm, ym);
    Block(b.nRows, b.nCols, MirrorGrid(b.grid, b.nRows, b.nCols, xm, ym),
          MirrorBoxes(b.tiles, b.nRows, b.nCols, xm, ym),
          MirrorPaths(b.paths, b.nRows, b.nCols, xm, ym),
          ms, ss, ps, TablesOf(ms), TablesOf(ss), TablesOf(PhyAsPorts(ps)),
          b.vertices, b.edges, b.delays)
  }

  lemma MirrorGridTwice(g: Grid, rows: nat, cols: nat, xm: bool, ym: bool)
    requires IsRect(g, rows, cols)
    ensures MirrorGrid(MirrorGrid(g, rows, cols, xm, ym), rows, cols, xm, ym) == g
  {
    var mm := MirrorGrid(MirrorGrid(g, rows, cols, xm, ym), rows, cols, xm, ym);
    forall i | 0 <= i < rows ensures mm[i] == g[i] {
      assert |mm[i]| == |g[i]|;
    }
  }

  lemma MirrorPathsTwice(ps: seq<seq<Loc>>, rows: int, cols: int, xm: bool, ym: bool)
    ensures MirrorPaths(MirrorPaths(ps, rows, cols, xm, ym), rows, cols, xm, ym) == ps
  {
    var mm := MirrorPaths(MirrorPaths(ps, rows, cols, xm, ym), rows, cols, xm, ym);
    forall k | 0 <= k < |ps| ensures mm[k] == ps[k] {
      assert |mm[k]| == |ps[k]|;
    }
  }

  lemma MirrorPortsTwice(ps: seq<Port>, rows: int, cols: int, xm: bool, ym: bool)
    ensures MirrorPorts(MirrorPorts(ps, rows, cols, xm, ym), rows, cols, xm, ym) == ps
  {
    var mm := MirrorPorts(MirrorPorts(ps, rows, cols, xm, ym), rows, cols, xm, ym);
    assert forall k :: 0 <= k < |ps| ==> mm[k] == ps[k];
  }

  lemma MirrorPhysTwice(ps: seq<PhyPort>, rows: int, cols: int, xm: bool, ym: bool)
    ensures MirrorPhys(MirrorPhys(ps, rows, cols, xm, ym), rows, cols, xm, ym) == ps
  {
    var mm := MirrorPhys(MirrorPhys(ps, rows, cols, xm, ym), rows, cols, xm, ym);
    assert forall k :: 0 <= k < |ps| ==> mm[k] == ps[k];
  }

  lemma MirrorBoxesTwice(bs: seq<Box>, rows: int, cols: int, xm: bool, ym: bool)
    ensures MirrorBoxes(MirrorBoxes(bs, rows, cols, xm, ym), rows, cols, xm, ym) == bs
  {
    var mm := MirrorBoxes(MirrorBoxes(bs, rows, cols, xm, ym), rows, cols, xm, ym);
    assert forall k :: 0 <= k < |bs| ==> mm[k] == bs[k];
  }

  /** Mirroring twice with the same flags gives the block back. */
  lemma MirrorInvolution(b: Block, xm: bool, ym: bool)
    requires IsRect(b.grid, b.nRows, b.nCols) && TablesConsistent(b)
    ensures Mirror(Mirror(b, xm, ym), xm, ym) == b
  {
    MirrorGridTwice(b.grid, b.nRows, b.nCols, xm, ym);
    MirrorPathsTwice(b.paths, b.nRows, b.nCols, xm, ym);
    MirrorPortsTwice(b.masters, b.nRows, b.nCols, xm, ym);
    MirrorPortsTwice(b.slaves, b.nRows, b.nCols, xm, ym);
    MirrorPhysTwice(b.phys, b.nRows, b.nCols, xm, ym);
    MirrorBoxesTwice(b.tiles, b.nRows, b.nCols, xm, ym);
  }

  /** `mirror(False, False)` changes nothing. */
  lemma MirrorNoFlags(b: Block)
    requires IsRect(b.grid, b.nRows, b.nCols) && TablesConsistent(b)
    ensures Mirror(b, false, false) == b
  {
    var m := Mirror(b, false, false);
    assert m.grid == b.grid by {
      forall i | 0 <= i < b.nRows ensures m.grid[i] == b.grid[i] {
        assert |m.grid[i]| == |b.grid[i]|;
      }
    }
    assert m.paths == b.paths by {
      forall k | 0 <= k < |b.paths| ensures m.paths[k] == b.paths[k] {
        assert |m.paths[k]| == |b.paths[k]|;
      }
    }
    assert m.masters == b.masters;
    assert m.slaves == b.slaves;
    assert m.phys == b.phys;
    assert m.tiles == b.tiles;
  }

  /** A tile's single box anchored at (0,0) with the tile's own extent is a
      fixed point of box mirroring, and a tile has no paths: so the tile
      class's mirror, which leaves both alone, agrees with `Mirror`. */
  lemma TileBoxFixed(b: Block, xm: bool, ym: bool)
    requires IsRect(b.grid, b.nRows, b.nCols)
    requires b.tiles == [Box((0, 0), b.nRows, b.nCols)] && b.paths == []
    ensures Mirror(b, xm, ym).tiles == b.tiles && Mirror(b, xm, ym).paths == []
  {
  }
}
