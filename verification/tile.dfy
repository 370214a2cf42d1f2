/** A tile read from its description: the marker grid, the port and PHY
    tables and the tile's local graph (`Tile.__init__` and `Tile.mirror`
    in src/tile.py). The description arrives as a typed record instead of
    an XML file; the unit-cell physics that yields the edge delay is a
    parameter. */
module Tile {
  import opened Wrappers
  import opened Cells
  import opened Blocks

  datatype PortEntry = PortEntry(id: int, loc: Loc)
  datatype PhyEntry = PhyEntry(id: int, loc: Loc, dir: string)

  /** The fields of a tile description the construction reads. */
  datatype TileFile = TileFile(
    nRows: nat, nCols: nat, nEndpoints: nat,
    masters: seq<PortEntry>, slaves: seq<PortEntry>, phys: seq<PhyEntry>,
    connections: seq<Edge>)

  function EpLabel(i: int): Label { [Num(i), Tag("ep")] }
  function MpLabel(i: int): Label { [Num(i), Tag("mp")] }
  function SpLabel(i: int): Label { [Num(i), Tag("sp")] }
  function PhyLabel(i: int): Label { [Num(i), Tag("p")] }
  const Router: Label := [Tag("r")]

  /** The ids, read in file order, are 0, 1, 2, ... */
  predicate Consecutive(ids: seq<int>) {
    forall k :: 0 <= k < |ids| ==> ids[k] == k
  }

  function PortIds(es: seq<PortEntry>): (r: seq<int>)
    ensures |r| == |es| && forall k :: 0 <= k < |es| ==> r[k] == es[k].id
  {
    seq(|es|, k requires 0 <= k < |es| => es[k].id)
  }

  function PhyIds(es: seq<PhyEntry>): (r: seq<int>)
    ensures |r| == |es| && forall k :: 0 <= k < |es| ==> r[k] == es[k].id
  {
    seq(|es|, k requires 0 <= k < |es| => es[k].id)
  }

  /** Checks one connection end against the number of items of the kind
      its last atom names. Only the kinds "ep", "mp", "sp" and "p" are
      checked; a router point passes. `point[-1]` on an empty label and an
      ordering comparison between a string id and a count both raise. */
  function CheckPoint(p: Label, nEp: nat, nM: nat, nS: nat, nP: nat): (r: Check)
    ensures r.Pass? <==> PointOk(p, nEp, nM, nS, nP)
  {
    if |p| == 0 then Fail("tuple index out of range")
    else
      var kind := p[|p| - 1];
      if kind !in {Tag("ep"), Tag("mp"), Tag("sp"), Tag("p")} then Pass
      else if !p[0].Num? then Fail("'>=' not supported between str and int")
      else
        var bound := if kind == Tag("ep") then nEp else if kind == Tag("mp") then nM
                     else if kind == Tag("sp") then nS else nP;
        if p[0].n >= bound then Fail("Connection references invalid id") else Pass
  }

  /** Independent statement of which connection ends the reader accepts. */
  predicate PointOk(p: Label, nEp: nat, nM: nat, nS: nat, nP: nat) {
    && |p| > 0
    && (p[|p| - 1] == Tag("ep") ==> p[0].Num? && p[0].n < nEp)
    && (p[|p| - 1] == Tag("mp") ==> p[0].Num? && p[0].n < nM)
    && (p[|p| - 1] == Tag("sp") ==> p[0].Num? && p[0].n < nS)
    && (p[|p| - 1] == Tag("p") ==> p[0].Num? && p[0].n < nP)
  }

  predicate ConnectionsOk(f: TileFile) {
    forall k :: 0 <= k < |f.connections| ==>
      && PointOk(f.connections[k].src, f.nEndpoints, |f.masters|, |f.slaves|, |f.phys|)
      && PointOk(f.connections[k].dst, f.nEndpoints, |f.masters|, |f.slaves|, |f.phys|)
  }

  function CheckConnections(f: TileFile, cs: seq<Edge>): (r: Check)
    ensures r.Pass? <==> forall k :: 0 <= k < |cs| ==>
              PointOk(cs[k].src, f.nEndpoints, |f.masters|, |f.slaves|, |f.phys|)
              && PointOk(cs[k].dst, f.nEndpoints, |f.masters|, |f.slaves|, |f.phys|)
  {
    if |cs| == 0 then Pass
    else
      var c := cs[0];
      var a := CheckPoint(c.src, f.nEndpoints, |f.masters|, |f.slaves|, |f.phys|);
      var b := CheckPoint(c.dst, f.nEndpoints, |f.masters|, |f.slaves|, |f.phys|);
      if a.Fail? then a
      else if b.Fail? then b
      else
        assert forall k :: 1 <= k < |cs| ==> cs[k] == cs[1..][k - 1];
        CheckConnections(f, cs[1..])
  }

  /** Writes marker `m` at every port location in order (`grid[row][col] = m`
      with Python's indexing). */
  function Paint(g: Grid, rows: nat, cols: nat, ps: seq<Port>, m: Marker): (r: Result<Grid>)
    requires IsRect(g, rows, cols)
    ensures r.Ok? <==> AllIn(rows, cols, ps)
    ensures r.Ok? ==> IsRect(r.value, rows, cols)
    ensures r.Ok? ==> PaintedOver(g, r.value, rows, cols, ps, m)
  {
    if |ps| == 0 then Ok(g)
    else
      var init := ps[..|ps| - 1];
      var last := ps[|ps| - 1];
      match Paint(g, rows, cols, init, m)
      case Err(e) =>
        assert forall k :: 0 <= k < |init| ==> init[k] == ps[k];
        Err(e)
      case Ok(g1) =>
        var r := PutAt(g1, rows, cols, last.loc, Mark(m));
        if r.Ok? then PaintStep(g, g1, r.value, rows, cols, ps, m); r else r
  }

  /** Painting the last port over the grid the others produced. */
  lemma PaintStep(g: Grid, g1: Grid, g2: Grid, rows: nat, cols: nat, ps: seq<Port>, m: Marker)
    requires IsRect(g, rows, cols) && IsRect(g1, rows, cols) && IsRect(g2, rows, cols) && |ps| > 0
    requires PaintedOver(g, g1, rows, cols, ps[..|ps| - 1], m)
    requires forall i, j :: 0 <= i < rows && 0 <= j < cols ==>
               g2[i][j] == (if Resolve(rows, cols, ps[|ps| - 1].loc) == Some((i, j)) then Mark(m) else g1[i][j])
    ensures PaintedOver(g, g2, rows, cols, ps, m)
  {
    HitBySnoc(rows, cols, ps);
    forall i, j | 0 <= i < rows && 0 <= j < cols ensures CellPainted(g, g2, rows, cols, ps, m, i, j) {
      assert CellPainted(g, g1, rows, cols, ps[..|ps| - 1], m, i, j);
    }
  }

  /** Every cell of `h` is marker `m` where a port of `ps` lies and that
      of `g` elsewhere. */
  predicate PaintedOver(g: Grid, h: Grid, rows: nat, cols: nat, ps: seq<Port>, m: Marker)
    requires IsRect(g, rows, cols) && IsRect(h, rows, cols)
  {
    forall i, j :: 0 <= i < rows && 0 <= j < cols ==> CellPainted(g, h, rows, cols, ps, m, i, j)
  }

  predicate CellPainted(g: Grid, h: Grid, rows: nat, cols: nat, ps: seq<Port>, m: Marker, i: nat, j: nat)
    requires IsRect(g, rows, cols) && IsRect(h, rows, cols) && i < rows && j < cols
  {
    h[i][j] == (if HitBy(rows, cols, ps, i, j) then Mark(m) else g[i][j])
  }

  /** No port location of `ps` makes `grid[row][col]` raise. */
  predicate AllIn(rows: nat, cols: nat, ps: seq<Port>) {
    forall k :: 0 <= k < |ps| ==> Resolve(rows, cols, ps[k].loc).Some?
  }

  /** Some port of `ps` designates cell (i, j) of a `rows` x `cols` grid. */
  predicate HitBy(rows: nat, cols: nat, ps: seq<Port>, i: nat, j: nat) {
    exists k :: 0 <= k < |ps| && Resolve(rows, cols, ps[k].loc) == Some((i, j))
  }

  lemma HitBySnoc(rows: nat, cols: nat, ps: seq<Port>)
    requires |ps| > 0
    ensures forall k :: 0 <= k < |ps| - 1 ==> ps[..|ps| - 1][k] == ps[k]
    ensures forall i: nat, j: nat :: HitBy(rows, cols, ps, i, j) <==>
              HitBy(rows, cols, ps[..|ps| - 1], i, j)
              || Resolve(rows, cols, ps[|ps| - 1].loc) == Some((i, j))
  {
    var init := ps[..|ps| - 1];
    forall i: nat, j: nat | HitBy(rows, cols, ps, i, j)
      ensures HitBy(rows, cols, init, i, j) || Resolve(rows, cols, ps[|ps| - 1].loc) == Some((i, j))
    {
      var k :| 0 <= k < |ps| && Resolve(rows, cols, ps[k].loc) == Some((i, j));
      if k < |init| {
        assert init[k] == ps[k];
      }
    }
    forall i: nat, j: nat | HitBy(rows, cols, init, i, j)
      ensures HitBy(rows, cols, ps, i, j)
    {
      var k :| 0 <= k < |init| && Resolve(rows, cols, init[k].loc) == Some((i, j));
      assert ps[k] == init[k];
    }
  }

  /** The ports of one kind, labelled `(k, kind)` by position. */
  function Numbered(es: seq<PortEntry>, kind: string): (r: seq<Port>)
    ensures |r| == |es| && UniqueLabs(r)
    ensures forall k :: 0 <= k < |es| ==> r[k].loc == es[k].loc
  {
    seq(|es|, k requires 0 <= k < |es| => Port([Num(k), Tag(kind)], es[k].loc))
  }

  function MasterPorts(es: seq<PortEntry>): seq<Port> {
    Numbered(es, "mp")
  }

  function SlavePorts(es: seq<PortEntry>): seq<Port> {
    Numbered(es, "sp")
  }

  function PhyPorts(es: seq<PhyEntry>): (r: seq<PhyPort>)
    ensures |r| == |es|
    ensures forall k :: 0 <= k < |es| ==> r[k] == PhyPort(PhyLabel(k), es[k].loc, es[k].dir)
  {
    seq(|es|, k requires 0 <= k < |es| => PhyPort(PhyLabel(k), es[k].loc, es[k].dir))
  }

  /** Router, endpoints, masters, slaves, PHYs. */
  function TileVertices(nEp: nat, nM: nat, nS: nat, nP: nat): (r: seq<Label>)
    ensures |r| == 1 + nEp + nM + nS + nP
    ensures r[0] == Router
    ensures forall i :: 0 <= i < nEp ==> r[1 + i] == EpLabel(i)
    ensures forall i :: 0 <= i < nM ==> r[1 + nEp + i] == MpLabel(i)
    ensures forall i :: 0 <= i < nS ==> r[1 + nEp + nM + i] == SpLabel(i)
    ensures forall i :: 0 <= i < nP ==> r[1 + nEp + nM + nS + i] == PhyLabel(i)
  {
    [Router] + seq(nEp, i => EpLabel(i)) + seq(nM, i => MpLabel(i))
    + seq(nS, i => SpLabel(i)) + seq(nP, i => PhyLabel(i))
  }

  /** Every edge maps to the one tile delay. */
  function UniformDelays(es: seq<Edge>, d: int): (r: map<Edge, int>)
    ensures r.Keys == set k | 0 <= k < |es| :: es[k]
    ensures forall e :: e in r ==> r[e] == d
  {
    map e | e in es :: d
  }

  /** Builds the tile: id checks, connection checks, grid of logic with the
      master, slave and PHY markers written over it in that order, the
      tables, and the graph. `delay` is the per-edge delay the unit cell
      yields. */
  function BuildTile(f: TileFile, delay: int): (r: Result<Block>)
    ensures r.Ok? <==>
              && Consecutive(PortIds(f.masters)) && Consecutive(PortIds(f.slaves))
              && Consecutive(PhyIds(f.phys)) && ConnectionsOk(f)
              && PortsFit(f)
    ensures r.Ok? ==>
              var b := r.value;
              && b.nRows == f.nRows && b.nCols == f.nCols
              && IsRect(b.grid, f.nRows, f.nCols)
              && (forall i, j :: 0 <= i < f.nRows && 0 <= j < f.nCols ==> b.grid[i][j] == TileCell(f, i, j))
              && b.tiles == [Box((0, 0), f.nRows, f.nCols)] && b.paths == []
              && b.masters == MasterPorts(f.masters) && b.slaves == SlavePorts(f.slaves)
              && b.phys == PhyPorts(f.phys)
              && TablesConsistent(b)
              && b.vertices == TileVertices(f.nEndpoints, |f.masters|, |f.slaves|, |f.phys|)
              && b.edges == f.connections
              && (forall e :: e in b.delays <==> e in f.connections)
              && (forall e :: e in b.delays ==> b.delays[e] == delay)
  {
    var _ :- CheckTile(f);
    var g :- TileGrid(f);
    Ok(TileBlock(f, g, delay))
  }

  /** The id and connection checks, in the reader's order. */
  function CheckTile(f: TileFile): (r: Check)
    ensures r.Pass? <==>
              && Consecutive(PortIds(f.masters)) && Consecutive(PortIds(f.slaves))
              && Consecutive(PhyIds(f.phys)) && ConnectionsOk(f)
  {
    if !Consecutive(PortIds(f.masters)) then Fail("Master-Ports need to be ordered according to their IDs")
    else if !Consecutive(PortIds(f.slaves)) then Fail("Slave-Ports need to be ordered according to their IDs")
    else if !Consecutive(PhyIds(f.phys)) then Fail("PHYs need to be ordered according to their IDs")
    else CheckConnections(f, f.connections)
  }

  /** The tile's block around its finished grid `g`. */
  function TileBlock(f: TileFile, g: Grid, delay: int): (b: Block)
    ensures && b.nRows == f.nRows && b.nCols == f.nCols && b.grid == g
            && b.tiles == [Box((0, 0), f.nRows, f.nCols)] && b.paths == []
            && b.masters == MasterPorts(f.masters) && b.slaves == SlavePorts(f.slaves)
            && b.phys == PhyPorts(f.phys)
            && TablesConsistent(b)
            && b.vertices == TileVertices(f.nEndpoints, |f.masters|, |f.slaves|, |f.phys|)
            && b.edges == f.connections
            && (forall e :: e in b.delays <==> e in f.connections)
            && (forall e :: e in b.delays ==> b.delays[e] == delay)
  {
    var ms := MasterPorts(f.masters);
    var ss := SlavePorts(f.slaves);
    var ps := PhyPorts(f.phys);
    Block(f.nRows, f.nCols, g, [Box((0, 0), f.nRows, f.nCols)], [],
          ms, ss, ps, TablesOf(ms), TablesOf(ss), TablesOf(PhyAsPorts(ps)),
          TileVertices(f.nEndpoints, |ms|, |ss|, |ps|),
          f.connections, UniformDelays(f.connections, delay))
  }

  /** The grid of logic cells with the master, slave and PHY markers
      written over it, in that order. */
  function TileGrid(f: TileFile): (r: Result<Grid>)
    ensures r.Ok? <==> PortsFit(f)
    ensures r.Ok? ==> IsRect(r.value, f.nRows, f.nCols)
    ensures r.Ok? ==> forall i, j :: 0 <= i < f.nRows && 0 <= j < f.nCols ==>
              r.value[i][j] == TileCell(f, i, j)
  {
    var ms := MasterPorts(f.masters);
    var ss := SlavePorts(f.slaves);
    var ps := PhyAsPorts(PhyPorts(f.phys));
    var g0 := Filled(f.nRows, f.nCols, Mark(Logic));
    var g1 :- Paint(g0, f.nRows, f.nCols, ms, Master);
    var g2 :- Paint(g1, f.nRows, f.nCols, ss, Slave);
    var g3 :- Paint(g2, f.nRows, f.nCols, ps, Phy);
    TileCells(f, g0, g1, g2, g3);
    Ok(g3)
  }

  /** Painting masters, slaves and PHYs over logic in that order yields
      the tile's cells. */
  lemma TileCells(f: TileFile, g0: Grid, g1: Grid, g2: Grid, g3: Grid)
    requires IsRect(g0, f.nRows, f.nCols) && IsRect(g1, f.nRows, f.nCols)
    requires IsRect(g2, f.nRows, f.nCols) && IsRect(g3, f.nRows, f.nCols)
    requires forall i, j :: 0 <= i < f.nRows && 0 <= j < f.nCols ==> g0[i][j] == Mark(Logic)
    requires PaintedOver(g0, g1, f.nRows, f.nCols, MasterPorts(f.masters), Master)
    requires PaintedOver(g1, g2, f.nRows, f.nCols, SlavePorts(f.slaves), Slave)
    requires PaintedOver(g2, g3, f.nRows, f.nCols, PhyAsPorts(PhyPorts(f.phys)), Phy)
    ensures forall i, j :: 0 <= i < f.nRows && 0 <= j < f.nCols ==> g3[i][j] == TileCell(f, i, j)
  {
    forall i, j | 0 <= i < f.nRows && 0 <= j < f.nCols ensures g3[i][j] == TileCell(f, i, j) {
      assert CellPainted(g0, g1, f.nRows, f.nCols, MasterPorts(f.masters), Master, i, j);
      assert CellPainted(g1, g2, f.nRows, f.nCols, SlavePorts(f.slaves), Slave, i, j);
      assert CellPainted(g2, g3, f.nRows, f.nCols, PhyAsPorts(PhyPorts(f.phys)), Phy, i, j);
    }
  }

  /** No port or PHY location makes `grid[row][col]` raise. */
  predicate PortsFit(f: TileFile) {
    && AllIn(f.nRows, f.nCols, MasterPorts(f.masters))
    && AllIn(f.nRows, f.nCols, SlavePorts(f.slaves))
    && AllIn(f.nRows, f.nCols, PhyAsPorts(PhyPorts(f.phys)))
  }

  /** The marker the finished tile grid holds at (i, j): a PHY beats a
      slave port, which beats a master port, which beats logic. */
  function TileCell(f: TileFile, i: nat, j: nat): Cell {
    if HitBy(f.nRows, f.nCols, PhyAsPorts(PhyPorts(f.phys)), i, j) then Mark(Phy)
    else if HitBy(f.nRows, f.nCols, SlavePorts(f.slaves), i, j) then Mark(Slave)
    else if HitBy(f.nRows, f.nCols, MasterPorts(f.masters), i, j) then Mark(Master)
    else Mark(Logic)
  }

  /** Every PHY's cell shows "P", since PHYs are written last; a master
      port's cell shows "M" unless a slave port or PHY sits there too. */
  lemma {:induction false} TileMarkers(f: TileFile, delay: int)
    requires BuildTile(f, delay).Ok?
    ensures forall k :: 0 <= k < |f.phys| ==>
              var c := Resolve(f.nRows, f.nCols, f.phys[k].loc).value;
              BuildTile(f, delay).value.grid[c.0][c.1] == Mark(Phy)
    ensures forall k :: 0 <= k < |f.masters| ==>
              var c := Resolve(f.nRows, f.nCols, f.masters[k].loc).value;
              !HitBy(f.nRows, f.nCols, SlavePorts(f.slaves), c.0, c.1)
              && !HitBy(f.nRows, f.nCols, PhyAsPorts(PhyPorts(f.phys)), c.0, c.1)
              ==> BuildTile(f, delay).value.grid[c.0][c.1] == Mark(Master)
  {
    var b := BuildTile(f, delay).value;
    var ps := PhyAsPorts(PhyPorts(f.phys));
    var ms := MasterPorts(f.masters);
    forall k | 0 <= k < |f.phys|
      ensures var c := Resolve(f.nRows, f.nCols, f.phys[k].loc).value;
              b.grid[c.0][c.1] == Mark(Phy)
    {
      assert ps[k].loc == f.phys[k].loc;
      var c := Resolve(f.nRows, f.nCols, f.phys[k].loc).value;
      assert HitBy(f.nRows, f.nCols, ps, c.0, c.1);
    }
    forall k | 0 <= k < |f.masters|
      ensures var c := Resolve(f.nRows, f.nCols, f.masters[k].loc).value;
              !HitBy(f.nRows, f.nCols, SlavePorts(f.slaves), c.0, c.1)
              && !HitBy(f.nRows, f.nCols, ps, c.0, c.1)
              ==> b.grid[c.0][c.1] == Mark(Master)
    {
      assert ms[k].loc == f.masters[k].loc;
      var c := Resolve(f.nRows, f.nCols, f.masters[k].loc).value;
      assert HitBy(f.nRows, f.nCols, ms, c.0, c.1);
    }
  }

  /** When no two master ports share a location, the tile's two master
      tables are inverse to each other on exactly the ports: the table of
      port k maps label (k, "mp") to its location and back. Likewise for
      slave ports. */
  lemma TileTablesInverse(f: TileFile, delay: int, b: Block)
    requires BuildTile(f, delay) == Ok(b)
    ensures UniqueLocs(b.masters) ==> forall k :: 0 <= k < |f.masters| ==>
              && MpLabel(k) in b.mTab.labToLoc && b.mTab.labToLoc[MpLabel(k)] == f.masters[k].loc
              && f.masters[k].loc in b.mTab.locToLab && b.mTab.locToLab[f.masters[k].loc] == MpLabel(k)
    ensures UniqueLocs(b.slaves) ==> forall k :: 0 <= k < |f.slaves| ==>
              && SpLabel(k) in b.sTab.labToLoc && b.sTab.labToLoc[SpLabel(k)] == f.slaves[k].loc
              && f.slaves[k].loc in b.sTab.locToLab && b.sTab.locToLab[f.slaves[k].loc] == SpLabel(k)
  {
    assert b.masters == MasterPorts(f.masters) == Numbered(f.masters, "mp");
    assert b.slaves == SlavePorts(f.slaves) == Numbered(f.slaves, "sp");
    assert b.mTab == TablesOf(b.masters) && b.sTab == TablesOf(b.slaves);
    if UniqueLocs(b.masters) {
      NumberedTables(f.masters, "mp");
    }
    if UniqueLocs(b.slaves) {
      NumberedTables(f.slaves, "sp");
    }
  }

  /** Ports numbered 0, 1, ... carry distinct labels, so distinct
      locations are all the tables need to be inverse. */
  lemma NumberedTables(es: seq<PortEntry>, kind: string)
    requires kind == "mp" || kind == "sp"
    requires UniqueLocs(Numbered(es, kind))
    ensures forall k :: 0 <= k < |es| ==>
              var t := TablesOf(Numbered(es, kind));
              && [Num(k), Tag(kind)] in t.labToLoc && t.labToLoc[[Num(k), Tag(kind)]] == es[k].loc
              && es[k].loc in t.locToLab && t.locToLab[es[k].loc] == [Num(k), Tag(kind)]
  {
    var ps := Numbered(es, kind);
    assert forall k :: 0 <= k < |es| ==> ps[k].lab == [Num(k), Tag(kind)];
    TablesAreInverse(ps);
  }

  /** The tile's mirror agrees with the module's: its only box is
      unchanged, mirroring twice restores the tile, and no flags leave it
      as it is. */
  lemma TileMirror(f: TileFile, delay: int, xm: bool, ym: bool)
    requires BuildTile(f, delay).Ok?
    ensures var b := BuildTile(f, delay).value;
            && Mirror(b, xm, ym).tiles == b.tiles && Mirror(b, xm, ym).paths == []
            && Mirror(Mirror(b, xm, ym), xm, ym) == b
            && Mirror(b, false, false) == b
  {
    var b := BuildTile(f, delay).value;
    TileBoxFixed(b, xm, ym);
    MirrorInvolution(b, xm, ym);
    MirrorNoFlags(b);
  }
}
