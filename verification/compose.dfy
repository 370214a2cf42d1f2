/** Hierarchical composition of a module from placed components
    (`Module` in src/module.py): reading the component list, merging the
    components' marker grids, re-labelling and shifting their ports, PHYs,
    tile boxes and paths, marking the module's paths, composing the
    logical graph, and classifying the cells. The component objects
    arrive already built; the XML reading and the unit-cell physics are
    not modelled, and the two per-hop delays are parameters. */
module Compose {
  import opened Wrappers
  import opened Cells
  import opened Blocks
  import opened Paths

  /** One entry of the component list, with the component already built. */
  datatype RawComponent = RawComponent(id: int, kind: string, loc: Loc, xm: bool, ym: bool, block: Block)
  /** A component after reading: its offset and its mirrored block. */
  datatype Component = Component(loc: Loc, block: Block)

  predicate Shaped(b: Block) {
    IsRect(b.grid, b.nRows, b.nCols)
  }

  predicate RawShaped(cs: seq<RawComponent>) {
    forall k :: 0 <= k < |cs| ==> Shaped(cs[k].block)
  }

  predicate AllShaped(cs: seq<Component>) {
    forall k :: 0 <= k < |cs| ==> Shaped(cs[k].block)
  }

  predicate KindOk(s: string) {
    s == "tile" || s == "module"
  }

  // -------------------------------------------------------------- reading

  /** The component as the parent sees it: mirrored, at its offset. */
  function Placed(c: RawComponent): (r: Component)
    requires Shaped(c.block)
    ensures Shaped(r.block) && r.loc == c.loc
    ensures Labels(r.block.masters) == Labels(c.block.masters)
    ensures Labels(r.block.slaves) == Labels(c.block.slaves)
    ensures r.block.vertices == c.block.vertices && r.block.edges == c.block.edges
    ensures r.block.delays == c.block.delays
  {
    Component(c.loc, Mirror(c.block, c.xm, c.ym))
  }

  /** The ids run 0, 1, 2, ... and every type is valid. */
  predicate ListOk(cs: seq<RawComponent>) {
    forall k :: 0 <= k < |cs| ==> cs[k].id == k && KindOk(cs[k].kind)
  }

  /** Validates the component list (ids 0, 1, 2, ... in order, type
      "tile" or "module"), then mirrors each component. */
  function ReadComponents(cs: seq<RawComponent>): (r: Result<seq<Component>>)
    requires RawShaped(cs)
    ensures r.Ok? <==> ListOk(cs)
    ensures r.Ok? ==> |r.value| == |cs| && forall k :: 0 <= k < |cs| ==> r.value[k] == Placed(cs[k])
  {
    var _ :- CheckList(cs);
    Ok(seq(|cs|, k requires 0 <= k < |cs| => Placed(cs[k])))
  }

  /** The checks made while reading, in list order. */
  function CheckList(cs: seq<RawComponent>): (r: Check)
    ensures r.Pass? <==> ListOk(cs)
  {
    if |cs| == 0 then Pass
    else
      var c := cs[|cs| - 1];
      ListOkSnoc(cs);
      match CheckList(cs[..|cs| - 1])
      case Fail(m) => Fail(m)
      case Pass =>
        if c.id != |cs| - 1 then Fail("Components need to be ordered according to their IDs (starting at 0)")
        else if !KindOk(c.kind) then Fail("Invalid component type: only tile and module are valid")
        else Pass
  }

  lemma ListOkSnoc(cs: seq<RawComponent>)
    requires |cs| > 0
    ensures ListOk(cs) <==> ListOk(cs[..|cs| - 1]) && cs[|cs| - 1].id == |cs| - 1 && KindOk(cs[|cs| - 1].kind)
  {
    assert forall k :: 0 <= k < |cs| - 1 ==> cs[..|cs| - 1][k] == cs[k];
  }

  // ---------------------------------------------------------- grid merge

  /** A component marker cell to be copied to parent location `at`. */
  datatype Stamp = Stamp(at: Loc, m: Marker)

  /** The marker cells of one component row, in column order, placed with
      the row at parent row `r` and its first cell at parent column `c`. */
  function RowStamps(row: seq<Cell>, r: int, c: int): seq<Stamp> {
    if |row| == 0 then []
    else
      var n := |row| - 1;
      RowStamps(row[..n], r, c) + (if row[n].Mark? then [Stamp((r, c + n), row[n].m)] else [])
  }

  /** The marker cells of a component grid, row by row. */
  function GridStamps(g: Grid, r: int, c: int): seq<Stamp> {
    if |g| == 0 then []
    else GridStamps(g[..|g| - 1], r, c) + RowStamps(g[|g| - 1], r + |g| - 1, c)
  }

  /** The marker cells of all components, in component order. */
  function AllStamps(cs: seq<Component>): seq<Stamp> {
    if |cs| == 0 then []
    else
      var c := cs[|cs| - 1];
      AllStamps(cs[..|cs| - 1]) + GridStamps(c.block.grid, c.loc.0, c.loc.1)
  }

  lemma {:induction false} RowStampsAre(row: seq<Cell>, r: int, c: int, s: Stamp)
    ensures s in RowStamps(row, r, c) <==>
            exists j :: 0 <= j < |row| && row[j] == Mark(s.m) && s.at == (r, c + j)
  {
    if |row| > 0 {
      var n := |row| - 1;
      RowStampsAre(row[..n], r, c, s);
      if s in RowStamps(row[..n], r, c) {
        var j :| 0 <= j < n && row[..n][j] == Mark(s.m) && s.at == (r, c + j);
        assert row[j] == Mark(s.m);
      }
      if exists j :: 0 <= j < |row| && row[j] == Mark(s.m) && s.at == (r, c + j) {
        var j :| 0 <= j < |row| && row[j] == Mark(s.m) && s.at == (r, c + j);
        if j < n {
          assert row[..n][j] == Mark(s.m);
        }
      }
    }
  }

  /** A stamp stands for exactly one marker cell of the component grid:
      wire cells of a component are never copied. */
  lemma {:induction false} GridStampsAre(g: Grid, r: int, c: int, s: Stamp)
    ensures s in GridStamps(g, r, c) <==>
            exists i, j :: 0 <= i < |g| && 0 <= j < |g[i]| && g[i][j] == Mark(s.m) && s.at == (r + i, c + j)
  {
    if |g| > 0 {
      var n := |g| - 1;
      GridStampsAre(g[..n], r, c, s);
      RowStampsAre(g[n], r + n, c, s);
      if s in GridStamps(g[..n], r, c) {
        var i, j :| 0 <= i < n && 0 <= j < |g[..n][i]| && g[..n][i][j] == Mark(s.m) && s.at == (r + i, c + j);
        assert g[i] == g[..n][i];
      }
      if s in RowStamps(g[n], r + n, c) {
        var j :| 0 <= j < |g[n]| && g[n][j] == Mark(s.m) && s.at == (r + n, c + j);
        assert 0 <= n < |g| && 0 <= j < |g[n]| && g[n][j] == Mark(s.m) && s.at == (r + n, c + j);
      }
      if exists i, j :: 0 <= i < |g| && 0 <= j < |g[i]| && g[i][j] == Mark(s.m) && s.at == (r + i, c + j) {
        var i, j :| 0 <= i < |g| && 0 <= j < |g[i]| && g[i][j] == Mark(s.m) && s.at == (r + i, c + j);
        if i < n {
          assert g[..n][i] == g[i];
        }
      }
    }
  }

  /** Stamp `s` copies a marker cell of component `c`. */
  predicate MarkerOf(c: Component, s: Stamp) {
    exists i, j :: 0 <= i < |c.block.grid| && 0 <= j < |c.block.grid[i]|
                   && c.block.grid[i][j] == Mark(s.m) && s.at == (c.loc.0 + i, c.loc.1 + j)
  }

  /** The component grids' marker cells, shifted, are exactly the stamps. */
  lemma {:induction false} AllStampsAre(cs: seq<Component>, s: Stamp)
    ensures s in AllStamps(cs) <==> exists k :: 0 <= k < |cs| && MarkerOf(cs[k], s)
  {
    if |cs| > 0 {
      var n := |cs| - 1;
      var init := cs[..n];
      var c := cs[n];
      assert s in AllStamps(cs) <==> s in AllStamps(init) || s in GridStamps(c.block.grid, c.loc.0, c.loc.1);
      AllStampsAre(init, s);
      assert s in GridStamps(c.block.grid, c.loc.0, c.loc.1) <==> MarkerOf(c, s) by {
        GridStampsAre(c.block.grid, c.loc.0, c.loc.1, s);
      }
      if exists k :: 0 <= k < |cs| && MarkerOf(cs[k], s) {
        var k :| 0 <= k < |cs| && MarkerOf(cs[k], s);
        if k < n {
          assert init[k] == cs[k];
        }
      }
      if exists k :: 0 <= k < n && MarkerOf(init[k], s) {
        var k :| 0 <= k < n && MarkerOf(init[k], s);
        assert init[k] == cs[k];
      }
    }
  }

  /** Location `l` designates a cell of the parent grid that is still `[0,0]`. */
  predicate OpenAt(g: Grid, rows: nat, cols: nat, l: Loc)
    requires IsRect(g, rows, cols)
  {
    match Resolve(rows, cols, l)
    case None => false
    case Some(t) => g[t.0][t.1] == Empty
  }

  /** Every stamp lands on an open parent cell, and no two stamps on the same one. */
  predicate StampsFit(g: Grid, rows: nat, cols: nat, ss: seq<Stamp>)
    requires IsRect(g, rows, cols)
  {
    && (forall a :: 0 <= a < |ss| ==> OpenAt(g, rows, cols, ss[a].at))
    && (forall a, b :: 0 <= a < b < |ss| ==> Resolve(rows, cols, ss[a].at) != Resolve(rows, cols, ss[b].at))
  }

  /** The marker the last stamp on cell (i, j) carries, if any. */
  function Cover(rows: nat, cols: nat, ss: seq<Stamp>, i: nat, j: nat): Option<Marker> {
    if |ss| == 0 then None
    else if Resolve(rows, cols, ss[|ss| - 1].at) == Some((i, j)) then Some(ss[|ss| - 1].m)
    else Cover(rows, cols, ss[..|ss| - 1], i, j)
  }

  lemma {:induction false} CoverNone(rows: nat, cols: nat, ss: seq<Stamp>, i: nat, j: nat)
    ensures Cover(rows, cols, ss, i, j) == None <==>
            forall a :: 0 <= a < |ss| ==> Resolve(rows, cols, ss[a].at) != Some((i, j))
  {
    if |ss| > 0 {
      var init := ss[..|ss| - 1];
      CoverNone(rows, cols, init, i, j);
      assert forall a :: 0 <= a < |init| ==> init[a] == ss[a];
    }
  }

  /** `g1` is `g` with every covered cell replaced by its marker. */
  predicate StampedFrom(g: Grid, g1: Grid, rows: nat, cols: nat, ss: seq<Stamp>)
    requires IsRect(g, rows, cols) && IsRect(g1, rows, cols)
  {
    forall i, j :: 0 <= i < rows && 0 <= j < cols ==>
      g1[i][j] == (match Cover(rows, cols, ss, i, j) case Some(m) => Mark(m) case None => g[i][j])
  }

  lemma StampsFitSnoc(g: Grid, rows: nat, cols: nat, ss: seq<Stamp>)
    requires IsRect(g, rows, cols) && |ss| > 0
    ensures StampsFit(g, rows, cols, ss) <==>
            && StampsFit(g, rows, cols, ss[..|ss| - 1])
            && OpenAt(g, rows, cols, ss[|ss| - 1].at)
            && forall a :: 0 <= a < |ss| - 1 ==> Resolve(rows, cols, ss[a].at) != Resolve(rows, cols, ss[|ss| - 1].at)
  {
    var init := ss[..|ss| - 1];
    assert forall a :: 0 <= a < |init| ==> init[a] == ss[a];
  }

  /** Copies the stamps in order; a stamp outside the grid raises and one
      on a cell that is no longer `[0,0]` is a collision. */
  function StampAll(g: Grid, rows: nat, cols: nat, ss: seq<Stamp>): (r: Result<Grid>)
    requires IsRect(g, rows, cols)
    ensures r.Ok? <==> StampsFit(g, rows, cols, ss)
    ensures r.Ok? ==> IsRect(r.value, rows, cols) && StampedFrom(g, r.value, rows, cols, ss)
  {
    if |ss| == 0 then Ok(g)
    else
      var init := ss[..|ss| - 1];
      var s := ss[|ss| - 1];
      StampsFitSnoc(g, rows, cols, ss);
      var prev :- StampAll(g, rows, cols, init);
      match Resolve(rows, cols, s.at)
      case None => Err("list index out of range")
      case Some(t) =>
        StampStep(g, prev, rows, cols, ss, t);
        if prev[t.0][t.1] != Empty then Err("Collision between components")
        else PutAt(prev, rows, cols, s.at, Mark(s.m))
  }

  lemma StampStep(g: Grid, g1: Grid, rows: nat, cols: nat, ss: seq<Stamp>, t: (nat, nat))
    requires IsRect(g, rows, cols) && IsRect(g1, rows, cols) && |ss| > 0
    requires StampedFrom(g, g1, rows, cols, ss[..|ss| - 1])
    requires Resolve(rows, cols, ss[|ss| - 1].at) == Some(t)
    ensures g1[t.0][t.1] == Empty <==>
            g[t.0][t.1] == Empty && forall a :: 0 <= a < |ss| - 1 ==> Resolve(rows, cols, ss[a].at) != Some(t)
    ensures forall i, j :: 0 <= i < rows && 0 <= j < cols ==>
              (if (i, j) == t then Mark(ss[|ss| - 1].m) else g1[i][j])
              == (match Cover(rows, cols, ss, i, j) case Some(m) => Mark(m) case None => g[i][j])
  {
    var init := ss[..|ss| - 1];
    CoverNone(rows, cols, init, t.0, t.1);
    assert forall a :: 0 <= a < |init| ==> init[a] == ss[a];
  }

  // ------------------------------------------------ shifting and labels

  /** `(cid,) + label` */
  function Prefix(cid: int, lab: Label): Label {
    [Num(cid)] + lab
  }

  function Offset(o: Loc, l: Loc): Loc {
    (o.0 + l.0, o.1 + l.1)
  }

  function ShiftPorts(cid: int, o: Loc, ps: seq<Port>): seq<Port> {
    seq(|ps|, k requires 0 <= k < |ps| => Port(Prefix(cid, ps[k].lab), Offset(o, ps[k].loc)))
  }

  function ShiftPhys(cid: int, o: Loc, ps: seq<PhyPort>): seq<PhyPort> {
    seq(|ps|, k requires 0 <= k < |ps| => PhyPort(Prefix(cid, ps[k].lab), Offset(o, ps[k].loc), ps[k].dir))
  }

  function ShiftBoxes(o: Loc, bs: seq<Box>): seq<Box> {
    seq(|bs|, k requires 0 <= k < |bs| => Box(Offset(o, bs[k].loc), bs[k].height, bs[k].width))
  }

  function ShiftPath(o: Loc, p: seq<Loc>): seq<Loc> {
    seq(|p|, k requires 0 <= k < |p| => Offset(o, p[k]))
  }

  function ShiftPaths(o: Loc, ps: seq<seq<Loc>>): seq<seq<Loc>> {
    seq(|ps|, k requires 0 <= k < |ps| => ShiftPath(o, ps[k]))
  }

  datatype Side = MasterSide | SlaveSide

  function SideOf(b: Block, s: Side): seq<Port> {
    if s == MasterSide then b.masters else b.slaves
  }

  function TabOf(b: Block, s: Side): Tables {
    if s == MasterSide then b.mTab else b.sTab
  }

  /** The master (slave) ports of all components, re-labelled and shifted,
      in component order. */
  function Gather(cs: seq<Component>, s: Side): seq<Port> {
    if |cs| == 0 then []
    else
      var c := cs[|cs| - 1];
      Gather(cs[..|cs| - 1], s) + ShiftPorts(|cs| - 1, c.loc, SideOf(c.block, s))
  }

  function GatherPhys(cs: seq<Component>): seq<PhyPort> {
    if |cs| == 0 then []
    else
      var c := cs[|cs| - 1];
      GatherPhys(cs[..|cs| - 1]) + ShiftPhys(|cs| - 1, c.loc, c.block.phys)
  }

  function GatherBoxes(cs: seq<Component>): seq<Box> {
    if |cs| == 0 then []
    else
      var c := cs[|cs| - 1];
      GatherBoxes(cs[..|cs| - 1]) + ShiftBoxes(c.loc, c.block.tiles)
  }

  function GatherPaths(cs: seq<Component>): seq<seq<Loc>> {
    if |cs| == 0 then []
    else
      var c := cs[|cs| - 1];
      GatherPaths(cs[..|cs| - 1]) + ShiftPaths(c.loc, c.block.paths)
  }

  /** Every gathered label starts with the index of a component. */
  predicate LedBelow(ps: seq<Port>, n: nat) {
    forall i :: 0 <= i < |ps| ==> |ps[i].lab| > 0 && ps[i].lab[0].Num? && 0 <= ps[i].lab[0].n < n
  }

  lemma {:induction false} GatherLed(cs: seq<Component>, s: Side)
    ensures LedBelow(Gather(cs, s), |cs|)
  {
    if |cs| > 0 {
      GatherLed(cs[..|cs| - 1], s);
    }
  }

  /** Labels unique inside every component stay unique after prefixing
      with the component index. */
  lemma {:induction false} GatherUniqueLabs(cs: seq<Component>, s: Side)
    requires forall k :: 0 <= k < |cs| ==> UniqueLabs(SideOf(cs[k].block, s))
    ensures UniqueLabs(Gather(cs, s))
  {
    if |cs| > 0 {
      var n := |cs| - 1;
      var init := cs[..n];
      assert forall k :: 0 <= k < n ==> init[k] == cs[k];
      GatherUniqueLabs(init, s);
      GatherLed(init, s);
      assert Gather(cs, s) == Gather(init, s) + ShiftPorts(n, cs[n].loc, SideOf(cs[n].block, s));
      JoinUniqueLabs(Gather(init, s), SideOf(cs[n].block, s), n, cs[n].loc);
    }
  }

  /** Appending a prefixed component's ports, whose labels are unique, to
      ports led by smaller indices keeps the labels unique. */
  lemma JoinUniqueLabs(a: seq<Port>, own: seq<Port>, n: nat, o: Loc)
    requires UniqueLabs(a) && LedBelow(a, n) && UniqueLabs(own)
    ensures UniqueLabs(a + ShiftPorts(n, o, own))
  {
    var b := ShiftPorts(n, o, own);
    var g := a + b;
    forall i, j | 0 <= i < j < |g| ensures g[i].lab != g[j].lab {
      if j < |a| {
        assert g[i] == a[i] && g[j] == a[j];
      } else if i < |a| {
        assert g[i].lab[0] == a[i].lab[0] && a[i].lab[0].n < n;
        assert g[j].lab[0] == Num(n);
      } else {
        var i', j' := i - |a|, j - |a|;
        assert g[i].lab == Prefix(n, own[i'].lab) && g[j].lab == Prefix(n, own[j'].lab);
        assert own[i'].lab != own[j'].lab;
        assert Prefix(n, own[i'].lab)[1..] == own[i'].lab;
        assert Prefix(n, own[j'].lab)[1..] == own[j'].lab;
      }
    }
  }

  // ----------------------------------------------------------- the grid

  /** The cell lists of all paths. */
  function ExpandAll(ps: seq<seq<Loc>>): (r: Result<seq<seq<Loc>>>)
    ensures r.Ok? <==> forall q :: 0 <= q < |ps| ==> Expand(ps[q]).Ok?
    ensures r.Ok? ==> |r.value| == |ps| && forall q :: 0 <= q < |ps| ==> Expand(ps[q]) == Ok(r.value[q])
  {
    if |ps| == 0 then Ok([])
    else
      var init := ps[..|ps| - 1];
      assert forall q :: 0 <= q < |init| ==> init[q] == ps[q];
      match ExpandAll(init)
      case Err(m) => Err(m)
      case Ok(prev) =>
        match Expand(ps[|ps| - 1])
        case Err(m) => Err(m)
        case Ok(full) => Ok(prev + [full])
  }

  /** No component grid is empty (`comp_grid[0]` raises otherwise). */
  predicate NonEmpty(cs: seq<Component>) {
    forall k :: 0 <= k < |cs| ==> cs[k].block.nRows > 0
  }

  /** The parent grid holding every component's markers, before routing. */
  function Merged(rows: nat, cols: nat, cs: seq<Component>): Result<Grid>
  {
    if !NonEmpty(cs) then Err("list index out of range")
    else StampAll(Filled(rows, cols, Empty), rows, cols, AllStamps(cs))
  }

  lemma MergedShape(rows: nat, cols: nat, cs: seq<Component>)
    ensures Merged(rows, cols, cs).Ok? <==> NonEmpty(cs) && StampsFit(Filled(rows, cols, Empty), rows, cols, AllStamps(cs))
    ensures Merged(rows, cols, cs).Ok? ==>
              IsRect(Merged(rows, cols, cs).value, rows, cols)
              && StampedFrom(Filled(rows, cols, Empty), Merged(rows, cols, cs).value, rows, cols, AllStamps(cs))
  {
  }

  /** `compose_grid`: the merged markers, the shifted and re-labelled items
      of all components with their tables, and the module's own paths
      followed by the components' paths, all marked on the grid. The
      logical graph is left empty here. */
  function ComposeGrid(rows: nat, cols: nat, cs: seq<Component>, own: seq<seq<Loc>>): (r: Result<Block>)
    ensures r.Ok? ==> r.value.nRows == rows && r.value.nCols == cols && IsRect(r.value.grid, rows, cols)
    ensures r.Ok? ==> r.value.paths == own + GatherPaths(cs) && r.value.tiles == GatherBoxes(cs)
    ensures r.Ok? ==> r.value.masters == Gather(cs, MasterSide) && r.value.slaves == Gather(cs, SlaveSide)
                      && r.value.phys == GatherPhys(cs)
    ensures r.Ok? ==> TablesConsistent(r.value)
  {
    var g0 :- Merged(rows, cols, cs);
    MergedShape(rows, cols, cs);
    var paths := own + GatherPaths(cs);
    var fulls :- ExpandAll(paths);
    var g :- MarkPaths(g0, rows, cols, fulls, false);
    var ms := Gather(cs, MasterSide);
    var ss := Gather(cs, SlaveSide);
    var ps := GatherPhys(cs);
    Ok(Block(rows, cols, g, GatherBoxes(cs), paths, ms, ss, ps,
             TablesOf(ms), TablesOf(ss), TablesOf(PhyAsPorts(ps)), [], [], map[]))
  }

  /** Every interior cell of every full path is inside the grid. */
  predicate InsidePaths(rows: nat, cols: nat, fulls: seq<seq<Loc>>) {
    forall q, k :: 0 <= q < |fulls| && 1 <= k < Interior(fulls[q]) ==>
      Resolve(rows, cols, fulls[q][k]).Some?
  }

  /** Marking as the composer does, skipping marker cells, only needs the
      interior cells inside the grid. */
  lemma InsideIsLanding(g0: Grid, rows: nat, cols: nat, fulls: seq<seq<Loc>>)
    requires IsRect(g0, rows, cols)
    ensures AllLand(g0, rows, cols, fulls, false) <==> InsidePaths(rows, cols, fulls)
  {
    forall q, k | 0 <= q < |fulls| && 1 <= k < Interior(fulls[q])
      ensures LandsAt(g0, rows, cols, fulls[q][k], false) <==> Resolve(rows, cols, fulls[q][k]).Some?
    {
    }
  }

  /** Every interior cell of every full path is inside the grid and not
      covered by a component marker. */
  predicate ClearPaths(rows: nat, cols: nat, ss: seq<Stamp>, fulls: seq<seq<Loc>>) {
    forall q, k :: 0 <= q < |fulls| && 1 <= k < Interior(fulls[q]) ==>
      match Resolve(rows, cols, fulls[q][k])
      case None => false
      case Some(t) => Cover(rows, cols, ss, t.0, t.1) == None
  }

  /** Marking strictly, so that the composer's "already occupied" message
      rejects the module, fails exactly when some interior path cell is
      outside the grid or under a component marker. */
  lemma ClearIsLanding(g0: Grid, rows: nat, cols: nat, ss: seq<Stamp>, fulls: seq<seq<Loc>>)
    requires IsRect(g0, rows, cols) && StampedFrom(Filled(rows, cols, Empty), g0, rows, cols, ss)
    ensures AllLand(g0, rows, cols, fulls, true) <==> ClearPaths(rows, cols, ss, fulls)
  {
    forall q, k | 0 <= q < |fulls| && 1 <= k < Interior(fulls[q])
      ensures LandsAt(g0, rows, cols, fulls[q][k], true) <==>
              match Resolve(rows, cols, fulls[q][k])
              case None => false
              case Some(t) => Cover(rows, cols, ss, t.0, t.1) == None
    {
    }
  }

  /** The module's grid is composed exactly when no component grid is
      empty, every component marker lands on its own cell inside the
      grid, no hop of any path is diagonal and every interior path cell
      is inside the grid. A path crossing a component marker is not
      rejected: the cell is skipped. */
  lemma ComposeGridOk(rows: nat, cols: nat, cs: seq<Component>, own: seq<seq<Loc>>)
    ensures ComposeGrid(rows, cols, cs, own).Ok? <==>
            && NonEmpty(cs)
            && StampsFit(Filled(rows, cols, Empty), rows, cols, AllStamps(cs))
            && ExpandAll(own + GatherPaths(cs)).Ok?
            && InsidePaths(rows, cols, ExpandAll(own + GatherPaths(cs)).value)
  {
    var m := Merged(rows, cols, cs);
    MergedShape(rows, cols, cs);
    if m.Ok? && ExpandAll(own + GatherPaths(cs)).Ok? {
      InsideIsLanding(m.value, rows, cols, ExpandAll(own + GatherPaths(cs)).value);
    }
  }

  /** A composed cell holds the component marker copied onto it, or else a
      wire counter equal to the total use of the cell by all paths. */
  lemma ComposedCells(rows: nat, cols: nat, cs: seq<Component>, own: seq<seq<Loc>>, b: Block)
    requires ComposeGrid(rows, cols, cs, own) == Ok(b)
    ensures ExpandAll(b.paths).Ok?
    ensures forall i, j :: 0 <= i < rows && 0 <= j < cols ==>
              b.grid[i][j] == match Cover(rows, cols, AllStamps(cs), i, j)
                              case Some(m) => Mark(m)
                              case None => Wire(TotalUses(rows, cols, ExpandAll(b.paths).value, i, j, H),
                                                TotalUses(rows, cols, ExpandAll(b.paths).value, i, j, V))
  {
    MergedShape(rows, cols, cs);
    var g0 := Merged(rows, cols, cs).value;
    var fulls := ExpandAll(b.paths).value;
    var g := MarkPaths(g0, rows, cols, fulls, false).value;
    assert b.grid == g;
    StampedThenRaised(rows, cols, AllStamps(cs), fulls, g0, g);
  }

  lemma StampedThenRaised(rows: nat, cols: nat, ss: seq<Stamp>, fulls: seq<seq<Loc>>, g0: Grid, g: Grid)
    requires IsRect(g0, rows, cols) && IsRect(g, rows, cols)
    requires StampedFrom(Filled(rows, cols, Empty), g0, rows, cols, ss) && RaisedByAll(g0, g, rows, cols, fulls)
    ensures forall i, j :: 0 <= i < rows && 0 <= j < cols ==>
              g[i][j] == match Cover(rows, cols, ss, i, j)
                         case Some(m) => Mark(m)
                         case None => Wire(TotalUses(rows, cols, fulls, i, j, H), TotalUses(rows, cols, fulls, i, j, V))
  {
  }

  /** When the re-labelled ports of one kind sit at distinct locations, the
      module's two tables for that kind are mutually inverse on them. */
  lemma ComposedTablesInverse(rows: nat, cols: nat, cs: seq<Component>, own: seq<seq<Loc>>, b: Block, s: Side)
    requires ComposeGrid(rows, cols, cs, own) == Ok(b)
    requires forall k :: 0 <= k < |cs| ==> UniqueLabs(SideOf(cs[k].block, s))
    requires UniqueLocs(SideOf(b, s))
    ensures forall k :: 0 <= k < |SideOf(b, s)| ==>
              && SideOf(b, s)[k].lab in TabOf(b, s).labToLoc
              && TabOf(b, s).labToLoc[SideOf(b, s)[k].lab] == SideOf(b, s)[k].loc
              && SideOf(b, s)[k].loc in TabOf(b, s).locToLab
              && TabOf(b, s).locToLab[SideOf(b, s)[k].loc] == SideOf(b, s)[k].lab
  {
    GatherUniqueLabs(cs, s);
    TablesAreInverse(SideOf(b, s));
  }

  // ---------------------------------------------------------- the graph

  /** An edge with its delay, in the order the delay dictionary is filled. */
  datatype Timed = Timed(e: Edge, d: int)

  function PrefixEdge(cid: int, e: Edge): Edge {
    Edge(Prefix(cid, e.src), Prefix(cid, e.dst))
  }

  function PrefixLabels(cid: int, vs: seq<Label>): (r: seq<Label>)
    ensures |r| == |vs| && forall k :: 0 <= k < |vs| ==> r[k] == Prefix(cid, vs[k])
  {
    seq(|vs|, k requires 0 <= k < |vs| => Prefix(cid, vs[k]))
  }

  function CompVertices(cs: seq<Component>): seq<Label> {
    if |cs| == 0 then []
    else CompVertices(cs[..|cs| - 1]) + PrefixLabels(|cs| - 1, cs[|cs| - 1].block.vertices)
  }

  function VertexCount(cs: seq<Component>): nat {
    if |cs| == 0 then 0 else VertexCount(cs[..|cs| - 1]) + |cs[|cs| - 1].block.vertices|
  }

  function EdgeCount(cs: seq<Component>): nat {
    if |cs| == 0 then 0 else EdgeCount(cs[..|cs| - 1]) + |cs[|cs| - 1].block.edges|
  }

  /** The module's vertices are the components' vertices, each prefixed
      with its component index, and nothing else. */
  lemma {:induction false} CompVerticesAre(cs: seq<Component>, v: Label)
    ensures |CompVertices(cs)| == VertexCount(cs)
    ensures v in CompVertices(cs) <==>
            exists k :: 0 <= k < |cs| && |v| > 0 && v[0] == Num(k) && v[1..] in cs[k].block.vertices
  {
    if |cs| > 0 {
      var n := |cs| - 1;
      var init := cs[..n];
      CompVerticesAre(init, v);
      assert forall k :: 0 <= k < n ==> init[k] == cs[k];
      var own := PrefixLabels(n, cs[n].block.vertices);
      if v in own {
        var i :| 0 <= i < |own| && own[i] == v;
        assert v[1..] == cs[n].block.vertices[i];
      }
      if |v| > 0 && v[0] == Num(n) && v[1..] in cs[n].block.vertices {
        var i :| 0 <= i < |cs[n].block.vertices| && cs[n].block.vertices[i] == v[1..];
        assert own[i] == [v[0]] + v[1..] == v;
      }
    }
  }

  /** Whether every edge of the component has an entry in its delays. */
  predicate DelaysKnown(b: Block) {
    forall k :: 0 <= k < |b.edges| ==> b.edges[k] in b.delays
  }

  /** One component's edges, prefixed, with the delays the component
      recorded for them; a missing delay raises `KeyError`. */
  function OwnTimed(cid: int, b: Block): (r: Result<seq<Timed>>)
    ensures r.Ok? <==> DelaysKnown(b)
    ensures r.Ok? ==> |r.value| == |b.edges| && forall k :: 0 <= k < |b.edges| ==>
              r.value[k] == Timed(PrefixEdge(cid, b.edges[k]), b.delays[b.edges[k]])
  {
    if DelaysKnown(b) then
      Ok(seq(|b.edges|, k requires 0 <= k < |b.edges| => Timed(PrefixEdge(cid, b.edges[k]), b.delays[b.edges[k]])))
    else Err("KeyError: edge without delay")
  }

  function CompTimed(cs: seq<Component>): (r: Result<seq<Timed>>)
    ensures r.Ok? <==> forall k :: 0 <= k < |cs| ==> DelaysKnown(cs[k].block)
    ensures r.Ok? ==> |r.value| == EdgeCount(cs)
  {
    if |cs| == 0 then Ok([])
    else
      var init := cs[..|cs| - 1];
      assert forall k :: 0 <= k < |init| ==> init[k] == cs[k];
      match CompTimed(init)
      case Err(m) => Err(m)
      case Ok(prev) =>
        match OwnTimed(|cs| - 1, cs[|cs| - 1].block)
        case Err(m) => Err(m)
        case Ok(own) => Ok(prev + own)
  }

  /** Per-hop delay of a waypoint path: a change of column crosses cells
      horizontally and costs `dh` each, a change of row costs `dv` each. */
  function PathDelay(con: seq<Loc>, dh: int, dv: int): int {
    if |con| < 2 then 0
    else Abs(con[0].1 - con[1].1) * dh + Abs(con[0].0 - con[1].0) * dv + PathDelay(con[1..], dh, dv)
  }

  /** The path delay as the code computes it: the row change is charged
      `delay_h` and the column change `delay_v`. */
  function PathDelayAsWritten(con: seq<Loc>, dh: int, dv: int): int {
    if |con| < 2 then 0
    else Abs(con[0].0 - con[1].0) * dh + Abs(con[0].1 - con[1].1) * dv + PathDelayAsWritten(con[1..], dh, dv)
  }

  /** With square cells both readings agree, and the delay is the cell
      count of the expanded path (minus one) times the per-cell delay. */
  lemma {:induction false} DelayOfLength(con: seq<Loc>, d: int)
    ensures PathDelay(con, d, d) == PathDelayAsWritten(con, d, d) == d * Length(con)
  {
    if |con| >= 2 {
      DelayOfLength(con[1..], d);
      var x, y := Abs(con[0].0 - con[1].0), Abs(con[0].1 - con[1].1);
      assert Length(con) == x + y + Length(con[1..]);
      Distrib(d, x, y, Length(con[1..]));
    }
  }

  /** A path running along one row only moves horizontally: corrected, it
      costs `dh` per column; as written it costs `dv` per column. */
  lemma {:induction false} RowPathDelay(con: seq<Loc>, dh: int, dv: int)
    requires forall k :: 0 <= k < |con| ==> con[k].0 == con[0].0
    ensures PathDelay(con, dh, dv) == dh * Length(con)
    ensures PathDelayAsWritten(con, dh, dv) == dv * Length(con)
  {
    if |con| >= 2 {
      assert forall k :: 0 <= k < |con[1..]| ==> con[1..][k].0 == con[1..][0].0;
      RowPathDelay(con[1..], dh, dv);
      var y := Abs(con[0].1 - con[1].1);
      assert Length(con) == 0 + y + Length(con[1..]);
      Distrib(dh, 0, y, Length(con[1..]));
      Distrib(dv, 0, y, Length(con[1..]));
    }
  }

  lemma Distrib(d: int, x: int, y: int, z: int)
    ensures d * (x + y + z) == x * d + y * d + d * z
  {
  }

  /** The hop of three columns along row 0, with `delay_h` = 1 and
      `delay_v` = 2: the code charges 6, the horizontal cost is 3. */
  lemma DelaySwapped()
    ensures PathDelayAsWritten([(0, 0), (0, 3)], 1, 2) == 6
    ensures PathDelay([(0, 0), (0, 3)], 1, 2) == 3
  {
  }

  /** The path's first cell is a master port and its last a slave port. */
  predicate EndsKnown(b: Block, con: seq<Loc>) {
    |con| > 0 && con[0] in b.mTab.locToLab && con[|con| - 1] in b.sTab.locToLab
  }

  function PathEdge(b: Block, con: seq<Loc>): Edge
    requires EndsKnown(b, con)
  {
    Edge(b.mTab.locToLab[con[0]], b.sTab.locToLab[con[|con| - 1]])
  }

  /** One edge per path, master label to slave label, with its delay as
      the composer computes it. */
  function PathTimed(b: Block, ps: seq<seq<Loc>>, dh: int, dv: int): (r: Result<seq<Timed>>)
    ensures r.Ok? <==> forall q :: 0 <= q < |ps| ==> EndsKnown(b, ps[q])
    ensures r.Ok? ==> |r.value| == |ps| && forall q :: 0 <= q < |ps| ==>
              r.value[q] == Timed(PathEdge(b, ps[q]), PathDelayAsWritten(ps[q], dh, dv))
  {
    if |ps| == 0 then Ok([])
    else
      var init := ps[..|ps| - 1];
      var con := ps[|ps| - 1];
      assert forall q :: 0 <= q < |init| ==> init[q] == ps[q];
      match PathTimed(b, init, dh, dv)
      case Err(m) => Err(m)
      case Ok(prev) =>
        if |con| == 0 then Err("list index out of range")
        else if con[0] !in b.mTab.locToLab then Err("KeyError: no master port at path start")
        else if con[|con| - 1] !in b.sTab.locToLab then Err("KeyError: no slave port at path end")
        else Ok(prev + [Timed(PathEdge(b, con), PathDelayAsWritten(con, dh, dv))])
  }

  function EdgesOf(ts: seq<Timed>): (r: seq<Edge>)
    ensures |r| == |ts| && forall k :: 0 <= k < |ts| ==> r[k] == ts[k].e
  {
    seq(|ts|, k requires 0 <= k < |ts| => ts[k].e)
  }

  /** The delay dictionary filled in order; a repeated edge keeps the last delay. */
  function DelayMap(ts: seq<Timed>): map<Edge, int> {
    if |ts| == 0 then map[] else DelayMap(ts[..|ts| - 1])[ts[|ts| - 1].e := ts[|ts| - 1].d]
  }

  lemma {:induction false} DelayMapKeys(ts: seq<Timed>)
    ensures DelayMap(ts).Keys == set k | 0 <= k < |ts| :: ts[k].e
  {
    if |ts| > 0 {
      var init := ts[..|ts| - 1];
      DelayMapKeys(init);
      assert forall k :: 0 <= k < |init| ==> init[k] == ts[k];
      assert (set k | 0 <= k < |ts| :: ts[k].e) == (set k | 0 <= k < |init| :: init[k].e) + {ts[|ts| - 1].e};
    }
  }

  lemma {:induction false} DelayMapLast(ts: seq<Timed>, k: nat)
    requires k < |ts| && forall j :: k < j < |ts| ==> ts[j].e != ts[k].e
    ensures ts[k].e in DelayMap(ts) && DelayMap(ts)[ts[k].e] == ts[k].d
  {
    if k < |ts| - 1 {
      var init := ts[..|ts| - 1];
      assert forall j :: k < j < |init| ==> init[j] == ts[j];
      DelayMapLast(init, k);
    }
  }

  /** `compose_graph`: the components' vertices and edges with the index
      prefix, their delays copied, then one edge per path of the module. */
  function ComposeGraph(b: Block, cs: seq<Component>, dh: int, dv: int): (r: Result<Block>)
    ensures r.Ok? <==> (forall k :: 0 <= k < |cs| ==> DelaysKnown(cs[k].block))
                       && forall q :: 0 <= q < |b.paths| ==> EndsKnown(b, b.paths[q])
    ensures r.Ok? ==> r.value == b.(vertices := r.value.vertices, edges := r.value.edges, delays := r.value.delays)
    ensures r.Ok? ==> r.value.vertices == CompVertices(cs)
    ensures r.Ok? ==> |r.value.edges| == EdgeCount(cs) + |b.paths|
    ensures r.Ok? ==> forall q :: 0 <= q < |b.paths| ==> r.value.edges[EdgeCount(cs) + q] == PathEdge(b, b.paths[q])
    ensures r.Ok? ==> r.value.delays.Keys == set k | 0 <= k < |r.value.edges| :: r.value.edges[k]
  {
    var own :- CompTimed(cs);
    var routed :- PathTimed(b, b.paths, dh, dv);
    var ts := own + routed;
    DelayMapKeys(ts);
    Ok(b.(vertices := CompVertices(cs), edges := EdgesOf(ts), delays := DelayMap(ts)))
  }

  /** A path whose edge is not added again later keeps its own delay. */
  lemma PathEdgeDelay(b: Block, cs: seq<Component>, dh: int, dv: int, r: Block, q: nat)
    requires ComposeGraph(b, cs, dh, dv) == Ok(r)
    requires q < |b.paths|
    requires forall q' :: q < q' < |b.paths| ==> PathEdge(b, b.paths[q']) != PathEdge(b, b.paths[q])
    ensures PathEdge(b, b.paths[q]) in r.delays && r.delays[PathEdge(b, b.paths[q])] == PathDelayAsWritten(b.paths[q], dh, dv)
  {
    GraphDelays(b, cs, dh, dv, r);
    var own, routed := CompTimed(cs).value, PathTimed(b, b.paths, dh, dv).value;
    var e := PathEdge(b, b.paths[q]);
    assert routed[q] == Timed(e, PathDelayAsWritten(b.paths[q], dh, dv));
    forall q' | q < q' < |routed| ensures routed[q'].e != routed[q].e {
      assert routed[q'].e == PathEdge(b, b.paths[q']);
    }
    LastRoutedDelay(own, routed, q);
  }

  /** The delays of a composed graph are those of its timed edges. */
  lemma GraphDelays(b: Block, cs: seq<Component>, dh: int, dv: int, r: Block)
    requires ComposeGraph(b, cs, dh, dv) == Ok(r)
    ensures CompTimed(cs).Ok? && PathTimed(b, b.paths, dh, dv).Ok?
    ensures r.delays == DelayMap(CompTimed(cs).value + PathTimed(b, b.paths, dh, dv).value)
  {
  }

  lemma LastRoutedDelay(own: seq<Timed>, routed: seq<Timed>, q: nat)
    requires q < |routed| && forall q' :: q < q' < |routed| ==> routed[q'].e != routed[q].e
    ensures routed[q].e in DelayMap(own + routed) && DelayMap(own + routed)[routed[q].e] == routed[q].d
  {
    var ts := own + routed;
    var k := |own| + q;
    assert ts[k] == routed[q];
    forall j | k < j < |ts| ensures ts[j].e != ts[k].e {
      assert ts[j] == routed[j - |own|];
    }
    DelayMapLast(ts, k);
  }

  // ------------------------------------------------------ the whole module

  /** A module description: its size, its component list and its own paths. */
  datatype ModuleFile = ModuleFile(nRows: nat, nCols: nat, comps: seq<RawComponent>, paths: seq<seq<Loc>>)

  /** `Module.__init__` up to the cell census: read, compose the grid,
      compose the graph. */
  function BuildModule(f: ModuleFile, dh: int, dv: int): (r: Result<Block>)
    requires RawShaped(f.comps)
    ensures r.Ok? ==> ListOk(f.comps)
    ensures r.Ok? ==> r.value.nRows == f.nRows && r.value.nCols == f.nCols && Shaped(r.value)
    ensures r.Ok? ==> TablesConsistent(r.value)
    ensures r.Ok? <==>
              && ListOk(f.comps)
              && var cs := ReadComponents(f.comps).value;
                 var g := ComposeGrid(f.nRows, f.nCols, cs, f.paths);
                 && g.Ok?
                 && (forall k :: 0 <= k < |cs| ==> DelaysKnown(cs[k].block))
                 && forall q :: 0 <= q < |g.value.paths| ==> EndsKnown(g.value, g.value.paths[q])
    ensures r.Ok? ==> var cs := ReadComponents(f.comps).value;
              && r.value.paths == f.paths + GatherPaths(cs) && r.value.tiles == GatherBoxes(cs)
              && r.value.masters == Gather(cs, MasterSide) && r.value.slaves == Gather(cs, SlaveSide)
              && r.value.phys == GatherPhys(cs)
              && r.value.vertices == CompVertices(cs)
              && |r.value.edges| == EdgeCount(cs) + |r.value.paths|
  {
    match ReadComponents(f.comps)
    case Err(m) => Err(m)
    case Ok(cs) =>
      match ComposeGrid(f.nRows, f.nCols, cs, f.paths)
      case Err(m) => Err(m)
      case Ok(b) => ComposeGraph(b, cs, dh, dv)
  }

  /** A built module can be mirrored, and mirroring it twice with the same
      flags gives it back; without flags nothing changes. */
  lemma ModuleMirror(f: ModuleFile, dh: int, dv: int, b: Block, xm: bool, ym: bool)
    requires RawShaped(f.comps) && BuildModule(f, dh, dv) == Ok(b)
    ensures Mirror(Mirror(b, xm, ym), xm, ym) == b
    ensures Mirror(b, false, false) == b
  {
    MirrorInvolution(b, xm, ym);
    MirrorNoFlags(b);
  }

  // ------------------------------------------------------------- census

  datatype Use = LogicUse | WireUse | EmptyUse

  /** A marker is logic, a counter with some use is wire, `[0,0]` is empty. */
  function UseOf(x: Cell): Use {
    if x.Mark? then LogicUse else if x.h > 0 || x.v > 0 then WireUse else EmptyUse
  }

  function RowTally(row: seq<Cell>, u: Use): nat {
    if |row| == 0 then 0
    else RowTally(row[..|row| - 1], u) + (if UseOf(row[|row| - 1]) == u then 1 else 0)
  }

  function GridTally(g: Grid, u: Use): nat {
    if |g| == 0 then 0 else GridTally(g[..|g| - 1], u) + RowTally(g[|g| - 1], u)
  }

  /** The sum of the counters along `a` over the wire cells. */
  function RowLoad(row: seq<Cell>, a: Axis): nat {
    if |row| == 0 then 0
    else
      var x := row[|row| - 1];
      RowLoad(row[..|row| - 1], a) + (if UseOf(x) == WireUse then Count(x, a) else 0)
  }

  function GridLoad(g: Grid, a: Axis): nat {
    if |g| == 0 then 0 else GridLoad(g[..|g| - 1], a) + RowLoad(g[|g| - 1], a)
  }

  datatype Census = Census(logic: nat, wire: nat, hLoad: nat, vLoad: nat, empty: nat)

  /** Counts the logic, wire and empty cells of one row and its wire load
      along each axis; every cell falls in exactly one class. */
  method RowCensus(row: seq<Cell>) returns (c: Census)
    ensures c.logic == RowTally(row, LogicUse) && c.wire == RowTally(row, WireUse) && c.empty == RowTally(row, EmptyUse)
    ensures c.hLoad == RowLoad(row, H) && c.vLoad == RowLoad(row, V)
    ensures c.logic + c.wire + c.empty == |row|
  {
    var logic, wire, hLoad, vLoad, empty := 0, 0, 0, 0, 0;
    var k := 0;
    while k < |row|
      invariant 0 <= k <= |row|
      invariant logic == RowTally(row[..k], LogicUse) && wire == RowTally(row[..k], WireUse)
      invariant empty == RowTally(row[..k], EmptyUse)
      invariant hLoad == RowLoad(row[..k], H) && vLoad == RowLoad(row[..k], V)
      invariant logic + wire + empty == k
    {
      var x := row[k];
      assert row[..k + 1][..k] == row[..k];
      match UseOf(x) {
        case LogicUse => logic := logic + 1;
        case WireUse =>
          wire := wire + 1;
          hLoad := hLoad + x.h;
          vLoad := vLoad + x.v;
        case EmptyUse => empty := empty + 1;
      }
      k := k + 1;
    }
    assert row[..k] == row;
    c := Census(logic, wire, hLoad, vLoad, empty);
  }

  /** Adding row `r` to the rows above it adds that row's tallies and loads. */
  lemma GridStep(g: Grid, r: nat)
    requires r < |g|
    ensures forall u :: GridTally(g[..r + 1], u) == GridTally(g[..r], u) + RowTally(g[r], u)
    ensures forall a :: GridLoad(g[..r + 1], a) == GridLoad(g[..r], a) + RowLoad(g[r], a)
  {
    assert g[..r + 1][..r] == g[..r];
  }

  /** Counts logic, wire and empty cells and the wire load along each axis;
      every cell falls in exactly one class. */
  method Classify(g: Grid, rows: nat, cols: nat) returns (c: Census)
    requires IsRect(g, rows, cols)
    ensures c.logic == GridTally(g, LogicUse) && c.wire == GridTally(g, WireUse) && c.empty == GridTally(g, EmptyUse)
    ensures c.hLoad == GridLoad(g, H) && c.vLoad == GridLoad(g, V)
    ensures c.logic + c.wire + c.empty == rows * cols
  {
    c := Census(0, 0, 0, 0, 0);
    var r := 0;
    while r < rows
      invariant 0 <= r <= rows
      invariant c.logic == GridTally(g[..r], LogicUse) && c.wire == GridTally(g[..r], WireUse)
      invariant c.empty == GridTally(g[..r], EmptyUse)
      invariant c.hLoad == GridLoad(g[..r], H) && c.vLoad == GridLoad(g[..r], V)
      invariant c.logic + c.wire + c.empty == r * cols
    {
      var d := RowCensus(g[r]);
      GridStep(g, r);
      assert |g[r]| == cols;
      c := Census(c.logic + d.logic, c.wire + d.wire, c.hLoad + d.hLoad, c.vLoad + d.vLoad, c.empty + d.empty);
      r := r + 1;
    }
    assert g[..rows] == g;
  }
}
