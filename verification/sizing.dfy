/** Sizing of the routing channels (`compute_final_grid_size` in
    src/place_and_route.py, lines 166-257).

    Every coarse route is replayed on an intermediate grid in which each
    channel between tiles is a single line of cells. Each hop raises the
    horizontal or vertical counter of the cells it crosses, and every
    channel then gets as many lines as the busiest of its cells has wires
    running along it; tile rows and columns keep the tile's size. */
module Sizing {
  import opened Wrappers
  import opened Cells
  import opened Bumps
  import opened Coarse
  import opened Blocks
  import Paths

  // ------------------------------------------------------------ arithmetic

  lemma DivModUnique(k: int, m: int, r: int)
    requires m > 0 && 0 <= r < m
    ensures (k * m + r) / m == k && (k * m + r) % m == r
  {
    var x := k * m + r;
    var q, s := x / m, x % m;
    assert x == q * m + s;
    var d := q - k;
    Distrib(q, k, m);
    assert d * m == r - s;
    if d >= 1 {
      MulLe(1, d, m);
    } else if d <= -1 {
      MulLe(d, -1, m);
    }
  }

  lemma Distrib(q: int, k: int, m: int)
    ensures (q - k) * m == q * m - k * m
  {
  }

  lemma MulLe(a: int, b: int, m: nat)
    requires a <= b
    ensures a * m <= b * m
  {
    assert b * m - a * m == (b - a) * m;
  }

  // ------------------------------------------------------ intermediate grid

  /** `row_map` / `col_map`: coarse index `x` of `n` tiles of `size` lines
      to its first line in the intermediate grid; only indices below
      `2 * n + 2` are keys. */
  function MapLine(x: int, n: nat, size: nat): (r: Option<int>)
    ensures r.Some? <==> 0 <= x < 2 * n + 2
    ensures r.Some? ==> r.value == (x / 2) * (size + 1) + x % 2
  {
    if 0 <= x < 2 * n + 2 then Some((x / 2) * (size + 1) + (if x % 2 == 1 then 1 else 0)) else None
  }

  /** The intermediate grid: tile cells hold "T", channel cells are clear. */
  function Intermediate(tr: nat, tc: nat, nr: nat, nc: nat): (g: Grid)
    ensures IsRect(g, nr * (tr + 1) + 1, nc * (tc + 1) + 1)
  {
    seq(nr * (tr + 1) + 1, i =>
      seq(nc * (tc + 1) + 1, j =>
        if i % (tr + 1) != 0 && j % (tc + 1) != 0 then Mark(Logic) else Empty))
  }

  /** Cell (i, j) is painted by the tile loops: it is line `r` of a tile
      row and line `c` of a tile column. */
  predicate InTile(tr: nat, tc: nat, nr: nat, nc: nat, i: int, j: int) {
    InTileLine(tr, nr, i) && InTileLine(tc, nc, j)
  }

  /** Line `i` is line `r` of the `k`-th tile row (or column). */
  predicate InTileLine(size: nat, n: nat, i: int) {
    exists k, r :: 0 <= k < n && 0 <= r < size && i == LineOf(k, size, r)
  }

  /** Line `r` of the `k`-th tile: `row_map[2k+1] + r`. */
  function LineOf(k: int, size: nat, r: int): int {
    k * (size + 1) + 1 + r
  }

  /** `row_map[2k+1]` is the first line of tile row `k`. */
  lemma TileLine(k: int, n: nat, size: nat)
    requires 0 <= k < n
    ensures MapLine(2 * k + 1, n, size) == Some(LineOf(k, size, 0))
  {
    DivModUnique(k, 2, 1);
  }

  /** The closed form of the intermediate grid paints exactly the cells
      the tile loops paint. */
  lemma IntermediateTiles(tr: nat, tc: nat, nr: nat, nc: nat, i: nat, j: nat)
    requires i < nr * (tr + 1) + 1 && j < nc * (tc + 1) + 1
    ensures Intermediate(tr, tc, nr, nc)[i][j] == (if InTile(tr, tc, nr, nc, i, j) then Mark(Logic) else Empty)
  {
    TileLineIff(tr, nr, i);
    TileLineIff(tc, nc, j);
  }

  /** A line is a tile line exactly when it is not a multiple of the tile
      pitch. */
  lemma TileLineIff(size: nat, n: nat, i: nat)
    requires i < n * (size + 1) + 1
    ensures InTileLine(size, n, i) <==> i % (size + 1) != 0
  {
    var m := size + 1;
    if InTileLine(size, n, i) {
      var k, r :| 0 <= k < n && 0 <= r < size && i == LineOf(k, size, r);
      DivModUnique(k, m, r + 1);
    }
    if i % m != 0 {
      var k := i / m;
      DivModUnique(k, m, i % m);
      assert i == k * m + i % m;
      if k >= n {
        MulLe(n, k, m);
        assert false;
      }
      assert i == LineOf(k, size, i % m - 1);
    }
  }

  // ------------------------------------------------------------------ hops

  /** The counter bumps of hop `i` of a route, and where the hop ends.
      The first hop starts next to the master port, later hops where the
      previous one stopped; the hop before last runs to the slave port's
      line and the last one stops next to the slave port. */
  function HopBumps(cells: seq<Loc>, mloc: Loc, sloc: Loc, i: nat, last: Loc,
                    tr: nat, tc: nat, nr: nat, nc: nat): (r: Result<(seq<(Loc, Axis)>, Loc)>)
    requires i < |cells| - 1
    ensures r.Ok? <==> (cells[i].0 == cells[i + 1].0 || cells[i].1 == cells[i + 1].1)
                       && (if cells[i].0 == cells[i + 1].0 then MapLine(cells[i + 1].1, nc, tc).Some?
                           else MapLine(cells[i + 1].0, nr, tr).Some?)
    ensures r.Ok? ==> forall k :: 0 <= k < |r.value.0| ==> r.value.0[k].1 == HopAxis(cells[i], cells[i + 1])
  {
    var a, b, n := cells[i], cells[i + 1], |cells|;
    if a.0 == b.0 then
      var dir := if a.1 < b.1 then 1 else -1;
      var e :- Lookup(MapLine(b.1, nc, tc));
      var row := if i == n - 2 then sloc.0 else if i == 0 then mloc.0 else last.0;
      var start := if i == 0 then mloc.1 + dir else last.1;
      var end := if i == n - 2 then sloc.1 - dir else if i == n - 3 then sloc.1 else e;
      Ok((Line(H, row, PyRange(start, end + dir, dir)), (row, end)))
    else if a.1 == b.1 then
      var dir := if a.0 < b.0 then 1 else -1;
      var e :- Lookup(MapLine(b.0, nr, tr));
      var col := if i == n - 2 then sloc.1 else if i == 0 then mloc.1 else last.1;
      var start := if i == 0 then mloc.0 + dir else last.0;
      var end := if i == n - 2 then sloc.0 - dir else if i == n - 3 then sloc.0 else e;
      Ok((Line(V, col, PyRange(start, end + dir, dir)), (end, col)))
    else Err("Connection (coarse) changes row and column in same hop")
  }

  /** A dictionary lookup: a missing key raises. */
  function Lookup(x: Option<int>): (r: Result<int>)
    ensures r.Ok? <==> x.Some?
    ensures r.Ok? ==> r.value == x.value
  {
    match x
    case None => Err("KeyError")
    case Some(v) => Ok(v)
  }

  /** Hops `i` and later of a route. */
  function HopsFrom(cells: seq<Loc>, mloc: Loc, sloc: Loc, i: nat, last: Loc,
                    tr: nat, tc: nat, nr: nat, nc: nat): (r: Result<seq<(Loc, Axis)>>)
    requires i <= |cells| - 1
    decreases |cells| - i
  {
    if i == |cells| - 1 then Ok([])
    else
      var hop :- HopBumps(cells, mloc, sloc, i, last, tr, tc, nr, nc);
      var rest :- HopsFrom(cells, mloc, sloc, i + 1, hop.1, tr, tc, nr, nc);
      Ok(hop.0 + rest)
  }

  /** Every waypoint of a coarse route is a key of both maps. */
  predicate InMaps(cells: seq<Loc>, nr: nat, nc: nat) {
    forall k :: 0 <= k < |cells| ==> 0 <= cells[k].0 < 2 * nr + 2 && 0 <= cells[k].1 < 2 * nc + 2
  }

  /** A route whose hops never change row and column at once, and whose
      waypoints are keys of the maps, is always replayed: the error of
      line 198 never fires for it. */
  lemma {:induction false} HopsFromOk(cells: seq<Loc>, mloc: Loc, sloc: Loc, i: nat, last: Loc,
                                      tr: nat, tc: nat, nr: nat, nc: nat)
    requires i <= |cells| - 1
    requires Paths.Aligned(cells) && InMaps(cells, nr, nc)
    ensures HopsFrom(cells, mloc, sloc, i, last, tr, tc, nr, nc).Ok?
    decreases |cells| - i
  {
    if i < |cells| - 1 {
      var hop := HopBumps(cells, mloc, sloc, i, last, tr, tc, nr, nc);
      assert cells[i].0 == cells[i + 1].0 || cells[i].1 == cells[i + 1].1;
      assert hop.Ok?;
      HopsFromOk(cells, mloc, sloc, i + 1, hop.value.1, tr, tc, nr, nc);
    }
  }

  /** All counter bumps of one coarse route. */
  function PathBumps(p: CoarsePath, tr: nat, tc: nat, nr: nat, nc: nat): (r: Result<seq<(Loc, Axis)>>)
    ensures |p.cells| >= 2 && Paths.Aligned(p.cells) && InMaps(p.cells, nr, nc) ==> r.Ok?
  {
    if |p.cells| == 0 then Err("list index out of range")
    else
      var first, last := p.cells[0], p.cells[|p.cells| - 1];
      var mr :- Lookup(MapLine(first.0, nr, tr));
      var mc :- Lookup(MapLine(first.1, nc, tc));
      var sr :- Lookup(MapLine(last.0, nr, tr));
      var sc :- Lookup(MapLine(last.1, nc, tc));
      var mloc, sloc := (mr + p.mOff.0, mc + p.mOff.1), (sr + p.sOff.0, sc + p.sOff.1);
      HopsFromOkOpt(p.cells, mloc, sloc, tr, tc, nr, nc);
      HopsFrom(p.cells, mloc, sloc, 0, mloc, tr, tc, nr, nc)
  }

  lemma HopsFromOkOpt(cells: seq<Loc>, mloc: Loc, sloc: Loc, tr: nat, tc: nat, nr: nat, nc: nat)
    requires |cells| > 0
    ensures Paths.Aligned(cells) && InMaps(cells, nr, nc) ==> HopsFrom(cells, mloc, sloc, 0, mloc, tr, tc, nr, nc).Ok?
  {
    if Paths.Aligned(cells) && InMaps(cells, nr, nc) {
      HopsFromOk(cells, mloc, sloc, 0, mloc, tr, tc, nr, nc);
    }
  }

  /** The bumps of all routes, route after route. */
  function AllBumps(ps: seq<CoarsePath>, tr: nat, tc: nat, nr: nat, nc: nat): (r: Result<seq<(Loc, Axis)>>)
    ensures (forall k :: 0 <= k < |ps| ==> |ps[k].cells| >= 2 && Paths.Aligned(ps[k].cells) && InMaps(ps[k].cells, nr, nc))
            ==> r.Ok?
    decreases |ps|
  {
    if |ps| == 0 then Ok([])
    else
      var b :- PathBumps(ps[0], tr, tc, nr, nc);
      var rest :- AllBumps(ps[1..], tr, tc, nr, nc);
      Ok(b + rest)
  }

  // ----------------------------------------------------------------- sizes

  /** `m` is the largest counter along `a` among `cs`, which must all be
      counters (Python's `max` raises on a marker string). */
  function MaxCount(cs: seq<Cell>, a: Axis): (r: Result<nat>)
    requires |cs| > 0
    ensures r.Ok? <==> forall k :: 0 <= k < |cs| ==> cs[k].Wire?
    ensures r.Ok? ==> Widest(cs, a, r.value)
    decreases |cs|
  {
    if cs[0].Wire? then
      if |cs| == 1 then Ok(Count(cs[0], a))
      else
        var m :- MaxCount(cs[1..], a);
        assert forall k :: 1 <= k < |cs| ==> cs[k] == cs[1..][k - 1];
        Ok(if Count(cs[0], a) > m then Count(cs[0], a) else m)
    else
      var e: Result<nat> := Err("'>' not supported between instances of 'str' and 'int'");
      e
  }

  /** `m` is the largest counter along `a` among the counters `cs`. */
  predicate Widest(cs: seq<Cell>, a: Axis, m: nat) {
    && (forall k :: 0 <= k < |cs| ==> cs[k].Wire? && Count(cs[k], a) <= m)
    && exists k :: 0 <= k < |cs| && cs[k].Wire? && Count(cs[k], a) == m
  }

  /** The cells of line `x` of the grid across axis `a`: a row for `H`, a
      column for `V`. */
  function Across(g: Grid, rows: nat, cols: nat, a: Axis, x: nat): (r: seq<Cell>)
    requires IsRect(g, rows, cols) && x < (if a == H then rows else cols)
    ensures |r| == (if a == H then cols else rows)
    ensures forall y :: 0 <= y < |r| ==> r[y] == (if a == H then g[x][y] else g[y][x])
  {
    if a == H then g[x] else seq(rows, y requires 0 <= y < rows => g[y][x])
  }

  /** The line of the intermediate grid that coarse channel `x` (even)
      occupies. */
  function Channel(x: nat, n: nat, size: nat): (r: nat)
    requires x < 2 * n + 1
    ensures r < n * (size + 1) + 1
    ensures x % 2 == 0 ==> MapLine(x, n, size) == Some(r)
  {
    MulLe(x / 2, n, size + 1);
    (x / 2) * (size + 1)
  }

  /** Every channel line of the grid holds counters only. */
  predicate ChannelsClear(g: Grid, rows: nat, cols: nat, a: Axis, n: nat, size: nat)
    requires IsRect(g, rows, cols)
    requires (if a == H then rows else cols) == n * (size + 1) + 1
    requires (if a == H then cols else rows) > 0
  {
    forall x :: 0 <= x < 2 * n + 1 && x % 2 == 0 ==>
      MaxCount(Across(g, rows, cols, a, Channel(x, n, size)), a).Ok?
  }

  /** `row_sizes` (a = H) or `col_sizes` (a = V): tile lines keep the
      tile's size, a channel is as wide as the largest counter on its
      line. */
  function Sizes(g: Grid, rows: nat, cols: nat, a: Axis, n: nat, size: nat): (r: Result<seq<nat>>)
    requires IsRect(g, rows, cols)
    requires (if a == H then rows else cols) == n * (size + 1) + 1
    requires (if a == H then cols else rows) > 0
    ensures r.Ok? <==> ChannelsClear(g, rows, cols, a, n, size)
    ensures r.Ok? ==> |r.value| == 2 * n + 1
    ensures r.Ok? ==> forall x :: 0 <= x < 2 * n + 1 && x % 2 == 1 ==> r.value[x] == size
    ensures r.Ok? ==> forall x :: 0 <= x < 2 * n + 1 && x % 2 == 0 ==>
                        Widest(Across(g, rows, cols, a, Channel(x, n, size)), a, r.value[x])
  {
    if ChannelsClear(g, rows, cols, a, n, size) then
      Ok(seq(2 * n + 1, x requires 0 <= x < 2 * n + 1 =>
        if x % 2 == 1 then size
        else MaxCount(Across(g, rows, cols, a, Channel(x, n, size)), a).value))
    else
      var e: Result<seq<nat>> := Err("'>' not supported between instances of 'str' and 'int'");
      e
  }

  // ------------------------------------------------------------- the sizes

  /** The wires running along `a` through cell `y` of grid line `line`
      (a row for `H`, a column for `V`), counted from the bumps. */
  function Crossing(rows: nat, cols: nat, bs: seq<(Loc, Axis)>, a: Axis, line: nat, y: nat): nat {
    if a == H then Raises(rows, cols, bs, line, y, H) else Raises(rows, cols, bs, y, line, V)
  }

  /** `m` wires run along the busiest cell of grid line `line`. */
  predicate Busiest(rows: nat, cols: nat, bs: seq<(Loc, Axis)>, a: Axis, line: nat, m: nat) {
    var len := if a == H then cols else rows;
    && (forall y :: 0 <= y < len ==> Crossing(rows, cols, bs, a, line, y) <= m)
    && exists y :: 0 <= y < len && Crossing(rows, cols, bs, a, line, y) == m
  }

  /** Channel sizes as `compute_final_grid_size` returns them for `n`
      tiles of `size` lines along axis `a`. */
  predicate SizedBy(sizes: seq<nat>, rows: nat, cols: nat, bs: seq<(Loc, Axis)>, a: Axis, n: nat, size: nat) {
    && |sizes| == 2 * n + 1
    && (forall x :: 0 <= x < 2 * n + 1 && x % 2 == 1 ==> sizes[x] == size)
    && (forall x :: 0 <= x < 2 * n + 1 && x % 2 == 0 ==> Busiest(rows, cols, bs, a, Channel(x, n, size), sizes[x]))
  }

  /** On the bumped intermediate grid, a channel line holds counters that
      are exactly the crossings of the bumps. */
  lemma ChannelCells(g0: Grid, g: Grid, tr: nat, tc: nat, nr: nat, nc: nat, bs: seq<(Loc, Axis)>, a: Axis, x: nat)
    requires g0 == Intermediate(tr, tc, nr, nc)
    requires BumpedBy(g0, g, nr * (tr + 1) + 1, nc * (tc + 1) + 1, bs)
    requires x < 2 * (if a == H then nr else nc) + 1 && x % 2 == 0
    ensures var rows, cols := nr * (tr + 1) + 1, nc * (tc + 1) + 1;
            var n, size := if a == H then nr else nc, if a == H then tr else tc;
            var cs := Across(g, rows, cols, a, Channel(x, n, size));
            forall y :: 0 <= y < |cs| ==>
              cs[y].Wire? && Count(cs[y], a) == Crossing(rows, cols, bs, a, Channel(x, n, size), y)
  {
    var n, size := if a == H then nr else nc, if a == H then tr else tc;
    DivModUnique(x / 2, size + 1, 0);
  }

  /** Widest counter on a channel line, read as the busiest crossing. */
  lemma WidestIsBusiest(g0: Grid, g: Grid, tr: nat, tc: nat, nr: nat, nc: nat, bs: seq<(Loc, Axis)>, a: Axis, x: nat, m: nat)
    requires g0 == Intermediate(tr, tc, nr, nc)
    requires BumpedBy(g0, g, nr * (tr + 1) + 1, nc * (tc + 1) + 1, bs)
    requires x < 2 * (if a == H then nr else nc) + 1 && x % 2 == 0
    ensures var rows, cols := nr * (tr + 1) + 1, nc * (tc + 1) + 1;
            var n, size := if a == H then nr else nc, if a == H then tr else tc;
            var cs := Across(g, rows, cols, a, Channel(x, n, size));
            && MaxCount(cs, a).Ok?
            && (Widest(cs, a, m) <==> Busiest(rows, cols, bs, a, Channel(x, n, size), m))
  {
    ChannelCells(g0, g, tr, tc, nr, nc, bs, a, x);
  }

  /** `compute_final_grid_size`: replays every coarse route on the
      intermediate grid, then sizes each channel by its busiest cell.
      It fails exactly when a route cannot be replayed (a missing map key,
      a diagonal hop) or one of its bumps falls off the grid or onto a
      tile. */
  function ComputeSizes(ps: seq<CoarsePath>, tr: nat, tc: nat, nr: nat, nc: nat): (r: Result<(seq<nat>, seq<nat>)>)
    ensures var rows, cols := nr * (tr + 1) + 1, nc * (tc + 1) + 1;
            var bs := AllBumps(ps, tr, tc, nr, nc);
            r.Ok? <==> bs.Ok? && AllOnWire(Intermediate(tr, tc, nr, nc), rows, cols, bs.value)
    ensures r.Ok? ==> var rows, cols := nr * (tr + 1) + 1, nc * (tc + 1) + 1;
                      var bs := AllBumps(ps, tr, tc, nr, nc).value;
                      && SizedBy(r.value.0, rows, cols, bs, H, nr, tr)
                      && SizedBy(r.value.1, rows, cols, bs, V, nc, tc)
  {
    var rows, cols := nr * (tr + 1) + 1, nc * (tc + 1) + 1;
    var g0 := Intermediate(tr, tc, nr, nc);
    var bs :- AllBumps(ps, tr, tc, nr, nc);
    var g :- BumpAll(g0, rows, cols, bs);
    SizesOk(g0, g, tr, tc, nr, nc, bs)
  }

  /** Both size tables of the bumped grid; they never fail. */
  function SizesOk(g0: Grid, g: Grid, tr: nat, tc: nat, nr: nat, nc: nat, bs: seq<(Loc, Axis)>): (r: Result<(seq<nat>, seq<nat>)>)
    requires g0 == Intermediate(tr, tc, nr, nc)
    requires BumpedBy(g0, g, nr * (tr + 1) + 1, nc * (tc + 1) + 1, bs)
    ensures r.Ok?
    ensures var rows, cols := nr * (tr + 1) + 1, nc * (tc + 1) + 1;
            && SizedBy(r.value.0, rows, cols, bs, H, nr, tr)
            && SizedBy(r.value.1, rows, cols, bs, V, nc, tc)
  {
    var rows, cols := nr * (tr + 1) + 1, nc * (tc + 1) + 1;
    SizesOkAxis(g0, g, tr, tc, nr, nc, bs, H);
    SizesOkAxis(g0, g, tr, tc, nr, nc, bs, V);
    var rs := Sizes(g, rows, cols, H, nr, tr).value;
    var cs := Sizes(g, rows, cols, V, nc, tc).value;
    Ok((rs, cs))
  }

  lemma SizesOkAxis(g0: Grid, g: Grid, tr: nat, tc: nat, nr: nat, nc: nat, bs: seq<(Loc, Axis)>, a: Axis)
    requires g0 == Intermediate(tr, tc, nr, nc)
    requires BumpedBy(g0, g, nr * (tr + 1) + 1, nc * (tc + 1) + 1, bs)
    ensures var rows, cols := nr * (tr + 1) + 1, nc * (tc + 1) + 1;
            var n, size := if a == H then nr else nc, if a == H then tr else tc;
            var r := Sizes(g, rows, cols, a, n, size);
            r.Ok? && SizedBy(r.value, rows, cols, bs, a, n, size)
  {
    var rows, cols := nr * (tr + 1) + 1, nc * (tc + 1) + 1;
    var n, size := if a == H then nr else nc, if a == H then tr else tc;
    forall x | 0 <= x < 2 * n + 1 && x % 2 == 0
      ensures MaxCount(Across(g, rows, cols, a, Channel(x, n, size)), a).Ok?
    {
      WidestIsBusiest(g0, g, tr, tc, nr, nc, bs, a, x, 0);
    }
    var r := Sizes(g, rows, cols, a, n, size);
    forall x | 0 <= x < 2 * n + 1 && x % 2 == 0
      ensures Busiest(rows, cols, bs, a, Channel(x, n, size), r.value[x])
    {
      WidestIsBusiest(g0, g, tr, tc, nr, nc, bs, a, x, r.value[x]);
    }
  }

  // ----------------------------------------------------- coarse routes fit

  /** A coarse route between tiles of the array stays on keys of both maps. */
  lemma RouteInMaps(sc: Loc, ec: Loc, sf: Face, ef: Face, nr: nat, nc: nat)
    requires 0 <= sc.0 < 2 * nr + 1 && sc.0 % 2 == 1 && 0 <= sc.1 < 2 * nc + 1 && sc.1 % 2 == 1
    requires 0 <= ec.0 < 2 * nr + 1 && ec.0 % 2 == 1 && 0 <= ec.1 < 2 * nc + 1 && ec.1 % 2 == 1
    ensures InMaps(Route(sc, ec, sf, ef), nr, nc)
  {
  }

  /** Both ends of a request name tiles of the `nr` x `nc` array. */
  predicate InArray(q: Request, nr: nat, nc: nat) {
    0 <= q.m.row < nr && 0 <= q.m.col < nc && 0 <= q.s.row < nr && 0 <= q.s.col < nc
  }

  lemma RouteReplays(t: Block, q: Request, p: CoarsePath, nr: nat, nc: nat)
    requires CoarseRoute(t, q) == Ok(p) && InArray(q, nr, nc)
    ensures |p.cells| >= 2 && Paths.Aligned(p.cells) && InMaps(p.cells, nr, nc)
  {
    var mf := GetPortFace(t, true, q.m.port).value;
    var sf := GetPortFace(t, false, q.s.port).value;
    RouteInMaps(TileCell(q.m.row, q.m.col), TileCell(q.s.row, q.s.col), mf, sf, nr, nc);
  }

  /** Coarse routes between tiles of an `nr` x `nc` array are always
      replayed by the sizing step: no missing key and no diagonal hop. */
  lemma CoarseRoutesReplay(t: Block, qs: seq<Request>, ps: seq<CoarsePath>, nr: nat, nc: nat)
    requires CoarseRouteAll(t, qs) == Ok(ps)
    requires forall k :: 0 <= k < |qs| ==> InArray(qs[k], nr, nc)
    ensures AllBumps(ps, t.nRows, t.nCols, nr, nc).Ok?
  {
    forall k | 0 <= k < |ps|
      ensures |ps[k].cells| >= 2 && Paths.Aligned(ps[k].cells) && InMaps(ps[k].cells, nr, nc)
    {
      RouteReplays(t, qs[k], ps[k], nr, nc);
    }
  }
}
