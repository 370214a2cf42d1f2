/** Batches of grid updates the routers perform: `grid[r][c][axis] += 1`
    (bumps), `total += grid[r][c][axis]` (tallies) and `grid[r][c] = x`
    (writes), each with Python's indexing and its crash on a marker
    string. Every batch is described cell by cell. */
module Bumps {
  import opened Wrappers
  import opened Cells

  /** The cell of a rectangular grid Python's `g[l.0][l.1]` designates. */
  predicate Hits(rows: nat, cols: nat, l: Loc, i: nat, j: nat) {
    Resolve(rows, cols, l) == Some((i, j))
  }

  /** A range of coordinates along one line of the grid: the cells
      `(fix, x)` for a horizontal line, `(x, fix)` for a vertical one. */
  function Line(a: Axis, fix: int, xs: seq<int>): (r: seq<(Loc, Axis)>)
    ensures |r| == |xs|
    ensures forall k :: 0 <= k < |xs| ==> r[k] == (if a == H then (fix, xs[k]) else (xs[k], fix), a)
  {
    seq(|xs|, k requires 0 <= k < |xs| => (if a == H then (fix, xs[k]) else (xs[k], fix), a))
  }

  // ---------------------------------------------------------------- bumps

  /** How many of `bs` raise counter `a` of cell (i, j). */
  function Raises(rows: nat, cols: nat, bs: seq<(Loc, Axis)>, i: nat, j: nat, a: Axis): nat {
    if |bs| == 0 then 0
    else Raises(rows, cols, bs[..|bs| - 1], i, j, a)
         + (if Hits(rows, cols, bs[|bs| - 1].0, i, j) && bs[|bs| - 1].1 == a then 1 else 0)
  }

  /** A bump lands on a counter (not outside the grid, not on a marker). */
  predicate OnWire(g: Grid, rows: nat, cols: nat, l: Loc)
    requires IsRect(g, rows, cols)
  {
    match Resolve(rows, cols, l)
    case None => false
    case Some(p) => g[p.0][p.1].Wire?
  }

  predicate AllOnWire(g: Grid, rows: nat, cols: nat, bs: seq<(Loc, Axis)>)
    requires IsRect(g, rows, cols)
  {
    forall k :: 0 <= k < |bs| ==> OnWire(g, rows, cols, bs[k].0)
  }

  function Added(x: Cell, dh: nat, dv: nat): Cell {
    if x.Wire? then Wire(x.h + dh, x.v + dv) else x
  }

  /** `g1` is `g` with every counter raised by the bumps aimed at it. */
  predicate BumpedBy(g: Grid, g1: Grid, rows: nat, cols: nat, bs: seq<(Loc, Axis)>)
    requires IsRect(g, rows, cols)
  {
    && IsRect(g1, rows, cols)
    && forall i, j :: 0 <= i < rows && 0 <= j < cols ==>
         g1[i][j] == Added(g[i][j], Raises(rows, cols, bs, i, j, H), Raises(rows, cols, bs, i, j, V))
  }

  lemma AllOnWireSnoc(g: Grid, rows: nat, cols: nat, bs: seq<(Loc, Axis)>)
    requires IsRect(g, rows, cols) && |bs| > 0
    ensures AllOnWire(g, rows, cols, bs)
        <==> AllOnWire(g, rows, cols, bs[..|bs| - 1]) && OnWire(g, rows, cols, bs[|bs| - 1].0)
  {
    if AllOnWire(g, rows, cols, bs[..|bs| - 1]) && OnWire(g, rows, cols, bs[|bs| - 1].0) {
      forall k | 0 <= k < |bs| ensures OnWire(g, rows, cols, bs[k].0) {
        if k < |bs| - 1 { assert bs[k] == bs[..|bs| - 1][k]; }
      }
    }
  }

  /** The bumps of `bs`, in order; the first one outside the grid or on a
      marker stops everything. */
  function BumpAll(g: Grid, rows: nat, cols: nat, bs: seq<(Loc, Axis)>): (r: Result<Grid>)
    requires IsRect(g, rows, cols)
    ensures r.Ok? <==> AllOnWire(g, rows, cols, bs)
    ensures r.Ok? ==> BumpedBy(g, r.value, rows, cols, bs)
    decreases |bs|
  {
    AllOnWireSnocOpt(g, rows, cols, bs);
    if |bs| == 0 then Ok(g)
    else
      var g1 :- BumpAll(g, rows, cols, bs[..|bs| - 1]);
      BumpLast(g, g1, rows, cols, bs)
  }

  lemma AllOnWireSnocOpt(g: Grid, rows: nat, cols: nat, bs: seq<(Loc, Axis)>)
    requires IsRect(g, rows, cols)
    ensures |bs| > 0 ==> (AllOnWire(g, rows, cols, bs)
        <==> AllOnWire(g, rows, cols, bs[..|bs| - 1]) && OnWire(g, rows, cols, bs[|bs| - 1].0))
  {
    if |bs| > 0 { AllOnWireSnoc(g, rows, cols, bs); }
  }

  /** The last bump of `bs`, applied after the others. */
  function BumpLast(g: Grid, g1: Grid, rows: nat, cols: nat, bs: seq<(Loc, Axis)>): (r: Result<Grid>)
    requires IsRect(g, rows, cols) && |bs| > 0
    requires BumpedBy(g, g1, rows, cols, bs[..|bs| - 1])
    ensures r.Ok? <==> OnWire(g, rows, cols, bs[|bs| - 1].0)
    ensures r.Ok? ==> BumpedBy(g, r.value, rows, cols, bs)
  {
    var b := bs[|bs| - 1];
    match Resolve(rows, cols, b.0)
    case None => Err("list index out of range")
    case Some(p) =>
      var x := g1[p.0][p.1];
      if x.Wire? then
        var r := g1[p.0 := g1[p.0][p.1 := Bump(x, b.1)]];
        Ok(r)
      else Err("unsupported operand: marker cell")
  }

  /** Counting bumps over a concatenation. */
  lemma {:induction false} RaisesAppend(rows: nat, cols: nat, xs: seq<(Loc, Axis)>, ys: seq<(Loc, Axis)>, i: nat, j: nat, a: Axis)
    ensures Raises(rows, cols, xs + ys, i, j, a) == Raises(rows, cols, xs, i, j, a) + Raises(rows, cols, ys, i, j, a)
    decreases |ys|
  {
    if |ys| == 0 {
      assert xs + ys == xs;
    } else {
      var zs := xs + ys;
      assert zs[..|zs| - 1] == xs + ys[..|ys| - 1];
      RaisesAppend(rows, cols, xs, ys[..|ys| - 1], i, j, a);
    }
  }
  /** Bumping by `xs` and then by `ys` is bumping by `xs + ys`. */
  lemma BumpedByThen(g: Grid, g1: Grid, g2: Grid, rows: nat, cols: nat, xs: seq<(Loc, Axis)>, ys: seq<(Loc, Axis)>)
    requires IsRect(g, rows, cols) && IsRect(g1, rows, cols)
    requires BumpedBy(g, g1, rows, cols, xs) && BumpedBy(g1, g2, rows, cols, ys)
    ensures BumpedBy(g, g2, rows, cols, xs + ys)
  {
    forall i, j | 0 <= i < rows && 0 <= j < cols
      ensures g2[i][j] == Added(g[i][j], Raises(rows, cols, xs + ys, i, j, H), Raises(rows, cols, xs + ys, i, j, V))
    {
      RaisesAppend(rows, cols, xs, ys, i, j, H);
      RaisesAppend(rows, cols, xs, ys, i, j, V);
    }
  }


  // --------------------------------------------------------------- tallies

  /** `total += grid[r][c][axis]` over `bs`: the sum, or the crash. */
  function Tally(g: Grid, rows: nat, cols: nat, bs: seq<(Loc, Axis)>): (r: Result<nat>)
    requires IsRect(g, rows, cols)
    ensures r.Ok? <==> AllOnWire(g, rows, cols, bs)
    ensures r.Ok? ==> r.value == Load(g, rows, cols, bs)
    decreases |bs|
  {
    AllOnWireSnocOpt(g, rows, cols, bs);
    if |bs| == 0 then Ok(0)
    else
      var t :- Tally(g, rows, cols, bs[..|bs| - 1]);
      var b := bs[|bs| - 1];
      var cell := Resolve(rows, cols, b.0);
      if cell.None? then Err("list index out of range")
      else if !g[cell.value.0][cell.value.1].Wire? then Err("unsupported operand: marker cell")
      else
        var sum: nat := t + Count(g[cell.value.0][cell.value.1], b.1);
        Ok(sum)
  }

  /** The wires already crossing the cells of `bs`, along each bump's
      axis; cells off the grid or holding a marker contribute nothing. */
  function Load(g: Grid, rows: nat, cols: nat, bs: seq<(Loc, Axis)>): nat
    requires IsRect(g, rows, cols)
  {
    if |bs| == 0 then 0
    else
      var b := bs[|bs| - 1];
      Load(g, rows, cols, bs[..|bs| - 1])
      + match Resolve(rows, cols, b.0)
        case None => 0
        case Some(p) => if g[p.0][p.1].Wire? then Count(g[p.0][p.1], b.1) else 0
  }

  /** On a grid with no wires yet, every tally that succeeds is zero. */
  lemma {:induction false} LoadOfClear(g: Grid, rows: nat, cols: nat, bs: seq<(Loc, Axis)>)
    requires IsRect(g, rows, cols)
    requires forall i, j :: 0 <= i < rows && 0 <= j < cols && g[i][j].Wire? ==> g[i][j] == Empty
    ensures Load(g, rows, cols, bs) == 0
    decreases |bs|
  {
    if |bs| > 0 { LoadOfClear(g, rows, cols, bs[..|bs| - 1]); }
  }

  // ---------------------------------------------------------------- writes

  /** The value the last write aimed at (i, j) leaves there, if any. */
  function LastWrite(rows: nat, cols: nat, ws: seq<(Loc, Cell)>, i: nat, j: nat): Option<Cell> {
    if |ws| == 0 then None
    else if Hits(rows, cols, ws[|ws| - 1].0, i, j) then Some(ws[|ws| - 1].1)
    else LastWrite(rows, cols, ws[..|ws| - 1], i, j)
  }

  predicate AllResolve(rows: nat, cols: nat, ws: seq<(Loc, Cell)>) {
    forall k :: 0 <= k < |ws| ==> Resolve(rows, cols, ws[k].0).Some?
  }

  predicate WrittenBy(g: Grid, g1: Grid, rows: nat, cols: nat, ws: seq<(Loc, Cell)>)
    requires IsRect(g, rows, cols)
  {
    && IsRect(g1, rows, cols)
    && forall i, j :: 0 <= i < rows && 0 <= j < cols ==>
         g1[i][j] == LastWrite(rows, cols, ws, i, j).GetOr(g[i][j])
  }

  /** `grid[r][c] = x` for every write of `ws`, in order. */
  function WriteAll(g: Grid, rows: nat, cols: nat, ws: seq<(Loc, Cell)>): (r: Result<Grid>)
    requires IsRect(g, rows, cols)
    ensures r.Ok? <==> AllResolve(rows, cols, ws)
    ensures r.Ok? ==> WrittenBy(g, r.value, rows, cols, ws)
    decreases |ws|
  {
    if |ws| == 0 then Ok(g)
    else
      ResolveSnoc(rows, cols, ws);
      var g1 :- WriteAll(g, rows, cols, ws[..|ws| - 1]);
      var r :- PutAt(g1, rows, cols, ws[|ws| - 1].0, ws[|ws| - 1].1);
      Ok(r)
  }

  lemma ResolveSnoc(rows: nat, cols: nat, ws: seq<(Loc, Cell)>)
    requires |ws| > 0
    ensures AllResolve(rows, cols, ws)
        <==> AllResolve(rows, cols, ws[..|ws| - 1]) && Resolve(rows, cols, ws[|ws| - 1].0).Some?
  {
    if AllResolve(rows, cols, ws[..|ws| - 1]) && Resolve(rows, cols, ws[|ws| - 1].0).Some? {
      forall k | 0 <= k < |ws| ensures Resolve(rows, cols, ws[k].0).Some? {
        if k < |ws| - 1 { assert ws[k] == ws[..|ws| - 1][k]; }
      }
    }
  }

  /** A write that no later write touches decides its cell. */
  lemma {:induction false} LastWriteAt(rows: nat, cols: nat, ws: seq<(Loc, Cell)>, k: nat, i: nat, j: nat)
    requires k < |ws| && Hits(rows, cols, ws[k].0, i, j)
    requires forall q :: k < q < |ws| ==> !Hits(rows, cols, ws[q].0, i, j)
    ensures LastWrite(rows, cols, ws, i, j) == Some(ws[k].1)
    decreases |ws|
  {
    if k < |ws| - 1 {
      var init := ws[..|ws| - 1];
      assert init[k] == ws[k];
      forall q | k < q < |init| ensures !Hits(rows, cols, init[q].0, i, j) {
        assert init[q] == ws[q];
      }
      LastWriteAt(rows, cols, init, k, i, j);
    }
  }

  /** A cell no write touches keeps its value. */
  lemma {:induction false} LastWriteNone(rows: nat, cols: nat, ws: seq<(Loc, Cell)>, i: nat, j: nat)
    requires forall q :: 0 <= q < |ws| ==> !Hits(rows, cols, ws[q].0, i, j)
    ensures LastWrite(rows, cols, ws, i, j) == None
    decreases |ws|
  {
    if |ws| > 0 {
      var init := ws[..|ws| - 1];
      forall q | 0 <= q < |init| ensures !Hits(rows, cols, init[q].0, i, j) {
        assert init[q] == ws[q];
      }
      LastWriteNone(rows, cols, init, i, j);
    }
  }
}
