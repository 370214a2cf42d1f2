/** The unit-cell grid shared by tiles, modules and both routers.
    A cell holds either a marker ("T" logic, "M"/"S" master/slave port,
    "P" PHY) or a `[horizontal, vertical]` wire-occupancy counter;
    `[0,0]` is an empty cell. */
module Cells {
  import opened Wrappers

  /** One element of a hierarchical label such as `(3, 0, "mp")`. */
  datatype Atom = Num(n: int) | Tag(t: string)
  type Label = seq<Atom>

  /** (row, col) */
  type Loc = (int, int)

  datatype Marker = Logic | Master | Slave | Phy
  datatype Cell = Mark(m: Marker) | Wire(h: nat, v: nat)
  datatype Axis = H | V
  datatype Face = North | East | South | West

  type Grid = seq<seq<Cell>>

  const Empty: Cell := Wire(0, 0)

  /** Python's `xs[i]` on a list of length `n`: negative indices count
      from the end, anything else outside the list raises. */
  function PyIndex(i: int, n: nat): (r: Option<nat>)
    ensures r.Some? <==> -(n as int) <= i < n
    ensures r.Some? ==> r.value < n
    ensures 0 <= i < n ==> r == Some(i)
  {
    if 0 <= i < n then Some(i) else if -(n as int) <= i < 0 then Some(n + i) else None
  }

  predicate IsRect(g: Grid, rows: nat, cols: nat) {
    |g| == rows && forall r :: 0 <= r < rows ==> |g[r]| == cols
  }

  predicate InRange(rows: nat, cols: nat, l: Loc) {
    0 <= l.0 < rows && 0 <= l.1 < cols
  }

  /** The cell Python's `g[r][c]` designates on a `rows` x `cols` grid,
      if it does not raise. */
  function Resolve(rows: nat, cols: nat, l: Loc): (r: Option<(nat, nat)>)
    ensures r.Some? ==> r.value.0 < rows && r.value.1 < cols
    ensures r.Some? <==> -(rows as int) <= l.0 < rows && -(cols as int) <= l.1 < cols
  {
    match PyIndex(l.0, rows)
    case None => None
    case Some(i) =>
      match PyIndex(l.1, cols)
      case None => None
      case Some(j) => Some((i, j))
  }

  lemma LocateRect(g: Grid, rows: nat, cols: nat, l: Loc)
    requires IsRect(g, rows, cols)
    ensures Locate(g, l) == Resolve(rows, cols, l)
  {
  }

  /** The cell Python's `g[r][c]` designates, if it does not raise. */
  function Locate(g: Grid, l: Loc): (r: Option<(nat, nat)>)
    ensures r.Some? ==> r.value.0 < |g| && r.value.1 < |g[r.value.0]|
    ensures 0 <= l.0 < |g| && 0 <= l.1 < |g[l.0]| ==> r == Some((l.0 as nat, l.1 as nat))
  {
    match PyIndex(l.0, |g|)
    case None => None
    case Some(i) =>
      match PyIndex(l.1, |g[i]|)
      case None => None
      case Some(j) => Some((i, j))
  }

  function Get(g: Grid, l: Loc): Result<Cell> {
    match Locate(g, l)
    case None => Err("list index out of range")
    case Some(p) => Ok(g[p.0][p.1])
  }

  function Put(g: Grid, l: Loc, x: Cell): (r: Result<Grid>)
    ensures r.Ok? <==> Locate(g, l).Some?
    ensures r.Ok? ==> |r.value| == |g|
                      && (forall i :: 0 <= i < |g| ==> |r.value[i]| == |g[i]|)
                      && forall i, j :: 0 <= i < |g| && 0 <= j < |g[i]| ==>
                           r.value[i][j] == (if Locate(g, l) == Some((i, j)) then x else g[i][j])
  {
    match Locate(g, l)
    case None => Err("list assignment index out of range")
    case Some(p) => Ok(g[p.0 := g[p.0][p.1 := x]])
  }

  /** `Put` on a rectangular grid, described by its shape. */
  function PutAt(g: Grid, rows: nat, cols: nat, l: Loc, x: Cell): (r: Result<Grid>)
    requires IsRect(g, rows, cols)
    ensures r.Ok? <==> Resolve(rows, cols, l).Some?
    ensures r.Ok? ==> IsRect(r.value, rows, cols)
    ensures r.Ok? ==> forall i, j :: 0 <= i < rows && 0 <= j < cols ==>
              r.value[i][j] == (if Resolve(rows, cols, l) == Some((i, j)) then x else g[i][j])
  {
    LocateRect(g, rows, cols, l);
    Put(g, l, x)
  }

  /** The counter a wire running along `a` occupies. */
  function Count(x: Cell, a: Axis): nat
    requires x.Wire?
  {
    if a == H then x.h else x.v
  }

  function Bump(x: Cell, a: Axis): (y: Cell)
    requires x.Wire?
    ensures y.Wire? && Count(y, a) == Count(x, a) + 1
    ensures forall b :: b != a ==> Count(y, b) == Count(x, b)
  {
    if a == H then Wire(x.h + 1, x.v) else Wire(x.h, x.v + 1)
  }

  /** `grid[r][c][axis]` read as a number: Python raises on a marker string. */
  function CountAt(g: Grid, l: Loc, a: Axis): Result<nat> {
    var x :- Get(g, l);
    if x.Wire? then Ok(Count(x, a)) else Err("unsupported operand: marker cell")
  }

  /** `grid[r][c][axis] += 1`: raises on a marker or outside the grid. */
  function BumpAt(g: Grid, l: Loc, a: Axis): (r: Result<Grid>)
    ensures r.Ok? ==> |r.value| == |g| && forall i :: 0 <= i < |g| ==> |r.value[i]| == |g[i]|
  {
    var x :- Get(g, l);
    if x.Wire? then Put(g, l, Bump(x, a)) else Err("unsupported operand: marker cell")
  }

  function Filled(rows: nat, cols: nat, x: Cell): (g: Grid)
    ensures IsRect(g, rows, cols)
    ensures forall r, c :: 0 <= r < rows && 0 <= c < cols ==> g[r][c] == x
  {
    seq(rows, _ => seq(cols, _ => x))
  }

  /** The axis a move from `a` to `b` runs along, as the code decides it:
      same row means horizontal, anything else vertical. */
  function HopAxis(a: Loc, b: Loc): Axis {
    if a.0 == b.0 then H else V
  }

  /** The coordinate a move along `a` changes, and the one it keeps. */
  function Pos(l: Loc, a: Axis): int { if a == H then l.1 else l.0 }
  function Fix(l: Loc, a: Axis): int { if a == H then l.0 else l.1 }

  function Abs(x: int): nat {
    if x < 0 then -x else x
  }

  /** Python's `range(start, stop, step)` for a step of +1 or -1. */
  function PyRange(start: int, stop: int, step: int): (r: seq<int>)
    requires step == 1 || step == -1
    ensures |r| == if step == 1 then (if start < stop then stop - start else 0)
                   else (if stop < start then start - stop else 0)
    ensures forall k :: 0 <= k < |r| ==> r[k] == (if step == 1 then start + k else start - k)
  {
    var n := if step == 1 then (if start < stop then stop - start else 0)
             else (if stop < start then start - stop else 0);
    seq(n, k => if step == 1 then start + k else start - k)
  }

  /** The value a Python loop variable keeps after `for x in xs`: the
      last element, or what it held before when the loop did not run. */
  function After(xs: seq<int>, before: Option<int>): (r: Option<int>)
    ensures |xs| > 0 ==> r == Some(xs[|xs| - 1])
    ensures |xs| == 0 ==> r == before
  {
    if |xs| == 0 then before else Some(xs[|xs| - 1])
  }
}
