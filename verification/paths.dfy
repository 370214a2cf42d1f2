/** Waypoint paths and the wire counters they occupy (`compose_grid` in
    src/module.py, lines 139-178). A path is a list of waypoints joined by
    axis-aligned hops; it is expanded into the list of cells it runs
    through, and every interior cell of that list gets its horizontal
    and/or vertical counter raised. */
module Paths {
  import opened Wrappers
  import opened Cells

  // ------------------------------------------------------------ expansion

  /** Manhattan distance. */
  function Dist(a: Loc, b: Loc): nat {
    Abs(b.0 - a.0) + Abs(b.1 - a.1)
  }

  predicate Adjacent(a: Loc, b: Loc) {
    Dist(a, b) == 1
  }

  /** Every step of the cell list moves to a neighbouring cell. */
  predicate Connected(s: seq<Loc>) {
    forall k :: 0 <= k < |s| - 1 ==> Adjacent(s[k], s[k + 1])
  }

  /** No hop changes row and column at once. */
  predicate Aligned(con: seq<Loc>) {
    forall k :: 0 <= k < |con| - 1 ==> con[k].0 == con[k + 1].0 || con[k].1 == con[k + 1].1
  }

  /** Sum of the hop lengths. */
  function Length(con: seq<Loc>): nat {
    if |con| < 2 then 0 else Dist(con[0], con[1]) + Length(con[1..])
  }

  /** The step of `range(a, b, step)` the code picks: +1 towards a larger
      end, -1 otherwise (also when the ends coincide, giving an empty range). */
  function Step(a: int, b: int): int {
    if a < b then 1 else -1
  }

  /** The cells of one hop, from `a` included to `b` excluded. */
  function Run(a: Loc, b: Loc): (r: seq<Loc>)
    requires a.0 == b.0 || a.1 == b.1
    ensures |r| == Dist(a, b)
    ensures |r| > 0 ==> r[0] == a && Adjacent(r[|r| - 1], b)
    ensures Connected(r)
  {
    if a.0 == b.0 then seq(Abs(b.1 - a.1), k => (a.0, a.1 + Step(a.1, b.1) * k))
    else seq(Abs(b.0 - a.0), k => (a.0 + Step(a.0, b.0) * k, a.1))
  }

  lemma ConnectedJoin(s: seq<Loc>, t: seq<Loc>)
    requires Connected(s) && Connected(t)
    requires |s| > 0 && |t| > 0 ==> Adjacent(s[|s| - 1], t[0])
    ensures Connected(s + t)
  {
    var u := s + t;
    if |s| == 0 { assert u == t; return; }
    forall k | 0 <= k < |u| - 1 ensures Adjacent(u[k], u[k + 1]) {
      if k < |s| - 1 {
        assert u[k] == s[k] && u[k + 1] == s[k + 1];
      } else if k == |s| - 1 {
        assert u[k] == s[|s| - 1] && u[k + 1] == t[0];
      } else {
        assert u[k] == t[k - |s|] && u[k + 1] == t[k - |s| + 1];
      }
    }
  }

  /** The full cell list of a waypoint path: every hop's run, then the last
      waypoint. A hop that changes both row and column is fatal, and so is
      an empty path (`con[-1]` raises). */
  function Expand(con: seq<Loc>): (r: Result<seq<Loc>>)
    ensures r.Ok? <==> |con| > 0 && Aligned(con)
    ensures r.Ok? ==> |r.value| == 1 + Length(con)
    ensures r.Ok? ==> r.value[0] == con[0] && r.value[|r.value| - 1] == con[|con| - 1]
    ensures r.Ok? ==> Connected(r.value)
  {
    if |con| == 0 then Err("list index out of range")
    else if |con| == 1 then Ok([con[0]])
    else if con[0].0 != con[1].0 && con[0].1 != con[1].1 then
      Err("Connection changes row and column in same hop which is illegal")
    else
      AlignedTail(con);
      match Expand(con[1..])
      case Err(m) => Err(m)
      case Ok(rest) =>
        var run := Run(con[0], con[1]);
        ConnectedJoin(run, rest);
        Ok(run + rest)
  }

  lemma AlignedTail(con: seq<Loc>)
    requires |con| >= 2
    ensures Aligned(con) <==> (con[0].0 == con[1].0 || con[0].1 == con[1].1) && Aligned(con[1..])
  {
    var t := con[1..];
    assert forall k :: 0 <= k < |t| ==> t[k] == con[k + 1];
    if (con[0].0 == con[1].0 || con[0].1 == con[1].1) && Aligned(t) {
      forall k | 0 <= k < |con| - 1 ensures con[k].0 == con[k + 1].0 || con[k].1 == con[k + 1].1 {
        if k > 0 {
          assert con[k] == t[k - 1] && con[k + 1] == t[k];
        }
      }
    }
  }

  /** A path whose hops do not move expands to its single waypoint; the
      one-point path at the other extreme. */
  lemma ExpandPoint(l: Loc)
    ensures Expand([l]) == Ok([l])
  {
  }

  // -------------------------------------------------------------- marking

  /** Interior cells of a full path are the indices 1 .. Interior(p) - 1;
      the first and the last cell (the two ports) are never counted. */
  function Interior(p: seq<Loc>): nat {
    if |p| >= 2 then |p| - 1 else 0
  }

  /** Whether interior cell `k` is entered or left along axis `a`. */
  predicate Touches(p: seq<Loc>, k: nat, a: Axis)
    requires 1 <= k < |p| - 1
  {
    HopAxis(p[k - 1], p[k]) == a || HopAxis(p[k], p[k + 1]) == a
  }

  /** How many interior indices below `n` lie on cell (i, j) and touch
      axis `a` there. */
  function Uses(rows: nat, cols: nat, p: seq<Loc>, n: nat, i: nat, j: nat, a: Axis): nat
    requires n <= Interior(p)
  {
    if n <= 1 then 0
    else
      Uses(rows, cols, p, n - 1, i, j, a)
      + (if Resolve(rows, cols, p[n - 1]) == Some((i, j)) && Touches(p, n - 1, a) then 1 else 0)
  }

  /** A wire cell with its counters raised; a marker is left as it is. */
  function Raised(x: Cell, dh: nat, dv: nat): Cell {
    if x.Wire? then Wire(x.h + dh, x.v + dv) else x
  }

  /** Where the code may write for location `l`: inside the grid and, when
      `strict`, on a wire cell. */
  predicate LandsAt(g: Grid, rows: nat, cols: nat, l: Loc, strict: bool)
    requires IsRect(g, rows, cols)
  {
    match Resolve(rows, cols, l)
    case None => false
    case Some(t) => strict ==> g[t.0][t.1].Wire?
  }

  predicate Lands(g: Grid, rows: nat, cols: nat, p: seq<Loc>, n: nat, strict: bool)
    requires IsRect(g, rows, cols) && n <= |p|
  {
    forall k :: 1 <= k < n ==> LandsAt(g, rows, cols, p[k], strict)
  }

  /** Same grid shape and the same cells hold markers. */
  predicate SameKinds(g: Grid, h: Grid, rows: nat, cols: nat)
    requires IsRect(g, rows, cols) && IsRect(h, rows, cols)
  {
    forall i, j :: 0 <= i < rows && 0 <= j < cols ==> g[i][j].Wire? == h[i][j].Wire?
  }

  lemma LandsSameKinds(g: Grid, h: Grid, rows: nat, cols: nat, p: seq<Loc>, n: nat, strict: bool)
    requires IsRect(g, rows, cols) && IsRect(h, rows, cols) && n <= |p|
    requires SameKinds(g, h, rows, cols)
    ensures Lands(g, rows, cols, p, n, strict) == Lands(h, rows, cols, p, n, strict)
  {
    assert forall k :: 1 <= k < n ==>
      LandsAt(g, rows, cols, p[k], strict) == LandsAt(h, rows, cols, p[k], strict);
  }

  /** Marks interior indices 1 .. n-1 of the full path `p` in order. A
      location outside the grid raises; a marker cell is skipped, or, when
      `strict`, is fatal. */
  function MarkPath(g: Grid, rows: nat, cols: nat, p: seq<Loc>, n: nat, strict: bool): (r: Result<Grid>)
    requires IsRect(g, rows, cols) && n <= Interior(p)
    ensures r.Ok? <==> Lands(g, rows, cols, p, n, strict)
    ensures r.Ok? ==> IsRect(r.value, rows, cols)
    ensures r.Ok? ==> RaisedBy(g, r.value, rows, cols, p, n)
    decreases n
  {
    if n <= 1 then
      RaisedByNothing(g, rows, cols, p, n);
      Ok(g)
    else
      var k := n - 1;
      var prev := MarkPath(g, rows, cols, p, k, strict);
      LandsSnoc(g, rows, cols, p, n, strict);
      if prev.Err? then prev
      else MarkCell(g, prev.value, rows, cols, p, n, strict)
  }

  /** Marking no interior cell changes nothing. */
  lemma RaisedByNothing(g: Grid, rows: nat, cols: nat, p: seq<Loc>, n: nat)
    requires IsRect(g, rows, cols) && n <= 1 && n <= Interior(p)
    ensures RaisedBy(g, g, rows, cols, p, n)
  {
    assert forall i, j :: 0 <= i < rows && 0 <= j < cols ==> Raised(g[i][j], 0, 0) == g[i][j];
  }

  /** The path lands on its interior cells below `n` when it lands on
      those below n-1 and on cell n-1. */
  lemma LandsSnoc(g: Grid, rows: nat, cols: nat, p: seq<Loc>, n: nat, strict: bool)
    requires IsRect(g, rows, cols) && 2 <= n <= |p|
    ensures Lands(g, rows, cols, p, n, strict) <==>
            Lands(g, rows, cols, p, n - 1, strict) && LandsAt(g, rows, cols, p[n - 1], strict)
  {
  }

  /** One step of `MarkPath`: marks interior index n-1 on the grid `g1`
      that the earlier indices produced from `g`. */
  function MarkCell(g: Grid, g1: Grid, rows: nat, cols: nat, p: seq<Loc>, n: nat, strict: bool): (r: Result<Grid>)
    requires IsRect(g, rows, cols) && IsRect(g1, rows, cols) && 2 <= n <= Interior(p)
    requires RaisedBy(g, g1, rows, cols, p, n - 1)
    ensures r.Ok? <==> LandsAt(g, rows, cols, p[n - 1], strict)
    ensures r.Ok? ==> IsRect(r.value, rows, cols)
    ensures r.Ok? ==> RaisedBy(g, r.value, rows, cols, p, n)
  {
    var k := n - 1;
    match Resolve(rows, cols, p[k])
    case None => Err("list index out of range")
    case Some(t) =>
      var x := g1[t.0][t.1];
      assert CellRaised(g, g1, rows, cols, p, n - 1, t.0, t.1);
      if !x.Wire? then
        if strict then Err("Connection tries to use a cell that is already occupied by a tile")
        else
          SkipStep(g, g1, rows, cols, p, n, t);
          Ok(g1)
      else
        var y := Wire(x.h + (if Touches(p, k, H) then 1 else 0), x.v + (if Touches(p, k, V) then 1 else 0));
        var r := PutAt(g1, rows, cols, p[k], y);
        BumpStep(g, g1, r.value, rows, cols, p, n, t, y);
        r
  }

  /** A marker at the newly visited cell: nothing changes, and the cell's
      uses do not matter since `Raised` keeps markers. */
  lemma SkipStep(g: Grid, g1: Grid, rows: nat, cols: nat, p: seq<Loc>, n: nat, t: (nat, nat))
    requires IsRect(g, rows, cols) && IsRect(g1, rows, cols)
    requires 2 <= n <= Interior(p) && Resolve(rows, cols, p[n - 1]) == Some(t)
    requires RaisedBy(g, g1, rows, cols, p, n - 1)
    requires !g1[t.0][t.1].Wire?
    ensures RaisedBy(g, g1, rows, cols, p, n)
  {
    forall i, j | 0 <= i < rows && 0 <= j < cols
      ensures CellRaised(g, g1, rows, cols, p, n, i, j)
    {
      assert CellRaised(g, g1, rows, cols, p, n - 1, i, j);
      if (i, j) != t {
        assert Uses(rows, cols, p, n, i, j, H) == Uses(rows, cols, p, n - 1, i, j, H);
        assert Uses(rows, cols, p, n, i, j, V) == Uses(rows, cols, p, n - 1, i, j, V);
      }
    }
  }

  /** A wire at the newly visited cell: raising it there is the one extra use. */
  lemma BumpStep(g: Grid, g1: Grid, g2: Grid, rows: nat, cols: nat, p: seq<Loc>, n: nat, t: (nat, nat), y: Cell)
    requires IsRect(g, rows, cols) && IsRect(g1, rows, cols) && IsRect(g2, rows, cols)
    requires 2 <= n <= Interior(p) && Resolve(rows, cols, p[n - 1]) == Some(t)
    requires RaisedBy(g, g1, rows, cols, p, n - 1)
    requires g1[t.0][t.1].Wire?
    requires y == Wire(g1[t.0][t.1].h + (if Touches(p, n - 1, H) then 1 else 0),
                       g1[t.0][t.1].v + (if Touches(p, n - 1, V) then 1 else 0))
    requires forall i, j :: 0 <= i < rows && 0 <= j < cols ==>
               g2[i][j] == (if Resolve(rows, cols, p[n - 1]) == Some((i, j)) then y else g1[i][j])
    ensures RaisedBy(g, g2, rows, cols, p, n)
  {
    forall i, j | 0 <= i < rows && 0 <= j < cols
      ensures CellRaised(g, g2, rows, cols, p, n, i, j)
    {
      assert CellRaised(g, g1, rows, cols, p, n - 1, i, j);
      assert Uses(rows, cols, p, n, i, j, H) == Uses(rows, cols, p, n - 1, i, j, H)
        + (if Resolve(rows, cols, p[n - 1]) == Some((i, j)) && Touches(p, n - 1, H) then 1 else 0);
      assert Uses(rows, cols, p, n, i, j, V) == Uses(rows, cols, p, n - 1, i, j, V)
        + (if Resolve(rows, cols, p[n - 1]) == Some((i, j)) && Touches(p, n - 1, V) then 1 else 0);
    }
  }

  /** Every cell of `g1` is the cell of `g` raised by the uses of the
      first `n` interior cells of `p`. */
  predicate RaisedBy(g: Grid, g1: Grid, rows: nat, cols: nat, p: seq<Loc>, n: nat)
    requires IsRect(g, rows, cols) && IsRect(g1, rows, cols) && n <= Interior(p)
  {
    forall i, j :: 0 <= i < rows && 0 <= j < cols ==> CellRaised(g, g1, rows, cols, p, n, i, j)
  }

  /** Cell (i, j) of `g1` is that of `g` raised by its uses. */
  predicate CellRaised(g: Grid, g1: Grid, rows: nat, cols: nat, p: seq<Loc>, n: nat, i: nat, j: nat)
    requires IsRect(g, rows, cols) && IsRect(g1, rows, cols) && n <= Interior(p)
    requires i < rows && j < cols
  {
    g1[i][j] == Raised(g[i][j], Uses(rows, cols, p, n, i, j, H), Uses(rows, cols, p, n, i, j, V))
  }

  /** Every cell of `g1` is the cell of `g` raised by the total uses of `ps`. */
  predicate RaisedByAll(g: Grid, g1: Grid, rows: nat, cols: nat, ps: seq<seq<Loc>>)
    requires IsRect(g, rows, cols) && IsRect(g1, rows, cols)
  {
    forall i, j :: 0 <= i < rows && 0 <= j < cols ==>
      g1[i][j] == Raised(g[i][j], TotalUses(rows, cols, ps, i, j, H), TotalUses(rows, cols, ps, i, j, V))
  }

  /** The combined effect of marking several full paths one after another. */
  function TotalUses(rows: nat, cols: nat, ps: seq<seq<Loc>>, i: nat, j: nat, a: Axis): nat {
    if |ps| == 0 then 0
    else
      var p := ps[|ps| - 1];
      TotalUses(rows, cols, ps[..|ps| - 1], i, j, a) + Uses(rows, cols, p, Interior(p), i, j, a)
  }

  predicate AllLand(g: Grid, rows: nat, cols: nat, ps: seq<seq<Loc>>, strict: bool)
    requires IsRect(g, rows, cols)
  {
    forall q :: 0 <= q < |ps| ==> Lands(g, rows, cols, ps[q], Interior(ps[q]), strict)
  }

  /** Marks every full path of `ps`, in order: markers are kept and each
      wire cell ends up raised by the total use of all paths. */
  function MarkPaths(g: Grid, rows: nat, cols: nat, ps: seq<seq<Loc>>, strict: bool): (r: Result<Grid>)
    requires IsRect(g, rows, cols)
    ensures r.Ok? <==> AllLand(g, rows, cols, ps, strict)
    ensures r.Ok? ==> IsRect(r.value, rows, cols)
    ensures r.Ok? ==> RaisedByAll(g, r.value, rows, cols, ps)
  {
    if |ps| == 0 then
      assert forall i, j :: 0 <= i < rows && 0 <= j < cols ==> Raised(g[i][j], 0, 0) == g[i][j];
      Ok(g)
    else
      var init := ps[..|ps| - 1];
      var p := ps[|ps| - 1];
      var prev := MarkPaths(g, rows, cols, init, strict);
      AllLandSnoc(g, rows, cols, ps, strict);
      if prev.Err? then prev
      else
        var g1 := prev.value;
        RaisedKinds(g, g1, rows, cols, init);
        LandsSameKinds(g, g1, rows, cols, p, Interior(p), strict);
        var r := MarkPath(g1, rows, cols, p, Interior(p), strict);
        if r.Err? then r
        else
          RaisedTwice(g, g1, r.value, rows, cols, ps);
          r
  }

  lemma AllLandSnoc(g: Grid, rows: nat, cols: nat, ps: seq<seq<Loc>>, strict: bool)
    requires IsRect(g, rows, cols) && |ps| > 0
    ensures AllLand(g, rows, cols, ps, strict) <==>
            AllLand(g, rows, cols, ps[..|ps| - 1], strict)
            && Lands(g, rows, cols, ps[|ps| - 1], Interior(ps[|ps| - 1]), strict)
  {
    var init := ps[..|ps| - 1];
    assert forall q :: 0 <= q < |init| ==> init[q] == ps[q];
  }

  lemma RaisedKinds(g: Grid, g1: Grid, rows: nat, cols: nat, ps: seq<seq<Loc>>)
    requires IsRect(g, rows, cols) && IsRect(g1, rows, cols)
    requires RaisedByAll(g, g1, rows, cols, ps)
    ensures SameKinds(g, g1, rows, cols)
  {
  }

  lemma RaisedTwice(g: Grid, g1: Grid, g2: Grid, rows: nat, cols: nat, ps: seq<seq<Loc>>)
    requires |ps| > 0
    requires IsRect(g, rows, cols) && IsRect(g1, rows, cols) && IsRect(g2, rows, cols)
    requires RaisedByAll(g, g1, rows, cols, ps[..|ps| - 1])
    requires RaisedBy(g1, g2, rows, cols, ps[|ps| - 1], Interior(ps[|ps| - 1]))
    ensures RaisedByAll(g, g2, rows, cols, ps)
  {
    var init := ps[..|ps| - 1];
    var p := ps[|ps| - 1];
    forall i, j | 0 <= i < rows && 0 <= j < cols
      ensures g2[i][j] == Raised(g[i][j], TotalUses(rows, cols, ps, i, j, H), TotalUses(rows, cols, ps, i, j, V))
    {
      var a := TotalUses(rows, cols, init, i, j, H);
      var b := TotalUses(rows, cols, init, i, j, V);
      var c := Uses(rows, cols, p, Interior(p), i, j, H);
      var d := Uses(rows, cols, p, Interior(p), i, j, V);
      assert TotalUses(rows, cols, ps, i, j, H) == a + c;
      assert TotalUses(rows, cols, ps, i, j, V) == b + d;
      assert g1[i][j] == Raised(g[i][j], a, b);
      assert CellRaised(g1, g2, rows, cols, p, Interior(p), i, j);
    }
  }

  /** The two ends of a path are never raised by it: with a grid and a
      single path whose only visit to a cell is as its first or last
      element, that cell is unchanged. */
  lemma {:induction false} EndsUntouched(rows: nat, cols: nat, p: seq<Loc>, n: nat, i: nat, j: nat, a: Axis)
    requires n <= Interior(p)
    requires forall k :: 1 <= k < |p| - 1 ==> Resolve(rows, cols, p[k]) != Some((i, j))
    ensures Uses(rows, cols, p, n, i, j, a) == 0
    decreases n
  {
    if n > 1 {
      EndsUntouched(rows, cols, p, n - 1, i, j, a);
    }
  }

  /** A straight interior cell raises one counter, a corner both: the
      cell's two hops decide, and a cell is raised at least once on some axis. */
  lemma InteriorRaised(p: seq<Loc>, k: nat)
    requires 1 <= k < |p| - 1
    ensures Touches(p, k, H) || Touches(p, k, V)
    ensures (Touches(p, k, H) && Touches(p, k, V)) <==> HopAxis(p[k - 1], p[k]) != HopAxis(p[k], p[k + 1])
  {
  }

  // ------------------------------------------------- the unraised error

  /** As written, a path through a marker cell is accepted and the marker
      is kept; the corrected reading rejects it. */
  lemma MarkerCrossing()
    ensures MarkPaths([[Wire(0, 0), Mark(Logic), Wire(0, 0)]], 1, 3, [[(0, 0), (0, 1), (0, 2)]], false)
            == Ok([[Wire(0, 0), Mark(Logic), Wire(0, 0)]])
    ensures MarkPaths([[Wire(0, 0), Mark(Logic), Wire(0, 0)]], 1, 3, [[(0, 0), (0, 1), (0, 2)]], true).Err?
  {
    var g := [[Wire(0, 0), Mark(Logic), Wire(0, 0)]];
    var p := [(0, 0), (0, 1), (0, 2)];
    assert IsRect(g, 1, 3);
    assert LandsAt(g, 1, 3, p[1], false) && !LandsAt(g, 1, 3, p[1], true);
    assert !Lands(g, 1, 3, [p][0], Interior([p][0]), true);
    assert !AllLand(g, 1, 3, [p], true);
    var r := MarkPaths(g, 1, 3, [p], false);
    assert r.Ok? by { assert AllLand(g, 1, 3, [p], false); }
    forall i, j | 0 <= i < 1 && 0 <= j < 3 ensures r.value[i][j] == g[i][j] {
    }
    assert r.value[0] == g[0];
  }
}
