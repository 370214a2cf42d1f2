/** The maze router of the heterogeneous flow (`place_and_route` in
    src/place_and_route_general.py): components are copied onto one grid
    of unit cells at given offsets, then every connection is searched for
    cell by cell, preferring cells whose wires are least used, and traced
    back from the slave port to the master port, raising the counters of
    the cells it runs through. */
module General {
  import opened Wrappers
  import opened Cells
  import opened Blocks
  import opened Bumps
  import Paths
  import Compose

  /** Extra length charged for a turn. */
  const CornerPenalty: nat := 5
  /** How far (in columns, in rows) a route may stray outside the box
      spanned by its two ends. */
  const DetourH: nat := 50
  const DetourV: nat := 10

  // ------------------------------------------------------------ the search

  /** A cell's entry in the search grid: wires crossed so far, length so
      far (turns weigh `CornerPenalty` extra), the axis the cell was
      entered along and the cell it was entered from. An unreached cell
      has no entry (Python's `[inf, inf, None, None]`). */
  datatype Lab = Lab(coll: nat, dist: nat, dir: Option<Axis>, prev: Option<Loc>)
  type Marks = seq<seq<Option<Lab>>>

  /** The master port's entry `(0, 0, None, None)`. */
  const Root: Lab := Lab(0, 0, None, None)

  /** What one search sees: the grid, its size and the two ports. */
  datatype Ctx = Ctx(g: Grid, rows: nat, cols: nat, src: Loc, dst: Loc)

  predicate Valid(c: Ctx) {
    IsRect(c.g, c.rows, c.cols) && Resolve(c.rows, c.cols, c.src).Some?
  }

  /** The cell Python's `dgrid[source[0]][source[1]]` designates. */
  function Home(c: Ctx): (r: Loc)
    requires Valid(c)
    ensures InRange(c.rows, c.cols, r)
  {
    var p := Resolve(c.rows, c.cols, c.src).value;
    (p.0, p.1)
  }

  predicate Shaped(dg: Marks, rows: nat, cols: nat) {
    |dg| == rows && forall i :: 0 <= i < rows ==> |dg[i]| == cols
  }

  /** Python's `dgrid[l[0]][l[1]]`, reading nothing outside the grid. */
  function LabAt(dg: Marks, rows: nat, cols: nat, l: Loc): Option<Lab>
    requires Shaped(dg, rows, cols)
  {
    match Resolve(rows, cols, l)
    case None => None
    case Some(p) => dg[p.0][p.1]
  }

  function SetLab(dg: Marks, l: Loc, x: Lab): (r: Marks)
    requires 0 <= l.0 < |dg| && 0 <= l.1 < |dg[l.0]|
    ensures |r| == |dg| && forall i :: 0 <= i < |dg| ==> |r[i]| == |dg[i]|
    ensures forall i, j :: 0 <= i < |dg| && 0 <= j < |dg[i]| ==>
              r[i][j] == if (i, j) == l then Some(x) else dg[i][j]
  {
    dg[l.0 := dg[l.0][l.1 := Some(x)]]
  }

  function Blank(rows: nat, cols: nat): (r: Marks)
    ensures Shaped(r, rows, cols)
    ensures forall i, j :: 0 <= i < rows && 0 <= j < cols ==> r[i][j].None?
  {
    seq(rows, _ => seq(cols, _ => None))
  }

  function Min(a: int, b: int): int { if a < b then a else b }
  function Max(a: int, b: int): int { if a < b then b else a }

  /** The cells a route between `s` and `d` may use: the box the two ends
      span, widened by the detour limits. */
  predicate InBox(s: Loc, d: Loc, l: Loc) {
    && Min(s.0, d.0) - DetourV <= l.0 <= Max(s.0, d.0) + DetourV
    && Min(s.1, d.1) - DetourH <= l.1 <= Max(s.1, d.1) + DetourH
  }

  /** The search may step onto `n`: it lies on the grid, holds wire
      counters or is the slave port, and lies inside the box. */
  predicate Enters(c: Ctx, n: Loc)
    requires IsRect(c.g, c.rows, c.cols)
  {
    && InRange(c.rows, c.cols, n)
    && (c.g[n.0][n.1].Wire? || n == c.dst)
    && InBox(c.src, c.dst, n)
  }

  /** The four moves in the order they are tried. */
  const Moves: seq<Loc> := [(0, 1), (0, -1), (1, 0), (-1, 0)]

  /** The axis a move runs along (`abs(rd)`: 0 horizontal, 1 vertical). */
  function MoveAxis(m: Loc): Axis { if m.0 == 0 then H else V }

  /** `x` is one step from `p` along `a`. */
  predicate Beside(p: Loc, a: Axis, x: Loc) {
    Fix(p, a) == Fix(x, a) && (Pos(x, a) == Pos(p, a) + 1 || Pos(x, a) == Pos(p, a) - 1)
  }

  /** `grid[cr][cc][axis]` when that cell holds counters, otherwise 0. */
  function Held(c: Ctx, l: Loc, a: Axis): nat
    requires IsRect(c.g, c.rows, c.cols)
  {
    match Resolve(c.rows, c.cols, l)
    case None => 0
    case Some(p) => if c.g[p.0][p.1].Wire? then Count(c.g[p.0][p.1], a) else 0
  }

  /** The wires crossed and the length of the path that extends the one
      ending at `cur` (entry `lc`) into its neighbour `n` along `a`:
      entering `n` crosses its wires along `a` (none at the slave port);
      turning crosses the wires of `cur` along the old axis and costs
      `CornerPenalty` in length. */
  function Offer(c: Ctx, lc: Lab, cur: Loc, n: Loc, a: Axis): (r: (nat, nat))
    requires IsRect(c.g, c.rows, c.cols) && Enters(c, n)
    ensures lc.coll <= r.0 && lc.dist < r.1
    ensures lc.dir.Some? && lc.dir.value != a ==> r.1 == lc.dist + 1 + CornerPenalty
    ensures (lc.dir.None? || lc.dir.value == a) ==> r.1 == lc.dist + 1
    ensures (lc.dir.None? || lc.dir.value == a) && n == c.dst ==> r.0 == lc.coll
  {
    var enter := if n != c.dst then Count(c.g[n.0][n.1], a) else 0;
    if lc.dir.Some? && lc.dir.value != a then
      (lc.coll + enter + Held(c, cur, lc.dir.value), lc.dist + 1 + CornerPenalty)
    else
      (lc.coll + enter, lc.dist + 1)
  }

  /** Whether an offer of `x` wires and length `d` replaces `held`, the
      entry the cell has. As written the code asks
      `x < coll or (x < coll and d < dist)`, so only the wires crossed
      decide (`fixed == false`); the evidently intended rule breaks ties
      on wires by length (`fixed == true`). */
  predicate Improves(fixed: bool, x: nat, d: nat, held: Option<Lab>) {
    || held.None?
    || x < held.value.coll
    || (fixed && x == held.value.coll && d < held.value.dist)
  }

  /** `p` is strictly better than `l`: fewer wires, or as many and shorter. */
  predicate Before(p: Lab, l: Lab) {
    p.coll < l.coll || (p.coll == l.coll && p.dist < l.dist)
  }

  /** As written, length never decides: an entry is replaced exactly when
      the offer crosses fewer wires, so an offer as good in wires but
      shorter (one turn fewer) is turned down. */
  lemma DistanceIgnored(x: nat, d: nat, held: Lab)
    ensures Improves(false, x, d, Some(held)) <==> x < held.coll
    ensures Improves(false, 0, 2, Some(Lab(0, 7, Some(V), Some((0, 1))))) == false
  {
  }

  /** With the intended rule an entry is replaced exactly when the offer
      is strictly better in wires, then length. */
  lemma TieBreakOrder(x: nat, d: nat, held: Lab)
    ensures Improves(true, x, d, Some(held)) <==> Before(Lab(x, d, None, None), held)
    ensures Improves(true, 0, 2, Some(Lab(0, 7, Some(V), Some((0, 1)))))
  {
  }

  /** One try of a move from `cur`: the neighbour gets a new entry and is
      queued when the offer improves on what it holds. */
  function Relax(c: Ctx, fixed: bool, dg: Marks, todo: seq<Loc>, cur: Loc, m: Loc): (Marks, seq<Loc>)
    requires IsRect(c.g, c.rows, c.cols) && Shaped(dg, c.rows, c.cols)
    requires LabAt(dg, c.rows, c.cols, cur).Some?
  {
    var n := (cur.0 + m.0, cur.1 + m.1);
    var a := MoveAxis(m);
    if !Enters(c, n) then (dg, todo)
    else
      var o := Offer(c, LabAt(dg, c.rows, c.cols, cur).value, cur, n, a);
      if Improves(fixed, o.0, o.1, dg[n.0][n.1]) then
        (SetLab(dg, n, Lab(o.0, o.1, Some(a), Some(cur))), todo + [n])
      else (dg, todo)
  }

  // --------------------------------------------- what the search maintains

  /** `p` may be the cell an entry `l` was reached from: the master port,
      or another reached cell (not the master port's cell), and in either
      case strictly better than `l`. */
  predicate Parent(c: Ctx, dg: Marks, p: Loc, l: Lab)
    requires Valid(c) && Shaped(dg, c.rows, c.cols)
  {
    && LabAt(dg, c.rows, c.cols, p).Some?
    && Before(LabAt(dg, c.rows, c.cols, p).value, l)
    && (p == c.src || (InRange(c.rows, c.cols, p) && p != Home(c)))
  }

  /** A reached cell other than the master port's: it was entered from a
      neighbour, along the axis recorded, and was allowed to be entered. */
  predicate Grown(c: Ctx, dg: Marks, x: Loc)
    requires Valid(c) && Shaped(dg, c.rows, c.cols) && InRange(c.rows, c.cols, x)
  {
    match dg[x.0][x.1]
    case None => true
    case Some(l) =>
      && l.prev.Some? && l.dir.Some?
      && Enters(c, x)
      && Beside(l.prev.value, l.dir.value, x)
      && Parent(c, dg, l.prev.value, l)
  }

  predicate Tree(c: Ctx, dg: Marks)
    requires Valid(c) && Shaped(dg, c.rows, c.cols)
  {
    forall i, j :: 0 <= i < c.rows && 0 <= j < c.cols && (i, j) != Home(c) ==> Grown(c, dg, (i, j))
  }

  /** A queued cell: the master port or a reached cell. */
  predicate Ready(c: Ctx, dg: Marks, t: Loc)
    requires Valid(c) && Shaped(dg, c.rows, c.cols)
  {
    t == c.src || (InRange(c.rows, c.cols, t) && t != Home(c) && dg[t.0][t.1].Some?)
  }

  predicate Queued(c: Ctx, dg: Marks, todo: seq<Loc>)
    requires Valid(c) && Shaped(dg, c.rows, c.cols)
  {
    forall k :: 0 <= k < |todo| ==> Ready(c, dg, todo[k])
  }

  /** The search's invariant: the master port keeps entry `Root`, every
      other entry points back to a strictly better neighbour, and the
      queue holds only reached cells. */
  predicate Inv(c: Ctx, dg: Marks, todo: seq<Loc>) {
    && Valid(c)
    && Shaped(dg, c.rows, c.cols)
    && dg[Home(c).0][Home(c).1] == Some(Root)
    && Tree(c, dg)
    && Queued(c, dg, todo)
  }

  lemma LabAtInRange(dg: Marks, rows: nat, cols: nat, l: Loc)
    requires Shaped(dg, rows, cols) && InRange(rows, cols, l)
    ensures LabAt(dg, rows, cols, l) == dg[l.0][l.1]
  {
  }

  lemma LabAtSrc(c: Ctx, dg: Marks)
    requires Inv(c, dg, [])
    ensures LabAt(dg, c.rows, c.cols, c.src) == Some(Root)
  {
  }

  /** Giving `n` a better entry reached from `cur` keeps the invariant. */
  lemma RelabelKeeps(c: Ctx, dg: Marks, todo: seq<Loc>, cur: Loc, n: Loc, l: Lab)
    requires Inv(c, dg, todo) && Ready(c, dg, cur)
    requires Enters(c, n) && l.dir.Some? && Beside(cur, l.dir.value, n) && l.prev == Some(cur)
    requires LabAt(dg, c.rows, c.cols, cur).Some? && Before(LabAt(dg, c.rows, c.cols, cur).value, l)
    requires dg[n.0][n.1].None? || Before(l, dg[n.0][n.1].value)
    ensures n != Home(c)
    ensures Inv(c, SetLab(dg, n, l), todo + [n])
  {
    var dg' := SetLab(dg, n, l);
    var h := Home(c);
    assert n != h by { assert dg[h.0][h.1] == Some(Root); }
    assert cur != n;
    assert LabAt(dg', c.rows, c.cols, cur) == LabAt(dg, c.rows, c.cols, cur) by {
      if cur != c.src { LabAtInRange(dg, c.rows, c.cols, cur); LabAtInRange(dg', c.rows, c.cols, cur); }
    }
    assert Parent(c, dg', cur, l);
    forall i, j | 0 <= i < c.rows && 0 <= j < c.cols && (i, j) != h
      ensures Grown(c, dg', (i, j))
    {
      if (i, j) != n {
        assert Grown(c, dg, (i, j));
        if dg[i][j].Some? {
          var ly := dg[i][j].value;
          var p := ly.prev.value;
          assert Parent(c, dg, p, ly);
          if p == c.src {
            assert LabAt(dg', c.rows, c.cols, p) == LabAt(dg, c.rows, c.cols, p);
          } else {
            LabAtInRange(dg, c.rows, c.cols, p);
            LabAtInRange(dg', c.rows, c.cols, p);
          }
          assert Parent(c, dg', p, ly);
        }
      }
    }
    assert Tree(c, dg');
    forall k | 0 <= k < |todo + [n]| ensures Ready(c, dg', (todo + [n])[k]) {
      if k < |todo| { assert Ready(c, dg, todo[k]); }
    }
  }

  lemma ReadyLab(c: Ctx, dg: Marks, todo: seq<Loc>, t: Loc)
    requires Inv(c, dg, todo) && Ready(c, dg, t)
    ensures LabAt(dg, c.rows, c.cols, t).Some?
  {
    if t != c.src { LabAtInRange(dg, c.rows, c.cols, t); }
  }

  // --------------------------------------------------- why the search ends

  function Val(x: Option<Lab>, coll: bool): nat {
    match x
    case None => 0
    case Some(l) => if coll then l.coll else l.dist
  }

  /** Unreached cells of a row, and the sum of its wires or lengths. */
  function RowFree(r: seq<Option<Lab>>): nat {
    if |r| == 0 then 0 else (if r[0].None? then 1 else 0) + RowFree(r[1..])
  }

  function RowSum(r: seq<Option<Lab>>, coll: bool): nat {
    if |r| == 0 then 0 else Val(r[0], coll) + RowSum(r[1..], coll)
  }

  function Free(dg: Marks): nat {
    if |dg| == 0 then 0 else RowFree(dg[0]) + Free(dg[1..])
  }

  function Total(dg: Marks, coll: bool): nat {
    if |dg| == 0 then 0 else RowSum(dg[0], coll) + Total(dg[1..], coll)
  }

  lemma {:induction false} RowUpdate(r: seq<Option<Lab>>, j: nat, x: Option<Lab>)
    requires j < |r|
    ensures RowFree(r[j := x]) + (if r[j].None? then 1 else 0) == RowFree(r) + (if x.None? then 1 else 0)
    ensures forall b :: RowSum(r[j := x], b) + Val(r[j], b) == RowSum(r, b) + Val(x, b)
  {
    if j > 0 {
      assert r[j := x][1..] == r[1..][j - 1 := x];
      RowUpdate(r[1..], j - 1, x);
    } else {
      assert r[j := x][1..] == r[1..];
    }
  }

  lemma {:induction false} GridUpdate(dg: Marks, i: nat, row: seq<Option<Lab>>)
    requires i < |dg|
    ensures Free(dg[i := row]) + RowFree(dg[i]) == Free(dg) + RowFree(row)
    ensures forall b :: Total(dg[i := row], b) + RowSum(dg[i], b) == Total(dg, b) + RowSum(row, b)
  {
    if i > 0 {
      assert dg[i := row][1..] == dg[1..][i - 1 := row];
      GridUpdate(dg[1..], i - 1, row);
    } else {
      assert dg[i := row][1..] == dg[1..];
    }
  }

  /** How giving cell `n` the entry `l` changes the three measures. */
  lemma SetLabMeasure(dg: Marks, rows: nat, cols: nat, n: Loc, l: Lab)
    requires Shaped(dg, rows, cols) && InRange(rows, cols, n)
    ensures Free(SetLab(dg, n, l)) + (if dg[n.0][n.1].None? then 1 else 0) == Free(dg)
    ensures forall b :: Total(SetLab(dg, n, l), b) + Val(dg[n.0][n.1], b) == Total(dg, b) + Val(Some(l), b)
  {
    RowUpdate(dg[n.0], n.1, Some(l));
    GridUpdate(dg, n.0, dg[n.0][n.1 := Some(l)]);
  }

  /** A better entry, or a first one, lowers the measures. */
  lemma RelabelLowers(dg: Marks, rows: nat, cols: nat, n: Loc, l: Lab)
    requires Shaped(dg, rows, cols) && InRange(rows, cols, n)
    requires dg[n.0][n.1].None? || Before(l, dg[n.0][n.1].value)
    ensures Lower(SetLab(dg, n, l), dg)
  {
    SetLabMeasure(dg, rows, cols, n, l);
    var dg', held := SetLab(dg, n, l), dg[n.0][n.1];
    assert Total(dg', true) + Val(held, true) == Total(dg, true) + l.coll;
    assert Total(dg', false) + Val(held, false) == Total(dg, false) + l.dist;
  }

  /** The measures of `dg1` are lexicographically below those of `dg`:
      fewer unreached cells, or as many and fewer wires in total, or
      as many of both and less length in total. */
  predicate Lower(dg1: Marks, dg: Marks) {
    || Free(dg1) < Free(dg)
    || (Free(dg1) == Free(dg) && Total(dg1, true) < Total(dg, true))
    || (Free(dg1) == Free(dg) && Total(dg1, true) == Total(dg, true) && Total(dg1, false) < Total(dg, false))
  }

  lemma LowerTrans(a: Marks, b: Marks, c: Marks)
    requires Lower(a, b) && Lower(b, c)
    ensures Lower(a, c)
  {
  }

  /** Each move reaches a neighbour along its axis. */
  lemma MoveBeside(cur: Loc, m: Loc)
    requires m in Moves
    ensures Beside(cur, MoveAxis(m), (cur.0 + m.0, cur.1 + m.1))
  {
  }

  /** One try of a move keeps the invariant, keeps `cur` reached, and
      either changes nothing or lowers the measures. */
  lemma RelaxKeeps(c: Ctx, fixed: bool, dg: Marks, todo: seq<Loc>, cur: Loc, m: Loc)
    requires Inv(c, dg, todo) && Ready(c, dg, cur) && m in Moves
    requires LabAt(dg, c.rows, c.cols, cur).Some?
    ensures var r := Relax(c, fixed, dg, todo, cur, m);
            && Inv(c, r.0, r.1) && Ready(c, r.0, cur)
            && (r == (dg, todo) || Lower(r.0, dg))
  {
    var n := (cur.0 + m.0, cur.1 + m.1);
    var a := MoveAxis(m);
    if Enters(c, n) {
      var lc := LabAt(dg, c.rows, c.cols, cur).value;
      var o := Offer(c, lc, cur, n, a);
      var held := dg[n.0][n.1];
      if Improves(fixed, o.0, o.1, held) {
        var l := Lab(o.0, o.1, Some(a), Some(cur));
        MoveBeside(cur, m);
        RelabelKeeps(c, dg, todo, cur, n, l);
        RelabelLowers(dg, c.rows, c.cols, n, l);
        assert Ready(c, SetLab(dg, n, l), cur);
      }
    }
  }

  /** The search from the master port: a queue of cells, each popped in
      turn and every move from it tried. `fixed` picks the replacement
      rule (see `Improves`). The result satisfies the invariant: every
      reached cell was entered from a strictly better neighbour. */
  method Search(c: Ctx, fixed: bool) returns (dg: Marks)
    requires Valid(c)
    ensures Inv(c, dg, [])
  {
    var home := Home(c);
    dg := SetLab(Blank(c.rows, c.cols), home, Root);
    var todo := [c.src];
    while |todo| > 0
      invariant Inv(c, dg, todo)
      decreases Free(dg), Total(dg, true), Total(dg, false), |todo|
    {
      var cur := todo[0];
      assert Ready(c, dg, cur);
      todo := todo[1..];
      ghost var dg0, todo0 := dg, todo;
      var k := 0;
      while k < |Moves|
        invariant k <= |Moves|
        invariant Inv(c, dg, todo) && Ready(c, dg, cur)
        invariant (dg, todo) == (dg0, todo0) || Lower(dg, dg0)
      {
        ReadyLab(c, dg, todo, cur);
        RelaxKeeps(c, fixed, dg, todo, cur, Moves[k]);
        ghost var dg1, todo1 := dg, todo;
        var r := Relax(c, fixed, dg, todo, cur, Moves[k]);
        dg, todo := r.0, r.1;
        if Lower(dg, dg1) && Lower(dg1, dg0) { LowerTrans(dg, dg1, dg0); }
        k := k + 1;
      }
    }
  }

  // ----------------------------------------------------------- tracing back

  /** The slave port was reached: its entry exists and points back
      (the master port's own entry points nowhere). */
  predicate Reached(c: Ctx, dg: Marks)
    requires Valid(c) && Shaped(dg, c.rows, c.cols)
  {
    LabAt(dg, c.rows, c.cols, c.dst).Some? && LabAt(dg, c.rows, c.cols, c.dst).value.prev.Some?
  }

  /** A cell the trace may stand on: the master port, or a reached cell
      other than the master port's, which is the slave port or a cell
      on the grid strictly better than the slave port's entry `top`. */
  predicate OnTrail(c: Ctx, dg: Marks, cur: Loc, top: Lab)
    requires Valid(c) && Shaped(dg, c.rows, c.cols)
  {
    || cur == c.src
    || (&& Resolve(c.rows, c.cols, cur).Some?
        && var p := Resolve(c.rows, c.cols, cur).value;
        && (p.0, p.1) != Home(c)
        && dg[p.0][p.1].Some?
        && (cur == c.dst || (InRange(c.rows, c.cols, cur) && Before(dg[p.0][p.1].value, top))))
  }

  /** The last corner kept, `head`, lies on the line through `cur` along
      the axis `cur` was entered by. */
  predicate Lined(c: Ctx, dg: Marks, head: Loc, cur: Loc)
    requires Valid(c) && Shaped(dg, c.rows, c.cols)
  {
    LabAt(dg, c.rows, c.cols, cur).Some? && LabAt(dg, c.rows, c.cols, cur).value.dir.Some?
    && var a := LabAt(dg, c.rows, c.cols, cur).value.dir.value;
    Fix(head, a) == Fix(cur, a)
  }

  lemma BeforeTrans(a: Lab, b: Lab, d: Lab)
    requires Before(a, b) && Before(b, d)
    ensures Before(a, d)
  {
  }

  /** One step of the trace from `cur`, not yet the master port: the
      entry points back to a strictly better cell, still on the trail;
      that cell is never the slave port; it and `cur`, unless a port, hold
      wire counters; and it lies next to `cur` along the entry's axis. */
  lemma TraceStep(c: Ctx, dg: Marks, cur: Loc, top: Lab)
    requires Inv(c, dg, []) && Reached(c, dg) && top == LabAt(dg, c.rows, c.cols, c.dst).value
    requires cur != c.src && OnTrail(c, dg, cur, top)
    requires cur != c.dst ==> Before(LabAt(dg, c.rows, c.cols, cur).value, top)
    ensures LabAt(dg, c.rows, c.cols, cur).Some?
    ensures var l := LabAt(dg, c.rows, c.cols, cur).value;
            && l.prev.Some? && l.dir.Some?
            && var prv := l.prev.value;
            && LabAt(dg, c.rows, c.cols, prv).Some?
            && Before(LabAt(dg, c.rows, c.cols, prv).value, l)
            && OnTrail(c, dg, prv, top)
            && prv != c.dst
            && (prv != c.src ==> && InRange(c.rows, c.cols, prv)
                                 && OnWire(c.g, c.rows, c.cols, prv)
                                 && Before(LabAt(dg, c.rows, c.cols, prv).value, top)
                                 && LabAt(dg, c.rows, c.cols, prv).value.dir.Some?)
            && (cur != c.dst ==> OnWire(c.g, c.rows, c.cols, cur))
            && (InRange(c.rows, c.cols, c.dst) ==> Beside(prv, l.dir.value, cur))
  {
    var x := Resolve(c.rows, c.cols, cur).value;
    assert Grown(c, dg, (x.0, x.1));
    var l := dg[x.0][x.1].value;
    var prv := l.prev.value;
    assert Parent(c, dg, prv, l);
    if prv != c.src {
      LabAtInRange(dg, c.rows, c.cols, prv);
      assert Grown(c, dg, prv);
      if cur != c.dst {
        BeforeTrans(LabAt(dg, c.rows, c.cols, prv).value, l, top);
      }
      assert prv != c.dst;
    } else {
      assert prv != c.dst by {
        if cur != c.dst { BeforeTrans(LabAt(dg, c.rows, c.cols, prv).value, l, top); }
      }
    }
  }

  /** One step of the trace from `cur`: raise the counter of `cur` along
      its entry axis unless it is a port; when the cell it was entered
      from is not the master port and was itself entered along another
      axis, keep that cell as a corner and raise its counter along the
      same axis; move to that cell. */
  function BackStep(c: Ctx, dg: Marks, cur: Loc, route: seq<Loc>, bumps: seq<(Loc, Axis)>)
    : (Loc, seq<Loc>, seq<(Loc, Axis)>)
    requires Valid(c) && Shaped(dg, c.rows, c.cols)
    requires LabAt(dg, c.rows, c.cols, cur).Some?
    requires LabAt(dg, c.rows, c.cols, cur).value.prev.Some? && LabAt(dg, c.rows, c.cols, cur).value.dir.Some?
    requires LabAt(dg, c.rows, c.cols, LabAt(dg, c.rows, c.cols, cur).value.prev.value).Some?
  {
    var l := LabAt(dg, c.rows, c.cols, cur).value;
    var prv, cdir := l.prev.value, l.dir.value;
    var pdir := LabAt(dg, c.rows, c.cols, prv).value.dir;
    var bs := if cur != c.src && cur != c.dst then bumps + [(cur, cdir)] else bumps;
    if Some(cdir) != pdir && prv != c.src then (prv, [prv] + route, bs + [(prv, cdir)])
    else (prv, route, bs)
  }

  /** What holds at every step of the trace: the route kept so far ends
      at the slave port and its corners lie on the grid; `cur` is on the
      trail; the corners kept line up with each other and with `cur`;
      every raise so far lands on a wire counter. */
  predicate Tracing(c: Ctx, dg: Marks, top: Lab, cur: Loc, route: seq<Loc>, bumps: seq<(Loc, Axis)>)
    requires Valid(c) && Shaped(dg, c.rows, c.cols)
  {
    && Kept(c, route)
    && Standing(c, dg, top, cur)
    && LinedUp(c, dg, cur, route)
    && AllOnWire(c.g, c.rows, c.cols, bumps)
  }

  predicate Kept(c: Ctx, route: seq<Loc>) {
    && |route| >= 1 && route[|route| - 1] == c.dst
    && (forall k :: 0 <= k < |route| - 1 ==>
          InRange(c.rows, c.cols, route[k]) && route[k] != c.src && route[k] != c.dst)
  }

  predicate Standing(c: Ctx, dg: Marks, top: Lab, cur: Loc)
    requires Valid(c) && Shaped(dg, c.rows, c.cols)
  {
    && LabAt(dg, c.rows, c.cols, cur).Some?
    && OnTrail(c, dg, cur, top)
    && (cur != c.dst ==> Before(LabAt(dg, c.rows, c.cols, cur).value, top))
  }

  predicate LinedUp(c: Ctx, dg: Marks, cur: Loc, route: seq<Loc>)
    requires Valid(c) && Shaped(dg, c.rows, c.cols) && |route| >= 1
  {
    && (InRange(c.rows, c.cols, c.dst) ==> Paths.Aligned(route))
    && (InRange(c.rows, c.cols, c.dst) && cur != c.src ==> Lined(c, dg, route[0], cur))
    && (InRange(c.rows, c.cols, c.dst) && cur == c.src ==> Paths.Aligned([c.src] + route))
  }

  lemma KeptStep(c: Ctx, route: seq<Loc>, prv: Loc)
    requires Kept(c, route) && InRange(c.rows, c.cols, prv) && prv != c.src && prv != c.dst
    ensures Kept(c, [prv] + route)
  {
    assert forall k :: 0 < k < |route| + 1 ==> ([prv] + route)[k] == route[k - 1];
  }

  lemma BackStepKeeps(c: Ctx, dg: Marks, top: Lab, cur: Loc, route: seq<Loc>, bumps: seq<(Loc, Axis)>)
    requires Inv(c, dg, []) && Reached(c, dg) && top == LabAt(dg, c.rows, c.cols, c.dst).value
    requires cur != c.src && Tracing(c, dg, top, cur, route, bumps)
    ensures LabAt(dg, c.rows, c.cols, cur).Some?
    ensures LabAt(dg, c.rows, c.cols, cur).value.prev.Some? && LabAt(dg, c.rows, c.cols, cur).value.dir.Some?
    ensures LabAt(dg, c.rows, c.cols, LabAt(dg, c.rows, c.cols, cur).value.prev.value).Some?
    ensures var r := BackStep(c, dg, cur, route, bumps);
            && Tracing(c, dg, top, r.0, r.1, r.2)
            && Before(LabAt(dg, c.rows, c.cols, r.0).value, LabAt(dg, c.rows, c.cols, cur).value)
  {
    TraceStep(c, dg, cur, top);
    var l := LabAt(dg, c.rows, c.cols, cur).value;
    var prv, cdir := l.prev.value, l.dir.value;
    var pdir := LabAt(dg, c.rows, c.cols, prv).value.dir;
    var bs := if cur != c.src && cur != c.dst then bumps + [(cur, cdir)] else bumps;
    if cur != c.src && cur != c.dst {
      AllOnWireSnoc(c.g, c.rows, c.cols, bs);
    }
    var turn := Some(cdir) != pdir && prv != c.src;
    var route' := if turn then [prv] + route else route;
    var bumps' := if turn then bs + [(prv, cdir)] else bs;
    assert BackStep(c, dg, cur, route, bumps) == (prv, route', bumps');
    if turn {
      AllOnWireSnoc(c.g, c.rows, c.cols, bumps');
      KeptStep(c, route, prv);
    }
    assert Standing(c, dg, top, prv);
    if InRange(c.rows, c.cols, c.dst) {
      AlignStep(c, dg, route, route', cur, prv, cdir);
    }
    assert LinedUp(c, dg, prv, route');
  }

  /** The trace from the slave port back to the master port: it keeps the
      ports and every corner (where the entry axis changes), raises the
      counter along the route of every cell passed and of every corner,
      and none of those raises lands on a marker or outside the grid. */
  method Backtrack(c: Ctx, dg: Marks) returns (route: seq<Loc>, cells: seq<Loc>, bumps: seq<(Loc, Axis)>)
    requires Inv(c, dg, []) && Reached(c, dg)
    ensures |route| >= 2 && route[0] == c.src && route[|route| - 1] == c.dst
    ensures forall k :: 0 < k < |route| - 1 ==>
              InRange(c.rows, c.cols, route[k]) && route[k] != c.src && route[k] != c.dst
    ensures InRange(c.rows, c.cols, c.dst) ==> Paths.Aligned(route)
    ensures AllOnWire(c.g, c.rows, c.cols, bumps)
    ensures InRange(c.rows, c.cols, c.dst) ==> TracedWalk(c.src, c.dst, route, cells, bumps)
  {
    var back;
    back, cells, bumps := TraceBack(c, dg);
    route := [c.src] + back;
    TraceDone(c, dg, LabAt(dg, c.rows, c.cols, c.dst).value, cells, back, bumps, route);
  }

  /** The trace's loop: step back from the slave port until the master
      port is reached. */
  method TraceBack(c: Ctx, dg: Marks) returns (route: seq<Loc>, cells: seq<Loc>, bumps: seq<(Loc, Axis)>)
    requires Inv(c, dg, []) && Reached(c, dg)
    ensures Trace(c, dg, LabAt(dg, c.rows, c.cols, c.dst).value, c.src, cells, route, bumps)
  {
    route := [c.dst];
    cells := [c.dst];
    bumps := [];
    var cur := c.dst;
    ghost var top := LabAt(dg, c.rows, c.cols, c.dst).value;
    LabAtSrc(c, dg);
    while cur != c.src
      invariant Trace(c, dg, top, cur, cells, route, bumps)
      decreases LabAt(dg, c.rows, c.cols, cur).value.coll, LabAt(dg, c.rows, c.cols, cur).value.dist
    {
      TraceOn(c, dg, top, cur, cells, route, bumps);
      var next := BackStep(c, dg, cur, route, bumps);
      cells := [next.0] + cells;
      cur, route, bumps := next.0, next.1, next.2;
    }
  }

  /** The trace's loop invariant: the bookkeeping of `Tracing` and, when
      the slave port is on the grid, the walk behind the route. */
  predicate Trace(c: Ctx, dg: Marks, top: Lab, cur: Loc, cells: seq<Loc>, route: seq<Loc>, bumps: seq<(Loc, Axis)>)
    requires Valid(c) && Shaped(dg, c.rows, c.cols)
  {
    && Tracing(c, dg, top, cur, route, bumps)
    && (InRange(c.rows, c.cols, c.dst) ==> Walking(c, dg, cur, cells, route, bumps))
  }

  lemma TraceOn(c: Ctx, dg: Marks, top: Lab, cur: Loc, cells: seq<Loc>, route: seq<Loc>, bumps: seq<(Loc, Axis)>)
    requires Inv(c, dg, []) && Reached(c, dg) && top == LabAt(dg, c.rows, c.cols, c.dst).value
    requires cur != c.src && Trace(c, dg, top, cur, cells, route, bumps)
    ensures LabAt(dg, c.rows, c.cols, cur).Some?
    ensures LabAt(dg, c.rows, c.cols, cur).value.prev.Some? && LabAt(dg, c.rows, c.cols, cur).value.dir.Some?
    ensures LabAt(dg, c.rows, c.cols, LabAt(dg, c.rows, c.cols, cur).value.prev.value).Some?
    ensures var r := BackStep(c, dg, cur, route, bumps);
            && Trace(c, dg, top, r.0, [r.0] + cells, r.1, r.2)
            && Before(LabAt(dg, c.rows, c.cols, r.0).value, LabAt(dg, c.rows, c.cols, cur).value)
  {
    BackStepKeeps(c, dg, top, cur, route, bumps);
    if InRange(c.rows, c.cols, c.dst) {
      WalkStep(c, dg, top, cur, cells, route, bumps);
    }
  }

  lemma TraceDone(c: Ctx, dg: Marks, top: Lab, cells: seq<Loc>, route: seq<Loc>, bumps: seq<(Loc, Axis)>,
                  route': seq<Loc>)
    requires Inv(c, dg, []) && Trace(c, dg, top, c.src, cells, route, bumps) && route' == [c.src] + route
    ensures && |route'| >= 2 && route'[0] == c.src && route'[|route'| - 1] == c.dst
            && (forall k :: 0 < k < |route'| - 1 ==>
                  InRange(c.rows, c.cols, route'[k]) && route'[k] != c.src && route'[k] != c.dst)
            && (InRange(c.rows, c.cols, c.dst) ==> Paths.Aligned(route'))
            && AllOnWire(c.g, c.rows, c.cols, bumps)
            && (InRange(c.rows, c.cols, c.dst) ==> TracedWalk(c.src, c.dst, route', cells, bumps))
  {
    if InRange(c.rows, c.cols, c.dst) {
      WalkDone(c, dg, cells, route, bumps);
    }
    assert forall k :: 0 < k < |route'| ==> route'[k] == route[k - 1];
  }

  // ------------------------------------------------ the walk behind a route

  /** The waypoints a walk of neighbouring cells keeps: every cell where
      it turns, then its last cell. `e` is the axis the first cell was
      entered along; the master port was entered along none, so the walk
      never turns there. */
  function Corners(w: seq<Loc>, e: Option<Axis>): (r: seq<Loc>)
    requires |w| >= 1
    ensures |r| >= 1 && r[|r| - 1] == w[|w| - 1]
    decreases |w|
  {
    if |w| == 1 then [w[0]]
    else
      var a := HopAxis(w[0], w[1]);
      (if e.Some? && e.value != a then [w[0]] else []) + Corners(w[1..], Some(a))
  }

  /** The counters a walk raises, listed from its far end back: every
      cell strictly inside the walk along the axis it is entered by, and
      every cell where the walk turns along the axis it leaves by. */
  function WalkBumps(w: seq<Loc>, e: Option<Axis>): seq<(Loc, Axis)>
    requires |w| >= 1
    decreases |w|
  {
    if |w| == 1 then []
    else
      var a := HopAxis(w[0], w[1]);
      WalkBumps(w[1..], Some(a))
        + (if |w| > 2 then [(w[1], a)] else [])
        + (if e.Some? && e.value != a then [(w[0], a)] else [])
  }

  /** Three cells on one row or on one column. */
  predicate Collinear(a: Loc, b: Loc, d: Loc) {
    (a.0 == b.0 && b.0 == d.0) || (a.1 == b.1 && b.1 == d.1)
  }

  /** No three consecutive waypoints lie on one line: every waypoint
      between the ends is a real corner. */
  predicate NoStraight(route: seq<Loc>) {
    forall i :: 0 <= i < |route| - 2 ==> !Collinear(route[i], route[i + 1], route[i + 2])
  }

  /** What the trace leaves: `cells` is a walk of neighbouring cells from
      the master port to the slave port, the route keeps its ends and
      exactly the cells where it turns, no three waypoints are
      collinear, and the raises are those of the walk. */
  predicate TracedWalk(src: Loc, dst: Loc, route: seq<Loc>, cells: seq<Loc>, bumps: seq<(Loc, Axis)>) {
    && |cells| >= 1 && cells[0] == src && cells[|cells| - 1] == dst
    && Paths.Connected(cells)
    && route == [src] + Corners(cells, None)
    && bumps == WalkBumps(cells, None)
    && NoStraight(route)
  }

  /** Two hops along different axes between distinct cells never line up. */
  lemma TurnNotCollinear(a: Loc, b: Loc, d: Loc)
    requires a != b && b != d && HopAxis(a, b) != HopAxis(b, d)
    ensures !Collinear(a, b, d)
  {
  }

  /** The route's first waypoint is a corner left along another axis than
      the one it was entered by. */
  predicate Turned(c: Ctx, dg: Marks, route: seq<Loc>)
    requires Valid(c) && Shaped(dg, c.rows, c.cols) && |route| >= 2
  {
    && route[0] != route[1]
    && LabAt(dg, c.rows, c.cols, route[0]).Some? && LabAt(dg, c.rows, c.cols, route[0]).value.dir.Some?
    && HopAxis(route[0], route[1]) != LabAt(dg, c.rows, c.cols, route[0]).value.dir.value
  }

  /** `cur` is the route's first waypoint, or lies before it on the same
      straight stretch: entered along the same axis, strictly better. */
  predicate Ahead(c: Ctx, dg: Marks, cur: Loc, head: Loc)
    requires Valid(c) && Shaped(dg, c.rows, c.cols) && LabAt(dg, c.rows, c.cols, cur).Some?
  {
    || cur == head
    || (&& InRange(c.rows, c.cols, head) && LabAt(dg, c.rows, c.cols, head).Some?
        && Before(LabAt(dg, c.rows, c.cols, cur).value, LabAt(dg, c.rows, c.cols, head).value)
        && LabAt(dg, c.rows, c.cols, cur).value.dir == LabAt(dg, c.rows, c.cols, head).value.dir)
  }

  /** `cells` is a walk of neighbouring cells that first reaches `dst` at
      its end, entered along `e`, and `route` and `bumps` are its corners
      and raises. */
  predicate WalkShape(cells: seq<Loc>, route: seq<Loc>, bumps: seq<(Loc, Axis)>, e: Option<Axis>, dst: Loc) {
    && |cells| >= 1 && cells[|cells| - 1] == dst
    && Paths.Connected(cells)
    && (|cells| > 1 ==> cells[0] != dst)
    && route == Corners(cells, e)
    && bumps == WalkBumps(cells, e)
  }

  /** The order facts the trace keeps about the route so far: no straight
      waypoint, the first waypoint (unless the last) a real corner, and
      `cur` on the straight stretch leading to it. */
  predicate WalkOrder(c: Ctx, dg: Marks, cur: Loc, route: seq<Loc>)
    requires Valid(c) && Shaped(dg, c.rows, c.cols) && LabAt(dg, c.rows, c.cols, cur).Some?
  {
    && |route| >= 1
    && NoStraight(route)
    && (|route| >= 2 ==> Turned(c, dg, route))
    && (cur != c.src ==> Ahead(c, dg, cur, route[0]))
    && (cur == c.src ==> NoStraight([c.src] + route))
  }

  /** The trace's walk invariant: `cells` runs from `cur` to the slave
      port, and the route and raises so far are those of that walk. */
  predicate Walking(c: Ctx, dg: Marks, cur: Loc, cells: seq<Loc>, route: seq<Loc>, bumps: seq<(Loc, Axis)>)
    requires Valid(c) && Shaped(dg, c.rows, c.cols)
  {
    && LabAt(dg, c.rows, c.cols, cur).Some?
    && |cells| >= 1 && cells[0] == cur
    && WalkShape(cells, route, bumps, LabAt(dg, c.rows, c.cols, cur).value.dir, c.dst)
    && WalkOrder(c, dg, cur, route)
  }

  /** Once the trace stands on the master port, its walk is complete. */
  lemma WalkDone(c: Ctx, dg: Marks, cells: seq<Loc>, route: seq<Loc>, bumps: seq<(Loc, Axis)>)
    requires Inv(c, dg, []) && InRange(c.rows, c.cols, c.dst) && Walking(c, dg, c.src, cells, route, bumps)
    ensures TracedWalk(c.src, c.dst, [c.src] + route, cells, bumps)
  {
    LabAtSrc(c, dg);
  }

  /** One step of the trace extends the walk by the cell it moves to. */
  lemma WalkStep(c: Ctx, dg: Marks, top: Lab, cur: Loc, cells: seq<Loc>, route: seq<Loc>, bumps: seq<(Loc, Axis)>)
    requires Inv(c, dg, []) && Reached(c, dg) && top == LabAt(dg, c.rows, c.cols, c.dst).value
    requires cur != c.src && Tracing(c, dg, top, cur, route, bumps)
    requires InRange(c.rows, c.cols, c.dst) && Walking(c, dg, cur, cells, route, bumps)
    ensures LabAt(dg, c.rows, c.cols, cur).Some?
    ensures LabAt(dg, c.rows, c.cols, cur).value.prev.Some? && LabAt(dg, c.rows, c.cols, cur).value.dir.Some?
    ensures LabAt(dg, c.rows, c.cols, LabAt(dg, c.rows, c.cols, cur).value.prev.value).Some?
    ensures var r := BackStep(c, dg, cur, route, bumps);
            Walking(c, dg, r.0, [r.0] + cells, r.1, r.2)
  {
    TraceStep(c, dg, cur, top);
    LabAtSrc(c, dg);
    var l := LabAt(dg, c.rows, c.cols, cur).value;
    var prv, cdir := l.prev.value, l.dir.value;
    var lp := LabAt(dg, c.rows, c.cols, prv).value;
    assert prv == c.src <==> lp.dir.None?;
    assert Lined(c, dg, route[0], cur);
    var turn := lp.dir.Some? && lp.dir.value != cdir;
    assert turn == (Some(cdir) != lp.dir && prv != c.src);
    var bs := if cur != c.src && cur != c.dst then bumps + [(cur, cdir)] else bumps;
    assert bs == bumps + (if cur != c.dst then [(cur, cdir)] else []);
    var r := BackStep(c, dg, cur, route, bumps);
    WalkOn(c, dg, cur, prv, cdir, cells, route, bumps, r.1, r.2);
  }

  /** The walk invariant survives a step back from `cur` to the neighbour
      `prv` it was entered from along `cdir`. */
  lemma WalkOn(c: Ctx, dg: Marks, cur: Loc, prv: Loc, cdir: Axis,
               cells: seq<Loc>, route: seq<Loc>, bumps: seq<(Loc, Axis)>, route': seq<Loc>, bumps': seq<(Loc, Axis)>)
    requires Valid(c) && Shaped(dg, c.rows, c.cols) && InRange(c.rows, c.cols, c.dst)
    requires cur != c.src && LabAt(dg, c.rows, c.cols, cur).Some? && LabAt(dg, c.rows, c.cols, prv).Some?
    requires |cells| >= 1 && cells[0] == cur && WalkShape(cells, route, bumps, Some(cdir), c.dst)
    requires WalkOrder(c, dg, cur, route)
    requires LabAt(dg, c.rows, c.cols, cur).value.dir == Some(cdir)
    requires Before(LabAt(dg, c.rows, c.cols, prv).value, LabAt(dg, c.rows, c.cols, cur).value)
    requires Beside(prv, cdir, cur) && prv != c.dst
    requires prv == c.src <==> LabAt(dg, c.rows, c.cols, prv).value.dir.None?
    requires Kept(c, route) && Fix(route[0], cdir) == Fix(cur, cdir)
    requires var pdir := LabAt(dg, c.rows, c.cols, prv).value.dir;
             var turn := pdir.Some? && pdir.value != cdir;
             && route' == (if turn then [prv] + route else route)
             && bumps' == bumps + (if cur != c.dst then [(cur, cdir)] else []) + (if turn then [(prv, cdir)] else [])
    ensures WalkShape([prv] + cells, route', bumps', LabAt(dg, c.rows, c.cols, prv).value.dir, c.dst)
    ensures WalkOrder(c, dg, prv, route')
  {
    BesideHop(prv, cdir, cur);
    WalkCons(prv, cur, cdir, LabAt(dg, c.rows, c.cols, prv).value.dir, cells, route, bumps, c.dst, route', bumps');
    OrderOn(c, dg, cur, prv, cdir, route, route');
  }

  /** The order facts survive a step back from `cur` to the neighbour
      `prv` it was entered from along `cdir`: `prv` joins the route
      exactly when it was entered along another axis. */
  lemma OrderOn(c: Ctx, dg: Marks, cur: Loc, prv: Loc, cdir: Axis, route: seq<Loc>, route': seq<Loc>)
    requires Valid(c) && Shaped(dg, c.rows, c.cols) && InRange(c.rows, c.cols, c.dst)
    requires cur != c.src && LabAt(dg, c.rows, c.cols, cur).Some? && WalkOrder(c, dg, cur, route)
    requires LabAt(dg, c.rows, c.cols, cur).value.dir == Some(cdir)
    requires LabAt(dg, c.rows, c.cols, prv).Some?
    requires Before(LabAt(dg, c.rows, c.cols, prv).value, LabAt(dg, c.rows, c.cols, cur).value)
    requires Beside(prv, cdir, cur)
    requires prv == c.src <==> LabAt(dg, c.rows, c.cols, prv).value.dir.None?
    requires Kept(c, route) && Fix(route[0], cdir) == Fix(cur, cdir)
    requires var pdir := LabAt(dg, c.rows, c.cols, prv).value.dir;
             route' == if pdir.Some? && pdir.value != cdir then [prv] + route else route
    ensures WalkOrder(c, dg, prv, route')
  {
    var l := LabAt(dg, c.rows, c.cols, cur).value;
    var lp := LabAt(dg, c.rows, c.cols, prv).value;
    var head := route[0];
    assert InRange(c.rows, c.cols, head);
    assert LabAt(dg, c.rows, c.cols, head).Some? && LabAt(dg, c.rows, c.cols, head).value.dir == Some(cdir);
    assert Before(lp, LabAt(dg, c.rows, c.cols, head).value) && prv != head by {
      if head != cur {
        BeforeTrans(lp, l, LabAt(dg, c.rows, c.cols, head).value);
      }
    }
    BesideHop(prv, cdir, cur);
    assert HopAxis(prv, head) == cdir;
    if |route| >= 2 {
      assert Turned(c, dg, route);
      TurnNotCollinear(prv, head, route[1]);
    }
    NoStraightCons(prv, route);
  }

  /** How the corners and raises of a walk grow when a cell is put in
      front of it: the walk grows by `prv`, which joins the route exactly
      when it was entered along another axis, and the raises grow by
      those of `cur` (unless it is the slave port) and of `prv` (when a
      corner). */
  lemma WalkCons(prv: Loc, cur: Loc, cdir: Axis, pdir: Option<Axis>,
                 cells: seq<Loc>, route: seq<Loc>, bumps: seq<(Loc, Axis)>, dst: Loc,
                 route': seq<Loc>, bumps': seq<(Loc, Axis)>)
    requires |cells| >= 1 && cells[0] == cur && WalkShape(cells, route, bumps, Some(cdir), dst)
    requires Paths.Adjacent(prv, cur) && prv != dst && HopAxis(prv, cur) == cdir
    requires var turn := pdir.Some? && pdir.value != cdir;
             && route' == (if turn then [prv] + route else route)
             && bumps' == bumps + (if cur != dst then [(cur, cdir)] else []) + (if turn then [(prv, cdir)] else [])
    ensures WalkShape([prv] + cells, route', bumps', pdir, dst)
  {
    var w := [prv] + cells;
    assert w[1..] == cells;
    WalkConnected(prv, cells);
  }

  /** A neighbour along an axis is adjacent, distinct, and reached by a
      hop along that axis. */
  lemma BesideHop(p: Loc, a: Axis, x: Loc)
    requires Beside(p, a, x)
    ensures HopAxis(p, x) == a && Paths.Adjacent(p, x) && p != x
  {
  }

  lemma NoStraightCons(x: Loc, route: seq<Loc>)
    requires NoStraight(route) && (|route| >= 2 ==> !Collinear(x, route[0], route[1]))
    ensures NoStraight([x] + route)
  {
    var r := [x] + route;
    forall i | 0 <= i < |r| - 2 ensures !Collinear(r[i], r[i + 1], r[i + 2]) {
      if i > 0 { assert r[i] == route[i - 1] && r[i + 1] == route[i] && r[i + 2] == route[i + 1]; }
    }
  }

  lemma WalkConnected(prv: Loc, cells: seq<Loc>)
    requires |cells| >= 1 && Paths.Connected(cells) && Paths.Adjacent(prv, cells[0])
    ensures Paths.Connected([prv] + cells)
  {
    var w := [prv] + cells;
    forall k | 0 <= k < |w| - 1 ensures Paths.Adjacent(w[k], w[k + 1]) {
      if k > 0 { assert w[k] == cells[k - 1] && w[k + 1] == cells[k]; }
    }
  }

  lemma AlignStep(c: Ctx, dg: Marks, route0: seq<Loc>, route: seq<Loc>, cur: Loc, prv: Loc, a: Axis)
    requires Valid(c) && Shaped(dg, c.rows, c.cols) && |route0| >= 1
    requires Paths.Aligned(route0) && Lined(c, dg, route0[0], cur)
    requires LabAt(dg, c.rows, c.cols, cur).value.dir == Some(a) && Fix(prv, a) == Fix(cur, a)
    requires route == route0 || route == [prv] + route0
    requires route == route0 && prv != c.src ==> LabAt(dg, c.rows, c.cols, prv).Some? && LabAt(dg, c.rows, c.cols, prv).value.dir == Some(a)
    requires route == [prv] + route0 ==> LabAt(dg, c.rows, c.cols, prv).Some? && LabAt(dg, c.rows, c.cols, prv).value.dir.Some?
    ensures Paths.Aligned(route)
    ensures prv != c.src ==> Lined(c, dg, route[0], prv)
    ensures prv == c.src ==> Paths.Aligned([c.src] + route)
  {
    if route == [prv] + route0 {
      assert Fix(route0[0], a) == Fix(prv, a);
    }
  }

  // -------------------------------------------------------------- placement

  /** A component as the input lists it: name, offset, the mirror flags
      and the type, each of the last three possibly missing, and the
      block the name loads. */
  datatype Listed = Listed(name: string, loc: Loc, xm: Option<bool>, ym: Option<bool>,
                           kind: Option<string>, block: Block)

  /** Missing mirror flags become false and a missing type "tile"; what is
      given is kept. */
  function Defaults(s: Listed): (r: Listed)
    ensures r.xm.Some? && r.ym.Some? && r.kind.Some?
    ensures s.xm.Some? ==> r.xm == s.xm
    ensures s.ym.Some? ==> r.ym == s.ym
    ensures s.kind.Some? ==> r.kind == s.kind
    ensures s.xm.None? ==> r.xm == Some(false)
    ensures s.ym.None? ==> r.ym == Some(false)
    ensures s.kind.None? ==> r.kind == Some("tile")
    ensures r.name == s.name && r.loc == s.loc && r.block == s.block
  {
    s.(xm := Some(s.xm.GetOr(false)), ym := Some(s.ym.GetOr(false)), kind := Some(s.kind.GetOr("tile")))
  }

  /** The component at its offset, its block mirrored as its flags say. */
  function Settle(s: Listed): (r: Compose.Component)
    requires Compose.Shaped(s.block)
    ensures r.loc == s.loc && Compose.Shaped(r.block)
    ensures r.block.nRows == s.block.nRows && r.block.nCols == s.block.nCols
    ensures forall i, j :: 0 <= i < s.block.nRows && 0 <= j < s.block.nCols ==>
              r.block.grid[i][j] == s.block.grid[Flip(i, s.block.nRows, s.xm == Some(true))]
                                                [Flip(j, s.block.nCols, s.ym == Some(true))]
  {
    var d := Defaults(s);
    Compose.Component(s.loc, Mirror(s.block, d.xm.value, d.ym.value))
  }

  /** The copies of row `r` of a block placed at `at`. */
  function RowDrops(b: Block, at: Loc, r: nat): (ws: seq<(Loc, Cell)>)
    requires Compose.Shaped(b) && r < b.nRows
    ensures |ws| == b.nCols
    ensures forall k :: 0 <= k < b.nCols ==> ws[k] == ((at.0 + r, at.1 + k), b.grid[r][k])
  {
    seq(b.nCols, k requires 0 <= k < b.nCols => ((at.0 + r, at.1 + k), b.grid[r][k]))
  }

  /** The copies of rows `r` and up, row by row. */
  function BlockDrops(b: Block, at: Loc, r: nat): seq<(Loc, Cell)>
    requires Compose.Shaped(b)
    decreases b.nRows - r
  {
    if r >= b.nRows then [] else RowDrops(b, at, r) + BlockDrops(b, at, r + 1)
  }

  predicate AllShaped(ps: seq<Compose.Component>) {
    forall k :: 0 <= k < |ps| ==> Compose.Shaped(ps[k].block)
  }

  /** Every cell copy of every component, in the order they are made. */
  function AllDrops(ps: seq<Compose.Component>): seq<(Loc, Cell)>
    requires AllShaped(ps)
  {
    if |ps| == 0 then [] else AllDrops(ps[..|ps| - 1]) + BlockDrops(ps[|ps| - 1].block, ps[|ps| - 1].loc, 0)
  }

  /** One cell copy: a marker needs an empty cell and replaces it; a
      counter pair is added to a counter cell and dropped on a marker. */
  function Drop(g: Grid, rows: nat, cols: nat, w: (Loc, Cell)): (r: Result<Grid>)
    requires IsRect(g, rows, cols)
  {
    match Resolve(rows, cols, w.0)
    case None => Err("list index out of range")
    case Some(p) =>
      if w.1.Mark? then
        if g[p.0][p.1] != Empty then Err("Overlapping Tiles or Modules")
        else Ok(g[p.0 := g[p.0][p.1 := w.1]])
      else
        Ok(g[p.0 := g[p.0][p.1 := Added(g[p.0][p.1], w.1.h, w.1.v)]])
  }

  /** The marker the copies put on cell (i, j), if any. */
  function TopMark(rows: nat, cols: nat, ws: seq<(Loc, Cell)>, i: nat, j: nat): (r: Option<Cell>)
    ensures r.Some? ==> r.value.Mark?
  {
    if |ws| == 0 then None
    else if Hits(rows, cols, ws[|ws| - 1].0, i, j) && ws[|ws| - 1].1.Mark? then Some(ws[|ws| - 1].1)
    else TopMark(rows, cols, ws[..|ws| - 1], i, j)
  }

  /** The counters along `a` the copies bring to cell (i, j), summed. */
  function Piled(rows: nat, cols: nat, ws: seq<(Loc, Cell)>, i: nat, j: nat, a: Axis): nat {
    if |ws| == 0 then 0
    else Piled(rows, cols, ws[..|ws| - 1], i, j, a)
         + (if Hits(rows, cols, ws[|ws| - 1].0, i, j) && ws[|ws| - 1].1.Wire? then Count(ws[|ws| - 1].1, a) else 0)
  }

  /** What cell (i, j) holds after the copies: its marker if one lands
      there, otherwise the counters summed. */
  function Expected(rows: nat, cols: nat, ws: seq<(Loc, Cell)>, i: nat, j: nat): Cell {
    TopMark(rows, cols, ws, i, j).GetOr(Wire(Piled(rows, cols, ws, i, j, H), Piled(rows, cols, ws, i, j, V)))
  }

  /** Every copy aimed at cell (i, j) is an empty counter pair. */
  predicate Clean(rows: nat, cols: nat, ws: seq<(Loc, Cell)>, i: nat, j: nat) {
    forall k :: 0 <= k < |ws| && Hits(rows, cols, ws[k].0, i, j) ==> ws[k].1 == Empty
  }

  /** No marker is copied onto a cell that an earlier copy left non-empty. */
  predicate NoClash(rows: nat, cols: nat, ws: seq<(Loc, Cell)>) {
    forall k, q :: 0 <= q < k < |ws| && ws[k].1.Mark? && Same(rows, cols, ws[q].0, ws[k].0) ==> ws[q].1 == Empty
  }

  /** Two locations designate the same cell of the grid. */
  predicate Same(rows: nat, cols: nat, a: Loc, b: Loc) {
    Resolve(rows, cols, a).Some? && Resolve(rows, cols, a) == Resolve(rows, cols, b)
  }

  lemma {:induction false} CleanIff(rows: nat, cols: nat, ws: seq<(Loc, Cell)>, i: nat, j: nat)
    ensures Expected(rows, cols, ws, i, j) == Empty <==> Clean(rows, cols, ws, i, j)
    decreases |ws|
  {
    if |ws| > 0 {
      var init, w := ws[..|ws| - 1], ws[|ws| - 1];
      CleanIff(rows, cols, init, i, j);
      assert forall k :: 0 <= k < |init| ==> init[k] == ws[k];
      if Clean(rows, cols, ws, i, j) {
        assert Clean(rows, cols, init, i, j);
      }
      if !Clean(rows, cols, ws, i, j) && Clean(rows, cols, init, i, j) {
        assert Hits(rows, cols, w.0, i, j) && w.1 != Empty;
        assert TopMark(rows, cols, init, i, j).None?;
        if w.1.Wire? {
          assert TopMark(rows, cols, ws, i, j).None?;
          assert Piled(rows, cols, ws, i, j, H) == Piled(rows, cols, init, i, j, H) + w.1.h;
          assert Piled(rows, cols, ws, i, j, V) == Piled(rows, cols, init, i, j, V) + w.1.v;
        }
      }
    }
  }

  lemma NoClashSnoc(rows: nat, cols: nat, ws: seq<(Loc, Cell)>, p: (nat, nat))
    requires |ws| > 0 && Resolve(rows, cols, ws[|ws| - 1].0) == Some(p)
    ensures NoClash(rows, cols, ws) <==>
              && NoClash(rows, cols, ws[..|ws| - 1])
              && (ws[|ws| - 1].1.Mark? ==> Clean(rows, cols, ws[..|ws| - 1], p.0, p.1))
  {
    var init := ws[..|ws| - 1];
    assert forall k :: 0 <= k < |init| ==> init[k] == ws[k];
    if NoClash(rows, cols, ws) && ws[|ws| - 1].1.Mark? {
      forall k | 0 <= k < |init| && Hits(rows, cols, init[k].0, p.0, p.1) ensures init[k].1 == Empty {
        assert Resolve(rows, cols, ws[k].0) == Resolve(rows, cols, ws[|ws| - 1].0);
      }
    }
  }

  /** Copying every cell of every component: it fails exactly when a copy
      falls outside the grid or a marker lands on a cell an earlier copy
      left non-empty; otherwise each cell holds its marker or the sum of
      the counters copied onto it. */
  function DropAll(rows: nat, cols: nat, ws: seq<(Loc, Cell)>): (r: Result<Grid>)
    ensures r.Ok? <==> AllResolve(rows, cols, ws) && NoClash(rows, cols, ws)
    ensures r.Ok? ==> IsRect(r.value, rows, cols)
    ensures r.Ok? ==> forall i, j :: 0 <= i < rows && 0 <= j < cols ==> r.value[i][j] == Expected(rows, cols, ws, i, j)
    decreases |ws|
  {
    if |ws| == 0 then Ok(Filled(rows, cols, Empty))
    else
      var init, w := ws[..|ws| - 1], ws[|ws| - 1];
      ResolveSnoc(rows, cols, ws);
      match DropAll(rows, cols, init)
      case Err(m) => Err(m)
      case Ok(g) =>
        DropStep(rows, cols, init, w, g);
        assert init + [w] == ws;
        Drop(g, rows, cols, w)
  }

  lemma DropStep(rows: nat, cols: nat, init: seq<(Loc, Cell)>, w: (Loc, Cell), g: Grid)
    requires IsRect(g, rows, cols)
    requires forall i, j :: 0 <= i < rows && 0 <= j < cols ==> g[i][j] == Expected(rows, cols, init, i, j)
    requires NoClash(rows, cols, init)
    ensures var ws := init + [w];
            && (Drop(g, rows, cols, w).Ok? <==> Resolve(rows, cols, w.0).Some? && NoClash(rows, cols, ws))
            && (Drop(g, rows, cols, w).Ok? ==>
                  && IsRect(Drop(g, rows, cols, w).value, rows, cols)
                  && forall i, j :: 0 <= i < rows && 0 <= j < cols ==>
                       Drop(g, rows, cols, w).value[i][j] == Expected(rows, cols, ws, i, j))
  {
    var ws := init + [w];
    assert ws[..|ws| - 1] == init;
    match Resolve(rows, cols, w.0)
    case None =>
    case Some(p) =>
      NoClashSnoc(rows, cols, ws, p);
      CleanIff(rows, cols, init, p.0, p.1);
      if Drop(g, rows, cols, w).Ok? {
        var g1 := Drop(g, rows, cols, w).value;
        forall i, j | 0 <= i < rows && 0 <= j < cols ensures g1[i][j] == Expected(rows, cols, ws, i, j) {
          if (i, j) != p {
            assert !Hits(rows, cols, w.0, i, j);
            assert TopMark(rows, cols, ws, i, j) == TopMark(rows, cols, init, i, j);
            assert forall a :: Piled(rows, cols, ws, i, j, a) == Piled(rows, cols, init, i, j, a);
          } else if w.1.Wire? {
            assert TopMark(rows, cols, ws, i, j) == TopMark(rows, cols, init, i, j);
            assert forall a :: Piled(rows, cols, ws, i, j, a) == Piled(rows, cols, init, i, j, a) + Count(w.1, a);
          }
        }
      }
  }

  // ------------------------------------------------------------ connections

  /** One end of a connection: a component index and a port label. */
  datatype Pin = Pin(comp: int, port: Label)
  /** A master end and the slave end it drives. */
  datatype Conn = Conn(src: Pin, dst: Pin)

  function PortTable(b: Block, master: bool): Tables {
    if master then b.mTab else b.sTab
  }

  /** Where an end sits on the grid: the component's offset plus the
      port's place in it, found among its master ports for a source and
      its slave ports for a destination. A component index outside the
      list or a label the component lacks stops the flow. */
  function PinLoc(ps: seq<Compose.Component>, p: Pin, master: bool): (r: Result<Loc>)
    ensures r.Ok? <==> PyIndex(p.comp, |ps|).Some?
                       && p.port in PortTable(ps[PyIndex(p.comp, |ps|).value].block, master).labToLoc
    ensures r.Ok? ==> var q := ps[PyIndex(p.comp, |ps|).value];
                      var at := PortTable(q.block, master).labToLoc[p.port];
                      r.value == (q.loc.0 + at.0, q.loc.1 + at.1)
  {
    match PyIndex(p.comp, |ps|)
    case None => Err("list index out of range")
    case Some(k) =>
      var t := PortTable(ps[k].block, master);
      if p.port !in t.labToLoc then Err("KeyError")
      else Ok((ps[k].loc.0 + t.labToLoc[p.port].0, ps[k].loc.1 + t.labToLoc[p.port].1))
  }

  function PortList(b: Block, master: bool): seq<Port> {
    if master then b.masters else b.slaves
  }

  /** Port `i` is the last of `ports` carrying label `x`. */
  predicate LastWith(ports: seq<Port>, i: int, x: Label) {
    0 <= i < |ports| && ports[i].lab == x && forall j :: i < j < |ports| ==> ports[j].lab != x
  }

  /** With tables built from the port lists (as mirroring builds them), an
      end is found exactly when some port of the component carries its
      label. */
  lemma PinLocFound(ps: seq<Compose.Component>, p: Pin, master: bool, k: nat)
    requires PyIndex(p.comp, |ps|) == Some(k) && TablesConsistent(ps[k].block)
    ensures var ports := PortList(ps[k].block, master);
            PinLoc(ps, p, master).Ok? <==> exists i :: 0 <= i < |ports| && ports[i].lab == p.port
  {
    var ports := PortList(ps[k].block, master);
    assert PortTable(ps[k].block, master) == TablesOf(ports);
    LabKeys(ports, p.port);
  }

  /** ... and then it sits where the last port carrying the label sits. */
  lemma PinLocAt(ps: seq<Compose.Component>, p: Pin, master: bool, k: nat, i: nat)
    requires PyIndex(p.comp, |ps|) == Some(k) && TablesConsistent(ps[k].block)
    requires LastWith(PortList(ps[k].block, master), i, p.port)
    ensures var at := PortList(ps[k].block, master)[i].loc;
            PinLoc(ps, p, master) == Ok((ps[k].loc.0 + at.0, ps[k].loc.1 + at.1))
  {
    var ports := PortList(ps[k].block, master);
    assert PortTable(ps[k].block, master) == TablesOf(ports);
    LabLookup(ports, i);
  }

  /** Both ends are found and designate cells of the grid. */
  predicate Locatable(rows: nat, cols: nat, ps: seq<Compose.Component>, q: Conn) {
    && PinLoc(ps, q.src, true).Ok? && PinLoc(ps, q.dst, false).Ok?
    && Resolve(rows, cols, PinLoc(ps, q.src, true).value).Some?
    && Resolve(rows, cols, PinLoc(ps, q.dst, false).value).Some?
  }

  /** A route for connection `q`: from its master port to its slave port,
      its corners on the grid and distinct from both ports, and, when the
      slave port is given inside the grid, every hop along one row or
      one column, no three waypoints in line, and the waypoints exactly
      the corners of a walk between the ports. */
  ghost predicate Joins(rows: nat, cols: nat, ps: seq<Compose.Component>, q: Conn, route: seq<Loc>)
    requires PinLoc(ps, q.src, true).Ok? && PinLoc(ps, q.dst, false).Ok?
  {
    var src, dst := PinLoc(ps, q.src, true).value, PinLoc(ps, q.dst, false).value;
    && |route| >= 2 && route[0] == src && route[|route| - 1] == dst
    && (forall k :: 0 < k < |route| - 1 ==> InRange(rows, cols, route[k]) && route[k] != src && route[k] != dst)
    && (InRange(rows, cols, dst) ==> Paths.Aligned(route) && NoStraight(route) && CornersOfWalk(src, dst, route))
  }

  /** `route` keeps the master port and the corners of some walk of
      neighbouring cells from the master port to the slave port. */
  ghost predicate CornersOfWalk(src: Loc, dst: Loc, route: seq<Loc>) {
    exists w :: && |w| >= 1 && w[0] == src && w[|w| - 1] == dst && Paths.Connected(w)
                && route == [src] + Corners(w, None)
  }

  /** What routing one connection leaves: its route (none when the slave
      port was not reached), the walk of cells the trace passed, the
      counters raised and the grid after. */
  datatype Routed = Routed(route: Option<seq<Loc>>, walk: seq<Loc>, bumps: seq<(Loc, Axis)>, grid: Grid)

  /** One connection: find both ends, search, and unless the slave port
      was not reached trace the route back and raise its counters. The
      raises never fail: only a missing end or an end outside the grid
      stops the flow. */
  method RouteOne(g: Grid, rows: nat, cols: nat, ps: seq<Compose.Component>, q: Conn, fixed: bool)
    returns (r: Result<Routed>)
    requires IsRect(g, rows, cols)
    ensures r.Ok? <==> Locatable(rows, cols, ps, q)
    ensures r.Ok? ==> AllOnWire(g, rows, cols, r.value.bumps) && BumpedBy(g, r.value.grid, rows, cols, r.value.bumps)
    ensures r.Ok? && r.value.route.None? ==> r.value.bumps == [] && r.value.grid == g
    ensures r.Ok? && r.value.route.Some? ==> Joins(rows, cols, ps, q, r.value.route.value)
    ensures r.Ok? && r.value.route.Some? && InRange(rows, cols, PinLoc(ps, q.dst, false).value) ==>
              TracedWalk(PinLoc(ps, q.src, true).value, PinLoc(ps, q.dst, false).value,
                         r.value.route.value, r.value.walk, r.value.bumps)
  {
    var src :- PinLoc(ps, q.src, true);
    var dst :- PinLoc(ps, q.dst, false);
    if Resolve(rows, cols, src).None? {
      return Err("list index out of range");
    }
    var c := Ctx(g, rows, cols, src, dst);
    var dg := Search(c, fixed);
    if Resolve(rows, cols, dst).None? {
      return Err("list index out of range");
    }
    if !Reached(c, dg) {
      return Ok(Routed(None, [], [], g));
    }
    var route, cells, bumps := Backtrack(c, dg);
    var g1 := BumpAll(g, rows, cols, bumps).value;
    return Ok(Routed(Some(route), cells, bumps, g1));
  }

  /** `g1` differs from `g` only in raised counters: markers are where
      they were and no counter went down. */
  predicate Raised(g: Grid, g1: Grid, rows: nat, cols: nat)
    requires IsRect(g, rows, cols)
  {
    && IsRect(g1, rows, cols)
    && forall i, j :: 0 <= i < rows && 0 <= j < cols ==>
         if g[i][j].Mark? then g1[i][j] == g[i][j]
         else g1[i][j].Wire? && g[i][j].h <= g1[i][j].h && g[i][j].v <= g1[i][j].v
  }

  lemma BumpedRaised(g: Grid, g1: Grid, rows: nat, cols: nat, bs: seq<(Loc, Axis)>)
    requires IsRect(g, rows, cols) && BumpedBy(g, g1, rows, cols, bs)
    ensures Raised(g, g1, rows, cols)
  {
  }

  lemma RaisedTrans(g: Grid, g1: Grid, g2: Grid, rows: nat, cols: nat)
    requires IsRect(g, rows, cols) && Raised(g, g1, rows, cols) && Raised(g1, g2, rows, cols)
    ensures Raised(g, g2, rows, cols)
  {
  }

  /** The connections in order, each searched on the grid the earlier ones
      left: it stops exactly when some connection has an end that is
      missing or outside the grid; otherwise each connection has its
      route or none, and the grid only gained counters. */
  method RouteAll(g: Grid, rows: nat, cols: nat, ps: seq<Compose.Component>, qs: seq<Conn>, fixed: bool)
    returns (r: Result<(seq<Option<seq<Loc>>>, Grid)>)
    requires IsRect(g, rows, cols)
    ensures r.Ok? <==> forall k :: 0 <= k < |qs| ==> Locatable(rows, cols, ps, qs[k])
    ensures r.Ok? ==> |r.value.0| == |qs| && Raised(g, r.value.1, rows, cols)
    ensures r.Ok? ==> forall k :: 0 <= k < |qs| && r.value.0[k].Some? ==>
                        Locatable(rows, cols, ps, qs[k]) && Joins(rows, cols, ps, qs[k], r.value.0[k].value)
  {
    var outs: seq<Option<seq<Loc>>> := [];
    var cur := g;
    for k := 0 to |qs|
      invariant |outs| == k && Raised(g, cur, rows, cols)
      invariant forall i :: 0 <= i < k ==> Locatable(rows, cols, ps, qs[i])
      invariant forall i :: 0 <= i < k && outs[i].Some? ==> Joins(rows, cols, ps, qs[i], outs[i].value)
    {
      var one := RouteOne(cur, rows, cols, ps, qs[k], fixed);
      if one.Err? {
        return Err(one.msg);
      }
      BumpedRaised(cur, one.value.grid, rows, cols, one.value.bumps);
      RaisedTrans(g, cur, one.value.grid, rows, cols);
      outs := outs + [one.value.route];
      cur := one.value.grid;
    }
    return Ok((outs, cur));
  }

  /** The routes found, in connection order (`cons`). */
  function Found(outs: seq<Option<seq<Loc>>>): (r: seq<seq<Loc>>)
    ensures |r| <= |outs|
    ensures forall x :: x in r ==> Some(x) in outs
    ensures (forall k :: 0 <= k < |outs| ==> outs[k].Some?) ==> |r| == |outs|
  {
    if |outs| == 0 then []
    else Found(outs[..|outs| - 1]) + (if outs[|outs| - 1].Some? then [outs[|outs| - 1].value] else [])
  }

  /** The heterogeneous design written out: its size, its components with
      their defaults filled in, and the routes found. */
  datatype Design = Design(nRows: nat, nCols: nat, comps: seq<Listed>, cons: seq<seq<Loc>>)

  predicate AllBlocksShaped(ls: seq<Listed>) {
    forall k :: 0 <= k < |ls| ==> Compose.Shaped(ls[k].block)
  }

  function Settled(ls: seq<Listed>): (r: seq<Compose.Component>)
    requires AllBlocksShaped(ls)
    ensures |r| == |ls| && AllShaped(r)
    ensures forall k :: 0 <= k < |ls| ==> r[k] == Settle(ls[k])
  {
    seq(|ls|, k requires 0 <= k < |ls| => Settle(ls[k]))
  }

  /** `place_and_route` of the heterogeneous flow: place every component,
      route every connection (with the replacement rule as written, which
      weighs wires only), and describe the design; writing it needs a
      first component. */
  method PlaceAndRoute(ls: seq<Listed>, qs: seq<Conn>, rows: nat, cols: nat) returns (r: Result<Design>)
    requires AllBlocksShaped(ls)
    ensures r.Ok? <==> && DropAll(rows, cols, AllDrops(Settled(ls))).Ok?
                       && (forall k :: 0 <= k < |qs| ==> Locatable(rows, cols, Settled(ls), qs[k]))
                       && |ls| > 0
    ensures r.Ok? ==> r.value.nRows == rows && r.value.nCols == cols
                      && |r.value.comps| == |ls| && (forall k :: 0 <= k < |ls| ==> r.value.comps[k] == Defaults(ls[k]))
                      && |r.value.cons| <= |qs|
    ensures r.Ok? ==> forall x :: x in r.value.cons ==>
              exists k :: 0 <= k < |qs| && Locatable(rows, cols, Settled(ls), qs[k])
                          && Joins(rows, cols, Settled(ls), qs[k], x)
  {
    var ps := Settled(ls);
    var g :- DropAll(rows, cols, AllDrops(ps));
    var routed :- RouteAll(g, rows, cols, ps, qs, false);
    if |ls| == 0 {
      return Err("list index out of range");
    }
    var outs := routed.0;
    var cons := Found(outs);
    forall x | x in cons
      ensures exists k :: 0 <= k < |qs| && Locatable(rows, cols, ps, qs[k]) && Joins(rows, cols, ps, qs[k], x)
    {
      var k :| 0 <= k < |outs| && outs[k] == Some(x);
    }
    return Ok(Design(rows, cols, seq(|ls|, k requires 0 <= k < |ls| => Defaults(ls[k])), cons));
  }
}
