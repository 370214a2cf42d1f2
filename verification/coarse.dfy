/** Input validation and global routing of the homogeneous place-and-route
    flow (`validate_connections`, `get_port_face` and
    `route_in_coarse_grid` in src/place_and_route.py, lines 67-163).

    Tiles sit on a coarse grid: tile (r, c) is coarse cell (2r+1, 2c+1) and
    the even rows and columns between tiles are routing channels. A
    connection leaves its master tile through the face its master port
    sits on, crosses the channels with at most two turns and enters the
    slave tile through the slave port's face. */
module Coarse {
  import opened Wrappers
  import opened Cells
  import opened Blocks
  import opened Embed
  import Paths

  /** `(tile_row, tile_col, port_id)`: one end of a requested connection. */
  datatype End = End(row: int, col: int, port: int)
  /** A master end and the slave end it drives. */
  datatype Request = Request(m: End, s: End)

  function Masters(qs: seq<Request>): (r: seq<End>)
    ensures |r| == |qs| && forall k :: 0 <= k < |qs| ==> r[k] == qs[k].m
  {
    seq(|qs|, k requires 0 <= k < |qs| => qs[k].m)
  }

  function Slaves(qs: seq<Request>): (r: seq<End>)
    ensures |r| == |qs| && forall k :: 0 <= k < |qs| ==> r[k] == qs[k].s
  {
    seq(|qs|, k requires 0 <= k < |qs| => qs[k].s)
  }

  /** Python's `set(xs)`. */
  function Elems<T(==)>(s: seq<T>): set<T> {
    set x | x in s
  }

  /** `len(set(xs)) == len(xs)` is exactly "no element repeats". */
  lemma {:induction false} ElemsCard<T>(s: seq<T>)
    ensures |Elems(s)| <= |s|
    ensures |Elems(s)| == |s| <==> Distinct(s)
  {
    if |s| > 0 {
      var init, x := s[..|s| - 1], s[|s| - 1];
      ElemsCard(init);
      assert s == init + [x];
      assert Elems(s) == Elems(init) + {x};
      if x in Elems(init) {
        var k :| 0 <= k < |init| && init[k] == x;
        assert s[k] == s[|s| - 1];
      } else {
        if Distinct(init) {
          forall i, j | 0 <= i < j < |s| ensures s[i] != s[j] {
            assert s[i] == init[i];
            if j < |s| - 1 { assert s[j] == init[j]; }
          }
        }
        if Distinct(s) {
          forall i, j | 0 <= i < j < |init| ensures init[i] != init[j] {
            assert s[i] == init[i] && s[j] == init[j];
          }
        }
      }
    }
  }

  /** `validate_connections`: no master end and no slave end may be
      requested twice. */
  function ValidateConnections(qs: seq<Request>): (r: Check)
    ensures r.Pass? <==> Distinct(Masters(qs)) && Distinct(Slaves(qs))
  {
    var ms, ss := Masters(qs), Slaves(qs);
    ElemsCard(ms);
    ElemsCard(ss);
    if |ms| != |Elems(ms)| then Fail("Invalid connections are passed as argument: Master-Ports are used twice")
    else if |ss| != |Elems(ss)| then Fail("Invalid connections are passed as argument: Slave-Ports are used twice")
    else Pass
  }

  // ----------------------------------------------------------------- faces

  /** The location of `ports[pid]`, if Python's indexing finds it. */
  function PortLoc(ps: seq<Port>, pid: int): (r: Option<Loc>)
    ensures r.Some? <==> PyIndex(pid, |ps|).Some?
  {
    match PyIndex(pid, |ps|)
    case None => None
    case Some(k) => Some(ps[k].loc)
  }

  /** `l` lies on the border line of face `f` of an `nRows` x `nCols` tile. */
  predicate Along(l: Loc, f: Face, nRows: int, nCols: int) {
    match f
    case North => l.0 == nRows - 1
    case South => l.0 == 0
    case East => l.1 == nCols - 1
    case West => l.1 == 0
  }

  predicate OnEdge(l: Loc, nRows: int, nCols: int) {
    l.0 == 0 || l.0 == nRows - 1 || l.1 == 0 || l.1 == nCols - 1
  }

  /** A cell on two border lines at once. */
  predicate Corner(l: Loc, nRows: int, nCols: int) {
    (l.0 == 0 || l.0 == nRows - 1) && (l.1 == 0 || l.1 == nCols - 1)
  }

  /** The face a port at `l` faces: one whose border line it lies on,
      south before north before west before east when it lies on two. */
  function FaceOf(l: Loc, nRows: int, nCols: int): (r: Result<Face>)
    ensures r.Ok? <==> OnEdge(l, nRows, nCols)
    ensures r.Ok? ==> Along(l, r.value, nRows, nCols)
    ensures r == Ok(North) ==> l.0 != 0
    ensures r == Ok(West) ==> l.0 != 0 && l.0 != nRows - 1
    ensures r == Ok(East) ==> l.0 != 0 && l.0 != nRows - 1 && l.1 != 0
  {
    if l.0 == 0 then Ok(South)
    else if l.0 == nRows - 1 then Ok(North)
    else if l.1 == 0 then Ok(West)
    else if l.1 == nCols - 1 then Ok(East)
    else Err("Unable to determine port face")
  }

  /** `get_port_face`: the face of port `pid` of the tile's masters or
      slaves. */
  function GetPortFace(t: Block, master: bool, pid: int): (r: Result<Face>)
    ensures var l := PortLoc(if master then t.masters else t.slaves, pid);
            r.Ok? <==> l.Some? && OnEdge(l.value, t.nRows, t.nCols)
    ensures r.Ok? ==> Along(PortLoc(if master then t.masters else t.slaves, pid).value, r.value, t.nRows, t.nCols)
  {
    match PortLoc(if master then t.masters else t.slaves, pid)
    case None => Err("list index out of range")
    case Some(l) => FaceOf(l, t.nRows, t.nCols)
  }

  /** A port the embedding step placed automatically always has a face,
      and it is the face it was asked for unless it landed on a corner
      cell or the tile is a single row or column, where cells belong to
      two faces. */
  lemma AutoPortFace(rs: seq<Req>, w: nat, h: nat, i: nat)
    requires FitsOnFaces(rs, w, h) && AlignsOk(rs) && i < |rs|
    ensures var l := AutoLoc(rs, i, w, h);
            && FaceOf(l, h, w).Ok?
            && (FaceOf(l, h, w) == Ok(rs[i].face) || Corner(l, h, w) || h == 1 || w == 1)
  {
    AutoOnBorder(rs, w, h, i);
  }

  // ---------------------------------------------------------------- routes

  /** A connection in the coarse grid: its coarse cells, and where the
      master and slave ports sit inside their tiles (the extra two
      coordinates of the first and last waypoint). */
  datatype CoarsePath = CoarsePath(cells: seq<Loc>, mOff: Loc, sOff: Loc)

  /** The coarse cell a port on face `f` of tile cell `c` leads to. */
  function Exit(f: Face, c: Loc): Loc {
    match f
    case North => (c.0 + 1, c.1)
    case South => (c.0 - 1, c.1)
    case East => (c.0, c.1 + 1)
    case West => (c.0, c.1 - 1)
  }

  /** The waypoints between the exit cell `s1` and the entry cell `e0`. */
  function Middle(sf: Face, ef: Face, s1: Loc, e0: Loc, sc: Loc, ec: Loc): seq<Loc> {
    if Horizontal(sf) && Horizontal(ef) then
      if s1.0 == e0.0 then []
      else
        var d := if ec.1 >= sc.1 then 1 else -1;
        [(s1.0, s1.1 + d), (e0.0, s1.1 + d)]
    else if !Horizontal(sf) && !Horizontal(ef) then
      if s1.1 == e0.1 then []
      else
        var d := if ec.0 >= sc.0 then 1 else -1;
        [(s1.0 + d, s1.1), (s1.0 + d, e0.1)]
    else if Horizontal(sf) then [(s1.0, e0.1)]
    else [(e0.0, s1.1)]
  }

  /** The coarse route from tile cell `sc` (port facing `sf`) to tile
      cell `ec` (port facing `ef`): it leaves through the master port's
      face, enters through the slave port's face, never changes row and
      column in one hop, turns once when the faces are of different
      orientation, and otherwise runs straight or turns twice. */
  function Route(sc: Loc, ec: Loc, sf: Face, ef: Face): (r: seq<Loc>)
    ensures |r| >= 2 && r[0] == sc && r[|r| - 1] == ec
    ensures Paths.Aligned(r)
    ensures |r| > 2 ==> r[1] == Exit(sf, sc) && r[|r| - 2] == Exit(ef, ec)
    ensures |r| == 2 ==> Exit(sf, sc) == Exit(ef, ec)
    ensures Horizontal(sf) != Horizontal(ef) ==> |r| == 5
    ensures Horizontal(sf) == Horizontal(ef) ==> |r| in {2, 4, 6}
  {
    var s1, e0 := Exit(sf, sc), Exit(ef, ec);
    var con := [sc, s1] + Middle(sf, ef, s1, e0, sc, ec) + [e0, ec];
    if |con| == 4 && con[1] == con[2] then [con[0], con[3]] else con
  }

  /** Both ends of a request name ports that exist and sit on a face. */
  predicate Routable(t: Block, q: Request) {
    && PortLoc(t.masters, q.m.port).Some?
    && PortLoc(t.slaves, q.s.port).Some?
    && OnEdge(PortLoc(t.masters, q.m.port).value, t.nRows, t.nCols)
    && OnEdge(PortLoc(t.slaves, q.s.port).value, t.nRows, t.nCols)
  }

  /** The coarse cell of tile (r, c). */
  function TileCell(row: int, col: int): Loc {
    (2 * row + 1, 2 * col + 1)
  }

  /** One iteration of `route_in_coarse_grid`. */
  function CoarseRoute(t: Block, q: Request): (r: Result<CoarsePath>)
    ensures r.Ok? <==> Routable(t, q)
    ensures r.Ok? ==> var p := r.value;
            && |p.cells| >= 2
            && p.cells[0] == TileCell(q.m.row, q.m.col)
            && p.cells[|p.cells| - 1] == TileCell(q.s.row, q.s.col)
            && p.mOff == PortLoc(t.masters, q.m.port).value
            && p.sOff == PortLoc(t.slaves, q.s.port).value
            && Paths.Aligned(p.cells)
  {
    var mf :- GetPortFace(t, true, q.m.port);
    var sf :- GetPortFace(t, false, q.s.port);
    var ml, sl := PortLoc(t.masters, q.m.port).value, PortLoc(t.slaves, q.s.port).value;
    Ok(CoarsePath(Route(TileCell(q.m.row, q.m.col), TileCell(q.s.row, q.s.col), mf, sf), ml, sl))
  }

  /** `route_in_coarse_grid`: one coarse route per request, in order. */
  function CoarseRouteAll(t: Block, qs: seq<Request>): (r: Result<seq<CoarsePath>>)
    ensures r.Ok? <==> forall k :: 0 <= k < |qs| ==> Routable(t, qs[k])
    ensures r.Ok? ==> |r.value| == |qs|
                      && forall k :: 0 <= k < |qs| ==> Ok(r.value[k]) == CoarseRoute(t, qs[k])
  {
    if forall k :: 0 <= k < |qs| ==> Routable(t, qs[k]) then
      Ok(seq(|qs|, k requires 0 <= k < |qs| && Routable(t, qs[k]) => CoarseRoute(t, qs[k]).value))
    else Err("Unable to determine port face")
  }
}
