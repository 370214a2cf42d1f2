/** Embedding an un-embedded tile description in the unit-cell grid
    (`embed_tile_in_grid` in src/embed_tile_in_grid.py): port and PHY
    validation, automatic or manual port placement on the tile border,
    and the overlap check. The tile's width and height in cells come out
    of a floating-point area model and are inputs here. */
module Embed {
  import opened Wrappers
  import opened Cells
  import opened Blocks
  import opened Tile

  /** A port as read: `face`/`align` are used in auto mode, `loc` in
      manual mode. */
  datatype RawPort = RawPort(id: int, face: string, align: int, loc: Loc)

  datatype RawTile = RawTile(
    nEndpoints: nat, placement: string,
    masters: seq<RawPort>, slaves: seq<RawPort>, phys: seq<PhyEntry>,
    connections: seq<Edge>)

  function ParseFace(s: string): Option<Face> {
    match s
    case "north" => Some(North)
    case "east" => Some(East)
    case "south" => Some(South)
    case "west" => Some(West)
    case _ => None
  }

  predicate Horizontal(f: Face) { f == North || f == South }

  function RawIds(ps: seq<RawPort>): (r: seq<int>)
    ensures |r| == |ps| && forall k :: 0 <= k < |ps| ==> r[k] == ps[k].id
  {
    seq(|ps|, k requires 0 <= k < |ps| => ps[k].id)
  }

  /** The placement mode is only inspected while reading a port, so an
      unknown mode passes when the tile has no ports at all. */
  predicate ModeOk(t: RawTile) {
    |t.masters| + |t.slaves| == 0 || t.placement == "auto" || t.placement == "manual"
  }

  predicate ReadOk(t: RawTile) {
    && ModeOk(t)
    && Consecutive(RawIds(t.masters)) && Consecutive(RawIds(t.slaves))
    && Consecutive(PhyIds(t.phys))
  }

  /** The central router's slave and master port counts (s, m), which
      size its area; `CreateTile.RouterDegrees` shows they are the
      router's in- and out-degrees apart from the PHY links. */
  function RouterPorts(t: RawTile): (nat, nat)
  {
    (t.nEndpoints + |t.slaves|, t.nEndpoints + |t.masters|)
  }

  // ------------------------------------------------------------ auto mode

  /** An auto-placed port request once its face name is known. */
  datatype Req = Req(face: Face, align: int)

  predicate FacesOk(ps: seq<RawPort>) {
    forall k :: 0 <= k < |ps| ==> ParseFace(ps[k].face).Some?
  }

  function Reqs(ps: seq<RawPort>): seq<Req>
    requires FacesOk(ps)
  {
    seq(|ps|, k requires 0 <= k < |ps| => Req(ParseFace(ps[k].face).value, ps[k].align))
  }

  /** Number of ports on face `f`. */
  function FaceCount(rs: seq<Req>, f: Face): (n: nat)
    ensures n <= |rs|
  {
    if |rs| == 0 then 0
    else (if rs[0].face == f then 1 else 0) + FaceCount(rs[1..], f)
  }

  /** Number of ports on face `f` with alignment `a`. */
  function AlignCount(rs: seq<Req>, f: Face, a: int): (n: nat)
    ensures n <= FaceCount(rs, f)
  {
    if |rs| == 0 then 0
    else (if rs[0] == Req(f, a) then 1 else 0) + AlignCount(rs[1..], f, a)
  }

  function FaceLength(f: Face, w: int, h: int): int {
    if Horizontal(f) then w else h
  }

  /** Ports that fit on a face: one fewer than its length in cells. */
  predicate FitsOnFaces(rs: seq<Req>, w: int, h: int) {
    forall f: Face :: FaceCount(rs, f) <= FaceLength(f, w, h) - 1
  }

  function Max3(a: int, b: int, c: int): int {
    if a >= b && a >= c then a else if b >= c then b else c
  }

  /** The larger port count of `f` and its opposite face, at least 1. */
  function Crowd(f: Face, rs: seq<Req>): (d: nat)
    ensures d >= 1
  {
    if Horizontal(f) then Max3(FaceCount(rs, North), FaceCount(rs, South), 1)
    else Max3(FaceCount(rs, East), FaceCount(rs, West), 1)
  }

  /** Distance between neighbouring auto-placed ports along the faces of
      one orientation. */
  function Spacing(f: Face, rs: seq<Req>, w: nat, h: nat): (s: nat)
    ensures s >= 1
  {
    var len := FaceLength(f, w, h);
    var d := Crowd(f, rs);
    if len / d >= 1 then len / d else 1
  }

  /** The coordinate that does not move along a face. */
  function Fixed(f: Face, w: int, h: int): int {
    match f
    case North => h - 1
    case East => w - 1
    case _ => 0
  }

  /** Where a face's cursor for `a` starts: its second cell from the
      start (align -1) or from the end (align +1). */
  function Start(f: Face, a: int, w: int, h: int): int {
    if a == -1 then 1 else FaceLength(f, w, h) - 2
  }

  function LocOn(f: Face, fixed: int, moving: int): Loc {
    if Horizontal(f) then (fixed, moving) else (moving, fixed)
  }

  type Cursors = map<(Face, int), int>

  predicate CursorsCover(cur: Cursors) {
    forall f: Face, a: int :: a in {-1, 1} ==> (f, a) in cur
  }

  function Sp(f: Face, hs: nat, vs: nat): nat {
    if Horizontal(f) then hs else vs
  }

  /** The placement loop: each port takes the cursor of its face and
      alignment, which then moves inward by one spacing (`hs` along north
      and south, `vs` along east and west). An alignment other than -1
      and +1 has no cursor and raises. */
  function Walk(rs: seq<Req>, cur: Cursors, hs: nat, vs: nat, w: nat, h: nat): (r: Result<seq<Loc>>)
    requires CursorsCover(cur)
    ensures r.Ok? ==> |r.value| == |rs|
    decreases |rs|
  {
    if |rs| == 0 then Ok([])
    else
      var p := rs[0];
      if p.align !in {-1, 1} then Err("KeyError: align")
      else
        var c := cur[(p.face, p.align)];
        var next := cur[(p.face, p.align) := c - p.align * Sp(p.face, hs, vs)];
        var rest :- Walk(rs[1..], next, hs, vs, w, h);
        Ok([LocOn(p.face, Fixed(p.face, w, h), c)] + rest)
  }

  function InitialCursors(w: int, h: int): (cur: Cursors)
    ensures CursorsCover(cur)
    ensures forall f: Face, a :: a in {-1, 1} ==> cur[(f, a)] == Start(f, a, w, h)
  {
    map f: Face, a | a in {-1, 1} :: (f, a) := Start(f, a, w, h)
  }

  /** Closed form of auto placement: the k-th port (counting from 0) on a
      face with alignment -1 sits at 1 + k * spacing, with alignment +1 at
      length - 2 - k * spacing, on the face's fixed row or column. */
  function AutoLoc(rs: seq<Req>, i: nat, w: nat, h: nat): Loc
    requires i < |rs|
  {
    LocOn(rs[i].face, Fixed(rs[i].face, w, h), Moving(rs, i, w, h))
  }

  /** The coordinate along the face that port i receives. */
  function Moving(rs: seq<Req>, i: nat, w: nat, h: nat): int
    requires i < |rs|
  {
    var p := rs[i];
    Start(p.face, p.align, w, h) - p.align * AlignCount(rs[..i], p.face, p.align) * Spacing(p.face, rs, w, h)
  }

  predicate AlignsOk(rs: seq<Req>) {
    forall k :: 0 <= k < |rs| ==> rs[k].align in {-1, 1}
  }

  /** The cursors before port i: every cursor has moved once per earlier
      port with its face and alignment. */
  predicate CursorsAt(all: seq<Req>, i: nat, cur: Cursors, hs: nat, vs: nat, w: nat, h: nat)
    requires i <= |all|
  {
    && CursorsCover(cur)
    && forall f: Face, a :: a in {-1, 1} ==>
         cur[(f, a)] == Start(f, a, w, h) - a * AlignCount(all[..i], f, a) * Sp(f, hs, vs)
  }

  lemma CursorStep(all: seq<Req>, i: nat, cur: Cursors, hs: nat, vs: nat, w: nat, h: nat)
    requires i < |all| && all[i].align in {-1, 1}
    requires CursorsAt(all, i, cur, hs, vs, w, h)
    ensures var p := all[i];
            CursorsAt(all, i + 1, cur[(p.face, p.align) := cur[(p.face, p.align)] - p.align * Sp(p.face, hs, vs)], hs, vs, w, h)
  {
    var p := all[i];
    var key := (p.face, p.align);
    var s := Sp(p.face, hs, vs);
    var next := cur[key := cur[key] - p.align * s];
    AlignCountSnoc(all, i);
    forall f: Face, a | a in {-1, 1}
      ensures next[(f, a)] == Start(f, a, w, h) - a * AlignCount(all[..i + 1], f, a) * Sp(f, hs, vs)
    {
      if (f, a) == key {
        MulAddOne(a, AlignCount(all[..i], f, a), s);
      }
    }
  }

  /** Walking a suffix of the ports from cursors that already account for
      the prefix yields the closed form. */
  lemma {:induction false} WalkClosed(all: seq<Req>, i: nat, cur: Cursors, hs: nat, vs: nat, w: nat, h: nat)
    requires i <= |all| && hs == Spacing(North, all, w, h) && vs == Spacing(East, all, w, h)
    requires CursorsAt(all, i, cur, hs, vs, w, h)
    ensures Walk(all[i..], cur, hs, vs, w, h).Ok? <==> AlignsOk(all[i..])
    ensures Walk(all[i..], cur, hs, vs, w, h).Ok? ==>
              forall k :: i <= k < |all| ==> Walk(all[i..], cur, hs, vs, w, h).value[k - i] == AutoLoc(all, k, w, h)
    decreases |all| - i
  {
    var rs := all[i..];
    if i < |all| {
      var p := all[i];
      assert rs[0] == p;
      assert rs[1..] == all[i + 1..];
      if p.align in {-1, 1} {
        var key := (p.face, p.align);
        var next := cur[key := cur[key] - p.align * Sp(p.face, hs, vs)];
        CursorStep(all, i, cur, hs, vs, w, h);
        WalkClosed(all, i + 1, next, hs, vs, w, h);
        assert forall k :: 0 <= k < |rs| ==> rs[k] == all[i + k];
        assert AlignsOk(rs) <==> AlignsOk(all[i + 1..]);
        var r := Walk(rs, cur, hs, vs, w, h);
        WalkHead(rs, cur, next, hs, vs, w, h);
        if r.Ok? {
          assert Sp(p.face, hs, vs) == Spacing(p.face, all, w, h);
          assert r.value[0] == AutoLoc(all, i, w, h);
        }
      } else {
        assert !AlignsOk(rs);
      }
    }
  }

  /** The walk places the first port at its cursor and walks the rest on
      from the moved cursor. */
  lemma WalkHead(rs: seq<Req>, cur: Cursors, next: Cursors, hs: nat, vs: nat, w: nat, h: nat)
    requires CursorsCover(cur) && |rs| > 0 && rs[0].align in {-1, 1}
    requires next == cur[(rs[0].face, rs[0].align) := cur[(rs[0].face, rs[0].align)] - rs[0].align * Sp(rs[0].face, hs, vs)]
    ensures CursorsCover(next)
    ensures Walk(rs, cur, hs, vs, w, h).Ok? <==> Walk(rs[1..], next, hs, vs, w, h).Ok?
    ensures Walk(rs, cur, hs, vs, w, h).Ok? ==>
              Walk(rs, cur, hs, vs, w, h).value
              == [LocOn(rs[0].face, Fixed(rs[0].face, w, h), cur[(rs[0].face, rs[0].align)])] + Walk(rs[1..], next, hs, vs, w, h).value
  {
  }

  lemma MulAddOne(a: int, n: int, s: int)
    ensures a * n * s + a * s == a * (n + 1) * s
  {
    calc {
      a * (n + 1) * s;
      (a * n + a) * s;
      a * n * s + a * s;
    }
  }

  /** Extending the prefix by port i adds one to that port's face and
      alignment only. */
  lemma {:induction false} AlignCountSnoc(all: seq<Req>, i: nat)
    requires i < |all|
    ensures forall f, a :: AlignCount(all[..i + 1], f, a)
              == AlignCount(all[..i], f, a) + (if all[i] == Req(f, a) then 1 else 0)
  {
    forall f, a
      ensures AlignCount(all[..i + 1], f, a)
              == AlignCount(all[..i], f, a) + (if all[i] == Req(f, a) then 1 else 0)
    {
      AlignCountAppend(all[..i], [all[i]], f, a);
      assert all[..i] + [all[i]] == all[..i + 1];
    }
  }

  lemma {:induction false} AlignCountAppend(xs: seq<Req>, ys: seq<Req>, f: Face, a: int)
    ensures AlignCount(xs + ys, f, a) == AlignCount(xs, f, a) + AlignCount(ys, f, a)
  {
    if |xs| > 0 {
      assert (xs + ys)[1..] == xs[1..] + ys;
      AlignCountAppend(xs[1..], ys, f, a);
    } else {
      assert xs + ys == ys;
    }
  }

  /** Auto placement of masters followed by slaves. */
  function AutoPlace(rs: seq<Req>, w: nat, h: nat): (r: Result<seq<Loc>>)
    ensures r.Ok? <==> AlignsOk(rs)
    ensures r.Ok? ==> |r.value| == |rs| && forall k :: 0 <= k < |rs| ==> r.value[k] == AutoLoc(rs, k, w, h)
  {
    var cur := InitialCursors(w, h);
    assert rs[..0] == [];
    assert rs[0..] == rs;
    assert CursorsAt(rs, 0, cur, Spacing(North, rs, w, h), Spacing(East, rs, w, h), w, h);
    WalkClosed(rs, 0, cur, Spacing(North, rs, w, h), Spacing(East, rs, w, h), w, h);
    Walk(rs, cur, Spacing(North, rs, w, h), Spacing(East, rs, w, h), w, h)
  }

  // ---------------------------------------------------------- manual mode

  /** A manually placed port must touch the border: its row is the first
      or last, or its column is the first or last. */
  predicate OnBorder(l: Loc, w: int, h: int) {
    l.0 == 0 || l.0 == h - 1 || l.1 == 0 || l.1 == w - 1
  }

  // -------------------------------------------------------------- embedding

  function WithLocs(ps: seq<RawPort>, locs: seq<Loc>): (r: seq<PortEntry>)
    requires |locs| == |ps|
    ensures |r| == |ps| && forall k :: 0 <= k < |ps| ==> r[k] == PortEntry(ps[k].id, locs[k])
  {
    seq(|ps|, k requires 0 <= k < |ps| => PortEntry(ps[k].id, locs[k]))
  }

  function RawLocs(ps: seq<RawPort>): (r: seq<Loc>)
    ensures |r| == |ps| && forall k :: 0 <= k < |ps| ==> r[k] == ps[k].loc
  {
    seq(|ps|, k requires 0 <= k < |ps| => ps[k].loc)
  }

  function EntryLocs(ps: seq<PortEntry>): (r: seq<Loc>)
    ensures |r| == |ps| && forall k :: 0 <= k < |ps| ==> r[k] == ps[k].loc
  {
    seq(|ps|, k requires 0 <= k < |ps| => ps[k].loc)
  }

  function PhyLocs(ps: seq<PhyEntry>): (r: seq<Loc>)
    ensures |r| == |ps| && forall k :: 0 <= k < |ps| ==> r[k] == ps[k].loc
  {
    seq(|ps|, k requires 0 <= k < |ps| => ps[k].loc)
  }

  /** The port locations after placement, masters then slaves: computed in
      auto mode, as read in manual mode (and in an unknown mode, which can
      only reach this point without ports). */
  function PortLocs(t: RawTile, w: nat, h: nat): (r: Result<seq<Loc>>)
    ensures var ps := t.masters + t.slaves;
            r.Ok? <==> if t.placement == "auto" then FacesOk(ps) && FitsOnFaces(Reqs(ps), w, h) && AlignsOk(Reqs(ps))
                       else t.placement == "manual" ==> forall k :: 0 <= k < |ps| ==> OnBorder(ps[k].loc, w, h)
    ensures r.Ok? ==> |r.value| == |t.masters| + |t.slaves|
    ensures r.Ok? && t.placement == "auto" ==>
              forall k :: 0 <= k < |r.value| ==> r.value[k] == AutoLoc(Reqs(t.masters + t.slaves), k, w, h)
    ensures r.Ok? && t.placement != "auto" ==>
              forall k :: 0 <= k < |r.value| ==> r.value[k] == (t.masters + t.slaves)[k].loc
  {
    var ps := t.masters + t.slaves;
    if t.placement == "auto" then
      var _ :- Need(FacesOk(ps), "KeyError: face");
      var _ :- Need(FitsOnFaces(Reqs(ps), w, h), "Not able to fit all ports on a face of the tile");
      AutoPlace(Reqs(ps), w, h)
    else
      var _ :- Need(t.placement != "manual" || forall k :: 0 <= k < |ps| ==> OnBorder(ps[k].loc, w, h),
              "Port is not on the border of the tile");
      Ok(RawLocs(ps))
  }

  /** The embedded tile description, `w` cells wide and `h` cells high. */
  function EmbedTile(t: RawTile, w: nat, h: nat): (r: Result<TileFile>)
    ensures r.Ok? <==> ReadOk(t) && PortLocs(t, w, h).Ok?
                       && Distinct(PortLocs(t, w, h).value + PhyLocs(t.phys))
    ensures r.Ok? ==> r.value.nRows == h && r.value.nCols == w
                      && r.value.nEndpoints == t.nEndpoints && r.value.connections == t.connections
                      && r.value.phys == t.phys
                      && |r.value.masters| == |t.masters| && |r.value.slaves| == |t.slaves|
    ensures r.Ok? ==> EntryLocs(r.value.masters) + EntryLocs(r.value.slaves) == PortLocs(t, w, h).value
    ensures r.Ok? ==> Consecutive(PortIds(r.value.masters)) && Consecutive(PortIds(r.value.slaves))
                      && Consecutive(PhyIds(r.value.phys))
    ensures r.Ok? ==> Distinct(EntryLocs(r.value.masters) + EntryLocs(r.value.slaves) + PhyLocs(r.value.phys))
  {
    var _ :- Need(ReadOk(t), "Ports and PHYs need to be ordered according to their IDs");
    var locs :- PortLocs(t, w, h);
    var ms := WithLocs(t.masters, locs[..|t.masters|]);
    var ss := WithLocs(t.slaves, locs[|t.masters|..]);
    PlacedEntries(t, locs);
    var _ :- Need(Distinct(EntryLocs(ms) + EntryLocs(ss) + PhyLocs(t.phys)),
            "Port or PHY location is placed on a unit-cell that is already occupied");
    Ok(TileFile(h, w, t.nEndpoints, ms, ss, t.phys, t.connections))
  }

  /** Handing the port locations out, masters first, keeps the ids and
      puts every location on exactly one port. */
  lemma PlacedEntries(t: RawTile, locs: seq<Loc>)
    requires ReadOk(t) && |locs| == |t.masters| + |t.slaves|
    ensures var ms, ss := WithLocs(t.masters, locs[..|t.masters|]), WithLocs(t.slaves, locs[|t.masters|..]);
            && EntryLocs(ms) + EntryLocs(ss) == locs
            && Consecutive(PortIds(ms)) && Consecutive(PortIds(ss))
  {
    var ms, ss := WithLocs(t.masters, locs[..|t.masters|]), WithLocs(t.slaves, locs[|t.masters|..]);
    assert EntryLocs(ms) + EntryLocs(ss) == locs;
  }

  // ------------------------------------------------------------ properties

  /** Spacing arithmetic: with at most `len - 1` ports on a face pair, the
      k-th port from either end stays strictly inside the face. */
  lemma SpacingFits(k: nat, d: nat, len: nat, s: nat)
    requires k < d && d <= len - 1
    requires s == (if len / d >= 1 then len / d else 1)
    ensures k * s <= len - 2
  {
    assert len / d >= 1;
    assert d * s <= len;
    assert k * s <= (d - 1) * s by {
      MulMono(k, d - 1, s);
    }
  }

  lemma MulMono(a: nat, b: nat, s: nat)
    requires a <= b
    ensures a * s <= b * s
  {
  }

  lemma {:induction false} AlignCountPrefix(rs: seq<Req>, i: nat)
    requires i < |rs|
    ensures AlignCount(rs[..i], rs[i].face, rs[i].align) + 1 <= AlignCount(rs, rs[i].face, rs[i].align)
  {
    AlignCountSnoc(rs, i);
    AlignCountAppend(rs[..i + 1], rs[i + 1..], rs[i].face, rs[i].align);
    assert rs[..i + 1] + rs[i + 1..] == rs;
  }

  lemma CrowdFits(rs: seq<Req>, w: nat, h: nat, f: Face)
    requires FitsOnFaces(rs, w, h) && FaceCount(rs, f) >= 1
    ensures FaceCount(rs, f) <= Crowd(f, rs) <= FaceLength(f, w, h) - 1
  {
    assert FaceCount(rs, North) <= FaceLength(North, w, h) - 1;
    assert FaceCount(rs, South) <= FaceLength(South, w, h) - 1;
    assert FaceCount(rs, East) <= FaceLength(East, w, h) - 1;
    assert FaceCount(rs, West) <= FaceLength(West, w, h) - 1;
  }

  lemma SignedStep(a: int, k: nat, s: nat)
    requires a == -1 || a == 1
    ensures a * k * s == (if a == -1 then -(k * s) else k * s)
  {
  }

  /** Aligned -1 ports walk up from cell 1, aligned +1 ports walk down from
      cell length - 2; neither leaves the face. */
  lemma MovingInside(rs: seq<Req>, w: nat, h: nat, i: nat)
    requires FitsOnFaces(rs, w, h) && i < |rs| && rs[i].align in {-1, 1}
    ensures rs[i].align == -1 ==> 1 <= Moving(rs, i, w, h) <= FaceLength(rs[i].face, w, h) - 1
    ensures rs[i].align == 1 ==> 0 <= Moving(rs, i, w, h) <= FaceLength(rs[i].face, w, h) - 2
  {
    var p := rs[i];
    var k := AlignCount(rs[..i], p.face, p.align);
    AlignCountPrefix(rs, i);
    CrowdFits(rs, w, h, p.face);
    var len := FaceLength(p.face, w, h);
    var sp := Spacing(p.face, rs, w, h);
    SpacingFits(k, Crowd(p.face, rs), len, sp);
    StepArith(p.align, k * sp, len, Start(p.face, p.align, w, h));
    SignedStep(p.align, k, sp);
  }

  lemma StepArith(a: int, ks: int, len: int, start: int)
    requires a == -1 || a == 1
    requires 0 <= ks <= len - 2
    requires start == if a == -1 then 1 else len - 2
    ensures a == -1 ==> 1 <= start + ks <= len - 1
    ensures a == 1 ==> 0 <= start - ks <= len - 2
  {
  }

  /** In auto mode, once the capacity check has passed, every placed port
      lies on the fixed row or column of its face and inside the tile. */
  lemma AutoOnBorder(rs: seq<Req>, w: nat, h: nat, i: nat)
    requires FitsOnFaces(rs, w, h) && AlignsOk(rs) && i < |rs|
    ensures var l := AutoLoc(rs, i, w, h);
            && (rs[i].face == North ==> l.0 == h - 1 && 0 <= l.1 < w)
            && (rs[i].face == South ==> l.0 == 0 && 0 <= l.1 < w)
            && (rs[i].face == East ==> l.1 == w - 1 && 0 <= l.0 < h)
            && (rs[i].face == West ==> l.1 == 0 && 0 <= l.0 < h)
  {
    MovingInside(rs, w, h, i);
  }

  /** An embedded tile never puts two master ports, or two slave ports, on
      one cell, so the tile built from it has inverse tables. */
  lemma EmbeddedUnique(t: RawTile, w: nat, h: nat, f: TileFile)
    requires EmbedTile(t, w, h) == Ok(f)
    ensures UniqueLocs(MasterPorts(f.masters)) && UniqueLocs(SlavePorts(f.slaves))
  {
    DistinctParts(f);
  }

  lemma DistinctParts(f: TileFile)
    requires Distinct(EntryLocs(f.masters) + EntryLocs(f.slaves) + PhyLocs(f.phys))
    ensures UniqueLocs(MasterPorts(f.masters)) && UniqueLocs(SlavePorts(f.slaves))
  {
    var all := EntryLocs(f.masters) + EntryLocs(f.slaves) + PhyLocs(f.phys);
    var ms := MasterPorts(f.masters);
    var ss := SlavePorts(f.slaves);
    forall i, j | 0 <= i < j < |ms| ensures ms[i].loc != ms[j].loc {
      assert all[i] == ms[i].loc && all[j] == ms[j].loc;
    }
    var n := |f.masters|;
    forall i, j | 0 <= i < j < |ss| ensures ss[i].loc != ss[j].loc {
      assert all[n + i] == ss[i].loc && all[n + j] == ss[j].loc;
    }
  }

  /** In auto mode an embedded tile builds, provided its connections name
      existing items and its PHYs lie inside it: the id checks pass and
      every port lands inside the tile. */
  lemma EmbeddedBuilds(t: RawTile, w: nat, h: nat, f: TileFile, delay: int)
    requires EmbedTile(t, w, h) == Ok(f) && t.placement == "auto" && w >= 1 && h >= 1
    requires ConnectionsOk(f) && AllIn(h, w, PhyAsPorts(PhyPorts(f.phys)))
    ensures BuildTile(f, delay).Ok?
  {
    EmbeddedPortsInside(t, w, h, f);
    BuildsWhen(f, delay);
  }

  lemma EmbeddedPortsInside(t: RawTile, w: nat, h: nat, f: TileFile)
    requires EmbedTile(t, w, h) == Ok(f) && t.placement == "auto" && w >= 1 && h >= 1
    ensures AllIn(h, w, MasterPorts(f.masters)) && AllIn(h, w, SlavePorts(f.slaves))
  {
    LocsInside(t, w, h);
    PortsInside(f, PortLocs(t, w, h).value);
  }

  lemma LocsInside(t: RawTile, w: nat, h: nat)
    requires PortLocs(t, w, h).Ok? && t.placement == "auto" && w >= 1 && h >= 1
    ensures var locs := PortLocs(t, w, h).value;
            forall k :: 0 <= k < |locs| ==> 0 <= locs[k].0 < h && 0 <= locs[k].1 < w
  {
    AutoInside(Reqs(t.masters + t.slaves), w, h, PortLocs(t, w, h).value);
  }

  lemma BuildsWhen(f: TileFile, delay: int)
    requires Consecutive(PortIds(f.masters)) && Consecutive(PortIds(f.slaves)) && Consecutive(PhyIds(f.phys))
    requires ConnectionsOk(f) && PortsFit(f)
    ensures BuildTile(f, delay).Ok?
  {
  }

  lemma AutoInside(rs: seq<Req>, w: nat, h: nat, locs: seq<Loc>)
    requires FitsOnFaces(rs, w, h) && AlignsOk(rs) && |locs| == |rs| && w >= 1 && h >= 1
    requires forall k :: 0 <= k < |rs| ==> locs[k] == AutoLoc(rs, k, w, h)
    ensures forall k :: 0 <= k < |locs| ==> 0 <= locs[k].0 < h && 0 <= locs[k].1 < w
  {
    forall k | 0 <= k < |locs| ensures 0 <= locs[k].0 < h && 0 <= locs[k].1 < w {
      AutoOnBorder(rs, w, h, k);
    }
  }

  lemma PortsInside(f: TileFile, locs: seq<Loc>)
    requires EntryLocs(f.masters) + EntryLocs(f.slaves) == locs
    requires forall k :: 0 <= k < |locs| ==> 0 <= locs[k].0 < f.nRows && 0 <= locs[k].1 < f.nCols
    ensures AllIn(f.nRows, f.nCols, MasterPorts(f.masters))
    ensures AllIn(f.nRows, f.nCols, SlavePorts(f.slaves))
  {
    var n := |f.masters|;
    forall k | 0 <= k < |f.masters| ensures Resolve(f.nRows, f.nCols, MasterPorts(f.masters)[k].loc).Some? {
      assert f.masters[k].loc == locs[k];
    }
    forall k | 0 <= k < |f.slaves| ensures Resolve(f.nRows, f.nCols, SlavePorts(f.slaves)[k].loc).Some? {
      assert f.slaves[k].loc == locs[n + k];
    }
  }
}
