/** Detailed routing of the homogeneous place-and-route flow
    (`route_in_fine_grid` in src/place_and_route.py, lines 260-470).

    The fine grid gives every coarse row and column its final size. Each
    coarse route is turned into a fine route, one connection after the
    other: a dynamic programme walks the coarse corners, keeping for every
    reachable border cell of the next corner the cheapest way there
    (fewest wires crossed, then shortest); among the routes that line up
    with the slave port the cheapest is taken, and a three-hop detour
    through the middle is the fallback. The chosen route then raises the
    counters of the cells it runs through, so later connections see it.

    The code reads a few loop variables after loops that may not have run
    (`loc` when naming a corner, `row`/`col` in the fallback); the model
    threads those variables explicitly. */
module Fine {
  import opened Wrappers
  import opened Cells
  import opened Bumps
  import opened Blocks
  import opened Coarse

  // ---------------------------------------------------------------- frame

  function Sum(s: seq<nat>): nat {
    if |s| == 0 then 0 else Sum(s[..|s| - 1]) + s[|s| - 1]
  }

  /** `row_starts` / `col_starts`: the first fine line of every coarse
      line, the running sum of the sizes before it. */
  function Starts(sizes: seq<nat>): (r: seq<nat>)
    ensures |r| == |sizes|
    ensures forall k :: 0 <= k < |sizes| ==> r[k] == Sum(sizes[..k])
  {
    seq(|sizes|, k requires 0 <= k < |sizes| => Sum(sizes[..k]))
  }

  /** Consecutive coarse lines abut, and the last one ends at the total. */
  lemma StartsNext(sizes: seq<nat>, k: nat)
    requires k < |sizes|
    ensures Starts(sizes)[k] + sizes[k] == (if k + 1 < |sizes| then Starts(sizes)[k + 1] else Sum(sizes))
  {
    assert sizes[..k + 1][..k] == sizes[..k];
    if k + 1 == |sizes| { assert sizes[..k + 1] == sizes; }
  }

  /** Every coarse line lies inside the fine grid. */
  lemma {:induction false} StartsInside(sizes: seq<nat>, k: nat)
    requires k < |sizes|
    ensures Starts(sizes)[k] + sizes[k] <= Sum(sizes)
    decreases |sizes| - k
  {
    StartsNext(sizes, k);
    if k + 1 < |sizes| {
      StartsInside(sizes, k + 1);
    }
  }

  /** The sizes of the coarse rows and columns. */
  datatype Frame = Frame(rs: seq<nat>, cs: seq<nat>) {
    function Rows(): nat { Sum(rs) }
    function Cols(): nat { Sum(cs) }

    /** The sizes of the coarse lines a move along `a` crosses. */
    function Along(a: Axis): seq<nat> { if a == H then cs else rs }
  }

  /** A dictionary lookup: a missing key raises. */
  function Key(s: seq<nat>, x: int): (r: Result<nat>)
    ensures r.Ok? <==> 0 <= x < |s|
    ensures r.Ok? ==> r.value == s[x]
  {
    if 0 <= x < |s| then Ok(s[x]) else Err("KeyError")
  }

  /** The fine cell of a port: its tile's first row and column plus the
      port's offset; `c` is the tile's coarse cell. */
  function PortCell(f: Frame, c: Loc, off: Loc): (r: Result<Loc>)
    ensures r.Ok? <==> 0 <= c.0 < |f.rs| && 0 <= c.1 < |f.cs|
    ensures r.Ok? ==> r.value == (Starts(f.rs)[c.0] + off.0, Starts(f.cs)[c.1] + off.1)
  {
    var r0 :- Key(Starts(f.rs), c.0);
    var c0 :- Key(Starts(f.cs), c.1);
    Ok((r0 + off.0, c0 + off.1))
  }

  // ------------------------------------------------------------ fine grid

  /** The coarse cells holding a tile (odd row and odd column), row by
      row, in the order the grid construction visits them. */
  function Spots(nr: nat, nc: nat): (r: seq<(nat, nat)>)
    ensures forall k :: 0 <= k < |r| ==> r[k].0 < nr && r[k].1 < nc && r[k].0 % 2 == 1 && r[k].1 % 2 == 1
    decreases nr
  {
    if nr == 0 then []
    else Spots(nr - 1, nc) + (if (nr - 1) % 2 == 1 then RowSpots(nr - 1, nc) else [])
  }

  function RowSpots(row: nat, nc: nat): (r: seq<(nat, nat)>)
    ensures forall k :: 0 <= k < |r| ==> r[k].0 == row && r[k].1 < nc && r[k].1 % 2 == 1
    decreases nc
  {
    if nc == 0 then []
    else RowSpots(row, nc - 1) + (if (nc - 1) % 2 == 1 then [(row, nc - 1)] else [])
  }

  /** "T" over the `h` x `w` block at (r0, c0), row by row. */
  function Fill(r0: int, h: nat, c0: int, w: nat): (r: seq<(Loc, Cell)>)
    ensures forall k :: 0 <= k < |r| ==>
              r[k].1 == Mark(Logic) && r0 <= r[k].0.0 < r0 + h && c0 <= r[k].0.1 < c0 + w
    decreases h
  {
    if h == 0 then []
    else Fill(r0, h - 1, c0, w) + seq(w, b => ((r0 + h - 1, c0 + b), Mark(Logic)))
  }

  /** The port markers of one tile placed at (r0, c0). */
  function PortWrites(ps: seq<Port>, r0: int, c0: int, x: Marker): (r: seq<(Loc, Cell)>)
    ensures |r| == |ps|
    ensures forall k :: 0 <= k < |ps| ==> r[k] == ((r0 + ps[k].loc.0, c0 + ps[k].loc.1), Mark(x))
  {
    seq(|ps|, k requires 0 <= k < |ps| => ((r0 + ps[k].loc.0, c0 + ps[k].loc.1), Mark(x)))
  }

  /** What the construction writes for the tile at coarse cell `s`: the
      block of "T", then every "M", then every "S". */
  function SpotWrites(f: Frame, t: Block, s: (nat, nat)): seq<(Loc, Cell)>
    requires s.0 < |f.rs| && s.1 < |f.cs|
  {
    var r0, c0 := Starts(f.rs)[s.0], Starts(f.cs)[s.1];
    Fill(r0, f.rs[s.0], c0, f.cs[s.1]) + PortWrites(t.masters, r0, c0, Master) + PortWrites(t.slaves, r0, c0, Slave)
  }

  function AllWrites(f: Frame, t: Block, ss: seq<(nat, nat)>): seq<(Loc, Cell)>
    requires forall k :: 0 <= k < |ss| ==> ss[k].0 < |f.rs| && ss[k].1 < |f.cs|
    decreases |ss|
  {
    if |ss| == 0 then [] else AllWrites(f, t, ss[..|ss| - 1]) + SpotWrites(f, t, ss[|ss| - 1])
  }

  /** A tile row or column whose end is not a key of the starts. */
  predicate KeyGap(f: Frame) {
    |f.rs| >= 2 && |f.cs| >= 2 && (|f.rs| % 2 == 0 || |f.cs| % 2 == 0)
  }

  /** The grid construction: clear cells, then every tile's block and
      ports. A port outside the grid raises. */
  function FineGrid(f: Frame, t: Block): (r: Result<Grid>)
    ensures r.Ok? <==> !KeyGap(f) && AllResolve(f.Rows(), f.Cols(), AllWrites(f, t, Spots(|f.rs|, |f.cs|)))
    ensures r.Ok? ==> WrittenBy(Filled(f.Rows(), f.Cols(), Empty), r.value, f.Rows(), f.Cols(),
                                AllWrites(f, t, Spots(|f.rs|, |f.cs|)))
  {
    var _ :- Need(!KeyGap(f), "KeyError");
    WriteAll(Filled(f.Rows(), f.Cols(), Empty), f.Rows(), f.Cols(), AllWrites(f, t, Spots(|f.rs|, |f.cs|)))
  }

  // ------------------------------------------------------ the programme

  function Other(a: Axis): Axis { if a == H then V else H }

  /** The cell at coordinate `x` on the line `fix` along `a`. */
  function At(a: Axis, fix: int, x: int): Loc { if a == H then (fix, x) else (x, fix) }

  /** The step of a move from `x` to `y` as the code picks it. */
  function Dir(x: int, y: int): int { if x < y then 1 else -1 }

  /** A partial route kept by the programme: the corner reached, the
      wires crossed and the cells walked so far, and the corners before. */
  datatype Entry = Entry(corner: Loc, coll: nat, len: nat, prev: seq<Loc>)

  /** The corner list the entry stands for, starting at the master port. */
  function Trail(e: Entry): seq<Loc> { e.prev + [e.corner] }

  /** Every partial route starts at the master port. */
  predicate FromMaster(es: seq<Entry>, m: Loc) {
    forall k :: 0 <= k < |es| ==> Trail(es[k])[0] == m
  }

  /** The geometry of segment `i` of a coarse route: the axis and step of
      its move, the step of the next move, the cells of the next coarse
      corner it may turn in, and the coarse line the turn runs across. */
  datatype Seg = Seg(a: Axis, dir: int, next: int, first: int, stop: int, across: int)

  function Geometry(f: Frame, cells: seq<Loc>, i: nat): (r: Result<Seg>)
    requires i + 2 < |cells|
    ensures r.Ok? ==> (r.value.dir == 1 || r.value.dir == -1) && (r.value.next == 1 || r.value.next == -1)
  {
    var p, q, s := cells[i], cells[i + 1], cells[i + 2];
    var a := HopAxis(p, q);
    var dir, next := Dir(Pos(p, a), Pos(q, a)), Dir(Fix(q, a), Fix(s, a));
    var sz :- Key(f.Along(a), Pos(q, a));
    var st := Starts(f.Along(a))[Pos(q, a)];
    var first := if dir == 1 then st else st + sz - 1;
    var stop := if dir == 1 then st + sz else st - 1;
    Ok(Seg(a, dir, next, first, stop, Fix(q, a)))
  }

  /** An ordered dictionary, as Python's `dict` keeps insertion order. */
  type Dict<V> = seq<(Loc, V)>

  function Keys<V>(d: Dict<V>): (r: seq<Loc>)
    ensures |r| == |d| && forall k :: 0 <= k < |d| ==> r[k] == d[k].0
  {
    seq(|d|, k requires 0 <= k < |d| => d[k].0)
  }

  /** Where key `x` sits, if present. */
  function Find<V>(d: Dict<V>, x: Loc): (r: Option<nat>)
    ensures r.Some? ==> r.value < |d| && d[r.value].0 == x
    ensures r.None? ==> forall k :: 0 <= k < |d| ==> d[k].0 != x
  {
    if |d| == 0 then None
    else if d[|d| - 1].0 == x then Some(|d| - 1)
    else Find(d[..|d| - 1], x)
  }

  /** `d[x] = v`: an existing key keeps its place, a new one goes last. */
  function Put<V>(d: Dict<V>, x: Loc, v: V): (r: Dict<V>)
    ensures Find(d, x).Some? ==> r == d[Find(d, x).value := (x, v)]
    ensures Find(d, x).None? ==> r == d + [(x, v)]
    ensures forall k :: 0 <= k < |r| ==> r[k] in d || r[k] == (x, v)
  {
    match Find(d, x)
    case Some(k) => d[k := (x, v)]
    case None => d + [(x, v)]
  }

  /** What an intermediate corner stores: wires, length, corners before. */
  datatype Reach = Reach(coll: nat, len: nat, prev: seq<Loc>)

  /** From one partial route, the cells it reaches in the next coarse
      corner: it first walks to the corner's border, then every further
      cell of the corner is a candidate turning point. */
  function Reaches(g: Grid, rows: nat, cols: nat, e: Entry, sg: Seg, loc: Option<int>): (r: Result<(Dict<Reach>, Option<int>)>)
    requires IsRect(g, rows, cols) && (sg.dir == 1 || sg.dir == -1)
    ensures r.Ok? ==> forall k :: 0 <= k < |r.value.0| ==> r.value.0[k].1.prev == Trail(e)
  {
    var fix := Fix(e.corner, sg.a);
    var access := PyRange(Pos(e.corner, sg.a) + sg.dir, sg.first, sg.dir);
    var spots := PyRange(sg.first, sg.stop, sg.dir);
    var t0 :- Tally(g, rows, cols, Line(sg.a, fix, access));
    var _ :- Tally(g, rows, cols, Line(sg.a, fix, spots));
    var kvs := seq(|spots|, k requires 0 <= k < |spots| =>
      (At(sg.a, fix, spots[k]),
       Reach(e.coll + t0 + Load(g, rows, cols, Line(sg.a, fix, spots)[..k + 1]), e.len + |access| + k + 1, Trail(e))));
    Ok((kvs, After(spots, After(access, loc))))
  }

  function PutAll<V>(d: Dict<V>, kvs: Dict<V>): (r: Dict<V>)
    ensures forall k :: 0 <= k < |r| ==> r[k] in d || r[k] in kvs
    decreases |kvs|
  {
    if |kvs| == 0 then d else PutAll(Put(d, kvs[0].0, kvs[0].1), kvs[1..])
  }

  /** The intermediate corners of a segment, over all partial routes in
      order; a later route reaching the same cell overwrites it. */
  function ReachAll(g: Grid, rows: nat, cols: nat, es: seq<Entry>, sg: Seg, d: Dict<Reach>, loc: Option<int>): (r: Result<(Dict<Reach>, Option<int>)>)
    requires IsRect(g, rows, cols) && (sg.dir == 1 || sg.dir == -1)
    decreases |es|
  {
    if |es| == 0 then Ok((d, loc))
    else
      var (kvs, loc1) :- Reaches(g, rows, cols, es[0], sg, loc);
      ReachAll(g, rows, cols, es[1..], sg, PutAll(d, kvs), loc1)
  }

  /** An entry that crossed fewer wires, or as many on a shorter path. */
  predicate Better(c: nat, l: nat, c0: nat, l0: nat) {
    c < c0 || (c == c0 && l < l0)
  }

  /** `corners_final[x] = e` unless the entry already there is at least
      as good. */
  function PutIfBetter(d: Dict<Entry>, x: Loc, e: Entry): (r: Dict<Entry>)
    ensures Find(d, x).None? ==> r == d + [(x, e)]
    ensures Find(d, x).Some? ==> var o := d[Find(d, x).value].1;
              r == if Better(e.coll, e.len, o.coll, o.len) then d[Find(d, x).value := (x, e)] else d
    ensures forall k :: 0 <= k < |r| ==> r[k] in d || r[k] == (x, e)
  {
    match Find(d, x)
    case None => d + [(x, e)]
    case Some(k) => if Better(e.coll, e.len, d[k].1.coll, d[k].1.len) then d[k := (x, e)] else d
  }

  function Values<V>(d: Dict<V>): (r: seq<V>)
    ensures |r| == |d| && forall k :: 0 <= k < |d| ==> r[k] == d[k].1
  {
    seq(|d|, k requires 0 <= k < |d| => d[k].1)
  }

  /** The border line the walk after a turn stops at: just past the far
      side of the coarse line the turn crosses. Missing keys raise. */
  function TurnEnd(f: Frame, sg: Seg): (r: Result<int>)
    ensures r.Ok? <==> 0 <= sg.across < |f.Along(Other(sg.a))|
  {
    var sizes := f.Along(Other(sg.a));
    var sz :- Key(sizes, sg.across);
    var st := Starts(sizes)[sg.across];
    Ok(if sg.next == 1 then st + sz else st - 1)
  }

  /** Every intermediate corner settles: it walks across to the border in
      the direction of the next segment, and the cell it stops in keys the
      cheapest entry turning there. `loc` keeps the last cell walked, and a
      walk of no cells names the cell by whatever `loc` held before. */
  function Settle(g: Grid, rows: nat, cols: nat, sg: Seg, end: int, d: Dict<Reach>, acc: Dict<Entry>, loc: Option<int>)
    : (r: Result<(Dict<Entry>, Option<int>)>)
    requires IsRect(g, rows, cols) && (sg.next == 1 || sg.next == -1)
    decreases |d|
  {
    if |d| == 0 then Ok((acc, loc))
    else
      var s :- SettleOne(g, rows, cols, sg, end, d[0].0, d[0].1, acc, loc);
      Settle(g, rows, cols, sg, end, d[1..], s.0, s.1)
  }

  /** One corner settles. */
  function SettleOne(g: Grid, rows: nat, cols: nat, sg: Seg, end: int, corner: Loc, v: Reach, acc: Dict<Entry>, loc: Option<int>)
    : (r: Result<(Dict<Entry>, Option<int>)>)
    requires IsRect(g, rows, cols) && (sg.next == 1 || sg.next == -1)
  {
    var fix := Pos(corner, sg.a);
    var walk := PyRange(Fix(corner, sg.a), end, sg.next);
    var t :- Tally(g, rows, cols, Line(Other(sg.a), fix, walk));
    var loc1 := After(walk, loc);
    if loc1.None? then Err("UnboundLocalError")
    else
      var e := Entry(corner, v.coll + t, v.len + |walk|, v.prev);
      Ok((PutIfBetter(acc, At(Other(sg.a), fix, loc1.value), e), loc1))
  }

  /** One segment of the programme: from the entries reaching corner `i`
      to those reaching corner `i + 1`. */
  function Step(f: Frame, g: Grid, cells: seq<Loc>, i: nat, es: seq<Entry>, loc: Option<int>)
    : (r: Result<(seq<Entry>, Option<int>)>)
    requires IsRect(g, f.Rows(), f.Cols()) && i + 2 < |cells|
  {
    var sg :- Geometry(f, cells, i);
    var reached :- ReachAll(g, f.Rows(), f.Cols(), es, sg, [], loc);
    if |reached.0| == 0 then Ok(([], reached.1))
    else
      var end :- TurnEnd(f, sg);
      var settled :- Settle(g, f.Rows(), f.Cols(), sg, end, reached.0, [], reached.1);
      Ok((Values(settled.0), settled.1))
  }

  /** All segments, from corner `i` on. */
  function Segments(f: Frame, g: Grid, cells: seq<Loc>, i: nat, es: seq<Entry>, loc: Option<int>)
    : (r: Result<(seq<Entry>, Option<int>)>)
    requires IsRect(g, f.Rows(), f.Cols()) && i + 2 <= |cells|
    decreases |cells| - i
  {
    if i + 2 == |cells| then Ok((es, loc))
    else
      var res :- Step(f, g, cells, i, es, loc);
      Segments(f, g, cells, i + 1, res.0, res.1)
  }

  // --------------------------------------------------- starting at the master

  /** Every intermediate corner remembers a list of corners starting at
      the master port. */
  predicate ReachRooted(d: Dict<Reach>, m: Loc) {
    forall k :: 0 <= k < |d| ==> |d[k].1.prev| > 0 && d[k].1.prev[0] == m
  }

  lemma PutAllRooted(d: Dict<Reach>, kvs: Dict<Reach>, m: Loc)
    requires ReachRooted(d, m) && ReachRooted(kvs, m)
    ensures ReachRooted(PutAll(d, kvs), m)
    decreases |kvs|
  {
    if |kvs| > 0 {
      var d1 := Put(d, kvs[0].0, kvs[0].1);
      assert ReachRooted(d1, m) by {
        forall k | 0 <= k < |d1| ensures |d1[k].1.prev| > 0 && d1[k].1.prev[0] == m {
          if d1[k] != kvs[0] {
            var j :| 0 <= j < |d| && d[j] == d1[k];
          }
        }
      }
      PutAllRooted(d1, kvs[1..], m);
    }
  }

  lemma {:induction false} ReachAllRooted(g: Grid, rows: nat, cols: nat, es: seq<Entry>, sg: Seg, d: Dict<Reach>, loc: Option<int>, m: Loc)
    requires IsRect(g, rows, cols) && (sg.dir == 1 || sg.dir == -1)
    requires FromMaster(es, m) && ReachRooted(d, m)
    requires ReachAll(g, rows, cols, es, sg, d, loc).Ok?
    ensures ReachRooted(ReachAll(g, rows, cols, es, sg, d, loc).value.0, m)
    decreases |es|
  {
    if |es| > 0 {
      var res := Reaches(g, rows, cols, es[0], sg, loc).value;
      assert Trail(es[0])[0] == m;
      PutAllRooted(d, res.0, m);
      ReachAllRooted(g, rows, cols, es[1..], sg, PutAll(d, res.0), res.1, m);
    }
  }

  /** The settled entries, as a dictionary, start at the master. */
  predicate EntryRooted(d: Dict<Entry>, m: Loc) {
    forall k :: 0 <= k < |d| ==> Trail(d[k].1)[0] == m
  }

  lemma {:induction false} SettleRooted(g: Grid, rows: nat, cols: nat, sg: Seg, end: int, d: Dict<Reach>, acc: Dict<Entry>, loc: Option<int>, m: Loc)
    requires IsRect(g, rows, cols) && (sg.next == 1 || sg.next == -1)
    requires ReachRooted(d, m) && EntryRooted(acc, m)
    requires Settle(g, rows, cols, sg, end, d, acc, loc).Ok?
    ensures EntryRooted(Settle(g, rows, cols, sg, end, d, acc, loc).value.0, m)
    decreases |d|
  {
    if |d| > 0 {
      var s := SettleOne(g, rows, cols, sg, end, d[0].0, d[0].1, acc, loc).value;
      assert ReachRooted(d[1..], m) by {
        forall k | 0 <= k < |d[1..]| ensures |d[1..][k].1.prev| > 0 && d[1..][k].1.prev[0] == m { assert d[1..][k] == d[k + 1]; }
      }
      SettleOneRooted(g, rows, cols, sg, end, d[0].0, d[0].1, acc, loc, m);
      SettleRooted(g, rows, cols, sg, end, d[1..], s.0, s.1, m);
    }
  }

  lemma SettleOneRooted(g: Grid, rows: nat, cols: nat, sg: Seg, end: int, corner: Loc, v: Reach, acc: Dict<Entry>, loc: Option<int>, m: Loc)
    requires IsRect(g, rows, cols) && (sg.next == 1 || sg.next == -1)
    requires |v.prev| > 0 && v.prev[0] == m && EntryRooted(acc, m)
    requires SettleOne(g, rows, cols, sg, end, corner, v, acc, loc).Ok?
    ensures EntryRooted(SettleOne(g, rows, cols, sg, end, corner, v, acc, loc).value.0, m)
  {
    var walk := PyRange(Fix(corner, sg.a), end, sg.next);
    var t := Tally(g, rows, cols, Line(Other(sg.a), Pos(corner, sg.a), walk)).value;
    var loc1 := After(walk, loc).value;
    PutRooted(acc, At(Other(sg.a), Pos(corner, sg.a), loc1), Entry(corner, v.coll + t, v.len + |walk|, v.prev), m);
  }

  lemma PutRooted(acc: Dict<Entry>, x: Loc, e: Entry, m: Loc)
    requires EntryRooted(acc, m) && |e.prev| > 0 && e.prev[0] == m
    ensures EntryRooted(PutIfBetter(acc, x, e), m)
  {
    var acc1 := PutIfBetter(acc, x, e);
    assert Trail(e)[0] == m;
    forall k | 0 <= k < |acc1| ensures Trail(acc1[k].1)[0] == m {
      if acc1[k].1 != e {
        var j :| 0 <= j < |acc| && acc[j] == acc1[k];
      }
    }
  }

  /** Every entry the programme keeps, segment after segment, stands for a
      list of corners starting at the master port. */
  lemma {:induction false} SegmentsRooted(f: Frame, g: Grid, cells: seq<Loc>, i: nat, es: seq<Entry>, loc: Option<int>, m: Loc)
    requires IsRect(g, f.Rows(), f.Cols()) && i + 2 <= |cells|
    requires FromMaster(es, m) && Segments(f, g, cells, i, es, loc).Ok?
    ensures FromMaster(Segments(f, g, cells, i, es, loc).value.0, m)
    decreases |cells| - i
  {
    if i + 2 < |cells| {
      var sg := Geometry(f, cells, i).value;
      ReachAllRooted(g, f.Rows(), f.Cols(), es, sg, [], loc, m);
      var reached := ReachAll(g, f.Rows(), f.Cols(), es, sg, [], loc).value;
      if |reached.0| > 0 {
        var end := TurnEnd(f, sg).value;
        SettleRooted(g, f.Rows(), f.Cols(), sg, end, reached.0, [], reached.1, m);
      }
      var res := Step(f, g, cells, i, es, loc).value;
      SegmentsRooted(f, g, cells, i + 1, res.0, res.1, m);
    }
  }

  // ---------------------------------------------------------- the last leg

  /** A finished route, with the wires it crosses and the cells it walks. */
  datatype Cand = Cand(route: seq<Loc>, coll: nat, len: nat)

  /** The cells the last leg, from an entry's corner to the slave port,
      tallies. As written (src/place_and_route.py:388) the range runs over
      the coordinate the guard has just found equal, so it is empty; the
      corrected range walks the leg between corner and port, as the access
      walk of every segment does. */
  function LegCells(fixed: bool, corner: Loc, slave: Loc, a: Axis, dir: int): seq<int>
    requires dir == 1 || dir == -1
  {
    if fixed then PyRange(Pos(corner, a) + dir, Pos(slave, a), dir)
    else PyRange(Fix(corner, a), Fix(slave, a), dir)
  }

  /** An entry whose corner lines up with the slave port finishes there. */
  function Leg(g: Grid, rows: nat, cols: nat, e: Entry, a: Axis, dir: int, slave: Loc, fixed: bool): (r: Result<Cand>)
    requires IsRect(g, rows, cols) && (dir == 1 || dir == -1)
    ensures r.Ok? <==> AllOnWire(g, rows, cols, Line(a, Fix(e.corner, a), LegCells(fixed, e.corner, slave, a, dir)))
    ensures r.Ok? ==> var xs := LegCells(fixed, e.corner, slave, a, dir);
              && r.value.route == Trail(e) + [slave]
              && r.value.coll == e.coll + Load(g, rows, cols, Line(a, Fix(e.corner, a), xs))
              && r.value.len == e.len + |xs|
  {
    var xs := LegCells(fixed, e.corner, slave, a, dir);
    var t :- Tally(g, rows, cols, Line(a, Fix(e.corner, a), xs));
    Ok(Cand(Trail(e) + [slave], e.coll + t, e.len + |xs|))
  }

  /** The routes that can finish at the slave port, in entry order. */
  function Candidates(g: Grid, rows: nat, cols: nat, es: seq<Entry>, a: Axis, dir: int, slave: Loc, fixed: bool, loc: Option<int>)
    : (r: Result<(seq<Cand>, Option<int>)>)
    requires IsRect(g, rows, cols) && (dir == 1 || dir == -1)
    decreases |es|
  {
    if |es| == 0 then Ok(([], loc))
    else if Fix(es[0].corner, a) != Fix(slave, a) then Candidates(g, rows, cols, es[1..], a, dir, slave, fixed, loc)
    else
      var c :- Leg(g, rows, cols, es[0], a, dir, slave, fixed);
      var rest :- Candidates(g, rows, cols, es[1..], a, dir, slave, fixed,
                             After(LegCells(fixed, es[0].corner, slave, a, dir), loc));
      Ok(([c] + rest.0, rest.1))
  }

  /** Every candidate route runs from `m` to `s`. */
  predicate Finishes(cs: seq<Cand>, m: Loc, s: Loc) {
    forall k :: 0 <= k < |cs| ==> |cs[k].route| >= 2 && cs[k].route[0] == m && cs[k].route[|cs[k].route| - 1] == s
  }

  lemma {:induction false} CandidatesRooted(g: Grid, rows: nat, cols: nat, es: seq<Entry>, a: Axis, dir: int, slave: Loc, fixed: bool, loc: Option<int>, m: Loc)
    requires IsRect(g, rows, cols) && (dir == 1 || dir == -1)
    requires FromMaster(es, m) && Candidates(g, rows, cols, es, a, dir, slave, fixed, loc).Ok?
    ensures Finishes(Candidates(g, rows, cols, es, a, dir, slave, fixed, loc).value.0, m, slave)
    decreases |es|
  {
    if |es| > 0 {
      assert FromMaster(es[1..], m) by {
        forall k | 0 <= k < |es[1..]| ensures Trail(es[1..][k])[0] == m { assert es[1..][k] == es[k + 1]; }
      }
      if Fix(es[0].corner, a) != Fix(slave, a) {
        CandidatesRooted(g, rows, cols, es[1..], a, dir, slave, fixed, loc, m);
      } else {
        var c := Leg(g, rows, cols, es[0], a, dir, slave, fixed).value;
        var loc1 := After(LegCells(fixed, es[0].corner, slave, a, dir), loc);
        var rest := Candidates(g, rows, cols, es[1..], a, dir, slave, fixed, loc1).value.0;
        assert Candidates(g, rows, cols, es, a, dir, slave, fixed, loc).value.0 == [c] + rest;
        CandidatesRooted(g, rows, cols, es[1..], a, dir, slave, fixed, loc1, m);
        assert Trail(es[0])[0] == m && c.route == Trail(es[0]) + [slave];
        FinishesCons(c, rest, m, slave);
      }
    }
  }

  lemma FinishesCons(c: Cand, cs: seq<Cand>, m: Loc, s: Loc)
    requires |c.route| >= 2 && c.route[0] == m && c.route[|c.route| - 1] == s && Finishes(cs, m, s)
    ensures Finishes([c] + cs, m, s)
  {
    forall k | 1 <= k < |cs| + 1 ensures ([c] + cs)[k] == cs[k - 1] { }
  }

  /** As written, the last leg tallies nothing: every entry that lines up
      with the slave port finishes with the wires and length it had at its
      corner, whatever lies between corner and port. */
  lemma LegAsWrittenFree(g: Grid, rows: nat, cols: nat, e: Entry, a: Axis, dir: int, slave: Loc)
    requires IsRect(g, rows, cols) && (dir == 1 || dir == -1)
    requires Fix(e.corner, a) == Fix(slave, a)
    ensures Leg(g, rows, cols, e, a, dir, slave, false) == Ok(Cand(Trail(e) + [slave], e.coll, e.len))
  {
    assert LegCells(false, e.corner, slave, a, dir) == [];
  }

  /** The corrected last leg walks every cell strictly between the corner
      and the slave port when the leg heads towards the port. */
  lemma LegFixedWalks(e: Entry, a: Axis, dir: int, slave: Loc)
    requires dir == 1 || dir == -1
    requires dir * (Pos(slave, a) - Pos(e.corner, a)) > 0
    ensures var xs := LegCells(true, e.corner, slave, a, dir);
            && |xs| == Abs(Pos(slave, a) - Pos(e.corner, a)) - 1
            && forall k :: 0 <= k < |xs| ==> xs[k] != Pos(e.corner, a) && xs[k] != Pos(slave, a)
  {
  }

  /** A corner three cells before the port: the as-written last leg adds
      nothing where the corrected one walks the two cells in between. */
  lemma LegCounterexample()
    ensures |LegCells(false, (3, 1), (3, 4), H, 1)| == 0
    ensures LegCells(true, (3, 1), (3, 4), H, 1) == [2, 3]
  {
    assert |LegCells(true, (3, 1), (3, 4), H, 1)| == 2;
  }

  /** The index of the first cheapest candidate: fewest wires, then
      shortest; a later candidate replaces the choice only when strictly
      better. */
  function Best(cs: seq<Cand>): (r: Option<nat>)
    ensures r.None? <==> |cs| == 0
    ensures r.Some? ==> r.value < |cs|
    ensures r.Some? ==> forall j :: 0 <= j < r.value ==>
              Better(cs[r.value].coll, cs[r.value].len, cs[j].coll, cs[j].len)
    ensures r.Some? ==> forall j :: r.value < j < |cs| ==>
              !Better(cs[j].coll, cs[j].len, cs[r.value].coll, cs[r.value].len)
  {
    if |cs| == 0 then None
    else
      var init := cs[..|cs| - 1];
      var x := cs[|cs| - 1];
      match Best(init)
      case None => Some(0)
      case Some(b) =>
        assert forall j :: 0 <= j < |init| ==> init[j] == cs[j];
        if Better(x.coll, x.len, cs[b].coll, cs[b].len) then Some(|cs| - 1) else Some(b)
  }

  // ------------------------------------------------------------ the detour

  /** The fallback route before it is tallied: its waypoints, the cells its
      three hops count, and the loop variables `row` and `col` it leaves. */
  datatype Plan = Plan(route: seq<Loc>, walked: seq<(Loc, Axis)>, row: int, col: int)

  /** The three-hop detour from master `m` to slave `s` through the middle
      column (`alongRow`) or the middle row. A first hop of no cells leaves
      the waypoint at the stale `col` (or `row`) the code held before. As
      written the third hop of the row case steps by the vertical direction
      (src/place_and_route.py:425); `fixed` steps by the horizontal one. */
  function Detour(m: Loc, s: Loc, alongRow: bool, fixed: bool, row: int, col: int): (r: Plan)
    ensures |r.route| == 4 && r.route[0] == m && r.route[3] == s
  {
    if alongRow then RowDetour(m, s, fixed, col) else ColDetour(m, s, row)
  }

  /** Along the master's row to the middle column, across to the slave's
      row, then along it to the slave. */
  function RowDetour(m: Loc, s: Loc, fixed: bool, col: int): (r: Plan)
    ensures |r.route| == 4 && r.route[0] == m && r.route[3] == s
  {
    var h, v := Dir(m.1, s.1), Dir(m.0, s.0);
    var mid := (m.1 + s.1) / 2;
    var xs1 := PyRange(m.1 + h, mid + h, h);
    var xs2 := PyRange(m.0, s.0 + v, v);
    var xs3 := PyRange(mid, s.1, if fixed then h else v);
    Plan([m, (m.0, After(xs1, Some(col)).value), (After(xs2, Some(m.0)).value, mid), s],
         Line(H, m.0, xs1) + Line(V, mid, xs2) + Line(H, s.0, xs3),
         s.0, After(xs3, Some(mid)).value)
  }

  /** Along the master's column to the middle row, across to the slave's
      column, then along it to the slave. */
  function ColDetour(m: Loc, s: Loc, row: int): (r: Plan)
    ensures |r.route| == 4 && r.route[0] == m && r.route[3] == s
  {
    var h, v := Dir(m.1, s.1), Dir(m.0, s.0);
    var mid := (m.0 + s.0) / 2;
    var xs1 := PyRange(m.0 + v, mid + v, v);
    var xs2 := PyRange(m.1, s.1 + h, h);
    var xs3 := PyRange(mid, s.0, v);
    Plan([m, (After(xs1, Some(row)).value, m.1), (mid, After(xs2, Some(m.1)).value), s],
         Line(V, m.1, xs1) + Line(H, mid, xs2) + Line(V, s.1, xs3),
         After(xs3, Some(mid)).value, s.1)
  }

  /** The corrected detour walks one cell more than the Manhattan distance
      between the ports (the middle hop counts both its ends), and when its
      first hop is not empty its waypoints line up hop by hop. */
  lemma DetourWalk(m: Loc, s: Loc, alongRow: bool, row: int, col: int)
    ensures var p := Detour(m, s, alongRow, true, row, col);
            |p.walked| == Abs(s.1 - m.1) + Abs(s.0 - m.0) + 1
    ensures alongRow && (m.1 + s.1) / 2 != m.1 ==> Paths.Aligned(Detour(m, s, alongRow, true, row, col).route)
    ensures !alongRow && (m.0 + s.0) / 2 != m.0 ==> Paths.Aligned(Detour(m, s, alongRow, true, row, col).route)
  {
    if alongRow {
      RowDetourWalk(m, s, col);
    } else {
      ColDetourWalk(m, s, row);
    }
  }

  lemma RowDetourWalk(m: Loc, s: Loc, col: int)
    ensures |RowDetour(m, s, true, col).walked| == Abs(s.1 - m.1) + Abs(s.0 - m.0) + 1
    ensures (m.1 + s.1) / 2 != m.1 ==> Paths.Aligned(RowDetour(m, s, true, col).route)
  {
    RowDetourLength(m, s, col);
    if (m.1 + s.1) / 2 != m.1 {
      RowDetourAligned(m, s, col);
    }
  }

  lemma RowDetourLength(m: Loc, s: Loc, col: int)
    ensures |RowDetour(m, s, true, col).walked| == Abs(s.1 - m.1) + Abs(s.0 - m.0) + 1
  {
    var h, v := Dir(m.1, s.1), Dir(m.0, s.0);
    var mid := (m.1 + s.1) / 2;
    var xs1, xs2, xs3 := PyRange(m.1 + h, mid + h, h), PyRange(m.0, s.0 + v, v), PyRange(mid, s.1, h);
    assert |RowDetour(m, s, true, col).walked| == |Line(H, m.0, xs1)| + |Line(V, mid, xs2)| + |Line(H, s.0, xs3)|;
    HalvesLength(m.1, s.1);
    CrossLength(m.0, s.0);
  }

  lemma RowDetourAligned(m: Loc, s: Loc, col: int)
    requires (m.1 + s.1) / 2 != m.1
    ensures Paths.Aligned(RowDetour(m, s, true, col).route)
  {
    var mid := (m.1 + s.1) / 2;
    HalfEnd(m.1, s.1, Some(col));
    CrossEnd(m.0, s.0, Some(m.0));
    var w := RowDetour(m, s, true, col).route;
    assert w[1] == (m.0, mid) && w[2] == (s.0, mid);
  }

  lemma ColDetourWalk(m: Loc, s: Loc, row: int)
    ensures |ColDetour(m, s, row).walked| == Abs(s.1 - m.1) + Abs(s.0 - m.0) + 1
    ensures (m.0 + s.0) / 2 != m.0 ==> Paths.Aligned(ColDetour(m, s, row).route)
  {
    ColDetourLength(m, s, row);
    if (m.0 + s.0) / 2 != m.0 {
      ColDetourAligned(m, s, row);
    }
  }

  lemma ColDetourLength(m: Loc, s: Loc, row: int)
    ensures |ColDetour(m, s, row).walked| == Abs(s.1 - m.1) + Abs(s.0 - m.0) + 1
  {
    var h, v := Dir(m.1, s.1), Dir(m.0, s.0);
    var mid := (m.0 + s.0) / 2;
    var xs1, xs2, xs3 := PyRange(m.0 + v, mid + v, v), PyRange(m.1, s.1 + h, h), PyRange(mid, s.0, v);
    assert |ColDetour(m, s, row).walked| == |Line(V, m.1, xs1)| + |Line(H, mid, xs2)| + |Line(V, s.1, xs3)|;
    HalvesLength(m.0, s.0);
    CrossLength(m.1, s.1);
  }

  lemma ColDetourAligned(m: Loc, s: Loc, row: int)
    requires (m.0 + s.0) / 2 != m.0
    ensures Paths.Aligned(ColDetour(m, s, row).route)
  {
    var mid := (m.0 + s.0) / 2;
    HalfEnd(m.0, s.0, Some(row));
    CrossEnd(m.1, s.1, Some(m.1));
    var w := ColDetour(m, s, row).route;
    assert w[1] == (mid, m.1) && w[2] == (mid, s.1);
  }

  /** The first and third hop of a detour together walk from `a` to `b`,
      turning at the midpoint. */
  lemma HalvesLength(a: int, b: int)
    ensures var h, mid := Dir(a, b), (a + b) / 2;
            |PyRange(a + h, mid + h, h)| + |PyRange(mid, b, h)| == Abs(b - a)
  {
    var mid := (a + b) / 2;
    if a < b {
      assert a <= mid < b;
    } else {
      assert b <= mid <= a;
    }
  }

  /** A first hop that moves at all ends at the midpoint. */
  lemma HalfEnd(a: int, b: int, o: Option<int>)
    requires (a + b) / 2 != a
    ensures var h, mid := Dir(a, b), (a + b) / 2;
            After(PyRange(a + h, mid + h, h), o) == Some(mid)
  {
    var mid := (a + b) / 2;
    if a < b {
      assert a <= mid < b;
    } else {
      assert b <= mid <= a;
    }
  }

  /** The middle hop of a detour walks from `a` to `b`, both included. */
  lemma CrossLength(a: int, b: int)
    ensures var v := Dir(a, b);
            |PyRange(a, b + v, v)| == Abs(b - a) + 1
  {
  }

  lemma CrossEnd(a: int, b: int, o: Option<int>)
    ensures var v := Dir(a, b);
            After(PyRange(a, b + v, v), o) == Some(b)
  {
    assert PyRange(a, b + Dir(a, b), Dir(a, b))[Abs(b - a)] == b;
  }

  /** As written, the detour between master (2, 0) and slave (1, 4) counts
      no cell on its third hop: it walks four cells where the ports are six
      cells apart counting both middle ends. */
  lemma DetourCounterexample()
    ensures |Detour((2, 0), (1, 4), true, false, 0, 0).walked| == 4
    ensures |Detour((2, 0), (1, 4), true, true, 0, 0).walked| == 6
  {
    assert |PyRange(2, 4, -1)| == 0;
    assert |PyRange(2, 4, 1)| == 2;
  }

  // ------------------------------------------------------------- marking

  /** The cells hop `i` of a route raises: from one waypoint to the next
      along the hop's axis, both included, except the master port at the
      start of the first hop and the slave port at the end of the last. */
  function HopCells(w: seq<Loc>, i: nat): (r: seq<int>)
    requires i + 1 < |w|
  {
    var a := HopAxis(w[i], w[i + 1]);
    var dir := Dir(Pos(w[i], a), Pos(w[i + 1], a));
    var start := Pos(w[i], a) + (if i == 0 then dir else 0);
    var end := Pos(w[i + 1], a) - (if i + 2 == |w| then dir else 0);
    PyRange(start, end + dir, dir)
  }

  function HopBumps(w: seq<Loc>, i: nat): seq<(Loc, Axis)>
    requires i + 1 < |w|
  {
    var a := HopAxis(w[i], w[i + 1]);
    Line(a, Fix(w[i], a), HopCells(w, i))
  }

  /** Every bump of the hops from `i` on, in order. */
  function RouteBumps(w: seq<Loc>, i: nat): seq<(Loc, Axis)>
    decreases |w| - i
  {
    if i + 1 >= |w| then [] else HopBumps(w, i) + RouteBumps(w, i + 1)
  }

  /** `loc` after the marking loops of hops `i` on. */
  function MarkLoc(w: seq<Loc>, i: nat, loc: Option<int>): Option<int>
    decreases |w| - i
  {
    if i + 1 >= |w| then loc else MarkLoc(w, i + 1, After(HopCells(w, i), loc))
  }

  /** Between `p` and `q` on the line they share. */
  predicate Between(l: Loc, p: Loc, q: Loc) {
    (p.0 <= l.0 <= q.0 || q.0 <= l.0 <= p.0) && (p.1 <= l.1 <= q.1 || q.1 <= l.1 <= p.1)
  }

  /** On a hop between two distinct waypoints in line, every raised cell
      lies on the hop, the first hop spares the master port and the last
      hop spares the slave port, and the hop raises the counter of its own
      direction. */
  lemma HopOnSegment(w: seq<Loc>, i: nat)
    requires i + 1 < |w| && w[i] != w[i + 1] && (w[i].0 == w[i + 1].0 || w[i].1 == w[i + 1].1)
    ensures var bs := HopBumps(w, i);
            forall k :: 0 <= k < |bs| ==>
              && Between(bs[k].0, w[i], w[i + 1])
              && bs[k].1 == HopAxis(w[i], w[i + 1])
              && (i == 0 ==> bs[k].0 != w[0])
              && (i + 2 == |w| ==> bs[k].0 != w[|w| - 1])
  {
    var a := HopAxis(w[i], w[i + 1]);
    var xs := HopCells(w, i);
    var dir := Dir(Pos(w[i], a), Pos(w[i + 1], a));
    assert Fix(w[i], a) == Fix(w[i + 1], a);
    assert Pos(w[i], a) != Pos(w[i + 1], a);
    forall k | 0 <= k < |xs|
      ensures (Pos(w[i], a) <= xs[k] <= Pos(w[i + 1], a) || Pos(w[i + 1], a) <= xs[k] <= Pos(w[i], a))
      ensures i == 0 ==> xs[k] != Pos(w[i], a)
      ensures i + 2 == |w| ==> xs[k] != Pos(w[i + 1], a)
    {
    }
  }

  // ---------------------------------------------------------- connections

  /** The loop variables the code reads after loops that may not have run:
      `loc` (unbound until the first loop over it) and `row`, `col`. */
  datatype Vars = Vars(loc: Option<int>, row: int, col: int)

  /** The fallback: the detour through the middle of the coarse row or
      column master and slave share, tallied; ports in neither raise. */
  function Fallback(g: Grid, rows: nat, cols: nat, cells: seq<Loc>, m: Loc, s: Loc, fixed: bool, vs: Vars)
    : (r: Result<(Cand, Vars)>)
    requires IsRect(g, rows, cols) && |cells| >= 2
    ensures r.Ok? ==> var w := r.value.0.route; |w| == 4 && w[0] == m && w[3] == s
  {
    if cells[0].0 != cells[|cells| - 1].0 && cells[0].1 != cells[|cells| - 1].1 then
      Err("Unable to route connection")
    else
      var p := Detour(m, s, cells[0].0 == cells[|cells| - 1].0, fixed, vs.row, vs.col);
      var t :- Tally(g, rows, cols, p.walked);
      Ok((Cand(p.route, t, |p.walked|), Vars(vs.loc, p.row, p.col)))
  }

  /** The ports a coarse route joins, in fine-grid cells. */
  function Ends(f: Frame, p: CoarsePath): (r: Result<(Loc, Loc)>)
    ensures r.Ok? ==> |p.cells| >= 2
  {
    if |p.cells| < 2 then Err("IndexError")
    else
      var m :- PortCell(f, p.cells[0], p.mOff);
      var s :- PortCell(f, p.cells[|p.cells| - 1], p.sOff);
      Ok((m, s))
  }

  /** `w` runs from the master port of `p` to its slave port. */
  predicate Joined(f: Frame, p: CoarsePath, w: seq<Loc>) {
    Ends(f, p).Ok? && |w| >= 2 && w[0] == Ends(f, p).value.0 && w[|w| - 1] == Ends(f, p).value.1
  }

  /** The route chosen for one connection before it is marked. */
  function Choose(f: Frame, g: Grid, p: CoarsePath, fixed: bool, vs: Vars): (r: Result<(seq<Loc>, Vars)>)
    requires IsRect(g, f.Rows(), f.Cols())
    ensures r.Ok? ==> Ends(f, p).Ok?
  {
    var ends :- Ends(f, p);
    var m, s, n := ends.0, ends.1, |p.cells|;
    var prog :- Segments(f, g, p.cells, 0, [Entry(m, 0, 0, [])], vs.loc);
    var a := HopAxis(p.cells[n - 2], p.cells[n - 1]);
    var cands :- Candidates(g, f.Rows(), f.Cols(), prog.0, a, Dir(Pos(p.cells[n - 2], a), Pos(p.cells[n - 1], a)), s, fixed, prog.1);
    Pick(g, f.Rows(), f.Cols(), p.cells, m, s, fixed, cands.0, Vars(cands.1, vs.row, vs.col))
  }

  /** The best candidate, or the fallback route when there is none. */
  function Pick(g: Grid, rows: nat, cols: nat, cells: seq<Loc>, m: Loc, s: Loc, fixed: bool, cs: seq<Cand>, vs: Vars)
    : (r: Result<(seq<Loc>, Vars)>)
    requires IsRect(g, rows, cols) && |cells| >= 2
    ensures r.Ok? && Finishes(cs, m, s) ==> |r.value.0| >= 2 && r.value.0[0] == m && r.value.0[|r.value.0| - 1] == s
  {
    match Best(cs)
    case Some(b) => Ok((cs[b].route, vs))
    case None =>
      var fb :- Fallback(g, rows, cols, cells, m, s, fixed, vs);
      Ok((fb.0.route, fb.1))
  }

  /** The chosen route runs from the master port to the slave port. */
  lemma ChooseJoins(f: Frame, g: Grid, p: CoarsePath, fixed: bool, vs: Vars)
    requires IsRect(g, f.Rows(), f.Cols()) && Choose(f, g, p, fixed, vs).Ok?
    ensures Joined(f, p, Choose(f, g, p, fixed, vs).value.0)
  {
    var ends := Ends(f, p).value;
    var m, s, n := ends.0, ends.1, |p.cells|;
    var es := [Entry(m, 0, 0, [])];
    var prog := Segments(f, g, p.cells, 0, es, vs.loc).value;
    SegmentsRooted(f, g, p.cells, 0, es, vs.loc, m);
    var a := HopAxis(p.cells[n - 2], p.cells[n - 1]);
    var dir := Dir(Pos(p.cells[n - 2], a), Pos(p.cells[n - 1], a));
    var cands := Candidates(g, f.Rows(), f.Cols(), prog.0, a, dir, s, fixed, prog.1).value;
    CandidatesRooted(g, f.Rows(), f.Cols(), prog.0, a, dir, s, fixed, prog.1, m);
  }

  /** One connection: choose its route, then raise the counters along it
      so that later connections see it. */
  function RouteOne(f: Frame, g: Grid, p: CoarsePath, fixed: bool, vs: Vars): (r: Result<(seq<Loc>, Grid, Vars)>)
    requires IsRect(g, f.Rows(), f.Cols())
    ensures r.Ok? ==> Joined(f, p, r.value.0)
    ensures r.Ok? ==> BumpedBy(g, r.value.1, f.Rows(), f.Cols(), RouteBumps(r.value.0, 0))
  {
    var c :- Choose(f, g, p, fixed, vs);
    ChooseJoins(f, g, p, fixed, vs);
    var g1 :- BumpAll(g, f.Rows(), f.Cols(), RouteBumps(c.0, 0));
    Ok((c.0, g1, Vars(MarkLoc(c.0, 0, c.1.loc), c.1.row, c.1.col)))
  }

  /** Once a route is chosen, marking it fails exactly when one of its
      cells is not on the wire grid. */
  lemma RouteOneMarks(f: Frame, g: Grid, p: CoarsePath, fixed: bool, vs: Vars)
    requires IsRect(g, f.Rows(), f.Cols()) && Choose(f, g, p, fixed, vs).Ok?
    ensures RouteOne(f, g, p, fixed, vs).Ok? <==> AllOnWire(g, f.Rows(), f.Cols(), RouteBumps(Choose(f, g, p, fixed, vs).value.0, 0))
  {
  }

  /** The bumps of every route, in order. */
  function AllRouteBumps(ws: seq<seq<Loc>>): seq<(Loc, Axis)>
    decreases |ws|
  {
    if |ws| == 0 then [] else RouteBumps(ws[0], 0) + AllRouteBumps(ws[1..])
  }

  /** The master and slave port of every connection are the ends of its
      route. */
  predicate Joins(f: Frame, ps: seq<CoarsePath>, ws: seq<seq<Loc>>) {
    |ws| == |ps| && forall k :: 0 <= k < |ps| ==> Joined(f, ps[k], ws[k])
  }

  lemma JoinsCons(f: Frame, p: CoarsePath, ps: seq<CoarsePath>, w: seq<Loc>, ws: seq<seq<Loc>>)
    requires Joined(f, p, w) && Joins(f, ps, ws)
    ensures Joins(f, [p] + ps, [w] + ws)
  {
    var ps1, ws1 := [p] + ps, [w] + ws;
    forall k | 1 <= k < |ps1| ensures ws1[k] == ws[k - 1] && ps1[k] == ps[k - 1] { }
  }

  /** Every connection in order, each seeing the wires of those before. */
  function RouteAll(f: Frame, g: Grid, ps: seq<CoarsePath>, fixed: bool, vs: Vars): (r: Result<(seq<seq<Loc>>, Grid)>)
    requires IsRect(g, f.Rows(), f.Cols())
    ensures r.Ok? ==> Joins(f, ps, r.value.0)
    ensures r.Ok? ==> BumpedBy(g, r.value.1, f.Rows(), f.Cols(), AllRouteBumps(r.value.0))
    decreases |ps|
  {
    if |ps| == 0 then Ok(([], g))
    else
      var one :- RouteOne(f, g, ps[0], fixed, vs);
      var rest :- RouteAll(f, one.1, ps[1..], fixed, one.2);
      RouteAllStep(f, g, one.1, rest.1, ps, one.0, rest.0);
      Ok(([one.0] + rest.0, rest.1))
  }

  /** A first route and the rest join and bump as the whole list does. */
  lemma RouteAllStep(f: Frame, g: Grid, g1: Grid, g2: Grid, ps: seq<CoarsePath>, w: seq<Loc>, ws: seq<seq<Loc>>)
    requires IsRect(g, f.Rows(), f.Cols()) && |ps| > 0
    requires Joined(f, ps[0], w) && BumpedBy(g, g1, f.Rows(), f.Cols(), RouteBumps(w, 0))
    requires Joins(f, ps[1..], ws) && BumpedBy(g1, g2, f.Rows(), f.Cols(), AllRouteBumps(ws))
    ensures Joins(f, ps, [w] + ws)
    ensures BumpedBy(g, g2, f.Rows(), f.Cols(), AllRouteBumps([w] + ws))
  {
    JoinsCons(f, ps[0], ps[1..], w, ws);
    assert [ps[0]] + ps[1..] == ps;
    assert ([w] + ws)[1..] == ws;
    BumpedByThen(g, g1, g2, f.Rows(), f.Cols(), RouteBumps(w, 0), AllRouteBumps(ws));
  }

  /** The loop variables left by building the fine grid: `row` and `col`
      end at the last coarse row and column, or at the sums of the sizes
      when a loop over them never ran. */
  function BuiltVars(f: Frame): (r: Vars)
    ensures r.loc.None?
  {
    Vars(None, if |f.rs| > 0 then |f.rs| - 1 else f.Rows(),
         if |f.rs| > 0 && |f.cs| > 0 then |f.cs| - 1 else f.Cols())
  }

  /** Build the fine grid, then route every coarse route on it: each fine
      route joins its connection's master and slave ports, and the grid
      ends up carrying exactly the wires of all routes. */
  function FineRouting(f: Frame, t: Block, ps: seq<CoarsePath>, fixed: bool): (r: Result<(seq<seq<Loc>>, Grid)>)
    ensures r.Ok? ==> FineGrid(f, t).Ok? && Joins(f, ps, r.value.0)
    ensures r.Ok? ==> BumpedBy(FineGrid(f, t).value, r.value.1, f.Rows(), f.Cols(), AllRouteBumps(r.value.0))
  {
    var g :- FineGrid(f, t);
    RouteAll(f, g, ps, fixed, BuiltVars(f))
  }

  /** `route_in_fine_grid`: the fine routes, one per connection. */
  function RouteInFineGrid(f: Frame, t: Block, ps: seq<CoarsePath>, fixed: bool): (r: Result<seq<seq<Loc>>>)
    ensures r.Ok? ==> Joins(f, ps, r.value)
  {
    var res :- FineRouting(f, t, ps, fixed);
    Ok(res.0)
  }
}
