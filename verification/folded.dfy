/** The folded torus generator (`generate` in src/generate_folded_torus.py).
    Along every row, and along every column, the tiles form one ring that
    visits the even positions going up and the odd positions coming back,
    so that no link spans more than two tiles. Unidirectional rings use
    port 0 (rows) and port 1 (columns); bidirectional ones add the reverse
    ring on ports 2 and 3. */
module Folded {
  import opened Wrappers
  import opened Coarse
  import opened Topology

  /** North then east, plus the two reverse ports when bidirectional. */
  function FoldedPorts(bidir: bool): (p: Ports)
    ensures |p.ms| == |p.ss| == (if bidir then 4 else 2)
    ensures forall i :: 0 <= i < |p.ms| ==> p.ms[i].face == p.ss[i].face && p.ms[i].align == -p.ss[i].align
  {
    Ports([Want("north", -1), Want("east", -1)] + (if bidir then [Want("north", 1), Want("east", 1)] else []),
          [Want("north", 1), Want("east", 1)] + (if bidir then [Want("north", -1), Want("east", -1)] else []))
  }

  /** A hop along one row or column, between two positions of it; `back`
      marks the hop of the reverse ring. */
  datatype Hop = Hop(src: int, dst: int, back: bool)

  /** What the inner loop appends at position `i` of a line of `n` tiles. */
  function Step(n: nat, bidir: bool, i: int): seq<Hop> {
    (if i % 2 == 0 && i < n - 2 then [Hop(i, i + 2, false)] + (if bidir then [Hop(i + 2, i, true)] else []) else [])
      + (if i % 2 == 1 && i > 1 then [Hop(i, i - 2, false)] + (if bidir then [Hop(i - 2, i, true)] else []) else [])
  }

  /** The two turns at the ends of the line. */
  function Edge(n: nat, bidir: bool): seq<Hop> {
    [Hop(1, 0, false), Hop(n - 2, n - 1, false)]
      + (if bidir then [Hop(0, 1, true), Hop(n - 1, n - 2, true)] else [])
  }

  function Steps(n: nat, bidir: bool): seq<Hop> {
    Flat(seq(n, i => Step(n, bidir, i)))
  }

  /** The hops of one row (or column) of `n` tiles, in the generator's order. */
  function Line(n: nat, bidir: bool): seq<Hop> {
    Steps(n, bidir) + Edge(n, bidir)
  }

  function RowLink(row: int, h: Hop): Request {
    var p := if h.back then 2 else 0;
    Link(row, h.src, p, row, h.dst, p)
  }

  function ColLink(col: int, h: Hop): Request {
    var p := if h.back then 3 else 1;
    Link(h.src, col, p, h.dst, col, p)
  }

  function RowLinks(row: int, hs: seq<Hop>): seq<Request> {
    seq(|hs|, k requires 0 <= k < |hs| => RowLink(row, hs[k]))
  }

  function ColLinks(col: int, hs: seq<Hop>): seq<Request> {
    seq(|hs|, k requires 0 <= k < |hs| => ColLink(col, hs[k]))
  }

  /** Row rings row by row, then column rings column by column. */
  function Links(rows: nat, cols: nat, bidir: bool): seq<Request> {
    Flat(seq(rows, row => RowLinks(row, Line(cols, bidir))))
      + Flat(seq(cols, col => ColLinks(col, Line(rows, bidir))))
  }

  /** `config` is `[bidirectional]`; an empty config is fatal. */
  function Generate(rows: nat, cols: nat, config: seq<bool>): (r: Result<Net>)
    ensures r.Ok? <==> |config| >= 1
    ensures r.Ok? ==> r.value == Net(FoldedPorts(config[0]), Links(rows, cols, config[0]))
  {
    if |config| < 1 then Err("Config format: [<bidirectional>]")
    else Ok(Net(FoldedPorts(config[0]), Links(rows, cols, config[0])))
  }

  // ------------------------------------------------------------ one line

  /** The position the forward ring goes to from `i`: up the even
      positions, across at the far end, down the odd ones, and back to 0. */
  function Next(n: nat, i: int): int {
    if i % 2 == 0 then (if i < n - 2 then i + 2 else i + 1)
    else (if i > 1 then i - 2 else i - 1)
  }

  /** The position the forward ring comes to `j` from. */
  function Prev(n: nat, j: int): int {
    if j % 2 == 0 then (if j >= 2 then j - 2 else 1)
    else (if j < n - 1 then j + 2 else n - 2)
  }

  /** The `k`-th position of the tour that starts at 0. */
  function Tour(n: nat, k: int): int {
    if k < n / 2 then 2 * k else 2 * (n - k) - 1
  }

  lemma StepMembers(n: nat, bidir: bool)
    ensures forall h :: h in Steps(n, bidir) <==> exists i :: 0 <= i < n && h in Step(n, bidir, i)
  {
    var bs := seq(n, i => Step(n, bidir, i));
    FlatMembers(bs);
    assert forall i :: 0 <= i < n ==> bs[i] == Step(n, bidir, i);
  }

  /** On a line of even length the forward hops are exactly `i` to
      `Next(n, i)`, one for every position. */
  lemma ForwardHops(n: nat, bidir: bool)
    requires n >= 2 && n % 2 == 0
    ensures forall a, b :: Hop(a, b, false) in Line(n, bidir) <==> 0 <= a < n && b == Next(n, a)
  {
    StepMembers(n, bidir);
    forall a, b | Hop(a, b, false) in Line(n, bidir) ensures 0 <= a < n && b == Next(n, a) {
      if Hop(a, b, false) in Steps(n, bidir) {
        var i :| 0 <= i < n && Hop(a, b, false) in Step(n, bidir, i);
        StepForward(n, bidir, i, a, b);
      } else {
        assert Hop(a, b, false) in Edge(n, bidir);
      }
    }
    forall a | 0 <= a < n ensures Hop(a, Next(n, a), false) in Line(n, bidir) {
      ForwardPresent(n, bidir, a);
    }
  }

  lemma StepForward(n: nat, bidir: bool, i: int, a: int, b: int)
    requires n >= 2 && n % 2 == 0 && 0 <= i < n && Hop(a, b, false) in Step(n, bidir, i)
    ensures 0 <= a < n && b == Next(n, a)
  {
  }

  lemma ForwardPresent(n: nat, bidir: bool, a: int)
    requires n >= 2 && n % 2 == 0 && 0 <= a < n
    ensures Hop(a, Next(n, a), false) in Line(n, bidir)
  {
    if (a % 2 == 0 && a < n - 2) || (a % 2 == 1 && a > 1) {
      StepMembers(n, bidir);
      assert Hop(a, Next(n, a), false) in Step(n, bidir, a);
    } else {
      assert Hop(a, Next(n, a), false) in Edge(n, bidir);
    }
  }

  /** The reverse ring has exactly the forward hops turned round, and only
      when bidirectional. */
  lemma BackHops(n: nat, bidir: bool)
    ensures forall a, b :: Hop(a, b, true) in Line(n, bidir) <==> bidir && Hop(b, a, false) in Line(n, bidir)
  {
    StepMembers(n, bidir);
    forall i | 0 <= i < n {
      StepBack(n, bidir, i);
    }
    forall a, b | Hop(a, b, true) in Line(n, bidir) ensures bidir && Hop(b, a, false) in Line(n, bidir) {
      if Hop(a, b, true) in Steps(n, bidir) {
        var i :| 0 <= i < n && Hop(a, b, true) in Step(n, bidir, i);
      }
    }
    forall a, b | bidir && Hop(b, a, false) in Line(n, bidir) ensures Hop(a, b, true) in Line(n, bidir) {
      if Hop(b, a, false) in Steps(n, bidir) {
        var i :| 0 <= i < n && Hop(b, a, false) in Step(n, bidir, i);
      }
    }
  }

  lemma StepBack(n: nat, bidir: bool, i: int)
    ensures forall a, b :: Hop(a, b, true) in Step(n, bidir, i) <==> bidir && Hop(b, a, false) in Step(n, bidir, i)
    ensures forall a, b :: Hop(a, b, true) in Edge(n, bidir) <==> bidir && Hop(b, a, false) in Edge(n, bidir)
  {
  }

  /** No hop spans more than two positions, and on a line of at least two
      tiles every hop stays on it. */
  lemma HopsNear(n: nat, bidir: bool)
    ensures forall h :: h in Line(n, bidir) ==> h.dst - h.src in {-2, -1, 1, 2}
    ensures n >= 2 ==> forall h :: h in Line(n, bidir) ==> 0 <= h.src < n && 0 <= h.dst < n
  {
    StepMembers(n, bidir);
  }

  /** `Next` is a permutation of the positions, with inverse `Prev`. */
  lemma NextPermutes(n: nat, i: int)
    requires n >= 2 && n % 2 == 0 && 0 <= i < n
    ensures 0 <= Next(n, i) < n && Prev(n, Next(n, i)) == i
    ensures 0 <= Prev(n, i) < n && Next(n, Prev(n, i)) == i
  {
  }

  /** Following `Next` from position 0 walks the tour, which comes back to
      0 after `n` hops and passes every position exactly once. */
  lemma TourCycle(n: nat)
    requires n >= 2 && n % 2 == 0
    ensures Tour(n, 0) == 0
    ensures forall k :: 0 <= k < n ==> 0 <= Tour(n, k) < n && Next(n, Tour(n, k)) == Tour(n, if k == n - 1 then 0 else k + 1)
    ensures forall k, l :: 0 <= k < l < n ==> Tour(n, k) != Tour(n, l)
  {
    forall k | 0 <= k < n ensures 0 <= Tour(n, k) < n && Next(n, Tour(n, k)) == Tour(n, if k == n - 1 then 0 else k + 1) {
      TourStep(n, k);
    }
    forall k, l | 0 <= k < l < n ensures Tour(n, k) != Tour(n, l) {
      TourParity(n, k);
      TourParity(n, l);
    }
  }

  /** The first half of the tour is the even positions, the second half
      the odd ones. */
  lemma TourParity(n: nat, k: int)
    requires n >= 2 && n % 2 == 0 && 0 <= k < n
    ensures k < n / 2 ==> Tour(n, k) == 2 * k && Tour(n, k) % 2 == 0
    ensures k >= n / 2 ==> Tour(n, k) == 2 * (n - k) - 1 && Tour(n, k) % 2 == 1
    ensures 0 <= Tour(n, k) < n
  {
  }

  lemma TourStep(n: nat, k: int)
    requires n >= 2 && n % 2 == 0 && 0 <= k < n
    ensures 0 <= Tour(n, k) < n && Next(n, Tour(n, k)) == Tour(n, if k == n - 1 then 0 else k + 1)
  {
    TourParity(n, k);
    if k == n - 1 {
      assert Tour(n, k) == 1 && Next(n, 1) == 0;
    } else {
      TourParity(n, k + 1);
      TourInner(n, k);
    }
  }

  lemma TourInner(n: nat, k: int)
    requires n >= 2 && n % 2 == 0 && 0 <= k < n - 1
    ensures Next(n, Tour(n, k)) == Tour(n, k + 1)
  {
    var m := n / 2;
    assert n == 2 * m;
    TourParity(n, k);
    TourParity(n, k + 1);
    if k < m - 1 {
      assert Next(n, 2 * k) == 2 * k + 2;
    } else if k == m - 1 {
      assert Next(n, n - 2) == n - 1;
    } else {
      var t := 2 * (n - k) - 1;
      assert t % 2 == 1 && t > 1;
      assert Next(n, t) == t - 2;
    }
  }

  /** On a line of odd length at least 3, position n-2 has two forward
      hops: the inner step and the turn to n-1. */
  lemma OddLineTwice(n: nat, bidir: bool)
    requires n >= 3 && n % 2 == 1
    ensures Hop(n - 2, n - 1, false) in Line(n, bidir)
    ensures Hop(n - 2, if n == 3 then 0 else n - 4, false) in Line(n, bidir)
  {
    if n == 3 {
      assert Hop(1, 0, false) in Edge(n, bidir);
    } else {
      StepMembers(n, bidir);
      assert Hop(n - 2, n - 4, false) in Step(n, bidir, n - 2);
    }
  }

  // ------------------------------------------------------------- the chip

  lemma LinksMembers(rows: nat, cols: nat, bidir: bool)
    ensures forall q :: q in Links(rows, cols, bidir) <==>
              (exists row, h :: 0 <= row < rows && h in Line(cols, bidir) && q == RowLink(row, h))
              || (exists col, h :: 0 <= col < cols && h in Line(rows, bidir) && q == ColLink(col, h))
  {
    var rs := seq(rows, row => RowLinks(row, Line(cols, bidir)));
    var cs := seq(cols, col => ColLinks(col, Line(rows, bidir)));
    FlatMembers(rs);
    FlatMembers(cs);
    assert forall row :: 0 <= row < rows ==> rs[row] == RowLinks(row, Line(cols, bidir));
    assert forall col :: 0 <= col < cols ==> cs[col] == ColLinks(col, Line(rows, bidir));
    forall q | q in Links(rows, cols, bidir)
      ensures (exists row, h :: 0 <= row < rows && h in Line(cols, bidir) && q == RowLink(row, h))
              || (exists col, h :: 0 <= col < cols && h in Line(rows, bidir) && q == ColLink(col, h))
    {
      if q in Flat(rs) {
        var row :| 0 <= row < rows && q in rs[row];
        var k :| 0 <= k < |Line(cols, bidir)| && q == RowLink(row, Line(cols, bidir)[k]);
        assert Line(cols, bidir)[k] in Line(cols, bidir);
      } else {
        var col :| 0 <= col < cols && q in cs[col];
        var k :| 0 <= k < |Line(rows, bidir)| && q == ColLink(col, Line(rows, bidir)[k]);
        assert Line(rows, bidir)[k] in Line(rows, bidir);
      }
    }
    forall q, row, h | 0 <= row < rows && h in Line(cols, bidir) && q == RowLink(row, h) ensures q in Links(rows, cols, bidir) {
      var k :| 0 <= k < |Line(cols, bidir)| && Line(cols, bidir)[k] == h;
      assert q == rs[row][k];
    }
    forall q, col, h | 0 <= col < cols && h in Line(rows, bidir) && q == ColLink(col, h) ensures q in Links(rows, cols, bidir) {
      var k :| 0 <= k < |Line(rows, bidir)| && Line(rows, bidir)[k] == h;
      assert q == cs[col][k];
    }
  }

  /** With an even number of columns, every tile of a row has exactly one
      forward row link on port 0, to column `Next(cols, c)`. */
  lemma FoldedRows(rows: nat, cols: nat, bidir: bool, row: int, c: int, d: int)
    requires cols >= 2 && cols % 2 == 0 && 0 <= row < rows
    ensures Link(row, c, 0, row, d, 0) in Links(rows, cols, bidir) <==> 0 <= c < cols && d == Next(cols, c)
  {
    LinksMembers(rows, cols, bidir);
    ForwardHops(cols, bidir);
    if 0 <= c < cols && d == Next(cols, c) {
      assert Link(row, c, 0, row, d, 0) == RowLink(row, Hop(c, d, false));
    }
  }

  /** With an even number of rows, every tile of a column has exactly one
      forward column link on port 1, to row `Next(rows, r)`. */
  lemma FoldedCols(rows: nat, cols: nat, bidir: bool, col: int, r: int, s: int)
    requires rows >= 2 && rows % 2 == 0 && 0 <= col < cols
    ensures Link(r, col, 1, s, col, 1) in Links(rows, cols, bidir) <==> 0 <= r < rows && s == Next(rows, r)
  {
    LinksMembers(rows, cols, bidir);
    ForwardHops(rows, bidir);
    if 0 <= r < rows && s == Next(rows, r) {
      assert Link(r, col, 1, s, col, 1) == ColLink(col, Hop(r, s, false));
    }
  }

  /** The links on ports 2 and 3 are exactly the port-0 and port-1 links
      turned round, and there are none unless bidirectional. */
  lemma FoldedBack(rows: nat, cols: nat, bidir: bool, q: Request)
    ensures q.m.port == 2 ==> (q in Links(rows, cols, bidir) <==>
              bidir && q.s.port == 2 && Request(End(q.s.row, q.s.col, 0), End(q.m.row, q.m.col, 0)) in Links(rows, cols, bidir))
    ensures q.m.port == 3 ==> (q in Links(rows, cols, bidir) <==>
              bidir && q.s.port == 3 && Request(End(q.s.row, q.s.col, 1), End(q.m.row, q.m.col, 1)) in Links(rows, cols, bidir))
  {
    if q.m.port == 2 {
      RowBack(rows, cols, bidir, q);
    } else if q.m.port == 3 {
      ColBack(rows, cols, bidir, q);
    }
  }

  lemma RowBack(rows: nat, cols: nat, bidir: bool, q: Request)
    requires q.m.port == 2
    ensures q in Links(rows, cols, bidir) <==>
              bidir && q.s.port == 2 && Request(End(q.s.row, q.s.col, 0), End(q.m.row, q.m.col, 0)) in Links(rows, cols, bidir)
  {
    LinksMembers(rows, cols, bidir);
    BackHops(cols, bidir);
    var f := Request(End(q.s.row, q.s.col, 0), End(q.m.row, q.m.col, 0));
    if q in Links(rows, cols, bidir) {
      var row, h :| 0 <= row < rows && h in Line(cols, bidir) && q == RowLink(row, h);
      assert f == RowLink(row, Hop(h.dst, h.src, false));
    }
    if bidir && q.s.port == 2 && f in Links(rows, cols, bidir) {
      var row, h :| 0 <= row < rows && h in Line(cols, bidir) && f == RowLink(row, h);
      assert q == RowLink(row, Hop(h.dst, h.src, true));
    }
  }

  lemma ColBack(rows: nat, cols: nat, bidir: bool, q: Request)
    requires q.m.port == 3
    ensures q in Links(rows, cols, bidir) <==>
              bidir && q.s.port == 3 && Request(End(q.s.row, q.s.col, 1), End(q.m.row, q.m.col, 1)) in Links(rows, cols, bidir)
  {
    LinksMembers(rows, cols, bidir);
    BackHops(rows, bidir);
    var f := Request(End(q.s.row, q.s.col, 1), End(q.m.row, q.m.col, 1));
    if q in Links(rows, cols, bidir) {
      var col, h :| 0 <= col < cols && h in Line(rows, bidir) && q == ColLink(col, h);
      assert f == ColLink(col, Hop(h.dst, h.src, false));
    }
    if bidir && q.s.port == 3 && f in Links(rows, cols, bidir) {
      var col, h :| 0 <= col < cols && h in Line(rows, bidir) && f == ColLink(col, h);
      assert q == ColLink(col, Hop(h.dst, h.src, true));
    }
  }

  /** Every link stays in one row (ports 0 and 2) or one column (ports 1
      and 3) and spans one or two tiles; on an array of at least 2 x 2 it
      never leaves the array. */
  lemma FoldedNear(rows: nat, cols: nat, bidir: bool)
    ensures forall q :: q in Links(rows, cols, bidir) ==>
              q.m.port == q.s.port
              && (q.m.port in {0, 2} ==> q.m.row == q.s.row && q.s.col - q.m.col in {-2, -1, 1, 2})
              && (q.m.port in {1, 3} ==> q.m.col == q.s.col && q.s.row - q.m.row in {-2, -1, 1, 2})
    ensures rows >= 2 && cols >= 2 ==> forall q :: q in Links(rows, cols, bidir) ==>
              0 <= q.m.row < rows && 0 <= q.m.col < cols && 0 <= q.s.row < rows && 0 <= q.s.col < cols
  {
    LinksMembers(rows, cols, bidir);
    HopsNear(cols, bidir);
    HopsNear(rows, bidir);
  }

  /** With an odd number of columns (at least 3) the tile in column
      cols-2 has two port-0 links, so `validate_connections` rejects the
      list. */
  lemma FoldedOddRejected(rows: nat, cols: nat, bidir: bool)
    requires rows >= 1 && cols >= 3 && cols % 2 == 1
    ensures ValidateConnections(Links(rows, cols, bidir)).Fail?
  {
    OddLineTwice(cols, bidir);
    LinksMembers(rows, cols, bidir);
    var a := RowLink(0, Hop(cols - 2, cols - 1, false));
    var b := RowLink(0, Hop(cols - 2, if cols == 3 then 0 else cols - 4, false));
    SharedMasterRejected(Links(rows, cols, bidir), a, b);
  }
}
