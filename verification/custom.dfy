/** The custom generator (`generate` in src/generate_custom.py): a mesh as
    base network, and for every column hop `h` an extra pair of networks
    in each column that link row `j` with row `j + h` (one per direction),
    and likewise for every row hop along each row. */
module Custom {
  import opened Wrappers
  import opened Coarse
  import opened Topology
  import Mesh

  /** The mesh ports, two east ports per column hop (ids from 4), then two
      north ports per row hop. */
  function CustomPorts(rowHops: seq<int>, colHops: seq<int>): (p: Ports)
    ensures |p.ms| == |p.ss| == 4 + 2 * |colHops| + 2 * |rowHops|
    ensures p.ms[..4] == MeshPorts.ms && p.ss[..4] == MeshPorts.ss
    ensures forall k :: 4 <= k < 4 + 2 * |colHops| ==> p.ms[k] == Want("east", -1) && p.ss[k] == Want("east", 1)
    ensures forall k :: 4 + 2 * |colHops| <= k < |p.ms| ==> p.ms[k] == Want("north", -1) && p.ss[k] == Want("north", 1)
  {
    Ports(MeshPorts.ms + seq(2 * |colHops|, _ => Want("east", -1)) + seq(2 * |rowHops|, _ => Want("north", -1)),
          MeshPorts.ss + seq(2 * |colHops|, _ => Want("east", 1)) + seq(2 * |rowHops|, _ => Want("north", 1)))
  }

  // ----------------------------------------------------------- base mesh

  /** A link and the one back. */
  function Pair(q: Request): seq<Request> {
    [q, Swap(q)]
  }

  /** Between (row, col) and (row, col+1) on ports 1 and 3. */
  function HPair(row: int, col: int): seq<Request> {
    Pair(Link(row, col, 1, row, col + 1, 3))
  }

  /** Between (row, col) and (row+1, col) on ports 0 and 2. */
  function VPair(row: int, col: int): seq<Request> {
    Pair(Link(row, col, 0, row + 1, col, 2))
  }

  function Across(cols: nat, row: int): seq<Request> {
    Flat(seq(Span(cols - 1), col => HPair(row, col)))
  }

  function Down(rows: nat, col: int): seq<Request> {
    Flat(seq(Span(rows - 1), row => VPair(row, col)))
  }

  /** The horizontal mesh links row by row, then the vertical ones column
      by column. */
  function Base(rows: nat, cols: nat): seq<Request> {
    Flat(RowLinks(rows, cols)) + Flat(ColumnLinks(rows, cols))
  }

  /** The horizontal links, one block per row. */
  function RowLinks(rows: nat, cols: nat): seq<seq<Request>> {
    seq(rows, row => Across(cols, row))
  }

  /** The vertical links, one block per column. */
  function ColumnLinks(rows: nat, cols: nat): seq<seq<Request>> {
    seq(cols, col => Down(rows, col))
  }

  // --------------------------------------------------------- hop networks

  /** One hop network in column `col` of `n` rows: row `j` to row `j + hop`
      on port `p`, and back on port `p + 1`. */
  function Jumps(n: nat, col: int, hop: int, p: int): seq<Request> {
    Flat(seq(Span(n - hop), j => [Link(j, col, p, j + hop, col, p), Link(j + hop, col, p + 1, j, col, p + 1)]))
  }

  /** All hop networks of one column; network `i` uses ports `start + 2i`
      and `start + 2i + 1`. */
  function Nets(n: nat, col: int, hops: seq<int>, start: int): seq<Request> {
    Flat(seq(|hops|, i requires 0 <= i < |hops| => Jumps(n, col, hops[i], start + 2 * i)))
  }

  /** The hop networks of `m` columns of `n` rows, column by column. */
  function Extra(n: nat, m: nat, hops: seq<int>, start: int): seq<Request> {
    Flat(seq(m, col => Nets(n, col, hops, start)))
  }

  function Flip(e: End): End {
    End(e.col, e.row, e.port)
  }

  /** Rows and columns exchanged. */
  function Transposed(qs: seq<Request>): (r: seq<Request>)
    ensures |r| == |qs| && forall k :: 0 <= k < |qs| ==> r[k] == Request(Flip(qs[k].m), Flip(qs[k].s))
  {
    seq(|qs|, k requires 0 <= k < |qs| => Request(Flip(qs[k].m), Flip(qs[k].s)))
  }

  /** The row hop networks are the column hop networks of the array with
      rows and columns exchanged: the loop over rows, hops and `j` appends
      `((row, j, p), (row, j + hop, p))` and `((row, j + hop, p + 1), (row, j, p + 1))`. */
  function Links(rows: nat, cols: nat, rowHops: seq<int>, colHops: seq<int>): seq<Request> {
    Base(rows, cols) + Extra(rows, cols, colHops, 4) + Transposed(Extra(cols, rows, rowHops, 4 + 2 * |colHops|))
  }

  /** `config` is `[row_hops, col_hops]`: fewer entries are fatal, more
      fail to unpack. */
  function Generate(rows: nat, cols: nat, config: seq<seq<int>>): (r: Result<Net>)
    ensures r.Ok? <==> |config| == 2
    ensures r.Ok? ==> r.value == Net(CustomPorts(config[0], config[1]), Links(rows, cols, config[0], config[1]))
  {
    if |config| < 2 then Err("Config format: [<row-hops>,<col-hops>]")
    else if |config| > 2 then Err("ValueError: too many values to unpack")
    else Ok(Net(CustomPorts(config[0], config[1]), Links(rows, cols, config[0], config[1])))
  }

  // ---------------------------------------------------------- membership

  /** `q` belongs to the hop network on ports `p` and `p + 1` of one
      column of `n` rows. */
  predicate InNet(n: nat, hop: int, p: int, q: Request) {
    && q.m.col == q.s.col && q.m.port == q.s.port
    && ((q.m.port == p && q.s.row == q.m.row + hop && 0 <= q.m.row < n - hop)
        || (q.m.port == p + 1 && q.m.row == q.s.row + hop && 0 <= q.s.row < n - hop))
  }

  lemma JumpsMembers(n: nat, col: int, hop: int, p: int)
    ensures forall q :: q in Jumps(n, col, hop, p) <==> q.m.col == col && InNet(n, hop, p, q)
  {
    var bs := seq(Span(n - hop), j => [Link(j, col, p, j + hop, col, p), Link(j + hop, col, p + 1, j, col, p + 1)]);
    FlatMembers(bs);
    assert forall j :: 0 <= j < |bs| ==> bs[j] == [Link(j, col, p, j + hop, col, p), Link(j + hop, col, p + 1, j, col, p + 1)];
    forall q: Request | q.m.col == col && InNet(n, hop, p, q) ensures q in Jumps(n, col, hop, p) {
      var j := if q.m.port == p then q.m.row else q.s.row;
      assert q in bs[j];
    }
  }

  lemma NetsMembers(n: nat, col: int, hops: seq<int>, start: int)
    ensures forall q :: q in Nets(n, col, hops, start) <==>
              q.m.col == col && exists i :: 0 <= i < |hops| && InNet(n, hops[i], start + 2 * i, q)
  {
    var bs: seq<seq<Request>> := seq(|hops|, i requires 0 <= i < |hops| => Jumps(n, col, hops[i], start + 2 * i));
    FlatMembers(bs);
    assert forall i :: 0 <= i < |hops| ==> bs[i] == Jumps(n, col, hops[i], start + 2 * i);
    forall i | 0 <= i < |hops| {
      JumpsMembers(n, col, hops[i], start + 2 * i);
    }
  }

  lemma ExtraMembers(n: nat, m: nat, hops: seq<int>, start: int)
    ensures forall q :: q in Extra(n, m, hops, start) <==>
              0 <= q.m.col < m && exists i :: 0 <= i < |hops| && InNet(n, hops[i], start + 2 * i, q)
  {
    var bs := seq(m, col => Nets(n, col, hops, start));
    FlatMembers(bs);
    assert forall col :: 0 <= col < m ==> bs[col] == Nets(n, col, hops, start);
    forall col | 0 <= col < m {
      NetsMembers(n, col, hops, start);
    }
    forall q: Request | 0 <= q.m.col < m && exists i :: 0 <= i < |hops| && InNet(n, hops[i], start + 2 * i, q)
      ensures q in Extra(n, m, hops, start)
    {
      assert q in bs[q.m.col];
    }
  }

  lemma TransposedMembers(qs: seq<Request>)
    ensures forall q :: q in Transposed(qs) <==> Request(Flip(q.m), Flip(q.s)) in qs
  {
    forall q: Request | Request(Flip(q.m), Flip(q.s)) in qs ensures q in Transposed(qs) {
      var k :| 0 <= k < |qs| && qs[k] == Request(Flip(q.m), Flip(q.s));
      assert Transposed(qs)[k] == q;
    }
  }

  lemma AcrossMembers(cols: nat, row: int)
    ensures forall q :: q in Across(cols, row) <==> exists col :: 0 <= col < cols - 1 && q in HPair(row, col)
  {
    var bs := seq(Span(cols - 1), col => HPair(row, col));
    FlatMembers(bs);
    assert forall col :: 0 <= col < |bs| ==> bs[col] == HPair(row, col);
  }

  lemma DownMembers(rows: nat, col: int)
    ensures forall q :: q in Down(rows, col) <==> exists row :: 0 <= row < rows - 1 && q in VPair(row, col)
  {
    var bs := seq(Span(rows - 1), row => VPair(row, col));
    FlatMembers(bs);
    assert forall row :: 0 <= row < |bs| ==> bs[row] == VPair(row, col);
  }

  /** The base network has exactly the links of the mesh generator. */
  lemma BaseIsMesh(rows: nat, cols: nat)
    ensures forall q :: q in Base(rows, cols) <==> q in Mesh.Links(rows, cols)
    ensures forall q :: q in Base(rows, cols) <==> Mesh.Vertical(rows, cols, q) || Mesh.Horizontal(rows, cols, q)
  {
    Mesh.MeshLinks(rows, cols);
    var hs := RowLinks(rows, cols);
    var vs := ColumnLinks(rows, cols);
    FlatMembers(hs);
    FlatMembers(vs);
    assert forall row :: 0 <= row < rows ==> hs[row] == Across(cols, row);
    assert forall col :: 0 <= col < cols ==> vs[col] == Down(rows, col);
    forall row | 0 <= row < rows {
      AcrossMembers(cols, row);
    }
    forall col | 0 <= col < cols {
      DownMembers(rows, col);
    }
    forall q | Mesh.Horizontal(rows, cols, q) ensures q in Base(rows, cols) {
      var col := if q.m.port == 1 then q.m.col else q.s.col;
      assert q in HPair(q.m.row, col);
      assert q in hs[q.m.row];
    }
    forall q | Mesh.Vertical(rows, cols, q) ensures q in Base(rows, cols) {
      var row := if q.m.port == 0 then q.m.row else q.s.row;
      assert q in VPair(row, q.m.col);
      assert q in vs[q.m.col];
    }
  }

  /** The whole list, by port: the mesh on ports 0 to 3, column hop
      network `i` on ports 4 + 2i and 4 + 2i + 1, and row hop network `i`
      after those. */
  lemma LinksMembers(rows: nat, cols: nat, rowHops: seq<int>, colHops: seq<int>)
    ensures forall q :: q in Links(rows, cols, rowHops, colHops) <==>
              || q in Base(rows, cols)
              || (0 <= q.m.col < cols && exists i :: 0 <= i < |colHops| && InNet(rows, colHops[i], 4 + 2 * i, q))
              || (0 <= q.m.row < rows
                  && exists i :: 0 <= i < |rowHops| && InNet(cols, rowHops[i], 4 + 2 * |colHops| + 2 * i, Request(Flip(q.m), Flip(q.s))))
  {
    ExtraMembers(rows, cols, colHops, 4);
    ExtraMembers(cols, rows, rowHops, 4 + 2 * |colHops|);
    TransposedMembers(Extra(cols, rows, rowHops, 4 + 2 * |colHops|));
  }

  /** The links on ports 0 to 3 are exactly the mesh links. */
  lemma CustomMesh(rows: nat, cols: nat, rowHops: seq<int>, colHops: seq<int>, q: Request)
    requires q.m.port < 4
    ensures q in Links(rows, cols, rowHops, colHops) <==> Mesh.Vertical(rows, cols, q) || Mesh.Horizontal(rows, cols, q)
  {
    LinksMembers(rows, cols, rowHops, colHops);
    BaseIsMesh(rows, cols);
  }

  /** The links on the ports of column hop network `i` join row `j` and
      row `j + colHops[i]` of one column, for every `j` that keeps both on
      the array: forward on port 4 + 2i, back on port 4 + 2i + 1. */
  lemma CustomColNet(rows: nat, cols: nat, rowHops: seq<int>, colHops: seq<int>, i: int, q: Request)
    requires 0 <= i < |colHops| && (q.m.port == 4 + 2 * i || q.m.port == 4 + 2 * i + 1)
    ensures q in Links(rows, cols, rowHops, colHops) <==> 0 <= q.m.col < cols && InNet(rows, colHops[i], 4 + 2 * i, q)
  {
    LinksMembers(rows, cols, rowHops, colHops);
    BaseIsMesh(rows, cols);
    if q in Links(rows, cols, rowHops, colHops) {
      if exists i' :: 0 <= i' < |colHops| && InNet(rows, colHops[i'], 4 + 2 * i', q) {
        var i' :| 0 <= i' < |colHops| && InNet(rows, colHops[i'], 4 + 2 * i', q);
        assert i' == i;
      }
    }
  }

  /** Row hop network `i` is the same along each row, on ports after the
      column hop networks: seen with rows and columns exchanged, it joins
      column `j` and column `j + rowHops[i]` of one row. */
  lemma CustomRowNet(rows: nat, cols: nat, rowHops: seq<int>, colHops: seq<int>, i: int, q: Request)
    requires 0 <= i < |rowHops|
    requires q.m.port == 4 + 2 * |colHops| + 2 * i || q.m.port == 4 + 2 * |colHops| + 2 * i + 1
    ensures q in Links(rows, cols, rowHops, colHops) <==>
              0 <= q.m.row < rows && InNet(cols, rowHops[i], 4 + 2 * |colHops| + 2 * i, Request(Flip(q.m), Flip(q.s)))
  {
    LinksMembers(rows, cols, rowHops, colHops);
    BaseIsMesh(rows, cols);
    var f := Request(Flip(q.m), Flip(q.s));
    if q in Links(rows, cols, rowHops, colHops) {
      if exists i' :: 0 <= i' < |rowHops| && InNet(cols, rowHops[i'], 4 + 2 * |colHops| + 2 * i', f) {
        var i' :| 0 <= i' < |rowHops| && InNet(cols, rowHops[i'], 4 + 2 * |colHops| + 2 * i', f);
        assert i' == i;
      }
    }
  }

  /** With no negative hop every link joins two tiles of the array on a
      port the tile has. */
  lemma CustomOnArray(rows: nat, cols: nat, rowHops: seq<int>, colHops: seq<int>)
    requires forall i :: 0 <= i < |rowHops| ==> rowHops[i] >= 0
    requires forall i :: 0 <= i < |colHops| ==> colHops[i] >= 0
    ensures forall q :: q in Links(rows, cols, rowHops, colHops) ==>
              && 0 <= q.m.row < rows && 0 <= q.m.col < cols && 0 <= q.s.row < rows && 0 <= q.s.col < cols
              && 0 <= q.m.port < |CustomPorts(rowHops, colHops).ms| && 0 <= q.s.port < |CustomPorts(rowHops, colHops).ss|
  {
    LinksMembers(rows, cols, rowHops, colHops);
    BaseIsMesh(rows, cols);
  }

  // ------------------------------------------------------ no end repeats

  lemma JumpsUnshared(n: nat, col: int, hop: int, p: int)
    ensures Unshared(Jumps(n, col, hop, p))
  {
    var bs := seq(Span(n - hop), j => [Link(j, col, p, j + hop, col, p), Link(j + hop, col, p + 1, j, col, p + 1)]);
    var mk := (e: End) => if e.port == p then e.row else e.row - hop;
    var sk := (e: End) => if e.port == p then e.row - hop else e.row;
    forall j | 0 <= j < |bs| ensures Unshared(bs[j]) {
      assert bs[j] == [Link(j, col, p, j + hop, col, p), Link(j + hop, col, p + 1, j, col, p + 1)];
    }
    forall j, k | 0 <= j < |bs| && 0 <= k < |bs[j]| ensures mk(bs[j][k].m) == j && sk(bs[j][k].s) == j {
      assert bs[j] == [Link(j, col, p, j + hop, col, p), Link(j + hop, col, p + 1, j, col, p + 1)];
    }
    FlatUnshared(bs, mk, sk);
  }

  lemma NetsUnshared(n: nat, col: int, hops: seq<int>, start: int)
    ensures Unshared(Nets(n, col, hops, start))
  {
    var bs: seq<seq<Request>> := seq(|hops|, i requires 0 <= i < |hops| => Jumps(n, col, hops[i], start + 2 * i));
    var key := (e: End) => (e.port - start) / 2;
    forall i | 0 <= i < |hops| ensures Unshared(bs[i]) {
      JumpsUnshared(n, col, hops[i], start + 2 * i);
    }
    forall i, k | 0 <= i < |bs| && 0 <= k < |bs[i]| ensures key(bs[i][k].m) == i && key(bs[i][k].s) == i {
      JumpsMembers(n, col, hops[i], start + 2 * i);
      assert bs[i][k] in Jumps(n, col, hops[i], start + 2 * i);
    }
    FlatUnshared(bs, key, key);
  }

  lemma ExtraUnshared(n: nat, m: nat, hops: seq<int>, start: int)
    ensures Unshared(Extra(n, m, hops, start))
  {
    var bs := seq(m, col => Nets(n, col, hops, start));
    var key := (e: End) => e.col;
    forall col | 0 <= col < m ensures Unshared(bs[col]) {
      NetsUnshared(n, col, hops, start);
    }
    forall col, k | 0 <= col < |bs| && 0 <= k < |bs[col]| ensures key(bs[col][k].m) == col && key(bs[col][k].s) == col {
      NetsMembers(n, col, hops, start);
      assert bs[col][k] in Nets(n, col, hops, start);
    }
    FlatUnshared(bs, key, key);
  }

  lemma TransposedUnshared(qs: seq<Request>)
    requires Unshared(qs)
    ensures Unshared(Transposed(qs))
  {
    var t := Transposed(qs);
    forall i, j | 0 <= i < j < |t| ensures Masters(t)[i] != Masters(t)[j] && Slaves(t)[i] != Slaves(t)[j] {
      assert Masters(qs)[i] != Masters(qs)[j] && Slaves(qs)[i] != Slaves(qs)[j];
    }
  }

  lemma AcrossUnshared(cols: nat, row: int)
    ensures Unshared(Across(cols, row))
  {
    var bs := seq(Span(cols - 1), col => HPair(row, col));
    var mk := (e: End) => if e.port == 1 then e.col else e.col - 1;
    var sk := (e: End) => if e.port == 3 then e.col - 1 else e.col;
    forall col | 0 <= col < |bs| ensures Unshared(bs[col]) {
      assert bs[col] == [Link(row, col, 1, row, col + 1, 3), Link(row, col + 1, 3, row, col, 1)];
    }
    forall col, k | 0 <= col < |bs| && 0 <= k < |bs[col]| ensures mk(bs[col][k].m) == col && sk(bs[col][k].s) == col {
      assert bs[col] == [Link(row, col, 1, row, col + 1, 3), Link(row, col + 1, 3, row, col, 1)];
    }
    FlatUnshared(bs, mk, sk);
  }

  lemma DownUnshared(rows: nat, col: int)
    ensures Unshared(Down(rows, col))
  {
    var bs := seq(Span(rows - 1), row => VPair(row, col));
    var mk := (e: End) => if e.port == 0 then e.row else e.row - 1;
    var sk := (e: End) => if e.port == 2 then e.row - 1 else e.row;
    forall row | 0 <= row < |bs| ensures Unshared(bs[row]) {
      assert bs[row] == [Link(row, col, 0, row + 1, col, 2), Link(row + 1, col, 2, row, col, 0)];
    }
    forall row, k | 0 <= row < |bs| && 0 <= k < |bs[row]| ensures mk(bs[row][k].m) == row && sk(bs[row][k].s) == row {
      assert bs[row] == [Link(row, col, 0, row + 1, col, 2), Link(row + 1, col, 2, row, col, 0)];
    }
    FlatUnshared(bs, mk, sk);
  }

  /** The row links repeat no end: each row's links stay in that row. */
  lemma RowLinksUnshared(rows: nat, cols: nat)
    ensures Unshared(Flat(RowLinks(rows, cols)))
  {
    var hs := RowLinks(rows, cols);
    var rowKey := (e: End) => e.row;
    forall row | 0 <= row < rows ensures Unshared(hs[row]) {
      AcrossUnshared(cols, row);
    }
    forall row, k | 0 <= row < |hs| && 0 <= k < |hs[row]| ensures rowKey(hs[row][k].m) == row && rowKey(hs[row][k].s) == row {
      AcrossMembers(cols, row);
      assert hs[row][k] in Across(cols, row);
    }
    FlatUnshared(hs, rowKey, rowKey);
  }

  /** The column links repeat no end: each column's links stay in that
      column. */
  lemma ColumnLinksUnshared(rows: nat, cols: nat)
    ensures Unshared(Flat(ColumnLinks(rows, cols)))
  {
    var vs := ColumnLinks(rows, cols);
    var colKey := (e: End) => e.col;
    forall col | 0 <= col < cols ensures Unshared(vs[col]) {
      DownUnshared(rows, col);
    }
    forall col, k | 0 <= col < |vs| && 0 <= k < |vs[col]| ensures colKey(vs[col][k].m) == col && colKey(vs[col][k].s) == col {
      DownMembers(rows, col);
      assert vs[col][k] in Down(rows, col);
    }
    FlatUnshared(vs, colKey, colKey);
  }

  /** A row link and a column link never share an end: they leave on
      different ports. */
  lemma RowsColumnsApart(rows: nat, cols: nat)
    ensures forall k, l :: 0 <= k < |Flat(RowLinks(rows, cols))| && 0 <= l < |Flat(ColumnLinks(rows, cols))| ==>
              Flat(RowLinks(rows, cols))[k].m != Flat(ColumnLinks(rows, cols))[l].m
              && Flat(RowLinks(rows, cols))[k].s != Flat(ColumnLinks(rows, cols))[l].s
  {
    var hs := RowLinks(rows, cols);
    var vs := ColumnLinks(rows, cols);
    FlatMembers(hs);
    FlatMembers(vs);
    forall k, l | 0 <= k < |Flat(hs)| && 0 <= l < |Flat(vs)| ensures Flat(hs)[k].m != Flat(vs)[l].m && Flat(hs)[k].s != Flat(vs)[l].s {
      assert Flat(hs)[k] in Flat(hs) && Flat(vs)[l] in Flat(vs);
      var row :| 0 <= row < rows && Flat(hs)[k] in hs[row];
      var col :| 0 <= col < cols && Flat(vs)[l] in vs[col];
      AcrossMembers(cols, row);
      DownMembers(rows, col);
    }
  }

  lemma BaseUnshared(rows: nat, cols: nat)
    ensures Unshared(Base(rows, cols))
  {
    RowLinksUnshared(rows, cols);
    ColumnLinksUnshared(rows, cols);
    RowsColumnsApart(rows, cols);
    UnsharedDisjoint(Flat(RowLinks(rows, cols)), Flat(ColumnLinks(rows, cols)));
  }

  /** No master end and no slave end repeats, whatever the hops, so
      `validate_connections` accepts every custom topology. */
  lemma CustomUnshared(rows: nat, cols: nat, rowHops: seq<int>, colHops: seq<int>)
    ensures Unshared(Links(rows, cols, rowHops, colHops))
    ensures ValidateConnections(Links(rows, cols, rowHops, colHops)) == Pass
  {
    var base := Base(rows, cols);
    var ext := Extra(rows, cols, colHops, 4);
    var tr := Transposed(Extra(cols, rows, rowHops, 4 + 2 * |colHops|));
    BaseUnshared(rows, cols);
    ExtraUnshared(rows, cols, colHops, 4);
    ExtraUnshared(cols, rows, rowHops, 4 + 2 * |colHops|);
    TransposedUnshared(Extra(cols, rows, rowHops, 4 + 2 * |colHops|));
    BaseIsMesh(rows, cols);
    ExtraMembers(rows, cols, colHops, 4);
    ExtraMembers(cols, rows, rowHops, 4 + 2 * |colHops|);
    TransposedMembers(Extra(cols, rows, rowHops, 4 + 2 * |colHops|));
    forall k | 0 <= k < |base| ensures base[k].m.port < 4 && base[k].s.port < 4 {
      assert base[k] in base;
    }
    forall k | 0 <= k < |ext| ensures 4 <= ext[k].m.port < 4 + 2 * |colHops| && 4 <= ext[k].s.port < 4 + 2 * |colHops| {
      assert ext[k] in ext;
    }
    forall k | 0 <= k < |tr| ensures tr[k].m.port >= 4 + 2 * |colHops| && tr[k].s.port >= 4 + 2 * |colHops| {
      assert tr[k] in tr;
    }
    UnsharedJoin(base, ext, 4);
    UnsharedJoin(base + ext, tr, 4 + 2 * |colHops|);
  }
}
