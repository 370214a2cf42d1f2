/** The hypercube generator (`bin_to_rc` and `generate` in
    src/generate_hypercube.py). A `rows` x `cols` array of tiles, both
    powers of two, is a hypercube of dimension `log2(rows) + log2(cols)`:
    every tile id, as a bit list, is linked to each id one bit away. The
    first `log2(rows)` bits choose the row and the rest the column, each
    through a Gray-code map, so that mesh neighbours are hypercube
    neighbours; those links use the four mesh ports, the other column
    links take north ports counted from 4 and the other row links east
    ports counted after them. */
module Hypercube {
  import opened Wrappers
  import opened Coarse
  import opened Topology

  // ------------------------------------------------------------ powers of two

  function Pow2(n: nat): (r: nat)
    ensures r >= 1
  {
    if n == 0 then 1 else 2 * Pow2(n - 1)
  }

  lemma {:induction false} PowAdd(a: nat, b: nat)
    ensures Pow2(a + b) == Pow2(a) * Pow2(b)
    decreases b
  {
    if b > 0 {
      PowAdd(a, b - 1);
      assert Pow2(a + b) == 2 * Pow2(a + b - 1);
      assert Pow2(a) * Pow2(b) == Pow2(a) * (2 * Pow2(b - 1)) == 2 * (Pow2(a) * Pow2(b - 1));
    }
  }

  /** `math.log2(x)` when that is a whole number; `None` when `x` is not a
      power of two. */
  function Log2(x: int): (r: Option<nat>)
    ensures r.Some? ==> Pow2(r.value) == x
    decreases if x < 0 then 0 else x
  {
    if x <= 0 then None
    else if x == 1 then Some(0)
    else if x % 2 == 1 then None
    else match Log2(x / 2)
      case None => None
      case Some(k) => Some(k + 1)
  }

  /** `Log2` finds the exponent of every power of two. */
  lemma {:induction false} Log2Exact(k: nat)
    ensures Log2(Pow2(k)) == Some(k)
    decreases k
  {
    if k > 0 {
      Log2Exact(k - 1);
      assert Pow2(k) / 2 == Pow2(k - 1);
    }
  }

  /** `x` is a power of two exactly when `Log2` accepts it. */
  lemma PowerIff(x: int)
    ensures Log2(x).Some? <==> exists k: nat :: Pow2(k) == x
  {
    if exists k: nat :: Pow2(k) == x {
      var k: nat :| Pow2(k) == x;
      Log2Exact(k);
    }
  }

  /** `max(d - 2, 0)`: the ports a dimension needs beyond the two mesh
      ports that face along it. */
  function Extra(d: nat): nat {
    if d >= 2 then d - 2 else 0
  }

  // ------------------------------------------------------------ bit lists

  /** `bin(i)[2:]` padded on the left with zeros to `d` digits, most
      significant first, a `1` digit as `true`. */
  function Bits(i: int, d: nat): (r: seq<bool>)
    ensures |r| == d
    decreases d
  {
    if d == 0 then [] else Bits(i / 2, d - 1) + [i % 2 == 1]
  }

  /** `int(bits, 2)` of a non-empty bit list. */
  function Value(bs: seq<bool>): nat {
    if |bs| == 0 then 0 else 2 * Value(bs[..|bs| - 1]) + (if bs[|bs| - 1] then 1 else 0)
  }

  lemma {:induction false} ValueBound(bs: seq<bool>)
    ensures Value(bs) < Pow2(|bs|)
    decreases |bs|
  {
    if |bs| > 0 {
      ValueBound(bs[..|bs| - 1]);
    }
  }

  /** Reading back the digits of an id gives the id. */
  lemma {:induction false} ValueBits(i: int, d: nat)
    requires 0 <= i < Pow2(d)
    ensures Value(Bits(i, d)) == i
    decreases d
  {
    if d > 0 {
      var bs := Bits(i, d);
      assert bs[..d - 1] == Bits(i / 2, d - 1);
      ValueBits(i / 2, d - 1);
    }
  }

  /** Writing out the value of a bit list gives the list back. */
  lemma {:induction false} BitsValue(bs: seq<bool>)
    ensures Bits(Value(bs), |bs|) == bs
    decreases |bs|
  {
    if |bs| > 0 {
      var init := bs[..|bs| - 1];
      var v := Value(bs);
      assert v / 2 == Value(init) && (v % 2 == 1 <==> bs[|bs| - 1]);
      BitsValue(init);
      assert bs == init + [bs[|bs| - 1]];
    }
  }

  /** The value of `x + y` shifts `x` past the digits of `y`. */
  lemma {:induction false} ValueAppend(x: seq<bool>, y: seq<bool>)
    ensures Value(x + y) == Value(x) * Pow2(|y|) + Value(y)
    decreases |y|
  {
    if |y| == 0 {
      assert x + y == x;
    } else {
      var y' := y[..|y| - 1];
      var b := if y[|y| - 1] then 1 else 0;
      assert (x + y)[..|x + y| - 1] == x + y';
      assert Value(x + y) == 2 * Value(x + y') + b;
      ValueAppend(x, y');
      ShiftBy(Value(x), Pow2(|y'|), Value(y'), b);
    }
  }

  lemma ShiftBy(a: int, p: int, v: int, b: int)
    ensures 2 * (a * p + v) + b == a * (2 * p) + (2 * v + b)
  {
  }

  /** The number of positions where two equally long bit lists differ. */
  function Distance(a: seq<bool>, b: seq<bool>): nat
    requires |a| == |b|
  {
    if |a| == 0 then 0
    else Distance(a[..|a| - 1], b[..|b| - 1]) + (if a[|a| - 1] != b[|b| - 1] then 1 else 0)
  }

  /** `end[j] = "1" if end[j] == "0" else "0"`. */
  function Flip(bs: seq<bool>, j: int): seq<bool>
    requires 0 <= j < |bs|
  {
    bs[j := !bs[j]]
  }

  lemma {:induction false} DistanceZero(a: seq<bool>, b: seq<bool>)
    requires |a| == |b|
    ensures Distance(a, b) == 0 <==> a == b
    decreases |a|
  {
    if |a| > 0 {
      DistanceZero(a[..|a| - 1], b[..|b| - 1]);
      assert a == a[..|a| - 1] + [a[|a| - 1]] && b == b[..|b| - 1] + [b[|b| - 1]];
    }
  }

  /** Flipping one digit moves exactly one position away. */
  lemma {:induction false} FlipDistance(bs: seq<bool>, j: int)
    requires 0 <= j < |bs|
    ensures Distance(bs, Flip(bs, j)) == 1
    decreases |bs|
  {
    var n := |bs| - 1;
    var f := Flip(bs, j);
    if j == n {
      assert f[..n] == bs[..n];
      DistanceZero(bs[..n], f[..n]);
    } else {
      assert f[..n] == Flip(bs[..n], j);
      FlipDistance(bs[..n], j);
    }
  }

  /** A list one position away is a flip of one digit. */
  lemma {:induction false} DistanceOne(a: seq<bool>, b: seq<bool>)
    requires |a| == |b| && Distance(a, b) == 1
    ensures exists j :: 0 <= j < |a| && b == Flip(a, j)
    decreases |a|
  {
    var n := |a| - 1;
    if a[n] != b[n] {
      DistanceZero(a[..n], b[..n]);
      assert b == a[..n] + [b[n]] && a == a[..n] + [a[n]];
      assert b == Flip(a, n);
    } else {
      DistanceOne(a[..n], b[..n]);
      var j :| 0 <= j < n && b[..n] == Flip(a[..n], j);
      assert b == b[..n] + [b[n]] && a == a[..n] + [a[n]];
      assert b == Flip(a, j);
    }
  }

  // ------------------------------------------------------------ edges

  /** A hypercube edge: the start id's digits and the end id's. */
  datatype Edge = Edge(start: seq<bool>, end: seq<bool>)

  /** The edges appended for id `i`: one per digit, flipping it. */
  function EdgesOf(d: nat, i: int): (r: seq<Edge>)
    ensures |r| == d
  {
    seq(d, j requires 0 <= j < d => Edge(Bits(i, d), Flip(Bits(i, d), j)))
  }

  /** Lines 80-87: for every id, in order, an edge to each id one digit
      away. */
  function Edges(d: nat): seq<Edge> {
    Flat(Ids(d))
  }

  function Ids(d: nat): (bs: seq<seq<Edge>>)
    ensures |bs| == Pow2(d)
  {
    seq(Pow2(d), i => EdgesOf(d, i))
  }

  /** Edge `i * d + j` leaves id `i` and flips its digit `j`, and there are
      `2^d * d` edges. */
  lemma EdgeAt(d: nat, i: int, j: int)
    requires 0 <= i < Pow2(d) && 0 <= j < d
    ensures |Edges(d)| == Pow2(d) * d
    ensures i * d + j < |Edges(d)| && Edges(d)[i * d + j] == Edge(Bits(i, d), Flip(Bits(i, d), j))
  {
    FlatUniform(Ids(d), d);
    FlatAt(Ids(d), d, i, j);
  }

  lemma EdgeCount(d: nat)
    ensures |Edges(d)| == Pow2(d) * d
  {
    FlatUniform(Ids(d), d);
  }

  /** The edges are exactly the ordered pairs of `d`-digit ids one digit
      apart. */
  lemma EdgesExactly(d: nat)
    ensures forall e :: e in Edges(d) <==> |e.start| == d && |e.end| == d && Distance(e.start, e.end) == 1
  {
    var bs := Ids(d);
    FlatMembers(bs);
    assert Edges(d) == Flat(bs);
    forall e | e in Edges(d) ensures |e.start| == d && |e.end| == d && Distance(e.start, e.end) == 1 {
      var i :| 0 <= i < |bs| && e in bs[i];
      var j :| 0 <= j < d && e == EdgesOf(d, i)[j];
      FlipDistance(Bits(i, d), j);
    }
    forall e: Edge | |e.start| == d && |e.end| == d && Distance(e.start, e.end) == 1 ensures e in Edges(d) {
      DistanceOne(e.start, e.end);
      var j :| 0 <= j < d && e.end == Flip(e.start, j);
      var i := Value(e.start);
      ValueBound(e.start);
      BitsValue(e.start);
      assert e == EdgesOf(d, i)[j];
      assert e in bs[i];
    }
  }

  // ------------------------------------------------------------ placement

  /** `bin_to_rc`: the first `rd` digits, read as a number, are looked up
      in the row map and the rest in the column map. An empty part is a
      `ValueError` of `int("", 2)`; a code missing from a map is a
      `KeyError`. */
  function BinToRc(bits: seq<bool>, rd: nat, rowMap: map<int, int>, colMap: map<int, int>): (r: Result<Tile>)
  {
    if rd == 0 || rd >= |bits| then Err("ValueError: invalid literal for int() with base 2: ''")
    else if Value(bits[..rd]) !in rowMap then Err("KeyError: row code")
    else if Value(bits[rd..]) !in colMap then Err("KeyError: column code")
    else Ok((rowMap[Value(bits[..rd])], colMap[Value(bits[rd..])]))
  }

  /** A Gray-code map of `n` codes: every code below `n` maps to a
      position below `n`. */
  predicate Arranges(m: map<int, int>, n: int) {
    forall v :: 0 <= v < n ==> v in m && 0 <= m[v] < n
  }

  /** Id `i` sits in the row its high digits give and the column its low
      `cd` digits give. */
  lemma PlaceOf(i: int, rd: nat, cd: nat, rowMap: map<int, int>, colMap: map<int, int>)
    requires rd >= 1 && cd >= 1 && 0 <= i < Pow2(rd + cd)
    requires Arranges(rowMap, Pow2(rd)) && Arranges(colMap, Pow2(cd))
    ensures 0 <= i / Pow2(cd) < Pow2(rd) && 0 <= i % Pow2(cd) < Pow2(cd)
    ensures BinToRc(Bits(i, rd + cd), rd, rowMap, colMap) == Ok((rowMap[i / Pow2(cd)], colMap[i % Pow2(cd)]))
  {
    var bs := Bits(i, rd + cd);
    var hi, lo := bs[..rd], bs[rd..];
    assert bs == hi + lo;
    ValueBits(i, rd + cd);
    ValueAppend(hi, lo);
    ValueBound(hi);
    ValueBound(lo);
    DivUnique(i, Pow2(cd), Value(hi), Value(lo));
  }

  // ------------------------------------------------------------ ports

  /** The tile's ports: the mesh ports, then `Extra(rd)` north ports for
      column links, then `Extra(cd)` east ports for row links. */
  function HyperPorts(rd: nat, cd: nat): Ports {
    Ports(MeshPorts.ms + seq(Extra(rd), _ => Want("north", -1)) + seq(Extra(cd), _ => Want("east", -1)),
          MeshPorts.ss + seq(Extra(rd), _ => Want("north", 1)) + seq(Extra(cd), _ => Want("east", 1)))
  }

  /** `row_hop_start_id`: the first row-link port, after the column-link
      ports. */
  function RowStart(rd: nat): int {
    4 + Extra(rd)
  }

  /** Master and slave ports are paired: north column ports from 4 up to
      `RowStart`, then east row ports, matching alignments opposite. */
  lemma HyperPortsLayout(rd: nat, cd: nat)
    ensures var p := HyperPorts(rd, cd);
            && |p.ms| == |p.ss| == RowStart(rd) + Extra(cd)
            && p.ms[..4] == MeshPorts.ms && p.ss[..4] == MeshPorts.ss
            && (forall k :: 4 <= k < RowStart(rd) ==> p.ms[k] == Want("north", -1) && p.ss[k] == Want("north", 1))
            && (forall k :: RowStart(rd) <= k < |p.ms| ==> p.ms[k] == Want("east", -1) && p.ss[k] == Want("east", 1))
  {
  }

  /** The tile one step from `s` across mesh port `p`, wrapping around:
      0 the next row, 1 the next column, 2 the previous row, 3 the
      previous column. */
  function Toward(rows: int, cols: int, s: Tile, p: int): Tile
    requires rows > 0 && cols > 0
  {
    if p == 0 then ((s.0 + 1) % rows, s.1)
    else if p == 1 then (s.0, (s.1 + 1) % cols)
    else if p == 2 then ((s.0 - 1) % rows, s.1)
    else (s.0, (s.1 - 1) % cols)
  }

  /** `t` is a mesh neighbour of `s`, with wrap-around. */
  predicate Adjacent(rows: int, cols: int, s: Tile, t: Tile)
    requires rows > 0 && cols > 0
  {
    exists p :: 0 <= p < 4 && Toward(rows, cols, s, p) == t
  }

  /** Lines 105-132: a mesh neighbour gets the facing pair of mesh ports;
      any other link in the same column is counted on the column network
      (0) and one in the same row on the row network (1); anything else is
      the fatal "Invalid connection direction". */
  function Classify(rows: int, cols: int, s: Tile, t: Tile): (r: Result<Item>)
    requires rows > 0 && cols > 0
    ensures r.Err? <==> s.0 != t.0 && s.1 != t.1
    ensures r.Ok? && r.value.Fixed? ==> (r.value.q.m.row, r.value.q.m.col) == s && (r.value.q.s.row, r.value.q.s.col) == t
  {
    if s.1 == t.1 && (s.0 + 1) % rows == t.0 then Ok(Fixed(Link(s.0, s.1, 0, t.0, t.1, 2)))
    else if s.1 == t.1 && (s.0 - 1) % rows == t.0 then Ok(Fixed(Link(s.0, s.1, 2, t.0, t.1, 0)))
    else if s.0 == t.0 && (s.1 + 1) % cols == t.1 then Ok(Fixed(Link(s.0, s.1, 1, t.0, t.1, 3)))
    else if s.0 == t.0 && (s.1 - 1) % cols == t.1 then Ok(Fixed(Link(s.0, s.1, 3, t.0, t.1, 1)))
    else if s.1 == t.1 then Ok(Counted(0, s, t))
    else if s.0 == t.0 then Ok(Counted(1, s, t))
    else Err("Invalid connection direction")
  }

  /** `q` joins `s` to `t` on a mesh port of `s` that faces `t` and the
      opposite mesh port of `t`. */
  predicate Facing(rows: int, cols: int, s: Tile, t: Tile, q: Request)
    requires rows > 0 && cols > 0
  {
    && Ends(q) == (s, t) && 0 <= q.m.port < 4 && q.s.port == (q.m.port + 2) % 4
    && Toward(rows, cols, s, q.m.port) == t
  }

  /** Mesh neighbours get fixed ports: the master port faces the slave
      tile and the slave port is the opposite face. Any other tile in the
      same column is counted on the column network (0), and in the same
      row on the row network (1). */
  lemma ClassifyPorts(rows: int, cols: int, s: Tile, t: Tile)
    requires rows > 0 && cols > 0 && (s.0 == t.0 || s.1 == t.1)
    ensures var it := Classify(rows, cols, s, t).value;
            if Adjacent(rows, cols, s, t) then it.Fixed? && Facing(rows, cols, s, t, it.q)
            else it == Counted(if s.1 == t.1 then 0 else 1, s, t)
  {
    var it := Classify(rows, cols, s, t).value;
    if it.Fixed? {
      assert Toward(rows, cols, s, it.q.m.port) == t;
    }
  }

  /** The item one edge becomes. */
  function EdgeItem(rows: int, cols: int, rd: nat, rowMap: map<int, int>, colMap: map<int, int>, e: Edge): Result<Item>
    requires rows > 0 && cols > 0
  {
    var s :- BinToRc(e.start, rd, rowMap, colMap);
    var t :- BinToRc(e.end, rd, rowMap, colMap);
    Classify(rows, cols, s, t)
  }

  /** The items of the edges in order; the first edge that fails stops
      the generator with its message. */
  function Translate(rows: int, cols: int, rd: nat, rowMap: map<int, int>, colMap: map<int, int>, es: seq<Edge>): (r: Result<seq<Item>>)
    requires rows > 0 && cols > 0
    ensures r.Ok? ==> |r.value| == |es|
    decreases |es|
  {
    if |es| == 0 then Ok([])
    else match Translate(rows, cols, rd, rowMap, colMap, es[..|es| - 1])
      case Err(e) => Err(e)
      case Ok(init) =>
        match EdgeItem(rows, cols, rd, rowMap, colMap, es[|es| - 1])
        case Err(e) => Err(e)
        case Ok(x) => Ok(init + [x])
  }

  /** The translation succeeds exactly when every edge does. */
  lemma TranslateOkIff(rows: int, cols: int, rd: nat, rowMap: map<int, int>, colMap: map<int, int>, es: seq<Edge>)
    requires rows > 0 && cols > 0
    ensures Translate(rows, cols, rd, rowMap, colMap, es).Ok? <==> forall k :: 0 <= k < |es| ==> EdgeItem(rows, cols, rd, rowMap, colMap, es[k]).Ok?
  {
    if Translate(rows, cols, rd, rowMap, colMap, es).Ok? {
      forall k | 0 <= k < |es| ensures EdgeItem(rows, cols, rd, rowMap, colMap, es[k]).Ok? {
        TranslateAt(rows, cols, rd, rowMap, colMap, es, k);
      }
    } else {
      TranslateFails(rows, cols, rd, rowMap, colMap, es);
    }
  }

  /** A failed translation has an edge that fails. */
  lemma {:induction false} TranslateFails(rows: int, cols: int, rd: nat, rowMap: map<int, int>, colMap: map<int, int>, es: seq<Edge>)
    requires rows > 0 && cols > 0 && !Translate(rows, cols, rd, rowMap, colMap, es).Ok?
    ensures exists k :: 0 <= k < |es| && !EdgeItem(rows, cols, rd, rowMap, colMap, es[k]).Ok?
    decreases |es|
  {
    var init := es[..|es| - 1];
    if !Translate(rows, cols, rd, rowMap, colMap, init).Ok? {
      TranslateFails(rows, cols, rd, rowMap, colMap, init);
      var k :| 0 <= k < |init| && !EdgeItem(rows, cols, rd, rowMap, colMap, init[k]).Ok?;
      assert es[k] == init[k];
    } else {
      assert !EdgeItem(rows, cols, rd, rowMap, colMap, es[|es| - 1]).Ok?;
    }
  }

  /** Item `k` is what edge `k` becomes. */
  lemma {:induction false} TranslateAt(rows: int, cols: int, rd: nat, rowMap: map<int, int>, colMap: map<int, int>, es: seq<Edge>, k: int)
    requires rows > 0 && cols > 0 && 0 <= k < |es| && Translate(rows, cols, rd, rowMap, colMap, es).Ok?
    ensures EdgeItem(rows, cols, rd, rowMap, colMap, es[k]) == Ok(Translate(rows, cols, rd, rowMap, colMap, es).value[k])
    decreases |es|
  {
    var init := es[..|es| - 1];
    if k < |init| {
      TranslateAt(rows, cols, rd, rowMap, colMap, init, k);
    }
  }

  /** `m_col_hop_id` and `s_col_hop_id` start every tile at 4 on network
      0; `m_row_hop_id` and `s_row_hop_id` at `RowStart` on network 1. */
  function Counters(rows: int, cols: int, rd: nat): (c: Counters)
    ensures forall n, t :: (n, t) in c <==> (n == 0 || n == 1) && 0 <= t.0 < rows && 0 <= t.1 < cols
    ensures forall t :: (0, t) in c ==> c[(0, t)] == 4
    ensures forall t :: (1, t) in c ==> c[(1, t)] == RowStart(rd)
  {
    Fresh(Span(rows), Span(cols), 0, 4) + Fresh(Span(rows), Span(cols), 1, RowStart(rd))
  }

  /** `generate`, with the Gray-code maps as parameters. */
  function Generate(rows: int, cols: int, rowMap: map<int, int>, colMap: map<int, int>): (r: Result<Net>)
    ensures rows <= 0 || cols <= 0 ==> r == Err("ValueError: math domain error")
    ensures rows > 0 && cols > 0 && (Log2(rows).None? || Log2(cols).None?) ==>
              r == Err("rows and columns must both be powers of 2")
    ensures r.Ok? ==> Log2(rows).Some? && Log2(cols).Some? && r.value.ports == HyperPorts(Log2(rows).value, Log2(cols).value)
  {
    if rows <= 0 || cols <= 0 then Err("ValueError: math domain error")
    else if Log2(rows).None? || Log2(cols).None? then Err("rows and columns must both be powers of 2")
    else Build(rows, cols, Log2(rows).value, Log2(cols).value, rowMap, colMap)
  }

  /** The edges, their items, and the links `Assign` makes of them. */
  function Build(rows: int, cols: int, rd: nat, cd: nat, rowMap: map<int, int>, colMap: map<int, int>): (r: Result<Net>)
    requires rows > 0 && cols > 0
    ensures r.Ok? ==> r.value.ports == HyperPorts(rd, cd) && |r.value.conns| == |Edges(rd + cd)|
  {
    match Translate(rows, cols, rd, rowMap, colMap, Edges(rd + cd))
    case Err(e) => Err(e)
    case Ok(items) => Finish(items, Counters(rows, cols, rd), rd, cd)
  }

  function Finish(items: seq<Item>, c: Counters, rd: nat, cd: nat): (r: Result<Net>)
    ensures r.Ok? <==> Known(items, c, c)
    ensures r.Ok? ==> r.value.ports == HyperPorts(rd, cd) && |r.value.conns| == |items|
  {
    match Assign(items, c, c)
    case Err(e) => Err(e)
    case Ok((qs, _, _)) => Ok(Net(HyperPorts(rd, cd), qs))
  }

  // ------------------------------------------------------------ the links

  /** Rows and columns are powers of two of at least 2 (so that neither
      part of an id is empty) and each map places every code of its side
      on the array. */
  predicate Valid(rd: nat, cd: nat, rowMap: map<int, int>, colMap: map<int, int>) {
    rd >= 1 && cd >= 1 && Arranges(rowMap, Pow2(rd)) && Arranges(colMap, Pow2(cd))
  }

  /** The tile of id `i`: its high digits through the row map, its low
      `cd` digits through the column map. */
  function Place(rd: nat, cd: nat, rowMap: map<int, int>, colMap: map<int, int>, i: int): (t: Tile)
    requires Valid(rd, cd, rowMap, colMap) && 0 <= i < Pow2(rd + cd)
    ensures 0 <= t.0 < Pow2(rd) && 0 <= t.1 < Pow2(cd)
  {
    PlaceOf(i, rd, cd, rowMap, colMap);
    (rowMap[i / Pow2(cd)], colMap[i % Pow2(cd)])
  }

  /** The id edge `(i, j)` leads to. */
  function Neighbour(d: nat, i: int, j: int): (f: nat)
    requires 0 <= j < d
    ensures f < Pow2(d)
  {
    ValueBound(Flip(Bits(i, d), j));
    Value(Flip(Bits(i, d), j))
  }

  /** Flipping a row digit keeps the column, flipping a column digit
      keeps the row. */
  lemma FlipSide(rd: nat, cd: nat, rowMap: map<int, int>, colMap: map<int, int>, i: int, j: int)
    requires Valid(rd, cd, rowMap, colMap) && 0 <= i < Pow2(rd + cd) && 0 <= j < rd + cd
    ensures var s, t := Place(rd, cd, rowMap, colMap, i), Place(rd, cd, rowMap, colMap, Neighbour(rd + cd, i, j));
            && BinToRc(Bits(i, rd + cd), rd, rowMap, colMap) == Ok(s)
            && BinToRc(Flip(Bits(i, rd + cd), j), rd, rowMap, colMap) == Ok(t)
            && (j < rd ==> s.1 == t.1) && (j >= rd ==> s.0 == t.0)
  {
    var d := rd + cd;
    var bs, f := Bits(i, d), Neighbour(d, i, j);
    BitsValue(Flip(bs, j));
    PlaceOf(i, rd, cd, rowMap, colMap);
    PlaceOf(f, rd, cd, rowMap, colMap);
    if j < rd {
      assert Flip(bs, j)[rd..] == bs[rd..];
    } else {
      assert Flip(bs, j)[..rd] == bs[..rd];
    }
  }

  /** Edge `(i, j)` becomes the item `Classify` gives for its two tiles. */
  lemma EdgeBecomes(rd: nat, cd: nat, rowMap: map<int, int>, colMap: map<int, int>, i: int, j: int, e: Edge)
    requires Valid(rd, cd, rowMap, colMap) && 0 <= i < Pow2(rd + cd) && 0 <= j < rd + cd
    requires e == Edge(Bits(i, rd + cd), Flip(Bits(i, rd + cd), j))
    ensures var s, t := Place(rd, cd, rowMap, colMap, i), Place(rd, cd, rowMap, colMap, Neighbour(rd + cd, i, j));
            && EdgeItem(Pow2(rd), Pow2(cd), rd, rowMap, colMap, e) == Classify(Pow2(rd), Pow2(cd), s, t)
            && (j < rd ==> s.1 == t.1) && (j >= rd ==> s.0 == t.0)
  {
    var s, t := Place(rd, cd, rowMap, colMap, i), Place(rd, cd, rowMap, colMap, Neighbour(rd + cd, i, j));
    FlipSide(rd, cd, rowMap, colMap, i, j);
    EdgeItemOf(Pow2(rd), Pow2(cd), rd, rowMap, colMap, e, s, t);
  }

  lemma EdgeItemOf(rows: int, cols: int, rd: nat, rowMap: map<int, int>, colMap: map<int, int>, e: Edge, s: Tile, t: Tile)
    requires rows > 0 && cols > 0
    requires BinToRc(e.start, rd, rowMap, colMap) == Ok(s) && BinToRc(e.end, rd, rowMap, colMap) == Ok(t)
    ensures EdgeItem(rows, cols, rd, rowMap, colMap, e) == Classify(rows, cols, s, t)
  {
  }

  lemma Split(k: int, d: int, n: int)
    requires d > 0 && 0 <= k < n * d
    ensures 0 <= k / d < n && 0 <= k % d < d && k == k / d * d + k % d
  {
  }

  lemma Within(i: int, j: int, n: int, d: int)
    requires 0 <= i < n && 0 <= j < d
    ensures 0 <= i * d + j < n * d
  {
    var m := n - i - 1;
    assert m * d >= 0;
    assert n * d == i * d + d + m * d;
  }

  /** The item of edge `(i, j)` of a valid array: `Classify` of the
      tiles of id `i` and of that id with digit `j` flipped. */
  function ItemOf(rd: nat, cd: nat, rowMap: map<int, int>, colMap: map<int, int>, i: int, j: int): Item
    requires Valid(rd, cd, rowMap, colMap) && 0 <= i < Pow2(rd + cd) && 0 <= j < rd + cd
  {
    FlipSide(rd, cd, rowMap, colMap, i, j);
    Classify(Pow2(rd), Pow2(cd), Place(rd, cd, rowMap, colMap, i), Place(rd, cd, rowMap, colMap, Neighbour(rd + cd, i, j))).value
  }

  /** The items of a valid array, one per edge. */
  function Items(rd: nat, cd: nat, rowMap: map<int, int>, colMap: map<int, int>): (items: seq<Item>)
    requires Valid(rd, cd, rowMap, colMap)
    ensures |items| == Pow2(rd + cd) * (rd + cd)
  {
    var d := rd + cd;
    seq(Pow2(d) * d, k requires 0 <= k < Pow2(d) * d => Split(k, d, Pow2(d)); ItemOf(rd, cd, rowMap, colMap, k / d, k % d))
  }

  /** On a valid array no edge fails, and the edges become `Items`. */
  lemma ItemsTranslate(rd: nat, cd: nat, rowMap: map<int, int>, colMap: map<int, int>)
    requires Valid(rd, cd, rowMap, colMap)
    ensures Translate(Pow2(rd), Pow2(cd), rd, rowMap, colMap, Edges(rd + cd)) == Ok(Items(rd, cd, rowMap, colMap))
  {
    var rows, cols, d := Pow2(rd), Pow2(cd), rd + cd;
    var es, items := Edges(d), Items(rd, cd, rowMap, colMap);
    EdgeCount(d);
    forall k | 0 <= k < |es| ensures EdgeItem(rows, cols, rd, rowMap, colMap, es[k]) == Ok(items[k]) {
      Split(k, d, Pow2(d));
      EdgeAt(d, k / d, k % d);
      EdgeBecomes(rd, cd, rowMap, colMap, k / d, k % d, es[k]);
    }
    assert Translate(rows, cols, rd, rowMap, colMap, es).Ok? by {
      TranslateOkIff(rows, cols, rd, rowMap, colMap, es);
    }
    var r := Translate(rows, cols, rd, rowMap, colMap, es).value;
    forall k | 0 <= k < |es| ensures r[k] == items[k] {
      TranslateAt(rows, cols, rd, rowMap, colMap, es, k);
    }
    assert |r| == |items|;
    assert r == items;
  }

  /** Item `i * d + j` is the one for edge `(i, j)`. */
  lemma ItemAt(rd: nat, cd: nat, rowMap: map<int, int>, colMap: map<int, int>, i: int, j: int, k: int)
    requires Valid(rd, cd, rowMap, colMap) && 0 <= i < Pow2(rd + cd) && 0 <= j < rd + cd && k == i * (rd + cd) + j
    ensures 0 <= k < |Items(rd, cd, rowMap, colMap)|
    ensures Items(rd, cd, rowMap, colMap)[k] == ItemOf(rd, cd, rowMap, colMap, i, j)
  {
    var d := rd + cd;
    Within(i, j, Pow2(d), d);
    DivUnique(k, d, i, j);
  }

  /** The item for edge `(i, j)` is what `Classify` gives for its two
      tiles, which share a column when a row digit flipped and a row
      otherwise. */
  lemma ItemClassified(rd: nat, cd: nat, rowMap: map<int, int>, colMap: map<int, int>, i: int, j: int)
    requires Valid(rd, cd, rowMap, colMap) && 0 <= i < Pow2(rd + cd) && 0 <= j < rd + cd
    ensures var s, t := Place(rd, cd, rowMap, colMap, i), Place(rd, cd, rowMap, colMap, Neighbour(rd + cd, i, j));
            && (j < rd ==> s.1 == t.1) && (j >= rd ==> s.0 == t.0)
            && Classify(Pow2(rd), Pow2(cd), s, t) == Ok(ItemOf(rd, cd, rowMap, colMap, i, j))
  {
    FlipSide(rd, cd, rowMap, colMap, i, j);
  }

  /** Every counted item names two tiles of the array. */
  lemma ItemsKnown(rd: nat, cd: nat, rowMap: map<int, int>, colMap: map<int, int>)
    requires Valid(rd, cd, rowMap, colMap)
    ensures var c := Counters(Pow2(rd), Pow2(cd), rd); Known(Items(rd, cd, rowMap, colMap), c, c)
  {
    var d := rd + cd;
    var items := Items(rd, cd, rowMap, colMap);
    var c := Counters(Pow2(rd), Pow2(cd), rd);
    forall k | 0 <= k < |items| && items[k].Counted? ensures (items[k].net, items[k].a) in c && (items[k].net, items[k].b) in c {
      ItemOnArray(rd, cd, rowMap, colMap, k);
    }
  }

  /** A counted item is on network 0 or 1 and joins two tiles of the
      array. */
  lemma ItemOnArray(rd: nat, cd: nat, rowMap: map<int, int>, colMap: map<int, int>, k: int)
    requires Valid(rd, cd, rowMap, colMap) && 0 <= k < Pow2(rd + cd) * (rd + cd)
    ensures var it := Items(rd, cd, rowMap, colMap)[k];
            it.Counted? ==>
              && (it.net == 0 || it.net == 1)
              && 0 <= it.a.0 < Pow2(rd) && 0 <= it.a.1 < Pow2(cd) && 0 <= it.b.0 < Pow2(rd) && 0 <= it.b.1 < Pow2(cd)
  {
    var d := rd + cd;
    Split(k, d, Pow2(d));
    ItemAt(rd, cd, rowMap, colMap, k / d, k % d, k);
    ItemClassified(rd, cd, rowMap, colMap, k / d, k % d);
  }

  /** The connection list of a valid array. */
  function Conns(rd: nat, cd: nat, rowMap: map<int, int>, colMap: map<int, int>): (ls: seq<Request>)
    requires Valid(rd, cd, rowMap, colMap)
    ensures |ls| == Pow2(rd + cd) * (rd + cd)
  {
    ItemsKnown(rd, cd, rowMap, colMap);
    var c := Counters(Pow2(rd), Pow2(cd), rd);
    Assign(Items(rd, cd, rowMap, colMap), c, c).value.0
  }

  /** On a valid array `generate` succeeds, with one link per edge:
      `rows * cols * (log2(rows) + log2(cols))` links. */
  lemma HyperOk(rd: nat, cd: nat, rowMap: map<int, int>, colMap: map<int, int>)
    requires Valid(rd, cd, rowMap, colMap)
    ensures Generate(Pow2(rd), Pow2(cd), rowMap, colMap) == Ok(Net(HyperPorts(rd, cd), Conns(rd, cd, rowMap, colMap)))
    ensures |Conns(rd, cd, rowMap, colMap)| == Pow2(rd) * Pow2(cd) * (rd + cd)
  {
    var rows, cols := Pow2(rd), Pow2(cd);
    assert Log2(rows) == Some(rd) && Log2(cols) == Some(cd) by {
      Log2Exact(rd);
      Log2Exact(cd);
    }
    var items, c := Items(rd, cd, rowMap, colMap), Counters(rows, cols, rd);
    assert Translate(rows, cols, rd, rowMap, colMap, Edges(rd + cd)) == Ok(items) by {
      ItemsTranslate(rd, cd, rowMap, colMap);
    }
    assert Assign(items, c, c).Ok? by {
      ItemsKnown(rd, cd, rowMap, colMap);
    }
    GenerateOf(rows, cols, rowMap, colMap, rd, cd, items);
    ConnsCount(rd, cd, rowMap, colMap);
  }

  lemma ConnsCount(rd: nat, cd: nat, rowMap: map<int, int>, colMap: map<int, int>)
    requires Valid(rd, cd, rowMap, colMap)
    ensures |Conns(rd, cd, rowMap, colMap)| == Pow2(rd) * Pow2(cd) * (rd + cd)
  {
    PowAdd(rd, cd);
  }

  /** Once both sizes are powers of two and every edge translates,
      `generate` returns what `Assign` makes of the items. */
  lemma GenerateOf(rows: int, cols: int, rowMap: map<int, int>, colMap: map<int, int>, rd: nat, cd: nat, items: seq<Item>)
    requires rows > 0 && cols > 0 && Log2(rows) == Some(rd) && Log2(cols) == Some(cd)
    requires Translate(rows, cols, rd, rowMap, colMap, Edges(rd + cd)) == Ok(items)
    requires var c := Counters(rows, cols, rd); Assign(items, c, c).Ok?
    ensures var c := Counters(rows, cols, rd);
            Generate(rows, cols, rowMap, colMap) == Ok(Net(HyperPorts(rd, cd), Assign(items, c, c).value.0))
  {
    var c := Counters(rows, cols, rd);
    assert Generate(rows, cols, rowMap, colMap) == Build(rows, cols, rd, cd, rowMap, colMap);
    assert Build(rows, cols, rd, cd, rowMap, colMap) == Finish(items, c, rd, cd);
    assert Finish(items, c, rd, cd) == Ok(Net(HyperPorts(rd, cd), Assign(items, c, c).value.0));
  }

  /** Link `i * d + j` joins the tile of id `i` to the tile of the id with
      digit `j` flipped, which shares its column when a row digit flipped
      and its row otherwise. Mesh neighbours use facing mesh ports; other
      column links use ports from 4 on and other row links ports from
      `RowStart` on. */
  lemma HyperLink(rd: nat, cd: nat, rowMap: map<int, int>, colMap: map<int, int>, i: int, j: int, k: int, s: Tile, t: Tile)
    requires Valid(rd, cd, rowMap, colMap) && 0 <= i < Pow2(rd + cd) && 0 <= j < rd + cd && k == i * (rd + cd) + j
    requires s == Place(rd, cd, rowMap, colMap, i) && t == Place(rd, cd, rowMap, colMap, Neighbour(rd + cd, i, j))
    ensures (j < rd ==> s.1 == t.1) && (j >= rd ==> s.0 == t.0)
    ensures 0 <= k < |Conns(rd, cd, rowMap, colMap)| && Ends(Conns(rd, cd, rowMap, colMap)[k]) == (s, t)
    ensures var rows, cols, l := Pow2(rd), Pow2(cd), Conns(rd, cd, rowMap, colMap)[k];
            && (Adjacent(rows, cols, s, t) ==> Facing(rows, cols, s, t, l))
            && (!Adjacent(rows, cols, s, t) && s.1 == t.1 ==> l.m.port >= 4 && l.s.port >= 4)
            && (!Adjacent(rows, cols, s, t) && s.1 != t.1 ==> l.m.port >= RowStart(rd) && l.s.port >= RowStart(rd))
  {
    var rows, cols := Pow2(rd), Pow2(cd);
    ItemAt(rd, cd, rowMap, colMap, i, j, k);
    ItemClassified(rd, cd, rowMap, colMap, i, j);
    ClassifyPorts(rows, cols, s, t);
    var items := Items(rd, cd, rowMap, colMap);
    var c := Counters(rows, cols, rd);
    ConnAt(rd, cd, rowMap, colMap, k);
    var l := Conns(rd, cd, rowMap, colMap)[k];
    if Adjacent(rows, cols, s, t) {
      assert l == items[k].q;
    }
  }

  /** Link `k` is the one `Expected` gives for item `k`. */
  lemma ConnAt(rd: nat, cd: nat, rowMap: map<int, int>, colMap: map<int, int>, k: int)
    requires Valid(rd, cd, rowMap, colMap) && 0 <= k < Pow2(rd + cd) * (rd + cd)
    ensures var items, c := Items(rd, cd, rowMap, colMap), Counters(Pow2(rd), Pow2(cd), rd);
            && Known(items, c, c) && k < |Conns(rd, cd, rowMap, colMap)|
            && Conns(rd, cd, rowMap, colMap)[k] == Expected(items, c, c, k)
  {
    var items, c := Items(rd, cd, rowMap, colMap), Counters(Pow2(rd), Pow2(cd), rd);
    ItemsKnown(rd, cd, rowMap, colMap);
    AssignNumbers(items, c, c);
  }

  /** The tiles a link joins. */
  function Ends(l: Request): (Tile, Tile) {
    ((l.m.row, l.m.col), (l.s.row, l.s.col))
  }

  /** A single row of tiles leaves the row part of every id empty, and
      `int("", 2)` stops the generator: a 1 x 2 array fails although its
      sizes are powers of two. */
  lemma HyperOneRow(rowMap: map<int, int>, colMap: map<int, int>)
    ensures Generate(1, 2, rowMap, colMap).Err?
  {
    Log2Exact(0);
    Log2Exact(1);
    assert Pow2(1) == 2;
    EdgeAt(1, 0, 0);
  }
}
