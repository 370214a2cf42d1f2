/** What the topology generators (src/generate_*.py) have in common: the
    port requests they hand to `create_tile`, the connection lists they
    hand to place-and-route, the nested loops that build those lists, and
    the per-tile "next free port" counters some of them keep. */
module Topology {
  import opened Wrappers
  import opened Coarse

  /** One entry of `mports`/`sports`: the face a port sits on and its
      alignment. */
  datatype Want = Want(face: string, align: int)
  datatype Ports = Ports(ms: seq<Want>, ss: seq<Want>)
  /** A generator's result: the tile's ports and the connections. */
  datatype Net = Net(ports: Ports, conns: seq<Request>)

  /** The four mesh ports, ids 0 north, 1 east, 2 south, 3 west; the
      alignments keep a master and the slave it faces apart. */
  const MeshPorts: Ports :=
    Ports([Want("north", -1), Want("east", -1), Want("south", 1), Want("west", 1)],
          [Want("north", 1), Want("east", 1), Want("south", -1), Want("west", -1)])

  /** `((r1, c1, p1), (r2, c2, p2))`. */
  function Link(r1: int, c1: int, p1: int, r2: int, c2: int, p2: int): Request {
    Request(End(r1, c1, p1), End(r2, c2, p2))
  }

  /** The same link in the other direction. */
  function Swap(q: Request): Request {
    Request(q.s, q.m)
  }

  /** `validate_connections` accepts the list: no master end and no slave
      end is used twice. */
  predicate Unshared(qs: seq<Request>) {
    Distinct(Masters(qs)) && Distinct(Slaves(qs))
  }

  lemma UnsharedAccepted(qs: seq<Request>)
    requires Unshared(qs)
    ensures ValidateConnections(qs) == Pass
  {
  }

  // --------------------------------------------------------- nested loops

  /** The concatenation of the blocks a loop appends, in order. */
  function Flat<T>(bs: seq<seq<T>>): seq<T> {
    if |bs| == 0 then [] else Flat(bs[..|bs| - 1]) + bs[|bs| - 1]
  }

  /** An element of the concatenation comes from some block, and every
      block's elements are in it. */
  lemma {:induction false} FlatMembers<T>(bs: seq<seq<T>>)
    ensures forall x :: x in Flat(bs) <==> exists i :: 0 <= i < |bs| && x in bs[i]
    decreases |bs|
  {
    if |bs| > 0 {
      var init := bs[..|bs| - 1];
      FlatMembers(init);
      assert forall i :: 0 <= i < |init| ==> init[i] == bs[i];
    }
  }

  /** Blocks of `n` elements each make `|bs| * n` elements. */
  lemma {:induction false} FlatUniform<T>(bs: seq<seq<T>>, n: nat)
    requires forall i :: 0 <= i < |bs| ==> |bs[i]| == n
    ensures |Flat(bs)| == |bs| * n
    decreases |bs|
  {
    if |bs| > 0 {
      var init := bs[..|bs| - 1];
      assert forall i :: 0 <= i < |init| ==> init[i] == bs[i];
      FlatUniform(init, n);
      assert |Flat(bs)| == |Flat(init)| + |bs[|init|]|;
      MulSucc(|init|, n);
    }
  }

  /** Blocks of `a` elements, all but the last with `b` more. */
  lemma FlatAllButLast<T>(bs: seq<seq<T>>, a: nat, b: nat)
    requires |bs| > 0
    requires forall i :: 0 <= i < |bs| ==> |bs[i]| == a + (if i < |bs| - 1 then b else 0)
    ensures |Flat(bs)| == |bs| * a + (|bs| - 1) * b
  {
    var init := bs[..|bs| - 1];
    assert forall i :: 0 <= i < |init| ==> init[i] == bs[i];
    FlatUniform(init, a + b);
    var n := |init|;
    assert |bs[n]| == a;
    assert |Flat(bs)| == |Flat(init)| + |bs[n]|;
    Distribute(n, a, b);
  }

  /** In blocks of `n` elements each, element `j` of block `i` sits at
      `i * n + j` of the concatenation. */
  lemma {:induction false} FlatAt<T>(bs: seq<seq<T>>, n: nat, i: nat, j: nat)
    requires forall k :: 0 <= k < |bs| ==> |bs[k]| == n
    requires i < |bs| && j < n
    ensures i * n + j < |Flat(bs)| && Flat(bs)[i * n + j] == bs[i][j]
    decreases |bs|
  {
    var init := bs[..|bs| - 1];
    assert forall k :: 0 <= k < |init| ==> init[k] == bs[k];
    FlatUniform(bs, n);
    FlatUniform(init, n);
    assert Flat(bs) == Flat(init) + bs[|init|];
    if i < |init| {
      FlatAt(init, n, i, j);
    } else {
      assert i * n + j == |Flat(init)| + j;
    }
  }

  lemma MulSucc(k: int, n: int)
    ensures k * n + n == (k + 1) * n
  {
  }

  lemma Distribute(n: int, a: int, b: int)
    ensures n * (a + b) + a == (n + 1) * a + n * b
  {
  }

  lemma {:induction false} MastersAppend(a: seq<Request>, b: seq<Request>)
    ensures Masters(a + b) == Masters(a) + Masters(b)
    ensures Slaves(a + b) == Slaves(a) + Slaves(b)
  {
  }

  lemma DistinctAppend<T>(a: seq<T>, b: seq<T>)
    requires Distinct(a) && Distinct(b)
    requires forall i, j :: 0 <= i < |a| && 0 <= j < |b| ==> a[i] != b[j]
    ensures Distinct(a + b)
  {
    forall i, j | 0 <= i < j < |a + b| ensures (a + b)[i] != (a + b)[j] {
      if j < |a| {
        assert (a + b)[i] == a[i] && (a + b)[j] == a[j];
      } else if i >= |a| {
        assert (a + b)[i] == b[i - |a|] && (a + b)[j] == b[j - |a|];
      }
    }
  }

  /** Each block's ends carry the block's number under `mk` (master ends)
      and `sk` (slave ends). */
  predicate Keyed(bs: seq<seq<Request>>, mk: End -> int, sk: End -> int) {
    forall i, k :: 0 <= i < |bs| && 0 <= k < |bs[i]| ==> mk(bs[i][k].m) == i && sk(bs[i][k].s) == i
  }

  /** Blocks that use no end twice, and whose ends tell which block they
      belong to, concatenate to a list that uses no end twice. */
  lemma {:induction false} FlatUnshared(bs: seq<seq<Request>>, mk: End -> int, sk: End -> int)
    requires forall i :: 0 <= i < |bs| ==> Unshared(bs[i])
    requires Keyed(bs, mk, sk)
    ensures Unshared(Flat(bs))
    ensures forall k :: 0 <= k < |Flat(bs)| ==>
              0 <= mk(Flat(bs)[k].m) < |bs| && 0 <= sk(Flat(bs)[k].s) < |bs|
    decreases |bs|
  {
    if |bs| > 0 {
      var init, last := bs[..|bs| - 1], bs[|bs| - 1];
      assert Keyed(init, mk, sk) by {
        assert forall i :: 0 <= i < |init| ==> init[i] == bs[i];
      }
      FlatUnshared(init, mk, sk);
      var f := Flat(init);
      MastersAppend(f, last);
      forall i, j | 0 <= i < |f| && 0 <= j < |last| ensures Masters(f)[i] != Masters(last)[j] {
        assert mk(f[i].m) < |init| && mk(last[j].m) == |init|;
      }
      forall i, j | 0 <= i < |f| && 0 <= j < |last| ensures Slaves(f)[i] != Slaves(last)[j] {
        assert sk(f[i].s) < |init| && sk(last[j].s) == |init|;
      }
      DistinctAppend(Masters(f), Masters(last));
      DistinctAppend(Slaves(f), Slaves(last));
      forall k | 0 <= k < |Flat(bs)|
        ensures 0 <= mk(Flat(bs)[k].m) < |bs| && 0 <= sk(Flat(bs)[k].s) < |bs|
      {
        if k >= |f| {
          assert Flat(bs)[k] == last[k - |f|];
        } else {
          assert Flat(bs)[k] == f[k];
        }
      }
    }
  }

  /** Every block closed under `Swap` makes a list closed under `Swap`. */
  lemma FlatSwapClosed(bs: seq<seq<Request>>)
    requires forall i, q :: 0 <= i < |bs| && q in bs[i] ==> Swap(q) in bs[i]
    ensures forall q :: q in Flat(bs) ==> Swap(q) in Flat(bs)
  {
    FlatMembers(bs);
  }

  /** Two lists that use disjoint port numbers share no end. */
  lemma UnsharedJoin(a: seq<Request>, b: seq<Request>, split: int)
    requires Unshared(a) && Unshared(b)
    requires forall k :: 0 <= k < |a| ==> a[k].m.port < split && a[k].s.port < split
    requires forall k :: 0 <= k < |b| ==> b[k].m.port >= split && b[k].s.port >= split
    ensures Unshared(a + b)
  {
    MastersAppend(a, b);
    DistinctAppend(Masters(a), Masters(b));
    DistinctAppend(Slaves(a), Slaves(b));
  }

  /** Two lists that share no master end and no slave end concatenate to
      a list that uses no end twice. */
  lemma UnsharedDisjoint(a: seq<Request>, b: seq<Request>)
    requires Unshared(a) && Unshared(b)
    requires forall k, l :: 0 <= k < |a| && 0 <= l < |b| ==> a[k].m != b[l].m && a[k].s != b[l].s
    ensures Unshared(a + b)
  {
    MastersAppend(a, b);
    DistinctAppend(Masters(a), Masters(b));
    DistinctAppend(Slaves(a), Slaves(b));
  }

  /** Two different links out of the same master end make
      `validate_connections` reject the list. */
  lemma SharedMasterRejected(qs: seq<Request>, a: Request, b: Request)
    requires a in qs && b in qs && a != b && a.m == b.m
    ensures !Unshared(qs) && ValidateConnections(qs).Fail?
  {
    var i :| 0 <= i < |qs| && qs[i] == a;
    var j :| 0 <= j < |qs| && qs[j] == b;
    assert Masters(qs)[i] == Masters(qs)[j];
  }

  // ------------------------------------------------------------- counters

  /** `len(range(x))`. */
  function Span(x: int): nat {
    if x < 0 then 0 else x
  }

  type Tile = (int, int)

  /** One step of a counter-based generator: a link with fixed ports, or a
      link from tile `a` to tile `b` whose ports are the next free ones of
      network `net` (the column or the row network). */
  datatype Item = Fixed(q: Request) | Counted(net: nat, a: Tile, b: Tile)

  /** The next free port per network and tile; a missing key is a tile
      the counter maps were not built for. */
  type Counters = map<(nat, Tile), int>

  /** The counters of `net` for every tile of a `rows` x `cols` array, all
      starting at `start`. */
  function Fresh(rows: nat, cols: nat, net: nat, start: int): (r: Counters)
    ensures forall n, t :: (n, t) in r <==> n == net && 0 <= t.0 < rows && 0 <= t.1 < cols
    ensures forall key :: key in r ==> r[key] == start
  {
    var keys := set r: int, c: int | 0 <= r < rows && 0 <= c < cols :: (net, (r, c));
    map key | key in keys :: start
  }

  /** How many counted links of `net` leave (`master`) or enter tile `t`. */
  function Seen(items: seq<Item>, net: nat, t: Tile, master: bool): (n: nat)
    ensures n <= |items|
  {
    if |items| == 0 then 0
    else
      var x := items[|items| - 1];
      Seen(items[..|items| - 1], net, t, master)
        + (if x.Counted? && x.net == net && (if master then x.a else x.b) == t then 1 else 0)
  }

  predicate Known(items: seq<Item>, m: Counters, s: Counters) {
    forall k :: 0 <= k < |items| && items[k].Counted? ==>
      (items[k].net, items[k].a) in m && (items[k].net, items[k].b) in s
  }

  /** The link item `k` becomes: fixed links as given, counted ones with
      the counters' values when the item is reached. */
  function Expected(items: seq<Item>, m: Counters, s: Counters, k: nat): Request
    requires Known(items, m, s) && k < |items|
  {
    match items[k]
    case Fixed(q) => q
    case Counted(n, a, b) =>
      Link(a.0, a.1, m[(n, a)] + Seen(items[..k], n, a, true), b.0, b.1, s[(n, b)] + Seen(items[..k], n, b, false))
  }

  predicate Numbered(items: seq<Item>, m: Counters, s: Counters, qs: seq<Request>)
    requires Known(items, m, s)
  {
    |qs| == |items| && forall k :: 0 <= k < |items| ==> qs[k] == Expected(items, m, s, k)
  }

  /** `get_connection` and its kin: each counted link takes the master
      tile's and the slave tile's next free port of its network and
      advances both counters. A tile without a counter is a `KeyError`. */
  function Assign(items: seq<Item>, m: Counters, s: Counters): (r: Result<(seq<Request>, Counters, Counters)>)
    ensures r.Ok? <==> Known(items, m, s)
    ensures r.Ok? ==> |r.value.0| == |items| && r.value.1.Keys == m.Keys && r.value.2.Keys == s.Keys
    ensures r.Ok? ==> forall key :: key in m ==> r.value.1[key] == m[key] + Seen(items, key.0, key.1, true)
    ensures r.Ok? ==> forall key :: key in s ==> r.value.2[key] == s[key] + Seen(items, key.0, key.1, false)
    decreases |items|
  {
    if |items| == 0 then Ok(([], m, s))
    else
      var init := items[..|items| - 1];
      KnownSnoc(items, m, s);
      var (qs, m1, s1) :- Assign(init, m, s);
      var (q, m2, s2) :- AssignItem(items[|items| - 1], m1, s1);
      Ok((qs + [q], m2, s2))
  }

  /** The items are known exactly when those before the last are and the
      last one is. */
  lemma KnownSnoc(items: seq<Item>, m: Counters, s: Counters)
    requires |items| > 0
    ensures var x := items[|items| - 1];
            Known(items, m, s) <==>
            Known(items[..|items| - 1], m, s) && (x.Counted? ==> (x.net, x.a) in m && (x.net, x.b) in s)
  {
    var init := items[..|items| - 1];
    assert forall k :: 0 <= k < |init| ==> init[k] == items[k];
  }

  /** One item: its link and the advanced counters. */
  function AssignItem(x: Item, m: Counters, s: Counters): (r: Result<(Request, Counters, Counters)>)
    ensures r.Ok? <==> (x.Counted? ==> (x.net, x.a) in m && (x.net, x.b) in s)
    ensures r.Ok? ==> r.value.1.Keys == m.Keys && r.value.2.Keys == s.Keys
    ensures r.Ok? ==> forall key :: key in m ==>
              r.value.1[key] == m[key] + (if x.Counted? && x.net == key.0 && x.a == key.1 then 1 else 0)
    ensures r.Ok? ==> forall key :: key in s ==>
              r.value.2[key] == s[key] + (if x.Counted? && x.net == key.0 && x.b == key.1 then 1 else 0)
  {
    match x
    case Fixed(q) => Ok((q, m, s))
    case Counted(n, a, b) =>
      if (n, a) !in m || (n, b) !in s then Err("KeyError")
      else Ok((Link(a.0, a.1, m[(n, a)], b.0, b.1, s[(n, b)]), m[(n, a) := m[(n, a)] + 1], s[(n, b) := s[(n, b)] + 1]))
  }

  /** The links `Assign` produces are the numbered items. */
  lemma {:induction false} AssignNumbers(items: seq<Item>, m: Counters, s: Counters)
    requires Known(items, m, s)
    ensures Numbered(items, m, s, Assign(items, m, s).value.0)
    decreases |items|
  {
    if |items| > 0 {
      var init, x := items[..|items| - 1], items[|items| - 1];
      assert forall k :: 0 <= k < |init| ==> init[k] == items[k];
      assert Known(init, m, s);
      AssignNumbers(init, m, s);
      var r1 := Assign(init, m, s).value;
      var qs := Assign(items, m, s).value.0;
      AssignLast(items, m, s);
      forall k | 0 <= k < |init| ensures qs[k] == Expected(items, m, s, k) {
        ExpectedPrefix(items, m, s, k);
      }
    }
  }

  /** An item's link depends only on the items before it. */
  lemma ExpectedPrefix(items: seq<Item>, m: Counters, s: Counters, k: nat)
    requires Known(items, m, s) && k < |items| - 1
    ensures Known(items[..|items| - 1], m, s)
    ensures Expected(items[..|items| - 1], m, s, k) == Expected(items, m, s, k)
  {
    var init := items[..|items| - 1];
    assert init[k] == items[k];
    assert init[..k] == items[..k];
    KnownSnoc(items, m, s);
  }

  /** The last item's link extends the links of the items before it. */
  lemma AssignLast(items: seq<Item>, m: Counters, s: Counters)
    requires Known(items, m, s) && |items| > 0
    ensures var init := items[..|items| - 1];
            Known(init, m, s) &&
            Assign(items, m, s).value.0 == Assign(init, m, s).value.0 + [Expected(items, m, s, |init|)]
  {
    var init := items[..|items| - 1];
    assert forall k :: 0 <= k < |init| ==> init[k] == items[k];
    assert items[..|init|] == init;
  }

  /** The counted links of one network share no master end and no slave
      end: a tile's counter only goes up. */
  lemma AssignSeparates(items: seq<Item>, m: Counters, s: Counters, i: nat, j: nat)
    requires Known(items, m, s) && i < j < |items|
    requires items[i].Counted? && items[j].Counted? && items[i].net == items[j].net
    ensures var qs := Assign(items, m, s).value.0;
            qs[i].m != qs[j].m && qs[i].s != qs[j].s
  {
    AssignNumbers(items, m, s);
    var n := items[i].net;
    SeenGrows(items, n, items[i].a, true, i, j);
    SeenGrows(items, n, items[i].b, false, i, j);
  }

  /** An item counted for `t` raises the count of every later prefix. */
  lemma {:induction false} SeenGrows(items: seq<Item>, n: nat, t: Tile, master: bool, i: nat, j: nat)
    requires i < j <= |items|
    requires items[i].Counted? && items[i].net == n && (if master then items[i].a else items[i].b) == t
    ensures Seen(items[..j], n, t, master) >= Seen(items[..i], n, t, master) + 1
    decreases j - i
  {
    var p := items[..j];
    assert p[..j - 1] == items[..j - 1];
    if j - 1 > i {
      SeenGrows(items, n, t, master, i, j - 1);
    } else {
      assert p[j - 1] == items[i];
    }
  }

  /** The port a counted link takes is below its counter's final value:
      if no tile has more than `cap` links of a network, a counter starting
      at `start` hands out ports below `start + cap`. */
  lemma {:induction false} SeenPrefix(items: seq<Item>, n: nat, t: Tile, master: bool, k: nat)
    requires k < |items|
    requires items[k].Counted? && items[k].net == n && (if master then items[k].a else items[k].b) == t
    ensures Seen(items[..k], n, t, master) < Seen(items, n, t, master)
  {
    SeenGrows(items, n, t, master, k, |items|);
    assert items[..|items|] == items;
  }

  /** Counting over a concatenation adds up. */
  lemma {:induction false} SeenAppend(a: seq<Item>, b: seq<Item>, n: nat, t: Tile, master: bool)
    ensures Seen(a + b, n, t, master) == Seen(a, n, t, master) + Seen(b, n, t, master)
    decreases |b|
  {
    if |b| > 0 {
      var b' := b[..|b| - 1];
      assert (a + b)[..|a + b| - 1] == a + b';
      SeenAppend(a, b', n, t, master);
    } else {
      assert a + b == a;
    }
  }

  /** Fixed items take no counter. */
  lemma {:induction false} SeenFixed(items: seq<Item>, n: nat, t: Tile, master: bool)
    requires forall k :: 0 <= k < |items| ==> items[k].Fixed?
    ensures Seen(items, n, t, master) == 0
    decreases |items|
  {
    if |items| > 0 {
      SeenFixed(items[..|items| - 1], n, t, master);
    }
  }

  /** Item `x` takes a port of tile `t` on network `net`. */
  predicate Hits(x: Item, net: nat, t: Tile, master: bool) {
    x.Counted? && x.net == net && (if master then x.a else x.b) == t
  }

  /** Items none of which takes a port of `t` leave its counter alone. */
  lemma {:induction false} SeenNone(items: seq<Item>, n: nat, t: Tile, master: bool)
    requires forall k :: 0 <= k < |items| ==> !Hits(items[k], n, t, master)
    ensures Seen(items, n, t, master) == 0
    decreases |items|
  {
    if |items| > 0 {
      SeenNone(items[..|items| - 1], n, t, master);
    }
  }

  /** Items all of which take a port of `t` count one each. */
  lemma {:induction false} SeenAll(items: seq<Item>, n: nat, t: Tile, master: bool)
    requires forall k :: 0 <= k < |items| ==> Hits(items[k], n, t, master)
    ensures Seen(items, n, t, master) == |items|
    decreases |items|
  {
    if |items| > 0 {
      SeenAll(items[..|items| - 1], n, t, master);
    }
  }

  /** Exactly item `j` (if any) takes a port of `t`. */
  lemma {:induction false} SeenOne(items: seq<Item>, n: nat, t: Tile, master: bool, j: int)
    requires forall k :: 0 <= k < |items| ==> (Hits(items[k], n, t, master) <==> k == j)
    ensures Seen(items, n, t, master) == if 0 <= j < |items| then 1 else 0
    decreases |items|
  {
    if |items| > 0 {
      var init := items[..|items| - 1];
      if j == |items| - 1 {
        SeenNone(init, n, t, master);
      } else {
        SeenOne(init, n, t, master, j);
      }
    }
  }

  /** Blocks that each count `v` for `t` count `|bs| * v` together. */
  lemma {:induction false} SeenFlatUniform(bs: seq<seq<Item>>, n: nat, t: Tile, master: bool, v: nat)
    requires forall i :: 0 <= i < |bs| ==> Seen(bs[i], n, t, master) == v
    ensures Seen(Flat(bs), n, t, master) == |bs| * v
    decreases |bs|
  {
    if |bs| > 0 {
      var init := bs[..|bs| - 1];
      assert forall i :: 0 <= i < |init| ==> init[i] == bs[i];
      SeenFlatUniform(init, n, t, master, v);
      SeenAppend(Flat(init), bs[|bs| - 1], n, t, master);
      MulSucc(|init|, v);
    }
  }

  /** When only block `i0` counts for `t`, the blocks together count what
      it counts. */
  lemma {:induction false} SeenFlatSingle(bs: seq<seq<Item>>, n: nat, t: Tile, master: bool, i0: int, v: nat)
    requires forall i :: 0 <= i < |bs| ==> Seen(bs[i], n, t, master) == if i == i0 then v else 0
    ensures Seen(Flat(bs), n, t, master) == if 0 <= i0 < |bs| then v else 0
    decreases |bs|
  {
    if |bs| > 0 {
      var init := bs[..|bs| - 1];
      assert forall i :: 0 <= i < |init| ==> init[i] == bs[i];
      SeenFlatSingle(init, n, t, master, i0, v);
      SeenAppend(Flat(init), bs[|bs| - 1], n, t, master);
    }
  }

  /** No two fixed items share a master end or a slave end. */
  predicate FixedApart(items: seq<Item>) {
    forall i, j :: 0 <= i < j < |items| && items[i].Fixed? && items[j].Fixed? ==>
      items[i].q.m != items[j].q.m && items[i].q.s != items[j].q.s
  }

  /** The fixed items of each block carry the block's number under `mk`
      and `sk`. */
  predicate FixedKeyed(bs: seq<seq<Item>>, mk: End -> int, sk: End -> int) {
    forall i, k :: 0 <= i < |bs| && 0 <= k < |bs[i]| && bs[i][k].Fixed? ==>
      mk(bs[i][k].q.m) == i && sk(bs[i][k].q.s) == i
  }

  /** `FlatUnshared` for the fixed items of a loop. */
  lemma {:induction false} FlatFixedApart(bs: seq<seq<Item>>, mk: End -> int, sk: End -> int)
    requires forall i :: 0 <= i < |bs| ==> FixedApart(bs[i])
    requires FixedKeyed(bs, mk, sk)
    ensures FixedApart(Flat(bs))
    ensures forall k :: 0 <= k < |Flat(bs)| && Flat(bs)[k].Fixed? ==>
              0 <= mk(Flat(bs)[k].q.m) < |bs| && 0 <= sk(Flat(bs)[k].q.s) < |bs|
    decreases |bs|
  {
    if |bs| > 0 {
      var init, last := bs[..|bs| - 1], bs[|bs| - 1];
      assert FixedKeyed(init, mk, sk) by {
        assert forall i :: 0 <= i < |init| ==> init[i] == bs[i];
      }
      FlatFixedApart(init, mk, sk);
      var f := Flat(init);
      assert Flat(bs) == f + last;
      forall k | 0 <= k < |Flat(bs)| && Flat(bs)[k].Fixed?
        ensures 0 <= mk(Flat(bs)[k].q.m) < |bs| && 0 <= sk(Flat(bs)[k].q.s) < |bs|
      {
        if k >= |f| {
          assert Flat(bs)[k] == last[k - |f|];
        } else {
          assert Flat(bs)[k] == f[k];
        }
      }
      forall i, j | 0 <= i < j < |Flat(bs)| && Flat(bs)[i].Fixed? && Flat(bs)[j].Fixed?
        ensures Flat(bs)[i].q.m != Flat(bs)[j].q.m && Flat(bs)[i].q.s != Flat(bs)[j].q.s
      {
        if j < |f| {
          assert Flat(bs)[i] == f[i] && Flat(bs)[j] == f[j];
        } else if i >= |f| {
          assert Flat(bs)[i] == last[i - |f|] && Flat(bs)[j] == last[j - |f|];
        } else {
          assert Flat(bs)[i] == f[i] && Flat(bs)[j] == last[j - |f|];
          assert mk(f[i].q.m) < |init| && sk(f[i].q.s) < |init|;
        }
      }
    }
  }

  /** The first block comes first. */
  lemma {:induction false} FlatHead<T>(bs: seq<seq<T>>)
    requires |bs| > 0
    ensures Flat(bs) == bs[0] + Flat(bs[1..])
    decreases |bs|
  {
    if |bs| > 1 {
      var init := bs[..|bs| - 1];
      FlatHead(init);
      assert init[1..] == bs[1..][..|bs[1..]| - 1];
      assert init[0] == bs[0];
    } else {
      assert bs[..0] == [];
      assert bs[1..] == [];
    }
  }

  /** The quotient and remainder of `i` by `p` are the one pair with
      `i == a * p + b` and `b` in `[0, p)`. */
  lemma DivUnique(i: int, p: int, a: int, b: int)
    requires p > 0 && 0 <= b < p && i == a * p + b
    ensures i / p == a && i % p == b
  {
    var m := a - i / p;
    assert m * p == i % p - b;
  }
}
