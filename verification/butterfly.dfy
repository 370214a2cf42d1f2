/** The flattened butterfly generator (`generate` in
    src/generate_flattened_butterfly.py). Every column is a network in
    which each tile links to its two ring neighbours on the mesh ports and
    to every other tile of the column on counted ports; every row is the
    same along the row. Column networks number their counted ports from
    4, row networks from the first port after the column ones. */
module Butterfly {
  import opened Wrappers
  import opened Coarse
  import opened Topology
  import Torus

  /** Which of the two networks: along columns or along rows. */
  datatype Dir = Col | Row

  /** The counter network of a direction. */
  function NetOf(o: Dir): nat {
    if o == Col then 0 else 1
  }

  /** The ring's forward port (0 north for columns, 1 east for rows); the
      backward port is two further. */
  function RingPort(o: Dir): int {
    if o == Col then 0 else 1
  }

  /** The tile at position `pos` of line `line`: a column's positions are
      rows, a row's positions are columns. */
  function TileAt(o: Dir, line: int, pos: int): Tile {
    if o == Col then (pos, line) else (line, pos)
  }

  function LineOf(o: Dir, t: Tile): int {
    if o == Col then t.1 else t.0
  }

  function PosOf(o: Dir, t: Tile): int {
    if o == Col then t.0 else t.1
  }

  function At(o: Dir, line: int, pos: int, port: int): End {
    var t := TileAt(o, line, pos);
    End(t.0, t.1, port)
  }

  /** `x` is one of the "remaining" tiles of position `r` on a line of `n`:
      neither `r` nor its two ring neighbours. */
  predicate Other(n: nat, r: int, x: int) {
    n > 0 && x != r && x != (r - 1) % n && x != (r + 1) % n
  }

  /** The positions below `k` that are others of `r`, ascending. */
  function Below(n: nat, r: int, k: nat): seq<int> {
    if k == 0 then [] else Below(n, r, k - 1) + (if Other(n, r, k - 1) then [k - 1] else [])
  }

  function Others(n: nat, r: int): seq<int> {
    Below(n, r, n)
  }

  /** The counted links from position `pos` to each of `os`. */
  function Outs(o: Dir, line: int, pos: int, os: seq<int>): seq<Item> {
    seq(|os|, j requires 0 <= j < |os| => Counted(NetOf(o), TileAt(o, line, pos), TileAt(o, line, os[j])))
  }

  /** The ring link to the next position, `(pos + 1) % n`. */
  function Forward(o: Dir, n: nat, line: int, pos: int): Request
    requires n > 0
  {
    Request(At(o, line, pos, RingPort(o)), At(o, line, (pos + 1) % n, RingPort(o) + 2))
  }

  /** The ring link to the previous position, `(pos - 1) % n`. */
  function Backward(o: Dir, n: nat, line: int, pos: int): Request
    requires n > 0
  {
    Request(At(o, line, pos, RingPort(o) + 2), At(o, line, (pos - 1) % n, RingPort(o)))
  }

  /** The two ring links of one tile, then its counted links. */
  function Cell(o: Dir, n: nat, line: int, pos: int): seq<Item>
    requires n > 0
  {
    [Fixed(Forward(o, n, line, pos)), Fixed(Backward(o, n, line, pos))] + Outs(o, line, pos, Others(n, pos))
  }

  function LineCells(o: Dir, n: nat, line: int): seq<seq<Item>> {
    seq(n, pos requires 0 <= pos < n => Cell(o, n, line, pos))
  }

  function LineItems(o: Dir, n: nat, line: int): seq<Item> {
    Flat(LineCells(o, n, line))
  }

  function Lines(o: Dir, n: nat, m: nat): seq<seq<Item>> {
    seq(m, line => LineItems(o, n, line))
  }

  /** One network: `m` lines of `n` tiles, line by line. */
  function Items(o: Dir, n: nat, m: nat): seq<Item> {
    Flat(Lines(o, n, m))
  }

  /** How many counted ports a tile needs on a line of `n` tiles:
      `len(range(n - 3))`. */
  function Cap(n: nat): nat {
    if n >= 3 then n - 3 else 0
  }

  // ------------------------------------------------------------- others

  lemma {:induction false} BelowMembers(n: nat, r: int, k: nat)
    ensures forall x :: x in Below(n, r, k) <==> 0 <= x < k && Other(n, r, x)
  {
    if k > 0 {
      BelowMembers(n, r, k - 1);
    }
  }

  /** Being an other is symmetric on the line. */
  lemma OtherSymmetric(n: nat, r: int, x: int)
    requires 0 <= r < n && 0 <= x < n
    ensures Other(n, r, x) == Other(n, x, r)
  {
    Torus.Wrap(r, n);
    Torus.Wrap(x, n);
  }

  /** The ring neighbours of `r` on a line of at least three tiles are two
      other positions of the line. */
  lemma Neighbours(n: nat, r: int)
    requires n >= 3 && 0 <= r < n
    ensures 0 <= (r - 1) % n < n && 0 <= (r + 1) % n < n
    ensures r != (r - 1) % n && r != (r + 1) % n && (r - 1) % n != (r + 1) % n
  {
    if r == 0 {
      DivUnique(r - 1, n, -1, n - 1);
      DivUnique(r + 1, n, 0, 1);
    } else if r == n - 1 {
      DivUnique(r - 1, n, 0, n - 2);
      DivUnique(r + 1, n, 1, 0);
    } else {
      DivUnique(r - 1, n, 0, r - 1);
      DivUnique(r + 1, n, 0, r + 1);
    }
  }

  /** The three excluded positions of `r` below `k`. */
  function Excluded(n: nat, r: int, k: int): nat
    requires n > 0
  {
    (if r < k then 1 else 0) + (if (r - 1) % n < k then 1 else 0) + (if (r + 1) % n < k then 1 else 0)
  }

  lemma {:induction false} BelowCount(n: nat, r: int, k: nat)
    requires n >= 3 && 0 <= r < n && k <= n
    ensures |Below(n, r, k)| == k - Excluded(n, r, k)
  {
    if k > 0 {
      BelowCount(n, r, k - 1);
      var a, b := (r - 1) % n, (r + 1) % n;
      Neighbours(n, r);
      var x := k - 1;
      assert Excluded(n, r, k) == Excluded(n, r, x) + (if r == x then 1 else 0) + (if a == x then 1 else 0) + (if b == x then 1 else 0);
      if Other(n, r, x) {
        assert |Below(n, r, k)| == |Below(n, r, x)| + 1;
      } else {
        assert Below(n, r, k) == Below(n, r, x);
      }
    }
  }

  /** On a line of fewer than three tiles every position is a neighbour. */
  lemma {:induction false} BelowEmpty(n: nat, r: int, k: nat)
    requires n < 3 && 0 <= r < n && k <= n
    ensures Below(n, r, k) == []
  {
    if k > 0 {
      BelowEmpty(n, r, k - 1);
      assert !Other(n, r, k - 1);
    }
  }

  /** A position has `n - 3` others when the line has at least three
      tiles, and none otherwise. */
  lemma OthersCount(n: nat, r: int)
    requires 0 <= r < n
    ensures |Others(n, r)| == Cap(n)
  {
    if n >= 3 {
      BelowCount(n, r, n);
      assert 0 <= (r - 1) % n < n && 0 <= (r + 1) % n < n;
    } else {
      BelowEmpty(n, r, n);
    }
  }

  // ----------------------------------------------------------- counting

  lemma {:induction false} SeenOuts(o: Dir, line: int, pos: int, os: seq<int>, t: Tile)
    ensures Seen(Outs(o, line, pos, os), NetOf(o), t, true) == if t == TileAt(o, line, pos) then |os| else 0
    decreases |os|
  {
    if |os| > 0 {
      var init := os[..|os| - 1];
      assert Outs(o, line, pos, os)[..|os| - 1] == Outs(o, line, pos, init);
      SeenOuts(o, line, pos, init, t);
    }
  }

  lemma {:induction false} SeenOutsBelow(o: Dir, n: nat, line: int, pos: int, k: nat, t: Tile)
    ensures Seen(Outs(o, line, pos, Below(n, pos, k)), NetOf(o), t, false) ==
              if LineOf(o, t) == line && 0 <= PosOf(o, t) < k && Other(n, pos, PosOf(o, t)) then 1 else 0
  {
    if k > 0 {
      SeenOutsBelow(o, n, line, pos, k - 1, t);
      var init := Below(n, pos, k - 1);
      if Other(n, pos, k - 1) {
        var os := init + [k - 1];
        assert Outs(o, line, pos, os)[..|os| - 1] == Outs(o, line, pos, init);
        assert Outs(o, line, pos, os)[|os| - 1] == Counted(NetOf(o), TileAt(o, line, pos), TileAt(o, line, k - 1));
        assert TileAt(o, line, k - 1) == t <==> LineOf(o, t) == line && PosOf(o, t) == k - 1;
      } else {
        assert Below(n, pos, k) == init;
      }
    }
  }

  lemma SeenCell(o: Dir, n: nat, line: int, pos: int, t: Tile)
    requires 0 <= pos < n
    ensures Seen(Cell(o, n, line, pos), NetOf(o), t, true) == if t == TileAt(o, line, pos) then |Others(n, pos)| else 0
    ensures Seen(Cell(o, n, line, pos), NetOf(o), t, false) ==
              if LineOf(o, t) == line && 0 <= PosOf(o, t) < n && Other(n, pos, PosOf(o, t)) then 1 else 0
  {
    var c := Cell(o, n, line, pos);
    var ring, outs := c[..2], Outs(o, line, pos, Others(n, pos));
    assert c == ring + outs;
    SeenFixed(ring, NetOf(o), t, true);
    SeenFixed(ring, NetOf(o), t, false);
    SeenAppend(ring, outs, NetOf(o), t, true);
    SeenAppend(ring, outs, NetOf(o), t, false);
    SeenOuts(o, line, pos, Others(n, pos), t);
    SeenOutsBelow(o, n, line, pos, n, t);
  }

  /** Along one line, the cells before position `k` take the master
      counter of each of their own tiles through all its others, and the
      slave counter of a tile once per position it is an other of. */
  lemma {:induction false} SeenLine(o: Dir, n: nat, line: int, k: nat, t: Tile)
    requires k <= n
    ensures Seen(Flat(LineCells(o, n, line)[..k]), NetOf(o), t, true) ==
              if LineOf(o, t) == line && 0 <= PosOf(o, t) < k then |Others(n, PosOf(o, t))| else 0
    ensures Seen(Flat(LineCells(o, n, line)[..k]), NetOf(o), t, false) ==
              if LineOf(o, t) == line && 0 <= PosOf(o, t) < n then |Below(n, PosOf(o, t), k)| else 0
  {
    var cs := LineCells(o, n, line);
    if k > 0 {
      SeenLine(o, n, line, k - 1, t);
      assert cs[..k][..k - 1] == cs[..k - 1];
      assert Flat(cs[..k]) == Flat(cs[..k - 1]) + Cell(o, n, line, k - 1);
      SeenAppend(Flat(cs[..k - 1]), Cell(o, n, line, k - 1), NetOf(o), t, true);
      SeenAppend(Flat(cs[..k - 1]), Cell(o, n, line, k - 1), NetOf(o), t, false);
      SeenCell(o, n, line, k - 1, t);
      assert TileAt(o, line, k - 1) == t <==> LineOf(o, t) == line && PosOf(o, t) == k - 1;
      if LineOf(o, t) == line && 0 <= PosOf(o, t) < n {
        OtherSymmetric(n, k - 1, PosOf(o, t));
      }
    } else {
      assert cs[..0] == [];
    }
  }

  /** The first `k` lines of a network. */
  lemma {:induction false} SeenLines(o: Dir, n: nat, m: nat, k: nat, t: Tile, master: bool)
    requires k <= m
    ensures Seen(Flat(Lines(o, n, m)[..k]), NetOf(o), t, master) ==
              if 0 <= LineOf(o, t) < k && 0 <= PosOf(o, t) < n then Cap(n) else 0
  {
    var ls := Lines(o, n, m);
    if k > 0 {
      SeenLines(o, n, m, k - 1, t, master);
      assert ls[..k][..k - 1] == ls[..k - 1];
      assert Flat(ls[..k]) == Flat(ls[..k - 1]) + LineItems(o, n, k - 1);
      SeenAppend(Flat(ls[..k - 1]), LineItems(o, n, k - 1), NetOf(o), t, master);
      SeenLine(o, n, k - 1, n, t);
      assert LineCells(o, n, k - 1)[..n] == LineCells(o, n, k - 1);
      if 0 <= PosOf(o, t) < n {
        OthersCount(n, PosOf(o, t));
      }
    } else {
      assert ls[..0] == [];
    }
  }

  /** Every tile of the network takes exactly `Cap(n)` counted ports as
      master and as slave; tiles off the network take none. */
  lemma SeenItems(o: Dir, n: nat, m: nat, t: Tile, master: bool)
    ensures Seen(Items(o, n, m), NetOf(o), t, master) ==
              if 0 <= LineOf(o, t) < m && 0 <= PosOf(o, t) < n then Cap(n) else 0
  {
    SeenLines(o, n, m, m, t, master);
    assert Lines(o, n, m)[..m] == Lines(o, n, m);
  }

  // --------------------------------------------------------- membership

  lemma CellMembers(o: Dir, n: nat, line: int, pos: int)
    requires 0 <= pos < n
    ensures forall it :: it in Cell(o, n, line, pos) <==>
              || it == Fixed(Forward(o, n, line, pos)) || it == Fixed(Backward(o, n, line, pos))
              || exists x :: 0 <= x < n && Other(n, pos, x) && it == Counted(NetOf(o), TileAt(o, line, pos), TileAt(o, line, x))
  {
    var os := Others(n, pos);
    BelowMembers(n, pos, n);
    forall it | it in Outs(o, line, pos, os)
      ensures exists x :: 0 <= x < n && Other(n, pos, x) && it == Counted(NetOf(o), TileAt(o, line, pos), TileAt(o, line, x))
    {
      var j :| 0 <= j < |os| && Outs(o, line, pos, os)[j] == it;
      assert os[j] in os;
    }
    forall x | 0 <= x < n && Other(n, pos, x) ensures Counted(NetOf(o), TileAt(o, line, pos), TileAt(o, line, x)) in Cell(o, n, line, pos) {
      var j :| 0 <= j < |os| && os[j] == x;
      assert Outs(o, line, pos, os)[j] == Counted(NetOf(o), TileAt(o, line, pos), TileAt(o, line, x));
    }
  }

  lemma LineMembers(o: Dir, n: nat, line: int)
    ensures forall it :: it in LineItems(o, n, line) <==> exists pos :: 0 <= pos < n && it in Cell(o, n, line, pos)
  {
    var cs := LineCells(o, n, line);
    FlatMembers(cs);
    assert forall pos :: 0 <= pos < n ==> cs[pos] == Cell(o, n, line, pos);
  }

  lemma ItemsMembers(o: Dir, n: nat, m: nat)
    ensures forall it :: it in Items(o, n, m) <==> exists line :: 0 <= line < m && it in LineItems(o, n, line)
  {
    var ls := Lines(o, n, m);
    FlatMembers(ls);
    assert forall line :: 0 <= line < m ==> ls[line] == LineItems(o, n, line);
  }

  /** The tile lies on one of the `m` lines of `n` tiles. */
  predicate OnNet(o: Dir, n: nat, m: nat, t: Tile) {
    0 <= LineOf(o, t) < m && 0 <= PosOf(o, t) < n
  }

  /** An item of the network: a ring link of one of its tiles, or a
      counted link from one of its tiles to an other of it on its line. */
  predicate Shaped(o: Dir, n: nat, m: nat, it: Item) {
    if it.Fixed? then
      exists line, pos :: 0 <= line < m && 0 <= pos < n && (it.q == Forward(o, n, line, pos) || it.q == Backward(o, n, line, pos))
    else
      && it.net == NetOf(o) && OnNet(o, n, m, it.a) && OnNet(o, n, m, it.b)
      && LineOf(o, it.a) == LineOf(o, it.b) && Other(n, PosOf(o, it.a), PosOf(o, it.b))
  }

  /** Every item is a ring link or a counted link to an other. */
  lemma ItemsShaped(o: Dir, n: nat, m: nat)
    ensures forall it :: it in Items(o, n, m) ==> Shaped(o, n, m, it)
  {
    forall it | it in Items(o, n, m) ensures Shaped(o, n, m, it) {
      ItemShaped(o, n, m, it);
    }
  }

  lemma ItemShaped(o: Dir, n: nat, m: nat, it: Item)
    requires it in Items(o, n, m)
    ensures Shaped(o, n, m, it)
  {
    ItemsMembers(o, n, m);
    var line :| 0 <= line < m && it in LineItems(o, n, line);
    LineMembers(o, n, line);
    var pos :| 0 <= pos < n && it in Cell(o, n, line, pos);
    CellMembers(o, n, line, pos);
  }

  /** Every tile has its two ring links, and a counted link to each of
      its others. */
  lemma ItemsComplete(o: Dir, n: nat, m: nat, line: int, pos: int)
    requires 0 <= line < m && 0 <= pos < n
    ensures Fixed(Forward(o, n, line, pos)) in Items(o, n, m) && Fixed(Backward(o, n, line, pos)) in Items(o, n, m)
    ensures forall x :: 0 <= x < n && Other(n, pos, x) ==>
              Counted(NetOf(o), TileAt(o, line, pos), TileAt(o, line, x)) in Items(o, n, m)
  {
    ItemsMembers(o, n, m);
    LineMembers(o, n, line);
    CellMembers(o, n, line, pos);
    assert Fixed(Forward(o, n, line, pos)) in Cell(o, n, line, pos) && Fixed(Backward(o, n, line, pos)) in Cell(o, n, line, pos);
    assert Fixed(Forward(o, n, line, pos)) in LineItems(o, n, line) && Fixed(Backward(o, n, line, pos)) in LineItems(o, n, line);
  }

  /** The counter maps of a network: every tile of it, starting at `start`. */
  function Counters(o: Dir, n: nat, m: nat, start: int): (c: Counters)
    ensures forall k, t :: (k, t) in c <==> k == NetOf(o) && OnNet(o, n, m, t)
    ensures forall key :: key in c ==> c[key] == start
  {
    if o == Col then Fresh(n, m, 0, start) else Fresh(m, n, 1, start)
  }

  /** Every counted link names tiles the counter maps were built for. */
  lemma ItemsKnown(o: Dir, n: nat, m: nat, start: int)
    ensures Known(Items(o, n, m), Counters(o, n, m, start), Counters(o, n, m, start))
  {
    ItemsShaped(o, n, m);
    var items := Items(o, n, m);
    forall k | 0 <= k < |items| && items[k].Counted?
      ensures (items[k].net, items[k].a) in Counters(o, n, m, start) && (items[k].net, items[k].b) in Counters(o, n, m, start)
    {
      assert items[k] in items;
    }
  }

  // ------------------------------------------------ ring links apart

  function PosE(o: Dir, e: End): int {
    if o == Col then e.row else e.col
  }

  function LineE(o: Dir, e: End): int {
    if o == Col then e.col else e.row
  }

  /** The position whose ring link enters at `e`. */
  function FromE(o: Dir, n: nat, e: End): int {
    if n == 0 then 0
    else if e.port == RingPort(o) + 2 then (PosE(o, e) - 1) % n
    else (PosE(o, e) + 1) % n
  }

  lemma RingKeys(o: Dir, n: nat, line: int, pos: int)
    requires 0 <= pos < n
    ensures var f, b := Forward(o, n, line, pos), Backward(o, n, line, pos);
            && PosE(o, f.m) == pos && PosE(o, b.m) == pos && FromE(o, n, f.s) == pos && FromE(o, n, b.s) == pos
            && LineE(o, f.m) == line && LineE(o, f.s) == line && LineE(o, b.m) == line && LineE(o, b.s) == line
  {
    Torus.Wrap(pos, n);
  }

  lemma LineFixedApart(o: Dir, n: nat, line: int)
    ensures FixedApart(LineItems(o, n, line))
  {
    var cs := LineCells(o, n, line);
    var mk := (e: End) => PosE(o, e);
    var sk := (e: End) => FromE(o, n, e);
    forall pos | 0 <= pos < n ensures FixedApart(cs[pos]) && forall k :: 0 <= k < |cs[pos]| && cs[pos][k].Fixed? ==> k < 2 {
      assert cs[pos] == Cell(o, n, line, pos);
    }
    forall pos, k | 0 <= pos < |cs| && 0 <= k < |cs[pos]| && cs[pos][k].Fixed?
      ensures mk(cs[pos][k].q.m) == pos && sk(cs[pos][k].q.s) == pos
    {
      assert cs[pos] == Cell(o, n, line, pos);
      RingKeys(o, n, line, pos);
    }
    FlatFixedApart(cs, mk, sk);
  }

  /** Ring links of a network never share a master end or a slave end. */
  lemma ItemsFixedApart(o: Dir, n: nat, m: nat)
    ensures FixedApart(Items(o, n, m))
  {
    var ls := Lines(o, n, m);
    var key := (e: End) => LineE(o, e);
    forall line | 0 <= line < m ensures FixedApart(ls[line]) {
      LineFixedApart(o, n, line);
    }
    forall line, k | 0 <= line < |ls| && 0 <= k < |ls[line]| && ls[line][k].Fixed?
      ensures key(ls[line][k].q.m) == line && key(ls[line][k].q.s) == line
    {
      LineMembers(o, n, line);
      assert ls[line][k] in LineItems(o, n, line);
      var pos :| 0 <= pos < n && ls[line][k] in Cell(o, n, line, pos);
      CellMembers(o, n, line, pos);
      RingKeys(o, n, line, pos);
    }
    FlatFixedApart(ls, key, key);
  }

  // ------------------------------------------------------------ networks

  /** One network's links: the items with their counted ports assigned. */
  function Network(o: Dir, n: nat, m: nat, start: int): (r: Result<seq<Request>>)
    ensures r.Ok? && |r.value| == |Items(o, n, m)|
  {
    ItemsKnown(o, n, m, start);
    var c := Counters(o, n, m, start);
    match Assign(Items(o, n, m), c, c)
    case Err(e) => Err(e)
    case Ok((qs, _, _)) => Ok(qs)
  }

  /** The link an item became: a ring link as given, a counted link
      between its tiles on ports in `[start, start + Cap(n))`. */
  predicate Became(n: nat, start: int, it: Item, q: Request) {
    match it
    case Fixed(f) => q == f
    case Counted(_, a, b) =>
      && q.m.row == a.0 && q.m.col == a.1 && q.s.row == b.0 && q.s.col == b.1
      && start <= q.m.port < start + Cap(n) && start <= q.s.port < start + Cap(n)
  }

  lemma NetworkLink(o: Dir, n: nat, m: nat, start: int, k: int)
    requires 0 <= k < |Items(o, n, m)|
    ensures Became(n, start, Items(o, n, m)[k], Network(o, n, m, start).value[k])
  {
    var items, c := Items(o, n, m), Counters(o, n, m, start);
    ItemsKnown(o, n, m, start);
    AssignNumbers(items, c, c);
    if items[k].Counted? {
      var it := items[k];
      assert it in items;
      ItemsShaped(o, n, m);
      SeenPrefix(items, it.net, it.a, true, k);
      SeenPrefix(items, it.net, it.b, false, k);
      SeenItems(o, n, m, it.a, true);
      SeenItems(o, n, m, it.b, false);
    }
  }

  /** With counted ports from 4 on, no master end and no slave end of a
      network repeats. */
  lemma NetworkUnshared(o: Dir, n: nat, m: nat, start: int)
    requires start >= 4
    ensures Unshared(Network(o, n, m, start).value)
  {
    var qs := Network(o, n, m, start).value;
    forall i, j | 0 <= i < j < |qs| ensures qs[i].m != qs[j].m && qs[i].s != qs[j].s {
      NetworkPair(o, n, m, start, i, j);
    }
  }

  lemma NetworkPair(o: Dir, n: nat, m: nat, start: int, i: int, j: int)
    requires start >= 4 && 0 <= i < j < |Items(o, n, m)|
    ensures var qs := Network(o, n, m, start).value;
            qs[i].m != qs[j].m && qs[i].s != qs[j].s
  {
    var items := Items(o, n, m);
    NetworkLink(o, n, m, start, i);
    NetworkLink(o, n, m, start, j);
    if items[i].Counted? && items[j].Counted? {
      CountedApart(o, n, m, start, i, j);
    } else if items[i].Fixed? && items[j].Fixed? {
      ItemsFixedApart(o, n, m);
    } else {
      RingBelowFour(o, n, m, if items[i].Fixed? then i else j);
    }
  }

  lemma CountedApart(o: Dir, n: nat, m: nat, start: int, i: int, j: int)
    requires 0 <= i < j < |Items(o, n, m)| && Items(o, n, m)[i].Counted? && Items(o, n, m)[j].Counted?
    ensures var qs := Network(o, n, m, start).value;
            qs[i].m != qs[j].m && qs[i].s != qs[j].s
  {
    var items, c := Items(o, n, m), Counters(o, n, m, start);
    ItemsKnown(o, n, m, start);
    ItemShaped(o, n, m, items[i]);
    ItemShaped(o, n, m, items[j]);
    AssignSeparates(items, c, c, i, j);
  }

  /** Ring links use the mesh ports 0 to 3. */
  lemma RingBelowFour(o: Dir, n: nat, m: nat, k: int)
    requires 0 <= k < |Items(o, n, m)| && Items(o, n, m)[k].Fixed?
    ensures 0 <= Items(o, n, m)[k].q.m.port < 4 && 0 <= Items(o, n, m)[k].q.s.port < 4
  {
    var f := Items(o, n, m)[k];
    ItemShaped(o, n, m, f);
    var line, pos :| 0 <= line < m && 0 <= pos < n && (f.q == Forward(o, n, line, pos) || f.q == Backward(o, n, line, pos));
  }

  /** Ring links stay on the ring ports, counted links on the network's
      counted ports. */
  lemma LinkPorts(o: Dir, n: nat, m: nat, start: int, k: int)
    requires 0 <= k < |Items(o, n, m)|
    ensures var q, p := Network(o, n, m, start).value[k], RingPort(o);
            || ((q.m.port == p || q.m.port == p + 2) && (q.s.port == p || q.s.port == p + 2))
            || (start <= q.m.port < start + Cap(n) && start <= q.s.port < start + Cap(n))
  {
    NetworkLink(o, n, m, start, k);
    var f := Items(o, n, m)[k];
    if f.Fixed? {
      ItemShaped(o, n, m, f);
      var line, pos :| 0 <= line < m && 0 <= pos < n && (f.q == Forward(o, n, line, pos) || f.q == Backward(o, n, line, pos));
    }
  }

  // ------------------------------------------------------------ the chip

  /** The mesh ports, one east port per counted column link and one north
      port per counted row link. */
  function ButterflyPorts(rows: nat, cols: nat): (p: Ports)
    ensures |p.ms| == |p.ss| == 4 + Cap(rows) + Cap(cols)
  {
    Ports(MeshPorts.ms + seq(Cap(rows), _ => Want("east", -1)) + seq(Cap(cols), _ => Want("north", -1)),
          MeshPorts.ss + seq(Cap(rows), _ => Want("east", 1)) + seq(Cap(cols), _ => Want("north", 1)))
  }

  /** `row_hop_start_id` as written: `4 + (rows - 3)`, which falls below 4
      when there are fewer than three rows. */
  function RowStartAsWritten(rows: nat): int {
    4 + (rows - 3)
  }

  /** The first id after the column ports actually created. */
  function RowStart(rows: nat): int {
    4 + Cap(rows)
  }

  /** The column networks (counters from 4), then the row networks. */
  function Build(rows: nat, cols: nat, rowStart: int): seq<Request> {
    Network(Col, rows, cols, 4).value + Network(Row, cols, rows, rowStart).value
  }

  /** The generator as written. From three rows on, `4 + (rows - 3)` is
      the first id after the column ports, and it builds exactly what the
      corrected generator builds. */
  function GenerateAsWritten(rows: nat, cols: nat): (r: Net)
    ensures rows >= 3 ==> r == Generate(rows, cols)
  {
    var start := RowStartAsWritten(rows);
    assert rows >= 3 ==> start == RowStart(rows);
    Net(ButterflyPorts(rows, cols), Build(rows, cols, start))
  }

  /** The generator with the row counters starting after the column ports. */
  function Generate(rows: nat, cols: nat): Net {
    Net(ButterflyPorts(rows, cols), Build(rows, cols, RowStart(rows)))
  }

  /** As written, a 2 x 4 array starts the row counters at 3: the first
      counted link of tile (0, 0) leaves on port 3, which its ring link to
      column 3 already uses, and `validate_connections` rejects the list. */
  lemma AsWrittenShared()
    ensures RowStartAsWritten(2) == 3
    ensures ValidateConnections(GenerateAsWritten(2, 4).conns).Fail?
  {
    var qs := Network(Row, 4, 2, 3).value;
    FirstRowLinks();
    var all := GenerateAsWritten(2, 4).conns;
    assert all == Network(Col, 2, 4, 4).value + qs;
    assert qs[1] in all && qs[2] in all;
    SharedMasterRejected(all, qs[1], qs[2]);
  }

  lemma FirstRowLinks()
    ensures |Network(Row, 4, 2, 3).value| > 2
    ensures Network(Row, 4, 2, 3).value[1] == Link(0, 0, 3, 0, 3, 1)
    ensures Network(Row, 4, 2, 3).value[2].m == End(0, 0, 3) && Network(Row, 4, 2, 3).value[2].s.port == 3
  {
    FirstRowItems();
    NetworkLink(Row, 4, 2, 3, 1);
    NetworkLink(Row, 4, 2, 3, 2);
  }

  lemma FirstRowItems()
    ensures |Items(Row, 4, 2)| > 2
    ensures Items(Row, 4, 2)[1] == Fixed(Backward(Row, 4, 0, 0))
    ensures Items(Row, 4, 2)[2].Counted? && Items(Row, 4, 2)[2].a == (0, 0)
  {
    var items := Items(Row, 4, 2);
    var cell := Cell(Row, 4, 0, 0);
    OthersCount(4, 0);
    FlatHead(Lines(Row, 4, 2));
    FlatHead(LineCells(Row, 4, 0));
    assert items[..3] == cell[..3];
  }

  // ---------------------------------------------------- chip properties

  /** A counted link: between two tiles of one column that are others of
      each other, on column ports, or the same along a row on row ports. */
  predicate Express(rows: nat, cols: nat, q: Request) {
    || (&& q.m.col == q.s.col && 0 <= q.m.col < cols && 0 <= q.m.row < rows && 0 <= q.s.row < rows
        && Other(rows, q.m.row, q.s.row)
        && 4 <= q.m.port < RowStart(rows) && 4 <= q.s.port < RowStart(rows))
    || (&& q.m.row == q.s.row && 0 <= q.m.row < rows && 0 <= q.m.col < cols && 0 <= q.s.col < cols
        && Other(cols, q.m.col, q.s.col)
        && RowStart(rows) <= q.m.port < RowStart(rows) + Cap(cols) && RowStart(rows) <= q.s.port < RowStart(rows) + Cap(cols))
  }

  /** A network link between two tiles of one line, others of each other,
      on ports in `[start, start + Cap(n))`. */
  predicate CountedOn(o: Dir, n: nat, m: nat, start: int, q: Request) {
    && LineE(o, q.m) == LineE(o, q.s) && 0 <= LineE(o, q.m) < m
    && 0 <= PosE(o, q.m) < n && 0 <= PosE(o, q.s) < n && Other(n, PosE(o, q.m), PosE(o, q.s))
    && start <= q.m.port < start + Cap(n) && start <= q.s.port < start + Cap(n)
  }

  /** A ring link of one of the network's tiles. */
  predicate RingOn(o: Dir, n: nat, m: nat, q: Request) {
    exists line, pos :: 0 <= line < m && 0 <= pos < n && (q == Forward(o, n, line, pos) || q == Backward(o, n, line, pos))
  }

  /** Every link of a network is a ring link or a counted link to an other. */
  lemma NetworkShape(o: Dir, n: nat, m: nat, start: int, k: int)
    requires 0 <= k < |Items(o, n, m)|
    ensures RingOn(o, n, m, Network(o, n, m, start).value[k]) || CountedOn(o, n, m, start, Network(o, n, m, start).value[k])
  {
    var it, q := Items(o, n, m)[k], Network(o, n, m, start).value[k];
    NetworkLink(o, n, m, start, k);
    ItemShaped(o, n, m, it);
    if it.Fixed? {
      var line, pos :| 0 <= line < m && 0 <= pos < n && (it.q == Forward(o, n, line, pos) || it.q == Backward(o, n, line, pos));
      assert q == it.q;
    } else {
      assert LineE(o, q.m) == LineOf(o, it.a) && LineE(o, q.s) == LineOf(o, it.b);
      assert PosE(o, q.m) == PosOf(o, it.a) && PosE(o, q.s) == PosOf(o, it.b);
      assert CountedOn(o, n, m, start, q);
    }
  }

  /** The four ring links of tile (r, c) are the four links of the
      bidirectional torus out of that tile. */
  lemma RingIsTorus(rows: nat, cols: nat, r: int, c: int)
    requires 0 <= r < rows && 0 <= c < cols
    ensures Torus.Cell(rows, cols, true, r, c) ==
              [Forward(Col, rows, c, r), Forward(Row, cols, r, c), Backward(Col, rows, c, r), Backward(Row, cols, r, c)]
  {
  }

  lemma ShapeOne(rows: nat, cols: nat, q: Request)
    requires RingOn(Col, rows, cols, q) || CountedOn(Col, rows, cols, 4, q)
             || RingOn(Row, cols, rows, q) || CountedOn(Row, cols, rows, RowStart(rows), q)
    ensures q in Torus.Links(rows, cols, true) || Express(rows, cols, q)
  {
    if RingOn(Col, rows, cols, q) {
      var c, r :| 0 <= c < cols && 0 <= r < rows && (q == Forward(Col, rows, c, r) || q == Backward(Col, rows, c, r));
      TorusHas(rows, cols, r, c, q);
    } else if RingOn(Row, cols, rows, q) {
      var r, c :| 0 <= r < rows && 0 <= c < cols && (q == Forward(Row, cols, r, c) || q == Backward(Row, cols, r, c));
      TorusHas(rows, cols, r, c, q);
    }
  }

  lemma TorusHas(rows: nat, cols: nat, r: int, c: int, q: Request)
    requires 0 <= r < rows && 0 <= c < cols && q in Torus.Cell(rows, cols, true, r, c)
    ensures q in Torus.Links(rows, cols, true)
  {
    Torus.LinksMembers(rows, cols, true);
  }

  /** Every link is a link of the bidirectional torus or a counted link
      between others of one column or one row. */
  lemma ButterflyShape(rows: nat, cols: nat)
    ensures forall q :: q in Generate(rows, cols).conns ==> q in Torus.Links(rows, cols, true) || Express(rows, cols, q)
  {
    var a, b := Network(Col, rows, cols, 4).value, Network(Row, cols, rows, RowStart(rows)).value;
    assert Generate(rows, cols).conns == a + b;
    forall q | q in a + b ensures q in Torus.Links(rows, cols, true) || Express(rows, cols, q) {
      if q in a {
        var k :| 0 <= k < |a| && a[k] == q;
        NetworkShape(Col, rows, cols, 4, k);
      } else {
        var k :| 0 <= k < |b| && b[k] == q;
        NetworkShape(Row, cols, rows, RowStart(rows), k);
      }
      ShapeOne(rows, cols, q);
    }
  }

  lemma RingPresent(o: Dir, n: nat, m: nat, start: int, line: int, pos: int)
    requires 0 <= line < m && 0 <= pos < n
    ensures Forward(o, n, line, pos) in Network(o, n, m, start).value
    ensures Backward(o, n, line, pos) in Network(o, n, m, start).value
  {
    var items := Items(o, n, m);
    ItemsComplete(o, n, m, line, pos);
    var i :| 0 <= i < |items| && items[i] == Fixed(Forward(o, n, line, pos));
    var j :| 0 <= j < |items| && items[j] == Fixed(Backward(o, n, line, pos));
    NetworkLink(o, n, m, start, i);
    NetworkLink(o, n, m, start, j);
  }

  lemma TorusCellPresent(rows: nat, cols: nat, r: int, c: int)
    requires 0 <= r < rows && 0 <= c < cols
    ensures forall q :: q in Torus.Cell(rows, cols, true, r, c) ==> q in Generate(rows, cols).conns
  {
    RingIsTorus(rows, cols, r, c);
    RingPresent(Col, rows, cols, 4, c, r);
    RingPresent(Row, cols, rows, RowStart(rows), r, c);
  }

  /** All links of the bidirectional torus are there. */
  lemma ButterflyTorus(rows: nat, cols: nat)
    ensures forall q :: q in Torus.Links(rows, cols, true) ==> q in Generate(rows, cols).conns
  {
    Torus.LinksMembers(rows, cols, true);
    forall q | q in Torus.Links(rows, cols, true) ensures q in Generate(rows, cols).conns {
      var r, c :| 0 <= r < rows && 0 <= c < cols && q in Torus.Cell(rows, cols, true, r, c);
      TorusCellPresent(rows, cols, r, c);
    }
  }

  /** Every tile has a counted link to each of its others, along its
      column on column ports and along its row on row ports. */
  lemma ButterflyExpress(rows: nat, cols: nat, r: int, c: int, x: int)
    requires 0 <= r < rows && 0 <= c < cols
    ensures 0 <= x < rows && Other(rows, r, x) ==>
              exists q :: q in Generate(rows, cols).conns && q.m.row == r && q.m.col == c && q.s.row == x && q.s.col == c
                          && 4 <= q.m.port < RowStart(rows) && 4 <= q.s.port < RowStart(rows)
    ensures 0 <= x < cols && Other(cols, c, x) ==>
              exists q :: q in Generate(rows, cols).conns && q.m.row == r && q.m.col == c && q.s.row == r && q.s.col == x
                          && RowStart(rows) <= q.m.port < RowStart(rows) + Cap(cols) && RowStart(rows) <= q.s.port < RowStart(rows) + Cap(cols)
  {
    if 0 <= x < rows && Other(rows, r, x) {
      var q := ColExpress(rows, cols, r, c, x);
    }
    if 0 <= x < cols && Other(cols, c, x) {
      var q := RowExpress(rows, cols, r, c, x);
    }
  }

  lemma ColExpress(rows: nat, cols: nat, r: int, c: int, x: int) returns (q: Request)
    requires 0 <= r < rows && 0 <= c < cols && 0 <= x < rows && Other(rows, r, x)
    ensures q in Generate(rows, cols).conns && q.m.row == r && q.m.col == c && q.s.row == x && q.s.col == c
    ensures 4 <= q.m.port < RowStart(rows) && 4 <= q.s.port < RowStart(rows)
  {
    q := CountedPresent(Col, rows, cols, 4, c, r, x);
    assert TileAt(Col, c, r) == (r, c) && TileAt(Col, c, x) == (x, c);
    var a, b := Network(Col, rows, cols, 4).value, Network(Row, cols, rows, RowStart(rows)).value;
    assert Generate(rows, cols).conns == a + b;
    assert q in a + b;
  }

  lemma RowExpress(rows: nat, cols: nat, r: int, c: int, x: int) returns (q: Request)
    requires 0 <= r < rows && 0 <= c < cols && 0 <= x < cols && Other(cols, c, x)
    ensures q in Generate(rows, cols).conns && q.m.row == r && q.m.col == c && q.s.row == r && q.s.col == x
    ensures RowStart(rows) <= q.m.port < RowStart(rows) + Cap(cols) && RowStart(rows) <= q.s.port < RowStart(rows) + Cap(cols)
  {
    q := CountedPresent(Row, cols, rows, RowStart(rows), r, c, x);
    assert TileAt(Row, r, c) == (r, c) && TileAt(Row, r, x) == (r, x);
    var a, b := Network(Col, rows, cols, 4).value, Network(Row, cols, rows, RowStart(rows)).value;
    assert Generate(rows, cols).conns == a + b;
    assert q in a + b;
  }

  lemma CountedPresent(o: Dir, n: nat, m: nat, start: int, line: int, pos: int, x: int) returns (q: Request)
    requires 0 <= line < m && 0 <= pos < n && 0 <= x < n && Other(n, pos, x)
    ensures q in Network(o, n, m, start).value
    ensures Became(n, start, Counted(NetOf(o), TileAt(o, line, pos), TileAt(o, line, x)), q)
  {
    var items := Items(o, n, m);
    ItemsComplete(o, n, m, line, pos);
    var k :| 0 <= k < |items| && items[k] == Counted(NetOf(o), TileAt(o, line, pos), TileAt(o, line, x));
    NetworkLink(o, n, m, start, k);
    q := Network(o, n, m, start).value[k];
  }

  /** The ports a column network uses: its ring ports and the column block. */
  predicate ColPort(rows: nat, p: int) {
    p == 0 || p == 2 || 4 <= p < RowStart(rows)
  }

  /** The ports a row network uses: its ring ports and the row block. */
  predicate RowPort(rows: nat, cols: nat, p: int) {
    p == 1 || p == 3 || RowStart(rows) <= p < RowStart(rows) + Cap(cols)
  }

  lemma ColPorts(rows: nat, cols: nat, k: int)
    requires 0 <= k < |Items(Col, rows, cols)|
    ensures ColPort(rows, Network(Col, rows, cols, 4).value[k].m.port)
    ensures ColPort(rows, Network(Col, rows, cols, 4).value[k].s.port)
  {
    LinkPorts(Col, rows, cols, 4, k);
  }

  lemma RowPorts(rows: nat, cols: nat, k: int)
    requires 0 <= k < |Items(Row, cols, rows)|
    ensures RowPort(rows, cols, Network(Row, cols, rows, RowStart(rows)).value[k].m.port)
    ensures RowPort(rows, cols, Network(Row, cols, rows, RowStart(rows)).value[k].s.port)
  {
    LinkPorts(Row, cols, rows, RowStart(rows), k);
  }

  /** No end of a column network is an end of a row network. */
  lemma NetworksApart(rows: nat, cols: nat)
    ensures var a, b := Network(Col, rows, cols, 4).value, Network(Row, cols, rows, RowStart(rows)).value;
            forall k, l :: 0 <= k < |a| && 0 <= l < |b| ==> a[k].m != b[l].m && a[k].s != b[l].s
  {
    var a, b := Network(Col, rows, cols, 4).value, Network(Row, cols, rows, RowStart(rows)).value;
    forall k, l | 0 <= k < |a| && 0 <= l < |b| ensures a[k].m != b[l].m && a[k].s != b[l].s {
      ColPorts(rows, cols, k);
      RowPorts(rows, cols, l);
      PortsApart(rows, cols, a[k].m.port, b[l].m.port);
      PortsApart(rows, cols, a[k].s.port, b[l].s.port);
    }
  }

  lemma PortsApart(rows: nat, cols: nat, p: int, p': int)
    requires ColPort(rows, p) && RowPort(rows, cols, p')
    ensures p != p'
  {
  }

  /** The column networks and the row networks use disjoint ports, so no
      master end and no slave end repeats and `validate_connections`
      accepts the list. */
  lemma ButterflyUnshared(rows: nat, cols: nat)
    ensures Unshared(Generate(rows, cols).conns)
    ensures ValidateConnections(Generate(rows, cols).conns) == Pass
  {
    var a, b := Network(Col, rows, cols, 4).value, Network(Row, cols, rows, RowStart(rows)).value;
    NetworkUnshared(Col, rows, cols, 4);
    NetworkUnshared(Row, cols, rows, RowStart(rows));
    NetworksApart(rows, cols);
    UnsharedDisjoint(a, b);
    UnsharedAccepted(a + b);
  }

  /** Every link uses ports the tile has: the mesh ports, the column block
      and the row block. */
  lemma ButterflyPortsExist(rows: nat, cols: nat)
    ensures forall q :: q in Generate(rows, cols).conns ==>
              0 <= q.m.port < |Generate(rows, cols).ports.ms| && 0 <= q.s.port < |Generate(rows, cols).ports.ss|
  {
    var a, b := Network(Col, rows, cols, 4).value, Network(Row, cols, rows, RowStart(rows)).value;
    assert Generate(rows, cols).conns == a + b;
    forall q: Request | q in a + b ensures 0 <= q.m.port < 4 + Cap(rows) + Cap(cols) && 0 <= q.s.port < 4 + Cap(rows) + Cap(cols) {
      if q in a {
        var k :| 0 <= k < |a| && a[k] == q;
        ColPorts(rows, cols, k);
      } else {
        var k :| 0 <= k < |b| && b[k] == q;
        RowPorts(rows, cols, k);
      }
    }
  }
}
