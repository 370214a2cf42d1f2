/** The SlimNoC generator (src/generate_slimnoc.py): q subgroups in each
    of two groups, q nodes per subgroup. Node `n` of subgroup `s` in group
    `g` sits on tile (n, 2s + g). Nodes of one subgroup are linked along
    the field's addition by the offsets `X[q]` (group 0) or `Xp[q]`
    (group 1); every node of group 0 is linked both ways with one node of
    every subgroup of group 1, chosen by `get_node_b`. Only the fields of
    order 4 and 8 have tables. */
module SlimNoC {
  import opened Wrappers
  import opened Coarse
  import opened Topology
  import Cells

  // --------------------------------------------------------- the tables

  /** Addition and multiplication in GF(4) and GF(8), elements numbered
      by their bit patterns. */
  const Add4: seq<seq<int>> :=
    [ [0, 1, 2, 3],
      [1, 0, 3, 2],
      [2, 3, 0, 1],
      [3, 2, 1, 0]]

  const Mul4: seq<seq<int>> :=
    [ [0, 0, 0, 0],
      [0, 1, 2, 3],
      [0, 2, 3, 1],
      [0, 3, 1, 2]]

  const Add8: seq<seq<int>> :=
    [ [0, 1, 2, 3, 4, 5, 6, 7],
      [1, 0, 3, 2, 5, 4, 7, 6],
      [2, 3, 0, 1, 6, 7, 4, 5],
      [3, 2, 1, 0, 7, 6, 5, 4],
      [4, 5, 6, 7, 0, 1, 2, 3],
      [5, 4, 7, 6, 1, 0, 3, 2],
      [6, 7, 4, 5, 2, 3, 0, 1],
      [7, 6, 5, 4, 3, 2, 1, 0]]

  const Mul8: seq<seq<int>> :=
    [ [0, 0, 0, 0, 0, 0, 0, 0],
      [0, 1, 2, 3, 4, 5, 6, 7],
      [0, 2, 4, 6, 3, 1, 7, 5],
      [0, 3, 6, 5, 7, 4, 1, 2],
      [0, 4, 3, 7, 6, 2, 5, 1],
      [0, 5, 1, 4, 2, 7, 3, 6],
      [0, 6, 7, 1, 5, 3, 2, 4],
      [0, 7, 5, 2, 1, 6, 4, 3]]

  /** The intra-subgroup offsets: `X` for group 0, `Xp` for group 1. */
  const X4: seq<int> := [1, 3]
  const X8: seq<int> := [1, 4, 7]
  const Xp4: seq<int> := [2, 1]
  const Xp8: seq<int> := [2, 5, 3]

  /** The orders for which `get_node_b` uses modular arithmetic. */
  const PrimePowers: seq<int> := [3, 5, 7, 11, 13, 17, 19, 23, 29]

  /** The orders that have `add`, `mul`, `X` and `Xp` entries. */
  predicate Tabled(q: int) {
    q == 4 || q == 8
  }

  function AddOf(q: int): seq<seq<int>>
    requires Tabled(q)
  {
    if q == 4 then Add4 else Add8
  }

  function MulOf(q: int): seq<seq<int>>
    requires Tabled(q)
  {
    if q == 4 then Mul4 else Mul8
  }

  /** `X[q]` for group 0, `Xp[q]` otherwise. */
  function Offsets(q: int, group: int): seq<int>
    requires Tabled(q)
  {
    if group == 0 then (if q == 4 then X4 else X8) else (if q == 4 then Xp4 else Xp8)
  }

  /** Bitwise exclusive or of two naturals. */
  function Xor(a: nat, b: nat): nat
    decreases a + b
  {
    if a == 0 then b else if b == 0 then a else 2 * Xor(a / 2, b / 2) + (a + b) % 2
  }

  /** What a table entry is checked against. */
  datatype Law = IsXor | Below(q: int) | IsZero | IsIdentity

  predicate Holds(law: Law, a: int, b: int, v: int) {
    match law
    case IsXor => a >= 0 && b >= 0 && v == Xor(a, b)
    case Below(q) => 0 <= v < q
    case IsZero => v == 0
    case IsIdentity => v == b
  }

  /** Row `a` of `t` obeys `law` from column `b` on. */
  predicate RowObeys(t: seq<seq<int>>, a: nat, b: nat, law: Law)
    requires a < |t|
    decreases |t[a]| - b
  {
    b >= |t[a]| || (Holds(law, a, b, t[a][b]) && RowObeys(t, a, b + 1, law))
  }

  lemma {:induction false} RowObeysAt(t: seq<seq<int>>, a: nat, b0: nat, b: nat, law: Law)
    requires a < |t| && RowObeys(t, a, b0, law) && b0 <= b < |t[a]|
    ensures Holds(law, a, b, t[a][b])
    decreases b - b0
  {
    if b0 < b {
      RowObeysAt(t, a, b0 + 1, b, law);
    }
  }

  /** Every row of the addition tables is a row of exclusive ors of
      elements of the field, with `q` entries. */
  lemma AddRow(q: int, a: int)
    requires Tabled(q) && 0 <= a < q
    ensures |AddOf(q)| == q && |AddOf(q)[a]| == q
    ensures RowObeys(AddOf(q), a, 0, IsXor) && RowObeys(AddOf(q), a, 0, Below(q))
  {
    AddXor(q, a);
    AddBelow(q, a);
  }

  lemma AddXor(q: int, a: int)
    requires Tabled(q) && 0 <= a < q
    ensures |AddOf(q)| == q && |AddOf(q)[a]| == q && RowObeys(AddOf(q), a, 0, IsXor)
  {
    if q == 4 {
      AddXor4(a);
    } else if a < 4 {
      AddXor8Low(a);
    } else {
      AddXor8High(a);
    }
  }

  lemma AddXor4(a: int)
    requires 0 <= a < 4
    ensures |Add4| == 4 && |Add4[a]| == 4 && RowObeys(Add4, a, 0, IsXor)
  {
    if a == 0 {
      assert RowObeys(Add4, 0, 0, IsXor);
    } else if a == 1 {
      assert RowObeys(Add4, 1, 0, IsXor);
    } else if a == 2 {
      assert RowObeys(Add4, 2, 0, IsXor);
    } else {
      assert RowObeys(Add4, 3, 0, IsXor);
    }
  }

  lemma AddXor8Low(a: int)
    requires 0 <= a < 4
    ensures |Add8| == 8 && |Add8[a]| == 8 && RowObeys(Add8, a, 0, IsXor)
  {
    if a == 0 {
      assert RowObeys(Add8, 0, 0, IsXor);
    } else if a == 1 {
      assert RowObeys(Add8, 1, 0, IsXor);
    } else if a == 2 {
      assert RowObeys(Add8, 2, 0, IsXor);
    } else {
      assert RowObeys(Add8, 3, 0, IsXor);
    }
  }

  lemma AddXor8High(a: int)
    requires 4 <= a < 8
    ensures |Add8| == 8 && |Add8[a]| == 8 && RowObeys(Add8, a, 0, IsXor)
  {
    if a == 4 {
      assert RowObeys(Add8, 4, 0, IsXor);
    } else if a == 5 {
      assert RowObeys(Add8, 5, 0, IsXor);
    } else if a == 6 {
      assert RowObeys(Add8, 6, 0, IsXor);
    } else {
      assert RowObeys(Add8, 7, 0, IsXor);
    }
  }

  lemma AddBelow(q: int, a: int)
    requires Tabled(q) && 0 <= a < q
    ensures RowObeys(AddOf(q), a, 0, Below(q))
  {
    if q == 4 {
      if a == 0 {
        assert RowObeys(Add4, 0, 0, Below(4));
      } else if a == 1 {
        assert RowObeys(Add4, 1, 0, Below(4));
      } else if a == 2 {
        assert RowObeys(Add4, 2, 0, Below(4));
      } else {
        assert RowObeys(Add4, 3, 0, Below(4));
      }
    } else {
      if a == 0 {
        assert RowObeys(Add8, 0, 0, Below(8));
      } else if a == 1 {
        assert RowObeys(Add8, 1, 0, Below(8));
      } else if a == 2 {
        assert RowObeys(Add8, 2, 0, Below(8));
      } else if a == 3 {
        assert RowObeys(Add8, 3, 0, Below(8));
      } else if a == 4 {
        assert RowObeys(Add8, 4, 0, Below(8));
      } else if a == 5 {
        assert RowObeys(Add8, 5, 0, Below(8));
      } else if a == 6 {
        assert RowObeys(Add8, 6, 0, Below(8));
      } else {
        assert RowObeys(Add8, 7, 0, Below(8));
      }
    }
  }

  /** Every entry of the multiplication tables is an element of the field. */
  lemma MulRow(q: int, a: int)
    requires Tabled(q) && 0 <= a < q
    ensures |MulOf(q)| == q && |MulOf(q)[a]| == q && RowObeys(MulOf(q), a, 0, Below(q))
  {
    if q == 4 {
      if a == 0 {
        assert RowObeys(Mul4, 0, 0, Below(4));
      } else if a == 1 {
        assert RowObeys(Mul4, 1, 0, Below(4));
      } else if a == 2 {
        assert RowObeys(Mul4, 2, 0, Below(4));
      } else {
        assert RowObeys(Mul4, 3, 0, Below(4));
      }
    } else {
      if a == 0 {
        assert RowObeys(Mul8, 0, 0, Below(8));
      } else if a == 1 {
        assert RowObeys(Mul8, 1, 0, Below(8));
      } else if a == 2 {
        assert RowObeys(Mul8, 2, 0, Below(8));
      } else if a == 3 {
        assert RowObeys(Mul8, 3, 0, Below(8));
      } else if a == 4 {
        assert RowObeys(Mul8, 4, 0, Below(8));
      } else if a == 5 {
        assert RowObeys(Mul8, 5, 0, Below(8));
      } else if a == 6 {
        assert RowObeys(Mul8, 6, 0, Below(8));
      } else {
        assert RowObeys(Mul8, 7, 0, Below(8));
      }
    }
  }

  /** Row 0 of the multiplication tables is all zero and row 1 is the
      identity. */
  lemma MulUnits(q: int)
    requires Tabled(q)
    ensures RowObeys(MulOf(q), 0, 0, IsZero) && RowObeys(MulOf(q), 1, 0, IsIdentity)
  {
    if q == 4 {
      assert RowObeys(Mul4, 0, 0, IsZero) && RowObeys(Mul4, 1, 0, IsIdentity);
    } else {
      assert RowObeys(Mul8, 0, 0, IsZero) && RowObeys(Mul8, 1, 0, IsIdentity);
    }
  }

  lemma XorBits(a: nat, b: nat)
    ensures Xor(a, b) % 2 == (a + b) % 2 && Xor(a, b) / 2 == Xor(a / 2, b / 2)
  {
  }

  /** Exclusive or with `a` undoes itself. */
  lemma {:induction false} XorCancel(a: nat, c: nat)
    ensures Xor(a, Xor(a, c)) == c
    decreases a + c
  {
    if a + c > 0 {
      var x := Xor(a, c);
      XorBits(a, c);
      XorBits(a, x);
      XorCancel(a / 2, c / 2);
    }
  }

  /** `add[q][a][b]`: the field sum, which is the exclusive or of the bit
      patterns. */
  function Plus(q: int, a: int, b: int): (r: int)
    requires Tabled(q) && 0 <= a < q && 0 <= b < q
    ensures 0 <= r < q && r == Xor(a, b)
  {
    AddRow(q, a);
    RowObeysAt(AddOf(q), a, 0, b, IsXor);
    RowObeysAt(AddOf(q), a, 0, b, Below(q));
    AddOf(q)[a][b]
  }

  /** `mul[q][a][b]`: the field product. */
  function Times(q: int, a: int, b: int): (r: int)
    requires Tabled(q) && 0 <= a < q && 0 <= b < q
    ensures 0 <= r < q
    ensures a == 0 ==> r == 0
    ensures a == 1 ==> r == b
  {
    MulRow(q, a);
    MulUnits(q);
    RowObeysAt(MulOf(q), a, 0, b, Below(q));
    if a == 0 then RowObeysAt(MulOf(q), 0, 0, b, IsZero); MulOf(q)[a][b]
    else if a == 1 then RowObeysAt(MulOf(q), 1, 0, b, IsIdentity); MulOf(q)[a][b]
    else MulOf(q)[a][b]
  }

  /** Adding `a` twice gives back what one started with, so
      `b |-> add[q][a][b]` is a permutation of the field. */
  lemma PlusCancel(q: int, a: int, b: int, c: int)
    requires Tabled(q) && 0 <= a < q && 0 <= b < q && 0 <= c < q
    ensures Plus(q, a, b) == c <==> b == Plus(q, a, c)
  {
    XorCancel(a, b);
    XorCancel(a, c);
  }

  // ----------------------------------------------------------- get_node_b

  /** The decimal digits of `n`, as `%d` prints them. */
  function Decimal(n: int): string
    decreases if n < 0 then 1 - n else n
  {
    if n < 0 then "-" + Decimal(-n)
    else if n < 10 then [(48 + n) as char]
    else Decimal(n / 10) + [(48 + n % 10) as char]
  }

  /** Python's `t[a][b]`: negative indices count from the end, others out
      of range raise `IndexError`. */
  function Lookup(t: seq<seq<int>>, a: int, b: int): (r: Option<int>)
    ensures r.Some? <==> -|t| <= a < |t| && (var i := if a < 0 then |t| + a else a; -|t[i]| <= b < |t[i]|)
    ensures 0 <= a < |t| && 0 <= b < |t[a]| ==> r == Some(t[a][b])
  {
    match Cells.PyIndex(a, |t|)
    case None => None
    case Some(i) =>
      match Cells.PyIndex(b, |t[i]|)
      case None => None
      case Some(j) => Some(t[i][j])
  }

  /** `get_node_b`: the node of subgroup `sb` in group 1 that node `na` of
      subgroup `sa` in group 0 links with. */
  function NodeB(q: int, sa: int, sb: int, na: int): (r: Result<int>)
    ensures q in PrimePowers ==> r == Ok((sa * sb + na) % q)
    ensures q !in PrimePowers && !Tabled(q) ==> r.Err?
    ensures Tabled(q) ==> (r.Ok? <==> -q <= sa < q && -q <= sb < q && -q <= na < q)
    ensures Tabled(q) && 0 <= sa < q && 0 <= sb < q && 0 <= na < q ==> r == Ok(Plus(q, Times(q, sa, sb), na))
  {
    if q in PrimePowers then Ok((sa * sb + na) % q)
    else if Tabled(q) then NodeBTabled(q, sa, sb, na)
    else Err("q = " + Decimal(q) + " is not supported")
  }

  /** `add[q][mul[q][sa][sb]][node]` with Python's list indexing. */
  function NodeBTabled(q: int, sa: int, sb: int, na: int): (r: Result<int>)
    requires Tabled(q)
    ensures r.Ok? <==> -q <= sa < q && -q <= sb < q && -q <= na < q
    ensures 0 <= sa < q && 0 <= sb < q && 0 <= na < q ==> r == Ok(Plus(q, Times(q, sa, sb), na))
  {
    MulRows(q);
    AddRows(q);
    match Lookup(MulOf(q), sa, sb)
    case None => Err("IndexError: list index out of range")
    case Some(p) =>
      match Lookup(AddOf(q), p, na)
      case None => Err("IndexError: list index out of range")
      case Some(v) => Ok(v)
  }

  lemma AddRows(q: int)
    requires Tabled(q)
    ensures |AddOf(q)| == q && forall a :: 0 <= a < q ==> |AddOf(q)[a]| == q
  {
    forall a | 0 <= a < q ensures |AddOf(q)[a]| == q {
      AddRow(q, a);
    }
  }

  lemma MulRows(q: int)
    requires Tabled(q)
    ensures |MulOf(q)| == q
    ensures forall a, b :: 0 <= a < q && 0 <= b < q ==> |MulOf(q)[a]| == q && 0 <= MulOf(q)[a][b] < q
  {
    forall a, b | 0 <= a < q && 0 <= b < q ensures |MulOf(q)[a]| == q && 0 <= MulOf(q)[a][b] < q {
      MulRow(q, a);
      RowObeysAt(MulOf(q), a, 0, b, Below(q));
    }
  }

  /** The node of subgroup `sa` whose partner in subgroup `sb` is `nb`. */
  function Back(q: int, sa: int, sb: int, nb: int): int
    requires q in PrimePowers || (Tabled(q) && 0 <= sa < q && 0 <= sb < q && 0 <= nb < q)
  {
    if q in PrimePowers then (nb - sa * sb) % q else Plus(q, Times(q, sa, sb), nb)
  }

  /** For fixed subgroups `get_node_b` is a bijection between the nodes:
      `nb` is the partner of exactly one node, `Back(q, sa, sb, nb)`. */
  lemma NodeBSolves(q: int, sa: int, sb: int, na: int, nb: int)
    requires q in PrimePowers || Tabled(q)
    requires 0 <= sa < q && 0 <= sb < q && 0 <= na < q && 0 <= nb < q
    ensures 0 <= Back(q, sa, sb, nb) < q
    ensures NodeB(q, sa, sb, na) == Ok(nb) <==> na == Back(q, sa, sb, nb)
  {
    if q in PrimePowers {
      PrimeSolves(q, sa * sb, na, nb);
    } else {
      PlusCancel(q, Times(q, sa, sb), na, nb);
    }
  }

  lemma PrimeSolves(q: int, p: int, na: int, nb: int)
    requires q in PrimePowers && 0 <= na < q && 0 <= nb < q
    ensures 0 <= (nb - p) % q < q
    ensures (p + na) % q == nb <==> na == (nb - p) % q
  {
    if (p + na) % q == nb {
      var d := (p + na) / q;
      DivUnique(nb - p, q, -d, na);
    }
    if na == (nb - p) % q {
      var d := (nb - p) / q;
      DivUnique(p + na, q, -d, nb);
    }
  }

  /** The offsets are field elements, distinct, and as many for each
      group. */
  lemma OffsetsFit(q: int, g: int)
    requires Tabled(q)
    ensures |Offsets(q, g)| == |Offsets(q, 0)| && |Offsets(q, 0)| < q
    ensures forall j :: 0 <= j < |Offsets(q, g)| ==> 0 <= Offsets(q, g)[j] < q
    ensures forall i, j :: 0 <= i < j < |Offsets(q, g)| ==> Offsets(q, g)[i] != Offsets(q, g)[j]
  {
  }

  // ------------------------------------------------------------ the links

  /** Node `node` of subgroup `sub` in group `group` sits on tile
      (node, 2 * sub + group). */
  function TileOf(group: int, sub: int, node: int): Tile {
    (node, 2 * sub + group)
  }

  /** The intra-subgroup links of one node: to `add[q][node][x]` for each
      offset `x`, on the column counters (network 0). */
  function NodeIntra(q: int, g: int, s: int, na: int): seq<Item>
    requires Tabled(q) && 0 <= na < q
  {
    var xs := Offsets(q, g);
    OffsetsFit(q, g);
    seq(|xs|, j requires 0 <= j < |xs| => Counted(0, TileOf(g, s, na), TileOf(g, s, Plus(q, na, xs[j]))))
  }

  function Nodes(q: int, g: int, s: int): seq<seq<Item>>
    requires Tabled(q)
  {
    seq(q, na requires 0 <= na < q => NodeIntra(q, g, s, na))
  }

  function SubIntra(q: int, g: int, s: int): seq<Item>
    requires Tabled(q)
  {
    Flat(Nodes(q, g, s))
  }

  function GroupIntra(q: int, g: int): seq<Item>
    requires Tabled(q)
  {
    Flat(seq(q, s => SubIntra(q, g, s)))
  }

  /** The intra-subgroup loop: group 0, then group 1. */
  function Intra(q: int): seq<Item>
    requires Tabled(q)
  {
    Flat(seq(2, g => GroupIntra(q, g)))
  }

  /** The two links between node `na` of subgroup `sa` (group 0) and its
      partner in subgroup `sb` (group 1), on the row counters (network 1). */
  function Pair(q: int, sa: int, na: int, sb: int): seq<Item>
    requires Tabled(q) && 0 <= sa < q && 0 <= na < q && 0 <= sb < q
  {
    var nb := NodeB(q, sa, sb, na).value;
    [Counted(1, TileOf(0, sa, na), TileOf(1, sb, nb)), Counted(1, TileOf(1, sb, nb), TileOf(0, sa, na))]
  }

  function SubInter(q: int, sa: int, na: int): seq<Item>
    requires Tabled(q) && 0 <= sa < q && 0 <= na < q
  {
    Flat(seq(q, sb requires 0 <= sb < q => Pair(q, sa, na, sb)))
  }

  function SaInter(q: int, sa: int): seq<Item>
    requires Tabled(q) && 0 <= sa < q
  {
    Flat(seq(q, na requires 0 <= na < q => SubInter(q, sa, na)))
  }

  /** The inter-group loop over `subgroup_a`, `node_a`, `subgroup_b`. */
  function Inter(q: int): seq<Item>
    requires Tabled(q)
  {
    Flat(seq(q, sa requires 0 <= sa < q => SaInter(q, sa)))
  }

  /** Every link the generator asks for, in order. */
  function Items(q: int): seq<Item>
    requires Tabled(q)
  {
    Intra(q) + Inter(q)
  }

  // ------------------------------------------------------------ counting

  /** How many nodes below `k` reach node `r` by one of the offsets `xs`:
      those `na` with `add[q][na][r]` among them. */
  function Into(q: int, xs: seq<int>, r: int, k: nat): nat
    requires Tabled(q) && 0 <= r < q && k <= q
  {
    if k == 0 then 0
    else Into(q, xs, r, k - 1) + (if r < |AddOf(q)[k - 1]| && AddOf(q)[k - 1][r] in xs then 1 else 0)
  }

  /** Every node is reached from exactly as many nodes as there are
      offsets. */
  lemma IntoFull(q: int, g: int, r: int)
    requires Tabled(q) && 0 <= r < q
    ensures Into(q, Offsets(q, g), r, q) == |Offsets(q, 0)|
  {
    if q == 4 {
      IntoFull4(g, r);
    } else {
      IntoFull8(g, r);
    }
  }

  lemma IntoFull4(g: int, r: int)
    requires 0 <= r < 4
    ensures Into(4, Offsets(4, g), r, 4) == 2
  {
    if r == 0 {
      assert Into(4, X4, 0, 4) == 2 && Into(4, Xp4, 0, 4) == 2;
    } else if r == 1 {
      assert Into(4, X4, 1, 4) == 2 && Into(4, Xp4, 1, 4) == 2;
    } else if r == 2 {
      assert Into(4, X4, 2, 4) == 2 && Into(4, Xp4, 2, 4) == 2;
    } else {
      assert Into(4, X4, 3, 4) == 2 && Into(4, Xp4, 3, 4) == 2;
    }
  }

  lemma IntoFull8(g: int, r: int)
    requires 0 <= r < 8
    ensures Into(8, Offsets(8, g), r, 8) == 3
  {
    if r < 2 {
      IntoFull8From0(r);
    } else if r < 4 {
      IntoFull8From2(r);
    } else if r < 6 {
      IntoFull8From4(r);
    } else {
      IntoFull8From6(r);
    }
  }

  lemma IntoFull8From0(r: int)
    requires 0 <= r < 2
    ensures Into(8, X8, r, 8) == 3 && Into(8, Xp8, r, 8) == 3
  {
    if r == 0 {
      assert Into(8, X8, 0, 8) == 3 && Into(8, Xp8, 0, 8) == 3;
    } else {
      assert Into(8, X8, 1, 8) == 3 && Into(8, Xp8, 1, 8) == 3;
    }
  }

  lemma IntoFull8From2(r: int)
    requires 2 <= r < 4
    ensures Into(8, X8, r, 8) == 3 && Into(8, Xp8, r, 8) == 3
  {
    if r == 2 {
      assert Into(8, X8, 2, 8) == 3 && Into(8, Xp8, 2, 8) == 3;
    } else {
      assert Into(8, X8, 3, 8) == 3 && Into(8, Xp8, 3, 8) == 3;
    }
  }

  lemma IntoFull8From4(r: int)
    requires 4 <= r < 6
    ensures Into(8, X8, r, 8) == 3 && Into(8, Xp8, r, 8) == 3
  {
    if r == 4 {
      assert Into(8, X8, 4, 8) == 3 && Into(8, Xp8, 4, 8) == 3;
    } else {
      assert Into(8, X8, 5, 8) == 3 && Into(8, Xp8, 5, 8) == 3;
    }
  }

  lemma IntoFull8From6(r: int)
    requires 6 <= r < 8
    ensures Into(8, X8, r, 8) == 3 && Into(8, Xp8, r, 8) == 3
  {
    if r == 6 {
      assert Into(8, X8, 6, 8) == 3 && Into(8, Xp8, 6, 8) == 3;
    } else {
      assert Into(8, X8, 7, 8) == 3 && Into(8, Xp8, 7, 8) == 3;
    }
  }

  lemma NodeIntraMaster(q: int, g: int, s: int, na: int, n: nat, t: Tile)
    requires Tabled(q) && 0 <= na < q
    ensures Seen(NodeIntra(q, g, s, na), n, t, true) == if n == 0 && t == TileOf(g, s, na) then |Offsets(q, g)| else 0
  {
    if n == 0 && t == TileOf(g, s, na) {
      SeenAll(NodeIntra(q, g, s, na), n, t, true);
    } else {
      SeenNone(NodeIntra(q, g, s, na), n, t, true);
    }
  }

  lemma NodeIntraSlave(q: int, g: int, s: int, na: int, n: nat, t: Tile)
    requires Tabled(q) && 0 <= na < q && 0 <= t.0 < q
    ensures Seen(NodeIntra(q, g, s, na), n, t, false) ==
              if n == 0 && t.1 == 2 * s + g && Plus(q, na, t.0) in Offsets(q, g) then 1 else 0
  {
    var xs, items := Offsets(q, g), NodeIntra(q, g, s, na);
    OffsetsFit(q, g);
    if n == 0 && t.1 == 2 * s + g {
      var v := Plus(q, na, t.0);
      var j0 := if v in xs then (var j :| 0 <= j < |xs| && xs[j] == v; j) else -1;
      forall k | 0 <= k < |items| ensures Hits(items[k], n, t, false) <==> k == j0 {
        PlusCancel(q, na, xs[k], t.0);
      }
      SeenOne(items, n, t, false, j0);
    } else {
      SeenNone(items, n, t, false);
    }
  }

  lemma SubIntraMaster(q: int, g: int, s: int, n: nat, t: Tile)
    requires Tabled(q)
    ensures Seen(SubIntra(q, g, s), n, t, true) ==
              if n == 0 && t.1 == 2 * s + g && 0 <= t.0 < q then |Offsets(q, g)| else 0
  {
    var bs := Nodes(q, g, s);
    forall na | 0 <= na < |bs|
      ensures Seen(bs[na], n, t, true) == if na == (if n == 0 && t.1 == 2 * s + g then t.0 else -1) then |Offsets(q, g)| else 0
    {
      NodeIntraMaster(q, g, s, na, n, t);
    }
    SeenFlatSingle(bs, n, t, true, if n == 0 && t.1 == 2 * s + g then t.0 else -1, |Offsets(q, g)|);
  }

  lemma {:induction false} SubIntraPrefix(q: int, g: int, s: int, r: int, k: nat)
    requires Tabled(q) && 0 <= r < q && k <= q
    ensures Seen(Flat(Nodes(q, g, s)[..k]), 0, TileOf(g, s, r), false) == Into(q, Offsets(q, g), r, k)
  {
    if k > 0 {
      var bs := Nodes(q, g, s)[..k];
      assert bs[..k - 1] == Nodes(q, g, s)[..k - 1];
      SubIntraPrefix(q, g, s, r, k - 1);
      SeenAppend(Flat(bs[..k - 1]), bs[k - 1], 0, TileOf(g, s, r), false);
      NodeIntraSlave(q, g, s, k - 1, 0, TileOf(g, s, r));
      AddRow(q, k - 1);
    }
  }

  lemma SubIntraSlave(q: int, g: int, s: int, n: nat, t: Tile)
    requires Tabled(q) && 0 <= t.0 < q
    ensures Seen(SubIntra(q, g, s), n, t, false) == if n == 0 && t.1 == 2 * s + g then |Offsets(q, 0)| else 0
  {
    var bs := Nodes(q, g, s);
    if n == 0 && t.1 == 2 * s + g {
      SubIntraPrefix(q, g, s, t.0, q);
      assert bs[..q] == bs;
      IntoFull(q, g, t.0);
    } else {
      forall na | 0 <= na < |bs| ensures Seen(bs[na], n, t, false) == 0 {
        NodeIntraSlave(q, g, s, na, n, t);
      }
      SeenFlatUniform(bs, n, t, false, 0);
    }
  }

  /** Within one group, a tile of the right column parity takes as many
      column links in each direction as there are offsets. */
  lemma GroupIntraSeen(q: int, g: int, n: nat, t: Tile, master: bool)
    requires Tabled(q) && (g == 0 || g == 1) && 0 <= t.0 < q && 0 <= t.1 < 2 * q
    ensures Seen(GroupIntra(q, g), n, t, master) == if n == 0 && t.1 % 2 == g then |Offsets(q, 0)| else 0
  {
    var bs := seq(q, s => SubIntra(q, g, s));
    var i0 := if t.1 % 2 == g then t.1 / 2 else -1;
    var v := if n == 0 then |Offsets(q, 0)| else 0;
    OffsetsFit(q, g);
    forall s | 0 <= s < q ensures Seen(bs[s], n, t, master) == if s == i0 then v else 0 {
      if master {
        SubIntraMaster(q, g, s, n, t);
      } else {
        SubIntraSlave(q, g, s, n, t);
      }
    }
    SeenFlatSingle(bs, n, t, master, i0, v);
  }

  lemma IntraSeen(q: int, n: nat, t: Tile, master: bool)
    requires Tabled(q) && 0 <= t.0 < q && 0 <= t.1 < 2 * q
    ensures Seen(Intra(q), n, t, master) == if n == 0 then |Offsets(q, 0)| else 0
  {
    var bs := seq(2, g => GroupIntra(q, g));
    var v := if n == 0 then |Offsets(q, 0)| else 0;
    forall g | 0 <= g < 2 ensures Seen(bs[g], n, t, master) == if g == t.1 % 2 then v else 0 {
      GroupIntraSeen(q, g, n, t, master);
    }
    SeenFlatSingle(bs, n, t, master, t.1 % 2, v);
  }

  lemma PairSeen(q: int, sa: int, na: int, sb: int, n: nat, t: Tile, master: bool)
    requires Tabled(q) && 0 <= sa < q && 0 <= na < q && 0 <= sb < q
    ensures Seen(Pair(q, sa, na, sb), n, t, master) ==
              (if n == 1 && t == TileOf(0, sa, na) then 1 else 0)
              + (if n == 1 && t == TileOf(1, sb, NodeB(q, sa, sb, na).value) then 1 else 0)
  {
    var p := Pair(q, sa, na, sb);
    assert p[..1][..0] == [];
    assert p[..|p| - 1] == p[..1];
  }

  /** For one node of group 0: a group-0 tile counts `q` links if it is
      that node; a group-1 tile counts one if it is the node's partner in
      its subgroup. */
  lemma SubInterSeen(q: int, sa: int, na: int, n: nat, t: Tile, master: bool)
    requires Tabled(q) && 0 <= sa < q && 0 <= na < q && 0 <= t.0 < q && 0 <= t.1 < 2 * q
    ensures Seen(SubInter(q, sa, na), n, t, master) ==
              if n != 1 then 0
              else if t.1 % 2 == 0 then (if t == TileOf(0, sa, na) then q else 0)
              else if NodeB(q, sa, t.1 / 2, na).value == t.0 then 1 else 0
  {
    if n == 1 && t.1 % 2 == 1 {
      SubInterOdd(q, sa, na, t, master);
    } else {
      SubInterRest(q, sa, na, n, t, master);
    }
  }

  lemma SubInterOdd(q: int, sa: int, na: int, t: Tile, master: bool)
    requires Tabled(q) && 0 <= sa < q && 0 <= na < q && 0 <= t.0 < q && 0 <= t.1 < 2 * q && t.1 % 2 == 1
    ensures Seen(SubInter(q, sa, na), 1, t, master) == if NodeB(q, sa, t.1 / 2, na).value == t.0 then 1 else 0
  {
    var bs := seq(q, sb requires 0 <= sb < q => Pair(q, sa, na, sb));
    var v := if NodeB(q, sa, t.1 / 2, na).value == t.0 then 1 else 0;
    forall sb | 0 <= sb < q ensures Seen(bs[sb], 1, t, master) == if sb == t.1 / 2 then v else 0 {
      PairSeen(q, sa, na, sb, 1, t, master);
    }
    SeenFlatSingle(bs, 1, t, master, t.1 / 2, v);
  }

  lemma SubInterRest(q: int, sa: int, na: int, n: nat, t: Tile, master: bool)
    requires Tabled(q) && 0 <= sa < q && 0 <= na < q && 0 <= t.0 < q && 0 <= t.1 < 2 * q
    requires n != 1 || t.1 % 2 == 0
    ensures Seen(SubInter(q, sa, na), n, t, master) == if n == 1 && t == TileOf(0, sa, na) then q else 0
  {
    var bs := seq(q, sb requires 0 <= sb < q => Pair(q, sa, na, sb));
    var v := if n == 1 && t == TileOf(0, sa, na) then 1 else 0;
    forall sb | 0 <= sb < q ensures Seen(bs[sb], n, t, master) == v {
      PairSeenGroup0(q, sa, na, sb, n, t, master);
    }
    SeenFlatUniform(bs, n, t, master, v);
  }

  /** A tile in an even column, or any count but the inter-group one, sees
      at most the group-0 end of a pair. */
  lemma PairSeenGroup0(q: int, sa: int, na: int, sb: int, n: nat, t: Tile, master: bool)
    requires Tabled(q) && 0 <= sa < q && 0 <= na < q && 0 <= sb < q
    requires n != 1 || t.1 % 2 == 0
    ensures Seen(Pair(q, sa, na, sb), n, t, master) == if n == 1 && t == TileOf(0, sa, na) then 1 else 0
  {
    PairSeen(q, sa, na, sb, n, t, master);
    if n == 1 {
      assert t != TileOf(1, sb, NodeB(q, sa, sb, na).value);
    }
  }

  lemma SaInterSeen(q: int, sa: int, n: nat, t: Tile, master: bool)
    requires Tabled(q) && 0 <= sa < q && 0 <= t.0 < q && 0 <= t.1 < 2 * q
    ensures Seen(SaInter(q, sa), n, t, master) ==
              if n != 1 then 0 else if t.1 % 2 == 0 then (if t.1 == 2 * sa then q else 0) else 1
  {
    var bs := seq(q, na requires 0 <= na < q => SubInter(q, sa, na));
    if n != 1 {
      forall na | 0 <= na < q ensures Seen(bs[na], n, t, master) == 0 {
        SubInterSeen(q, sa, na, n, t, master);
      }
      SeenFlatUniform(bs, n, t, master, 0);
    } else if t.1 % 2 == 0 {
      var i0 := if t.1 == 2 * sa then t.0 else -1;
      forall na | 0 <= na < q ensures Seen(bs[na], n, t, master) == if na == i0 then q else 0 {
        SubInterSeen(q, sa, na, n, t, master);
      }
      SeenFlatSingle(bs, n, t, master, i0, q);
    } else {
      var sb := t.1 / 2;
      var i0 := Back(q, sa, sb, t.0);
      forall na | 0 <= na < q ensures Seen(bs[na], n, t, master) == if na == i0 then 1 else 0 {
        SubInterSeen(q, sa, na, n, t, master);
        NodeBSolves(q, sa, sb, na, t.0);
      }
      NodeBSolves(q, sa, sb, 0, t.0);
      SeenFlatSingle(bs, n, t, master, i0, 1);
    }
  }

  lemma InterSeen(q: int, n: nat, t: Tile, master: bool)
    requires Tabled(q) && 0 <= t.0 < q && 0 <= t.1 < 2 * q
    ensures Seen(Inter(q), n, t, master) == if n == 1 then q else 0
  {
    var bs := seq(q, sa requires 0 <= sa < q => SaInter(q, sa));
    if n != 1 {
      forall sa | 0 <= sa < q ensures Seen(bs[sa], n, t, master) == 0 {
        SaInterSeen(q, sa, n, t, master);
      }
      SeenFlatUniform(bs, n, t, master, 0);
    } else if t.1 % 2 == 0 {
      forall sa | 0 <= sa < q ensures Seen(bs[sa], n, t, master) == if sa == t.1 / 2 then q else 0 {
        SaInterSeen(q, sa, n, t, master);
      }
      SeenFlatSingle(bs, n, t, master, t.1 / 2, q);
    } else {
      forall sa | 0 <= sa < q ensures Seen(bs[sa], n, t, master) == 1 {
        SaInterSeen(q, sa, n, t, master);
      }
      SeenFlatUniform(bs, n, t, master, 1);
    }
  }

  /** Every tile of the `q x 2q` block takes `|X[q]|` column links and `q`
      row links in each direction. */
  lemma ItemsSeen(q: int, n: nat, t: Tile, master: bool)
    requires Tabled(q) && 0 <= t.0 < q && 0 <= t.1 < 2 * q
    ensures Seen(Items(q), n, t, master) == if n == 0 then |Offsets(q, 0)| else if n == 1 then q else 0
  {
    IntraSeen(q, n, t, master);
    InterSeen(q, n, t, master);
    SeenAppend(Intra(q), Inter(q), n, t, master);
  }

  // --------------------------------------------------------- membership

  lemma SubIntraMembers(q: int, g: int, s: int)
    requires Tabled(q)
    ensures forall it :: it in SubIntra(q, g, s) <==> exists na :: 0 <= na < q && it in NodeIntra(q, g, s, na)
  {
    var bs := Nodes(q, g, s);
    FlatMembers(bs);
    assert forall na :: 0 <= na < q ==> bs[na] == NodeIntra(q, g, s, na);
  }

  lemma GroupIntraMembers(q: int, g: int)
    requires Tabled(q)
    ensures forall it :: it in GroupIntra(q, g) <==>
              exists s, na :: 0 <= s < q && 0 <= na < q && it in NodeIntra(q, g, s, na)
  {
    var bs := seq(q, s => SubIntra(q, g, s));
    FlatMembers(bs);
    assert forall s :: 0 <= s < q ==> bs[s] == SubIntra(q, g, s);
    forall s | 0 <= s < q {
      SubIntraMembers(q, g, s);
    }
    forall it | it in GroupIntra(q, g) ensures exists s, na :: 0 <= s < q && 0 <= na < q && it in NodeIntra(q, g, s, na) {
      var s :| 0 <= s < q && it in bs[s];
      var na :| 0 <= na < q && it in NodeIntra(q, g, s, na);
    }
    forall it, s, na | 0 <= s < q && 0 <= na < q && it in NodeIntra(q, g, s, na) ensures it in GroupIntra(q, g) {
      assert it in bs[s];
    }
  }

  lemma IntraMembers(q: int)
    requires Tabled(q)
    ensures forall it :: it in Intra(q) <==>
              exists g, s, na :: 0 <= g < 2 && 0 <= s < q && 0 <= na < q && it in NodeIntra(q, g, s, na)
  {
    forall it | it in Intra(q) ensures exists g, s, na :: 0 <= g < 2 && 0 <= s < q && 0 <= na < q && it in NodeIntra(q, g, s, na) {
      IntraFrom(q, it);
    }
    forall it, g, s, na | 0 <= g < 2 && 0 <= s < q && 0 <= na < q && it in NodeIntra(q, g, s, na) ensures it in Intra(q) {
      IntraOf(q, it, g, s, na);
    }
  }

  lemma IntraFrom(q: int, it: Item)
    requires Tabled(q) && it in Intra(q)
    ensures exists g, s, na :: 0 <= g < 2 && 0 <= s < q && 0 <= na < q && it in NodeIntra(q, g, s, na)
  {
    var bs := seq(2, g => GroupIntra(q, g));
    FlatMembers(bs);
    var g :| 0 <= g < 2 && it in bs[g];
    assert bs[g] == GroupIntra(q, g);
    GroupIntraMembers(q, g);
    var s, na :| 0 <= s < q && 0 <= na < q && it in NodeIntra(q, g, s, na);
  }

  lemma IntraOf(q: int, it: Item, g: int, s: int, na: int)
    requires Tabled(q) && 0 <= g < 2 && 0 <= s < q && 0 <= na < q && it in NodeIntra(q, g, s, na)
    ensures it in Intra(q)
  {
    var bs := seq(2, g => GroupIntra(q, g));
    FlatMembers(bs);
    assert bs[g] == GroupIntra(q, g);
    GroupIntraMembers(q, g);
    assert it in bs[g];
  }

  lemma SubInterMembers(q: int, sa: int, na: int)
    requires Tabled(q) && 0 <= sa < q && 0 <= na < q
    ensures forall it :: it in SubInter(q, sa, na) <==> exists sb :: 0 <= sb < q && it in Pair(q, sa, na, sb)
  {
    var bs := seq(q, sb requires 0 <= sb < q => Pair(q, sa, na, sb));
    FlatMembers(bs);
    assert forall sb :: 0 <= sb < q ==> bs[sb] == Pair(q, sa, na, sb);
  }

  lemma SaInterMembers(q: int, sa: int)
    requires Tabled(q) && 0 <= sa < q
    ensures forall it :: it in SaInter(q, sa) <==>
              exists na, sb :: 0 <= na < q && 0 <= sb < q && it in Pair(q, sa, na, sb)
  {
    var bs := seq(q, na requires 0 <= na < q => SubInter(q, sa, na));
    FlatMembers(bs);
    assert forall na :: 0 <= na < q ==> bs[na] == SubInter(q, sa, na);
    forall na | 0 <= na < q {
      SubInterMembers(q, sa, na);
    }
    forall it | it in SaInter(q, sa) ensures exists na, sb :: 0 <= na < q && 0 <= sb < q && it in Pair(q, sa, na, sb) {
      var na :| 0 <= na < q && it in bs[na];
      var sb :| 0 <= sb < q && it in Pair(q, sa, na, sb);
    }
    forall it, na, sb | 0 <= na < q && 0 <= sb < q && it in Pair(q, sa, na, sb) ensures it in SaInter(q, sa) {
      assert it in bs[na];
    }
  }

  lemma InterMembers(q: int)
    requires Tabled(q)
    ensures forall it :: it in Inter(q) <==>
              exists sa, na, sb :: 0 <= sa < q && 0 <= na < q && 0 <= sb < q && it in Pair(q, sa, na, sb)
  {
    var bs := seq(q, sa requires 0 <= sa < q => SaInter(q, sa));
    FlatMembers(bs);
    assert forall sa :: 0 <= sa < q ==> bs[sa] == SaInter(q, sa);
    forall sa | 0 <= sa < q {
      SaInterMembers(q, sa);
    }
    forall it | it in Inter(q) ensures exists sa, na, sb :: 0 <= sa < q && 0 <= na < q && 0 <= sb < q && it in Pair(q, sa, na, sb) {
      var sa :| 0 <= sa < q && it in bs[sa];
      var na, sb :| 0 <= na < q && 0 <= sb < q && it in Pair(q, sa, na, sb);
    }
    forall it, sa, na, sb | 0 <= sa < q && 0 <= na < q && 0 <= sb < q && it in Pair(q, sa, na, sb) ensures it in Inter(q) {
      assert it in bs[sa];
    }
  }

  /** A tile of the `q x 2q` block the nodes occupy. */
  predicate InBlock(q: int, t: Tile) {
    0 <= t.0 < q && 0 <= t.1 < 2 * q
  }

  /** Every link asked for is counted on network 0 or 1 between tiles of
      the block. */
  lemma ItemShape(q: int, it: Item)
    requires Tabled(q) && it in Items(q)
    ensures it.Counted? && (it.net == 0 || it.net == 1) && InBlock(q, it.a) && InBlock(q, it.b)
  {
    if it in Intra(q) {
      IntraMembers(q);
      var g, s, na :| 0 <= g < 2 && 0 <= s < q && 0 <= na < q && it in NodeIntra(q, g, s, na);
    } else {
      InterMembers(q);
      var sa, na, sb :| 0 <= sa < q && 0 <= na < q && 0 <= sb < q && it in Pair(q, sa, na, sb);
    }
  }

  /** Intra-subgroup link number `j` of node `na` is asked for. */
  lemma IntraPresent(q: int, g: int, s: int, na: int, j: int)
    requires Tabled(q) && 0 <= g < 2 && 0 <= s < q && 0 <= na < q && 0 <= j < |Offsets(q, g)|
    ensures NodeIntra(q, g, s, na)[j] in Items(q)
  {
    IntraMembers(q);
    assert NodeIntra(q, g, s, na)[j] in NodeIntra(q, g, s, na);
    assert NodeIntra(q, g, s, na)[j] in Intra(q);
  }

  lemma InterPresent(q: int, sa: int, na: int, sb: int)
    requires Tabled(q) && 0 <= sa < q && 0 <= na < q && 0 <= sb < q
    ensures forall it :: it in Pair(q, sa, na, sb) ==> it in Items(q)
  {
    InterMembers(q);
  }

  // ---------------------------------------------------------- generate

  /** `|X[q]|` east ports (ids from 0) for the intra-subgroup links, then
      `q` north ports for the inter-group links, all aligned 1. */
  function SlimPorts(q: int): (p: Ports)
    requires Tabled(q)
    ensures |p.ms| == |p.ss| == |Offsets(q, 0)| + q
    ensures forall i :: 0 <= i < |p.ms| ==> p.ms[i] == p.ss[i]
    ensures forall i :: 0 <= i < |p.ms| ==> p.ms[i] == Want(if i < |Offsets(q, 0)| then "east" else "north", 1)
  {
    var ws := seq(|Offsets(q, 0)|, _ => Want("east", 1)) + seq(q, _ => Want("north", 1));
    Ports(ws, ws)
  }

  /** The four counter maps: column counters (network 0) from 0 and row
      counters (network 1) from `|X[q]|`, for every tile of the
      `rows x cols` array; masters and slaves start alike. */
  function Counters(q: int, rows: int, cols: int): (c: Counters)
    requires Tabled(q)
    ensures forall n, t :: (n, t) in c <==> (n == 0 || n == 1) && 0 <= t.0 < rows && 0 <= t.1 < cols
    ensures forall t :: (0, t) in c ==> c[(0, t)] == 0
    ensures forall t :: (1, t) in c ==> c[(1, t)] == |Offsets(q, 0)|
  {
    Fresh(Span(rows), Span(cols), 0, 0) + Fresh(Span(rows), Span(cols), 1, |Offsets(q, 0)|)
  }

  /** The node block fits the array given in the configuration. */
  predicate Fits(q: int, rows: int, cols: int) {
    Tabled(q) && rows >= q && cols >= 2 * q
  }

  /** Every counter the links use exists exactly when the nodes fit the
      array; otherwise `get_connection` raises `KeyError`. */
  lemma KnownIff(q: int, rows: int, cols: int)
    requires Tabled(q)
    ensures Known(Items(q), Counters(q, rows, cols), Counters(q, rows, cols)) <==> Fits(q, rows, cols)
  {
    var items, c := Items(q), Counters(q, rows, cols);
    if Fits(q, rows, cols) {
      forall k | 0 <= k < |items| && items[k].Counted?
        ensures (items[k].net, items[k].a) in c && (items[k].net, items[k].b) in c
      {
        assert items[k] in items;
        ItemShape(q, items[k]);
      }
    } else {
      var it := if rows < q then NodeIntra(q, 0, 0, q - 1)[0] else NodeIntra(q, 1, q - 1, 0)[0];
      OffsetsFit(q, 1);
      IntraPresent(q, if rows < q then 0 else 1, if rows < q then 0 else q - 1, if rows < q then q - 1 else 0, 0);
      var k :| 0 <= k < |items| && items[k] == it;
      assert (it.net, it.a) !in c;
    }
  }

  /** `generate`: the configuration is `[q, rows, cols]`, which replaces
      the rows and columns the caller passed. */
  function Generate(config: seq<int>): (r: Result<Net>)
    ensures r.Ok? <==> |config| == 3 && Fits(config[0], config[1], config[2])
    ensures |config| < 3 ==> r == Err("Config format: [<q>,<rows>,<cols>]")
    ensures |config| == 3 && config[0] !in PrimePowers && !Tabled(config[0]) ==>
              r == Err("Currently, q = " + Decimal(config[0]) + " is not supported")
    ensures r.Ok? ==> r.value.ports == SlimPorts(config[0]) && |r.value.conns| == |Items(config[0])|
  {
    if |config| < 3 then Err("Config format: [<q>,<rows>,<cols>]")
    else if |config| > 3 then Err("ValueError: too many values to unpack")
    else
      var q, rows, cols := config[0], config[1], config[2];
      if q !in PrimePowers && !Tabled(q) then Err("Currently, q = " + Decimal(q) + " is not supported")
      else if !Tabled(q) then Err("KeyError: " + Decimal(q))
      else
        KnownIff(q, rows, cols);
        var c := Counters(q, rows, cols);
        match Assign(Items(q), c, c)
        case Err(e) => Err(e)
        case Ok((qs, _, _)) => Ok(Net(SlimPorts(q), qs))
  }

  // ------------------------------------------------------------ the links

  /** The connection list of a configuration that fits. */
  function Conns(q: int, rows: int, cols: int): (ls: seq<Request>)
    requires Fits(q, rows, cols)
    ensures |ls| == |Items(q)|
  {
    KnownIff(q, rows, cols);
    Assign(Items(q), Counters(q, rows, cols), Counters(q, rows, cols)).value.0
  }

  /** `generate` on a configuration that fits gives the ports and the
      connection list. */
  lemma GenerateConns(q: int, rows: int, cols: int)
    requires Fits(q, rows, cols)
    ensures Generate([q, rows, cols]) == Ok(Net(SlimPorts(q), Conns(q, rows, cols)))
  {
    KnownIff(q, rows, cols);
  }

  /** The first port id of network `n`: column links from 0, row links
      from `|X[q]|`. */
  function Lo(q: int, n: nat): int
    requires Tabled(q)
  {
    if n == 0 then 0 else |Offsets(q, 0)|
  }

  /** One past the last port id of network `n`. */
  function Hi(q: int, n: nat): int
    requires Tabled(q)
  {
    if n == 0 then |Offsets(q, 0)| else |Offsets(q, 0)| + q
  }

  /** The tiles a link joins. */
  function Ends(l: Request): (Tile, Tile) {
    ((l.m.row, l.m.col), (l.s.row, l.s.col))
  }

  /** The link a counted item became: its tiles, on ports of its network. */
  predicate Became(q: int, it: Item, l: Request)
    requires Tabled(q)
  {
    && it.Counted? && Ends(l) == (it.a, it.b)
    && Lo(q, it.net) <= l.m.port < Hi(q, it.net) && Lo(q, it.net) <= l.s.port < Hi(q, it.net)
  }

  /** Link `k` joins the tiles of item `k`, and the counters never run past
      the ports the tile has for its network. */
  lemma SlimLink(q: int, rows: int, cols: int, k: int)
    requires Fits(q, rows, cols) && 0 <= k < |Items(q)|
    ensures k < |Conns(q, rows, cols)| && Became(q, Items(q)[k], Conns(q, rows, cols)[k])
  {
    var items, c := Items(q), Counters(q, rows, cols);
    ConnExpected(q, rows, cols, k);
    var it := items[k];
    assert it in items;
    ItemShape(q, it);
    SeenBelow(q, k, it.net, it.a, true);
    SeenBelow(q, k, it.net, it.b, false);
    assert c[(it.net, it.a)] == Lo(q, it.net) && c[(it.net, it.b)] == Lo(q, it.net);
  }

  /** Link `k` is the one item `k` asks for, numbered from the counters. */
  lemma ConnExpected(q: int, rows: int, cols: int, k: int)
    requires Fits(q, rows, cols) && 0 <= k < |Items(q)|
    ensures Known(Items(q), Counters(q, rows, cols), Counters(q, rows, cols))
    ensures k < |Conns(q, rows, cols)|
    ensures Conns(q, rows, cols)[k] == Expected(Items(q), Counters(q, rows, cols), Counters(q, rows, cols), k)
  {
    KnownIff(q, rows, cols);
    AssignNumbers(Items(q), Counters(q, rows, cols), Counters(q, rows, cols));
  }

  /** Before item `k`, fewer than the tile's share of its network's links
      have been counted. */
  lemma SeenBelow(q: int, k: int, n: nat, t: Tile, master: bool)
    requires Tabled(q) && 0 <= k < |Items(q)| && InBlock(q, t) && (n == 0 || n == 1)
    requires Hits(Items(q)[k], n, t, master)
    ensures Seen(Items(q)[..k], n, t, master) < Hi(q, n) - Lo(q, n)
  {
    SeenPrefix(Items(q), n, t, master, k);
    ItemsSeen(q, n, t, master);
  }

  /** An intra-subgroup link: two nodes of one subgroup (one column of the
      block) whose bit patterns differ by one of the group's offsets, on
      the east ports. */
  predicate IntraLink(q: int, l: Request)
    requires Tabled(q)
  {
    && l.m.col == l.s.col && InBlock(q, (l.m.row, l.m.col)) && 0 <= l.s.row < q
    && Xor(l.m.row, l.s.row) in Offsets(q, l.m.col % 2)
    && 0 <= l.m.port < |Offsets(q, 0)| && 0 <= l.s.port < |Offsets(q, 0)|
  }

  /** Node `a` of group 0 (an even column) and node `b` of group 1 (an odd
      column) are partners: `b` is `get_node_b` of `a` for their subgroups. */
  predicate Partners(q: int, a: Tile, b: Tile)
    requires Tabled(q)
  {
    && InBlock(q, a) && InBlock(q, b) && a.1 % 2 == 0 && b.1 % 2 == 1
    && b.0 == NodeB(q, a.1 / 2, b.1 / 2, a.0).value
  }

  /** An inter-group link: between partners, either way, on the north
      ports. */
  predicate InterLink(q: int, l: Request)
    requires Tabled(q)
  {
    && (Partners(q, Ends(l).0, Ends(l).1) || Partners(q, Ends(l).1, Ends(l).0))
    && |Offsets(q, 0)| <= l.m.port < |Offsets(q, 0)| + q && |Offsets(q, 0)| <= l.s.port < |Offsets(q, 0)| + q
  }

  lemma ItemLink(q: int, it: Item, l: Request)
    requires Tabled(q) && it in Items(q) && Became(q, it, l)
    ensures IntraLink(q, l) || InterLink(q, l)
  {
    if it in Intra(q) {
      IntraMembers(q);
      var g, s, na :| 0 <= g < 2 && 0 <= s < q && 0 <= na < q && it in NodeIntra(q, g, s, na);
      var j :| 0 <= j < |Offsets(q, g)| && it == NodeIntra(q, g, s, na)[j];
      IntraItemLink(q, g, s, na, j, l);
    } else {
      InterMembers(q);
      var sa, na, sb :| 0 <= sa < q && 0 <= na < q && 0 <= sb < q && it in Pair(q, sa, na, sb);
      InterItemLink(q, sa, na, sb, it, l);
    }
  }

  lemma IntraItemLink(q: int, g: int, s: int, na: int, j: int, l: Request)
    requires Tabled(q) && 0 <= g < 2 && 0 <= s < q && 0 <= na < q && 0 <= j < |Offsets(q, g)|
    requires Became(q, NodeIntra(q, g, s, na)[j], l)
    ensures IntraLink(q, l)
  {
    var xs := Offsets(q, g);
    OffsetsFit(q, g);
    XorCancel(na, xs[j]);
    assert l.m.col % 2 == g;
    assert Xor(l.m.row, l.s.row) == xs[j];
  }

  lemma InterItemLink(q: int, sa: int, na: int, sb: int, it: Item, l: Request)
    requires Tabled(q) && 0 <= sa < q && 0 <= na < q && 0 <= sb < q
    requires it in Pair(q, sa, na, sb) && Became(q, it, l)
    ensures InterLink(q, l)
  {
    var a, b := TileOf(0, sa, na), TileOf(1, sb, NodeB(q, sa, sb, na).value);
    assert a.1 / 2 == sa && b.1 / 2 == sb;
    assert Partners(q, a, b);
  }

  /** Every link joins two nodes of a subgroup by an offset, on east ports,
      or two partners of different groups, on north ports. */
  lemma SlimShape(q: int, rows: int, cols: int)
    requires Fits(q, rows, cols)
    ensures forall l :: l in Conns(q, rows, cols) ==> IntraLink(q, l) || InterLink(q, l)
  {
    var ls := Conns(q, rows, cols);
    forall l | l in ls ensures IntraLink(q, l) || InterLink(q, l) {
      var k :| 0 <= k < |ls| && ls[k] == l;
      SlimLink(q, rows, cols, k);
      assert Items(q)[k] in Items(q);
      ItemLink(q, Items(q)[k], l);
    }
  }

  /** Every node links to its neighbour at each offset of its group. */
  lemma SlimIntraLinks(q: int, rows: int, cols: int, g: int, s: int, na: int, x: int)
    requires Fits(q, rows, cols) && 0 <= g < 2 && 0 <= s < q && 0 <= na < q && x in Offsets(q, g)
    ensures 0 <= x < q
    ensures exists l :: l in Conns(q, rows, cols) && Ends(l) == (TileOf(g, s, na), TileOf(g, s, Plus(q, na, x)))
                        && 0 <= l.m.port < |Offsets(q, 0)| && 0 <= l.s.port < |Offsets(q, 0)|
  {
    var xs := Offsets(q, g);
    OffsetsFit(q, g);
    var j :| 0 <= j < |xs| && xs[j] == x;
    IntraPresent(q, g, s, na, j);
    var items := Items(q);
    var k :| 0 <= k < |items| && items[k] == NodeIntra(q, g, s, na)[j];
    SlimLink(q, rows, cols, k);
    assert Conns(q, rows, cols)[k] in Conns(q, rows, cols);
  }

  /** Every node of group 0 links both ways with its partner in every
      subgroup of group 1. */
  lemma SlimInterLinks(q: int, rows: int, cols: int, sa: int, na: int, sb: int)
    requires Fits(q, rows, cols) && 0 <= sa < q && 0 <= na < q && 0 <= sb < q
    ensures var a, b := TileOf(0, sa, na), TileOf(1, sb, NodeB(q, sa, sb, na).value);
            && (exists l :: l in Conns(q, rows, cols) && Ends(l) == (a, b)
                            && Lo(q, 1) <= l.m.port < Hi(q, 1) && Lo(q, 1) <= l.s.port < Hi(q, 1))
            && (exists l :: l in Conns(q, rows, cols) && Ends(l) == (b, a)
                            && Lo(q, 1) <= l.m.port < Hi(q, 1) && Lo(q, 1) <= l.s.port < Hi(q, 1))
  {
    var p := Pair(q, sa, na, sb);
    InterPresent(q, sa, na, sb);
    assert p[0] in p && p[1] in p;
    var items := Items(q);
    var i :| 0 <= i < |items| && items[i] == p[0];
    var j :| 0 <= j < |items| && items[j] == p[1];
    SlimLink(q, rows, cols, i);
    SlimLink(q, rows, cols, j);
    assert Conns(q, rows, cols)[i] in Conns(q, rows, cols);
    assert Conns(q, rows, cols)[j] in Conns(q, rows, cols);
  }

  lemma SlimPair(q: int, rows: int, cols: int, i: int, j: int)
    requires Fits(q, rows, cols) && 0 <= i < j < |Items(q)|
    ensures var ls := Conns(q, rows, cols); ls[i].m != ls[j].m && ls[i].s != ls[j].s
  {
    var items, c := Items(q), Counters(q, rows, cols);
    SlimLink(q, rows, cols, i);
    SlimLink(q, rows, cols, j);
    if items[i].net == items[j].net {
      KnownIff(q, rows, cols);
      assert Conns(q, rows, cols) == Assign(items, c, c).value.0;
      AssignSeparates(items, c, c, i, j);
    } else {
      assert items[i] in items && items[j] in items;
      ItemShape(q, items[i]);
      ItemShape(q, items[j]);
    }
  }

  /** No master end and no slave end repeats, so `validate_connections`
      accepts the list, and every port is one the tile has. */
  lemma SlimUnshared(q: int, rows: int, cols: int)
    requires Fits(q, rows, cols)
    ensures Unshared(Conns(q, rows, cols)) && ValidateConnections(Conns(q, rows, cols)) == Pass
    ensures forall l :: l in Conns(q, rows, cols) ==> 0 <= l.m.port < |SlimPorts(q).ms| && 0 <= l.s.port < |SlimPorts(q).ss|
  {
    var ls := Conns(q, rows, cols);
    forall i, j | 0 <= i < j < |ls| ensures ls[i].m != ls[j].m && ls[i].s != ls[j].s {
      SlimPair(q, rows, cols, i, j);
    }
    UnsharedAccepted(ls);
    forall l | l in ls ensures 0 <= l.m.port < |SlimPorts(q).ms| && 0 <= l.s.port < |SlimPorts(q).ss| {
      var k :| 0 <= k < |ls| && ls[k] == l;
      SlimLink(q, rows, cols, k);
      assert Items(q)[k] in Items(q);
      ItemShape(q, Items(q)[k]);
    }
  }
}
