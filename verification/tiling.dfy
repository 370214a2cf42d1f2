/** The tile list of the composed module (src/place_and_route.py, lines
    505-521): the row loop and the column loop visit every coarse line and
    emit a tile at every odd row and odd column, numbering them in that
    order. Here the running offsets `row_acc` and `col_acc` are given as
    the sequences of values they take, one per coarse line. */
module Tiling {
  import opened Cells

  /** A tile placed in the new module: its component id and its top-left
      fine cell. */
  datatype Comp = Comp(id: nat, loc: Loc)

  /** The position of tile (i, j) in row-major order over `w` columns. */
  function Slot(i: nat, j: nat, w: nat): nat {
    if i == 0 then j else Slot(i - 1, j, w) + w
  }

  /** `a` rows of `w` tiles. */
  function Times(a: nat, w: nat): nat {
    if a == 0 then 0 else Times(a - 1, w) + w
  }

  lemma {:induction false} SlotIs(i: nat, j: nat, w: nat)
    ensures Slot(i, j, w) == i * w + j
  {
    if i > 0 { SlotIs(i - 1, j, w); }
  }

  lemma {:induction false} TimesIs(a: nat, w: nat)
    ensures Times(a, w) == a * w
  {
    if a > 0 { TimesIs(a - 1, w); }
  }

  /** The tiles of coarse row `row` from coarse column `col` on, where the
      row starts at fine row `top` and `cs` holds the first fine column of
      every coarse column: the value the running offset `col_acc` of the
      loop has reached at that column. */
  function ColComps(cs: seq<nat>, row: nat, col: nat, top: nat, id: nat): (r: seq<Comp>)
    requires col <= |cs|
    ensures |r| == if row % 2 == 1 then |cs| / 2 - col / 2 else 0
    decreases |cs| - col
  {
    if col == |cs| then []
    else
      var here := if row % 2 == 1 && col % 2 == 1 then [Comp(id, (top, cs[col]))] else [];
      here + ColComps(cs, row, col + 1, top, id + |here|)
  }

  /** The `k`-th tile of an odd coarse row from column `col` on sits in
      odd coarse column `2 * (col / 2) + 2 * k + 1`. */
  lemma {:induction false} ColCompsAt(cs: seq<nat>, row: nat, col: nat, top: nat, id: nat, k: nat)
    requires col <= |cs| && k < |ColComps(cs, row, col, top, id)|
    ensures ColComps(cs, row, col, top, id)[k] == Comp(id + k, (top, cs[2 * (col / 2) + 2 * k + 1]))
    decreases |cs| - col
  {
    var here := if row % 2 == 1 && col % 2 == 1 then [Comp(id, (top, cs[col]))] else [];
    var rest := ColComps(cs, row, col + 1, top, id + |here|);
    assert ColComps(cs, row, col, top, id) == here + rest;
    if col % 2 == 1 {
      if k == 0 {
        assert 2 * (col / 2) + 1 == col;
      } else {
        ColCompsAt(cs, row, col + 1, top, id + 1, k - 1);
        assert 2 * ((col + 1) / 2) + 2 * (k - 1) + 1 == 2 * (col / 2) + 2 * k + 1;
      }
    } else {
      ColCompsAt(cs, row, col + 1, top, id + |here|, k);
      assert (col + 1) / 2 == col / 2;
    }
  }

  /** The tiles of coarse rows `row` on, row by row; `rs` holds the first
      fine row of every coarse row, the value of the running offset
      `row_acc` at that row. */
  function RowComps(rs: seq<nat>, cs: seq<nat>, row: nat, id: nat): seq<Comp>
    requires row <= |rs|
    decreases |rs| - row
  {
    if row == |rs| then []
    else ColComps(cs, row, 0, rs[row], id) + RowComps(rs, cs, row + 1, id + Width(cs, row))
  }

  /** How many tiles coarse row `row` holds. */
  function Width(cs: seq<nat>, row: nat): nat {
    if row % 2 == 1 then |cs| / 2 else 0
  }

  lemma {:induction false} RowCompsCount(rs: seq<nat>, cs: seq<nat>, row: nat, id: nat)
    requires row <= |rs|
    ensures |RowComps(rs, cs, row, id)| == Times(|rs| / 2 - row / 2, |cs| / 2)
    decreases |rs| - row
  {
    if row < |rs| {
      RowCompsCount(rs, cs, row + 1, id + Width(cs, row));
      if row % 2 == 1 {
        assert (row + 1) / 2 == row / 2 + 1;
      } else {
        assert (row + 1) / 2 == row / 2;
      }
    }
  }

  /** From even coarse row `row = 2 * t` on, the tiles are those of the
      odd row after it, then those from two rows on. */
  lemma TwoRows(rs: seq<nat>, cs: seq<nat>, row: nat, t: nat, id: nat)
    requires row == 2 * t && row + 2 <= |rs|
    ensures |ColComps(cs, row + 1, 0, rs[row + 1], id)| == |cs| / 2
    ensures RowComps(rs, cs, row, id)
            == ColComps(cs, row + 1, 0, rs[row + 1], id) + RowComps(rs, cs, row + 2, id + |cs| / 2)
  {
    assert row % 2 == 0 && (row + 1) % 2 == 1;
    assert |ColComps(cs, row, 0, rs[row], id)| == 0;
    assert Width(cs, row) == 0 && Width(cs, row + 1) == |cs| / 2;
  }

  lemma ConcatAt<T>(a: seq<T>, b: seq<T>, s: nat, c: T)
    requires s < |b| && b[s] == c
    ensures |a| + s < |a + b| && (a + b)[|a| + s] == c
  {
  }

  lemma PrefixAt<T>(a: seq<T>, b: seq<T>, s: nat, c: T)
    requires s < |a| && a[s] == c
    ensures s < |a + b| && (a + b)[s] == c
  {
  }

  /** The tile at row-major position (i, j) from even coarse row
      `row = 2 * t` on is the `k`-th, and sits in odd coarse row
      `x = row + 2 * i + 1` and odd coarse column `2 * j + 1`. */
  lemma {:induction false} RowCompsAt(rs: seq<nat>, cs: seq<nat>, row: nat, t: nat, id: nat, i: nat, j: nat, x: nat, k: nat)
    requires row == 2 * t && x == row + 2 * i + 1 && x < |rs|
    requires j < |cs| / 2 && k == Slot(i, j, |cs| / 2)
    ensures var r := RowComps(rs, cs, row, id);
            k < |r| && r[k] == Comp(id + k, (rs[x], cs[2 * j + 1]))
    decreases i, 1
  {
    if i == 0 {
      RowCompsFirst(rs, cs, row, t, id, j, x, k);
    } else {
      RowCompsLater(rs, cs, row, t, id, i, j, x, k);
    }
  }

  /** Tile row 0 from an even coarse row on is the odd row after it. */
  lemma RowCompsFirst(rs: seq<nat>, cs: seq<nat>, row: nat, t: nat, id: nat, j: nat, x: nat, k: nat)
    requires row == 2 * t && x == row + 1 && x < |rs|
    requires j < |cs| / 2 && k == j
    ensures var r := RowComps(rs, cs, row, id);
            k < |r| && r[k] == Comp(id + k, (rs[x], cs[2 * j + 1]))
  {
    TwoRows(rs, cs, row, t, id);
    var here := ColComps(cs, row + 1, 0, rs[row + 1], id);
    ColCompsAt(cs, row + 1, 0, rs[row + 1], id, j);
    PrefixAt(here, RowComps(rs, cs, row + 2, id + |cs| / 2), k, here[j]);
  }

  /** Tile row `i >= 1` from even coarse row `row` on is tile row `i - 1`
      from two rows on, `|cs| / 2` positions later. */
  lemma {:induction false} RowCompsLater(rs: seq<nat>, cs: seq<nat>, row: nat, t: nat, id: nat, i: nat, j: nat, x: nat, k: nat)
    requires row == 2 * t && x == row + 2 * i + 1 && x < |rs| && i >= 1
    requires j < |cs| / 2 && k == Slot(i, j, |cs| / 2)
    ensures var r := RowComps(rs, cs, row, id);
            k < |r| && r[k] == Comp(id + k, (rs[x], cs[2 * j + 1]))
    decreases i, 0
  {
    var w := |cs| / 2;
    TwoRows(rs, cs, row, t, id);
    SlotPrev(i, j, w);
    var rest := RowComps(rs, cs, row + 2, id + w);
    RowCompsAt(rs, cs, row + 2, t + 1, id + w, i - 1, j, x, k - w);
    ConcatAt(ColComps(cs, row + 1, 0, rs[row + 1], id), rest, k - w, rest[k - w]);
  }

  /** One tile row back is `w` positions back. */
  lemma SlotPrev(i: nat, j: nat, w: nat)
    requires i >= 1
    ensures Slot(i, j, w) >= w && Slot(i, j, w) - w == Slot(i - 1, j, w)
  {
  }

}
