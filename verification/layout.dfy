/** The homogeneous place-and-route flow end to end (`place_and_route` in
    src/place_and_route.py, lines 473-532): validate the requests, embed
    and build the tile, route coarsely, size the channels, route finely,
    and lay the tiles out as components of the new module. Writing the
    module file is left out; the result is the record it would hold. */
module Layout {
  import opened Wrappers
  import opened Cells
  import opened Blocks
  import opened Embed
  import opened Tile
  import opened Coarse
  import opened Sizing
  import opened Fine
  import opened Tiling

  /** The components of the new module: one tile per odd coarse row and
      odd coarse column, numbered 0, 1, ... row by row, each at the sums of
      the row and column sizes before it, which is where the fine grid
      holds that tile's block. */
  function Components(f: Frame): (r: seq<Comp>)
    ensures |r| == (|f.rs| / 2) * (|f.cs| / 2)
    ensures forall i, j :: 0 <= i < |f.rs| / 2 && 0 <= j < |f.cs| / 2 ==> Slot(i, j, |f.cs| / 2) == i * (|f.cs| / 2) + j
    ensures forall i, j :: 0 <= i < |f.rs| / 2 && 0 <= j < |f.cs| / 2 ==>
              Slot(i, j, |f.cs| / 2) < |r|
              && r[Slot(i, j, |f.cs| / 2)] == Comp(Slot(i, j, |f.cs| / 2), (Starts(f.rs)[2 * i + 1], Starts(f.cs)[2 * j + 1]))
  {
    var rs, cs := Starts(f.rs), Starts(f.cs);
    RowCompsCount(rs, cs, 0, 0);
    TimesIs(|rs| / 2, |cs| / 2);
    forall i, j | 0 <= i < |f.rs| / 2 && 0 <= j < |f.cs| / 2
      ensures Slot(i, j, |f.cs| / 2) == i * (|f.cs| / 2) + j
    {
      SlotIs(i, j, |f.cs| / 2);
    }
    forall i, j | 0 <= i < |f.rs| / 2 && 0 <= j < |f.cs| / 2
      ensures Slot(i, j, |f.cs| / 2) < |RowComps(rs, cs, 0, 0)|
      ensures RowComps(rs, cs, 0, 0)[Slot(i, j, |f.cs| / 2)] == Comp(Slot(i, j, |f.cs| / 2), (rs[2 * i + 1], cs[2 * j + 1]))
    {
      RowCompsAt(rs, cs, 0, 0, 0, i, j, 2 * i + 1, Slot(i, j, |cs| / 2));
    }
    RowComps(rs, cs, 0, 0)
  }

  /** Every tile block of the layout lies inside the fine grid. */
  lemma ComponentsInside(f: Frame, i: nat, j: nat)
    requires i < |f.rs| / 2 && j < |f.cs| / 2
    ensures var c := Components(f)[Slot(i, j, |f.cs| / 2)];
            c.loc.0 + f.rs[2 * i + 1] <= f.Rows() && c.loc.1 + f.cs[2 * j + 1] <= f.Cols()
  {
    StartsInside(f.rs, 2 * i + 1);
    StartsInside(f.cs, 2 * j + 1);
  }

  /** The module `place_and_route` writes. */
  datatype Chip = Chip(nRows: nat, nCols: nat, comps: seq<Comp>, cons: seq<seq<Loc>>)

  /** The steps before sizing: validate the requests, embed and build
      the tile, and route every request on the coarse grid. */
  function CoarseStage(raw: RawTile, w: nat, h: nat, delay: int, qs: seq<Request>)
    : (r: Result<(Block, seq<CoarsePath>)>)
    ensures r.Ok? ==> ValidateConnections(qs).Pass? && |r.value.1| == |qs|
  {
    var _ :- ValidateConnections(qs);
    var t :- TileStage(raw, w, h, delay);
    var ps :- RouteStage(t, qs);
    Ok((t, ps))
  }

  /** Every request routed on the coarse grid of tile `t`, in order. */
  function RouteStage(t: Block, qs: seq<Request>): (r: Result<seq<CoarsePath>>)
    ensures r.Ok? ==> |r.value| == |qs|
  {
    CoarseRouteAll(t, qs)
  }

  /** The tile the flow places: embedded in `w` x `h` cells, then built. */
  function TileStage(raw: RawTile, w: nat, h: nat, delay: int): (r: Result<Block>)
    ensures r.Ok? ==> r.value.nRows == h && r.value.nCols == w
  {
    var file :- EmbedTile(raw, w, h);
    BuildTile(file, delay)
  }

  /** The channel sizes of `rows` x `cols` copies of tile `t`. */
  function SizeStage(t: Block, ps: seq<CoarsePath>, rows: nat, cols: nat): (r: Result<Frame>)
    ensures r.Ok? ==> |r.value.rs| == 2 * rows + 1 && |r.value.cs| == 2 * cols + 1
  {
    var sizes :- ComputeSizes(ps, t.nRows, t.nCols, rows, cols);
    SizesLength(ps, t.nRows, t.nCols, rows, cols);
    Ok(Frame(sizes.0, sizes.1))
  }

  /** The whole flow for `rows` x `cols` copies of a tile of `w` x `h`
      cells whose edges carry `delay`, with the fine router as written.
      The requests were valid; every connection's fine route runs from
      the master port to the slave port its coarse route names in the
      sized grid; and the tiles sit row by row at the sums of the sizes
      before them (`Components`). */
  function PlaceAndRoute(raw: RawTile, w: nat, h: nat, delay: int, rows: nat, cols: nat, qs: seq<Request>)
    : (r: Result<Chip>)
    ensures r.Ok? ==> ValidateConnections(qs).Pass?
    ensures r.Ok? ==> |r.value.cons| == |qs| && |r.value.comps| == rows * cols
    ensures r.Ok? ==>
              var c := CoarseStage(raw, w, h, delay, qs);
              && c.Ok? && SizeStage(c.value.0, c.value.1, rows, cols).Ok?
              && var f := SizeStage(c.value.0, c.value.1, rows, cols).value;
                 && Joins(f, c.value.1, r.value.cons)
                 && r.value.comps == Components(f)
                 && r.value.nRows == f.Rows() && r.value.nCols == f.Cols()
  {
    var c :- CoarseStage(raw, w, h, delay, qs);
    var f :- SizeStage(c.0, c.1, rows, cols);
    var cons :- RouteInFineGrid(f, c.0, c.1, false);
    Ok(Assemble(f, cons, rows, cols))
  }


  lemma SizesLength(ps: seq<CoarsePath>, tr: nat, tc: nat, nr: nat, nc: nat)
    requires ComputeSizes(ps, tr, tc, nr, nc).Ok?
    ensures |ComputeSizes(ps, tr, tc, nr, nc).value.0| == 2 * nr + 1
    ensures |ComputeSizes(ps, tr, tc, nr, nc).value.1| == 2 * nc + 1
  {
  }

  /** The module record: a grid as large as the sizes add up to, holding
      `rows` x `cols` tiles. */
  function Assemble(f: Frame, cons: seq<seq<Loc>>, rows: nat, cols: nat): (r: Chip)
    requires |f.rs| == 2 * rows + 1 && |f.cs| == 2 * cols + 1
    ensures |r.comps| == rows * cols && r.cons == cons && r.comps == Components(f)
    ensures r.nRows == f.Rows() && r.nCols == f.Cols()
  {
    assert |f.rs| / 2 == rows && |f.cs| / 2 == cols;
    Chip(f.Rows(), f.Cols(), Components(f), cons)
  }
}
