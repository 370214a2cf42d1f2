/** The ring generator (`generate` in src/generate_ring.py): a snake
    through the array. Even rows run east and odd rows west over columns
    1 .. cols-1, the right-most and second column turn between rows, and
    column 0 leads back up to the start. */
module Ring {
  import opened Wrappers
  import opened Coarse
  import opened Topology

  /** Port 0 on the east face and port 1 on the west face. */
  const RingPorts: Ports := Ports([Want("east", -1), Want("west", 1)], [Want("east", 1), Want("west", -1)])

  /** Between (row, col) and (row, col+1): east-bound on even rows,
      west-bound on odd rows, both ways when bidirectional. */
  function Across(row: int, col: int, bidir: bool): seq<Request> {
    (if row % 2 == 0 || bidir then [Link(row, col, 0, row, col + 1, 1)] else [])
      + (if row % 2 == 1 || bidir then [Link(row, col + 1, 1, row, col, 0)] else [])
  }

  /** A link, and its reverse when bidirectional. */
  function Both(q: Request, bidir: bool): seq<Request> {
    [q] + (if bidir then [Swap(q)] else [])
  }

  /** The horizontal part of a row, over columns 1 .. cols-2. */
  function Middle(cols: nat, bidir: bool, row: int): seq<Request> {
    Flat(seq(if cols >= 2 then cols - 2 else 0, i => Across(row, i + 1, bidir)))
  }

  /** What one iteration of the row loop appends. */
  function RowBlock(rows: nat, cols: nat, bidir: bool, row: int): seq<Request> {
    Middle(cols, bidir, row)
      + (if row % 2 == 0 then Both(Link(row, cols - 1, 0, row + 1, cols - 1, 0), bidir) else [])
      + (if row % 2 == 1 && row < rows - 1 then Both(Link(row, 1, 1, row + 1, 1, 1), bidir) else [])
      + (if row < rows - 1 then
           var port := if row % 2 == 0 then 1 else 0;
           Both(Link(row + 1, 0, port, row, 0, port), bidir)
         else [])
  }

  /** The links that close the snake at the top-left and bottom-left. */
  function Corners(rows: nat, bidir: bool): seq<Request> {
    [Link(0, 0, 0, 0, 1, 1), Link(rows - 1, 1, 1, rows - 1, 0, 0)]
      + (if bidir then [Link(0, 1, 1, 0, 0, 0), Link(rows - 1, 0, 0, rows - 1, 1, 1)] else [])
  }

  function Links(rows: nat, cols: nat, bidir: bool): seq<Request> {
    Flat(seq(rows, row => RowBlock(rows, cols, bidir, row))) + Corners(rows, bidir)
  }

  /** `config` is `[bidirectional]`; an empty config is fatal. */
  function Generate(rows: nat, cols: nat, config: seq<bool>): (r: Result<Net>)
    ensures r.Ok? <==> |config| >= 1
    ensures r.Ok? ==> r.value == Net(RingPorts, Links(rows, cols, config[0]))
  {
    if |config| < 1 then Err("Config format: [<bidirectional>]")
    else Ok(Net(RingPorts, Links(rows, cols, config[0])))
  }

  predicate OnRingPort(q: Request) {
    (q.m.port == 0 || q.m.port == 1) && (q.s.port == 0 || q.s.port == 1)
  }

  lemma AcrossMembers(rows: nat, cols: nat, bidir: bool, row: int)
    ensures forall q :: q in Middle(cols, bidir, row) <==> exists i :: 1 <= i <= cols - 2 && q in Across(row, i, bidir)
  {
    var bs := seq(if cols >= 2 then cols - 2 else 0, i => Across(row, i + 1, bidir));
    FlatMembers(bs);
    assert forall i :: 0 <= i < |bs| ==> bs[i] == Across(row, i + 1, bidir);
    forall q | q in Middle(cols, bidir, row) ensures exists i :: 1 <= i <= cols - 2 && q in Across(row, i, bidir) {
      var i :| 0 <= i < |bs| && q in bs[i];
      assert q in Across(row, i + 1, bidir);
    }
    forall q, i | 1 <= i <= cols - 2 && q in Across(row, i, bidir) ensures q in Middle(cols, bidir, row) {
      assert q in bs[i - 1];
    }
  }

  lemma RowMembers(rows: nat, cols: nat, bidir: bool)
    ensures forall q :: q in Links(rows, cols, bidir) <==>
              q in Corners(rows, bidir) || exists row :: 0 <= row < rows && q in RowBlock(rows, cols, bidir, row)
  {
    var bs := seq(rows, row => RowBlock(rows, cols, bidir, row));
    FlatMembers(bs);
    assert forall row :: 0 <= row < rows ==> bs[row] == RowBlock(rows, cols, bidir, row);
  }

  /** Every link of the ring uses port 0 or 1 at both ends. */
  lemma RingPortIds(rows: nat, cols: nat, bidir: bool)
    ensures forall q :: q in Links(rows, cols, bidir) ==> OnRingPort(q)
  {
    RowMembers(rows, cols, bidir);
    forall q, row | 0 <= row < rows && q in RowBlock(rows, cols, bidir, row) ensures OnRingPort(q) {
      AcrossMembers(rows, cols, bidir, row);
    }
  }

  /** With bidirectional links every link's reverse is a link too. */
  lemma RingSwapClosed(rows: nat, cols: nat, bidir: bool)
    requires bidir
    ensures forall q :: q in Links(rows, cols, bidir) ==> Swap(q) in Links(rows, cols, bidir)
  {
    RowMembers(rows, cols, bidir);
    forall q | q in Links(rows, cols, bidir) ensures Swap(q) in Links(rows, cols, bidir) {
      if q !in Corners(rows, bidir) {
        var row :| 0 <= row < rows && q in RowBlock(rows, cols, bidir, row);
        AcrossMembers(rows, cols, bidir, row);
        if q in Middle(cols, bidir, row) {
          var i :| 1 <= i <= cols - 2 && q in Across(row, i, bidir);
          assert Swap(q) in Across(row, i, bidir);
        }
        assert Swap(q) in RowBlock(rows, cols, bidir, row);
      }
    }
  }

  /** Over columns 1 .. cols-2 even rows run east and odd rows west;
      bidirectional rings have both. */
  lemma RingAcross(rows: nat, cols: nat, bidir: bool, row: int, col: int)
    requires 0 <= row < rows && 1 <= col <= cols - 2
    ensures row % 2 == 0 || bidir ==> Link(row, col, 0, row, col + 1, 1) in Links(rows, cols, bidir)
    ensures row % 2 == 1 || bidir ==> Link(row, col + 1, 1, row, col, 0) in Links(rows, cols, bidir)
  {
    RowMembers(rows, cols, bidir);
    AcrossMembers(rows, cols, bidir, row);
    if row % 2 == 0 || bidir {
      assert Link(row, col, 0, row, col + 1, 1) in Across(row, col, bidir);
      assert Link(row, col, 0, row, col + 1, 1) in RowBlock(rows, cols, bidir, row);
    }
    if row % 2 == 1 || bidir {
      assert Link(row, col + 1, 1, row, col, 0) in Across(row, col, bidir);
      assert Link(row, col + 1, 1, row, col, 0) in RowBlock(rows, cols, bidir, row);
    }
  }

  /** With an odd number of rows the last row is even, and its turn at
      the right-most column leads to row `rows`, which is not part of the
      array: the generator only closes the snake for an even row count. */
  lemma RingOddRows(rows: nat, cols: nat, bidir: bool)
    requires rows % 2 == 1
    ensures Link(rows - 1, cols - 1, 0, rows, cols - 1, 0) in Links(rows, cols, bidir)
  {
    RowMembers(rows, cols, bidir);
    assert Link(rows - 1, cols - 1, 0, rows, cols - 1, 0) in RowBlock(rows, cols, bidir, rows - 1);
  }
}
