/** Creating an un-embedded tile (`create_tile` in src/create_tile.py):
    ports and PHYs are numbered 0, 1, ... in the order given and the
    tile's internal connections between its central router and its
    endpoints, ports and PHYs are listed. */
module CreateTile {
  import opened Wrappers
  import opened Cells
  import opened Blocks
  import opened Tile
  import opened Embed

  /** A requested port: `face`/`align` for auto placement, `loc` for
      manual placement. */
  datatype PortSpec = PortSpec(face: string, align: int, loc: Loc)
  datatype PhySpec = PhySpec(loc: Loc, dir: string)

  function Numbered(ps: seq<PortSpec>): seq<RawPort> {
    seq(|ps|, i requires 0 <= i < |ps| => RawPort(i, ps[i].face, ps[i].align, ps[i].loc))
  }

  function NumberedPhys(ps: seq<PhySpec>): seq<PhyEntry> {
    seq(|ps|, i requires 0 <= i < |ps| => PhyEntry(i, ps[i].loc, ps[i].dir))
  }

  /** Each endpoint: to the router, then back. */
  function EndpointLinks(n: nat): (r: seq<Edge>)
    ensures |r| == 2 * n
    ensures forall i :: 0 <= i < n ==>
              r[2 * i] == Edge(EpLabel(i), Router) && r[2 * i + 1] == Edge(Router, EpLabel(i))
  {
    if n == 0 then []
    else
      var r := EndpointLinks(n - 1) + [Edge(EpLabel(n - 1), Router), Edge(Router, EpLabel(n - 1))];
      assert forall i :: 0 <= i < n - 1 ==> r[2 * i] == EndpointLinks(n - 1)[2 * i];
      r
  }

  /** The router drives each master port. */
  function MasterLinks(n: nat): seq<Edge> {
    seq(n, i => Edge(Router, MpLabel(i)))
  }

  /** Each slave port drives the router. */
  function SlaveLinks(n: nat): seq<Edge> {
    seq(n, i => Edge(SpLabel(i), Router))
  }

  predicate DirOk(d: string) { d == "in" || d == "out" }

  /** An "in" PHY drives the router, an "out" PHY is driven by it. */
  function PhyLinks(ps: seq<PhySpec>): seq<Edge>
    requires forall i :: 0 <= i < |ps| ==> DirOk(ps[i].dir)
  {
    seq(|ps|, i requires 0 <= i < |ps| =>
      if ps[i].dir == "in" then Edge(PhyLabel(i), Router) else Edge(Router, PhyLabel(i)))
  }

  /** The tile description, or the failure the tool stops with: an unknown
      placement mode (only noticed when there is a port to write) or a PHY
      direction other than "in" and "out". */
  function Create(nEp: nat, ms: seq<PortSpec>, ss: seq<PortSpec>, phys: seq<PhySpec>, placement: string): (r: Result<RawTile>)
    ensures r.Ok? <==> (|ms| + |ss| == 0 || placement == "auto" || placement == "manual")
                       && forall i :: 0 <= i < |phys| ==> DirOk(phys[i].dir)
    ensures r.Ok? ==> var t := r.value;
              && t.nEndpoints == nEp && t.placement == placement
              && |t.masters| == |ms| && |t.slaves| == |ss| && |t.phys| == |phys|
              && Wired(t.connections, nEp, |ms|, |ss|, phys)
  {
    var _ :- Need(|ms| + |ss| == 0 || placement == "auto" || placement == "manual",
            "Invalid port placement method");
    var _ :- Need(forall i :: 0 <= i < |phys| ==> DirOk(phys[i].dir), "Invalid phy direction");
    var cons := EndpointLinks(nEp) + MasterLinks(|ms|) + SlaveLinks(|ss|) + PhyLinks(phys);
    LinksWired(nEp, |ms|, |ss|, phys);
    Ok(RawTile(nEp, placement, Numbered(ms), Numbered(ss), NumberedPhys(phys), cons))
  }

  /** The connection list: each endpoint to the router and back, the
      router to each master port, each slave port to the router, then
      each PHY by its direction. */
  predicate Wired(cs: seq<Edge>, nEp: nat, nM: nat, nS: nat, phys: seq<PhySpec>) {
    && |cs| == 2 * nEp + nM + nS + |phys|
    && (forall i :: 0 <= i < nEp ==>
          cs[2 * i] == Edge(EpLabel(i), Router) && cs[2 * i + 1] == Edge(Router, EpLabel(i)))
    && (forall i :: 0 <= i < nM ==> cs[2 * nEp + i] == Edge(Router, MpLabel(i)))
    && (forall i :: 0 <= i < nS ==> cs[2 * nEp + nM + i] == Edge(SpLabel(i), Router))
    && (forall i :: 0 <= i < |phys| ==>
          cs[2 * nEp + nM + nS + i]
          == (if phys[i].dir == "in" then Edge(PhyLabel(i), Router) else Edge(Router, PhyLabel(i))))
  }

  lemma LinksWired(nEp: nat, nM: nat, nS: nat, phys: seq<PhySpec>)
    requires forall i :: 0 <= i < |phys| ==> DirOk(phys[i].dir)
    ensures Wired(EndpointLinks(nEp) + MasterLinks(nM) + SlaveLinks(nS) + PhyLinks(phys), nEp, nM, nS, phys)
  {
    var e, m, s, p := EndpointLinks(nEp), MasterLinks(nM), SlaveLinks(nS), PhyLinks(phys);
    var cs := e + m + s + p;
    forall i | 0 <= i < nEp
      ensures cs[2 * i] == Edge(EpLabel(i), Router) && cs[2 * i + 1] == Edge(Router, EpLabel(i))
    {
      assert cs[2 * i] == e[2 * i] && cs[2 * i + 1] == e[2 * i + 1];
    }
    forall i | 0 <= i < nM ensures cs[2 * nEp + i] == Edge(Router, MpLabel(i)) {
      assert cs[2 * nEp + i] == m[i];
    }
    forall i | 0 <= i < nS ensures cs[2 * nEp + nM + i] == Edge(SpLabel(i), Router) {
      assert cs[2 * nEp + nM + i] == s[i];
    }
    forall i | 0 <= i < |phys|
      ensures cs[2 * nEp + nM + nS + i]
              == (if phys[i].dir == "in" then Edge(PhyLabel(i), Router) else Edge(Router, PhyLabel(i)))
    {
      assert cs[2 * nEp + nM + nS + i] == p[i];
    }
  }

  // ------------------------------------------------------------ properties

  /** A created tile passes the embedding step's read checks: ids run
      0, 1, ... and the placement mode is acceptable. */
  lemma CreatedReads(nEp: nat, ms: seq<PortSpec>, ss: seq<PortSpec>, phys: seq<PhySpec>, placement: string)
    requires Create(nEp, ms, ss, phys, placement).Ok?
    ensures ReadOk(Create(nEp, ms, ss, phys, placement).value)
  {
    var t := Create(nEp, ms, ss, phys, placement).value;
    assert t.masters == Numbered(ms) && t.slaves == Numbered(ss) && t.phys == NumberedPhys(phys);
  }

  predicate EdgesOk(cs: seq<Edge>, nEp: nat, nM: nat, nS: nat, nP: nat) {
    forall k :: 0 <= k < |cs| ==> PointOk(cs[k].src, nEp, nM, nS, nP) && PointOk(cs[k].dst, nEp, nM, nS, nP)
  }

  lemma EndpointLinksOk(nEp: nat, nM: nat, nS: nat, nP: nat)
    ensures EdgesOk(EndpointLinks(nEp), nEp, nM, nS, nP)
  {
    var cs := EndpointLinks(nEp);
    forall k | 0 <= k < |cs|
      ensures PointOk(cs[k].src, nEp, nM, nS, nP) && PointOk(cs[k].dst, nEp, nM, nS, nP)
    {
      var i := k / 2;
      assert k == 2 * i || k == 2 * i + 1;
    }
  }

  lemma PhyLinksOk(phys: seq<PhySpec>, nEp: nat, nM: nat, nS: nat)
    requires forall i :: 0 <= i < |phys| ==> DirOk(phys[i].dir)
    ensures EdgesOk(PhyLinks(phys), nEp, nM, nS, |phys|)
  {
  }

  lemma EdgesOkAppend(a: seq<Edge>, b: seq<Edge>, nEp: nat, nM: nat, nS: nat, nP: nat)
    requires EdgesOk(a, nEp, nM, nS, nP) && EdgesOk(b, nEp, nM, nS, nP)
    ensures EdgesOk(a + b, nEp, nM, nS, nP)
  {
    forall k | 0 <= k < |a + b|
      ensures PointOk((a + b)[k].src, nEp, nM, nS, nP) && PointOk((a + b)[k].dst, nEp, nM, nS, nP)
    {
      if k >= |a| {
        assert (a + b)[k] == b[k - |a|];
      }
    }
  }

  lemma CreateLinks(nEp: nat, ms: seq<PortSpec>, ss: seq<PortSpec>, phys: seq<PhySpec>, placement: string)
    requires Create(nEp, ms, ss, phys, placement).Ok?
    ensures forall i :: 0 <= i < |phys| ==> DirOk(phys[i].dir)
    ensures Create(nEp, ms, ss, phys, placement).value.connections
            == EndpointLinks(nEp) + MasterLinks(|ms|) + SlaveLinks(|ss|) + PhyLinks(phys)
  {
  }

  lemma AllLinksOk(nEp: nat, ms: seq<PortSpec>, ss: seq<PortSpec>, phys: seq<PhySpec>)
    requires forall i :: 0 <= i < |phys| ==> DirOk(phys[i].dir)
    ensures EdgesOk(EndpointLinks(nEp) + MasterLinks(|ms|) + SlaveLinks(|ss|) + PhyLinks(phys), nEp, |ms|, |ss|, |phys|)
  {
    var e := EndpointLinks(nEp);
    var m := MasterLinks(|ms|);
    var s := SlaveLinks(|ss|);
    var p := PhyLinks(phys);
    EndpointLinksOk(nEp, |ms|, |ss|, |phys|);
    assert EdgesOk(m, nEp, |ms|, |ss|, |phys|);
    assert EdgesOk(s, nEp, |ms|, |ss|, |phys|);
    PhyLinksOk(phys, nEp, |ms|, |ss|);
    EdgesOkAppend(e, m, nEp, |ms|, |ss|, |phys|);
    EdgesOkAppend(e + m, s, nEp, |ms|, |ss|, |phys|);
    EdgesOkAppend(e + m + s, p, nEp, |ms|, |ss|, |phys|);
  }

  /** Every connection a created tile lists passes the tile reader's check
      of its two ends, once embedded with the same numbers of endpoints,
      ports and PHYs. */
  lemma CreatedConnectionsValid(nEp: nat, ms: seq<PortSpec>, ss: seq<PortSpec>, phys: seq<PhySpec>,
                                placement: string, f: TileFile)
    requires Create(nEp, ms, ss, phys, placement).Ok?
    requires f.connections == Create(nEp, ms, ss, phys, placement).value.connections
    requires f.nEndpoints == nEp && |f.masters| == |ms| && |f.slaves| == |ss| && |f.phys| == |phys|
    ensures ConnectionsOk(f)
  {
    CreateLinks(nEp, ms, ss, phys, placement);
    AllLinksOk(nEp, ms, ss, phys);
    assert EdgesOk(f.connections, f.nEndpoints, |f.masters|, |f.slaves|, |f.phys|);
  }

  /** Number of connections ending at `v`. */
  function InDegree(cs: seq<Edge>, v: Label): (n: nat)
    ensures n <= |cs|
  {
    if |cs| == 0 then 0 else InDegree(cs[..|cs| - 1], v) + (if cs[|cs| - 1].dst == v then 1 else 0)
  }

  /** Number of connections starting at `v`. */
  function OutDegree(cs: seq<Edge>, v: Label): (n: nat)
    ensures n <= |cs|
  {
    if |cs| == 0 then 0 else OutDegree(cs[..|cs| - 1], v) + (if cs[|cs| - 1].src == v then 1 else 0)
  }

  lemma {:induction false} DegreeAppend(a: seq<Edge>, b: seq<Edge>, v: Label)
    ensures InDegree(a + b, v) == InDegree(a, v) + InDegree(b, v)
    ensures OutDegree(a + b, v) == OutDegree(a, v) + OutDegree(b, v)
    decreases |b|
  {
    if |b| > 0 {
      assert (a + b)[..|a + b| - 1] == a + b[..|b| - 1];
      DegreeAppend(a, b[..|b| - 1], v);
    } else {
      assert a + b == a;
    }
  }

  function CountDir(ps: seq<PhySpec>, d: string): (n: nat)
    ensures n <= |ps|
  {
    if |ps| == 0 then 0 else CountDir(ps[..|ps| - 1], d) + (if ps[|ps| - 1].dir == d then 1 else 0)
  }

  lemma {:induction false} EndpointDegrees(n: nat)
    ensures InDegree(EndpointLinks(n), Router) == n && OutDegree(EndpointLinks(n), Router) == n
  {
    if n > 0 {
      var pair := [Edge(EpLabel(n - 1), Router), Edge(Router, EpLabel(n - 1))];
      EndpointDegrees(n - 1);
      DegreeAppend(EndpointLinks(n - 1), pair, Router);
      assert pair[..1] == [pair[0]];
      assert EpLabel(n - 1) != Router;
    }
  }

  lemma {:induction false} MasterDegrees(n: nat)
    ensures InDegree(MasterLinks(n), Router) == 0 && OutDegree(MasterLinks(n), Router) == n
  {
    if n > 0 {
      assert MasterLinks(n)[..n - 1] == MasterLinks(n - 1);
      MasterDegrees(n - 1);
      assert MpLabel(n - 1) != Router;
    }
  }

  lemma {:induction false} SlaveDegrees(n: nat)
    ensures InDegree(SlaveLinks(n), Router) == n && OutDegree(SlaveLinks(n), Router) == 0
  {
    if n > 0 {
      assert SlaveLinks(n)[..n - 1] == SlaveLinks(n - 1);
      SlaveDegrees(n - 1);
      assert SpLabel(n - 1) != Router;
    }
  }

  lemma {:induction false} PhyDegrees(ps: seq<PhySpec>)
    requires forall i :: 0 <= i < |ps| ==> DirOk(ps[i].dir)
    ensures InDegree(PhyLinks(ps), Router) == CountDir(ps, "in")
    ensures OutDegree(PhyLinks(ps), Router) == CountDir(ps, "out")
  {
    if |ps| > 0 {
      var init := ps[..|ps| - 1];
      assert PhyLinks(ps)[..|ps| - 1] == PhyLinks(init);
      PhyDegrees(init);
      assert PhyLabel(|ps| - 1) != Router;
    }
  }

  /** The central router's connection counts agree with the port counts the
      embedding step sizes it by: it receives from every endpoint and slave
      port (s of them) plus every "in" PHY, and sends to every endpoint and
      master port (m of them) plus every "out" PHY. */
  lemma RouterDegrees(nEp: nat, ms: seq<PortSpec>, ss: seq<PortSpec>, phys: seq<PhySpec>, placement: string)
    requires Create(nEp, ms, ss, phys, placement).Ok?
    ensures var t := Create(nEp, ms, ss, phys, placement).value;
            && InDegree(t.connections, Router) == RouterPorts(t).0 + CountDir(phys, "in")
            && OutDegree(t.connections, Router) == RouterPorts(t).1 + CountDir(phys, "out")
  {
    var e := EndpointLinks(nEp);
    var m := MasterLinks(|ms|);
    var s := SlaveLinks(|ss|);
    var p := PhyLinks(phys);
    EndpointDegrees(nEp);
    MasterDegrees(|ms|);
    SlaveDegrees(|ss|);
    PhyDegrees(phys);
    DegreeAppend(e, m, Router);
    DegreeAppend(e + m, s, Router);
    DegreeAppend(e + m + s, p, Router);
  }
}
