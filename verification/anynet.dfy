/** The translation of a logical model into a simulator topology
    (`translate_lm_to_bs` in src/translate_lm_to_bs.py, lines 10-51):
    from every router the graph is walked through the vertices that are
    neither routers nor endpoints, and one line lists the routers (with a
    weight) and endpoints (nodes) so reached. */
module Anynet {
  import opened Wrappers
  import opened Cells

  /** The last atom of a vertex label is the tag `t`. */
  predicate Tagged(v: Label, t: string) {
    |v| > 0 && v[|v| - 1] == Tag(t)
  }

  predicate IsRouter(v: Label) { Tagged(v, "r") }
  predicate IsEndpoint(v: Label) { Tagged(v, "ep") }
  /** Neither a router nor an endpoint: a vertex the walk passes through. */
  predicate IsInner(v: Label) { |v| > 0 && !IsRouter(v) && !IsEndpoint(v) }

  /** A logical model: vertices, directed edges and per-edge delays (whole
      cycles; the tool's delays are floating point). */
  datatype Graph = Graph(vertices: seq<Label>, edges: seq<(Label, Label)>, delays: map<(Label, Label), int>)

  /** The vertices carrying tag `t`, in vertex order. */
  function Tags(vs: seq<Label>, t: string): (r: seq<Label>)
    ensures |r| <= |vs|
  {
    if |vs| == 0 then []
    else Tags(vs[..|vs| - 1], t) + (if Tagged(vs[|vs| - 1], t) then [vs[|vs| - 1]] else [])
  }

  /** The tagged vertices are exactly those of the list carrying the tag. */
  lemma {:induction false} TagsMembers(vs: seq<Label>, t: string)
    ensures forall v :: v in Tags(vs, t) <==> v in vs && Tagged(v, t)
    decreases |vs|
  {
    if |vs| > 0 {
      var init := vs[..|vs| - 1];
      TagsMembers(init, t);
      assert forall v :: v in vs <==> v in init || v == vs[|vs| - 1];
    }
  }

  function Routers(g: Graph): seq<Label> { Tags(g.vertices, "r") }
  function Endpoints(g: Graph): seq<Label> { Tags(g.vertices, "ep") }

  /** Python's `xs.index(x)`: the first position of `x`, if any. */
  function Index(xs: seq<Label>, x: Label): (r: Option<nat>)
    ensures r.Some? <==> x in xs
    ensures r.Some? ==> r.value < |xs| && xs[r.value] == x && forall k :: 0 <= k < r.value ==> xs[k] != x
  {
    if |xs| == 0 then None
    else if xs[0] == x then Some(0)
    else match Index(xs[1..], x)
      case None => None
      case Some(k) => Some(k + 1)
  }

  /** In a list without repeats every element's first position is its own. */
  lemma IndexDistinct(xs: seq<Label>, k: nat)
    requires Distinct(xs) && k < |xs|
    ensures Index(xs, xs[k]) == Some(k)
  {
  }

  /** `adj_list[v]`: the heads of the edges leaving `v`, in edge order. */
  function Succ(es: seq<(Label, Label)>, v: Label): (r: seq<Label>)
    ensures |r| <= |es|
  {
    if |es| == 0 then []
    else Succ(es[..|es| - 1], v) + (if es[|es| - 1].0 == v then [es[|es| - 1].1] else [])
  }

  /** `x` is in the list of `v` exactly when an edge leads from `v` to `x`. */
  lemma {:induction false} SuccMembers(es: seq<(Label, Label)>, v: Label)
    ensures forall x :: x in Succ(es, v) <==> (v, x) in es
    decreases |es|
  {
    if |es| > 0 {
      var init := es[..|es| - 1];
      SuccMembers(init, v);
      assert forall e :: e in es <==> e in init || e == es[|es| - 1];
    }
  }

  /** Building the auxiliary lists reads the last atom of every vertex
      and appends to the list of every edge's tail. */
  predicate WellFormed(g: Graph) {
    && (forall k :: 0 <= k < |g.vertices| ==> |g.vertices[k]| > 0)
    && (forall k :: 0 <= k < |g.edges| ==> g.edges[k].0 in g.vertices)
  }

  // ------------------------------------------------------------- the walk

  /** The walk's state: the queue, the distances so far, and the routers
      and endpoints reached, in the order reached. */
  datatype Walk = Walk(todo: seq<Label>, dist: map<Label, int>, routers: seq<Label>, nodes: seq<Label>)

  /** Queued vertices are inner and have a distance, and what was recorded
      is a router or an endpoint that has a distance. */
  predicate Sound(w: Walk) {
    && (forall k :: 0 <= k < |w.todo| ==> w.todo[k] in w.dist && IsInner(w.todo[k]))
    && (forall k :: 0 <= k < |w.routers| ==> w.routers[k] in w.dist && IsRouter(w.routers[k]))
    && (forall k :: 0 <= k < |w.nodes| ==> w.nodes[k] in w.dist && IsEndpoint(w.nodes[k]))
  }

  /** One neighbour `nei` of `cur`: it gets the distance of `cur` plus
      the edge's delay, then is recorded as a router or an endpoint, or
      queued. A missing delay or an empty label stops. */
  function Step(g: Graph, cur: Label, nei: Label, w: Walk): (r: Result<Walk>)
    requires cur in w.dist && Sound(w)
    ensures r.Ok? <==> (cur, nei) in g.delays && |nei| > 0
    ensures r.Ok? ==> Sound(r.value)
    ensures r.Ok? ==> r.value.dist == w.dist[nei := w.dist[cur] + g.delays[(cur, nei)]]
    ensures r.Ok? ==> r.value.todo == w.todo + (if IsInner(nei) then [nei] else [])
    ensures r.Ok? ==> r.value.routers == w.routers + (if IsRouter(nei) then [nei] else [])
    ensures r.Ok? ==> r.value.nodes == w.nodes + (if IsEndpoint(nei) then [nei] else [])
    ensures r.Err? ==> r.msg != Endless
  {
    if (cur, nei) !in g.delays then Err("KeyError")
    else if |nei| == 0 then Err("IndexError")
    else
      var w2 := w.(dist := w.dist[nei := w.dist[cur] + g.delays[(cur, nei)]]);
      if IsRouter(nei) then Ok(w2.(routers := w.routers + [nei]))
      else if IsEndpoint(nei) then Ok(w2.(nodes := w.nodes + [nei]))
      else Ok(w2.(todo := w.todo + [nei]))
  }

  /** The neighbours `ns` of `cur`, in order, each taken by `Step`. */
  function Visit(g: Graph, cur: Label, ns: seq<Label>, w: Walk): (r: Result<Walk>)
    requires cur in w.dist && Sound(w)
    ensures r.Ok? <==> forall k :: 0 <= k < |ns| ==> (cur, ns[k]) in g.delays && |ns[k]| > 0
    ensures r.Ok? ==> Sound(r.value) && w.dist.Keys <= r.value.dist.Keys
    decreases |ns|
  {
    if |ns| == 0 then Ok(w)
    else
      var init, nei := ns[..|ns| - 1], ns[|ns| - 1];
      assert forall k :: 0 <= k < |init| ==> init[k] == ns[k];
      match Visit(g, cur, init, w)
      case Err(m) => Err(m)
      case Ok(w1) => Step(g, cur, nei, w1)
  }

  /** The visit queues the inner neighbours and records the routers and
      endpoints among them, each in edge order, after what was there. */
  lemma {:induction false} VisitLists(g: Graph, cur: Label, ns: seq<Label>, w: Walk)
    requires cur in w.dist && Sound(w) && Visit(g, cur, ns, w).Ok?
    ensures var w1 := Visit(g, cur, ns, w).value;
            && w1.todo == w.todo + Inner(ns)
            && w1.routers == w.routers + Tags(ns, "r")
            && w1.nodes == w.nodes + Tags(ns, "ep")
    decreases |ns|
  {
    if |ns| > 0 {
      var init, nei := ns[..|ns| - 1], ns[|ns| - 1];
      assert forall k :: 0 <= k < |init| ==> init[k] == ns[k];
      VisitLists(g, cur, init, w);
      var w1 := Visit(g, cur, init, w).value;
      assert Visit(g, cur, ns, w) == Step(g, cur, nei, w1);
      var w2 := Step(g, cur, nei, w1).value;
      var rs := if IsRouter(nei) then [nei] else [];
      var es := if IsEndpoint(nei) then [nei] else [];
      var qs := if IsInner(nei) then [nei] else [];
      assert w2.routers == w.routers + Tags(init, "r") + rs == w.routers + (Tags(init, "r") + rs);
      assert w2.nodes == w.nodes + Tags(init, "ep") + es == w.nodes + (Tags(init, "ep") + es);
      assert w2.todo == w.todo + Inner(init) + qs == w.todo + (Inner(init) + qs);
    }
  }

  /** After the visit every neighbour holds the distance of `cur` plus the
      edge's delay (unless `cur` is its own neighbour, whose distance then
      changes on the way), and every other vertex keeps its distance. */
  lemma {:induction false} VisitDist(g: Graph, cur: Label, ns: seq<Label>, w: Walk, w2: Walk)
    requires cur in w.dist && Sound(w) && Visit(g, cur, ns, w) == Ok(w2)
    ensures forall v :: v in ns ==> v in w2.dist
    ensures forall v :: v in w.dist && v !in ns ==> w2.dist[v] == w.dist[v]
    ensures cur !in ns ==> forall k :: 0 <= k < |ns| ==> Reached(g, cur, ns[k], w, w2)
    decreases |ns|
  {
    if |ns| > 0 {
      var init, nei := ns[..|ns| - 1], ns[|ns| - 1];
      assert forall k :: 0 <= k < |init| ==> init[k] == ns[k];
      assert forall v :: v in ns <==> v in init || v == nei;
      var w1 := Visit(g, cur, init, w).value;
      VisitDist(g, cur, init, w, w1);
      assert w2 == Step(g, cur, nei, w1).value;
      if cur !in ns {
        assert w1.dist[cur] == w.dist[cur];
        forall k | 0 <= k < |ns| ensures Reached(g, cur, ns[k], w, w2) {
          if ns[k] != nei {
            assert Reached(g, cur, init[k], w, w1);
          }
        }
      }
    }
  }

  /** `nei`, a neighbour of `cur`, holds the distance of `cur` before the
      visit plus the delay of the edge between them. */
  predicate Reached(g: Graph, cur: Label, nei: Label, w: Walk, w1: Walk) {
    && cur in w.dist && nei in w1.dist && (cur, nei) in g.delays
    && w1.dist[nei] == w.dist[cur] + g.delays[(cur, nei)]
  }

  /** The inner vertices of `ns`, in order. */
  function Inner(ns: seq<Label>): (r: seq<Label>)
    ensures |r| <= |ns|
  {
    if |ns| == 0 then []
    else Inner(ns[..|ns| - 1]) + (if IsInner(ns[|ns| - 1]) then [ns[|ns| - 1]] else [])
  }

  /** The walk itself: pop the first queued vertex and visit its
      neighbours, until the queue is empty. The tool keeps no visited set,
      so a cycle through inner vertices never ends; `fuel` bounds the
      number of vertices popped. */
  function Run(g: Graph, fuel: nat, w: Walk): (r: Result<Walk>)
    requires Sound(w)
    ensures r.Ok? ==> Sound(r.value) && |r.value.todo| == 0
    ensures r.Ok? ==> Extends(r.value, w)
    decreases fuel
  {
    if |w.todo| == 0 then Ok(w)
    else if fuel == 0 then Err(Endless)
    else
      var w1 :- Pop(g, w);
      var r := Run(g, fuel - 1, w1);
      ExtendsTrans(w, w1, r);
      r
  }

  /** `w1` recorded everything `w` had recorded, first. */
  predicate Extends(w1: Walk, w: Walk) {
    && |w.routers| <= |w1.routers| && w1.routers[..|w.routers|] == w.routers
    && |w.nodes| <= |w1.nodes| && w1.nodes[..|w.nodes|] == w.nodes
  }

  lemma ExtendsTrans(w: Walk, w1: Walk, r: Result<Walk>)
    requires Extends(w1, w)
    ensures r.Ok? && Extends(r.value, w1) ==> Extends(r.value, w)
  {
    if r.Ok? && Extends(r.value, w1) {
      assert r.value.routers[..|w.routers|] == w1.routers[..|w.routers|];
      assert r.value.nodes[..|w.nodes|] == w1.nodes[..|w.nodes|];
    }
  }

  /** A round that succeeds leaves the rest of the walk to the next
      bound down. */
  lemma RunPop(g: Graph, fuel: nat, w: Walk)
    requires Sound(w) && |w.todo| > 0 && fuel > 0 && Pop(g, w).Ok?
    ensures Run(g, fuel, w) == Run(g, fuel - 1, Pop(g, w).value)
  {
  }

  /** One round of the walk: take the first queued vertex off the queue
      and visit its neighbours. */
  function Pop(g: Graph, w: Walk): (r: Result<Walk>)
    requires Sound(w) && |w.todo| > 0
    ensures r.Ok? <==> w.todo[0] in g.vertices && Visit(g, w.todo[0], Succ(g.edges, w.todo[0]), w.(todo := w.todo[1..])).Ok?
    ensures r.Ok? ==> && Sound(r.value)
                      && r.value.todo == w.todo[1..] + Inner(Succ(g.edges, w.todo[0]))
                      && r.value.routers == w.routers + Tags(Succ(g.edges, w.todo[0]), "r")
                      && r.value.nodes == w.nodes + Tags(Succ(g.edges, w.todo[0]), "ep")
                      && Extends(r.value, w)
  {
    var cur := w.todo[0];
    var rest := w.(todo := w.todo[1..]);
    if cur !in g.vertices then Err("KeyError")
    else
      var w1 :- Visit(g, cur, Succ(g.edges, cur), rest);
      VisitLists(g, cur, Succ(g.edges, cur), rest);
      Ok(w1)
  }

  /** The walk from a router, started with the router at distance 0. */
  function From(g: Graph, fuel: nat, router: Label): (r: Result<Walk>)
    ensures r.Ok? ==> Sound(r.value) && |r.value.todo| == 0
  {
    var w := Walk([], map[router := 0], [], []);
    if router !in g.vertices then Err("KeyError")
    else
      match Visit(g, router, Succ(g.edges, router), w)
      case Err(m) => Err(m)
      case Ok(w1) => Run(g, fuel, w1)
  }

  /** The first round of the walk records exactly the routers and
      endpoints among the router's own neighbours, in edge order, before
      anything found later. */
  lemma FromFirst(g: Graph, fuel: nat, router: Label)
    requires From(g, fuel, router).Ok?
    ensures var w := From(g, fuel, router).value;
            var ns := Succ(g.edges, router);
            && |Tags(ns, "r")| <= |w.routers| && w.routers[..|Tags(ns, "r")|] == Tags(ns, "r")
            && |Tags(ns, "ep")| <= |w.nodes| && w.nodes[..|Tags(ns, "ep")|] == Tags(ns, "ep")
  {
    var w0 := Walk([], map[router := 0], [], []);
    var w1 := Visit(g, router, Succ(g.edges, router), w0).value;
    VisitLists(g, router, Succ(g.edges, router), w0);
    assert w1.routers == Tags(Succ(g.edges, router), "r");
    assert w1.nodes == Tags(Succ(g.edges, router), "ep");
  }

  // ------------------------------------------------------------ the output

  /** One entry of an output line: a router reached, with its weight, or
      an endpoint reached. Indices are positions in the router list and
      the endpoint list. */
  datatype Hop = ToRouter(idx: nat, weight: nat) | ToNode(idx: nat)
  /** `router i` followed by its entries. */
  datatype Line = Line(idx: nat, hops: seq<Hop>)

  /** `max(1, int(round(d)))` for a whole number of cycles. */
  function Weight(d: int): (r: nat)
    ensures r >= 1 && (d >= 1 ==> r == d)
  {
    if d < 1 then 1 else d
  }

  /** The entries for the vertices reached: routers first, then
      endpoints, each in the order reached. */
  function Hops(g: Graph, w: Walk): (r: Result<seq<Hop>>)
    requires Sound(w)
    ensures r.Ok? <==> (forall v :: v in w.routers ==> v in Routers(g))
                       && (forall v :: v in w.nodes ==> v in Endpoints(g))
    ensures r.Ok? ==> |r.value| == |w.routers| + |w.nodes|
    ensures r.Ok? ==> forall k :: 0 <= k < |w.routers| ==>
              r.value[k] == ToRouter(Index(Routers(g), w.routers[k]).value, Weight(w.dist[w.routers[k]]))
    ensures r.Ok? ==> forall k :: 0 <= k < |w.nodes| ==>
              r.value[|w.routers| + k] == ToNode(Index(Endpoints(g), w.nodes[k]).value)
  {
    if exists v :: v in w.routers && v !in Routers(g) then Err("ValueError")
    else if exists v :: v in w.nodes && v !in Endpoints(g) then Err("ValueError")
    else
      Ok(seq(|w.routers|, k requires 0 <= k < |w.routers| =>
               ToRouter(Index(Routers(g), w.routers[k]).value, Weight(w.dist[w.routers[k]])))
         + seq(|w.nodes|, k requires 0 <= k < |w.nodes| => ToNode(Index(Endpoints(g), w.nodes[k]).value)))
  }

  /** One output line per router, in router order; each is numbered by the
      router's first position in the router list. */
  function Translate(g: Graph, fuel: nat): (r: Result<seq<Line>>)
    ensures r.Ok? ==> WellFormed(g) && |r.value| == |Routers(g)|
    ensures r.Ok? ==> forall k :: 0 <= k < |Routers(g)| ==> LineOf(g, fuel, Routers(g)[k], r.value[k])
    ensures r.Ok? ==> forall k :: 0 <= k < |Routers(g)| ==>
              r.value[k].idx == Index(Routers(g), Routers(g)[k]).value
  {
    if !WellFormed(g) then Err("IndexError or KeyError")
    else Lines(g, fuel, Routers(g))
  }

  function Lines(g: Graph, fuel: nat, rs: seq<Label>): (r: Result<seq<Line>>)
    ensures r.Ok? ==> |r.value| == |rs|
    ensures r.Ok? ==> forall k :: 0 <= k < |rs| ==> LineOf(g, fuel, rs[k], r.value[k])
    decreases |rs|
  {
    if |rs| == 0 then Ok([])
    else
      var init :- Lines(g, fuel, rs[..|rs| - 1]);
      var l :- LineFor(g, fuel, rs[|rs| - 1]);
      LinesSnoc(g, fuel, rs, init, l);
      Ok(init + [l])
  }

  /** The line written for one router. */
  function LineFor(g: Graph, fuel: nat, router: Label): Result<Line> {
    var w :- From(g, fuel, router);
    var hs :- Hops(g, w);
    Ok(Line(Index(Routers(g), router).GetOr(0), hs))
  }

  lemma LinesSnoc(g: Graph, fuel: nat, rs: seq<Label>, init: seq<Line>, l: Line)
    requires |rs| > 0 && |init| == |rs| - 1
    requires forall k :: 0 <= k < |rs| - 1 ==> LineOf(g, fuel, rs[..|rs| - 1][k], init[k])
    requires LineOf(g, fuel, rs[|rs| - 1], l)
    ensures forall k :: 0 <= k < |rs| ==> LineOf(g, fuel, rs[k], (init + [l])[k])
  {
    forall k | 0 <= k < |rs|
      ensures LineOf(g, fuel, rs[k], (init + [l])[k])
    {
      if k < |rs| - 1 {
        assert rs[..|rs| - 1][k] == rs[k] && (init + [l])[k] == init[k];
      }
    }
  }

  /** Line `l` is the one written for `router`: numbered by its first
      position among the routers, listing what its walk reached. */
  predicate LineOf(g: Graph, fuel: nat, router: Label, l: Line) {
    && From(g, fuel, router).Ok?
    && l.idx == Index(Routers(g), router).GetOr(0)
    && Ok(l.hops) == Hops(g, From(g, fuel, router).value)
  }

  /** With no vertex listed twice, line `k` is numbered `k`. */
  lemma TranslateNumbers(g: Graph, fuel: nat)
    requires Distinct(g.vertices) && Translate(g, fuel).Ok?
    ensures forall k :: 0 <= k < |Translate(g, fuel).value| ==> Translate(g, fuel).value[k].idx == k
  {
    TagsDistinct(g.vertices, "r");
    forall k | 0 <= k < |Routers(g)| ensures Index(Routers(g), Routers(g)[k]) == Some(k) {
      IndexDistinct(Routers(g), k);
    }
  }

  lemma {:induction false} TagsDistinct(vs: seq<Label>, t: string)
    requires Distinct(vs)
    ensures Distinct(Tags(vs, t))
  {
    if |vs| > 0 {
      var init := vs[..|vs| - 1];
      assert Distinct(init) by {
        forall i, j | 0 <= i < j < |init| ensures init[i] != init[j] {
          assert init[i] == vs[i] && init[j] == vs[j];
        }
      }
      TagsDistinct(init, t);
      TagsMembers(init, t);
      if Tagged(vs[|vs| - 1], t) {
        assert vs[|vs| - 1] !in init;
        assert vs[|vs| - 1] !in Tags(init, t);
      }
    }
  }

  // ----------------------------------------------------- fuel and failure

  /** A walk that ends within `f` pops ends the same way with any more:
      the bound only ever cuts off walks that do not end. */
  lemma {:induction false} RunFuel(g: Graph, f: nat, f2: nat, w: Walk)
    requires Sound(w) && Run(g, f, w).Ok? && f <= f2
    ensures Run(g, f2, w) == Run(g, f, w)
    decreases f
  {
    if |w.todo| > 0 {
      RunOkPop(g, f, w);
      RunPop(g, f, w);
      RunPop(g, f2, w);
      RunFuel(g, f - 1, f2 - 1, Pop(g, w).value);
    }
  }

  /** A walk that ends with a vertex still queued has a round left, and
      that round succeeds. */
  lemma RunOkPop(g: Graph, f: nat, w: Walk)
    requires Sound(w) && Run(g, f, w).Ok? && |w.todo| > 0
    ensures f > 0 && Pop(g, w).Ok?
  {
  }

  lemma FromFuel(g: Graph, f: nat, f2: nat, router: Label)
    requires From(g, f, router).Ok? && f <= f2
    ensures From(g, f2, router) == From(g, f, router)
  {
    var w := Walk([], map[router := 0], [], []);
    RunFuel(g, f, f2, Visit(g, router, Succ(g.edges, router), w).value);
  }

  lemma {:induction false} LinesFuel(g: Graph, f: nat, f2: nat, rs: seq<Label>)
    requires Lines(g, f, rs).Ok? && f <= f2
    ensures Lines(g, f2, rs) == Lines(g, f, rs)
    decreases |rs|
  {
    if |rs| > 0 {
      LinesFuel(g, f, f2, rs[..|rs| - 1]);
      FromFuel(g, f, f2, rs[|rs| - 1]);
    }
  }

  /** The translation does not depend on the bound once it succeeds: a
      larger bound yields the same lines. */
  lemma TranslateFuel(g: Graph, f: nat, f2: nat)
    requires Translate(g, f).Ok? && f <= f2
    ensures Translate(g, f2) == Translate(g, f)
  {
    LinesFuel(g, f, f2, Routers(g));
  }

  /** The translation succeeds exactly when the graph is well formed and
      the line of every router can be written. */
  lemma TranslateOkIff(g: Graph, fuel: nat)
    ensures Translate(g, fuel).Ok? <==>
              WellFormed(g) && forall k :: 0 <= k < |Routers(g)| ==> LineFor(g, fuel, Routers(g)[k]).Ok?
  {
    if WellFormed(g) {
      LinesOkIff(g, fuel, Routers(g));
    }
  }

  lemma {:induction false} LinesOkIff(g: Graph, fuel: nat, rs: seq<Label>)
    ensures Lines(g, fuel, rs).Ok? <==> forall k :: 0 <= k < |rs| ==> LineFor(g, fuel, rs[k]).Ok?
    decreases |rs|
  {
    if |rs| > 0 {
      var init := rs[..|rs| - 1];
      LinesOkIff(g, fuel, init);
      assert forall k :: 0 <= k < |init| ==> init[k] == rs[k];
    }
  }

  // ------------------------------------------------ a walk that never ends

  /** The error the bounded walk stops with when the bound runs out. */
  const Endless: string := "the walk does not end"

  /** A router feeding two inner vertices that lead to each other. */
  const SpinR: Label := [Tag("r")]
  const SpinA: Label := [Num(0), Tag("x")]
  const SpinB: Label := [Num(1), Tag("x")]
  const Spin: Graph := Graph([SpinR, SpinA, SpinB], [(SpinR, SpinA), (SpinA, SpinB), (SpinB, SpinA)],
                             map[(SpinR, SpinA) := 1, (SpinA, SpinB) := 1, (SpinB, SpinA) := 1])

  /** `a` and `b` are inner vertices leading only to each other. */
  predicate Spins(g: Graph, a: Label, b: Label) {
    && IsInner(a) && IsInner(b) && a in g.vertices && b in g.vertices
    && Succ(g.edges, a) == [b] && Succ(g.edges, b) == [a]
    && (a, b) in g.delays && (b, a) in g.delays
  }

  /** Once the queue holds one of two such vertices alone, the walk runs
      out of every bound. */
  lemma SpinRuns(g: Graph, a: Label, b: Label, fuel: nat, w: Walk)
    requires Spins(g, a, b) && Sound(w) && w.todo == [a]
    ensures Run(g, fuel, w) == Err(Endless)
  {
    if fuel == 0 {
      RunZero(g, w);
    } else {
      SpinRounds(g, a, b, fuel, w);
    }
  }

  /** Each round queues the other vertex alone, until the rounds run out. */
  lemma {:induction false} SpinRounds(g: Graph, a: Label, b: Label, fuel: nat, w: Walk)
    requires Spins(g, a, b) && Sound(w) && w.todo == [a] && fuel > 0
    ensures Run(g, fuel, w) == Err(Endless)
    decreases fuel
  {
    var w1 := SpinNext(g, a, b, fuel, w);
    if fuel > 1 {
      SpinRounds(g, b, a, fuel - 1, w1);
    } else {
      RunZero(g, w1);
    }
  }

  /** With no rounds left and a vertex still queued, the walk gives up. */
  lemma RunZero(g: Graph, w: Walk)
    requires Sound(w) && |w.todo| > 0
    ensures Run(g, 0, w) == Err(Endless)
  {
  }

  /** One round of the walk in the spin. */
  lemma SpinNext(g: Graph, a: Label, b: Label, fuel: nat, w: Walk) returns (w1: Walk)
    requires Spins(g, a, b) && Sound(w) && w.todo == [a] && fuel > 0
    ensures Spins(g, b, a) && Sound(w1) && w1.todo == [b]
    ensures Run(g, fuel, w) == Run(g, fuel - 1, w1)
  {
    SpinPop(g, a, b, w);
    RunPop(g, fuel, w);
    w1 := Pop(g, w).value;
  }

  /** Popping one of the two queues the other. */
  lemma SpinPop(g: Graph, a: Label, b: Label, w: Walk)
    requires Spins(g, a, b) && Sound(w) && w.todo == [a]
    ensures Pop(g, w).Ok? && Pop(g, w).value.todo == [b]
  {
    assert Inner([b]) == [b] by {
      assert [b][..0] == [];
    }
    assert w.todo[1..] == [];
  }

  /** Visiting a single neighbour is one step. */
  lemma VisitOne(g: Graph, cur: Label, nei: Label, w: Walk) returns (w1: Walk)
    requires cur in w.dist && Sound(w) && (cur, nei) in g.delays && |nei| > 0
    ensures Visit(g, cur, [nei], w) == Step(g, cur, nei, w) == Ok(w1)
  {
    assert [nei][..0] == [];
    w1 := Step(g, cur, nei, w).value;
  }

  lemma Succ3(x: (Label, Label), y: (Label, Label), z: (Label, Label), v: Label)
    ensures Succ([x, y, z], v) == (if x.0 == v then [x.1] else []) + (if y.0 == v then [y.1] else [])
                                 + (if z.0 == v then [z.1] else [])
  {
    assert [x][..0] == [];
    assert Succ([x], v) == (if x.0 == v then [x.1] else []);
    assert [x, y][..1] == [x];
    assert Succ([x, y], v) == Succ([x], v) + (if y.0 == v then [y.1] else []);
    assert [x, y, z][..2] == [x, y];
  }

  lemma Tags3(x: Label, y: Label, z: Label, t: string)
    ensures Tags([x, y, z], t) == (if Tagged(x, t) then [x] else []) + (if Tagged(y, t) then [y] else [])
                                  + (if Tagged(z, t) then [z] else [])
  {
    Tags2(x, y, t);
    assert [x, y, z][..2] == [x, y];
  }

  lemma Tags2(x: Label, y: Label, t: string)
    ensures Tags([x, y], t) == (if Tagged(x, t) then [x] else []) + (if Tagged(y, t) then [y] else [])
  {
    assert [x][..0] == [];
    assert [x, y][..1] == [x];
  }

  lemma SpinSucc()
    ensures Succ(Spin.edges, SpinA) == [SpinB] && Succ(Spin.edges, SpinB) == [SpinA]
    ensures Succ(Spin.edges, SpinR) == [SpinA]
  {
    assert SpinR != SpinA && SpinR != SpinB && SpinA != SpinB by {
      assert SpinR[0] != SpinA[0] && SpinA[0] != SpinB[0] && |SpinR| != |SpinB|;
    }
    Succ3((SpinR, SpinA), (SpinA, SpinB), (SpinB, SpinA), SpinA);
    Succ3((SpinR, SpinA), (SpinA, SpinB), (SpinB, SpinA), SpinB);
    Succ3((SpinR, SpinA), (SpinA, SpinB), (SpinB, SpinA), SpinR);
  }

  lemma SpinShape()
    ensures Spins(Spin, SpinA, SpinB)
    ensures SpinR in Spin.vertices && Succ(Spin.edges, SpinR) == [SpinA] && (SpinR, SpinA) in Spin.delays
    ensures Routers(Spin) == [SpinR]
  {
    assert SpinR != SpinA && SpinR != SpinB && SpinA != SpinB by {
      assert SpinR[0] != SpinA[0] && SpinA[0] != SpinB[0] && |SpinR| != |SpinB|;
    }
    SpinSucc();
    assert Tagged(SpinR, "r") && !Tagged(SpinA, "r") && !Tagged(SpinB, "r");
    Tags3(SpinR, SpinA, SpinB, "r");
  }

  /** As written, the walk from the router of `Spin` never ends: no bound
      is enough, so neither is any translation of `Spin`. */
  lemma SpinNeverEnds(fuel: nat)
    ensures From(Spin, fuel, SpinR) == Err(Endless)
    ensures Translate(Spin, fuel).Err?
  {
    SpinShape();
    var w := Walk([], map[SpinR := 0], [], []);
    var w1 := VisitOne(Spin, SpinR, SpinA, w);
    SpinRuns(Spin, SpinA, SpinB, fuel, w1);
    TranslateOkIff(Spin, fuel);
  }

  // ------------------------------------------ the walk with a visited set

  /** The evidently intended step: an inner vertex that already has a
      distance is not queued a second time. */
  function StepOnce(g: Graph, cur: Label, nei: Label, w: Walk): (r: Result<Walk>)
    requires cur in w.dist && Sound(w)
    ensures r.Ok? ==> Sound(r.value) && w.dist.Keys <= r.value.dist.Keys
    ensures r.Ok? && (cur, nei) in g.edges ==> Budget(g, r.value) <= Budget(g, w)
    ensures r.Err? ==> r.msg != Endless
  {
    if (cur, nei) in g.delays && IsInner(nei) && nei in w.dist then Ok(w)
    else
      StepBudget(g, cur, nei, w);
      Step(g, cur, nei, w)
  }

  /** The heads of all edges: every vertex the walk can ever queue. */
  function Heads(g: Graph): set<Label> {
    set e | e in g.edges :: e.1
  }

  /** What is left to do: the queue, plus the heads not yet reached. */
  function Budget(g: Graph, w: Walk): nat {
    |w.todo| + |Heads(g) - w.dist.Keys|
  }

  /** Reaching a head the walk had not reached, or a router or endpoint,
      does not add to the budget. */
  lemma StepBudget(g: Graph, cur: Label, nei: Label, w: Walk)
    requires cur in w.dist && Sound(w)
    requires (cur, nei) in g.delays ==> !(IsInner(nei) && nei in w.dist)
    ensures Step(g, cur, nei, w).Ok? && (cur, nei) in g.edges ==>
              Budget(g, Step(g, cur, nei, w).value) <= Budget(g, w)
  {
    if Step(g, cur, nei, w).Err? || (cur, nei) !in g.edges { return; }
    var w1 := Step(g, cur, nei, w).value;
    var left := Heads(g) - w.dist.Keys;
    assert nei in Heads(g);
    assert Heads(g) - w1.dist.Keys == left - {nei};
    if IsInner(nei) {
      assert nei in left;
    }
  }

  function VisitOnce(g: Graph, cur: Label, ns: seq<Label>, w: Walk): (r: Result<Walk>)
    requires cur in w.dist && Sound(w)
    ensures r.Ok? ==> Sound(r.value) && w.dist.Keys <= r.value.dist.Keys
    ensures r.Ok? && (forall k :: 0 <= k < |ns| ==> (cur, ns[k]) in g.edges) ==> Budget(g, r.value) <= Budget(g, w)
    ensures r.Err? ==> r.msg != Endless
    decreases |ns|
  {
    if |ns| == 0 then Ok(w)
    else
      var init, nei := ns[..|ns| - 1], ns[|ns| - 1];
      assert forall k :: 0 <= k < |init| ==> init[k] == ns[k];
      var w1 :- VisitOnce(g, cur, init, w);
      StepOnce(g, cur, nei, w1)
  }

  /** One round of the corrected walk. */
  function PopOnce(g: Graph, w: Walk): (r: Result<Walk>)
    requires Sound(w) && |w.todo| > 0
    ensures r.Ok? ==> Sound(r.value) && Budget(g, r.value) < Budget(g, w)
    ensures r.Err? ==> r.msg != Endless
  {
    var cur := w.todo[0];
    var rest := w.(todo := w.todo[1..]);
    if cur !in g.vertices then Err("KeyError")
    else
      SuccMembers(g.edges, cur);
      VisitOnce(g, cur, Succ(g.edges, cur), rest)
  }

  /** The corrected walk. Every round uses up budget, so a bound of the
      budget is always enough: it never runs out. */
  function RunOnce(g: Graph, fuel: nat, w: Walk): (r: Result<Walk>)
    requires Sound(w)
    ensures r.Ok? ==> Sound(r.value) && |r.value.todo| == 0
    ensures Budget(g, w) <= fuel ==> r != Err(Endless)
    decreases fuel
  {
    if |w.todo| == 0 then Ok(w)
    else if fuel == 0 then Err(Endless)
    else
      var w1 :- PopOnce(g, w);
      RunOnce(g, fuel - 1, w1)
  }

  /** The corrected walk from a router. */
  function FromOnce(g: Graph, fuel: nat, router: Label): (r: Result<Walk>)
    ensures r.Ok? ==> Sound(r.value) && |r.value.todo| == 0
  {
    var w := Walk([], map[router := 0], [], []);
    if router !in g.vertices then Err("KeyError")
    else
      var w1 :- VisitOnce(g, router, Succ(g.edges, router), w);
      RunOnce(g, fuel, w1)
  }

  /** As many rounds as there are edge heads always suffice: on `Spin`,
      where the walk as written never ends, two are enough. */
  lemma FromOnceEnds(g: Graph, fuel: nat, router: Label)
    requires |Heads(g)| <= fuel
    ensures FromOnce(g, fuel, router) != Err(Endless)
  {
    var w := Walk([], map[router := 0], [], []);
    if router in g.vertices {
      SuccMembers(g.edges, router);
      var w1 := VisitOnce(g, router, Succ(g.edges, router), w);
      if w1.Ok? {
        assert Budget(g, w) <= |Heads(g)| by {
          assert Heads(g) - w.dist.Keys <= Heads(g);
        }
      }
    }
  }

  lemma SpinOnceEnds()
    ensures FromOnce(Spin, 2, SpinR) != Err(Endless)
  {
    assert Heads(Spin) <= {SpinA, SpinB};
    assert |{SpinA, SpinB}| == 2;
    SubsetCard(Heads(Spin), {SpinA, SpinB});
    FromOnceEnds(Spin, 2, SpinR);
  }

  lemma SubsetCard(a: set<Label>, b: set<Label>)
    requires a <= b
    ensures |a| <= |b|
  {
    assert b == a + (b - a);
  }

  // ------------------------------------------------------------- the text

  function Digit(d: nat): char
    requires d < 10
  {
    "0123456789"[d]
  }

  /** Python's `str(n)` for a natural number. */
  function Decimal(n: nat): (r: string)
    ensures |r| >= 1
    ensures forall k :: 0 <= k < |r| ==> '0' <= r[k] <= '9'
    decreases n
  {
    if n < 10 then [Digit(n)] else Decimal(n / 10) + [Digit(n % 10)]
  }

  /** The value a string of decimal digits spells. */
  function Value(s: string): nat
    requires forall k :: 0 <= k < |s| ==> '0' <= s[k] <= '9'
  {
    if |s| == 0 then 0 else 10 * Value(s[..|s| - 1]) + (s[|s| - 1] - '0') as nat
  }

  /** `str(n)` reads back as `n`. */
  lemma {:induction false} DecimalValue(n: nat)
    ensures Value(Decimal(n)) == n
    decreases n
  {
    if n >= 10 {
      DecimalValue(n / 10);
      var s := Decimal(n);
      assert s[..|s| - 1] == Decimal(n / 10);
      DigitValue(n % 10);
      assert Value(s) == 10 * (n / 10) + n % 10;
    } else {
      DigitValue(n);
    }
  }

  lemma DigitValue(d: nat)
    requires d < 10
    ensures (Digit(d) - '0') as nat == d
  {
  }

  /** `str(n)` has no leading zero, so distinct numbers get distinct texts. */
  lemma DecimalInjective(a: nat, b: nat)
    requires Decimal(a) == Decimal(b)
    ensures a == b
  {
    DecimalValue(a);
    DecimalValue(b);
  }

  function HopText(h: Hop): string {
    match h
    case ToRouter(i, w) => " router " + Decimal(i) + " " + Decimal(w)
    case ToNode(i) => " node " + Decimal(i)
  }

  function HopsText(hs: seq<Hop>): string {
    if |hs| == 0 then "" else HopsText(hs[..|hs| - 1]) + HopText(hs[|hs| - 1])
  }

  /** One line of the topology file. */
  function LineText(l: Line): (r: string)
    ensures |r| > 7 + |Decimal(l.idx)| && r[|r| - 1] == '\n'
    ensures r[..7 + |Decimal(l.idx)|] == "router " + Decimal(l.idx)
  {
    var head := "router " + Decimal(l.idx);
    assert (head + HopsText(l.hops) + "\n")[..|head|] == head;
    head + HopsText(l.hops) + "\n"
  }

  /** The whole file: the lines in order. */
  function FileText(ls: seq<Line>): (r: string)
    ensures |r| >= |ls|
    ensures |ls| > 0 ==> r[|r| - 1] == '\n'
  {
    if |ls| == 0 then "" else FileText(ls[..|ls| - 1]) + LineText(ls[|ls| - 1])
  }

  /** The file has exactly one line per output line: its newlines are the
      line ends. */
  function Newlines(s: string): nat {
    if |s| == 0 then 0 else Newlines(s[..|s| - 1]) + (if s[|s| - 1] == '\n' then 1 else 0)
  }

  lemma {:induction false} NewlinesAppend(a: string, b: string)
    ensures Newlines(a + b) == Newlines(a) + Newlines(b)
    decreases |b|
  {
    if |b| > 0 {
      assert (a + b)[..|a + b| - 1] == a + b[..|b| - 1];
      NewlinesAppend(a, b[..|b| - 1]);
    } else {
      assert a + b == a;
    }
  }

  lemma {:induction false} NoNewlines(s: string)
    requires forall k :: 0 <= k < |s| ==> s[k] != '\n'
    ensures Newlines(s) == 0
    decreases |s|
  {
    if |s| > 0 {
      NoNewlines(s[..|s| - 1]);
    }
  }

  lemma {:induction false} HopsTextPlain(hs: seq<Hop>)
    ensures forall k :: 0 <= k < |HopsText(hs)| ==> HopsText(hs)[k] != '\n'
    decreases |hs|
  {
    if |hs| > 0 {
      HopsTextPlain(hs[..|hs| - 1]);
      var h := hs[|hs| - 1];
      match h
      case ToRouter(i, w) =>
        assert forall k :: 0 <= k < |HopText(h)| ==> HopText(h)[k] != '\n';
      case ToNode(i) =>
        assert forall k :: 0 <= k < |HopText(h)| ==> HopText(h)[k] != '\n';
    }
  }

  lemma {:induction false} FileLines(ls: seq<Line>)
    ensures Newlines(FileText(ls)) == |ls|
    decreases |ls|
  {
    if |ls| > 0 {
      var l := ls[|ls| - 1];
      FileLines(ls[..|ls| - 1]);
      LineNewlines(l);
      NewlinesAppend(FileText(ls[..|ls| - 1]), LineText(l));
    }
  }

  /** A line of the file holds one newline, at its end. */
  lemma LineNewlines(l: Line)
    ensures Newlines(LineText(l)) == 1
  {
    var head := "router " + Decimal(l.idx);
    HopsTextPlain(l.hops);
    NoNewlines(HopsText(l.hops));
    NoNewlines(Decimal(l.idx));
    assert Newlines("router ") == 0 by {
      assert "router "[..6] == "router" && "router"[..5] == "route" && "route"[..4] == "rout";
      assert "rout"[..3] == "rou" && "rou"[..2] == "ro" && "ro"[..1] == "r" && "r"[..0] == "";
    }
    NewlinesAppend("router ", Decimal(l.idx));
    NewlinesAppend(head, HopsText(l.hops));
    NewlinesAppend(head + HopsText(l.hops), "\n");
    assert LineText(l) == head + HopsText(l.hops) + "\n";
  }
}
