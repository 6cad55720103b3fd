/** What one clipping pass does to a whole polygon. */
module ClipPass {
  import opened ClipGeometry

  // ------------------------------------------------------------- soundness

  /** Every emitted vertex is inside the plane and lies on an edge of the chain. */
  lemma {:induction false} ChainOnEdges(p: Plane, chain: seq<Point>, k: nat) returns (e: nat)
    requires k < |ClipChain(p, chain)|
    ensures Inside(p, ClipChain(p, chain)[k])
    ensures e + 1 < |chain| && Between(ClipChain(p, chain)[k], chain[e], chain[e + 1])
  {
    var first := Emit(p, chain[0], chain[1]);
    if k < |first| {
      EmitOnEdge(p, chain[0], chain[1], k);
      e := 0;
    } else {
      e := ChainOnEdges(p, chain[1..], k - |first|);
      e := e + 1;
    }
  }

  /** Output vertices are inside, and each lies on an edge of the input cycle,
      the edge from the last vertex back to the first included. */
  lemma OutputOnInputEdge(p: Plane, vs: seq<Point>, k: nat) returns (e: nat)
    requires k < |ClipPolygon(p, vs)|
    ensures Inside(p, ClipPolygon(p, vs)[k])
    ensures e < |vs| && Between(ClipPolygon(p, vs)[k], vs[e], vs[if e + 1 < |vs| then e + 1 else 0])
  {
    e := ChainOnEdges(p, Closed(vs), k);
  }

  ghost predicate AllInside(q: Plane, vs: seq<Point>) { forall v | v in vs :: Inside(q, v) }

  /** Whatever half-space held all vertices before a pass holds them after it,
      so a later pass never undoes an earlier one. */
  lemma PassKeepsInside(p: Plane, q: Plane, vs: seq<Point>)
    requires AllInside(q, vs)
    ensures AllInside(q, ClipPolygon(p, vs))
  {
    var out := ClipPolygon(p, vs);
    forall v | v in out ensures Inside(q, v) {
      var k :| 0 <= k < |out| && out[k] == v;
      var e := OutputOnInputEdge(p, vs, k);
      BetweenSide(q, v, vs[e], vs[if e + 1 < |vs| then e + 1 else 0]);
    }
  }

  lemma PassIsSound(p: Plane, vs: seq<Point>)
    ensures AllInside(p, ClipPolygon(p, vs))
  {
    var out := ClipPolygon(p, vs);
    forall v | v in out ensures Inside(p, v) {
      var k :| 0 <= k < |out| && out[k] == v;
      var e := OutputOnInputEdge(p, vs, k);
    }
  }

  /** A polygon wholly inside is returned as it is. */
  lemma {:induction false} ChainInsideUnchanged(p: Plane, chain: seq<Point>)
    requires AllInside(p, chain) && chain != []
    ensures ClipChain(p, chain) == chain[..|chain| - 1]
  {
    if |chain| >= 2 {
      assert chain[0] in chain && chain[1] in chain;
      assert forall v | v in chain[1..] :: v in chain;
      ChainInsideUnchanged(p, chain[1..]);
      assert chain[..|chain| - 1] == [chain[0]] + chain[1..][..|chain| - 2];
    }
  }

  lemma InsideUnchanged(p: Plane, vs: seq<Point>)
    requires AllInside(p, vs)
    ensures ClipPolygon(p, vs) == vs
  {
    if vs != [] {
      ChainInsideUnchanged(p, Closed(vs));
    }
  }

  // ---------------------------------------------------------- sign changes

  function Differ(q: Plane, a: Point, b: Point): nat { if Inside(q, a) == Inside(q, b) then 0 else 1 }

  /** How often a chain changes sides of the plane `q`. */
  function Flips(q: Plane, chain: seq<Point>): nat {
    if |chain| < 2 then 0 else Differ(q, chain[0], chain[1]) + Flips(q, chain[1..])
  }

  lemma {:induction false} FlipsJoin(q: Plane, c: seq<Point>, d: seq<Point>)
    requires c != [] && d != []
    ensures Flips(q, c + d) == Flips(q, c) + Differ(q, c[|c| - 1], d[0]) + Flips(q, d)
  {
    if |c| == 1 {
      assert (c + d)[1..] == d;
    } else {
      assert (c + d)[1..] == c[1..] + d;
      FlipsJoin(q, c[1..], d);
    }
  }

  /** Going from `a` by way of an emitted piece costs no more changes than
      going straight to `b`. */
  lemma EmitFlips(p: Plane, q: Plane, a: Point, b: Point, rest: seq<Point>)
    requires rest != []
    ensures Flips(q, [a] + Emit(p, a, b) + rest) <= Differ(q, a, b) + Flips(q, [b] + rest)
  {
    var piece := Emit(p, a, b);
    FlipsJoin(q, [b], rest);
    FlipsJoin(q, [a] + piece, rest);
    if piece != [] {
      var x := piece[|piece| - 1];
      FlipsJoin(q, [a], piece);
      if |piece| == 2 {
        assert piece == [a] + [x];
        FlipsJoin(q, [a], [x]);
      }
      EmitOnEdge(p, a, b, |piece| - 1);
      if Inside(q, a) == Inside(q, b) {
        BetweenSide(q, x, a, b);
      }
    }
  }

  /** The walk over the output, from the chain's first vertex to its last,
      changes sides no more often than the chain. */
  lemma {:induction false} ChainFlips(p: Plane, q: Plane, chain: seq<Point>)
    requires chain != []
    ensures Flips(q, [chain[0]] + ClipChain(p, chain) + [chain[|chain| - 1]]) <= Flips(q, chain)
  {
    var last := [chain[|chain| - 1]];
    if |chain| == 1 {
      assert [chain[0]] + ClipChain(p, chain) + last == [chain[0], chain[0]];
    } else {
      var tail := chain[1..];
      ChainFlips(p, q, tail);
      var rest := ClipChain(p, tail) + last;
      EmitFlips(p, q, chain[0], chain[1], rest);
      assert [tail[0]] + ClipChain(p, tail) + last == [chain[1]] + rest;
      assert [chain[0]] + ClipChain(p, chain) + last == [chain[0]] + Emit(p, chain[0], chain[1]) + rest;
    }
  }

  /** No pass makes the cycle change sides of any plane more often. */
  lemma PassFlips(p: Plane, q: Plane, vs: seq<Point>)
    ensures Flips(q, Closed(ClipPolygon(p, vs))) <= Flips(q, Closed(vs))
  {
    var out := ClipPolygon(p, vs);
    if out != [] {
      var z := vs[0];
      ChainFlips(p, q, Closed(vs));
      FlipsJoin(q, [z], out);
      FlipsJoin(q, [z] + out, [z]);
      FlipsJoin(q, out, [out[0]]);
    }
  }

  /** The cycle crosses every plane at most 2m times. */
  ghost predicate Bends(vs: seq<Point>, m: nat) { forall q: Plane :: Flips(q, Closed(vs)) <= 2 * m }

  /** It crosses every plane at most twice. */
  ghost predicate Convex(vs: seq<Point>) { Bends(vs, 1) }

  lemma PassKeepsBends(p: Plane, vs: seq<Point>, m: nat)
    requires Bends(vs, m)
    ensures Bends(ClipPolygon(p, vs), m)
  {
    forall q: Plane ensures Flips(q, Closed(ClipPolygon(p, vs))) <= 2 * m {
      PassFlips(p, q, vs);
    }
  }

  /** Every change of side has a vertex outside next to it and one inside. */
  lemma {:induction false} FlipsSplit(q: Plane, chain: seq<Point>)
    requires chain != []
    ensures Flips(q, chain) <= 2 * (|chain| - 1 - Kept(q, chain))
            - (if Inside(q, chain[0]) then 0 else 1) + (if Inside(q, chain[|chain| - 1]) then 0 else 1)
    ensures Flips(q, chain) <= 2 * Kept(q, chain)
            - (if Inside(q, chain[0]) then 1 else 0) + (if Inside(q, chain[|chain| - 1]) then 1 else 0)
  {
    if |chain| > 1 {
      FlipsSplit(q, chain[1..]);
    }
  }

  /** Any polygon of n vertices changes sides at most n times, and so at most twice
      n / 2 times: a triangle at most twice, a hexagon at most six times. */
  lemma AnyPolygonBends(vs: seq<Point>)
    ensures Bends(vs, |vs| / 2)
  {
    forall q: Plane ensures Flips(q, Closed(vs)) <= 2 * (|vs| / 2) {
      if vs != [] {
        FlipsSplit(q, Closed(vs));
      }
    }
  }

  lemma TriangleIsConvex(a: Point, b: Point, c: Point)
    ensures Convex([a, b, c])
  {
    AnyPolygonBends([a, b, c]);
  }

  // ---------------------------------------------------------------- growth

  /** New vertices a pass creates on one edge. */
  function EdgeCuts(p: Plane, a: Point, b: Point): nat {
    |Emit(p, a, b)| - if Inside(p, a) then 1 else 0
  }

  /** New vertices a pass creates along a chain. */
  function Cuts(p: Plane, chain: seq<Point>): nat {
    if |chain| < 2 then 0 else EdgeCuts(p, chain[0], chain[1]) + Cuts(p, chain[1..])
  }

  /** Vertices of a chain, its last one aside, that a pass keeps. */
  function Kept(p: Plane, chain: seq<Point>): nat {
    if |chain| < 2 then 0 else Kept(p, chain[1..]) + if Inside(p, chain[0]) then 1 else 0
  }

  lemma {:induction false} ChainGrowth(p: Plane, chain: seq<Point>)
    ensures |ClipChain(p, chain)| == Kept(p, chain) + Cuts(p, chain)
    ensures Cuts(p, chain) <= Flips(p, chain)
  {
    if |chain| >= 2 {
      ChainGrowth(p, chain[1..]);
    }
  }

  /** One pass creates at most one vertex per change of side, and drops one for
      every two, so the polygon grows by at most half the changes. */
  lemma PassGrowth(p: Plane, vs: seq<Point>)
    ensures Cuts(p, Closed(vs)) <= Flips(p, Closed(vs))
    ensures 2 * |ClipPolygon(p, vs)| <= 2 * |vs| + Flips(p, Closed(vs))
  {
    if vs != [] {
      ChainGrowth(p, Closed(vs));
      FlipsSplit(p, Closed(vs));
    }
  }

  // -------------------------------------------------------------- coverage

  /** `x` lies on a piece of the chain, or is its only vertex. */
  ghost predicate OnChain(x: Point, chain: seq<Point>) {
    || (|chain| == 1 && x == chain[0])
    || exists k :: 0 <= k < |chain| - 1 && Between(x, chain[k], chain[k + 1])
  }

  lemma OnChainPrepend(x: Point, front: seq<Point>, chain: seq<Point>)
    requires OnChain(x, chain)
    ensures OnChain(x, front + chain)
  {
    if |chain| == 1 && x == chain[0] {
      if front != [] {
        var k := |front| - 1;
        assert At(x, front[k], chain[0], 1.0);
        assert Between(x, (front + chain)[k], (front + chain)[k + 1]);
      } else {
        assert front + chain == chain;
      }
    } else {
      var k :| 0 <= k < |chain| - 1 && Between(x, chain[k], chain[k + 1]);
      assert Between(x, (front + chain)[|front| + k], (front + chain)[|front| + k + 1]);
    }
  }

  /** The pass's output followed by the chain's last vertex if that is kept. */
  function Trace(p: Plane, chain: seq<Point>): seq<Point>
    requires chain != []
  {
    var last := chain[|chain| - 1];
    ClipChain(p, chain) + if Inside(p, last) then [last] else []
  }

  lemma TraceStart(p: Plane, chain: seq<Point>)
    requires chain != [] && Inside(p, chain[0])
    ensures Trace(p, chain) != [] && Trace(p, chain)[0] == chain[0]
  {
  }

  /** The inside part of one edge lies on what is emitted for it and for its end. */
  lemma EdgeCovered(p: Plane, a: Point, b: Point, x: Point, rest: seq<Point>)
    requires Between(x, a, b) && Inside(p, x)
    requires Inside(p, b) ==> rest != [] && rest[0] == b
    ensures OnChain(x, Emit(p, a, b) + rest)
  {
    var da, db := Eval(p, a), Eval(p, b);
    var t :| At(x, a, b, t);
    var walk := Emit(p, a, b) + rest;
    if da >= 0.0 && db >= 0.0 {
      assert Between(x, walk[0], walk[1]);
    } else if da >= 0.0 {
      PartialEdge(p, a, b, x, t);
      assert Between(x, walk[0], walk[1]);
    } else if db > 0.0 {
      ReverseAt(x, a, b, t);
      PartialEdge(p, b, a, x, 1.0 - t);
      var c := Crossing(b, a, db, da);
      var s :| At(x, b, c, s);
      ReverseAt(x, b, c, s);
      assert Between(x, walk[0], walk[1]);
    } else {
      OnlyEnd(p, a, b, x, t);
      assert OnChain(x, [b]) && rest == [b] + rest[1..];
      if |rest| > 1 {
        assert At(x, rest[0], rest[1], 0.0);
        assert Between(x, walk[0], walk[1]);
      }
    }
  }

  /** An inside point of an edge that leaves the half-space comes before the crossing. */
  lemma PartialEdge(p: Plane, a: Point, b: Point, x: Point, t: real)
    requires At(x, a, b, t) && Inside(p, x)
    requires Eval(p, a) >= 0.0 > Eval(p, b)
    ensures Between(x, a, Crossing(a, b, Eval(p, a), Eval(p, b)))
  {
    var da, db := Eval(p, a), Eval(p, b);
    CrossingIsBlend(a, b, da, db);
    BlendEval(p, 1.0 - t, a, t, b);
    WeightBound(da, db, t);
    SubSegment(a, b, x, t, CrossingWeight(da, db));
  }

  /** The points up to weight `w` form the segment that ends there. */
  lemma SubSegment(a: Point, b: Point, x: Point, t: real, w: real)
    requires At(x, a, b, t) && t <= w
    ensures Between(x, a, Blend(1.0 - w, a, w, b))
  {
    var c := Blend(1.0 - w, a, w, b);
    if w == 0.0 {
      assert At(x, a, c, 0.0);
    } else {
      Ratio(t, w);
      BlendOfBlend(a, b, t / w, w);
      assert At(x, a, c, t / w);
    }
  }

  lemma WeightBound(da: real, db: real, t: real)
    requires da >= 0.0 > db && (1.0 - t) * da + t * db >= 0.0
    ensures t <= CrossingWeight(da, db)
  {
    assert (1.0 - t) * da + t * db == da - t * (da - db);
  }

  lemma BlendOfBlend(a: Point, b: Point, s: real, w: real)
    ensures Blend(1.0 - s, a, s, Blend(1.0 - w, a, w, b)) == Blend(1.0 - s * w, a, s * w, b)
  {
    Rescale(a.x, b.x, s, w);
    Rescale(a.y, b.y, s, w);
    Rescale(a.z, b.z, s, w);
    Rescale(a.w, b.w, s, w);
  }

  lemma Rescale(a: real, b: real, s: real, w: real)
    ensures Mix(1.0 - s, a, s, Mix(1.0 - w, a, w, b)) == Mix(1.0 - s * w, a, s * w, b)
  {
  }

  lemma Ratio(t: real, w: real)
    requires 0.0 <= t <= w && w > 0.0
    ensures 0.0 <= t / w <= 1.0 && t / w * w == t
  {
  }

  /** Of an edge that ends on the plane from outside only the end is inside. */
  lemma OnlyEnd(p: Plane, a: Point, b: Point, x: Point, t: real)
    requires At(x, a, b, t) && Inside(p, x)
    requires Eval(p, a) < 0.0 && Eval(p, b) <= 0.0
    ensures Inside(p, b) && x == b
  {
    var da, db := Eval(p, a), Eval(p, b);
    BlendEval(p, 1.0 - t, a, t, b);
    if t < 1.0 {
      WeightedNegative(1.0 - t, da, t, db);
    }
  }

  lemma WeightedNegative(s: real, a: real, t: real, b: real)
    requires s > 0.0 && a < 0.0 && t >= 0.0 && b <= 0.0
    ensures s * a + t * b < 0.0
  {
    ProductSign(s, a);
    ProductSign(t, b);
  }

  lemma {:induction false} ChainCovered(p: Plane, chain: seq<Point>, e: nat, x: Point)
    requires e + 1 < |chain| && Between(x, chain[e], chain[e + 1]) && Inside(p, x)
    ensures OnChain(x, Trace(p, chain))
  {
    var tail := chain[1..];
    var first := Emit(p, chain[0], chain[1]);
    assert Trace(p, chain) == first + Trace(p, tail);
    if e == 0 {
      if Inside(p, chain[1]) {
        TraceStart(p, tail);
      }
      EdgeCovered(p, chain[0], chain[1], x, Trace(p, tail));
    } else {
      ChainCovered(p, tail, e - 1, x);
      OnChainPrepend(x, first, Trace(p, tail));
    }
  }

  /** `x` lies on an edge of the cycle, the closing edge included. */
  ghost predicate OnCycle(x: Point, vs: seq<Point>) {
    exists e :: 0 <= e < |vs| && Between(x, vs[e], vs[if e + 1 < |vs| then e + 1 else 0])
  }

  /** Clipping loses nothing of the boundary: a point of the input cycle that
      is inside the plane lies on the output cycle. */
  lemma BoundaryKept(p: Plane, vs: seq<Point>, x: Point)
    requires OnCycle(x, vs) && Inside(p, x)
    ensures OnCycle(x, ClipPolygon(p, vs))
  {
    var e :| 0 <= e < |vs| && Between(x, vs[e], vs[if e + 1 < |vs| then e + 1 else 0]);
    var chain := Closed(vs);
    var out := ClipPolygon(p, vs);
    ChainCovered(p, chain, e, x);
    if Inside(p, vs[0]) {
      TraceStart(p, chain);
      assert Trace(p, chain) == out + [vs[0]] == Closed(out);
    }
    OnChainOnCycle(x, out, Trace(p, chain));
  }

  lemma OnChainOnCycle(x: Point, vs: seq<Point>, chain: seq<Point>)
    requires vs != [] || chain == []
    requires chain == vs || chain == Closed(vs)
    requires OnChain(x, chain)
    ensures OnCycle(x, vs)
  {
    if |chain| == 1 && x == chain[0] {
      assert At(x, vs[0], vs[0], 0.0);
      assert Between(x, vs[0], vs[if 0 + 1 < |vs| then 0 + 1 else 0]);
    } else {
      var k :| 0 <= k < |chain| - 1 && Between(x, chain[k], chain[k + 1]);
      assert Between(x, vs[k], vs[if k + 1 < |vs| then k + 1 else 0]);
    }
  }

  // ------------------------------------------------- walking the cycle by index

  /** What the edges from vertex `v` on still contribute. */
  ghost function Rest(p: Plane, vs: seq<Point>, v: nat): seq<Point>
    requires v <= |vs|
  {
    ClipChain(p, Closed(vs)[v..])
  }

  ghost function CutsLeft(p: Plane, vs: seq<Point>, v: nat): nat
    requires v <= |vs|
  {
    Cuts(p, Closed(vs)[v..])
  }

  lemma EdgeStep(p: Plane, vs: seq<Point>, v: nat, done: seq<Point>)
    requires v < |vs|
    ensures var next := vs[if v == |vs| - 1 then 0 else v + 1];
            && CutsLeft(p, vs, v) == EdgeCuts(p, vs[v], next) + CutsLeft(p, vs, v + 1)
            && done + Rest(p, vs, v) == done + Emit(p, vs[v], next) + Rest(p, vs, v + 1)
  {
    var chain := Closed(vs);
    var next := vs[if v == |vs| - 1 then 0 else v + 1];
    assert chain[v..][1..] == chain[v + 1..];
    assert chain[v..][0] == vs[v] && chain[v..][1] == next;
  }

  lemma NothingLeft(p: Plane, vs: seq<Point>)
    ensures Rest(p, vs, |vs|) == [] && CutsLeft(p, vs, |vs|) == 0
  {
  }
}
