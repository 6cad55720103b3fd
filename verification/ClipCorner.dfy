/** Cutting corners.  A pass that cuts off one vertex creates two points and leaves one
    vertex more, and such a pass can be followed by another, any number of times: the
    growth bounds are sharp. */
module ClipCorner {
  import opened ClipGeometry
  import opened ClipPass
  import opened Clipper

  // --------------------------------------------------------- cutting a corner

  lemma {:induction false} ChainSplit(p: Plane, c: seq<Point>, x: Point, d: seq<Point>)
    ensures ClipChain(p, c + [x] + d) == ClipChain(p, c + [x]) + ClipChain(p, [x] + d)
    ensures Cuts(p, c + [x] + d) == Cuts(p, c + [x]) + Cuts(p, [x] + d)
  {
    if c == [] {
      assert c + [x] + d == [x] + d && c + [x] == [x];
    } else {
      assert (c + [x] + d)[1..] == c[1..] + [x] + d && (c + [x])[1..] == c[1..] + [x];
      ChainSplit(p, c[1..], x, d);
    }
  }

  lemma {:induction false} NoCuts(p: Plane, chain: seq<Point>)
    requires AllInside(p, chain) && chain != []
    ensures ClipChain(p, chain) == chain[..|chain| - 1] && Cuts(p, chain) == 0
  {
    ChainInsideUnchanged(p, chain);
    if |chain| >= 2 {
      assert chain[0] in chain && chain[1] in chain;
      assert forall v | v in chain[1..] :: v in chain;
      NoCuts(p, chain[1..]);
    }
  }

  lemma FirstEdge(p: Plane, a: Point, b: Point, rest: seq<Point>)
    ensures ClipChain(p, [a] + ([b] + rest)) == Emit(p, a, b) + ClipChain(p, [b] + rest)
    ensures Cuts(p, [a] + ([b] + rest)) == EdgeCuts(p, a, b) + Cuts(p, [b] + rest)
  {
    assert ([a] + ([b] + rest))[1..] == [b] + rest;
  }

  /** The two edges at an outside vertex. */
  lemma TwoEdges(p: Plane, a: Point, v: Point, b: Point, rest: seq<Point>)
    requires Inside(p, a) && Eval(p, v) < 0.0 < Eval(p, b)
    ensures ClipChain(p, [a] + ([v] + ([b] + rest))) ==
            [a, Crossing(a, v, Eval(p, a), Eval(p, v)), Crossing(b, v, Eval(p, b), Eval(p, v))]
            + ClipChain(p, [b] + rest)
    ensures Cuts(p, [a] + ([v] + ([b] + rest))) == 2 + Cuts(p, [b] + rest)
  {
    FirstEdge(p, a, v, [b] + rest);
    FirstEdge(p, v, b, rest);
  }

  /** An inside start of a chain is copied. */
  lemma Copied(p: Plane, init: seq<Point>, a: Point, tail: seq<Point>)
    requires AllInside(p, init + [a])
    ensures ClipChain(p, init + [a] + tail) == init + ClipChain(p, [a] + tail)
    ensures Cuts(p, init + [a] + tail) == Cuts(p, [a] + tail)
  {
    ChainSplit(p, init, a, tail);
    NoCuts(p, init + [a]);
    assert (init + [a])[..|init|] == init;
  }

  /** A chain that leaves the half-space at one vertex only. */
  lemma CutCorner(p: Plane, init: seq<Point>, a: Point, v: Point, b: Point, rest: seq<Point>)
    requires AllInside(p, init + [a]) && AllInside(p, [b] + rest)
    requires Inside(p, a) && Eval(p, v) < 0.0 < Eval(p, b)
    ensures ClipChain(p, init + [a] + ([v] + ([b] + rest))) ==
            init + ([a, Crossing(a, v, Eval(p, a), Eval(p, v)), Crossing(b, v, Eval(p, b), Eval(p, v))]
                    + ([b] + rest)[..|rest|])
    ensures Cuts(p, init + [a] + ([v] + ([b] + rest))) == 2
  {
    Copied(p, init, a, [v] + ([b] + rest));
    TwoEdges(p, a, v, b, rest);
    NoCuts(p, [b] + rest);
  }

  /** Only vertex `k` is outside, and no other vertex is on the plane. */
  ghost predicate OnlyOutside(p: Plane, vs: seq<Point>, k: nat) {
    && |vs| > 2 && k < |vs| && Eval(p, vs[k]) < 0.0
    && forall j :: 0 <= j < |vs| && j != k ==> Eval(p, vs[j]) > 0.0
  }

  function Previous(vs: seq<Point>, k: nat): Point
    requires k < |vs|
  {
    vs[if k == 0 then |vs| - 1 else k - 1]
  }

  function Following(vs: seq<Point>, k: nat): Point
    requires k < |vs|
  {
    vs[if k == |vs| - 1 then 0 else k + 1]
  }

  /** The polygon with the corner cut off; a cut first vertex moves its second point
      to the front. */
  function Cut(vs: seq<Point>, k: nat, x: Point, y: Point): seq<Point>
    requires k < |vs|
  {
    if k == 0 then [y] + vs[1..] + [x] else vs[..k] + [x, y] + vs[k + 1..]
  }

  lemma CutAt(p: Plane, vs: seq<Point>, k: nat)
    requires OnlyOutside(p, vs, k) && k > 0
    ensures var (a, v, b) := (Previous(vs, k), vs[k], Following(vs, k));
            ClipPolygon(p, vs) ==
            Cut(vs, k, Crossing(a, v, Eval(p, a), Eval(p, v)), Crossing(b, v, Eval(p, b), Eval(p, v)))
    ensures Cuts(p, Closed(vs)) == 2
  {
    var chain := Closed(vs);
    var (init, a, v, b, rest) := (vs[..k - 1], vs[k - 1], vs[k], chain[k + 1], chain[k + 2..]);
    assert chain[..k - 1] == init && chain[k - 1] == a && chain[k] == v && b == Following(vs, k);
    AroundCorner(chain, k);
    SidesOfCorner(p, vs, k);
    CutCorner(p, init, a, v, b, rest);
    Reassemble(vs, k, Crossing(a, v, Eval(p, a), Eval(p, v)), Crossing(b, v, Eval(p, b), Eval(p, v)));
  }

  lemma SidesOfCorner(p: Plane, vs: seq<Point>, k: nat)
    requires OnlyOutside(p, vs, k) && k > 0
    ensures AllInside(p, vs[..k - 1] + [vs[k - 1]])
    ensures AllInside(p, [Closed(vs)[k + 1]] + Closed(vs)[k + 2..])
  {
    assert vs[..k - 1] + [vs[k - 1]] == vs[..k];
    assert [Closed(vs)[k + 1]] + Closed(vs)[k + 2..] == Closed(vs)[k + 1..];
    assert Closed(vs)[k + 1..] == vs[k + 1..] + [vs[0]];
  }

  lemma Reassemble(vs: seq<Point>, k: nat, x: Point, y: Point)
    requires 0 < k < |vs|
    ensures var (b, rest) := (Closed(vs)[k + 1], Closed(vs)[k + 2..]);
            vs[..k - 1] + ([vs[k - 1], x, y] + ([b] + rest)[..|rest|]) == Cut(vs, k, x, y)
  {
    assert [Closed(vs)[k + 1]] + Closed(vs)[k + 2..] == vs[k + 1..] + [vs[0]];
    assert vs[..k] == vs[..k - 1] + [vs[k - 1]];
  }

  lemma AroundCorner(chain: seq<Point>, k: nat)
    requires 0 < k && k + 1 < |chain|
    ensures chain == chain[..k - 1] + [chain[k - 1]] + ([chain[k]] + ([chain[k + 1]] + chain[k + 2..]))
  {
  }

  /** The first vertex of a polygon is. */
  lemma CutFirst(p: Plane, vs: seq<Point>)
    requires OnlyOutside(p, vs, 0)
    ensures var (v, b, z) := (vs[0], vs[1], vs[|vs| - 1]);
            ClipPolygon(p, vs) ==
            Cut(vs, 0, Crossing(z, v, Eval(p, z), Eval(p, v)), Crossing(b, v, Eval(p, b), Eval(p, v)))
    ensures Cuts(p, Closed(vs)) == 2
  {
    var (v, b, z, init) := (vs[0], vs[1], vs[|vs| - 1], vs[1..|vs| - 1]);
    assert init + [z] == vs[1..] && [b] + init[1..] == init;
    assert Closed(vs) == [v] + ([b] + (init[1..] + [z] + [v]));
    FirstEdge(p, v, b, init[1..] + [z] + [v]);
    assert [b] + (init[1..] + [z] + [v]) == init + [z] + [v];
    Copied(p, init, z, [v]);
    FirstEdge(p, z, v, []);
    assert [v] + [] == [v] && [z] + [v] == [z] + ([v] + []);
  }

  /** A pass against a plane that has one vertex outside. */
  lemma CutOne(p: Plane, vs: seq<Point>, k: nat)
    requires OnlyOutside(p, vs, k)
    ensures var (a, v, b) := (Previous(vs, k), vs[k], Following(vs, k));
            ClipPolygon(p, vs) ==
            Cut(vs, k, Crossing(a, v, Eval(p, a), Eval(p, v)), Crossing(b, v, Eval(p, b), Eval(p, v)))
    ensures Cuts(p, Closed(vs)) == 2 && |ClipPolygon(p, vs)| == |vs| + 1
  {
    if k == 0 {
      CutFirst(p, vs);
    } else {
      CutAt(p, vs, k);
    }
  }

  // ------------------------------------------------------ one corner after another

  ghost predicate Flat(vs: seq<Point>) { forall j :: 0 <= j < |vs| ==> vs[j].w == 1.0 }

  /** The plane cuts off vertex `k`, which lies between its neighbours from left to
      right. */
  ghost predicate Leaning(p: Plane, vs: seq<Point>, k: nat) {
    && OnlyOutside(p, vs, k) && k > 0 && Flat(vs)
    && Previous(vs, k).x < vs[k].x < Following(vs, k).x
  }

  /** A plane turned a little about the vertical line at `c`. */
  function Tilted(p: Plane, c: real, e: real): Plane { Plane(p.A + e, p.B, p.C, p.D - e * c) }

  lemma EvalTilted(p: Plane, c: real, e: real, v: Point)
    requires v.w == 1.0
    ensures Eval(Tilted(p, c, e), v) == Eval(p, v) + e * (v.x - c)
  {
  }

  lemma TiltStays(d: real, r: real, e: real, f: real)
    requires d > 0.0 && f > 0.0 && 0.0 < e <= f && f * r > -d
    ensures d + e * r > 0.0
  {
    if r < 0.0 {
      assert (f - e) * r <= 0.0;
    } else {
      assert e * r >= 0.0;
    }
  }

  lemma TiltFor(d: real, r: real) returns (e: real)
    requires d > 0.0
    ensures e > 0.0 && e * r > -d
  {
    var size := if r < 0.0 then 1.0 - r else 1.0;
    e := d / size;
    assert e * size == d;
    if r < 0.0 {
      assert e * r == e - d;
    } else {
      assert e * r >= 0.0;
    }
  }

  /** A small enough turn leaves all points on their side. */
  lemma {:induction false} SmallTilt(p: Plane, c: real, s: seq<Point>) returns (e: real)
    requires Flat(s) && forall j :: 0 <= j < |s| ==> Eval(p, s[j]) > 0.0
    ensures e > 0.0
    ensures forall j, f :: 0 <= j < |s| && 0.0 < f <= e ==> Eval(Tilted(p, c, f), s[j]) > 0.0
  {
    e := 1.0;
    if s != [] {
      var rest := SmallTilt(p, c, s[1..]);
      var first := TiltFor(Eval(p, s[0]), s[0].x - c);
      e := if rest < first then rest else first;
      forall j, f | 0 <= j < |s| && 0.0 < f <= e ensures Eval(Tilted(p, c, f), s[j]) > 0.0 {
        if j == 0 {
          EvalTilted(p, c, f, s[0]);
          TiltStays(Eval(p, s[0]), s[0].x - c, f, first);
        } else {
          assert s[j] == s[1..][j - 1];
        }
      }
    }
  }

  /** The crossing of an edge of two such points is such a point, strictly between. */
  lemma CrossingBetween(p: Plane, a: Point, v: Point)
    requires a.w == v.w == 1.0 && Eval(p, v) < 0.0 < Eval(p, a) && a.x != v.x
    ensures var c := Crossing(a, v, Eval(p, a), Eval(p, v));
            && c.w == 1.0 && Eval(p, c) == 0.0
            && (a.x < v.x ==> a.x < c.x < v.x) && (v.x < a.x ==> v.x < c.x < a.x)
  {
    var (da, dv) := (Eval(p, a), Eval(p, v));
    CrossingOnPlane(p, a, v);
    Weighted(a.x, v.x, da, dv);
    Weighted(1.0, 1.0, da, dv);
  }

  /** One coordinate of a crossing. */
  lemma Weighted(a: real, v: real, da: real, dv: real)
    requires dv < 0.0 < da
    ensures var c := (dv * a - da * v) * (1.0 / (dv - da));
            && (a == v ==> c == a) && (a < v ==> a < c < v) && (v < a ==> v < c < a)
  {
    var (n, c) := (da - dv, (dv * a - da * v) * (1.0 / (dv - da)));
    Quotient(dv * a - da * v, dv - da);
    assert c * (dv - da) == dv * a - da * v;
    assert (c - a) * n == da * (v - a);
    assert (v - c) * n == -dv * (v - a);
    SignOfFactor(c - a, n, da, v - a);
    SignOfFactor(v - c, n, -dv, v - a);
  }

  lemma Quotient(a: real, b: real)
    requires b != 0.0
    ensures a * (1.0 / b) * b == a
  {
  }

  lemma SignOfFactor(x: real, n: real, m: real, y: real)
    requires n > 0.0 && m > 0.0 && x * n == m * y
    ensures (x > 0.0 <==> y > 0.0) && (x == 0.0 <==> y == 0.0)
  {
    ProductPositive(m, y);
    ProductPositive(n, x);
  }

  lemma ProductPositive(m: real, y: real)
    requires m > 0.0
    ensures (m * y > 0.0 <==> y > 0.0) && (m * y == 0.0 <==> y == 0.0)
  {
    if y < 0.0 {
      assert m * -y > 0.0;
    }
  }

  /** After a leaning corner is cut off, another one can be. */
  lemma NextCorner(p: Plane, vs: seq<Point>, k: nat) returns (q: Plane)
    requires Leaning(p, vs, k)
    ensures Cuts(p, Closed(vs)) == 2 && |ClipPolygon(p, vs)| == |vs| + 1
    ensures Leaning(q, ClipPolygon(p, vs), k)
  {
    var (a, v, b) := (Previous(vs, k), vs[k], Following(vs, k));
    var x := Crossing(a, v, Eval(p, a), Eval(p, v));
    var y := Crossing(b, v, Eval(p, b), Eval(p, v));
    CutOne(p, vs, k);
    CrossingBetween(p, a, v);
    CrossingBetween(p, b, v);
    var others := vs[..k] + vs[k + 1..];
    var e := SmallTilt(p, v.x, others);
    q := Tilted(p, v.x, e);
    TiltedCuts(p, v.x, e, x, y);
    LeaningAgain(q, vs, k, x, y, others);
  }

  lemma TiltedCuts(p: Plane, c: real, e: real, x: Point, y: Point)
    requires e > 0.0 && x.w == y.w == 1.0 && Eval(p, x) == Eval(p, y) == 0.0 && x.x < c < y.x
    ensures Eval(Tilted(p, c, e), x) < 0.0 < Eval(Tilted(p, c, e), y)
  {
    EvalTilted(p, c, e, x);
    EvalTilted(p, c, e, y);
    ProductPositive(e, c - x.x);
    ProductPositive(e, y.x - c);
  }

  lemma LeaningAgain(q: Plane, vs: seq<Point>, k: nat, x: Point, y: Point, others: seq<Point>)
    requires 0 < k < |vs| && |vs| > 2 && Flat(vs) && others == vs[..k] + vs[k + 1..]
    requires forall j :: 0 <= j < |others| ==> Eval(q, others[j]) > 0.0
    requires x.w == y.w == 1.0 && Eval(q, x) < 0.0 < Eval(q, y) && vs[k - 1].x < x.x < y.x
    ensures Leaning(q, Cut(vs, k, x, y), k)
  {
    var out := Cut(vs, k, x, y);
    forall j | 0 <= j < |out| && j != k ensures Eval(q, out[j]) > 0.0 {
      if j < k {
        assert out[j] == others[j];
      } else if j > k + 1 {
        assert out[j] == others[j - 2];
      }
    }
  }

  // ------------------------------------------------------------------- runs

  function AllOn(planes: seq<Plane>): (s: seq<Stage>)
    ensures |s| == |planes|
  {
    seq(|planes|, j requires 0 <= j < |planes| => Stage(true, planes[j]))
  }

  lemma FirstOn(p: Plane, planes: seq<Plane>, vs: seq<Point>)
    requires |vs| >= 3
    ensures RunStages(AllOn([p] + planes), vs) == RunStages(AllOn(planes), ClipPolygon(p, vs))
    ensures RunCuts(AllOn([p] + planes), vs)
         == Cuts(p, Closed(vs)) + RunCuts(AllOn(planes), ClipPolygon(p, vs))
  {
    assert AllOn([p] + planes)[1..] == AllOn(planes);
  }

  /** Any number of corners can be cut off, one plane each. */
  lemma {:induction false} CutCorners(p: Plane, vs: seq<Point>, k: nat, n: nat) returns (planes: seq<Plane>)
    requires Leaning(p, vs, k)
    ensures |planes| == n && RunCuts(AllOn(planes), vs) == 2 * n
    ensures |RunStages(AllOn(planes), vs)| == |vs| + n
    decreases n
  {
    planes := [];
    if n > 0 {
      var q := NextCorner(p, vs, k);
      planes := CutCorners(q, ClipPolygon(p, vs), k, n - 1);
      FirstOn(p, planes, vs);
      planes := [p] + planes;
    }
  }

  /** A triangle with its lower corner in the middle. */
  function Wedge(): seq<Point> {
    [Point(-1.0, 0.0, 0.0, 1.0), Point(0.0, -1.0, 0.0, 1.0), Point(1.0, 0.0, 0.0, 1.0)]
  }

  lemma WedgeLeans(p: Plane, vs: seq<Point>)
    requires p == Plane(0.0, 1.0, 0.0, 0.5) && vs == Wedge()
    ensures Leaning(p, vs, 1)
  {
  }

  /** The bounds are sharp for every k: on this triangle there are k planes whose run
      creates exactly 2k points and ends with exactly 3 + k vertices. */
  lemma BoundsAreSharp(vs: seq<Point>, k: nat)
    requires vs == Wedge()
    ensures |vs| == 3 && Convex(vs)
    ensures exists planes :: |planes| == k && RunCuts(AllOn(planes), vs) == 2 * k
                             && |RunStages(AllOn(planes), vs)| == 3 + k
  {
    WedgeLeans(Plane(0.0, 1.0, 0.0, 0.5), vs);
    AnyPolygonBends(vs);
    var planes := CutCorners(Plane(0.0, 1.0, 0.0, 0.5), vs, 1, k);
  }
}
