/** What the renderer hands to the clipper, and whether the storage it provides is
    enough: triangles, points drawn as squares, and lines drawn as hexagons. */
module ClipCallers {
  import opened ClipGeometry
  import opened ClipPass
  import opened Clipper
  import opened ClipSharp

  // -------------------------------------------------------------- primitives

  /** A point becomes a parallelogram around the vertex. */
  function PointSquare(v: Point, X: real, Y: real): seq<Point> {
    [ v.(x := v.x - X, y := v.y + Y), v.(x := v.x + X, y := v.y + Y),
      v.(x := v.x + X, y := v.y - Y), v.(x := v.x - X, y := v.y - Y) ]
  }

  /** The eight points of a line: four around each end. */
  function LinePoints(p0: Point, p1: Point, dx0: real, dy0: real, dx1: real, dy1: real): (P: seq<Point>)
    ensures |P| == 8
  {
    [ p0.(x := p0.x - dx0), p0.(y := p0.y + dy0), p0.(x := p0.x + dx0), p0.(y := p0.y - dy0),
      p1.(x := p1.x - dx1), p1.(y := p1.y + dy1), p1.(x := p1.x + dx1), p1.(y := p1.y - dy1) ]
  }

  /** The hexagon around a line, by its direction on the screen. */
  function LineHexagon(P: seq<Point>, dx: real, dy: real): seq<Point>
    requires |P| == 8
  {
    if dx > -dy then
      if dx > dy then [P[0], P[1], P[5], P[6], P[7], P[3]]
      else [P[0], P[4], P[5], P[6], P[2], P[3]]
    else
      if dx > dy then [P[0], P[1], P[2], P[6], P[7], P[4]]
      else [P[1], P[2], P[3], P[7], P[4], P[5]]
  }

  /** A parallelogram crosses every plane at most twice: opposite corners have the
      same sum. */
  lemma PointSquareIsConvex(v: Point, X: real, Y: real)
    ensures Convex(PointSquare(v, X, Y))
  {
    var vs := PointSquare(v, X, Y);
    forall q: Plane ensures Flips(q, Closed(vs)) <= 2 {
      OppositeSums(q, v, X, Y);
      FlipsOfFour(q, vs[0], vs[1], vs[2], vs[3]);
    }
  }

  lemma OppositeSums(q: Plane, v: Point, X: real, Y: real)
    ensures var vs := PointSquare(v, X, Y);
            Eval(q, vs[0]) + Eval(q, vs[2]) == Eval(q, vs[1]) + Eval(q, vs[3])
  {
  }

  lemma FlipsOfFour(q: Plane, a: Point, b: Point, c: Point, d: Point)
    ensures Flips(q, Closed([a, b, c, d])) == Differ(q, a, b) + Differ(q, b, c) + Differ(q, c, d) + Differ(q, d, a)
  {
    assert Closed([a, b, c, d]) == [a] + ([b] + ([c] + ([d] + [a])));
    FlipsJoin(q, [a], [b] + ([c] + ([d] + [a])));
    FlipsJoin(q, [b], [c] + ([d] + [a]));
    FlipsJoin(q, [c], [d] + [a]);
    FlipsJoin(q, [d], [a]);
  }

  /** A line's hexagon need not be flat; it crosses every plane at most six times.
      Its vertices are among the points the clip flags are computed from. */
  lemma LineHexagonBends(P: seq<Point>, dx: real, dy: real)
    requires |P| == 8
    ensures |LineHexagon(P, dx, dy)| == 6 && Bends(LineHexagon(P, dx, dy), 3) && Covers(P, LineHexagon(P, dx, dy))
  {
    AnyPolygonBends(LineHexagon(P, dx, dy));
  }

  // ----------------------------------------------------------------- storage

  function Rows(): nat { 16 }
  function Columns(): nat { 16 }
  function Buffered(): nat { 16 }

  /** A run of the driver stays inside the storage of a polygon. */
  ghost predicate Fits(vs: seq<Point>, flags: bv32, drawFlags: bv32, planes: seq<Plane>)
    requires |planes| == 6
  {
    && ClippedPasses(vs, flags, drawFlags, planes) < Rows()
    && ClippedWidth(vs, flags, drawFlags, planes) <= Columns()
    && ClippedStays(vs, flags, drawFlags, planes, Buffered())
  }

  /** What a caller can check: the number of enabled passes. */
  lemma FewPassesFit(vs: seq<Point>, flags: bv32, drawFlags: bv32, planes: seq<Plane>, m: nat, k: nat)
    requires |planes| == 6 && Bends(vs, m) && Passes(flags, drawFlags, planes) <= k < Rows()
    requires 2 * m * k <= Buffered() && |vs| + m * k <= Columns()
    ensures Fits(vs, flags, drawFlags, planes)
  {
    var passes := ClippedPasses(vs, flags, drawFlags, planes);
    ClippedGrowth(vs, flags, drawFlags, planes, m);
    ClippedStaysIff(vs, flags, drawFlags, planes, Buffered());
    Monotone(m, passes, k);
  }

  lemma Monotone(m: nat, i: nat, k: nat)
    requires i <= k
    ensures m * i <= m * k && 2 * m * i <= 2 * m * k
  {
    assert m * (k - i) >= 0;
  }

  /** Up to eight passes are safe for a triangle or a point, */
  lemma EightPassesFit(vs: seq<Point>, flags: bv32, drawFlags: bv32, planes: seq<Plane>)
    requires |planes| == 6 && Convex(vs) && |vs| <= 4 && Passes(flags, drawFlags, planes) <= 8
    ensures Fits(vs, flags, drawFlags, planes)
  {
    FewPassesFit(vs, flags, drawFlags, planes, 1, 8);
  }

  /** up to two for a line. */
  lemma TwoPassesFitLine(vs: seq<Point>, flags: bv32, drawFlags: bv32, planes: seq<Plane>)
    requires |planes| == 6 && |vs| == 6 && Passes(flags, drawFlags, planes) <= 2
    ensures Fits(vs, flags, drawFlags, planes)
  {
    AnyPolygonBends(vs);
    FewPassesFit(vs, flags, drawFlags, planes, 3, 2);
  }

  /** Every triangle that the renderer hands on with k enabled passes fits. */
  ghost predicate TrianglesFit(k: nat) {
    forall vs: seq<Point>, drawFlags: bv32, planes: seq<Plane> |
      && |vs| == 3 && TriangleHandedOn(vs[0], vs[1], vs[2]) && |planes| == 6
      && Passes(CombinedFlags(vs, drawFlags), drawFlags, planes) == k ::
      Fits(vs, CombinedFlags(vs, drawFlags), drawFlags, planes)
  }

  /** The threshold is exact: the storage is enough for k passes, whatever the triangle
      and the planes, if and only if there are no more than eight. */
  lemma PassesFitIff(k: nat)
    requires k <= 12
    ensures TrianglesFit(k) <==> k <= 8
  {
    if k <= 8 {
      forall vs: seq<Point>, drawFlags: bv32, planes: seq<Plane> |
        && |vs| == 3 && TriangleHandedOn(vs[0], vs[1], vs[2]) && |planes| == 6
        && Passes(CombinedFlags(vs, drawFlags), drawFlags, planes) == k
        ensures Fits(vs, CombinedFlags(vs, drawFlags), drawFlags, planes)
      {
        AnyPolygonBends(vs);
        EightPassesFit(vs, CombinedFlags(vs, drawFlags), drawFlags, planes);
      }
    } else {
      DriverIsSharp(k - 6);
      var vs, planes :| TwoEach(k - 6, vs, planes);
      Overrun(vs, CombinedFlags(vs, FirstUserBits(k - 6)), FirstUserBits(k - 6), planes);
    }
  }

  /** A run that creates more points than are provided does not fit. */
  lemma Overrun(vs: seq<Point>, flags: bv32, drawFlags: bv32, planes: seq<Plane>)
    requires |planes| == 6 && ClippedCuts(vs, flags, drawFlags, planes) > Buffered()
    ensures !Fits(vs, flags, drawFlags, planes)
  {
    ClippedStaysIff(vs, flags, drawFlags, planes, Buffered());
  }
}
