/** Lines: the six vertices that the renderer clips, and the exact number of passes for
    which their storage is enough. */
module ClipLines {
  import opened ClipGeometry
  import opened ClipPass
  import opened Clipper
  import opened ClipCorner
  import opened ClipSharp
  import opened ClipCallers

  /** A line as it is drawn: its ends, its width, and half the size of the viewport. */
  datatype Line = Line(p0: Point, p1: Point, width: real, W: real, H: real)

  predicate Projects(l: Line) { l.W > 0.0 && l.H > 0.0 && l.p0.w != 0.0 && l.p1.w != 0.0 }

  /** Its direction on the screen. */
  function Across(l: Line): real
    requires Projects(l)
  {
    l.W * (l.p1.x / l.p1.w - l.p0.x / l.p0.w)
  }

  function Up(l: Line): real
    requires Projects(l)
  {
    l.H * (l.p1.y / l.p1.w - l.p0.y / l.p0.w)
  }

  function Around(l: Line): (P: seq<Point>)
    requires Projects(l)
    ensures |P| == 8
  {
    var half := l.width * 0.5;
    LinePoints(l.p0, l.p1, half * l.p0.w / l.W, half * l.p0.w / l.H, half * l.p1.w / l.W, half * l.p1.w / l.H)
  }

  function Outline(l: Line): seq<Point>
    requires Projects(l)
  {
    LineHexagon(Around(l), Across(l), Up(l))
  }

  /** The renderer clips a line if an end is in front of the viewer, the ends differ on
      the screen, and the eight points share no frustum plane's flag. */
  predicate LineHandedOn(l: Line) {
    && Projects(l) && (l.p0.w > 0.0 || l.p1.w > 0.0) && !(Across(l) == 0.0 == Up(l))
    && var P := Around(l);
       ComputeClipFlags(P[0]) & ComputeClipFlags(P[1]) & ComputeClipFlags(P[2]) & ComputeClipFlags(P[3])
       & ComputeClipFlags(P[4]) & ComputeClipFlags(P[5]) & ComputeClipFlags(P[6]) & ComputeClipFlags(P[7])
       == CLIP_FINITE
  }

  /** Every line that the renderer hands on with at most k enabled passes fits. */
  ghost predicate LinesFit(k: nat) {
    forall l: Line, drawFlags: bv32, planes: seq<Plane> |
      && LineHandedOn(l) && |planes| == 6
      && Passes(CombinedFlags(Around(l), drawFlags), drawFlags, planes) <= k ::
      Fits(Outline(l), CombinedFlags(Around(l), drawFlags), drawFlags, planes)
  }

  // ------------------------------------- parallel planes across a line's hexagon

  /** The planes under the height c over a plane, and over it. */
  function Under(p: Plane, c: real): Plane { Plane(-p.A, -p.B, -p.C, c - p.D) }
  function Over(p: Plane, c: real): Plane { Plane(p.A, p.B, p.C, p.D - c) }

  /** A point at height h over the plane. */
  ghost predicate High(p: Plane, v: Point, h: real) { v.w == 1.0 && Eval(p, v) == h }

  lemma UnderOver(p: Plane, c: real, v: Point, h: real)
    requires High(p, v, h)
    ensures Eval(Under(p, c), v) == c - h && Eval(Over(p, c), v) == h - c
  {
  }

  lemma HighCrossing(p: Plane, q: Plane, c: real, u: Point, v: Point)
    requires u.w == v.w == 1.0 && Eval(q, v) < 0.0 < Eval(q, u) && (q == Under(p, c) || q == Over(p, c))
    ensures High(p, Crossing(u, v, Eval(q, u), Eval(q, v)), c)
  {
    var x := Crossing(u, v, Eval(q, u), Eval(q, v));
    CrossingOnPlane(q, u, v);
    Weighted(1.0, 1.0, Eval(q, u), Eval(q, v));
    UnderOver(p, c, x, Eval(p, x));
  }

  /** Two inside vertices between two outside ones. */
  lemma Hill(q: Plane, v: Point, x: Point, y: Point, w: Point, rest: seq<Point>)
    requires Eval(q, v) < 0.0 < Eval(q, x) && Eval(q, w) < 0.0 < Eval(q, y)
    ensures ClipChain(q, [v] + ([x] + ([y] + ([w] + rest)))) ==
            [Crossing(x, v, Eval(q, x), Eval(q, v)), x, y, Crossing(y, w, Eval(q, y), Eval(q, w))]
            + ClipChain(q, [w] + rest)
    ensures Cuts(q, [v] + ([x] + ([y] + ([w] + rest)))) == 2 + Cuts(q, [w] + rest)
  {
    FirstEdge(q, v, x, [y] + ([w] + rest));
    FirstEdge(q, x, y, [w] + rest);
    FirstEdge(q, y, w, rest);
  }

  /** And two outside vertices between inside ones. */
  lemma Valley(q: Plane, v: Point, x: Point, y: Point, w: Point, u: Point, rest: seq<Point>)
    requires Eval(q, x) < 0.0 < Eval(q, v) && Eval(q, y) < 0.0 < Eval(q, w) && Eval(q, u) > 0.0
    ensures Cuts(q, [v] + ([x] + ([y] + ([w] + ([u] + rest))))) == 2 + Cuts(q, [u] + rest)
  {
    FirstEdge(q, v, x, [y] + ([w] + ([u] + rest)));
    FirstEdge(q, x, y, [w] + ([u] + rest));
    FirstEdge(q, y, w, [u] + rest);
    FirstEdge(q, w, u, rest);
  }

  /** The first pass cuts off every second vertex. */
  lemma FirstPass(p: Plane, a: Point, b: Point, c: Point, d: Point, e: Point, f: Point)
    returns (k: Point, l: Point, m: Point, n: Point, s: Point, t: Point)
    requires a.w == b.w == c.w == d.w == e.w == f.w == 1.0
    requires Eval(p, b) < 0.0 < Eval(p, a) && Eval(p, d) < 0.0 < Eval(p, c) && Eval(p, f) < 0.0 < Eval(p, e)
    ensures Cuts(p, Closed([a, b, c, d, e, f])) == 6
    ensures ClipPolygon(p, [a, b, c, d, e, f]) == [a, k, l, c, m, n, e, s, t]
    ensures High(p, k, 0.0) && High(p, l, 0.0) && High(p, m, 0.0)
    ensures High(p, n, 0.0) && High(p, s, 0.0) && High(p, t, 0.0)
  {
    k, l := Crossing(a, b, Eval(p, a), Eval(p, b)), Crossing(c, b, Eval(p, c), Eval(p, b));
    m, n := Crossing(c, d, Eval(p, c), Eval(p, d)), Crossing(e, d, Eval(p, e), Eval(p, d));
    s, t := Crossing(e, f, Eval(p, e), Eval(p, f)), Crossing(a, f, Eval(p, a), Eval(p, f));
    FirstCut(p, a, b, c, d, e, f);
    OnIt(p, a, b);
    OnIt(p, c, b);
    OnIt(p, c, d);
    OnIt(p, e, d);
    OnIt(p, e, f);
    OnIt(p, a, f);
  }

  lemma FirstCut(p: Plane, a: Point, b: Point, c: Point, d: Point, e: Point, f: Point)
    requires Eval(p, b) < 0.0 < Eval(p, a) && Eval(p, d) < 0.0 < Eval(p, c) && Eval(p, f) < 0.0 < Eval(p, e)
    ensures Cuts(p, Closed([a, b, c, d, e, f])) == 6
    ensures ClipPolygon(p, [a, b, c, d, e, f]) ==
            [ a, Crossing(a, b, Eval(p, a), Eval(p, b)), Crossing(c, b, Eval(p, c), Eval(p, b)),
              c, Crossing(c, d, Eval(p, c), Eval(p, d)), Crossing(e, d, Eval(p, e), Eval(p, d)),
              e, Crossing(e, f, Eval(p, e), Eval(p, f)), Crossing(a, f, Eval(p, a), Eval(p, f)) ]
  {
    assert Closed([a, b, c, d, e, f]) == [a] + ([b] + ([c] + ([d] + ([e] + ([f] + ([a] + []))))));
    TwoEdges(p, a, b, c, [d] + ([e] + ([f] + ([a] + []))));
    TwoEdges(p, c, d, e, [f] + ([a] + []));
    TwoEdges(p, e, f, a, []);
  }

  lemma OnIt(p: Plane, u: Point, v: Point)
    requires u.w == v.w == 1.0 && Eval(p, v) < 0.0 < Eval(p, u)
    ensures High(p, Crossing(u, v, Eval(p, u), Eval(p, v)), 0.0)
  {
    assert p == Over(p, 0.0);
    HighCrossing(p, p, 0.0, u, v);
  }

  /** The second, under a plane a little higher, cuts off what is left of them, */
  lemma SecondPass(p: Plane, q: Plane, a: Point, k: Point, l: Point, c: Point, m: Point, n: Point,
                   e: Point, s: Point, t: Point)
    returns (z0: Point, z1: Point, z2: Point, z3: Point, z4: Point, z5: Point)
    requires q == Under(p, 0.08) && a.w == c.w == e.w == 1.0
    requires Eval(p, a) >= 0.1 && Eval(p, c) >= 0.1 && Eval(p, e) >= 0.1
    requires High(p, k, 0.0) && High(p, l, 0.0) && High(p, m, 0.0)
    requires High(p, n, 0.0) && High(p, s, 0.0) && High(p, t, 0.0)
    ensures Cuts(q, Closed([a, k, l, c, m, n, e, s, t])) == 6
    ensures ClipPolygon(q, [a, k, l, c, m, n, e, s, t]) == [z0, k, l, z1, z2, m, n, z3, z4, s, t, z5]
    ensures High(p, z0, 0.08) && High(p, z1, 0.08) && High(p, z2, 0.08)
    ensures High(p, z3, 0.08) && High(p, z4, 0.08) && High(p, z5, 0.08)
  {
    z0, z1 := LastPoints(p, q, k, a, l, c);
    z2, z3 := LastPoints(p, q, m, c, n, e);
    z4, z5 := LastPoints(p, q, s, e, t, a);
    SecondCut(q, a, k, l, c, m, n, e, s, t);
  }

  lemma LastPoints(p: Plane, q: Plane, x: Point, v: Point, y: Point, w: Point) returns (z: Point, u: Point)
    requires q == Under(p, 0.08) && v.w == w.w == 1.0 && Eval(p, v) >= 0.1 && Eval(p, w) >= 0.1
    requires High(p, x, 0.0) && High(p, y, 0.0)
    ensures Eval(q, v) < 0.0 < Eval(q, x) && Eval(q, w) < 0.0 < Eval(q, y)
    ensures z == Crossing(x, v, Eval(q, x), Eval(q, v)) && u == Crossing(y, w, Eval(q, y), Eval(q, w))
    ensures High(p, z, 0.08) && High(p, u, 0.08)
  {
    UnderOver(p, 0.08, v, Eval(p, v));
    UnderOver(p, 0.08, w, Eval(p, w));
    UnderOver(p, 0.08, x, 0.0);
    UnderOver(p, 0.08, y, 0.0);
    HighCrossing(p, q, 0.08, x, v);
    HighCrossing(p, q, 0.08, y, w);
    z, u := Crossing(x, v, Eval(q, x), Eval(q, v)), Crossing(y, w, Eval(q, y), Eval(q, w));
  }

  lemma SecondCut(q: Plane, a: Point, k: Point, l: Point, c: Point, m: Point, n: Point, e: Point, s: Point, t: Point)
    requires Eval(q, a) < 0.0 && Eval(q, c) < 0.0 && Eval(q, e) < 0.0
    requires Eval(q, k) > 0.0 && Eval(q, l) > 0.0 && Eval(q, m) > 0.0
    requires Eval(q, n) > 0.0 && Eval(q, s) > 0.0 && Eval(q, t) > 0.0
    ensures Cuts(q, Closed([a, k, l, c, m, n, e, s, t])) == 6
    ensures ClipPolygon(q, [a, k, l, c, m, n, e, s, t]) ==
            [ Crossing(k, a, Eval(q, k), Eval(q, a)), k, l, Crossing(l, c, Eval(q, l), Eval(q, c)),
              Crossing(m, c, Eval(q, m), Eval(q, c)), m, n, Crossing(n, e, Eval(q, n), Eval(q, e)),
              Crossing(s, e, Eval(q, s), Eval(q, e)), s, t, Crossing(t, a, Eval(q, t), Eval(q, a)) ]
  {
    var tail := [e] + ([s] + ([t] + ([a] + [])));
    assert Closed([a, k, l, c, m, n, e, s, t]) == [a] + ([k] + ([l] + ([c] + ([m] + ([n] + tail)))));
    Hill(q, a, k, l, c, [m] + ([n] + tail));
    Hill(q, c, m, n, e, [s] + ([t] + ([a] + [])));
    Hill(q, e, s, t, a, []);
  }

  /** and the third, over a plane in between, the new pairs of points. */
  lemma ThirdPass(p: Plane, r: Plane, k: Point, l: Point, m: Point, n: Point, s: Point, t: Point,
                  z0: Point, z1: Point, z2: Point, z3: Point, z4: Point, z5: Point)
    requires r == Over(p, 0.04)
    requires High(p, k, 0.0) && High(p, l, 0.0) && High(p, m, 0.0)
    requires High(p, n, 0.0) && High(p, s, 0.0) && High(p, t, 0.0)
    requires High(p, z0, 0.08) && High(p, z1, 0.08) && High(p, z2, 0.08)
    requires High(p, z3, 0.08) && High(p, z4, 0.08) && High(p, z5, 0.08)
    ensures Cuts(r, Closed([z0, k, l, z1, z2, m, n, z3, z4, s, t, z5])) == 6
  {
    forall v, h | v in {k, l, m, n, s, t, z0, z1, z2, z3, z4, z5} && High(p, v, h) ensures Eval(r, v) == h - 0.04 {
      UnderOver(p, 0.04, v, h);
    }
    ThirdCut(r, k, l, m, n, s, t, z0, z1, z2, z3, z4, z5);
  }

  lemma ThirdCut(r: Plane, k: Point, l: Point, m: Point, n: Point, s: Point, t: Point,
                 z0: Point, z1: Point, z2: Point, z3: Point, z4: Point, z5: Point)
    requires Eval(r, k) < 0.0 && Eval(r, l) < 0.0 && Eval(r, m) < 0.0
    requires Eval(r, n) < 0.0 && Eval(r, s) < 0.0 && Eval(r, t) < 0.0
    requires Eval(r, z0) > 0.0 && Eval(r, z1) > 0.0 && Eval(r, z2) > 0.0
    requires Eval(r, z3) > 0.0 && Eval(r, z4) > 0.0 && Eval(r, z5) > 0.0
    ensures Cuts(r, Closed([z0, k, l, z1, z2, m, n, z3, z4, s, t, z5])) == 6
  {
    var tail := [z4] + ([s] + ([t] + ([z5] + ([z0] + []))));
    assert Closed([z0, k, l, z1, z2, m, n, z3, z4, s, t, z5])
        == [z0] + ([k] + ([l] + ([z1] + ([z2] + ([m] + ([n] + ([z3] + tail)))))));
    Valley(r, z0, k, l, z1, z2, [m] + ([n] + ([z3] + tail)));
    Valley(r, z2, m, n, z3, z4, [s] + ([t] + ([z5] + ([z0] + []))));
    Valley(r, z4, s, t, z5, z0, []);
  }

  function Slabs(p: Plane): seq<Plane> { [p] + ([Under(p, 0.08)] + ([Over(p, 0.04)] + [])) }

  /** Three parallel planes across six vertices. */
  lemma ThreePasses(p: Plane, a: Point, b: Point, c: Point, d: Point, e: Point, f: Point)
    requires a.w == b.w == c.w == d.w == e.w == f.w == 1.0
    requires Eval(p, a) >= 0.1 && Eval(p, c) >= 0.1 && Eval(p, e) >= 0.1
    requires Eval(p, b) < 0.0 && Eval(p, d) < 0.0 && Eval(p, f) < 0.0
    ensures RunCuts(AllOn(Slabs(p)), [a, b, c, d, e, f]) == 18
  {
    var k, l, m, n, s, t := FirstPass(p, a, b, c, d, e, f);
    var z0, z1, z2, z3, z4, z5 := SecondPass(p, Under(p, 0.08), a, k, l, c, m, n, e, s, t);
    ThirdPass(p, Over(p, 0.04), k, l, m, n, s, t, z0, z1, z2, z3, z4, z5);
    SumOfThree(p, Under(p, 0.08), Over(p, 0.04), [a, b, c, d, e, f], [a, k, l, c, m, n, e, s, t],
               [z0, k, l, z1, z2, m, n, z3, z4, s, t, z5]);
  }

  lemma SumOfThree(p: Plane, q: Plane, r: Plane, s0: seq<Point>, s1: seq<Point>, s2: seq<Point>)
    requires |s0| >= 3 && |s1| >= 3 && |s2| >= 3 && ClipPolygon(p, s0) == s1 && ClipPolygon(q, s1) == s2
    requires Cuts(p, Closed(s0)) == Cuts(q, Closed(s1)) == Cuts(r, Closed(s2)) == 6
    ensures RunCuts(AllOn([p] + ([q] + ([r] + []))), s0) == 18
  {
    FirstOn(p, [q] + ([r] + []), s0);
    FirstOn(q, [r] + [], s1);
    FirstOn(r, [], s2);
  }

  // --------------------------------------------- the bound for lines is sharp

  /** A line to the right, its far end deeper. */
  predicate SharpLine(l: Line) {
    && l.p0 == Point(0.0, 0.0, 0.0, 1.0) && l.p1 == Point(0.5, 0.0, 0.5, 1.0)
    && l.width == 0.5 && l.W == 1.0 && l.H == 1.0
  }

  lemma Quarter(half: real, w: real, W: real)
    requires half == 0.25 && w == 1.0 && W == 1.0
    ensures half * w / W == 0.25
  {
  }

  lemma Direction(W: real, x0: real, x1: real, w: real, d: real)
    requires W == w == 1.0 && x1 - x0 == d
    ensures W * (x1 / w - x0 / w) == d
  {
  }

  /** The eight points around it. */
  ghost predicate SharpPoints(P: seq<Point>) {
    && |P| == 8
    && P[0] == Point(-0.25, 0.0, 0.0, 1.0) && P[1] == Point(0.0, 0.25, 0.0, 1.0)
    && P[2] == Point(0.25, 0.0, 0.0, 1.0) && P[3] == Point(0.0, -0.25, 0.0, 1.0)
    && P[4] == Point(0.25, 0.0, 0.5, 1.0) && P[5] == Point(0.5, 0.25, 0.5, 1.0)
    && P[6] == Point(0.75, 0.0, 0.5, 1.0) && P[7] == Point(0.5, -0.25, 0.5, 1.0)
  }

  lemma SharpAround(p0: Point, p1: Point, d: real)
    requires p0 == Point(0.0, 0.0, 0.0, 1.0) && p1 == Point(0.5, 0.0, 0.5, 1.0) && d == 0.25
    ensures SharpPoints(LinePoints(p0, p1, d, d, d, d))
  {
  }

  lemma SharpOutline(l: Line)
    requires SharpLine(l)
    ensures Projects(l) && Across(l) == 0.5 && Up(l) == 0.0
    ensures Around(l) == LinePoints(l.p0, l.p1, 0.25, 0.25, 0.25, 0.25)
  {
    Quarter(l.width * 0.5, l.p0.w, l.W);
    Quarter(l.width * 0.5, l.p0.w, l.H);
    Quarter(l.width * 0.5, l.p1.w, l.W);
    Quarter(l.width * 0.5, l.p1.w, l.H);
    Direction(l.W, l.p0.x, l.p1.x, l.p1.w, 0.5);
    Direction(l.H, l.p0.y, l.p1.y, l.p1.w, 0.0);
  }

  lemma SharpLineExists() returns (l: Line)
    ensures Projects(l) && l.p0.w > 0.0 && Across(l) == 0.5 && Up(l) == 0.0 && SharpPoints(Around(l))
  {
    l := Line(Point(0.0, 0.0, 0.0, 1.0), Point(0.5, 0.0, 0.5, 1.0), 0.5, 1.0, 1.0);
    SharpOutline(l);
    SharpAround(l.p0, l.p1, 0.25);
  }

  /** The hexagon of a line to the right zigzags over a plane. */
  ghost predicate Zigzag(p: Plane, P: seq<Point>) {
    && |P| == 8 && (forall i :: 0 <= i < 8 ==> P[i].w == 1.0)
    && Eval(p, P[0]) >= 0.1 && Eval(p, P[5]) >= 0.1 && Eval(p, P[7]) >= 0.1
    && Eval(p, P[1]) < 0.0 && Eval(p, P[6]) < 0.0 && Eval(p, P[3]) < 0.0
  }

  ghost predicate Zigzags(l: Line, p: Plane) {
    Projects(l) && Across(l) > Up(l) && Across(l) > -Up(l) && Zigzag(p, Around(l))
  }

  lemma SharpHeights(p: Plane, P: seq<Point>)
    requires p == Plane(-1.0, 0.0, 1.4, -0.1) && SharpPoints(P)
    ensures Zigzag(p, P)
  {
  }

  lemma FlagsInView(v: Point)
    requires InFrustum(v)
    ensures ComputeClipFlags(v) == CLIP_FINITE
  {
  }

  lemma {:induction false} AllInView(vs: seq<Point>, drawFlags: bv32)
    requires forall v | v in vs :: InFrustum(v)
    ensures vs != [] ==> CombinedFlags(vs, drawFlags) == CLIP_FINITE | drawFlags
  {
    if vs != [] {
      FlagsInView(vs[0]);
      AllInView(vs[1..], drawFlags);
      assert CLIP_FINITE | (CLIP_FINITE | drawFlags) == CLIP_FINITE | drawFlags;
    }
  }

  lemma PointsInView(P: seq<Point>, drawFlags: bv32)
    requires SharpPoints(P)
    ensures CombinedFlags(P, drawFlags) == CLIP_FINITE | drawFlags
    ensures forall i :: 0 <= i < 8 ==> ComputeClipFlags(P[i]) == CLIP_FINITE
  {
    forall v | v in P ensures InFrustum(v) {
    }
    AllInView(P, drawFlags);
    forall i | 0 <= i < 8 ensures ComputeClipFlags(P[i]) == CLIP_FINITE {
      FlagsInView(P[i]);
    }
  }

  lemma NoFrustumBits(flags: bv32)
    requires flags == CLIP_FINITE | 0x0700
    ensures !Has(flags, CLIP_NEAR) && !Has(flags, CLIP_FAR) && !Has(flags, CLIP_LEFT)
    ensures !Has(flags, CLIP_RIGHT) && !Has(flags, CLIP_TOP) && !Has(flags, CLIP_BOTTOM) && Has(flags, CLIP_USER)
  {
  }

  /** The driver with three user planes only. */
  lemma UserPlanesOnly(vs: seq<Point>, flags: bv32, planes: seq<Plane>, cuts: nat)
    requires |planes| == 3 && flags == CLIP_FINITE | 0x0700 && RunCuts(AllOn(planes), vs) == cuts
    ensures Passes(flags, FirstUserBits(3), Padded(planes)) == 3
    ensures ClippedCuts(vs, flags, FirstUserBits(3), Padded(planes)) == cuts
  {
    NoFrustumBits(flags);
    var off := UserStagesOff(planes);
    var front := FrustumStages(flags);
    assert AllOff(front);
    RunOff(front, vs);
    RunAppend(front, AllOn(planes) + off, vs);
    RunAppend(AllOn(planes), off, vs);
    RunOff(off, RunStages(AllOn(planes), vs));
    EnabledOn(planes);
  }

  /** There is a line that zigzags over a plane, which the renderer hands on with no
      flag but those of the draw call. */
  lemma SharpLineIsLine(drawFlags: bv32) returns (l: Line, p: Plane)
    ensures Zigzags(l, p) && LineHandedOn(l) && CombinedFlags(Around(l), drawFlags) == CLIP_FINITE | drawFlags
  {
    l := SharpLineExists();
    p := Plane(-1.0, 0.0, 1.4, -0.1);
    SharpHeights(p, Around(l));
    PointsInView(Around(l), drawFlags);
  }

  /** Three parallel planes across such a line: three passes, eighteen points. */
  lemma LineBoundIsSharp(l: Line, p: Plane)
    requires Zigzags(l, p)
    ensures RunCuts(AllOn(Slabs(p)), Outline(l)) == 18
  {
    var P := Around(l);
    ThreePasses(p, P[0], P[1], P[5], P[6], P[7], P[3]);
  }

  /** As user planes they overrun the storage. */
  lemma ZigzagOverruns(l: Line, p: Plane, flags: bv32)
    requires Zigzags(l, p) && flags == CLIP_FINITE | FirstUserBits(3)
    ensures Passes(flags, FirstUserBits(3), Padded(Slabs(p))) == 3
    ensures !Fits(Outline(l), flags, FirstUserBits(3), Padded(Slabs(p)))
  {
    LineBoundIsSharp(l, p);
    UserPlanesOnly(Outline(l), flags, Slabs(p), 18);
    Overrun(Outline(l), flags, FirstUserBits(3), Padded(Slabs(p)));
  }

  /** For lines the threshold is two. */
  lemma LinePassesFitIff(k: nat)
    ensures LinesFit(k) <==> k <= 2
  {
    if k <= 2 {
      forall l: Line, drawFlags: bv32, planes: seq<Plane> |
        && LineHandedOn(l) && |planes| == 6
        && Passes(CombinedFlags(Around(l), drawFlags), drawFlags, planes) <= k
        ensures Fits(Outline(l), CombinedFlags(Around(l), drawFlags), drawFlags, planes)
      {
        TwoPassesFitLine(Outline(l), CombinedFlags(Around(l), drawFlags), drawFlags, planes);
      }
    } else {
      var l, p := SharpLineIsLine(FirstUserBits(3));
      ZigzagOverruns(l, p, CombinedFlags(Around(l), FirstUserBits(3)));
    }
  }
}
