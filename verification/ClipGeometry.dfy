/** One pass of homogeneous polygon clipping against a plane, over the reals.

    A polygon is its cycle of vertices; a chain is a cycle written out with its
    first vertex repeated at the end.  The pass walks the edges of the chain
    and emits, for each, the start vertex if it is inside and the crossing
    point if the edge changes sides. */
module ClipGeometry {

  datatype Point = Point(x: real, y: real, z: real, w: real)

  /** A plane equation, which is also an arbitrary linear functional. */
  datatype Plane = Plane(A: real, B: real, C: real, D: real)

  function Eval(p: Plane, v: Point): real {
    p.A * v.x + p.B * v.y + p.C * v.z + p.D * v.w
  }

  predicate Inside(p: Plane, v: Point) { Eval(p, v) >= 0.0 }

  /** The point where the edge from `u` to `v` meets the plane that gives the
      ends the distances `du` and `dv`. */
  function Crossing(u: Point, v: Point, du: real, dv: real): Point
    requires du != dv
  {
    var d := 1.0 / (dv - du);
    Point((dv * u.x - du * v.x) * d, (dv * u.y - du * v.y) * d,
          (dv * u.z - du * v.z) * d, (dv * u.w - du * v.w) * d)
  }

  function Emit(p: Plane, a: Point, b: Point): seq<Point> {
    var da, db := Eval(p, a), Eval(p, b);
    if da >= 0.0 then (if db < 0.0 then [a, Crossing(a, b, da, db)] else [a])
    else if db > 0.0 then [Crossing(b, a, db, da)]
    else []
  }

  function ClipChain(p: Plane, chain: seq<Point>): seq<Point> {
    if |chain| < 2 then [] else Emit(p, chain[0], chain[1]) + ClipChain(p, chain[1..])
  }

  function Closed(vs: seq<Point>): seq<Point> {
    if vs == [] then [] else vs + [vs[0]]
  }

  function ClipPolygon(p: Plane, vs: seq<Point>): seq<Point> { ClipChain(p, Closed(vs)) }

  // ------------------------------------------------------ points of an edge

  function Mix(s: real, a: real, t: real, b: real): real { s * a + t * b }

  function Blend(s: real, a: Point, t: real, b: Point): Point {
    Point(Mix(s, a.x, t, b.x), Mix(s, a.y, t, b.y), Mix(s, a.z, t, b.z), Mix(s, a.w, t, b.w))
  }

  /** `x` is the point of the segment from `a` to `b` with weight `t` on `b`. */
  predicate At(x: Point, a: Point, b: Point, t: real) {
    0.0 <= t <= 1.0 && x == Blend(1.0 - t, a, t, b)
  }

  ghost predicate Between(x: Point, a: Point, b: Point) { exists t :: At(x, a, b, t) }

  lemma BlendEval(q: Plane, s: real, a: Point, t: real, b: Point)
    ensures Eval(q, Blend(s, a, t, b)) == s * Eval(q, a) + t * Eval(q, b)
  {
    Distribute(s, q.A * a.x, q.B * a.y, q.C * a.z, q.D * a.w);
    Distribute(t, q.A * b.x, q.B * b.y, q.C * b.z, q.D * b.w);
    Swap(q.A, s, a.x, t, b.x);
    Swap(q.B, s, a.y, t, b.y);
    Swap(q.C, s, a.z, t, b.z);
    Swap(q.D, s, a.w, t, b.w);
  }

  lemma Distribute(s: real, a: real, b: real, c: real, d: real)
    ensures s * (a + b + c + d) == s * a + s * b + s * c + s * d
  {
  }

  lemma Swap(k: real, s: real, a: real, t: real, b: real)
    ensures k * (s * a + t * b) == s * (k * a) + t * (k * b)
  {
  }

  /** The weight a crossing puts on the far end of its edge. */
  function CrossingWeight(du: real, dv: real): real
    requires du != dv
  {
    du / (du - dv)
  }

  lemma CrossingIsBlend(u: Point, v: Point, du: real, dv: real)
    requires du >= 0.0 > dv || du > 0.0 >= dv
    ensures At(Crossing(u, v, du, dv), u, v, CrossingWeight(du, dv))
  {
    var d := 1.0 / (dv - du);
    var t := CrossingWeight(du, dv);
    assert t == -du * d && 1.0 - t == dv * d;
    Swap(d, dv, u.x, -du, v.x);
    Swap(d, dv, u.y, -du, v.y);
    Swap(d, dv, u.z, -du, v.z);
    Swap(d, dv, u.w, -du, v.w);
  }

  /** The crossing lies on the plane that was clipped against. */
  lemma CrossingOnPlane(p: Plane, u: Point, v: Point)
    requires Eval(p, u) >= 0.0 > Eval(p, v) || Eval(p, u) > 0.0 >= Eval(p, v)
    ensures Eval(p, Crossing(u, v, Eval(p, u), Eval(p, v))) == 0.0
  {
    var du, dv := Eval(p, u), Eval(p, v);
    var t := CrossingWeight(du, dv);
    CrossingIsBlend(u, v, du, dv);
    BlendEval(p, 1.0 - t, u, t, v);
    assert (1.0 - t) * du + t * dv == du - t * (du - dv);
    assert t * (du - dv) == du;
  }

  lemma ReverseAt(x: Point, a: Point, b: Point, t: real)
    requires At(x, a, b, t)
    ensures At(x, b, a, 1.0 - t)
  {
  }

  /** A point of an edge is inside wherever both ends are, and outside wherever
      both ends are. */
  lemma BetweenSide(q: Plane, x: Point, a: Point, b: Point)
    requires Between(x, a, b) && Inside(q, a) == Inside(q, b)
    ensures Inside(q, x) == Inside(q, a)
  {
    var t :| At(x, a, b, t);
    BlendEval(q, 1.0 - t, a, t, b);
    WeightedSign(1.0 - t, Eval(q, a), t, Eval(q, b));
  }

  lemma ProductSign(s: real, a: real)
    requires s >= 0.0
    ensures a >= 0.0 ==> s * a >= 0.0
    ensures a <= 0.0 ==> s * a <= 0.0
    ensures s > 0.0 && a < 0.0 ==> s * a < 0.0
  {
  }

  lemma WeightedSign(s: real, a: real, t: real, b: real)
    requires s >= 0.0 && t >= 0.0 && s + t == 1.0
    requires (a >= 0.0) == (b >= 0.0)
    ensures (s * a + t * b >= 0.0) == (a >= 0.0)
  {
    ProductSign(s, a);
    ProductSign(t, b);
  }

  /** What the pass emits for an edge: the start vertex, a point of the edge, or both. */
  lemma EmitOnEdge(p: Plane, a: Point, b: Point, k: nat)
    requires k < |Emit(p, a, b)|
    ensures Inside(p, Emit(p, a, b)[k])
    ensures Between(Emit(p, a, b)[k], a, b)
  {
    var da, db := Eval(p, a), Eval(p, b);
    var x := Emit(p, a, b)[k];
    if da >= 0.0 && k == 0 {
      assert At(x, a, b, 0.0);
    } else if da >= 0.0 {
      CrossingIsBlend(a, b, da, db);
      CrossingOnPlane(p, a, b);
    } else {
      CrossingIsBlend(b, a, db, da);
      CrossingOnPlane(p, b, a);
      ReverseAt(x, b, a, CrossingWeight(db, da));
    }
  }
}
