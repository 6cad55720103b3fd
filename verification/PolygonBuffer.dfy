/** The clipper's working storage.  Each pass reads one row of vertex
    references and writes the next, appending the points it creates to a
    buffer that the references of all rows share. */
module PolygonBuffer {
  import opened ClipGeometry
  import opened ClipPass
  import opened Clipper

  /** A pointer to one of the caller's vertices or to a buffered point. */
  datatype Ref = Source(index: nat) | Buffered(index: nat)

  /** The coordinate a frustum pass assigns after computing a crossing. */
  datatype Pin = Free | ZeroZ | ZEqualsW

  function Pinned(pin: Pin, v: Point): Point {
    match pin
    case Free => v
    case ZeroZ => v.(z := 0.0)
    case ZEqualsW => v.(z := v.w)
  }

  predicate PinFits(pin: Pin, p: Plane) {
    match pin
    case Free => true
    case ZeroZ => p == Near()
    case ZEqualsW => p == Far()
  }

  /** Pinning changes nothing: the crossing is on the plane already. */
  lemma PinIsExact(pin: Pin, p: Plane, u: Point, v: Point)
    requires PinFits(pin, p)
    requires Eval(p, u) >= 0.0 > Eval(p, v) || Eval(p, u) > 0.0 >= Eval(p, v)
    ensures var c := Crossing(u, v, Eval(p, u), Eval(p, v)); Pinned(pin, c) == c
  {
    CrossingOnPlane(p, u, v);
  }

  class Polygon {
    const source: seq<Point>
    const B: array<Point>
    const P: array2<Ref>
    var i: nat
    var b: nat
    var n: nat

    constructor (vertices: seq<Point>, rows: nat, columns: nat, capacity: nat)
      requires |vertices| <= columns && rows > 0
      ensures Valid() && fresh(B) && fresh(P)
      ensures P.Length0 == rows && P.Length1 == columns && B.Length == capacity
      ensures Vertices() == vertices && i == 0
    {
      source := vertices;
      B := new Point[capacity](_ => Point(0.0, 0.0, 0.0, 0.0));
      P := new Ref[rows, columns]((_, _) => Source(0));
      i, b, n := 0, 0, |vertices|;
      new;
      for k := 0 to |vertices|
        invariant n == |vertices| && i == 0 && b == 0
        invariant forall j | 0 <= j < k :: P[0, j] == Source(j)
      {
        P[0, k] := Source(k);
      }
      assert Vertices() == vertices;
    }

    ghost predicate ValidRef(r: Ref)
      reads this
    {
      match r
      case Source(k) => k < |source|
      case Buffered(k) => k < b
    }

    /** The first `m` references of a row can be followed. */
    ghost predicate ValidRow(row: nat, m: nat)
      reads this, P
    {
      && b <= B.Length && row < P.Length0 && m <= P.Length1
      && forall k | 0 <= k < m :: ValidRef(P[row, k])
    }

    ghost predicate Valid()
      reads this, P
    {
      ValidRow(i, n)
    }

    function Deref(r: Ref): Point
      requires b <= B.Length && ValidRef(r)
      reads this, B
    {
      match r
      case Source(k) => source[k]
      case Buffered(k) => B[k]
    }

    ghost function Row(row: nat, m: nat): seq<Point>
      requires ValidRow(row, m)
      reads this, B, P
    {
      seq(m, k requires 0 <= k < m && ValidRow(row, m) reads this, B, P => Deref(P[row, k]))
    }

    /** The current polygon, references followed. */
    ghost function Vertices(): seq<Point>
      requires Valid()
      reads this, B, P
    {
      Row(i, n)
    }

    /** Appends a crossing to the buffer and a reference to it to the next row. */
    method AppendCrossing(x: Point, t: nat)
      requires Valid() && ValidRow(i + 1, t) && t < P.Length1 && b < B.Length
      modifies `b, B, P
      ensures b == old(b) + 1
      ensures Valid() && Vertices() == old(Vertices())
      ensures ValidRow(i + 1, t + 1) && Row(i + 1, t + 1) == old(Row(i + 1, t)) + [x]
    {
      B[b] := x;
      P[i + 1, t] := Buffered(b);
      b := b + 1;
      assert Row(i, n) == old(Row(i, n));
    }

    /** Copies a reference of the current row to the next one. */
    method AppendVertex(v: nat, t: nat)
      requires Valid() && ValidRow(i + 1, t) && t < P.Length1 && v < n
      modifies P
      ensures Valid() && Vertices() == old(Vertices())
      ensures ValidRow(i + 1, t + 1) && Row(i + 1, t + 1) == old(Row(i + 1, t)) + [Vertices()[v]]
    {
      P[i + 1, t] := P[i, v];
      assert Row(i, n) == old(Row(i, n));
    }

    /** The body of a pass's loop: what the edge from vertex `v` to vertex `j`
        contributes to the next row. */
    method EmitEdge(p: Plane, pin: Pin, v: nat, j: nat, t: nat, ghost from: Point, ghost to: Point)
      returns (t': nat)
      requires Valid() && ValidRow(i + 1, t) && v < n && j < n && PinFits(pin, p)
      requires Vertices()[v] == from && Vertices()[j] == to
      requires t + |Emit(p, from, to)| <= P.Length1 && b + EdgeCuts(p, from, to) <= B.Length
      modifies `b, B, P
      ensures Valid() && Vertices() == old(Vertices())
      ensures b == old(b) + EdgeCuts(p, from, to)
      ensures t' <= P.Length1 && ValidRow(i + 1, t') && Row(i + 1, t') == old(Row(i + 1, t)) + Emit(p, from, to)
    {
      t' := t;
      var vi, vj := Deref(P[i, v]), Deref(P[i, j]);
      var di, dj := Eval(p, vi), Eval(p, vj);
      if di >= 0.0 {
        AppendVertex(v, t');
        t' := t' + 1;
        if dj < 0.0 {
          PinIsExact(pin, p, vi, vj);
          AppendCrossing(Pinned(pin, Crossing(vi, vj, di, dj)), t');
          t' := t' + 1;
        }
      } else {
        if dj > 0.0 {
          PinIsExact(pin, p, vj, vi);
          AppendCrossing(Pinned(pin, Crossing(vj, vi, dj, di)), t');
          t' := t' + 1;
        }
      }
    }

    /** The loop of a pass: fills the next row edge by edge. */
    method FillRow(p: Plane, pin: Pin) returns (t: nat)
      requires Valid() && i + 1 < P.Length0 && PinFits(pin, p)
      requires |ClipPolygon(p, Vertices())| <= P.Length1
      requires b + Cuts(p, Closed(Vertices())) <= B.Length
      modifies `b, B, P
      ensures Valid() && ValidRow(i + 1, t) && Row(i + 1, t) == ClipPolygon(p, old(Vertices()))
      ensures b == old(b) + Cuts(p, Closed(old(Vertices())))
    {
      ghost var vs := Vertices();
      t := 0;
      for v := 0 to n
        invariant Valid() && Vertices() == vs && ValidRow(i + 1, t)
        invariant Row(i + 1, t) + Rest(p, vs, v) == ClipPolygon(p, vs)
        invariant b + CutsLeft(p, vs, v) == old(b) + Cuts(p, Closed(vs))
      {
        var j := if v == n - 1 then 0 else v + 1;
        EdgeStep(p, vs, v, Row(i + 1, t));
        assert t + |Emit(p, vs[v], vs[j])| <= |ClipPolygon(p, vs)|;
        t := EmitEdge(p, pin, v, j, t, vs[v], vs[j]);
      }
      NothingLeft(p, vs);
    }

    /** A pass in place: the next row becomes the current one. */
    method Pass(p: Plane, pin: Pin)
      requires Valid() && i + 1 < P.Length0 && PinFits(pin, p)
      requires |ClipPolygon(p, Vertices())| <= P.Length1
      requires b + Cuts(p, Closed(Vertices())) <= B.Length
      modifies this, B, P
      ensures Valid() && Vertices() == ClipPolygon(p, old(Vertices()))
      ensures i == old(i) + 1 && b == old(b) + Cuts(p, Closed(old(Vertices())))
    {
      var t := FillRow(p, pin);
      n := t;
      i := i + 1;
    }

    /** What is left to do, from stage `k` on, to arrive at `goal`, and that the
        storage has exactly enough room for it. */
    ghost predicate OnCourse(stages: seq<Stage>, k: nat, goal: Goal)
      reads this, B, P
    {
      && Valid() && k <= |stages|
      && RunStages(stages[k..], Vertices()) == goal.vertices
      && i + RunPasses(stages[k..], Vertices()) == goal.row < P.Length0
      && b + RunCuts(stages[k..], Vertices()) == goal.points <= B.Length
      && RunWidth(stages[k..], Vertices()) <= P.Length1
    }

    /** One guarded pass of the driver. */
    method RunStage(enabled: bool, p: Plane, pin: Pin, ghost stages: seq<Stage>, ghost k: nat, ghost goal: Goal)
      requires OnCourse(stages, k, goal) && n >= 3 && PinFits(pin, p)
      requires k < |stages| && stages[k] == Stage(enabled, p)
      modifies this, B, P
      ensures OnCourse(stages, k + 1, goal)
    {
      assert stages[k..][1..] == stages[k + 1..];
      assert |Vertices()| == n;
      if enabled {
        WidthOfNext(stages[k + 1..], ClipPolygon(p, Vertices()));
        Pass(p, pin);
      }
    }

    /** With no area left the remaining stages do nothing. */
    lemma EarlyOut(stages: seq<Stage>, k: nat, j: nat, goal: Goal)
      requires OnCourse(stages, k, goal) && n < 3 && k <= j <= |stages|
      ensures OnCourse(stages, j, goal)
    {
      RunShort(stages[k..], Vertices());
      RunShort(stages[j..], Vertices());
      ShortNeeds(stages[k..], Vertices());
      ShortNeeds(stages[j..], Vertices());
    }
  }

  /** Where a run ends: its polygon, the row that holds it, the points it created. */
  datatype Goal = Goal(vertices: seq<Point>, row: nat, points: nat)

  lemma WidthOfNext(stages: seq<Stage>, vs: seq<Point>)
    ensures |vs| <= RunWidth(stages, vs)
  {
    if stages != [] && !Acts(stages[0], vs) {
      WidthOfNext(stages[1..], vs);
    }
  }

  lemma {:induction false} ShortNeeds(stages: seq<Stage>, vs: seq<Point>)
    requires |vs| < 3
    ensures RunPasses(stages, vs) == RunCuts(stages, vs) == 0 && RunWidth(stages, vs) == |vs|
  {
    if stages != [] {
      ShortNeeds(stages[1..], vs);
    }
  }

  lemma FrustumBits(flags: bv32)
    requires !Has(flags, CLIP_FRUSTUM)
    ensures !Has(flags, CLIP_NEAR) && !Has(flags, CLIP_FAR) && !Has(flags, CLIP_LEFT)
    ensures !Has(flags, CLIP_RIGHT) && !Has(flags, CLIP_TOP) && !Has(flags, CLIP_BOTTOM)
  {
  }

  /** The frustum planes, each pass tried only if the one before left an area. */
  method ClipFrustum(polygon: Polygon, flags: bv32, ghost stages: seq<Stage>, ghost goal: Goal)
    requires polygon.Valid() && |stages| == 11 && FrustumStages(flags) <= stages
    requires NearCourse(polygon, flags, stages, goal)
    modifies polygon, polygon.B, polygon.P
    ensures polygon.OnCourse(stages, 5, goal)
  {
    assert stages[0..] == stages;
    if Has(flags, CLIP_NEAR) {
      WidthOfNext(stages, AfterNear(flags, polygon.Vertices()));
      polygon.Pass(Near(), ZeroZ);
    }
    if polygon.n >= 3 {
      polygon.RunStage(Has(flags, CLIP_FAR), Far(), ZEqualsW, stages, 0, goal);
      if polygon.n >= 3 {
        polygon.RunStage(Has(flags, CLIP_LEFT), Left(), Free, stages, 1, goal);
        if polygon.n >= 3 {
          ClipFrustumSides(polygon, flags, stages, goal);
        } else { polygon.EarlyOut(stages, 2, 5, goal); }
      } else { polygon.EarlyOut(stages, 1, 5, goal); }
    } else { polygon.EarlyOut(stages, 0, 5, goal); }
  }

  /** What is left to do before the near pass. */
  ghost predicate NearCourse(polygon: Polygon, flags: bv32, stages: seq<Stage>, goal: Goal)
    reads polygon, polygon.B, polygon.P
  {
    && polygon.Valid()
    && var (vs, next) := (polygon.Vertices(), AfterNear(flags, polygon.Vertices()));
       && RunStages(stages, next) == goal.vertices
       && polygon.i + (if Has(flags, CLIP_NEAR) then 1 else 0) + RunPasses(stages, next) == goal.row < polygon.P.Length0
       && polygon.b + NearCuts(flags, vs) + RunCuts(stages, next) == goal.points <= polygon.B.Length
       && RunWidth(stages, next) <= polygon.P.Length1
  }

  method ClipFrustumSides(polygon: Polygon, flags: bv32, ghost stages: seq<Stage>, ghost goal: Goal)
    requires polygon.OnCourse(stages, 2, goal) && polygon.n >= 3
    requires |stages| == 11 && FrustumStages(flags) <= stages
    modifies polygon, polygon.B, polygon.P
    ensures polygon.OnCourse(stages, 5, goal)
  {
    polygon.RunStage(Has(flags, CLIP_RIGHT), Right(), Free, stages, 2, goal);
    if polygon.n >= 3 {
      ClipTopBottom(polygon, flags, stages, goal);
    } else { polygon.EarlyOut(stages, 3, 5, goal); }
  }

  method ClipTopBottom(polygon: Polygon, flags: bv32, ghost stages: seq<Stage>, ghost goal: Goal)
    requires polygon.OnCourse(stages, 3, goal) && polygon.n >= 3
    requires |stages| == 11 && FrustumStages(flags) <= stages
    modifies polygon, polygon.B, polygon.P
    ensures polygon.OnCourse(stages, 5, goal)
  {
    polygon.RunStage(Has(flags, CLIP_TOP), Top(), Free, stages, 3, goal);
    if polygon.n >= 3 {
      polygon.RunStage(Has(flags, CLIP_BOTTOM), Bottom(), Free, stages, 4, goal);
    } else { polygon.EarlyOut(stages, 4, 5, goal); }
  }

  /** The user planes of the draw call, guarded in the same way. */
  method ClipUser(polygon: Polygon, drawFlags: bv32, planes: seq<Plane>, ghost stages: seq<Stage>, ghost goal: Goal)
    requires |planes| == 6 && |stages| == 11
    requires forall k: nat | k < 6 :: stages[5 + k] == Stage(Has(drawFlags, UserBit(k)), planes[k])
    requires polygon.OnCourse(stages, 5, goal)
    modifies polygon, polygon.B, polygon.P
    ensures polygon.OnCourse(stages, 11, goal)
  {
    if polygon.n >= 3 {
      polygon.RunStage(Has(drawFlags, UserBit(0)), planes[0], Free, stages, 5, goal);
      if polygon.n >= 3 {
        polygon.RunStage(Has(drawFlags, UserBit(1)), planes[1], Free, stages, 6, goal);
        if polygon.n >= 3 {
          ClipUserMiddle(polygon, drawFlags, planes, stages, goal);
        } else { polygon.EarlyOut(stages, 7, 11, goal); }
      } else { polygon.EarlyOut(stages, 6, 11, goal); }
    } else { polygon.EarlyOut(stages, 5, 11, goal); }
  }

  method ClipUserMiddle(polygon: Polygon, drawFlags: bv32, planes: seq<Plane>, ghost stages: seq<Stage>,
                        ghost goal: Goal)
    requires |planes| == 6 && |stages| == 11
    requires forall k: nat | k < 6 :: stages[5 + k] == Stage(Has(drawFlags, UserBit(k)), planes[k])
    requires polygon.OnCourse(stages, 7, goal) && polygon.n >= 3
    modifies polygon, polygon.B, polygon.P
    ensures polygon.OnCourse(stages, 11, goal)
  {
    polygon.RunStage(Has(drawFlags, UserBit(2)), planes[2], Free, stages, 7, goal);
    if polygon.n >= 3 {
      polygon.RunStage(Has(drawFlags, UserBit(3)), planes[3], Free, stages, 8, goal);
      if polygon.n >= 3 {
        ClipUserRest(polygon, drawFlags, planes, stages, goal);
      } else { polygon.EarlyOut(stages, 9, 11, goal); }
    } else { polygon.EarlyOut(stages, 8, 11, goal); }
  }

  method ClipUserRest(polygon: Polygon, drawFlags: bv32, planes: seq<Plane>, ghost stages: seq<Stage>, ghost goal: Goal)
    requires |planes| == 6 && |stages| == 11
    requires forall k: nat | k < 6 :: stages[5 + k] == Stage(Has(drawFlags, UserBit(k)), planes[k])
    requires polygon.OnCourse(stages, 9, goal) && polygon.n >= 3
    modifies polygon, polygon.B, polygon.P
    ensures polygon.OnCourse(stages, 11, goal)
  {
    polygon.RunStage(Has(drawFlags, UserBit(4)), planes[4], Free, stages, 9, goal);
    if polygon.n >= 3 {
      polygon.RunStage(Has(drawFlags, UserBit(5)), planes[5], Free, stages, 10, goal);
    } else { polygon.EarlyOut(stages, 10, 11, goal); }
  }

  /** A disabled start of a run neither does nor needs anything. */
  lemma {:induction false} SkipDisabled(stages: seq<Stage>, k: nat, vs: seq<Point>)
    requires k <= |stages| && forall j :: 0 <= j < k ==> !stages[j].enabled
    ensures RunStages(stages[k..], vs) == RunStages(stages, vs)
    ensures RunPasses(stages[k..], vs) == RunPasses(stages, vs)
    ensures RunCuts(stages[k..], vs) == RunCuts(stages, vs)
    ensures RunWidth(stages[k..], vs) == RunWidth(stages, vs)
  {
    if k == 0 {
      assert stages[0..] == stages;
    } else {
      assert stages[1..][k - 1..] == stages[k..];
      SkipDisabled(stages[1..], k - 1, vs);
    }
  }

  /** Clips in place, if the storage has room for the rows, the vertices and the
      points of this run; the condition on the points is exact. */
  method Clip(polygon: Polygon, flags: bv32, drawFlags: bv32, planes: seq<Plane>) returns (visible: bool)
    requires |planes| == 6 && polygon.Valid()
    requires forall k | 0 <= k < polygon.n :: polygon.P[polygon.i, k].Source?
    requires polygon.i + ClippedPasses(polygon.Vertices(), flags, drawFlags, planes) < polygon.P.Length0
    requires ClippedWidth(polygon.Vertices(), flags, drawFlags, planes) <= polygon.P.Length1
    requires ClippedCuts(polygon.Vertices(), flags, drawFlags, planes) <= polygon.B.Length
    modifies polygon, polygon.B, polygon.P
    ensures polygon.Valid() && polygon.Vertices() == Clipped(old(polygon.Vertices()), flags, drawFlags, planes)
    ensures polygon.b == ClippedCuts(old(polygon.Vertices()), flags, drawFlags, planes)
    ensures polygon.i == old(polygon.i) + ClippedPasses(old(polygon.Vertices()), flags, drawFlags, planes)
    ensures visible <==> |polygon.Vertices()| >= 3
  {
    ghost var vs := polygon.Vertices();
    ghost var stages := Stages(flags, drawFlags, planes);
    ghost var goal := Goal(Clipped(vs, flags, drawFlags, planes),
                           polygon.i + ClippedPasses(vs, flags, drawFlags, planes),
                           ClippedCuts(vs, flags, drawFlags, planes));
    polygon.b := 0;
    assert polygon.Vertices() == vs;
    ClipAll(polygon, flags, drawFlags, planes, stages, goal);
    return polygon.n >= 3;
  }

  method ClipAll(polygon: Polygon, flags: bv32, drawFlags: bv32, planes: seq<Plane>,
                 ghost stages: seq<Stage>, ghost goal: Goal)
    requires |planes| == 6 && stages == Stages(flags, drawFlags, planes)
    requires NearCourse(polygon, flags, stages, goal)
    modifies polygon, polygon.B, polygon.P
    ensures polygon.OnCourse(stages, 11, goal)
  {
    if Has(flags, CLIP_FRUSTUM) {
      ClipFrustum(polygon, flags, stages, goal);
    } else {
      FrustumBits(flags);
      SkipDisabled(stages, 5, polygon.Vertices());
    }
    if Has(flags, CLIP_USER) {
      ClipUser(polygon, drawFlags, planes, stages, goal);
    } else {
      assert stages[5..][6..] == stages[11..];
      SkipDisabled(stages[5..], 6, polygon.Vertices());
    }
  }
}
