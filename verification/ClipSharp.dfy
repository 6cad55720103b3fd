/** The bounds of the driver are sharp: a triangle that every frustum plane cuts at one
    corner, so that each of the six passes creates two points, and whose remainder the
    user planes go on cutting. */
module ClipSharp {
  import opened ClipGeometry
  import opened ClipPass
  import opened Clipper
  import opened ClipCorner

  /** All points lie in one plane of the view volume. */
  function Spot(x: real, y: real): Point { Point(x, y, (1.0 - x - y) / 2.0, 1.0) }

  /** Passes that create two points each and leave `out`, whatever comes after them. */
  ghost predicate Cutting(planes: seq<Plane>, vs: seq<Point>, out: seq<Point>) {
    && (forall rest :: RunStages(AllOn(planes + rest), vs) == RunStages(AllOn(rest), out))
    && (forall rest :: RunCuts(AllOn(planes + rest), vs) == 2 * |planes| + RunCuts(AllOn(rest), out))
  }

  /** The edge from `a` to `v` crosses the plane at `x`. */
  ghost predicate Meets(p: Plane, a: Point, v: Point, da: real, dv: real, x: Point) {
    Eval(p, a) == da > 0.0 && Eval(p, v) == dv < 0.0 && x == Crossing(a, v, da, dv)
  }

  lemma CutTo(p: Plane, vs: seq<Point>, k: nat, da: real, dv: real, db: real, x: Point, y: Point)
    requires OnlyOutside(p, vs, k)
    requires Meets(p, Previous(vs, k), vs[k], da, dv, x) && Meets(p, Following(vs, k), vs[k], db, dv, y)
    ensures Cutting([p], vs, Cut(vs, k, x, y))
  {
    CutOne(p, vs, k);
    forall rest
      ensures RunStages(AllOn([p] + rest), vs) == RunStages(AllOn(rest), Cut(vs, k, x, y))
      ensures RunCuts(AllOn([p] + rest), vs) == 2 + RunCuts(AllOn(rest), Cut(vs, k, x, y))
    {
      FirstOn(p, rest, vs);
    }
  }

  lemma Together(s: seq<Plane>, t: seq<Plane>, a: seq<Point>, b: seq<Point>, c: seq<Point>)
    requires Cutting(s, a, b) && Cutting(t, b, c)
    ensures Cutting(s + t, a, c)
  {
    forall rest
      ensures RunStages(AllOn(s + t + rest), a) == RunStages(AllOn(rest), c)
      ensures RunCuts(AllOn(s + t + rest), a) == 2 * |s + t| + RunCuts(AllOn(rest), c)
    {
      assert s + t + rest == s + (t + rest);
    }
  }

  // ------------------------------------------------------------ the six passes

  /** The frustum planes in the order of the passes, */
  function Frustum(j: nat): Plane
    requires j < 6
  {
    match j
    case 0 => Near()
    case 1 => Far()
    case 2 => Left()
    case 3 => Right()
    case 4 => Top()
    case 5 => Bottom()
  }

  /** and how deep a point is inside them. */
  function Depth(j: nat, v: Point): real
    requires j < 6
  {
    match j
    case 0 => v.z
    case 1 => v.w - v.z
    case 2 => v.w + v.x
    case 3 => v.w - v.x
    case 4 => v.w - v.y
    case 5 => v.w + v.y
  }

  lemma DepthIsEval(j: nat, p: Plane, v: Point)
    requires j < 6 && p == Frustum(j)
    ensures Eval(p, v) == Depth(j, v)
  {
  }

  ghost predicate OnlyDeep(j: nat, vs: seq<Point>, k: nat) {
    && j < 6 && |vs| > 2 && k < |vs| && Depth(j, vs[k]) < 0.0
    && forall i :: 0 <= i < |vs| && i != k ==> Depth(j, vs[i]) > 0.0
  }

  lemma SidesByDepth(j: nat, p: Plane, vs: seq<Point>, k: nat)
    requires OnlyDeep(j, vs, k) && p == Frustum(j)
    ensures OnlyOutside(p, vs, k)
  {
    forall i | 0 <= i < |vs| ensures Eval(p, vs[i]) == Depth(j, vs[i]) {
      DepthIsEval(j, p, vs[i]);
    }
  }

  predicate Shape0(vs: seq<Point>) {
    && |vs| == 3 && vs[0] == Spot(-1.5, 0.0) && vs[1] == Spot(0.0, 1.5) && vs[2] == Spot(1.5, -1.5)
  }

  predicate Shape1(vs: seq<Point>) {
    && |vs| == 4 && vs[0] == Spot(-1.5, 0.0) && vs[1] == Spot(-0.25, 1.25)
    && vs[2] == Spot(0.5, 0.5) && vs[3] == Spot(1.5, -1.5)
  }

  predicate Shape2(vs: seq<Point>) {
    && |vs| == 5 && vs[0] == Spot(-1.25, 0.25) && vs[1] == Spot(-0.25, 1.25)
    && vs[2] == Spot(0.5, 0.5) && vs[3] == Spot(1.5, -1.5) && vs[4] == Spot(-0.5, -0.5)
  }

  predicate Shape3(vs: seq<Point>) {
    && |vs| == 6 && vs[0] == Spot(-1.0, 0.5) && vs[1] == Spot(-0.25, 1.25)
    && vs[2] == Spot(0.5, 0.5) && vs[3] == Spot(1.5, -1.5) && vs[4] == Spot(-0.5, -0.5)
    && vs[5] == Spot(-1.0, 0.0)
  }

  predicate Shape4(vs: seq<Point>) {
    && |vs| == 7 && vs[0] == Spot(-1.0, 0.5) && vs[1] == Spot(-0.25, 1.25)
    && vs[2] == Spot(0.5, 0.5) && vs[3] == Spot(1.0, -0.5) && vs[4] == Spot(1.0, -1.25)
    && vs[5] == Spot(-0.5, -0.5) && vs[6] == Spot(-1.0, 0.0)
  }

  predicate Shape5(vs: seq<Point>) {
    && |vs| == 8 && vs[0] == Spot(-1.0, 0.5) && vs[1] == Spot(-0.5, 1.0) && vs[2] == Spot(0.0, 1.0)
    && vs[3] == Spot(0.5, 0.5) && vs[4] == Spot(1.0, -0.5) && vs[5] == Spot(1.0, -1.25)
    && vs[6] == Spot(-0.5, -0.5) && vs[7] == Spot(-1.0, 0.0)
  }

  predicate Shape6(vs: seq<Point>) {
    && |vs| == 9 && vs[0] == Spot(-1.0, 0.5) && vs[1] == Spot(-0.5, 1.0) && vs[2] == Spot(0.0, 1.0)
    && vs[3] == Spot(0.5, 0.5) && vs[4] == Spot(1.0, -0.5) && vs[5] == Spot(1.0, -1.0)
    && vs[6] == Spot(0.5, -1.0) && vs[7] == Spot(-0.5, -0.5) && vs[8] == Spot(-1.0, 0.0)
  }

  lemma Crossings0(p: Plane, a: Point, v: Point, b: Point, x: Point, y: Point)
    requires p == Near()
    requires a == Spot(-1.5, 0.0) && v == Spot(0.0, 1.5) && b == Spot(1.5, -1.5)
    requires x == Spot(-0.25, 1.25) && y == Spot(0.5, 0.5)
    ensures Meets(p, a, v, 1.25, -0.25, x) && Meets(p, b, v, 0.5, -0.25, y)
  {
  }

  lemma Cuts0(p: Plane, vs: seq<Point>, k: nat, a: Point, v: Point, b: Point, x: Point, y: Point)
    requires p == Near() && OnlyDeep(0, vs, k) && Previous(vs, k) == a && vs[k] == v && Following(vs, k) == b
    requires a == Spot(-1.5, 0.0) && v == Spot(0.0, 1.5) && b == Spot(1.5, -1.5)
    requires x == Spot(-0.25, 1.25) && y == Spot(0.5, 0.5)
    ensures Cutting([p], vs, Cut(vs, k, x, y))
  {
    SidesByDepth(0, p, vs, k);
    Crossings0(p, a, v, b, x, y);
    CutTo(p, vs, k, 1.25, -0.25, 0.5, x, y);
  }

  lemma Pass0(vs: seq<Point>) returns (out: seq<Point>)
    requires Shape0(vs)
    ensures Cutting([Near()], vs, out) && Shape1(out)
  {
    var (x, y) := (Spot(-0.25, 1.25), Spot(0.5, 0.5));
    Cuts0(Near(), vs, 1, Spot(-1.5, 0.0), Spot(0.0, 1.5), Spot(1.5, -1.5), x, y);
    out := Cut(vs, 1, x, y);
  }

  lemma Crossings1(p: Plane, a: Point, v: Point, b: Point, x: Point, y: Point)
    requires p == Far()
    requires a == Spot(1.5, -1.5) && v == Spot(-1.5, 0.0) && b == Spot(-0.25, 1.25)
    requires x == Spot(-0.5, -0.5) && y == Spot(-1.25, 0.25)
    ensures Meets(p, a, v, 0.5, -0.25, x) && Meets(p, b, v, 1.0, -0.25, y)
  {
  }

  lemma Cuts1(p: Plane, vs: seq<Point>, k: nat, a: Point, v: Point, b: Point, x: Point, y: Point)
    requires p == Far() && OnlyDeep(1, vs, k) && Previous(vs, k) == a && vs[k] == v && Following(vs, k) == b
    requires a == Spot(1.5, -1.5) && v == Spot(-1.5, 0.0) && b == Spot(-0.25, 1.25)
    requires x == Spot(-0.5, -0.5) && y == Spot(-1.25, 0.25)
    ensures Cutting([p], vs, Cut(vs, k, x, y))
  {
    SidesByDepth(1, p, vs, k);
    Crossings1(p, a, v, b, x, y);
    CutTo(p, vs, k, 0.5, -0.25, 1.0, x, y);
  }

  lemma Pass1(vs: seq<Point>) returns (out: seq<Point>)
    requires Shape1(vs)
    ensures Cutting([Far()], vs, out) && Shape2(out)
  {
    var (x, y) := (Spot(-0.5, -0.5), Spot(-1.25, 0.25));
    Cuts1(Far(), vs, 0, Spot(1.5, -1.5), Spot(-1.5, 0.0), Spot(-0.25, 1.25), x, y);
    out := Cut(vs, 0, x, y);
  }

  lemma Crossings2(p: Plane, a: Point, v: Point, b: Point, x: Point, y: Point)
    requires p == Left()
    requires a == Spot(-0.5, -0.5) && v == Spot(-1.25, 0.25) && b == Spot(-0.25, 1.25)
    requires x == Spot(-1.0, 0.0) && y == Spot(-1.0, 0.5)
    ensures Meets(p, a, v, 0.5, -0.25, x) && Meets(p, b, v, 0.75, -0.25, y)
  {
  }

  lemma Cuts2(p: Plane, vs: seq<Point>, k: nat, a: Point, v: Point, b: Point, x: Point, y: Point)
    requires p == Left() && OnlyDeep(2, vs, k) && Previous(vs, k) == a && vs[k] == v && Following(vs, k) == b
    requires a == Spot(-0.5, -0.5) && v == Spot(-1.25, 0.25) && b == Spot(-0.25, 1.25)
    requires x == Spot(-1.0, 0.0) && y == Spot(-1.0, 0.5)
    ensures Cutting([p], vs, Cut(vs, k, x, y))
  {
    SidesByDepth(2, p, vs, k);
    Crossings2(p, a, v, b, x, y);
    CutTo(p, vs, k, 0.5, -0.25, 0.75, x, y);
  }

  lemma Pass2(vs: seq<Point>) returns (out: seq<Point>)
    requires Shape2(vs)
    ensures Cutting([Left()], vs, out) && Shape3(out)
  {
    var (x, y) := (Spot(-1.0, 0.0), Spot(-1.0, 0.5));
    Cuts2(Left(), vs, 0, Spot(-0.5, -0.5), Spot(-1.25, 0.25), Spot(-0.25, 1.25), x, y);
    out := Cut(vs, 0, x, y);
  }

  lemma Crossings3(p: Plane, a: Point, v: Point, b: Point, x: Point, y: Point)
    requires p == Right()
    requires a == Spot(0.5, 0.5) && v == Spot(1.5, -1.5) && b == Spot(-0.5, -0.5)
    requires x == Spot(1.0, -0.5) && y == Spot(1.0, -1.25)
    ensures Meets(p, a, v, 0.5, -0.5, x) && Meets(p, b, v, 1.5, -0.5, y)
  {
  }

  lemma Cuts3(p: Plane, vs: seq<Point>, k: nat, a: Point, v: Point, b: Point, x: Point, y: Point)
    requires p == Right() && OnlyDeep(3, vs, k) && Previous(vs, k) == a && vs[k] == v && Following(vs, k) == b
    requires a == Spot(0.5, 0.5) && v == Spot(1.5, -1.5) && b == Spot(-0.5, -0.5)
    requires x == Spot(1.0, -0.5) && y == Spot(1.0, -1.25)
    ensures Cutting([p], vs, Cut(vs, k, x, y))
  {
    SidesByDepth(3, p, vs, k);
    Crossings3(p, a, v, b, x, y);
    CutTo(p, vs, k, 0.5, -0.5, 1.5, x, y);
  }

  lemma Pass3(vs: seq<Point>) returns (out: seq<Point>)
    requires Shape3(vs)
    ensures Cutting([Right()], vs, out) && Shape4(out)
  {
    var (x, y) := (Spot(1.0, -0.5), Spot(1.0, -1.25));
    Cuts3(Right(), vs, 3, Spot(0.5, 0.5), Spot(1.5, -1.5), Spot(-0.5, -0.5), x, y);
    out := Cut(vs, 3, x, y);
  }

  lemma Crossings4(p: Plane, a: Point, v: Point, b: Point, x: Point, y: Point)
    requires p == Top()
    requires a == Spot(-1.0, 0.5) && v == Spot(-0.25, 1.25) && b == Spot(0.5, 0.5)
    requires x == Spot(-0.5, 1.0) && y == Spot(0.0, 1.0)
    ensures Meets(p, a, v, 0.5, -0.25, x) && Meets(p, b, v, 0.5, -0.25, y)
  {
  }

  lemma Cuts4(p: Plane, vs: seq<Point>, k: nat, a: Point, v: Point, b: Point, x: Point, y: Point)
    requires p == Top() && OnlyDeep(4, vs, k) && Previous(vs, k) == a && vs[k] == v && Following(vs, k) == b
    requires a == Spot(-1.0, 0.5) && v == Spot(-0.25, 1.25) && b == Spot(0.5, 0.5)
    requires x == Spot(-0.5, 1.0) && y == Spot(0.0, 1.0)
    ensures Cutting([p], vs, Cut(vs, k, x, y))
  {
    SidesByDepth(4, p, vs, k);
    Crossings4(p, a, v, b, x, y);
    CutTo(p, vs, k, 0.5, -0.25, 0.5, x, y);
  }

  lemma Pass4(vs: seq<Point>) returns (out: seq<Point>)
    requires Shape4(vs)
    ensures Cutting([Top()], vs, out) && Shape5(out)
  {
    var (x, y) := (Spot(-0.5, 1.0), Spot(0.0, 1.0));
    Cuts4(Top(), vs, 1, Spot(-1.0, 0.5), Spot(-0.25, 1.25), Spot(0.5, 0.5), x, y);
    out := Cut(vs, 1, x, y);
  }

  lemma Crossings5(p: Plane, a: Point, v: Point, b: Point, x: Point, y: Point)
    requires p == Bottom()
    requires a == Spot(1.0, -0.5) && v == Spot(1.0, -1.25) && b == Spot(-0.5, -0.5)
    requires x == Spot(1.0, -1.0) && y == Spot(0.5, -1.0)
    ensures Meets(p, a, v, 0.5, -0.25, x) && Meets(p, b, v, 0.5, -0.25, y)
  {
  }

  lemma Cuts5(p: Plane, vs: seq<Point>, k: nat, a: Point, v: Point, b: Point, x: Point, y: Point)
    requires p == Bottom() && OnlyDeep(5, vs, k) && Previous(vs, k) == a && vs[k] == v && Following(vs, k) == b
    requires a == Spot(1.0, -0.5) && v == Spot(1.0, -1.25) && b == Spot(-0.5, -0.5)
    requires x == Spot(1.0, -1.0) && y == Spot(0.5, -1.0)
    ensures Cutting([p], vs, Cut(vs, k, x, y))
  {
    SidesByDepth(5, p, vs, k);
    Crossings5(p, a, v, b, x, y);
    CutTo(p, vs, k, 0.5, -0.25, 0.5, x, y);
  }

  lemma Pass5(vs: seq<Point>) returns (out: seq<Point>)
    requires Shape5(vs)
    ensures Cutting([Bottom()], vs, out) && Shape6(out)
  {
    var (x, y) := (Spot(1.0, -1.0), Spot(0.5, -1.0));
    Cuts5(Bottom(), vs, 5, Spot(1.0, -0.5), Spot(1.0, -1.25), Spot(-0.5, -0.5), x, y);
    out := Cut(vs, 5, x, y);
  }

  // ------------------------------------------------------------- the driver

  /** The user planes that a draw call enables first. */
  function FirstUserBits(n: nat): bv32
    requires n <= 6
  {
    match n
    case 0 => 0x0000
    case 1 => 0x0100
    case 2 => 0x0300
    case 3 => 0x0700
    case 4 => 0x0F00
    case 5 => 0x1F00
    case 6 => 0x3F00
  }

  lemma FirstUserBit(n: nat, k: nat)
    requires n <= 6 && k < 6
    ensures Has(FirstUserBits(n), UserBit(k)) <==> k < n
  {
    match n
    case 0 =>
    case 1 =>
    case 2 =>
    case 3 =>
    case 4 =>
    case 5 =>
    case 6 =>
  }

  /** What the renderer computes for the three vertices. */
  lemma VertexFlags(a: Point, b: Point, c: Point)
    requires a == Spot(-1.5, 0.0) && b == Spot(0.0, 1.5) && c == Spot(1.5, -1.5)
    ensures ComputeClipFlags(a) == 0x8C && ComputeClipFlags(b) == 0xA2 && ComputeClipFlags(c) == 0x91
  {
    assert a.z == 1.25 && b.z == -0.25 && c.z == 0.5;
  }

  lemma FlagsOfFirst(v: Point, rest: seq<Point>, drawFlags: bv32)
    ensures CombinedFlags([v] + rest, drawFlags) == ComputeClipFlags(v) | CombinedFlags(rest, drawFlags)
  {
    assert ([v] + rest)[1..] == rest;
  }

  lemma FlagsOfThree(vs: seq<Point>, drawFlags: bv32)
    requires |vs| == 3
    ensures CombinedFlags(vs, drawFlags) ==
            ComputeClipFlags(vs[0]) | (ComputeClipFlags(vs[1]) | (ComputeClipFlags(vs[2]) | drawFlags))
  {
    var (a, b, c) := (vs[0], vs[1], vs[2]);
    assert vs == [a] + ([b] + ([c] + []));
    FlagsOfFirst(c, [], drawFlags);
    FlagsOfFirst(b, [c] + [], drawFlags);
    FlagsOfFirst(a, [b] + ([c] + []), drawFlags);
  }

  /** The renderer passes a polygon on to the clipper if no plane has all its vertices
      outside and none is infinite. */
  predicate TriangleHandedOn(a: Point, b: Point, c: Point) {
    ComputeClipFlags(a) & ComputeClipFlags(b) & ComputeClipFlags(c) == CLIP_FINITE
  }

  /** All six frustum passes are enabled for the triangle, and it is handed on. */
  lemma SharpFlags(vs: seq<Point>, drawFlags: bv32)
    requires Shape0(vs)
    ensures TriangleHandedOn(vs[0], vs[1], vs[2])
    ensures CombinedFlags(vs, drawFlags) == 0xBF | drawFlags
  {
    VertexFlags(vs[0], vs[1], vs[2]);
    FlagsOfThree(vs, drawFlags);
    assert 0x8C | (0xA2 | (0x91 | drawFlags)) == 0xBF | drawFlags;
  }

  lemma AllFrustumBits(flags: bv32, drawFlags: bv32)
    requires flags == 0xBF | drawFlags
    ensures Has(flags, CLIP_NEAR) && Has(flags, CLIP_FAR) && Has(flags, CLIP_LEFT)
    ensures Has(flags, CLIP_RIGHT) && Has(flags, CLIP_TOP) && Has(flags, CLIP_BOTTOM)
    ensures Has(flags, CLIP_USER) <==> Has(drawFlags, CLIP_USER)
  {
    assert (0xBF | drawFlags) & 0x3F00 == drawFlags & 0x3F00;
  }

  // ------------------------------------------------------- runs in two parts

  lemma {:induction false} RunAppend(s: seq<Stage>, t: seq<Stage>, vs: seq<Point>)
    ensures RunStages(s + t, vs) == RunStages(t, RunStages(s, vs))
    ensures RunCuts(s + t, vs) == RunCuts(s, vs) + RunCuts(t, RunStages(s, vs))
    ensures Enabled(s + t) == Enabled(s) + Enabled(t)
  {
    if s == [] {
      assert s + t == t;
    } else {
      assert (s + t)[1..] == s[1..] + t;
      RunAppend(s[1..], t, if Acts(s[0], vs) then ClipPolygon(s[0].plane, vs) else vs);
    }
  }

  ghost predicate AllOff(stages: seq<Stage>) { forall s | s in stages :: !s.enabled }

  lemma {:induction false} RunOff(stages: seq<Stage>, vs: seq<Point>)
    requires AllOff(stages)
    ensures RunStages(stages, vs) == vs && RunCuts(stages, vs) == 0 && Enabled(stages) == 0
  {
    if stages != [] {
      assert stages[0] in stages;
      RunOff(stages[1..], vs);
    }
  }

  lemma {:induction false} EnabledOn(planes: seq<Plane>)
    ensures Enabled(AllOn(planes)) == |planes|
  {
    if planes != [] {
      assert AllOn(planes)[1..] == AllOn(planes[1..]);
      EnabledOn(planes[1..]);
    }
  }

  function AfterNearPlanes(): seq<Plane> { [Far()] + ([Left()] + ([Right()] + ([Top()] + [Bottom()]))) }

  /** The five frustum passes after the near plane's. */
  lemma FrustumRun(first: seq<Point>) returns (last: seq<Point>)
    requires Shape1(first)
    ensures Cutting(AfterNearPlanes(), first, last) && Shape6(last)
  {
    var s2 := Pass1(first);
    var s3 := Pass2(s2);
    var s4 := Pass3(s3);
    var s5 := Pass4(s4);
    last := Pass5(s5);
    Together([Top()], [Bottom()], s4, s5, last);
    Together([Right()], [Top()] + [Bottom()], s3, s4, last);
    Together([Left()], [Right()] + ([Top()] + [Bottom()]), s2, s3, last);
    Together([Far()], [Left()] + ([Right()] + ([Top()] + [Bottom()])), first, s2, last);
  }

  /** What is left leans on its second vertex. */
  lemma LastLeans(p: Plane, vs: seq<Point>)
    requires p == Plane(4.0, -8.0, 0.0, 9.0) && Shape6(vs)
    ensures Leaning(p, vs, 1)
  {
  }

  function Padded(planes: seq<Plane>): (s: seq<Plane>)
    requires |planes| <= 6
    ensures |s| == 6
  {
    planes + seq(6 - |planes|, j requires 0 <= j < 6 - |planes| => Near())
  }

  /** The first user planes are enabled and the others are not. */
  lemma UserStagesOff(planes: seq<Plane>) returns (off: seq<Stage>)
    requires |planes| <= 6
    ensures AllOff(off)
    ensures UserStages(true, FirstUserBits(|planes|), Padded(planes)) == AllOn(planes) + off
  {
    var user := UserStages(true, FirstUserBits(|planes|), Padded(planes));
    off := user[|planes|..];
    forall k | 0 <= k < 6 ensures user[k].enabled <==> k < |planes| {
      FirstUserBit(|planes|, k);
    }
  }

  /** The stages of the driver: the frustum's, the enabled user planes', and others. */
  lemma SharpStages(flags: bv32, drawFlags: bv32, planes: seq<Plane>) returns (off: seq<Stage>)
    requires 0 < |planes| <= 6 && drawFlags == FirstUserBits(|planes|) && flags == 0xBF | drawFlags
    ensures AllOff(off)
    ensures Stages(flags, drawFlags, Padded(planes)) == AllOn(AfterNearPlanes()) + (AllOn(planes) + off)
  {
    AllFrustumBits(flags, drawFlags);
    FirstUserBit(|planes|, 0);
    UserBits(drawFlags, 0);
    off := UserStagesOff(planes);
    assert FrustumStages(flags) == AllOn(AfterNearPlanes());
  }

  /** The driver as its near pass, the frustum's, and the user planes'. */
  lemma DriverOf(vs: seq<Point>, next: seq<Point>, last: seq<Point>, frustum: seq<Plane>, planes: seq<Plane>,
                 off: seq<Stage>, flags: bv32, drawFlags: bv32, user: seq<Plane>)
    requires |vs| >= 3 && |user| == 6 && Has(flags, CLIP_NEAR) && AllOff(off) && |frustum| == 5
    requires Stages(flags, drawFlags, user) == AllOn(frustum) + (AllOn(planes) + off)
    requires Cutting([Near()], vs, next) && Cutting(frustum, next, last)
    requires RunCuts(AllOn(planes), last) == 2 * |planes|
    ensures Passes(flags, drawFlags, user) == 6 + |planes|
    ensures ClippedCuts(vs, flags, drawFlags, user) == 12 + 2 * |planes|
  {
    CuttingOne(Near(), vs, next);
    CuttingAll(frustum, next, last);
    RunAppend(AllOn(frustum), AllOn(planes) + off, next);
    RunAppend(AllOn(planes), off, last);
    RunOff(off, RunStages(AllOn(planes), last));
    EnabledOn(frustum);
    EnabledOn(planes);
  }

  lemma CuttingAll(planes: seq<Plane>, vs: seq<Point>, out: seq<Point>)
    requires Cutting(planes, vs, out)
    ensures RunStages(AllOn(planes), vs) == out && RunCuts(AllOn(planes), vs) == 2 * |planes|
  {
    assert planes + [] == planes;
    assert RunStages(AllOn(planes + []), vs) == RunStages(AllOn([]), out);
  }

  lemma CuttingOne(p: Plane, vs: seq<Point>, out: seq<Point>)
    requires |vs| >= 3 && Cutting([p], vs, out)
    ensures ClipPolygon(p, vs) == out && Cuts(p, Closed(vs)) == 2
  {
    CuttingAll([p], vs, out);
    assert [p] + [] == [p];
    FirstOn(p, [], vs);
  }

  /** The triangle, what the near plane leaves of it, and what the frustum does. */
  lemma SharpTriangle(drawFlags: bv32) returns (vs: seq<Point>, next: seq<Point>, last: seq<Point>)
    ensures |vs| == 3 && TriangleHandedOn(vs[0], vs[1], vs[2]) && CombinedFlags(vs, drawFlags) == 0xBF | drawFlags
    ensures Cutting([Near()], vs, next) && Cutting(AfterNearPlanes(), next, last)
    ensures Leaning(Plane(4.0, -8.0, 0.0, 9.0), last, 1)
  {
    vs := [Spot(-1.5, 0.0), Spot(0.0, 1.5), Spot(1.5, -1.5)];
    SharpFlags(vs, drawFlags);
    next := Pass0(vs);
    last := FrustumRun(next);
    LastLeans(Plane(4.0, -8.0, 0.0, 9.0), last);
  }

  /** The renderer hands the triangle on, and with the first `n` user planes and all the
      frustum's the driver creates two points a pass. */
  ghost predicate TwoEach(n: nat, vs: seq<Point>, planes: seq<Plane>) {
    && n <= 6 && |vs| == 3 && TriangleHandedOn(vs[0], vs[1], vs[2]) && |planes| == 6
    && var (drawFlags, flags) := (FirstUserBits(n), CombinedFlags(vs, FirstUserBits(n)));
       Passes(flags, drawFlags, planes) == 6 + n && ClippedCuts(vs, flags, drawFlags, planes) == 12 + 2 * n
  }

  /** There is such a triangle, with such planes, for any number of them. */
  lemma DriverIsSharp(n: nat)
    requires 0 < n <= 6
    ensures exists vs, planes :: TwoEach(n, vs, planes)
  {
    var drawFlags := FirstUserBits(n);
    var vs, next, last := SharpTriangle(drawFlags);
    var flags := CombinedFlags(vs, drawFlags);
    AllFrustumBits(flags, drawFlags);
    var user := CutCorners(Plane(4.0, -8.0, 0.0, 9.0), last, 1, n);
    var off := SharpStages(flags, drawFlags, user);
    DriverOf(vs, next, last, AfterNearPlanes(), user, off, flags, drawFlags, Padded(user));
    assert TwoEach(n, vs, Padded(user));
  }
}
