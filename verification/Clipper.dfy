/** The clipper as a function: the run of up to twelve passes, the flags that
    select them, and what a polygon that survives them satisfies. */
module Clipper {
  import opened ClipGeometry
  import opened ClipPass

  const CLIP_RIGHT: bv32 := 0x0001
  const CLIP_TOP: bv32 := 0x0002
  const CLIP_FAR: bv32 := 0x0004
  const CLIP_LEFT: bv32 := 0x0008
  const CLIP_BOTTOM: bv32 := 0x0010
  const CLIP_NEAR: bv32 := 0x0020
  const CLIP_FINITE: bv32 := 0x0080
  const CLIP_FRUSTUM: bv32 := 0x003F
  const CLIP_USER: bv32 := 0x3F00

  predicate Has(flags: bv32, bits: bv32) { flags & bits != 0 }

  function UserBit(k: nat): bv32
    requires k < 6
  {
    match k
    case 0 => 0x0100
    case 1 => 0x0200
    case 2 => 0x0400
    case 3 => 0x0800
    case 4 => 0x1000
    case 5 => 0x2000
  }

  function Near(): Plane { Plane(0.0, 0.0, 1.0, 0.0) }
  function Far(): Plane { Plane(0.0, 0.0, -1.0, 1.0) }
  function Left(): Plane { Plane(1.0, 0.0, 0.0, 1.0) }
  function Right(): Plane { Plane(-1.0, 0.0, 0.0, 1.0) }
  function Top(): Plane { Plane(0.0, -1.0, 0.0, 1.0) }
  function Bottom(): Plane { Plane(0.0, 1.0, 0.0, 1.0) }

  // ------------------------------------------------------- the run of passes

  datatype Stage = Stage(enabled: bool, plane: Plane)

  /** A stage acts only while the polygon still has an area. */
  function RunStages(stages: seq<Stage>, vs: seq<Point>): seq<Point> {
    if stages == [] then vs
    else RunStages(stages[1..],
                   if stages[0].enabled && |vs| >= 3 then ClipPolygon(stages[0].plane, vs) else vs)
  }

  function Enabled(stages: seq<Stage>): nat {
    if stages == [] then 0 else (if stages[0].enabled then 1 else 0) + Enabled(stages[1..])
  }

  lemma {:induction false} RunSound(stages: seq<Stage>, vs: seq<Point>, q: Plane)
    ensures AllInside(q, vs) ==> AllInside(q, RunStages(stages, vs))
    ensures |RunStages(stages, vs)| >= 3 && Stage(true, q) in stages ==> AllInside(q, RunStages(stages, vs))
  {
    if stages != [] {
      var s := stages[0];
      if s.enabled && |vs| >= 3 {
        PassIsSound(s.plane, vs);
        if AllInside(q, vs) {
          PassKeepsInside(s.plane, q, vs);
        }
        RunSound(stages[1..], ClipPolygon(s.plane, vs), q);
      } else {
        RunSound(stages[1..], vs, q);
        if |vs| < 3 {
          RunShort(stages[1..], vs);
        }
      }
    }
  }

  lemma {:induction false} RunShort(stages: seq<Stage>, vs: seq<Point>)
    requires |vs| < 3
    ensures RunStages(stages, vs) == vs
  {
    if stages != [] {
      RunShort(stages[1..], vs);
    }
  }

  // -------------------------------------------------------- what a run needs

  predicate Acts(s: Stage, vs: seq<Point>) { s.enabled && |vs| >= 3 }

  /** How many passes a run makes, */
  function RunPasses(stages: seq<Stage>, vs: seq<Point>): nat {
    if stages == [] then 0
    else if Acts(stages[0], vs) then 1 + RunPasses(stages[1..], ClipPolygon(stages[0].plane, vs))
    else RunPasses(stages[1..], vs)
  }

  /** how many points it creates, */
  function RunCuts(stages: seq<Stage>, vs: seq<Point>): nat {
    if stages == [] then 0
    else if Acts(stages[0], vs) then
      Cuts(stages[0].plane, Closed(vs)) + RunCuts(stages[1..], ClipPolygon(stages[0].plane, vs))
    else RunCuts(stages[1..], vs)
  }

  function Larger(a: nat, b: nat): nat { if a < b then b else a }

  /** and how many vertices its largest polygon has. */
  function RunWidth(stages: seq<Stage>, vs: seq<Point>): nat {
    if stages == [] then |vs|
    else if Acts(stages[0], vs) then Larger(|vs|, RunWidth(stages[1..], ClipPolygon(stages[0].plane, vs)))
    else RunWidth(stages[1..], vs)
  }

  /** The stores of a pass, edge by edge: each new point goes to position `b` of a
      buffer of `room` points. */
  predicate PassStays(p: Plane, chain: seq<Point>, b: nat, room: nat) {
    |chain| >= 2 ==>
      && (EdgeCuts(p, chain[0], chain[1]) > 0 ==> b < room)
      && PassStays(p, chain[1..], b + EdgeCuts(p, chain[0], chain[1]), room)
  }

  predicate RunStays(stages: seq<Stage>, vs: seq<Point>, b: nat, room: nat) {
    stages != [] ==>
      if Acts(stages[0], vs) then
        && PassStays(stages[0].plane, Closed(vs), b, room)
        && RunStays(stages[1..], ClipPolygon(stages[0].plane, vs), b + Cuts(stages[0].plane, Closed(vs)), room)
      else RunStays(stages[1..], vs, b, room)
  }

  lemma {:induction false} PassStaysIff(p: Plane, chain: seq<Point>, b: nat, room: nat)
    requires b <= room
    ensures PassStays(p, chain, b, room) <==> b + Cuts(p, chain) <= room
  {
    if |chain| >= 2 {
      var cut := EdgeCuts(p, chain[0], chain[1]);
      assert cut <= 1;
      if b + cut <= room {
        PassStaysIff(p, chain[1..], b + cut, room);
      }
    }
  }

  /** Every store of a run stays inside the buffer if and only if the points the run
      creates fit into it. */
  lemma {:induction false} RunStaysIff(stages: seq<Stage>, vs: seq<Point>, b: nat, room: nat)
    requires b <= room
    ensures RunStays(stages, vs, b, room) <==> b + RunCuts(stages, vs) <= room
  {
    if stages != [] {
      if Acts(stages[0], vs) {
        var cuts := Cuts(stages[0].plane, Closed(vs));
        PassStaysIff(stages[0].plane, Closed(vs), b, room);
        if b + cuts <= room {
          RunStaysIff(stages[1..], ClipPolygon(stages[0].plane, vs), b + cuts, room);
        }
      } else {
        RunStaysIff(stages[1..], vs, b, room);
      }
    }
  }

  /** A polygon that crosses every plane at most 2m times keeps that, creates at most
      2m points a pass, and grows by at most m. */
  lemma {:induction false} RunGrowth(stages: seq<Stage>, vs: seq<Point>, m: nat)
    requires Bends(vs, m)
    ensures Bends(RunStages(stages, vs), m) && RunPasses(stages, vs) <= Enabled(stages)
    ensures RunCuts(stages, vs) <= 2 * m * RunPasses(stages, vs)
    ensures |RunStages(stages, vs)| <= RunWidth(stages, vs) <= |vs| + m * RunPasses(stages, vs)
  {
    if stages != [] {
      if Acts(stages[0], vs) {
        var next := ClipPolygon(stages[0].plane, vs);
        PassKeepsBends(stages[0].plane, vs, m);
        PassGrowth(stages[0].plane, vs);
        assert Flips(stages[0].plane, Closed(vs)) <= 2 * m;
        RunGrowth(stages[1..], next, m);
        OneMorePass(m, RunPasses(stages[1..], next));
      } else {
        RunGrowth(stages[1..], vs, m);
      }
    }
  }

  lemma OneMorePass(m: nat, k: nat)
    ensures m * (1 + k) == m + m * k && 2 * m * (1 + k) == 2 * m + 2 * m * k
  {
  }

  /** A boundary point inside every enabled plane stays on the boundary. */
  lemma {:induction false} RunKeepsBoundary(stages: seq<Stage>, vs: seq<Point>, x: Point)
    requires OnCycle(x, vs)
    requires forall s | s in stages && s.enabled :: Inside(s.plane, x)
    ensures OnCycle(x, RunStages(stages, vs))
  {
    if stages != [] {
      var s := stages[0];
      assert s in stages;
      if s.enabled && |vs| >= 3 {
        BoundaryKept(s.plane, vs, x);
        RunKeepsBoundary(stages[1..], ClipPolygon(s.plane, vs), x);
      } else {
        RunKeepsBoundary(stages[1..], vs, x);
      }
    }
  }

  // --------------------------------------------------------- flags to stages

  function FrustumStages(flags: bv32): seq<Stage> {
    [ Stage(Has(flags, CLIP_FAR), Far()), Stage(Has(flags, CLIP_LEFT), Left()),
      Stage(Has(flags, CLIP_RIGHT), Right()), Stage(Has(flags, CLIP_TOP), Top()),
      Stage(Has(flags, CLIP_BOTTOM), Bottom()) ]
  }

  function UserStages(any: bool, drawFlags: bv32, planes: seq<Plane>): seq<Stage>
    requires |planes| == 6
  {
    seq(6, k requires 0 <= k < 6 => Stage(any && Has(drawFlags, UserBit(k)), planes[k]))
  }

  /** Every stage but the near plane's, in the order they run.  The frustum
      planes follow the combined flags, the user planes the draw call's, and
      those only if the combined flags name a user plane at all. */
  function Stages(flags: bv32, drawFlags: bv32, planes: seq<Plane>): seq<Stage>
    requires |planes| == 6
  {
    FrustumStages(flags) + UserStages(Has(flags, CLIP_USER), drawFlags, planes)
  }

  /** The near pass runs first and whatever the vertex count. */
  function AfterNear(flags: bv32, vs: seq<Point>): seq<Point> {
    if Has(flags, CLIP_NEAR) then ClipPolygon(Near(), vs) else vs
  }

  function Clipped(vs: seq<Point>, flags: bv32, drawFlags: bv32, planes: seq<Plane>): seq<Point>
    requires |planes| == 6
  {
    RunStages(Stages(flags, drawFlags, planes), AfterNear(flags, vs))
  }

  /** How many passes the flags enable. */
  function Passes(flags: bv32, drawFlags: bv32, planes: seq<Plane>): nat
    requires |planes| == 6
  {
    (if Has(flags, CLIP_NEAR) then 1 else 0) + Enabled(Stages(flags, drawFlags, planes))
  }

  /** What clipping needs: rows, points and columns. */
  function ClippedPasses(vs: seq<Point>, flags: bv32, drawFlags: bv32, planes: seq<Plane>): nat
    requires |planes| == 6
  {
    (if Has(flags, CLIP_NEAR) then 1 else 0) + RunPasses(Stages(flags, drawFlags, planes), AfterNear(flags, vs))
  }

  function NearCuts(flags: bv32, vs: seq<Point>): nat {
    if Has(flags, CLIP_NEAR) then Cuts(Near(), Closed(vs)) else 0
  }

  function ClippedCuts(vs: seq<Point>, flags: bv32, drawFlags: bv32, planes: seq<Plane>): nat
    requires |planes| == 6
  {
    NearCuts(flags, vs) + RunCuts(Stages(flags, drawFlags, planes), AfterNear(flags, vs))
  }

  function ClippedWidth(vs: seq<Point>, flags: bv32, drawFlags: bv32, planes: seq<Plane>): nat
    requires |planes| == 6
  {
    Larger(|vs|, RunWidth(Stages(flags, drawFlags, planes), AfterNear(flags, vs)))
  }

  /** Every store of the driver, from an empty buffer. */
  predicate ClippedStays(vs: seq<Point>, flags: bv32, drawFlags: bv32, planes: seq<Plane>, room: nat)
    requires |planes| == 6
  {
    && (Has(flags, CLIP_NEAR) ==> PassStays(Near(), Closed(vs), 0, room))
    && RunStays(Stages(flags, drawFlags, planes), AfterNear(flags, vs), NearCuts(flags, vs), room)
  }

  /** The exact condition for the point buffer, for every polygon and all planes. */
  lemma ClippedStaysIff(vs: seq<Point>, flags: bv32, drawFlags: bv32, planes: seq<Plane>, room: nat)
    requires |planes| == 6
    ensures ClippedStays(vs, flags, drawFlags, planes, room)
            <==> ClippedCuts(vs, flags, drawFlags, planes) <= room
  {
    PassStaysIff(Near(), Closed(vs), 0, room);
    if NearCuts(flags, vs) <= room {
      RunStaysIff(Stages(flags, drawFlags, planes), AfterNear(flags, vs), NearCuts(flags, vs), room);
    }
  }

  /** k enabled passes over a polygon that crosses every plane at most 2m times
      create at most 2mk points and leave at most mk more vertices. */
  lemma ClippedGrowth(vs: seq<Point>, flags: bv32, drawFlags: bv32, planes: seq<Plane>, m: nat)
    requires |planes| == 6 && Bends(vs, m)
    ensures Bends(Clipped(vs, flags, drawFlags, planes), m)
    ensures ClippedPasses(vs, flags, drawFlags, planes) <= Passes(flags, drawFlags, planes)
    ensures ClippedCuts(vs, flags, drawFlags, planes) <= 2 * m * ClippedPasses(vs, flags, drawFlags, planes)
    ensures |Clipped(vs, flags, drawFlags, planes)| <= ClippedWidth(vs, flags, drawFlags, planes)
            <= |vs| + m * ClippedPasses(vs, flags, drawFlags, planes)
  {
    var (stages, near) := (Stages(flags, drawFlags, planes), AfterNear(flags, vs));
    NearGrowth(flags, vs, m);
    RunGrowth(stages, near, m);
    SumOfNeeds(m, if Has(flags, CLIP_NEAR) then 1 else 0, RunPasses(stages, near));
  }

  lemma NearGrowth(flags: bv32, vs: seq<Point>, m: nat)
    requires Bends(vs, m)
    ensures Bends(AfterNear(flags, vs), m)
    ensures Has(flags, CLIP_NEAR) ==> NearCuts(flags, vs) <= 2 * m && |AfterNear(flags, vs)| <= |vs| + m
  {
    PassKeepsBends(Near(), vs, m);
    PassGrowth(Near(), vs);
    assert Flips(Near(), Closed(vs)) <= 2 * m;
  }

  lemma SumOfNeeds(m: nat, first: nat, k: nat)
    requires first <= 1
    ensures m * (first + k) == m * first + m * k && 2 * m * (first + k) == 2 * m * first + 2 * m * k
    ensures m * first == if first == 1 then m else 0
    ensures 2 * m * first == if first == 1 then 2 * m else 0
  {
  }

  /** The flags a vertex earns: one bit for each frustum plane it is outside of. */
  function ComputeClipFlags(v: Point): bv32 {
    (if v.x > v.w then CLIP_RIGHT else 0) |
    (if v.y > v.w then CLIP_TOP else 0) |
    (if v.z > v.w then CLIP_FAR else 0) |
    (if v.x < -v.w then CLIP_LEFT else 0) |
    (if v.y < -v.w then CLIP_BOTTOM else 0) |
    (if v.z < 0.0 then CLIP_NEAR else 0) |
    CLIP_FINITE
  }

  function CombinedFlags(vs: seq<Point>, drawFlags: bv32): bv32 {
    if vs == [] then drawFlags else ComputeClipFlags(vs[0]) | CombinedFlags(vs[1..], drawFlags)
  }

  lemma HasOr(a: bv32, b: bv32, bits: bv32)
    ensures Has(a | b, bits) <==> Has(a, bits) || Has(b, bits)
  {
    assert (a | b) & bits == (a & bits) | (b & bits);
  }

  /** The frustum planes with their flag bits. */
  predicate FrustumPlane(bit: bv32, p: Plane) {
    || (bit == CLIP_NEAR && p == Near())
    || (bit == CLIP_FAR && p == Far())
    || (bit == CLIP_LEFT && p == Left())
    || (bit == CLIP_RIGHT && p == Right())
    || (bit == CLIP_TOP && p == Top())
    || (bit == CLIP_BOTTOM && p == Bottom())
  }

  lemma FlagBit(x: bool, y: bool, z: bool, l: bool, b: bool, n: bool)
    ensures var f: bv32 :=
              (if x then 0x01 else 0) | (if y then 0x02 else 0) | (if z then 0x04 else 0) |
              (if l then 0x08 else 0) | (if b then 0x10 else 0) | (if n then 0x20 else 0) | 0x80;
            && Has(f, 0x01) == x && Has(f, 0x02) == y && Has(f, 0x04) == z
            && Has(f, 0x08) == l && Has(f, 0x10) == b && Has(f, 0x20) == n
  {
  }

  lemma VertexFlag(v: Point, bit: bv32, p: Plane)
    requires FrustumPlane(bit, p)
    ensures Has(ComputeClipFlags(v), bit) <==> !Inside(p, v)
  {
    FlagBit(v.x > v.w, v.y > v.w, v.z > v.w, v.x < -v.w, v.y < -v.w, v.z < 0.0);
  }

  /** A clear bit in the combined flags means every vertex is inside that plane. */
  lemma {:induction false} ClearBitMeansInside(vs: seq<Point>, drawFlags: bv32, bit: bv32, p: Plane)
    requires FrustumPlane(bit, p) && !Has(CombinedFlags(vs, drawFlags), bit)
    ensures AllInside(p, vs)
  {
    if vs != [] {
      HasOr(ComputeClipFlags(vs[0]), CombinedFlags(vs[1..], drawFlags), bit);
      VertexFlag(vs[0], bit, p);
      ClearBitMeansInside(vs[1..], drawFlags, bit, p);
    }
  }

  lemma {:induction false} DrawFlagsCombined(vs: seq<Point>, drawFlags: bv32, bits: bv32)
    requires Has(drawFlags, bits)
    ensures Has(CombinedFlags(vs, drawFlags), bits)
  {
    if vs != [] {
      HasOr(ComputeClipFlags(vs[0]), CombinedFlags(vs[1..], drawFlags), bits);
      DrawFlagsCombined(vs[1..], drawFlags, bits);
    }
  }

  predicate InFrustum(v: Point) {
    0.0 <= v.z <= v.w && -v.w <= v.x <= v.w && -v.w <= v.y <= v.w
  }

  /** The flags may come from more vertices than the polygon has: a line is clipped
      as six of the eight points its flags are computed from. */
  ghost predicate Covers(all: seq<Point>, vs: seq<Point>) { forall v | v in vs :: v in all }

  lemma FrustumSide(all: seq<Point>, vs: seq<Point>, drawFlags: bv32, planes: seq<Plane>, bit: bv32, p: Plane)
    requires |planes| == 6 && FrustumPlane(bit, p) && Covers(all, vs)
    requires |Clipped(vs, CombinedFlags(all, drawFlags), drawFlags, planes)| >= 3
    ensures AllInside(p, Clipped(vs, CombinedFlags(all, drawFlags), drawFlags, planes))
  {
    var flags := CombinedFlags(all, drawFlags);
    var stages := Stages(flags, drawFlags, planes);
    if !Has(flags, bit) {
      ClearBitMeansInside(all, drawFlags, bit, p);
      assert AllInside(p, vs);
      PassKeepsInside(Near(), p, vs);
    } else if p == Near() {
      PassIsSound(Near(), vs);
    } else {
      assert stages[0].plane == Far() && stages[1].plane == Left() && stages[2].plane == Right();
      assert stages[3].plane == Top() && stages[4].plane == Bottom();
      assert Stage(true, p) in stages;
    }
    RunSound(stages, AfterNear(flags, vs), p);
  }

  lemma UserSide(all: seq<Point>, vs: seq<Point>, drawFlags: bv32, planes: seq<Plane>, k: nat)
    requires |planes| == 6 && k < 6 && Has(drawFlags, UserBit(k))
    requires |Clipped(vs, CombinedFlags(all, drawFlags), drawFlags, planes)| >= 3
    ensures AllInside(planes[k], Clipped(vs, CombinedFlags(all, drawFlags), drawFlags, planes))
  {
    var flags := CombinedFlags(all, drawFlags);
    var stages := Stages(flags, drawFlags, planes);
    UserBits(drawFlags, k);
    DrawFlagsCombined(all, drawFlags, CLIP_USER);
    assert stages[5 + k] == Stage(true, planes[k]);
    RunSound(stages, AfterNear(flags, vs), planes[k]);
  }

  lemma UserBits(drawFlags: bv32, k: nat)
    requires k < 6 && Has(drawFlags, UserBit(k))
    ensures Has(drawFlags, CLIP_USER)
  {
    assert UserBit(k) & CLIP_USER == UserBit(k);
    assert drawFlags & CLIP_USER == 0 ==> drawFlags & UserBit(k) == 0;
  }

  /** With the flags the renderer computes, a polygon that survives clipping is
      in the view frustum and inside every user plane the draw call enables. */
  lemma ClippedIsInView(all: seq<Point>, vs: seq<Point>, drawFlags: bv32, planes: seq<Plane>, v: Point)
    requires |planes| == 6 && Covers(all, vs)
    requires |Clipped(vs, CombinedFlags(all, drawFlags), drawFlags, planes)| >= 3
    requires v in Clipped(vs, CombinedFlags(all, drawFlags), drawFlags, planes)
    ensures InFrustum(v)
    ensures forall k: nat | k < 6 && Has(drawFlags, UserBit(k)) :: Inside(planes[k], v)
  {
    FrustumSide(all, vs, drawFlags, planes, CLIP_NEAR, Near());
    FrustumSide(all, vs, drawFlags, planes, CLIP_FAR, Far());
    FrustumSide(all, vs, drawFlags, planes, CLIP_LEFT, Left());
    FrustumSide(all, vs, drawFlags, planes, CLIP_RIGHT, Right());
    FrustumSide(all, vs, drawFlags, planes, CLIP_TOP, Top());
    FrustumSide(all, vs, drawFlags, planes, CLIP_BOTTOM, Bottom());
    forall k: nat | k < 6 && Has(drawFlags, UserBit(k)) ensures Inside(planes[k], v) {
      UserSide(all, vs, drawFlags, planes, k);
    }
  }

  /** A point in view is inside the plane of every enabled stage. */
  lemma InViewInside(flags: bv32, drawFlags: bv32, planes: seq<Plane>, x: Point, j: nat)
    requires |planes| == 6 && InFrustum(x) && j < 11
    requires forall k: nat | k < 6 && Has(drawFlags, UserBit(k)) :: Inside(planes[k], x)
    requires Stages(flags, drawFlags, planes)[j].enabled
    ensures Inside(Stages(flags, drawFlags, planes)[j].plane, x)
  {
    if j >= 5 {
      assert Has(drawFlags, UserBit(j - 5));
    } else {
      assert Stages(flags, drawFlags, planes)[j] == FrustumStages(flags)[j];
    }
  }

  /** And no visible part of the boundary is lost, whatever the flags. */
  lemma VisibleBoundaryKept(vs: seq<Point>, flags: bv32, drawFlags: bv32, planes: seq<Plane>, x: Point)
    requires |planes| == 6 && OnCycle(x, vs) && InFrustum(x)
    requires forall k: nat | k < 6 && Has(drawFlags, UserBit(k)) :: Inside(planes[k], x)
    ensures OnCycle(x, Clipped(vs, flags, drawFlags, planes))
  {
    var stages := Stages(flags, drawFlags, planes);
    BoundaryKept(Near(), vs, x);
    forall s | s in stages && s.enabled ensures Inside(s.plane, x) {
      var j :| 0 <= j < |stages| && stages[j] == s;
      InViewInside(flags, drawFlags, planes, x, j);
    }
    RunKeepsBoundary(stages, AfterNear(flags, vs), x);
  }
}
