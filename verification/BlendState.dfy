/** The simplification of the blend state: the operation that is executed may be
    cheaper than the one that was requested, and must write the same pixels. */
module BlendState {

  datatype Factor =
    | Zero | One
    | Source | InvSource | Dest | InvDest
    | SourceAlpha | InvSourceAlpha | DestAlpha | InvDestAlpha | SrcAlphaSat
    | Constant | InvConstant | ConstantAlpha | InvConstantAlpha

  datatype Operation = Add | Sub | InvSub | Min | Max | CopySource | CopyDest | Null

  /** Operations that can be requested; the others only come out of simplification. */
  predicate Requestable(op: Operation) {
    op.Add? || op.Sub? || op.InvSub? || op.Min? || op.Max?
  }

  lemma RequestableIff(op: Operation)
    ensures Requestable(op) <==> op != CopySource && op != CopyDest && op != Null
  {
  }

  // ------------------------------------------------------------- arithmetic

  predicate Unit(x: real) { 0.0 <= x <= 1.0 }

  function Clamp(x: real): (r: real)
    ensures Unit(r) && (Unit(x) ==> r == x)
  {
    if x < 0.0 then 0.0 else if x > 1.0 then 1.0 else x
  }

  function Mul(a: real, b: real): real { a * b }

  lemma MulUnit(a: real, b: real)
    requires Unit(a) && Unit(b)
    ensures Unit(Mul(a, b))
  {
    assert 0.0 <= a * b <= 1.0 * b;
  }

  lemma MulEnds(a: real)
    ensures Mul(a, 0.0) == 0.0 && Mul(a, 1.0) == a
  {
  }

  /** What a request means: the operation on both sides times their factors, with
      the result clamped; minimum and maximum take no factors. */
  function Requested(op: Operation, s: real, d: real, fs: real, fd: real): real {
    match op
    case Add => Clamp(Mul(s, fs) + Mul(d, fd))
    case Sub => Clamp(Mul(s, fs) - Mul(d, fd))
    case InvSub => Clamp(Mul(d, fd) - Mul(s, fs))
    case Min => if s < d then s else d
    case Max => if s < d then d else s
    case CopySource => Mul(s, fs)
    case CopyDest => Mul(d, fd)
    case Null => 0.0
  }

  function Applied(op: Operation, s: real, d: real): real {
    match op
    case Add => Clamp(s + d)
    case Sub => Clamp(s - d)
    case InvSub => Clamp(d - s)
    case Min => if s < d then s else d
    case Max => if s < d then d else s
    case CopySource => s
    case CopyDest => d
    case Null => 0.0
  }

  /** How one channel is executed: the factors zero and one are not multiplied in. */
  function Executed(op: Operation, source: Factor, dest: Factor, s: real, d: real, fs: real, fd: real): real {
    Applied(op, Scaled(source, s, fs), Scaled(dest, d, fd))
  }

  /** No code is generated to multiply by one, nor by zero. */
  function Scaled(f: Factor, x: real, value: real): real { if f != One && f != Zero then Mul(x, value) else x }

  // ---------------------------------------------------------- simplification

  function Effective(op: Operation, f: Factor): Factor {
    match op
    case Min => One
    case Max => One
    case _ => f
  }

  function Simplified(op: Operation, source: Factor, dest: Factor): Operation {
    match op
    case Add =>
      if source == Zero then if dest == Zero then Null else CopyDest
      else if dest == Zero then CopySource
      else Add
    case Sub =>
      if source == Zero then Null   // negative, clamped to zero
      else if dest == Zero then CopySource
      else Sub
    case InvSub =>
      if source == Zero then if dest == Zero then Null else CopyDest
      else if dest == Zero then Null   // negative, clamped to zero
      else InvSub
    case _ => op
  }

  /** A factor's value agrees with its name where the name fixes it. */
  predicate Stands(f: Factor, v: real) {
    Unit(v) && (f == Zero ==> v == 0.0) && (f == One ==> v == 1.0)
  }

  /** One channel: executing the simplified request means the request. */
  lemma ChannelMeaning(op: Operation, source: Factor, dest: Factor, s: real, d: real, fs: real, fd: real)
    requires Requestable(op) && Unit(s) && Unit(d) && Stands(source, fs) && Stands(dest, fd)
    ensures var (sf, df) := (Effective(op, source), Effective(op, dest));
            Executed(Simplified(op, sf, df), sf, df, s, d, fs, fd) == Requested(op, s, d, fs, fd)
  {
    MulUnit(s, fs);
    MulUnit(d, fd);
    MulEnds(s);
    MulEnds(d);
  }

  // ------------------------------------------------------------------ pixels

  datatype Color = Color(r: real, g: real, b: real, a: real)

  predicate UnitColor(c: Color) {
    Unit(c.r) && Unit(c.g) && Unit(c.b) && Unit(c.a)
  }

  /** The value of a factor for one colour channel: the channel itself and the
      alpha of both sides and of the constant. */
  function FactorValue(f: Factor, s: real, d: real, c: real, sa: real, da: real, ca: real): real {
    match f
    case Zero => 0.0
    case One => 1.0
    case Source => s
    case InvSource => 1.0 - s
    case Dest => d
    case InvDest => 1.0 - d
    case SourceAlpha => sa
    case InvSourceAlpha => 1.0 - sa
    case DestAlpha => da
    case InvDestAlpha => 1.0 - da
    case SrcAlphaSat => if 1.0 - da < sa then 1.0 - da else sa
    case Constant => c
    case InvConstant => 1.0 - c
    case ConstantAlpha => ca
    case InvConstantAlpha => 1.0 - ca
  }

  /** For the alpha channel the saturated factor is one. */
  function FactorValueAlpha(f: Factor, sa: real, da: real, ca: real): real {
    if f == SrcAlphaSat then 1.0 else FactorValue(f, sa, da, ca, sa, da, ca)
  }

  lemma FactorStands(f: Factor, s: real, d: real, c: real, sa: real, da: real, ca: real)
    requires Unit(s) && Unit(d) && Unit(c) && Unit(sa) && Unit(da) && Unit(ca)
    ensures Stands(f, FactorValue(f, s, d, c, sa, da, ca))
    ensures Stands(f, FactorValueAlpha(f, sa, da, ca))
  {
  }

  /** A render target: which channels the application enabled; None stands for no
      target or one without storage. */
  datatype Target = NoTarget | Target(r: bool, g: bool, b: bool, a: bool)

  datatype Context = Context(
    alphaBlendEnable: bool,
    sourceState: Factor, destState: Factor, operationState: Operation,
    separateAlphaBlendEnable: bool,
    sourceStateAlpha: Factor, destStateAlpha: Factor, operationStateAlpha: Operation,
    targets: seq<Target>,
    alphaTestActive: bool, shaderKills: bool)
  {
    predicate Valid() {
      Requestable(operationState) && Requestable(operationStateAlpha) && |targets| == 4
    }

    function SourceBlendFactor(): Factor {
      if !alphaBlendEnable then One else Effective(operationState, sourceState)
    }

    function DestBlendFactor(): Factor {
      if !alphaBlendEnable then Zero else Effective(operationState, destState)
    }

    function BlendOperation(): Operation {
      if !alphaBlendEnable then CopySource
      else Simplified(operationState, SourceBlendFactor(), DestBlendFactor())
    }

    function SourceBlendFactorAlpha(): Factor {
      if !separateAlphaBlendEnable then SourceBlendFactor() else Effective(operationStateAlpha, sourceStateAlpha)
    }

    function DestBlendFactorAlpha(): Factor {
      if !separateAlphaBlendEnable then DestBlendFactor() else Effective(operationStateAlpha, destStateAlpha)
    }

    function BlendOperationAlpha(): Operation {
      if !separateAlphaBlendEnable then BlendOperation()
      else Simplified(operationStateAlpha, SourceBlendFactorAlpha(), DestBlendFactorAlpha())
    }

    /** The channels that are written: none if blending would leave the target as
        it is. */
    function ColorWriteActive(index: nat): Target
      requires index < |targets|
    {
      if targets[index].NoTarget? then NoTarget
      else if BlendOperation() == CopyDest && DestBlendFactor() == One &&
              (!separateAlphaBlendEnable || (BlendOperationAlpha() == CopyDest && DestBlendFactorAlpha() == One))
      then NoTarget
      else targets[index]
    }

    predicate Writes(index: nat)
      requires index < |targets|
    {
      var t := ColorWriteActive(index);
      t.Target? && (t.r || t.g || t.b || t.a)
    }

    predicate ColorUsed()
      requires |targets| == 4
    {
      Writes(0) || Writes(1) || Writes(2) || Writes(3) || alphaTestActive || shaderKills
    }

    predicate AlphaBlendActive()
      requires |targets| == 4
    {
      alphaBlendEnable && ColorUsed() &&
      var colorBlend := !(BlendOperation() == CopySource && SourceBlendFactor() == One);
      var alphaBlend := if separateAlphaBlendEnable
                        then !(BlendOperationAlpha() == CopySource && SourceBlendFactorAlpha() == One)
                        else colorBlend;
      colorBlend || alphaBlend
    }

    // What the application asked for.

    function RequestedChannel(s: real, d: real, c: real, src: Color, dst: Color, k: Color): real {
      if !alphaBlendEnable then s
      else Requested(operationState, s, d, FactorValue(sourceState, s, d, c, src.a, dst.a, k.a),
                     FactorValue(destState, s, d, c, src.a, dst.a, k.a))
    }

    function RequestedAlpha(src: Color, dst: Color, k: Color): real {
      var (op, sf, df) := if separateAlphaBlendEnable then (operationStateAlpha, sourceStateAlpha, destStateAlpha)
                          else (operationState, sourceState, destState);
      if !alphaBlendEnable then src.a
      else Requested(op, src.a, dst.a, FactorValueAlpha(sf, src.a, dst.a, k.a), FactorValueAlpha(df, src.a, dst.a, k.a))
    }

    function RequestedColor(src: Color, dst: Color, k: Color): Color {
      Color(RequestedChannel(src.r, dst.r, k.r, src, dst, k),
            RequestedChannel(src.g, dst.g, k.g, src, dst, k),
            RequestedChannel(src.b, dst.b, k.b, src, dst, k),
            RequestedAlpha(src, dst, k))
    }
  }

  // --------------------------------------------------------------- programs

  method ApplyOperation(op: Operation, s: real, d: real) returns (current: real)
    ensures current == Applied(op, s, d)
  {
    current := s;
    match op {
      case Add => current := Clamp(s + d);
      case Sub => current := Clamp(s - d);
      case InvSub => current := Clamp(d - s);
      case Min => if s >= d { current := d; }
      case Max => if s < d { current := d; }
      case CopySource =>
      case CopyDest => current := d;
      case Null => current := 0.0;
    }
  }

  method ScaleBy(f: Factor, x: real, value: real) returns (y: real)
    ensures y == Scaled(f, x, value)
  {
    y := x;
    if f != One && f != Zero {
      y := Mul(y, value);
    }
  }

  method BlendChannel(op: Operation, source: Factor, dest: Factor, s: real, d: real, fs: real, fd: real)
    returns (current: real)
    ensures current == Executed(op, source, dest, s, d, fs, fd)
  {
    current := ScaleBy(source, s, fs);
    var pixel := ScaleBy(dest, d, fd);
    current := ApplyOperation(op, current, pixel);
  }

  /** The generated blending code: nothing if blending is inactive, otherwise the
      simplified colour operation and then the simplified alpha operation. */
  method AlphaBlend(x: Context, src: Color, pixel: Color, k: Color) returns (current: Color)
    requires x.Valid() && UnitColor(src) && UnitColor(pixel) && UnitColor(k)
    ensures x.ColorUsed() ==> current == x.RequestedColor(src, pixel, k)
    ensures !x.alphaBlendEnable || !x.ColorUsed() ==> current == src
  {
    current := src;
    if !x.AlphaBlendActive() {
      if x.ColorUsed() {
        InactiveIsIdentity(x, src, pixel, k);
      }
      return;
    }
    var (op, sf, df) := (x.BlendOperation(), x.SourceBlendFactor(), x.DestBlendFactor());
    var r := BlendChannel(op, sf, df, src.r, pixel.r, FactorValue(sf, src.r, pixel.r, k.r, src.a, pixel.a, k.a),
                          FactorValue(df, src.r, pixel.r, k.r, src.a, pixel.a, k.a));
    var g := BlendChannel(op, sf, df, src.g, pixel.g, FactorValue(sf, src.g, pixel.g, k.g, src.a, pixel.a, k.a),
                          FactorValue(df, src.g, pixel.g, k.g, src.a, pixel.a, k.a));
    var b := BlendChannel(op, sf, df, src.b, pixel.b, FactorValue(sf, src.b, pixel.b, k.b, src.a, pixel.a, k.a),
                          FactorValue(df, src.b, pixel.b, k.b, src.a, pixel.a, k.a));
    ColorMeaning(x, src.r, pixel.r, k.r, src, pixel, k);
    ColorMeaning(x, src.g, pixel.g, k.g, src, pixel, k);
    ColorMeaning(x, src.b, pixel.b, k.b, src, pixel, k);
    op, sf, df := x.BlendOperationAlpha(), x.SourceBlendFactorAlpha(), x.DestBlendFactorAlpha();
    var a := BlendChannel(op, sf, df, src.a, pixel.a, FactorValueAlpha(sf, src.a, pixel.a, k.a),
                          FactorValueAlpha(df, src.a, pixel.a, k.a));
    AlphaMeaning(x, src, pixel, k);
    current := Color(r, g, b, a);
  }

  /** One colour channel of an enabled blend. */
  lemma ColorMeaning(x: Context, s: real, d: real, c: real, src: Color, dst: Color, k: Color)
    requires x.Valid() && x.alphaBlendEnable && Unit(s) && Unit(d) && Unit(c)
    requires UnitColor(src) && UnitColor(dst) && UnitColor(k)
    ensures Executed(x.BlendOperation(), x.SourceBlendFactor(), x.DestBlendFactor(), s, d,
                     FactorValue(x.SourceBlendFactor(), s, d, c, src.a, dst.a, k.a),
                     FactorValue(x.DestBlendFactor(), s, d, c, src.a, dst.a, k.a))
         == x.RequestedChannel(s, d, c, src, dst, k)
  {
    FactorStands(x.sourceState, s, d, c, src.a, dst.a, k.a);
    FactorStands(x.destState, s, d, c, src.a, dst.a, k.a);
    ChannelMeaning(x.operationState, x.sourceState, x.destState, s, d,
                   FactorValue(x.sourceState, s, d, c, src.a, dst.a, k.a),
                   FactorValue(x.destState, s, d, c, src.a, dst.a, k.a));
  }

  lemma AlphaMeaning(x: Context, src: Color, dst: Color, k: Color)
    requires x.Valid() && x.alphaBlendEnable && UnitColor(src) && UnitColor(dst) && UnitColor(k)
    ensures Executed(x.BlendOperationAlpha(), x.SourceBlendFactorAlpha(), x.DestBlendFactorAlpha(), src.a, dst.a,
                     FactorValueAlpha(x.SourceBlendFactorAlpha(), src.a, dst.a, k.a),
                     FactorValueAlpha(x.DestBlendFactorAlpha(), src.a, dst.a, k.a))
         == x.RequestedAlpha(src, dst, k)
  {
    var (op, sf, df) := if x.separateAlphaBlendEnable then (x.operationStateAlpha, x.sourceStateAlpha, x.destStateAlpha)
                        else (x.operationState, x.sourceState, x.destState);
    FactorStands(sf, src.a, dst.a, k.a, src.a, dst.a, k.a);
    FactorStands(df, src.a, dst.a, k.a, src.a, dst.a, k.a);
    ChannelMeaning(op, sf, df, src.a, dst.a, FactorValueAlpha(sf, src.a, dst.a, k.a),
                   FactorValueAlpha(df, src.a, dst.a, k.a));
  }

  /** Skipping the blend code changes nothing where anything is written. */
  lemma InactiveIsIdentity(x: Context, src: Color, dst: Color, k: Color)
    requires x.Valid() && UnitColor(src) && UnitColor(dst) && UnitColor(k)
    requires !x.AlphaBlendActive() && x.ColorUsed()
    ensures x.RequestedColor(src, dst, k) == src
  {
    if x.alphaBlendEnable {
      ColorMeaning(x, src.r, dst.r, k.r, src, dst, k);
      ColorMeaning(x, src.g, dst.g, k.g, src, dst, k);
      ColorMeaning(x, src.b, dst.b, k.b, src, dst, k);
      AlphaMeaning(x, src, dst, k);
    }
  }

  /** Not writing a target because of its blend state changes nothing: the request
      would write what is there. */
  lemma EarlyOutIsIdentity(x: Context, index: nat, src: Color, dst: Color, k: Color)
    requires x.Valid() && index < 4 && UnitColor(src) && UnitColor(dst) && UnitColor(k)
    requires x.targets[index].Target? && x.ColorWriteActive(index) == NoTarget
    ensures x.RequestedColor(src, dst, k) == dst
  {
    ColorMeaning(x, src.r, dst.r, k.r, src, dst, k);
    ColorMeaning(x, src.g, dst.g, k.g, src, dst, k);
    ColorMeaning(x, src.b, dst.b, k.b, src, dst, k);
    AlphaMeaning(x, src, dst, k);
  }

  /** The enabled channels of a colour over what a target holds. */
  function Masked(mask: Target, value: Color, dst: Color): Color {
    match mask
    case NoTarget => dst
    case Target(r, g, b, a) =>
      Color(if r then value.r else dst.r, if g then value.g else dst.g,
            if b then value.b else dst.b, if a then value.a else dst.a)
  }

  /** What a target holds after a pixel that passed all tests, logic operations
      being off, is what was requested, in the channels that were enabled. */
  method WritePixel(x: Context, index: nat, src: Color, dst: Color, k: Color) returns (result: Color)
    requires x.Valid() && index < 4 && UnitColor(src) && UnitColor(dst) && UnitColor(k)
    ensures result == Masked(x.targets[index], x.RequestedColor(src, dst, k), dst)
  {
    var color := AlphaBlend(x, src, dst, k);
    if x.targets[index].Target? && x.ColorWriteActive(index) == NoTarget {
      EarlyOutIsIdentity(x, index, src, dst, k);
    }
    result := Masked(x.ColorWriteActive(index), color, dst);
  }

  // ------------------------------------------- which requests change nothing

  /** One colour channel as requested, from its six inputs. */
  function Result(op: Operation, source: Factor, dest: Factor,
                  s: real, d: real, c: real, sa: real, da: real, ca: real): real
  {
    Requested(op, s, d, FactorValue(source, s, d, c, sa, da, ca), FactorValue(dest, s, d, c, sa, da, ca))
  }

  ghost predicate Units(s: real, d: real, c: real, sa: real, da: real, ca: real) {
    Unit(s) && Unit(d) && Unit(c) && Unit(sa) && Unit(da) && Unit(ca)
  }

  ghost predicate LeavesChannel(op: Operation, source: Factor, dest: Factor) {
    forall s, d, c, sa, da, ca | Units(s, d, c, sa, da, ca) ::
      Result(op, source, dest, s, d, c, sa, da, ca) == d
  }

  /** Zero and one; and source times destination plus the rest of destination. */
  predicate KeepsColor(op: Operation, source: Factor, dest: Factor) {
    || ((op == Add || op == InvSub) && source == Zero && dest == One)
    || (op == Add && source == Dest && dest == InvSource)
  }

  lemma Complement(s: real, d: real)
    ensures Mul(s, d) + Mul(d, 1.0 - s) == d
  {
  }

  lemma KeptChannel(op: Operation, source: Factor, dest: Factor,
                    s: real, d: real, c: real, sa: real, da: real, ca: real)
    requires KeepsColor(op, source, dest) && Units(s, d, c, sa, da, ca)
    ensures Result(op, source, dest, s, d, c, sa, da, ca) == d
  {
    Complement(s, d);
    MulEnds(s);
    MulEnds(d);
  }

  /** With nothing in the target, a sum must be nothing. */
  lemma EmptyTarget(source: Factor, dest: Factor, s: real, c: real, sa: real, da: real, ca: real)
    requires LeavesChannel(Add, source, dest) && Units(s, 0.0, c, sa, da, ca)
    ensures Mul(s, FactorValue(source, s, 0.0, c, sa, da, ca)) == 0.0
  {
    FactorStands(source, s, 0.0, c, sa, da, ca);
    FactorStands(dest, s, 0.0, c, sa, da, ca);
    var fs, fd := FactorValue(source, s, 0.0, c, sa, da, ca), FactorValue(dest, s, 0.0, c, sa, da, ca);
    MulUnit(s, fs);
    assert Mul(0.0, fd) == 0.0;
    assert Result(Add, source, dest, s, 0.0, c, sa, da, ca) == 0.0;
  }

  lemma SumSource(source: Factor, dest: Factor)
    requires LeavesChannel(Add, source, dest)
    ensures source == Zero || source == Dest
  {
    EmptyTarget(source, dest, 1.0, 1.0, 1.0, 1.0, 1.0);
    EmptyTarget(source, dest, 1.0, 0.0, 0.0, 0.0, 0.0);
    EmptyTarget(source, dest, 1.0, 0.0, 1.0, 0.0, 0.0);
    EmptyTarget(source, dest, 0.5, 0.0, 0.0, 0.0, 0.0);
  }

  /** With the target half full, the two terms must make the half. */
  lemma HalfTarget(source: Factor, dest: Factor, s: real, o: real)
    requires LeavesChannel(Add, source, dest) && (source == Zero || source == Dest) && Unit(s) && Unit(o)
    ensures FactorValue(dest, s, 0.5, o, o, o, o) == if source == Zero then 1.0 else 1.0 - s
  {
    var fd := FactorValue(dest, s, 0.5, o, o, o, o);
    FactorStands(dest, s, 0.5, o, o, o, o);
    assert Result(Add, source, dest, s, 0.5, o, o, o, o) == 0.5;
    assert Mul(0.5, fd) == 0.5 * fd && Mul(s, 0.5) == s * 0.5;
    MulEnds(s);
  }

  lemma SumDest(source: Factor, dest: Factor)
    requires LeavesChannel(Add, source, dest) && (source == Zero || source == Dest)
    ensures dest == if source == Zero then One else InvSource
  {
    HalfTarget(source, dest, 0.0, 0.0);
    HalfTarget(source, dest, 1.0, 1.0);
    HalfTarget(source, dest, 1.0, 0.0);
  }

  /** A difference that keeps the target cannot scale it or take anything off. */
  lemma Undiminished(source: Factor, dest: Factor, s: real, d: real, c: real, sa: real, da: real, ca: real)
    requires LeavesChannel(InvSub, source, dest) && Units(s, d, c, sa, da, ca) && d > 0.0
    ensures FactorValue(dest, s, d, c, sa, da, ca) == 1.0
    ensures Mul(s, FactorValue(source, s, d, c, sa, da, ca)) == 0.0
  {
    FactorStands(source, s, d, c, sa, da, ca);
    FactorStands(dest, s, d, c, sa, da, ca);
    var fs, fd := FactorValue(source, s, d, c, sa, da, ca), FactorValue(dest, s, d, c, sa, da, ca);
    MulUnit(s, fs);
    assert Result(InvSub, source, dest, s, d, c, sa, da, ca) == d;
    FullShare(d, fd, Mul(s, fs));
  }

  lemma LessThanWhole(d: real, f: real)
    requires d > 0.0 && 0.0 <= f < 1.0
    ensures Mul(d, f) < d
  {
    assert d * (1.0 - f) > 0.0;
  }

  lemma FullShare(d: real, fd: real, off: real)
    requires 0.0 < d <= 1.0 && Unit(fd) && off >= 0.0 && Clamp(Mul(d, fd) - off) == d
    ensures fd == 1.0 && off == 0.0
  {
    MulEnds(d);
    if fd < 1.0 {
      LessThanWhole(d, fd);
    }
  }

  lemma DifferenceKeeps(source: Factor, dest: Factor)
    requires LeavesChannel(InvSub, source, dest)
    ensures source == Zero && dest == One
  {
    Undiminished(source, dest, 1.0, 0.5, 0.0, 0.0, 0.0, 0.0);
    Undiminished(source, dest, 1.0, 0.5, 1.0, 1.0, 1.0, 1.0);
    Undiminished(source, dest, 0.5, 0.5, 0.0, 1.0, 0.0, 0.0);
  }

  /** The exact condition for one colour channel. */
  lemma LeavesChannelIff(op: Operation, source: Factor, dest: Factor)
    requires Requestable(op)
    ensures LeavesChannel(op, source, dest) <==> KeepsColor(op, source, dest)
  {
    if KeepsColor(op, source, dest) {
      forall s, d, c, sa, da, ca | Units(s, d, c, sa, da, ca)
        ensures Result(op, source, dest, s, d, c, sa, da, ca) == d
      {
        KeptChannel(op, source, dest, s, d, c, sa, da, ca);
      }
    }
    if LeavesChannel(op, source, dest) {
      LeavesOnly(op, source, dest);
    }
  }

  /** The other operations never keep an empty and a full target both. */
  lemma OthersChange(op: Operation, source: Factor, dest: Factor)
    requires op == Sub || op == Min || op == Max
    ensures Result(op, source, dest, 0.0, 1.0, 0.0, 0.0, 0.0, 0.0) != 1.0
         || Result(op, source, dest, 1.0, 0.0, 0.0, 0.0, 0.0, 0.0) != 0.0
  {
    if op == Sub {
      var fs, fd := FactorValue(source, 0.0, 1.0, 0.0, 0.0, 0.0, 0.0), FactorValue(dest, 0.0, 1.0, 0.0, 0.0, 0.0, 0.0);
      FactorStands(dest, 0.0, 1.0, 0.0, 0.0, 0.0, 0.0);
      NothingLess(fs, fd);
    }
  }

  lemma NothingLess(fs: real, fd: real)
    requires fd >= 0.0
    ensures Requested(Sub, 0.0, 1.0, fs, fd) == 0.0
  {
  }

  lemma SumOnly(source: Factor, dest: Factor)
    requires LeavesChannel(Add, source, dest)
    ensures KeepsColor(Add, source, dest)
  {
    SumSource(source, dest);
    SumDest(source, dest);
  }

  lemma OthersNever(op: Operation, source: Factor, dest: Factor)
    requires op == Sub || op == Min || op == Max
    ensures !LeavesChannel(op, source, dest)
  {
    if LeavesChannel(op, source, dest) {
      LeavesAt(op, source, dest, 0.0, 1.0);
      LeavesAt(op, source, dest, 1.0, 0.0);
      OthersChange(op, source, dest);
    }
  }

  lemma LeavesAt(op: Operation, source: Factor, dest: Factor, s: real, d: real)
    requires LeavesChannel(op, source, dest) && Unit(s) && Unit(d)
    ensures Result(op, source, dest, s, d, 0.0, 0.0, 0.0, 0.0) == d
  {
    assert Units(s, d, 0.0, 0.0, 0.0, 0.0);
  }

  lemma LeavesOnly(op: Operation, source: Factor, dest: Factor)
    requires Requestable(op) && LeavesChannel(op, source, dest)
    ensures KeepsColor(op, source, dest)
  {
    match op
    case Add => SumOnly(source, dest);
    case InvSub => DifferenceKeeps(source, dest);
    case _ => OthersNever(op, source, dest);
  }

  // ------------------------------------------------------------ alpha channel

  function ResultAlpha(op: Operation, source: Factor, dest: Factor, sa: real, da: real, ca: real): real {
    Requested(op, sa, da, FactorValueAlpha(source, sa, da, ca), FactorValueAlpha(dest, sa, da, ca))
  }

  ghost predicate LeavesAlpha(op: Operation, source: Factor, dest: Factor) {
    forall sa, da, ca | Unit(sa) && Unit(da) && Unit(ca) :: ResultAlpha(op, source, dest, sa, da, ca) == da
  }

  /** In the alpha channel some factors coincide: a colour is its own alpha, and the
      saturated factor is one. */
  function AlphaName(f: Factor): Factor {
    match f
    case SourceAlpha => Source
    case InvSourceAlpha => InvSource
    case DestAlpha => Dest
    case InvDestAlpha => InvDest
    case SrcAlphaSat => One
    case ConstantAlpha => Constant
    case InvConstantAlpha => InvConstant
    case _ => f
  }

  predicate KeepsAlpha(op: Operation, source: Factor, dest: Factor) {
    KeepsColor(op, AlphaName(source), AlphaName(dest))
  }

  lemma AlphaIsColor(op: Operation, source: Factor, dest: Factor, sa: real, da: real, ca: real)
    ensures ResultAlpha(op, source, dest, sa, da, ca)
         == Result(op, AlphaName(source), AlphaName(dest), sa, da, ca, sa, da, ca)
  {
  }

  lemma AlphaNamesIgnoreAlpha(op: Operation, source: Factor, dest: Factor,
                              s: real, d: real, c: real, sa: real, da: real, ca: real)
    ensures Result(op, AlphaName(source), AlphaName(dest), s, d, c, sa, da, ca)
         == ResultAlpha(op, source, dest, s, d, c)
  {
  }

  /** The exact condition for the alpha channel. */
  lemma LeavesAlphaIff(op: Operation, source: Factor, dest: Factor)
    requires Requestable(op)
    ensures LeavesAlpha(op, source, dest) <==> KeepsAlpha(op, source, dest)
  {
    if LeavesAlpha(op, source, dest) {
      AlphaLeavesChannel(op, source, dest);
      LeavesChannelIff(op, AlphaName(source), AlphaName(dest));
    }
    if KeepsAlpha(op, source, dest) {
      forall sa, da, ca | Unit(sa) && Unit(da) && Unit(ca) ensures ResultAlpha(op, source, dest, sa, da, ca) == da {
        AlphaIsColor(op, source, dest, sa, da, ca);
        KeptChannel(op, AlphaName(source), AlphaName(dest), sa, da, ca, sa, da, ca);
      }
    }
  }

  lemma AlphaLeavesChannel(op: Operation, source: Factor, dest: Factor)
    requires LeavesAlpha(op, source, dest)
    ensures LeavesChannel(op, AlphaName(source), AlphaName(dest))
  {
    forall s, d, c, sa, da, ca | Units(s, d, c, sa, da, ca)
      ensures Result(op, AlphaName(source), AlphaName(dest), s, d, c, sa, da, ca) == d
    {
      AlphaNamesIgnoreAlpha(op, source, dest, s, d, c, sa, da, ca);
    }
  }

  // ------------------------------------------------------------ whole colours

  /** The request leaves every target colour as it is. */
  ghost predicate LeavesTarget(x: Context) {
    forall src, dst, k | UnitColor(src) && UnitColor(dst) && UnitColor(k) :: x.RequestedColor(src, dst, k) == dst
  }

  predicate Kept(x: Context) {
    && x.alphaBlendEnable
    && KeepsColor(x.operationState, x.sourceState, x.destState)
    && (x.separateAlphaBlendEnable ==> KeepsAlpha(x.operationStateAlpha, x.sourceStateAlpha, x.destStateAlpha))
  }

  lemma KeptLeaves(x: Context, src: Color, dst: Color, k: Color)
    requires x.Valid() && Kept(x) && UnitColor(src) && UnitColor(dst) && UnitColor(k)
    ensures x.RequestedColor(src, dst, k) == dst
  {
    KeptChannel(x.operationState, x.sourceState, x.destState, src.r, dst.r, k.r, src.a, dst.a, k.a);
    KeptChannel(x.operationState, x.sourceState, x.destState, src.g, dst.g, k.g, src.a, dst.a, k.a);
    KeptChannel(x.operationState, x.sourceState, x.destState, src.b, dst.b, k.b, src.a, dst.a, k.a);
    var (op, sf, df) := if x.separateAlphaBlendEnable then (x.operationStateAlpha, x.sourceStateAlpha, x.destStateAlpha)
                        else (x.operationState, x.sourceState, x.destState);
    AlphaIsColor(op, sf, df, src.a, dst.a, k.a);
    KeptChannel(op, AlphaName(sf), AlphaName(df), src.a, dst.a, k.a, src.a, dst.a, k.a);
  }

  lemma LeavesNeedsEnable(x: Context)
    requires LeavesTarget(x)
    ensures x.alphaBlendEnable
  {
    var (white, black) := (Color(1.0, 1.0, 1.0, 1.0), Color(0.0, 0.0, 0.0, 0.0));
    assert x.RequestedColor(white, black, black) == black;
  }

  lemma LeavesNeedsKept(x: Context)
    requires x.Valid() && LeavesTarget(x) && x.alphaBlendEnable
    ensures LeavesChannel(x.operationState, x.sourceState, x.destState)
    ensures x.separateAlphaBlendEnable ==> LeavesAlpha(x.operationStateAlpha, x.sourceStateAlpha, x.destStateAlpha)
  {
    forall s, d, c, sa, da, ca | Units(s, d, c, sa, da, ca)
      ensures Result(x.operationState, x.sourceState, x.destState, s, d, c, sa, da, ca) == d
    {
      var (src, dst, k) := (Color(s, s, s, sa), Color(d, d, d, da), Color(c, c, c, ca));
      assert x.RequestedColor(src, dst, k) == dst;
    }
    if x.separateAlphaBlendEnable {
      forall sa, da, ca | Unit(sa) && Unit(da) && Unit(ca)
        ensures ResultAlpha(x.operationStateAlpha, x.sourceStateAlpha, x.destStateAlpha, sa, da, ca) == da
      {
        var (src, dst, k) := (Color(sa, sa, sa, sa), Color(da, da, da, da), Color(ca, ca, ca, ca));
        assert x.RequestedColor(src, dst, k) == dst;
      }
    }
  }

  /** The exact condition under which a blend request changes no target. */
  lemma LeavesTargetIff(x: Context)
    requires x.Valid()
    ensures LeavesTarget(x) <==> Kept(x)
  {
    if Kept(x) {
      forall src, dst, k | UnitColor(src) && UnitColor(dst) && UnitColor(k)
        ensures x.RequestedColor(src, dst, k) == dst
      {
        KeptLeaves(x, src, dst, k);
      }
    }
    if LeavesTarget(x) {
      LeavesNeedsEnable(x);
      LeavesNeedsKept(x);
      LeavesChannelIff(x.operationState, x.sourceState, x.destState);
      LeavesAlphaIff(x.operationStateAlpha, x.sourceStateAlpha, x.destStateAlpha);
    }
  }

  /** When the early out fires: a sum or inverse difference of nothing and all of the
      target, in every channel. */
  predicate Recognised(op: Operation, source: Factor, dest: Factor) {
    (op == Add || op == InvSub) && source == Zero && dest == One
  }

  lemma EarlyOutIff(x: Context, index: nat)
    requires x.Valid() && index < 4 && x.targets[index].Target?
    ensures x.ColorWriteActive(index) == NoTarget <==>
            && x.alphaBlendEnable && Recognised(x.operationState, x.sourceState, x.destState)
            && (x.separateAlphaBlendEnable ==>
                  Recognised(x.operationStateAlpha, x.sourceStateAlpha, x.destStateAlpha))
  {
  }

  /** How far the early out is complete: a request with one set of factors that changes
      no target is recognised, except source times destination plus the rest of
      destination. */
  lemma MissedIff(x: Context, index: nat)
    requires x.Valid() && index < 4 && x.targets[index].Target? && !x.separateAlphaBlendEnable
    ensures LeavesTarget(x) <==>
            || x.ColorWriteActive(index) == NoTarget
            || (x.alphaBlendEnable && x.operationState == Add && x.sourceState == Dest && x.destState == InvSource)
  {
    LeavesTargetIff(x);
    EarlyOutIff(x, index);
  }

  /** With separate factors each half may be of either kind, and alpha factors may go
      by either name. */
  lemma MissedSeparateIff(x: Context, index: nat)
    requires x.Valid() && index < 4 && x.targets[index].Target? && x.separateAlphaBlendEnable
    ensures LeavesTarget(x) && x.ColorWriteActive(index) != NoTarget <==>
            && x.alphaBlendEnable
            && KeepsColor(x.operationState, x.sourceState, x.destState)
            && KeepsAlpha(x.operationStateAlpha, x.sourceStateAlpha, x.destStateAlpha)
            && (x.sourceState == Dest
                || !Recognised(x.operationStateAlpha, x.sourceStateAlpha, x.destStateAlpha))
  {
    LeavesTargetIff(x);
    EarlyOutIff(x, index);
  }

  // ------------------------------------------------------ what the names mean

  predicate IsAlphaNamed(f: Factor) {
    f.SourceAlpha? || f.InvSourceAlpha? || f.DestAlpha? || f.InvDestAlpha?
    || f.SrcAlphaSat? || f.ConstantAlpha? || f.InvConstantAlpha?
  }

  /** The factors that go by alpha scale all channels alike; but for the saturated one, the
      alpha channel too. */
  lemma AlphaNamedIsUniform(f: Factor, s: real, d: real, c: real, s': real, d': real, c': real,
                            sa: real, da: real, ca: real)
    requires IsAlphaNamed(f)
    ensures FactorValue(f, s, d, c, sa, da, ca) == FactorValue(f, s', d', c', sa, da, ca)
    ensures f != SrcAlphaSat ==> FactorValueAlpha(f, sa, da, ca) == FactorValue(f, s, d, c, sa, da, ca)
  {
  }

  /** The others look at one channel of both sides only. */
  lemma OthersIgnoreAlpha(f: Factor, s: real, d: real, c: real, sa: real, da: real, ca: real)
    requires !IsAlphaNamed(f)
    ensures FactorValue(f, s, d, c, sa, da, ca) == FactorValueAlpha(f, s, d, c)
  {
  }

  predicate HasInverse(f: Factor) { !f.SrcAlphaSat? }

  function Inverse(f: Factor): (g: Factor)
    requires HasInverse(f)
    ensures HasInverse(g) && g != f
  {
    match f
    case Zero => One
    case One => Zero
    case Source => InvSource
    case InvSource => Source
    case Dest => InvDest
    case InvDest => Dest
    case SourceAlpha => InvSourceAlpha
    case InvSourceAlpha => SourceAlpha
    case DestAlpha => InvDestAlpha
    case InvDestAlpha => DestAlpha
    case Constant => InvConstant
    case InvConstant => Constant
    case ConstantAlpha => InvConstantAlpha
    case InvConstantAlpha => ConstantAlpha
  }

  lemma InversesMakeOne(f: Factor, s: real, d: real, c: real, sa: real, da: real, ca: real)
    requires HasInverse(f)
    ensures FactorValue(f, s, d, c, sa, da, ca) + FactorValue(Inverse(f), s, d, c, sa, da, ca) == 1.0
    ensures FactorValueAlpha(f, sa, da, ca) + FactorValueAlpha(Inverse(f), sa, da, ca) == 1.0
    ensures Inverse(Inverse(f)) == f
  {
  }

  /** The colour a factor multiplies with, whole: a colour, its complement, or one number
      in every channel. */
  function Weights(f: Factor, src: Color, dst: Color, k: Color): Color {
    match f
    case Zero => Gray(0.0)
    case One => Gray(1.0)
    case Source => src
    case InvSource => Complemented(src)
    case Dest => dst
    case InvDest => Complemented(dst)
    case SourceAlpha => Gray(src.a)
    case InvSourceAlpha => Complemented(Gray(src.a))
    case DestAlpha => Gray(dst.a)
    case InvDestAlpha => Complemented(Gray(dst.a))
    case SrcAlphaSat => Gray(if src.a + dst.a <= 1.0 then src.a else 1.0 - dst.a).(a := 1.0)
    case Constant => k
    case InvConstant => Complemented(k)
    case ConstantAlpha => Gray(k.a)
    case InvConstantAlpha => Complemented(Gray(k.a))
  }

  function Gray(x: real): Color { Color(x, x, x, x) }

  function Complemented(c: Color): Color { Color(1.0 - c.r, 1.0 - c.g, 1.0 - c.b, 1.0 - c.a) }

  function Times(a: Color, b: Color): Color { Color(Mul(a.r, b.r), Mul(a.g, b.g), Mul(a.b, b.b), Mul(a.a, b.a)) }

  function Plus(a: Color, b: Color): Color { Color(a.r + b.r, a.g + b.g, a.b + b.b, a.a + b.a) }

  function Minus(a: Color, b: Color): Color { Color(a.r - b.r, a.g - b.g, a.b - b.b, a.a - b.a) }

  function Saturated(c: Color): Color { Color(Clamp(c.r), Clamp(c.g), Clamp(c.b), Clamp(c.a)) }

  /** Two numbers in order. */
  predicate Sorted(low: real, high: real, s: real, d: real) {
    low <= high && ((low == s && high == d) || (low == d && high == s))
  }

  /** The operation on two colours, channel by channel. */
  function Combined(op: Operation, src: Color, dst: Color, v: Color, w: Color): Color {
    Color(Requested(op, src.r, dst.r, v.r, w.r), Requested(op, src.g, dst.g, v.g, w.g),
          Requested(op, src.b, dst.b, v.b, w.b), Requested(op, src.a, dst.a, v.a, w.a))
  }

  lemma RequestByWeights(x: Context, src: Color, dst: Color, k: Color, v: Color, w: Color)
    requires x.alphaBlendEnable && !x.separateAlphaBlendEnable
    requires v == Weights(x.sourceState, src, dst, k) && w == Weights(x.destState, src, dst, k)
    ensures x.RequestedColor(src, dst, k) == Combined(x.operationState, src, dst, v, w)
  {
    WeightsAre(x.sourceState, src, dst, k);
    WeightsAre(x.destState, src, dst, k);
  }

  lemma CombinedIsArithmetic(op: Operation, src: Color, dst: Color, v: Color, w: Color, a: Color, b: Color)
    requires a == Times(src, v) && b == Times(dst, w)
    ensures op == Add ==> Combined(op, src, dst, v, w) == Saturated(Plus(a, b))
    ensures op == Sub ==> Combined(op, src, dst, v, w) == Saturated(Minus(a, b))
    ensures op == InvSub ==> Combined(op, src, dst, v, w) == Saturated(Minus(b, a))
  {
    ChannelIsArithmetic(op, src.r, dst.r, v.r, w.r, a.r, b.r);
    ChannelIsArithmetic(op, src.g, dst.g, v.g, w.g, a.g, b.g);
    ChannelIsArithmetic(op, src.b, dst.b, v.b, w.b, a.b, b.b);
    ChannelIsArithmetic(op, src.a, dst.a, v.a, w.a, a.a, b.a);
  }

  lemma ChannelIsArithmetic(op: Operation, s: real, d: real, v: real, w: real, a: real, b: real)
    requires a == Mul(s, v) && b == Mul(d, w)
    ensures op == Add ==> Requested(op, s, d, v, w) == Clamp(a + b)
    ensures op == Sub ==> Requested(op, s, d, v, w) == Clamp(a - b)
    ensures op == InvSub ==> Requested(op, s, d, v, w) == Clamp(b - a)
  {
  }

  /** What an application asks for with one set of factors is arithmetic on whole colours. */
  lemma RequestIsColorArithmetic(x: Context, src: Color, dst: Color, k: Color, a: Color, b: Color)
    requires x.alphaBlendEnable && !x.separateAlphaBlendEnable
    requires a == Times(src, Weights(x.sourceState, src, dst, k)) && b == Times(dst, Weights(x.destState, src, dst, k))
    ensures x.operationState == Add ==> x.RequestedColor(src, dst, k) == Saturated(Plus(a, b))
    ensures x.operationState == Sub ==> x.RequestedColor(src, dst, k) == Saturated(Minus(a, b))
    ensures x.operationState == InvSub ==> x.RequestedColor(src, dst, k) == Saturated(Minus(b, a))
  {
    var (v, w) := (Weights(x.sourceState, src, dst, k), Weights(x.destState, src, dst, k));
    RequestByWeights(x, src, dst, k, v, w);
    CombinedIsArithmetic(x.operationState, src, dst, v, w, a, b);
  }

  lemma WeightsAre(f: Factor, src: Color, dst: Color, k: Color)
    ensures Weights(f, src, dst, k)
         == Color(FactorValue(f, src.r, dst.r, k.r, src.a, dst.a, k.a),
                  FactorValue(f, src.g, dst.g, k.g, src.a, dst.a, k.a),
                  FactorValue(f, src.b, dst.b, k.b, src.a, dst.a, k.a), FactorValueAlpha(f, src.a, dst.a, k.a))
  {
  }

  /** The minimum and the maximum of two colours, whatever the factors. */
  lemma ExtremesAreOrdered(x: Context, y: Context, src: Color, dst: Color, k: Color)
    requires x.alphaBlendEnable && y.alphaBlendEnable
    requires !x.separateAlphaBlendEnable && !y.separateAlphaBlendEnable
    requires x.operationState == Min && y.operationState == Max
    ensures var (low, high) := (x.RequestedColor(src, dst, k), y.RequestedColor(src, dst, k));
            && Sorted(low.r, high.r, src.r, dst.r) && Sorted(low.g, high.g, src.g, dst.g)
            && Sorted(low.b, high.b, src.b, dst.b) && Sorted(low.a, high.a, src.a, dst.a)
  {
  }

  /** A factor and its inverse mix the two colours: by that factor's weight, from the
      target to the source, and without clamping.  With source alpha this is the usual
      transparency. */
  lemma InversesInterpolate(x: Context, src: Color, dst: Color, k: Color)
    requires x.alphaBlendEnable && !x.separateAlphaBlendEnable && x.operationState == Add
    requires HasInverse(x.sourceState) && x.destState == Inverse(x.sourceState)
    requires UnitColor(src) && UnitColor(dst) && UnitColor(k)
    ensures x.RequestedColor(src, dst, k)
         == Plus(dst, Times(Weights(x.sourceState, src, dst, k), Minus(src, dst)))
  {
    var w := Weights(x.sourceState, src, dst, k);
    InverseWeights(x.sourceState, src, dst, k);
    RequestByWeights(x, src, dst, k, w, Complemented(w));
    MixedColors(src, dst, w);
  }

  lemma MixedColors(src: Color, dst: Color, w: Color)
    requires UnitColor(src) && UnitColor(dst) && UnitColor(w)
    ensures Combined(Add, src, dst, w, Complemented(w)) == Plus(dst, Times(w, Minus(src, dst)))
  {
    Mixed(src.r, dst.r, w.r, 1.0 - w.r);
    Mixed(src.g, dst.g, w.g, 1.0 - w.g);
    Mixed(src.b, dst.b, w.b, 1.0 - w.b);
    Mixed(src.a, dst.a, w.a, 1.0 - w.a);
  }

  lemma InverseWeights(f: Factor, src: Color, dst: Color, k: Color)
    requires HasInverse(f) && UnitColor(src) && UnitColor(dst) && UnitColor(k)
    ensures UnitColor(Weights(f, src, dst, k))
    ensures Weights(Inverse(f), src, dst, k) == Complemented(Weights(f, src, dst, k))
  {
  }

  lemma Mixed(s: real, d: real, w: real, rest: real)
    requires Unit(s) && Unit(d) && Unit(w) && rest == 1.0 - w
    ensures Requested(Add, s, d, w, rest) == d + Mul(w, s - d)
  {
    assert Mul(s, w) + Mul(d, rest) == d + Mul(w, s - d);
    MulUnit(s, w);
    MulUnit(d, rest);
    AtMostOne(s, w);
    AtMostOne(d, rest);
  }

  lemma AtMostOne(s: real, w: real)
    requires s <= 1.0 && w >= 0.0
    ensures Mul(s, w) <= w
  {
    assert (1.0 - s) * w >= 0.0;
  }

  /** Of the two differences one is nothing, and they differ by the whole. */
  lemma Differences(s: real, d: real, fs: real, fd: real)
    requires Unit(s) && Unit(d) && Unit(fs) && Unit(fd)
    ensures Requested(Sub, s, d, fs, fd) - Requested(InvSub, s, d, fs, fd) == s * fs - d * fd
    ensures Requested(Sub, s, d, fs, fd) == 0.0 || Requested(InvSub, s, d, fs, fd) == 0.0
  {
    MulUnit(s, fs);
    MulUnit(d, fd);
  }

  /** With separate alpha, the colour is that of one request and the alpha that of another. */
  lemma SeparateHalves(x: Context, src: Color, dst: Color, k: Color)
    requires x.alphaBlendEnable && x.separateAlphaBlendEnable
    ensures var color := x.(separateAlphaBlendEnable := false);
            var alpha := color.(sourceState := x.sourceStateAlpha, destState := x.destStateAlpha,
                                operationState := x.operationStateAlpha);
            x.RequestedColor(src, dst, k)
              == color.RequestedColor(src, dst, k).(a := alpha.RequestedColor(src, dst, k).a)
  {
  }

  /** Each channel of a target is written by its own switch. */
  lemma MaskIsByChannel(mask: Target, value: Color, dst: Color)
    requires mask.Target?
    ensures Masked(mask, value, dst).r == (if mask.r then value else dst).r
    ensures Masked(mask, value, dst).g == (if mask.g then value else dst).g
    ensures Masked(mask, value, dst).b == (if mask.b then value else dst).b
    ensures Masked(mask, value, dst).a == (if mask.a then value else dst).a
  {
  }
}
