/** Lazy upload of shader constants: what the device, the renderer's register file
    and the draw calls in flight hold, and why marking only a high water line is
    enough. */
module ConstantTracking {

  datatype Option<T> = None | Some(value: T)

  newtype Word = x: int | 0 <= x < 0x1_0000_0000

  /** Four floating-point components, copied bit for bit. */
  datatype Vector = Vector(x: Word, y: Word, z: Word, w: Word)

  datatype Instruction = Def(index: nat, value: Vector) | Other

  type Code = seq<Instruction>

  /** A shader object; two objects may hold the same code. */
  datatype Shader = Shader(id: nat, code: Code)

  function Max(a: nat, b: nat): nat { if a < b then b else a }

  /** One past the highest register a shader defines. */
  function HighWater(code: Code): (n: nat)
    decreases |code|
  {
    if code == [] then 0
    else
      var n := HighWater(code[..|code| - 1]);
      match code[|code| - 1]
      case Def(index, _) => Max(n, index + 1)
      case Other => n
  }

  /** Writes a run of registers. */
  function Overwrite(file: seq<Vector>, index: nat, values: seq<Vector>): (r: seq<Vector>)
    requires index + |values| <= |file|
    ensures |r| == |file|
  {
    file[..index] + values + file[index + |values|..]
  }

  /** Writes the part of a run that lies in the file. */
  function Stored(file: seq<Vector>, index: nat, values: seq<Vector>): (r: seq<Vector>)
    ensures |r| == |file|
    ensures index + |values| <= |file| ==> r == Overwrite(file, index, values)
  {
    if index + |values| <= |file| then Overwrite(file, index, values)
    else if index <= |file| then file[..index] + values[..|file| - index]
    else file
  }

  /** What the registers should read once a shader's own definitions are applied
      in program order. */
  function Overlay(file: seq<Vector>, code: Code): (r: seq<Vector>)
    requires HighWater(code) <= |file|
    ensures |r| == |file|
    decreases |code|
  {
    if code == [] then file
    else
      var r := Overlay(file, code[..|code| - 1]);
      match code[|code| - 1]
      case Def(index, value) => r[index := value]
      case Other => r
  }

  /** The last definition of a register, if any. */
  function Defined(code: Code, i: nat): Option<Vector>
    decreases |code|
  {
    if code == [] then None
    else if code[|code| - 1].Def? && code[|code| - 1].index == i then Some(code[|code| - 1].value)
    else Defined(code[..|code| - 1], i)
  }

  /** A register reads its last definition, else what was in it before. */
  lemma {:induction false} OverlayAt(file: seq<Vector>, code: Code, i: nat)
    requires HighWater(code) <= |file| && i < |file|
    ensures Overlay(file, code)[i] == if Defined(code, i).Some? then Defined(code, i).value else file[i]
    ensures Defined(code, i).Some? ==> i < HighWater(code)
    decreases |code|
  {
    if code != [] {
      OverlayAt(file, code[..|code| - 1], i);
    }
  }

  /** The register below the high water is defined: no lower line would do. */
  lemma {:induction false} HighWaterIsLeast(code: Code)
    ensures HighWater(code) > 0 ==> Defined(code, HighWater(code) - 1).Some?
    decreases |code|
  {
    if code != [] {
      HighWaterIsLeast(code[..|code| - 1]);
    }
  }

  /** Applying definitions commutes with ignoring a tail no shader touches. */
  lemma {:induction false} OverlayLocal(a: seq<Vector>, b: seq<Vector>, code: Code)
    requires HighWater(code) <= |a| <= |b| && b[..|a|] == a
    ensures Overlay(b, code)[..|a|] == Overlay(a, code)
    decreases |code|
  {
    if code != [] {
      OverlayLocal(a, b, code[..|code| - 1]);
    }
  }

  // ------------------------------------------------------------- renderer

  /** The copy of the registers one draw call works from; below the mark it may
      be out of date. */
  datatype DrawCopy = DrawCopy(dirty: nat, copy: seq<Vector>)

  datatype Registers = Registers(file: seq<Vector>, draws: seq<DrawCopy>)
  {
    ghost predicate Valid() {
      forall d :: 0 <= d < |draws| ==> Agrees(draws[d])
    }

    /** No draw call in flight sees a difference. */
    predicate SameCopies(r: Registers) {
      |r.draws| == |draws| && forall d :: 0 <= d < |draws| ==> r.draws[d].copy == draws[d].copy
    }

    ghost predicate Agrees(draw: DrawCopy) {
      && |draw.copy| == |file| && draw.dirty <= |file|
      && forall i :: draw.dirty <= i < |file| ==> draw.copy[i] == file[i]
    }

    function Upload(index: nat, values: seq<Vector>): (r: Registers)
      requires index + |values| <= |file|
      ensures |r.file| == |file| && SameCopies(r)
    {
      Registers(Overwrite(file, index, values),
                seq(|draws|, d requires 0 <= d < |draws| =>
                  DrawCopy(Max(draws[d].dirty, index + |values|), draws[d].copy)))
    }

    /** Loading a shader writes its definitions in program order. */
    function Load(code: Code): (r: Registers)
      requires HighWater(code) <= |file|
      ensures |r.file| == |file| && SameCopies(r)
      decreases |code|
    {
      if code == [] then this
      else
        var r := Load(code[..|code| - 1]);
        match code[|code| - 1]
        case Def(index, value) => r.Upload(index, [value])
        case Other => r
    }

    /** Setting up a draw call: with a shader the stale part of its copy is
        refreshed; a call without a vertex shader puts other data where the copy
        was, so everything becomes stale. */
    function Draw(d: nat, hasShader: bool, other: Option<seq<Vector>>): Registers
      requires d < |draws| && draws[d].dirty <= |file| == |draws[d].copy|
    {
      var draw := draws[d];
      if hasShader then this.(draws := draws[d := DrawCopy(0, file[..draw.dirty] + draw.copy[draw.dirty..])])
      else if other.Some? then this.(draws := draws[d := DrawCopy(|file|, other.value)])
      else this
    }
  }

  lemma UploadValid(r: Registers, index: nat, values: seq<Vector>)
    requires r.Valid() && index + |values| <= |r.file|
    ensures r.Upload(index, values).Valid()
  {
    var r' := r.Upload(index, values);
    forall d | 0 <= d < |r.draws| ensures r'.Agrees(r'.draws[d]) {
      assert r.Agrees(r.draws[d]);
    }
  }

  lemma {:induction false} LoadValid(r: Registers, code: Code)
    requires r.Valid() && HighWater(code) <= |r.file|
    ensures r.Load(code).Valid()
    ensures r.Load(code).file == Overlay(r.file, code)
    decreases |code|
  {
    if code != [] {
      var init := code[..|code| - 1];
      LoadValid(r, init);
      match code[|code| - 1]
      case Def(index, value) => UploadValid(r.Load(init), index, [value]);
      case Other =>
    }
  }

  /** A call with a shader works from the registers as they are. */
  lemma DrawIsFresh(r: Registers, d: nat, other: Option<seq<Vector>>)
    requires r.Valid() && d < |r.draws|
    ensures r.Agrees(r.draws[d])
    ensures r.Draw(d, true, other).draws[d] == DrawCopy(0, r.file)
  {
    assert r.Agrees(r.draws[d]);
  }

  lemma DrawValid(r: Registers, d: nat, hasShader: bool, other: Option<seq<Vector>>)
    requires r.Valid() && d < |r.draws| && (other.Some? ==> |other.value| == |r.file|)
    ensures r.Agrees(r.draws[d])
    ensures r.Draw(d, hasShader, other).Valid()
  {
    assert r.Agrees(r.draws[d]);
    var r' := r.Draw(d, hasShader, other);
    forall e | 0 <= e < |r.draws| ensures r'.Agrees(r'.draws[e]) {
      assert r.Agrees(r.draws[e]);
    }
  }

  // --------------------------------------------------------------- device

  datatype Track = Track(constants: seq<Vector>, dirty: nat, shaderDirty: bool, shader: Option<Shader>,
                            bound: Option<Shader>, registers: Registers)
  {
    ghost predicate Shape() {
      && |constants| <= |registers.file| && dirty <= |constants|
      && registers.Valid()
      && (shader.Some? ==> HighWater(shader.value.code) <= |constants|)
    }

    /** Registers at or above the mark hold what the application wrote. */
    ghost predicate AboveMark() {
      forall i :: dirty <= i < |constants| ==> i < |registers.file| && registers.file[i] == constants[i]
    }

    /** Every register reads the shader's definition, else the last value written. */
    ghost predicate Shows(code: Code) {
      && HighWater(code) <= |constants| <= |registers.file|
      && registers.file[..|constants|] == Overlay(constants, code)
    }

    /** Unless a bind is due, the registers are what the bound shader should see. */
    ghost predicate Current() {
      !shaderDirty ==> bound == shader && (shader.Some? ==> Shows(shader.value.code))
    }

    ghost predicate Valid() { Shape() && AboveMark() && Current() }

    /** The registers that do not exist are skipped, but the mark follows the request. */
    function Write(start: nat, values: seq<Vector>): Track {
      this.(constants := Stored(constants, start, values),
            dirty := Max(start + |values|, dirty),
            shaderDirty := true)
    }

    function SetShader(s: Option<Shader>): Track {
      if s == shader then this else this.(shader := s, shaderDirty := true)
    }

    function Bind(): Track
      requires dirty <= |constants| <= |registers.file|
      requires shader.Some? ==> HighWater(shader.value.code) <= |registers.file|
    {
      if !shaderDirty then this
      else if shader.None? then this.(bound := None, shaderDirty := false)
      else
        var uploaded := if dirty > 0 then registers.Upload(0, constants[..dirty]) else registers;
        this.(registers := uploaded.Load(shader.value.code), bound := shader,
              dirty := HighWater(shader.value.code), shaderDirty := false)
    }
  }

  lemma WriteValid(t: Track, start: nat, values: seq<Vector>)
    requires t.Valid() && start + |values| <= |t.constants|
    ensures t.Write(start, values).Valid()
  {
  }

  /** Exactly the writes that stay within the registers keep the mark, and with it the
      next upload, within them. */
  lemma MarkStaysIff(t: Track, start: nat, values: seq<Vector>)
    requires t.Valid()
    ensures t.Write(start, values).dirty <= |t.constants| <==> start + |values| <= |t.constants|
    ensures t.Write(start, values).Shape() <==> start + |values| <= |t.constants|
    ensures t.Write(start, values).Valid() <==> start + |values| <= |t.constants|
  {
    if start + |values| <= |t.constants| {
      WriteValid(t, start, values);
    }
  }

  lemma SetShaderValid(t: Track, s: Option<Shader>)
    requires t.Valid() && (s.Some? ==> HighWater(s.value.code) <= |t.constants|)
    ensures t.SetShader(s).Valid()
  {
  }

  /** Uploading below the mark completes the register file. */
  lemma UploadCompletes(t: Track)
    requires t.Shape() && t.AboveMark() && t.dirty > 0
    ensures t.registers.Upload(0, t.constants[..t.dirty]).file[..|t.constants|] == t.constants
  {
  }

  lemma BindValid(t: Track)
    requires t.Valid()
    ensures t.Bind().Valid() && !t.Bind().shaderDirty && t.Bind().shader == t.shader
    ensures t.Bind().constants == t.constants && t.Bind().bound == t.shader
    ensures |t.Bind().registers.file| == |t.registers.file| && t.registers.SameCopies(t.Bind().registers)
  {
    if t.shaderDirty && t.shader.Some? {
      var code := t.shader.value.code;
      var uploaded := if t.dirty > 0 then t.registers.Upload(0, t.constants[..t.dirty]) else t.registers;
      if t.dirty > 0 {
        UploadValid(t.registers, 0, t.constants[..t.dirty]);
        UploadCompletes(t);
      }
      assert uploaded.file[..|t.constants|] == t.constants;
      LoadValid(uploaded, code);
      OverlayLocal(t.constants, uploaded.file, code);
      AboveAfterLoad(t.Bind(), code);
    }
  }

  /** Definitions lie below the new mark. */
  lemma AboveAfterLoad(t: Track, code: Code)
    requires HighWater(code) == t.dirty <= |t.constants| <= |t.registers.file|
    requires t.registers.file[..|t.constants|] == Overlay(t.constants, code)
    ensures t.AboveMark()
  {
    forall i | t.dirty <= i < |t.constants| ensures t.registers.file[i] == t.constants[i] {
      assert t.registers.file[i] == t.registers.file[..|t.constants|][i];
      OverlayAt(t.constants, code, i);
    }
  }

  // ----------------------------------------------------------------- runs

  datatype Op =
    | Write(start: nat, values: seq<Vector>)
    | SetShader(shader: Option<Shader>)
    | Issue(call: nat, other: Option<seq<Vector>>)

  /** What the application may ask: registers that exist, shaders that define
      registers that exist. */
  ghost predicate Legal(t: Track, op: Op) {
    match op
    case Write(start, values) => start + |values| <= |t.constants|
    case SetShader(s) => s.Some? ==> HighWater(s.value.code) <= |t.constants|
    case Issue(d, other) => d < |t.registers.draws| && (other.Some? ==> |other.value| == |t.registers.file|)
  }

  /** No more is refused than what would not keep the invariant. */
  lemma LegalIff(t: Track, op: Op)
    requires t.Valid() && !op.Issue?
    ensures Legal(t, op) <==> (if op.Write? then t.Write(op.start, op.values) else t.SetShader(op.shader)).Valid()
  {
    if op.Write? {
      MarkStaysIff(t, op.start, op.values);
    } else if Legal(t, op) {
      SetShaderValid(t, op.shader);
    }
  }

  /** A draw binds what is due, then sets up its copy. */
  ghost function Issued(t: Track, d: nat, other: Option<seq<Vector>>): Track
    requires t.Valid() && d < |t.registers.draws|
  {
    BindValid(t);
    var b := t.Bind();
    assert b.registers.Agrees(b.registers.draws[d]);
    b.(registers := b.registers.Draw(d, b.bound.Some?, other))
  }

  ghost function Step(t: Track, op: Op): Track
    requires t.Valid() && Legal(t, op)
  {
    match op
    case Write(start, values) => t.Write(start, values)
    case SetShader(s) => t.SetShader(s)
    case Issue(d, other) => Issued(t, d, other)
  }

  lemma StepValid(t: Track, op: Op)
    requires t.Valid() && Legal(t, op)
    ensures Step(t, op).Valid()
    ensures |Step(t, op).constants| == |t.constants|
    ensures |Step(t, op).registers.file| == |t.registers.file|
    ensures |Step(t, op).registers.draws| == |t.registers.draws|
  {
    match op
    case Write(start, values) => WriteValid(t, start, values);
    case SetShader(s) => SetShaderValid(t, s);
    case Issue(d, other) =>
      BindValid(t);
      var b := t.Bind();
      DrawValid(b.registers, d, b.bound.Some?, other);
  }

  /** A draw call in flight keeps its constants until its own slot is reused. */
  lemma InFlightUndisturbed(t: Track, op: Op, d: nat)
    requires t.Valid() && Legal(t, op) && d < |t.registers.draws|
    requires op.Issue? ==> op.call != d
    ensures |Step(t, op).registers.draws| == |t.registers.draws|
    ensures Step(t, op).registers.draws[d].copy == t.registers.draws[d].copy
  {
    StepValid(t, op);
    if op.Issue? {
      BindValid(t);
    }
  }

  /** What the application last asked for, without any of the tracking. */
  datatype Wanted = Wanted(constants: seq<Vector>, shader: Option<Shader>)

  function Want(w: Wanted, op: Op): Wanted
    requires op.Write? ==> op.start + |op.values| <= |w.constants|
  {
    match op
    case Write(start, values) => w.(constants := Overwrite(w.constants, start, values))
    case SetShader(s) => w.(shader := s)
    case Issue(_, _) => w
  }

  ghost predicate Realises(t: Track, w: Wanted) {
    t.Valid() && t.constants == w.constants && t.shader == w.shader
  }

  ghost predicate AllLegal(t: Track, ops: seq<Op>) {
    forall k :: 0 <= k < |ops| ==> Legal(t, ops[k])
  }

  ghost function Run(t: Track, ops: seq<Op>): (t': Track)
    requires t.Valid() && AllLegal(t, ops)
    ensures t'.Valid()
    ensures |t'.constants| == |t.constants| && |t'.registers.file| == |t.registers.file|
    ensures |t'.registers.draws| == |t.registers.draws|
    decreases |ops|
  {
    if ops == [] then t
    else
      StepValid(t, ops[0]);
      Run(Step(t, ops[0]), ops[1..])
  }

  /** What the application last asked for after a run. */
  ghost function Wants(w: Wanted, ops: seq<Op>): (w': Wanted)
    requires forall k :: 0 <= k < |ops| && ops[k].Write? ==> ops[k].start + |ops[k].values| <= |w.constants|
    ensures |w'.constants| == |w.constants|
    decreases |ops|
  {
    if ops == [] then w else Wants(Want(w, ops[0]), ops[1..])
  }

  lemma StepRealises(t: Track, w: Wanted, op: Op)
    requires Realises(t, w) && Legal(t, op)
    ensures Realises(Step(t, op), Want(w, op))
  {
    StepValid(t, op);
    if op.Issue? {
      BindValid(t);
    }
  }

  lemma {:induction false} RunRealises(t: Track, w: Wanted, ops: seq<Op>)
    requires Realises(t, w) && AllLegal(t, ops)
    ensures Realises(Run(t, ops), Wants(w, ops))
    decreases |ops|
  {
    if ops != [] {
      StepValid(t, ops[0]);
      StepRealises(t, w, ops[0]);
      RunRealises(Step(t, ops[0]), Want(w, ops[0]), ops[1..]);
    }
  }

  /** After any run, a draw with a shader reads in every register the shader's last
      definition of it, and the last value written to it where there is none. */
  lemma DrawSeesWhatWasAsked(t: Track, w: Wanted, ops: seq<Op>, d: nat, other: Option<seq<Vector>>, i: nat)
    requires Realises(t, w) && AllLegal(t, ops) && Legal(t, Issue(d, other))
    requires Wants(w, ops).shader.Some? && i < |w.constants|
    ensures var drawn := Issued(Run(t, ops), d, other).registers.draws;
            var code := Wants(w, ops).shader.value.code;
            && d < |drawn| && i < |drawn[d].copy|
            && drawn[d].copy[i] == (if Defined(code, i).Some? then Defined(code, i).value
                                    else Wants(w, ops).constants[i])
  {
    var (t', w') := (Run(t, ops), Wants(w, ops));
    RunRealises(t, w, ops);
    BindValid(t');
    var b := t'.Bind();
    DrawIsFresh(b.registers, d, other);
    OverlayAt(w'.constants, w'.shader.value.code, i);
    assert b.registers.file[i] == b.registers.file[..|b.constants|][i];
  }

  /** After any run, a draw without a shader works from its other data, if it brings any,
      and the registers stay as they are. */
  lemma DrawWithoutShaderStores(t: Track, w: Wanted, ops: seq<Op>, d: nat, other: Option<seq<Vector>>)
    requires Realises(t, w) && AllLegal(t, ops) && Legal(t, Issue(d, other))
    requires Wants(w, ops).shader.None? && other.Some?
    ensures var drawn := Issued(Run(t, ops), d, other).registers;
            d < |drawn.draws| && drawn.draws[d].copy == other.value && drawn.file == Run(t, ops).registers.file
  {
    RunRealises(t, w, ops);
    BindValid(Run(t, ops));
  }

  /** A write is what its registers are last asked to hold; the others are as before it. */
  lemma WrittenIsWanted(w: Wanted, start: nat, values: seq<Vector>, i: nat)
    requires start + |values| <= |w.constants| && i < |w.constants|
    ensures var w' := Want(w, Write(start, values));
            && w'.constants[i] == (if start <= i < start + |values| then values[i - start] else w.constants[i])
            && w'.shader == w.shader
  {
  }

  /** A write that goes past the registers fills those that exist. */
  lemma StoredAt(file: seq<Vector>, start: nat, values: seq<Vector>, i: nat)
    requires i < |file|
    ensures Stored(file, start, values)[i] == if start <= i < start + |values| then values[i - start] else file[i]
  {
  }

  /** A change of shader alone redoes definitions only: between shaders without any,
      nothing is uploaded and no draw call's copy becomes stale. */
  lemma ChangeAloneUploadsNothing(t: Track, s: Option<Shader>)
    requires t.Valid() && t.shaderDirty && t.shader.Some? && HighWater(t.shader.value.code) == 0
    requires s.Some? ==> HighWater(s.value.code) <= |t.constants|
    ensures var b := t.Bind();
            b.SetShader(s).Valid() && b.SetShader(s).Bind().registers
              == if s == b.shader || s.None? then b.registers else b.registers.Load(s.value.code)
  {
    BindValid(t);
    SetShaderValid(t.Bind(), s);
  }

  /** How a new device starts: nothing is known of the registers, the mark is at
      zero, and every constant is then written. */
  lemma FreshDeviceIsValid(t: Track)
    requires t.Shape() && t.dirty == |t.constants| && t.shaderDirty
    ensures t.Valid()
  {
  }
}
