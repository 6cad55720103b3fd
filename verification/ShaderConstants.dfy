/** The programs that keep shader constants: the analysis of a shader, the
    renderer's register file with its draw calls, and the device above it. One
    device stands for either kind of shader: the pixel shader's 224 registers, or the
    vertex shader's 256, followed in the renderer's file by one register that stays
    zero, where a draw without a shader reuses its copy for other data. */
module ShaderConstants {

  import opened ConstantTracking

  function DrawCount(): nat { 16 }

  /** The mark a shader leaves: one past its highest definition. */
  method AnalyzeDirtyConstants(code: Code) returns (dirty: nat)
    ensures dirty == HighWater(code)
  {
    dirty := 0;
    for i := 0 to |code|
      invariant dirty == HighWater(code[..i])
    {
      assert code[..i + 1][..i] == code[..i];
      if code[i].Def? && code[i].index + 1 > dirty {
        dirty := code[i].index + 1;
      }
    }
    assert code[..|code|] == code;
  }

  /** The renderer's loop over a run of registers. */
  method WriteRun(file: array<Vector>, index: nat, values: seq<Vector>)
    requires index + |values| <= file.Length
    modifies file
    ensures file[..] == Overwrite(old(file[..]), index, values)
  {
    for i := 0 to |values|
      invariant forall k :: 0 <= k < file.Length ==>
                  file[k] == if index <= k < index + i then values[k - index] else old(file[k])
    {
      file[index + i] := values[i];
    }
  }

  /** The device's loop, which ends at the last register. */
  method StoreRun(file: array<Vector>, index: nat, values: seq<Vector>)
    modifies file
    ensures file[..] == Stored(old(file[..]), index, values)
  {
    var i := 0;
    while i < |values| && index + i < file.Length
      invariant 0 <= i <= |values| && (i > 0 ==> index + i <= file.Length)
      invariant forall k :: 0 <= k < file.Length ==>
                  file[k] == if index <= k < index + i then values[k - index] else old(file[k])
    {
      file[index + i] := values[i];
      i := i + 1;
    }
  }

  function Paired(dirty: seq<nat>, copies: seq<seq<Vector>>): (draws: seq<DrawCopy>)
    requires |dirty| == |copies|
    ensures |draws| == |dirty|
  {
    seq(|dirty|, d requires 0 <= d < |dirty| => DrawCopy(dirty[d], copies[d]))
  }

  class Renderer {
    const file: array<Vector>
    const dirty: array<nat>
    const copies: array<seq<Vector>>
    var bound: Option<Shader>

    constructor (registers: nat, unknown: Vector)
      ensures file.Length == registers && dirty.Length == copies.Length == DrawCount()
      ensures View().Valid() && bound == None
      ensures fresh(file) && fresh(dirty) && fresh(copies)
    {
      file := new Vector[registers](_ => unknown);
      dirty := new nat[DrawCount()](_ => registers);
      copies := new seq<Vector>[DrawCount()](_ => seq(registers, _ => unknown));
      bound := None;
    }

    ghost predicate Valid()
      reads this
    {
      dirty.Length == copies.Length
    }

    ghost function View(): Registers
      reads file, dirty, copies
      requires dirty.Length == copies.Length
    {
      Registers(file[..], Paired(dirty[..], copies[..]))
    }

    /** Raises the marks of all draw calls, then writes the registers. */
    method SetConstants(index: nat, values: seq<Vector>)
      requires Valid() && index + |values| <= file.Length
      modifies file, dirty
      ensures View() == old(View()).Upload(index, values)
    {
      RaiseMarks(index + |values|);
      WriteRun(file, index, values);
      assert View().draws == old(View()).Upload(index, values).draws;
    }

    method RaiseMarks(mark: nat)
      requires Valid()
      modifies dirty
      ensures forall d :: 0 <= d < dirty.Length ==> dirty[d] == Max(old(dirty[d]), mark)
    {
      for i := 0 to dirty.Length
        invariant forall d :: 0 <= d < i ==> dirty[d] == Max(old(dirty[d]), mark)
        invariant forall d :: i <= d < dirty.Length ==> dirty[d] == old(dirty[d])
      {
        if dirty[i] < mark {
          dirty[i] := mark;
        }
      }
    }

    method LoadConstants(code: Code)
      requires Valid() && HighWater(code) <= file.Length
      modifies file, dirty
      ensures View() == old(View()).Load(code)
    {
      for i := 0 to |code|
        invariant HighWater(code[..i]) <= file.Length
        invariant View() == old(View()).Load(code[..i])
      {
        assert code[..i + 1][..i] == code[..i];
        PrefixHighWater(code, i + 1);
        if code[i].Def? {
          SetConstants(code[i].index, [code[i].value]);
        }
      }
      assert code[..|code|] == code;
    }

    method SetShader(s: Option<Shader>)
      requires Valid() && (s.Some? ==> HighWater(s.value.code) <= file.Length)
      modifies this`bound, file, dirty
      ensures bound == s
      ensures View() == if s.Some? then old(View()).Load(s.value.code) else old(View())
    {
      bound := s;
      if s.Some? {
        LoadConstants(s.value.code);
      }
    }

    /** The part of setting up a draw call that concerns constants. */
    method SetupDraw(d: nat, other: Option<seq<Vector>>)
      requires Valid() && d < dirty.Length && dirty[d] <= file.Length == |copies[d]|
      modifies dirty, copies
      ensures View() == old(View()).Draw(d, bound.Some?, other)
    {
      if bound.Some? {
        if dirty[d] > 0 {
          copies[d] := file[..dirty[d]] + copies[d][dirty[d]..];
          dirty[d] := 0;
        } else {
          assert copies[d] == file[..0] + copies[d][0..];
        }
        assert View().draws == old(View()).Draw(d, true, other).draws;
      } else if other.Some? {
        copies[d] := other.value;
        dirty[d] := file.Length;
      }
    }
  }

  lemma {:induction false} PrefixHighWater(code: Code, n: nat)
    requires n <= |code|
    ensures HighWater(code[..n]) <= HighWater(code)
    decreases |code|
  {
    if n < |code| {
      assert code[..|code| - 1][..n] == code[..n];
      PrefixHighWater(code[..|code| - 1], n);
    } else {
      assert code[..n] == code;
    }
  }

  class Device {
    const constants: array<Vector>
    const renderer: Renderer
    var dirty: nat
    var shaderDirty: bool
    var shader: Option<Shader>

    ghost predicate Valid()
      reads this, renderer, constants, renderer.file, renderer.dirty, renderer.copies
    {
      renderer.Valid() && constants != renderer.file && State().Valid()
    }

    ghost function State(): Track
      reads this, renderer, constants, renderer.file, renderer.dirty, renderer.copies
      requires renderer.Valid()
    {
      Track(constants[..], dirty, shaderDirty, shader, renderer.bound, renderer.View())
    }

    /** Nothing is known of the constants before the first write, so all are set
        to zero, which also marks all of them. */
    constructor (renderer: Renderer, registers: nat, unknown: Vector)
      requires renderer.Valid() && renderer.View().Valid() && registers <= renderer.file.Length
      ensures Valid() && this.renderer == renderer && fresh(constants)
      ensures constants.Length == dirty == registers && shader == None
      ensures forall i :: 0 <= i < registers ==> constants[i] == Vector(0, 0, 0, 0)
    {
      this.renderer := renderer;
      constants := new Vector[registers](_ => unknown);
      dirty, shaderDirty, shader := 0, true, None;
      new;
      for i := 0 to registers
        invariant forall j :: 0 <= j < i ==> constants[j] == Vector(0, 0, 0, 0)
        invariant dirty == i && shaderDirty && shader == None
        invariant renderer.View() == old(renderer.View())
      {
        SetConstants(i, [Vector(0, 0, 0, 0)]);
      }
      FreshDeviceIsValid(State());
    }

    method SetConstants(start: nat, values: seq<Vector>)
      requires renderer.Valid() && constants != renderer.file
      modifies this`dirty, this`shaderDirty, constants
      ensures State() == old(State()).Write(start, values)
    {
      StoreRun(constants, start, values);
      assert renderer.View() == old(renderer.View());
      dirty := Max(start + |values|, dirty);
      shaderDirty := true;
    }

    method SetShader(s: Option<Shader>)
      requires renderer.Valid()
      modifies this`shader, this`shaderDirty
      ensures State() == old(State()).SetShader(s)
    {
      if shader == s {
        return;
      }
      shader := s;
      shaderDirty := true;
    }

    method BindShaderConstants()
      requires Valid()
      modifies this`dirty, this`shaderDirty, renderer`bound, renderer.file, renderer.dirty
      ensures Valid() && State() == old(State()).Bind()
    {
      BindValid(State());
      if shaderDirty {
        if shader.Some? {
          if dirty > 0 {
            renderer.SetConstants(0, constants[..dirty]);
          }
          renderer.SetShader(shader);
          dirty := AnalyzeDirtyConstants(shader.value.code);
        } else {
          renderer.SetShader(None);
        }
        shaderDirty := false;
      }
    }

    /** A draw call binds what is due and takes its copy. */
    method Draw(d: nat, other: Option<seq<Vector>>)
      requires Valid() && Legal(State(), Issue(d, other))
      modifies this`dirty, this`shaderDirty, renderer`bound, renderer.file, renderer.dirty, renderer.copies
      ensures Valid() && State() == Issued(old(State()), d, other)
    {
      StepValid(State(), Issue(d, other));
      BindShaderConstants();
      assert renderer.View().Agrees(renderer.View().draws[d]);
      renderer.SetupDraw(d, other);
    }
  }
}
