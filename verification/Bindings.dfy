/** The binding slots of a device and of its state blocks. Each setter either
    changes a device slot or, while a state block is being recorded, the slot of
    the same name in the recorder. */
module Bindings {

  import opened ObjectLifetime

  datatype Code = Ok | InvalidCall

  /** What a device binds by name. */
  datatype Binding = DepthStencil | RenderTarget(target: nat) | Declaration | Texture(sampler: nat)
                   | Stream(stream: nat) | Indices | PixelShader | VertexShader
  {
    predicate Exists() {
      match this
      case RenderTarget(i) => i < 4
      case Texture(i) => i < 20
      case Stream(i) => i < 16
      case _ => true
    }

    /** A state block has no place for the targets. */
    predicate Recordable() { Exists() && !DepthStencil? && !RenderTarget? }

    predicate IsVertexTexture() { Texture? && sampler >= 16 }

    /** Its slot in the device, in the order in which the destructor releases them. */
    function Slot(): nat {
      match this
      case DepthStencil => 0
      case RenderTarget(i) => 1 + i
      case Declaration => 5
      case Texture(i) => 6 + i
      case Stream(i) => 26 + i
      case Indices => 42
      case PixelShader => 43
      case VertexShader => 44
    }

    /** Its slot in a state block, in the order in which the block clears them. */
    function BlockSlot(): nat
      requires Recordable()
    {
      match this
      case Declaration => 0
      case Indices => 1
      case Stream(i) => 2 + i
      case Texture(i) => 18 + i
      case PixelShader => 38
      case VertexShader => 39
    }
  }

  function DeviceSlots(): nat { 45 }
  function BlockSlots(): nat { 40 }

  /** The binding a slot of the device is for. */
  function Named(d: nat): (x: Binding)
    requires d < DeviceSlots()
    ensures x.Exists() && x.Slot() == d
  {
    if d == 0 then DepthStencil else if d < 5 then RenderTarget(d - 1) else if d == 5 then Declaration
    else if d < 26 then Texture(d - 6) else if d < 42 then Stream(d - 26) else if d == 42 then Indices
    else if d == 43 then PixelShader else VertexShader
  }

  /** The binding a slot of a state block is for. */
  function NamedInBlock(b: nat): (x: Binding)
    requires b < BlockSlots()
    ensures x.Recordable() && x.BlockSlot() == b
  {
    if b == 0 then Declaration else if b == 1 then Indices else if b < 18 then Stream(b - 2)
    else if b < 38 then Texture(b - 18) else if b == 38 then PixelShader else VertexShader
  }

  /** The device slot a state block slot is captured from. */
  function Twin(b: nat): (d: nat)
    requires b < BlockSlots()
    ensures d < DeviceSlots()
  {
    NamedInBlock(b).Slot()
  }

  /** Every binding has a slot of its own, and every slot is some binding's. */
  lemma SlotsAreNames(x: Binding)
    requires x.Exists()
    ensures x.Slot() < DeviceSlots() && Named(x.Slot()) == x
    ensures x.Recordable() ==> x.BlockSlot() < BlockSlots() && NamedInBlock(x.BlockSlot()) == x
    ensures x.Recordable() ==> Twin(x.BlockSlot()) == x.Slot()
  {
  }

  function FirstVertexSampler(): nat { 257 }
  function LastVertexSampler(): nat { 260 }

  /** Texture samplers are 0 to 15; vertex texture samplers follow the one for
      displacement maps and are stored after the others. */
  function SamplerIndex(sampler: nat): (i: int)
    ensures i == -1 || 0 <= i < 20
    ensures i >= 0 <==> sampler < 16 || FirstVertexSampler() <= sampler <= LastVertexSampler()
  {
    if 16 <= sampler < FirstVertexSampler() || sampler > LastVertexSampler() then -1
    else if sampler >= FirstVertexSampler() then 16 + (sampler - FirstVertexSampler())
    else sampler
  }

  /** The samplers by number: sixteen, then four from 257 on, each with its own place. */
  lemma SamplerNumbers(sampler: nat, other: nat)
    ensures sampler < 16 ==> SamplerIndex(sampler) == sampler
    ensures 257 <= sampler <= 260 ==> SamplerIndex(sampler) == sampler - 241
    ensures SamplerIndex(sampler) == -1 <==> 16 <= sampler <= 256 || sampler > 260
    ensures SamplerIndex(sampler) >= 0 ==> Texture(SamplerIndex(sampler)).Exists()
    ensures SamplerIndex(sampler) >= 0 ==> (Texture(SamplerIndex(sampler)).IsVertexTexture() <==> sampler > 256)
    ensures SamplerIndex(sampler) == SamplerIndex(other) >= 0 ==> sampler == other
  {
  }

  /** The state block translates the number once more, in 32 bits. */
  function BlockSampler(index: nat): nat {
    if index < 16 then index else (index - FirstVertexSampler() + 16) % 0x1_0000_0000
  }

  /** From a number as the application gives it, it finds the same place. */
  lemma BlockSamplerAgrees(sampler: nat)
    requires SamplerIndex(sampler) >= 0
    ensures BlockSampler(sampler) == SamplerIndex(sampler)
  {
  }

  /** So a recorded vertex texture falls outside and is ignored. */
  lemma VertexTexturesAreNotRecorded(sampler: nat)
    requires SamplerIndex(sampler) >= 0
    ensures BlockSampler(SamplerIndex(sampler)) < 20 <==> sampler < 16
    ensures sampler < 16 ==> BlockSampler(SamplerIndex(sampler)) == sampler
  {
  }

  type Views = seq<seq<Unknown?>>

  ghost function Write(v: Views, k: nat, j: nat, o: Unknown?): (r: Views)
    requires k < |v| && j < |v[k]|
    ensures |r| == |v|
  {
    v[k := v[k][j := o]]
  }

  function IsVertexTexture(b: nat): bool {
    b < BlockSlots() && NamedInBlock(b).IsVertexTexture()
  }

  /** A block's slots after its first n were refreshed from the device. */
  ghost function Captured(device: seq<Unknown?>, block: seq<Unknown?>, captured: set<nat>, n: nat)
    : (r: seq<Unknown?>)
    requires |device| == DeviceSlots() && |block| == BlockSlots()
    ensures |r| == |block|
  {
    seq(|block|, b requires 0 <= b < |block| =>
      if b < n && b in captured && !IsVertexTexture(b) then device[Twin(b)] else block[b])
  }

  lemma CapturedNone(v: Views, k: nat, captured: set<nat>)
    requires 0 < k < |v| && |v[0]| == DeviceSlots() && |v[k]| == BlockSlots()
    ensures v[k := Captured(v[0], v[k], captured, 0)] == v
  {
    assert Captured(v[0], v[k], captured, 0) == v[k];
  }

  lemma CapturedNext(v: Views, k: nat, captured: set<nat>, b: nat)
    requires 0 < k < |v| && |v[0]| == DeviceSlots() && |v[k]| == BlockSlots() && b < BlockSlots()
    ensures var w := v[k := Captured(v[0], v[k], captured, b)];
            v[k := Captured(v[0], v[k], captured, b + 1)] ==
              if b in captured && !IsVertexTexture(b) then Write(w, k, b, v[0][Twin(b)]) else w
  {
    var (now, next) := (Captured(v[0], v[k], captured, b), Captured(v[0], v[k], captured, b + 1));
    assert next == if b in captured && !IsVertexTexture(b) then now[b := v[0][Twin(b)]] else now;
  }

  /** What a view holds for a binding: the device is the first, the others are blocks. */
  ghost function Held(v: Views, k: nat, x: Binding): Unknown?
    requires k < |v| && x.Exists() && (k > 0 ==> x.Recordable())
    requires |v[k]| == if k == 0 then DeviceSlots() else BlockSlots()
  {
    if k == 0 then v[k][x.Slot()] else v[k][x.BlockSlot()]
  }

  /** Writing the slot of a binding changes that binding and no other, in no other view. */
  lemma WriteIsNamed(v: Views, k: nat, x: Binding, y: Binding, o: Unknown?)
    requires k < |v| && x.Exists() && y.Exists() && (k > 0 ==> x.Recordable() && y.Recordable())
    requires |v[k]| == if k == 0 then DeviceSlots() else BlockSlots()
    ensures var w := Write(v, k, if k == 0 then x.Slot() else x.BlockSlot(), o);
            && Held(w, k, y) == (if y == x then o else Held(v, k, y))
            && forall i :: 0 <= i < |v| && i != k ==> w[i] == v[i]
  {
    SlotsAreNames(x);
    SlotsAreNames(y);
  }

  /** The bindings each kind of block is made of. */
  predicate IsOfKind(kind: Kind, x: Binding) {
    match kind
    case PixelState => x == PixelShader
    case VertexState => x == VertexShader || x == Declaration
    case AllState => true
  }

  /** A created block holds what the device holds for the bindings of its kind. */
  lemma CreatedIsNamed(device: seq<Unknown?>, kind: Kind, x: Binding)
    requires |device| == DeviceSlots() && x.Recordable()
    ensures Captured(device, seq(BlockSlots(), _ => null), KindSlots(kind), BlockSlots())[x.BlockSlot()]
         == if IsOfKind(kind, x) && !x.IsVertexTexture() then device[x.Slot()] else null
  {
    SlotsAreNames(x);
  }

  function IsStream(b: nat): bool { b < BlockSlots() && NamedInBlock(b).Stream? }

  /** The offsets or strides after the streams among the first n slots were refreshed. */
  function Layouts(device: seq<nat>, block: seq<nat>, captured: set<nat>, n: nat): (r: seq<nat>)
    requires |device| == |block| == 16
    ensures |r| == 16
  {
    seq(16, s requires 0 <= s < 16 =>
      if Stream(s).BlockSlot() < n && Stream(s).BlockSlot() in captured then device[s] else block[s])
  }

  function LayoutStep(device: seq<nat>, block: seq<nat>, captured: set<nat>, b: nat): (r: seq<nat>)
    requires |device| == |block| == 16
    ensures |r| == 16
  {
    if b in captured && IsStream(b) then block[NamedInBlock(b).stream := device[NamedInBlock(b).stream]] else block
  }

  lemma LayoutsNone(device: seq<nat>, block: seq<nat>, captured: set<nat>)
    requires |device| == |block| == 16
    ensures Layouts(device, block, captured, 0) == block
  {
  }

  lemma LayoutsNext(device: seq<nat>, block: seq<nat>, captured: set<nat>, b: nat)
    requires |device| == |block| == 16
    ensures Layouts(device, block, captured, b + 1)
         == LayoutStep(device, Layouts(device, block, captured, b), captured, b)
  {
  }

  lemma LayoutsAll(device: seq<nat>, block: seq<nat>)
    requires |device| == |block| == 16
    ensures Layouts(device, block, KindSlots(AllState), BlockSlots()) == device
  {
  }

  /** The kinds of state block an application can create in one call, besides recording
      one. */
  datatype Kind = PixelState | VertexState | AllState

  function KindSlots(kind: Kind): set<nat> {
    match kind
    case PixelState => {PixelShader.BlockSlot()}
    case VertexState => {VertexShader.BlockSlot(), Declaration.BlockSlot()}
    case AllState => SlotsBelow(BlockSlots())
  }

  function SlotsBelow(n: nat): (r: set<nat>)
    ensures forall b: nat :: b in r <==> b < n
  {
    if n == 0 then {} else SlotsBelow(n - 1) + {n - 1}
  }

  class StateBlock {
    const life: Unknown
    const slots: Table
    var captured: set<nat>
    var fvfCaptured: bool
    var fvf: nat
    var streamOffset: seq<nat>
    var streamStride: seq<nat>
    const registry: Registry
    ghost const id: nat

    ghost predicate Ready()
      reads this, registry
    {
      && registry.Owns(id, slots) && id > 0
      && slots.Length == BlockSlots()
      && |streamOffset| == |streamStride| == 16
    }

    constructor (registry: Registry)
      requires registry.Valid() && |registry.tables| > 0
      modifies registry`tables
      ensures registry.Valid() && this.registry == registry && Ready()
      ensures registry.tables == old(registry.tables) + [slots] && id == |old(registry.tables)|
      ensures registry.Views() == old(registry.Views()) + [seq(BlockSlots(), _ => null)]
      ensures fresh(slots) && fresh(life) && captured == {} && !fvfCaptured
      ensures life.referenceCount == life.bindCount == 0 && !life.deleted
    {
      this.registry := registry;
      id := |registry.tables|;
      captured, fvfCaptured, fvf := {}, false, 0;
      streamOffset, streamStride := seq(16, _ => 0), seq(16, _ => 0);
      life := new Unknown();
      var table := registry.NewTable(BlockSlots());
      slots := table;
    }

    /** The setters of a state block: remember the object and mark it captured. */
    method Record(b: nat, o: Unknown?)
      requires registry.Valid() && Ready() && b < BlockSlots() && registry.Usable(o)
      modifies slots, this`captured, registry.objects`bindCount, registry.objects`deleted
      ensures registry.Valid()
      ensures registry.Views() == Write(old(registry.Views()), id, b, o)
      ensures captured == old(captured) + {b}
    {
      Put(registry, id, slots, b, o);
      captured := captured + {b};
    }

    method SetStreamSource(stream: nat, o: Unknown?, offset: nat, stride: nat)
      requires registry.Valid() && Ready() && stream < 16 && registry.Usable(o)
      modifies slots, this`captured, this`streamOffset, this`streamStride
      modifies registry.objects`bindCount, registry.objects`deleted
      ensures registry.Valid() && Ready()
      ensures registry.Views() == Write(old(registry.Views()), id, Stream(stream).BlockSlot(), o)
      ensures captured == old(captured) + {Stream(stream).BlockSlot()}
      ensures streamOffset == old(streamOffset)[stream := offset]
      ensures streamStride == old(streamStride)[stream := stride]
    {
      Record(Stream(stream).BlockSlot(), o);
      StoreLayout(stream, offset, stride);
    }

    /** The offset and the stride come with the buffer of a stream. */
    method StoreLayout(stream: nat, offset: nat, stride: nat)
      requires |streamOffset| == |streamStride| == 16 && stream < 16
      modifies this`streamOffset, this`streamStride
      ensures streamOffset == old(streamOffset)[stream := offset]
      ensures streamStride == old(streamStride)[stream := stride]
    {
      streamOffset, streamStride := streamOffset[stream := offset], streamStride[stream := stride];
    }

    method SetFVF(format: nat)
      modifies this`fvfCaptured, this`fvf
      ensures fvfCaptured && fvf == format
    {
      fvfCaptured, fvf := true, format;
    }

    method SetTexture(index: nat, o: Unknown?)
      requires registry.Valid() && Ready() && registry.Usable(o)
      modifies slots, this`captured, registry.objects`bindCount, registry.objects`deleted
      ensures registry.Valid()
      ensures registry.Views() == if BlockSampler(index) < 20
                                  then Write(old(registry.Views()), id, Texture(BlockSampler(index)).BlockSlot(), o)
                                  else old(registry.Views())
      ensures captured == if BlockSampler(index) < 20
                          then old(captured) + {Texture(BlockSampler(index)).BlockSlot()} else old(captured)
    {
      var sampler := BlockSampler(index);
      if sampler >= 20 {
        return;
      }
      Record(Texture(sampler).BlockSlot(), o);
    }

    /** The reference that reading the device slot takes is given back once the
        block has its own bind. */
    method CaptureSlot(device: Table, b: nat)
      requires registry.Valid() && Ready() && b < BlockSlots()
      requires registry.Owns(0, device) && device.Length == DeviceSlots()
      modifies slots, registry.objects`referenceCount, registry.objects`bindCount, registry.objects`deleted
      ensures registry.Valid()
      ensures registry.Views() == Write(old(registry.Views()), id, b, old(device[Twin(b)]))
      ensures forall o <- registry.objects :: o.referenceCount == old(o.referenceCount)
    {
      var o := device[Twin(b)];
      if o == null {
        Put(registry, id, slots, b, null);
      } else {
        NoDanglingSlot(registry.Views(), registry.objects, 0, Twin(b));
        PutReferenced(b, o);
      }
    }

    method PutReferenced(b: nat, o: Unknown)
      requires registry.Valid() && Ready() && b < BlockSlots()
      requires o in registry.objects && !o.deleted
      modifies slots, registry.objects`referenceCount, registry.objects`bindCount, registry.objects`deleted
      ensures registry.Valid()
      ensures registry.Views() == Write(old(registry.Views()), id, b, o)
      ensures forall x <- registry.objects :: x.referenceCount == old(x.referenceCount)
    {
      registry.Acquire(o);
      assert registry.Views() == old(registry.Views());
      Put(registry, id, slots, b, o);
      ghost var after := registry.Views();
      registry.Release(o);
      assert registry.Views() == after;
    }

    /** One slot of a block, if it was captured. */
    method CaptureOne(device: Table, offsets: seq<nat>, strides: seq<nat>, b: nat)
      requires registry.Valid() && Ready() && |offsets| == |strides| == 16 && b < BlockSlots()
      requires registry.Owns(0, device) && device.Length == DeviceSlots()
      modifies slots, this`streamOffset, this`streamStride
      modifies registry.objects`referenceCount, registry.objects`bindCount, registry.objects`deleted
      ensures registry.Valid() && Ready()
      ensures registry.Views() == if b in captured && !IsVertexTexture(b)
                                  then Write(old(registry.Views()), id, b, old(device[Twin(b)]))
                                  else old(registry.Views())
      ensures streamOffset == LayoutStep(offsets, old(streamOffset), captured, b)
      ensures streamStride == LayoutStep(strides, old(streamStride), captured, b)
      ensures forall o <- registry.objects :: o.referenceCount == old(o.referenceCount)
    {
      if b in captured && !IsVertexTexture(b) {
        CaptureSlot(device, b);
        if IsStream(b) {
          var stream := NamedInBlock(b).stream;
          StoreLayout(stream, offsets[stream], strides[stream]);
        }
      }
    }

    /** Refreshes what was captured from the device. */
    method Capture(device: Table, offsets: seq<nat>, strides: seq<nat>)
      requires registry.Valid() && Ready() && |offsets| == |strides| == 16
      requires registry.Owns(0, device) && device.Length == DeviceSlots()
      modifies slots, this`streamOffset, this`streamStride
      modifies registry.objects`referenceCount, registry.objects`bindCount, registry.objects`deleted
      ensures registry.Valid() && Ready()
      ensures var v := old(registry.Views());
              registry.Views() == v[id := Captured(v[0], v[id], captured, BlockSlots())]
      ensures streamOffset == Layouts(offsets, old(streamOffset), captured, BlockSlots())
      ensures streamStride == Layouts(strides, old(streamStride), captured, BlockSlots())
      ensures forall o <- registry.objects :: o.referenceCount == old(o.referenceCount)
    {
      ghost var (v, o, s) := (registry.Views(), streamOffset, streamStride);
      CapturedNone(v, id, captured);
      LayoutsNone(offsets, o, captured);
      LayoutsNone(strides, s, captured);
      for b := 0 to BlockSlots()
        invariant registry.Valid() && Ready()
        invariant registry.Views() == v[id := Captured(v[0], v[id], captured, b)]
        invariant streamOffset == Layouts(offsets, o, captured, b) && streamStride == Layouts(strides, s, captured, b)
        invariant forall o <- registry.objects :: o.referenceCount == old(o.referenceCount)
      {
        CaptureNext(device, offsets, strides, b, v, o, s);
      }
    }

    method CaptureNext(device: Table, offsets: seq<nat>, strides: seq<nat>, b: nat,
                       ghost v: Views, ghost o: seq<nat>, ghost s: seq<nat>)
      requires registry.Valid() && Ready() && |offsets| == |strides| == |o| == |s| == 16 && b < BlockSlots()
      requires registry.Owns(0, device) && device.Length == DeviceSlots()
      requires id < |v| && |v[0]| == DeviceSlots() && |v[id]| == BlockSlots()
      requires registry.Views() == v[id := Captured(v[0], v[id], captured, b)]
      requires streamOffset == Layouts(offsets, o, captured, b) && streamStride == Layouts(strides, s, captured, b)
      modifies slots, this`streamOffset, this`streamStride
      modifies registry.objects`referenceCount, registry.objects`bindCount, registry.objects`deleted
      ensures registry.Valid() && Ready()
      ensures registry.Views() == v[id := Captured(v[0], v[id], captured, b + 1)]
      ensures streamOffset == Layouts(offsets, o, captured, b + 1)
      ensures streamStride == Layouts(strides, s, captured, b + 1)
      ensures forall o <- registry.objects :: o.referenceCount == old(o.referenceCount)
    {
      assert device[..] == v[0];
      CaptureOne(device, offsets, strides, b);
      CapturedNext(v, id, captured, b);
      LayoutsNext(offsets, o, captured, b);
      LayoutsNext(strides, s, captured, b);
    }

    /** Marks what a kind of block captures; the vertex format is the device's. */
    method Choose(kind: Kind, format: nat)
      modifies this`captured, this`fvfCaptured, this`fvf
      ensures captured == KindSlots(kind)
      ensures fvfCaptured <==> old(fvfCaptured) || kind != PixelState
      ensures fvf == if kind == PixelState then old(fvf) else format
    {
      captured := KindSlots(kind);
      if kind != PixelState {
        fvfCaptured, fvf := true, format;
      }
    }

    /** Forgets everything, as on destruction. */
    method Clear()
      requires registry.Valid() && Ready()
      modifies slots, this`captured, this`fvfCaptured, registry.objects`bindCount, registry.objects`deleted
      ensures registry.Valid()
      ensures registry.Views() == old(registry.Views())[id := seq(BlockSlots(), _ => null)]
      ensures captured == {} && !fvfCaptured
    {
      captured, fvfCaptured := {}, false;
      ClearTable(registry, id, slots);
    }

    /** The application's release of a finished block.  With its last reference the
        block is deleted, and its destructor clears it. */
    method Release() returns (current: int)
      requires registry.Valid() && Ready() && life !in registry.objects && !life.deleted
      modifies slots, this`captured, this`fvfCaptured, life`referenceCount, life`deleted
      modifies registry.objects`bindCount, registry.objects`deleted
      ensures registry.Valid() && Ready()
      ensures current == life.referenceCount == if old(life.referenceCount) > 0 then old(life.referenceCount) - 1
                                                else old(life.referenceCount)
      ensures life.deleted <==> life.referenceCount == 0 && life.bindCount == 0
      ensures registry.Views() == if life.deleted then old(registry.Views())[id := seq(BlockSlots(), _ => null)]
                                  else old(registry.Views())
      ensures if life.deleted then captured == {} && !fvfCaptured
              else captured == old(captured) && fvfCaptured == old(fvfCaptured)
    {
      current := life.Release();
      assert registry.Valid() && registry.Views() == old(registry.Views());
      if life.referenceCount == 0 && life.bindCount == 0 {
        Clear();
      }
    }

    /** The last bind of a block that nothing references is given back: it is deleted,
        and its destructor clears it. */
    method Abandon()
      requires registry.Valid() && Ready() && life !in registry.objects
      requires life.referenceCount == 0 && life.bindCount == 1 && !life.deleted
      modifies slots, this, life, registry.objects`bindCount, registry.objects`deleted
      ensures registry.Valid() && life.deleted
      ensures registry.Views() == old(registry.Views())[id := seq(BlockSlots(), _ => null)]
    {
      life.Unbind();
      assert registry.Valid() && registry.Views() == old(registry.Views());
      Clear();
    }
  }

  class Device {
    const slots: Table
    var recorder: StateBlock?
    var streamOffset: seq<nat>
    var streamStride: seq<nat>
    const registry: Registry

    ghost predicate Valid()
      reads this, registry, registry.tables, registry.objects, recorder,
            if recorder != null then {recorder.life} else {}
    {
      && registry.Valid()
      && registry.Owns(0, slots) && slots.Length == DeviceSlots()
      && |streamOffset| == |streamStride| == 16
      && (recorder != null ==> Recording(recorder))
    }

    /** A block that is being recorded lives by the device's bind. */
    ghost predicate Recording(block: StateBlock)
      reads this, registry, block, block.life
    {
      && block.registry == registry && block.Ready() && block.life !in registry.objects
      && block.life.referenceCount == 0 && block.life.bindCount == 1 && !block.life.deleted
    }

    /** The effect every recordable setter has. */
    ghost function Written(v: Views, x: Binding, o: Unknown?): Views
      reads this
      requires x.Recordable()
      requires |v| > 0 && |v[0]| == DeviceSlots()
      requires recorder != null ==> recorder.id < |v| && |v[recorder.id]| == BlockSlots()
    {
      if recorder == null then Write(v, 0, x.Slot(), o) else Write(v, recorder.id, x.BlockSlot(), o)
    }

    /** One binding of the device changes, or the same one of the block that is being
        recorded and none of the device. */
    lemma WrittenIsNamed(v: Views, x: Binding, y: Binding, o: Unknown?)
      requires x.Recordable() && y.Exists() && |v| > 0 && |v[0]| == DeviceSlots()
      requires recorder != null ==> 0 < recorder.id < |v| && |v[recorder.id]| == BlockSlots()
      ensures Held(Written(v, x, o), 0, y) == if recorder == null && y == x then o else Held(v, 0, y)
      ensures recorder != null && y.Recordable() ==>
                Held(Written(v, x, o), recorder.id, y) == if y == x then o else Held(v, recorder.id, y)
    {
      SlotsAreNames(x);
      SlotsAreNames(y);
    }

    constructor (registry: Registry)
      requires registry.Valid() && registry.tables == []
      modifies registry`tables
      ensures Valid() && this.registry == registry && recorder == null
      ensures registry.Views() == [seq(DeviceSlots(), _ => null)]
      ensures fresh(slots)
    {
      this.registry := registry;
      recorder := null;
      streamOffset, streamStride := seq(16, _ => 0), seq(16, _ => 0);
      var table := registry.NewTable(DeviceSlots());
      slots := table;
    }

    method Replace(d: nat, o: Unknown?)
      requires Valid() && registry.Usable(o) && d < DeviceSlots()
      modifies slots, registry.objects`bindCount, registry.objects`deleted
      ensures Valid() && registry.Views() == Write(old(registry.Views()), 0, d, o)
    {
      Put(registry, 0, slots, d, o);
    }

    lemma Unchanged(d: nat)
      requires Valid() && d < DeviceSlots()
      ensures registry.Views() == Write(registry.Views(), 0, d, slots[d])
    {
      assert slots[..] == slots[..][d := slots[d]];
    }

    /** Outside recording: nothing to do for the object that is already there. */
    method SetSlot(d: nat, o: Unknown?)
      requires Valid() && registry.Usable(o) && d < DeviceSlots()
      modifies slots, registry.objects`bindCount, registry.objects`deleted
      ensures Valid() && registry.Views() == Write(old(registry.Views()), 0, d, o)
    {
      if slots[d] == o {
        Unchanged(d);
        return;
      }
      Replace(d, o);
    }

    /** The pattern of the recordable setters. */
    method SetOrRecord(x: Binding, o: Unknown?)
      requires Valid() && registry.Usable(o) && x.Recordable()
      modifies slots, registry.objects`bindCount, registry.objects`deleted
      modifies if recorder != null then {recorder.slots as object, recorder} else {}
      ensures Valid() && registry.Views() == Written(old(registry.Views()), x, o)
    {
      if recorder == null {
        SetSlot(x.Slot(), o);
      } else {
        recorder.Record(x.BlockSlot(), o);
      }
    }

    method SetDepthStencilSurface(o: Unknown?) returns (code: Code)
      requires Valid() && registry.Usable(o)
      modifies slots, registry.objects`bindCount, registry.objects`deleted
      ensures Valid() && code == Ok
      ensures registry.Views() == Write(old(registry.Views()), 0, DepthStencil.Slot(), o)
    {
      SetSlot(DepthStencil.Slot(), o);
      code := Ok;
    }

    /** The first render target cannot be removed. A target that is already set is
        bound and unbound again. */
    method SetRenderTarget(index: nat, o: Unknown?) returns (code: Code)
      requires Valid() && registry.Usable(o)
      modifies slots, registry.objects`bindCount, registry.objects`deleted
      ensures Valid()
      ensures code == InvalidCall <==> index >= 4 || (index == 0 && o == null)
      ensures registry.Views() == if code == InvalidCall then old(registry.Views())
                                  else Write(old(registry.Views()), 0, RenderTarget(index).Slot(), o)
    {
      if index >= 4 || (index == 0 && o == null) {
        return InvalidCall;
      }
      Replace(RenderTarget(index).Slot(), o);
      code := Ok;
    }

    method SetIndices(o: Unknown?) returns (code: Code)
      requires Valid() && registry.Usable(o)
      modifies slots, registry.objects`bindCount, registry.objects`deleted
      modifies if recorder != null then {recorder.slots as object, recorder} else {}
      ensures Valid() && code == Ok
      ensures registry.Views() == Written(old(registry.Views()), Indices, o)
    {
      SetOrRecord(Indices, o);
      code := Ok;
    }

    method SetVertexDeclaration(o: Unknown?) returns (code: Code)
      requires Valid() && registry.Usable(o)
      modifies slots, registry.objects`bindCount, registry.objects`deleted
      modifies if recorder != null then {recorder.slots as object, recorder} else {}
      ensures Valid() && code == Ok
      ensures registry.Views() == Written(old(registry.Views()), Declaration, o)
    {
      SetOrRecord(Declaration, o);
      code := Ok;
    }

    method SetPixelShader(o: Unknown?) returns (code: Code)
      requires Valid() && registry.Usable(o)
      modifies slots, registry.objects`bindCount, registry.objects`deleted
      modifies if recorder != null then {recorder.slots as object, recorder} else {}
      ensures Valid() && code == Ok
      ensures registry.Views() == Written(old(registry.Views()), PixelShader, o)
    {
      SetOrRecord(PixelShader, o);
      code := Ok;
    }

    method SetVertexShader(o: Unknown?) returns (code: Code)
      requires Valid() && registry.Usable(o)
      modifies slots, registry.objects`bindCount, registry.objects`deleted
      modifies if recorder != null then {recorder.slots as object, recorder} else {}
      ensures Valid() && code == Ok
      ensures registry.Views() == Written(old(registry.Views()), VertexShader, o)
    {
      SetOrRecord(VertexShader, o);
      code := Ok;
    }

    method StoreLayout(stream: nat, offset: nat, stride: nat)
      requires Valid() && stream < 16
      modifies this`streamOffset, this`streamStride
      ensures Valid() && registry.Views() == old(registry.Views())
      ensures streamOffset == old(streamOffset)[stream := offset]
      ensures streamStride == old(streamStride)[stream := stride]
    {
      streamOffset := streamOffset[stream := offset];
      streamStride := streamStride[stream := stride];
    }

    /** A buffer already in its slot is left alone only if its layout is the same;
        otherwise it is bound and unbound again. */
    method SetStream(stream: nat, o: Unknown?, offset: nat, stride: nat)
      requires Valid() && registry.Usable(o) && stream < 16
      modifies slots, this`streamOffset, this`streamStride, registry.objects`bindCount, registry.objects`deleted
      ensures Valid()
      ensures registry.Views() == Write(old(registry.Views()), 0, Stream(stream).Slot(), o)
      ensures streamOffset == old(streamOffset)[stream := offset]
      ensures streamStride == old(streamStride)[stream := stride]
    {
      if slots[Stream(stream).Slot()] == o && streamOffset[stream] == offset && streamStride[stream] == stride {
        Unchanged(Stream(stream).Slot());
        return;
      }
      Replace(Stream(stream).Slot(), o);
      StoreLayout(stream, offset, stride);
    }

    method SetStreamSource(stream: nat, o: Unknown?, offset: nat, stride: nat) returns (code: Code)
      requires Valid() && registry.Usable(o) && stream < 16
      modifies slots, this`streamOffset, this`streamStride, registry.objects`bindCount, registry.objects`deleted
      modifies if recorder != null then {recorder.slots as object, recorder} else {}
      ensures Valid() && code == Ok
      ensures registry.Views() == Written(old(registry.Views()), Stream(stream), o)
      ensures recorder == null ==> streamOffset == old(streamOffset)[stream := offset]
      ensures recorder == null ==> streamStride == old(streamStride)[stream := stride]
      ensures recorder != null ==> recorder.streamOffset == old(recorder.streamOffset)[stream := offset]
      ensures recorder != null ==> recorder.streamStride == old(recorder.streamStride)[stream := stride]
    {
      code := Ok;
      if recorder == null {
        SetStream(stream, o, offset, stride);
      } else {
        recorder.SetStreamSource(stream, o, offset, stride);
      }
    }

    method SetTexture(sampler: nat, o: Unknown?) returns (code: Code)
      requires Valid() && registry.Usable(o)
      modifies slots, registry.objects`bindCount, registry.objects`deleted
      modifies if recorder != null then {recorder.slots as object, recorder} else {}
      ensures Valid()
      ensures code == InvalidCall <==> SamplerIndex(sampler) == -1
      ensures var v := old(registry.Views());
              registry.Views() ==
                if code == InvalidCall || (recorder != null && sampler >= 16) then v
                else if recorder == null then Write(v, 0, Texture(SamplerIndex(sampler)).Slot(), o)
                else Write(v, recorder.id, Texture(sampler).BlockSlot(), o)
    {
      var index := SamplerIndex(sampler);
      if index == -1 {
        return InvalidCall;
      }
      VertexTexturesAreNotRecorded(sampler);
      if recorder == null {
        SetSlot(Texture(index).Slot(), o);
      } else {
        recorder.SetTexture(index, o);
      }
      code := Ok;
    }

    /** A vertex format is turned into a declaration that only the device binds. */
    method SetFVF(format: nat) returns (code: Code, made: Unknown?)
      requires Valid()
      modifies registry`objects, slots, registry.objects`bindCount, registry.objects`deleted
      modifies if recorder != null then {recorder} else {}
      ensures Valid() && code == Ok
      ensures recorder != null ==> recorder.fvfCaptured && recorder.fvf == format
      ensures made != null <==> recorder == null && (format != 0 || old(slots[Declaration.Slot()]) == null)
      ensures made == null ==> registry.Views() == old(registry.Views())
      ensures made != null ==> fresh(made) && made.referenceCount == 0
      ensures made != null ==> registry.Views() == Write(old(registry.Views()), 0, Declaration.Slot(), made)
    {
      code, made := Ok, null;
      if recorder == null {
        if format != 0 || slots[Declaration.Slot()] == null {
          made := PutNew(registry, 0, slots, Declaration.Slot());
        }
      } else {
        recorder.SetFVF(format);
      }
    }

    lemma LastView(v: Views, r: seq<Unknown?>, s: seq<Unknown?>)
      ensures (v + [r])[|v| := s] == v + [s]
    {
    }

    /** A block of a kind, apart from its slots. */
    ghost predicate Chosen(block: StateBlock, kind: Kind, format: nat)
      reads this, registry, block
    {
      && block.registry == registry && block.Ready() && block.life !in registry.objects && block != recorder
      && block.captured == KindSlots(kind) && (block.fvfCaptured <==> kind != PixelState)
      && (kind != PixelState ==> block.fvf == format)
    }

    method NewEmpty() returns (block: StateBlock)
      requires Valid()
      modifies registry`tables
      ensures Valid() && fresh(block) && fresh(block.life) && fresh(block.slots)
      ensures block.registry == registry && block.Ready() && block.id == |old(registry.tables)|
      ensures block.life.referenceCount == block.life.bindCount == 0 && !block.life.deleted && !block.fvfCaptured
      ensures registry.Views() == old(registry.Views()) + [seq(BlockSlots(), _ => null)]
    {
      block := new StateBlock(registry);
    }

    method NewBlock(kind: Kind, format: nat) returns (block: StateBlock)
      requires Valid()
      modifies registry`tables
      ensures Valid() && fresh(block) && fresh(block.life) && fresh(block.slots)
      ensures Chosen(block, kind, format) && block.id == |old(registry.tables)|
      ensures block.life.referenceCount == block.life.bindCount == 0 && !block.life.deleted
      ensures registry.Views() == old(registry.Views()) + [seq(BlockSlots(), _ => null)]
    {
      block := NewEmpty();
      block.Choose(kind, format);
    }

    ghost function Filled(v: Views, kind: Kind): Views
      requires |v| > 0 && |v[0]| == DeviceSlots()
    {
      v + [Captured(v[0], seq(BlockSlots(), _ => null), KindSlots(kind), BlockSlots())]
    }

    /** It takes what the device holds. */
    method FillBlock(block: StateBlock, kind: Kind, format: nat, ghost v: Views)
      requires Valid() && Chosen(block, kind, format) && block.id == |v| > 0 && |v[0]| == DeviceSlots()
      requires registry.Views() == v + [seq(BlockSlots(), _ => null)]
      modifies block.slots, block`streamOffset, block`streamStride
      modifies registry.objects`referenceCount, registry.objects`bindCount, registry.objects`deleted
      ensures Valid() && Chosen(block, kind, format) && registry.Views() == Filled(v, kind)
      ensures kind == AllState ==> block.streamOffset == streamOffset && block.streamStride == streamStride
      ensures forall o <- registry.objects :: o.referenceCount == old(o.referenceCount)
    {
      ghost var empty := seq(BlockSlots(), _ => null);
      LayoutsAll(streamOffset, block.streamOffset);
      LayoutsAll(streamStride, block.streamStride);
      block.Capture(slots, streamOffset, streamStride);
      LastView(v, empty, Captured(v[0], empty, KindSlots(kind), BlockSlots()));
    }

    /** A block of one of the kinds is filled at once, and lives by the application's
        reference. */
    method CreateStateBlock(kind: Kind, format: nat) returns (block: StateBlock)
      requires Valid()
      modifies registry`tables
      modifies registry.objects`referenceCount, registry.objects`bindCount, registry.objects`deleted
      ensures Valid() && fresh(block) && Chosen(block, kind, format)
      ensures block.life.referenceCount == 1 && block.life.bindCount == 0
      ensures kind == AllState ==> block.streamOffset == streamOffset && block.streamStride == streamStride
      ensures registry.Views() == Filled(old(registry.Views()), kind)
      ensures forall o <- registry.objects :: o.referenceCount == old(o.referenceCount)
    {
      block := FilledBlock(kind, format);
      Reference(block.life);
    }

    method FilledBlock(kind: Kind, format: nat) returns (block: StateBlock)
      requires Valid()
      modifies registry`tables
      modifies registry.objects`referenceCount, registry.objects`bindCount, registry.objects`deleted
      ensures Valid() && fresh(block) && fresh(block.life) && Chosen(block, kind, format)
      ensures block.life.referenceCount == block.life.bindCount == 0 && !block.life.deleted
      ensures kind == AllState ==> block.streamOffset == streamOffset && block.streamStride == streamStride
      ensures registry.Views() == Filled(old(registry.Views()), kind)
      ensures forall o <- registry.objects :: o.referenceCount == old(o.referenceCount)
    {
      ghost var v := registry.Views();
      block := NewBlock(kind, format);
      FillBlock(block, kind, format, v);
    }

    /** A reference to what is no binding of the device. */
    method Reference(life: Unknown)
      requires Valid() && life !in registry.objects && !life.deleted
      requires recorder != null ==> life != recorder.life
      modifies life`referenceCount
      ensures Valid() && life.referenceCount == old(life.referenceCount) + 1
      ensures registry.Views() == old(registry.Views())
    {
      var _ := life.AddRef();
    }

    method NewRecorder() returns (block: StateBlock)
      requires Valid() && recorder == null
      modifies registry`tables
      ensures Valid() && Recording(block) && fresh(block)
      ensures registry.Views() == old(registry.Views()) + [seq(BlockSlots(), _ => null)]
    {
      block := NewEmpty();
      block.life.Bind();
    }

    method BeginStateBlock() returns (code: Code)
      requires Valid()
      modifies this`recorder, registry`tables
      ensures Valid()
      ensures code == InvalidCall <==> old(recorder) != null
      ensures code == InvalidCall ==> recorder == old(recorder) && registry.Views() == old(registry.Views())
      ensures code == Ok ==> recorder != null && fresh(recorder)
      ensures code == Ok ==> registry.Views() == old(registry.Views()) + [seq(BlockSlots(), _ => null)]
    {
      if recorder != null {
        return InvalidCall;
      }
      recorder := NewRecorder();
      code := Ok;
    }

    /** The application's reference is taken before the device lets go, so the
        block is never deleted in between.  Without a place for the result nothing
        happens. */
    method EndStateBlock(hasOutput: bool) returns (code: Code, block: StateBlock?)
      requires Valid()
      modifies this`recorder, if recorder != null then {recorder.life} else {}
      ensures Valid() && registry.Views() == old(registry.Views())
      ensures code == InvalidCall <==> !hasOutput || old(recorder) == null
      ensures code == InvalidCall ==> recorder == old(recorder) && block == null
      ensures code == Ok ==> recorder == null && block == old(recorder)
      ensures code == Ok ==> block.life.referenceCount == 1 && block.life.bindCount == 0 && !block.life.deleted
      ensures code == Ok ==> block.registry == registry && block.Ready() && block.life !in registry.objects
    {
      if !hasOutput || recorder == null {
        return InvalidCall, null;
      }
      block := recorder;
      var _ := recorder.life.AddRef();
      recorder.life.Unbind();
      recorder := null;
      code := Ok;
    }

    /** A block that has been handed over is the application's to release. */
    method ReleaseBlock(block: StateBlock) returns (current: int)
      requires Valid() && block != recorder && block.registry == registry && block.Ready()
      requires block.life !in registry.objects && !block.life.deleted
      requires recorder != null ==> block.life != recorder.life
      modifies block.slots, block`captured, block`fvfCaptured, block.life`referenceCount, block.life`deleted
      modifies registry.objects`bindCount, registry.objects`deleted
      ensures Valid()
      ensures current == block.life.referenceCount
      ensures old(block.life.referenceCount) > 0 ==> current == old(block.life.referenceCount) - 1
      ensures block.life.deleted <==> current == 0 && block.life.bindCount == 0
      ensures registry.Views() == if block.life.deleted
                                  then old(registry.Views())[block.id := seq(BlockSlots(), _ => null)]
                                  else old(registry.Views())
    {
      current := block.Release();
    }

    /** The destructor releases every slot, and a block that is still being recorded,
        which nothing else holds. */
    method Destroy()
      requires Valid()
      modifies slots, this`recorder, registry.objects`bindCount, registry.objects`deleted
      modifies if recorder != null then {recorder as object, recorder.slots, recorder.life} else {}
      ensures Valid() && recorder == null
      ensures old(recorder) != null ==> old(recorder).life.deleted
      ensures var v := old(registry.Views())[0 := seq(DeviceSlots(), _ => null)];
              registry.Views() == if old(recorder) == null then v
                                  else v[old(recorder).id := seq(BlockSlots(), _ => null)]
    {
      ClearTable(registry, 0, slots);
      if recorder != null {
        recorder.Abandon();
        recorder := null;
      }
    }
  }
}
