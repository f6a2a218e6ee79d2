/** The pose estimator object: the engine it loaded, the binding indices of
    its input and output tensors, and the table of device buffers it
    allocates in its constructor and releases in its destructor. Device
    memory is an abstract allocator; the network itself is a function
    parameter of detect. */
module PoseEngine {
  import opened Wrappers
  import opened PoseKeypoints
  import opened PosePreprocess

  /** One image per inference. */
  const BatchSize: nat := 1

  /** The buffer table has room for three bindings (one input, two outputs). */
  const MaxBindings: nat := 3

  /** Tensor names looked up in the engine. */
  const InputTensor: string := "input.1"
  const OutputTensor: string := "onnx::Concat_2957"
  const FallbackOutputTensor: string := "2990"

  /** A binding of a deserialised engine: its tensor name and dimensions. */
  datatype Binding = Binding(name: string, dims: seq<nat>)

  datatype Engine = Engine(bindings: seq<Binding>)

  /** How far loadEngine got: the engine file could not be read, the
      runtime, the engine or the execution context could not be created, or
      everything succeeded. */
  datatype LoadResult =
    | FileUnreadable
    | RuntimeFailed
    | EngineFailed
    | ContextFailed(engine: Engine)
    | Loaded(engine: Engine)

  /** The runtime, engine and context the estimator holds after loadEngine,
      whether or not it succeeded. */
  predicate HasRuntime(load: LoadResult)
  {
    !(load.FileUnreadable? || load.RuntimeFailed?)
  }

  function EngineOf(load: LoadResult): Option<Engine>
  {
    if load.ContextFailed? || load.Loaded? then Some(load.engine) else None
  }

  /** getBindingIndex: the index of the binding named `name` (the first, if
      several are), or -1 if there is none. */
  function BindingIndex(engine: Engine, name: string): (r: int)
    ensures -1 <= r < |engine.bindings|
    ensures r >= 0 ==> engine.bindings[r].name == name && forall j :: 0 <= j < r ==> engine.bindings[j].name != name
    ensures r == -1 <==> forall j :: 0 <= j < |engine.bindings| ==> engine.bindings[j].name != name
  {
    FindFrom(engine.bindings, name, 0)
  }

  function FindFrom(bindings: seq<Binding>, name: string, i: nat): (r: int)
    requires i <= |bindings|
    ensures r == -1 || i <= r < |bindings|
    ensures r >= 0 ==> bindings[r].name == name && forall j :: i <= j < r ==> bindings[j].name != name
    ensures r == -1 <==> forall j :: i <= j < |bindings| ==> bindings[j].name != name
    decreases |bindings| - i
  {
    if i == |bindings| then -1
    else if bindings[i].name == name then i
    else FindFrom(bindings, name, i + 1)
  }

  /** The output binding: the first output tensor, or the second one when
      the first is missing. */
  function OutputIndex(engine: Engine): int
  {
    var primary := BindingIndex(engine, OutputTensor);
    if primary == -1 then BindingIndex(engine, FallbackOutputTensor) else primary
  }

  /** The fallback name is consulted only when the first output tensor is
      missing, and -1 means neither exists. */
  lemma OutputIndexFallback(engine: Engine)
    ensures (exists j :: 0 <= j < |engine.bindings| && engine.bindings[j].name == OutputTensor) ==>
      OutputIndex(engine) == BindingIndex(engine, OutputTensor) && OutputIndex(engine) >= 0
    ensures (forall j :: 0 <= j < |engine.bindings| ==> engine.bindings[j].name != OutputTensor) ==>
      OutputIndex(engine) == BindingIndex(engine, FallbackOutputTensor)
    ensures OutputIndex(engine) == -1 <==>
      forall j :: 0 <= j < |engine.bindings| ==>
        engine.bindings[j].name != OutputTensor && engine.bindings[j].name != FallbackOutputTensor
  {
  }

  /** The constructor allocates only when loadEngine succeeded and both the
      input and an output binding were found. */
  predicate Allocates(load: LoadResult)
  {
    load.Loaded? && BindingIndex(load.engine, InputTensor) != -1 && OutputIndex(load.engine) != -1
  }

  /** The number of elements a tensor of these dimensions holds. */
  function Product(dims: seq<nat>): nat
  {
    if dims == [] then 1 else Product(dims[..|dims| - 1]) * dims[|dims| - 1]
  }

  /** Floats allocated for binding i: the batch size times its element count. */
  function BindingSize(engine: Engine, i: nat): nat
    requires i < |engine.bindings|
  {
    BatchSize * Product(engine.bindings[i].dims)
  }

  /** The element count of a tensor scaled by `init`, multiplied out one
      dimension at a time as the constructor's loops do. */
  method ScaledProduct(init: nat, dims: seq<nat>) returns (size: nat)
    ensures size == init * Product(dims)
  {
    size := init;
    for j := 0 to |dims|
      invariant size == init * Product(dims[..j])
    {
      assert dims[..j + 1][..j] == dims[..j];
      size := size * dims[j];
    }
    assert dims[..|dims|] == dims;
  }

  /** The buffer ids lo .. lo+n-1. */
  function IdRange(lo: nat, n: nat): set<nat>
  {
    if n == 0 then {} else IdRange(lo, n - 1) + {lo + n - 1}
  }

  /** A device buffer handle: null, or a buffer the allocator handed out. */
  datatype DevicePtr = Null | Ptr(id: nat)

  /** The handles the destructor passes to cudaFree: the non-null entries
      among the first numBindings of the table, numBindings being 0 without
      an engine. */
  function DestructorFrees(engine: Option<Engine>, table: seq<DevicePtr>): seq<DevicePtr>
  {
    var n := if engine.Some? then |engine.value.bindings| else 0;
    FreesBelow(table, if n <= |table| then n else |table|)
  }

  function FreesBelow(table: seq<DevicePtr>, n: nat): seq<DevicePtr>
    requires n <= |table|
  {
    if n == 0 then [] else FreesBelow(table, n - 1) + (if table[n - 1].Ptr? then [table[n - 1]] else [])
  }

  /** The ids of the non-null entries of a table. */
  function LiveIds(table: seq<DevicePtr>): set<nat>
  {
    set i | 0 <= i < |table| && table[i].Ptr? :: table[i].id
  }

  /** The destructor frees exactly the non-null entries below numBindings. */
  lemma {:induction false} FreesBelowExactly(table: seq<DevicePtr>, n: nat)
    requires n <= |table|
    ensures forall p :: p in FreesBelow(table, n) ==> p.Ptr? && exists i :: 0 <= i < n && table[i] == p
    ensures forall i :: 0 <= i < n && table[i].Ptr? ==> table[i] in FreesBelow(table, n)
  {
    if n > 0 {
      FreesBelowExactly(table, n - 1);
    }
  }

  /** For a table whose entries from n on are null, as in a valid estimator,
      the handles freed below n are exactly the live ids of the whole table:
      the ids Destroy removes from the device. */
  lemma FreesBelowAreLiveIds(table: seq<DevicePtr>, n: nat)
    requires n <= |table| && forall i :: n <= i < |table| ==> table[i] == Null
    ensures forall id :: Ptr(id) in FreesBelow(table, n) <==> id in LiveIds(table)
  {
    FreesBelowExactly(table, n);
    forall id ensures Ptr(id) in FreesBelow(table, n) <==> id in LiveIds(table)
    {
      if Ptr(id) in FreesBelow(table, n) {
        var i :| 0 <= i < n && table[i] == Ptr(id);
        assert table[i].Ptr? && table[i].id == id;
      }
      if id in LiveIds(table) {
        var i :| 0 <= i < |table| && table[i].Ptr? && table[i].id == id;
        assert i < n && table[i] == Ptr(id);
      }
    }
  }

  /** A table of nulls makes the destructor free nothing, whatever engine
      is present. */
  lemma NullTableFreesNothing(engine: Option<Engine>, table: seq<DevicePtr>)
    requires forall i :: 0 <= i < |table| ==> table[i] == Null
    ensures DestructorFrees(engine, table) == []
  {
    var n := if engine.Some? then |engine.value.bindings| else 0;
    NullsFreeNothing(table, if n <= |table| then n else |table|);
  }

  lemma {:induction false} NullsFreeNothing(table: seq<DevicePtr>, n: nat)
    requires n <= |table|
    requires forall i :: 0 <= i < |table| ==> table[i] == Null
    ensures FreesBelow(table, n) == []
  {
    if n > 0 {
      NullsFreeNothing(table, n - 1);
    }
  }

  /** The table as the constructor leaves it when it returns early: member
      arrays of a class are not initialised, so `garbage` stands for whatever
      the memory held. */
  function TableAsWritten(load: LoadResult, allocatedTable: seq<DevicePtr>, garbage: seq<DevicePtr>): seq<DevicePtr>
  {
    if Allocates(load) then allocatedTable else garbage
  }

  /** An engine whose input tensor has another name: loadEngine succeeds,
      the lookup fails and the constructor returns early, yet the destructor
      still walks the table and frees whatever was in it. */
  lemma EarlyReturnFreesGarbage()
    ensures var engine := Engine([Binding("images", [1, 3, 512, 512]), Binding(OutputTensor, [1, 17, 128, 128])]);
      var load := Loaded(engine);
      !Allocates(load) &&
      DestructorFrees(EngineOf(load), TableAsWritten(load, [], [Ptr(7), Ptr(9), Null])) == [Ptr(7), Ptr(9)]
  {
    var engine := Engine([Binding("images", [1, 3, 512, 512]), Binding(OutputTensor, [1, 17, 128, 128])]);
    assert engine.bindings[0].name != InputTensor;
    assert engine.bindings[1].name != InputTensor;
    assert BindingIndex(engine, InputTensor) == -1;
    var table := [Ptr(7), Ptr(9), Null];
    assert FreesBelow(table, 1) == [Ptr(7)];
  }

  /** detect's guard as written: engine and context present. */
  predicate DetectGuardAsWritten(load: LoadResult)
  {
    EngineOf(load).Some? && load.Loaded?
  }

  /** The same failed lookup passes that guard, so detect would index the
      buffer table with -1. */
  lemma GuardAdmitsMissingBinding()
    ensures var engine := Engine([Binding("images", [1, 3, 512, 512]), Binding(OutputTensor, [1, 17, 128, 128])]);
      DetectGuardAsWritten(Loaded(engine)) && BindingIndex(engine, InputTensor) == -1
  {
    var engine := Engine([Binding("images", [1, 3, 512, 512]), Binding(OutputTensor, [1, 17, 128, 128])]);
    assert engine.bindings[0].name != InputTensor;
    assert engine.bindings[1].name != InputTensor;
  }

  /** Device memory: the buffers cudaMalloc handed out and not yet freed,
      with their sizes in floats. */
  class Device {
    var live: map<nat, nat>
    var nextId: nat

    predicate Valid()
      reads this
    {
      forall id :: id in live ==> id < nextId
    }

    constructor()
      ensures Valid() && live == map[] && nextId == 0
    {
      live := map[];
      nextId := 0;
    }

    /** cudaMalloc: a buffer of `size` floats distinct from every live one. */
    method Malloc(size: nat) returns (p: DevicePtr)
      requires Valid()
      modifies this
      ensures Valid()
      ensures p == Ptr(old(nextId)) && old(nextId) !in old(live)
      ensures live == old(live)[old(nextId) := size] && nextId == old(nextId) + 1
    {
      p := Ptr(nextId);
      live := live[nextId := size];
      nextId := nextId + 1;
    }

    /** cudaFree of a live buffer. */
    method Free(p: DevicePtr)
      requires Valid() && p.Ptr? && p.id in live
      modifies this
      ensures Valid()
      ensures live == old(live) - {p.id} && nextId == old(nextId)
    {
      live := live - {p.id};
    }
  }

  /** The TensorRT objects the destructor releases, in the order it does. */
  datatype Handle = ContextHandle | EngineHandle | RuntimeHandle

  class PoseEstimator {
    const inputH: nat
    const inputW: nat
    const numKeypoints: nat
    const batchSize: nat

    const device: Device
    const buffers: array<DevicePtr>

    var runtime: bool
    var engine: Option<Engine>
    var context: bool
    var inputIndex: int
    var outputIndex: int
    var outputSize: nat

    /** The release calls made so far on the runtime, engine and context. */
    ghost var released: seq<Handle>

    function NumBindings(): nat
      reads this
    {
      if engine.Some? then |engine.value.bindings| else 0
    }

    /** Every non-null entry of the table is a distinct live buffer, and the
        entries past numBindings are null. */
    predicate Valid()
      reads this, buffers, device
    {
      buffers.Length == MaxBindings && NumBindings() <= MaxBindings && TableValid(NumBindings())
    }

    /** The table part of Valid, for a table whose first n entries are in use. */
    predicate TableValid(n: nat)
      reads buffers, device
      requires buffers.Length == MaxBindings
    {
      device.Valid() &&
      (forall i :: 0 <= i < MaxBindings && buffers[i].Ptr? ==> buffers[i].id in device.live) &&
      (forall i, j :: 0 <= i < j < MaxBindings && buffers[i].Ptr? ==> buffers[i] != buffers[j]) &&
      (forall i :: n <= i < MaxBindings ==> buffers[i] == Null)
    }

    /** detect may run: engine and context present and both bindings found. */
    predicate Ready()
      reads this
    {
      engine.Some? && context && 0 <= inputIndex < NumBindings() && 0 <= outputIndex < NumBindings()
    }

    /** The constructor: load the engine, look up the bindings (with the
        output fallback), compute the output size and allocate one device
        buffer per binding. The table starts all null, so an early return
        leaves nothing for the destructor to free. An engine may have at
        most three bindings, the size of the table. */
    constructor(load: LoadResult, device: Device)
      requires device.Valid()
      requires EngineOf(load).Some? ==> |EngineOf(load).value.bindings| <= MaxBindings
      modifies device
      ensures Valid() && this.device == device && released == []
      ensures inputH == InputH && inputW == InputW && numKeypoints == NumKeypoints && batchSize == BatchSize
      ensures runtime == HasRuntime(load) && engine == EngineOf(load) && context == load.Loaded?
      ensures Ready() <==> Allocates(load)
      ensures !Allocates(load) ==>
        device.live == old(device.live) && device.nextId == old(device.nextId) &&
        forall i :: 0 <= i < MaxBindings ==> buffers[i] == Null
      ensures Allocates(load) ==>
        inputIndex == BindingIndex(load.engine, InputTensor) && outputIndex == OutputIndex(load.engine) &&
        outputSize == Product(load.engine.bindings[outputIndex].dims) &&
        device.nextId == old(device.nextId) + |load.engine.bindings| &&
        AllocatedFor(load.engine, old(device.nextId), old(device.live))
    {
      inputH, inputW, numKeypoints, batchSize := InputH, InputW, NumKeypoints, BatchSize;
      this.device := device;
      buffers := new DevicePtr[MaxBindings](_ => Null);
      runtime := HasRuntime(load);
      engine := EngineOf(load);
      context := load.Loaded?;
      inputIndex, outputIndex, outputSize := -1, -1, 0;
      released := [];
      new;
      Bind(load);
    }

    /** The part of the constructor after loading: look up the two bindings
        and, only if both are found, size the output and allocate the table. */
    method Bind(load: LoadResult)
      requires device.Valid() && buffers.Length == MaxBindings && batchSize == BatchSize
      requires engine == EngineOf(load) && context == load.Loaded?
      requires EngineOf(load).Some? ==> |EngineOf(load).value.bindings| <= MaxBindings
      requires forall i :: 0 <= i < MaxBindings ==> buffers[i] == Null
      modifies this`inputIndex, this`outputIndex, this`outputSize, buffers, device
      ensures Valid()
      ensures Ready() <==> Allocates(load)
      ensures !Allocates(load) ==>
        device.live == old(device.live) && device.nextId == old(device.nextId) &&
        forall i :: 0 <= i < MaxBindings ==> buffers[i] == Null
      ensures Allocates(load) ==>
        inputIndex == BindingIndex(load.engine, InputTensor) && outputIndex == OutputIndex(load.engine) &&
        outputSize == Product(load.engine.bindings[outputIndex].dims) &&
        device.nextId == old(device.nextId) + |load.engine.bindings| &&
        AllocatedFor(load.engine, old(device.nextId), old(device.live))
    {
      if load.Loaded? {
        var e := load.engine;
        inputIndex := BindingIndex(e, InputTensor);
        outputIndex := OutputIndex(e);
        if inputIndex != -1 && outputIndex != -1 {
          outputSize := ScaledProduct(1, e.bindings[outputIndex].dims);
          AllocateBindings(e);
        } else {
          NullTableValid(NumBindings());
        }
      } else {
        NullTableValid(NumBindings());
      }
    }

    /** A table of null entries over a consistent device is valid for any
        number of bindings. */
    lemma NullTableValid(n: nat)
      requires device.Valid() && buffers.Length == MaxBindings
      requires forall i :: 0 <= i < MaxBindings ==> buffers[i] == Null
      ensures TableValid(n)
    {
    }

    /** Binding i of the engine owns the fresh buffer firstId + i, of its
        binding size, and the device gained exactly those buffers. */
    predicate AllocatedFor(e: Engine, firstId: nat, before: map<nat, nat>)
      reads this, buffers, device
      requires buffers.Length == MaxBindings && |e.bindings| <= MaxBindings
    {
      (forall i :: 0 <= i < |e.bindings| ==>
        buffers[i] == Ptr(firstId + i) && buffers[i].id in device.live &&
        device.live[buffers[i].id] == BindingSize(e, i)) &&
      device.live.Keys == before.Keys + IdRange(firstId, |e.bindings|) &&
      (forall id :: id in before ==> id in device.live && device.live[id] == before[id])
    }

    /** The allocation loop of the constructor: one cudaMalloc of
        batchSize·∏dims floats per binding, stored in the table. */
    method AllocateBindings(e: Engine)
      requires device.Valid() && buffers.Length == MaxBindings && |e.bindings| <= MaxBindings
      requires batchSize == BatchSize
      requires forall i :: 0 <= i < MaxBindings ==> buffers[i] == Null
      modifies buffers, device
      ensures device.nextId == old(device.nextId) + |e.bindings|
      ensures AllocatedFor(e, old(device.nextId), old(device.live))
      ensures TableValid(|e.bindings|)
    {
      var numBindings := |e.bindings|;
      ghost var firstId := device.nextId;
      for i := 0 to numBindings
        invariant device.Valid() && device.nextId == firstId + i
        invariant forall j :: 0 <= j < i ==>
          (buffers[j] == Ptr(firstId + j) && buffers[j].id in device.live && device.live[buffers[j].id] == BindingSize(e, j))
        invariant forall j :: i <= j < MaxBindings ==> buffers[j] == Null
        invariant device.live.Keys == old(device.live.Keys) + IdRange(firstId, i)
        invariant forall id :: id in old(device.live) ==> id in device.live && device.live[id] == old(device.live)[id]
      {
        var size := ScaledProduct(batchSize, e.bindings[i].dims);
        var p := device.Malloc(size);
        buffers[i] := p;
      }
    }

    /** The destructor: free every non-null buffer below numBindings and null
        it, then release the context, the engine and the runtime, in that
        order (each only if held). */
    method Destroy()
      requires Valid()
      modifies this, buffers, device
      ensures Valid() && engine == None && !context && !runtime
      ensures forall i :: 0 <= i < MaxBindings ==> buffers[i] == Null
      ensures device.live == old(device.live) - LiveIds(old(buffers[..])) && device.nextId == old(device.nextId)
      ensures released == old(released) +
        (if old(context) then [ContextHandle] else []) +
        (if old(engine).Some? then [EngineHandle] else []) +
        (if old(runtime) then [RuntimeHandle] else [])
    {
      var numBindings := if engine.Some? then |engine.value.bindings| else 0;
      FreeBuffers(numBindings);
      if context {
        released := released + [ContextHandle];
      }
      context := false;
      if engine.Some? {
        released := released + [EngineHandle];
      }
      engine := None;
      if runtime {
        released := released + [RuntimeHandle];
      }
      runtime := false;
    }

    /** The freeing loop of the destructor: cudaFree on each non-null entry
        below n, which is then nulled. */
    method FreeBuffers(n: nat)
      requires buffers.Length == MaxBindings && n <= MaxBindings && TableValid(n)
      modifies buffers, device
      ensures TableValid(0)
      ensures forall i :: 0 <= i < MaxBindings ==> buffers[i] == Null
      ensures device.live == old(device.live) - LiveIds(old(buffers[..])) && device.nextId == old(device.nextId)
    {
      for i := 0 to n
        invariant TableValid(n)
        invariant forall j :: 0 <= j < i ==> buffers[j] == Null
        invariant forall j :: i <= j < MaxBindings ==> buffers[j] == old(buffers[j])
        invariant device.live == old(device.live) - LiveIds(old(buffers[..])[..i])
        invariant device.nextId == old(device.nextId)
      {
        if buffers[i] != Null {
          device.Free(buffers[i]);
          buffers[i] := Null;
        }
        assert LiveIds(old(buffers[..])[..i + 1]) == LiveIds(old(buffers[..])[..i]) +
          (if old(buffers[i]).Ptr? then {old(buffers[i]).id} else {});
      }
      assert LiveIds(old(buffers[..])) == LiveIds(old(buffers[..])[..n]);
    }

    /** detect: nothing happens (and false is returned) unless the estimator
        is ready; otherwise the image is preprocessed into a fresh input
        buffer, the network `infer` maps it to batchSize·outputSize floats,
        and postprocess decodes them into one pose. */
    method Detect(image: seq<seq<seq<int>>>, width: nat, height: nat, keypointsIn: seq<seq<Point>>,
                  infer: seq<real> -> seq<real>)
      returns (ok: bool, keypoints: seq<seq<Point>>)
      requires Valid() && IsInputImage(image)
      requires Ready() ==> NumKeypoints * PlaneSize <= BatchSize * outputSize
      requires Ready() ==> |infer(PlanarInput(image))| == BatchSize * outputSize
      ensures ok <==> Ready()
      ensures !ok ==> keypoints == keypointsIn
      ensures ok ==> |keypoints| == 1 && keypoints[0] == DecodePose(infer(PlanarInput(image)), width, height)
    {
      if !Ready() {
        return false, keypointsIn;
      }
      var inputBuffer := new real[BatchSize * 3 * InputH * InputW];
      Preprocess(image, inputBuffer);
      var output := infer(inputBuffer[..]);
      var outputBuffer := new real[BatchSize * outputSize](i requires 0 <= i < |output| => output[i]);
      assert outputBuffer[..] == output;
      keypoints := Postprocess(outputBuffer, width, height);
      ok := true;
    }
  }
}
