/**
 * CLJNIUtils.cpp: the marshalling helpers of the OpenCL binding. Property
 * lists are copied into native arrays up to their terminating 0, lists of
 * handle objects become native handle arrays, the Java struct classes are
 * read into native structs with defaults for null, and the CallbackInfo
 * records that keep callback objects alive are created, deleted and kept
 * per context.
 */
module CLJNIUtils {
  import opened Wrappers
  import opened JNIUtils
  import opened PointerUtils

  // ---------------------------------------------------------------------
  // Zero-terminated property lists
  // ---------------------------------------------------------------------

  /** The scan for the terminator stops after this many entries. */
  const MAX_PROPERTIES: nat := 100

  /**
   * Entry i of the jlong values behind a resolved properties pointer. Reading
   * past the Java array is undefined in the source; the model reads 0.
   */
  function At(values: seq<int>, i: nat): int
  {
    if i < |values| then values[i] else 0
  }

  /**
   * `out` is what the copy of a property list must be: the entries before
   * the first 0 among the first MAX_PROPERTIES, then a 0.
   */
  predicate TerminatedCopy(values: seq<int>, out: seq<int>)
  {
    var k := |out| - 1;
    0 <= k <= MAX_PROPERTIES && out[k] == 0 &&
    (forall i | 0 <= i < k :: out[i] == At(values, i) && out[i] != 0) &&
    (k < MAX_PROPERTIES ==> At(values, k) == 0)
  }

  /** The count loop: how many entries precede the first 0, scanning at most MAX_PROPERTIES. */
  method CountProperties(values: seq<int>) returns (k: nat)
    ensures k <= MAX_PROPERTIES
    ensures forall i | 0 <= i < k :: At(values, i) != 0
    ensures k < MAX_PROPERTIES ==> At(values, k) == 0
  {
    k := 0;
    var i := 0;
    while i < MAX_PROPERTIES
      invariant 0 <= i <= MAX_PROPERTIES && k == i
      invariant forall j | 0 <= j < i :: At(values, j) != 0
    {
      if At(values, i) == 0 {
        break;
      }
      k := k + 1;
      i := i + 1;
    }
  }

  /** The count, a native array of count + 1 entries, the copy loop and the terminator. */
  method CopyProperties(values: seq<int>) returns (out: array<int>)
    ensures TerminatedCopy(values, out[..])
  {
    var k := CountProperties(values);
    out := new int[k + 1];
    var i := 0;
    while i < k
      invariant 0 <= i <= k
      invariant forall j | 0 <= j < i :: out[j] == At(values, j)
    {
      out[i] := At(values, i);
      i := i + 1;
    }
    out[k] := 0;
  }

  /** There is exactly one copy a property list can have. */
  lemma TerminatedCopyUnique(values: seq<int>, a: seq<int>, b: seq<int>)
    requires TerminatedCopy(values, a) && TerminatedCopy(values, b)
    ensures a == b
  {
    assert |a| == |b|;
    assert forall i | 0 <= i < |a| :: a[i] == b[i];
  }

  /**
   * createContextPropertiesArray: NULL for a null properties object or one
   * that does not resolve; otherwise the terminated copy of the values behind
   * the resolved pointer, after releasing the view with JNI_ABORT. The jlong
   * values read at the resolved pointer are the parameter `values`.
   */
  method CreateContextPropertiesArray(env: Env, properties: Option<Ref>, ghost rank: map<Ref, nat>, values: seq<int>)
    returns (out: Option<array<int>>)
    requires Resolvable(env.heap, rank)
    requires properties.Some? ==> properties.value in env.heap.objects
    modifies env
    ensures properties.None? ==> out.None? && env.Snapshot() == old(env.Snapshot())
    ensures properties.Some? ==>
              var res := Resolve(old(env.Snapshot()), properties, rank);
              (res.0.None? ==> out.None? && env.Snapshot() == res.1) &&
              (res.0.Some? ==> var rel := Release(res.1, res.0.value, JNI_ABORT);
                               env.Snapshot() == rel.1 && (out.Some? <==> rel.0))
    ensures out.Some? ==> TerminatedCopy(values, out.value[..])
    ensures properties.Some? && KindFor(old(env.heap.objects[properties.value]), old(env.pinCopies)) != Some(POINTERS) ==>
              env.heap == old(env.heap)
  {
    if properties.None? {
      return None;
    }
    ghost var s0 := env.Snapshot();
    var pd := InitPointerData(env, properties, rank);
    if pd.None? {
      return None;
    }
    var copy := CopyProperties(values);
    ghost var s1 := env.Snapshot();
    var ok, rest := ReleasePointerData(env, pd.value, JNI_ABORT);
    ResolvePrecedence(s0, properties.value, rank);
    ReleaseByKind(s1, pd.value, JNI_ABORT);
    if !ok {
      return None;
    }
    out := Some(copy);
  }

  /** getCl_device_partition_property: the same count, copy and release as for context properties. */
  method GetDevicePartitionProperty(env: Env, properties: Option<Ref>, ghost rank: map<Ref, nat>, values: seq<int>)
    returns (out: Option<array<int>>)
    requires Resolvable(env.heap, rank)
    requires properties.Some? ==> properties.value in env.heap.objects
    modifies env
    ensures properties.None? ==> out.None? && env.Snapshot() == old(env.Snapshot())
    ensures properties.Some? ==>
              var res := Resolve(old(env.Snapshot()), properties, rank);
              (res.0.None? ==> out.None? && env.Snapshot() == res.1) &&
              (res.0.Some? ==> var rel := Release(res.1, res.0.value, JNI_ABORT);
                               env.Snapshot() == rel.1 && (out.Some? <==> rel.0))
    ensures out.Some? ==> TerminatedCopy(values, out.value[..])
    ensures properties.Some? && KindFor(old(env.heap.objects[properties.value]), old(env.pinCopies)) != Some(POINTERS) ==>
              env.heap == old(env.heap)
  {
    out := CreateContextPropertiesArray(env, properties, rank, values);
  }

  // ---------------------------------------------------------------------
  // Struct readers
  // ---------------------------------------------------------------------

  /** The fields of an org.jocl.cl_image_format (Java ints). */
  datatype ImageFormatObject = ImageFormatObject(imageChannelOrder: int, imageChannelDataType: int)

  /** A native cl_image_format (cl_uints). */
  datatype ImageFormat = ImageFormat(imageChannelOrder: int, imageChannelDataType: int)

  /** getCl_image_format: both fields 0 for null, else the Java ints read as cl_uint. */
  function GetImageFormat(obj: Option<ImageFormatObject>): (f: ImageFormat)
    ensures obj.None? ==> f == ImageFormat(0, 0)
    ensures 0 <= f.imageChannelOrder < TWO_32 && 0 <= f.imageChannelDataType < TWO_32
    ensures obj.Some? ==> (f.imageChannelOrder - obj.value.imageChannelOrder) % TWO_32 == 0 &&
                          (f.imageChannelDataType - obj.value.imageChannelDataType) % TWO_32 == 0
  {
    if obj.None? then ImageFormat(0, 0)
    else ImageFormat(UInt32(obj.value.imageChannelOrder), UInt32(obj.value.imageChannelDataType))
  }

  /** setCl_image_format: the native fields stored as Java ints; a null object stays null. */
  function SetImageFormat(obj: Option<ImageFormatObject>, f: ImageFormat): (r: Option<ImageFormatObject>)
    ensures r.Some? <==> obj.Some?
    ensures r.Some? ==> -0x8000_0000 <= r.value.imageChannelOrder < 0x8000_0000 &&
                        -0x8000_0000 <= r.value.imageChannelDataType < 0x8000_0000
    ensures r.Some? ==> (f.imageChannelOrder - r.value.imageChannelOrder) % TWO_32 == 0 &&
                        (f.imageChannelDataType - r.value.imageChannelDataType) % TWO_32 == 0
  {
    if obj.None? then None
    else Some(ImageFormatObject(Int32(f.imageChannelOrder), Int32(f.imageChannelDataType)))
  }

  /** Storing a native format into a Java object and reading it back gives the same format. */
  lemma ImageFormatRoundTrip(obj: ImageFormatObject, f: ImageFormat)
    requires 0 <= f.imageChannelOrder < TWO_32 && 0 <= f.imageChannelDataType < TWO_32
    ensures GetImageFormat(SetImageFormat(Some(obj), f)) == f
  {
    UInt32ThroughInt32(f.imageChannelOrder);
    UInt32ThroughInt32(f.imageChannelDataType);
  }

  /** Reading a Java object and storing the result back leaves the object as it was. */
  lemma ImageFormatObjectRoundTrip(obj: ImageFormatObject)
    requires -0x8000_0000 <= obj.imageChannelOrder < 0x8000_0000
    requires -0x8000_0000 <= obj.imageChannelDataType < 0x8000_0000
    ensures SetImageFormat(Some(obj), GetImageFormat(Some(obj))) == Some(obj)
  {
    Int32OfUInt32(obj.imageChannelOrder);
    Int32OfUInt32(obj.imageChannelDataType);
  }

  lemma Int32OfUInt32(x: int)
    requires -0x8000_0000 <= x < 0x8000_0000
    ensures Int32(UInt32(x)) == x
  {
    if x < 0 {
      assert UInt32(x) == x + TWO_32;
    }
  }

  /** The value of CL_MEM_OBJECT_BUFFER, the image type of a null image description. */
  const CL_MEM_OBJECT_BUFFER: int := 0x10F0

  /** The fields of an org.jocl.cl_image_desc; `buffer` refers to a cl_mem object. */
  datatype ImageDescObject = ImageDescObject(
    imageType: int, imageWidth: int, imageHeight: int, imageDepth: int, imageArraySize: int,
    imageRowPitch: int, imageSlicePitch: int, numMipLevels: int, numSamples: int, buffer: Option<Ref>)

  /** A native cl_image_desc; `buffer` is the cl_mem handle, 0 for NULL. */
  datatype ImageDesc = ImageDesc(
    imageType: int, imageWidth: int, imageHeight: int, imageDepth: int, imageArraySize: int,
    imageRowPitch: int, imageSlicePitch: int, numMipLevels: int, numSamples: int, buffer: int)

  /**
   * getCl_image_desc: type CL_MEM_OBJECT_BUFFER, all sizes 0 and no buffer
   * for null; otherwise the Java fields converted to cl_uint and size_t, and
   * the handle of the buffer object when there is one.
   */
  function GetImageDesc(h: Heap, obj: Option<ImageDescObject>): (d: ImageDesc)
    requires obj.Some? && obj.value.buffer.Some? ==> obj.value.buffer.value in h.objects
    ensures obj.None? ==> d == ImageDesc(CL_MEM_OBJECT_BUFFER, 0, 0, 0, 0, 0, 0, 0, 0, 0)
    ensures obj.Some? && obj.value.buffer.None? ==> d.buffer == 0
    ensures obj.Some? && obj.value.buffer.Some? ==> d.buffer == h.objects[obj.value.buffer.value].nativePointer
    ensures 0 <= d.imageType < TWO_32 && 0 <= d.numMipLevels < TWO_32 && 0 <= d.numSamples < TWO_32
    ensures 0 <= d.imageWidth < TWO_64 && 0 <= d.imageHeight < TWO_64 && 0 <= d.imageDepth < TWO_64
    ensures 0 <= d.imageArraySize < TWO_64 && 0 <= d.imageRowPitch < TWO_64 && 0 <= d.imageSlicePitch < TWO_64
    ensures obj.Some? ==>
              var o := obj.value;
              (o.imageType - d.imageType) % TWO_32 == 0 && (o.numMipLevels - d.numMipLevels) % TWO_32 == 0 &&
              (o.numSamples - d.numSamples) % TWO_32 == 0
    ensures obj.Some? ==>
              var o := obj.value;
              (o.imageWidth - d.imageWidth) % TWO_64 == 0 && (o.imageHeight - d.imageHeight) % TWO_64 == 0 &&
              (o.imageDepth - d.imageDepth) % TWO_64 == 0 && (o.imageArraySize - d.imageArraySize) % TWO_64 == 0 &&
              (o.imageRowPitch - d.imageRowPitch) % TWO_64 == 0 && (o.imageSlicePitch - d.imageSlicePitch) % TWO_64 == 0
    ensures obj.Some? && 0 <= obj.value.imageWidth < TWO_64 && 0 <= obj.value.imageHeight < TWO_64 &&
            0 <= obj.value.imageDepth < TWO_64 ==>
              d.imageWidth == obj.value.imageWidth && d.imageHeight == obj.value.imageHeight && d.imageDepth == obj.value.imageDepth
  {
    if obj.None? then ImageDesc(CL_MEM_OBJECT_BUFFER, 0, 0, 0, 0, 0, 0, 0, 0, 0)
    else
      var o := obj.value;
      ImageDesc(UInt32(o.imageType), SizeT(o.imageWidth), SizeT(o.imageHeight), SizeT(o.imageDepth),
                SizeT(o.imageArraySize), SizeT(o.imageRowPitch), SizeT(o.imageSlicePitch),
                UInt32(o.numMipLevels), UInt32(o.numSamples),
                if o.buffer.Some? then h.objects[o.buffer.value].nativePointer else 0)
  }

  /** The fields of an org.jocl.cl_buffer_region (Java longs). */
  datatype BufferRegionObject = BufferRegionObject(origin: int, size: int)

  /** A native cl_buffer_region (size_t fields). */
  datatype BufferRegion = BufferRegion(origin: int, size: int)

  /** getCl_buffer_region: both fields 0 for null, else the Java longs read as size_t. */
  function GetBufferRegion(obj: Option<BufferRegionObject>): (r: BufferRegion)
    ensures obj.None? ==> r == BufferRegion(0, 0)
    ensures 0 <= r.origin < TWO_64 && 0 <= r.size < TWO_64
    ensures obj.Some? && 0 <= obj.value.origin < TWO_64 && 0 <= obj.value.size < TWO_64 ==>
              r.origin == obj.value.origin && r.size == obj.value.size
    ensures obj.Some? && -TWO_64 <= obj.value.size < 0 ==> r.size == obj.value.size + TWO_64
  {
    if obj.None? then BufferRegion(0, 0)
    else BufferRegion(SizeT(obj.value.origin), SizeT(obj.value.size))
  }

  // ---------------------------------------------------------------------
  // Lists of handle objects
  // ---------------------------------------------------------------------

  /** The handle a cl_* object holds, its nativePointer field. */
  function NativePointerOf(h: Heap, r: Ref): int
  {
    if r in h.objects then h.objects[r].nativePointer else 0
  }

  /** How create*List ends. */
  datatype ListOutcome = TooShort | PendingException | NullElement | Handles(words: seq<int>)

  /**
   * What create*List yields for the elements of the Java array: the handles
   * of the first n objects, unless the array is shorter than n, an exception
   * is pending when the loop starts, or one of the first n elements is null.
   */
  function HandleListOutcome(h: Heap, elements: seq<Option<Ref>>, n: nat, pending: Option<JavaException>): (r: ListOutcome)
    ensures r.Handles? <==> |elements| >= n && (n == 0 || pending.None?) &&
                            forall i | 0 <= i < n :: elements[i].Some?
    ensures r == TooShort <==> |elements| < n
    ensures r.Handles? ==> |r.words| == n &&
                           forall i | 0 <= i < n :: elements[i].Some? && r.words[i] == NativePointerOf(h, elements[i].value)
  {
    if |elements| < n then TooShort
    else if n > 0 && pending.Some? then PendingException
    else if exists i | 0 <= i < n :: elements[i].None? then NullElement
    else Handles(seq(n, i requires 0 <= i < n => NativePointerOf(h, elements[i].value)))
  }

  /** Elements at index n or beyond never matter. */
  lemma HandleListIgnoresTail(h: Heap, elements: seq<Option<Ref>>, more: seq<Option<Ref>>, n: nat, pending: Option<JavaException>)
    requires |elements| >= n
    ensures HandleListOutcome(h, elements + more, n, pending) == HandleListOutcome(h, elements, n, pending)
  {
    var a, b := HandleListOutcome(h, elements + more, n, pending), HandleListOutcome(h, elements, n, pending);
    assert forall i | 0 <= i < n :: (elements + more)[i] == elements[i];
    if a.Handles? {
      assert a.words == b.words;
    }
  }

  /**
   * createEventList, createDeviceList, createMemList and createProgramList:
   * one procedure with four element types. The native array is allocated
   * first; a Java array shorter than n raises
   * ArrayIndexOutOfBoundsException and returns NULL without freeing it;
   * a pending exception or a null element frees it and returns NULL, the
   * latter raising NullPointerException.
   */
  method CreateHandleList(env: Env, list: Ref, n: nat) returns (out: Option<Address>)
    requires list in env.heap.objectArrays && n < TWO_32
    modifies env
    ensures var outcome := HandleListOutcome(old(env.heap), old(env.heap.objectArrays[list].elements), n, old(env.pending));
            var block := NewBlock(old(env.memory), Zeros(n));
            var freed := FreeBlock(block, old(env.memory.next));
            env.heap == old(env.heap) && env.globalRefs == old(env.globalRefs) && env.pinCopies == old(env.pinCopies) &&
            (out.Some? <==> outcome.Handles?) &&
            (outcome == TooShort ==> env.memory == block && env.pending == AfterThrow(old(env.pending), ArrayIndexOutOfBoundsException)) &&
            (outcome == PendingException ==> env.memory == freed && env.pending == old(env.pending)) &&
            (outcome == NullElement ==> env.memory == freed && env.pending == AfterThrow(old(env.pending), NullPointerException)) &&
            (outcome.Handles? ==> out == Some(old(env.memory.next)) && env.pending == old(env.pending) &&
                                  env.memory == NewBlock(old(env.memory), outcome.words))
  {
    ghost var h0, p0, m0 := env.heap, env.pending, env.memory;
    var elements := env.heap.objectArrays[list].elements;
    var addr := env.AllocateWords(n);
    if |elements| < n {
      env.ThrowByName(ArrayIndexOutOfBoundsException);
      return None;
    }
    var i := 0;
    FilledNone(h0, elements, n);
    while i < n
      invariant 0 <= i <= n && env.heap == h0 && env.pending == p0 && (i > 0 ==> p0.None?)
      invariant env.globalRefs == old(env.globalRefs) && env.pinCopies == old(env.pinCopies)
      invariant forall j | 0 <= j < i :: elements[j].Some?
      invariant env.memory == NewBlock(m0, Filled(h0, elements, n, i))
    {
      var e := elements[i];
      if env.pending.Some? {
        env.FreeWords(addr);
        return None;
      }
      if e.None? {
        env.FreeWords(addr);
        env.ThrowByName(NullPointerException);
        return None;
      }
      env.StoreWord(addr, i, NativePointerOf(env.heap, e.value));
      FilledStep(h0, elements, n, i);
      i := i + 1;
    }
    FilledAll(h0, elements, n, p0);
    out := Some(addr);
  }

  /** The native list after the loop has stored the handles of the first i elements. */
  function Filled(h: Heap, elements: seq<Option<Ref>>, n: nat, i: nat): (r: seq<int>)
    ensures |r| == n
  {
    seq(n, j => if 0 <= j < i && j < |elements| && elements[j].Some? then NativePointerOf(h, elements[j].value) else 0)
  }

  lemma FilledNone(h: Heap, elements: seq<Option<Ref>>, n: nat)
    ensures Filled(h, elements, n, 0) == Zeros(n)
  {
  }

  lemma FilledStep(h: Heap, elements: seq<Option<Ref>>, n: nat, i: nat)
    requires i < n && i < |elements| && elements[i].Some?
    ensures Filled(h, elements, n, i)[i := NativePointerOf(h, elements[i].value)] == Filled(h, elements, n, i + 1)
  {
  }

  lemma FilledAll(h: Heap, elements: seq<Option<Ref>>, n: nat, pending: Option<JavaException>)
    requires n <= |elements| && (n == 0 || pending.None?) && forall j | 0 <= j < n :: elements[j].Some?
    ensures HandleListOutcome(h, elements, n, pending) == Handles(Filled(h, elements, n, n))
  {
  }

  // ---------------------------------------------------------------------
  // Callback bookkeeping
  // ---------------------------------------------------------------------

  /** A CallbackInfo: global references to the callback object and the user data, NULL when absent. */
  datatype CallbackInfo = CallbackInfo(globalPfnNotify: Option<Ref>, globalUserData: Option<Ref>)

  /** The global references a CallbackInfo keeps alive. */
  function KeptAlive(info: CallbackInfo): multiset<Ref>
  {
    Opt(info.globalPfnNotify) + Opt(info.globalUserData)
  }

  /**
   * initCallbackInfo: a global reference for each non-null argument. When an
   * exception is already pending, the check after the first NewGlobalRef
   * discards the record and returns NULL, and the reference just made is not
   * deleted.
   */
  method InitCallbackInfo(env: Env, pfnNotify: Option<Ref>, userData: Option<Ref>) returns (info: Option<CallbackInfo>)
    modifies env
    ensures env.heap == old(env.heap) && env.memory == old(env.memory) && env.pending == old(env.pending)
    ensures info.Some? ==> info.value == CallbackInfo(pfnNotify, userData)
    ensures old(env.pending).None? ==> info == Some(CallbackInfo(pfnNotify, userData)) &&
                                       env.globalRefs == old(env.globalRefs) + KeptAlive(info.value)
    ensures old(env.pending).Some? ==>
              (info.None? <==> pfnNotify.Some? || userData.Some?) &&
              env.globalRefs == old(env.globalRefs) + (if pfnNotify.Some? then Opt(pfnNotify) else Opt(userData))
  {
    if pfnNotify.Some? {
      env.NewGlobalRef(pfnNotify.value);
      if env.pending.Some? {
        return None;
      }
    }
    if userData.Some? {
      env.NewGlobalRef(userData.value);
      if env.pending.Some? {
        return None;
      }
    }
    info := Some(CallbackInfo(pfnNotify, userData));
  }

  /**
   * deleteCallbackInfo: nothing for NULL; otherwise the non-null global
   * references are deleted, and the caller's pointer is left NULL.
   */
  method DeleteCallbackInfo(env: Env, info: Option<CallbackInfo>) returns (cleared: Option<CallbackInfo>)
    modifies env
    ensures cleared.None?
    ensures info.None? ==> env.Snapshot() == old(env.Snapshot())
    ensures info.Some? ==> env.Snapshot() == old(env.Snapshot()).(globalRefs := old(env.globalRefs) - KeptAlive(info.value))
  {
    if info.None? {
      return None;
    }
    env.DeleteGlobalRef(info.value.globalUserData);
    env.DeleteGlobalRef(info.value.globalPfnNotify);
    cleared := None;
  }

  /** The record registered for `context`, None when there is none. */
  function Lookup(entries: map<Address, Option<CallbackInfo>>, context: Address): (r: Option<Option<CallbackInfo>>)
    ensures r.Some? <==> context in entries
    ensures r.Some? ==> r.value == entries[context]
  {
    if context in entries then Some(entries[context]) else None
  }

  /**
   * destroyCallbackInfo as written: the mapping is erased and the record is
   * then read through the iterator that pointed at it, that is, looked up in
   * the map as it is after the erase. None marks that read through the
   * invalidated iterator, which is undefined.
   */
  function ErasedThenRead(entries: map<Address, Option<CallbackInfo>>, context: Address): Option<Option<CallbackInfo>>
  {
    Lookup(entries - {context}, context)
  }

  /**
   * For every registered context the source reads the record after it is
   * erased, while the lookup before the erase, which Destroy uses, finds it.
   */
  lemma AsWrittenReadsErasedRecord(entries: map<Address, Option<CallbackInfo>>, context: Address)
    requires context in entries
    ensures ErasedThenRead(entries, context).None?
    ensures Lookup(entries, context) == Some(entries[context])
  {
  }

  /** The global contextCallbackMap: the CallbackInfo of each context not yet released. */
  class ContextCallbackMap {
    var entries: map<Address, Option<CallbackInfo>>

    constructor ()
      ensures entries == map[]
    {
      entries := map[];
    }

    /** `contextCallbackMap[context] = callbackInfo`. */
    method Insert(context: Address, info: Option<CallbackInfo>)
      modifies this
      ensures entries == old(entries)[context := info]
    {
      entries := entries[context := info];
    }

    /**
     * destroyCallbackInfo: removes the mapping of `context` and deletes its
     * CallbackInfo; an unknown context changes nothing. The record is looked
     * up before the mapping is erased.
     */
    method Destroy(env: Env, context: Address)
      modifies this, env
      ensures entries == old(entries) - {context}
      ensures context !in old(entries) ==> env.Snapshot() == old(env.Snapshot())
      ensures context in old(entries) && old(entries)[context].Some? ==>
                env.Snapshot() == old(env.Snapshot()).(globalRefs := old(env.globalRefs) - KeptAlive(old(entries)[context].value))
      ensures context in old(entries) && old(entries)[context].None? ==> env.Snapshot() == old(env.Snapshot())
    {
      var found := Lookup(entries, context);
      if found.Some? {
        entries := entries - {context};
        var _ := DeleteCallbackInfo(env, found.value);
      }
    }
  }
}
