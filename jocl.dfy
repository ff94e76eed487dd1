/**
 * The rules of the native methods in JOCL.cpp that go beyond forwarding a
 * call to OpenCL: aligned allocation and its free, the write-back of
 * platform and device handles, the registry of context callbacks, the
 * cleanup of one-shot callbacks, the release mode each call site passes for
 * its host pointer, and the size of a mapped image.
 *
 * The OpenCL calls themselves are oracles: their results (the handles they
 * write, the context they create, the pitches they report) are parameters.
 */
module JOCL {
  import opened Wrappers
  import opened JNIUtils
  import opened PointerUtils
  import opened CLJNIUtils

  const CL_OUT_OF_HOST_MEMORY: int := -6
  const CL_INVALID_HOST_PTR: int := -37

  function Min(a: int, b: int): int
  {
    if a < b then a else b
  }

  // ---------------------------------------------------------------------
  // allocateAlignedNative and freeAlignedNative
  // ---------------------------------------------------------------------

  /** sizeof(void*): the back pointer stored just below the aligned address. */
  const POINTER_SIZE: nat := 8

  predicate PowerOfTwo(n: int)
    decreases n
  {
    n == 1 || (n > 1 && n % 2 == 0 && PowerOfTwo(n / 2))
  }

  /** The bytes asked of malloc: the size, room to slide up to the alignment, and the back pointer. */
  function RequestSize(size: nat, alignment: nat): nat
    requires alignment >= 1
  {
    size + (alignment - 1) + POINTER_SIZE
  }

  /** A multiple of d leaves no remainder. */
  lemma ModMultiple(d: nat, k: int)
    requires d >= 1
    ensures (d * k) % d == 0
  {
    var q := (d * k) / d;
    var r := (d * k) % d;
    assert d * k == d * q + r && 0 <= r < d;
  }

  /** Rounding p down, or up past it, to a multiple of d. */
  lemma RoundedToMultiple(p: int, d: nat)
    requires d >= 1
    ensures 0 <= p % d < d
    ensures (p - p % d) % d == 0 && (p + d - p % d) % d == 0
  {
    var q := p / d;
    assert p == d * q + p % d;
    ModMultiple(d, q);
    ModMultiple(d, q + 1);
    assert p + d - p % d == d * (q + 1);
  }

  /**
   * The aligned address as the source computes it from the block m: past the
   * back pointer, then up by the alignment minus the low bits. When m + P is
   * already aligned this adds a whole alignment.
   */
  function AlignedAsWritten(m: Address, alignment: nat): (a: Address)
    requires alignment >= 1
    ensures a % alignment == 0
    ensures m + POINTER_SIZE < a <= m + POINTER_SIZE + alignment
  {
    var p := m + POINTER_SIZE;
    RoundedToMultiple(p, alignment);
    p + alignment - p % alignment
  }

  /**
   * When m + P is already aligned, the region [a, a + size) the source
   * zero-fills ends one byte past the block malloc gave; otherwise it fits.
   */
  lemma AsWrittenOverrun(m: Address, size: nat, alignment: nat)
    requires alignment >= 1
    ensures AlignedAsWritten(m, alignment) + size <= m + RequestSize(size, alignment) <==>
            (m + POINTER_SIZE) % alignment != 0
    ensures (m + POINTER_SIZE) % alignment == 0 ==>
              AlignedAsWritten(m, alignment) + size == m + RequestSize(size, alignment) + 1
  {
  }

  /** A block at 8 with alignment 16: the aligned address is 32 and the zero fill runs one byte past the block. */
  lemma AsWrittenOverrunExample(size: nat)
    ensures AlignedAsWritten(8, 16) == 32
    ensures AlignedAsWritten(8, 16) + size == 8 + RequestSize(size, 16) + 1
  {
  }

  /** The aligned address as intended: the first multiple of the alignment at or above m + P. */
  function AlignedAddress(m: Address, alignment: nat): (a: Address)
    requires alignment >= 1
    ensures a % alignment == 0
    ensures m + POINTER_SIZE <= a < m + POINTER_SIZE + alignment
  {
    var p := m + POINTER_SIZE;
    RoundedToMultiple(p, alignment);
    if p % alignment == 0 then p else p + alignment - p % alignment
  }

  /** The C heap allocateAlignedNative works on: block sizes by start, bytes written, pointer-sized stores. */
  datatype CMemory = CMemory(blocks: map<Address, nat>, bytes: map<Address, int>, slots: map<Address, Address>)

  /** memset(a, 0, size): the bytes from a to a + size are 0, all others as they were. */
  function ZeroFill(bytes: map<Address, int>, a: Address, size: nat): (r: map<Address, int>)
    ensures forall x | a <= x < a + size :: x in r && r[x] == 0
    ensures forall x | x in bytes && !(a <= x < a + size) :: x in r && r[x] == bytes[x]
    ensures forall x | x in r :: x in bytes || a <= x < a + size
  {
    if size == 0 then bytes else ZeroFill(bytes, a, size - 1)[a + size - 1 := 0]
  }

  /**
   * The C heap after an aligned allocation in the block m, as intended: the
   * block, the zeroed region at the corrected address AlignedAddress, and
   * the back pointer to m just below it. The back pointer and the region
   * both lie inside the block. The address the source computes is
   * AlignedAsWritten, whose fill can end past the block.
   */
  function AllocatedAligned(c: CMemory, m: Address, size: nat, alignment: nat): (r: (Address, CMemory))
    requires alignment >= 1
    ensures r.0 % alignment == 0
    ensures m in r.1.blocks && r.1.blocks[m] == RequestSize(size, alignment)
    ensures m <= r.0 - POINTER_SIZE && r.0 + size <= m + r.1.blocks[m]
    ensures r.0 - POINTER_SIZE in r.1.slots && r.1.slots[r.0 - POINTER_SIZE] == m
    ensures forall x | r.0 <= x < r.0 + size :: x in r.1.bytes && r.1.bytes[x] == 0
  {
    var a := AlignedAddress(m, alignment);
    (a, CMemory(c.blocks[m := RequestSize(size, alignment)], ZeroFill(c.bytes, a, size), c.slots[a - POINTER_SIZE := m]))
  }

  /** free(((void**)a)[-1]): the block whose start is stored below a. */
  function FreedAligned(c: CMemory, a: Address): CMemory
    requires a - POINTER_SIZE in c.slots
  {
    c.(blocks := c.blocks - {c.slots[a - POINTER_SIZE]})
  }

  /** Freeing the address an allocation returned gives back exactly that allocation's block. */
  lemma FreeUndoesAllocate(c: CMemory, m: Address, size: nat, alignment: nat)
    requires alignment >= 1 && m !in c.blocks
    ensures var r := AllocatedAligned(c, m, size, alignment);
            r.0 - POINTER_SIZE in r.1.slots && FreedAligned(r.1, r.0).blocks == c.blocks
  {
  }

  /** The C heap as a mutable object. */
  class MallocHeap {
    var blocks: map<Address, nat>
    var bytes: map<Address, int>
    var slots: map<Address, Address>

    function Contents(): CMemory
      reads this
    {
      CMemory(blocks, bytes, slots)
    }

    constructor ()
      ensures Contents() == CMemory(map[], map[], map[])
    {
      blocks, bytes, slots := map[], map[], map[];
    }
  }

  /**
   * allocateAlignedNative. `m` is what malloc returns, 0 when it fails; then
   * an OutOfMemoryError is raised and nothing else happens. Otherwise the
   * pointer's nativePointer is set to the corrected aligned address
   * AlignedAddress (its byteOffset is left alone) and a direct buffer at that
   * address is returned.
   */
  method AllocateAlignedNative(env: Env, heap: MallocHeap, size: nat, alignment: nat, pointer: Ref, m: Address)
      returns (buffer: Option<Buffer>)
    requires PowerOfTwo(alignment)
    requires m >= 0 && (m == 0 || m !in heap.blocks)
    modifies env, heap
    ensures m == 0 ==> buffer.None? && heap.Contents() == old(heap.Contents()) &&
                       env.Snapshot() == Throw(old(env.Snapshot()), OutOfMemoryError)
    ensures m != 0 ==> var r := AllocatedAligned(old(heap.Contents()), m, size, alignment);
                       buffer == Some(Direct(r.0)) && heap.Contents() == r.1 &&
                       env.Snapshot() == old(env.Snapshot()).(heap := SetNativePointerField(old(env.heap), pointer, r.0))
  {
    if m == 0 {
      env.ThrowByName(OutOfMemoryError);
      return None;
    }
    heap.blocks := heap.blocks[m := RequestSize(size, alignment)];
    var a := AlignedAddress(m, alignment);
    heap.slots := heap.slots[a - POINTER_SIZE := m];
    heap.bytes := ZeroFill(heap.bytes, a, size);
    env.SetNativePointerLong(pointer, a);
    buffer := Some(Direct(a));
  }

  /** freeAlignedNative: frees the block whose start is stored below the pointer's nativePointer. */
  method FreeAlignedNative(env: Env, heap: MallocHeap, pointer: Ref)
    requires NativePointerOf(env.heap, pointer) - POINTER_SIZE in heap.slots
    modifies heap
    ensures heap.Contents() == FreedAligned(old(heap.Contents()), NativePointerOf(env.heap, pointer))
  {
    var a := NativePointerOf(env.heap, pointer);
    heap.blocks := heap.blocks - {heap.slots[a - POINTER_SIZE]};
  }

  // ---------------------------------------------------------------------
  // Write-back of platform and device handles
  // ---------------------------------------------------------------------

  /** The arrays clGetPlatformIDsNative and clGetDeviceIDsNative fill. */
  datatype IdKind = PLATFORM_IDS | DEVICE_IDS

  function IdClass(kind: IdKind): ClassName
  {
    match kind
    case PLATFORM_IDS => "org.jocl.cl_platform_id"
    case DEVICE_IDS => "org.jocl.cl_device_id"
  }

  /**
   * Slot i of the write-back loop. Reading an element past the end of the
   * Java array throws ArrayIndexOutOfBoundsException and yields null. The
   * platform loop returns CL_INVALID_HOST_PTR when an exception is pending
   * after reading the element; the device loop only checks after making a
   * new object, and returns CL_OUT_OF_HOST_MEMORY. A null slot gets a new
   * object, which is stored into the array; the slot's object then points
   * at the handle with offset 0. The checks after SetObjectArrayElement
   * cannot fire here: no exception is pending at that point on either path.
   */
  function IdWrittenBack(s: State, kind: IdKind, arr: Ref, handle: Address, i: nat): (res: (Option<int>, State))
    ensures res.1 == s.(heap := res.1.heap, pending := res.1.pending)
    ensures res.1.pending == if i < |ElementsAt(s.heap, Some(arr))| then s.pending
                             else AfterThrow(s.pending, ArrayIndexOutOfBoundsException)
    ensures res.1.heap.arrays == s.heap.arrays && res.1.heap.objectArrays.Keys == s.heap.objectArrays.Keys
  {
    var s0 := if i < |ElementsAt(s.heap, Some(arr))| then s else Throw(s, ArrayIndexOutOfBoundsException);
    if kind == PLATFORM_IDS && s0.pending.Some? then (Some(CL_INVALID_HOST_PTR), s0)
    else
      var e := ElementAt(s0.heap, Some(arr), i);
      if e.Some? then (None, s0.(heap := PointTo(s0.heap, e, handle)))
      else
        var r := s0.heap.nextRef;
        var h1 := NewInstance(s0.heap, IdClass(kind));
        if kind == DEVICE_IDS && s0.pending.Some? then (Some(CL_OUT_OF_HOST_MEMORY), s0.(heap := h1))
        else (None, s0.(heap := PointTo(StoreElement(h1, arr, i, Some(r)), Some(r), handle)))
  }

  /** The handle OpenCL wrote for slot i; 0 past the words it wrote. */
  function HandleAt(handles: seq<Address>, i: nat): Address
  {
    if i < |handles| then handles[i] else 0
  }

  /** Slots i up to n written back in order, stopping at the first code returned. */
  function IdsWrittenBack(s: State, kind: IdKind, arr: Ref, handles: seq<Address>, i: nat, n: nat): (res: (Option<int>, State))
    requires i <= n
    decreases n - i
  {
    if i == n then (None, s)
    else
      var step := IdWrittenBack(s, kind, arr, HandleAt(handles, i), i);
      if step.0.Some? then step else IdsWrittenBack(step.1, kind, arr, handles, i + 1, n)
  }

  /**
   * The write-back changes only objects, the elements of object arrays and,
   * by a read past the end of the array, the pending exception: no
   * primitive array is touched, no object array appears or disappears.
   */
  lemma {:induction false} WriteBackKeeps(s: State, kind: IdKind, arr: Ref, handles: seq<Address>, i: nat, n: nat)
    requires i <= n
    ensures var res := IdsWrittenBack(s, kind, arr, handles, i, n);
            res.1 == s.(heap := res.1.heap, pending := res.1.pending) &&
            (res.1.pending == s.pending || res.1.pending == AfterThrow(s.pending, ArrayIndexOutOfBoundsException)) &&
            res.1.heap.arrays == s.heap.arrays && res.1.heap.objectArrays.Keys == s.heap.objectArrays.Keys
    decreases n - i
  {
    if i < n {
      var step := IdWrittenBack(s, kind, arr, HandleAt(handles, i), i);
      if step.0.None? {
        WriteBackKeeps(step.1, kind, arr, handles, i + 1, n);
      }
    }
  }

  /** `set(env, num, 0, count)`: the count stored as a jint in slot 0, when the array is not null. */
  function CountWritten(s: State, count: Option<Ref>, v: int): State
  {
    if count.Some? && count.value in s.heap.arrays && |s.heap.arrays[count.value]| >= 1
    then s.(heap := StoreArrayElement(s.heap, count.value, 0, Int32(v)))
    else s
  }

  /** The loop body for one slot. */
  method WriteBackId(env: Env, kind: IdKind, arr: Ref, handle: Address, i: nat) returns (stop: Option<int>)
    modifies env
    ensures (stop, env.Snapshot()) == IdWrittenBack(old(env.Snapshot()), kind, arr, handle, i)
  {
    if i >= |ElementsAt(env.heap, Some(arr))| {
      env.ThrowByName(ArrayIndexOutOfBoundsException);
    }
    var e := ElementAt(env.heap, Some(arr), i);
    if kind == PLATFORM_IDS && env.pending.Some? {
      return Some(CL_INVALID_HOST_PTR);
    }
    if e.None? {
      var r := env.NewObject(IdClass(kind));
      if kind == DEVICE_IDS && env.pending.Some? {
        return Some(CL_OUT_OF_HOST_MEMORY);
      }
      env.SetObjectArrayElement(arr, i, Some(r));
      e := Some(r);
    }
    SetNativePointer(env, e, handle);
    stop := None;
  }

  /** The write-back loop over the first n slots. */
  method WriteBackSlots(env: Env, kind: IdKind, arr: Ref, handles: seq<Address>, n: nat) returns (stop: Option<int>)
    modifies env
    ensures (stop, env.Snapshot()) == IdsWrittenBack(old(env.Snapshot()), kind, arr, handles, 0, n)
  {
    ghost var s0 := env.Snapshot();
    var i := 0;
    while i < n
      invariant 0 <= i <= n
      invariant IdsWrittenBack(s0, kind, arr, handles, 0, n) == IdsWrittenBack(env.Snapshot(), kind, arr, handles, i, n)
    {
      stop := WriteBackId(env, kind, arr, HandleAt(handles, i), i);
      if stop.Some? {
        return;
      }
      i := i + 1;
    }
    stop := None;
  }

  /**
   * The write-back of clGetPlatformIDsNative and clGetDeviceIDsNative after
   * the OpenCL call: `handles` is what it wrote into the native array (one
   * word per element of `ids`), `numReturned` the count it reported and
   * `result` its return code. The first min(num_entries, count) slots are
   * written back; then, unless a slot returned early, the count is stored
   * and the result returned.
   */
  method WriteBackIds(env: Env, kind: IdKind, ids: Option<Ref>, numEntries: int, numReturned: int,
                      handles: seq<Address>, count: Option<Ref>, result: int) returns (code: int)
    requires 0 <= numReturned < TWO_32
    requires ids.Some? ==> ids.value in env.heap.objectArrays &&
                           |handles| == |env.heap.objectArrays[ids.value].elements|
    requires count.Some? ==> count.value in env.heap.arrays && |env.heap.arrays[count.value]| >= 1
    modifies env
    ensures var n := Min(UInt32(numEntries), numReturned);
            var w := if ids.Some? then IdsWrittenBack(old(env.Snapshot()), kind, ids.value, handles, 0, n) else (None, old(env.Snapshot()));
            if w.0.Some? then code == w.0.value && env.Snapshot() == w.1
            else code == result && env.Snapshot() == CountWritten(w.1, count, numReturned)
  {
    if ids.Some? {
      WriteBackKeeps(env.Snapshot(), kind, ids.value, handles, 0, Min(UInt32(numEntries), numReturned));
      var stop := WriteBackSlots(env, kind, ids.value, handles, Min(UInt32(numEntries), numReturned));
      if stop.Some? {
        return stop.value;
      }
    }
    var _ := env.SetIntElement(count, 0, numReturned);
    code := result;
  }

  /** A platform write-back entered with an exception pending stops at the first slot and changes nothing. */
  lemma PendingStopsPlatforms(s: State, arr: Ref, handles: seq<Address>, n: nat)
    requires 0 < n && s.pending.Some?
    ensures IdsWrittenBack(s, PLATFORM_IDS, arr, handles, 0, n) == (Some(CL_INVALID_HOST_PTR), s)
  {
  }

  /** No object sits in two of the first n slots. */
  ghost predicate DistinctSlots(elements: seq<Option<Ref>>, n: nat)
  {
    forall i, j | 0 <= i < j < n && j < |elements| && elements[i].Some? :: elements[i] != elements[j]
  }

  /**
   * After the first k slots of `arr` are written back from heap s to heap t:
   * each of them holds an object pointing at its handle with offset 0 (the
   * object it held before, or a new object of the handle's class), the
   * later slots are as they were, and every object not in the first k slots
   * is unchanged.
   */
  ghost predicate SlotsWritten(s: Heap, t: Heap, kind: IdKind, arr: Ref, handles: seq<Address>, k: nat)
  {
    arr in s.objectArrays && arr in t.objectArrays && k <= |handles| &&
    var e0 := s.objectArrays[arr].elements;
    var e := t.objectArrays[arr].elements;
    |e| == |e0| && k <= |e| &&
    t.nextRef >= s.nextRef && (forall o | o in t.objects :: o < t.nextRef) &&
    (forall i | 0 <= i < k ::
       e[i].Some? && e[i].value in t.objects &&
       t.objects[e[i].value].nativePointer == handles[i] && t.objects[e[i].value].byteOffset == 0 &&
       if e0[i].Some? then e[i] == e0[i]
       else e[i].value >= s.nextRef && t.objects[e[i].value].cls == IdClass(kind)) &&
    (forall i | k <= i < |e| :: e[i] == e0[i]) &&
    (forall o | o in s.objects && Some(o) !in e0[..k] :: o in t.objects && t.objects[o] == s.objects[o])
  }

  lemma PointToOne(h: Heap, x: Ref, v: Address)
    requires x in h.objects
    ensures PointTo(h, Some(x), v) == h.(objects := h.objects[x := h.objects[x].(nativePointer := v, byteOffset := 0)])
  {
  }

  /** Writing back a slot that already holds an object. */
  lemma SlotStepExisting(s: State, t: State, kind: IdKind, arr: Ref, handles: seq<Address>, k: nat, n: nat)
    requires HeapOk(s.heap) && t.pending.None?
    requires SlotsWritten(s.heap, t.heap, kind, arr, handles, k) && k < n <= |handles|
    requires n <= |s.heap.objectArrays[arr].elements| && DistinctSlots(s.heap.objectArrays[arr].elements, n)
    requires s.heap.objectArrays[arr].elements[k].Some?
    ensures var u := IdWrittenBack(t, kind, arr, HandleAt(handles, k), k);
            u.0.None? && u.1.pending.None? && SlotsWritten(s.heap, u.1.heap, kind, arr, handles, k + 1)
  {
    var e0 := s.heap.objectArrays[arr].elements;
    var e := t.heap.objectArrays[arr].elements;
    var x := e0[k].value;
    assert x in s.heap.objects && x < s.heap.nextRef;
    assert e0[..k + 1] == e0[..k] + [e0[k]];
    assert Some(x) !in e0[..k] by {
      forall i | 0 <= i < k ensures e0[i] != Some(x) {
        if e0[i].Some? {
          assert e0[i] != e0[k];
        }
      }
    }
    assert x in t.heap.objects;
    PointToOne(t.heap, x, handles[k]);
    forall i | 0 <= i < k ensures e[i] != Some(x) {
      if e0[i].Some? {
        assert e0[i] != e0[k];
      }
    }
  }

  /** Writing back a null slot: the new object takes the next reference, which no slot or old object uses. */
  lemma SlotStepNull(s: State, t: State, kind: IdKind, arr: Ref, handles: seq<Address>, k: nat, n: nat)
    requires HeapOk(s.heap) && t.pending.None?
    requires SlotsWritten(s.heap, t.heap, kind, arr, handles, k) && k < n <= |handles|
    requires n <= |s.heap.objectArrays[arr].elements|
    requires s.heap.objectArrays[arr].elements[k].None?
    ensures var u := IdWrittenBack(t, kind, arr, HandleAt(handles, k), k);
            u.0.None? && u.1.pending.None? && SlotsWritten(s.heap, u.1.heap, kind, arr, handles, k + 1)
  {
    var e0 := s.heap.objectArrays[arr].elements;
    var e := t.heap.objectArrays[arr].elements;
    var r := t.heap.nextRef;
    var h1 := NewInstance(t.heap, IdClass(kind));
    var h2 := StoreElement(h1, arr, k, Some(r));
    assert h2.objectArrays[arr].elements == e[k := Some(r)];
    PointToOne(h2, r, handles[k]);
    var h3 := PointTo(h2, Some(r), handles[k]);
    assert e[k] == e0[k];
    assert IdWrittenBack(t, kind, arr, HandleAt(handles, k), k) == (None, t.(heap := h3));
    var e3 := h3.objectArrays[arr].elements;
    forall i | 0 <= i < k + 1
      ensures e3[i].Some? && e3[i].value in h3.objects &&
              h3.objects[e3[i].value].nativePointer == handles[i] && h3.objects[e3[i].value].byteOffset == 0 &&
              if e0[i].Some? then e3[i] == e0[i]
              else e3[i].value >= s.heap.nextRef && h3.objects[e3[i].value].cls == IdClass(kind)
    {
      if i < k {
        assert e3[i] == e[i] && e[i].value < r;
      }
    }
    assert e0[..k + 1] == e0[..k] + [e0[k]];
    forall o | o in s.heap.objects && Some(o) !in e0[..k + 1]
      ensures o in h3.objects && h3.objects[o] == s.heap.objects[o]
    {
      assert Some(o) !in e0[..k];
      assert o < s.heap.nextRef <= r;
    }
  }

  lemma NothingWrittenYet(h: Heap, kind: IdKind, arr: Ref, handles: seq<Address>)
    requires HeapOk(h) && arr in h.objectArrays
    ensures SlotsWritten(h, h, kind, arr, handles, 0)
  {
    assert h.objectArrays[arr].elements[..0] == [];
  }

  lemma SlotStep(s: State, t: State, kind: IdKind, arr: Ref, handles: seq<Address>, k: nat, n: nat)
    requires HeapOk(s.heap) && t.pending.None?
    requires SlotsWritten(s.heap, t.heap, kind, arr, handles, k) && k < n <= |handles|
    requires n <= |s.heap.objectArrays[arr].elements| && DistinctSlots(s.heap.objectArrays[arr].elements, n)
    ensures var u := IdWrittenBack(t, kind, arr, HandleAt(handles, k), k);
            u.0.None? && u.1.pending.None? && SlotsWritten(s.heap, u.1.heap, kind, arr, handles, k + 1)
  {
    if s.heap.objectArrays[arr].elements[k].Some? {
      SlotStepExisting(s, t, kind, arr, handles, k, n);
    } else {
      SlotStepNull(s, t, kind, arr, handles, k, n);
    }
  }

  /** From slot k on, the write-back keeps SlotsWritten up to slot n. */
  lemma {:induction false} WriteBackFillsFrom(s: State, t: State, kind: IdKind, arr: Ref, handles: seq<Address>, k: nat, n: nat)
    requires HeapOk(s.heap) && t.pending.None?
    requires SlotsWritten(s.heap, t.heap, kind, arr, handles, k) && k <= n <= |handles|
    requires n <= |s.heap.objectArrays[arr].elements| && DistinctSlots(s.heap.objectArrays[arr].elements, n)
    ensures var res := IdsWrittenBack(t, kind, arr, handles, k, n);
            res.0.None? && res.1.pending.None? && SlotsWritten(s.heap, res.1.heap, kind, arr, handles, n)
    decreases n - k
  {
    if k < n {
      var u := IdWrittenBack(t, kind, arr, HandleAt(handles, k), k);
      SlotStep(s, t, kind, arr, handles, k, n);
      WriteBackFillsFrom(s, u.1, kind, arr, handles, k + 1, n);
      assert IdsWrittenBack(t, kind, arr, handles, k, n) == IdsWrittenBack(u.1, kind, arr, handles, k + 1, n);
    }
  }

  /**
   * With no exception pending and no object in two of the first n slots,
   * the write-back goes through every one of them: each slot ends up
   * holding an object that points at its handle with offset 0, a null slot
   * a new object of the handle's class, and nothing else changes.
   */
  lemma WriteBackFillsSlots(s: State, kind: IdKind, arr: Ref, handles: seq<Address>, n: nat)
    requires HeapOk(s.heap) && s.pending.None?
    requires arr in s.heap.objectArrays && n <= |s.heap.objectArrays[arr].elements| && n <= |handles|
    requires DistinctSlots(s.heap.objectArrays[arr].elements, n)
    ensures IdsWrittenBack(s, kind, arr, handles, 0, n).0.None?
    ensures SlotsWritten(s.heap, IdsWrittenBack(s, kind, arr, handles, 0, n).1.heap, kind, arr, handles, n)
  {
    NothingWrittenYet(s.heap, kind, arr, handles);
    WriteBackFillsFrom(s, s, kind, arr, handles, 0, n);
  }

  /** Writing back slots i up to n is writing back up to m and then from m on, when no slot before m stops. */
  lemma {:induction false} WriteBackSplit(s: State, kind: IdKind, arr: Ref, handles: seq<Address>, i: nat, m: nat, n: nat)
    requires i <= m <= n
    requires IdsWrittenBack(s, kind, arr, handles, i, m).0.None?
    ensures IdsWrittenBack(s, kind, arr, handles, i, n) ==
            IdsWrittenBack(IdsWrittenBack(s, kind, arr, handles, i, m).1, kind, arr, handles, m, n)
    decreases m - i
  {
    if i < m {
      var step := IdWrittenBack(s, kind, arr, HandleAt(handles, i), i);
      WriteBackSplit(step.1, kind, arr, handles, i + 1, m, n);
    }
  }

  /**
   * When min(num_entries, count) exceeds the length of the Java array, the
   * slots that exist are filled as in WriteBackFillsSlots, and then the read
   * of the first missing element throws ArrayIndexOutOfBoundsException: the
   * platform loop returns CL_INVALID_HOST_PTR, the device loop
   * CL_OUT_OF_HOST_MEMORY (after making an object that is never stored),
   * with the exception left pending.
   */
  lemma WriteBackPastTheArray(s: State, kind: IdKind, arr: Ref, handles: seq<Address>, n: nat)
    requires HeapOk(s.heap) && s.pending.None?
    requires arr in s.heap.objectArrays && |handles| == |s.heap.objectArrays[arr].elements| < n
    requires DistinctSlots(s.heap.objectArrays[arr].elements, |handles|)
    ensures var res := IdsWrittenBack(s, kind, arr, handles, 0, n);
            res.0 == Some(if kind == PLATFORM_IDS then CL_INVALID_HOST_PTR else CL_OUT_OF_HOST_MEMORY) &&
            res.1.pending == Some(ArrayIndexOutOfBoundsException) &&
            SlotsWritten(s.heap, res.1.heap, kind, arr, handles, |handles|)
  {
    var m := |handles|;
    NothingWrittenYet(s.heap, kind, arr, handles);
    WriteBackFillsFrom(s, s, kind, arr, handles, 0, m);
    WriteBackSplit(s, kind, arr, handles, 0, m, n);
    var t := IdsWrittenBack(s, kind, arr, handles, 0, m).1;
    StepPastTheArray(s, t, kind, arr, handles, n);
  }

  /** The first slot past the end of the array, reached with every slot before it written. */
  lemma StepPastTheArray(s: State, t: State, kind: IdKind, arr: Ref, handles: seq<Address>, n: nat)
    requires t.pending.None? && |handles| < n
    requires SlotsWritten(s.heap, t.heap, kind, arr, handles, |handles|)
    requires |handles| == |s.heap.objectArrays[arr].elements|
    ensures var res := IdsWrittenBack(t, kind, arr, handles, |handles|, n);
            res.0 == Some(if kind == PLATFORM_IDS then CL_INVALID_HOST_PTR else CL_OUT_OF_HOST_MEMORY) &&
            res.1.pending == Some(ArrayIndexOutOfBoundsException) &&
            SlotsWritten(s.heap, res.1.heap, kind, arr, handles, |handles|)
  {
  }

  // ---------------------------------------------------------------------
  // The registry of context callbacks
  // ---------------------------------------------------------------------

  /** The registry and the global references after a context is created with the handle `context`. */
  function AfterCreate(entries: map<Address, Option<CallbackInfo>>, refs: multiset<Ref>, info: CallbackInfo, context: Address)
    : (map<Address, Option<CallbackInfo>>, multiset<Ref>)
  {
    if context != 0 then (entries[context := Some(info)], refs + KeptAlive(info)) else (entries, refs)
  }

  /** The registry and the global references after the context with the handle `context` is released. */
  function AfterRelease(entries: map<Address, Option<CallbackInfo>>, refs: multiset<Ref>, context: Address)
    : (map<Address, Option<CallbackInfo>>, multiset<Ref>)
  {
    if context in entries && entries[context].Some? then (entries - {context}, refs - KeptAlive(entries[context].value))
    else (entries - {context}, refs)
  }

  /**
   * Creating a context and releasing it again leaves the registry and the
   * global references as they were, whether or not creation succeeded.
   */
  lemma ReleaseUndoesCreate(entries: map<Address, Option<CallbackInfo>>, refs: multiset<Ref>, info: CallbackInfo, context: Address)
    requires context !in entries
    ensures var (e, r) := AfterCreate(entries, refs, info, context);
            AfterRelease(e, r, context) == (entries, refs)
  {
    if context != 0 {
      assert entries[context := Some(info)] - {context} == entries;
      assert refs + KeptAlive(info) - KeptAlive(info) == refs;
    } else {
      assert entries - {context} == entries;
    }
  }

  /**
   * The callback part of clCreateContextNative and
   * clCreateContextFromTypeNative: the CallbackInfo for the listener is
   * made; if that fails the method returns before creating a context.
   * Otherwise `context` is what OpenCL created: a non-NULL context keeps
   * the CallbackInfo in the registry, a NULL one has it deleted.
   */
  method CreateContextCallback(env: Env, registry: ContextCallbackMap, pfnNotify: Option<Ref>, userData: Option<Ref>, context: Address)
      returns (created: bool)
    modifies env, registry
    ensures env.heap == old(env.heap) && env.memory == old(env.memory) && env.pending == old(env.pending)
    ensures created <==> old(env.pending).None? || (pfnNotify.None? && userData.None?)
    ensures created ==> (registry.entries, env.globalRefs) ==
                        AfterCreate(old(registry.entries), old(env.globalRefs), CallbackInfo(pfnNotify, userData), context)
    ensures !created ==> registry.entries == old(registry.entries) &&
                         env.globalRefs == old(env.globalRefs) + (if pfnNotify.Some? then Opt(pfnNotify) else Opt(userData))
  {
    var info := InitCallbackInfo(env, pfnNotify, userData);
    if info.None? {
      return false;
    }
    assert env.globalRefs == old(env.globalRefs) + KeptAlive(info.value);
    if context != 0 {
      registry.Insert(context, info);
    } else {
      var _ := DeleteCallbackInfo(env, info);
      assert old(env.globalRefs) + KeptAlive(info.value) - KeptAlive(info.value) == old(env.globalRefs);
    }
    created := true;
  }

  /** The handle of a context object; NULL for a null object. */
  function ContextHandle(h: Heap, context: Option<Ref>): Address
  {
    if context.Some? then NativePointerOf(h, context.value) else 0
  }

  /** clReleaseContextNative, after the OpenCL call: the context's CallbackInfo is destroyed. */
  method ReleaseContext(env: Env, registry: ContextCallbackMap, context: Option<Ref>)
    modifies env, registry
    ensures env.heap == old(env.heap) && env.memory == old(env.memory) && env.pending == old(env.pending)
    ensures (registry.entries, env.globalRefs) ==
            AfterRelease(old(registry.entries), old(env.globalRefs), ContextHandle(old(env.heap), context))
  {
    var nativeContext := ContextHandle(env.heap, context);
    registry.Destroy(env, nativeContext);
  }

  // ---------------------------------------------------------------------
  // Callbacks from OpenCL into Java
  // ---------------------------------------------------------------------

  /** The native functions OpenCL calls back. */
  datatype Callback = CREATE_CONTEXT | BUILD_PROGRAM | ENQUEUE_NATIVE_KERNEL | MEM_OBJECT_DESTRUCTOR | EVENT

  /** The class of the object a callback hands to its listener, if it makes one. */
  function ArgumentClass(cb: Callback): Option<ClassName>
  {
    match cb
    case CREATE_CONTEXT => None
    case BUILD_PROGRAM => Some("org.jocl.cl_program")
    case ENQUEUE_NATIVE_KERNEL => None
    case MEM_OBJECT_DESTRUCTOR => Some("org.jocl.cl_mem")
    case EVENT => Some("org.jocl.cl_event")
  }

  /** Whether OpenCL may call it more than once: only the context callback may. */
  predicate OneShot(cb: Callback)
  {
    cb != CREATE_CONTEXT
  }

  /** finishCallback: a pending exception is cleared and replaced by a RuntimeException. */
  method FinishCallback(env: Env)
    modifies env
    ensures env.Snapshot() == old(env.Snapshot()).(pending := if old(env.pending).Some? then Some(RuntimeException) else None)
  {
    if env.pending.Some? {
      env.pending := Some(RuntimeException);
    }
  }

  /**
   * A callback run on a freshly attached thread. `handle` is the OpenCL
   * object it reports, `constructed` whether NewObject for the argument
   * succeeds (when it fails an OutOfMemoryError is pending and the callback
   * returns at once), and `thrown` what the Java listener throws. A one-shot
   * callback deletes its CallbackInfo after invoking the listener, unless it
   * returned early; the context callback never deletes its CallbackInfo.
   */
  method RunCallback(env: Env, cb: Callback, info: CallbackInfo, handle: Address, constructed: bool, thrown: Option<JavaException>)
      returns (deleted: bool)
    requires env.pending.None?
    modifies env
    ensures var early := info.globalPfnNotify.Some? && ArgumentClass(cb).Some? && !constructed;
            var invoked := info.globalPfnNotify.Some? && !early;
            (deleted <==> OneShot(cb) && !early) &&
            env.globalRefs == (if deleted then old(env.globalRefs) - KeptAlive(info) else old(env.globalRefs)) &&
            env.pending == (if early then Some(OutOfMemoryError)
                            else if invoked && thrown.Some? then Some(RuntimeException) else None)
    ensures env.memory == old(env.memory)
    ensures info.globalPfnNotify.Some? && ArgumentClass(cb).Some? && constructed ==>
              env.heap == PointTo(NewInstance(old(env.heap), ArgumentClass(cb).value), Some(old(env.heap.nextRef)), handle)
    ensures !(info.globalPfnNotify.Some? && ArgumentClass(cb).Some? && constructed) ==> env.heap == old(env.heap)
  {
    if cb == CREATE_CONTEXT && info.globalPfnNotify.None? {
      return false;
    }
    if info.globalPfnNotify.Some? {
      if ArgumentClass(cb).Some? {
        if !constructed {
          env.ThrowByName(OutOfMemoryError);
          return false;
        }
        var argument := env.NewObject(ArgumentClass(cb).value);
        SetNativePointer(env, Some(argument), handle);
      }
      // The listener runs here.
      if thrown.Some? {
        env.ThrowByName(thrown.value);
      }
    }
    deleted := false;
    if OneShot(cb) {
      var _ := DeleteCallbackInfo(env, Some(info));
      deleted := true;
    }
    FinishCallback(env);
  }

  // ---------------------------------------------------------------------
  // Release modes at the call sites
  // ---------------------------------------------------------------------

  /** The native methods that release a host pointer after the OpenCL call. */
  datatype CallSite =
    | GET_PLATFORM_INFO
    | SET_KERNEL_ARG
    | ENQUEUE_READ_BUFFER
    | ENQUEUE_READ_BUFFER_RECT
    | ENQUEUE_WRITE_BUFFER
    | ENQUEUE_WRITE_BUFFER_RECT
    | ENQUEUE_READ_IMAGE
    | ENQUEUE_WRITE_IMAGE

  /** The mode each site passes to releasePointerData; 0 is the default argument. */
  function ReleaseModeAt(site: CallSite): int
  {
    match site
    case GET_PLATFORM_INFO => 0
    case SET_KERNEL_ARG => JNI_ABORT
    case ENQUEUE_READ_BUFFER => 0
    case ENQUEUE_READ_BUFFER_RECT => 0
    case ENQUEUE_WRITE_BUFFER => JNI_ABORT
    case ENQUEUE_WRITE_BUFFER_RECT => JNI_ABORT
    case ENQUEUE_READ_IMAGE => 0
    case ENQUEUE_WRITE_IMAGE => JNI_ABORT
  }

  /** Which way the OpenCL call moves data through the host pointer. */
  datatype Transfer = FROM_HOST | TO_HOST

  function TransferAt(site: CallSite): Transfer
  {
    match site
    case GET_PLATFORM_INFO => TO_HOST
    case SET_KERNEL_ARG => FROM_HOST
    case ENQUEUE_READ_BUFFER => TO_HOST
    case ENQUEUE_READ_BUFFER_RECT => TO_HOST
    case ENQUEUE_WRITE_BUFFER => FROM_HOST
    case ENQUEUE_WRITE_BUFFER_RECT => FROM_HOST
    case ENQUEUE_READ_IMAGE => TO_HOST
    case ENQUEUE_WRITE_IMAGE => FROM_HOST
  }

  /** A site discards its pinned copy exactly when OpenCL only reads the host memory. */
  lemma AbortExactlyForInputs(site: CallSite)
    ensures ReleaseModeAt(site) == JNI_ABORT <==> TransferAt(site) == FROM_HOST
    ensures ReleaseModeAt(site) == JNI_ABORT || ReleaseModeAt(site) == 0
  {
  }

  /**
   * For a host pointer resolved as a pinned copy, the release at a site
   * writes the copy back into the Java array exactly when OpenCL wrote to
   * the host memory; in both cases the copy is freed.
   */
  lemma ReleaseAtSite(s: State, pd: PointerData, site: CallSite)
    requires pd.memoryType == ARRAY_COPY && pd.backing.Some? && pd.backing.value in s.heap.arrays
    requires pd.startPointer in s.memory.blocks
    ensures var t := Release(s, pd, ReleaseModeAt(site)).1;
            pd.backing.value in t.heap.arrays && pd.startPointer !in t.memory.blocks &&
            t.heap.arrays[pd.backing.value] ==
              (if TransferAt(site) == TO_HOST then s.memory.blocks[pd.startPointer] else s.heap.arrays[pd.backing.value])
  {
  }

  // ---------------------------------------------------------------------
  // The size of a mapped image
  // ---------------------------------------------------------------------

  /**
   * The capacity of the buffer clEnqueueMapImageNative returns, from the
   * region (size_t words, None when the region is null) and the pitches
   * OpenCL reports: row pitch times region[1] plus region[0], in size_t and
   * then as a jlong; slice pitch times region[2] is added, again in size_t,
   * only when both are non-zero.
   */
  function MappedImageSize(region: Option<seq<int>>, rowPitch: int, slicePitch: int): int
    requires region.Some? ==> |region.value| >= 3
  {
    if region.None? then 0
    else
      var r := region.value;
      var size := Int64(SizeT(rowPitch * r[1] + r[0]));
      if r[2] != 0 && slicePitch != 0 then Int64(SizeT(SizeT(size) + SizeT(slicePitch * r[2]))) else size
  }

  /**
   * When nothing overflows, the size is the plain sum: the slice term is
   * added whenever it is not zero, so the condition on it changes nothing.
   */
  lemma MappedImageSizeExact(r: seq<int>, rowPitch: nat, slicePitch: nat)
    requires |r| >= 3 && r[0] >= 0 && r[1] >= 0 && r[2] >= 0
    requires rowPitch * r[1] + r[0] + slicePitch * r[2] < 0x8000_0000_0000_0000
    ensures MappedImageSize(Some(r), rowPitch, slicePitch) == rowPitch * r[1] + r[0] + slicePitch * r[2]
    ensures MappedImageSize(None, rowPitch, slicePitch) == 0
  {
    var base := rowPitch * r[1] + r[0];
    var slice := slicePitch * r[2];
    assert 0 <= rowPitch * r[1] && 0 <= slice;
    assert Int64(SizeT(base)) == base;
    if r[2] == 0 || slicePitch == 0 {
      assert slice == 0;
    } else {
      assert SizeT(base) + SizeT(slice) == base + slice;
    }
  }

  /** The first three words of the native block at `addr`; None when no such block is allocated, where reading is undefined. */
  function RegionWords(m: Memory, addr: Address): Option<seq<int>>
  {
    if addr in m.blocks && |m.blocks[addr]| >= 3 then Some(m.blocks[addr][..3]) else None
  }

  /**
   * The size as the source computes it: nativeRegion is deleted before the
   * size is read from it. None marks that undefined read.
   */
  function MappedSizeAsWritten(m: Memory, region: Option<Address>, rowPitch: int, slicePitch: int): Option<int>
  {
    if region.None? then Some(0)
    else
      var words := RegionWords(FreeBlock(m, region.value), region.value);
      if words.None? then None else Some(MappedImageSize(words, rowPitch, slicePitch))
  }

  /**
   * For every non-null region the size is read from freed memory, even when
   * the region block holds the three words the intended size is computed
   * from before the free.
   */
  lemma AsWrittenReadsFreedRegion(m: Memory, addr: Address, rowPitch: int, slicePitch: int)
    ensures MappedSizeAsWritten(m, Some(addr), rowPitch, slicePitch).None?
    ensures addr in m.blocks && |m.blocks[addr]| >= 3 ==>
              RegionWords(m, addr) == Some(m.blocks[addr][..3]) && |RegionWords(m, addr).value| == 3
  {
  }

  /**
   * Both halves side by side: for a region block that holds the converted
   * Java array, the size as written is undefined, while the size read from
   * that block before the free is the one MappedSize returns.
   */
  lemma AsWrittenVersusMappedSize(m: Memory, addr: Address, values: seq<int>, rowPitch: int, slicePitch: int)
    requires |values| >= 3 && addr in m.blocks && m.blocks[addr] == SizeTs(values)
    ensures MappedSizeAsWritten(m, Some(addr), rowPitch, slicePitch).None?
    ensures MappedImageSize(RegionWords(m, addr), rowPitch, slicePitch) == MappedImageSize(Some(SizeTs(values)), rowPitch, slicePitch)
  {
    var w := SizeTs(values);
    assert RegionWords(m, addr) == Some(w[..3]);
    assert w[..3][0] == w[0] && w[..3][1] == w[1] && w[..3][2] == w[2];
  }

  /** A region {4, 2, 1} with row pitch 16: the intended size is 36, the source reads it after delete[]. */
  lemma AsWrittenReadsFreedExample()
    ensures MappedSizeAsWritten(Memory(map[1 := [4, 2, 1]], 2), Some(1), 16, 0).None?
    ensures MappedImageSize(RegionWords(Memory(map[1 := [4, 2, 1]], 2), 1), 16, 0) == 36
  {
    assert [4, 2, 1][..3] == [4, 2, 1];
  }

  /**
   * The region conversion and the size of clEnqueueMapImageNative, with the
   * size taken from the converted region before it is deleted. The region
   * is the jlong array given for it (null allowed); its block is freed, so
   * no native memory is left behind.
   */
  method MappedSize(env: Env, region: Option<Ref>, rowPitch: int, slicePitch: int) returns (size: int)
    requires region.Some? ==> region.value in env.heap.arrays && |env.heap.arrays[region.value]| >= 3
    requires MemoryOk(env.memory)
    modifies env
    ensures size == MappedImageSize(if region.Some? then Some(SizeTs(old(env.heap.arrays[region.value]))) else None,
                                    rowPitch, slicePitch)
    ensures env.heap == old(env.heap) && env.globalRefs == old(env.globalRefs) && env.pending == old(env.pending)
    ensures env.memory.blocks == old(env.memory.blocks)
  {
    size := 0;
    if region.Some? {
      var nativeRegion := env.ConvertArray(region.value);
      var r0 := WordAt(env.memory, nativeRegion, 0);
      var r1 := WordAt(env.memory, nativeRegion, 1);
      var r2 := WordAt(env.memory, nativeRegion, 2);
      size := Int64(SizeT(rowPitch * r1 + r0));
      if r2 != 0 && slicePitch != 0 {
        size := Int64(SizeT(SizeT(size) + SizeT(slicePitch * r2)));
      }
      env.FreeWords(nativeRegion);
    }
  }
}
