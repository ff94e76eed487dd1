/**
 * The JNI layer that the native core of JOCL runs on, and the helpers of
 * JNIUtils.cpp built on it.
 *
 * `Env` stands for a JNIEnv together with the part of the Java heap that
 * native code sees: pointer objects (NativePointerObject and its subclasses),
 * object arrays, primitive arrays, the multiset of global references, the
 * blocks native code allocates, and the pending exception. `Env.Snapshot()`
 * gives the whole of it as a `State` value, so that specifications can be
 * written as functions from `State` to `State`.
 */
module JNIUtils {
  import opened Wrappers

  /** Identity of a managed object or array. */
  type Ref = nat
  /** A native address, or a jlong that holds one. */
  type Address = int
  /** Name of a Java class. */
  type ClassName = string

  /** Release modes of ReleasePrimitiveArrayCritical; 0 copies back and frees. */
  const JNI_COMMIT: int := 1
  const JNI_ABORT: int := 2

  const TWO_32: int := 0x1_0000_0000
  const TWO_64: int := 0x1_0000_0000_0000_0000

  /** The exceptions the native core throws by name. */
  datatype JavaException =
    | OutOfMemoryError
    | IllegalArgumentException
    | NullPointerException
    | ArrayIndexOutOfBoundsException
    | InstantiationException
    | RuntimeException

  /** What a java.nio.Buffer offers native code: a direct address, a backing array, or neither. */
  datatype Buffer = Direct(address: Address) | ArrayBacked(backing: Ref) | Neither

  /** The fields of a NativePointerObject, or of an object of one of its subclasses. */
  datatype PointerObject = PointerObject(
    cls: ClassName,
    nativePointer: int,
    byteOffset: int,
    buffer: Option<Buffer>,
    pointers: Option<Ref>)

  /**
   * An object array: the class `newInstance` creates for it (None when the
   * component type cannot be instantiated) and its elements.
   */
  datatype ObjectArray = ObjectArray(componentType: Option<ClassName>, elements: seq<Option<Ref>>)

  /** The part of the Java heap native code sees; `nextRef` is the next fresh reference. */
  datatype Heap = Heap(
    objects: map<Ref, PointerObject>,
    objectArrays: map<Ref, ObjectArray>,
    arrays: map<Ref, seq<int>>,
    nextRef: Ref)

  /** Blocks of words allocated on the native side, by start address; `next` is the next fresh address. */
  datatype Memory = Memory(blocks: map<Address, seq<int>>, next: Address)

  /**
   * Everything a JNI call can observe or change. `pinCopies` is the JVM's
   * choice whether GetPrimitiveArrayCritical hands out copies.
   */
  datatype State = State(
    heap: Heap,
    globalRefs: multiset<Ref>,
    memory: Memory,
    pinCopies: bool,
    pending: Option<JavaException>)

  /** Every reference the heap holds leads to a live object, and new references are fresh. */
  ghost predicate HeapOk(h: Heap)
  {
    (forall r | r in h.objects :: r < h.nextRef) &&
    (forall r | r in h.objectArrays :: r < h.nextRef) &&
    (forall r | r in h.arrays :: r < h.nextRef) &&
    (forall r | r in h.objects ::
      (h.objects[r].pointers.Some? ==> h.objects[r].pointers.value in h.objectArrays) &&
      (h.objects[r].buffer.Some? && h.objects[r].buffer.value.ArrayBacked? ==>
         h.objects[r].buffer.value.backing in h.arrays)) &&
    (forall r, i | r in h.objectArrays && 0 <= i < |h.objectArrays[r].elements| ::
      h.objectArrays[r].elements[i].Some? ==> h.objectArrays[r].elements[i].value in h.objects)
  }

  /** Native blocks never sit at address 0, and the allocator hands out fresh addresses. */
  ghost predicate MemoryOk(m: Memory)
  {
    m.next > 0 && forall a | a in m.blocks :: 0 < a < m.next
  }

  ghost predicate Good(s: State)
  {
    HeapOk(s.heap) && MemoryOk(s.memory)
  }

  /**
   * Nothing the heap held is lost: objects keep their pointer arrays and
   * buffers, object arrays keep their length and component type, and arrays
   * stay. Only nativePointer, byteOffset, elements and array contents move.
   */
  ghost predicate HeapGrows(h: Heap, g: Heap)
  {
    g.nextRef >= h.nextRef &&
    (forall r | r in h.objects ::
      r in g.objects && g.objects[r].pointers == h.objects[r].pointers && g.objects[r].buffer == h.objects[r].buffer) &&
    (forall r | r in h.objectArrays ::
      r in g.objectArrays && |g.objectArrays[r].elements| == |h.objectArrays[r].elements| &&
      g.objectArrays[r].componentType == h.objectArrays[r].componentType) &&
    (forall r | r in h.arrays :: r in g.arrays)
  }

  /** Every block of `m` other than the one at `except` is still there, unchanged. */
  ghost predicate Keeps(m: Memory, n: Memory, except: Address)
  {
    n.next >= m.next &&
    forall a | a in m.blocks && a != except :: a in n.blocks && n.blocks[a] == m.blocks[a]
  }

  // ---------------------------------------------------------------------
  // Integer conversions of the C and Java sides
  // ---------------------------------------------------------------------

  /** Truncation to a jint (two's complement, 32 bits). */
  function Int32(x: int): (r: int)
    ensures -0x8000_0000 <= r < 0x8000_0000
    ensures -0x8000_0000 <= x < 0x8000_0000 ==> r == x
    ensures (x - r) % TWO_32 == 0
  {
    var m := x % TWO_32;
    if m >= 0x8000_0000 then m - TWO_32 else m
  }

  /** Truncation to a jlong (two's complement, 64 bits): Java's long arithmetic. */
  function Int64(x: int): (r: int)
    ensures -0x8000_0000_0000_0000 <= r < 0x8000_0000_0000_0000
    ensures -0x8000_0000_0000_0000 <= x < 0x8000_0000_0000_0000 ==> r == x
    ensures (x - r) % TWO_64 == 0
  {
    var m := x % TWO_64;
    if m >= 0x8000_0000_0000_0000 then m - TWO_64 else m
  }

  /** Conversion to cl_uint (unsigned, 32 bits). */
  function UInt32(x: int): (r: int)
    ensures 0 <= r < TWO_32
    ensures 0 <= x < TWO_32 ==> r == x
    ensures (x - r) % TWO_32 == 0
  {
    x % TWO_32
  }

  /** Conversion to size_t (unsigned, 64 bits). */
  function SizeT(x: int): (r: int)
    ensures 0 <= r < TWO_64
    ensures 0 <= x < TWO_64 ==> r == x
    ensures (x - r) % TWO_64 == 0
  {
    x % TWO_64
  }

  /** A cl_uint stored in a jint field reads back unchanged. */
  lemma UInt32ThroughInt32(n: int)
    requires 0 <= n < TWO_32
    ensures UInt32(Int32(n)) == n
  {
  }

  // ---------------------------------------------------------------------
  // Native memory
  // ---------------------------------------------------------------------

  function Zeros(n: nat): (r: seq<int>)
    ensures |r| == n && forall i | 0 <= i < n :: r[i] == 0
  {
    seq(n, i => 0)
  }

  /** A fresh block at `m.next` holding `contents`. */
  function NewBlock(m: Memory, contents: seq<int>): (r: Memory)
    ensures MemoryOk(m) ==> MemoryOk(r) && m.next !in m.blocks && Keeps(m, r, 0)
    ensures r.next == m.next + 1
    ensures m.next in r.blocks && r.blocks[m.next] == contents
  {
    Memory(m.blocks[m.next := contents], m.next + 1)
  }

  /** A fresh address with no block behind it. */
  function Reserve(m: Memory): (r: Memory)
    ensures MemoryOk(m) ==> MemoryOk(r)
    ensures Keeps(m, r, 0) && r.blocks == m.blocks && r.next == m.next + 1
  {
    m.(next := m.next + 1)
  }

  /** The word at index i of the block at `addr`; memory outside known blocks reads as 0. */
  function WordAt(m: Memory, addr: Address, i: int): int
  {
    if addr in m.blocks && 0 <= i < |m.blocks[addr]| then m.blocks[addr][i] else 0
  }

  /** A store into word i of the block at `addr`; stores outside known blocks are lost. */
  function Store(m: Memory, addr: Address, i: int, v: int): (r: Memory)
    ensures MemoryOk(m) ==> MemoryOk(r)
    ensures Keeps(m, r, addr) && r.next == m.next && r.blocks.Keys == m.blocks.Keys
    ensures addr in m.blocks ==> |r.blocks[addr]| == |m.blocks[addr]|
    ensures addr in m.blocks && 0 <= i < |m.blocks[addr]| ==> r.blocks[addr] == m.blocks[addr][i := v]
  {
    if addr in m.blocks && 0 <= i < |m.blocks[addr]|
    then m.(blocks := m.blocks[addr := m.blocks[addr][i := v]])
    else m
  }

  /** `delete[]` of a native block. */
  function FreeBlock(m: Memory, addr: Address): (r: Memory)
    ensures MemoryOk(m) ==> MemoryOk(r)
    ensures Keeps(m, r, addr) && r.blocks == m.blocks - {addr}
  {
    m.(blocks := m.blocks - {addr})
  }

  // ---------------------------------------------------------------------
  // State transitions of single JNI calls
  // ---------------------------------------------------------------------

  /** Raising `e`: ThrowByName leaves an exception that is already pending in place. */
  function AfterThrow(pending: Option<JavaException>, e: JavaException): (r: Option<JavaException>)
    ensures r.Some?
    ensures pending.Some? ==> r == pending
    ensures pending.None? ==> r == Some(e)
  {
    if pending.Some? then pending else Some(e)
  }

  function Throw(s: State, e: JavaException): State
  {
    s.(pending := AfterThrow(s.pending, e))
  }

  function Opt(r: Option<Ref>): multiset<Ref>
  {
    if r.Some? then multiset{r.value} else multiset{}
  }

  /** NewGlobalRef. */
  function AddRef(s: State, r: Ref): State
  {
    s.(globalRefs := s.globalRefs + multiset{r})
  }

  /** DeleteGlobalRef, which ignores NULL. */
  function DropRef(s: State, r: Option<Ref>): State
  {
    s.(globalRefs := s.globalRefs - Opt(r))
  }

  /**
   * GetPrimitiveArrayCritical: hands out a fresh address; when the JVM
   * copies, that address holds a copy of the array's contents.
   */
  function Pin(s: State, a: Ref): (t: State)
    ensures t.heap == s.heap && t.globalRefs == s.globalRefs && t.pending == s.pending && t.pinCopies == s.pinCopies
    ensures MemoryOk(s.memory) ==> MemoryOk(t.memory) && Keeps(s.memory, t.memory, 0)
    ensures t.memory.next == s.memory.next + 1
  {
    s.(memory := if s.pinCopies then NewBlock(s.memory, ArrayContents(s.heap, a)) else Reserve(s.memory))
  }

  /**
   * ReleasePrimitiveArrayCritical: JNI_ABORT discards the copy, any other
   * mode copies it back into the array; JNI_COMMIT keeps the copy.
   */
  function Unpin(s: State, a: Option<Ref>, addr: Address, mode: int): (t: State)
    ensures MemoryOk(s.memory) ==> MemoryOk(t.memory)
    ensures Keeps(s.memory, t.memory, addr) && t.heap.arrays.Keys == s.heap.arrays.Keys
    ensures t.globalRefs == s.globalRefs && t.pending == s.pending && t.pinCopies == s.pinCopies
    ensures t.heap == s.heap.(arrays := t.heap.arrays)
  {
    var arrays := if mode != JNI_ABORT && addr in s.memory.blocks && a.Some? && a.value in s.heap.arrays
                  then s.heap.arrays[a.value := s.memory.blocks[addr]] else s.heap.arrays;
    s.(heap := s.heap.(arrays := arrays),
       memory := if mode == JNI_COMMIT then s.memory else FreeBlock(s.memory, addr))
  }

  /** SetLongField on nativePointer (a reference to no object changes nothing). */
  function SetNativePointerField(h: Heap, o: Ref, v: int): (g: Heap)
    ensures g.objects.Keys == h.objects.Keys
    ensures g.objectArrays == h.objectArrays && g.arrays == h.arrays && g.nextRef == h.nextRef
  {
    if o in h.objects then h.(objects := h.objects[o := h.objects[o].(nativePointer := v)]) else h
  }

  /** SetLongField on byteOffset (a reference to no object changes nothing). */
  function SetByteOffsetField(h: Heap, o: Ref, v: int): (g: Heap)
    ensures g.objects.Keys == h.objects.Keys
    ensures g.objectArrays == h.objectArrays && g.arrays == h.arrays && g.nextRef == h.nextRef
  {
    if o in h.objects then h.(objects := h.objects[o := h.objects[o].(byteOffset := v)]) else h
  }

  /** A field store into the buffer of an object (a reference to no object changes nothing). */
  function SetBufferField(h: Heap, o: Ref, b: Option<Buffer>): (g: Heap)
    ensures g.objects.Keys == h.objects.Keys
    ensures g.objectArrays == h.objectArrays && g.arrays == h.arrays && g.nextRef == h.nextRef
  {
    if o in h.objects then h.(objects := h.objects[o := h.objects[o].(buffer := b)]) else h
  }

  /** A field store into the pointer array of an object (a reference to no object changes nothing). */
  function SetPointersField(h: Heap, o: Ref, p: Option<Ref>): (g: Heap)
    ensures g.objects.Keys == h.objects.Keys
    ensures g.objectArrays == h.objectArrays && g.arrays == h.arrays && g.nextRef == h.nextRef
  {
    if o in h.objects then h.(objects := h.objects[o := h.objects[o].(pointers := p)]) else h
  }

  /** A new primitive array holding `contents`. */
  function NewArray(h: Heap, contents: seq<int>): (g: Heap)
    ensures g.nextRef == h.nextRef + 1 && g.arrays == h.arrays[h.nextRef := contents]
    ensures g.objects == h.objects && g.objectArrays == h.objectArrays
  {
    h.(arrays := h.arrays[h.nextRef := contents], nextRef := h.nextRef + 1)
  }

  /** A new instance of `cls` made by its no-argument constructor: every field null or 0. */
  function NewInstance(h: Heap, cls: ClassName): (g: Heap)
    ensures g.nextRef == h.nextRef + 1
    ensures g.objects == h.objects[h.nextRef := PointerObject(cls, 0, 0, None, None)]
    ensures g.objectArrays == h.objectArrays && g.arrays == h.arrays
  {
    h.(objects := h.objects[h.nextRef := PointerObject(cls, 0, 0, None, None)], nextRef := h.nextRef + 1)
  }

  /** SetObjectArrayElement (an index out of range changes nothing). */
  function StoreElement(h: Heap, arr: Ref, i: int, r: Option<Ref>): (g: Heap)
    ensures g.objects == h.objects && g.arrays == h.arrays && g.nextRef == h.nextRef
    ensures g.objectArrays.Keys == h.objectArrays.Keys
  {
    if arr in h.objectArrays && 0 <= i < |h.objectArrays[arr].elements|
    then h.(objectArrays := h.objectArrays[arr := h.objectArrays[arr].(elements := h.objectArrays[arr].elements[i := r])])
    else h
  }

  /** The contents of a primitive array; none for a reference to no array. */
  function ArrayContents(h: Heap, a: Ref): seq<int>
  {
    if a in h.arrays then h.arrays[a] else []
  }

  /** A store into element i of a primitive array. */
  function StoreArrayElement(h: Heap, a: Ref, i: int, v: int): (g: Heap)
    requires a in h.arrays && 0 <= i < |h.arrays[a]|
    ensures g == h.(arrays := h.arrays[a := h.arrays[a][i := v]])
  {
    h.(arrays := h.arrays[a := h.arrays[a][i := v]])
  }

  // The heap stays well formed under each single update. These are lemmas
  // rather than postconditions so that a term built from the updates does
  // not drag the quantifiers of HeapOk into every proof that mentions it.

  lemma UnpinOk(s: State, a: Option<Ref>, addr: Address, mode: int)
    ensures HeapGrows(s.heap, Unpin(s, a, addr, mode).heap)
    ensures HeapOk(s.heap) ==> HeapOk(Unpin(s, a, addr, mode).heap)
  {
  }

  lemma SetFieldsOk(h: Heap, o: Ref, v: int, w: int)
    ensures HeapGrows(h, SetNativePointerField(h, o, v)) && HeapGrows(h, SetByteOffsetField(h, o, w))
    ensures HeapOk(h) ==> HeapOk(SetNativePointerField(h, o, v)) && HeapOk(SetByteOffsetField(h, o, w))
  {
  }

  /** The JVM puts a new object at a reference nothing uses yet. */
  lemma NewInstanceOk(h: Heap, cls: ClassName)
    requires HeapOk(h)
    ensures h.nextRef !in h.objects && HeapOk(NewInstance(h, cls)) && HeapGrows(h, NewInstance(h, cls))
  {
  }

  lemma StoreElementOk(h: Heap, arr: Ref, i: int, r: Option<Ref>)
    ensures HeapGrows(h, StoreElement(h, arr, i, r))
    ensures HeapOk(h) && (r.Some? ==> r.value in h.objects) ==> HeapOk(StoreElement(h, arr, i, r))
  {
  }

  lemma StoreArrayElementOk(h: Heap, a: Ref, i: int, v: int)
    requires a in h.arrays && 0 <= i < |h.arrays[a]|
    ensures HeapGrows(h, StoreArrayElement(h, a, i, v))
    ensures HeapOk(h) ==> HeapOk(StoreArrayElement(h, a, i, v))
  {
  }

  /** JNIEnv and the part of the Java heap native code sees. */
  class Env {
    var heap: Heap
    var globalRefs: multiset<Ref>
    var memory: Memory
    var pinCopies: bool
    var pending: Option<JavaException>

    function Snapshot(): State
      reads this
    {
      State(heap, globalRefs, memory, pinCopies, pending)
    }

    ghost predicate Valid()
      reads this
    {
      Good(Snapshot())
    }

    method NewGlobalRef(r: Ref)
      modifies this
      ensures Snapshot() == AddRef(old(Snapshot()), r)
    {
      globalRefs := globalRefs + multiset{r};
    }

    method DeleteGlobalRef(r: Option<Ref>)
      modifies this
      ensures Snapshot() == DropRef(old(Snapshot()), r)
    {
      globalRefs := globalRefs - Opt(r);
    }

    /** `new void*[n]`: a fresh block of n words, zero-filled in this model. */
    method AllocateWords(n: nat) returns (addr: Address)
      modifies this
      ensures addr == old(memory.next)
      ensures Snapshot() == old(Snapshot()).(memory := NewBlock(old(memory), Zeros(n)))
    {
      addr := memory.next;
      memory := NewBlock(memory, Zeros(n));
    }

    method StoreWord(addr: Address, i: int, v: int)
      modifies this
      ensures Snapshot() == old(Snapshot()).(memory := Store(old(memory), addr, i, v))
    {
      memory := Store(memory, addr, i, v);
    }

    method FreeWords(addr: Address)
      modifies this
      ensures Snapshot() == old(Snapshot()).(memory := FreeBlock(old(memory), addr))
    {
      memory := FreeBlock(memory, addr);
    }

    /** GetPrimitiveArrayCritical, reporting through `isCopy` whether it copied. */
    method GetPrimitiveArrayCritical(a: Ref) returns (addr: Address, isCopy: bool)
      modifies this
      ensures addr == old(memory.next) && isCopy == pinCopies
      ensures Snapshot() == Pin(old(Snapshot()), a)
    {
      addr, isCopy := memory.next, pinCopies;
      memory := if pinCopies then NewBlock(memory, ArrayContents(heap, a)) else Reserve(memory);
    }

    method ReleasePrimitiveArrayCritical(a: Option<Ref>, addr: Address, mode: int)
      modifies this
      ensures Snapshot() == Unpin(old(Snapshot()), a, addr, mode)
    {
      if mode != JNI_ABORT && addr in memory.blocks && a.Some? && a.value in heap.arrays {
        heap := heap.(arrays := heap.arrays[a.value := memory.blocks[addr]]);
      }
      if mode != JNI_COMMIT {
        memory := FreeBlock(memory, addr);
      }
    }

    method SetNativePointerLong(o: Ref, v: int)
      modifies this
      ensures Snapshot() == old(Snapshot()).(heap := SetNativePointerField(old(heap), o, v))
    {
      heap := SetNativePointerField(heap, o, v);
    }

    method SetByteOffsetLong(o: Ref, v: int)
      modifies this
      ensures Snapshot() == old(Snapshot()).(heap := SetByteOffsetField(old(heap), o, v))
    {
      heap := SetByteOffsetField(heap, o, v);
    }

    /** NewObject through the no-argument constructor of `cls`. */
    method NewObject(cls: ClassName) returns (r: Ref)
      modifies this
      ensures r == old(heap.nextRef)
      ensures Snapshot() == old(Snapshot()).(heap := NewInstance(old(heap), cls))
    {
      r := heap.nextRef;
      heap := NewInstance(heap, cls);
    }

    method SetBuffer(o: Ref, b: Option<Buffer>)
      modifies this
      ensures Snapshot() == old(Snapshot()).(heap := SetBufferField(old(heap), o, b))
    {
      heap := SetBufferField(heap, o, b);
    }

    method SetPointers(o: Ref, p: Option<Ref>)
      modifies this
      ensures Snapshot() == old(Snapshot()).(heap := SetPointersField(old(heap), o, p))
    {
      heap := SetPointersField(heap, o, p);
    }

    /** `new long[]` filled with `contents`. */
    method NewLongArray(contents: seq<int>) returns (r: Ref)
      modifies this
      ensures r == old(heap.nextRef)
      ensures Snapshot() == old(Snapshot()).(heap := NewArray(old(heap), contents))
    {
      r := heap.nextRef;
      heap := NewArray(heap, contents);
    }

    method SetObjectArrayElement(arr: Ref, i: int, r: Option<Ref>)
      modifies this
      ensures Snapshot() == old(Snapshot()).(heap := StoreElement(old(heap), arr, i, r))
    {
      heap := StoreElement(heap, arr, i, r);
    }

    /**
     * ThrowByName: raises `e` unless an exception is already pending. The
     * classes the core names are always found, so FindClass never fails here.
     */
    method ThrowByName(e: JavaException)
      modifies this
      ensures pending.Some?
      ensures Snapshot() == Throw(old(Snapshot()), e)
    {
      if pending.None? {
        pending := Some(e);
      }
    }

    /**
     * `set(env, jintArray, index, long value)`: stores the value, truncated to a
     * jint, at `index`; a null array is left alone and reported as success.
     */
    method SetIntElement(a: Option<Ref>, index: int, value: int) returns (ok: bool)
      requires a.Some? ==> a.value in heap.arrays && 0 <= index < |heap.arrays[a.value]|
      modifies this
      ensures ok
      ensures a.None? ==> Snapshot() == old(Snapshot())
      ensures a.Some? ==> Snapshot() == old(Snapshot()).(heap := StoreArrayElement(old(heap), a.value, index, Int32(value)))
    {
      if a.Some? {
        heap := StoreArrayElement(heap, a.value, index, Int32(value));
      }
      ok := true;
    }

    /** `set(env, jlongArray, index, long value)`: as SetIntElement, without truncation. */
    method SetLongElement(a: Option<Ref>, index: int, value: int) returns (ok: bool)
      requires a.Some? ==> a.value in heap.arrays && 0 <= index < |heap.arrays[a.value]|
      modifies this
      ensures ok
      ensures a.None? ==> Snapshot() == old(Snapshot())
      ensures a.Some? ==> Snapshot() == old(Snapshot()).(heap := StoreArrayElement(old(heap), a.value, index, value))
    {
      if a.Some? {
        heap := StoreArrayElement(heap, a.value, index, value);
      }
      ok := true;
    }

    /**
     * convertArray: a fresh native block with each element of the jlong array
     * `a` converted to size_t. The array is pinned while it is read and
     * released with JNI_ABORT, so the managed array is left as it was and a
     * pinned copy is discarded.
     */
    method ConvertArray(a: Ref) returns (addr: Address)
      requires a in heap.arrays
      requires MemoryOk(memory)
      modifies this
      ensures addr == old(memory.next) && addr !in old(memory.blocks)
      ensures heap == old(heap) && globalRefs == old(globalRefs) && pending == old(pending) && pinCopies == old(pinCopies)
      ensures memory.blocks == old(memory.blocks)[addr := SizeTs(old(heap.arrays[a]))]
      ensures MemoryOk(memory) && memory.next == old(memory.next) + 2
    {
      var values := heap.arrays[a];
      addr := AllocateWords(|values|);
      var pinned, _ := GetPrimitiveArrayCritical(a);
      ghost var blocks := memory.blocks;
      assert Converted(values, 0) == Zeros(|values|);
      assert blocks[addr := Converted(values, 0)] == blocks;
      var i := 0;
      while i < |values|
        invariant 0 <= i <= |values|
        invariant heap == old(heap) && globalRefs == old(globalRefs) && pending == old(pending) && pinCopies == old(pinCopies)
        invariant memory.next == old(memory.next) + 2 && memory.blocks == blocks[addr := Converted(values, i)]
      {
        StoreWord(addr, i, SizeT(values[i]));
        ConvertedStep(values, i);
        i := i + 1;
      }
      assert Converted(values, i) == SizeTs(values);
      assert pinned !in old(memory.blocks) && pinned != addr;
      ReleasePrimitiveArrayCritical(Some(a), pinned, JNI_ABORT);
    }
  }

  /** Each element converted to size_t. */
  function SizeTs(values: seq<int>): seq<int>
  {
    seq(|values|, i requires 0 <= i < |values| => SizeT(values[i]))
  }

  /** The block of convertArray after the first i elements are stored. */
  function Converted(values: seq<int>, i: nat): seq<int>
  {
    seq(|values|, j => if 0 <= j < i && j < |values| then SizeT(values[j]) else 0)
  }

  lemma ConvertedStep(values: seq<int>, i: nat)
    requires i < |values|
    ensures Converted(values, i)[i := SizeT(values[i])] == Converted(values, i + 1)
  {
  }

  /**
   * convertString: the bytes of the string in the platform's default charset,
   * copied into a fresh native buffer with a terminating 0; the length, without
   * the terminator, is reported when the caller asks for it. String.getBytes is
   * a Java call; its result is the parameter `bytes`.
   */
  method ConvertString(bytes: seq<int>, wantLength: bool) returns (r: array<int>, length: Option<int>)
    ensures fresh(r) && r.Length == |bytes| + 1
    ensures r[..|bytes|] == bytes && r[|bytes|] == 0
    ensures length == if wantLength then Some(|bytes|) else None
  {
    var len := |bytes|;
    length := if wantLength then Some(len) else None;
    r := new int[len + 1];
    var i := 0;
    while i < len
      invariant 0 <= i <= len
      invariant r[..i] == bytes[..i]
    {
      r[i] := bytes[i];
      i := i + 1;
    }
    r[len] := 0;
  }
}
