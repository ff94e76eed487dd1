/**
 * Pointer.java: the factories that wrap Java arrays, buffers and other
 * pointer objects, and the pointer-specific withByteOffset. They validate
 * their argument and build a new object; nothing is changed afterwards, so
 * they are functions from a heap to the heap with the new object.
 */
module Pointers {
  import opened Wrappers
  import opened JNIUtils
  import opened PointerUtils
  import opened NativePointerObjects

  const POINTER_CLASS_NAME: ClassName := "org.jocl.Pointer"

  /** What a factory gives: the new pointer and the heap holding it, or the exception it throws. */
  datatype Made = Made(ref: Ref, heap: Heap) | Thrown(exception: JavaException)

  /** `new NativePointerObject[]{...}`: a fresh object array. */
  function NewObjectArray(h: Heap, component: ClassName, elements: seq<Option<Ref>>): (res: (Ref, Heap))
    ensures res.0 == h.nextRef && res.1.nextRef == h.nextRef + 1
    ensures res.1.objectArrays == h.objectArrays[h.nextRef := ObjectArray(Some(component), elements)]
    ensures res.1.objects == h.objects && res.1.arrays == h.arrays
  {
    (h.nextRef, h.(objectArrays := h.objectArrays[h.nextRef := ObjectArray(Some(component), elements)],
                   nextRef := h.nextRef + 1))
  }

  /** The objects present before are still there, unchanged. */
  ghost predicate Extends(g: Heap, h: Heap)
  {
    forall o | o in h.objects :: o in g.objects && g.objects[o] == h.objects[o]
  }

  /**
   * Pointer.to(byte[]) … Pointer.to(double[]): the array wrapped in a heap
   * buffer, which throws NullPointerException on a null array. The element
   * type does not change the logic, so one function models all seven.
   */
  function ToArray(h: Heap, values: Option<Ref>): (r: Made)
    requires HeapOk(h)
    ensures r.Thrown? <==> values.None?
    ensures r.Thrown? ==> r.exception == NullPointerException
    ensures r.Made? ==> r.ref !in h.objects && r.ref in r.heap.objects && Extends(r.heap, h) &&
                        r.heap.objects[r.ref] == BufferObject(POINTER_CLASS_NAME, Some(ArrayBacked(values.value)))
  {
    if values.None? then Thrown(NullPointerException)
    else
      var (o, g) := Allocate(h, BufferObject(POINTER_CLASS_NAME, Some(ArrayBacked(values.value))));
      Made(o, g)
  }

  /** Pointer.to(Buffer): a null buffer, or one that is neither direct nor array-backed, is refused. */
  function ToBuffer(h: Heap, buffer: Option<Buffer>): (r: Made)
    requires HeapOk(h)
    ensures r.Thrown? <==> buffer.None? || buffer.value.Neither?
    ensures r.Thrown? ==> r.exception == IllegalArgumentException
    ensures r.Made? ==> r.ref !in h.objects && r.ref in r.heap.objects && Extends(r.heap, h) &&
                        r.heap.objects[r.ref] == BufferObject(POINTER_CLASS_NAME, buffer)
  {
    if buffer.None? || buffer.value.Neither? then Thrown(IllegalArgumentException)
    else
      var (o, g) := Allocate(h, BufferObject(POINTER_CLASS_NAME, buffer));
      Made(o, g)
  }

  /** Pointer.to(NativePointerObject): a new one-element array holding `pointer`; null is refused. */
  function ToPointer(h: Heap, pointer: Option<Ref>): (r: Made)
    requires HeapOk(h)
    ensures r.Thrown? <==> pointer.None?
    ensures r.Thrown? ==> r.exception == IllegalArgumentException
    ensures r.Made? ==> r.ref !in h.objects && r.ref in r.heap.objects && Extends(r.heap, h) &&
                        r.heap.objects[r.ref].pointers.Some? && r.heap.objects[r.ref].pointers.value !in h.objectArrays &&
                        ElementsOf(r.heap, r.ref) == [pointer] &&
                        r.heap.objects[r.ref] == ArrayObject(POINTER_CLASS_NAME, r.heap.objects[r.ref].pointers)
  {
    if pointer.None? then Thrown(IllegalArgumentException)
    else
      var (arr, h1) := NewObjectArray(h, NATIVE_POINTER_OBJECT, [pointer]);
      var (o, g) := Allocate(h1, ArrayObject(POINTER_CLASS_NAME, Some(arr)));
      Made(o, g)
  }

  /**
   * Pointer.to(NativePointerObject...): the given array itself, not a copy;
   * only a null array is refused, null elements are accepted.
   */
  function ToPointers(h: Heap, pointers: Option<Ref>): (r: Made)
    requires HeapOk(h)
    ensures r.Thrown? <==> pointers.None?
    ensures r.Thrown? ==> r.exception == IllegalArgumentException
    ensures r.Made? ==> r.ref !in h.objects && r.ref in r.heap.objects && Extends(r.heap, h) && r.heap.objectArrays == h.objectArrays &&
                        r.heap.objects[r.ref] == ArrayObject(POINTER_CLASS_NAME, pointers)
  {
    if pointers.None? then Thrown(IllegalArgumentException)
    else
      var (o, g) := Allocate(h, ArrayObject(POINTER_CLASS_NAME, pointers));
      Made(o, g)
  }

  /** withByteOffset of Pointer: a new Pointer at the added offset; the receiver is left as it was. */
  function WithByteOffset(h: Heap, o: Ref, delta: int): (r: Made)
    requires HeapOk(h) && o in h.objects
    ensures r.Made? && r.ref !in h.objects && r.ref in r.heap.objects && Extends(r.heap, h)
    ensures r.heap.objects[r.ref] == OffsetCopy(POINTER_CLASS_NAME, h.objects[o], delta)
  {
    var (n, g) := Allocate(h, OffsetCopy(POINTER_CLASS_NAME, h.objects[o], delta));
    Made(n, g)
  }

  /** Two withByteOffset calls in a row give the offset of one call with the sum. */
  lemma WithByteOffsetTwice(h: Heap, o: Ref, a: int, b: int)
    requires HeapOk(h) && o in h.objects
    ensures var first := WithByteOffset(h, o, a);
            HeapOk(first.heap) &&
            WithByteOffset(first.heap, first.ref, b).heap.objects[first.heap.nextRef] ==
            WithByteOffset(h, o, a + b).heap.objects[h.nextRef]
  {
    var first := WithByteOffset(h, o, a);
    assert HeapOk(first.heap);
    OffsetsAccumulate(POINTER_CLASS_NAME, h.objects[o], a, b);
  }

  /** isDirectBufferPointer: the buffer is present and direct. */
  predicate IsDirectBufferPointer(p: PointerObject)
  {
    p.buffer.Some? && p.buffer.value.Direct?
  }

  /**
   * A pointer is resolved as a DIRECT view exactly when it is a direct
   * buffer pointer at a non-zero address with no handle and no pointer array.
   */
  lemma DirectBufferPointerKind(p: PointerObject, copies: bool)
    ensures KindFor(p, copies) == Some(DIRECT) <==>
            IsDirectBufferPointer(p) && p.buffer.value.address != 0 && p.nativePointer == 0 && p.pointers.None?
  {
  }

  /**
   * A pointer made from a Java array is resolved by pinning that array: an
   * ARRAY view, or ARRAY_COPY when the VM hands out copies, whose backing
   * array is the one given and which points at its start. Resolution fails
   * exactly when an exception is already pending.
   */
  lemma ArrayPointerResolvesPinned(s: State, values: Ref, rank: map<Ref, nat>)
    requires HeapOk(s.heap)
    ensures var r := ToArray(s.heap, Some(values));
            var res := Resolve(s.(heap := r.heap), Some(r.ref), rank);
            r.Made? && (res.0.Some? <==> s.pending.None?) &&
            (res.0.Some? ==>
               res.0.value.memoryType == (if s.pinCopies then ARRAY_COPY else ARRAY) &&
               res.0.value.backing == Some(values) && res.0.value.pointer == res.0.value.startPointer)
  {
    var r := ToArray(s.heap, Some(values));
    var s1 := s.(heap := r.heap);
    ResolvePrecedence(s1, r.ref, rank);
  }
}
