/**
 * NativePointerObject.java: the Java side of every handle and pointer. Its
 * objects live in the same `Heap` the native code reads. The constructors and
 * `setBuffer` assign fields one by one on an `Env`; `withByteOffset`,
 * `equals` and `hashCode` are functions of the heap.
 */
module NativePointerObjects {
  import opened Wrappers
  import opened JNIUtils
  import opened PointerUtils

  const NATIVE_POINTER_OBJECT: ClassName := "org.jocl.NativePointerObject"

  /** `new`: a fresh object holding the fields `p`. */
  function Allocate(h: Heap, p: PointerObject): (res: (Ref, Heap))
    ensures res.0 == h.nextRef && res.1.nextRef == h.nextRef + 1
    ensures res.1.objects == h.objects[h.nextRef := p]
    ensures res.1.objectArrays == h.objectArrays && res.1.arrays == h.arrays
  {
    (h.nextRef, h.(objects := h.objects[h.nextRef := p], nextRef := h.nextRef + 1))
  }

  // ---------------------------------------------------------------------
  // The fields each constructor leaves behind
  // ---------------------------------------------------------------------

  /** NativePointerObject(): no buffer, no pointer array, offset 0 (and the native pointer's default 0). */
  function NullObject(cls: ClassName): PointerObject
  {
    PointerObject(cls, 0, 0, None, None)
  }

  /** NativePointerObject(Buffer): the buffer, no pointer array, offset 0. */
  function BufferObject(cls: ClassName, b: Option<Buffer>): PointerObject
  {
    PointerObject(cls, 0, 0, b, None)
  }

  /** NativePointerObject(NativePointerObject[]): the pointer array, no buffer, offset 0. */
  function ArrayObject(cls: ClassName, arr: Option<Ref>): PointerObject
  {
    PointerObject(cls, 0, 0, None, arr)
  }

  /** The copy constructor: buffer, pointer array and offset of `other`; the native pointer is not copied. */
  function CopyOf(cls: ClassName, other: PointerObject): PointerObject
  {
    PointerObject(cls, 0, other.byteOffset, other.buffer, other.pointers)
  }

  /** The offset constructor: a copy whose offset is `other`'s plus `delta`, in long arithmetic. */
  function OffsetCopy(cls: ClassName, other: PointerObject, delta: int): (p: PointerObject)
    ensures p.buffer == other.buffer && p.pointers == other.pointers && p.nativePointer == 0
    ensures (p.byteOffset - (other.byteOffset + delta)) % TWO_64 == 0
  {
    CopyOf(cls, other).(byteOffset := Int64(other.byteOffset + delta))
  }

  /** Adding offsets one after the other is adding their sum, modulo 2^64 as Java's long does. */
  lemma OffsetsAccumulate(cls: ClassName, p: PointerObject, a: int, b: int)
    ensures OffsetCopy(cls, OffsetCopy(cls, p, a), b) == OffsetCopy(cls, p, a + b)
  {
    Int64Congruent(Int64(p.byteOffset + a) + b, p.byteOffset + a + b);
  }

  /** Int64 depends only on the residue modulo 2^64. */
  lemma Int64Congruent(u: int, v: int)
    requires (u - v) % TWO_64 == 0
    ensures Int64(u) == Int64(v)
  {
    var k := (u - v) / TWO_64;
    assert u == v + k * TWO_64;
    ModShift(v, k);
  }

  lemma {:induction false} ModShift(v: int, k: int)
    ensures (v + k * TWO_64) % TWO_64 == v % TWO_64
    decreases if k < 0 then -k else k
  {
    if k > 0 {
      ModShift(v, k - 1);
      assert v + k * TWO_64 == (v + (k - 1) * TWO_64) + TWO_64;
    } else if k < 0 {
      ModShift(v, k + 1);
      assert v + k * TWO_64 == (v + (k + 1) * TWO_64) - TWO_64;
    }
  }

  // ---------------------------------------------------------------------
  // Constructors and setBuffer, field by field
  // ---------------------------------------------------------------------

  /** NativePointerObject(). */
  method NewNullObject(env: Env, cls: ClassName) returns (r: Ref)
    modifies env
    ensures r == old(env.heap.nextRef)
    ensures env.Snapshot() == old(env.Snapshot()).(heap := Allocate(old(env.heap), NullObject(cls)).1)
  {
    r := env.NewObject(cls);
    env.SetBuffer(r, None);
    env.SetPointers(r, None);
    env.SetByteOffsetLong(r, 0);
  }

  /** NativePointerObject(Buffer). */
  method NewBufferObject(env: Env, cls: ClassName, b: Option<Buffer>) returns (r: Ref)
    modifies env
    ensures r == old(env.heap.nextRef)
    ensures env.Snapshot() == old(env.Snapshot()).(heap := Allocate(old(env.heap), BufferObject(cls, b)).1)
  {
    r := env.NewObject(cls);
    env.SetBuffer(r, b);
    env.SetPointers(r, None);
    env.SetByteOffsetLong(r, 0);
  }

  /** NativePointerObject(NativePointerObject[]). */
  method NewArrayObject(env: Env, cls: ClassName, arr: Option<Ref>) returns (r: Ref)
    modifies env
    ensures r == old(env.heap.nextRef)
    ensures env.Snapshot() == old(env.Snapshot()).(heap := Allocate(old(env.heap), ArrayObject(cls, arr)).1)
  {
    r := env.NewObject(cls);
    env.SetBuffer(r, None);
    env.SetPointers(r, arr);
    env.SetByteOffsetLong(r, 0);
  }

  /** NativePointerObject(NativePointerObject other): `other` is left as it was. */
  method NewCopy(env: Env, cls: ClassName, other: Ref) returns (r: Ref)
    requires other in env.heap.objects
    modifies env
    ensures r == old(env.heap.nextRef)
    ensures env.Snapshot() == old(env.Snapshot()).(heap := Allocate(old(env.heap), CopyOf(cls, old(env.heap.objects[other]))).1)
  {
    var p := env.heap.objects[other];
    r := env.NewObject(cls);
    env.SetBuffer(r, p.buffer);
    env.SetPointers(r, p.pointers);
    env.SetByteOffsetLong(r, p.byteOffset);
  }

  /** NativePointerObject(NativePointerObject other, long byteOffset): the copy, then `byteOffset += delta`. */
  method NewOffsetCopy(env: Env, cls: ClassName, other: Ref, delta: int) returns (r: Ref)
    requires other in env.heap.objects
    modifies env
    ensures r == old(env.heap.nextRef)
    ensures env.Snapshot() == old(env.Snapshot()).(heap := Allocate(old(env.heap), OffsetCopy(cls, old(env.heap.objects[other]), delta)).1)
  {
    r := NewCopy(env, cls, other);
    var offset := env.heap.objects[r].byteOffset;
    env.SetByteOffsetLong(r, Int64(offset + delta));
  }

  /** setBuffer: the new buffer, no pointer array, offset 0; nothing else changes. */
  function WithBuffer(h: Heap, o: Ref, b: Option<Buffer>): (g: Heap)
    requires o in h.objects
    ensures g.objects.Keys == h.objects.Keys && g.arrays == h.arrays && g.objectArrays == h.objectArrays
    ensures g.nextRef == h.nextRef
    ensures g.objects[o] == h.objects[o].(buffer := b, pointers := None, byteOffset := 0)
    ensures forall r | r in h.objects && r != o :: g.objects[r] == h.objects[r]
  {
    h.(objects := h.objects[o := h.objects[o].(buffer := b, pointers := None, byteOffset := 0)])
  }

  method SetBuffer(env: Env, o: Ref, b: Option<Buffer>)
    requires o in env.heap.objects
    modifies env
    ensures env.Snapshot() == old(env.Snapshot()).(heap := WithBuffer(old(env.heap), o, b))
  {
    env.SetBuffer(o, b);
    env.SetPointers(o, None);
    env.SetByteOffsetLong(o, 0);
  }

  /** withByteOffset of NativePointerObject: a new NativePointerObject; the receiver is left as it was. */
  function WithByteOffset(h: Heap, o: Ref, delta: int): (res: (Ref, Heap))
    requires o in h.objects && h.nextRef !in h.objects
    ensures res.0 !in h.objects && res.1.objects == h.objects[res.0 := OffsetCopy(NATIVE_POINTER_OBJECT, h.objects[o], delta)]
    ensures res.1.objects[o] == h.objects[o]
  {
    Allocate(h, OffsetCopy(NATIVE_POINTER_OBJECT, h.objects[o], delta))
  }

  // ---------------------------------------------------------------------
  // equals and hashCode
  // ---------------------------------------------------------------------

  /**
   * equals: the same object, or an object of the same class with equal
   * buffers, offsets, native pointers and pointer arrays (Arrays.equals,
   * which compares the elements with equals). Buffers are compared as
   * values. `rank` bounds the recursion into the pointer arrays, as in
   * `Resolve`: an element the ranking does not place below its array
   * compares unequal, which on a ranked heap never happens.
   */
  function Equals(h: Heap, a: Ref, b: Option<Ref>, rank: map<Ref, nat>): (r: bool)
    requires a in h.objects
    ensures b == Some(a) ==> r
    ensures r ==> b.Some? && b.value in h.objects && h.objects[b.value].cls == h.objects[a].cls
    ensures r ==> h.objects[b.value].buffer == h.objects[a].buffer
    ensures r ==> h.objects[b.value].byteOffset == h.objects[a].byteOffset
    ensures r ==> h.objects[b.value].nativePointer == h.objects[a].nativePointer
    decreases RankOf(rank, a), 3, 0
  {
    if b == Some(a) then true
    else if b.None? || b.value !in h.objects then false
    else
      var p, q := h.objects[a], h.objects[b.value];
      p.cls == q.cls && p.buffer == q.buffer && p.byteOffset == q.byteOffset &&
      p.nativePointer == q.nativePointer && ArraysEqual(h, p.pointers, q.pointers, RankOf(rank, a), rank)
  }

  /** Arrays.equals on two pointer arrays. */
  function ArraysEqual(h: Heap, x: Option<Ref>, y: Option<Ref>, bound: nat, rank: map<Ref, nat>): bool
    decreases bound, 2, 0
  {
    if x == y then true
    else if x.None? || y.None? then false
    else
      var ex, ey := ElementsAt(h, x), ElementsAt(h, y);
      |ex| == |ey| && ElementsEqual(h, ex, ey, |ex|, bound, rank)
  }

  /** The first k elements are pairwise equal. */
  function ElementsEqual(h: Heap, ex: seq<Option<Ref>>, ey: seq<Option<Ref>>, k: nat, bound: nat, rank: map<Ref, nat>): bool
    requires k <= |ex| && k <= |ey|
    decreases bound, 1, k
  {
    k == 0 || (ElementsEqual(h, ex, ey, k - 1, bound, rank) && ElementEqual(h, ex[k - 1], ey[k - 1], bound, rank))
  }

  /** Objects.equals on two elements. */
  function ElementEqual(h: Heap, e: Option<Ref>, f: Option<Ref>, bound: nat, rank: map<Ref, nat>): bool
    decreases bound, 0, 0
  {
    if e.None? then f.None?
    else e.value in h.objects && RankOf(rank, e.value) < bound && Equals(h, e.value, f, rank)
  }

  /** One step of the hash loops: `31 * acc + x` in int arithmetic. */
  function HashStep(acc: int, x: int): int
  {
    Int32(31 * acc + x)
  }

  /** `(int) (v ^ (v >>> 32))` for a long v. */
  function LongHash(v: int): int
  {
    var u := (v % TWO_64) as bv64;
    var x := u ^ (u >> 32);
    Int32((x & 0xFFFF_FFFF) as int)
  }

  /**
   * hashCode over the same fields equals compares: buffer (its own hash,
   * `bufferHash`), offset, native pointer and the pointer array
   * (Arrays.hashCode).
   */
  function HashCode(h: Heap, a: Ref, rank: map<Ref, nat>, bufferHash: Buffer -> int): int
    requires a in h.objects
    decreases RankOf(rank, a), 3, 0
  {
    var p := h.objects[a];
    var r1 := HashStep(1, if p.buffer.None? then 0 else bufferHash(p.buffer.value));
    var r2 := HashStep(r1, LongHash(p.byteOffset));
    var r3 := HashStep(r2, LongHash(p.nativePointer));
    HashStep(r3, ArrayHash(h, p.pointers, RankOf(rank, a), rank, bufferHash))
  }

  /** Arrays.hashCode of a pointer array: 0 for null. */
  function ArrayHash(h: Heap, x: Option<Ref>, bound: nat, rank: map<Ref, nat>, bufferHash: Buffer -> int): int
    decreases bound, 2, 0
  {
    if x.None? then 0 else ElementsHash(h, ElementsAt(h, x), |ElementsAt(h, x)|, bound, rank, bufferHash)
  }

  function ElementsHash(h: Heap, els: seq<Option<Ref>>, k: nat, bound: nat, rank: map<Ref, nat>, bufferHash: Buffer -> int): int
    requires k <= |els|
    decreases bound, 1, k
  {
    if k == 0 then 1
    else HashStep(ElementsHash(h, els, k - 1, bound, rank, bufferHash), ElementHash(h, els[k - 1], bound, rank, bufferHash))
  }

  /** The hash of an element, 0 for null. */
  function ElementHash(h: Heap, e: Option<Ref>, bound: nat, rank: map<Ref, nat>, bufferHash: Buffer -> int): int
    decreases bound, 0, 0
  {
    if e.Some? && e.value in h.objects && RankOf(rank, e.value) < bound then HashCode(h, e.value, rank, bufferHash) else 0
  }

  /** The hash of elements ranked below two bounds does not depend on the bound. */
  lemma {:induction false} ElementsHashBound(h: Heap, els: seq<Option<Ref>>, k: nat, b1: nat, b2: nat,
                                             rank: map<Ref, nat>, bufferHash: Buffer -> int)
    requires k <= |els| && RankedBelow(els, rank, b1) && RankedBelow(els, rank, b2)
    ensures ElementsHash(h, els, k, b1, rank, bufferHash) == ElementsHash(h, els, k, b2, rank, bufferHash)
  {
    if k > 0 {
      ElementsHashBound(h, els, k - 1, b1, b2, rank, bufferHash);
    }
  }

  /**
   * equals and hashCode agree: on a heap without pointer cycles, equal
   * objects have equal hash codes, whatever hash the buffers have.
   */
  lemma {:induction false} EqualsHashCode(h: Heap, a: Ref, b: Ref, rank: map<Ref, nat>, bufferHash: Buffer -> int)
    requires Ranked(h, rank) && a in h.objects && Equals(h, a, Some(b), rank)
    ensures HashCode(h, a, rank, bufferHash) == HashCode(h, b, rank, bufferHash)
    decreases RankOf(rank, a), 1, 0
  {
    if b != a {
      var p, q := h.objects[a], h.objects[b];
      assert RankedBelow(ElementsOf(h, a), rank, rank[a]) && RankedBelow(ElementsOf(h, b), rank, rank[b]);
      if p.pointers == q.pointers {
        if p.pointers.Some? {
          var els := ElementsAt(h, p.pointers);
          ElementsHashBound(h, els, |els|, RankOf(rank, a), RankOf(rank, b), rank, bufferHash);
        }
      } else {
        var ex, ey := ElementsAt(h, p.pointers), ElementsAt(h, q.pointers);
        ElementsHashEqual(h, ex, ey, |ex|, RankOf(rank, a), RankOf(rank, b), rank, bufferHash);
      }
    }
  }

  lemma {:induction false} ElementsHashEqual(h: Heap, ex: seq<Option<Ref>>, ey: seq<Option<Ref>>, k: nat, ba: nat, bb: nat,
                                             rank: map<Ref, nat>, bufferHash: Buffer -> int)
    requires Ranked(h, rank) && k <= |ex| && k <= |ey|
    requires RankedBelow(ex, rank, ba) && RankedBelow(ey, rank, bb)
    requires ElementsEqual(h, ex, ey, k, ba, rank)
    ensures ElementsHash(h, ex, k, ba, rank, bufferHash) == ElementsHash(h, ey, k, bb, rank, bufferHash)
    decreases ba, 0, k
  {
    if k > 0 {
      ElementsHashEqual(h, ex, ey, k - 1, ba, bb, rank, bufferHash);
      var e, f := ex[k - 1], ey[k - 1];
      if e.Some? {
        EqualsHashCode(h, e.value, f.value, rank, bufferHash);
      }
    }
  }

  /**
   * The copy constructor keeps equality exactly when the native pointer it
   * does not copy was 0: a copy of an object of the same class equals the
   * original if and only if the original's nativePointer is 0.
   */
  lemma CopyEqualsOriginal(h: Heap, o: Ref, rank: map<Ref, nat>)
    requires o in h.objects && h.nextRef !in h.objects
    ensures var (r, g) := Allocate(h, CopyOf(h.objects[o].cls, h.objects[o]));
            Equals(g, r, Some(o), rank) <==> h.objects[o].nativePointer == 0
  {
  }
}
