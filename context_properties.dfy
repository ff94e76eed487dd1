/**
 * cl_context_properties.java: a NativePointerObject whose buffer wraps a
 * long array of (id, value) pairs terminated by 0. Each addProperty builds a
 * longer array and swaps it in with setBuffer.
 */
module ContextProperties {
  import opened Wrappers
  import opened JNIUtils
  import opened NativePointerObjects
  import opened CLJNIUtils

  const CL_CONTEXT_PROPERTIES: ClassName := "org.jocl.cl_context_properties"

  /** The long array behind the buffer of `o`, when it wraps one. */
  function PropertiesOf(h: Heap, o: Ref): Option<seq<int>>
  {
    if o in h.objects && h.objects[o].buffer.Some? && h.objects[o].buffer.value.ArrayBacked? &&
       h.objects[o].buffer.value.backing in h.arrays
    then Some(h.arrays[h.objects[o].buffer.value.backing])
    else None
  }

  /** The constructor: a buffer wrapping the one-element array {0}. */
  method NewContextProperties(env: Env) returns (r: Ref)
    requires HeapOk(env.heap)
    modifies env
    ensures r == old(env.heap.nextRef) + 1 && r !in old(env.heap.objects)
    ensures env.Snapshot() ==
            old(env.Snapshot()).(heap := Allocate(NewArray(old(env.heap), [0]),
                                                  BufferObject(CL_CONTEXT_PROPERTIES, Some(ArrayBacked(old(env.heap.nextRef))))).1)
    ensures PropertiesOf(env.heap, r) == Some([0])
  {
    var arr := env.NewLongArray([0]);
    r := NewBufferObject(env, CL_CONTEXT_PROPERTIES, Some(ArrayBacked(arr)));
  }

  /**
   * The list after adding (id, value): the old entries up to the
   * terminator, then id where the terminator was, then value, then a new
   * terminator.
   */
  function AddedProperty(c: seq<int>, id: int, value: int): (r: seq<int>)
    requires |c| >= 1
    ensures |r| == |c| + 2
    ensures r[..|c| - 1] == c[..|c| - 1]
    ensures r[|c| - 1] == id && r[|c|] == value && r[|c| + 1] == 0
  {
    c[..|c| - 1] + [id, value, 0]
  }

  /**
   * The array addProperty builds: capacity + 2 longs, the old contents copied
   * in, then id, value and 0 stored from the old terminator's index on.
   */
  method GrowProperties(oldArray: seq<int>, id: int, value: int) returns (contents: seq<int>)
    requires |oldArray| >= 1
    ensures contents == AddedProperty(oldArray, id, value)
  {
    var capacity := |oldArray|;
    var newArray := new int[capacity + 2];
    var i := 0;
    while i < capacity + 2
      invariant 0 <= i <= capacity + 2
      invariant forall j | 0 <= j < i :: newArray[j] == 0
    {
      newArray[i] := 0;
      i := i + 1;
    }
    i := 0;
    while i < capacity
      invariant 0 <= i <= capacity
      invariant newArray[..i] == oldArray[..i]
      invariant forall j | i <= j < capacity + 2 :: newArray[j] == 0
    {
      newArray[i] := oldArray[i];
      i := i + 1;
    }
    newArray[capacity - 1] := id;
    newArray[capacity] := value;
    newArray[capacity + 1] := 0;
    assert newArray[..capacity - 1] == oldArray[..capacity - 1];
    contents := newArray[..];
  }

  /**
   * addProperty: the grown array swapped in with setBuffer, which clears
   * pointers and resets the offset to 0.
   */
  method AddProperty(env: Env, o: Ref, id: int, value: int)
    requires PropertiesOf(env.heap, o).Some? && |PropertiesOf(env.heap, o).value| >= 1
    modifies env
    ensures var c := PropertiesOf(old(env.heap), o).value;
            env.Snapshot() ==
            old(env.Snapshot()).(heap := WithBuffer(NewArray(old(env.heap), AddedProperty(c, id, value)), o,
                                                    Some(ArrayBacked(old(env.heap.nextRef)))))
    ensures PropertiesOf(env.heap, o) == Some(AddedProperty(PropertiesOf(old(env.heap), o).value, id, value))
  {
    var contents := GrowProperties(PropertiesOf(env.heap, o).value, id, value);
    var arr := env.NewLongArray(contents);
    SetBuffer(env, o, Some(ArrayBacked(arr)));
  }

  /**
   * addProperty(long, cl_platform_id): a null platform throws
   * NullPointerException and changes nothing; otherwise the platform's handle
   * is the value of an addProperty, swapped in through setBuffer.
   */
  method AddPlatformProperty(env: Env, o: Ref, id: int, platform: Option<Ref>) returns (thrown: Option<JavaException>)
    requires PropertiesOf(env.heap, o).Some? && |PropertiesOf(env.heap, o).value| >= 1
    modifies env
    ensures platform.None? <==> thrown == Some(NullPointerException)
    ensures platform.None? ==> env.Snapshot() == old(env.Snapshot())
    ensures platform.Some? ==>
              var c := AddedProperty(PropertiesOf(old(env.heap), o).value, id, NativePointerOf(old(env.heap), platform.value));
              thrown.None? &&
              env.Snapshot() ==
              old(env.Snapshot()).(heap := WithBuffer(NewArray(old(env.heap), c), o, Some(ArrayBacked(old(env.heap.nextRef))))) &&
              PropertiesOf(env.heap, o) == Some(c)
  {
    if platform.None? {
      return Some(NullPointerException);
    }
    AddProperty(env, o, id, NativePointerOf(env.heap, platform.value));
    thrown := None;
  }

  // ---------------------------------------------------------------------
  // The list after a series of additions
  // ---------------------------------------------------------------------

  /** The pairs side by side: id0, value0, id1, value1, … */
  function Flatten(ps: seq<(int, int)>): (r: seq<int>)
  {
    if ps == [] then []
    else Flatten(ps[..|ps| - 1]) + [ps[|ps| - 1].0, ps[|ps| - 1].1]
  }

  /** The list after adding the pairs `ps` in order. */
  function AddAll(c: seq<int>, ps: seq<(int, int)>): (r: seq<int>)
    requires |c| >= 1
    ensures |r| == |c| + 2 * |ps|
  {
    if ps == [] then c
    else AddedProperty(AddAll(c, ps[..|ps| - 1]), ps[|ps| - 1].0, ps[|ps| - 1].1)
  }

  /**
   * After k additions to a new object the list is the k pairs in insertion
   * order followed by a single 0: 2k + 1 entries.
   */
  lemma {:induction false} AddAllFromNew(ps: seq<(int, int)>)
    ensures AddAll([0], ps) == Flatten(ps) + [0]
  {
    if ps != [] {
      var init := ps[..|ps| - 1];
      AddAllFromNew(init);
      var prev := AddAll([0], init);
      assert prev[..|prev| - 1] == Flatten(init);
    }
  }

  /** Pair i sits at entries 2i and 2i + 1. */
  lemma {:induction false} FlattenAt(ps: seq<(int, int)>)
    ensures |Flatten(ps)| == 2 * |ps|
    ensures forall i | 0 <= i < |ps| :: Flatten(ps)[2 * i] == ps[i].0 && Flatten(ps)[2 * i + 1] == ps[i].1
  {
    if ps != [] {
      var init := ps[..|ps| - 1];
      FlattenAt(init);
      forall i | 0 <= i < |ps|
        ensures Flatten(ps)[2 * i] == ps[i].0 && Flatten(ps)[2 * i + 1] == ps[i].1
      {
        if i < |ps| - 1 {
          assert ps[i] == init[i];
        }
      }
    }
  }

  /**
   * What the native side makes of the list: when no id or value is 0 and
   * the pairs fit in the scan of MAX_PROPERTIES entries, the copy that
   * createContextPropertiesArray makes is exactly the pairs followed by the
   * terminator.
   */
  lemma NativeCopyOfAdded(ps: seq<(int, int)>)
    requires 2 * |ps| <= MAX_PROPERTIES
    requires forall i | 0 <= i < |ps| :: ps[i].0 != 0 && ps[i].1 != 0
    ensures TerminatedCopy(AddAll([0], ps), Flatten(ps) + [0])
  {
    AddAllFromNew(ps);
    FlattenNonZero(ps);
    NonZeroTerminated(Flatten(ps));
  }

  /** A list of non-zero entries that fits in the scan, with a 0 added, is its own terminated copy. */
  lemma NonZeroTerminated(f: seq<int>)
    requires |f| <= MAX_PROPERTIES
    requires forall i | 0 <= i < |f| :: f[i] != 0
    ensures TerminatedCopy(f + [0], f + [0])
  {
    var out := f + [0];
    forall i | 0 <= i < |f|
      ensures out[i] == At(out, i) && out[i] != 0
    {
      assert out[i] == f[i];
    }
  }

  lemma {:induction false} FlattenNonZero(ps: seq<(int, int)>)
    requires forall i | 0 <= i < |ps| :: ps[i].0 != 0 && ps[i].1 != 0
    ensures |Flatten(ps)| == 2 * |ps|
    ensures forall i | 0 <= i < |Flatten(ps)| :: Flatten(ps)[i] != 0
  {
    if ps != [] {
      FlattenNonZero(ps[..|ps| - 1]);
    }
  }
}
