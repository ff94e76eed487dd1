/**
 * PointerUtils.cpp: turning a Java pointer object into a native address
 * (initPointerData) and undoing it after the OpenCL call (releasePointerData).
 *
 * `Resolve` and `Release` specify the two operations on `State`; the methods
 * `InitPointerData` and `ReleasePointerData` perform them step by step on an
 * `Env` and are proved to end in exactly the state the specifications give.
 */
module PointerUtils {
  import opened Wrappers
  import opened JNIUtils

  /** How the native address of a PointerData was obtained, and so how to release it. */
  datatype MemoryType = NATIVE | POINTERS | DIRECT | ARRAY | ARRAY_COPY

  /**
   * The native view of one pointer object: the global references it holds,
   * the address of its memory (`startPointer`), that address plus the byte
   * offset (`pointer`), and for a pointer to pointers the view of each element
   * (None for a null element).
   */
  datatype PointerData = PointerData(
    pointerObject: Option<Ref>,
    backing: Option<Ref>,
    startPointer: Address,
    pointer: Address,
    memoryType: MemoryType,
    pointers: seq<Option<PointerData>>)

  /** What initPointerData yields for a null pointer object. */
  const NullPointerData := PointerData(None, None, 0, 0, NATIVE, [])

  // ---------------------------------------------------------------------
  // Global references held by a PointerData
  // ---------------------------------------------------------------------

  /** The global references a PointerData and its elements hold. */
  ghost function Held(pd: PointerData): multiset<Ref>
    decreases pd, 1, 0
  {
    Opt(pd.pointerObject) + Opt(pd.backing) + HeldIn(pd, |pd.pointers|)
  }

  /** The global references held by the first k elements of a pointer to pointers. */
  ghost function HeldIn(pd: PointerData, k: nat): multiset<Ref>
    requires k <= |pd.pointers|
    decreases pd, 0, k
  {
    if k == 0 then multiset{}
    else HeldIn(pd, k - 1) + (if pd.pointers[k - 1].Some? then Held(pd.pointers[k - 1].value) else multiset{})
  }

  lemma {:induction false} HeldInPrefix(p: PointerData, q: PointerData, k: nat)
    requires k <= |p.pointers| && k <= |q.pointers|
    requires forall j | 0 <= j < k :: p.pointers[j] == q.pointers[j]
    ensures HeldIn(p, k) == HeldIn(q, k)
  {
    if k > 0 {
      HeldInPrefix(p, q, k - 1);
      assert p.pointers[k - 1] == q.pointers[k - 1];
    }
  }

  /** A node with the given elements and nothing else, for stating facts about element lists. */
  function Node(children: seq<Option<PointerData>>): PointerData
  {
    PointerData(None, None, 0, 0, POINTERS, children)
  }

  // ---------------------------------------------------------------------
  // Well-founded pointer graphs
  // ---------------------------------------------------------------------

  /** The pointer array of the object `obj`, if it has one. */
  function PointersArrayOf(h: Heap, obj: Option<Ref>): Option<Ref>
  {
    if obj.Some? && obj.value in h.objects then h.objects[obj.value].pointers else None
  }

  /** The elements of an object array, none for a reference to no array. */
  function ElementsAt(h: Heap, arr: Option<Ref>): seq<Option<Ref>>
  {
    if arr.Some? && arr.value in h.objectArrays then h.objectArrays[arr.value].elements else []
  }

  /** The elements of the pointer array of `o`, or none when it has no pointer array. */
  function ElementsOf(h: Heap, o: Ref): seq<Option<Ref>>
  {
    ElementsAt(h, PointersArrayOf(h, Some(o)))
  }

  ghost predicate RankedBelow(els: seq<Option<Ref>>, rank: map<Ref, nat>, bound: nat)
  {
    forall i | 0 <= i < |els| :: els[i].Some? ==> els[i].value in rank && rank[els[i].value] < bound
  }

  /**
   * `rank` witnesses that no pointer object reaches itself through pointer
   * arrays. initPointerData recurses into the elements without a depth bound,
   * so on a cyclic graph it does not terminate.
   */
  ghost predicate Ranked(h: Heap, rank: map<Ref, nat>)
  {
    forall o | o in h.objects :: o in rank && RankedBelow(ElementsOf(h, o), rank, rank[o])
  }

  /** Every non-null element is a live pointer object. */
  ghost predicate Live(els: seq<Option<Ref>>, h: Heap)
  {
    forall i | 0 <= i < |els| :: els[i].Some? ==> els[i].value in h.objects
  }

  /** The heaps on which initPointerData terminates without touching a dangling reference. */
  ghost predicate Resolvable(h: Heap, rank: map<Ref, nat>)
  {
    HeapOk(h) && Ranked(h, rank)
  }

  lemma ElementsLive(h: Heap, o: Ref, rank: map<Ref, nat>)
    requires Resolvable(h, rank) && o in h.objects
    ensures Live(ElementsOf(h, o), h) && o in rank && RankedBelow(ElementsOf(h, o), rank, rank[o])
  {
  }

  // ---------------------------------------------------------------------
  // initPointerData
  // ---------------------------------------------------------------------

  /** The references held by an element view, none for a null element. */
  ghost function HeldOpt(x: Option<PointerData>): multiset<Ref>
  {
    if x.Some? then Held(x.value) else multiset{}
  }

  lemma HeldInSnoc(cs: seq<Option<PointerData>>, x: Option<PointerData>)
    ensures HeldIn(Node(cs + [x]), |cs| + 1) == HeldIn(Node(cs), |cs|) + HeldOpt(x)
  {
    HeldInPrefix(Node(cs + [x]), Node(cs), |cs|);
  }

  /** The word initPointerData stores in the slot of an element: its start address, 0 for null. */
  function StartOf(x: Option<PointerData>): Address
  {
    if x.Some? then x.value.startPointer else 0
  }

  /**
   * initPointerData as a function of the state: the PointerData (None on
   * failure) and the state afterwards. A null object resolves to address 0
   * and takes nothing. Otherwise a global reference to the object is taken,
   * and the first of these that applies decides the kind: a non-zero
   * nativePointer (NATIVE), a pointer array (POINTERS), a buffer
   * (`ResolveBuffer`), and finally a NATIVE pointer at address 0. Failures
   * keep what was taken so far. The heap is only read.
   *
   * `rank` bounds the recursion (see `Ranked`); an element the ranking does
   * not place below its pointer array is not resolved. On a ranked heap,
   * which is all the methods below accept, that never happens.
   */
  ghost function Resolve(s: State, obj: Option<Ref>, rank: map<Ref, nat>): (res: (Option<PointerData>, State))
    requires obj.Some? ==> obj.value in s.heap.objects
    ensures res.1.heap == s.heap && res.1.pinCopies == s.pinCopies
    decreases if obj.Some? && obj.value in rank then rank[obj.value] else 0, 3, 0
  {
    if obj.None? then (Some(NullPointerData), s)
    else
      var o := obj.value;
      var s1 := AddRef(s, o);
      var p := s.heap.objects[o];
      if p.nativePointer != 0 then
        (Some(PointerData(Some(o), None, p.nativePointer, p.nativePointer + p.byteOffset, NATIVE, [])), s1)
      else if p.pointers.Some? then ResolvePointers(s1, o, rank)
      else if p.buffer.Some? then ResolveBuffer(s1, o)
      else (Some(PointerData(Some(o), None, 0, p.byteOffset, NATIVE, [])), s1)
  }

  /**
   * The buffer branch of initPointerData, after the reference to `o` is
   * taken: a direct buffer gives its address (IllegalArgumentException when
   * it is 0); an array-backed buffer takes a reference to the array and pins
   * it (ARRAY_COPY when the JVM copies, ARRAY otherwise); any other buffer
   * raises IllegalArgumentException. With an exception pending, the check
   * after isDirect gives NULL at once, keeping the reference taken.
   */
  ghost function ResolveBuffer(s1: State, o: Ref): (res: (Option<PointerData>, State))
    requires o in s1.heap.objects && s1.heap.objects[o].buffer.Some?
    ensures res.1.heap == s1.heap && res.1.pinCopies == s1.pinCopies
  {
    var p := s1.heap.objects[o];
    if s1.pending.Some? then (None, s1)
    else match p.buffer.value
    case Direct(address) =>
      if address == 0 then (None, Throw(s1, IllegalArgumentException))
      else (Some(PointerData(Some(o), None, address, address + p.byteOffset, DIRECT, [])), s1)
    case ArrayBacked(a) =>
      var addr := s1.memory.next;
      var kind := if s1.pinCopies then ARRAY_COPY else ARRAY;
      (Some(PointerData(Some(o), Some(a), addr, addr + p.byteOffset, kind, [])), Pin(AddRef(s1, a), a))
    case Neither => (None, Throw(s1, IllegalArgumentException))
  }

  /** The state right after the slot block of the pointer array of `o` is allocated. */
  function SlotsState(s1: State, o: Ref): State
  {
    s1.(memory := NewBlock(s1.memory, Zeros(|ElementsOf(s1.heap, o)|)))
  }

  /**
   * The pointer-array branch of initPointerData, after the reference to `o`
   * is taken: allocates one slot per element, resolves the elements in order
   * and gives a POINTERS view whose address is that of the slots.
   */
  ghost function ResolvePointers(s1: State, o: Ref, rank: map<Ref, nat>): (res: (Option<PointerData>, State))
    requires o in s1.heap.objects
    ensures res.1.heap == s1.heap && res.1.pinCopies == s1.pinCopies
    decreases RankOf(rank, o), 2, 0
  {
    var els := ElementsOf(s1.heap, o);
    var addr := s1.memory.next;
    var r := ResolveElements(SlotsState(s1, o), els, addr, |els|, RankOf(rank, o), rank);
    if r.0.None? then (None, r.1)
    else (Some(PointerData(Some(o), None, addr, addr + s1.heap.objects[o].byteOffset, POINTERS, r.0.value)), r.1)
  }

  function RankOf(rank: map<Ref, nat>, o: Ref): nat
  {
    if o in rank then rank[o] else 0
  }

  /** An element the ranking places below `bound`, that is, one the recursion may enter. */
  ghost predicate Below(h: Heap, e: Option<Ref>, rank: map<Ref, nat>, bound: nat)
  {
    e.Some? && e.value in h.objects && e.value in rank && rank[e.value] < bound
  }

  /**
   * The loop of initPointerData over a pointer array: resolves the first k
   * elements of `els` and stores each start address (0 for a null element)
   * in the slot block at `addr`. Stops at the first element that fails.
   */
  ghost function ResolveElements(s: State, els: seq<Option<Ref>>, addr: Address, k: nat, bound: nat, rank: map<Ref, nat>)
    : (res: (Option<seq<Option<PointerData>>>, State))
    requires k <= |els|
    ensures res.1.heap == s.heap && res.1.pinCopies == s.pinCopies
    ensures res.0.Some? ==> |res.0.value| == k
    decreases bound, 1, k
  {
    if k == 0 then (Some([]), s)
    else
      var prev := ResolveElements(s, els, addr, k - 1, bound, rank);
      if prev.0.None? then prev
      else
        var step := ResolveSlot(prev.1, els, addr, k - 1, bound, rank);
        if step.0.None? then (None, step.1)
        else (Some(prev.0.value + [step.0.value]), step.1)
  }

  /**
   * One pass of that loop: resolves element i (a null element resolves to
   * nothing) and stores its start address, or 0, in slot i. With an
   * exception pending, the check after GetObjectArrayElement fails the pass
   * at once. An element the ranking does not place below `bound` fails
   * without effect.
   */
  ghost function ResolveSlot(s: State, els: seq<Option<Ref>>, addr: Address, i: nat, bound: nat, rank: map<Ref, nat>)
    : (res: (Option<Option<PointerData>>, State))
    requires i < |els|
    ensures res.1.heap == s.heap && res.1.pinCopies == s.pinCopies
    decreases bound, 0, i
  {
    if s.pending.Some? then (None, s)
    else if els[i].None? then
      (Some(None), s.(memory := Store(s.memory, addr, i, 0)))
    else if !Below(s.heap, els[i], rank, bound) then (None, s)
    else
      var child := Resolve(s, els[i], rank);
      if child.0.None? then (None, child.1)
      else (Some(child.0), child.1.(memory := Store(child.1.memory, addr, i, child.0.value.startPointer)))
  }

  lemma {:induction false} ResolveElementsStops(s: State, els: seq<Option<Ref>>, addr: Address, j: nat, k: nat, bound: nat, rank: map<Ref, nat>)
    requires j <= k <= |els|
    requires ResolveElements(s, els, addr, j, bound, rank).0.None?
    ensures ResolveElements(s, els, addr, k, bound, rank) == ResolveElements(s, els, addr, j, bound, rank)
    decreases k
  {
    if j < k {
      ResolveElementsStops(s, els, addr, j, k - 1, bound, rank);
    }
  }

  // ---------------------------------------------------------------------
  // What initPointerData does to references and native memory
  // ---------------------------------------------------------------------

  /** From `s` to `t` the references `h` were taken and no exception was raised. */
  ghost predicate Took(s: State, t: State, h: multiset<Ref>)
  {
    t.globalRefs == s.globalRefs + h && t.pending == s.pending
  }

  /**
   * Resolution takes exactly the global references the PointerData holds,
   * and raises no exception when it succeeds.
   */
  lemma {:induction false} ResolveRefs(s: State, obj: Option<Ref>, rank: map<Ref, nat>)
    requires obj.Some? ==> obj.value in s.heap.objects
    ensures var res := Resolve(s, obj, rank);
            res.0.Some? ==> Took(s, res.1, Held(res.0.value))
    decreases if obj.Some? && obj.value in rank then rank[obj.value] else 0, 3, 0
  {
    if obj.None? {
      assert Held(NullPointerData) == multiset{};
    } else {
      var o := obj.value;
      var p := s.heap.objects[o];
      if p.nativePointer != 0 || (p.pointers.None? && p.buffer.None?) {
        var pd := Resolve(s, obj, rank).0.value;
        assert Held(pd) == multiset{o};
      } else if p.pointers.Some? {
        ResolvePointersRefs(s, o, rank);
      } else {
        ResolveBufferRefs(s, o);
      }
    }
  }

  lemma ResolveBufferRefs(s: State, o: Ref)
    requires o in s.heap.objects && s.heap.objects[o].buffer.Some?
    ensures var res := ResolveBuffer(AddRef(s, o), o);
            res.0.Some? ==> Took(s, res.1, Held(res.0.value))
  {
    var s1 := AddRef(s, o);
    var res := ResolveBuffer(s1, o);
    if res.0.Some? {
      var pd := res.0.value;
      assert HeldIn(pd, 0) == multiset{};
      assert pd.pointerObject == Some(o);
      if pd.backing.Some? {
        var a := pd.backing.value;
        assert res.1.globalRefs == s1.globalRefs + multiset{a};
        assert Held(pd) == multiset{o} + multiset{a};
      } else {
        assert res.1 == s1;
        assert Held(pd) == multiset{o};
      }
    }
  }

  lemma {:induction false} ResolvePointersRefs(s: State, o: Ref, rank: map<Ref, nat>)
    requires o in s.heap.objects
    ensures var res := ResolvePointers(AddRef(s, o), o, rank);
            res.0.Some? ==> Took(s, res.1, Held(res.0.value))
    decreases RankOf(rank, o), 2, 0
  {
    var s1 := AddRef(s, o);
    var els := ElementsOf(s1.heap, o);
    var addr := s1.memory.next;
    var s2 := SlotsState(s1, o);
    assert s2.globalRefs == s.globalRefs + multiset{o} && s2.pending == s.pending;
    ResolveElementsRefs(s2, els, addr, |els|, RankOf(rank, o), rank);
    var r := ResolveElements(s2, els, addr, |els|, RankOf(rank, o), rank);
    if r.0.Some? {
      var pd := PointerData(Some(o), None, addr, addr + s1.heap.objects[o].byteOffset, POINTERS, r.0.value);
      assert ResolvePointers(s1, o, rank) == (Some(pd), r.1);
      PointersTook(s, s2, r.1, o, addr, pd.pointer, r.0.value);
    }
  }

  /** The POINTERS view takes its object's reference and then those its elements took. */
  lemma PointersTook(s: State, s2: State, t: State, o: Ref, start: Address, ptr: Address, cs: seq<Option<PointerData>>)
    requires s2.globalRefs == s.globalRefs + multiset{o} && s2.pending == s.pending
    requires Took(s2, t, HeldIn(Node(cs), |cs|))
    ensures Took(s, t, Held(PointerData(Some(o), None, start, ptr, POINTERS, cs)))
  {
    HeldPointers(o, start, ptr, cs);
    TookCons(s, s2, t, o, HeldIn(Node(cs), |cs|));
  }

  /** The references a POINTERS view holds: its object's and its elements'. */
  lemma HeldPointers(o: Ref, start: Address, ptr: Address, cs: seq<Option<PointerData>>)
    ensures Held(PointerData(Some(o), None, start, ptr, POINTERS, cs)) == multiset{o} + HeldIn(Node(cs), |cs|)
  {
    HeldInPrefix(PointerData(Some(o), None, start, ptr, POINTERS, cs), Node(cs), |cs|);
  }

  lemma TookCons(s: State, s2: State, t: State, o: Ref, h: multiset<Ref>)
    requires s2.globalRefs == s.globalRefs + multiset{o} && s2.pending == s.pending && Took(s2, t, h)
    ensures Took(s, t, multiset{o} + h)
  {
  }

  lemma {:induction false} ResolveElementsRefs(s: State, els: seq<Option<Ref>>, addr: Address, k: nat, bound: nat, rank: map<Ref, nat>)
    requires k <= |els|
    ensures var res := ResolveElements(s, els, addr, k, bound, rank);
            res.0.Some? ==> Took(s, res.1, HeldIn(Node(res.0.value), k))
    decreases bound, 1, k
  {
    if k > 0 {
      ResolveElementsRefs(s, els, addr, k - 1, bound, rank);
      var prev := ResolveElements(s, els, addr, k - 1, bound, rank);
      if prev.0.Some? {
        RefsStep(s, prev.1, prev.0.value, els, addr, bound, rank);
      }
    }
  }

  lemma RefsStep(s: State, t: State, cs: seq<Option<PointerData>>, els: seq<Option<Ref>>, addr: Address, bound: nat, rank: map<Ref, nat>)
    requires |cs| < |els| && Took(s, t, HeldIn(Node(cs), |cs|))
    ensures var step := ResolveSlot(t, els, addr, |cs|, bound, rank);
            step.0.Some? ==> Took(s, step.1, HeldIn(Node(cs + [step.0.value]), |cs| + 1))
    decreases bound, 1, |cs|
  {
    ResolveSlotRefs(t, els, addr, |cs|, bound, rank);
    var step := ResolveSlot(t, els, addr, |cs|, bound, rank);
    if step.0.Some? {
      TookSnoc(s, t, step.1, cs, step.0.value);
    }
  }

  lemma TookSnoc(r0: State, r1: State, r2: State, cs: seq<Option<PointerData>>, x: Option<PointerData>)
    requires Took(r0, r1, HeldIn(Node(cs), |cs|)) && Took(r1, r2, HeldOpt(x))
    ensures Took(r0, r2, HeldIn(Node(cs + [x]), |cs| + 1))
  {
    HeldInSnoc(cs, x);
  }

  lemma {:induction false} ResolveSlotRefs(s: State, els: seq<Option<Ref>>, addr: Address, i: nat, bound: nat, rank: map<Ref, nat>)
    requires i < |els|
    ensures var res := ResolveSlot(s, els, addr, i, bound, rank);
            res.0.Some? ==> Took(s, res.1, HeldOpt(res.0.value)) && (res.0.value.None? <==> els[i].None?)
    decreases bound, 0, i
  {
    if Below(s.heap, els[i], rank, bound) {
      ResolveRefs(s, els[i], rank);
    }
  }

  /**
   * Resolution leaves every native block it did not allocate as it was, and
   * keeps native blocks away from address 0.
   */
  lemma {:induction false} ResolveKeeps(s: State, obj: Option<Ref>, rank: map<Ref, nat>)
    requires MemoryOk(s.memory)
    requires obj.Some? ==> obj.value in s.heap.objects
    ensures var t := Resolve(s, obj, rank).1;
            MemoryOk(t.memory) && Keeps(s.memory, t.memory, 0)
    decreases if obj.Some? && obj.value in rank then rank[obj.value] else 0, 3, 0
  {
    if obj.Some? {
      var o := obj.value;
      var p := s.heap.objects[o];
      if p.nativePointer == 0 && p.pointers.Some? {
        ResolvePointersKeeps(AddRef(s, o), o, rank);
      }
    }
  }

  lemma {:induction false} ResolvePointersKeeps(s1: State, o: Ref, rank: map<Ref, nat>)
    requires MemoryOk(s1.memory) && o in s1.heap.objects
    ensures var t := ResolvePointers(s1, o, rank).1;
            MemoryOk(t.memory) && Keeps(s1.memory, t.memory, 0)
    decreases RankOf(rank, o), 2, 0
  {
    var els := ElementsOf(s1.heap, o);
    var addr := s1.memory.next;
    var s2 := SlotsState(s1, o);
    ResolveElementsKeeps(s2, els, addr, |els|, RankOf(rank, o), rank);
    KeepsChain(s1.memory, s2.memory, ResolveElements(s2, els, addr, |els|, RankOf(rank, o), rank).1.memory, 0, addr, 0);
  }

  /** Keeping all blocks but `e1`, then all but `e2`, keeps all but `e` when neither was a block other than `e`. */
  lemma KeepsChain(m1: Memory, m2: Memory, m3: Memory, e1: Address, e2: Address, e: Address)
    requires Keeps(m1, m2, e1) && Keeps(m2, m3, e2)
    requires (e1 == e || e1 !in m1.blocks) && (e2 == e || e2 !in m1.blocks)
    ensures Keeps(m1, m3, e)
  {
  }

  /** The slot block at `addr` is a block of |els| words. */
  ghost predicate SlotsAt(m: Memory, addr: Address, n: nat)
  {
    MemoryOk(m) && addr in m.blocks && |m.blocks[addr]| == n
  }

  lemma {:induction false} ResolveElementsKeeps(s: State, els: seq<Option<Ref>>, addr: Address, k: nat, bound: nat, rank: map<Ref, nat>)
    requires k <= |els|
    requires SlotsAt(s.memory, addr, |els|)
    ensures var t := ResolveElements(s, els, addr, k, bound, rank).1;
            SlotsAt(t.memory, addr, |els|) && Keeps(s.memory, t.memory, addr)
    decreases bound, 1, k
  {
    if k > 0 {
      ResolveElementsKeeps(s, els, addr, k - 1, bound, rank);
      var prev := ResolveElements(s, els, addr, k - 1, bound, rank);
      if prev.0.Some? {
        ResolveSlotKeeps(prev.1, els, addr, k - 1, bound, rank);
        KeepsChain(s.memory, prev.1.memory, ResolveSlot(prev.1, els, addr, k - 1, bound, rank).1.memory, addr, addr, addr);
      }
    }
  }

  lemma {:induction false} ResolveSlotKeeps(s: State, els: seq<Option<Ref>>, addr: Address, i: nat, bound: nat, rank: map<Ref, nat>)
    requires i < |els|
    requires SlotsAt(s.memory, addr, |els|)
    ensures var t := ResolveSlot(s, els, addr, i, bound, rank).1;
            SlotsAt(t.memory, addr, |els|) && Keeps(s.memory, t.memory, addr)
    decreases bound, 0, i
  {
    if Below(s.heap, els[i], rank, bound) {
      ResolveKeeps(s, els[i], rank);
      var c := Resolve(s, els[i], rank).1;
      assert SlotsAt(c.memory, addr, |els|);
      if Resolve(s, els[i], rank).0.Some? {
        KeepsChain(s.memory, c.memory, Store(c.memory, addr, i, Resolve(s, els[i], rank).0.value.startPointer), 0, addr, addr);
      }
    }
  }

  /** Slot j of the block at `addr` holds the start address of element view j (0 for none). */
  ghost predicate SlotsHold(m: Memory, addr: Address, cs: seq<Option<PointerData>>)
  {
    forall j | 0 <= j < |cs| :: WordAt(m, addr, j) == StartOf(cs[j])
  }

  /**
   * The slot block of a POINTERS view holds, slot by slot, the start address
   * of each element view (its byte offset not applied), 0 for a null element.
   */
  lemma ResolvePointersSlots(s1: State, o: Ref, rank: map<Ref, nat>)
    requires MemoryOk(s1.memory) && o in s1.heap.objects
    ensures var res := ResolvePointers(s1, o, rank);
            res.0.Some? ==>
              |res.0.value.pointers| == |ElementsOf(s1.heap, o)| &&
              SlotsHold(res.1.memory, res.0.value.startPointer, res.0.value.pointers)
  {
    var els := ElementsOf(s1.heap, o);
    var s2 := SlotsState(s1, o);
    ResolveElementsRefs(s2, els, s1.memory.next, |els|, RankOf(rank, o), rank);
    ResolveElementsSlots(s2, els, s1.memory.next, |els|, RankOf(rank, o), rank);
  }

  lemma {:induction false} ResolveElementsSlots(s: State, els: seq<Option<Ref>>, addr: Address, k: nat, bound: nat, rank: map<Ref, nat>)
    requires k <= |els| && SlotsAt(s.memory, addr, |els|)
    ensures var res := ResolveElements(s, els, addr, k, bound, rank);
            SlotsAt(res.1.memory, addr, |els|) && (res.0.Some? ==> SlotsHold(res.1.memory, addr, res.0.value))
    decreases k
  {
    if k > 0 {
      ResolveElementsSlots(s, els, addr, k - 1, bound, rank);
      var prev := ResolveElements(s, els, addr, k - 1, bound, rank);
      if prev.0.Some? {
        SlotsStep(prev.1, prev.0.value, els, addr, bound, rank);
      }
    }
  }

  lemma SlotsStep(s: State, cs: seq<Option<PointerData>>, els: seq<Option<Ref>>, addr: Address, bound: nat, rank: map<Ref, nat>)
    requires |cs| < |els| && SlotsAt(s.memory, addr, |els|) && SlotsHold(s.memory, addr, cs)
    ensures var step := ResolveSlot(s, els, addr, |cs|, bound, rank);
            SlotsAt(step.1.memory, addr, |els|) && (step.0.Some? ==> SlotsHold(step.1.memory, addr, cs + [step.0.value]))
  {
    ResolveSlotKeeps(s, els, addr, |cs|, bound, rank);
    ResolveSlotSlot(s, els, addr, |cs|, bound, rank);
    var step := ResolveSlot(s, els, addr, |cs|, bound, rank);
    if step.0.Some? {
      SlotsSnoc(s.memory, step.1.memory, addr, cs, step.0.value, |els|);
    }
  }

  lemma SlotsSnoc(m: Memory, n: Memory, addr: Address, cs: seq<Option<PointerData>>, x: Option<PointerData>, size: nat)
    requires SlotsHold(m, addr, cs) && |cs| < size
    requires WordAt(n, addr, |cs|) == StartOf(x)
    requires forall j | 0 <= j < size && j != |cs| :: WordAt(n, addr, j) == WordAt(m, addr, j)
    ensures SlotsHold(n, addr, cs + [x])
  {
    forall j | 0 <= j < |cs| + 1
      ensures WordAt(n, addr, j) == StartOf((cs + [x])[j])
    {
      if j < |cs| {
        assert (cs + [x])[j] == cs[j];
      }
    }
  }

  /** One pass of the loop sets slot i to the start address of element view i and no other slot. */
  lemma ResolveSlotSlot(s: State, els: seq<Option<Ref>>, addr: Address, i: nat, bound: nat, rank: map<Ref, nat>)
    requires i < |els| && SlotsAt(s.memory, addr, |els|)
    ensures var res := ResolveSlot(s, els, addr, i, bound, rank);
            res.0.Some? ==>
              WordAt(res.1.memory, addr, i) == StartOf(res.0.value) &&
              forall j | 0 <= j < |els| && j != i :: WordAt(res.1.memory, addr, j) == WordAt(s.memory, addr, j)
  {
    if els[i].Some? && Below(s.heap, els[i], rank, bound) {
      ResolveKeeps(s, els[i], rank);
      var c := Resolve(s, els[i], rank).1;
      assert c.memory.blocks[addr] == s.memory.blocks[addr];
    }
  }

  // ---------------------------------------------------------------------
  // initPointerData, step by step
  // ---------------------------------------------------------------------

  /**
   * initPointerData: resolves `obj`, recursing into the elements of a pointer
   * array, and ends in the state `Resolve` gives.
   */
  method InitPointerData(env: Env, obj: Option<Ref>, ghost rank: map<Ref, nat>) returns (pd: Option<PointerData>)
    requires Resolvable(env.heap, rank)
    requires obj.Some? ==> obj.value in env.heap.objects
    modifies env
    ensures (pd, env.Snapshot()) == Resolve(old(env.Snapshot()), obj, rank)
    decreases if obj.Some? && obj.value in rank then rank[obj.value] else 0, 2
  {
    if obj.None? {
      return Some(NullPointerData);
    }
    var o := obj.value;
    env.NewGlobalRef(o);
    var p := env.heap.objects[o];
    if p.nativePointer != 0 {
      return Some(PointerData(Some(o), None, p.nativePointer, p.nativePointer + p.byteOffset, NATIVE, []));
    }
    if p.pointers.Some? {
      pd := InitPointerArray(env, o, rank);
      return;
    }
    if p.buffer.Some? {
      pd := InitBuffer(env, o);
      return;
    }
    return Some(PointerData(Some(o), None, 0, p.byteOffset, NATIVE, []));
  }

  /** The buffer branch of initPointerData, as `ResolveBuffer` gives it. */
  method InitBuffer(env: Env, o: Ref) returns (pd: Option<PointerData>)
    requires o in env.heap.objects && env.heap.objects[o].buffer.Some?
    modifies env
    ensures (pd, env.Snapshot()) == ResolveBuffer(old(env.Snapshot()), o)
  {
    var p := env.heap.objects[o];
    if env.pending.Some? {
      return None;
    }
    match p.buffer.value
    case Direct(address) =>
      if address == 0 {
        env.ThrowByName(IllegalArgumentException);
        return None;
      }
      return Some(PointerData(Some(o), None, address, address + p.byteOffset, DIRECT, []));
    case ArrayBacked(a) =>
      env.NewGlobalRef(a);
      var addr, isCopy := env.GetPrimitiveArrayCritical(a);
      var kind := if isCopy then ARRAY_COPY else ARRAY;
      return Some(PointerData(Some(o), Some(a), addr, addr + p.byteOffset, kind, []));
    case Neither =>
      env.ThrowByName(IllegalArgumentException);
      return None;
  }

  /** The loop over the elements has resolved the first k of them into `cs`, reaching `t`. */
  ghost predicate ElementsResolvedTo(s: State, els: seq<Option<Ref>>, addr: Address, bound: nat, rank: map<Ref, nat>,
                                     k: nat, cs: seq<Option<PointerData>>, t: State)
  {
    Resolvable(s.heap, rank) && RankedBelow(els, rank, bound) && Live(els, s.heap) && k <= |els| &&
    ResolveElements(s, els, addr, k, bound, rank) == (Some(cs), t)
  }

  lemma ElementsStep(s: State, els: seq<Option<Ref>>, addr: Address, bound: nat, rank: map<Ref, nat>,
                     k: nat, cs: seq<Option<PointerData>>, t: State, step: Option<Option<PointerData>>, u: State)
    requires ElementsResolvedTo(s, els, addr, bound, rank, k, cs, t) && k < |els|
    requires ResolveSlot(t, els, addr, k, bound, rank) == (step, u)
    ensures step.Some? ==> ElementsResolvedTo(s, els, addr, bound, rank, k + 1, cs + [step.value], u)
    ensures step.None? ==> ResolveElements(s, els, addr, |els|, bound, rank) == (None, u)
  {
    if step.None? {
      ResolveElementsStops(s, els, addr, k + 1, |els|, bound, rank);
    }
  }

  /** The pointer-array branch of initPointerData, as `ResolvePointers` gives it. */
  method InitPointerArray(env: Env, o: Ref, ghost rank: map<Ref, nat>) returns (pd: Option<PointerData>)
    requires Resolvable(env.heap, rank) && o in env.heap.objects && env.heap.objects[o].pointers.Some?
    modifies env
    ensures (pd, env.Snapshot()) == ResolvePointers(old(env.Snapshot()), o, rank)
    decreases if o in rank then rank[o] else 0, 1
  {
    ghost var s1 := env.Snapshot();
    var p := env.heap.objects[o];
    var els := env.heap.objectArrays[p.pointers.value].elements;
    assert els == ElementsOf(s1.heap, o);
    ElementsLive(s1.heap, o, rank);
    var addr := env.AllocateWords(|els|);
    ghost var s2 := env.Snapshot();
    assert s2 == SlotsState(s1, o);
    var children: seq<Option<PointerData>> := [];
    var i := 0;
    while i < |els|
      invariant ElementsResolvedTo(s2, els, addr, RankOf(rank, o), rank, i, children, env.Snapshot())
    {
      ghost var before := env.Snapshot();
      var step := InitSlot(env, els, addr, i, RankOf(rank, o), rank);
      ElementsStep(s2, els, addr, RankOf(rank, o), rank, i, children, before, step, env.Snapshot());
      if step.None? {
        return None;
      }
      children := children + [step.value];
      i := i + 1;
    }
    return Some(PointerData(Some(o), None, addr, addr + p.byteOffset, POINTERS, children));
  }

  /** One pass of the loop of initPointerData over a pointer array, as `ResolveSlot` gives it. */
  method InitSlot(env: Env, els: seq<Option<Ref>>, addr: Address, i: nat, ghost bound: nat, ghost rank: map<Ref, nat>)
    returns (child: Option<Option<PointerData>>)
    requires Resolvable(env.heap, rank) && RankedBelow(els, rank, bound) && Live(els, env.heap) && i < |els|
    modifies env
    ensures (child, env.Snapshot()) == ResolveSlot(old(env.Snapshot()), els, addr, i, bound, rank)
    decreases bound, 0
  {
    if env.pending.Some? {
      return None;
    }
    var pd: Option<PointerData> := None;
    if els[i].Some? {
      pd := InitPointerData(env, els[i], rank);
      if pd.None? {
        return None;
      }
    }
    env.StoreWord(addr, i, StartOf(pd));
    return Some(pd);
  }

  // ---------------------------------------------------------------------
  // releasePointerData, createPointerObject and setNativePointer
  // ---------------------------------------------------------------------

  /**
   * setNativePointer: sets the nativePointer of the object to `v` and its
   * byteOffset to 0; a null object is left alone.
   */
  function PointTo(h: Heap, obj: Option<Ref>, v: Address): (g: Heap)
    ensures g.objects.Keys == h.objects.Keys
    ensures g.objectArrays == h.objectArrays && g.arrays == h.arrays && g.nextRef == h.nextRef
  {
    if obj.None? then h else SetByteOffsetField(SetNativePointerField(h, obj.value, v), obj.value, 0)
  }

  /** Element i of an object array; None past its end. */
  function ElementAt(h: Heap, arr: Option<Ref>, i: int): Option<Ref>
  {
    var els := ElementsAt(h, arr);
    if 0 <= i < |els| then els[i] else None
  }

  /** The class `newInstance` creates for elements of `arr`, None when that fails. */
  function ComponentOf(h: Heap, arr: Option<Ref>): (c: Option<ClassName>)
    ensures c.Some? ==> arr.Some?
  {
    if arr.Some? && arr.value in h.objectArrays then h.objectArrays[arr.value].componentType else None
  }

  /**
   * createPointerObject: a fresh instance of the component type of `arr`,
   * stored at index i and pointing at `v` with byte offset 0. When the
   * component type cannot be instantiated, newInstance throws and the result
   * is false. With an exception already pending, the check after getClass
   * gives false at once.
   */
  function CreateAt(s: State, arr: Option<Ref>, i: int, v: Address): (res: (bool, State))
    ensures res.1.globalRefs == s.globalRefs && res.1.memory == s.memory && res.1.pinCopies == s.pinCopies
    ensures res.0 <==> s.pending.None? && ComponentOf(s.heap, arr).Some?
    ensures !res.0 ==> res.1.heap == s.heap && res.1.pending.Some?
    ensures s.pending.Some? ==> res.1 == s
  {
    var c := ComponentOf(s.heap, arr);
    if s.pending.Some? then (false, s)
    else if c.None? then (false, Throw(s, InstantiationException))
    else
      var r := s.heap.nextRef;
      var h := StoreElement(NewInstance(s.heap, c.value), arr.value, i, Some(r));
      (true, s.(heap := PointTo(h, Some(r), v)))
  }

  /**
   * One pass of the write-back loop of releasePointerData: the word in slot
   * i goes into the nativePointer of element i (byte offset 0); a null
   * element with a non-zero word is replaced by a new pointer object. With
   * an exception pending, the check after GetObjectArrayElement fails the
   * pass at once.
   */
  function WriteSlot(s: State, arr: Option<Ref>, slots: Address, i: int): (res: (bool, State))
    ensures res.1.globalRefs == s.globalRefs && res.1.memory == s.memory && res.1.pinCopies == s.pinCopies
  {
    var e := ElementAt(s.heap, arr, i);
    var v := WordAt(s.memory, slots, i);
    if s.pending.Some? then (false, s)
    else if e.Some? then (true, s.(heap := PointTo(s.heap, e, v)))
    else if v != 0 then CreateAt(s, arr, i, v)
    else (true, s)
  }

  /** The write-back loop over the first k elements, stopping at the first failure. */
  function WriteBack(s: State, arr: Option<Ref>, slots: Address, k: nat): (res: (bool, State))
    ensures res.1.globalRefs == s.globalRefs && res.1.memory == s.memory && res.1.pinCopies == s.pinCopies
  {
    if k == 0 then (true, s)
    else
      var prev := WriteBack(s, arr, slots, k - 1);
      if !prev.0 then prev else WriteSlot(prev.1, arr, slots, k - 1)
  }

  /**
   * releasePointerData as a function of the state: whether it succeeded, and
   * the state afterwards. NATIVE and DIRECT views only give back the
   * reference to their object. ARRAY_COPY unpins with the caller's mode,
   * ARRAY always with JNI_ABORT (the array was used in place); both then give
   * back both references. POINTERS is `ReleasePointers`.
   */
  ghost function Release(s: State, pd: PointerData, mode: int): (res: (bool, State))
    decreases pd, 2, 0
  {
    match pd.memoryType
    case NATIVE => (true, DropRef(s, pd.pointerObject))
    case DIRECT => (true, DropRef(s, pd.pointerObject))
    case ARRAY_COPY => (true, ReleasePinned(s, pd, mode))
    case ARRAY => (true, ReleasePinned(s, pd, JNI_ABORT))
    case POINTERS => ReleasePointers(s, pd)
  }

  /** Unpins the array behind an ARRAY or ARRAY_COPY view, then gives back both references. */
  function ReleasePinned(s: State, pd: PointerData, mode: int): State
  {
    DropRef(DropRef(Unpin(s, pd.backing, pd.startPointer, mode), pd.pointerObject), pd.backing)
  }

  /** The end of the POINTERS branch: the slot block is freed and the object's reference given back. */
  function FreeSlots(s: State, pd: PointerData): State
  {
    DropRef(s.(memory := FreeBlock(s.memory, pd.startPointer)), pd.pointerObject)
  }

  /**
   * The POINTERS branch of releasePointerData: first the slots are written
   * back into the elements of the object's pointer array, then the views of
   * the elements are released (in the default mode), then the slot block is
   * freed and the reference to the object given back. The write-back runs
   * over the current length of the pointer array. The source bounds the loop
   * over the element views by that same length; the model bounds it by the
   * number of element views, which is that length on any view resolved from
   * the object, as a Java array never changes its length.
   */
  ghost function ReleasePointers(s: State, pd: PointerData): (res: (bool, State))
    decreases pd, 1, 0
  {
    var arr := PointersArrayOf(s.heap, pd.pointerObject);
    var n := |ElementsAt(s.heap, arr)|;
    var w := WriteBack(s, arr, pd.startPointer, n);
    if !w.0 then w
    else
      var c := ReleaseChildren(w.1, pd, |pd.pointers|);
      if !c.0 then c
      else (true, FreeSlots(c.1, pd))
  }

  /** Releases the views of the first k elements in order, stopping at the first failure. */
  ghost function ReleaseChildren(s: State, pd: PointerData, k: nat): (res: (bool, State))
    requires k <= |pd.pointers|
    decreases pd, 0, k
  {
    if k == 0 then (true, s)
    else
      var prev := ReleaseChildren(s, pd, k - 1);
      if !prev.0 || pd.pointers[k - 1].None? then prev
      else Release(prev.1, pd.pointers[k - 1].value, 0)
  }

  lemma {:induction false} WriteBackStops(s: State, arr: Option<Ref>, slots: Address, j: nat, k: nat)
    requires j <= k && !WriteBack(s, arr, slots, j).0
    ensures WriteBack(s, arr, slots, k) == WriteBack(s, arr, slots, j)
    decreases k
  {
    if j < k {
      WriteBackStops(s, arr, slots, j, k - 1);
    }
  }

  lemma {:induction false} ReleaseChildrenStops(s: State, pd: PointerData, j: nat, k: nat)
    requires j <= k <= |pd.pointers| && !ReleaseChildren(s, pd, j).0
    ensures ReleaseChildren(s, pd, k) == ReleaseChildren(s, pd, j)
    decreases k
  {
    if j < k {
      ReleaseChildrenStops(s, pd, j, k - 1);
    }
  }

  /** setNativePointer. */
  method SetNativePointer(env: Env, obj: Option<Ref>, v: Address)
    modifies env
    ensures env.Snapshot() == old(env.Snapshot()).(heap := PointTo(old(env.heap), obj, v))
  {
    if obj.None? {
      return;
    }
    env.SetNativePointerLong(obj.value, v);
    env.SetByteOffsetLong(obj.value, 0);
  }

  /** createPointerObject, as `CreateAt` gives it. */
  method CreatePointerObject(env: Env, arr: Option<Ref>, i: int, v: Address) returns (ok: bool)
    modifies env
    ensures (ok, env.Snapshot()) == CreateAt(old(env.Snapshot()), arr, i, v)
  {
    if env.pending.Some? {
      return false;
    }
    var c := ComponentOf(env.heap, arr);
    if c.None? {
      env.ThrowByName(InstantiationException);
      return false;
    }
    var r := env.NewObject(c.value);
    env.SetObjectArrayElement(arr.value, i, Some(r));
    env.SetNativePointerLong(r, v);
    env.SetByteOffsetLong(r, 0);
    return true;
  }

  /**
   * releasePointerData: ends in the state `Release` gives. The caller's
   * PointerData is consumed on success (`rest` is None) and left to the
   * caller on failure.
   */
  method ReleasePointerData(env: Env, pd: PointerData, mode: int) returns (ok: bool, rest: Option<PointerData>)
    modifies env
    ensures (ok, env.Snapshot()) == Release(old(env.Snapshot()), pd, mode)
    ensures rest == if ok then None else Some(pd)
    decreases pd, 2
  {
    match pd.memoryType {
      case NATIVE =>
        env.DeleteGlobalRef(pd.pointerObject);
        ok := true;
      case DIRECT =>
        env.DeleteGlobalRef(pd.pointerObject);
        ok := true;
      case ARRAY_COPY =>
        env.ReleasePrimitiveArrayCritical(pd.backing, pd.startPointer, mode);
        env.DeleteGlobalRef(pd.pointerObject);
        env.DeleteGlobalRef(pd.backing);
        ok := true;
      case ARRAY =>
        env.ReleasePrimitiveArrayCritical(pd.backing, pd.startPointer, JNI_ABORT);
        env.DeleteGlobalRef(pd.pointerObject);
        env.DeleteGlobalRef(pd.backing);
        ok := true;
      case POINTERS =>
        ok := ReleasePointerArray(env, pd);
    }
    rest := if ok then None else Some(pd);
  }

  /** The POINTERS branch of releasePointerData, as `ReleasePointers` gives it. */
  method ReleasePointerArray(env: Env, pd: PointerData) returns (ok: bool)
    requires pd.memoryType == POINTERS
    modifies env
    ensures (ok, env.Snapshot()) == ReleasePointers(old(env.Snapshot()), pd)
    decreases pd, 1
  {
    var arr := PointersArrayOf(env.heap, pd.pointerObject);
    var n := |ElementsAt(env.heap, arr)|;
    ok := WriteBackAll(env, arr, pd.startPointer, n);
    if !ok {
      return;
    }
    ok := ReleaseElementViews(env, pd, |pd.pointers|);
    if !ok {
      return;
    }
    env.FreeWords(pd.startPointer);
    env.DeleteGlobalRef(pd.pointerObject);
  }

  /** The write-back loop has handled the first k elements, reaching `t`. */
  ghost predicate WroteBackTo(s: State, arr: Option<Ref>, slots: Address, k: nat, t: State)
  {
    WriteBack(s, arr, slots, k) == (true, t)
  }

  /** The write-back loop of releasePointerData over the first n elements, as `WriteBack` gives it. */
  method WriteBackAll(env: Env, arr: Option<Ref>, slots: Address, n: nat) returns (ok: bool)
    modifies env
    ensures (ok, env.Snapshot()) == WriteBack(old(env.Snapshot()), arr, slots, n)
  {
    ghost var s := env.Snapshot();
    var i := 0;
    while i < n
      invariant i <= n && WroteBackTo(s, arr, slots, i, env.Snapshot())
    {
      ok := WriteBackSlot(env, arr, slots, i);
      if !ok {
        WriteBackStops(s, arr, slots, i + 1, n);
        return;
      }
      i := i + 1;
    }
    return true;
  }

  /** The children loop has released the first k element views, reaching `t`. */
  ghost predicate ReleasedTo(s: State, pd: PointerData, k: nat, t: State)
  {
    k <= |pd.pointers| && ReleaseChildren(s, pd, k) == (true, t)
  }

  /** The loop of releasePointerData over the first m element views, as `ReleaseChildren` gives it. */
  method ReleaseElementViews(env: Env, pd: PointerData, m: nat) returns (ok: bool)
    requires m <= |pd.pointers|
    modifies env
    ensures (ok, env.Snapshot()) == ReleaseChildren(old(env.Snapshot()), pd, m)
    decreases pd, 0
  {
    ghost var s := env.Snapshot();
    var i := 0;
    while i < m
      invariant i <= m && ReleasedTo(s, pd, i, env.Snapshot())
    {
      if pd.pointers[i].Some? {
        var rest;
        ok, rest := ReleasePointerData(env, pd.pointers[i].value, 0);
        if !ok {
          ReleaseChildrenStops(s, pd, i + 1, m);
          return;
        }
      }
      i := i + 1;
    }
    return true;
  }

  /** One pass of the write-back loop, as `WriteSlot` gives it. */
  method WriteBackSlot(env: Env, arr: Option<Ref>, slots: Address, i: int) returns (ok: bool)
    modifies env
    ensures (ok, env.Snapshot()) == WriteSlot(old(env.Snapshot()), arr, slots, i)
  {
    var e := ElementAt(env.heap, arr, i);
    var v := WordAt(env.memory, slots, i);
    if env.pending.Some? {
      return false;
    }
    if e.Some? {
      SetNativePointer(env, e, v);
      return true;
    }
    if v != 0 {
      ok := CreatePointerObject(env, arr, i, v);
      return;
    }
    return true;
  }

  // ---------------------------------------------------------------------
  // Properties of releasePointerData
  // ---------------------------------------------------------------------

  /** `t` holds the references of `s` less `h`. */
  ghost predicate Gave(s: State, t: State, h: multiset<Ref>)
  {
    t.globalRefs == s.globalRefs - h
  }

  lemma GaveSnoc(s: State, t: State, u: State, a: multiset<Ref>, b: multiset<Ref>)
    requires a + b <= s.globalRefs && Gave(s, t, a) && Gave(t, u, b)
    ensures Gave(s, u, a + b)
  {
  }

  /**
   * The shape initPointerData gives a view: NATIVE and DIRECT views hold
   * only their object, ARRAY views have no element views, and POINTERS views
   * hold no array and have element views of this shape.
   */
  ghost predicate Shaped(pd: PointerData)
    decreases pd
  {
    match pd.memoryType
    case POINTERS =>
      pd.backing.None? && forall i | 0 <= i < |pd.pointers| :: pd.pointers[i].Some? ==> Shaped(pd.pointers[i].value)
    case NATIVE => pd.backing.None? && pd.pointers == []
    case DIRECT => pd.backing.None? && pd.pointers == []
    case ARRAY => pd.pointers == []
    case ARRAY_COPY => pd.pointers == []
  }

  /**
   * A successful release gives back exactly the global references the view
   * holds, its own and those of all its element views.
   */
  lemma {:induction false} ReleaseRefs(s: State, pd: PointerData, mode: int)
    requires Shaped(pd) && Held(pd) <= s.globalRefs
    ensures var res := Release(s, pd, mode);
            res.0 ==> Gave(s, res.1, Held(pd))
    decreases pd, 2, 0
  {
    if pd.memoryType == POINTERS {
      ReleasePointersRefs(s, pd);
    } else {
      assert HeldIn(pd, 0) == multiset{};
      assert Held(pd) == Opt(pd.pointerObject) + Opt(pd.backing);
      var t := Release(s, pd, mode).1;
      if pd.memoryType == NATIVE || pd.memoryType == DIRECT {
        assert t == DropRef(s, pd.pointerObject);
      } else {
        assert t.globalRefs == s.globalRefs - Opt(pd.pointerObject) - Opt(pd.backing);
        DropBoth(s.globalRefs, Opt(pd.pointerObject), Opt(pd.backing));
      }
    }
  }

  lemma DropBoth(g: multiset<Ref>, a: multiset<Ref>, b: multiset<Ref>)
    ensures g - a - b == g - (a + b)
  {
  }

  lemma {:induction false} ReleasePointersRefs(s: State, pd: PointerData)
    requires pd.memoryType == POINTERS && Shaped(pd) && Held(pd) <= s.globalRefs
    ensures var res := ReleasePointers(s, pd);
            res.0 ==> Gave(s, res.1, Held(pd))
    decreases pd, 1, 0
  {
    var arr := PointersArrayOf(s.heap, pd.pointerObject);
    var n := |ElementsAt(s.heap, arr)|;
    var w := WriteBack(s, arr, pd.startPointer, n);
    var m := |pd.pointers|;
    if w.0 {
      assert Held(pd) == HeldIn(pd, m) + Opt(pd.pointerObject);
      ReleaseChildrenRefs(w.1, pd, m);
      var c := ReleaseChildren(w.1, pd, m);
      if c.0 {
        GaveSnoc(s, c.1, FreeSlots(c.1, pd), HeldIn(pd, m), Opt(pd.pointerObject));
      }
    }
  }

  lemma {:induction false} ReleaseChildrenRefs(s: State, pd: PointerData, k: nat)
    requires pd.memoryType == POINTERS && Shaped(pd)
    requires k <= |pd.pointers| && HeldIn(pd, k) <= s.globalRefs
    ensures var res := ReleaseChildren(s, pd, k);
            res.0 ==> Gave(s, res.1, HeldIn(pd, k))
    decreases pd, 0, k
  {
    if k > 0 {
      var h := HeldIn(pd, k - 1);
      assert HeldIn(pd, k) == h + HeldOpt(pd.pointers[k - 1]);
      ReleaseChildrenRefs(s, pd, k - 1);
      var prev := ReleaseChildren(s, pd, k - 1);
      if prev.0 && pd.pointers[k - 1].Some? {
        ReleaseChildRefs(s, prev.1, pd.pointers[k - 1].value, h);
      }
    }
  }

  /** Releasing one more element view gives back its references on top of those already given. */
  lemma {:induction false} ReleaseChildRefs(s: State, t: State, c: PointerData, h: multiset<Ref>)
    requires Shaped(c) && h + Held(c) <= s.globalRefs && Gave(s, t, h)
    ensures var u := Release(t, c, 0);
            u.0 ==> Gave(s, u.1, h + Held(c))
    decreases c, 3, 0
  {
    ReleaseRefs(t, c, 0);
    var u := Release(t, c, 0);
    if u.0 {
      GaveSnoc(s, t, u.1, h, Held(c));
    }
  }

  // ---------------------------------------------------------------------
  // Resolution followed by release
  // ---------------------------------------------------------------------

  /** Every element view is of the shape initPointerData gives. */
  ghost predicate AllShaped(cs: seq<Option<PointerData>>)
  {
    forall j | 0 <= j < |cs| :: cs[j].Some? ==> Shaped(cs[j].value)
  }

  /** initPointerData only ever gives views of that shape. */
  lemma {:induction false} ResolveShaped(s: State, obj: Option<Ref>, rank: map<Ref, nat>)
    requires obj.Some? ==> obj.value in s.heap.objects
    ensures var res := Resolve(s, obj, rank);
            res.0.Some? ==> Shaped(res.0.value)
    decreases if obj.Some? && obj.value in rank then rank[obj.value] else 0, 3, 0
  {
    if obj.Some? {
      var o := obj.value;
      var p := s.heap.objects[o];
      if p.nativePointer == 0 && p.pointers.Some? {
        ResolvePointersShaped(AddRef(s, o), o, rank);
      }
    }
  }

  lemma {:induction false} ResolvePointersShaped(s1: State, o: Ref, rank: map<Ref, nat>)
    requires o in s1.heap.objects
    ensures var res := ResolvePointers(s1, o, rank);
            res.0.Some? ==> Shaped(res.0.value)
    decreases RankOf(rank, o), 2, 0
  {
    var els := ElementsOf(s1.heap, o);
    ResolveElementsShaped(SlotsState(s1, o), els, s1.memory.next, |els|, RankOf(rank, o), rank);
  }

  lemma {:induction false} ResolveElementsShaped(s: State, els: seq<Option<Ref>>, addr: Address, k: nat, bound: nat, rank: map<Ref, nat>)
    requires k <= |els|
    ensures var res := ResolveElements(s, els, addr, k, bound, rank);
            res.0.Some? ==> AllShaped(res.0.value)
    decreases bound, 1, k
  {
    if k > 0 {
      ResolveElementsShaped(s, els, addr, k - 1, bound, rank);
      var prev := ResolveElements(s, els, addr, k - 1, bound, rank);
      if prev.0.Some? && Below(prev.1.heap, els[k - 1], rank, bound) {
        ResolveShaped(prev.1, els[k - 1], rank);
      }
    }
  }

  /**
   * initPointerData and releasePointerData are paired: whatever happens in
   * between that leaves the global references alone (the OpenCL call the
   * view was made for), a successful release of a view gives back every
   * global reference its resolution took.
   */
  lemma RoundTripRefs(s: State, obj: Option<Ref>, rank: map<Ref, nat>, t: State, mode: int)
    requires obj.Some? ==> obj.value in s.heap.objects
    requires Resolve(s, obj, rank).0.Some? && t.globalRefs == Resolve(s, obj, rank).1.globalRefs
    ensures var u := Release(t, Resolve(s, obj, rank).0.value, mode);
            u.0 ==> u.1.globalRefs == s.globalRefs
  {
    var pd := Resolve(s, obj, rank).0.value;
    ResolveRefs(s, obj, rank);
    ResolveShaped(s, obj, rank);
    ReleaseRefs(t, pd, mode);
  }

  // ---------------------------------------------------------------------
  // Precedence of initPointerData, release by kind, write-back per slot
  // ---------------------------------------------------------------------

  /**
   * The kind of view a pointer object resolves to, in the order
   * initPointerData tries them; None where it raises
   * IllegalArgumentException (a direct buffer at address 0, or a buffer
   * that is neither direct nor array-backed).
   */
  function KindFor(p: PointerObject, copies: bool): Option<MemoryType>
  {
    if p.nativePointer != 0 then Some(NATIVE)
    else if p.pointers.Some? then Some(POINTERS)
    else if p.buffer.None? then Some(NATIVE)
    else match p.buffer.value
      case Direct(a) => if a == 0 then None else Some(DIRECT)
      case ArrayBacked(_) => if copies then Some(ARRAY_COPY) else Some(ARRAY)
      case Neither => None
  }

  /** A null pointer object resolves to an empty NATIVE view and changes nothing. */
  lemma ResolveNull(s: State, rank: map<Ref, nat>)
    ensures Resolve(s, None, rank) == (Some(NullPointerData), s)
    ensures NullPointerData.startPointer == 0 && NullPointerData.pointer == 0 && Held(NullPointerData) == multiset{}
  {
    assert HeldIn(NullPointerData, 0) == multiset{};
  }

  /**
   * initPointerData follows the precedence of `KindFor`; every view it gives
   * points `byteOffset` bytes past its start; a NATIVE view starts at the
   * handle (0 when there is none) and a DIRECT view at the buffer's address.
   * It fails where `KindFor` says so, raising IllegalArgumentException, when
   * an element of a pointer array fails, and for a buffer exactly when an
   * exception is already pending.
   */
  lemma ResolvePrecedence(s: State, o: Ref, rank: map<Ref, nat>)
    requires o in s.heap.objects
    ensures var p := s.heap.objects[o];
            var res := Resolve(s, Some(o), rank);
            var kind := KindFor(p, s.pinCopies);
            (res.0.Some? ==> kind == Some(res.0.value.memoryType)) &&
            (res.0.Some? ==> res.0.value.pointerObject == Some(o) &&
                             res.0.value.pointer == res.0.value.startPointer + p.byteOffset) &&
            (kind == Some(NATIVE) ==> res.0.Some? && res.0.value.startPointer == p.nativePointer) &&
            (kind == Some(DIRECT) && res.0.Some? ==> res.0.value.startPointer == p.buffer.value.address) &&
            (kind == Some(DIRECT) || kind == Some(ARRAY) || kind == Some(ARRAY_COPY) ==> (res.0.Some? <==> s.pending.None?)) &&
            (kind.None? ==> res.0.None? && res.1.pending == AfterThrow(s.pending, IllegalArgumentException))
  {
  }

  /**
   * With an exception already pending, initPointerData succeeds only where it
   * makes no exception check: a null object, a NATIVE view, or an empty
   * pointer array. A buffer fails keeping only the reference to the object;
   * a non-empty pointer array fails at its first element, keeping the
   * reference and the slot block. The pending exception stays.
   */
  lemma ResolvePending(s: State, o: Ref, rank: map<Ref, nat>)
    requires o in s.heap.objects && s.pending.Some?
    ensures var p := s.heap.objects[o];
            var res := Resolve(s, Some(o), rank);
            res.1.pending == s.pending &&
            (res.0.Some? <==> p.nativePointer != 0 || (p.pointers.Some? && ElementsOf(s.heap, o) == []) ||
                              (p.pointers.None? && p.buffer.None?)) &&
            (p.nativePointer == 0 && p.pointers.None? && p.buffer.Some? ==> res.1 == AddRef(s, o)) &&
            (p.nativePointer == 0 && p.pointers.Some? && ElementsOf(s.heap, o) != [] ==>
               res.1 == SlotsState(AddRef(s, o), o))
  {
    var p := s.heap.objects[o];
    if p.nativePointer == 0 && p.pointers.Some? {
      var s1 := AddRef(s, o);
      var els := ElementsOf(s1.heap, o);
      ElementsPending(SlotsState(s1, o), els, s1.memory.next, |els|, RankOf(rank, o), rank);
    }
  }

  /** With an exception pending, the loop over a pointer array stops at its first element without effect. */
  lemma {:induction false} ElementsPending(s: State, els: seq<Option<Ref>>, addr: Address, k: nat, bound: nat, rank: map<Ref, nat>)
    requires k <= |els| && s.pending.Some?
    ensures ResolveElements(s, els, addr, k, bound, rank) == if k == 0 then (Some([]), s) else (None, s)
  {
    if k > 0 {
      ElementsPending(s, els, addr, k - 1, bound, rank);
    }
  }

  /**
   * Release by kind: NATIVE and DIRECT views only give back their object;
   * an ARRAY view never writes into its array; an ARRAY_COPY view writes
   * the pinned copy back into its array unless the mode is JNI_ABORT. Only
   * a POINTERS view can fail.
   */
  lemma ReleaseByKind(s: State, pd: PointerData, mode: int)
    ensures var res := Release(s, pd, mode);
            (pd.memoryType != POINTERS ==> res.0) &&
            (pd.memoryType == NATIVE || pd.memoryType == DIRECT ==> res.1 == DropRef(s, pd.pointerObject)) &&
            (pd.memoryType == ARRAY ==> res.1.heap == s.heap) &&
            (pd.memoryType == ARRAY_COPY && mode == JNI_ABORT ==> res.1.heap == s.heap) &&
            (pd.memoryType == ARRAY_COPY && mode != JNI_ABORT && pd.backing.Some? && pd.backing.value in s.heap.arrays &&
             pd.startPointer in s.memory.blocks ==>
               res.1.heap == s.heap.(arrays := s.heap.arrays[pd.backing.value := s.memory.blocks[pd.startPointer]]))
  {
  }

  /**
   * One pass of the write-back: a non-null element gets the slot's value as
   * its handle and byte offset 0, and no other object changes; a null element
   * with a non-zero slot is replaced by a new object of the array's
   * component type holding that value; a null element with a zero slot stays
   * null and nothing changes. With an exception pending the pass fails and
   * changes nothing.
   */
  lemma WriteSlotEffect(s: State, arr: Ref, slots: Address, i: int)
    requires arr in s.heap.objectArrays && 0 <= i < |s.heap.objectArrays[arr].elements|
    requires HeapOk(s.heap)
    ensures var e := s.heap.objectArrays[arr].elements[i];
            var v := WordAt(s.memory, slots, i);
            var res := WriteSlot(s, Some(arr), slots, i);
            (s.pending.Some? ==> res == (false, s)) &&
            (s.pending.None? && e.Some? ==>
               res.0 && res.1.heap.objects == s.heap.objects[e.value := s.heap.objects[e.value].(nativePointer := v, byteOffset := 0)]) &&
            (s.pending.None? && e.None? && v == 0 ==> res == (true, s)) &&
            (s.pending.None? && e.None? && v != 0 && s.heap.objectArrays[arr].componentType.Some? ==>
               var r := s.heap.nextRef;
               res.0 && r !in s.heap.objects &&
               res.1.heap.objects == s.heap.objects[r := PointerObject(s.heap.objectArrays[arr].componentType.value, v, 0, None, None)] &&
               ElementAt(res.1.heap, Some(arr), i) == Some(r)) &&
            (s.pending.None? && e.None? && v != 0 && s.heap.objectArrays[arr].componentType.None? ==>
               !res.0 && res.1.pending.Some?)
  {
  }

  /**
   * releasePointerData of a POINTERS view whose array has elements fails at
   * the first element when an exception is already pending, and changes
   * nothing: no reference is given back and no block freed.
   */
  lemma ReleasePending(s: State, pd: PointerData, mode: int)
    requires pd.memoryType == POINTERS && s.pending.Some?
    requires |ElementsAt(s.heap, PointersArrayOf(s.heap, pd.pointerObject))| > 0
    ensures Release(s, pd, mode) == (false, s)
  {
    var arr := PointersArrayOf(s.heap, pd.pointerObject);
    WriteBackStops(s, arr, pd.startPointer, 1, |ElementsAt(s.heap, arr)|);
  }

  /** setNativePointer on null changes nothing; otherwise it sets the handle and zeroes the byte offset, and nothing else. */
  lemma PointToEffect(h: Heap, obj: Option<Ref>, v: Address)
    ensures obj.None? ==> PointTo(h, obj, v) == h
    ensures obj.Some? && obj.value in h.objects ==>
              PointTo(h, obj, v) == h.(objects := h.objects[obj.value := h.objects[obj.value].(nativePointer := v, byteOffset := 0)])
  {
  }
}
