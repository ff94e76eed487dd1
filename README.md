# JOCL core, modelled in Dafny

JOCL is the Java binding of OpenCL. The Java classes hold pointer objects:
`NativePointerObject` and its subclasses (`Pointer`, the `cl_*` handles,
`cl_context_properties`). The native library (JOCL.cpp and its helpers
CLJNIUtils.cpp, PointerUtils.cpp and JNIUtils.cpp) turns those objects into
native addresses for the OpenCL call and writes the results back
afterwards. This project models that core:

- **JNI layer** (`jni_utils.dfy`, module `JNIUtils`).
  - The `Env` class stands for a JNIEnv together with the part of the Java
    heap that native code sees:
    - pointer objects, object arrays and primitive arrays;
    - the multiset of global references;
    - the native blocks allocated with `new`;
    - the pending exception.
  - `Env.Snapshot()` gives the whole of it as a `State` value.
  - Each JNI call is a method proved to produce the matching `State`.
  - The helpers of JNIUtils.cpp are modelled here: `set`, `ThrowByName`,
    `convertString` and `convertArray`.
- **Java classes**: `NativePointerObject` (constructors, `setBuffer`,
  `withByteOffset`, `equals`/`hashCode`), the `Pointer` factories,
  `cl_context_properties`, `Sizeof` and `LibUtils`.
- **PointerUtils.cpp** (module `PointerUtils`). `initPointerData` and
  `releasePointerData` are specified as functions on `State`:
  - `Resolve` resolves a pointer object into a tree of `PointerData` views
    (NATIVE, DIRECT, ARRAY, ARRAY_COPY, POINTERS);
  - `Release` undoes it, writes a pinned copy back, and writes the native
    slots back into pointer arrays;
  - the methods `InitPointerData` and `ReleasePointerData` do the work step
    by step and are proved to end in exactly those states;
  - lemmas show that a release gives back exactly the global references a
    resolution took.
- **CLJNIUtils.cpp**:
  - property lists copied up to their terminating 0;
  - native handle lists;
  - the struct readers;
  - the `CallbackInfo` records and the per-context registry.
- **JOCL.cpp**:
  - aligned allocation and free;
  - the write-back of platform and device handles;
  - context creation and release with their callbacks;
  - the callback functions OpenCL calls;
  - the release mode each call site passes;
  - the size of a mapped image.

A pointer object may reach itself through pointer arrays; the source then
recurses until the native stack overflows. The model takes a ghost `rank`
map that witnesses the absence of such cycles (`Ranked`), and proves
termination against it.

The calls into OpenCL and the JVM's own choices appear as parameters of the
methods:
- the handles OpenCL writes and the context it creates;
- the pitches OpenCL reports;
- whether the JVM copies pinned arrays (`pinCopies`);
- what `malloc` returns;
- whether `NewObject` succeeds;
- what a Java listener throws;
- the bytes `String.getBytes` returns.

## Model

| member | source | states |
|---|---|---|
| Sizeof.ScalarSize | src/main/java/org/jocl/Sizeof.java:39-89 | the size of each scalar type is its width in bits divided by 8, and is 1, 2, 4 or 8 |
| Sizeof.ScalarSizes | src/main/java/org/jocl/Sizeof.java:39-89 | the byte sizes of cl_char … cl_double: 1, 1, 2, 2, 4, 4, 8, 8, 2, 4, 8 |
| Sizeof.VectorIsElements | src/main/java/org/jocl/Sizeof.java:94-289 | a vector type of width n is exactly n elements of its scalar type side by side |
| Sizeof.ComputePointerSize | src/main/java/org/jocl/Sizeof.java:355-372 | no size exactly when the data model property is unset (the NullPointerException that fails the class initialisation); otherwise 8 exactly when it is "64", and 4 otherwise |
| Sizeof.HandleSize | src/main/java/org/jocl/Sizeof.java:294-346 | size_t and every handle type have the pointer size |
| LibUtils.CalculateOS | src/main/java/org/jocl/LibUtils.java:115-136 | each OSType is returned exactly when the lower-cased name starts with its prefix; otherwise UNKNOWN |
| LibUtils.OSPrefixesExclusive | src/main/java/org/jocl/LibUtils.java:119-134 | no name starts with two of the OS prefixes, so the order of the tests does not matter |
| LibUtils.ArchPrefixesExclusive | src/main/java/org/jocl/LibUtils.java:148-176 | no architecture name matches two of the prefix tests, except that "ppc" is decided by the earlier exact test |
| LibUtils.CalculateArch | src/main/java/org/jocl/LibUtils.java:144-181 | each ARCHType is returned exactly when its test holds (exact names for x86 and 32-bit PowerPC, a prefix for the others, "risc" anywhere as the last resort) |
| LibUtils.CreateLibName | src/main/java/org/jocl/LibUtils.java:99-107 | the name is base-os-arch, with os and arch lower-cased and free of dashes |
| LibUtils.LibNameInjective | src/main/java/org/jocl/LibUtils.java:99-107 | for one base name, two hosts get the same library name if and only if they have the same OSType and ARCHType |
| NativePointerObjects.OffsetCopy | src/main/java/org/jocl/NativePointerObject.java:112-116 | the offset copy keeps the buffer and the pointer array, has native pointer 0, and its offset is the old one plus delta modulo 2^64 |
| NativePointerObjects.OffsetsAccumulate | src/main/java/org/jocl/NativePointerObject.java:112-116 | two offset copies in a row equal one offset copy with the sum of the offsets (long wrap-around included) |
| NativePointerObjects.NewNullObject | src/main/java/org/jocl/NativePointerObject.java:62-67 | the new object has no buffer, no pointer array and offset 0; nothing else changes |
| NativePointerObjects.NewBufferObject | src/main/java/org/jocl/NativePointerObject.java:74-79 | the new object holds the buffer, no pointer array, offset 0 |
| NativePointerObjects.NewArrayObject | src/main/java/org/jocl/NativePointerObject.java:86-91 | the new object holds the pointer array, no buffer, offset 0 |
| NativePointerObjects.NewCopy | src/main/java/org/jocl/NativePointerObject.java:98-103 | the copy has the other object's buffer, pointer array and offset but not its native pointer; the original is unchanged |
| NativePointerObjects.NewOffsetCopy | src/main/java/org/jocl/NativePointerObject.java:112-116 | the copy, then its offset increased by delta in long arithmetic |
| NativePointerObjects.WithBuffer | src/main/java/org/jocl/NativePointerObject.java:147-152 | setBuffer sets the buffer, clears the pointer array and resets the offset of that object only |
| NativePointerObjects.SetBuffer | src/main/java/org/jocl/NativePointerObject.java:147-152 | the Env afterwards is the old one with WithBuffer applied |
| NativePointerObjects.WithByteOffset | src/main/java/org/jocl/NativePointerObject.java:173-176 | a new object holding the offset copy; the receiver is left unchanged |
| NativePointerObjects.Equals | src/main/java/org/jocl/NativePointerObject.java:222-245 | an object equals itself; equal objects have the same class, buffer, offset and native pointer |
| NativePointerObjects.EqualsHashCode | src/main/java/org/jocl/NativePointerObject.java:210-245 | on a heap without pointer cycles, equal objects have equal hash codes, whatever hash the buffers have |
| NativePointerObjects.CopyEqualsOriginal | src/main/java/org/jocl/NativePointerObject.java:98-103 | a copy equals its original if and only if the original's native pointer is 0 |
| Pointers.ToArray | src/main/java/org/jocl/Pointer.java:44-119 | a null array throws NullPointerException; otherwise a new Pointer wraps the array in a buffer and no old object changes |
| Pointers.ToBuffer | src/main/java/org/jocl/Pointer.java:133-141 | IllegalArgumentException exactly for a null buffer or one that is neither direct nor array-backed; otherwise a new Pointer on it |
| Pointers.ToPointer | src/main/java/org/jocl/Pointer.java:152-160 | IllegalArgumentException exactly for null; otherwise a new Pointer over a fresh one-element array holding the argument |
| Pointers.ToPointers | src/main/java/org/jocl/Pointer.java:172-180 | IllegalArgumentException exactly for a null array; otherwise a new Pointer over that very array, no copy |
| Pointers.WithByteOffset | src/main/java/org/jocl/Pointer.java:251-254 | a new Pointer holding the offset copy; old objects unchanged |
| Pointers.WithByteOffsetTwice | src/main/java/org/jocl/Pointer.java:251-254 | two withByteOffset calls give the object of one call with the sum |
| Pointers.DirectBufferPointerKind | src/main/java/org/jocl/Pointer.java:238-241 | a pointer resolves as a DIRECT view exactly when it is a direct buffer pointer at a non-zero address with no handle and no pointer array |
| Pointers.ArrayPointerResolvesPinned | src/main/native/PointerUtils.cpp:252-289 | a Pointer made from a Java array resolves by pinning that array: ARRAY, or ARRAY_COPY when the JVM copies, pointing at its start |
| ContextProperties.NewContextProperties | src/main/java/org/jocl/cl_context_properties.java:42-45 | a new object whose buffer wraps the list {0} |
| ContextProperties.AddedProperty | src/main/java/org/jocl/cl_context_properties.java:53-62 | the new list is two longer: the old entries before the terminator, then id, value and a new 0 |
| ContextProperties.GrowProperties | src/main/java/org/jocl/cl_context_properties.java:55-60 | the array built in place equals AddedProperty of the old list |
| ContextProperties.AddProperty | src/main/java/org/jocl/cl_context_properties.java:53-62 | the object's list becomes AddedProperty of its old list, through setBuffer |
| ContextProperties.AddPlatformProperty | src/main/java/org/jocl/cl_context_properties.java:70-73 | a null platform throws NullPointerException and changes nothing; otherwise nothing is thrown and the new state is exactly that of addProperty with the platform's handle as the value: a new long array holding the grown list, swapped in through setBuffer (pointers cleared, offset 0) |
| ContextProperties.AddAllFromNew | src/main/java/org/jocl/cl_context_properties.java:42-62 | after k additions to a new object the list is the k pairs in order followed by one 0 |
| ContextProperties.NativeCopyOfAdded | src/main/native/CLJNIUtils.cpp:111-148 | when no id or value is 0 and the pairs fit in the scan, the native copy is exactly the pairs and the terminator |
| JNIUtils.AfterThrow | src/main/native/JNIUtils.cpp:153-163 | an exception already pending stays; otherwise the new one becomes pending |
| JNIUtils.Env.ThrowByName | src/main/native/JNIUtils.cpp:153-163 | afterwards an exception is pending, and the state is Throw of the old one |
| JNIUtils.Env.SetIntElement | src/main/native/JNIUtils.cpp:172-186 | a null array is left alone; otherwise slot index holds the value truncated to a jint |
| JNIUtils.Env.SetLongElement | src/main/native/JNIUtils.cpp:193-207 | a null array is left alone; otherwise slot index holds the value |
| JNIUtils.Env.ConvertArray | src/main/native/JNIUtils.cpp:283-304 | a fresh native block holds each element converted to size_t; the Java array, references and exception are unchanged and the pinned copy is discarded |
| JNIUtils.ConvertString | src/main/native/JNIUtils.cpp:243-272 | the buffer is the string's bytes followed by 0; the length is reported exactly when asked for |
| JNIUtils.UInt32ThroughInt32 | src/main/native/JOCL.cpp:1641 | a cl_uint count stored into a jint reads back unchanged as cl_uint |
| PointerUtils.Resolve | src/main/native/PointerUtils.cpp:114-301 | resolution, including its early NULL returns when an exception is pending, only reads the heap and leaves the copying policy alone |
| PointerUtils.ResolveBuffer | src/main/native/PointerUtils.cpp:215-297 | the buffer branch, which gives NULL at once when an exception is pending, only reads the heap |
| PointerUtils.ResolvePointers | src/main/native/PointerUtils.cpp:162-211 | the pointer-array branch, which fails at the first element read when an exception is pending, only reads the heap |
| PointerUtils.ResolveElements | src/main/native/PointerUtils.cpp:178-207 | the element loop, which stops at the check after each element read, only reads the heap and gives one view per element it resolved |
| PointerUtils.ResolveSlot | src/main/native/PointerUtils.cpp:178-207 | one pass of the element loop, failing when an exception is pending after the element read, only reads the heap |
| PointerUtils.ResolveRefs | src/main/native/PointerUtils.cpp:130-289 | a resolution takes exactly the global references its views hold, and a successful one raises no exception |
| PointerUtils.ResolveKeeps | src/main/native/PointerUtils.cpp:114-301 | every native block resolution did not allocate is left as it was |
| PointerUtils.ResolvePointersSlots | src/main/native/PointerUtils.cpp:178-207 | slot j of a POINTERS view holds the start address of element view j (its offset not applied), 0 for a null element |
| PointerUtils.ResolveSlotSlot | src/main/native/PointerUtils.cpp:178-207 | one pass sets slot i to the start of element view i and changes no other slot |
| PointerUtils.ResolveShaped | src/main/native/PointerUtils.cpp:114-301 | every view initPointerData gives has the shape release expects |
| PointerUtils.ResolveNull | src/main/native/PointerUtils.cpp:128-133 | a null object resolves to an empty NATIVE view at 0 holding no reference, and nothing changes |
| PointerUtils.ResolvePrecedence | src/main/native/PointerUtils.cpp:130-297 | the kind follows the order handle, pointer array, direct buffer, array buffer; the pointer is start plus byteOffset; NATIVE starts at the handle and DIRECT at the buffer address; a failing kind raises IllegalArgumentException; a DIRECT or array-backed object resolves exactly when no exception is pending |
| PointerUtils.ResolvePending | src/main/native/PointerUtils.cpp:162-259 | with an exception already pending, initPointerData succeeds only for a handle, an empty pointer array or an object with neither buffer nor pointers; a buffer keeps only the reference taken and a non-empty pointer array only that reference and its slot block; the exception stays |
| PointerUtils.InitPointerData | src/main/native/PointerUtils.cpp:114-301 | the method ends with the view and state Resolve gives |
| PointerUtils.InitBuffer | src/main/native/PointerUtils.cpp:215-297 | the buffer branch ends as ResolveBuffer gives |
| PointerUtils.InitPointerArray | src/main/native/PointerUtils.cpp:162-211 | the pointer-array branch ends as ResolvePointers gives |
| PointerUtils.InitSlot | src/main/native/PointerUtils.cpp:178-207 | one pass of the element loop ends as ResolveSlot gives |
| PointerUtils.PointTo | src/main/native/PointerUtils.cpp:472-480 | setNativePointer changes no object set, array or allocation counter |
| PointerUtils.PointToEffect | src/main/native/PointerUtils.cpp:472-480 | null is left alone; otherwise exactly the handle is set and the offset zeroed on that one object |
| PointerUtils.SetNativePointer | src/main/native/PointerUtils.cpp:472-480 | the Env afterwards is the old one with PointTo applied |
| PointerUtils.CreateAt | src/main/native/PointerUtils.cpp:312-343 | creating a pointer object touches no global reference and no native memory; it succeeds exactly when no exception is pending and the component type can be instantiated; a failure leaves the heap alone with an exception pending, and one entered with an exception pending changes nothing |
| PointerUtils.CreatePointerObject | src/main/native/PointerUtils.cpp:312-343 | the method ends as CreateAt gives |
| PointerUtils.WriteSlot | src/main/native/PointerUtils.cpp:412-440 | one write-back pass, which fails at the check after the element read when an exception is pending, touches no global reference and no native memory |
| PointerUtils.WriteSlotEffect | src/main/native/PointerUtils.cpp:412-440 | with an exception pending the pass fails and nothing changes; otherwise a non-null element gets the slot's value with offset 0 and no other object changes; a null element with a zero slot changes nothing; with a non-zero slot it is replaced by a new object of the component type, or the pass fails with an exception pending when that type cannot be instantiated |
| PointerUtils.WriteBack | src/main/native/PointerUtils.cpp:412-440 | the write-back loop touches no global reference and no native memory |
| PointerUtils.WriteBackSlot | src/main/native/PointerUtils.cpp:412-440 | one pass ends as WriteSlot gives |
| PointerUtils.WriteBackAll | src/main/native/PointerUtils.cpp:412-440 | the loop ends as WriteBack gives |
| PointerUtils.ReleasePointerData | src/main/native/PointerUtils.cpp:367-463 | the method ends as Release gives; the caller's PointerData is consumed exactly on success |
| PointerUtils.ReleasePointerArray | src/main/native/PointerUtils.cpp:402-460 | the POINTERS branch ends as ReleasePointers gives |
| PointerUtils.ReleaseElementViews | src/main/native/PointerUtils.cpp:445-455 | the loop over element views ends as ReleaseChildren gives |
| PointerUtils.ReleaseRefs | src/main/native/PointerUtils.cpp:367-463 | a successful release gives back exactly the global references the view and its element views hold |
| PointerUtils.RoundTripRefs | src/main/native/PointerUtils.cpp:367-463 | whatever happens between them that leaves global references alone, a successful release restores the references held before initPointerData |
| PointerUtils.ReleaseByKind | src/main/native/PointerUtils.cpp:369-400 | NATIVE and DIRECT give back their object only; ARRAY releases the pin without copying into its array; ARRAY_COPY writes the copy back unless the mode is JNI_ABORT; only POINTERS can fail |
| PointerUtils.ReleasePending | src/main/native/PointerUtils.cpp:412-421 | releasing a non-empty POINTERS view with an exception already pending fails at the first element and changes nothing |
| CLJNIUtils.CountProperties | src/main/native/CLJNIUtils.cpp:122-130 | the count is at most 100, every entry before it is non-zero, and the entry at it is 0 when the scan stopped early |
| CLJNIUtils.CopyProperties | src/main/native/CLJNIUtils.cpp:120-143 | the native array is the terminated copy of the values |
| CLJNIUtils.TerminatedCopyUnique | src/main/native/CLJNIUtils.cpp:120-143 | a property list has only one terminated copy |
| CLJNIUtils.CreateContextPropertiesArray | src/main/native/CLJNIUtils.cpp:111-148 | NULL for a null or unresolvable object; otherwise the terminated copy after the view is released with JNI_ABORT, NULL when the release fails; the heap is untouched unless the view is a pointer array |
| CLJNIUtils.GetDevicePartitionProperty | src/main/native/CLJNIUtils.cpp:238-275 | NULL for a null object; otherwise the state of initPointerData and then of a JNI_ABORT release, NULL exactly when either fails, and the terminated copy of the values on success |
| CLJNIUtils.GetImageFormat | src/main/native/CLJNIUtils.cpp:155-164 | zeros for null; otherwise the Java ints read as cl_uint |
| CLJNIUtils.SetImageFormat | src/main/native/CLJNIUtils.cpp:170-177 | a null object stays null; otherwise each stored field is a Java int congruent to its cl_uint field modulo 2^32 |
| CLJNIUtils.ImageFormatRoundTrip | src/main/native/CLJNIUtils.cpp:155-177 | storing a native format into an object and reading it back gives the same format |
| CLJNIUtils.ImageFormatObjectRoundTrip | src/main/native/CLJNIUtils.cpp:155-177 | reading an object and storing the result back leaves it unchanged |
| CLJNIUtils.GetImageDesc | src/main/native/CLJNIUtils.cpp:183-212 | a null description gives type CL_MEM_OBJECT_BUFFER and zeros; otherwise each cl_uint field is in range and congruent to its Java field modulo 2^32, each size_t field in range and congruent modulo 2^64 (equal when already in range), and the buffer is the cl_mem object's handle or 0 |
| CLJNIUtils.GetBufferRegion | src/main/native/CLJNIUtils.cpp:217-226 | zeros for null; otherwise the longs read as size_t, a negative size wrapping to 2^64 plus it |
| CLJNIUtils.HandleListOutcome | src/main/native/CLJNIUtils.cpp:289-324 | the handles of the first n objects exactly when the array is long enough, no exception is pending and none of them is null; TooShort exactly when the array is shorter than n |
| CLJNIUtils.HandleListIgnoresTail | src/main/native/CLJNIUtils.cpp:289-324 | elements at index n or beyond never change the outcome |
| CLJNIUtils.CreateHandleList | src/main/native/CLJNIUtils.cpp:289-324 | a short array throws ArrayIndexOutOfBoundsException and leaves the native array allocated; a pending exception or a null element frees it, the latter throwing NullPointerException; otherwise a new block holding the handles |
| CLJNIUtils.InitCallbackInfo | src/main/native/CLJNIUtils.cpp:482-514 | with no exception pending, the record holds a global reference to each non-null argument; with one pending and any non-null argument it returns NULL, keeping the first reference made |
| CLJNIUtils.DeleteCallbackInfo | src/main/native/CLJNIUtils.cpp:521-539 | NULL changes nothing; otherwise the record's global references are deleted; the caller's pointer ends NULL |
| CLJNIUtils.ContextCallbackMap.constructor | src/main/native/CLJNIUtils.cpp:64 | the registry starts empty |
| CLJNIUtils.ContextCallbackMap.Insert | src/main/native/JOCL.cpp:1872 | the context is mapped to the record |
| CLJNIUtils.ContextCallbackMap.Destroy | src/main/native/CLJNIUtils.cpp:547-556 | the context's mapping is removed and its record's references deleted; an unknown context changes nothing |
| CLJNIUtils.AsWrittenReadsErasedRecord | src/main/native/CLJNIUtils.cpp:545-556 | for every registered context, destroyCallbackInfo as written reads the record after its mapping is erased, while the record is there before the erase |
| JOCL.AlignedAsWritten | src/main/native/JOCL.cpp:1036-1037 | the address as written is aligned and lies strictly above m + 8, by at most the alignment |
| JOCL.AsWrittenOverrun | src/main/native/JOCL.cpp:1028-1040 | the zero fill stays inside the block if and only if m + 8 is not already aligned; otherwise it ends one byte past the block |
| JOCL.AsWrittenOverrunExample | src/main/native/JOCL.cpp:1028-1040 | block 8, alignment 16: the aligned address is 32 and the fill ends one byte past the block |
| JOCL.AlignedAddress | src/main/native/JOCL.cpp:1036-1037 | the corrected address is the first multiple of the alignment at or above m + 8 |
| JOCL.ZeroFill | src/main/native/JOCL.cpp:1040 | memset: the range is 0, every other byte keeps its value, and no other byte appears |
| JOCL.AllocatedAligned | src/main/native/JOCL.cpp:1028-1040 | the intended state, with the corrected address (see Findings): the address is aligned; the back pointer just below it holds m; the back pointer and the zeroed region both lie inside the block malloc gave |
| JOCL.FreeUndoesAllocate | src/main/native/JOCL.cpp:1056-1057 | freeing the returned address frees exactly the block the allocation took |
| JOCL.AllocateAlignedNative | src/main/native/JOCL.cpp:1025-1045 | when malloc fails, OutOfMemoryError and nothing else; otherwise the C heap of AllocatedAligned at the corrected address (see Findings), the pointer's nativePointer set to that address, and a direct buffer there |
| JOCL.FreeAlignedNative | src/main/native/JOCL.cpp:1052-1058 | the C heap after FreedAligned at the pointer's nativePointer |
| JOCL.IdWrittenBack | src/main/native/JOCL.cpp:1615-1638 | one slot of the write-back changes only objects, array elements and the pending exception: reading a slot past the end of the Java array leaves ArrayIndexOutOfBoundsException pending, and otherwise nothing is raised; no primitive array changes and no object array appears |
| JOCL.WriteBackKeeps | src/main/native/JOCL.cpp:1613-1640 | the whole write-back loop changes only objects, array elements and the pending exception, which is either unchanged or the ArrayIndexOutOfBoundsException of a read past the end of the Java array |
| JOCL.WriteBackId | src/main/native/JOCL.cpp:1615-1638 | the loop body ends as IdWrittenBack gives |
| JOCL.WriteBackSlots | src/main/native/JOCL.cpp:1613-1640 | the loop ends as IdsWrittenBack gives, stopping at the first code returned |
| JOCL.WriteBackIds | src/main/native/JOCL.cpp:1613-1643 | min(num_entries, count) slots are written back, a slot past the end of the Java array throwing ArrayIndexOutOfBoundsException on its read; an early code is returned as is; otherwise the count is stored and OpenCL's result returned |
| JOCL.PendingStopsPlatforms | src/main/native/JOCL.cpp:1617-1622 | a platform write-back entered with an exception pending returns CL_INVALID_HOST_PTR at once and changes nothing |
| JOCL.WriteBackFillsSlots | src/main/native/JOCL.cpp:1613-1640 | with no exception pending and distinct objects, each of the first n slots ends up holding an object that points at its handle with offset 0 (a null slot gets a new object of the handle class), later slots and all other objects unchanged |
| JOCL.WriteBackPastTheArray | src/main/native/JOCL.cpp:1613-1640 | when min(num_entries, count) exceeds the Java array, the existing slots are filled as above and the read of the first missing one throws ArrayIndexOutOfBoundsException: the platform loop returns CL_INVALID_HOST_PTR, the device loop CL_OUT_OF_HOST_MEMORY, with the exception pending |
| JOCL.ReleaseUndoesCreate | src/main/native/JOCL.cpp:1861-1877 | creating a context and then releasing it restores the registry and the global references |
| JOCL.CreateContextCallback | src/main/native/JOCL.cpp:1861-1877 | the context is created unless an exception is pending and a listener or user data was given; a non-NULL context is registered with its record, a NULL one has the record deleted; a failed init leaks the first reference |
| JOCL.ReleaseContext | src/main/native/JOCL.cpp:1991-2002 | the registry and references after AfterRelease of the context's handle |
| JOCL.FinishCallback | src/main/native/JOCL.cpp:1387-1403 | a pending exception is replaced by RuntimeException; otherwise nothing changes |
| JOCL.RunCallback | src/main/native/JOCL.cpp:1412-1569 | a one-shot callback deletes its record unless NewObject failed (then OutOfMemoryError is pending); the context callback never does; a listener exception becomes RuntimeException; the argument object points at the OpenCL handle |
| JOCL.AbortExactlyForInputs | src/main/native/JOCL.cpp:4235 | every site passes JNI_ABORT or 0, and JNI_ABORT exactly where OpenCL only reads the host memory |
| JOCL.ReleaseAtSite | src/main/native/PointerUtils.cpp:378-388 | a pinned copy is written back into the Java array exactly at sites where OpenCL writes the host memory, and freed at every site |
| JOCL.MappedImageSizeExact | src/main/native/JOCL.cpp:5066-5074 | without overflow the size is row pitch × region[1] + region[0] + slice pitch × region[2]; 0 for a null region |
| JOCL.AsWrittenReadsFreedRegion | src/main/native/JOCL.cpp:5058-5074 | for every non-null region, the size as written is read from freed memory, even when the block held the three words of the region before the free |
| JOCL.AsWrittenReadsFreedExample | src/main/native/JOCL.cpp:5058-5074 | region {4, 2, 1} with row pitch 16: the intended size is 36, and the source reads it after delete[] |
| JOCL.AsWrittenVersusMappedSize | src/main/native/JOCL.cpp:5038-5074 | for a region block converted from a Java array, the size as written is undefined, while the size read from the same memory before the free is exactly the size MappedSize returns |
| JOCL.MappedSize | src/main/native/JOCL.cpp:5038-5074 | the size from the converted region, computed before its block is freed; no native memory is left behind and the Java side is unchanged |

## Left out

- OutOfMemory paths of `new`, `NewGlobalRef`, `GetPrimitiveArrayCritical` and `EnsureLocalCapacity` are not modelled. The model allocates and pins successfully every time. The exceptions are:
  - `malloc` in allocateAlignedNative, whose failure is a parameter;
  - `NewObject` in the callbacks, whose failure is the `constructed` parameter.
- JNIUtils.Env.SetIntElement: never reports failure, since that is only the OutOfMemory case above.
- JNIUtils.Env.SetLongElement: never reports failure, for the same reason.
- Sizeof.ComputePointerSize: the warning printed to `System.err` for an unrecognised data model is not modelled (I/O).
- `set` for jfloatArray is not modelled (floating point).
- Native access through a non-copying (ARRAY) pin is not modelled. The pin is a fresh address with no block behind it, so native reads through it give 0 and native writes are lost; in the source the pointer aliases the Java array. This is why property values read at a resolved pointer are a parameter.
- Java `long` is taken as 64-bit, and the native address arithmetic `nativePointer + byteOffset` is unbounded: a platform whose C `long` is 32-bit, and a sum that wraps, are not modelled. JNIUtils.Env.SetLongElement likewise stores its value unbounded.
- JNIUtils.ConvertString: the path where `String.getBytes` throws is not modelled. The bytes are a parameter, and the default charset is outside the model.
- ThrowByName assumes `FindClass` always finds the exception classes the core names.
- finishCallback's failing `FindClass` is not modelled, and neither is thread attach/detach. The callbacks run on the calling `Env`; concurrency between OpenCL threads and Java is outside the model.
- The OpenCL calls themselves are oracles. Their results are parameters: handles, counts, result codes, contexts and pitches.
- The native ID arrays of clGetPlatformIDsNative and clGetDeviceIDsNative are not modelled. Their `new`/`delete[]` is left out, and so is their leak on an early return. The handles OpenCL writes are the `handles` parameter.
- JOCL.WriteBackIds:
  - does not model OpenCL writing num_entries words into a native array sized by the Java array, which overruns it when num_entries is larger: OpenCL is an oracle, and the handles past the Java array are taken as 0;
  - does not model the platform branch's `NewObject` returning NULL (the OutOfMemory case above);
  - omits the checks after `SetObjectArrayElement`, which cannot fire when no exception is pending.
- Only the callback part of clCreateContextNative and clCreateContextFromTypeNative is modelled. Devices, properties, errcode and the `cl_context` object are left out.
- Only the region conversion and the returned capacity of clEnqueueMapImageNative are modelled. Origin, pitch, event and errcode write-back are left out, and so is the buffer object.
- The other native methods of JOCL.cpp are not modelled one by one: each only resolves its arguments, forwards to OpenCL and releases them. The release mode of eight representative sites is modelled (`CallSite`). The site inside JOCL.cpp's own copy of createContextPropertiesArray is not in `CallSite`.
- JOCL.cpp repeats helpers of PointerUtils.cpp, CLJNIUtils.cpp and JNIUtils.cpp, with only spelling differences. Each is modelled once, in its helper module.
- CLJNIUtils.ContextCallbackMap.Destroy: takes the record before erasing the mapping, not through the iterator after `erase` as the source does (see Findings).
- Property values are read at the resolved pointer and are a parameter (`values`). Reading past the Java array is undefined in the source; the model reads 0.
- PointerUtils.ReleaseElementViews: the loop over element views runs over the number of views. The source uses the current length of the pointer array, which equals that number for any view resolved from the object, since Java arrays never change length.
- PointerUtils.Release: preservation of the heap invariant `HeapOk` through a release is not proved.
- PointerUtils.Resolve: recursion is bounded by the ghost `rank` (no pointer cycles). On a cyclic object graph the source overflows the native stack, and the model does not describe that.
- NativePointerObjects.Equals: buffers are compared as Dafny values, so two buffers are equal only when they wrap the same array or the same address. `Buffer.equals` compares the remaining contents, so two distinct arrays with equal contents are equal in Java but not in the model. Only `Buffer.hashCode` is a parameter (`bufferHash`), and the Java class test is a comparison of class names.
- `toString` of NativePointerObject and cl_context_properties is not modelled (formatting only).
- LibUtils.CalculateOS: lower-casing is ASCII only. The source's `toLowerCase()` here uses the default locale; the model applies the English-locale rule there too.
- `loadLibrary`, LibInitializer, the Logger and `setLogLevelNative` are not modelled: library loading and logging are I/O.
- The Pointer factories for the seven array element types are one function. The element type does not change the logic.
- Java listener objects are not modelled. What a listener does is limited to the exception it throws (a parameter).
- AllocatedAligned: states the intended allocation at the corrected address AlignedAddress, not the source's, whose zero fill can end one byte past the block (see Findings; the address as written is AlignedAsWritten).
- JOCL.AllocateAlignedNative:
  - stores and returns the corrected address AlignedAddress, not the address as written (see Findings);
  - uses `%` for the source's `& (alignment-1)`, which agrees for the powers of two it requires;
  - fixes `sizeof(void*)` at 8;
  - takes the size as a natural number;
  - does not model the NULL from `NewDirectByteBuffer`.
- JOCL.MappedSize: the native region block is freed before the size is computed from it in the source (see Findings). The method computes the size first.

## Findings

| source | as written | input that shows it | evidently intended | confidence | as-written member | corrected member |
|---|---|---|---|---|---|---|
| src/main/native/JOCL.cpp:1036-1040 | the aligned address adds `alignment - (p & (alignment-1))` to p = m + 8, so an already aligned p moves up a whole alignment, and the `memset` of size bytes ends one byte past the block of size + alignment - 1 + 8 bytes | malloc returns 8 with alignment 16: the address is 32, and the fill ends at 32 + size, one past the block end 31 + size | the first aligned address at or above m + 8, so the region always fits | not executed | JOCL.AsWrittenOverrun | JOCL.AlignedAddress |
| src/main/native/CLJNIUtils.cpp:553-554 | `contextCallbackMap.erase(iter)` comes before `deleteCallbackInfo(env, iter->second)`, so the record is read through an invalidated iterator | any context with a registered callback record, destroyed when the context is released | read the record, then erase the mapping | not executed; undefined behaviour | CLJNIUtils.AsWrittenReadsErasedRecord | CLJNIUtils.ContextCallbackMap.Destroy |
| src/main/native/JOCL.cpp:5058-5074 | `delete[] nativeRegion` comes before the size is computed from `nativeRegion[0..2]`, so the size is read from freed memory | any non-null region, e.g. {4, 2, 1} with row pitch 16: the intended size 36 is read after delete[] | compute the size, then free the region | not executed; undefined behaviour | JOCL.AsWrittenReadsFreedRegion | JOCL.MappedSize |
