/**
 * Sizeof.java: the sizes in bytes of the OpenCL scalar, vector and handle
 * types. The pointer size comes from the system property
 * `sun.arch.data.model`, which is a parameter here (None when unset).
 */
module Sizeof {
  import opened Wrappers

  /** The OpenCL scalar types. */
  datatype Scalar = CHAR | UCHAR | SHORT | USHORT | INT | UINT | LONG | ULONG | HALF | FLOAT | DOUBLE

  /** The OpenCL handle types, and size_t, whose size is that of a pointer. */
  datatype Handle = SIZE_T | PLATFORM_ID | DEVICE_ID | CONTEXT | COMMAND_QUEUE | MEM | PROGRAM | KERNEL | EVENT | SAMPLER

  /** The width in bits of a scalar type. */
  function Bits(t: Scalar): nat
  {
    match t
    case CHAR => 8
    case UCHAR => 8
    case SHORT => 16
    case USHORT => 16
    case INT => 32
    case UINT => 32
    case LONG => 64
    case ULONG => 64
    case HALF => 16
    case FLOAT => 32
    case DOUBLE => 64
  }

  /** Sizeof.cl_char … Sizeof.cl_double: the width divided by 8. */
  function ScalarSize(t: Scalar): (n: nat)
    ensures n * 8 == Bits(t)
    ensures n == 1 || n == 2 || n == 4 || n == 8
  {
    Bits(t) / 8
  }

  /** The vector types exist for every scalar type but half, in widths 2, 4, 8 and 16. */
  predicate IsVector(t: Scalar, width: nat)
  {
    t != HALF && (width == 2 || width == 4 || width == 8 || width == 16)
  }

  /** Sizeof.cl_char2 … Sizeof.cl_double16: the width in bits times the number of elements, divided by 8. */
  function VectorSize(t: Scalar, width: nat): nat
    requires IsVector(t, width)
  {
    Bits(t) * width / 8
  }

  /** A vector is exactly as large as its elements side by side. */
  lemma VectorIsElements(t: Scalar, width: nat)
    requires IsVector(t, width)
    ensures VectorSize(t, width) == width * ScalarSize(t)
    ensures VectorSize(t, width) % ScalarSize(t) == 0 && VectorSize(t, width) >= 2 * ScalarSize(t)
  {
    var k := ScalarSize(t);
    assert Bits(t) == 8 * k;
    if width == 2 {
      assert Bits(t) * width == 16 * k;
    } else if width == 4 {
      assert Bits(t) * width == 32 * k;
    } else if width == 8 {
      assert Bits(t) * width == 64 * k;
    } else {
      assert Bits(t) * width == 128 * k;
    }
  }

  /** The sizes the source lists for the scalar types. */
  lemma ScalarSizes()
    ensures ScalarSize(CHAR) == 1 && ScalarSize(UCHAR) == 1
    ensures ScalarSize(SHORT) == 2 && ScalarSize(USHORT) == 2 && ScalarSize(HALF) == 2
    ensures ScalarSize(INT) == 4 && ScalarSize(UINT) == 4 && ScalarSize(FLOAT) == 4
    ensures ScalarSize(LONG) == 8 && ScalarSize(ULONG) == 8 && ScalarSize(DOUBLE) == 8
  {
  }

  /**
   * computePointerSize: 8 bytes on a 64-bit JVM, 4 otherwise (also when the
   * property is unrecognised). When the property is unset, `bits.equals`
   * throws NullPointerException and the class Sizeof fails to initialise;
   * that outcome is None.
   */
  function ComputePointerSize(dataModel: Option<string>): (n: Option<nat>)
    ensures n.None? <==> dataModel.None?
    ensures n.Some? ==> n.value == 4 || n.value == 8
    ensures n == Some(8) <==> dataModel == Some("64")
  {
    if dataModel.None? then None
    else if dataModel.value == "32" then Some(4)
    else if dataModel.value == "64" then Some(8)
    else Some(4)
  }

  /** Sizeof.size_t and the sizes of the handle types: all equal to the pointer size. */
  function HandleSize(h: Handle, dataModel: Option<string>): (n: Option<nat>)
    ensures n == ComputePointerSize(dataModel)
  {
    match h
    case SIZE_T => ComputePointerSize(dataModel)
    case PLATFORM_ID => ComputePointerSize(dataModel)
    case DEVICE_ID => ComputePointerSize(dataModel)
    case CONTEXT => ComputePointerSize(dataModel)
    case COMMAND_QUEUE => ComputePointerSize(dataModel)
    case MEM => ComputePointerSize(dataModel)
    case PROGRAM => ComputePointerSize(dataModel)
    case KERNEL => ComputePointerSize(dataModel)
    case EVENT => ComputePointerSize(dataModel)
    case SAMPLER => ComputePointerSize(dataModel)
  }
}
