/** Machine integers and result codes of the CUDA driver API, as the decode
    session sees them.  Dafny integers are unbounded, so every C width the
    session relies on is a newtype and every C cast is an explicit function. */
module Cuda {

  newtype int16 = x: int | -0x8000 <= x < 0x8000
  newtype int32 = x: int | -0x8000_0000 <= x < 0x8000_0000
  newtype uint32 = x: int | 0 <= x < 0x1_0000_0000
  newtype int64 = x: int | -0x8000_0000_0000_0000 <= x < 0x8000_0000_0000_0000
  newtype uint64 = x: int | 0 <= x < 0x1_0000_0000_0000_0000

  /** C's `(short)x` on a two's-complement target: the one 16-bit value
      congruent to `x` modulo 2^16. */
  function ToShort(x: int): (r: int16)
    ensures (r as int - x) % 0x1_0000 == 0
    ensures -0x8000 <= x < 0x8000 ==> r as int == x
  {
    ((x + 0x8000) % 0x1_0000 - 0x8000) as int16
  }

  /** C's conversion of a signed value to a 32-bit unsigned one (`unsigned
      long` on the Windows ABI the source targets, or `(uint32_t)`). */
  function ToUint32(x: int): (r: uint32)
    ensures (r as int - x) % 0x1_0000_0000 == 0
    ensures 0 <= x < 0x1_0000_0000 ==> r as int == x
  {
    (x % 0x1_0000_0000) as uint32
  }

  /** Two's-complement wrap-around of an `int` expression. */
  function WrapInt32(x: int): (r: int32)
    ensures (r as int - x) % 0x1_0000_0000 == 0
    ensures -0x8000_0000 <= x < 0x8000_0000 ==> r as int == x
  {
    ((x + 0x8000_0000) % 0x1_0000_0000 - 0x8000_0000) as int32
  }

  /** `(short)` keeps exactly one value per residue class: any 16-bit value
      congruent to `x` is the one `ToShort` picks. */
  lemma ShortIsUnique(x: int, y: int16)
    requires (y as int - x) % 0x1_0000 == 0
    ensures y == ToShort(x)
  {
    var r := ToShort(x);
    var d := y as int - r as int;
    assert d % 0x1_0000 == 0;
    assert -0x1_0000 < d < 0x1_0000;
  }

  /** Evaluating the display-area sum in wrapping 32-bit arithmetic, as the
      compiled code may, yields the same `(short)` as exact arithmetic:
      2^16 divides 2^32. */
  lemma ShortOfWrappedSum(x: int)
    ensures ToShort(WrapInt32(x) as int) == ToShort(x)
  {
    var w := WrapInt32(x) as int;
    var q := (x + 0x8000_0000) / 0x1_0000_0000;
    assert w == x - q * 0x1_0000_0000;
    var t := ToShort(w) as int;
    var j := (t - w) / 0x1_0000;
    assert t - w == j * 0x1_0000;
    assert t - x == (j - q * 0x1_0000) * 0x1_0000;
    MultipleOfWord(j - q * 0x1_0000);
    ShortIsUnique(x, ToShort(w));
  }

  lemma MultipleOfWord(c: int)
    ensures (c * 0x1_0000) % 0x1_0000 == 0
  {
  }

  /** `CUresult`: the engine may hand back any code, so it is an integer. */
  type CuResult = int

  const CudaSuccess: CuResult := 0
  const CudaErrorOutOfMemory: CuResult := 2
  const CudaErrorNotFound: CuResult := 500
  const CudaErrorUnknown: CuResult := 999

  /** What a guarded call into the foreign engine produced: the code it
      returned, or a fault that the structured-exception guard trapped. */
  datatype EngineOutcome = Returned(code: CuResult) | Faulted

  /** The result a `__try { r = call(); } __except(1) { r = CUDA_ERROR_UNKNOWN; }`
      guard leaves behind. */
  function Trapped(o: EngineOutcome): (r: CuResult)
    ensures r == CudaSuccess <==> o == Returned(CudaSuccess)
    ensures o.Faulted? ==> r == CudaErrorUnknown
    ensures o.Returned? ==> r == o.code
  {
    match o
    case Returned(code) => code
    case Faulted => CudaErrorUnknown
  }
}
