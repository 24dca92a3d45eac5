/** Shared vocabulary: optional values, results carrying the agent's error codes,
    and the fixed-width integer ranges the C code works in. */
module Base {

  datatype Option<+T> = None | Some(value: T)

  /** The agent reports failures through errno-style codes; a call either yields a value
      or fails with one of these. */
  datatype Err =
    | ErrInvContext      // ERR_INV_CONTEXT
    | ErrInvTransport    // ERR_INV_TRANSPORT
    | ErrInvAddress      // ERR_INV_ADDRESS
    | ErrOther           // ERR_OTHER
    | ErrSystem(code: int) // an errno set by a call outside the model (opening an ELF file, reading a frame)
    | ErrInvalidArgument // EINVAL
    | ErrUnsupported     // ERR_UNSUPPORTED

  datatype Result<+T> = Ok(value: T) | Fail(error: Err)

  const TWO_32: nat := 0x1_0000_0000
  const TWO_63: nat := 0x8000_0000_0000_0000
  const TWO_64: nat := 0x1_0000_0000_0000_0000

  /** A C `unsigned` (32 bits). */
  predicate IsU32(n: int) { 0 <= n < TWO_32 }

  /** A C `uint64_t` / U8_T / ContextAddress (64 bits). */
  predicate IsU64(n: int) { 0 <= n < TWO_64 }

  /** A C `int` (32 bits, two's complement). */
  predicate IsI32(n: int) { -0x8000_0000 <= n < 0x8000_0000 }

  /** A C `int64_t`. */
  predicate IsI64(n: int) { -(TWO_63 as int) <= n < TWO_63 }

  /** Unsigned 32-bit wrap-around. */
  function U32(n: int): (r: nat)
    ensures IsU32(r)
    ensures IsU32(n) ==> r == n
  {
    n % TWO_32
  }

  /** Unsigned 64-bit wrap-around. */
  function U64(n: int): (r: nat)
    ensures IsU64(r)
    ensures IsU64(n) ==> r == n
  {
    n % TWO_64
  }

  /** Two's-complement reinterpretation of a 64-bit pattern as int64_t. */
  function I64(n: int): (r: int)
    ensures IsI64(r)
    ensures IsI64(n) ==> r == n
    ensures (r - n) % TWO_64 == 0
  {
    var u := n % TWO_64;
    if u < TWO_63 then u else u - TWO_64
  }

  /** Two's-complement reinterpretation of a 32-bit pattern as a C `int`. */
  function I32(n: int): (r: int)
    ensures IsI32(r)
    ensures IsI32(n) ==> r == n
  {
    var u := n % TWO_32;
    if u < 0x8000_0000 then u else u - TWO_32
  }

  /** C division of signed integers: the quotient is truncated towards zero. */
  function CDiv(a: int, b: int): (q: int)
    requires b > 0
    ensures a >= 0 ==> q == a / b
    ensures a < 0 ==> q == -((-a) / b)
  {
    if a >= 0 then a / b else -((-a) / b)
  }

  /** C remainder: takes the sign of the dividend. */
  function CRem(a: int, b: int): (r: int)
    requires b > 0
    ensures a >= 0 ==> r == a % b
    ensures a < 0 ==> r == -((-a) % b)
    ensures b * CDiv(a, b) + r == a
  {
    a - b * CDiv(a, b)
  }

  function Min(a: int, b: int): (m: int)
    ensures m <= a && m <= b && (m == a || m == b)
  {
    if a <= b then a else b
  }
}
