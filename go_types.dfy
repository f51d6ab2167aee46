/**
  The Go built-in types the series package works with: fixed-width integers
  and the conversions between them, an abstract IEEE-754 double, and the
  error values that Go functions return beside their results.
*/
module GoTypes {

  const TwoTo63: int := 0x8000_0000_0000_0000
  const TwoTo64: int := 0x1_0000_0000_0000_0000

  type int8 = x: int | -0x80 <= x < 0x80
  type int16 = x: int | -0x8000 <= x < 0x8000
  type int32 = x: int | -0x8000_0000 <= x < 0x8000_0000
  type int64 = x: int | -0x8000_0000_0000_0000 <= x < 0x8000_0000_0000_0000
  type uint8 = x: int | 0 <= x < 0x100
  type uint16 = x: int | 0 <= x < 0x1_0000
  type uint32 = x: int | 0 <= x < 0x1_0000_0000
  type uint64 = x: int | 0 <= x < 0x1_0000_0000_0000_0000

  /** Go's int64(x) for an integer x of any width: the low 64 bits read as two's complement. */
  function ToInt64(x: int): (r: int64)
    ensures (r - x) % TwoTo64 == 0
    ensures -TwoTo63 <= x < TwoTo63 ==> r == x
  {
    var m := x % TwoTo64;
    if m < TwoTo63 then m else m - TwoTo64
  }

  /** Go's uint64(x) for an integer x of any width: the low 64 bits read as unsigned. */
  function ToUint64(x: int): (r: uint64)
    ensures (r - x) % TwoTo64 == 0
    ensures 0 <= x < TwoTo64 ==> r == x
  {
    x % TwoTo64
  }

  /** int64(uint64(i)) == i: reading a signed value's bits as unsigned and back is lossless. */
  lemma SignedRoundTrip(i: int64)
    ensures ToInt64(ToUint64(i)) == i
  {
    if i < 0 {
      assert ToUint64(i) == i + TwoTo64;
    }
  }

  /** uint64(int64(u)) == u. */
  lemma UnsignedRoundTrip(u: uint64)
    ensures ToUint64(ToInt64(u)) == u
  {
    if u >= TwoTo63 {
      assert ToInt64(u) == u - TwoTo64;
    }
  }

  /** A 64-bit IEEE-754 value, kept abstract: finite values are exact reals. */
  datatype Float = Finite(v: real) | PosInf | NegInf | NaN {

    /** math.IsInf(f, sign): +Inf for sign > 0, -Inf for sign < 0, either for 0. */
    predicate IsInf(sign: int) {
      (sign >= 0 && PosInf?) || (sign <= 0 && NegInf?)
    }
  }

  /** The float64 value of an integer (Go's float64(i)); rounding to 53 bits is not modelled. */
  function FromInt(i: int): Float {
    Finite(i as real)
  }

  /** IEEE-754 `==`: NaN equals nothing, not even itself. */
  predicate FEq(a: Float, b: Float) {
    match (a, b)
    case (Finite(x), Finite(y)) => x == y
    case (PosInf, PosInf) => true
    case (NegInf, NegInf) => true
    case _ => false
  }

  /** IEEE-754 `<`: -Inf below every finite value, +Inf above; false when either side is NaN. */
  predicate FLess(a: Float, b: Float) {
    match (a, b)
    case (Finite(x), Finite(y)) => x < y
    case (NegInf, Finite(_)) => true
    case (NegInf, PosInf) => true
    case (Finite(_), PosInf) => true
    case _ => false
  }

  /** IEEE-754 `<=`. */
  predicate FLessEq(a: Float, b: Float) {
    FLess(a, b) || FEq(a, b)
  }

  /** Go's conversion of a finite float to an integer type truncates toward zero. */
  function Trunc(x: real): (r: int)
    ensures 0.0 <= x ==> 0 <= r && r as real <= x < r as real + 1.0
    ensures x < 0.0 ==> r <= 0 && r as real - 1.0 < x <= r as real
  {
    if x >= 0.0 then x.Floor else -((-x).Floor)
  }

  /** Reason carried by a strconv.NumError. */
  datatype NumErrorKind = ErrSyntax | ErrRange

  /** A Go error value: a strconv.NumError, a message made by fmt.Errorf, or
      fmt.Errorf(prefix + "%v", cause) wrapping another error. */
  datatype Error =
    | NumError(fn: string, num: string, err: NumErrorKind)
    | Errorf(msg: string)
    | Wrapf(prefix: string, cause: Error)

  datatype Option<T> = None | Some(value: T)

  /** A Go `(T, error)` pair where the T beside a non-nil error is never used. */
  datatype Result<T> = Ok(value: T) | Err(error: Error)
}
