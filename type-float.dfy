/**
  floatElement (series/type-float.go): a float64 payload and a validity flag.
  There is no NaN flag: a NaN lives in the payload.
*/
datatype FloatElement = FloatElement(e: Float, valid: bool)
{
  /** The element after Set(value), with the error Set returns (series/type-float.go:14-73).
      Text never fails (what does not parse becomes NaN); a failed Set leaves the element
      missing. */
  function Coerce(value: Value): (r: (FloatElement, Option<Error>))
    ensures r.1.Some? ==> !r.0.valid
    ensures value.Str? ==> r.1.None?
  {
    match value
    case Nil => (FloatElement(e, false), None)
    case Str(s) =>
      if s == NilText then (FloatElement(e, false), None)
      else if s == NaNText then (FloatElement(NaN, true), None)
      else
        (match ParseFloat(s)
         case Ok(f) => (FloatElement(f, true), None)
         case Err(_) => (FloatElement(NaN, true), None))
    case Int(i) => (FloatElement(FromInt(i), true), None)
    case Int64(i) => (FloatElement(FromInt(i), true), None)
    case Uint(u) => (FloatElement(FromInt(u), true), None)
    case Uint64(u) => (FloatElement(FromInt(u), true), None)
    case Float32(f) => (FloatElement(f, true), None)
    case Float64(f) => (FloatElement(f, true), None)
    case Bool(b) => (FloatElement(if b then Finite(1.0) else Finite(0.0), true), None)
    case Elem(x) =>
      if !x.IsValid() then (FloatElement(e, false), None)
      else
        (match x.Float()
         case Ok(f) => (FloatElement(f, true), None)
         case Err(err) => (FloatElement(e, false), Some(err)))
    case _ => (FloatElement(e, false), Some(Unsupported(value, "a float")))
  }

  /** floatElement.Set, assigning the fields one at a time as the Go code does. */
  method Set(value: Value) returns (r: FloatElement, err: Option<Error>)
    ensures (r, err) == Coerce(value)
  {
    var e, valid := this.e, true;
    err := None;
    match value {
      case Nil =>
        valid := false;
      case Str(s) =>
        if s == NilText {
          valid := false;
        } else if s == NaNText {
          e := NaN;
        } else {
          var parsed := ParseFloat(s);
          if parsed.Err? {
            e := NaN;
          } else {
            e := parsed.value;
          }
        }
      case Int(i) => e := FromInt(i);
      case Int64(i) => e := FromInt(i);
      case Uint(u) => e := FromInt(u);
      case Uint64(u) => e := FromInt(u);
      case Float32(f) => e := f;
      case Float64(f) => e := f;
      case Bool(b) =>
        if b {
          e := Finite(1.0);
        } else {
          e := Finite(0.0);
        }
      case Elem(x) =>
        if x.IsValid() {
          match x.Float() {
            case Err(failure) =>
              valid := false;
              err := Some(failure);
            case Ok(f) =>
              e := f;
          }
        } else {
          valid := false;
        }
      case _ =>
        valid := false;
        err := Some(Unsupported(value, "a float"));
    }
    r := FloatElement(e, valid);
  }

  predicate IsValid() {
    valid
  }

  predicate IsNaN() {
    !valid || e.NaN?
  }

  predicate IsInf(sign: int) {
    valid && e.IsInf(sign)
  }

  function Val(): Value {
    if !valid then Nil else Float64(e)
  }

  /** String never fails: "" for a missing element and the six-decimal text otherwise,
      which is "NaN" exactly for a NaN payload. */
  function String(): (r: Result<string>)
    ensures r.Ok?
    ensures r.value == NilText <==> !valid
    ensures r.value == NaNText <==> valid && e.NaN?
    ensures valid ==> r == Ok(FormatFloat(e))
  {
    if !valid then Ok(NilText) else Ok(FormatFloat(e))
  }

  /** Int fails exactly on a missing element and on an infinite or NaN payload; a finite
      payload is truncated toward zero. */
  function Int(): (r: Result<int64>)
    ensures r.Ok? <==> valid && e.Finite?
    ensures r.Ok? ==> r.value == ToInt64(Trunc(e.v))
    ensures r.Ok? && -TwoTo63 <= Trunc(e.v) < TwoTo63 ==> r.value == Trunc(e.v)
  {
    if !valid then Err(Errorf("can't convert nil to an int64"))
    else if e.IsInf(1) || e.IsInf(-1) then Err(Errorf("can't convert Inf to int64"))
    else if e.NaN? then Err(Errorf("can't convert NaN to int64"))
    else Ok(ToInt64(Trunc(e.v)))
  }

  /** Uint fails exactly on a missing element and on an infinite or NaN payload. */
  function Uint(): (r: Result<uint64>)
    ensures r.Ok? <==> valid && e.Finite?
    ensures r.Ok? ==> r.value == ToUint64(Trunc(e.v))
    ensures r.Ok? && 0 <= Trunc(e.v) < TwoTo64 ==> r.value == Trunc(e.v)
  {
    if !valid then Err(Errorf("can't convert nil to an uint64"))
    else if e.IsInf(1) || e.IsInf(-1) then Err(Errorf("can't convert Inf to uint64"))
    else if e.NaN? then Err(Errorf("can't convert NaN to uint64"))
    else Ok(ToUint64(Trunc(e.v)))
  }

  /** Float fails exactly on a missing element and otherwise gives the payload, NaN included. */
  function Float(): (r: Result<Float>)
    ensures r.Err? <==> !valid
    ensures r.Ok? ==> r.value == e
  {
    if !valid then Err(Errorf("can't convert nil to a float64")) else Ok(e)
  }

  /** Bool accepts only the payloads 0 and 1 of a present element. The error text quotes
      the payload in FormatFloat's six decimals, where Go's %v prints the shortest decimal
      that reads back as the same float64 ("2.500000" for Go's "2.5"). */
  function Bool(): (r: Result<bool>)
    ensures r.Ok? <==> valid && (e == Finite(0.0) || e == Finite(1.0))
    ensures r.Ok? ==> (r.value <==> e == Finite(1.0))
  {
    if !valid then Err(Errorf("can't convert nil to bool"))
    else if e == Finite(1.0) then Ok(true)
    else if e == Finite(0.0) then Ok(false)
    else Err(Errorf("can't convert Float '" + FormatFloat(e) + "' to bool"))
  }

  /** Eq: both missing, or both present and IEEE-equal, so a NaN equals nothing. */
  predicate Eq(elem: Element)
    ensures Eq(elem) && valid ==> !IsNaN()
    ensures elem.FloatE? ==> (Eq(elem) <==> (!valid && !elem.fe.valid) || (valid && elem.fe.valid && FEq(e, elem.fe.e)))
  {
    if !valid && !elem.IsValid() then true
    else if valid != elem.IsValid() then false
    else
      match elem.Float()
      case Err(_) => false
      case Ok(f) => FEq(e, f)
  }

  predicate Neq(elem: Element)
    ensures Neq(elem) <==> !Eq(elem)
  {
    if valid != elem.IsValid() then true else !Eq(elem)
  }

  /** The orderings are IEEE comparisons between two present, non-NaN elements. */
  predicate Less(elem: Element)
    ensures Less(elem) ==> !IsNaN() && !elem.IsNaN()
    ensures elem.FloatE? ==> (Less(elem) <==> valid && elem.fe.valid && FLess(e, elem.fe.e))
  {
    if !valid || !elem.IsValid() then false
    else if IsNaN() || elem.IsNaN() then false
    else
      match elem.Float()
      case Err(_) => false
      case Ok(f) => FLess(e, f)
  }

  predicate LessEq(elem: Element)
    ensures LessEq(elem) ==> !IsNaN() && !elem.IsNaN()
    ensures elem.FloatE? ==> (LessEq(elem) <==> valid && elem.fe.valid && FLessEq(e, elem.fe.e))
  {
    if !valid || !elem.IsValid() then false
    else if IsNaN() || elem.IsNaN() then false
    else
      match elem.Float()
      case Err(_) => false
      case Ok(f) => FLessEq(e, f)
  }

  predicate Greater(elem: Element)
    ensures Greater(elem) ==> !IsNaN() && !elem.IsNaN()
    ensures elem.FloatE? ==> (Greater(elem) <==> valid && elem.fe.valid && FLess(elem.fe.e, e))
  {
    if !valid || !elem.IsValid() then false
    else if IsNaN() || elem.IsNaN() then false
    else
      match elem.Float()
      case Err(_) => false
      case Ok(f) => FLess(f, e)
  }

  predicate GreaterEq(elem: Element)
    ensures GreaterEq(elem) ==> !IsNaN() && !elem.IsNaN()
    ensures elem.FloatE? ==> (GreaterEq(elem) <==> valid && elem.fe.valid && FLessEq(elem.fe.e, e))
  {
    if !valid || !elem.IsValid() then false
    else if IsNaN() || elem.IsNaN() then false
    else
      match elem.Float()
      case Err(_) => false
      case Ok(f) => FLessEq(f, e)
  }
}
