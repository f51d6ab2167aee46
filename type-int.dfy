/**
  IntElement (series/type-int.go): a signed 64-bit payload with a validity flag
  and a NaN flag. A NaN element keeps whatever payload it last held.
*/
datatype IntElement = IntElement(e: int64, valid: bool, nan: bool)
{
  /** The element after Set(value), with the error Set returns (series/type-int.go:15-111).
      Set starts from a valid, non-NaN element, so a failed Set leaves it missing or NaN,
      and a NaN it produces is always a valid one. */
  function Coerce(value: Value): (r: (IntElement, Option<Error>))
    ensures r.1.Some? ==> r.0.IsNaN()
    ensures r.0.nan ==> r.0.valid
  {
    match value
    case Nil => (IntElement(e, false, false), None)
    case Str(s) =>
      if s == NilText then (IntElement(e, false, false), None)
      else if s == NaNText then (IntElement(e, true, true), None)
      else
        (match ParseInt(s)
         case Ok(i) => (IntElement(i, true, false), None)
         case Err(err) => (IntElement(e, true, true), Some(err)))
    case Int(i) => (IntElement(i, true, false), None)
    case Int8(i) => (IntElement(i, true, false), None)
    case Int16(i) => (IntElement(i, true, false), None)
    case Int32(i) => (IntElement(i, true, false), None)
    case Int64(i) => (IntElement(i, true, false), None)
    case Uint(u) => (IntElement(ToInt64(u), true, false), None)
    case Uint8(u) => (IntElement(u, true, false), None)
    case Uint16(u) => (IntElement(u, true, false), None)
    case Uint32(u) => (IntElement(u, true, false), None)
    case Uint64(u) => (IntElement(ToInt64(u), true, false), None)
    case Float32(f) => FromFloat(f)
    case Float64(f) => FromFloat(f)
    case Bool(b) => (IntElement(if b then 1 else 0, true, false), None)
    case NaNElement => (IntElement(e, true, true), None)
    case Elem(x) =>
      if !x.IsValid() then (IntElement(e, false, false), None)
      else if x.IsNaN() then (IntElement(e, true, true), None)
      else
        (match x.Int()
         case Ok(i) => (IntElement(i, true, false), None)
         case Err(err) => (IntElement(e, false, false), Some(err)))
    case Other(_) => (IntElement(e, false, false), Some(Unsupported(value, "an int64")))
  }

  /** The float branches of Set: NaN quietly, an infinity with an error, a finite value
      truncated toward zero. */
  function FromFloat(f: Float): (IntElement, Option<Error>) {
    match f
    case NaN => (IntElement(e, true, true), None)
    case Finite(x) => (IntElement(ToInt64(Trunc(x)), true, false), None)
    case _ => (IntElement(e, true, true), Some(Errorf(DemotingInf)))
  }

  /** IntElement.Set, assigning the fields one at a time as the Go code does. */
  method Set(value: Value) returns (r: IntElement, err: Option<Error>)
    ensures (r, err) == Coerce(value)
  {
    var e, valid, nan := this.e, true, false;
    err := None;
    match value {
      case Nil =>
        valid := false;
      case Str(s) =>
        if s == NilText {
          valid := false;
        } else if s == NaNText {
          nan := true;
        } else {
          var parsed := ParseInt(s);
          if parsed.Err? {
            nan := true;
            err := Some(parsed.error);
          } else {
            e := parsed.value;
          }
        }
      case Int(i) => e := i;
      case Int8(i) => e := i;
      case Int16(i) => e := i;
      case Int32(i) => e := i;
      case Int64(i) => e := i;
      case Uint(u) => e := ToInt64(u);
      case Uint8(u) => e := u;
      case Uint16(u) => e := u;
      case Uint32(u) => e := u;
      case Uint64(u) => e := ToInt64(u);
      case Float32(f) =>
        if f.NaN? {
          nan := true;
        } else if f.IsInf(0) {
          nan := true;
          err := Some(Errorf(DemotingInf));
        } else {
          e := ToInt64(Trunc(f.v));
        }
      case Float64(f) =>
        if f.NaN? {
          nan := true;
        } else if f.IsInf(0) {
          nan := true;
          err := Some(Errorf(DemotingInf));
        } else {
          e := ToInt64(Trunc(f.v));
        }
      case Bool(b) =>
        if b {
          e := 1;
        } else {
          e := 0;
        }
      case NaNElement =>
        nan := true;
      case Elem(x) =>
        if x.IsValid() {
          if x.IsNaN() {
            nan := true;
          } else {
            var i := x.Int();
            if i.Err? {
              valid := false;
              err := Some(i.error);
            } else {
              e := i.value;
            }
          }
        } else {
          valid := false;
        }
      case Other(_) =>
        valid := false;
        err := Some(Unsupported(value, "an int64"));
    }
    r := IntElement(e, valid, nan);
  }

  predicate IsValid() {
    valid
  }

  predicate IsNaN() {
    !valid || nan
  }

  predicate IsInf(sign: int) {
    false
  }

  function Val(): Value {
    if valid then (if nan then NaNElement else Value.Int(e)) else Nil
  }

  /** String never fails: "" for a missing element, "NaN" for a NaN one, and otherwise
      the decimal text, which ParseInt reads back as the payload. */
  function String(): (r: Result<string>)
    ensures r.Ok?
    ensures r.value == NilText <==> !valid
    ensures r.value == NaNText <==> valid && nan
    ensures !IsNaN() ==> ParseInt(r.value) == Ok(e)
  {
    FormatIntShape(e);
    ParseIntFormatInt(e);
    if valid then (if nan then Ok(NaNText) else Ok(FormatInt(e))) else Ok(NilText)
  }

  /** Int fails exactly on a missing or NaN element. */
  function Int(): (r: Result<int64>)
    ensures r.Ok? <==> !IsNaN()
    ensures r.Ok? ==> r.value == e
  {
    if valid && !nan then Ok(e) else Err(Errorf("can't convert nil/nan to int64"))
  }

  /** Uint fails exactly on a missing or NaN element; the payload's 64 bits are read as
      unsigned, so converting back to int64 gives the payload. */
  function Uint(): (r: Result<uint64>)
    ensures r.Ok? <==> !IsNaN()
    ensures r.Ok? ==> ToInt64(r.value) == e
    ensures r.Ok? && e >= 0 ==> r.value == e
  {
    SignedRoundTrip(e);
    if valid && !nan then Ok(ToUint64(e)) else Err(Errorf("can't convert nil/nan to uint64"))
  }

  /** Float fails exactly on a missing element and gives NaN for a NaN one; a number
      truncates back to the payload. */
  function Float(): (r: Result<Float>)
    ensures r.Err? <==> !valid
    ensures r.Ok? ==> (r.value.NaN? <==> nan)
    ensures r.Ok? && !nan ==> r.value.Finite? && Trunc(r.value.v) == e
  {
    if valid then (if nan then Ok(NaN) else Ok(FromInt(e))) else Err(Errorf("can't convert nil to float64"))
  }

  /** Bool fails exactly on a missing element; NaN counts as non-zero. */
  function Bool(): (r: Result<bool>)
    ensures r.Err? <==> !valid
    ensures r.Ok? ==> (r.value <==> nan || e != 0)
  {
    if !valid then Err(Errorf("can't convert nil to Bool"))
    else if IsNaN() then Ok(true)
    else if e == 0 then Ok(false)
    else Ok(true)
  }

  /** Eq against another Int element: both missing, or both present with the argument a
      number equal to this payload. A NaN receiver is not excluded: its stale payload is
      compared. */
  predicate Eq(elem: Element)
    ensures elem.IntE? ==> (Eq(elem) <==> valid == elem.ie.valid && (!valid || (!elem.ie.nan && e == elem.ie.e)))
  {
    if valid != elem.IsValid() then false
    else if !valid && !elem.IsValid() then true
    else if elem.IsInf(0) then false
    else
      match elem.Int()
      case Err(_) => false
      case Ok(i) => e == i
  }

  predicate Neq(elem: Element)
    ensures Neq(elem) <==> !Eq(elem)
  {
    if valid != elem.IsValid() then true else !Eq(elem)
  }

  /** Less against another Int element is `<` on the payloads of two numbers; any element
      reporting +Inf is above every number. */
  predicate Less(elem: Element)
    ensures Less(elem) ==> !IsNaN() && !elem.IsNaN()
    ensures elem.IntE? ==> (Less(elem) <==> !IsNaN() && !elem.IsNaN() && e < elem.ie.e)
    ensures !IsNaN() && !elem.IsNaN() && elem.IsInf(1) ==> Less(elem)
  {
    if IsNaN() || elem.IsNaN() then false
    else if elem.IsNaN() then false
    else if elem.IsInf(1) then true
    else
      match elem.Int()
      case Err(_) => false
      case Ok(i) => e < i
  }

  predicate LessEq(elem: Element)
    ensures LessEq(elem) ==> !IsNaN() && !elem.IsNaN()
    ensures elem.IntE? ==> (LessEq(elem) <==> !IsNaN() && !elem.IsNaN() && e <= elem.ie.e)
  {
    if IsNaN() || elem.IsNaN() then false
    else if elem.IsNaN() then false
    else if elem.IsInf(1) then true
    else
      match elem.Int()
      case Err(_) => false
      case Ok(i) => IsValid() && e <= i
  }

  predicate Greater(elem: Element)
    ensures Greater(elem) ==> !IsNaN() && !elem.IsNaN()
    ensures elem.IntE? ==> (Greater(elem) <==> !IsNaN() && !elem.IsNaN() && e > elem.ie.e)
    ensures elem.IsInf(1) ==> !Greater(elem)
  {
    if IsNaN() || elem.IsNaN() then false
    else if elem.IsNaN() then false
    else if elem.IsInf(1) then false
    else
      match elem.Int()
      case Err(_) => false
      case Ok(i) => e > i
  }

  predicate GreaterEq(elem: Element)
    ensures GreaterEq(elem) ==> !IsNaN() && !elem.IsNaN()
    ensures elem.IntE? ==> (GreaterEq(elem) <==> !IsNaN() && !elem.IsNaN() && e >= elem.ie.e)
    ensures elem.IsInf(1) ==> !GreaterEq(elem)
  {
    if IsNaN() || elem.IsNaN() then false
    else if elem.IsNaN() then false
    else if elem.IsInf(1) then false
    else
      match elem.Int()
      case Err(_) => false
      case Ok(i) => e >= i
  }
}
