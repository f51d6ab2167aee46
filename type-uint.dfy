/**
  uintElement (series/type-uint.go): an unsigned 64-bit payload with a validity
  flag and a NaN flag. Unlike IntElement, Set never clears the NaN flag.
*/
datatype UintElement = UintElement(e: uint64, valid: bool, nan: bool)
{
  /** The element after Set(value), with the error Set returns (series/type-uint.go:15-110).
      Set marks the element valid but leaves the NaN flag as it was: once NaN, always NaN.
      A failed Set leaves the element missing or NaN. */
  function Coerce(value: Value): (r: (UintElement, Option<Error>))
    ensures nan ==> r.0.nan
    ensures r.1.Some? ==> r.0.IsNaN()
  {
    match value
    case Nil => (UintElement(e, false, nan), None)
    case Str(s) =>
      if s == NilText then (UintElement(e, false, nan), None)
      else if s == NaNText then (UintElement(e, true, true), None)
      else
        (match ParseUint(s)
         case Ok(u) => (UintElement(u, true, nan), None)
         case Err(err) => (UintElement(e, true, true), Some(err)))
    case Int(i) => (UintElement(ToUint64(i), true, nan), None)
    case Int8(i) => (UintElement(ToUint64(i), true, nan), None)
    case Int16(i) => (UintElement(ToUint64(i), true, nan), None)
    case Int32(i) => (UintElement(ToUint64(i), true, nan), None)
    case Int64(i) => (UintElement(ToUint64(i), true, nan), None)
    case Uint(u) => (UintElement(u, true, nan), None)
    case Uint8(u) => (UintElement(u, true, nan), None)
    case Uint16(u) => (UintElement(u, true, nan), None)
    case Uint32(u) => (UintElement(u, true, nan), None)
    case Uint64(u) => (UintElement(u, true, nan), None)
    case Float32(f) => FromFloat(f)
    case Float64(f) => FromFloat(f)
    case Bool(b) => (UintElement(if b then 1 else 0, true, nan), None)
    case NaNElement => (UintElement(e, true, true), None)
    case Elem(x) =>
      if !x.IsValid() then (UintElement(e, false, nan), None)
      else if x.IsNaN() then (UintElement(e, true, true), None)
      else
        (match x.Uint()
         case Ok(u) => (UintElement(u, true, nan), None)
         case Err(err) => (UintElement(e, false, nan), Some(err)))
    case Other(_) => (UintElement(e, false, nan), Some(Unsupported(value, "an uint64")))
  }

  /** The float branches of Set: NaN quietly, an infinity with an error, a finite value
      truncated toward zero and wrapped to 64 bits. */
  function FromFloat(f: Float): (UintElement, Option<Error>) {
    match f
    case NaN => (UintElement(e, true, true), None)
    case Finite(x) => (UintElement(ToUint64(Trunc(x)), true, nan), None)
    case _ => (UintElement(e, true, true), Some(Errorf(DemotingInf)))
  }

  /** uintElement.Set, assigning the fields one at a time as the Go code does. */
  method Set(value: Value) returns (r: UintElement, err: Option<Error>)
    ensures (r, err) == Coerce(value)
  {
    var e, valid, nan := this.e, true, this.nan;
    err := None;
    match value {
      case Nil =>
        valid := false;
      case Str(s) =>
        if s == NilText {
          valid := false;
        } else if s == NaNText {
          nan := true;
        } else {
          var parsed := ParseUint(s);
          if parsed.Err? {
            nan := true;
            err := Some(parsed.error);
          } else {
            e := parsed.value;
          }
        }
      case Int(i) => e := ToUint64(i);
      case Int8(i) => e := ToUint64(i);
      case Int16(i) => e := ToUint64(i);
      case Int32(i) => e := ToUint64(i);
      case Int64(i) => e := ToUint64(i);
      case Uint(u) => e := u;
      case Uint8(u) => e := u;
      case Uint16(u) => e := u;
      case Uint32(u) => e := u;
      case Uint64(u) => e := u;
      case Float32(f) =>
        if f.NaN? {
          nan := true;
        } else if f.IsInf(0) {
          nan := true;
          err := Some(Errorf(DemotingInf));
        } else {
          e := ToUint64(Trunc(f.v));
        }
      case Float64(f) =>
        if f.NaN? {
          nan := true;
        } else if f.IsInf(0) {
          nan := true;
          err := Some(Errorf(DemotingInf));
        } else {
          e := ToUint64(Trunc(f.v));
        }
      case Bool(b) =>
        if b {
          e := 1;
        } else {
          e := 0;
        }
      case NaNElement =>
        nan := true;
      case Elem(x) =>
        if x.IsValid() {
          if x.IsNaN() {
            nan := true;
          } else {
            var u := x.Uint();
            if u.Err? {
              valid := false;
              err := Some(u.error);
            } else {
              e := u.value;
            }
          }
        } else {
          valid := false;
        }
      case Other(_) =>
        valid := false;
        err := Some(Unsupported(value, "an uint64"));
    }
    r := UintElement(e, valid, nan);
  }

  predicate IsValid() {
    valid
  }

  predicate IsNaN() {
    !valid || nan
  }

  predicate IsInf(sign: int) {
    false
  }

  /** Val hands the payload out as a Go int, so values of 2^63 and above come out negative. */
  function Val(): Value {
    if valid then (if nan then NaNElement else Value.Int(ToInt64(e))) else Nil
  }

  /** String never fails: "" for a missing element, "NaN" for a NaN one, and otherwise
      the decimal text, which ParseUint reads back as the payload. */
  function String(): (r: Result<string>)
    ensures r.Ok?
    ensures r.value == NilText <==> !valid
    ensures r.value == NaNText <==> valid && nan
    ensures !IsNaN() ==> ParseUint(r.value) == Ok(e)
  {
    ParseUintFormatUint(e);
    var text := FormatUint(e);
    assert IsDigit(text[0]);
    if valid then (if nan then Ok(NaNText) else Ok(text)) else Ok(NilText)
  }

  /** Int fails exactly on a missing or NaN element; the payload's bits are read as
      signed, and converting back to uint64 gives the payload. */
  function Int(): (r: Result<int64>)
    ensures r.Ok? <==> !IsNaN()
    ensures r.Ok? ==> ToUint64(r.value) == e
    ensures r.Ok? && e < TwoTo63 ==> r.value == e
  {
    UnsignedRoundTrip(e);
    if valid && !nan then Ok(ToInt64(e)) else Err(Errorf("can't convert nil/nan to int64"))
  }

  /** Uint fails exactly on a missing or NaN element. */
  function Uint(): (r: Result<uint64>)
    ensures r.Ok? <==> !IsNaN()
    ensures r.Ok? ==> r.value == e
  {
    if valid && !nan then Ok(e) else Err(Errorf("can't convert nil/nan to uint64"))
  }

  /** Float fails exactly on a missing element and gives NaN for a NaN one. */
  function Float(): (r: Result<Float>)
    ensures r.Err? <==> !valid
    ensures r.Ok? ==> (r.value.NaN? <==> nan)
    ensures r.Ok? && !nan ==> r.value.Finite? && Trunc(r.value.v) == e
  {
    if valid then (if nan then Ok(NaN) else Ok(FromInt(e))) else Err(Errorf("can't convert nil to float64"))
  }

  /** Bool accepts only the payloads 0 and 1 of a present, non-NaN element. */
  function Bool(): (r: Result<bool>)
    ensures r.Ok? <==> !IsNaN() && (e == 0 || e == 1)
    ensures r.Ok? ==> (r.value <==> e == 1)
  {
    if !valid || nan then Err(Errorf("can't convert nil/nan to bool"))
    else if e == 1 then Ok(true)
    else if e == 0 then Ok(false)
    else Err(Errorf("can't convert Int \"" + FormatUint(e) + "\" to bool"))
  }

  /** Eq against another Uint element: both missing, or both present with the argument a
      number equal to this payload (a NaN receiver compares its stale payload). */
  predicate Eq(elem: Element)
    ensures elem.UintE? ==> (Eq(elem) <==> valid == elem.ue.valid && (!valid || (!elem.ue.nan && e == elem.ue.e)))
  {
    if valid != elem.IsValid() then false
    else if !valid && !elem.IsValid() then true
    else if elem.IsInf(0) then false
    else
      match elem.Uint()
      case Err(_) => false
      case Ok(u) => e == u
  }

  predicate Neq(elem: Element)
    ensures Neq(elem) <==> !Eq(elem)
  {
    if valid != elem.IsValid() then true else !Eq(elem)
  }

  /** Less against another Uint element is `<` on the payloads of two numbers. */
  predicate Less(elem: Element)
    ensures Less(elem) ==> !IsNaN() && !elem.IsNaN()
    ensures elem.UintE? ==> (Less(elem) <==> !IsNaN() && !elem.IsNaN() && e < elem.ue.e)
    ensures !IsNaN() && !elem.IsNaN() && elem.IsInf(1) ==> Less(elem)
  {
    if IsNaN() || elem.IsNaN() then false
    else if elem.IsNaN() then false
    else if elem.IsInf(1) then true
    else
      match elem.Uint()
      case Err(_) => false
      case Ok(u) => e < u
  }

  predicate LessEq(elem: Element)
    ensures LessEq(elem) ==> !IsNaN() && !elem.IsNaN()
    ensures elem.UintE? ==> (LessEq(elem) <==> !IsNaN() && !elem.IsNaN() && e <= elem.ue.e)
  {
    if IsNaN() || elem.IsNaN() then false
    else if elem.IsNaN() then false
    else if elem.IsInf(1) then true
    else
      match elem.Uint()
      case Err(_) => false
      case Ok(u) => IsValid() && e <= u
  }

  predicate Greater(elem: Element)
    ensures Greater(elem) ==> !IsNaN() && !elem.IsNaN()
    ensures elem.UintE? ==> (Greater(elem) <==> !IsNaN() && !elem.IsNaN() && e > elem.ue.e)
    ensures elem.IsInf(1) ==> !Greater(elem)
  {
    if IsNaN() || elem.IsNaN() then false
    else if elem.IsNaN() then false
    else if elem.IsInf(1) then false
    else
      match elem.Uint()
      case Err(_) => false
      case Ok(u) => e > u
  }

  predicate GreaterEq(elem: Element)
    ensures GreaterEq(elem) ==> !IsNaN() && !elem.IsNaN()
    ensures elem.UintE? ==> (GreaterEq(elem) <==> !IsNaN() && !elem.IsNaN() && e >= elem.ue.e)
    ensures elem.IsInf(1) ==> !GreaterEq(elem)
  {
    if IsNaN() || elem.IsNaN() then false
    else if elem.IsNaN() then false
    else if elem.IsInf(1) then false
    else
      match elem.Uint()
      case Err(_) => false
      case Ok(u) => e >= u
  }
}
