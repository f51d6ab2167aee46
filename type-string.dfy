/**
  stringElement (series/type-string.go): a text payload and a validity flag.
  "NaN" is ordinary text here; IsNaN asks whether the text reads as a number.
*/
datatype StringElement = StringElement(e: string, valid: bool)
{
  /** The element after Set(value), with the error Set returns (series/type-string.go:16-65).
      Any non-empty text is kept verbatim, the empty text makes the element missing, and
      a failed Set leaves it missing. */
  function Coerce(value: Value): (r: (StringElement, Option<Error>))
    ensures r.1.Some? ==> !r.0.valid
    ensures value.Str? ==> r.1.None? && (r.0.valid <==> value.s != NilText) && (r.0.valid ==> r.0.e == value.s)
  {
    match value
    case Nil => (StringElement(e, false), None)
    case Str(s) => if s == NilText then (StringElement(e, false), None) else (StringElement(s, true), None)
    case Int(i) => (StringElement(FormatInt(i), true), None)
    case Int64(i) => (StringElement(FormatInt(i), true), None)
    case Uint64(u) => (StringElement(FormatUint(u), true), None)
    case Float32(f) => (StringElement(FormatFloat(f), true), None)
    case Float64(f) => (StringElement(FormatFloat(f), true), None)
    case Bool(b) => (StringElement(if b then "true" else "false", true), None)
    case NaNElement => (StringElement(NaNText, true), None)
    case Elem(x) =>
      if !x.IsValid() then (StringElement(e, false), None)
      else
        (match x.String()
         case Ok(s) => (StringElement(s, true), None)
         case Err(err) => (StringElement(e, false), Some(err)))
    case _ => (StringElement(e, false), Some(Unsupported(value, "a string")))
  }

  /** stringElement.Set, assigning the fields one at a time as the Go code does. */
  method Set(value: Value) returns (r: StringElement, err: Option<Error>)
    ensures (r, err) == Coerce(value)
  {
    var e, valid := this.e, true;
    err := None;
    match value {
      case Nil =>
        valid := false;
      case Str(s) =>
        if s == NilText {
          valid := false;
        } else {
          e := s;
        }
      case Int(i) => e := FormatInt(i);
      case Int64(i) => e := FormatInt(i);
      case Uint64(u) => e := FormatUint(u);
      case Float32(f) => e := FormatFloat(f);
      case Float64(f) => e := FormatFloat(f);
      case Bool(b) =>
        if b {
          e := "true";
        } else {
          e := "false";
        }
      case NaNElement =>
        e := NaNText;
      case Elem(x) =>
        if x.IsValid() {
          match x.String() {
            case Err(failure) =>
              valid := false;
              err := Some(failure);
            case Ok(s) =>
              e := s;
          }
        } else {
          valid := false;
        }
      case _ =>
        valid := false;
        err := Some(Unsupported(value, "a string"));
    }
    r := StringElement(e, valid);
  }

  predicate IsValid() {
    valid
  }

  /** IsNaN: missing, text that is not a float, or text that reads as NaN. */
  predicate IsNaN() {
    if !valid then true
    else
      match ParseFloat(e)
      case Ok(f) => f.NaN?
      case Err(_) => true
  }

  /** IsInf looks at the text even of a missing element: only "inf", "+inf" or "-inf",
      in any letter case, can be infinite. */
  predicate IsInf(sign: int)
    ensures IsInf(sign) <==> ToLower(e) in {"inf", "-inf", "+inf"} && ParseFloat(e).Ok? && ParseFloat(e).value.IsInf(sign)
  {
    var lower := ToLower(e);
    if lower == "inf" || lower == "-inf" || lower == "+inf" then
      match ParseFloat(e)
      case Ok(f) => f.IsInf(sign)
      case Err(_) => false
    else false
  }

  function Val(): Value {
    if !valid then Nil else Str(e)
  }

  /** String fails exactly on a missing element and otherwise gives the text. */
  function String(): (r: Result<string>)
    ensures r.Ok? <==> valid
    ensures r.Ok? ==> r.value == e
  {
    if !valid then Err(Errorf("can't convert nil to string")) else Ok(e)
  }

  /** Int is ParseInt of the text; text it accepts is never NaN. */
  function Int(): (r: Result<int64>)
    ensures !valid ==> r.Err?
    ensures valid ==> r == ParseInt(e)
    ensures r.Ok? ==> !IsNaN()
  {
    if !valid then Err(Errorf("can't convert nil to int64"))
    else
      var r := ParseInt(e);
      if r.Ok? then ParseFloatOfInteger(e); r else r
  }

  /** Uint is ParseUint of the text; text it accepts is never NaN. */
  function Uint(): (r: Result<uint64>)
    ensures !valid ==> r.Err?
    ensures valid ==> r == ParseUint(e)
    ensures r.Ok? ==> !IsNaN()
  {
    if !valid then Err(Errorf("can't convert nil to uint64"))
    else
      var r := ParseUint(e);
      if r.Ok? then
        assert IsDigit(e[0]) && Unsigned(e) == e;
        ParseFloatOfInteger(e);
        r
      else r
  }

  /** Float fails exactly on a missing element; text that does not parse gives NaN, so
      the result is NaN exactly when the element is NaN. */
  function Float(): (r: Result<Float>)
    ensures r.Err? <==> !valid
    ensures valid ==> r == Ok(if ParseFloat(e).Ok? then ParseFloat(e).value else NaN)
    ensures r.Ok? ==> (r.value.NaN? <==> IsNaN())
  {
    if !valid then Err(Errorf("can't convert nil to float64"))
    else
      match ParseFloat(e)
      case Err(_) => Ok(NaN)
      case Ok(f) => Ok(f)
  }

  /** Bool reads "true", "t", "1", "false", "f" and "0" in any letter case, and fails on
      anything else. */
  function Bool(): (r: Result<bool>)
    ensures r.Ok? <==> valid && ToLower(e) in {"true", "t", "1", "false", "f", "0"}
    ensures r.Ok? ==> (r.value <==> ToLower(e) in {"true", "t", "1"})
  {
    if !valid then Err(Errorf("can't convert nil to bool"))
    else
      var lower := ToLower(e);
      if lower == "true" || lower == "t" || lower == "1" then Ok(true)
      else if lower == "false" || lower == "f" || lower == "0" then Ok(false)
      else Err(Errorf("can't convert String '" + e + "' to bool"))
  }

  /** Eq: both missing, or both present with the same text. */
  predicate Eq(elem: Element)
    ensures elem.StringE? ==> (Eq(elem) <==> valid == elem.se.valid && (!valid || e == elem.se.e))
  {
    if valid != elem.IsValid() then false
    else if !valid && !elem.IsValid() then true
    else
      match elem.String()
      case Err(_) => false
      case Ok(s) => e == s
  }

  predicate Neq(elem: Element)
    ensures Neq(elem) <==> !Eq(elem)
  {
    !Eq(elem)
  }

  /** The orderings compare the texts of two present elements byte by byte. */
  predicate Less(elem: Element)
    ensures Less(elem) ==> valid && elem.IsValid()
    ensures elem.StringE? ==> (Less(elem) <==> valid && elem.se.valid && StrLess(e, elem.se.e))
  {
    if !valid || !elem.IsValid() then false
    else
      match elem.String()
      case Err(_) => false
      case Ok(s) => StrLess(e, s)
  }

  predicate LessEq(elem: Element)
    ensures LessEq(elem) ==> valid && elem.IsValid()
    ensures elem.StringE? ==> (LessEq(elem) <==> valid && elem.se.valid && (StrLess(e, elem.se.e) || e == elem.se.e))
  {
    if !valid || !elem.IsValid() then false
    else
      match elem.String()
      case Err(_) => false
      case Ok(s) => StrLess(e, s) || e == s
  }

  predicate Greater(elem: Element)
    ensures Greater(elem) ==> valid && elem.IsValid()
    ensures elem.StringE? ==> (Greater(elem) <==> valid && elem.se.valid && StrLess(elem.se.e, e))
  {
    if !valid || !elem.IsValid() then false
    else
      match elem.String()
      case Err(_) => false
      case Ok(s) => StrLess(s, e)
  }

  predicate GreaterEq(elem: Element)
    ensures GreaterEq(elem) ==> valid && elem.IsValid()
    ensures elem.StringE? ==> (GreaterEq(elem) <==> valid && elem.se.valid && (StrLess(elem.se.e, e) || e == elem.se.e))
  {
    if !valid || !elem.IsValid() then false
    else
      match elem.String()
      case Err(_) => false
      case Ok(s) => StrLess(s, e) || e == s
  }
}
