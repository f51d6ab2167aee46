/**
  boolElement (series/type-bool.go): a boolean payload and a validity flag.
*/

/** The texts Set and Bool read as true and as false, after lower-casing. */
predicate TrueText(lower: string) {
  lower == "true" || lower == "t" || lower == "1"
}

predicate FalseText(lower: string) {
  lower == "false" || lower == "f" || lower == "0"
}

datatype BoolElement = BoolElement(e: bool, valid: bool)
{
  /** The element after Set(value), with the error Set returns (series/type-bool.go:13-88).
      Set starts from a valid false, so its result never depends on the element's previous
      state, a missing result always carries false, and a failed Set leaves it missing. */
  function Coerce(value: Value): (r: (BoolElement, Option<Error>))
    ensures r.1.Some? ==> !r.0.valid
    ensures !r.0.valid ==> !r.0.e
  {
    match value
    case Nil => (BoolElement(false, false), None)
    case Str(s) =>
      var lower := ToLower(s);
      if TrueText(lower) then (BoolElement(true, true), None)
      else if FalseText(lower) then (BoolElement(false, true), None)
      else (BoolElement(false, false), Some(Errorf("can't convert string '" + s + "' to boolean")))
    case Int(i) => (BoolElement(i != 0, true), None)
    case Int64(i) => (BoolElement(i != 0, true), None)
    case Uint(u) => (BoolElement(u != 0, true), None)
    case Uint64(u) => (BoolElement(u != 0, true), None)
    case Float32(f) => (BoolElement(!(f == Finite(0.0) || f.NaN?), true), None)
    case Float64(f) => (BoolElement(!(f == Finite(0.0) || f.NaN?), true), None)
    case Bool(b) => (BoolElement(b, true), None)
    case Elem(x) =>
      if !x.IsValid() then (BoolElement(false, false), None)
      else
        (match x.Bool()
         case Ok(b) => (BoolElement(b, true), None)
         case Err(err) => (BoolElement(false, false), Some(err)))
    case _ => (BoolElement(false, false), Some(Unsupported(value, "a boolean")))
  }

  /** boolElement.Set, assigning the fields one at a time as the Go code does. */
  method Set(value: Value) returns (r: BoolElement, err: Option<Error>)
    ensures (r, err) == Coerce(value)
  {
    var e, valid := false, true;
    err := None;
    match value {
      case Nil =>
        valid := false;
      case Str(s) =>
        var lower := ToLower(s);
        if TrueText(lower) {
          e := true;
        } else if FalseText(lower) {
          e := false;
        } else {
          valid := false;
          err := Some(Errorf("can't convert string '" + s + "' to boolean"));
        }
      case Int(i) => e := i != 0;
      case Int64(i) => e := i != 0;
      case Uint(u) => e := u != 0;
      case Uint64(u) => e := u != 0;
      case Float32(f) =>
        if f == Finite(0.0) || f.NaN? {
          e := false;
        } else {
          e := true;
        }
      case Float64(f) =>
        if f == Finite(0.0) || f.NaN? {
          e := false;
        } else {
          e := true;
        }
      case Bool(b) => e := b;
      case Elem(x) =>
        if x.IsValid() {
          var b := x.Bool();
          if b.Err? {
            valid := false;
            err := Some(b.error);
          } else {
            e := b.value;
          }
        } else {
          valid := false;
        }
      case _ =>
        valid := false;
        err := Some(Unsupported(value, "a boolean"));
    }
    r := BoolElement(e, valid);
  }

  predicate IsValid() {
    valid
  }

  predicate IsNaN() {
    !valid
  }

  predicate IsInf(sign: int) {
    false
  }

  function Val(): Value {
    if !valid then Nil else Value.Bool(e)
  }

  /** String fails exactly on a missing element, and otherwise gives text that a Bool
      element's Set reads back as the payload. */
  function String(): (r: Result<string>)
    ensures r.Ok? <==> valid
    ensures r.Ok? ==> BoolElement(false, false).Coerce(Str(r.value)) == (this, None)
  {
    if !valid then Err(Errorf("can't convert a nil to string"))
    else if e then Ok("true")
    else Ok("false")
  }

  /** Int, Uint and Float fail exactly on a missing element and give 1 for true, 0 for false. */
  function Int(): (r: Result<int64>)
    ensures r.Ok? <==> valid
    ensures r.Ok? ==> (r.value == 1 <==> e) && (r.value == 0 <==> !e)
  {
    if !valid then Err(Errorf("can't convert a nil to an int64"))
    else if e then Ok(1)
    else Ok(0)
  }

  function Uint(): (r: Result<uint64>)
    ensures r.Ok? <==> valid
    ensures r.Ok? ==> (r.value == 1 <==> e) && (r.value == 0 <==> !e)
  {
    if !valid then Err(Errorf("can't convert a nil to an uint64"))
    else if e then Ok(1)
    else Ok(0)
  }

  function Float(): (r: Result<Float>)
    ensures r.Err? <==> !valid
    ensures r.Ok? ==> (r.value == Finite(1.0) <==> e) && (r.value == Finite(0.0) <==> !e)
  {
    if !valid then Err(Errorf("can't convert a nil to a float64"))
    else if e then Ok(Finite(1.0))
    else Ok(Finite(0.0))
  }

  function Bool(): (r: Result<bool>)
    ensures r.Ok? <==> valid
    ensures r.Ok? ==> r.value == e
  {
    if !valid then Err(Errorf("can't convert a nil to a boolean")) else Ok(e)
  }

  /** Eq: both missing, or both present with the argument's Bool equal to the payload. */
  predicate Eq(elem: Element)
    ensures elem.BoolE? ==> (Eq(elem) <==> valid == elem.be.valid && (!valid || e == elem.be.e))
  {
    if valid != elem.IsValid() then false
    else if !valid && !elem.IsValid() then true
    else
      match elem.Bool()
      case Err(_) => false
      case Ok(b) => e == b
  }

  predicate Neq(elem: Element)
    ensures Neq(elem) <==> !Eq(elem)
  {
    if valid != elem.IsValid() then true else !Eq(elem)
  }

  /** The orderings put false below true, between present elements whose argument is
      not NaN. */
  predicate Less(elem: Element)
    ensures Less(elem) ==> valid && elem.IsValid() && !elem.IsNaN()
    ensures elem.BoolE? ==> (Less(elem) <==> valid && elem.be.valid && !e && elem.be.e)
  {
    if !valid || !elem.IsValid() then false
    else if elem.IsNaN() then false
    else
      match elem.Bool()
      case Err(_) => false
      case Ok(b) => !e && b
  }

  predicate LessEq(elem: Element)
    ensures LessEq(elem) ==> valid && elem.IsValid() && !elem.IsNaN()
    ensures elem.BoolE? ==> (LessEq(elem) <==> valid && elem.be.valid && (!e || elem.be.e))
  {
    if !valid || !elem.IsValid() then false
    else if elem.IsNaN() then false
    else
      match elem.Bool()
      case Err(_) => false
      case Ok(b) => !e || b
  }

  predicate Greater(elem: Element)
    ensures Greater(elem) ==> valid && elem.IsValid() && !elem.IsNaN()
    ensures elem.BoolE? ==> (Greater(elem) <==> valid && elem.be.valid && e && !elem.be.e)
  {
    if !valid || !elem.IsValid() then false
    else if elem.IsNaN() then false
    else
      match elem.Bool()
      case Err(_) => false
      case Ok(b) => e && !b
  }

  predicate GreaterEq(elem: Element)
    ensures GreaterEq(elem) ==> valid && elem.IsValid() && !elem.IsNaN()
    ensures elem.BoolE? ==> (GreaterEq(elem) <==> valid && elem.be.valid && (e || !elem.be.e))
  {
    if !valid || !elem.IsValid() then false
    else if elem.IsNaN() then false
    else
      match elem.Bool()
      case Err(_) => false
      case Ok(b) => e || !b
  }
}
