/**
  The Element interface of package series (series/series.go:34-61): one
  constructor per element kind, each holding the kind's own record
  (type-int.dfy, type-uint.dfy, type-float.dfy, type-string.dfy,
  type-bool.dfy). Every method of the interface dispatches on the kind, the
  way a Go interface call does. The package lives in Dafny's default module,
  spread over files that follow the Go files; the two imports below serve
  all of them.
*/
import opened GoTypes
import opened Strconv

/** The series types (series/series.go:118-128). */
datatype Type = StringType | IntType | UintType | FloatType | BoolType

/** The texts that stand for NaN and for a missing value (series/series.go:130-131). */
const NaNText: string := "NaN"
const NilText: string := ""

/** The dynamic value handed to Set, as a closed set of Go types. Other stands for a
    value of any other Go type and carries the name that %T prints for it. */
datatype Value =
  | Nil
  | Str(s: string)
  | Int(i: int64)
  | Int8(i8: int8)
  | Int16(i16: int16)
  | Int32(i32: int32)
  | Int64(i64: int64)
  | Uint(u: uint64)
  | Uint8(u8: uint8)
  | Uint16(u16: uint16)
  | Uint32(u32: uint32)
  | Uint64(u64: uint64)
  | Float32(f32: Float)
  | Float64(f64: Float)
  | Bool(b: bool)
  | NaNElement
  | Elem(elem: Element)
  | Other(goType: string)

/** What %T prints for a value; used in the "Unsupported type" messages. */
function GoTypeName(v: Value): string {
  match v
  case Nil => "<nil>"
  case Str(_) => "string"
  case Int(_) => "int"
  case Int8(_) => "int8"
  case Int16(_) => "int16"
  case Int32(_) => "int32"
  case Int64(_) => "int64"
  case Uint(_) => "uint"
  case Uint8(_) => "uint8"
  case Uint16(_) => "uint16"
  case Uint32(_) => "uint32"
  case Uint64(_) => "uint64"
  case Float32(_) => "float32"
  case Float64(_) => "float64"
  case Bool(_) => "bool"
  case NaNElement => "series.NaNElement"
  case Elem(x) =>
    (match x
     case IntE(_) => "*series.IntElement"
     case UintE(_) => "*series.uintElement"
     case FloatE(_) => "*series.floatElement"
     case StringE(_) => "*series.stringElement"
     case BoolE(_) => "*series.boolElement")
  case Other(t) => t
}

/** "Unsupported type '%T' conversion to <target>", the error of every Set's default case. */
function Unsupported(v: Value, target: string): Error {
  Errorf("Unsupported type '" + GoTypeName(v) + "' conversion to " + target)
}

const DemotingInf: string := "demoting float Inf to NaN"

/** An element after Set, with the error Set returned. */
datatype Outcome = Outcome(elem: Element, err: Option<Error>)

datatype Element =
  | IntE(ie: IntElement)
  | UintE(ue: UintElement)
  | FloatE(fe: FloatElement)
  | StringE(se: StringElement)
  | BoolE(be: BoolElement)
{
  function Type(): Type {
    match this
    case IntE(_) => IntType
    case UintE(_) => UintType
    case FloatE(_) => FloatType
    case StringE(_) => StringType
    case BoolE(_) => BoolType
  }

  /** A numeric kind: the kinds whose NaN rows Order and Factorize set apart. */
  predicate IsNumeric() {
    IntE? || UintE? || FloatE?
  }

  predicate IsValid() {
    match this
    case IntE(x) => x.IsValid()
    case UintE(x) => x.IsValid()
    case FloatE(x) => x.IsValid()
    case StringE(x) => x.IsValid()
    case BoolE(x) => x.IsValid()
  }

  /** Every kind reports a missing element as NaN (series/series.go:40). */
  predicate IsNaN()
    ensures !IsValid() ==> IsNaN()
  {
    match this
    case IntE(x) => x.IsNaN()
    case UintE(x) => x.IsNaN()
    case FloatE(x) => x.IsNaN()
    case StringE(x) => x.IsNaN()
    case BoolE(x) => x.IsNaN()
  }

  /** math.IsInf on the element; a valid infinite element is never NaN. */
  predicate IsInf(sign: int)
    ensures IsInf(sign) && IsValid() ==> !IsNaN()
  {
    match this
    case IntE(x) => x.IsInf(sign)
    case UintE(x) => x.IsInf(sign)
    case FloatE(x) => x.IsInf(sign)
    case StringE(x) => x.IsInf(sign)
    case BoolE(x) => x.IsInf(sign)
  }

  /** Val: nil exactly for a missing element (series/series.go:56). */
  function Val(): (r: Value)
    ensures r.Nil? <==> !IsValid()
    ensures r.NaNElement? ==> IsNaN()
  {
    match this
    case IntE(x) => x.Val()
    case UintE(x) => x.Val()
    case FloatE(x) => x.Val()
    case StringE(x) => x.Val()
    case BoolE(x) => x.Val()
  }

  /** String never fails on a numeric element, and fails on the others only when missing. */
  function String(): (r: Result<string>)
    ensures r.Ok? <==> IsValid() || IsNumeric()
  {
    match this
    case IntE(x) => x.String()
    case UintE(x) => x.String()
    case FloatE(x) => x.String()
    case StringE(x) => x.String()
    case BoolE(x) => x.String()
  }

  /** An element that yields an int64 is neither missing nor NaN. */
  function Int(): (r: Result<int64>)
    ensures r.Ok? ==> !IsNaN()
  {
    match this
    case IntE(x) => x.Int()
    case UintE(x) => x.Int()
    case FloatE(x) => x.Int()
    case StringE(x) => x.Int()
    case BoolE(x) => x.Int()
  }

  /** An element that yields a uint64 is neither missing nor NaN. */
  function Uint(): (r: Result<uint64>)
    ensures r.Ok? ==> !IsNaN()
  {
    match this
    case IntE(x) => x.Uint()
    case UintE(x) => x.Uint()
    case FloatE(x) => x.Uint()
    case StringE(x) => x.Uint()
    case BoolE(x) => x.Uint()
  }

  /** Float fails only on a missing element, and yields NaN exactly for a NaN one
      (series/series.go:59). */
  function Float(): (r: Result<Float>)
    ensures r.Err? <==> !IsValid()
    ensures r.Ok? ==> (r.value.NaN? <==> IsNaN())
  {
    match this
    case IntE(x) => x.Float()
    case UintE(x) => x.Float()
    case FloatE(x) => x.Float()
    case StringE(x) => x.Float()
    case BoolE(x) => x.Float()
  }

  /** No kind converts a missing element to a boolean. */
  function Bool(): (r: Result<bool>)
    ensures r.Ok? ==> IsValid()
  {
    match this
    case IntE(x) => x.Bool()
    case UintE(x) => x.Bool()
    case FloatE(x) => x.Bool()
    case StringE(x) => x.Bool()
    case BoolE(x) => x.Bool()
  }

  /** Every kind treats two missing elements as equal and a missing one as unequal
      to a present one. */
  predicate Eq(elem: Element)
    ensures !IsValid() && !elem.IsValid() ==> Eq(elem)
    ensures IsValid() != elem.IsValid() ==> !Eq(elem)
  {
    match this
    case IntE(x) => x.Eq(elem)
    case UintE(x) => x.Eq(elem)
    case FloatE(x) => x.Eq(elem)
    case StringE(x) => x.Eq(elem)
    case BoolE(x) => x.Eq(elem)
  }

  /** For every kind, Neq is the negation of Eq. */
  predicate Neq(elem: Element)
    ensures Neq(elem) <==> !Eq(elem)
  {
    match this
    case IntE(x) => x.Neq(elem)
    case UintE(x) => x.Neq(elem)
    case FloatE(x) => x.Neq(elem)
    case StringE(x) => x.Neq(elem)
    case BoolE(x) => x.Neq(elem)
  }

  /** The four orderings hold only between present elements, and a numeric receiver
      never orders against a NaN. */
  predicate Less(elem: Element)
    ensures Less(elem) ==> IsValid() && elem.IsValid()
    ensures Less(elem) && IsNumeric() ==> !IsNaN() && !elem.IsNaN()
  {
    match this
    case IntE(x) => x.Less(elem)
    case UintE(x) => x.Less(elem)
    case FloatE(x) => x.Less(elem)
    case StringE(x) => x.Less(elem)
    case BoolE(x) => x.Less(elem)
  }

  predicate LessEq(elem: Element)
    ensures LessEq(elem) ==> IsValid() && elem.IsValid()
    ensures LessEq(elem) && IsNumeric() ==> !IsNaN() && !elem.IsNaN()
  {
    match this
    case IntE(x) => x.LessEq(elem)
    case UintE(x) => x.LessEq(elem)
    case FloatE(x) => x.LessEq(elem)
    case StringE(x) => x.LessEq(elem)
    case BoolE(x) => x.LessEq(elem)
  }

  predicate Greater(elem: Element)
    ensures Greater(elem) ==> IsValid() && elem.IsValid()
    ensures Greater(elem) && IsNumeric() ==> !IsNaN() && !elem.IsNaN()
  {
    match this
    case IntE(x) => x.Greater(elem)
    case UintE(x) => x.Greater(elem)
    case FloatE(x) => x.Greater(elem)
    case StringE(x) => x.Greater(elem)
    case BoolE(x) => x.Greater(elem)
  }

  predicate GreaterEq(elem: Element)
    ensures GreaterEq(elem) ==> IsValid() && elem.IsValid()
    ensures GreaterEq(elem) && IsNumeric() ==> !IsNaN() && !elem.IsNaN()
  {
    match this
    case IntE(x) => x.GreaterEq(elem)
    case UintE(x) => x.GreaterEq(elem)
    case FloatE(x) => x.GreaterEq(elem)
    case StringE(x) => x.GreaterEq(elem)
    case BoolE(x) => x.GreaterEq(elem)
  }

  /** The effect of Set(value): the element keeps its kind, Set(nil) leaves it missing
      without an error, and an element whose Set failed is missing or NaN. */
  function Coerce(value: Value): (r: Outcome)
    ensures r.elem.Type() == Type()
    ensures value.Nil? ==> !r.elem.IsValid() && r.err.None?
    ensures r.err.Some? ==> r.elem.IsNaN()
  {
    match this
    case IntE(x) => var (y, err) := x.Coerce(value); Outcome(IntE(y), err)
    case UintE(x) => var (y, err) := x.Coerce(value); Outcome(UintE(y), err)
    case FloatE(x) => var (y, err) := x.Coerce(value); Outcome(FloatE(y), err)
    case StringE(x) => var (y, err) := x.Coerce(value); Outcome(StringE(y), err)
    case BoolE(x) => var (y, err) := x.Coerce(value); Outcome(BoolE(y), err)
  }

  /** The element as Set leaves it before it reads its argument (the first lines of every
      kind's Set): marked present, the Int nan flag cleared, the Bool payload false; the
      Uint nan flag and the other payloads stay. */
  function Reset(): (r: Element)
    ensures r.Type() == Type() && r.IsValid()
    ensures IntE? ==> !r.IsNaN()
    ensures BoolE? ==> r.Bool() == Ok(false)
  {
    match this
    case IntE(x) => IntE(IntElement(x.e, true, false))
    case UintE(x) => UintE(UintElement(x.e, true, x.nan))
    case FloatE(x) => FloatE(FloatElement(x.e, true))
    case StringE(x) => StringE(StringElement(x.e, true))
    case BoolE(x) => BoolE(BoolElement(false, true))
  }

  /** Element.Set: the kind's own Set, run on this element. */
  method Set(value: Value) returns (r: Element, err: Option<Error>)
    ensures Outcome(r, err) == Coerce(value)
  {
    match this {
      case IntE(x) => var y; y, err := x.Set(value); r := IntE(y);
      case UintE(x) => var y; y, err := x.Set(value); r := UintE(y);
      case FloatE(x) => var y; y, err := x.Set(value); r := FloatE(y);
      case StringE(x) => var y; y, err := x.Set(value); r := StringE(y);
      case BoolE(x) => var y; y, err := x.Set(value); r := BoolE(y);
    }
  }
}

/** The element a freshly made slice of type t holds (Go's zero value): missing, with a
    zero payload. */
function Zero(t: Type): (r: Element)
  ensures r.Type() == t && !r.IsValid()
{
  match t
  case IntType => IntE(IntElement(0, false, false))
  case UintType => UintE(UintElement(0, false, false))
  case FloatType => FloatE(FloatElement(Finite(0.0), false))
  case StringType => StringE(StringElement("", false))
  case BoolType => BoolE(BoolElement(false, false))
}
