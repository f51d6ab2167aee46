/**
  The values argument of New and NewDefault (series/series.go:161-411) and
  the elements it turns into: one element per item, Set from that item, the
  list padded up to the requested size.
*/

/** The values New accepts, as a closed set of Go types. Slices of narrower integers are
    widened item by item ([]int, []int8, []int16, []int32 and []int64 all reach Set as
    int64; []uint ... []uint64 as uint64; []float32 and []float64 as float64). AnySlice
    stands for any other slice (such as []interface{} or []Element) and Scalar for any
    other single value. */
datatype Values =
  | NoValues
  | Strings(strs: seq<string>)
  | Floats(floats: seq<Float>)
  | Ints(ints: seq<int64>)
  | Uints(uints: seq<uint64>)
  | Bools(bools: seq<bool>)
  | SeriesValues(elems: seq<Element>)
  | AnySlice(items: seq<Value>)
  | Scalar(item: Value)

/** The number of items the values hold. */
function Count(values: Values): nat {
  match values
  case NoValues => 0
  case Strings(v) => |v|
  case Floats(v) => |v|
  case Ints(v) => |v|
  case Uints(v) => |v|
  case Bools(v) => |v|
  case SeriesValues(v) => |v|
  case AnySlice(v) => |v|
  case Scalar(_) => 1
}

/** The value Set receives for item i; a nil item of an untyped slice or a nil scalar
    takes the default value instead. */
function Item(values: Values, defaultValue: Value, i: nat): Value
  requires i < Count(values)
{
  match values
  case Strings(v) => Str(v[i])
  case Floats(v) => Float64(v[i])
  case Ints(v) => Int64(v[i])
  case Uints(v) => Uint64(v[i])
  case Bools(v) => Value.Bool(v[i])
  case SeriesValues(v) => Elem(v[i])
  case AnySlice(v) => if v[i].Nil? then defaultValue else v[i]
  case Scalar(v) => if v.Nil? then defaultValue else v
}

function Max(x: int, y: int): int {
  if x > y then x else y
}

/** The size argument counts only when exactly one is given (series/series.go:175-178). */
function AllocSize(size: seq<int>): int {
  if |size| == 1 then size[0] else -1
}

/** How many elements New makes: the size (at least 0) for nil values, one for a scalar,
    and otherwise the number of items or the size, whichever is larger. */
function Length(values: Values, size: seq<int>): (n: nat)
  ensures values.NoValues? ==> n == Max(AllocSize(size), 0)
  ensures values.Scalar? ==> n == 1
  ensures !values.NoValues? && !values.Scalar? ==> n == Max(Count(values), AllocSize(size))
{
  match values
  case NoValues => Max(AllocSize(size), 0)
  case Scalar(_) => 1
  case _ => Max(Count(values), AllocSize(size))
}

/** The value element i is Set from: the default for nil values, the item where there is
    one, and nil in the padding. */
function Slot(values: Values, defaultValue: Value, i: nat): Value {
  if values.NoValues? then defaultValue
  else if i < Count(values) then Item(values, defaultValue, i)
  else Nil
}

/** The elements of NewDefault(values, defaultValue, t, name, size...): every one starts as
    the zero element of type t and is Set once from its slot; Set's errors are dropped. */
function NewElements(values: Values, defaultValue: Value, t: Type, size: seq<int>): (r: seq<Element>)
  ensures |r| == Length(values, size)
  ensures forall i :: 0 <= i < |r| ==> r[i].Type() == t
  ensures values.NoValues? ==> forall i :: 0 <= i < |r| ==> r[i] == Zero(t).Coerce(defaultValue).elem
  ensures !values.NoValues? ==> forall i :: Count(values) <= i < |r| ==> r[i] == Zero(t)
{
  seq(Length(values, size), i requires 0 <= i < Length(values, size) => Zero(t).Coerce(Slot(values, defaultValue, i)).elem)
}

/** New([]bool, Bool, ...) holds exactly the given booleans, all present. */
lemma BoolsAreKept(bools: seq<bool>)
  ensures NewElements(Bools(bools), Nil, BoolType, []) == PresentBools(bools)
{
  var r := NewElements(Bools(bools), Nil, BoolType, []);
  forall i | 0 <= i < |bools|
    ensures r[i] == PresentBools(bools)[i]
  {
    assert Slot(Bools(bools), Nil, i) == Value.Bool(bools[i]);
  }
}

/** A Bool series holding the given answers, every one present. */
function PresentBools(bools: seq<bool>): (r: seq<Element>)
  ensures |r| == |bools| && forall i :: 0 <= i < |bools| ==> r[i] == BoolE(BoolElement(bools[i], true))
{
  seq(|bools|, i requires 0 <= i < |bools| => BoolE(BoolElement(bools[i], true)))
}

/** New on an empty typed slice without a size makes no elements; in particular
    Append(nil) adds nothing. */
lemma NothingFromNothing(values: Values, defaultValue: Value, t: Type)
  requires values.NoValues? || (!values.Scalar? && Count(values) == 0)
  ensures NewElements(values, defaultValue, t, []) == []
{
}

/** A fresh element Set from an element of its own type behaves as the original: it is
    present, NaN and rendered exactly when the original is, holds the same value, and
    Set reports no error. (The fresh element matters: a Uint element that is already
    NaN stays NaN.) */
lemma {:induction false} SameKindSet(x: Element)
  ensures Zero(x.Type()).Coerce(Elem(x)).err.None?
  ensures Same(Zero(x.Type()).Coerce(Elem(x)).elem, x)
{
  match x
  case IntE(a) =>
  case UintE(a) =>
  case FloatE(a) =>
  case StringE(a) =>
  case BoolE(a) =>
}

/** Two elements that no accessor tells apart except by a stale payload. */
predicate Same(a: Element, b: Element) {
  a.IsValid() == b.IsValid() && a.IsNaN() == b.IsNaN() && a.String() == b.String() && a.Val() == b.Val()
}
