/**
  parseIndexes (series/series.go:989-1043): turning the Indexes argument of
  Subset and Update into a list of row numbers. No bounds check is made here;
  the callers deal with rows outside the series.
*/

/** The index arguments parseIndexes recognises, as a closed set of Go types. A
    Series argument is given by its type, elements and sticky error. */
datatype Indexes =
  | IntList(ints: seq<int>)
  | IntIndex(i: int)
  | Int64List(int64s: seq<int64>)
  | Int64Index(i64: int64)
  | BoolMask(mask: seq<bool>)
  | SeriesIndex(t: Type, elems: seq<Element>, err: Option<Error>)
  | OtherIndex

/** The positions of a mask that are true, in ascending order. */
function TruePositions(mask: seq<bool>): (r: seq<int>)
  ensures forall k :: 0 <= k < |r| ==> 0 <= r[k] < |mask| && mask[r[k]]
  ensures forall i :: 0 <= i < |mask| && mask[i] ==> i in r
  ensures forall k, m :: 0 <= k < m < |r| ==> r[k] < r[m]
{
  if |mask| == 0 then []
  else
    var (init, last) := (mask[..|mask| - 1], |mask| - 1);
    var pre := TruePositions(init);
    assert forall i :: 0 <= i < last ==> init[i] == mask[i];
    pre + (if mask[last] then [last] else [])
}

/** Whether any element of a series is NaN (Series.HasNaN, series/series.go:669-678). */
predicate AnyNaN(elems: seq<Element>) {
  exists k :: 0 <= k < |elems| && elems[k].IsNaN()
}

/** parseIndexes(l, indexes): an int or a list of ints as given, a mask of length l as
    its true positions, and an Int or Bool series through its values, provided it has
    no error and no NaN. */
function ParseIndexes(l: int, indexes: Indexes): (r: Result<seq<int>>)
  decreases if indexes.SeriesIndex? then 1 else 0
  ensures indexes.IntList? ==> r == Ok(indexes.ints)
  ensures indexes.IntIndex? ==> r == Ok([indexes.i])
  ensures indexes.Int64Index? ==> r == Ok([indexes.i64 as int])
  ensures indexes.Int64List? ==>
            r.Ok? && |r.value| == |indexes.int64s| &&
            forall k :: 0 <= k < |r.value| ==> r.value[k] == indexes.int64s[k]
  ensures indexes.BoolMask? ==> (r.Ok? <==> |indexes.mask| == l)
  ensures indexes.BoolMask? && r.Ok? ==> r.value == TruePositions(indexes.mask)
  ensures indexes.SeriesIndex? && r.Ok? ==>
            indexes.err.None? && !AnyNaN(indexes.elems) && indexes.t in {IntType, BoolType}
  ensures indexes.SeriesIndex? && indexes.t == IntType && r.Ok? ==>
            |r.value| == |indexes.elems| &&
            forall k :: 0 <= k < |r.value| ==> indexes.elems[k].Int() == Ok(r.value[k])
  ensures indexes.SeriesIndex? && indexes.t == BoolType && r.Ok? ==>
            |indexes.elems| == l &&
            forall i :: 0 <= i < l ==> (i in r.value <==> indexes.elems[i].Bool() == Ok(true))
  ensures indexes.SeriesIndex? && indexes.t == IntType ==>
            (r.Ok? <==> indexes.err.None? && !AnyNaN(indexes.elems) &&
                        forall k :: 0 <= k < |indexes.elems| ==> indexes.elems[k].Int().Ok?)
  ensures indexes.SeriesIndex? && indexes.t == BoolType ==>
            (r.Ok? <==> indexes.err.None? && !AnyNaN(indexes.elems) && |indexes.elems| == l &&
                        forall k :: 0 <= k < |indexes.elems| ==> indexes.elems[k].Bool().Ok?)
  ensures indexes.OtherIndex? ==> r.Err?
{
  match indexes
  case IntList(ints) => Ok(ints)
  case IntIndex(i) => Ok([i])
  case Int64List(ints) => Ok(seq(|ints|, k requires 0 <= k < |ints| => ints[k] as int))
  case Int64Index(i) => Ok([i as int])
  case BoolMask(mask) =>
    if |mask| != l then Err(Errorf("indexing error: index dimensions mismatch"))
    else Ok(TruePositions(mask))
  case SeriesIndex(t, elems, err) =>
    if err.Some? then Err(Wrapf("indexing error: new values has errors: ", err.value))
    else if AnyNaN(elems) then Err(Errorf("indexing error: indexes contain NaN"))
    else if t == IntType then
      match Collect(IntResults(elems))
      case Err(e) => Err(Wrapf("indexing error: ", e))
      case Ok(ints) => ParseIndexes(l, Int64List(ints))
    else if t == BoolType then
      match Collect(BoolResults(elems))
      case Err(e) => Err(Wrapf("indexing error: ", e))
      case Ok(bools) => ParseIndexes(l, BoolMask(bools))
    else Err(Errorf("indexing error: unknown indexing mode"))
  case OtherIndex => Err(Errorf("indexing error: unknown indexing mode"))
}

/** Every row of a list lies inside a series of length l. */
predicate InRange(rows: seq<int>, l: int) {
  forall k :: 0 <= k < |rows| ==> 0 <= rows[k] < l
}

/** A mask always resolves to rows inside the series, so Subset and Update never see
    an out-of-range row from one. */
lemma MaskRowsInRange(l: int, mask: seq<bool>)
  requires ParseIndexes(l, BoolMask(mask)).Ok?
  ensures InRange(ParseIndexes(l, BoolMask(mask)).value, l)
{
}

/** An Int series used as an index resolves to the same rows as the list of its values:
    the recursion of parseIndexes through Series.Int. */
lemma {:induction false} IntSeriesIndexIsItsValues(l: int, elems: seq<Element>, ints: seq<int64>)
  requires |ints| == |elems| && forall k :: 0 <= k < |elems| ==> elems[k].Int() == Ok(ints[k])
  ensures ParseIndexes(l, SeriesIndex(IntType, elems, None)) == ParseIndexes(l, Int64List(ints))
{
  assert !AnyNaN(elems);
  assert Collect(IntResults(elems)).Ok?;
  assert Collect(IntResults(elems)).value == ints;
}

/** The rows a Subset keeps, in the order the indexes give them. */
function Gather(elems: seq<Element>, rows: seq<int>): (r: seq<Element>)
  requires InRange(rows, |elems|)
  ensures |r| == |rows| && forall k :: 0 <= k < |rows| ==> r[k] == elems[rows[k]]
{
  seq(|rows|, k requires 0 <= k < |rows| => elems[rows[k]])
}
