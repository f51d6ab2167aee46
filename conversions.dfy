/**
  Whole-series conversions (series/series.go:1188-1236 and 842-856): a loop over
  the elements that calls one accessor per element and gives up on the first
  error. Collect is that loop's result, defined once for every accessor.
*/

/** The results of a per-element conversion, gathered the way Series.Int, Uint, Bool
    and Records (without force) do: the values when every conversion succeeds, and
    otherwise the first error. */
function Collect<T>(rs: seq<Result<T>>): (r: Result<seq<T>>)
  ensures r.Ok? <==> forall i :: 0 <= i < |rs| ==> rs[i].Ok?
  ensures r.Ok? ==> |r.value| == |rs| && forall i :: 0 <= i < |rs| ==> rs[i] == Ok(r.value[i])
  ensures r.Err? ==> exists i :: 0 <= i < |rs| && rs[i] == Err(r.error) && forall j :: 0 <= j < i ==> rs[j].Ok?
{
  if |rs| == 0 then Ok([])
  else
    match rs[0]
    case Err(e) => Err(e)
    case Ok(v) =>
      var rest := Collect(rs[1..]);
      match rest
      case Err(e) => Err(e)
      case Ok(vs) => Ok([v] + vs)
}

/** Two lists of results agree on their first error: whatever Collect would return is
    fixed by the first failing position alone. */
lemma {:induction false} CollectFirstError<T>(rs: seq<Result<T>>, i: int)
  requires 0 <= i < |rs| && rs[i].Err? && forall j :: 0 <= j < i ==> rs[j].Ok?
  ensures Collect(rs) == Err(rs[i].error)
{
  if i > 0 {
    CollectFirstError(rs[1..], i - 1);
  }
}

/** When every result succeeds, Collect gives their values in order. */
lemma CollectAll<T>(rs: seq<Result<T>>, vs: seq<T>)
  requires |vs| == |rs| && forall k :: 0 <= k < |rs| ==> rs[k] == Ok(vs[k])
  ensures Collect(rs) == Ok(vs)
{
  assert Collect(rs).value == vs;
}

/** The loop of Series.Int, Uint and Bool, over the results of the element accessor:
    the values met so far are kept, and the first error is returned at once. */
method CollectScan<T>(rs: seq<Result<T>>) returns (r: Result<seq<T>>)
  ensures r == Collect(rs)
{
  var vals: seq<T> := [];
  for i := 0 to |rs|
    invariant |vals| == i && forall k :: 0 <= k < i ==> rs[k] == Ok(vals[k])
  {
    match rs[i] {
      case Err(err) =>
        CollectFirstError(rs, i);
        return Err(err);
      case Ok(v) =>
        vals := vals + [v];
    }
  }
  CollectAll(rs, vals);
  r := Ok(vals);
}

function IntResults(es: seq<Element>): (r: seq<Result<int64>>)
  ensures |r| == |es| && forall i :: 0 <= i < |es| ==> r[i] == es[i].Int()
{
  seq(|es|, i requires 0 <= i < |es| => es[i].Int())
}

function UintResults(es: seq<Element>): (r: seq<Result<uint64>>)
  ensures |r| == |es| && forall i :: 0 <= i < |es| ==> r[i] == es[i].Uint()
{
  seq(|es|, i requires 0 <= i < |es| => es[i].Uint())
}

function BoolResults(es: seq<Element>): (r: seq<Result<bool>>)
  ensures |r| == |es| && forall i :: 0 <= i < |es| ==> r[i] == es[i].Bool()
{
  seq(|es|, i requires 0 <= i < |es| => es[i].Bool())
}

function StringResults(es: seq<Element>): (r: seq<Result<string>>)
  ensures |r| == |es| && forall i :: 0 <= i < |es| ==> r[i] == es[i].String()
{
  seq(|es|, i requires 0 <= i < |es| => es[i].String())
}

/** Records(true): the text of every element, with "" in place of one whose String fails. */
function ForcedRecords(es: seq<Element>): (r: seq<string>)
  ensures |r| == |es|
  ensures forall i :: 0 <= i < |es| ==> (es[i].String().Ok? ==> r[i] == es[i].String().value)
  ensures forall i :: 0 <= i < |es| ==> (es[i].String().Err? ==> r[i] == NilText)
{
  seq(|es|, i requires 0 <= i < |es| => match es[i].String() case Ok(s) => s case Err(_) => NilText)
}

/** Series.Any: the scan stops at the first present element that is NaN (when NaNs
    count) or whose Bool is true, and fails on the first Bool error before that. */
function AnyOf(es: seq<Element>, skipnan: bool): (r: Result<bool>)
  ensures r == Ok(true) <==> exists i :: 0 <= i < |es| && CountsAsTrue(es[i], skipnan) &&
                                 forall j :: 0 <= j < i ==> !BreaksAny(es[j], skipnan)
  ensures r.Err? <==> exists i :: 0 <= i < |es| && FailsAny(es[i]) && forall j :: 0 <= j < i ==> !BreaksAny(es[j], skipnan)
  ensures r.Err? ==> exists i :: 0 <= i < |es| && FailsAny(es[i]) && es[i].Bool() == Err(r.error) &&
                                 forall j :: 0 <= j < i ==> !BreaksAny(es[j], skipnan)
{
  if |es| == 0 then Ok(false)
  else
    var e := es[0];
    if !e.IsValid() then AnyOf(es[1..], skipnan)
    else if !skipnan && e.IsNaN() then Ok(true)
    else if skipnan && e.IsNaN() then AnyOf(es[1..], skipnan)
    else
      match e.Bool()
      case Err(err) => Err(err)
      case Ok(b) => if b then Ok(true) else AnyOf(es[1..], skipnan)
}

/** The scan of Any from row i on, by what row i is. */
lemma AnyOfFrom(es: seq<Element>, i: nat, skipnan: bool)
  requires i < |es|
  ensures AnyOf(es[i..], skipnan) ==
            if !es[i].IsValid() || (skipnan && es[i].IsNaN()) then AnyOf(es[i + 1..], skipnan)
            else if es[i].IsNaN() then Ok(true)
            else if es[i].Bool().Err? then Err(es[i].Bool().error)
            else if es[i].Bool().value then Ok(true)
            else AnyOf(es[i + 1..], skipnan)
{
  assert es[i..][0] == es[i] && es[i..][1..] == es[i + 1..];
}

/** A present element that makes Any true: a NaN when NaNs are not skipped, or a
    non-NaN one whose Bool is true. */
predicate CountsAsTrue(e: Element, skipnan: bool) {
  e.IsValid() && (if e.IsNaN() then !skipnan else e.Bool() == Ok(true))
}

/** A present, non-NaN element whose Bool fails: Any returns that error if it gets there. */
predicate FailsAny(e: Element) {
  e.IsValid() && !e.IsNaN() && e.Bool().Err?
}

/** An element at which Any's scan stops: it counts as true or its Bool fails. */
predicate BreaksAny(e: Element, skipnan: bool) {
  CountsAsTrue(e, skipnan) || FailsAny(e)
}
