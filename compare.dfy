/**
  Series.Compare (series/series.go:702-784): every row of a series against a
  comparando that has been turned into a series of the same type, in one of
  three modes: membership (In), one comparando broadcast to every row, or
  row by row.
*/

/** A comparator is any text; seven of them are understood (series/series.go:104-116). */
type Comparator = string

const CompEq: Comparator := "=="
const CompNeq: Comparator := "!="
const CompGreater: Comparator := ">"
const CompGreaterEq: Comparator := ">="
const CompLess: Comparator := "<"
const CompLessEq: Comparator := "<="
const CompIn: Comparator := "in"

/** The comparators compareElements dispatches on; In is not one of them. */
predicate Elementwise(c: Comparator) {
  c == CompEq || c == CompNeq || c == CompGreater || c == CompGreaterEq || c == CompLess || c == CompLessEq
}

/** compareElements: one of the six element comparisons, and an error naming any other
    comparator. */
function CompareElements(a: Element, b: Element, c: Comparator): (r: Result<bool>)
  ensures r.Err? <==> !Elementwise(c)
  ensures r.Err? ==> r.error == Errorf("unknown comparator: " + c)
  ensures r == Ok(true) ==> (c == CompLess || c == CompLessEq || c == CompGreater || c == CompGreaterEq) ==> a.IsValid() && b.IsValid()
{
  if c == CompEq then Ok(a.Eq(b))
  else if c == CompNeq then Ok(a.Neq(b))
  else if c == CompGreater then Ok(a.Greater(b))
  else if c == CompGreaterEq then Ok(a.GreaterEq(b))
  else if c == CompLess then Ok(a.Less(b))
  else if c == CompLessEq then Ok(a.LessEq(b))
  else Err(Errorf("unknown comparator: " + c))
}

/** The comparando row that row i meets: the only one when there is one, row i otherwise. */
function Partner(comp: seq<Element>, i: int): int {
  if |comp| == 1 then 0 else i
}

/** Whether a row equals some row of the comparando. */
predicate Member(e: Element, comp: seq<Element>) {
  exists j :: 0 <= j < |comp| && e.Eq(comp[j])
}

/** The comparison of each row with its partner. */
function RowResults(elems: seq<Element>, comp: seq<Element>, c: Comparator): (rs: seq<Result<bool>>)
  requires |comp| == 1 || |comp| == |elems|
  ensures |rs| == |elems|
  ensures forall i :: 0 <= i < |elems| ==> rs[i] == CompareElements(elems[i], comp[Partner(comp, i)], c)
{
  seq(|elems|, i requires 0 <= i < |elems| => CompareElements(elems[i], comp[Partner(comp, i)], c))
}

/** What Compare computes from the rows and the converted comparando: for In, whether
    each row equals some comparando row; for the others, each row against the single
    comparando row or against the row at the same position, failing on a length
    mismatch or, as soon as there is a row to compare, on an unknown comparator. */
function Compared(elems: seq<Element>, comp: seq<Element>, c: Comparator): (r: Result<seq<bool>>)
  ensures r.Err? <==> c != CompIn && ((|comp| != 1 && |comp| != |elems|) || (!Elementwise(c) && |elems| > 0))
  ensures r.Err? ==> r.error == (if |comp| != 1 && |comp| != |elems| then Errorf("can't compare: length mismatch")
                                  else Errorf("unknown comparator: " + c))
  ensures r.Ok? ==> |r.value| == |elems|
  ensures r.Ok? && c == CompIn ==> forall i :: 0 <= i < |elems| ==> (r.value[i] <==> Member(elems[i], comp))
  ensures r.Ok? && c != CompIn ==>
            forall i :: 0 <= i < |elems| ==> CompareElements(elems[i], comp[Partner(comp, i)], c) == Ok(r.value[i])
{
  if c == CompIn then
    Ok(seq(|elems|, i requires 0 <= i < |elems| => Member(elems[i], comp)))
  else if |comp| != 1 && |comp| != |elems| then
    Err(Errorf("can't compare: length mismatch"))
  else
    var r := Collect(RowResults(elems, comp, c));
    assert r.Err? ==> r.error == Errorf("unknown comparator: " + c);
    r
}

/** The loops of Compare over a fresh bool slice, stopping at the first error. */
method CompareRows(elems: seq<Element>, comp: seq<Element>, c: Comparator) returns (r: Result<seq<bool>>)
  ensures r == Compared(elems, comp, c)
{
  var bools := new bool[|elems|];
  if c == CompIn {
    // compareElements(e, m, Eq) cannot fail, so the membership loop only reads Eq.
    for i := 0 to |elems|
      invariant forall k :: 0 <= k < i ==> (bools[k] <==> Member(elems[k], comp))
    {
      var e := elems[i];
      var b := false;
      var j := 0;
      while j < |comp|
        invariant 0 <= j <= |comp|
        invariant forall q :: 0 <= q < j ==> !e.Eq(comp[q])
      {
        if e.Eq(comp[j]) {
          b := true;
          break;
        }
        j := j + 1;
      }
      bools[i] := b;
    }
    r := Ok(bools[..]);
    assert bools[..] == seq(|elems|, i requires 0 <= i < |elems| => Member(elems[i], comp));
    return;
  }
  if |comp| != 1 && |elems| != |comp| {
    r := Err(Errorf("can't compare: length mismatch"));
    return;
  }
  ghost var rs := RowResults(elems, comp, c);
  if |comp| == 1 {
    for i := 0 to |elems|
      invariant forall k :: 0 <= k < i ==> rs[k] == Ok(bools[k])
    {
      var e := elems[i];
      match CompareElements(e, comp[0], c) {
        case Err(err) =>
          CollectFirstError(rs, i);
          r := Err(err);
          return;
        case Ok(b) =>
          bools[i] := b;
      }
    }
  } else {
    for i := 0 to |elems|
      invariant forall k :: 0 <= k < i ==> rs[k] == Ok(bools[k])
    {
      var e := elems[i];
      match CompareElements(e, comp[i], c) {
        case Err(err) =>
          CollectFirstError(rs, i);
          r := Err(err);
          return;
        case Ok(b) =>
          bools[i] := b;
      }
    }
  }
  r := Ok(bools[..]);
  CollectAll(rs, bools[..]);
}

/** "!=" gives exactly the rows "==" does not: both succeed or fail together, and on
    success their answers are complementary. */
lemma {:induction false} NeqIsComplement(elems: seq<Element>, comp: seq<Element>)
  ensures Compared(elems, comp, CompNeq).Ok? <==> Compared(elems, comp, CompEq).Ok?
  ensures Compared(elems, comp, CompNeq).Ok? ==>
            forall i :: 0 <= i < |elems| ==> Compared(elems, comp, CompNeq).value[i] == !Compared(elems, comp, CompEq).value[i]
{
  var (eq, neq) := (Compared(elems, comp, CompEq), Compared(elems, comp, CompNeq));
  if neq.Ok? {
    forall i | 0 <= i < |elems|
      ensures neq.value[i] == !eq.value[i]
    {
      var (e, m) := (elems[i], comp[Partner(comp, i)]);
      assert CompareElements(e, m, CompNeq) == Ok(neq.value[i]);
      assert CompareElements(e, m, CompEq) == Ok(eq.value[i]);
      assert e.Neq(m) <==> !e.Eq(m);
    }
  }
}

/** Membership in a one-row comparando is equality with that row. */
lemma {:induction false} InSingleton(elems: seq<Element>, x: Element)
  ensures Compared(elems, [x], CompIn) == Compared(elems, [x], CompEq)
{
  var (isIn, eq) := (Compared(elems, [x], CompIn), Compared(elems, [x], CompEq));
  assert eq.Ok?;
  forall i | 0 <= i < |elems|
    ensures isIn.value[i] == eq.value[i]
  {
    assert Member(elems[i], [x]) <==> elems[i].Eq(x) by {
      if elems[i].Eq(x) {
        assert elems[i].Eq([x][0]);
      }
    }
    assert CompareElements(elems[i], [x][Partner([x], i)], CompEq) == Ok(eq.value[i]);
  }
  assert isIn.value == eq.value;
}
