/**
  Order and OrderUsingIndex (series/series.go:1045-1131): the rows that can be
  ordered, sorted by the elements' Less (or its reverse), followed by the rows
  that cannot, in the order they were met. Go's sort.Sort is modelled by an
  insertion sort; only what sort.Sort promises — a sorted permutation — is
  stated about it.
*/

/** A numeric series type, whose NaN rows go to the end. */
predicate NumericType(t: Type) {
  t == FloatType || t == IntType || t == UintType
}

/** A row that takes part in the sort: present, and not NaN in a numeric series. */
predicate Orderable(e: Element, t: Type) {
  e.IsValid() && !(NumericType(t) && e.IsNaN())
}

/** The sort's comparison on row numbers: Less, or Less with its arguments swapped
    when reverse is set (sort.Reverse). */
predicate Before(elems: seq<Element>, reverse: bool, i: int, j: int)
  requires 0 <= i < |elems| && 0 <= j < |elems|
{
  if reverse then elems[j].Less(elems[i]) else elems[i].Less(elems[j])
}

/** What sort.Sort guarantees: no row is Before one that precedes it. */
predicate SortedRows(elems: seq<Element>, reverse: bool, rows: seq<int>)
  requires InRange(rows, |elems|)
{
  forall p, q :: 0 <= p < q < |rows| ==> !Before(elems, reverse, rows[q], rows[p])
}

/** Every element of a series of type t has kind t. */
predicate OfType(elems: seq<Element>, t: Type) {
  forall i :: 0 <= i < |elems| ==> elems[i].Type() == t
}

/** Less is a strict weak order on the orderable elements of one type: it is asymmetric,
    and "not less" is transitive. sort.Sort needs exactly this to return sorted rows. */
lemma StrictWeakOrder(x: Element, y: Element, z: Element, t: Type)
  requires x.Type() == t && y.Type() == t && z.Type() == t
  requires Orderable(x, t) && Orderable(y, t) && Orderable(z, t)
  ensures x.Less(y) ==> !y.Less(x)
  ensures !x.Less(y) && !y.Less(z) ==> !x.Less(z)
{
  match x
  case StringE(xs) =>
    var (a, b, c) := (xs.e, y.se.e, z.se.e);
    if StrLess(a, b) && StrLess(b, a) {
      StrLessTransitive(a, b, a);
      StrLessIrreflexive(a);
    }
    if !StrLess(a, b) && !StrLess(b, c) && StrLess(a, c) {
      if a == b || b == c {
      } else {
        StrLessTotal(a, b);
        StrLessTotal(b, c);
        StrLessTransitive(c, b, a);
        StrLessTransitive(a, c, a);
        StrLessIrreflexive(a);
      }
    }
  case _ =>
}

/** Which rows of a series take part in the sort. */
function OrderableMask(elems: seq<Element>, t: Type): (keep: seq<bool>)
  ensures |keep| == |elems| && forall i :: 0 <= i < |elems| ==> (keep[i] <==> Orderable(elems[i], t))
{
  seq(|elems|, i requires 0 <= i < |elems| => Orderable(elems[i], t))
}

/** The rows the mask keeps, in the order they are met. */
function Kept(keep: seq<bool>, rows: seq<int>): (r: seq<int>)
  requires InRange(rows, |keep|)
  ensures InRange(r, |keep|) && forall k :: 0 <= k < |r| ==> keep[r[k]]
{
  if |rows| == 0 then []
  else
    var i := rows[|rows| - 1];
    Kept(keep, rows[..|rows| - 1]) + (if keep[i] then [i] else [])
}

/** The rows the mask leaves out, in the order they are met. */
function Dropped(keep: seq<bool>, rows: seq<int>): (r: seq<int>)
  requires InRange(rows, |keep|)
  ensures InRange(r, |keep|) && forall k :: 0 <= k < |r| ==> !keep[r[k]]
{
  if |rows| == 0 then []
  else
    var i := rows[|rows| - 1];
    Dropped(keep, rows[..|rows| - 1]) + (if keep[i] then [] else [i])
}

/** One more row met: it joins the kept or the dropped rows. */
lemma PartitionStep(keep: seq<bool>, rows: seq<int>, j: int)
  requires InRange(rows, |keep|) && 0 <= j < |rows|
  ensures Kept(keep, rows[..j + 1]) == Kept(keep, rows[..j]) + (if keep[rows[j]] then [rows[j]] else [])
  ensures Dropped(keep, rows[..j + 1]) == Dropped(keep, rows[..j]) + (if keep[rows[j]] then [] else [rows[j]])
{
  assert rows[..j + 1][..j] == rows[..j];
}

/** Between them, the kept and the dropped rows are the rows given, counted with
    multiplicity. */
lemma {:induction false} KeptDroppedPermutation(keep: seq<bool>, rows: seq<int>)
  requires InRange(rows, |keep|)
  ensures multiset(Kept(keep, rows)) + multiset(Dropped(keep, rows)) == multiset(rows)
{
  if |rows| > 0 {
    var init, last := rows[..|rows| - 1], rows[|rows| - 1];
    KeptDroppedPermutation(keep, init);
    assert rows == init + [last];
    assert multiset(rows) == multiset(init) + multiset{last};
    if keep[last] {
      assert Kept(keep, rows) == Kept(keep, init) + [last];
      assert Dropped(keep, rows) == Dropped(keep, init);
    } else {
      assert Kept(keep, rows) == Kept(keep, init);
      assert Dropped(keep, rows) == Dropped(keep, init) + [last];
    }
  }
}

/** Every row number in s names a row of elems that takes part in the sort. */
predicate OrderableRows(elems: seq<Element>, t: Type, s: seq<int>) {
  forall k :: 0 <= k < |s| ==> 0 <= s[k] < |elems| && Orderable(elems[s[k]], t)
}

/** The first i rows of s are sorted. */
predicate SortedUpTo(elems: seq<Element>, t: Type, reverse: bool, s: seq<int>, i: int) {
  0 <= i <= |s| && OrderableRows(elems, t, s) &&
  forall p, q :: 0 <= p < q < i ==> !Before(elems, reverse, s[q], s[p])
}

/** Row i is being inserted and has reached position j: rows 0 .. i other than the one
    at j are sorted, and none after j is Before it. */
predicate Inserting(elems: seq<Element>, t: Type, reverse: bool, s: seq<int>, j: int, i: int) {
  0 <= j <= i < |s| && OrderableRows(elems, t, s) &&
  (forall p, q :: 0 <= p < q <= i && p != j && q != j ==> !Before(elems, reverse, s[q], s[p])) &&
  (forall q :: j < q <= i ==> !Before(elems, reverse, s[q], s[j]))
}

/** sort.Sort on the kept rows, as an insertion sort on an array of row numbers. */
method SortRows(a: array<int>, elems: seq<Element>, t: Type, reverse: bool)
  modifies a
  requires OfType(elems, t)
  requires OrderableRows(elems, t, a[..])
  ensures multiset(a[..]) == multiset(old(a[..]))
  ensures OrderableRows(elems, t, a[..])
  ensures SortedRows(elems, reverse, a[..])
{
  if a.Length == 0 {
    return;
  }
  var i := 1;
  while i < a.Length
    invariant 1 <= i <= a.Length
    invariant multiset(a[..]) == multiset(old(a[..]))
    invariant SortedUpTo(elems, t, reverse, a[..], i)
  {
    var j := i;
    while j > 0 && Before(elems, reverse, a[j], a[j - 1])
      invariant multiset(a[..]) == multiset(old(a[..]))
      invariant Inserting(elems, t, reverse, a[..], j, i)
    {
      Swap(a, elems, t, reverse, j, i);
      j := j - 1;
    }
    Settle(elems, t, reverse, a[..], j, i);
    i := i + 1;
  }
}

/** One step of the insertion: the row at j moves below its left neighbour, which it
    is Before. */
method Swap(a: array<int>, elems: seq<Element>, t: Type, reverse: bool, j: int, i: int)
  modifies a
  requires OfType(elems, t)
  requires Inserting(elems, t, reverse, a[..], j, i)
  requires 0 < j && Before(elems, reverse, a[j], a[j - 1])
  ensures multiset(a[..]) == multiset(old(a[..]))
  ensures Inserting(elems, t, reverse, a[..], j - 1, i)
{
  ghost var s := a[..];
  a[j - 1], a[j] := a[j], a[j - 1];
  assert a[..] == s[j - 1 := s[j]][j := s[j - 1]];
  SwapStep(elems, t, reverse, s, j, i);
}

/** The insertion step on the row numbers: with the moved row Before its left
    neighbour, exchanging the two keeps the insertion going one place further left. */
lemma SwapStep(elems: seq<Element>, t: Type, reverse: bool, s: seq<int>, j: int, i: int)
  requires OfType(elems, t)
  requires Inserting(elems, t, reverse, s, j, i)
  requires 0 < j && Before(elems, reverse, s[j], s[j - 1])
  ensures Inserting(elems, t, reverse, s[j - 1 := s[j]][j := s[j - 1]], j - 1, i)
{
  var (x, y) := (s[j], s[j - 1]);
  StrictWeakOrder(elems[x], elems[y], elems[x], t);
  StrictWeakOrder(elems[y], elems[x], elems[y], t);
}

/** The end of an insertion: the moved row is not Before its left neighbour, so by the
    transitivity of "not Before" it is not Before anything further left. */
lemma Settle(elems: seq<Element>, t: Type, reverse: bool, s: seq<int>, j: int, i: int)
  requires OfType(elems, t)
  requires Inserting(elems, t, reverse, s, j, i)
  requires j == 0 || !Before(elems, reverse, s[j], s[j - 1])
  ensures SortedUpTo(elems, t, reverse, s, i + 1)
{
  forall p | 0 <= p < j
    ensures !Before(elems, reverse, s[j], s[p])
  {
    if p < j - 1 {
      var (x, y, z) := (elems[s[j]], elems[s[j - 1]], elems[s[p]]);
      if reverse {
        StrictWeakOrder(z, y, x, t);
      } else {
        StrictWeakOrder(x, y, z, t);
      }
    }
  }
}

/** The first loop of Order: the rows that take part in the sort and the missing or
    NaN rows, each in the order they are met. */
method PartitionRows(elems: seq<Element>, t: Type, rows: seq<int>) returns (ie: seq<int>, nasIdx: seq<int>)
  requires InRange(rows, |elems|)
  ensures ie == Kept(OrderableMask(elems, t), rows)
  ensures nasIdx == Dropped(OrderableMask(elems, t), rows)
{
  var keep := OrderableMask(elems, t);
  ie, nasIdx := [], [];
  for j := 0 to |rows|
    invariant ie == Kept(keep, rows[..j])
    invariant nasIdx == Dropped(keep, rows[..j])
  {
    PartitionStep(keep, rows, j);
    var i := rows[j];
    var e := elems[i];
    if !e.IsValid() {
      nasIdx := nasIdx + [i];
    } else if NumericType(t) && e.IsNaN() {
      nasIdx := nasIdx + [i];
    } else {
      ie := ie + [i];
    }
  }
  assert rows[..|rows|] == rows;
}

/** The kept rows copied into an array and sorted there, as sort.Sort does on the
    slice Order builds. */
method SortedCopy(rows: seq<int>, elems: seq<Element>, t: Type, reverse: bool) returns (sorted: seq<int>)
  requires OfType(elems, t)
  requires OrderableRows(elems, t, rows)
  ensures multiset(sorted) == multiset(rows)
  ensures InRange(sorted, |elems|)
  ensures SortedRows(elems, reverse, sorted)
{
  var a := new int[|rows|](k requires 0 <= k < |rows| => rows[k]);
  assert a[..] == rows;
  SortRows(a, elems, t, reverse);
  sorted := a[..];
}

/** What Order promises of its result r for the rows it was given: r is a permutation
    of them; its prefix holds the rows that take part in the sort, sorted; its suffix
    holds the other rows in the order they were met. */
predicate OrderedRows(elems: seq<Element>, t: Type, reverse: bool, rows: seq<int>, r: seq<int>)
  requires InRange(rows, |elems|)
{
  var keep := OrderableMask(elems, t);
  multiset(r) == multiset(rows) &&
  |Kept(keep, rows)| <= |r| &&
  InRange(r, |elems|) &&
  multiset(r[..|Kept(keep, rows)|]) == multiset(Kept(keep, rows)) &&
  SortedRows(elems, reverse, r[..|Kept(keep, rows)|]) &&
  r[|Kept(keep, rows)|..] == Dropped(keep, rows)
}

/** The rows of an Order call, ordered: the rows that take part in the sort, sorted,
    then the missing and NaN rows as they were met. */
method OrderRows(elems: seq<Element>, t: Type, reverse: bool, rows: seq<int>) returns (r: seq<int>)
  requires OfType(elems, t)
  requires InRange(rows, |elems|)
  ensures OrderedRows(elems, t, reverse, rows, r)
{
  var ie, nasIdx := PartitionRows(elems, t, rows);
  KeptDroppedPermutation(OrderableMask(elems, t), rows);
  var sorted := SortedCopy(ie, elems, t, reverse);
  r := sorted + nasIdx;
  assert r[..|ie|] == sorted && r[|ie|..] == nasIdx;
}

/** The row numbers 0 .. n-1. */
function Range(n: nat): (r: seq<int>)
  ensures |r| == n && forall k :: 0 <= k < n ==> r[k] == k
{
  seq(n, k requires 0 <= k < n => k)
}
