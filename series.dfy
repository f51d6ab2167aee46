/**
  Series (series/series.go:14-27): a named column of elements of one type, with
  a sticky error. Methods with a value receiver in Go return a new Series
  header; in the model they return a fresh Series object that shares the
  element array wherever the Go header shares the slice, so a write through
  Set or Update is seen by every header over the same array.
*/

class Series {
  var Name: string
  var elements: array<Element>
  var t: Type
  /** Never assigned by any constructor of the package, so always nil. */
  var defaultValue: Value
  var Err: Option<Error>

  /** Every element is of the series' type. */
  ghost predicate Valid()
    reads this, elements
  {
    OfType(elements[..], t)
  }

  constructor(name: string, t: Type, elements: array<Element>, defaultValue: Value, err: Option<Error>)
    ensures Name == name && this.t == t && this.elements == elements
    ensures this.defaultValue == defaultValue && Err == err
  {
    Name := name;
    this.t := t;
    this.elements := elements;
    this.defaultValue := defaultValue;
    Err := err;
  }

  function Type(): Type
    reads this
  {
    t
  }

  function Len(): int
    reads this
  {
    elements.Length
  }

  /** Elem(i); Go panics outside the series. */
  function Elem(i: int): Element
    reads this, elements
    requires 0 <= i < elements.Length
  {
    elements[i]
  }

  /** Val(i); Go panics outside the series. */
  function Val(i: int): Value
    reads this, elements
    requires 0 <= i < elements.Length
  {
    elements[i].Val()
  }

  /** The series returned by value: the same fields over the same element array. */
  method Header(err: Option<Error>) returns (r: Series)
    ensures fresh(r)
    ensures r.Name == Name && r.t == t && r.elements == elements && r.defaultValue == defaultValue && r.Err == err
  {
    r := new Series(Name, t, elements, defaultValue, err);
  }

  /** NewDefault(values, defaultValue, t, name, size...): one element per slot, each
      starting as the zero element of type t and Set once from its slot. The default
      value is used for nil slots but is not kept in the series. */
  static method NewDefault(values: Values, defaultValue: Value, t: Type, name: string, size: seq<int>) returns (s: Series)
    ensures fresh(s) && fresh(s.elements)
    ensures s.Name == name && s.t == t && s.defaultValue == Nil && s.Err == None
    ensures s.elements[..] == NewElements(values, defaultValue, t, size)
    ensures s.Valid()
  {
    var allocSize := AllocSize(size);
    var a: array<Element>;
    if values.NoValues? {
      a := SetEach(values, defaultValue, t, Max(allocSize, 0), size);
    } else if values.Scalar? {
      a := SetScalar(values, defaultValue, t, size);
    } else {
      a := SetEach(values, defaultValue, t, Max(Count(values), allocSize), size);
    }
    s := new Series(name, t, a, Nil, None);
  }

  /** New(values, t, name, size...) is NewDefault with a nil default. */
  static method New(values: Values, t: Type, name: string, size: seq<int>) returns (s: Series)
    ensures fresh(s) && fresh(s.elements)
    ensures s.Name == name && s.t == t && s.defaultValue == Nil && s.Err == None
    ensures s.elements[..] == NewElements(values, Nil, t, size)
    ensures s.Valid()
  {
    s := NewDefault(values, Nil, t, name, size);
  }

  /** New(bools, Bool, "") for Compare's answers: every one present. */
  static method BoolSeries(bools: seq<bool>) returns (s: Series)
    ensures fresh(s) && fresh(s.elements)
    ensures s.Name == "" && s.t == BoolType && s.Err == None
    ensures s.elements[..] == PresentBools(bools)
    ensures s.Valid()
  {
    s := New(Values.Bools(bools), BoolType, "", []);
    BoolsAreKept(bools);
  }

  /** Empty: a series with no elements, of the same type and name. */
  method Empty() returns (r: Series)
    ensures fresh(r) && fresh(r.elements)
    ensures r.Name == Name && r.t == t && r.defaultValue == Nil && r.Err == None
    ensures r.elements.Length == 0 && r.Valid()
  {
    r := New(Ints([]), t, Name, []);
  }

  /** Copy: the same name, type, error and elements, in a fresh array; the default value
      is not carried over. */
  method Copy() returns (r: Series)
    ensures fresh(r) && fresh(r.elements)
    ensures r.Name == Name && r.t == t && r.defaultValue == Nil && r.Err == Err
    ensures r.elements[..] == elements[..]
    ensures Valid() ==> r.Valid()
  {
    var ty := t;
    var a := new Element[elements.Length](_ => Zero(ty));
    for i := 0 to elements.Length
      invariant a[..i] == elements[..i]
    {
      a[i] := elements[i];
    }
    r := new Series(Name, t, a, Nil, Err);
  }

  /** Append(values): the new values are made into elements by NewDefault with this
      series' default and type, and the element list grows by them; nothing happens
      when the series has an error. */
  method Append(values: Values)
    modifies this
    ensures Name == old(Name) && t == old(t) && defaultValue == old(defaultValue) && Err == old(Err)
    ensures old(Err).Some? ==> elements == old(elements)
    ensures old(Err).None? ==> fresh(elements)
    ensures elements[..] == old(elements[..]) + (if old(Err).Some? then [] else NewElements(values, old(defaultValue), old(t), []))
    ensures old(Valid()) ==> Valid()
  {
    if Err.Some? {
      return;
    }
    var news := NewDefault(values, defaultValue, t, Name, []);
    elements := Joined(elements, news.elements);
  }

  /** Concat(x): a copy of this series followed by x's elements, each Set into an element
      of this series' type; an error in this series is returned as is, and an error in x
      is reported without merging anything. */
  method Concat(x: Series) returns (r: Series)
    ensures fresh(r)
    ensures Err.Some? ==> r.elements == elements && r.Err == Err
    ensures Err.None? && x.Err.Some? ==>
              r.elements == elements && r.Err == Some(Wrapf("concat error: argument has errors: ", x.Err.value))
    ensures Err.None? && x.Err.None? ==>
              fresh(r.elements) && r.Err == None &&
              r.elements[..] == elements[..] + NewElements(SeriesValues(x.elements[..]), Nil, t, [])
    ensures r.Name == Name && r.t == t
    ensures Valid() ==> r.Valid()
  {
    if Err.Some? {
      r := Header(Err);
      return;
    }
    if x.Err.Some? {
      r := Header(Some(Wrapf("concat error: argument has errors: ", x.Err.value)));
      return;
    }
    r := Copy();
    r.Append(SeriesValues(x.elements[..]));
  }

  /** Subset(indexes): the rows the indexes resolve to, in that order, in a fresh array
      of the same type and name; an error in this series or in resolving the indexes is
      returned on a header over the same elements. Go panics on a resolved row outside
      the series. */
  method Subset(indexes: Indexes) returns (r: Series)
    requires Err.None? && ParseIndexes(elements.Length, indexes).Ok? ==>
               InRange(ParseIndexes(elements.Length, indexes).value, elements.Length)
    ensures fresh(r)
    ensures r.Name == Name && r.t == t
    ensures Err.Some? ==> r.elements == elements && r.Err == Err
    ensures Err.None? && ParseIndexes(elements.Length, indexes).Err? ==>
              r.elements == elements && r.Err == Some(ParseIndexes(elements.Length, indexes).error)
    ensures Err.None? && ParseIndexes(elements.Length, indexes).Ok? ==>
              fresh(r.elements) && r.Err == None && r.defaultValue == Nil &&
              r.elements[..] == Gather(elements[..], ParseIndexes(elements.Length, indexes).value)
    ensures Valid() ==> r.Valid()
  {
    if Err.Some? {
      r := Header(Err);
      return;
    }
    var parsed := ParseIndexes(elements.Length, indexes);
    if parsed.Err? {
      r := Header(Some(parsed.error));
      return;
    }
    var a := Gathered(elements, parsed.value);
    r := new Series(Name, t, a, Nil, None);
  }

  /** Set(index, value): the element at index is Set from the value, or from the default
      value when the value is nil, in the storage this series shares; nothing happens
      when the series has an error. Go panics on an index outside the series. */
  method Set(index: int, value: Value) returns (r: Series)
    requires Err.Some? || 0 <= index < elements.Length
    modifies elements
    ensures fresh(r)
    ensures r.Name == Name && r.t == t && r.elements == elements && r.defaultValue == defaultValue && r.Err == Err
    ensures Err.Some? ==> elements[..] == old(elements[..])
    ensures Err.None? ==>
              elements[..] == old(elements[..])[index := old(elements[index]).Coerce(if value.Nil? then defaultValue else value).elem]
    ensures old(Valid()) ==> Valid() && r.Valid()
  {
    if Err.Some? {
      r := Header(Err);
      return;
    }
    var e, _ := elements[index].Set(if value.Nil? then defaultValue else value);
    elements[index] := e;
    r := Header(Err);
  }

  /** Update(indexes, newvalues): element idx[k] is Set from element k of newvalues, in
      the storage this series shares, until a row outside the series stops the loop with
      an error; the rows written before it stay written. An error in either series, in
      resolving the indexes or a count of rows different from newvalues' length changes
      nothing. When newvalues shares this series' storage, each step reads the element as
      the earlier steps left it. */
  method Update(indexes: Indexes, newvalues: Series) returns (r: Series)
    modifies elements
    ensures fresh(r)
    ensures r.Name == Name && r.t == t && r.elements == elements && r.defaultValue == defaultValue
    ensures var parsed := ParseIndexes(elements.Length, indexes);
            if Err.Some? then r.Err == Err && elements[..] == old(elements[..])
            else if newvalues.Err.Some? then
              r.Err == Some(Wrapf("set error: argument has errors: ", newvalues.Err.value)) && elements[..] == old(elements[..])
            else if parsed.Err? then r.Err == Some(parsed.error) && elements[..] == old(elements[..])
            else if |parsed.value| != newvalues.elements.Length then
              r.Err == Some(Errorf("set error: dimensions mismatch")) && elements[..] == old(elements[..])
            else
              var stop := FirstOutOfRange(parsed.value, elements.Length);
              r.Err == (if stop < |parsed.value| then Some(Errorf("set error: index out of range")) else None) &&
              elements[..] == Updated(old(elements[..]), parsed.value, old(newvalues.elements[..]), newvalues.elements == elements, stop)
    ensures old(Valid()) ==> Valid() && r.Valid()
  {
    ghost var before, from := elements[..], newvalues.elements[..];
    if Err.Some? {
      r := Header(Err);
      return;
    }
    if newvalues.Err.Some? {
      r := Header(Some(Wrapf("set error: argument has errors: ", newvalues.Err.value)));
      return;
    }
    var parsed := ParseIndexes(elements.Length, indexes);
    if parsed.Err? {
      r := Header(Some(parsed.error));
      return;
    }
    var idx := parsed.value;
    if |idx| != newvalues.elements.Length {
      r := Header(Some(Errorf("set error: dimensions mismatch")));
      return;
    }
    var stop := UpdateRows(elements, idx, newvalues.elements);
    if OfType(before, t) {
      UpdatedKeepsType(before, idx, from, newvalues.elements == elements, stop, t);
    }
    if stop < |idx| {
      r := Header(Some(Errorf("set error: index out of range")));
    } else {
      r := Header(None);
    }
  }

  /** HasInvalid: whether some element is missing. */
  method HasInvalid() returns (b: bool)
    ensures b <==> exists i :: 0 <= i < elements.Length && !elements[i].IsValid()
  {
    for i := 0 to elements.Length
      invariant forall k :: 0 <= k < i ==> elements[k].IsValid()
    {
      if !elements[i].IsValid() {
        return true;
      }
    }
    return false;
  }

  /** HasNaN: whether some element is NaN, missing ones included. */
  method HasNaN() returns (b: bool)
    ensures b == AnyNaN(elements[..])
  {
    for i := 0 to elements.Length
      invariant forall k :: 0 <= k < i ==> !elements[k].IsNaN()
    {
      if elements[i].IsNaN() {
        return true;
      }
    }
    return false;
  }

  /** IsNaN: the NaN flag of every element, in order. */
  method IsNaN() returns (r: seq<bool>)
    ensures |r| == elements.Length && forall i :: 0 <= i < |r| ==> (r[i] <==> elements[i].IsNaN())
  {
    var ret := new bool[elements.Length];
    for i := 0 to elements.Length
      invariant forall k :: 0 <= k < i ==> (ret[k] <==> elements[k].IsNaN())
    {
      ret[i] := elements[i].IsNaN();
    }
    r := ret[..];
  }

  /** IsValid: the presence flag of every element, in order. */
  method IsValid() returns (r: seq<bool>)
    ensures |r| == elements.Length && forall i :: 0 <= i < |r| ==> (r[i] <==> elements[i].IsValid())
  {
    var ret := new bool[elements.Length];
    for i := 0 to elements.Length
      invariant forall k :: 0 <= k < i ==> (ret[k] <==> elements[k].IsValid())
    {
      ret[i] := elements[i].IsValid();
    }
    r := ret[..];
  }

  /** Records(force): the text of every element; without force the first element whose
      String fails makes the whole call fail with that error, with force it reads "". */
  method Records(force: bool) returns (r: Result<seq<string>>)
    ensures force ==> r == Ok(ForcedRecords(elements[..]))
    ensures !force ==> r == Collect(StringResults(elements[..]))
  {
    ghost var rs := StringResults(elements[..]);
    var ret := new string[elements.Length];
    for i := 0 to elements.Length
      invariant force ==> ret[..i] == ForcedRecords(elements[..])[..i]
      invariant !force ==> forall k :: 0 <= k < i ==> rs[k] == Ok(ret[k])
    {
      match elements[i].String() {
        case Err(err) =>
          if !force {
            CollectFirstError(rs, i);
            return Result.Err(err);
          }
          ret[i] := NilText;
        case Ok(val) =>
          ret[i] := val;
      }
    }
    assert ret[..elements.Length] == ret[..];
    r := Ok(ret[..]);
    if force {
      assert ForcedRecords(elements[..])[..elements.Length] == ForcedRecords(elements[..]);
    } else {
      CollectAll(rs, ret[..]);
    }
  }

  /** Any(skipnan): whether some present element counts as true, reading NaNs as true
      unless they are skipped, and failing on the first Bool error before one is found. */
  method Any(skipnan: bool) returns (r: Result<bool>)
    ensures r == AnyOf(elements[..], skipnan)
  {
    for i := 0 to elements.Length
      invariant AnyOf(elements[..], skipnan) == AnyOf(elements[i..], skipnan)
    {
      AnyOfFrom(elements[..], i, skipnan);
      var e := elements[i];
      if !e.IsValid() {
        continue;
      }
      if !skipnan && e.IsNaN() {
        return Ok(true);
      } else if skipnan && e.IsNaN() {
        continue;
      } else {
        match e.Bool() {
          case Err(err) => return Result.Err(err);
          case Ok(v) =>
            if v {
              return Ok(true);
            }
        }
      }
    }
    r := Ok(false);
  }

  /** Int: every element as an int64, or the first error. */
  method Int() returns (r: Result<seq<int64>>)
    ensures r == Collect(IntResults(elements[..]))
  {
    r := CollectScan(IntResults(elements[..]));
  }

  /** Uint: every element as a uint64, or the first error. */
  method Uint() returns (r: Result<seq<uint64>>)
    ensures r == Collect(UintResults(elements[..]))
  {
    r := CollectScan(UintResults(elements[..]));
  }

  /** Bool: every element as a bool, or the first error. */
  method Bool() returns (r: Result<seq<bool>>)
    ensures r == Collect(BoolResults(elements[..]))
  {
    r := CollectScan(BoolResults(elements[..]));
  }

  /** Order(reverse): the row numbers, the orderable rows first sorted by Less (or by
      Less reversed), then the missing rows, and in a numeric series the NaN rows, in
      their own order. */
  method Order(reverse: bool) returns (r: seq<int>)
    requires Valid()
    ensures OrderedRows(elements[..], t, reverse, Range(elements.Length), r)
  {
    r := OrderRows(elements[..], t, reverse, Range(elements.Length));
  }

  /** OrderUsingIndex(reverse, origIdx): Order over the given rows, cut to the length of
      the series; no rows given is Order itself. Go panics on a given row outside the
      series. */
  method OrderUsingIndex(reverse: bool, origIdx: seq<int>) returns (r: seq<int>)
    requires Valid()
    requires InRange(origIdx[..Min(|origIdx|, elements.Length)], elements.Length)
    ensures |origIdx| == 0 ==> OrderedRows(elements[..], t, reverse, Range(elements.Length), r)
    ensures |origIdx| > 0 ==> OrderedRows(elements[..], t, reverse, origIdx[..Min(|origIdx|, elements.Length)], r)
  {
    if |origIdx| == 0 {
      r := Order(reverse);
      return;
    }
    var slen := |origIdx|;
    if slen >= elements.Length {
      slen := elements.Length;
    }
    r := OrderRows(elements[..], t, reverse, origIdx[..slen]);
  }

  /** Map(f): a new series of the same type and name made from f of every element. */
  method Map(f: Element -> Element) returns (r: Series)
    ensures fresh(r) && fresh(r.elements)
    ensures r.Name == Name && r.t == t && r.Err == None
    ensures r.elements[..] == NewElements(AnySlice(Mapped(elements[..], f)), Nil, t, [])
    ensures r.Valid()
  {
    var mappedValues := new Value[elements.Length];
    for i := 0 to elements.Length
      invariant forall k :: 0 <= k < i ==> mappedValues[k] == Value.Elem(f(elements[k]))
    {
      mappedValues[i] := Value.Elem(f(elements[i]));
    }
    assert mappedValues[..] == Mapped(elements[..], f);
    r := New(AnySlice(mappedValues[..]), t, Name, []);
  }

  /** Compare(comparator, comparando): the comparando is made into elements of this
      series' type; on success the answers form an unnamed Bool series of present
      elements, and on failure an empty series of this name and type carries the error. */
  method Compare(comparator: Comparator, comparando: Values) returns (r: Series)
    ensures fresh(r)
    ensures Err.Some? ==> r.elements == elements && r.Name == Name && r.t == t && r.Err == Err
    ensures Err.None? ==>
              var res := Compared(elements[..], NewElements(comparando, Nil, t, []), comparator);
              (res.Ok? ==> r.Name == "" && r.t == BoolType && r.Err == None &&
                           r.elements[..] == PresentBools(res.value)) &&
              (res.Err? ==> r.Name == Name && r.t == t && r.elements.Length == 0 && r.Err == Some(res.error))
    ensures Err.None? || Valid() ==> r.Valid()
  {
    if Err.Some? {
      r := Header(Err);
      return;
    }
    var comp := New(comparando, t, "", []);
    var res := CompareRows(elements[..], comp.elements[..], comparator);
    match res {
      case Ok(bools) =>
        r := BoolSeries(bools);
      case Err(err) =>
        r := Empty();
        r.Err := Some(err);
    }
  }

  /** Factorize(sort): the codes as an Int series named "codes" and the unique values as a
      series of this type named "uniques", read off the numbering of the rows visited
      (once in Order(false) sequence first when sort is set, then in their own order);
      an error in the series gives two empty series carrying it. */
  method Factorize(sort: bool) returns (codes: Series, uniques: Series, ghost order: seq<int>)
    requires Valid() && 2 * elements.Length < TwoTo63
    ensures fresh(codes) && fresh(uniques)
    ensures codes.Name == "codes" && codes.t == IntType && uniques.Name == "uniques" && uniques.t == t
    ensures Err.Some? ==>
              codes.Err == Err && uniques.Err == Err && codes.elements.Length == 0 && uniques.elements.Length == 0
    ensures Err.None? ==>
              codes.Err == None && uniques.Err == None &&
              (sort ==> OrderedRows(elements[..], t, false, Range(elements.Length), order)) &&
              (!sort ==> order == []) &&
              InRange(order, elements.Length) && |order| <= elements.Length &&
              var (pre, rows) := (Rows(Gather(elements[..], order)), Rows(elements[..]));
              CodesDefinedFor(pre, rows) &&
              codes.elements[..] == NewElements(Ints(GoCodes(pre, rows)), Nil, IntType, []) &&
              uniques.elements[..] == NewElements(AnySlice(Scan(pre + rows).uniques), Nil, t, [])
  {
    order := [];
    if Err.Some? {
      codes := New(Ints([]), IntType, "codes", []);
      codes.Err := Err;
      uniques := New(AnySlice([]), t, "uniques", []);
      uniques.Err := Err;
      return;
    }
    var cs, us;
    cs, us, order := FactorizeRows(elements[..], t, sort);
    CodesFit(Rows(Gather(elements[..], order)), Rows(elements[..]));
    codes := New(Ints(AsInt64s(cs)), IntType, "codes", []);
    uniques := New(AnySlice(us), t, "uniques", []);
  }
}

function Min(x: int, y: int): int {
  if x < y then x else y
}

/** The values Map passes to New: f of every element. */
function Mapped(elems: seq<Element>, f: Element -> Element): (r: seq<Value>)
  ensures |r| == |elems| && forall i :: 0 <= i < |elems| ==> r[i] == Elem(f(elems[i]))
{
  seq(|elems|, i requires 0 <= i < |elems| => Elem(f(elems[i])))
}

/** The codes of the rows visited after pre, as the Go ints Factorize hands to
    New([]int). */
function GoCodes(pre: seq<Row>, rows: seq<Row>): (r: seq<int64>)
  requires |pre| <= |rows| && 2 * |rows| < TwoTo63
  ensures CodesDefinedFor(pre, rows)
  ensures |r| == |rows| && forall i :: 0 <= i < |rows| ==> r[i] as int == CodesOf(rows, Scan(pre + rows))[i]
{
  CodesFit(pre, rows);
  AsInt64s(CodesOf(rows, Scan(pre + rows)))
}

/** Go ints that fit in an int64, as int64s. */
function AsInt64s(cs: seq<int>): (r: seq<int64>)
  requires forall i :: 0 <= i < |cs| ==> -TwoTo63 <= cs[i] < TwoTo63
  ensures |r| == |cs| && forall i :: 0 <= i < |cs| ==> r[i] as int == cs[i]
{
  seq(|cs|, i requires 0 <= i < |cs| => cs[i] as int64)
}

/** The rows Update writes before the first row outside a series of length l stops it:
    all of them when there is none. */
function FirstOutOfRange(idx: seq<int>, l: int): (n: nat)
  ensures n <= |idx| && InRange(idx[..n], l)
  ensures n < |idx| ==> !(0 <= idx[n] < l)
{
  if |idx| == 0 then 0
  else if !(0 <= idx[0] < l) then 0
  else
    var n := 1 + FirstOutOfRange(idx[1..], l);
    assert idx[..n] == [idx[0]] + idx[1..][..n - 1];
    n
}

/** What Set leaves in element e when it is Set from element x. */
function SetElem(e: Element, x: Element): Element {
  e.Coerce(Elem(x)).elem
}

/** The elements after the first n steps of Update's loop: step k Sets element idx[k]
    from element k of the new values. When they share the series' storage, element k is
    read as the earlier steps left it, and at a row idx[k] == k it is the receiver itself,
    read after Set has reset it. */
function Updated(elems: seq<Element>, idx: seq<int>, src: seq<Element>, aliased: bool, n: nat): (r: seq<Element>)
  requires n <= |idx| == |src| && InRange(idx[..n], |elems|)
  requires aliased ==> |src| == |elems|
  ensures |r| == |elems|
  ensures forall j :: 0 <= j < |elems| && j !in idx[..n] ==> r[j] == elems[j]
{
  Steps(SetElem, elems, idx, src, aliased, n)
}

/** The same loop for any function write that gives an element written from another:
    Updated is Steps with Set's. */
function Steps(write: (Element, Element) -> Element, elems: seq<Element>, idx: seq<int>, src: seq<Element>,
               aliased: bool, n: nat): (r: seq<Element>)
  requires n <= |idx| == |src| && InRange(idx[..n], |elems|)
  requires aliased ==> |src| == |elems|
  ensures |r| == |elems|
  ensures forall j :: 0 <= j < |elems| && j !in idx[..n] ==> r[j] == elems[j]
{
  if n == 0 then elems
  else
    assert idx[..n - 1] == idx[..n][..n - 1];
    var cur := Steps(write, elems, idx, src, aliased, n - 1);
    var i := idx[..n][n - 1];
    var v := if !aliased then src[n - 1] else if i == n - 1 then cur[i].Reset() else cur[n - 1];
    cur[i := write(cur[i], v)]
}

/** Each step of Update's loop Sets an element, which keeps its kind, so the rows stay of
    the series' type. */
lemma {:induction false} UpdatedKeepsType(elems: seq<Element>, idx: seq<int>, src: seq<Element>, aliased: bool, n: nat, t: Type)
  requires n <= |idx| == |src| && InRange(idx[..n], |elems|)
  requires aliased ==> |src| == |elems|
  requires OfType(elems, t)
  ensures OfType(Updated(elems, idx, src, aliased, n), t)
{
  if n > 0 {
    assert idx[..n - 1] == idx[..n][..n - 1];
    UpdatedKeepsType(elems, idx, src, aliased, n - 1, t);
  }
}

/** The loop of Update over the storage a: element idx[k] is Set from src[k] until a row
    outside a stops it; returns the number of rows written. */
method UpdateRows(a: array<Element>, idx: seq<int>, src: array<Element>) returns (stop: nat)
  requires |idx| == src.Length
  modifies a
  ensures stop == FirstOutOfRange(idx, a.Length)
  ensures a[..] == Updated(old(a[..]), idx, old(src[..]), src == a, stop)
{
  ghost var (before, from, aliased) := (a[..], src[..], src == a);
  for k := 0 to |idx|
    invariant InRange(idx[..k], a.Length)
    invariant a[..] == Updated(before, idx, from, aliased, k)
    invariant !aliased ==> src[..] == from
  {
    var i := idx[k];
    if i < 0 || i >= a.Length {
      return k;
    }
    UpdateStep(a, idx, src, k, before, from, aliased);
  }
  assert idx[..|idx|] == idx;
  return |idx|;
}

/** One step of Update's loop, at a row inside the storage. */
method UpdateStep(a: array<Element>, idx: seq<int>, src: array<Element>, k: nat,
                  ghost before: seq<Element>, ghost from: seq<Element>, ghost aliased: bool)
  requires k < |idx| == src.Length == |from| && |before| == a.Length
  requires InRange(idx[..k], a.Length) && 0 <= idx[k] < a.Length
  requires aliased <==> src == a
  requires aliased ==> |from| == |before|
  requires a[..] == Updated(before, idx, from, aliased, k)
  requires !aliased ==> src[..] == from
  modifies a
  ensures InRange(idx[..k + 1], a.Length)
  ensures a[..] == Updated(before, idx, from, aliased, k + 1)
{
  assert idx[..k + 1] == idx[..k] + [idx[k]];
  ghost var cur := a[..];
  if src == a && idx[k] == k {
    SetSelf(a, k);
  } else {
    ghost var v := if aliased then cur[k] else from[k];
    assert src[k] == v;
    SetFrom(a, idx[k], src[k]);
  }
}

/** s.elements.Elem(i).Set(s.elements.Elem(i)): the argument is the receiver itself, so
    Set reads it after resetting it. */
method SetSelf(a: array<Element>, i: int)
  requires 0 <= i < a.Length
  modifies a
  ensures a[..] == old(a[..])[i := old(a[i]).Coerce(Elem(old(a[i]).Reset())).elem]
{
  var e, _ := a[i].Set(Elem(a[i].Reset()));
  a[i] := e;
}

/** s.elements.Elem(i).Set(x) for an element x: the element at i is Set in place. */
method SetFrom(a: array<Element>, i: int, x: Element)
  requires 0 <= i < a.Length
  modifies a
  ensures a[..] == old(a[..])[i := old(a[i]).Coerce(Elem(x)).elem]
{
  SetAt(a, i, Elem(x));
}

/** The loops of NewDefault: n zero elements of type t, element i Set from the default
    value when there are no values, from item i where there is one, and from nil in the
    padding. */
method SetEach(values: Values, defaultValue: Value, t: Type, n: nat, ghost size: seq<int>) returns (a: array<Element>)
  requires !values.Scalar? && n == Length(values, size)
  ensures fresh(a)
  ensures a[..] == NewElements(values, defaultValue, t, size)
{
  ghost var target := NewElements(values, defaultValue, t, size);
  a := new Element[n](_ => Zero(t));
  var l := Count(values);
  for i := 0 to n
    invariant a[..i] == target[..i]
    invariant forall k :: i <= k < n ==> a[k] == Zero(t)
  {
    if values.NoValues? {
      SetAt(a, i, defaultValue);
    } else if i < l {
      SetAt(a, i, Item(values, defaultValue, i));
    } else {
      SetAt(a, i, Nil);
    }
    assert a[..i + 1] == target[..i] + [target[i]];
  }
}

/** s.elements.Elem(i).Set(v): the element at i is Set in place, its error dropped. */
method SetAt(a: array<Element>, i: int, v: Value)
  requires 0 <= i < a.Length
  modifies a
  ensures a[..] == old(a[..])[i := old(a[i]).Coerce(v).elem]
{
  var e, _ := a[i].Set(v);
  a[i] := e;
}

/** The scalar branch of NewDefault: one element, Set from the value or, when it is nil,
    from the default value. */
method SetScalar(values: Values, defaultValue: Value, t: Type, ghost size: seq<int>) returns (a: array<Element>)
  requires values.Scalar?
  ensures fresh(a)
  ensures a[..] == NewElements(values, defaultValue, t, size)
{
  a := new Element[1](_ => Zero(t));
  var val := values.item;
  if val.Nil? {
    SetAt(a, 0, defaultValue);
  } else {
    SetAt(a, 0, val);
  }
  ScalarElements(values, defaultValue, t, size);
}

/** A scalar makes one element, Set from the scalar or, when it is nil, from the default
    value. */
lemma ScalarElements(values: Values, defaultValue: Value, t: Type, size: seq<int>)
  requires values.Scalar?
  ensures NewElements(values, defaultValue, t, size) ==
            [Zero(t).Coerce(if values.item.Nil? then defaultValue else values.item).elem]
{
  var r := NewElements(values, defaultValue, t, size);
  assert |r| == 1 && Slot(values, defaultValue, 0) == (if values.item.Nil? then defaultValue else values.item);
}

/** The loop of Subset: element idx[k] of a copied to position k of a fresh array. */
method Gathered(a: array<Element>, idx: seq<int>) returns (c: array<Element>)
  requires InRange(idx, a.Length)
  ensures fresh(c)
  ensures c[..] == Gather(a[..], idx)
{
  c := new Element[|idx|](_ => Zero(IntType));
  for k := 0 to |idx|
    invariant forall q :: 0 <= q < k ==> c[q] == a[idx[q]]
  {
    c[k] := a[idx[k]];
  }
}

/** The elements of a followed by those of b, in a fresh array (Go's append into a new
    backing array). */
method Joined(a: array<Element>, b: array<Element>) returns (c: array<Element>)
  ensures fresh(c)
  ensures c[..] == a[..] + b[..]
{
  c := new Element[a.Length + b.Length](_ => Zero(IntType));
  for i := 0 to a.Length
    invariant c[..i] == a[..i]
  {
    c[i] := a[i];
  }
  for j := 0 to b.Length
    invariant c[..a.Length] == a[..]
    invariant c[a.Length..a.Length + j] == b[..j]
  {
    c[a.Length + j] := b[j];
  }
  assert c[..] == c[..a.Length] + c[a.Length..];
}

/** Without shared storage, a row no step names keeps its element. */
lemma {:induction false} StepsKept(write: (Element, Element) -> Element, elems: seq<Element>, idx: seq<int>,
                                   src: seq<Element>, n: nat, i: int)
  requires n <= |idx| == |src| && InRange(idx[..n], |elems|)
  requires 0 <= i < |elems| && i !in idx[..n]
  ensures Steps(write, elems, idx, src, false, n)[i] == elems[i]
{
  if n > 0 {
    assert idx[..n - 1] == idx[..n][..n - 1];
    assert idx[..n][n - 1] != i;
    StepsKept(write, elems, idx, src, n - 1, i);
  }
}

/** Without shared storage and with no row named twice, step k's row holds its original
    element written from new value k. */
lemma {:induction false} StepsWritten(write: (Element, Element) -> Element, elems: seq<Element>, idx: seq<int>,
                                      src: seq<Element>, n: nat, k: nat)
  requires n <= |idx| == |src| && InRange(idx[..n], |elems|)
  requires forall p, q :: 0 <= p < q < n ==> idx[p] != idx[q]
  requires k < n
  ensures Steps(write, elems, idx, src, false, n)[idx[k]] == write(elems[idx[k]], src[k])
{
  assert idx[..n - 1] == idx[..n][..n - 1];
  assert idx[..n][n - 1] == idx[n - 1] && idx[..n][k] == idx[k];
  if k == n - 1 {
    assert idx[k] !in idx[..n - 1];
    StepsKept(write, elems, idx, src, n - 1, idx[k]);
  } else {
    StepsWritten(write, elems, idx, src, n - 1, k);
  }
}

/** Without shared storage and with no row named twice, the loop writes each named row
    from its new value and leaves every other row as it was; with Set's write, this is
    what Update does. */
lemma UpdatedDistinct(write: (Element, Element) -> Element, elems: seq<Element>, idx: seq<int>,
                      src: seq<Element>, n: nat)
  requires n <= |idx| == |src| && InRange(idx[..n], |elems|)
  requires forall p, q :: 0 <= p < q < n ==> idx[p] != idx[q]
  ensures forall k :: 0 <= k < n ==> Steps(write, elems, idx, src, false, n)[idx[k]] == write(elems[idx[k]], src[k])
  ensures forall i :: 0 <= i < |elems| && i !in idx[..n] ==> Steps(write, elems, idx, src, false, n)[i] == elems[i]
{
  forall k | 0 <= k < n
    ensures Steps(write, elems, idx, src, false, n)[idx[k]] == write(elems[idx[k]], src[k])
  {
    StepsWritten(write, elems, idx, src, n, k);
  }
  forall i | 0 <= i < |elems| && i !in idx[..n]
    ensures Steps(write, elems, idx, src, false, n)[i] == elems[i]
  {
    StepsKept(write, elems, idx, src, n, i);
  }
}

/** s.Update([]int{0}, s) on a one-row series: the row is Set from itself, so it ends as
    the state Set resets it to; a true Bool row becomes false. */
lemma {:induction false} UpdateFromItself(x: Element)
  ensures Updated([x], [0], [x], true, 1) == [x.Reset()]
  ensures x == BoolE(BoolElement(true, true)) ==> Updated([x], [0], [x], true, 1) == [BoolE(BoolElement(false, true))]
{
  assert [0][..0] == [] && [0][..1] == [0];
  assert Steps(SetElem, [x], [0], [x], true, 0) == [x];
  assert Updated([x], [0], [x], true, 1) == [x][0 := SetElem(x, x.Reset())];
  SelfSetIsReset(x);
}

/** A series of type t made from the elements of another series of type t holds, row by
    row, elements no accessor tells apart from the originals; so Concat of two series of
    one type keeps the values of both. */
lemma ConcatKeepsValues(xs: seq<Element>, t: Type)
  requires OfType(xs, t)
  ensures |NewElements(SeriesValues(xs), Nil, t, [])| == |xs|
  ensures forall i :: 0 <= i < |xs| ==> Same(NewElements(SeriesValues(xs), Nil, t, [])[i], xs[i])
{
  forall i | 0 <= i < |xs|
    ensures Same(NewElements(SeriesValues(xs), Nil, t, [])[i], xs[i])
  {
    SameKindSet(xs[i]);
  }
}

/** Mapping the identity over a series keeps its values. */
lemma MapIdentity(elems: seq<Element>, t: Type)
  requires OfType(elems, t)
  ensures |NewElements(AnySlice(Mapped(elems, x => x)), Nil, t, [])| == |elems|
  ensures forall i :: 0 <= i < |elems| ==> Same(NewElements(AnySlice(Mapped(elems, x => x)), Nil, t, [])[i], elems[i])
{
  forall i | 0 <= i < |elems|
    ensures Same(NewElements(AnySlice(Mapped(elems, x => x)), Nil, t, [])[i], elems[i])
  {
    SameKindSet(elems[i]);
  }
}
