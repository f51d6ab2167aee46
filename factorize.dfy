/**
  Series.Factorize (series/series.go:595-667): categorical codes for the rows,
  keyed on each element's String() text. The map from text to code and the
  list of unique values are built by visiting rows one at a time; with sort
  the rows are first visited in Order(false) sequence, which fixes the
  numbering, and then once more in their own order to read off the codes.
*/

/** A row Factorize gives the code -1: missing, or a Float NaN (an Int or Uint NaN row
    gets a real code, keyed "NaN"). */
predicate NaRow(e: Element) {
  !e.IsValid() || (e.IsNaN() && e.Type() == FloatType)
}

/** The text a row is keyed on. Every row that is not NaRow is present, so its String()
    succeeds. */
function Key(e: Element): (k: string)
  ensures !NaRow(e) ==> e.String() == Ok(k)
{
  match e.String()
  case Ok(s) => s
  case Err(_) => NilText
}

/** What Factorize reads of a row: whether it is NaRow, its text and its value. */
datatype Row = Row(na: bool, key: string, val: Value)

function RowOf(e: Element): (r: Row)
  ensures r.na == NaRow(e) && r.key == Key(e) && r.val == e.Val()
{
  Row(NaRow(e), Key(e), e.Val())
}

function Rows(elems: seq<Element>): (r: seq<Row>)
  ensures |r| == |elems| && forall i :: 0 <= i < |elems| ==> r[i] == RowOf(elems[i])
{
  seq(|elems|, i requires 0 <= i < |elems| => RowOf(elems[i]))
}

/** uniquesMap and uniques: the code of each text seen, and the value first seen with
    each code. */
datatype Numbering = Numbering(codeOf: map<string, int>, uniques: seq<Value>)

/** One row visited: a NaRow row or a known text changes nothing; a new text gets the
    next code and the row's value joins the uniques. */
function Visit(n: Numbering, r: Row): (m: Numbering)
  ensures forall k :: k in n.codeOf ==> k in m.codeOf && m.codeOf[k] == n.codeOf[k]
  ensures n.uniques <= m.uniques && |m.uniques| <= |n.uniques| + 1
  ensures !r.na ==> r.key in m.codeOf
  ensures !r.na && r.key !in n.codeOf ==> m.codeOf[r.key] == |n.uniques| && m.uniques == n.uniques + [r.val]
{
  if r.na || r.key in n.codeOf then n
  else Numbering(n.codeOf[r.key := |n.uniques|], n.uniques + [r.val])
}

/** The numbering before any row is visited. */
const NoCodes := Numbering(map[], [])

/** The numbering n after visiting the first i rows in order. */
function VisitAll(n: Numbering, seen: seq<Row>, i: nat): (m: Numbering)
  requires i <= |seen|
  ensures forall k :: k in n.codeOf ==> k in m.codeOf && m.codeOf[k] == n.codeOf[k]
  ensures n.uniques <= m.uniques && |m.uniques| <= |n.uniques| + i
  ensures forall j :: 0 <= j < i && !seen[j].na ==> seen[j].key in m.codeOf
{
  if i == 0 then n
  else Visit(VisitAll(n, seen, i - 1), seen[i - 1])
}

/** The numbering after visiting all the rows in order. */
function Scan(seen: seq<Row>): (m: Numbering)
  ensures |m.uniques| <= |seen|
  ensures forall j :: 0 <= j < |seen| && !seen[j].na ==> seen[j].key in m.codeOf
{
  VisitAll(NoCodes, seen, |seen|)
}

/** Row i is the first row, among those that are not NaRow, with its text. */
predicate FirstAppearance(seen: seq<Row>, i: int) {
  0 <= i < |seen| && !seen[i].na &&
  forall j :: 0 <= j < i ==> seen[j].na || seen[j].key != seen[i].key
}

/** What a numbering of the rows seen promises: exactly the texts of the rows have codes;
    codes are distinct, below the number of uniques, and handed out in order of first
    appearance with no gap; and each unique is the value of the row its text was first
    seen on. */
ghost predicate Numbers(seen: seq<Row>, n: Numbering) {
  KeysCoded(seen, n) && KeysSeen(seen, n) && CodesBounded(n) && CodesDistinct(n) &&
  UniquesFirst(seen, n) && CodesInOrder(seen, n) && CodesDense(seen, n)
}

/** Every text of a row that is not NaRow has a code. */
ghost predicate KeysCoded(seen: seq<Row>, n: Numbering) {
  forall i :: 0 <= i < |seen| && !seen[i].na ==> seen[i].key in n.codeOf
}

/** Only texts of rows have codes. */
ghost predicate KeysSeen(seen: seq<Row>, n: Numbering) {
  forall k :: k in n.codeOf ==> exists i :: FirstAppearance(seen, i) && seen[i].key == k
}

ghost predicate CodesBounded(n: Numbering) {
  forall k :: k in n.codeOf ==> 0 <= n.codeOf[k] < |n.uniques|
}

ghost predicate CodesDistinct(n: Numbering) {
  forall k1, k2 :: k1 in n.codeOf && k2 in n.codeOf && n.codeOf[k1] == n.codeOf[k2] ==> k1 == k2
}

/** The unique under a text's code is the value of the row the text was first seen on. */
ghost predicate UniquesFirst(seen: seq<Row>, n: Numbering) {
  forall i :: FirstAppearance(seen, i) ==>
               seen[i].key in n.codeOf && 0 <= n.codeOf[seen[i].key] < |n.uniques| &&
               n.uniques[n.codeOf[seen[i].key]] == seen[i].val
}

/** A text seen first earlier has a smaller code. */
ghost predicate CodesInOrder(seen: seq<Row>, n: Numbering) {
  forall i, j :: FirstAppearance(seen, i) && FirstAppearance(seen, j) && i < j &&
                 seen[i].key in n.codeOf && seen[j].key in n.codeOf ==>
                   n.codeOf[seen[i].key] < n.codeOf[seen[j].key]
}

/** Every code below the number of uniques is in use. */
ghost predicate CodesDense(seen: seq<Row>, n: Numbering) {
  forall c :: 0 <= c < |n.uniques| ==> Coded(seen, n, c)
}

/** Some text first seen among the rows has code c. */
ghost predicate Coded(seen: seq<Row>, n: Numbering, c: int) {
  exists i :: FirstAppearance(seen, i) && seen[i].key in n.codeOf && n.codeOf[seen[i].key] == c
}

/** Appending a row leaves the first appearances among the earlier rows as they were;
    the new row is a first appearance exactly when it is not NaRow and its text is new. */
lemma FirstAppearanceExtends(pre: seq<Row>, r: Row)
  ensures forall i :: 0 <= i < |pre| ==> (FirstAppearance(pre + [r], i) <==> FirstAppearance(pre, i))
  ensures FirstAppearance(pre + [r], |pre|) <==>
            !r.na && forall j :: 0 <= j < |pre| ==> pre[j].na || pre[j].key != r.key
{
  var seen := pre + [r];
  assert forall j :: 0 <= j < |pre| ==> seen[j] == pre[j];
  assert seen[|pre|] == r;
}

/** Visiting a row that is NaRow or whose text is known keeps the promises. */
lemma VisitKnown(pre: seq<Row>, r: Row, n: Numbering)
  requires Numbers(pre, n)
  requires r.na || r.key in n.codeOf
  ensures Numbers(pre + [r], Visit(n, r))
{
  KnownIsNotFirst(pre, r, n);
  KnownKeysSeen(pre, r, n);
  KnownDense(pre, r, n);
  KnownOrder(pre, r, n);
}

/** A row that is NaRow or whose text is known is no first appearance. */
lemma KnownIsNotFirst(pre: seq<Row>, r: Row, n: Numbering)
  requires Numbers(pre, n)
  requires r.na || r.key in n.codeOf
  ensures forall i :: 0 <= i < |pre| ==> (FirstAppearance(pre + [r], i) <==> FirstAppearance(pre, i))
  ensures !FirstAppearance(pre + [r], |pre|)
{
  FirstAppearanceExtends(pre, r);
  if !r.na {
    var i :| FirstAppearance(pre, i) && pre[i].key == r.key;
  }
}

lemma KnownKeysSeen(pre: seq<Row>, r: Row, n: Numbering)
  requires Numbers(pre, n)
  requires r.na || r.key in n.codeOf
  ensures KeysCoded(pre + [r], n) && KeysSeen(pre + [r], n)
{
  var seen := pre + [r];
  KnownIsNotFirst(pre, r, n);
  assert forall i :: 0 <= i < |pre| ==> seen[i] == pre[i];
  forall k | k in n.codeOf
    ensures exists i :: FirstAppearance(seen, i) && seen[i].key == k
  {
    var i :| FirstAppearance(pre, i) && pre[i].key == k;
    assert FirstAppearance(seen, i) && seen[i].key == k;
  }
}

lemma KnownDense(pre: seq<Row>, r: Row, n: Numbering)
  requires Numbers(pre, n)
  requires r.na || r.key in n.codeOf
  ensures CodesDense(pre + [r], n)
{
  var seen := pre + [r];
  KnownIsNotFirst(pre, r, n);
  forall c | 0 <= c < |n.uniques|
    ensures Coded(seen, n, c)
  {
    assert Coded(pre, n, c);
    var i :| FirstAppearance(pre, i) && pre[i].key in n.codeOf && n.codeOf[pre[i].key] == c;
    assert FirstAppearance(seen, i) && seen[i] == pre[i];
  }
}

lemma KnownOrder(pre: seq<Row>, r: Row, n: Numbering)
  requires Numbers(pre, n)
  requires r.na || r.key in n.codeOf
  ensures UniquesFirst(pre + [r], n) && CodesInOrder(pre + [r], n)
{
  var seen := pre + [r];
  KnownIsNotFirst(pre, r, n);
  assert forall i :: 0 <= i < |pre| ==> seen[i] == pre[i];
  forall i | FirstAppearance(seen, i)
    ensures FirstAppearance(pre, i)
  {
  }
}

/** Visiting a row with a new text keeps the promises: the text takes the next code. */
lemma VisitNew(pre: seq<Row>, r: Row, n: Numbering)
  requires Numbers(pre, n)
  requires !r.na && r.key !in n.codeOf
  ensures Numbers(pre + [r], Visit(n, r))
{
  NewKeysAreSeen(pre, r, n);
  NewUniques(pre, r, n);
  NewDense(pre, r, n);
  NewCodes(pre, r, n);
}

lemma NewCodes(pre: seq<Row>, r: Row, n: Numbering)
  requires Numbers(pre, n)
  requires !r.na && r.key !in n.codeOf
  ensures KeysCoded(pre + [r], Visit(n, r)) && CodesBounded(Visit(n, r)) && CodesDistinct(Visit(n, r))
{
  var seen := pre + [r];
  assert forall i :: 0 <= i < |pre| ==> seen[i] == pre[i];
}

/** A row whose text has no code yet is the first with that text. */
lemma NewIsFirst(pre: seq<Row>, r: Row, n: Numbering)
  requires Numbers(pre, n)
  requires !r.na && r.key !in n.codeOf
  ensures FirstAppearance(pre + [r], |pre|)
{
  FirstAppearanceExtends(pre, r);
  forall j | 0 <= j < |pre|
    ensures pre[j].na || pre[j].key != r.key
  {
    if !pre[j].na {
      assert pre[j].key in n.codeOf;
    }
  }
}

lemma NewKeysAreSeen(pre: seq<Row>, r: Row, n: Numbering)
  requires Numbers(pre, n)
  requires !r.na && r.key !in n.codeOf
  ensures KeysSeen(pre + [r], Visit(n, r))
{
  var seen := pre + [r];
  FirstAppearanceExtends(pre, r);
  NewIsFirst(pre, r, n);
  forall k | k in Visit(n, r).codeOf
    ensures exists i :: FirstAppearance(seen, i) && seen[i].key == k
  {
    if k == r.key {
      assert FirstAppearance(seen, |pre|) && seen[|pre|].key == k;
    } else {
      var i :| FirstAppearance(pre, i) && pre[i].key == k;
      assert FirstAppearance(seen, i) && seen[i].key == k;
    }
  }
}

lemma NewUniques(pre: seq<Row>, r: Row, n: Numbering)
  requires Numbers(pre, n)
  requires !r.na && r.key !in n.codeOf
  ensures UniquesFirst(pre + [r], Visit(n, r)) && CodesInOrder(pre + [r], Visit(n, r))
{
  var (seen, m) := (pre + [r], Visit(n, r));
  FirstAppearanceExtends(pre, r);
  assert forall i :: 0 <= i < |pre| ==> seen[i] == pre[i];
  forall i | FirstAppearance(seen, i)
    ensures seen[i].key in m.codeOf && 0 <= m.codeOf[seen[i].key] < |m.uniques| && m.uniques[m.codeOf[seen[i].key]] == seen[i].val
  {
    if i < |pre| {
      assert FirstAppearance(pre, i);
    }
  }
  forall i, j | FirstAppearance(seen, i) && FirstAppearance(seen, j) && i < j && seen[i].key in m.codeOf && seen[j].key in m.codeOf
    ensures m.codeOf[seen[i].key] < m.codeOf[seen[j].key]
  {
    assert FirstAppearance(pre, i);
    if j < |pre| {
      assert FirstAppearance(pre, j);
    }
  }
}

lemma NewDense(pre: seq<Row>, r: Row, n: Numbering)
  requires Numbers(pre, n)
  requires !r.na && r.key !in n.codeOf
  ensures CodesDense(pre + [r], Visit(n, r))
{
  var (seen, m) := (pre + [r], Visit(n, r));
  FirstAppearanceExtends(pre, r);
  NewIsFirst(pre, r, n);
  forall c | 0 <= c < |m.uniques|
    ensures Coded(seen, m, c)
  {
    if c == |n.uniques| {
      assert FirstAppearance(seen, |pre|) && m.codeOf[seen[|pre|].key] == c;
    } else {
      assert Coded(pre, n, c);
      var i :| FirstAppearance(pre, i) && pre[i].key in n.codeOf && n.codeOf[pre[i].key] == c;
      assert FirstAppearance(seen, i) && seen[i] == pre[i];
    }
  }
}

/** Visiting row i after the rows before it keeps the promises. */
lemma VisitNext(seen: seq<Row>, i: nat, n: Numbering)
  requires i < |seen| && Numbers(seen[..i], n)
  ensures Numbers(seen[..i + 1], Visit(n, seen[i]))
{
  var pre, r := seen[..i], seen[i];
  assert seen[..i + 1] == pre + [r];
  if r.na || r.key in n.codeOf {
    VisitKnown(pre, r, n);
  } else {
    VisitNew(pre, r, n);
  }
}

/** Visiting the first i rows keeps every promise of a numbering of those rows. */
lemma {:induction false} VisitAllNumbers(seen: seq<Row>, i: nat)
  requires i <= |seen|
  ensures Numbers(seen[..i], VisitAll(NoCodes, seen, i))
{
  if i > 0 {
    VisitAllNumbers(seen, i - 1);
    VisitNext(seen, i - 1, VisitAll(NoCodes, seen, i - 1));
  } else {
    assert seen[..0] == [];
  }
}

/** Scan keeps every promise of a numbering. */
lemma ScanNumbers(seen: seq<Row>)
  ensures Numbers(seen, Scan(seen))
{
  VisitAllNumbers(seen, |seen|);
  assert seen[..|seen|] == seen;
}

/** The numbering of the rows visited has a code for every row's text. */
predicate CodesDefinedFor(pre: seq<Row>, rows: seq<Row>) {
  forall i :: 0 <= i < |rows| && !rows[i].na ==> rows[i].key in Scan(pre + rows).codeOf
}

lemma CodesDefined(pre: seq<Row>, rows: seq<Row>)
  ensures CodesDefinedFor(pre, rows)
{
  ScanNumbers(pre + rows);
  forall i | 0 <= i < |rows| && !rows[i].na
    ensures rows[i].key in Scan(pre + rows).codeOf
  {
    assert (pre + rows)[|pre| + i] == rows[i];
  }
}

/** The codes of the rows under a numbering: -1 for a NaRow row, the code of its text
    otherwise. */
function CodesOf(rows: seq<Row>, n: Numbering): (codes: seq<int>)
  requires forall i :: 0 <= i < |rows| && !rows[i].na ==> rows[i].key in n.codeOf
  ensures |codes| == |rows|
{
  seq(|rows|, i requires 0 <= i < |rows| => if rows[i].na then -1 else n.codeOf[rows[i].key])
}

/** What the codes mean, for rows visited after the rows pre: -1 exactly for the NaRow
    rows; otherwise a code below the number of uniques, the same code exactly for the same
    text, and the unique under a row's code is the value of the first row visited with
    that text. */
lemma {:induction false} CodesMeaning(pre: seq<Row>, rows: seq<Row>)
  ensures CodesDefinedFor(pre, rows)
  ensures var n := Scan(pre + rows); var codes := CodesOf(rows, n);
          (forall i :: 0 <= i < |rows| ==> (codes[i] == -1 <==> rows[i].na)) &&
          (forall i :: 0 <= i < |rows| && !rows[i].na ==> 0 <= codes[i] < |n.uniques|) &&
          (forall i, j :: 0 <= i < |rows| && 0 <= j < |rows| && !rows[i].na && !rows[j].na ==>
                            (codes[i] == codes[j] <==> rows[i].key == rows[j].key)) &&
          (forall i :: 0 <= i < |rows| && !rows[i].na ==>
                         exists f :: FirstAppearance(pre + rows, f) && (pre + rows)[f].key == rows[i].key &&
                                     n.uniques[codes[i]] == (pre + rows)[f].val)
{
  CodesDefined(pre, rows);
  ScanNumbers(pre + rows);
  var n := Scan(pre + rows);
  forall i | 0 <= i < |rows| && !rows[i].na
    ensures exists f :: FirstAppearance(pre + rows, f) && (pre + rows)[f].key == rows[i].key &&
                        n.uniques[n.codeOf[rows[i].key]] == (pre + rows)[f].val
  {
    var f :| FirstAppearance(pre + rows, f) && (pre + rows)[f].key == rows[i].key;
  }
}

/** The first loop of Factorize, run only with sort: the rows visited in Order(false)
    sequence number the texts. At a text already seen it writes that text's code into
    codes at the sorted position; the second loop overwrites every such entry. */
method NumberSorted(a: array<int>, sortedValues: seq<Element>) returns (m: map<string, int>, uniques: seq<Value>)
  modifies a
  requires a.Length == |sortedValues|
  ensures Numbering(m, uniques) == Scan(Rows(sortedValues))
{
  m, uniques := map[], [];
  ghost var seen := Rows(sortedValues);
  for i := 0 to |sortedValues|
    invariant Numbering(m, uniques) == VisitAll(NoCodes, seen, i)
  {
    var e := sortedValues[i];
    assert seen[i] == RowOf(e);
    m, uniques := NumberRow(a, i, e, m, uniques);
  }
}

/** One step of the first loop: a text already seen writes its code at position i, a new
    text is numbered. */
method NumberRow(a: array<int>, i: int, e: Element, m: map<string, int>, uniques: seq<Value>)
  returns (m': map<string, int>, uniques': seq<Value>)
  modifies a
  requires 0 <= i < a.Length
  ensures Numbering(m', uniques') == Visit(Numbering(m, uniques), RowOf(e))
  ensures a[..] == if !NaRow(e) && Key(e) in m then old(a[..])[i := m[Key(e)]] else old(a[..])
{
  m', uniques' := m, uniques;
  if !NaRow(e) {
    var se := Key(e);
    if se in m {
      a[i] := m[se];
    } else {
      var u := |uniques|;
      uniques' := uniques + [e.Val()];
      m' := m[se := u];
    }
  }
}

/** The second loop of Factorize: each row in its own order gets -1 when NaRow and
    otherwise the code of its text, numbering a text not seen before. */
method CodeRows(a: array<int>, elems: seq<Element>, m0: map<string, int>, u0: seq<Value>)
  returns (m: map<string, int>, uniques: seq<Value>)
  modifies a
  requires a.Length == |elems|
  ensures Numbering(m, uniques) == VisitAll(Numbering(m0, u0), Rows(elems), |elems|)
  ensures CodedUpTo(Rows(elems), a[..], m)
{
  m, uniques := m0, u0;
  ghost var rows := Rows(elems);
  for i := 0 to |elems|
    invariant Numbering(m, uniques) == VisitAll(Numbering(m0, u0), rows, i)
    invariant CodedUpTo(rows, a[..i], m)
  {
    var e := elems[i];
    assert rows[i] == RowOf(e);
    m, uniques := CodeRow(a, i, e, m, uniques, rows);
  }
  assert a[..|elems|] == a[..];
}

/** One step of the second loop: row i gets -1 when NaRow and otherwise the code of its
    text, numbering the text when it is new. */
method CodeRow(a: array<int>, i: int, e: Element, m: map<string, int>, uniques: seq<Value>, ghost rows: seq<Row>)
  returns (m': map<string, int>, uniques': seq<Value>)
  modifies a
  requires 0 <= i < a.Length && i < |rows| && rows[i] == RowOf(e)
  requires CodedUpTo(rows, a[..i], m)
  ensures Numbering(m', uniques') == Visit(Numbering(m, uniques), RowOf(e))
  ensures CodedUpTo(rows, a[..i + 1], m')
  ensures a[..] == old(a[..])[i := if NaRow(e) then -1 else m'[Key(e)]]
{
  ghost var codes := a[..i];
  m', uniques' := m, uniques;
  if NaRow(e) {
    a[i] := -1;
  } else {
    var se := Key(e);
    if se in m {
      a[i] := m[se];
    } else {
      var u := |uniques|;
      uniques' := uniques + [e.Val()];
      m' := m[se := u];
      a[i] := u;
    }
  }
  assert a[..i + 1] == codes + [a[i]];
  CodeStep(rows, codes, m, m', a[i]);
}

/** Visiting the first i rows of pre + rows, with i within pre, is visiting the first i
    rows of pre. */
lemma {:induction false} VisitPrefix(pre: seq<Row>, rows: seq<Row>, i: nat)
  requires i <= |pre|
  ensures VisitAll(NoCodes, pre + rows, i) == VisitAll(NoCodes, pre, i)
{
  if i > 0 {
    VisitPrefix(pre, rows, i - 1);
    assert (pre + rows)[i - 1] == pre[i - 1];
  }
}

/** Visiting pre + rows is visiting rows after pre. */
lemma {:induction false} VisitAppend(pre: seq<Row>, rows: seq<Row>, i: nat)
  requires i <= |rows|
  ensures VisitAll(NoCodes, pre + rows, |pre| + i) == VisitAll(Scan(pre), rows, i)
{
  if i == 0 {
    VisitPrefix(pre, rows, |pre|);
  } else {
    VisitAppend(pre, rows, i - 1);
    assert (pre + rows)[|pre| + i - 1] == rows[i - 1];
  }
}

/** The first |codes| rows get -1 when NaRow and otherwise the code of their text in m. */
predicate CodedUpTo(rows: seq<Row>, codes: seq<int>, m: map<string, int>) {
  |codes| <= |rows| &&
  forall k :: 0 <= k < |codes| ==> if rows[k].na then codes[k] == -1 else rows[k].key in m && codes[k] == m[rows[k].key]
}

/** Coding one more row under a map that keeps every earlier code keeps the earlier rows
    coded. */
lemma CodeStep(rows: seq<Row>, codes: seq<int>, m: map<string, int>, m': map<string, int>, c: int)
  requires CodedUpTo(rows, codes, m) && |codes| < |rows|
  requires forall key :: key in m ==> key in m' && m'[key] == m[key]
  requires var r := rows[|codes|]; if r.na then c == -1 else r.key in m' && c == m'[r.key]
  ensures CodedUpTo(rows, codes + [c], m')
{
}

/** Codes that are -1 for the NaRow rows and the code of the text otherwise, under the
    numbering of all the rows visited, are that numbering's codes. */
lemma {:induction false} LoopCodes(pre: seq<Row>, rows: seq<Row>, codes: seq<int>, n: Numbering)
  requires n == VisitAll(Scan(pre), rows, |rows|) && |codes| == |rows|
  requires CodedUpTo(rows, codes, n.codeOf)
  ensures n == Scan(pre + rows)
  ensures CodesDefinedFor(pre, rows)
  ensures codes == CodesOf(rows, Scan(pre + rows))
{
  VisitAppend(pre, rows, |rows|);
  CodedAll(rows, codes, n);
}

/** Codes given to every row under the map of n are n's codes of the rows. */
lemma {:induction false} CodedAll(rows: seq<Row>, codes: seq<int>, n: Numbering)
  requires CodedUpTo(rows, codes, n.codeOf) && |codes| == |rows|
  ensures forall i :: 0 <= i < |rows| && !rows[i].na ==> rows[i].key in n.codeOf
  ensures codes == CodesOf(rows, n)
{
  var want := CodesOf(rows, n);
  assert forall k :: 0 <= k < |rows| ==> codes[k] == want[k];
}

/** The loops of Factorize on a series of type t without a sticky error: codes and
    uniques are those of the numbering built over the rows visited, where the rows are
    visited once in Order(false) sequence first when sort is set. order is that
    sequence. */
method FactorizeRows(elems: seq<Element>, t: Type, sort: bool) returns (codes: seq<int>, uniques: seq<Value>, ghost order: seq<int>)
  requires OfType(elems, t)
  ensures sort ==> OrderedRows(elems, t, false, Range(|elems|), order)
  ensures !sort ==> order == []
  ensures InRange(order, |elems|) && |order| <= |elems| && CodesDefinedFor(Rows(Gather(elems, order)), Rows(elems))
  ensures codes == CodesOf(Rows(elems), Scan(Rows(Gather(elems, order)) + Rows(elems)))
  ensures uniques == Scan(Rows(Gather(elems, order)) + Rows(elems)).uniques
{
  var a := new int[|elems|];
  var m: map<string, int> := map[];
  uniques := [];
  var sortedValues: seq<Element> := [];
  order := [];
  if sort {
    var rows := OrderRows(elems, t, false, Range(|elems|));
    order := rows;
    // A Subset by the rows Order returns cannot fail, so sortedValues has no error.
    sortedValues := Gather(elems, rows);
    m, uniques := NumberSorted(a, sortedValues);
  }
  m, uniques := CodeRows(a, elems, m, uniques);
  codes := a[..];
  LoopCodes(Rows(sortedValues), Rows(elems), codes, Numbering(m, uniques));
}

/** Every visit adds at most one unique. */
lemma {:induction false} UniquesBound(n: Numbering, seen: seq<Row>, i: nat)
  requires i <= |seen|
  ensures |VisitAll(n, seen, i).uniques| <= |n.uniques| + i
{
  if i > 0 {
    UniquesBound(n, seen, i - 1);
  }
}

/** The codes lie between -1 and the number of rows visited, so they fit the Go int
    slice Factorize hands to New. */
lemma CodesFit(pre: seq<Row>, rows: seq<Row>)
  ensures CodesDefinedFor(pre, rows)
  ensures forall i :: 0 <= i < |rows| ==> -1 <= CodesOf(rows, Scan(pre + rows))[i] < |pre| + |rows|
{
  CodesMeaning(pre, rows);
  UniquesBound(NoCodes, pre + rows, |pre + rows|);
}
