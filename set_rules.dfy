/**
  The rules of the five Set tables (series/type-*.go), stated over every input
  rather than row by row: what a numeric Set does to the NaN flag, how text is
  read, how signed values wrap into a uint64, which Go types a kind refuses,
  and which texts a kind reads back into the element that rendered them.
*/

/** A Go number or bool handed to Set: any integer width, a finite float or a bool. */
predicate NumberValue(v: Value) {
  v.Int? || v.Int8? || v.Int16? || v.Int32? || v.Int64? ||
  v.Uint? || v.Uint8? || v.Uint16? || v.Uint32? || v.Uint64? || v.Bool? ||
  (v.Float32? && v.f32.Finite?) || (v.Float64? && v.f64.Finite?)
}

/** Int Set starts from a valid, non-NaN element (series/type-int.go:15-17): a number
    always leaves a present, non-NaN element without error, whatever the element held
    before, NaN included. */
lemma IntSetClearsNaN(x: IntElement, y: IntElement, v: Value)
  requires NumberValue(v)
  ensures x.Coerce(v) == y.Coerce(v)
  ensures x.Coerce(v).0.valid && !x.Coerce(v).0.nan && x.Coerce(v).1.None?
{
}

/** Int Set from text (series/type-int.go:18-38): "" makes the element missing and "NaN"
    makes it NaN, both quietly; any other text is an error exactly when ParseInt rejects
    it, and then the element is NaN. */
lemma IntSetText(x: IntElement, s: string)
  ensures x.Coerce(Str(s)).0.valid <==> s != NilText
  ensures x.Coerce(Str(s)).1.Some? <==> s != NilText && s != NaNText && ParseInt(s).Err?
  ensures x.Coerce(Str(s)).0.nan <==> s != NilText && (s == NaNText || ParseInt(s).Err?)
{
}

/** A present, non-NaN Int element is rebuilt exactly by Setting any Int element from
    its String text. */
lemma {:induction false} IntTextRoundTrip(x: IntElement, y: IntElement)
  requires !x.IsNaN()
  ensures y.Coerce(Str(x.String().value)) == (x, None)
{
  FormatIntShape(x.e);
}

/** Uint Set never resets the NaN flag (series/type-uint.go:15-20): a NaN element stays
    NaN, and still prints "NaN", after a numeric Set. */
lemma UintSetKeepsNaN(x: UintElement, v: Value)
  requires x.nan && NumberValue(v)
  ensures x.Coerce(v).0.valid && x.Coerce(v).0.nan && x.Coerce(v).1.None?
  ensures x.Coerce(v).0.String() == Ok(NaNText)
{
}

/** A negative signed value Set into a Uint element wraps modulo 2^64
    (series/type-uint.go:38-47): -1 becomes 18446744073709551615. */
lemma {:induction false} UintSetWraps(x: UintElement, i: int64)
  requires i < 0
  ensures x.Coerce(Int64(i)).0.e == i + TwoTo64
  ensures x.Coerce(Int(-1)).0.e == 18446744073709551615
{
  assert (i + TwoTo64) % TwoTo64 == i + TwoTo64;
  assert (-1 + TwoTo64) % TwoTo64 == TwoTo64 - 1;
}

/** A present, non-NaN Uint element is rebuilt exactly by Setting a non-NaN Uint element
    from its String text. */
lemma {:induction false} UintTextRoundTrip(x: UintElement, y: UintElement)
  requires !x.IsNaN() && !y.nan
  ensures y.Coerce(Str(x.String().value)) == (x, None)
{
  FormatIntShape(x.e);
  assert FormatUint(x.e) == FormatInt(x.e);
}

/** Float Set accepts int, int64, uint, uint64, float32, float64, bool, text and
    elements; any other Go type, the narrow integer widths included, leaves the element
    missing with an error (series/type-float.go:37-71). */
lemma FloatRejectsOtherTypes(x: FloatElement, v: Value)
  requires v.Int8? || v.Int16? || v.Int32? || v.Uint8? || v.Uint16? || v.Uint32? || v.NaNElement? || v.Other?
  ensures !x.Coerce(v).0.valid && x.Coerce(v).1 == Some(Unsupported(v, "a float"))
{
}

/** Float Set from text never fails (series/type-float.go:21-36): non-empty text that
    does not parse gives a present NaN. */
lemma FloatSetText(x: FloatElement, s: string)
  ensures x.Coerce(Str(s)).1.None?
  ensures x.Coerce(Str(s)).0.valid <==> s != NilText
  ensures s != NilText && ParseFloat(s).Err? ==> x.Coerce(Str(s)).0.e.NaN? && x.Coerce(Str(s)).0.IsNaN()
{
}

/** String Set stores an int64 as decimal text (series/type-string.go:29-33), which
    the element's own Int reads back. */
lemma {:induction false} StringSetIntRoundTrip(x: StringElement, i: int64)
  ensures x.Coerce(Int64(i)).0.Int() == Ok(i)
  ensures x.Coerce(Int(i)).0.Int() == Ok(i)
{
  ParseIntFormatInt(i);
}

/** Bool Set starts from a valid false (series/type-bool.go:13-19): its result never
    depends on the element it is applied to. */
lemma BoolSetForgetsState(x: BoolElement, y: BoolElement, v: Value)
  ensures x.Coerce(v) == y.Coerce(v)
{
}

/** Bool Set from text (series/type-bool.go:21-30) reads the lower-cased text: "true",
    "t" or "1" give true, "false", "f" or "0" give false, and anything else leaves the
    element missing with an error; the element's Bool reads the text the same way. */
lemma BoolSetText(x: BoolElement, s: string)
  ensures x.Coerce(Str(s)).1.None? <==> TrueText(ToLower(s)) || FalseText(ToLower(s))
  ensures x.Coerce(Str(s)).1.None? ==> x.Coerce(Str(s)).0 == BoolElement(TrueText(ToLower(s)), true)
  ensures x.Coerce(Str(s)).1.None? ==> StringElement(s, true).Bool() == Ok(TrueText(ToLower(s)))
{
}

/** Bool Set from a number is its truthiness (series/type-bool.go:31-68): zero is false,
    any other integer true; a float is false for zero and NaN and true otherwise, the
    infinities included. */
lemma BoolSetNumber(x: BoolElement, v: Value)
  requires v.Int? || v.Int64? || v.Uint? || v.Uint64? || v.Float32? || v.Float64?
  ensures x.Coerce(v).1.None? && x.Coerce(v).0.valid
  ensures v.Int? ==> x.Coerce(v).0.e == (v.i != 0)
  ensures v.Float64? ==> x.Coerce(v).0.e == !(v.f64.NaN? || v.f64 == Finite(0.0))
  ensures x.Coerce(Float64(PosInf)).0.e && !x.Coerce(Float64(NaN)).0.e
{
}

/** Set depends on the element it is applied to only through the state it resets it to. */
lemma SetStartsFromReset(x: Element, v: Value)
  ensures x.Coerce(v) == x.Reset().Coerce(v)
{
}

/** An element Set from itself (the argument is the receiver, as in s.Update(idx, s) at a
    row idx[k] == k) reads itself after the reset, so it ends as that reset state, without
    error: a true Bool becomes false, a missing Int a present one, an Int NaN a number. */
lemma SelfSetIsReset(x: Element)
  ensures x.Coerce(Elem(x.Reset())) == Outcome(x.Reset(), None)
  ensures x == BoolE(BoolElement(true, true)) ==> x.Coerce(Elem(x.Reset())).elem == BoolE(BoolElement(false, true))
  ensures x.IntE? && !x.IsValid() ==> x.Coerce(Elem(x.Reset())).elem.IsValid()
{
}

/** String IsInf looks for the three texts "inf", "+inf" and "-inf" in any letter case:
    "Infinity", which ParseFloat reads as +Inf, is not infinite to it. */
lemma InfinityTextIsNotInf()
  ensures ParseFloat("Infinity") == Ok(PosInf)
  ensures !StringElement("Infinity", true).IsInf(1)
{
  var lower := ToLower("Infinity");
  assert lower[0] == 'i' && |lower| == 8;
  assert Unsigned("Infinity") == "Infinity";
  assert lower == "infinity";
}

/** The short infinities, signed or not, are infinite to String IsInf with their sign. */
lemma ShortInfTextIsInf()
  ensures StringElement("+Inf", true).IsInf(1)
  ensures StringElement("-INF", true).IsInf(-1)
{
  assert ToLower("+Inf") == "+inf";
  assert ToLower("-INF") == "-inf";
  assert Unsigned("+Inf") == "Inf" && Unsigned("-INF") == "INF";
  assert ToLower("Inf") == "inf" && ToLower("INF") == "inf";
}
