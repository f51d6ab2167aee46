# gota `series`: a verified model of the typed, nullable column

This project models the core of the Go package `series` of gota: the five
element kinds (signed int, unsigned int, float, string, bool) and the `Series`
column that holds them. It proves in Dafny what these operations do.

- **Elements** (`element.dfy`, `type-int.dfy`, `type-uint.dfy`, `type-float.dfy`,
  `type-string.dfy`, `type-bool.dfy`).
  - `Element` is a datatype with one constructor per kind. Each kind keeps the
    Go fields: a payload, `valid` and, for the integer kinds, `nan`.
  - Go's `Set(interface{})` becomes two members per kind:
    - a function `Coerce`, the full table of what every input does to the
      element and which error it returns;
    - a method `Set` that assigns the fields step by step, as the Go code does,
      and is proved equal to `Coerce`.
  - The accessors (`String`, `Int`, `Uint`, `Float`, `Bool`), `IsNaN`/`IsInf`
    and the six comparisons are functions over those fields.
  - Go's `interface{}` argument is the closed datatype `Value`.
- **Numbers and text** (`go_types.dfy`, `strconv.dfy`).
  - Go's fixed-width integers are subset types of `int`, and the int64/uint64
    casts wrap modulo 2^64 explicitly (for an integer that is Go's rule; for a float
    out of range, where Go leaves the result implementation-defined, it is the model's choice).
  - A float is abstract: `Finite(real)`, `PosInf`, `NegInf` or `NaN`.
  - Go's `strconv` parsers and formatters, and `strings.ToLower`, are given as
    definitions of the behaviour this package relies on. Base-10 integers are
    exact; floats are decimal text, `inf` and `nan`.
- **Series** (`series.dfy`, `values.dfy`, `indexes.dfy`, `compare.dfy`,
  `order.dfy`, `factorize.dfy`, `conversions.dfy`).
  - `Series` is a class whose elements live in an `array<Element>`.
  - A Go method with a value receiver returns a fresh `Series` header.
    Where Go shares the slice, that header shares the same array, so `Set` and
    `Update` write into storage every header over that array sees.
  - `Append` reassigns the array.
  - `Copy`, `Subset` and `Concat` fill fresh arrays.
  - Each loop is a `method` proved against a function of the old state:
    `NewElements`, `Gather`, `Updated`, `Compared`, `Collect`, `AnyOf`,
    `OrderedRows` and the numbering `Scan` of `Factorize`.
- **Set rules** (`set_rules.dfy`): the per-kind `Set` tables stated over all
  inputs: NaN handling, text parsing, wrap-around, refused types and text round
  trips.

## Model

| member | source | states |
|---|---|---|
| IntElement.Coerce | series/type-int.go:15-111 | an error always leaves a NaN or missing element; the nan flag is only ever set on a present element |
| IntElement.Set | series/type-int.go:15-111 | the field-by-field assignments produce exactly the element and error of the Set table |
| IntSetClearsNaN | series/type-int.go:15-17 | a numeric or bool Set gives a present, non-NaN element without error, whatever the element held before |
| IntSetText | series/type-int.go:18-38 | "" gives missing and "NaN" gives NaN, both without error; other text errors exactly when ParseInt rejects it, and then the element is NaN |
| IntTextRoundTrip | series/type-int.go:143-151 | Setting an Int element from the String text of a present, non-NaN Int element rebuilds that element without error |
| IntElement.String | series/type-int.go:143-151 | never fails; "" exactly when missing, "NaN" exactly when NaN, otherwise base-10 text that ParseInt reads back to the payload |
| IntElement.Int | series/type-int.go:153-158 | fails exactly on a NaN or missing element; otherwise the payload |
| IntElement.Uint | series/type-int.go:160-165 | fails exactly on a NaN or missing element; otherwise the payload cast to uint64, which casts back to it |
| IntElement.Float | series/type-int.go:167-175 | fails exactly when missing; NaN exactly for a NaN element; otherwise a finite float whose integer part is the payload |
| IntElement.Bool | series/type-int.go:177-188 | fails exactly when missing; true for a NaN or a non-zero payload |
| IntElement.Eq | series/type-int.go:190-207 | against an Int: both missing, or both present with a non-NaN argument and equal payloads |
| IntElement.Neq | series/type-int.go:209-214 | exactly the negation of Eq |
| IntElement.Less | series/type-int.go:216-231 | false when either side is NaN or missing; against an Int, payload order; true against +Inf otherwise |
| IntElement.LessEq | series/type-int.go:233-248 | false when either side is NaN or missing; against an Int, payload order |
| IntElement.Greater | series/type-int.go:250-265 | false when either side is NaN or missing, and against +Inf; against an Int, payload order |
| IntElement.GreaterEq | series/type-int.go:267-282 | false when either side is NaN or missing, and against +Inf; against an Int, payload order |
| UintElement.Coerce | series/type-uint.go:15-110 | the nan flag is never cleared; an error always leaves a NaN or missing element |
| UintElement.Set | series/type-uint.go:15-110 | the field-by-field assignments produce exactly the element and error of the Set table |
| UintSetKeepsNaN | series/type-uint.go:15-20 | a NaN element stays NaN, and still prints "NaN", after a numeric or bool Set |
| UintSetWraps | series/type-uint.go:38-47 | a negative signed value is stored plus 2^64; -1 becomes 18446744073709551615 |
| UintTextRoundTrip | series/type-uint.go:142-150 | Setting a non-NaN Uint element from the String text of a present, non-NaN Uint element rebuilds that element without error |
| UintElement.String | series/type-uint.go:142-150 | never fails; "" exactly when missing, "NaN" exactly when NaN, otherwise text that ParseUint reads back to the payload |
| UintElement.Int | series/type-uint.go:152-157 | fails exactly on a NaN or missing element; otherwise the payload cast to int64, equal to it below 2^63 |
| UintElement.Uint | series/type-uint.go:159-164 | fails exactly on a NaN or missing element; otherwise the payload |
| UintElement.Float | series/type-uint.go:166-174 | fails exactly when missing; NaN exactly for a NaN element; otherwise a finite float whose integer part is the payload |
| UintElement.Bool | series/type-uint.go:176-187 | succeeds only for a present, non-NaN 0 or 1, and is true exactly for 1 |
| UintElement.Eq | series/type-uint.go:189-206 | against a Uint: both missing, or both present with a non-NaN argument and equal payloads |
| UintElement.Neq | series/type-uint.go:208-213 | exactly the negation of Eq |
| UintElement.Less | series/type-uint.go:215-230 | false when either side is NaN or missing; against a Uint, payload order; true against +Inf otherwise |
| UintElement.LessEq | series/type-uint.go:232-247 | false when either side is NaN or missing; against a Uint, payload order |
| UintElement.Greater | series/type-uint.go:249-264 | false when either side is NaN or missing, and against +Inf; against a Uint, payload order |
| UintElement.GreaterEq | series/type-uint.go:266-281 | false when either side is NaN or missing, and against +Inf; against a Uint, payload order |
| FloatElement.Coerce | series/type-float.go:14-73 | an error always leaves the element missing; text never gives an error |
| FloatElement.Set | series/type-float.go:14-73 | the field-by-field assignments produce exactly the element and error of the Set table |
| FloatSetText | series/type-float.go:21-36 | text never errors; "" gives missing; text ParseFloat rejects gives a present NaN |
| FloatRejectsOtherTypes | series/type-float.go:37-71 | int8, int16, int32, uint8, uint16, uint32, a NaN element and any other type give a missing element and the "Unsupported type" error |
| FloatElement.String | series/type-float.go:108-113 | never fails; "" exactly when missing, "NaN" exactly for a NaN payload, and a present element gives FormatFloat of its payload |
| FloatElement.Int | series/type-float.go:115-127 | fails exactly when missing, infinite or NaN; otherwise the value truncated toward zero, exactly that integer when it fits in int64 (outside that range the model wraps modulo 2^64) |
| FloatElement.Uint | series/type-float.go:129-141 | fails exactly when missing, infinite or NaN; otherwise the value truncated toward zero, exactly that integer when it fits in uint64 (outside that range the model wraps modulo 2^64) |
| FloatElement.Float | series/type-float.go:143-148 | fails exactly when missing; otherwise the payload, NaN included |
| FloatElement.Bool | series/type-float.go:150-161 | succeeds only for a present 0 or 1, and is true exactly for 1 |
| FloatElement.Eq | series/type-float.go:163-177 | never true for a present NaN; against a Float: both missing, or both present and IEEE-equal |
| FloatElement.Neq | series/type-float.go:179-184 | exactly the negation of Eq |
| FloatElement.Less | series/type-float.go:186-199 | false when either side is NaN or missing; against a Float, IEEE order |
| FloatElement.LessEq | series/type-float.go:201-214 | false when either side is NaN or missing; against a Float, IEEE order |
| FloatElement.Greater | series/type-float.go:216-229 | false when either side is NaN or missing; against a Float, IEEE order |
| FloatElement.GreaterEq | series/type-float.go:231-244 | false when either side is NaN or missing; against a Float, IEEE order |
| StringElement.Coerce | series/type-string.go:16-65 | an error always leaves the element missing; text is stored verbatim without error, "" as missing |
| StringElement.Set | series/type-string.go:16-65 | the field-by-field assignments produce exactly the element and error of the Set table |
| StringSetIntRoundTrip | series/type-string.go:29-33 | an int or int64 is stored as text that the element's Int reads back to the same number |
| StringElement.IsInf | series/type-string.go:88-98 | true exactly for text that lower-cases to "inf", "-inf" or "+inf" and that ParseFloat reads as an infinity of the asked sign |
| InfinityTextIsNotInf | series/type-string.go:88-98 | "Infinity" parses as +Inf but is not infinite to IsInf |
| ShortInfTextIsInf | series/type-string.go:88-98 | "+Inf" and "-INF" are infinite with their own sign |
| StringElement.String | series/type-string.go:111-116 | fails exactly when missing; otherwise the stored text |
| StringElement.Int | series/type-string.go:118-123 | a missing element fails; a present one gives exactly ParseInt of its text, success or error; on success the element is not NaN |
| StringElement.Uint | series/type-string.go:125-130 | a missing element fails; a present one gives exactly ParseUint of its text, success or error; on success the element is not NaN |
| StringElement.Float | series/type-string.go:132-141 | fails exactly when missing; a present element gives ParseFloat's value of its text, or NaN when the text does not parse; the result is NaN exactly when the element IsNaN |
| StringElement.Bool | series/type-string.go:143-154 | succeeds exactly for present text that lower-cases to true, t, 1, false, f or 0, and is true for the first three |
| StringElement.Eq | series/type-string.go:156-170 | against a String: both missing, or both present with equal text |
| StringElement.Neq | series/type-string.go:172-174 | exactly the negation of Eq |
| StringElement.Less | series/type-string.go:176-186 | false when either side is missing; against a String, lexicographic order of the characters (Go's byte-wise order for valid UTF-8 text) |
| StringElement.LessEq | series/type-string.go:188-198 | false when either side is missing; against a String, lexicographic order or equal text |
| StringElement.Greater | series/type-string.go:200-210 | false when either side is missing; against a String, reversed lexicographic order |
| StringElement.GreaterEq | series/type-string.go:212-222 | false when either side is missing; against a String, reversed lexicographic order or equal text |
| BoolElement.Coerce | series/type-bool.go:13-88 | an error always leaves the element missing, and a missing element holds false |
| BoolElement.Set | series/type-bool.go:13-88 | the field-by-field assignments produce exactly the element and error of the Set table |
| BoolSetForgetsState | series/type-bool.go:13-19 | the result of Set never depends on the element it is applied to |
| BoolSetText | series/type-bool.go:21-30 | text succeeds exactly when it lower-cases to true, t, 1, false, f or 0, gives true for the first three, and agrees with a string element's Bool |
| BoolSetNumber | series/type-bool.go:31-68 | a number never errors; an integer is true when non-zero; a float is false for 0 and NaN and true otherwise, the infinities included |
| BoolElement.String | series/type-bool.go:120-128 | fails exactly when missing; its text Set into a bool element gives the element back |
| BoolElement.Int | series/type-bool.go:130-138 | fails exactly when missing; 1 for true and 0 for false |
| BoolElement.Uint | series/type-bool.go:140-148 | fails exactly when missing; 1 for true and 0 for false |
| BoolElement.Float | series/type-bool.go:150-158 | fails exactly when missing; 1.0 for true and 0.0 for false |
| BoolElement.Bool | series/type-bool.go:160-165 | fails exactly when missing; otherwise the payload |
| BoolElement.Eq | series/type-bool.go:167-181 | against a Bool: both missing, or both present and equal |
| BoolElement.Neq | series/type-bool.go:183-188 | exactly the negation of Eq |
| BoolElement.Less | series/type-bool.go:190-203 | false < true; false when either side is missing or the argument is NaN |
| BoolElement.LessEq | series/type-bool.go:205-218 | false < true; false when either side is missing or the argument is NaN |
| BoolElement.Greater | series/type-bool.go:220-233 | false < true; false when either side is missing or the argument is NaN |
| BoolElement.GreaterEq | series/type-bool.go:235-248 | false < true; false when either side is missing or the argument is NaN |
| Element.IsNaN | series/series.go:40-41 | a missing element of any kind is NaN |
| Element.IsInf | series/series.go:42 | an infinite present element is not NaN |
| Element.Reset | series/type-int.go:15-17 | the state every kind's Set leaves the receiver in before reading its argument: present, same kind, an Int not NaN, a Bool false |
| SetStartsFromReset | series/type-bool.go:13-15 | Set depends on the receiver only through that reset state |
| SelfSetIsReset | series/series.go:576 | a Set whose argument is the receiver itself ends in the reset state without error: a true Bool becomes false, a missing Int present |
| Element.Val | series/series.go:55 | nil exactly for a missing element |
| Element.String | series/series.go:56 | succeeds exactly for a present element or one of a numeric kind |
| Element.Int | series/series.go:57 | succeeds only on a non-NaN element |
| Element.Uint | series/series.go:58 | succeeds only on a non-NaN element |
| Element.Float | series/series.go:59 | fails exactly when missing; NaN exactly when the element is NaN |
| Element.Bool | series/series.go:60 | succeeds only on a present element |
| Element.Eq | series/series.go:46 | two missing elements are equal; a missing and a present one are not |
| Element.Neq | series/series.go:47 | exactly the negation of Eq for every kind |
| Element.Less | series/series.go:48 | true only between present elements; a receiver of a numeric kind never orders when either side is NaN |
| Element.LessEq | series/series.go:49 | true only between present elements; a receiver of a numeric kind never orders when either side is NaN |
| Element.Greater | series/series.go:50 | true only between present elements; a receiver of a numeric kind never orders when either side is NaN |
| Element.GreaterEq | series/series.go:51 | true only between present elements; a receiver of a numeric kind never orders when either side is NaN |
| Element.Coerce | series/series.go:37 | keeps the kind; nil gives a missing element without error; an error leaves a NaN or missing element |
| Element.Set | series/series.go:37 | the kind's Set method produces exactly the outcome of Coerce |
| SameKindSet | series/series.go:368-379 | Setting a fresh element of a kind from an element of that kind succeeds and reproduces it |
| GoTypes.ToUint64 | series/type-uint.go:38-47 | the uint64 cast: congruent modulo 2^64, and the identity on values that fit |
| GoTypes.ToInt64 | series/type-uint.go:152-157 | the int64 cast: congruent modulo 2^64, and the identity on values that fit |
| GoTypes.SignedRoundTrip | series/type-int.go:160-165 | casting an int64 to uint64 and back gives it back |
| GoTypes.UnsignedRoundTrip | series/type-uint.go:152-157 | casting a uint64 to int64 and back gives it back |
| GoTypes.Trunc | series/type-float.go:115-127 | truncation toward zero: the integer part of a real, for either sign |
| Length | series/series.go:167-211 | the number of elements New makes: max(size, 0) for nil, 1 for a scalar, max(len(values), size) for a slice |
| NewElements | series/series.go:190-379 | that many elements of the series type; for nil every one is Set from the default value; past a slice's end every one is missing |
| SetEach | series/series.go:190-379 | fresh storage of n elements holding exactly NewElements of the values, filled by one Set per row |
| SetScalar | series/series.go:399-407 | fresh storage of one element holding exactly NewElements of a scalar |
| ScalarElements | series/series.go:399-407 | a scalar gives one element Set from it, or from the default value when it is nil |
| SetAt | series/series.go:194 | row i is Set from the value and no other row changes |
| NothingFromNothing | series/series.go:190-196 | nil or an empty slice with no size gives no elements, so Append(nil) adds nothing |
| BoolsAreKept | series/series.go:434-437 | a Bool series built from bools holds exactly those bools, all present |
| Series.constructor | series/series.go:14-27 | a header with the given name, type, storage, default value and error |
| Series.NewDefault | series/series.go:160-412 | fresh storage holding NewElements of the values, default and size; name and type as given; no error |
| Series.New | series/series.go:154-156 | NewDefault with a nil default value |
| Series.Empty | series/series.go:440-442 | a fresh series of the same name and type with no elements and no error, so trivially of its type |
| Series.Copy | series/series.go:787-818 | fresh storage with the same elements, name, type and error; the default value is not carried; a series whose elements are all of its type gives such a copy |
| Series.Append | series/series.go:446-466 | the old elements followed by the values Set with the series' type and default; nothing changes when the series has an error; the elements stay of the series' type |
| Joined | series/series.go:453-463 | fresh storage holding the old elements followed by the new ones |
| Series.Concat | series/series.go:471-482 | a copy followed by x's elements Set into this series' type; this series' error is returned as is; an error in x is wrapped and nothing is merged; the result's elements are of its type when this series' are |
| ConcatKeepsValues | series/series.go:471-482 | concatenating a series of the same type keeps each of its elements unchanged |
| ParseIndexes | series/series.go:991-1043 | an int gives itself, an []int itself and an int64 itself; a bool mask must match the length and gives its true positions; an Int series resolves exactly when it has no error, no NaN and every Int succeeds, a Bool series exactly when also of the right length; any other argument errors |
| TruePositions | series/series.go:1005-1014 | exactly the true positions of the mask, in ascending order |
| MaskRowsInRange | series/series.go:1005-1014 | every row a resolved mask gives is inside the series |
| IntSeriesIndexIsItsValues | series/series.go:1015-1029 | an Int series used as indexes resolves exactly as the list of its Int values |
| Gather | series/series.go:498-528 | element k of the subset is the element at row idx[k] |
| Gathered | series/series.go:498-528 | fresh storage whose element k is the element at row idx[k] |
| Series.Subset | series/series.go:485-533 | fresh storage holding the gathered rows; errors in the series or in the indexes come back on a header over the same storage; the rows stay of the series' type |
| Series.Set | series/series.go:536-550 | only the element at index changes: it is Set from the value, or from the default value when the value is nil; nothing changes on an error; the elements stay of the series' type |
| FirstOutOfRange | series/series.go:571-575 | the position of the first index outside the series; all earlier indexes are inside it |
| UpdateRows | series/series.go:571-577 | the loop writes rows until the first index outside the series, reading each source element as the earlier writes left it, and a row Set from itself as Set's reset left it |
| Updated | series/series.go:571-577 | the rows after n steps of the loop: as many as before, and every row no index among the first n names is unchanged |
| Steps | series/series.go:571-577 | the same loop for any write: every row not named by the first n indexes is unchanged |
| SetSelf | series/series.go:576 | a row Set from itself becomes what Set makes of its own reset state |
| UpdateFromItself | series/series.go:571-577 | updating a one-row series from itself at index 0 leaves the reset state: a true Bool row becomes false |
| SetFrom | series/series.go:576 | row i is Set from the given element and no other row changes |
| UpdatedKeepsType | series/series.go:571-577 | every step Sets an element, which keeps its kind, so rows of one type stay of that type |
| UpdatedDistinct | series/series.go:571-577 | with distinct indexes, row idx[k] is Set from source element k and every other row is unchanged |
| Series.Update | series/series.go:554-579 | each error case changes nothing; otherwise the rows are written as UpdateRows does, and an index outside the series gives "index out of range" after the earlier writes; the elements stay of the series' type, so Order and Factorize still apply |
| Series.HasInvalid | series/series.go:582-589 | true exactly when some element is missing |
| Series.HasNaN | series/series.go:671-678 | true exactly when some element is NaN |
| Series.IsNaN | series/series.go:681-687 | one flag per element, true exactly for the NaN elements |
| Series.IsValid | series/series.go:690-696 | one flag per element, true exactly for the present elements |
| CompareElements | series/series.go:706-725 | fails exactly for a comparator other than the six element comparisons; an ordering comparison is true only between present elements |
| Compared | series/series.go:727-783 | In is membership by Eq; a single comparando is broadcast; equal lengths compare row by row; other lengths give "length mismatch"; an unknown comparator errors on a non-empty series |
| CompareRows | series/series.go:727-783 | the three loops give exactly Compared |
| NeqIsComplement | series/series.go:709-712 | comparing with != succeeds exactly when == does, and gives the negated answer in every row |
| InSingleton | series/series.go:730-765 | In against a single value answers exactly as == against it |
| Series.Compare | series/series.go:702-784 | an unnamed Bool series of Compared's answers, or an empty series of this name and type carrying the error; the result's elements are all of its type |
| Series.BoolSeries | series/series.go:434-437 | an unnamed Bool series with one present element per bool, so all of type Bool |
| StrictWeakOrder | series/series.go:1130 | Less between rows that take part in a sort is asymmetric and its negation is transitive, so sorting by it is well defined |
| OrderableMask | series/series.go:1094-1106 | a row takes part in the sort exactly when it is present and, for a numeric series, not NaN |
| Kept | series/series.go:1092-1108 | the rows visited that are kept, each one within the series and kept |
| Dropped | series/series.go:1092-1108 | the rows visited that are dropped, each one within the series and not kept |
| KeptDroppedPermutation | series/series.go:1092-1108 | the kept and dropped rows together are a permutation of the rows visited |
| PartitionRows | series/series.go:1092-1108 | the rows that take part in the sort and the other rows, each in the order met |
| SortRows | series/series.go:1109-1114 | the sort permutes the rows and leaves them sorted by Less, or its reverse |
| SortedCopy | series/series.go:1109-1118 | a sorted permutation of the rows given |
| OrderRows | series/series.go:1089-1120 | a permutation whose prefix is the orderable rows sorted and whose suffix is the other rows in the order met |
| Series.Order | series/series.go:1089-1120 | OrderedRows over all the rows of the series |
| Series.OrderUsingIndex | series/series.go:1046-1085 | an empty original index gives Order; otherwise OrderedRows over the first Len entries of the original index |
| Range | series/series.go:1092 | the row numbers 0 to n-1 |
| Key | series/series.go:642-645 | a row that is neither missing nor a Float NaN is keyed on its String text, which succeeds |
| RowOf | series/series.go:637-654 | a row's NaRow flag, key and value |
| Visit | series/series.go:641-653 | one row keeps every code already handed out and adds at most one unique; a new text gets the next code and its value joins the uniques; a text not NaRow always ends with a code |
| VisitAll | series/series.go:637-655 | visiting rows in order keeps earlier codes, adds at most one unique per row, and gives every visited text that is not NaRow a code |
| Scan | series/series.go:611-655 | numbering all rows from nothing gives at most one unique per row and a code to every text that is not NaRow |
| ScanNumbers | series/series.go:611-655 | visiting rows numbers their texts: codes are distinct, dense, handed out in order of first appearance, and each unique is the value of the first row with its text |
| CodesMeaning | series/series.go:637-655 | -1 exactly for missing and Float NaN rows; otherwise rows share a code exactly when their texts are equal, and the unique under a code is the first value seen with that text |
| CodesFit | series/series.go:609-655 | every code is between -1 and the number of rows visited |
| NumberSorted | series/series.go:620-635 | the sorted pass gives exactly the numbering of the rows in Order(false) sequence |
| CodeRows | series/series.go:637-655 | the second pass continues the numbering over the rows in their own order and writes each row's code |
| NumberRow | series/series.go:620-635 | one step of the sorted pass is Visit on that row; it writes the slot only for a text already numbered |
| CodeRow | series/series.go:637-655 | one step of the second pass is Visit on that row, and only the row's own slot is written: -1 when NaRow, otherwise its text's code |
| FactorizeRows | series/series.go:607-655 | with sort the rows are first visited in Order(false) sequence; codes and uniques are those of the whole numbering |
| Series.Factorize | series/series.go:595-667 | an Int series "codes" and a series "uniques" of this type built from FactorizeRows; an error gives two empty series carrying it |
| Collect | series/series.go:889-900 | the values when every conversion succeeds, else the first error |
| CollectFirstError | series/series.go:889-900 | the result is fixed by the first failing row alone |
| CollectScan | series/series.go:889-900 | the loop that keeps each value and returns at the first error gives exactly Collect |
| ForcedRecords | series/series.go:822-837 | the text of every element, "" for one whose String fails |
| Series.Records | series/series.go:822-837 | with force, ForcedRecords; without it, the texts or the first String error |
| AnyOf | series/series.go:843-867 | true exactly when a row counts as true before any row stops the scan; an error exactly when a present, non-NaN row whose Bool fails comes first, and the error is that row's |
| Series.Any | series/series.go:843-867 | the scan gives exactly AnyOf |
| Series.Int | series/series.go:889-900 | every element's Int, or the first error |
| Series.Uint | series/series.go:903-914 | every element's Uint, or the first error |
| Series.Bool | series/series.go:917-928 | every element's Bool, or the first error |
| Mapped | series/series.go:1272-1276 | the value of f applied to each element, in order |
| Series.Map | series/series.go:1270-1278 | a series of the same name and type made from f's results; every element is of the series' type |
| MapIdentity | series/series.go:1270-1278 | mapping the identity over a series keeps every element unchanged |

## Left out

- `dataframe/arrow.go` is not part of this model: it is glue over Apache Arrow builders and allocators.
- The statistics (`StdDev`, `Mean`, `Median`, `Quantile`, `Max`, `Min`) and `Float(force)`: floating-point arithmetic delegated to gonum.
- `String`/`Str` of a Series: display text only.
- The `Copy` method of each element kind: elements are values here, so a copy is the element itself.
- The reflect-based branch of `NewDefault` for other slice and scalar types: `Values.AnySlice` and `Values.Scalar` stand for it.
- Go's `interface{}` dispatch: `Value` and `Values` are closed sets of the Go types the package handles.
- Series of an unknown type panic in Go; the closed `Type` datatype has no such value.
- A float is an abstract real: no rounding, no overflow to infinity, no negative zero, and no hexadecimal or underscore forms in `ParseFloat`.
- `Strconv.FormatFloat`: only its shape is stated (six decimals, "NaN", "+Inf", "-Inf"), not the exact digits for values that are not exact in six decimals.
- FloatElement.Bool: the error for a payload other than 0 and 1 quotes it in `FormatFloat`'s six decimals, where Go's `%v` prints the shortest decimal that reads back as the same float64 ("2.500000" against Go's "2.5", a 22-digit number against Go's "1e+21"). That shortest form depends on float64 rounding, which the abstract float does not model. The same text reaches `Series.Bool`, `Series.Any` and a Bool element Set from a Float element.
- Strings: Go strings are byte sequences, while `string` here is a sequence of Unicode characters, so text that is not valid UTF-8 cannot be represented. `Strconv.StrLess` compares characters, which agrees with Go's byte-wise `<` only on valid UTF-8.
- `Strconv.ToLower`: ASCII letters only; Go's `strings.ToLower` also folds other Unicode letters.
- Series.Set: an index outside the series panics in Go; this is a precondition.
- Series.Subset: a resolved row outside the series panics in Go; this is a precondition.
- Series.Order: Go's `sort.Sort` is not stable, so only a sorted permutation is stated for the sorted rows, not their order among ties.
- Series.Append: Go's `append` may reuse spare capacity shared with another header; here the storage is always a new array.
- Series.Update: when the new values share this series' storage, `Updated` follows Go's reads one write at a time, and a row with idx[k] == k is Set from itself after Set's reset (`Element.Reset`, `SelfSetIsReset`). `UpdatedDistinct` states the plain answer, row idx[k] becomes source element k, only for distinct indexes and unshared storage.
- Series.Set: in Go, `s.Set(i, s.Elem(i))` hands Set the address of the very row it resets first; `Value.Elem` carries a copy of the element, so the model Sets the row from the element as it was before the call.
- FloatElement.Int: a finite float whose truncation lies outside int64 has no defined result in Go (the conversion is implementation-defined); the model picks wrap-around modulo 2^64, and only the in-range result is stated as Go's.
- FloatElement.Uint: likewise outside uint64; the model wraps modulo 2^64, and only the in-range result is stated as Go's.
- IntElement.Coerce: a float64 or float32 value whose truncation lies outside int64 is implementation-defined in Go; the model wraps modulo 2^64 (likewise `IntElement.Set`).
- UintElement.Coerce: a float value whose truncation lies outside uint64, negative ones included, is implementation-defined in Go; the model wraps modulo 2^64 (likewise `UintElement.Set`).
- Series.OrderUsingIndex: an original index naming a row outside the series panics in Go (series/series.go:1058); this is a precondition.
- Series.Map: Go may hand `f` elements it mutates, and `f` may return nil; here `f` is a function from element to element.
- Series.Compare: the error check after `compareElements` in the `In` loop cannot fire, because `Eq` is always known; the model has no such branch.
- Series.Factorize: it requires `2 * Len < 2^63` so that codes fit in an int64. The `goto exit` on a `String` error cannot be reached, because every row that is keyed has a present text. `order` is a ghost result naming the sorted sequence.
- Series.NewDefault: `defaultValue` is never stored by any constructor in the package, so every series built here has a nil default.
