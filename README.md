# collections — a Dafny model

This project models the core of `collections`, a chainable collection library for
JavaScript and TypeScript. A collection wraps one of two backing stores:

- an array, in `ArrayCollection`;
- a plain object, in `ObjectCollection`, whose string keys keep their insertion order.

Both extend a shared base class. The base offers:

- `each`, `filter`, `first`/`last`, `get` and `contains`;
- `chunkWhile`, `collapse`, `combine`, `keyBy` and `pluck`;
- `reduce`, `sum` and `max`;
- the `where*` family, built on a predicate compiler (`callbackForFilter`) and a
  dotted-path reader (`safeGet`).

An older revision, `src/collection.ts`, is a single class over a `Map` with an
`isArray` flag; the unit tests exercise it.

The Dafny modules follow the source:

| module (file) | models |
|---|---|
| `OrderedMaps` (ordered_maps.dfy) | a JavaScript object as an insertion-ordered list of `(key, value)` pairs; property assignment (`Set`) and a run of assignments (`SetAll`) |
| `JsValues` (js_values.dfy) | the closed `Value` type, `String(v)`, `parseInt`/`parseFloat` on integers, truthiness, `==`, `===`, `<`, property reads, binary `+` |
| `Helpers` (helpers.dfy) | `src/helpers.ts`: `safeGet`, `callbackForFilter`, `range`, `entriesToArray`, `entriesToObject`, `equality`, `negate`, `toNumber`, `valueOf`, `iterate` |
| `Comparisons` (comparisons.dfy) | `compared` from `src/helpers.ts` |
| `Sorting` (sorting.dfy) | `Array.prototype.sort` with a comparator that may throw; `undefined` elements sort last |
| `Chunks` (chunks.dfy) | the `reduce` that `chunk` uses in all three collection classes |
| `SortKeys` (sort_keys.dfy) | the comparators `sort` and `sortBy` build from a field name, a key function or a list of `[field, 'asc' / 'desc']` specs |
| `CollectionBase` (collection_base.dfy) | the base class of `dist/collection.js`, over `Coll`, an array store `SeqColl` or an object store `MapColl`, which stands for the receiver's `all()` |
| `CollectionBuilders` (collection_builders.dfy) | the base methods that build new stores: `chunkWhile`, `collapse`, `combine`, `keyBy`, `pluck` |
| `ArrayCollections` (array_collection.dfy) | the `ArrayCollection` class, with its `items` array as a mutable `seq` field |
| `ObjectCollections` (object_collection.dfy) | the `ObjectCollection` class, with its `items` object as a mutable field of ordered pairs |
| `LegacyCollections` (legacy_collection.dfy) | the `Map`-backed `Collection` class of `src/collection.ts` |

Exceptions are explicit. An operation that can throw returns `Outcome<T> = Ok(value) | TypeError`. Every TypeError the code can raise on data is on its error path, not excluded by a precondition. These include:

- a property read on `null`/`undefined`;
- `.toString()` on `null`/`undefined`;
- `acc[subIndex].push` when `subIndex` is not a valid index;
- `.flat` on an object.

Callbacks are Dafny functions that return an `Outcome`, so a throwing callback is modelled too.

The model follows the code:

- `filter` always collects the kept values into an array (dist/collection.js:83-89), so an object-backed collection loses its keys.
- Filtering twice is the same as filtering once only when the predicate ignores the key (`CollectionBase.FilterIdempotent`). Re-indexing changes the keys a key-dependent predicate sees.
- `sum(field)` reads the single property `cv[field]` (dist/collection.js:187), not a dotted path.
- The legacy `sum` adds values with plain `+` and no `toNumber` (src/collection.ts:162), so a string in the values turns the sum into a concatenation (`LegacyCollections.SumConcatenates`).
- `ArrayCollection.put` reads its key with `parseInt`, so `"0x1"` names slot 1. A key that parses to a negative number writes an own property such as `"-1"` that is not an element. The model keeps only the elements, which stay as they are (see "## Left out"). A key that does not parse (NaN) appends.
- `parseInt` (in `put`, `safeGet` and `combine`) reads a `0x` prefix as base 16, while `parseFloat` (in `toNumber`, `compared` and `max`) stops at the `x`: `"0x10"` is 16 for the first and 0 for the second.

## Model

| member | source | states |
|---|---|---|
| OrderedMaps.Lookup | src/helpers.ts:180-183 | a property is absent exactly when its key is not among the object's keys |
| OrderedMaps.Set | src/helpers.ts:106 | assigning a property keeps the key order and appends a key that is new |
| OrderedMaps.SetLookup | src/helpers.ts:106 | after `obj[k] = v`, `k` reads `v` and every other key reads what it read before |
| OrderedMaps.SetKeepsUnique | src/helpers.ts:106 | an assignment never creates a second property with the same key |
| OrderedMaps.SetAllLookup | src/helpers.ts:105-107 | after a run of assignments each key holds the value of its last assignment, or its old value if none assigned it |
| OrderedMaps.SetAllKeys | src/helpers.ts:105-107 | the keys afterwards are exactly the old keys and the assigned keys |
| OrderedMaps.SetAllKeepsOldKeys | src/helpers.ts:105-107 | existing keys keep their positions at the front of the enumeration order |
| OrderedMaps.FromEntriesOfUnique | src/helpers.ts:103-109 | entries with distinct keys written into an empty object give back the same entries in the same order |
| OrderedMaps.SetAllAgain | src/helpers.ts:105-107 | replaying the same distinct-key assignments changes nothing |
| OrderedMaps.PermutationKeepsUnique | src/object_collection.ts:75-81 | reordering an object's entries keeps its keys distinct |
| JsValues.ToStringCall | src/helpers.ts:78-79 | `v.toString()` throws exactly on null and undefined, and otherwise gives `String(v)` |
| JsValues.DigitsValueOfNatToString | src/collection.ts:10 | the key an index is stored under reads back as that index |
| JsValues.NatToStringInjective | src/collection.ts:10 | distinct positions are stored under distinct keys |
| JsValues.ParseLeadingInt | src/helpers.ts:195-197 | `parseFloat` of an integer string gives NaN exactly when no decimal digit follows the leading white space and sign |
| JsValues.ParseInt | src/array_collection.ts:43 | `parseInt` agrees with `parseFloat` unless a `0x`/`0X` prefix follows the white space and sign |
| JsValues.ParseIntOfHexPrefix | src/array_collection.ts:43 | after a `0x`/`0X` prefix, `parseInt` is NaN exactly when no hex digit follows, and otherwise the signed value of the hex digits at the front |
| JsValues.ParseIntOfIntToString | dist/collection.js:48 | `parseInt` of an integer's decimal form gives the integer back |
| JsValues.ParseIntOfHex | src/array_collection.ts:43 | `parseInt("0x10")` is 16 while `parseFloat("0x10")` is 0 |
| JsValues.ParseIntOfSignedHex | src/array_collection.ts:43 | `parseInt("-0X1f")` is -31: the sign precedes the prefix and hex digits have either case |
| JsValues.ParseIntOfBarePrefix | src/helpers.ts:170-171 | `parseInt("0x")` is NaN while `parseFloat("0x")` is 0 |
| JsValues.ParseIntOfDecimalPrefix | src/helpers.ts:170 | `parseInt(" 42px")` is 42: leading white space is skipped and reading stops at the first non-digit |
| JsValues.ParseLeadingIntOfIntToString | src/helpers.ts:80-81 | `parseFloat` of a number's string form gives the number back |
| JsValues.StringToNumberOfIntToString | src/helpers.ts:54 | the numeric conversion `==` applies to a numeral gives the number back |
| JsValues.StringToNumberOfPrefixed | src/helpers.ts:54 | the `==` conversion reads `"0x10"` as 16 and a bare `"0x"` as NaN |
| JsValues.StringToNumberOfPaddedBinary | src/helpers.ts:54 | the `==` conversion trims white space, line terminators included, around a `0b` literal: `" 0b11\n"` is 3 |
| JsValues.StringToNumberOfSignedHex | src/helpers.ts:54 | the `==` conversion gives NaN for a signed hex literal such as `"-0x10"` |
| JsValues.ArrayIndexOfNatToString | src/helpers.ts:180-183 | an index name selects the element at that index |
| JsValues.ArrayIndexIsCanonical | src/helpers.ts:180-183 | only canonical numerals name array elements |
| JsValues.GetProp | src/helpers.ts:180 | a property read throws exactly when the target is null or undefined |
| JsValues.GetPropOfIndex | src/helpers.ts:180-183 | reading an index name of an array gives the element, or undefined past the end |
| JsValues.StrLessAsymmetric | src/helpers.ts:85 | the string order never puts two strings each before the other |
| JsValues.StrLessTotal | src/helpers.ts:85 | of two different strings one comes first |
| JsValues.StrLessIrreflexive | src/helpers.ts:85 | no string comes before itself |
| JsValues.LocaleCompare | src/helpers.ts:85 | `localeCompare` is 0 exactly on equal strings and negative exactly when the first comes first |
| JsValues.LocaleCompareAntisymmetric | src/helpers.ts:85 | swapping the strings negates `localeCompare` |
| JsValues.RelationalOnNumbers | src/helpers.ts:31-38 | `<`, `>`, `<=`, `>=` on numbers are the integer orderings |
| JsValues.JsPlus | dist/collection.js:187 | `+` adds two numbers and concatenates the string forms when either side is a string |
| Helpers.ArrayEntries | dist/collection.js:78-80 | `Object.entries` of an array pairs each element with its index name, in order |
| Helpers.ArrayEntriesUnique | dist/collection.js:78-80 | an array's entries have distinct keys |
| Helpers.ValueOf | src/helpers.ts:205-210 | a thunk is called and its result returned; any other value comes back unchanged, except that an object with a defined `call` property throws, being called although it is not a function |
| Helpers.ToNumber | src/helpers.ts:195-197 | `toNumber` gives a number exactly when the value's string form starts with a numeral, and NaN otherwise |
| Helpers.ToNumberOfNum | src/helpers.ts:195-197 | `toNumber` leaves a number unchanged |
| Helpers.ToNumberOfNumeral | src/helpers.ts:195-197 | `toNumber` of a numeral string is its number |
| Helpers.SplitPiecesHaveNoDot | src/helpers.ts:167 | no piece of `split('.')` contains a dot |
| Helpers.JoinDotsOfSplit | src/helpers.ts:167 | joining the pieces of `split('.')` with dots gives the path back |
| Helpers.SplitNoDot | src/helpers.ts:167 | a path without a dot splits into itself alone |
| Helpers.SplitAppend | src/helpers.ts:167 | splitting `p.q` gives the pieces of `p` followed by those of `q` |
| Helpers.DropEmpty | src/helpers.ts:167 | `filter(Boolean)` keeps only non-empty segments, each taken from the input |
| Helpers.DropEmptyAppend | src/helpers.ts:167 | `filter(Boolean)` distributes over concatenation |
| Helpers.DoubledDotIgnored | src/helpers.ts:167 | `a..b` yields the same segments as `a.b` |
| Helpers.LeadingDotIgnored | src/helpers.ts:167 | a leading dot yields no extra segment |
| Helpers.StepInto | src/helpers.ts:169-185 | one segment step: into an array, a segment `parseInt` reads as NaN (a `0x` prefix read in base 16) or as an index not below the length stops with the default, and other segments select the element; into anything else, null or undefined throws, an undefined property stops, and otherwise the property is selected |
| Helpers.WalkAppend | src/helpers.ts:168-186 | walking `s1 + s2` is walking `s1` and then `s2` from where it ended, and a walk that stopped stays stopped |
| Helpers.SafeGetSpec | src/helpers.ts:163-188 | with no key the target itself; otherwise the default or the value the walk reached, and a TypeError when the walk throws |
| Helpers.SafeGet | src/helpers.ts:163-188 | the loop over the segments computes `SafeGetSpec` |
| Helpers.SafeGetWalk | src/helpers.ts:168-186 | the segment loop reaches what the walk over the whole segment list reaches |
| Helpers.StepIntoHexSegment | src/helpers.ts:170-177 | into an array, the segment `"0x10"` selects element 16, or stops when there are at most 16 elements, and `"0x"` always stops |
| Helpers.SafeGetStep | src/helpers.ts:169-185 | the loop body performs one `StepInto` |
| Helpers.SafeGetDoubledDot | src/helpers.ts:167 | `safeGet(t, "a..b", d)` equals `safeGet(t, "a.b", d)` |
| Helpers.SafeGetPathIsSegments | src/helpers.ts:167 | a string path behaves as the array of its non-empty segments |
| Helpers.SafeGetField | src/helpers.ts:180-187 | on a one-segment path into an object, a missing or undefined field gives the default and any other field its value |
| Helpers.SafeGetNested | src/helpers.ts:168-186 | once a prefix of the segments reaches a value, the rest is looked up from that value |
| Helpers.SafeGetFailures | src/helpers.ts:169-182 | a non-integer segment into an array, an index not below the length, or a missing key in an object all give the default, whatever segments follow |
| Helpers.Includes | src/helpers.ts:48 | `includes` throws exactly on a receiver that is neither an array nor a string, and on an array tests SameValueZero membership |
| Helpers.CallbackForFilter | src/helpers.ts:12-24 | a function key comes back unchanged as the predicate; a string key compiles to a field comparison on that path |
| Helpers.AsCallback | src/helpers.ts:25-56 | the compiled filter, as a callback, computes `Apply` on every value and key |
| Helpers.DefaultIsLooseTrue | src/helpers.ts:16-19 | with no operator and no value the predicate is `retrieved == true` |
| Helpers.OperatorAloneIsValue | src/helpers.ts:20-23 | with only an operator, that operator becomes the value and `=` the operator |
| Helpers.UnknownOperatorIsEqual | src/helpers.ts:51-54 | any unrecognised operator is loose equality |
| Helpers.HoldsEqual | src/helpers.ts:51-54 | `=` tests `retrieved == value` |
| Helpers.InNotInComplement | src/helpers.ts:47-50 | `not_in` throws exactly when `in` does, and otherwise holds exactly when `in` does not |
| Helpers.BetweenOnNumbers | src/helpers.ts:43-46 | on numbers `between` is `lo <= x <= hi`, both bounds included, and `not_between` is `x < lo or x > hi` |
| Helpers.BetweenNeedsRange | src/helpers.ts:43-46 | `between` and `not_between` throw when the range is null or undefined |
| Helpers.RangeItems | src/helpers.ts:146-154 | the consecutive integers from `min(start, end)` to `max(start, end)` inclusive, `max - min + 1` of them |
| Helpers.RangeSymmetric | src/helpers.ts:147-148 | `range(s, e)` equals `range(e, s)` |
| Helpers.Range | src/helpers.ts:146-154 | the counting loop pushes exactly `RangeItems` |
| Helpers.EntriesToArray | src/helpers.ts:94-96 | the second components of the entries, in order |
| Helpers.EntriesToArrayOfArrayEntries | src/helpers.ts:94-96 | `entriesToArray` undoes `Object.entries` on an array |
| Helpers.EntriesToObject | src/helpers.ts:103-109 | the loop builds the object the entries' assignments give, later entries winning |
| Helpers.Equality | src/helpers.ts:116 | the predicate holds exactly on the values `===` the given one |
| Helpers.EqualityReflexive | src/helpers.ts:116 | a value satisfies its own equality predicate unless it is NaN |
| Helpers.Negate | src/helpers.ts:138 | the negated callback throws exactly when the original does, and otherwise returns the opposite truth value |
| Helpers.NegateTwice | src/helpers.ts:138 | negating twice gives back the original truthiness |
| Helpers.IterateCalls | src/helpers.ts:123-131 | `iterate` makes `2n` calls on `n` elements: the `i`-th call of the `entries()` pass and the `i`-th call of the `Object.keys` pass both pass element `i` under the key name of `i` |
| Comparisons.Compared | src/helpers.ts:77-87 | `compared` throws exactly when either side is null or undefined, and otherwise compares the two string forms |
| Comparisons.ComparedReversed | src/helpers.ts:83-85 | `compared(a, b, true)` equals `compared(b, a, false)` |
| Comparisons.CompareStringsCycle | src/helpers.ts:78-86 | `compared` is not transitive: `" 10"` before `"!"`, `"!"` before `"9"` and `"9"` before `" 10"` |
| Comparisons.CompareStringsReversed | src/helpers.ts:80-85 | on string forms, the reversed comparison is the comparison with the sides swapped |
| Comparisons.CompareStringsAntisymmetric | src/helpers.ts:80-85 | swapping the sides negates the result |
| Comparisons.ComparedAntisymmetric | src/helpers.ts:77-87 | when `compared(a, b)` returns, `compared(b, a)` returns its negation |
| Comparisons.ComparedOk | src/helpers.ts:77-87 | on non-nullish values `compared` returns the string-form comparison |
| Comparisons.ComparedSelf | src/helpers.ts:77-87 | a non-nullish value compares as 0 with itself |
| Comparisons.CompareStringsSelf | src/helpers.ts:80-85 | a string compares as 0 with itself |
| Comparisons.CompareNumerals | src/helpers.ts:80-83 | two numerals compare by the difference of their numbers, reversed when asked |
| Comparisons.ComparedNumbers | src/helpers.ts:80-83 | two numbers compare by their difference |
| Comparisons.ComparedNumericStrings | src/helpers.ts:80-83 | `"10"` compares after `"9"` although it comes first in string order |
| Comparisons.ComparedStrings | src/helpers.ts:78-85 | two strings compare by their own texts |
| Comparisons.CompareStringsOfParsed | src/helpers.ts:80-83 | when both texts parse as numbers, the result is the numeric difference |
| Sorting.Insert | src/array_collection.ts:57 | inserting one element gives a permutation of the input plus that element |
| Sorting.SortWith | src/array_collection.ts:57 | a sort that returns gives a permutation of the input |
| Sorting.InsertSorted | src/array_collection.ts:57 | inserting into a sorted list keeps it sorted under an antisymmetric comparator |
| Sorting.SortWithSorted | src/array_collection.ts:57 | a sort that returns is sorted under an antisymmetric comparator |
| Sorting.InsertFails | src/array_collection.ts:57 | insertion throws when the new element makes the comparator throw, and returns when no element does |
| Sorting.SortWithFails | src/array_collection.ts:57 | the sort throws exactly when there are two elements or more and one of them makes the comparator throw |
| Sorting.SortWithTotal | src/array_collection.ts:57 | a comparator that never throws gives a sort that never throws |
| Sorting.SortWithShort | src/array_collection.ts:57 | lists of at most one element are returned as they are, without calling the comparator |
| Sorting.SplitUndefined | src/array_collection.ts:57 | splits the elements into the defined ones and the `undefined` ones, a permutation of the input |
| Sorting.ArraySort | src/array_collection.ts:57 | `Array.prototype.sort` returns a permutation with every `undefined` after the defined elements |
| Sorting.ArraySortSorted | src/array_collection.ts:57 | the defined elements come out in comparator order |
| Sorting.ArraySortFails | src/array_collection.ts:57 | the sort throws exactly when two or more defined elements include one that makes the comparator throw |
| Chunks.SubIndex | src/array_collection.ts:19 | `Math.floor(ind / size)` is defined exactly when `size` is not 0; with a negative size it is 0 only at index 0 and never positive |
| Chunks.ChunkAccSnoc | src/array_collection.ts:18-26 | the reduce's step on one more element puts it at its sub-index in the chunks so far |
| Chunks.ChunkAccThrowsOnPrefix | src/array_collection.ts:18-26 | once a prefix throws the whole reduce throws |
| Chunks.LayoutPush | src/array_collection.ts:20-21 | when `acc.length == subIndex` the element starts a new chunk |
| Chunks.LayoutExtend | src/array_collection.ts:22-23 | otherwise the element is appended to the last chunk |
| Chunks.ChunkAccLayout | src/array_collection.ts:18-26 | for a positive size, chunk `i` holds exactly the elements at `i*size .. i*size+size-1` |
| Chunks.LayoutFlattenPrefix | src/array_collection.ts:18-26 | the first `j` chunks concatenated are the first `j*size` elements |
| Chunks.LayoutShape | src/array_collection.ts:18-26 | that layout concatenates back to the input, every chunk but the last is full, and the last is non-empty |
| Chunks.ChunkAccShape | src/array_collection.ts:17-27 | for a positive size the reduce returns; the chunks concatenate to the input, all but the last have `size` elements, and the last has between 1 and `size` |
| Chunks.ChunkAccZero | src/array_collection.ts:19-23 | with size 0 the reduce returns only on the empty array |
| Chunks.ChunkAccFirst | src/array_collection.ts:20-21 | for a non-zero size the first element starts the first chunk |
| Chunks.ChunkAccNegative | src/array_collection.ts:19-23 | with a negative size the reduce returns exactly on at most one element, and one element gives one chunk |
| Chunks.ChunkAccMembers | src/array_collection.ts:18-26 | every element of every chunk is an input element |
| Chunks.ChunkReduce | src/array_collection.ts:18-26 | the reduce loop computes `ChunkAcc` |
| SortKeys.DefaultComparator | src/array_collection.ts:57 | without a compare function the comparator is `compared(a, b, descending)`, and otherwise it is the one given |
| SortKeys.FirstNonZero | src/array_collection.ts:67-73 | 0 exactly when every result is 0; otherwise the first non-zero result, or the first throw, after zeros only |
| SortKeys.FirstNonZeroNegated | src/array_collection.ts:67-73 | negating every result negates the first non-zero one |
| SortKeys.SpecCompare | src/array_collection.ts:66-74 | a spec list compares by the first field whose comparison is not 0, and gives 0 when all fields tie |
| SortKeys.CompareBySpecs | src/array_collection.ts:67-73 | the loop over the specs with its early return computes `SpecCompare` |
| SortKeys.KeyDiff | src/array_collection.ts:76-78 | a key function orders by `key(a) - key(b)`, or `key(b) - key(a)` when descending, and throws when either call throws |
| SortKeys.DescendingSwaps | src/array_collection.ts:60-80 | for a field or key function, descending order is ascending order with the sides swapped |
| SortKeys.NameCompareSwaps | src/array_collection.ts:62-64 | a field comparison in descending order is the ascending one with the sides swapped |
| SortKeys.SpecStepDescending | src/array_collection.ts:68 | a `'desc'` spec compares with the sides swapped |
| SortKeys.NameCompareAntisymmetric | src/array_collection.ts:62-64 | a field comparison is antisymmetric |
| SortKeys.SpecCompareAntisymmetric | src/array_collection.ts:66-74 | a spec-list comparison is antisymmetric |
| SortKeys.KeyComparatorAntisymmetric | src/array_collection.ts:60-80 | every `sortBy` comparator is antisymmetric |
| SortKeys.ComparedComparatorAntisymmetric | src/array_collection.ts:57 | the default `compared` comparator is antisymmetric |
| SortKeys.OnValues | src/object_collection.ts:75-81 | an entry comparator compares the entries' values |
| SortKeys.OnValuesAntisymmetric | src/object_collection.ts:75-81 | comparing entries by value keeps antisymmetry |
| CollectionBase.Entries | dist/collection.js:78-80 | an array's entries are its index names and elements in order; an object's are its properties |
| CollectionBase.Length | dist/collection.js:6-8 | `length` is the number of entries |
| CollectionBase.KeysOf | dist/collection.js:136-138 | `keys()` is the array of entry keys in order |
| CollectionBase.ValuesOf | dist/collection.js:193-195 | `values()` is the array of entry values in order |
| CollectionBase.ValuesOfSeqColl | dist/collection.js:193-195 | `values()` of an array collection is the same array |
| CollectionBase.Each | dist/collection.js:70-77 | `each` visits entries in order and stops right after the first callback that returns exactly `false`; a throw propagates from the first entry that throws |
| CollectionBase.FilterCallback | dist/collection.js:82 | a missing callback is truthiness (`Boolean`) |
| CollectionBase.Select | dist/collection.js:83-88 | returns exactly when the callback returns on every entry; keeps every value the callback accepts and no other |
| CollectionBase.SelectSubsequence | dist/collection.js:81-90 | the kept values are a subsequence of `values()`, in their original order |
| CollectionBase.Filter | dist/collection.js:81-90 | the `each` loop pushing kept values computes `FilterSpec` |
| CollectionBase.FilterLoop | dist/collection.js:83-88 | the push loop computes `Select` |
| CollectionBase.FilterDefault | dist/collection.js:82 | with no callback `filter` never throws and keeps exactly the truthy values, in order |
| CollectionBase.SelectPartition | dist/collection.js:81-90 | a filter and its negated filter partition the values |
| CollectionBase.SelectAgain | dist/collection.js:81-90 | filtering the re-indexed result again with a key-independent callback changes nothing |
| CollectionBase.FilterIdempotent | dist/collection.js:81-90 | `c.filter(p).filter(p)` equals `c.filter(p)` when `p` ignores the key |
| CollectionBase.FirstMatch | dist/collection.js:100-107 | the first accepted entry, with every earlier entry rejected; none when all are rejected; a throw at the first entry that throws |
| CollectionBase.LastMatch | dist/collection.js:148-155 | the last accepted entry, with every later entry rejected; none when all are rejected; a throw at the last entry that throws |
| CollectionBase.First | dist/collection.js:91-109 | with no callback the first value, or null when empty; with a callback the value of the first match, or null |
| CollectionBase.FirstScan | dist/collection.js:100-107 | the `each` scan with early stop computes `FirstMatch` |
| CollectionBase.Last | dist/collection.js:139-157 | with no callback the last value, or null when empty; with a callback the value of the last match, or null |
| CollectionBase.LastScan | dist/collection.js:148-155 | the backward loop with `break` computes `LastMatch` |
| CollectionBase.Contains | dist/collection.js:52-66 | with a value, SameValueZero membership among the values; with a callback, whether some entry matches, throwing as the scan does |
| CollectionBase.KeyMatch | dist/collection.js:111 | the first entry whose key is `==` the requested key, with no earlier one matching |
| CollectionBase.KeyMatchAt | dist/collection.js:111-113 | the first loosely matching entry is the one `get` returns |
| CollectionBase.LooseEqStrings | dist/collection.js:111 | two strings are `==` exactly when they are equal |
| CollectionBase.GetOfMapKey | dist/collection.js:110-116 | `get` on an object returns the property's value, or the default passed through `valueOf` |
| CollectionBase.LooseEqStrNum | dist/collection.js:111 | a string key is `==` a number exactly when it converts to that number |
| CollectionBase.LooseEqIndexName | dist/collection.js:111 | an index name is `==` the number `i` exactly when it names index `i` |
| CollectionBase.GetOfIndex | dist/collection.js:110-116 | `get(i)` and `get("i")` on an array return element `i` |
| CollectionBase.GetMissing | dist/collection.js:110-116 | with no matching key `get` returns `valueOf(default)`, calling a thunk default |
| CollectionBase.FoldAppend | dist/collection.js:179-184 | folding a concatenation folds the first part and then the second from that result |
| CollectionBase.Reduce | dist/collection.js:179-184 | the loop reassigning the accumulator is the left fold over the entries in order |
| CollectionBase.MapValues | dist/collection.js:190 | `values().map(f)` applies `f` to each value with its index name, and throws exactly when some call throws |
| CollectionBase.Sum | dist/collection.js:185-192 | `sum()` and `sum(field)` are `reduce(pv + toNumber(v or v[field]), 0)`; `sum(f)` adds the mapped values |
| CollectionBase.SumOfNumbers | dist/collection.js:186-187 | `sum()` of numbers is their integer sum |
| CollectionBase.SumStepAddsNumbers | dist/collection.js:187 | each step of `sum()` adds a number to a numeric accumulator |
| CollectionBase.FoldAdds | dist/collection.js:179-187 | a fold whose step adds numbers gives the integer sum |
| CollectionBase.SumNeverThrows | dist/collection.js:187 | `sum()` with no key never throws |
| CollectionBase.SumFieldOfNull | dist/collection.js:187 | `sum(field)` throws on a null value |
| CollectionBase.ParseFloatOfNum | dist/collection.js:159 | `parseFloat` of a number gives the number |
| CollectionBase.ParsedNumbersMembers | dist/collection.js:159 | after `map(parseFloat).filter(!isNaN)` the numbers left are exactly those some value parses to |
| CollectionBase.ParsedNumbersOfNums | dist/collection.js:159 | numbers pass through `map(parseFloat).filter(!isNaN)` unchanged |
| CollectionBase.MinOf | dist/collection.js:159 | `Math.min` returns the least argument, or +Infinity on no arguments |
| CollectionBase.MaxOf | dist/collection.js:158-160 | `Math.max` returns the greatest argument, or -Infinity on no arguments |
| CollectionBase.MaxAsWritten | dist/collection.js:158-160 | `max()` as written returns a parsed value no greater than any other, that is, the minimum |
| CollectionBase.MaxIntended | dist/collection.js:158-160 | the intended `max()` returns a parsed value no smaller than any other, or -Infinity exactly when nothing parses |
| CollectionBase.MaxReturnsMinimum | dist/collection.js:158-160 | on `[1, 3]`, `max()` as written gives 1 and the intended maximum is 3 |
| CollectionBase.Where | dist/collection.js:196-198 | `where` filters with the compiled `callbackForFilter` predicate |
| CollectionBase.WhereBetween | dist/collection.js:199-201 | `whereBetween` is `where(key, 'between', range)` |
| CollectionBase.WhereIn | dist/collection.js:202-204 | `whereIn` is `where(key, 'in', items)` |
| CollectionBase.WhereNotBetween | dist/collection.js:205-207 | `whereNotBetween` is `where(key, 'not_between', range)` |
| CollectionBase.WhereNotIn | dist/collection.js:208-210 | `whereNotIn` is `where(key, 'not_in', items)` |
| CollectionBase.WhereNotNull | dist/collection.js:211-213 | `whereNotNull` is `where(key, '!==', null)` |
| CollectionBase.WhereNull | dist/collection.js:214-216 | `whereNull` is `where(key, '===', null)` |
| CollectionBase.ShorthandOperators | dist/collection.js:199-216 | each shorthand compiles to the named operator; `between` with no value instead falls back to `= 'between'` |
| CollectionBase.NullTests | dist/collection.js:211-216 | the null tests throw exactly when `safeGet` does; `whereNull` keeps a value exactly when its field reads null, and `whereNotNull` exactly when it reads something else |
| CollectionBase.NullComparison | src/helpers.ts:39-42 | `=== null` and `!== null` on the retrieved field |
| CollectionBase.HoldsNull | src/helpers.ts:39-42 | `=== null` holds exactly on null and `!== null` exactly on everything else |
| CollectionBase.WhereNullSplits | dist/collection.js:211-216 | `whereNull` and `whereNotNull` throw on the same collections; every value the first keeps reads null at the path, and every value the second keeps does not |
| CollectionBuilders.ExtendLast | dist/collection.js:31 | pushing onto the last chunk adds the value at the end of the flattened chunks |
| CollectionBuilders.StartChunk | dist/collection.js:34 | starting a chunk adds a one-element chunk |
| CollectionBuilders.ChunkStep | dist/collection.js:30-35 | one step adds exactly the entry's value to the flattened chunks, and keeps every chunk non-empty |
| CollectionBuilders.ChunkStepCases | dist/collection.js:30-35 | a truthy callback extends the current chunk (and throws when there is none), a falsy one starts a new chunk, and a throwing one throws |
| CollectionBuilders.ChunkWhileSpec | dist/collection.js:27-38 | the chunks concatenate to all values in order, none is empty, and there are none exactly when the collection is empty |
| CollectionBuilders.ChunkWhileSnoc | dist/collection.js:29-36 | `chunkWhile` on one more entry is one more step |
| CollectionBuilders.ChunkWhile | dist/collection.js:27-38 | the `each` loop computes `ChunkWhileResult` |
| CollectionBuilders.ChunkWhileLoop | dist/collection.js:29-36 | the loop over the entries computes `ChunkWhileSpec` |
| CollectionBuilders.ChunkWhileStep | dist/collection.js:30-35 | when a step succeeds, a new chunk starts exactly when the callback on the chunk so far is falsy |
| CollectionBuilders.ChunkWhileThrowsOnPrefix | dist/collection.js:29-36 | once a prefix throws the whole `chunkWhile` throws |
| CollectionBuilders.ChunkWhileFirstAccepted | dist/collection.js:30-31 | a callback that accepts the first value on the empty chunk makes `chunkWhile` throw |
| CollectionBuilders.Collapse | dist/collection.js:39-41 | `collapse` throws exactly on an object-backed collection, where there is no `flat` |
| CollectionBuilders.FlatOfArrs | dist/collection.js:40 | `flat()` of arrays is their concatenation |
| CollectionBuilders.FlatOfScalars | dist/collection.js:40 | `flat()` leaves a list without arrays unchanged |
| CollectionBuilders.ChunkWhileCollapse | dist/collection.js:27-41 | `chunkWhile(f).collapse()` gives back `values()` |
| CollectionBuilders.CombinedValue | dist/collection.js:48 | the value combined under a key is never undefined, which becomes null |
| CollectionBuilders.CombinePairs | dist/collection.js:47-49 | one assignment per entry: the value's string form as the key, and the item at the entry's parsed key as the value |
| CollectionBuilders.ReadCombined | dist/collection.js:48 | reading `items[parseInt(k)]` throws exactly when `items` is null or undefined |
| CollectionBuilders.Combine | dist/collection.js:45-51 | the `each` loop writing `newObject` computes `CombineSpec` |
| CollectionBuilders.CombinedValueOfIndex | dist/collection.js:48 | index `i` of an array combines to `items[i]`, or null when it is out of range or undefined |
| CollectionBuilders.CombinedValueAt | dist/collection.js:48 | the combined value is the property the parsed key names, with undefined and failed reads as null |
| CollectionBuilders.CombineArrays | dist/collection.js:45-51 | combining arrays with distinct string forms maps the `i`-th value to `items[i]`, or null out of range |
| CollectionBuilders.CombineLaterWins | dist/collection.js:47-49 | on a repeated key the later entry's value wins, and keys no entry writes are absent |
| CollectionBuilders.KeyPairs | dist/collection.js:119-133 | the re-keying returns exactly when every entry's key expression returns |
| CollectionBuilders.KeyBy | dist/collection.js:117-135 | the `each` loop writing `newObject` computes `KeyBySpec` |
| CollectionBuilders.KeyByLoop | dist/collection.js:119-133 | the loop throws when a key read throws, and otherwise builds the object of the kept pairs |
| CollectionBuilders.LastKeyed | dist/collection.js:117-133 | the last entry whose key expression is `k`, with no later one |
| CollectionBuilders.KeyByLastWins | dist/collection.js:117-135 | under key `k` sits the value of the last entry keyed `k`, and no key is present that no entry produced |
| CollectionBuilders.KeyByFieldSound | dist/collection.js:119-124 | every value stored under `k` has a defined field whose string form is `k` |
| CollectionBuilders.RecordOf | dist/collection.js:164 | collecting a value for `pluck` throws exactly on null and undefined |
| CollectionBuilders.PluckValues | dist/collection.js:165-167 | without a key field, one plucked value per entry in order |
| CollectionBuilders.PluckPairs | dist/collection.js:168-170 | with a key field, one `(key, value)` assignment per entry in order |
| CollectionBuilders.Pluck | dist/collection.js:161-173 | the `each` loop computes `PluckSpec` |
| CollectionBuilders.PluckLoop | dist/collection.js:163-171 | the loop over the entries computes `Plucked` |
| CollectionBuilders.PluckFromObjects | dist/collection.js:161-173 | plucking a field from objects gives, at each position, the object's field or undefined |
| CollectionBuilders.FieldOfObject | dist/collection.js:166 | `record.get(field)` on an object is the field's value, or undefined |
| ArrayCollections.RelativeIndex | src/array_collection.ts:53 | a slice bound is clamped into `0..length`, and an in-range bound is kept |
| ArrayCollections.JsSlice | src/array_collection.ts:53 | `Array.prototype.slice` returns a contiguous window of the array |
| ArrayCollections.ArrayCollection.constructor | src/array_collection.ts:8-11 | the collection holds the given array |
| ArrayCollections.ArrayCollection.All | src/array_collection.ts:13-15 | `all()` is the items, whose entries are their index names and elements |
| ArrayCollections.ArrayCollection.Count | src/array_collection.ts:29-31 | `count()` equals `items.length` and the base `length` |
| ArrayCollections.ArrayCollection.Push | src/array_collection.ts:37-40 | `push(...vs)` appends `vs` in order, in place, and the count grows by `|vs|` |
| ArrayCollections.ArrayCollection.Put | src/array_collection.ts:42-50 | a key `parseInt` reads (hex prefix included) as an index below the length replaces that slot; a negative one leaves the elements unchanged; any other key, NaN included, appends |
| ArrayCollections.ArrayCollection.Chunk | src/array_collection.ts:17-27 | `chunk(size)` collects the reduce's chunks as arrays |
| ArrayCollections.ArrayCollection.Map | src/array_collection.ts:33-35 | `map` keeps the length and puts `cb(v, k)` at each position, and throws exactly when some call throws |
| ArrayCollections.ArrayCollection.Slice | src/array_collection.ts:52-54 | a contiguous window: `items[offset..]` when `length` is falsy, including 0, and `items[offset .. offset+length)` when it fits |
| ArrayCollections.ArrayCollection.Sort | src/array_collection.ts:56-58 | a permutation of the items with undefined last; with `compared` it is in order, and it throws exactly when two defined elements or more include a null |
| ArrayCollections.ArrayCollection.SortBy | src/array_collection.ts:60-80 | a permutation of the items with undefined last, in the order of the field, spec-list or key-function comparator |
| ArrayCollections.SortedCollection | src/array_collection.ts:57 | the sorted copy is collected as an array, and throws exactly when the sort does |
| ArrayCollections.ComparedFailsOnNullish | src/array_collection.ts:57 | the default comparator throws exactly on null and undefined operands |
| ArrayCollections.ChunkShape | src/array_collection.ts:17-27 | every chunk but the last has exactly `size` elements, the last has between 1 and `size`, and the chunks concatenate to the items |
| ArrayCollections.ChunkCollapse | src/array_collection.ts:17-27 | `chunk(size).collapse()` gives back the items |
| ArrayCollections.ChunkNonPositive | src/array_collection.ts:19-23 | with size 0 only the empty array chunks, and with a negative size only arrays of at most one element |
| ArrayCollections.MapIdentity | src/array_collection.ts:33-35 | mapping with the identity gives the same array |
| ObjectCollections.MapEntries | src/object_collection.ts:36-42 | the same keys in the same order, each value replaced by `cb(v, k)`; throws exactly when some call throws |
| ObjectCollections.SliceAsWrittenEntries | src/object_collection.ts:56-71 | as written, a positive offset gives no entries, and an offset of at most 0 with a falsy length gives all of them |
| ObjectCollections.SliceWindow | src/object_collection.ts:56-71 | the intended window: entries `offset..` when `length` is falsy, `offset .. offset+length)` when it fits, at most `length` entries, none past the end |
| ObjectCollections.ObjectCollection.constructor | src/object_collection.ts:8-11 | the collection holds the given object |
| ObjectCollections.ObjectCollection.All | src/object_collection.ts:13-15 | `all()` is the object, whose entries are its properties |
| ObjectCollections.ObjectCollection.Count | src/object_collection.ts:17-19 | `count()` is the number of own keys and the base `length` |
| ObjectCollections.ObjectCollection.Chunk | src/object_collection.ts:21-34 | the loop writing `acc[subIndex][key]` computes the reduce's chunks as objects |
| ObjectCollections.ObjectCollection.Map | src/object_collection.ts:36-42 | the same keys in the same order, each value replaced by `cb(v, k)`; throws exactly when some call throws |
| ObjectCollections.ObjectCollection.Push | src/object_collection.ts:44-49 | the object after the assignments of both `iterate` passes |
| ObjectCollections.ObjectCollection.Put | src/object_collection.ts:51-54 | `put(k, v)` sets `k` to `v` in place and leaves every other key unchanged |
| ObjectCollections.ObjectCollection.SliceAsWritten | src/object_collection.ts:56-71 | as written, every entry when the test passes at index 0, and none otherwise |
| ObjectCollections.ObjectCollection.Slice | src/object_collection.ts:56-71 | with `index` counting entries and the end excluded, the entries of `SliceWindow` |
| ObjectCollections.ObjectCollection.Sort | src/object_collection.ts:73-82 | the same key/value pairs reordered; with `compared`, values in order, and a throw exactly when there are two entries or more and a value is nullish |
| ObjectCollections.ObjectCollection.SortBy | src/object_collection.ts:84-106 | the same key/value pairs reordered, values in the order of the `sortBy` comparator |
| ObjectCollections.EntryComparatorFails | src/object_collection.ts:79 | the default entry comparator throws exactly on entries with a nullish value |
| ObjectCollections.SliceLoop | src/object_collection.ts:59-69 | the corrected loop over the entries computes `SliceWindow` |
| ObjectCollections.SortOnValuesOrders | src/object_collection.ts:75-81 | sorting entries by value under an antisymmetric comparator puts the values in order |
| ObjectCollections.DefaultSortThrows | src/object_collection.ts:75-81 | the default entry sort throws exactly when there are two entries or more and a value is nullish |
| ObjectCollections.SortedObject | src/object_collection.ts:81 | `entriesToObject` of the sorted entries keeps the pairs and their order |
| ObjectCollections.ChunkVisit | src/object_collection.ts:24-32 | one reduce step on a key computes the chunks one entry further |
| ObjectCollections.ChunkKeyIsNew | src/object_collection.ts:30 | the key written into a chunk is never already there |
| ObjectCollections.SliceWindowStep | src/object_collection.ts:60-68 | each entry extends the window if its position lies inside it, and otherwise leaves it unchanged |
| ObjectCollections.ChunkLayout | src/object_collection.ts:21-34 | chunk `i` holds the properties at positions `i*size .. i*size+size-1` with their values, and the chunks together are the items |
| ObjectCollections.PushOnce | src/object_collection.ts:44-49 | the second `iterate` pass rewrites the same values, so the net effect is one assignment per index |
| ObjectCollections.PushSetsIndices | src/object_collection.ts:44-49 | after `push(...vs)`, key `"i"` holds `vs[i]` |
| ObjectCollections.PushKeepsOtherKeys | src/object_collection.ts:44-49 | keys that are not index names of `vs` keep their values |
| ObjectCollections.PushKeepsOrder | src/object_collection.ts:44-49 | existing keys keep their order at the front |
| ObjectCollections.SliceIgnoresPosition | src/object_collection.ts:56-71 | on `{a: 1, b: 2}`, `slice(1)` as written is empty, while the intended window is `{b: 2}` |
| ObjectCollections.MapIdentity | src/object_collection.ts:36-42 | mapping with the identity gives the same object |
| LegacyCollections.AllOf | src/collection.ts:46-48 | `all()` is the values for an array-built collection and an object with distinct keys otherwise |
| LegacyCollections.MapIndexed | src/collection.ts:143 | `Array.prototype.map` calls back with the position as a number, keeps the length, and throws exactly when some call throws |
| LegacyCollections.StrKeyed | src/collection.ts:146-148 | on an object `map` passes the key string |
| LegacyCollections.Collection.FromArray | src/collection.ts:7-11 | the keys are `"0".."n-1"` in order and `isArray` is set |
| LegacyCollections.Collection.FromObject | src/collection.ts:12-18 | the object's own keys in their enumeration order, with `isArray` cleared |
| LegacyCollections.Collection.Length | src/collection.ts:21-23 | `length` is the number of keys |
| LegacyCollections.Collection.All | src/collection.ts:46-48 | the values as an array, or `Object.fromEntries` of the map |
| LegacyCollections.Collection.Chunk | src/collection.ts:68-78 | a new array-built collection of the reduce's chunks, throwing exactly when the reduce does |
| LegacyCollections.Collection.Each | src/collection.ts:87-94 | visits entries in order and stops right after the first callback returning exactly `false` |
| LegacyCollections.Collection.Get | src/collection.ts:113-118 | the stored value when the key is present, and the default otherwise |
| LegacyCollections.Collection.First | src/collection.ts:96-111 | with no callback the first value or null; with one, the first value accepted by position, after rejections only, or null |
| LegacyCollections.Collection.Last | src/collection.ts:124-139 | with no callback the last value or null; with one, the last value accepted by position, or null |
| LegacyCollections.Collection.ValueAt | src/collection.ts:103-104 | looking up the key at position `i` in `keys()` reads the value at position `i` |
| LegacyCollections.Collection.KeysColl | src/collection.ts:120-122 | `keys()` is a new array-built collection of the keys in order |
| LegacyCollections.Collection.Values | src/collection.ts:168-170 | `values()` is a new array-built collection of the values in order |
| LegacyCollections.Collection.Map | src/collection.ts:141-151 | on an array it keeps the length and order; on an object it keeps the same keys; it throws exactly when a call does |
| LegacyCollections.Collection.Reduce | src/collection.ts:153-158 | the left fold of `callback(acc, v)` over the values |
| LegacyCollections.Collection.Sum | src/collection.ts:160-166 | the left fold of `+` over the values or their field, or the mapped values added |
| LegacyCollections.ArrayRoundTrip | src/collection.ts:46-48 | `all()` of an array-built collection is the original array, and `length` is its length |
| LegacyCollections.ObjectRoundTrip | src/collection.ts:46-48 | `all()` of an object-built collection is the original object |
| LegacyCollections.KeysInOrder | src/collection.ts:120-122 | `keys().all()` lists the keys in their stored order |
| LegacyCollections.KeysExample | tests/unit.test.ts:50-58 | `keys().all()` of the product object is `['prod-100', 'prod-200']` |
| LegacyCollections.ChunkOfSeven | tests/unit.test.ts:38-40 | `chunk(4)` of `[1..7]` gives `[[1,2,3,4],[5,6,7]]` |
| LegacyCollections.FoldValuesAgrees | src/collection.ts:153-158 | the legacy reduce over values is the base fold with the key ignored |
| LegacyCollections.LegacySumOfNumbers | src/collection.ts:160-162 | `sum()` of numbers is their integer sum |
| LegacyCollections.SumExample | tests/unit.test.ts:17-19 | `sum()` of `[1, 2, 3]` is 6 |
| LegacyCollections.SumFieldExample | tests/unit.test.ts:21-26 | `sum('pages')` of the two books is 1272 |
| LegacyCollections.SumConcatenates | src/collection.ts:162 | `sum()` of `[1, "2"]` is the string `"12"`, since there is no numeric conversion |

## Left out

- Iteration protocols: the `Symbol.iterator` of the base class and the `next`/`currentIndex` cursor of the legacy class are JavaScript iterator machinery, without collection logic.
- `random()`: it depends on `Math.random`.
- `avg`/`average`: a floating-point division of `sum` by `length`; numbers here are integers.
- `containsOneItem` and the base `collect()`: one-line delegations (`length == 1`, and `collect(all())`), with nothing to state beyond `Length` and the backing store.
- The `collect` dispatch of `src/helpers.ts:64-75` is modelled only where its argument can be any value, in `pluck` (`CollectionBuilders.RecordOf`). There, arrays and strings give a list, objects a `MapColl`, null and undefined throw when read, and other scalars give a one-element list. Everywhere else its argument is an array, which gives `SeqColl`, or an object, which gives `MapColl`. Iterables other than arrays and strings are not values of the model, and neither are functions.
- Floating point: numbers are integers, and NaN is a separate value, so `-0` is 0. `parseFloat` reads an optional sign and a run of decimal digits after leading white space (the standard's white space and line terminators, U+FEFF and the Zs spaces included); `parseInt` also reads a `0x` prefix in base 16; `Number(s)` also reads unsigned `0x`, `0o` and `0b` literals. Fractions, exponents and `Infinity` literals are not modelled. `Math.round` in `range` is the identity on integers.
- `localeCompare` is code-point lexicographic order. Locale collation is not modelled. Strings are sequences of Unicode scalar values, so JavaScript's UTF-16 code units are not modelled either: for characters outside the Basic Multilingual Plane, string order, `length` and index reads in `GetProp` differ from JavaScript's.
- Object key order is insertion order. JavaScript enumerates integer-like keys first, in numeric order; the model does not.
- Object identity: `===`, SameValueZero and `includes` compare arrays and objects by content. The model has no references.
- Coercion of arrays and objects to primitives uses their string form only. `valueOf`/`toString` overrides and symbols are not modelled.
- Functions are not values. A callback is a Dafny function returning an `Outcome`; `valueOf`'s thunk is a separate `Lazy` variant. A callback cannot mutate the collection it is called on.
- Prototype properties are not modelled: a property read sees only own properties (and a string's `length` and characters), so `safeGet(obj, "toString")` or `keyBy("constructor")`, which reach a function in JavaScript, reach `undefined` in the model.
- `Array.prototype.sort` is an insertion sort with a comparator that may throw. The standard requires the engine's sort to be stable; no lemma states stability of the model's sort. For comparators that are not a consistent order (antisymmetric and transitive), including the default `compared` on mixed numeric and non-numeric strings (`Comparisons.CompareStringsCycle`), and for the order of comparator calls, an engine may return a different order or throw at a different point.
- `push`, `put` and the other chaining methods return `this`. The model's methods return nothing, or the new collection; chaining is not modelled.
- `ArrayCollections.ArrayCollection.Put`: non-index properties written by a negative key are not kept. In JavaScript, `put("-1", 9)` on `[1,2]` adds an own property `"-1"` that `entries()` lists after the elements, so `values()` is then `[1,2,9]` and `last()` is 9. The model's `items` is the elements only and stays `[1,2]`.
- `ArrayCollections.ArrayCollection.Push`: `push` on an array that is shared elsewhere mutates the other holders too. The model's `items` is a value, so aliasing is not modelled.
- The legacy class's commented-out `chunkWhile` (src/collection.ts:80-85) is not code.
- The compiled copies `dist/array_collection.js`, `dist/object_collection.js` and `dist/helpers.js`, the type declarations in `index.d.ts` and the timer demo in `debug/value.ts` are not part of this model; the `src` versions are modelled once.
- The legacy `first`/`last` test examples (tests/unit.test.ts:42-48 and 61-67) follow from `LegacyCollections.Collection.First` and `Last`. Those are methods, so no lemma restates the examples.
- `Helpers.Split`: its own contract only bounds the number of pieces. What the pieces are is stated by `Helpers.JoinDotsOfSplit`, `Helpers.SplitPiecesHaveNoDot`, `Helpers.SplitNoDot` and `Helpers.SplitAppend`.

## Findings

| source | as written | input that shows it | evidently intended | confidence | as-written member | corrected member |
|---|---|---|---|---|---|---|
| src/object_collection.ts:56-71 | `slice` never increments `index`, so every entry is tested at position 0; the end test `index <= offset + length` also includes one entry too many | `{a: 1, b: 2}.slice(1)` gives `{}` | the entries at positions `offset` up to `offset + length`, end excluded, as `ArrayCollection.slice` does | not executed | ObjectCollections.ObjectCollection.SliceAsWritten, ObjectCollections.SliceIgnoresPosition | ObjectCollections.ObjectCollection.Slice, ObjectCollections.SliceWindow |
| dist/collection.js:158-160 | `max()` returns `Math.min` of the parsed values | `[1, 3]` gives 1 | `Math.max` of the parsed values, 3 here | not executed | CollectionBase.MaxAsWritten, CollectionBase.MaxReturnsMinimum | CollectionBase.MaxIntended |
