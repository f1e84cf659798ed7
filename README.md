# INI encoding engine — a Dafny model

This project models the encoding half of the `ini/parser` package: the
functions that turn Go data into INI text.

- `Encode` looks at the dynamic type of its argument and dispatches:
  - a `map[string]interface{}` goes to `EncodeFull`;
  - a `map[string]map[string]string` goes to `EncodeSimple`;
  - anything else is rejected with `ini: invalid data to encode as ini`.
- `EncodeFull` handles a heterogeneous document and fills two buffers:
  - The **default** buffer gets every top-level scalar as a `key = value` line and every `[]string` as one `key[] = element` line per element. It also gets the body of the section named like the default section.
  - The **sections** buffer gets `[name]` followed by the body of every other section.
  - Top-level keys are visited in `sort.Strings` order.
  - `[]int` values and values of any other type are skipped.
  - The output is the default buffer followed by the sections buffer.
- `buildSectionBuffer` writes the body of one section. It visits the section's keys in Go's map iteration order, which is unspecified.
- `EncodeSimple` writes one block per section, in ascending name order. A block is:
  - the `[name]` header, except for the default section;
  - the section's `key = value` lines in ascending key order;
  - an empty line.

  The default section's block keeps its place in name order; it is not moved to the front. Its lines therefore follow the block of any section named below it, with no header between them. Only `EncodeFull` writes the default section ahead of every other section.

## How the model is organised

The model has one module per concern:

- **`Keys`** covers ordering and key collection.
  - `Less` is the byte-wise string order.
  - `SortedKeys` is the sorted enumeration of a key set. It is defined once by repeatedly taking the least key, and it is proved ascending and a permutation of the set.
  - Collecting a map's keys into a slice is a loop over a nondeterministic choice of the next key: Go's map iteration order is unspecified.
  - `sort.Strings` is an in-place insertion sort on an `array`.
  - `OrderedKeys` combines the two. It is proved to return `SortedKeys` whatever order the keys were collected in.
- **`Text`** holds the line shapes and `Join`.
- **`Values`** holds the dynamic values a full-mode document holds and their `%v` rendering.
- **`Sink`** is `bytes.Buffer`: a class whose `contents` each `WriteString` extends.
- **`SectionBody`** is `buildSectionBuffer`.
  - Its iteration order is returned as a ghost `order` that enumerates the key set.
  - What it writes is stated as a function of that order.
  - Separately, the body is proved the same multiset of lines whatever the order. Those lines are exactly the ones an independent, order-free definition (`Emits`) demands.
- **`FullMode`** is `EncodeFull`. Each section's iteration order is recorded in a ghost map `orders`, and the output is `FullDoc(data, def, orders)`.
- **`SimpleMode`** is `EncodeSimple`. Its output is `SimpleDoc(data, def)`, which is fully determined by its inputs.
  - `InKeyOrder` concatenates the values of a string map in ascending key order. It is defined by taking the least key first.
  - Both levels of the output use it: the lines of a section and the blocks of the document.
- **`Encoding`** is the `Encode` dispatcher.

## Model

| member | source | states |
|---|---|---|
| Keys.LessIrreflexive | ini/parser/decode_encode.go:68 | Go's string `<`, by which `sort.Strings` orders, never holds between a string and itself |
| Keys.LessTransitive | ini/parser/decode_encode.go:68 | the string order is transitive |
| Keys.LessTotal | ini/parser/decode_encode.go:68 | of two distinct strings one is below the other, so the order is total |
| Keys.SortedKeys | ini/parser/decode_encode.go:68 | the sorted enumeration of a key set is strictly ascending and holds each key exactly once |
| Keys.SortStrings | ini/parser/decode_encode.go:68 | `sort.Strings` leaves the slice in non-decreasing order and a permutation of what it held |
| Keys.CollectKeys | ini/parser/decode_encode.go:62-67 | the collecting loop fills a fresh slice with exactly the map's keys, one each, in whatever order iteration yields them |
| Keys.SortedIsCanonical | ini/parser/decode_encode.go:68 | any non-decreasing enumeration of a key set is `SortedKeys` of the set, so the sorted slice does not depend on iteration order |
| Keys.OrderedKeys | ini/parser/decode_encode.go:143-156 | collect-then-sort yields `SortedKeys` of the map's key set |
| Keys.SortedKeysSplit | ini/parser/decode_encode.go:68 | when every key of one set sorts below every key of another, the sorted union is the two sorted sets one after the other |
| Values.NatText | ini/parser/decode_encode.go:77 | `%v` of a natural number is a non-empty digit string with no leading zero, and zero is exactly `0` |
| Values.NatTextValue | ini/parser/decode_encode.go:77 | the digits `%v` writes for a natural number denote that number |
| Values.IntText | ini/parser/decode_encode.go:77 | `%v` of an integer starts with `-` exactly when it is negative and the rest is digits; a negative number's first digit is never `0`, and a non-negative number starts with `0` only when it is exactly `0` |
| Values.IntTextValue | ini/parser/decode_encode.go:77 | the digits after the sign denote the integer's absolute value |
| Values.Format | ini/parser/decode_encode.go:113-114 | `%v` of a scalar: strings verbatim, booleans as `true`/`false`, integers in decimal, floats as their rendered text |
| Text.DefaultSectionName | ini/parser/decode_encode.go:55-59 | the default section name is the first variadic argument, or the empty string when there is none |
| SectionBody.ArrayLinesAt | ini/parser/decode_encode.go:119-125 | a `[]string` value gives exactly one `key[] = element` line per element, in array order |
| SectionBody.WriteArrayLines | ini/parser/decode_encode.go:120-125 | the element loop appends those lines to the buffer and nothing else |
| SectionBody.WriteValueLines | ini/parser/decode_encode.go:112-128 | the type switch appends `key = v` for a scalar, the element lines for a `[]string`, and nothing for `[]int` or any other type |
| SectionBody.BuildSectionBuffer | ini/parser/decode_encode.go:110-132 | the buffer gains the body text of the entries in the order visited, and that order enumerates every key exactly once |
| SectionBody.BodyLinesBag | ini/parser/decode_encode.go:111 | for any enumeration of the keys, the multiset of lines written is the same fixed multiset |
| SectionBody.BodyOrderFree | ini/parser/decode_encode.go:111 | two iteration orders of the same section give the same multiset of body lines |
| SectionBody.BodyLinesExactly | ini/parser/decode_encode.go:110-132 | a line is in the body exactly when some entry of the section has to produce it: its scalar line or one of its element lines |
| SectionBody.EntryLinesEmit | ini/parser/decode_encode.go:112-128 | the lines of one entry are exactly those the order-free definition demands of it |
| SectionBody.SkippedEntrySilent | ini/parser/decode_encode.go:118-127 | an entry whose value is `[]int`, a nested map or of another type adds no line to the body |
| FullMode.WriteTopLevel | ini/parser/decode_encode.go:74-100 | one top-level entry appends its part to the default buffer and, for a section not named like the default section, header plus body to the sections buffer |
| FullMode.WriteRegions | ini/parser/decode_encode.go:73-101 | after the loop the two buffers hold the default region and the sections region of the sorted keys, and every section was visited in an enumeration of its keys |
| FullMode.EncodeFull | ini/parser/decode_encode.go:50-108 | the output is `FullDoc` for the recorded iteration orders: the default region, then the sections region |
| FullMode.FullEmpty | ini/parser/decode_encode.go:51-53 | an empty document encodes to no text |
| FullMode.FullSplit | ini/parser/decode_encode.go:61-73 | when all keys of `d1` sort below all keys of `d2`, each region of `d1 + d2` is that of `d1` followed by that of `d2` |
| FullMode.FullSingle | ini/parser/decode_encode.go:75-100 | the type switch, case by case, on a one-entry document: scalar line, element lines, nothing for `[]int` and other types, the body without a header for the default section, the header and body in the sections region otherwise |
| FullMode.FullSkipsUnsupported | ini/parser/decode_encode.go:81 | a top-level `[]int` or unsupported value has no effect: the document without it encodes to the same text |
| FullMode.HeadersAscending | ini/parser/decode_encode.go:89-92 | headers come in strictly ascending name order, and exactly the section values not named like the default section get one |
| FullMode.NoSectionsNoHeaders | ini/parser/decode_encode.go:89-103 | without sections other than the default one the sections region is empty: the output is the default region alone |
| FullMode.FullScalarsOnly | ini/parser/decode_encode.go:73-80 | a document of scalars only is one `key = value` line per entry in ascending key order, with no header |
| SimpleMode.InKeyOrderSorted | ini/parser/decode_encode.go:177-184 | writing the pieces in `sort.Strings` order of their keys yields their concatenation least key first |
| SimpleMode.InKeyOrderSplit | ini/parser/decode_encode.go:156-158 | when every key of one map sorts below every key of another, the text of their union is the text of the first followed by that of the second |
| SimpleMode.WriteKeyLines | ini/parser/decode_encode.go:168-184 | the inner loop appends the section's `key = value` lines in ascending key order |
| SimpleMode.WriteSection | ini/parser/decode_encode.go:159-190 | one iteration appends the header unless the section is the default one, then its lines, then an empty line |
| SimpleMode.WriteSections | ini/parser/decode_encode.go:158-191 | the outer loop appends the blocks of the given sections in the given order |
| SimpleMode.SortedBlocks | ini/parser/decode_encode.go:156-158 | the blocks in sorted section order are the whole document |
| SimpleMode.EncodeSimple | ini/parser/decode_encode.go:135-195 | the output is `SimpleDoc`, determined by the map and the default section name alone |
| SimpleMode.SimpleEmpty | ini/parser/decode_encode.go:136-138 | an empty map encodes to no text |
| SimpleMode.KeyTextSplit | ini/parser/decode_encode.go:177-184 | within a section, the lines of lower keys come before the lines of higher keys |
| SimpleMode.KeyTextSingle | ini/parser/decode_encode.go:179 | a one-key section has exactly one `key = value` line |
| SimpleMode.KeyTextTwo | ini/parser/decode_encode.go:177-184 | a two-key section writes the line of the lesser key first |
| SimpleMode.SimpleSplit | ini/parser/decode_encode.go:156-158 | blocks of lower section names come before blocks of higher ones |
| SimpleMode.SimpleSingle | ini/parser/decode_encode.go:158-191 | a single section writes its header (unless it is the default section), its lines, and an empty line |
| SimpleMode.SimpleTwoKeys | ini/parser/decode_encode.go:158-191 | a named section with two keys writes its header, the two lines in key order, and an empty line |
| SimpleMode.DefaultBlockInPlace | ini/parser/decode_encode.go:156-166 | with a section named below the default section, that section's block comes first and the default section's lines follow it without a header |
| SimpleMode.DefaultExample | ini/parser/decode_encode.go:156-166 | `{"a": {"k": "1"}, "z": {"m": "2"}}` with default section `z` encodes to `[a]\nk = 1\n\nm = 2\n\n` |
| SimpleMode.SimpleExample | ini/parser/decode_encode.go:135-195 | `{"S": {"a": "1", "b": "2"}}` without a default section encodes to `[S]\na = 1\nb = 2\n\n` |
| Encoding.Encode | ini/parser/decode_encode.go:37-47 | a full-mode map gives the full-mode text and a simple-mode map the simple-mode text; anything else, and only that, gives the invalid-data error |

## Left out

- `Decode` (ini/parser/decode_encode.go:13-34) is not part of this model. It is reflection plus a JSON round trip through the text parser, and the parser is not part of this model.
- `%v` of `float32`/`float64` is not modelled: a `Float` scalar carries the text it renders as.
- `int`, `int32` and `int64` are one unbounded integer case. Formatting is the only thing done with them, so their width does not matter.
- Every write to a `bytes.Buffer` succeeds, so the error returns after each write in both encoders are not modelled: the encoders are total.
- The byte counter `n` and `thisWrite` in `EncodeSimple` are not modelled, because they are never returned.
- `secBuf = nil` in `EncodeFull` is not modelled, because it has no effect on the output.
- Strings are sequences of characters. `Less` compares characters, which equals Go's byte-wise comparison for valid UTF-8. Strings that are not valid UTF-8 are not modelled.
- The Go encoders return a nil slice for an empty map; the model returns the empty string.
- The iteration order of a Go map in `buildSectionBuffer` is not fixed by the model. `EncodeFull` and `Encode` return it as a ghost value, and only order-free facts are proved about section bodies.
- The order in which keys are collected before sorting is nondeterministic in the model. The collecting loop is proved correct for every order, and the sort is proved to remove the dependence.
- `Encode`'s type switch: every dynamic type other than the two map types is one `OtherData` case. A nil map of either type behaves as the empty map of that type.
- Nested values in a full-mode document of map types other than `map[string]interface{}` are `Unsupported`. So are any other dynamic types. They fall through every case of the type switches.
