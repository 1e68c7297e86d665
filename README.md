# strictjson, modelled in Dafny

strictjson is a Go package that decodes JSON into Go values the way
`encoding/json.Unmarshal` does, with one difference: JSON object keys must
match a struct field's name or its `json` tag exactly, including case. The
check applies recursively through nested structs, through slices and arrays
of structs, and through maps with struct values.

A `Decoder` has two switches:

- `DisallowUnknownFields` (on by default) rejects any key that no field
  claims.
- `SuggestClosest` (off by default) adds a "did you mean" hint to that error.

The hint is chosen in two steps. First, a field name that equals the key
apart from letter case. Failing that, the first field name within
Levenshtein distance 2.

Field names are collected breadth first over embedded structs, so a field
that is less deeply embedded shadows a deeper one with the same name. Two
fields with one name at the same depth are a conflict. The conflict makes
every decode into that struct fail.

The model consists of these modules:

| module | file | what |
|---|---|---|
| `Reflect` | reflect.dfy | Go types (`Ty`: named structs, slices, arrays, maps, pointers, primitives, interfaces), struct declarations (`Field`, `StructDef`, `Universe`), parsed JSON (`Raw`), the values being decoded into (`Val`), and locations inside a value (`Loc`, `At`, `Put`) |
| `Errors` | errors.dfy | the three error types, their messages, and the `encoding/json` errors |
| `Options` | options.dfy | `Decoder`, as a class whose two fields the options update, plus `NewDecoder` and the option constructors |
| `Fields` | fields.dfy | `parseTag`, and the breadth-first field collector `buildStructFields`, both as level-by-level functions and as a method |
| `Suggest` | suggest.dfy | `findSuggestion`, `levenshteinDistance` (a method with the original's two-row loop) and `minOfThree` |
| `FieldLemmas`, `FieldConflicts` | fields_lemmas.dfy | what the collector guarantees: every entry resolves to an exported field with that JSON name, names are distinct and listed by depth, shallow fields win, and same-depth duplicates conflict |
| `EmbeddedConflicts` | fields_embedded.dfy | two embedded structs of one level that both declare a name make the collector fail, in every universe; and a deeper level can put the name back into the map while the conflict stands |
| `Walker` | unmarshal.dfy | `Unmarshal`, `Decoder.Unmarshal`, `unmarshalValue`, `unmarshalStruct`, `unmarshalSlice`, `unmarshalMap`, `containsStruct`, `getFieldByIndex` and `allocatePointers`. `containsStruct` is a recursive function, as in the source; each of the others is a specification function plus a method with the source's loops, proved equal to its function |
| `PointerLemmas`, `StructLemmas`, `CollectionLemmas` | walker_*.dfy | properties of the walk: pointers, null, the custom-unmarshaler and fast paths, unknown keys, field decoding, and the contents of slices and maps |
| `WalkerExamples` | walker_examples.dfy | the field map of a struct with a single field of its own, and two whole decodes: an embedded conflict, and a mis-cased key inside a slice element |

**Values and mutation.** The decoder writes into a Go value in place. The
model returns the new value instead.

- `Zero` is the zero value of whatever type the slot has.
- A struct value maps field positions to values; a missing position means
  the zero value.
- `Pointer(w)` is a non-nil pointer; `SliceVal` and `MapVal` are non-nil
  slices and maps.
- `Leaf` is anything the standard decoder produced.

**The standard decoder.** `encoding/json` and any custom `UnmarshalJSON`
methods are one parameter, `std: (Ty, Raw, Val) -> Outcome`, carried in
`Env` next to the type universe and the decoder's settings. Every call the
source makes into `json.Unmarshal` becomes a call to `std`:

- the custom-unmarshaler path;
- the primitive and array path;
- the fast path for slices and maps whose elements contain no strict struct.

**JSON objects.** Parsing into `map[string]json.RawMessage` keeps the last
value of a repeated key. `Entries` models this: it keeps one entry per key,
the last one. Go visits map keys in an unspecified order; the model visits
them in `Entries` order (the document order of those last occurrences),
which is one of the orders Go may pick.

**Behaviour the code has, stated as lemmas.** The model follows the code
literally, including two cases where the code may not do what a reader
expects:

- `PointerToCustomIsWalked`: the custom-unmarshaler test looks only at the
  slot's own type (`v.Addr().Type()`, unmarshal.go:39). A field of type
  `*T`, where `*T` implements `json.Unmarshaler`, is therefore not handed to
  `T`'s `UnmarshalJSON`. Instead, the pointer is allocated and `T` is
  decoded strictly. The lemma shows a date string into such a field failing
  with the standard decoder's type error. `containsStruct`, by contrast,
  does treat such a `T` as custom (unmarshal.go:172-175).
- `ArrayGoesToStd`: `unmarshalValue` has no `reflect.Array` case
  (unmarshal.go:45-54). An array of structs therefore goes straight to
  `encoding/json` and its keys are not checked, although `containsStruct`
  looks inside arrays.

## Model

| member | source | states |
|---|---|---|
| Reflect.Entries | unmarshal.go:63-66 | every entry is a member of the object, no key appears twice, and the keys are exactly the object's keys |
| Reflect.EntriesKeepLast | unmarshal.go:63-66 | a member whose key no later member repeats is among the entries: of a repeated key, the last occurrence is the one kept |
| Errors.NewNonPointerError | errors.go:9-22 | the error is an `UnmarshalError` whose message is exactly "strictjson: Unmarshal(non-pointer)" |
| Errors.NewUnknownFieldError | errors.go:24-41 | the error records the key and the suggestion unchanged |
| Errors.NewFieldConflictError | errors.go:43-53 | the error records the conflicting name unchanged |
| Errors.Error.Message | errors.go:16-49 | an `UnmarshalError`'s message is its text; the others start with "strictjson: "; the unknown-field message names the key in its suggested or mis-cased form and, with a suggestion, ends with the suggestion; the conflict message names the field |
| Errors.MessageRoundTrip | errors.go:16-49 | for every error whose names contain no quote, reading back the message yields the same error: kind, field name and suggestion (the suggested and mis-cased forms of the unknown-field message included) |
| Errors.SuggestedRoundTrip | errors.go:30-31 | the "did you mean" message names both the key and the suggestion recoverably |
| Errors.MisCasedRoundTrip | errors.go:33 | the "unknown or mis-cased" message names the key recoverably and carries no suggestion |
| Errors.ConflictRoundTrip | errors.go:47-49 | the conflict message names the field recoverably |
| Errors.MessageInjective | errors.go:16-49 | two errors with the same message are the same error |
| Options.WithDisallowUnknownFields | options.go:21-25 | the option sets `DisallowUnknownFields` to its argument, whatever the settings were, and leaves `SuggestClosest` alone |
| Options.WithSuggestClosest | options.go:27-31 | the option sets `SuggestClosest` to its argument and leaves `DisallowUnknownFields` alone |
| Options.Decoder.constructor | options.go:10-14 | a new decoder disallows unknown fields and does not suggest |
| Options.Decoder.Apply | options.go:15-17 | applying an option changes the settings exactly as that option does |
| Options.NewDecoder | options.go:10-19 | a fresh decoder whose settings are the defaults with every option applied in order |
| Options.LastDisallowWins | options.go:15-25 | the last `WithDisallowUnknownFields` in the list decides `DisallowUnknownFields` |
| Options.DisallowUntouched | options.go:15-31 | options that are all `WithSuggestClosest` leave `DisallowUnknownFields` as it was |
| Options.LastSuggestWins | options.go:15-31 | the last `WithSuggestClosest` in the list decides `SuggestClosest` |
| Options.SuggestUntouched | options.go:15-25 | options that are all `WithDisallowUnknownFields` leave `SuggestClosest` as it was |
| Suggest.ToLower | fields.go:145-148 | lower-casing keeps the length and lower-cases each character on its own |
| Suggest.MinOfThree | fields.go:197-208 | the result is one of the three arguments and no greater than any of them |
| Suggest.EditDistanceZero | fields.go:163-195 | the distance is zero exactly when the two strings are equal |
| Suggest.EditDistanceBound | fields.go:163-195 | the distance never exceeds the length of the longer string |
| Suggest.DistanceZero | fields.go:163-195 | the distance between two prefixes is zero exactly when the prefixes are equal |
| Suggest.DistanceBound | fields.go:163-170 | the distance between two prefixes never exceeds the longer prefix's length |
| Suggest.NextRow | fields.go:178-192 | one pass of the outer loop turns the row of distances for the first `i - 1` characters of `s1` into the row for the first `i`, against every prefix of `s2` |
| Suggest.LevenshteinDistance | fields.go:163-195 | the two-row loop returns the edit distance of its arguments, the empty cases included |
| Suggest.FirstFoldMatch | fields.go:147-151 | the first name equal to the key ignoring case, or none if no name is |
| Suggest.FirstClose | fields.go:153-157 | the first name within edit distance 2 of the key, or none if no name is |
| Suggest.SuggestionSpec | fields.go:144-160 | the suggestion is "" or one of the names: the first case-insensitive match if any; otherwise the first name within distance 2; "" when neither exists |
| Suggest.FindSuggestion | fields.go:144-160 | the two loops return that suggestion |
| Fields.CommaIndex | fields.go:138 | -1 exactly when the tag has no comma; otherwise the position of the first comma |
| Fields.ParseTag | fields.go:137-142 | a tag with a comma splits at its first comma into a comma-free name and the options, which rejoin to the tag; a tag without one is all name |
| Fields.JsonName | fields.go:97-100 | the field's JSON name is its tag's name part whenever that is not empty (a comma-free prefix of the tag), and the Go field name only when the tag's name part is empty |
| Fields.StripPtr | fields.go:63-65 | what remains after removing pointers is not a pointer |
| Fields.Publish | fields.go:124-128 | the names recorded at the end of a level are exactly the names found at that level that are still in the field map |
| Fields.ScanLevelVisits | fields.go:70-73 | scanning a level only adds struct types to the visited set, so the breadth-first loop terminates |
| Fields.GetStructFields | fields.go:23-39 | fails exactly when the collected fields record a conflict, with a `fieldConflictError` naming it; otherwise returns the collected fields |
| Fields.BuildStructFields | fields.go:42-135 | the loop over levels, scans and fields computes the level-by-level definition |
| Fields.ScanStruct | fields.go:75-121 | the loop over one struct's fields computes the field-by-field scan and leaves the published names and the visited types alone |
| Fields.PublishFound | fields.go:124-128 | the names appended at the end of a level are those found at that level that are still in the field map |
| FieldLemmas.StructFieldsWellFormed | fields.go:42-135 | for any well-named universe: every map entry's index path leads through embedded fields to an exported, untagged-out field whose JSON name is the key; `allNames` has no repeats and holds exactly the map's keys; and it lists them by nondecreasing depth |
| FieldLemmas.TagDecidesKey | fields.go:93-100 | every key of the field map is the tag name of the field it resolves to when the tag names one, and the Go name otherwise; a field whose tag renames it is never found under its Go name |
| FieldLemmas.LevelsInv | fields.go:57-132 | the level loop keeps the collected fields well formed, never changes an entry already made at a shallower level, and never clears a conflict once recorded |
| FieldLemmas.ScanLevelInv | fields.go:60-122 | scanning the structs of one level adds only entries at that depth that resolve to their fields, and queues only embedded structs one level deeper |
| FieldLemmas.VisitFieldInv | fields.go:76-121 | one field (embedded, unexported, "-", a conflict, shadowed or added) keeps the level invariant |
| FieldLemmas.EndLevelInv | fields.go:124-131 | closing a level publishes names without repeats and keeps the depth ordering |
| FieldLemmas.PublishDistinct | fields.go:124-128 | publishing names found without repeats yields no repeats |
| FieldLemmas.FieldAtExtend | fields.go:78-114 | extending an embedded index path by field `i` reaches field `i` of the embedded struct |
| FieldConflicts.VisitName | fields.go:102-120 | how one field changes what is known about one name: a found name stays found, a name dropped at this level stays dropped, and a conflict is never cleared |
| FieldConflicts.ScanDuplicate | fields.go:102-106 | two fields of one struct with the same JSON name leave that name out of the map and record a conflict |
| FieldConflicts.DroppedBy | fields.go:102-106 | once a field repeats a name found earlier in the level, that name stays out of the map, counted as found, with a conflict recorded, to the end of the struct |
| FieldConflicts.OnlyNamer | fields.go:108-120 | a scan in which exactly one field answers to a name not yet known records that field's index path under the name |
| FieldConflicts.DirectFieldWins | fields.go:108-120 | a field of the root struct whose name no other root field uses is in the map with the index path `[i]`, whatever the embedded structs declare |
| FieldConflicts.DirectConflict | fields.go:102-106 | two root fields with one JSON name make `getStructFields` fail with a conflict error |
| FieldConflicts.EmbeddedConflictExample | fields.go:77-106 | two embedded structs that both declare "name" give `fieldConflictError("name")` |
| EmbeddedConflicts.ScanOneKept | fields.go:60-121 | scanning one queued struct keeps what is known about every name: a found name stays found, a dropped one stays out of the map, a conflict is never cleared |
| EmbeddedConflicts.ScanLevelKept | fields.go:60-122 | the same holds from any point of a level's queue to any later point |
| EmbeddedConflicts.LevelConflict | fields.go:60-122 | two distinct struct types of one level's queue, not scanned before, that both declare a name held by no shallower field leave that name out of the map, counted as found, with a conflict recorded, at the end of the level |
| EmbeddedConflicts.LevelsKeepConflict | fields.go:57-132 | no later level clears a recorded conflict |
| EmbeddedConflicts.LevelsFrom | fields.go:57-132 | the collector's result is what the remaining levels make of the state at the start of any level |
| EmbeddedConflicts.EmbeddedConflict | fields.go:102-106 | in any universe, two such struct types in any level of the scan of a struct make its field map record a conflict, and `getStructFields` fails with a `fieldConflictError` |
| EmbeddedConflicts.DeeperLevelReAdds | fields.go:58-116 | a name dropped by a conflict is not barred from deeper levels: a struct embedded one level further down puts it back into the map, and the conflict is still reported |
| Walker.ParseRaw | unmarshal.go:63-134 | parsing into a raw map or slice succeeds exactly when the JSON is well formed and of that kind |
| Walker.FirstUnknown | unmarshal.go:73-83 | the position of the first key that no field claims, or none when every key is claimed |
| Walker.SliceFold | unmarshal.go:117-124 | without an error the loop has produced one element per raw element |
| Walker.AllocatePointers | unmarshal.go:207-215 | the loop equals the allocation function over the pointer chain |
| Walker.GetFieldByIndex | unmarshal.go:188-205 | the loop equals the index-walk function (nil embedded pointers allocated when settable, invalid otherwise) |
| Walker.UnmarshalValue | unmarshal.go:31-55 | equals the walk: null leaves the slot alone, a custom type defers to the standard decoder, pointers are allocated, then structs, slices and maps are walked strictly and anything else goes to the standard decoder |
| Walker.UnmarshalStruct | unmarshal.go:62-102 | equals the struct walk: parse, field map or conflict, unknown-key rejection with an optional suggestion, then every claimed and settable field decoded in turn, stopping at the first error |
| Walker.DecodeEntries | unmarshal.go:85-101 | the per-key loop equals the fold over the object's entries: unclaimed keys and invalid or unsettable slots are skipped, each other key is decoded into its field's slot, and the first error ends the loop |
| Walker.UnmarshalSlice | unmarshal.go:104-128 | equals the slice walk: parse, fast path, then a new slice filled element by element and stored only when every element decodes |
| Walker.UnmarshalMap | unmarshal.go:130-163 | equals the map walk: parse, fast path, a nil map allocated, then each value decoded into a fresh zero element and stored under its key |
| Walker.DecodeMapEntries | unmarshal.go:149-160 | the per-key loop equals the fold over the object's entries, stopping at the first value that fails |
| Walker.DecoderUnmarshal | unmarshal.go:22-29 | equals the top-level decode with the decoder's settings |
| Walker.Unmarshal | unmarshal.go:17-20 | equals the top-level decode with the default settings |
| Walker.StructFoldStops | unmarshal.go:96-98 | after the first failing field, later keys change neither the value nor the error |
| Walker.SliceFoldStops | unmarshal.go:121-123 | after the first failing element, later elements change nothing |
| Walker.MapFoldStops | unmarshal.go:155-157 | after the first failing value, later entries change nothing |
| PointerLemmas.AllocateShape | unmarshal.go:207-215 | allocation follows one dereference per pointer level, ends at the non-pointer base type, and leaves every pointer on the way non-nil |
| PointerLemmas.AllocateNoop | unmarshal.go:208-212 | when every pointer on the chain is already non-nil, allocation changes nothing |
| PointerLemmas.AllocateIdempotent | unmarshal.go:207-215 | allocating twice is the same as allocating once |
| PointerLemmas.PointerTransparent | unmarshal.go:36-47 | when `T` has no custom `UnmarshalJSON`, a non-null value decodes into `*T` as it decodes into `T`, behind a non-nil pointer |
| PointerLemmas.NullLeavesSlot | unmarshal.go:32-34 | `null` leaves the slot unchanged without error, whatever its type |
| PointerLemmas.CustomDefers | unmarshal.go:39-41 | a type with a custom `UnmarshalJSON` is decoded by the standard decoder alone |
| PointerLemmas.ArrayGoesToStd | unmarshal.go:45-54 | an array slot goes to the standard decoder, unchecked |
| PointerLemmas.ContainsStructIff | unmarshal.go:165-184 | `containsStruct` holds exactly when some chain of pointer, slice, array and map element types reaches a struct without a custom unmarshaler |
| PointerLemmas.SliceFastPath | unmarshal.go:110-115 | a slice whose element type reaches no strict struct is decoded by the standard decoder alone |
| PointerLemmas.MapFastPath | unmarshal.go:136-141 | likewise for a map |
| PointerLemmas.NonPointerRejected | unmarshal.go:22-26 | a target that is not a non-nil pointer gets the non-pointer error and is left unchanged |
| PointerLemmas.PointerTargetDecoded | unmarshal.go:22-29 | a non-nil pointer target is decoded through its pointee, and the walk's error is the call's error |
| PointerLemmas.PointerToCustomIsWalked | unmarshal.go:39-47 | a pointer-to-custom field is walked strictly rather than handed to the custom unmarshaler |
| StructLemmas.ConflictRejectsObject | unmarshal.go:68-71 | a struct with a field conflict rejects every object with the conflict error and is left unchanged |
| StructLemmas.UnknownKeyRejected | unmarshal.go:73-83 | with unknown fields disallowed, an object with an unclaimed key fails before anything is decoded: the error names an unclaimed key of the object, and its suggestion is `findSuggestion` over `allNames` exactly when suggestions are on, "" otherwise |
| StructLemmas.StructDecodesKnownKeys | unmarshal.go:85-99 | with unknown fields allowed, decoding is exactly the loop over the claimed keys alone; unclaimed keys have no effect |
| StructLemmas.FirstUnknownRefused | unmarshal.go:73-83 | with unknown fields disallowed and no conflict, the struct walk fails with the unknown-field error for the first unclaimed key, its suggestion present exactly when suggestions are on, and the value unchanged |
| StructLemmas.StructFoldSucceeds | unmarshal.go:85-101 | the struct loop succeeds exactly when every entry decodes into the value the loop has built so far |
| StructLemmas.StructFoldFails | unmarshal.go:96-98 | a failure has a first failing entry, and its error and value are the whole loop's |
| StructLemmas.IndexFindsField | unmarshal.go:188-205 | when following a path that names a field yields a valid slot, the slot has that field's type and is settable exactly when the walk did not start read-only and the field is exported; unexported embedded structs on the path do not block it |
| StructLemmas.IndexOpens | unmarshal.go:188-205 | the slot is valid exactly when every index names a field of a struct and no nil pointer is met while the value is read-only; otherwise it is invalid |
| StructLemmas.IndexKeepsPointer | unmarshal.go:190-197 | the walk writes only below where it starts, so a non-nil pointer above that stays non-nil |
| StructLemmas.IndexAllocates | unmarshal.go:190-197 | a valid slot lies below the starting point, and every pointer on the way to it is non-nil in the returned value |
| StructLemmas.FieldMapSlot | unmarshal.go:86-94 | when a claimed key's index path yields a valid slot, the slot is settable and has its field's type |
| StructLemmas.DirectKeyDecodes | unmarshal.go:85-99 | a claimed key of a direct field is decoded into that field and stored at its position |
| StructLemmas.DirectNullKeepsStruct | unmarshal.go:32-98 | a claimed key of a field declared directly in the struct whose value is `null` leaves the struct unchanged (a promoted field behind a nil embedded pointer allocates that pointer first) |
| CollectionLemmas.GoodPrefix | unmarshal.go:119-123 | the length of the longest prefix of raw values that all decode |
| CollectionLemmas.SliceFoldSpec | unmarshal.go:117-124 | the element loop succeeds exactly when every element decodes; it then holds each element's own decoding, in order, and otherwise fails with the first failing element's error |
| CollectionLemmas.SliceDecoded | unmarshal.go:104-128 | on success the slice is replaced by a new one with exactly one decoded element per raw element; on failure it is left as it was and the first failing element's error is returned |
| CollectionLemmas.MapAfterStore | unmarshal.go:154-159 | storing a new key's decoded value extends what the map held by exactly that key |
| CollectionLemmas.MapFoldSpec | unmarshal.go:149-160 | the entry loop succeeds exactly when every value decodes, and otherwise fails with the first failing value's error; the keys before the first failure hold their decoded values, others keep their old values, and no other key appears |
| CollectionLemmas.MapDecoded | unmarshal.go:130-163 | a nil map is allocated even when a value fails; the keys decoded before the first failure hold their values; keys not reached keep what the map held; the first failing value's error is returned |
| WalkerExamples.SingleFieldStruct | fields.go:42-135 | a struct with one field of its own has exactly that name, at index `[0]`, and no conflict |
| WalkerExamples.EmbeddedConflictDecode | unmarshal.go:22-71 | decoding any object into the struct with the embedded conflict fails with `fieldConflictError("name")`, target unchanged |
| WalkerExamples.MisCasedKeyInSlice | unmarshal.go:73-123 | the object {"items": [{"Name": "x"}]} decoded into a struct whose field Items is a slice of structs with one field tagged "name" fails with the unknown-field error for "Name", suggesting "name" only when suggestions are on, and nothing is stored |

## Left out

- The `sync.Map` cache in `getStructFields` (fields.go:21, 24-30): a cache hit returns what `buildStructFields` would return, so the model recomputes it. Concurrency is not modelled.
- Suggest.ToLower: lower-cases ASCII letters only; `strings.ToLower`'s Unicode case mapping is not modelled.
- Suggest.LevenshteinDistance: strings are sequences of characters standing for the bytes Go indexes; multi-byte UTF-8 is not distinguished.
- Non-string map keys (unmarshal.go:150-153): every map key is a string in the model, since key conversion is `reflect` behaviour outside the package.
- `encoding/json` itself: only whether a document is well formed and of the right kind is modelled (`ValidJson`, `ParseRaw`). Everything else the standard decoder and custom `UnmarshalJSON` methods do, and the text of their errors, is the parameter `std`.
- Walker.UnmarshalValue: the null test compares the raw bytes with "null" exactly. The model treats the parsed `Null` as that case, so a `null` surrounded by whitespace, which the source passes on to the type's own decoding, is not distinguished.
- Go's map iteration order is unspecified. The model fixes one order, that of `Entries`, so a result it derives can differ from a run that visits keys in another order (which key is reported first, which failing field stops the loop). The same holds for the order `buildStructFields` appends a level's names to `allNames` (fields.go:124-128): the model appends them in the order the scan found them.
- Options: only the two option constructors of the package are modelled; a user-written `DecoderOption` closure is not.
- In-place mutation and aliasing through `reflect.Value` are modelled as returning the new value of the slot. Sharing between aliases of one value is not captured.
- The loop at unmarshal.go:35-38 computes a type that is never used, so it has no counterpart.
- `CanAddr` (unmarshal.go:39) always holds for the slots the walker reaches, so it is not modelled.
- Go `int` overflow in field indices and distances is not modelled; integers are unbounded.
- An index path that runs past a struct's fields would panic in Go. `GetFieldByIndex` returns an invalid slot there instead; paths built by `buildStructFields` never do this.
- FieldLemmas.StructFieldsWellFormed: assumes `WellNamed`, that every Go field has a non-empty name, which Go guarantees.
- Reflect.StructDef: only struct declarations carry the custom-unmarshaler mark. A named slice or map type with its own `UnmarshalJSON` (unmarshal.go:39-40) would be walked strictly in the model; a named scalar type with one goes to the standard decoder on both paths, so only slices and maps differ.
- A `Named` type id absent from the universe is treated as a non-struct by the field collector and as an empty struct by the walker; Go has no such type.
