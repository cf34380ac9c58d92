# kValidation, modelled in Dafny

kValidation is a Kotlin library for validating object graphs. A validation
is built with a DSL (`Validation<T> { ... }`, `and { }`, `or { }`,
`ifPresent`, `required`, `onEach`, constraints such as `minLength` or
`uniqueItems`) and then run on a value. The result is either `Valid(value)`
or a tree of failures: path results that say where in the object graph
something went wrong, AND/OR groups that say how the failures combine, and
error or warning leaves that carry the filled-in hint of a failed
constraint. The tree can be flattened, queried by path (`errorsAt`) and
printed.

This project models the core of that engine and proves properties of it.

- `values.dfy`: the values a validation sees (null, numbers, strings,
  lists, arrays, maps, map entries, objects), their rendering as text,
  `String.replace`, and line splitting.
- `path_descriptors.dfy`: the path descriptors of PathDescriptors.kt, their
  names, `equals` and extraction.
- `validation_path.dfy`: `ValidationPath` with its `cleanUp` loop,
  `combineSegments`/`toString` and `equals`.
- `validation_result.dfy`: the result tree of ValidationResult.kt.
  - `flatErrors`, `errorsAt` and `pathMatches`, and `print`.
  - `addError` on path and logical results.
  - `groupedErrors`.
- `constraints.dfy`: the `Constraint` class, hint construction, and the
  built-in constraints.
- `validations.dfy`: the validation tree of internal/Validations.kt and the
  kModel cycle guard. `Eval` is the meaning of one `validate` call, stated
  as a value: its effect on the property map and the failure it attaches.
- `validation_context.dfy`: the mutable `ValidationContext`, a class with a
  stack of open groups above a root path result.
- `engine.dfy`: one method per `validate(aValue, aContext)`, working on the
  context's stack. Each is proved to do what `Eval` says. It also models
  the entry points `validate(value, contextMap)` and `invoke`.
- `validation_laws.dfy`: what `Eval` means for users.
  - AND/OR semantics, with and without short-circuit.
  - Optional and required properties, guards, and each-navigators.
  - The cycle guard, well-formedness of failure trees, and leaving the
    property map alone.
- `builders.dfy`: the DSL builders as a class over the builders of one
  session, and how they compile to an `ObjectValidation`.
- `non_repeating.dfy`: the `NonRepeatingContext` class and the context-based
  `noRepeat` constraint.
- `legacy_results.dfy`, `legacy_engine.dfy`, `legacy_errors.dfy`: the
  older, purely functional engine of internal/Validation.kt and
  ValidationErrors.kt. Its results are `Valid`, `NoResult` and `Invalid`,
  the last with a map from data paths to messages. `combineWith` and
  `mapError` transform them. Its errors have a path that can be matched
  against a query.

Paths in the table below are relative to the root of the kValidation
repository.

## Model

| member | source | states |
|---|---|---|
| Values.NatToString | kValidation-core/src/commonMain/kotlin/de/kotlinBerlin/kValidation/PathDescriptors.kt:82 | the decimal rendering of a natural number is non-empty and made of digits only |
| Values.NatToStringInjective | kValidation-core/src/commonMain/kotlin/de/kotlinBerlin/kValidation/PathDescriptors.kt:82 | different indices render differently, so the names "[i]" of index descriptors are distinct |
| Values.IntToStringSign | kValidation-core/src/commonMain/kotlin/de/kotlinBerlin/kValidation/PathDescriptors.kt:82 | a negative index renders with a leading '-', a non-negative one without |
| Values.IntToStringInjective | kValidation-core/src/commonMain/kotlin/de/kotlinBerlin/kValidation/PathDescriptors.kt:82 | different integers render differently, negative ones included |
| Values.Utf16Length | kValidation-core/src/commonMain/kotlin/de/kotlinBerlin/kValidation/constraints/StringConstraints.kt:11 | `String.length` counts UTF-16 code units: at least the number of characters and at most twice it, and equal to it exactly when every character lies in the Basic Multilingual Plane |
| Values.Utf16LengthOfSurrogatePair | kValidation-core/src/commonMain/kotlin/de/kotlinBerlin/kValidation/constraints/StringConstraints.kt:11 | a character outside the Basic Multilingual Plane has length 2 |
| Values.ReplaceSkipsPrefix | kValidation-core/src/commonMain/kotlin/de/kotlinBerlin/kValidation/internal/Validations.kt:253-255 | `String.replace` leaves text that cannot start an occurrence of the pattern unchanged |
| Values.ReplaceAbsent | kValidation-core/src/commonMain/kotlin/de/kotlinBerlin/kValidation/internal/Validations.kt:253 | a string without the pattern's first character is unchanged by `replace` |
| Values.ReplaceAtFront | kValidation-core/src/commonMain/kotlin/de/kotlinBerlin/kValidation/internal/Validations.kt:253 | an occurrence at the front is replaced and the scan resumes after it |
| Values.Lines | kValidation-core/src/commonMain/kotlin/de/kotlinBerlin/kValidation/ValidationResult.kt:194-195 | `split("\n")` always gives at least one line, and no line holds a newline |
| Values.LinesOfJoin | kValidation-core/src/commonMain/kotlin/de/kotlinBerlin/kValidation/ValidationResult.kt:194-198 | splitting a newline-joined list of newline-free lines gives the lines back |
| Values.TabbedLines | kValidation-core/src/commonMain/kotlin/de/kotlinBerlin/kValidation/ValidationResult.kt:195-197 | each line of `indented` gets exactly one tab in front, and the number of lines is kept |
| Values.IndentedLines | kValidation-core/src/commonMain/kotlin/de/kotlinBerlin/kValidation/ValidationResult.kt:194-198 | `indented` prefixes every line of its input with a tab and keeps the number of lines |
| PathDescriptors.PathDescriptor.Unwrapped | kValidation-core/src/commonMain/kotlin/de/kotlinBerlin/kValidation/PathDescriptors.kt:106-107 | a conditional descriptor is removed down to a non-conditional one with the same name |
| Values.FindFirst | kValidation-core/src/commonMain/kotlin/de/kotlinBerlin/kValidation/PathDescriptors.kt:70-71 | the entry found by `MapPathDescriptor.get` (and by the legacy error map's lookup) is the first entry with the key; no earlier entry has it |
| PathDescriptors.IterableGet | kValidation-core/src/commonMain/kotlin/de/kotlinBerlin/kValidation/PathDescriptors.kt:90-95 | the iterator walk returns the element at the index, and throws `NoSuchElementException` past the end |
| PathDescriptors.Extract | kValidation-core/src/commonMain/kotlin/de/kotlinBerlin/kValidation/PathDescriptors.kt:86-98 | `get` of a descriptor, walking the iterator `index` times for an iterable index, is the descriptor's `Get` |
| PathDescriptors.UnwrappedGet | kValidation-core/src/commonMain/kotlin/de/kotlinBerlin/kValidation/PathDescriptors.kt:107 | a conditional descriptor extracts what its wrapped descriptor extracts |
| PathDescriptors.EqualsReflexive | kValidation-core/src/commonMain/kotlin/de/kotlinBerlin/kValidation/PathDescriptors.kt:17 | every descriptor equals itself under `equals` |
| PathDescriptors.IndexDescriptorsEqual | kValidation-core/src/commonMain/kotlin/de/kotlinBerlin/kValidation/PathDescriptors.kt:77-98 | `ArrayPathDescriptor(i)` and `IterablePathDescriptor(i)` are equal both ways, since the base `equals` compares names |
| PathDescriptors.IndexDescriptorsDistinct | kValidation-core/src/commonMain/kotlin/de/kotlinBerlin/kValidation/PathDescriptors.kt:77-98 | index descriptors are equal exactly when their indices are equal |
| PathDescriptors.EqualsAndHash | kValidation-core/src/commonMain/kotlin/de/kotlinBerlin/kValidation/PathDescriptors.kt:100-113 | `equals` and `hashCode` agree except where the base-class `equals` compares names only; a plain descriptor equals a conditional one of its name but hashes differently |
| PathDescriptors.EqualsNotSymmetric | kValidation-core/src/commonMain/kotlin/de/kotlinBerlin/kValidation/PathDescriptors.kt:110-111 | an index descriptor equals a conditional wrapping it, but not the other way round |
| ValidationPaths.NewBasicPath | kValidation-core/src/commonMain/kotlin/de/kotlinBerlin/kValidation/ValidationPath.kt:23-28 | a new basic path holds the cleaned-up segment list |
| ValidationPaths.CleanUpList | kValidation-core/src/commonMain/kotlin/de/kotlinBerlin/kValidation/ValidationPath.kt:47-56 | the iterator loop of `cleanUp` (remove `This`, replace a conditional by the descriptor it wraps) yields `CleanUp` of the list |
| ValidationPaths.RemoveAt | kValidation-core/src/commonMain/kotlin/de/kotlinBerlin/kValidation/ValidationPath.kt:51 | `iterator.remove()` drops exactly the element at the cursor |
| ValidationPaths.CleanUpConcat | kValidation-core/src/commonMain/kotlin/de/kotlinBerlin/kValidation/ValidationPath.kt:47-56 | cleanUp works segment by segment and keeps the order of segments |
| ValidationPaths.CleanUpKeepsPlainSegments | kValidation-core/src/commonMain/kotlin/de/kotlinBerlin/kValidation/ValidationPath.kt:47-56 | a list without `This` and conditional segments is left as it is |
| ValidationPaths.CleanUpRemovesThisAndConditionals | kValidation-core/src/commonMain/kotlin/de/kotlinBerlin/kValidation/ValidationPath.kt:47-56 | after cleanUp no segment is `This` or conditional, unless a conditional wrapped one of those |
| ValidationPaths.CleanUpSegmentsComeFromList | kValidation-core/src/commonMain/kotlin/de/kotlinBerlin/kValidation/ValidationPath.kt:47-56 | every segment after cleanUp is a segment of the list, unwrapped at most once |
| ValidationPaths.CombineSegmentsAppends | kValidation-core/src/commonMain/kotlin/de/kotlinBerlin/kValidation/ValidationPath.kt:34-45 | `combineSegments` only appends text to the path rendered so far |
| ValidationPaths.RenderIsThisPlusSegments | kValidation-core/src/commonMain/kotlin/de/kotlinBerlin/kValidation/ValidationPath.kt:30-45 | a rendered path is "this" followed by the texts of its segments in order |
| ValidationPaths.RenderStartsWithThis | kValidation-core/src/commonMain/kotlin/de/kotlinBerlin/kValidation/ValidationPath.kt:30-32 | every rendered basic path starts with "this" |
| ValidationPaths.RenderAppend | kValidation-core/src/commonMain/kotlin/de/kotlinBerlin/kValidation/ValidationPath.kt:30-32 | rendering a path extended by one segment combines that segment with the rendering so far |
| ValidationPaths.RenderFirstAddress | kValidation-core/src/commonMain/kotlin/de/kotlinBerlin/kValidation/ValidationPath.kt:30-45 | a property segment `addresses` followed by index 0 renders as "this.addresses[0]" |
| ValidationPaths.RenderNestedExample | kValidation-core/src/commonMain/kotlin/de/kotlinBerlin/kValidation/ValidationPath.kt:30-45 | property, index, property and property segments render as "this.addresses[0].city.postalCode" |
| ValidationPaths.SegmentTexts | kValidation-core/src/commonMain/kotlin/de/kotlinBerlin/kValidation/ValidationPath.kt:38-44 | a property or function adds ".name", a custom segment ".`name`", keys and indices "[..]", `This` nothing |
| ValidationPaths.EmptyPathFacts | kValidation-core/src/commonMain/kotlin/de/kotlinBerlin/kValidation/ValidationPath.kt:59-62 | the empty path has no segments, renders as "empty", and equals the path built from `[This]` |
| ValidationPaths.PathEqualsSegmentwise | kValidation-core/src/commonMain/kotlin/de/kotlinBerlin/kValidation/ValidationPath.kt:9-15 | path equality is segment-wise descriptor equality, so "[i]" of an array equals "[i]" of an iterable |
| ValidationPaths.PathsOfDifferentLength | kValidation-core/src/commonMain/kotlin/de/kotlinBerlin/kValidation/ValidationPath.kt:9-15 | paths with different numbers of segments are never equal |
| ValidationResults.PathAddErrorAtMostOne | kValidation-core/src/commonMain/kotlin/de/kotlinBerlin/kValidation/ValidationResult.kt:143-146 | `PathResult.addError` succeeds exactly when the node has no child yet, and then holds only the added one; otherwise it throws |
| ValidationResults.LogicalAddErrorChildren | kValidation-core/src/commonMain/kotlin/de/kotlinBerlin/kValidation/ValidationResult.kt:175-181 | a same-sign logical result is spliced in (its children appended), anything else appended as one child; sign and value are kept |
| ValidationResults.LogicalAddErrorWellFormed | kValidation-core/src/commonMain/kotlin/de/kotlinBerlin/kValidation/ValidationResult.kt:175-181 | adding a well-formed result to a well-formed group keeps it well-formed: no same-sign nesting |
| ValidationResults.FlatErrors | kValidation-core/src/commonMain/kotlin/de/kotlinBerlin/kValidation/ValidationResult.kt:66 | `flatErrors` consists of leaves only (a leaf's is itself) |
| ValidationResults.FlatErrorsOfConcat | kValidation-core/src/commonMain/kotlin/de/kotlinBerlin/kValidation/ValidationResult.kt:87 | the `flatErrors` of a child list is the in-order concatenation of the children's |
| ValidationResults.LogicalAddErrorFlatErrors | kValidation-core/src/commonMain/kotlin/de/kotlinBerlin/kValidation/ValidationResult.kt:175-181 | splicing is invisible to `flatErrors`: the added leaves follow the existing ones |
| ValidationResults.WellFormedHasLeaves | kValidation-core/src/commonMain/kotlin/de/kotlinBerlin/kValidation/ValidationResult.kt:84-107 | a well-formed failure tree reports at least one leaf |
| ValidationResults.MessageOfCompound | kValidation-core/src/commonMain/kotlin/de/kotlinBerlin/kValidation/ValidationResult.kt:102-107 | the message of a compound with two children is "(a sign b)" |
| ValidationResults.PathMatchesAgrees | kValidation-core/src/commonMain/kotlin/de/kotlinBerlin/kValidation/ValidationResult.kt:148-157 | on a descriptor that is not `This` once unwrapped, `pathMatches` as written never throws and equals the corrected matcher |
| ValidationResults.ErrorsAtAgrees | kValidation-core/src/commonMain/kotlin/de/kotlinBerlin/kValidation/ValidationResult.kt:120-132 | where no conditional wraps `This`, `errorsAt` as written returns the corrected result and never throws |
| ValidationResults.ErrorsAtOfAgrees | kValidation-core/src/commonMain/kotlin/de/kotlinBerlin/kValidation/ValidationResult.kt:98-100 | the same agreement for the children of a compound |
| ValidationResults.ErrorsAtConditionalThisThrows | kValidation-core/src/commonMain/kotlin/de/kotlinBerlin/kValidation/ValidationResult.kt:148-157 | a path result under a guarded `This` (built by `validateIf` on `thisPath`): a non-empty query as written throws `IllegalStateException` |
| ValidationResults.ErrorsAtLeaf | kValidation-core/src/commonMain/kotlin/de/kotlinBerlin/kValidation/ValidationResult.kt:71-72 | a leaf answers the empty query with itself and any other query with nothing |
| ValidationResults.ErrorsAtEverything | kValidation-core/src/commonMain/kotlin/de/kotlinBerlin/kValidation/ValidationResult.kt:120-122 | the empty query with `includeSubErrors` returns every leaf of the tree, i.e. `flatErrors` |
| ValidationResults.ErrorsAtEverythingOf | kValidation-core/src/commonMain/kotlin/de/kotlinBerlin/kValidation/ValidationResult.kt:98-100 | the same for the children of a compound |
| ValidationResults.ErrorsAtEmptyQueryOnPath | kValidation-core/src/commonMain/kotlin/de/kotlinBerlin/kValidation/ValidationResult.kt:121 | the empty query without `includeSubErrors` on a path result finds nothing |
| ValidationResults.ErrorsAtAreLeaves | kValidation-core/src/commonMain/kotlin/de/kotlinBerlin/kValidation/ValidationResult.kt:98-132 | every error a query returns is one of the tree's leaves |
| ValidationResults.ErrorsAtOfAreLeaves | kValidation-core/src/commonMain/kotlin/de/kotlinBerlin/kValidation/ValidationResult.kt:98-100 | the same for the children of a compound |
| ValidationResults.ErrorsAtStep | kValidation-core/src/commonMain/kotlin/de/kotlinBerlin/kValidation/ValidationResult.kt:125-131 | a matching first selector descends into the only child with the rest of the query; a non-matching one yields nothing |
| ValidationResults.PropertyStepMatches | kValidation-core/src/commonMain/kotlin/de/kotlinBerlin/kValidation/ValidationResult.kt:150 | a property step is matched by a reference to a property of that name, and by nothing else |
| ValidationResults.IndexStepMatches | kValidation-core/src/commonMain/kotlin/de/kotlinBerlin/kValidation/ValidationResult.kt:153-154 | an array or iterable index step is matched by the index itself and nothing else |
| ValidationResults.PrintSingleChild | kValidation-core/src/commonMain/kotlin/de/kotlinBerlin/kValidation/ValidationResult.kt:163 | a logical result with a single child prints as that child |
| ValidationResults.PrintTwoChildren | kValidation-core/src/commonMain/kotlin/de/kotlinBerlin/kValidation/ValidationResult.kt:162-173 | a group of two prints its sign, " {", each child indented on its own lines, and "}" |
| ValidationResults.PrintPathResultLines | kValidation-core/src/commonMain/kotlin/de/kotlinBerlin/kValidation/ValidationResult.kt:134-141 | a named path result prints "name:" on the first line and then every line of its child with a tab in front |
| ValidationResults.PrintLeaf | kValidation-core/src/commonMain/kotlin/de/kotlinBerlin/kValidation/ValidationResult.kt:74 | a leaf prints as its message, and its message is its hint |
| ValidationResults.ResultFlatErrors | kValidation-core/src/commonMain/kotlin/de/kotlinBerlin/kValidation/ValidationResult.kt:33 | a valid result has no `flatErrors`; an invalid one has its tree's |
| ValidationResults.ResultErrorsAt | kValidation-core/src/commonMain/kotlin/de/kotlinBerlin/kValidation/ValidationResult.kt:36 | a valid result answers every query with nothing; an invalid one only with its leaves |
| ValidationResults.ResultPrint | kValidation-core/src/commonMain/kotlin/de/kotlinBerlin/kValidation/ValidationResult.kt:38 | a valid result prints "valid" |
| ValidationResults.ValidEquality | kValidation-core/src/commonMain/kotlin/de/kotlinBerlin/kValidation/ValidationResult.kt:41 | two `Valid` results are equal exactly when their values are |
| ValidationResults.LeafPathsAreFlatErrors | kValidation-core/src/commonMain/kotlin/de/kotlinBerlin/kValidation/ValidationResult.kt:66-69 | pairing every leaf with its data path keeps the leaves of `flatErrors`, in order |
| ValidationResults.ErrorPathsCoverFlatErrors | kValidation-core/src/commonMain/kotlin/de/kotlinBerlin/kValidation/ValidationResult.kt:51 | the leaves grouped by `groupedErrors` are exactly `flatErrors`, in order, each with its data path |
| ValidationResults.ErrorPathExample | kValidation-core/src/commonMain/kotlin/de/kotlinBerlin/kValidation/ValidationResult.kt:84-89 | a failed length check on `name` under the root has the data path "this.name" |
| Constraints.NewConstraint | kValidation-core/src/commonMain/kotlin/de/kotlinBerlin/kValidation/constraints/Constraints.kt:9-21 | a constraint built by `addConstraint` keeps hint, template values and test, and `isError` defaults to true |
| Constraints.PlainHint | kValidation-core/src/commonMain/kotlin/de/kotlinBerlin/kValidation/internal/Validations.kt:252-256 | a hint without any `{` is reported as it stands |
| Constraints.ValueAbsent | kValidation-core/src/commonMain/kotlin/de/kotlinBerlin/kValidation/internal/Validations.kt:253 | in a hint whose every brace opens a numbered placeholder, `{value}` occurs nowhere and the replace changes nothing |
| Constraints.OnePlaceholderHint | kValidation-core/src/commonMain/kotlin/de/kotlinBerlin/kValidation/internal/Validations.kt:252-256 | a hint with a single `{0}` is reported with the template value in its place |
| Constraints.FillOne | kValidation-core/src/commonMain/kotlin/de/kotlinBerlin/kValidation/internal/Validations.kt:254-255 | the template fold over one value replaces `{0}` |
| Constraints.FillTwo | kValidation-core/src/commonMain/kotlin/de/kotlinBerlin/kValidation/internal/Validations.kt:254-255 | the template fold over two values replaces `{0}` and then `{1}` |
| Constraints.TwoPlaceholderHint | kValidation-core/src/commonMain/kotlin/de/kotlinBerlin/kValidation/internal/Validations.kt:252-256 | a hint with `{0}` and then `{1}` is reported with both template values in place |
| Constraints.FirstOfTwo | kValidation-core/src/commonMain/kotlin/de/kotlinBerlin/kValidation/internal/Validations.kt:255 | replacing `{0}` leaves a later `{1}` alone |
| Constraints.NullConstraints | kValidation-core/src/commonMain/kotlin/de/kotlinBerlin/kValidation/constraints/Constraints.kt:24-29 | `isNotNull` passes exactly on non-null values ("may not be null"), `isNull` exactly on null ("must be null"); both are errors |
| Constraints.OneOfConstraint | kValidation-core/src/commonMain/kotlin/de/kotlinBerlin/kValidation/constraints/Constraints.kt:42-46 | `oneOf` passes exactly on the allowed values and reports "must be one of: " followed by the quoted list |
| Constraints.QuotedListExample | kValidation-core/src/commonMain/kotlin/de/kotlinBerlin/kValidation/constraints/Constraints.kt:45 | the template value of `oneOf("OK", "CANCEL")` is "'OK', 'CANCEL'" |
| Constraints.ConstConstraint | kValidation-core/src/commonMain/kotlin/de/kotlinBerlin/kValidation/constraints/Constraints.kt:49-52 | `const` passes exactly on the expected value and reports "must be 'x'", or "must be null" |
| Constraints.CustomConstraints | kValidation-core/src/commonMain/kotlin/de/kotlinBerlin/kValidation/constraints/Constraints.kt:55-65 | `custom` runs the caller's test on value and context, `simpleCustom` on the value alone; both default to "custom constraint failed" |
| Constraints.NoBraceInNumber | kValidation-core/src/commonMain/kotlin/de/kotlinBerlin/kValidation/constraints/Constraints.kt:71-72 | a rendered integer holds no `{`, so a number used as template value is never taken for a placeholder |
| Constraints.InRangeConstraint | kValidation-core/src/commonMain/kotlin/de/kotlinBerlin/kValidation/constraints/Constraints.kt:68-73 | `inRange` over integers passes exactly inside the closed range and names both ends in its message |
| Constraints.MinLengthConstraint | kValidation-core/src/commonMain/kotlin/de/kotlinBerlin/kValidation/constraints/StringConstraints.kt:6-12 | `minLength(n)` throws `IllegalArgumentException` exactly when n < 0; otherwise it passes exactly on strings of at least n UTF-16 code units, with n in the message |
| Constraints.MaxLengthConstraint | kValidation-core/src/commonMain/kotlin/de/kotlinBerlin/kValidation/constraints/StringConstraints.kt:15-21 | `maxLength(n)` throws exactly when n < 0; otherwise it passes exactly on strings of at most n UTF-16 code units, with n in the message |
| Constraints.PatternConstraint | kValidation-core/src/commonMain/kotlin/de/kotlinBerlin/kValidation/constraints/StringConstraints.kt:27-30 | `pattern` passes exactly on strings the (opaque) regular expression matches, with the fixed message "must match the expected pattern" |
| Constraints.IsTrueConstraint | kValidation-core/src/commonMain/kotlin/de/kotlinBerlin/kValidation/constraints/BooleanConstraints.kt:6-7 | `isTrue` passes on true alone and reports "must be true" |
| Constraints.IsFalseAsWrittenMisreports | kValidation-core/src/commonMain/kotlin/de/kotlinBerlin/kValidation/constraints/BooleanConstraints.kt:10-11 | as written, `isFalse` rejects `true` with the message "must be true", which names the rejected value |
| Constraints.IsFalseConstraint | kValidation-core/src/commonMain/kotlin/de/kotlinBerlin/kValidation/constraints/BooleanConstraints.kt:10-11 | the corrected `isFalse` passes on false alone and reports "must be false" |
| Constraints.MinItemsConstraint | kValidation-core/src/commonMain/kotlin/de/kotlinBerlin/kValidation/constraints/CollectionConstraints.kt:108-126 | `minItems(n)` passes exactly on collections with at least n items; the message reads "item" for n = 1 and "items" otherwise |
| Constraints.MaxItemsConstraint | kValidation-core/src/commonMain/kotlin/de/kotlinBerlin/kValidation/constraints/CollectionConstraints.kt:131-149 | `maxItems(n)` passes exactly on collections with at most n items, with the same wording rule |
| Constraints.Distinct | kValidation-core/src/commonMain/kotlin/de/kotlinBerlin/kValidation/constraints/CollectionConstraints.kt:156 | `distinct()` keeps each element once: it is no longer than the input and has the same elements |
| Constraints.DistinctCount | kValidation-core/src/commonMain/kotlin/de/kotlinBerlin/kValidation/constraints/CollectionConstraints.kt:156 | the distinct count equals the count exactly when no element repeats |
| Constraints.MapValues | kValidation-core/src/commonMain/kotlin/de/kotlinBerlin/kValidation/constraints/CollectionConstraints.kt:167 | `values` of a map lists the value of every entry, in entry order |
| Constraints.UniqueItemsConstraint | kValidation-core/src/commonMain/kotlin/de/kotlinBerlin/kValidation/constraints/CollectionConstraints.kt:154-163 | `uniqueItems(u)` passes exactly when u is false or no item repeats, with "all items must be unique" |
| Constraints.UniqueValuesConstraint | kValidation-core/src/commonMain/kotlin/de/kotlinBerlin/kValidation/constraints/CollectionConstraints.kt:165-168 | `uniqueValues(u)` passes exactly when u is false or no value of the map repeats, with "all values must be unique" |
| Validations.Leaf | kValidation-core/src/commonMain/kotlin/de/kotlinBerlin/kValidation/internal/Validations.kt:245-256 | a failed constraint adds a leaf carrying the value and its filled-in hint; it is an error exactly when the constraint's `isError` is set, otherwise a warning |
| Validations.EmptyGroup | kValidation-core/src/commonMain/kotlin/de/kotlinBerlin/kValidation/internal/Validations.kt:169-176 | an object validation pushes an empty group over the value, an OR group exactly in OR mode |
| Validations.Eval | kValidation-core/src/commonMain/kotlin/de/kotlinBerlin/kValidation/internal/Validations.kt:11-243 | whatever a validation attaches to the caller's current node is a compound result (a path result or a logical group) |
| Validations.Guard | kValidation-core/src/commonMain/kotlin/de/kotlinBerlin/kValidation/internal/Validations.kt:12-14 | a conditional descriptor's guard runs on the same value and property map; a failure it reports is compound |
| Validations.EvalProperty | kValidation-core/src/commonMain/kotlin/de/kotlinBerlin/kValidation/internal/Validations.kt:11-75 | a property navigator that fails attaches a `PathResult` for its own descriptor |
| Validations.Descend | kValidation-core/src/commonMain/kotlin/de/kotlinBerlin/kValidation/internal/Validations.kt:33-75 | once the descriptor produced a value, any failure of the navigator is a `PathResult` for its descriptor |
| Validations.VisitStep | kValidation-core/src/commonMain/kotlin/de/kotlinBerlin/kValidation/internal/Validations.kt:82-103 | one element of an each-navigator keeps the navigator's `AndResult` over the same value |
| Validations.EachFrom | kValidation-core/src/commonMain/kotlin/de/kotlinBerlin/kValidation/internal/Validations.kt:82-160 | the fold over the elements keeps the navigator's `AndResult` over the same value |
| Validations.EvalEach | kValidation-core/src/commonMain/kotlin/de/kotlinBerlin/kValidation/internal/Validations.kt:82-160 | a failing iterable, array or map navigator attaches an `AndResult` over the collection value |
| Validations.ConstraintStep | kValidation-core/src/commonMain/kotlin/de/kotlinBerlin/kValidation/internal/Validations.kt:189-243 | a constraint test leaves the property map alone and keeps the group logical, over the same value and of the same sign |
| Validations.ConstraintsFrom | kValidation-core/src/commonMain/kotlin/de/kotlinBerlin/kValidation/internal/Validations.kt:189-243 | the constraint fold leaves the property map alone and keeps the group logical, over the same value and of the same sign |
| Validations.SubStep | kValidation-core/src/commonMain/kotlin/de/kotlinBerlin/kValidation/internal/Validations.kt:189-243 | one sub-validation keeps the group logical, over the same value and of the same sign |
| Validations.SubsFrom | kValidation-core/src/commonMain/kotlin/de/kotlinBerlin/kValidation/internal/Validations.kt:189-243 | the sub-validation fold keeps the group logical, over the same value and of the same sign |
| Validations.Intern | kValidation-core/src/commonMain/kotlin/de/kotlinBerlin/kValidation/internal/Validations.kt:186-243 | `validateIntern` fills a logical group over the value, an `OrResult` exactly in OR mode |
| Validations.EvalObject | kValidation-core/src/commonMain/kotlin/de/kotlinBerlin/kValidation/internal/Validations.kt:169-184 | a failing object validation attaches a logical group over the value, an `OrResult` exactly when it combines with OR |
| ValidationContexts.PropertyMap.constructor | kValidation-core/src/commonMain/kotlin/de/kotlinBerlin/kValidation/Validation.kt:25 | the context map starts as a copy of the caller's map |
| ValidationContexts.Attach | kValidation-core/src/commonMain/kotlin/de/kotlinBerlin/kValidation/Validation.kt:75-86 | a path result accepts one compound child and only while it has none, and otherwise throws; a logical result accepts any node, splicing one of its own sign; the value is kept |
| ValidationContexts.ValidationContext.constructor | kValidation-core/src/commonMain/kotlin/de/kotlinBerlin/kValidation/Validation.kt:52-57 | a new context has an empty stack above the root `PathResult(This, aValue)` |
| ValidationContexts.ValidationContext.Current | kValidation-core/src/commonMain/kotlin/de/kotlinBerlin/kValidation/Validation.kt:57 | the current node is the top of the stack, or the root when the stack is empty, and is compound |
| ValidationContexts.ValidationContext.Push | kValidation-core/src/commonMain/kotlin/de/kotlinBerlin/kValidation/Validation.kt:67-69 | `push` puts the group on top of the stack, which makes it the current node; the root is unchanged |
| ValidationContexts.ValidationContext.Pop | kValidation-core/src/commonMain/kotlin/de/kotlinBerlin/kValidation/Validation.kt:89-91 | `pop` drops the top group; on an empty stack it throws an index-out-of-bounds exception and changes nothing |
| ValidationContexts.ValidationContext.AddInvalidResult | kValidation-core/src/commonMain/kotlin/de/kotlinBerlin/kValidation/Validation.kt:75-86 | `addInvalidResult` replaces the current node by the node with `e` attached, or throws and changes nothing |
| ValidationContexts.ValidationContext.PopAndAddToParent | kValidation-core/src/commonMain/kotlin/de/kotlinBerlin/kValidation/Validation.kt:97-100 | `popAndAddToParent` removes the top group and attaches it to the node below it, the root included; on an empty stack it throws |
| ValidationContexts.ValidationContext.Finish | kValidation-core/src/commonMain/kotlin/de/kotlinBerlin/kValidation/Validation.kt:59-64 | `finish` throws "Called finish on a stack that is not empty." while groups are open, and otherwise returns the root |
| Engine.Close | kValidation-core/src/commonMain/kotlin/de/kotlinBerlin/kValidation/internal/Validations.kt:169-184 | the common tail of a node: its group is discarded when it passed and attached to the node below when it failed, as `Eval` prescribes |
| Engine.Validate | kValidation-core/src/commonMain/kotlin/de/kotlinBerlin/kValidation/Validation.kt:15 | `validate(aValue, aContext)` of every validation does to the stack, the root and the property map what `Validations.Eval` says, and returns true exactly when it passed |
| Engine.CheckGuard | kValidation-core/src/commonMain/kotlin/de/kotlinBerlin/kValidation/internal/Validations.kt:259 | the guard runs on `copyForCondition`, a new context sharing the property map; only its pass or failure and its effect on the map survive |
| Engine.ValidateProperty | kValidation-core/src/commonMain/kotlin/de/kotlinBerlin/kValidation/internal/Validations.kt:11-75 | the three property navigators follow `Validations.EvalProperty` |
| Engine.ValidateDescend | kValidation-core/src/commonMain/kotlin/de/kotlinBerlin/kValidation/internal/Validations.kt:33-75 | a navigator after extraction follows `Validations.Descend` |
| Engine.ReportRequired | kValidation-core/src/commonMain/kotlin/de/kotlinBerlin/kValidation/internal/Validations.kt:60-65 | a required property on null attaches its `PathResult` holding the "is required" error and returns false |
| Engine.DescendInto | kValidation-core/src/commonMain/kotlin/de/kotlinBerlin/kValidation/internal/Validations.kt:11-75 | a present value is validated inside the navigator's `PathResult`, which is attached only on failure |
| Engine.ValidateVisit | kValidation-core/src/commonMain/kotlin/de/kotlinBerlin/kValidation/internal/Validations.kt:82-103 | one element of an each-navigator does to the navigator's group what `Validations.VisitStep` says |
| Engine.VisitElement | kValidation-core/src/commonMain/kotlin/de/kotlinBerlin/kValidation/internal/Validations.kt:82-103 | an admitted element is validated inside a `PathResult` for its index or key, attached to the navigator's group on failure |
| Engine.ValidateEach | kValidation-core/src/commonMain/kotlin/de/kotlinBerlin/kValidation/internal/Validations.kt:82-160 | the iterable, array and map navigators follow `Validations.EvalEach` |
| Engine.VisitAll | kValidation-core/src/commonMain/kotlin/de/kotlinBerlin/kValidation/internal/Validations.kt:82-160 | the element loop does what `Validations.EachFrom` says, with no early stop |
| Engine.CheckConstraint | kValidation-core/src/commonMain/kotlin/de/kotlinBerlin/kValidation/internal/Validations.kt:189-243 | one constraint does to the current group what `Validations.ConstraintStep` says |
| Engine.CheckSub | kValidation-core/src/commonMain/kotlin/de/kotlinBerlin/kValidation/internal/Validations.kt:189-243 | one sub-validation does to the current group what `Validations.SubStep` says |
| Engine.FoldConstraints | kValidation-core/src/commonMain/kotlin/de/kotlinBerlin/kValidation/internal/Validations.kt:189-243 | the constraint loop of `validateAndIntern`/`validateOrIntern` follows `Validations.ConstraintsFrom`, early return included |
| Engine.FoldSubs | kValidation-core/src/commonMain/kotlin/de/kotlinBerlin/kValidation/internal/Validations.kt:189-243 | the sub-validation loop follows `Validations.SubsFrom`, early return and exceptions included |
| Engine.ValidateIntern | kValidation-core/src/commonMain/kotlin/de/kotlinBerlin/kValidation/internal/Validations.kt:186-243 | `validateIntern` on the freshly pushed group follows `Validations.Intern` |
| Engine.ValidateObject | kValidation-core/src/commonMain/kotlin/de/kotlinBerlin/kValidation/internal/Validations.kt:169-184 | `ObjectValidation.validate` follows `Validations.EvalObject` |
| Engine.ValidateNonRepeating | kValidation-kModel/src/commonMain/kotlin/de/kotlinBerlin/kValidation/kModel/NonRepeatingValidation.kt:11-24 | the cycle guard follows its meaning: the visited set in the property map grows by the value, and a repeated value attaches the cycle error |
| Engine.ValidateWith | kValidation-core/src/commonMain/kotlin/de/kotlinBerlin/kValidation/Validation.kt:24-29 | `validate(value, contextMap)` rethrows, gives `Valid(value)` on a pass, and otherwise the root `PathResult(This, value)` holding the failure |
| Engine.Invoke | kValidation-core/src/commonMain/kotlin/de/kotlinBerlin/kValidation/Validation.kt:18 | `invoke(aValue)` is `validate` with an empty map, with the same three outcomes |
| ValidationLaws.EvalWellFormed | kValidation-core/src/commonMain/kotlin/de/kotlinBerlin/kValidation/internal/Validations.kt:11-243 | every failure a validation attaches is a well-formed tree, so it holds at least one leaf |
| ValidationLaws.EvalPropertyWellFormed | kValidation-core/src/commonMain/kotlin/de/kotlinBerlin/kValidation/internal/Validations.kt:11-75 | the failure of a property navigator is well-formed |
| ValidationLaws.DescendWellFormed | kValidation-core/src/commonMain/kotlin/de/kotlinBerlin/kValidation/internal/Validations.kt:33-75 | the failure of a navigator after extraction is well-formed |
| ValidationLaws.EvalEachWellFormed | kValidation-core/src/commonMain/kotlin/de/kotlinBerlin/kValidation/internal/Validations.kt:82-160 | the failure of an each-navigator is well-formed |
| ValidationLaws.EachFromWellFormed | kValidation-core/src/commonMain/kotlin/de/kotlinBerlin/kValidation/internal/Validations.kt:82-160 | the element fold keeps its group well-formed once it holds a failure |
| ValidationLaws.VisitStepWellFormed | kValidation-core/src/commonMain/kotlin/de/kotlinBerlin/kValidation/internal/Validations.kt:82-103 | one element step keeps the group well-formed once it holds a failure |
| ValidationLaws.EvalObjectWellFormed | kValidation-core/src/commonMain/kotlin/de/kotlinBerlin/kValidation/internal/Validations.kt:169-184 | the failure of an object validation is well-formed |
| ValidationLaws.InternWellFormed | kValidation-core/src/commonMain/kotlin/de/kotlinBerlin/kValidation/internal/Validations.kt:186-243 | a group `validateIntern` reports as failed holds at least one child |
| ValidationLaws.ConstraintsFromWellFormed | kValidation-core/src/commonMain/kotlin/de/kotlinBerlin/kValidation/internal/Validations.kt:189-243 | the constraint fold keeps its group well-formed and non-empty once it has failed |
| ValidationLaws.SubsFromWellFormed | kValidation-core/src/commonMain/kotlin/de/kotlinBerlin/kValidation/internal/Validations.kt:189-243 | the sub-validation fold keeps its group well-formed and non-empty once it has failed |
| ValidationLaws.SubStepWellFormed | kValidation-core/src/commonMain/kotlin/de/kotlinBerlin/kValidation/internal/Validations.kt:189-243 | one sub-validation keeps the group well-formed and non-empty once it has failed |
| ValidationLaws.NoCycleGuardKeepsProps | kValidation-core/src/commonMain/kotlin/de/kotlinBerlin/kValidation/internal/Validations.kt:11-243 | a validation without a cycle guard leaves the property map as it found it |
| ValidationLaws.PropertyKeepsProps | kValidation-core/src/commonMain/kotlin/de/kotlinBerlin/kValidation/internal/Validations.kt:11-75 | so does a property navigator |
| ValidationLaws.EachKeepsProps | kValidation-core/src/commonMain/kotlin/de/kotlinBerlin/kValidation/internal/Validations.kt:82-160 | so does an each-navigator |
| ValidationLaws.EachFromKeepsProps | kValidation-core/src/commonMain/kotlin/de/kotlinBerlin/kValidation/internal/Validations.kt:82-160 | so does the element fold |
| ValidationLaws.SubsFromKeepsProps | kValidation-core/src/commonMain/kotlin/de/kotlinBerlin/kValidation/internal/Validations.kt:189-243 | so does the sub-validation fold |
| ValidationLaws.VisitsPassIff | kValidation-core/src/commonMain/kotlin/de/kotlinBerlin/kValidation/internal/Validations.kt:82-160 | every admitted element passes exactly when each element the allow-list admits passes |
| ValidationLaws.VisitStepQuiet | kValidation-core/src/commonMain/kotlin/de/kotlinBerlin/kValidation/internal/Validations.kt:82-103 | an element step appends a `PathResult` for the element exactly when it is admitted and fails |
| ValidationLaws.EachFromQuiet | kValidation-core/src/commonMain/kotlin/de/kotlinBerlin/kValidation/internal/Validations.kt:82-160 | the element fold appends the failures of the admitted elements in order and clears the result exactly when one fails |
| ValidationLaws.EachLaw | kValidation-core/src/commonMain/kotlin/de/kotlinBerlin/kValidation/internal/Validations.kt:82-160 | an each-navigator passes exactly when every admitted element passes, and otherwise reports one `PathResult` per failing element, in order |
| ValidationLaws.FailedLeaves | kValidation-core/src/commonMain/kotlin/de/kotlinBerlin/kValidation/internal/Validations.kt:189-250 | the reference list of the leaves of the failing constraints holds leaves only |
| ValidationLaws.AddAll | kValidation-core/src/commonMain/kotlin/de/kotlinBerlin/kValidation/internal/Validations.kt:175-181 | adding nodes one by one keeps the group logical, over its value and of its sign |
| ValidationLaws.AddAllFlatErrors | kValidation-core/src/commonMain/kotlin/de/kotlinBerlin/kValidation/internal/Validations.kt:175-181 | adding nodes to a group adds exactly their leaves, in order |
| ValidationLaws.LeavesFlatErrors | kValidation-core/src/commonMain/kotlin/de/kotlinBerlin/kValidation/ValidationResult.kt:66-87 | a list of leaves flattens to itself |
| ValidationLaws.DecidedIff | kValidation-core/src/commonMain/kotlin/de/kotlinBerlin/kValidation/internal/Validations.kt:189-243 | some constraint from `i` on is decisive exactly when one of them returns the deciding value |
| ValidationLaws.ConstraintsFromAll | kValidation-core/src/commonMain/kotlin/de/kotlinBerlin/kValidation/internal/Validations.kt:189-243 | without a decisive constraint under short-circuit, the constraint fold runs to the end, leaves the map alone and collects every failing leaf |
| ValidationLaws.ConstraintsFromAcc | kValidation-core/src/commonMain/kotlin/de/kotlinBerlin/kValidation/internal/Validations.kt:189-243 | the running result after the constraint fold is fixed by whether a constraint was decisive |
| ValidationLaws.ConstraintsFromGroup | kValidation-core/src/commonMain/kotlin/de/kotlinBerlin/kValidation/internal/Validations.kt:189-243 | the constraint fold appends the leaves of the failing constraints, in order |
| ValidationLaws.ConstraintsFromGroupStep | kValidation-core/src/commonMain/kotlin/de/kotlinBerlin/kValidation/internal/Validations.kt:189-243 | the inductive step of the constraint fold's report |
| ValidationLaws.ConstraintStepAppends | kValidation-core/src/commonMain/kotlin/de/kotlinBerlin/kValidation/internal/Validations.kt:189-243 | one constraint moves the running result by `Step` and appends its leaf when it fails |
| ValidationLaws.ConstraintsFromFirstDecisive | kValidation-core/src/commonMain/kotlin/de/kotlinBerlin/kValidation/internal/Validations.kt:189-243 | under short-circuit the constraint fold returns at the first decisive constraint; in AND mode only its leaf is added |
| ValidationLaws.SubDecidedIff | kValidation-core/src/commonMain/kotlin/de/kotlinBerlin/kValidation/internal/Validations.kt:189-243 | some sub-validation from `i` on is decisive exactly when one of them passes (OR) or fails (AND) |
| ValidationLaws.SubsFromAll | kValidation-core/src/commonMain/kotlin/de/kotlinBerlin/kValidation/internal/Validations.kt:189-243 | without a decisive sub-validation under short-circuit, every sub-validation runs and every failure is added |
| ValidationLaws.SubsFromAcc | kValidation-core/src/commonMain/kotlin/de/kotlinBerlin/kValidation/internal/Validations.kt:189-243 | the running result after the sub-validation fold is fixed by whether a sub-validation was decisive |
| ValidationLaws.SubsFromAccStep | kValidation-core/src/commonMain/kotlin/de/kotlinBerlin/kValidation/internal/Validations.kt:189-243 | the inductive step of the sub-validation fold's running result |
| ValidationLaws.SubsFromGroup | kValidation-core/src/commonMain/kotlin/de/kotlinBerlin/kValidation/internal/Validations.kt:189-243 | the sub-validation fold adds the failures of the failing sub-validations, in order |
| ValidationLaws.SubsFromGroupStep | kValidation-core/src/commonMain/kotlin/de/kotlinBerlin/kValidation/internal/Validations.kt:189-243 | the inductive step of the sub-validation fold's report |
| ValidationLaws.SubStepQuiet | kValidation-core/src/commonMain/kotlin/de/kotlinBerlin/kValidation/internal/Validations.kt:189-243 | one sub-validation that leaves the map alone adds its failure exactly when it fails |
| ValidationLaws.AddAllConcat | kValidation-core/src/commonMain/kotlin/de/kotlinBerlin/kValidation/internal/Validations.kt:175-181 | adding two lists of nodes is adding the first and then the second |
| ValidationLaws.SubsFromFirstDecisive | kValidation-core/src/commonMain/kotlin/de/kotlinBerlin/kValidation/internal/Validations.kt:189-243 | under short-circuit the sub-validations stop at the first decisive one; in AND mode its failure is added |
| ValidationLaws.GroupOf | kValidation-core/src/commonMain/kotlin/de/kotlinBerlin/kValidation/internal/Validations.kt:169-176 | the group of an object validation holds exactly the given children, an `OrResult` exactly in OR mode |
| ValidationLaws.ObjectRuns | kValidation-core/src/commonMain/kotlin/de/kotlinBerlin/kValidation/internal/Validations.kt:169-243 | an object validation without short-circuit is its two folds combined: the leaves of the failing constraints, then the failures of the sub-validations |
| ValidationLaws.ObjectVerdict | kValidation-core/src/commonMain/kotlin/de/kotlinBerlin/kValidation/internal/Validations.kt:169-243 | over sub-validations that leave the map alone, whether an object validation passes does not depend on short-circuit: it is the two folds' running results combined |
| ValidationLaws.ShortAtConstraint | kValidation-core/src/commonMain/kotlin/de/kotlinBerlin/kValidation/internal/Validations.kt:189-243 | under short-circuit a decisive constraint returns the node's verdict at once: a failure for AND, a pass for OR |
| ValidationLaws.ShortAtSub | kValidation-core/src/commonMain/kotlin/de/kotlinBerlin/kValidation/internal/Validations.kt:189-243 | under short-circuit, with no decisive constraint, the first decisive sub-validation returns the node's verdict |
| ValidationLaws.ShortRunsOut | kValidation-core/src/commonMain/kotlin/de/kotlinBerlin/kValidation/internal/Validations.kt:189-243 | under short-circuit, with nothing decisive, both folds run to the end and their running results are combined |
| ValidationLaws.AndLaw | kValidation-core/src/commonMain/kotlin/de/kotlinBerlin/kValidation/internal/Validations.kt:189-215 | `and { }`, with or without short-circuit, passes exactly when every constraint holds and every sub-validation passes |
| ValidationLaws.OrLaw | kValidation-core/src/commonMain/kotlin/de/kotlinBerlin/kValidation/internal/Validations.kt:217-243 | `or { }`, with or without short-circuit, passes exactly when some constraint holds or some sub-validation passes, or when it has neither |
| ValidationLaws.ObjectFailureContents | kValidation-core/src/commonMain/kotlin/de/kotlinBerlin/kValidation/internal/Validations.kt:169-243 | a failing object validation reports exactly the leaves of its failing constraints followed by the leaves of its failing sub-validations |
| ValidationLaws.AndStopsAtFirstFailure | kValidation-core/src/commonMain/kotlin/de/kotlinBerlin/kValidation/internal/Validations.kt:189-215 | AND with short-circuit stops at the first failing constraint and reports only its leaf |
| ValidationLaws.OrStopsAtFirstSuccess | kValidation-core/src/commonMain/kotlin/de/kotlinBerlin/kValidation/internal/Validations.kt:217-243 | OR with short-circuit passes at the first passing constraint, whatever follows |
| ValidationLaws.AndStopsAtFirstFailingSub | kValidation-core/src/commonMain/kotlin/de/kotlinBerlin/kValidation/internal/Validations.kt:189-215 | AND with short-circuit and passing constraints stops at the first failing sub-validation and reports only its failure |
| ValidationLaws.OrStopsAtFirstPassingSub | kValidation-core/src/commonMain/kotlin/de/kotlinBerlin/kValidation/internal/Validations.kt:217-243 | OR with short-circuit and failing constraints passes at the first passing sub-validation |
| ValidationLaws.NoFailedLeaves | kValidation-core/src/commonMain/kotlin/de/kotlinBerlin/kValidation/internal/Validations.kt:189-243 | when every constraint holds there is no failing leaf |
| ValidationLaws.PropertyUnfolds | kValidation-core/src/commonMain/kotlin/de/kotlinBerlin/kValidation/internal/Validations.kt:11-75 | a property validation is evaluated by its navigator |
| ValidationLaws.GuardFailureSkips | kValidation-core/src/commonMain/kotlin/de/kotlinBerlin/kValidation/internal/Validations.kt:12-14 | a navigator whose guard fails passes without extracting the property |
| ValidationLaws.OptionalNullPasses | kValidation-core/src/commonMain/kotlin/de/kotlinBerlin/kValidation/internal/Validations.kt:33-46 | an optional property whose value is null passes, whatever its inner validation |
| ValidationLaws.RequiredNullReported | kValidation-core/src/commonMain/kotlin/de/kotlinBerlin/kValidation/internal/Validations.kt:54-75 | a required property whose value is null fails under its descriptor with the single leaf "is required" |
| ValidationLaws.PropertyWrapsInner | kValidation-core/src/commonMain/kotlin/de/kotlinBerlin/kValidation/internal/Validations.kt:11-75 | otherwise the navigator passes, fails or throws as the inner validation does, and a failure is the inner one under the descriptor, with the same leaves |
| ValidationLaws.CycleGuardRecords | kValidation-kModel/src/commonMain/kotlin/de/kotlinBerlin/kValidation/kModel/NonRepeatingValidation.kt:11-24 | the cycle guard passes exactly on an unseen value and records it, throws on a foreign entry under its key, and leaves every other key alone |
| ValidationLaws.CycleGuardRejectsSecondVisit | kValidation-kModel/src/commonMain/kotlin/de/kotlinBerlin/kValidation/kModel/NonRepeatingValidation.kt:11-24 | a value validated twice under the same map fails the second time with "Can not validate the same object twice." |
| Builders.BuildKey | kValidation-core/src/commonMain/kotlin/de/kotlinBerlin/kValidation/internal/PropKeys.kt:16-74 | a key builds a property navigator on the key's own descriptor |
| Builders.BuildKeyShape | kValidation-core/src/commonMain/kotlin/de/kotlinBerlin/kValidation/internal/PropKeys.kt:16-74 | the modifier selects the undefined, optional or required navigator, and an iterable, array or map key wraps the built sub-builder in the matching collection validation with its allow-list |
| Builders.KeyOf | kValidation-core/src/commonMain/kotlin/de/kotlinBerlin/kValidation/internal/BasicAndValidationBuilder.kt:12-59 | each navigation function registers its sub-builder under a key on the descriptor it was given |
| Builders.IfPresentSkipsNull | kValidation-core/src/commonMain/kotlin/de/kotlinBerlin/kValidation/internal/BasicAndValidationBuilder.kt:50-52 | `ifPresent` builds a navigator that passes on a null value without running what was declared inside it |
| Builders.RequiredReportsNull | kValidation-core/src/commonMain/kotlin/de/kotlinBerlin/kValidation/internal/BasicAndValidationBuilder.kt:54-56 | `required` builds a navigator that fails on a null value with the single error "is required" |
| Builders.ModifiersSeparateKeys | kValidation-core/src/commonMain/kotlin/de/kotlinBerlin/kValidation/internal/PropKeys.kt:16-19 | `validate`/`invoke` and `has` share a key, while `ifPresent`, `required` and the each-forms get keys of their own |
| Builders.ConditionalKeysApart | kValidation-core/src/commonMain/kotlin/de/kotlinBerlin/kValidation/internal/BasicValidationBuilder.kt:47 | a key on a plain descriptor never finds a sub-builder stored under a conditional one, and the other way round, because their hashes differ |
| Builders.ConditionalThenPlain | kValidation-core/src/commonMain/kotlin/de/kotlinBerlin/kValidation/internal/BasicValidationBuilder.kt:43-48 | `required` on `thisPath` after `thisPath validateIf { } required { }` registers a second key, although the plain descriptor equals the conditional one |
| Builders.Fresh | kValidation-core/src/commonMain/kotlin/de/kotlinBerlin/kValidation/internal/BasicValidationBuilder.kt:8-12 | a new builder has no constraints, keys or prebuilt validations; an AND builder starts without short-circuit, an OR builder with it |
| Builders.FindSub | kValidation-core/src/commonMain/kotlin/de/kotlinBerlin/kValidation/internal/BasicValidationBuilder.kt:43-48 | the lookup of `getOrPut` finds the first stored key with the same hash that the key asked for equals, or reports none |
| Builders.FindSubExtended | kValidation-core/src/commonMain/kotlin/de/kotlinBerlin/kValidation/internal/BasicValidationBuilder.kt:43-48 | keys registered later do not change where an earlier key is found |
| Builders.FindSubAppended | kValidation-core/src/commonMain/kotlin/de/kotlinBerlin/kValidation/internal/BasicValidationBuilder.kt:43-48 | a key no stored key matches is found where it is appended |
| Builders.IndexOf | kValidation-core/src/commonMain/kotlin/de/kotlinBerlin/kValidation/internal/BasicValidationBuilder.kt:26-30 | the identity lookup of `remove` finds the first occurrence, or reports none |
| Builders.RemoveAt | kValidation-core/src/commonMain/kotlin/de/kotlinBerlin/kValidation/internal/BasicValidationBuilder.kt:26-30 | `remove` takes out exactly one occurrence when there is one, and changes nothing otherwise |
| Builders.BuilderPool.constructor | kValidation-core/src/commonMain/kotlin/de/kotlinBerlin/kValidation/internal/BasicValidationBuilder.kt:8-12 | a DSL session starts without builders |
| Builders.BuilderPool.Build | kValidation-core/src/commonMain/kotlin/de/kotlinBerlin/kValidation/internal/BasicValidationBuilder.kt:16-24 | `build` gives an `ObjectValidation` with the builder's constraints and flags, one validation per key and then the prebuilt validations |
| Builders.BuilderPool.BuildSubs | kValidation-core/src/commonMain/kotlin/de/kotlinBerlin/kValidation/internal/BasicValidationBuilder.kt:17 | one validation per key, in registration order, each a navigator on its key's descriptor |
| Builders.BuilderPool.BuildNested | kValidation-core/src/commonMain/kotlin/de/kotlinBerlin/kValidation/internal/BasicValidationBuilder.kt:17 | the validation for key `i` is its sub-builder's build under that key |
| Builders.BuilderPool.BuildSubsAt | kValidation-core/src/commonMain/kotlin/de/kotlinBerlin/kValidation/internal/BasicValidationBuilder.kt:17 | each position of the key list builds its sub-builder under its key |
| Builders.BuilderPool.NewBuilder | kValidation-core/src/commonMain/kotlin/de/kotlinBerlin/kValidation/Validation.kt:37-46 | a new AND or OR builder is added to the session and nothing else changes |
| Builders.BuilderPool.Update | kValidation-core/src/commonMain/kotlin/de/kotlinBerlin/kValidation/internal/BasicValidationBuilder.kt:8-12 | replacing one builder's state changes that builder only |
| Builders.BuilderPool.AddConstraint | kValidation-core/src/commonMain/kotlin/de/kotlinBerlin/kValidation/internal/BasicValidationBuilder.kt:32-36 | `addConstraint` appends one new constraint with the message, template values and test, and returns it |
| Builders.BuilderPool.Hint | kValidation-core/src/commonMain/kotlin/de/kotlinBerlin/kValidation/internal/BasicValidationBuilder.kt:26-30 | `hint` appends a copy with the new message and the old template values and test, and removes the original when it is listed, so the count is unchanged |
| Builders.BuilderPool.Run | kValidation-core/src/commonMain/kotlin/de/kotlinBerlin/kValidation/internal/BasicValidationBuilder.kt:38-40 | `run` appends a prebuilt validation and changes nothing else |
| Builders.BuilderPool.SetShortCircuit | kValidation-core/src/commonMain/kotlin/de/kotlinBerlin/kValidation/internal/BasicAndValidationBuilder.kt:68-70 | `shortCircuit()` and `nonShortCircuit()` set the flag of the builder and nothing else |
| Builders.BuilderPool.GetOrCreateBuilder | kValidation-core/src/commonMain/kotlin/de/kotlinBerlin/kValidation/internal/BasicAndValidationBuilder.kt:80-85 | `getOrCreateBuilder` returns the sub-builder of the first stored key with the same hash that the key equals, or registers a new builder of the parent's kind behind the existing keys; afterwards the key is registered to the result |
| Builders.BuilderPool.Navigate | kValidation-core/src/commonMain/kotlin/de/kotlinBerlin/kValidation/internal/BasicAndValidationBuilder.kt:12-59 | every navigation function returns the sub-builder registered under its key and leaves the builder's constraints, prebuilt validations and flags alone |
| Builders.BuilderPool.NavigateTwice | kValidation-core/src/commonMain/kotlin/de/kotlinBerlin/kValidation/internal/BasicAndValidationBuilder.kt:12-59 | two declarations on the same descriptor with the same navigation reach the same sub-builder |
| Builders.BuilderPool.KeepsRegistration | kValidation-core/src/commonMain/kotlin/de/kotlinBerlin/kValidation/internal/BasicValidationBuilder.kt:43-48 | registering a new key keeps every earlier registration |
| Builders.BuilderPool.RegisterEach | kValidation-core/src/commonMain/kotlin/de/kotlinBerlin/kValidation/constraints/CollectionConstraints.kt:22-29 | `onIndices`/`onKeys` register one single-value key per listed index or key, in order |
| Builders.BuilderPool.Splice | kValidation-core/src/commonMain/kotlin/de/kotlinBerlin/kValidation/internal/BasicAndValidationBuilder.kt:61-78 | `or{}`, `and{}`, `shortCircuit{}` and `nonShortCircuit{}` build the separate builder and append it with `run`; the flags stay |
| Builders.BuilderPool.NoRepeat | kValidation-kModel/src/commonMain/kotlin/de/kotlinBerlin/kValidation/kModel/NonRepeatingValidation.kt:7 | `noRepeat` appends the cycle guard with `run` |
| Builders.BuilderPool.ConstraintsOnlyBuild | kValidation-core/src/commonMain/kotlin/de/kotlinBerlin/kValidation/internal/BasicValidationBuilder.kt:16-24 | a builder with only constraints compiles to a node that, with or without short-circuit, passes exactly when all pass (AND) or some passes or there is none (OR) |
| NonRepeatingContexts.NonRepeatingContext.constructor | kValidation-kModel/src/commonMain/kotlin/de/kotlinBerlin/kValidation/kModel/NonRepeatingContext.kt:8-10 | a new context has visited nothing |
| NonRepeatingContexts.NonRepeatingContext.AddVisitedObject | kValidation-kModel/src/commonMain/kotlin/de/kotlinBerlin/kValidation/kModel/NonRepeatingContext.kt:12 | `addVisitedObject` adds the object and answers whether it was new |
| NonRepeatingContexts.Lookup | kValidation-kModel/src/commonMain/kotlin/de/kotlinBerlin/kValidation/kModel/NonRepeatingContext.kt:17-21 | the constraint finds the context itself or the one a wrapping context wraps directly, and otherwise none |
| NonRepeatingContexts.NoRepeatTest | kValidation-kModel/src/commonMain/kotlin/de/kotlinBerlin/kValidation/kModel/NonRepeatingContext.kt:15-27 | without a reachable context the test passes and changes nothing; otherwise it records the value and passes exactly when it was unseen |
| NonRepeatingContexts.RepeatFails | kValidation-kModel/src/commonMain/kotlin/de/kotlinBerlin/kValidation/kModel/NonRepeatingContext.kt:15-27 | a second test of the same value in the same context fails |
| LegacyResults.Put | kValidation-core/src/commonMain/kotlin/de/kotlinBerlin/kValidation/internal/Validation.kt:197-199 | `put` keeps the keys distinct |
| LegacyResults.Add | kValidation-core/src/commonMain/kotlin/de/kotlinBerlin/kValidation/internal/Validation.kt:219-224 | a `groupBy` step keeps the keys distinct |
| LegacyResults.Combine | kValidation-core/src/commonMain/kotlin/de/kotlinBerlin/kValidation/internal/Validation.kt:203-227 | `NoResult` on either side gives the other; in OR mode the result is valid exactly when a side is, in AND mode invalid exactly when a side is; keys stay distinct |
| LegacyResults.MapError | kValidation-core/src/commonMain/kotlin/de/kotlinBerlin/kValidation/internal/Validation.kt:193-201 | `mapError` changes only an `Invalid` result, and leaves it invalid with distinct keys |
| LegacyResults.Reattach | kValidation-core/src/commonMain/kotlin/de/kotlinBerlin/kValidation/internal/Validation.kt:9-81 | a valid or empty result re-attached to the parent value keeps its kind; an invalid one is unchanged |
| LegacyResults.GroupByDistinct | kValidation-core/src/commonMain/kotlin/de/kotlinBerlin/kValidation/internal/Validation.kt:219-224 | `groupBy` keeps the keys distinct |
| LegacyResults.PutAllDistinct | kValidation-core/src/commonMain/kotlin/de/kotlinBerlin/kValidation/internal/Validation.kt:193-201 | `mapKeys` keeps the keys distinct |
| LegacyResults.AddLookup | kValidation-core/src/commonMain/kotlin/de/kotlinBerlin/kValidation/internal/Validation.kt:219-224 | adding messages under a key extends exactly that key's list |
| LegacyResults.FindAt | kValidation-core/src/commonMain/kotlin/de/kotlinBerlin/kValidation/internal/Validation.kt:219-224 | the first entry with the key is found |
| LegacyResults.FindUnchanged | kValidation-core/src/commonMain/kotlin/de/kotlinBerlin/kValidation/internal/Validation.kt:219-224 | replacing one entry's list does not move any other key |
| LegacyResults.FindAbsent | kValidation-core/src/commonMain/kotlin/de/kotlinBerlin/kValidation/internal/Validation.kt:219-224 | an absent key is not found |
| LegacyResults.FindAppended | kValidation-core/src/commonMain/kotlin/de/kotlinBerlin/kValidation/internal/Validation.kt:219-224 | appending a new key adds exactly its list |
| LegacyResults.AddAllLookup | kValidation-core/src/commonMain/kotlin/de/kotlinBerlin/kValidation/internal/Validation.kt:219-224 | after grouping, each key lists every message given for it, in order |
| LegacyResults.ValuesOfConcat | kValidation-core/src/commonMain/kotlin/de/kotlinBerlin/kValidation/internal/Validation.kt:219-224 | the messages given for a key in two lists are those of the first followed by those of the second |
| LegacyResults.ValuesOfDistinct | kValidation-core/src/commonMain/kotlin/de/kotlinBerlin/kValidation/internal/Validation.kt:219-224 | with distinct keys the messages given for a key are its list |
| LegacyResults.MergeByKey | kValidation-core/src/commonMain/kotlin/de/kotlinBerlin/kValidation/internal/Validation.kt:219-224 | two invalid results merge by key: each key lists the left result's messages followed by the right's |
| LegacyResults.CountUpdate | kValidation-core/src/commonMain/kotlin/de/kotlinBerlin/kValidation/internal/Validation.kt:219-224 | replacing one list changes the message count by the difference |
| LegacyResults.CountConcat | kValidation-core/src/commonMain/kotlin/de/kotlinBerlin/kValidation/internal/Validation.kt:219-224 | the message count of two lists is the sum |
| LegacyResults.AddAllCount | kValidation-core/src/commonMain/kotlin/de/kotlinBerlin/kValidation/internal/Validation.kt:219-224 | grouping keeps every message |
| LegacyResults.CombineAndCount | kValidation-core/src/commonMain/kotlin/de/kotlinBerlin/kValidation/internal/Validation.kt:203-227 | in AND mode `combineWith` loses and invents no message |
| LegacyResults.Prefixed | kValidation-core/src/commonMain/kotlin/de/kotlinBerlin/kValidation/internal/Validation.kt:193-201 | the prefixed map puts the prefix before every key and keeps the order and the lists |
| LegacyResults.PutAllPrefixed | kValidation-core/src/commonMain/kotlin/de/kotlinBerlin/kValidation/internal/Validation.kt:193-201 | `mapKeys` with a prefix on distinct keys is the prefixed map |
| LegacyResults.MapErrorPrefixes | kValidation-core/src/commonMain/kotlin/de/kotlinBerlin/kValidation/internal/Validation.kt:9-69 | a navigator's `mapError` with a prefix puts the prefix before every key, in order, and keeps every message |
| LegacyResults.PrefixedCount | kValidation-core/src/commonMain/kotlin/de/kotlinBerlin/kValidation/internal/Validation.kt:193-201 | prefixing keeps every message |
| LegacyResults.RemovePrefix | kValidation-core/src/commonMain/kotlin/de/kotlinBerlin/kValidation/internal/Validation.kt:78 | `removePrefix` drops the prefix when the text starts with it and is the identity otherwise |
| LegacyResults.EntryErrorsAsWrittenLoseMessages | kValidation-core/src/commonMain/kotlin/de/kotlinBerlin/kValidation/internal/Validation.kt:75-81 | as written, a map entry that failed itself and in its value keeps only the value's messages |
| LegacyResults.EntryErrorsAsWrittenCount | kValidation-core/src/commonMain/kotlin/de/kotlinBerlin/kValidation/internal/Validation.kt:78 | as written, the entry re-keying keeps an invalid result invalid and may drop messages but never adds any |
| LegacyResults.PutCount | kValidation-core/src/commonMain/kotlin/de/kotlinBerlin/kValidation/internal/Validation.kt:78 | `put` adds at most the new list's messages |
| LegacyResults.PutAllCount | kValidation-core/src/commonMain/kotlin/de/kotlinBerlin/kValidation/internal/Validation.kt:78 | `mapKeys` adds no message |
| LegacyResults.EntryErrors | kValidation-core/src/commonMain/kotlin/de/kotlinBerlin/kValidation/internal/Validation.kt:75-81 | the corrected re-keying changes only an invalid result and keeps the keys distinct |
| LegacyResults.ReKeyed | kValidation-core/src/commonMain/kotlin/de/kotlinBerlin/kValidation/internal/Validation.kt:78 | every key of an entry's errors gets "." + the rendered key, with ".value" dropped |
| LegacyResults.EntryErrorsKeepMessages | kValidation-core/src/commonMain/kotlin/de/kotlinBerlin/kValidation/internal/Validation.kt:75-81 | the corrected re-keying keeps every message |
| LegacyResults.ReKeyedCount | kValidation-core/src/commonMain/kotlin/de/kotlinBerlin/kValidation/internal/Validation.kt:78 | re-keying keeps every message |
| LegacyEngine.Eval | kValidation-core/src/commonMain/kotlin/de/kotlinBerlin/kValidation/internal/Validation.kt:84-92 | every result of the older engine has distinct keys |
| LegacyEngine.EvalProperty | kValidation-core/src/commonMain/kotlin/de/kotlinBerlin/kValidation/internal/Validation.kt:9-47 | so does every result of a property navigator |
| LegacyEngine.EachFrom | kValidation-core/src/commonMain/kotlin/de/kotlinBerlin/kValidation/internal/Validation.kt:53-69 | the element fold keeps the keys distinct |
| LegacyEngine.EntriesFrom | kValidation-core/src/commonMain/kotlin/de/kotlinBerlin/kValidation/internal/Validation.kt:75-81 | the entry fold as written, through `mapKeys`, keeps the keys distinct |
| LegacyEngine.EvalNode | kValidation-core/src/commonMain/kotlin/de/kotlinBerlin/kValidation/internal/Validation.kt:91-92 | the result of a `ValidationNode` has distinct keys |
| LegacyEngine.SubsFrom | kValidation-core/src/commonMain/kotlin/de/kotlinBerlin/kValidation/internal/Validation.kt:106-164 | the sub-validation fold keeps the keys distinct |
| LegacyEngine.LocalAnd | kValidation-core/src/commonMain/kotlin/de/kotlinBerlin/kValidation/internal/Validation.kt:166-184 | the local AND result has distinct keys |
| LegacyEngine.LocalAndFrom | kValidation-core/src/commonMain/kotlin/de/kotlinBerlin/kValidation/internal/Validation.kt:166-184 | the local AND loop keeps the keys distinct |
| LegacyEngine.LocalOr | kValidation-core/src/commonMain/kotlin/de/kotlinBerlin/kValidation/internal/Validation.kt:118-140 | the local OR result has distinct keys |
| LegacyEngine.LocalOrFrom | kValidation-core/src/commonMain/kotlin/de/kotlinBerlin/kValidation/internal/Validation.kt:118-140 | the local OR loop keeps the keys distinct |
| LegacyEngine.Hints | kValidation-core/src/commonMain/kotlin/de/kotlinBerlin/kValidation/internal/Validation.kt:186-190 | one filled-in hint per constraint, in order |
| LegacyEngine.FailingFrom | kValidation-core/src/commonMain/kotlin/de/kotlinBerlin/kValidation/internal/Validation.kt:166-184 | the hints of the failing constraints; empty exactly when every constraint passes |
| LegacyEngine.LocalAndFromLaw | kValidation-core/src/commonMain/kotlin/de/kotlinBerlin/kValidation/internal/Validation.kt:166-184 | the local AND loop from any position collects the remaining failing hints |
| LegacyEngine.LocalAndLaw | kValidation-core/src/commonMain/kotlin/de/kotlinBerlin/kValidation/internal/Validation.kt:166-184 | `validateLocalAnd` is valid when no constraint fails, and otherwise lists every failing hint under "", only the first under short-circuit |
| LegacyEngine.LocalOrFromLaw | kValidation-core/src/commonMain/kotlin/de/kotlinBerlin/kValidation/internal/Validation.kt:118-140 | the local OR loop from any position is valid when a constraint passed or passes later |
| LegacyEngine.LocalOrLaw | kValidation-core/src/commonMain/kotlin/de/kotlinBerlin/kValidation/internal/Validation.kt:118-140 | `validateLocalOr` is valid when some constraint passes or there is none, and otherwise lists every hint under "" |
| LegacyEngine.SubsFromStep | kValidation-core/src/commonMain/kotlin/de/kotlinBerlin/kValidation/internal/Validation.kt:106-164 | one sub-validation step is decisive exactly when the running result or the sub-result is, and stops the fold under short-circuit |
| LegacyEngine.SubsFromLaw | kValidation-core/src/commonMain/kotlin/de/kotlinBerlin/kValidation/internal/Validation.kt:106-164 | the sub-validation fold is decisive exactly when some sub-result is, and `NoResult` exactly when all are |
| LegacyEngine.SubsFromTail | kValidation-core/src/commonMain/kotlin/de/kotlinBerlin/kValidation/internal/Validation.kt:106-164 | the inductive step of the sub-validation fold's law |
| LegacyEngine.AndNodeLaw | kValidation-core/src/commonMain/kotlin/de/kotlinBerlin/kValidation/internal/Validation.kt:142-164 | an AND node is invalid exactly when a constraint fails or a sub-validation is invalid, and `NoResult` exactly when it has no constraints and every sub-result is `NoResult` |
| LegacyEngine.OrNodeLaw | kValidation-core/src/commonMain/kotlin/de/kotlinBerlin/kValidation/internal/Validation.kt:94-116 | an OR node is valid exactly when a constraint passes or a sub-validation is valid, and `NoResult` exactly when it has no constraints and every sub-result is `NoResult` |
| LegacyEngine.GuardFailureIsValid | kValidation-core/src/commonMain/kotlin/de/kotlinBerlin/kValidation/internal/Validation.kt:9-47 | a navigator whose guard is not valid is valid without extracting |
| LegacyEngine.PropertyLaw | kValidation-core/src/commonMain/kotlin/de/kotlinBerlin/kValidation/internal/Validation.kt:9-47 | null is valid for an optional property and {".name": ["is required"]} for a required one; otherwise the inner result with ".name" before every key |
| LegacyEngine.EachStep | kValidation-core/src/commonMain/kotlin/de/kotlinBerlin/kValidation/internal/Validation.kt:53-69 | one element step AND-combines the element's result re-keyed with "[i]" |
| LegacyEngine.EachFromLaw | kValidation-core/src/commonMain/kotlin/de/kotlinBerlin/kValidation/internal/Validation.kt:53-69 | the element fold is invalid exactly when the start or an element is, and carries their messages |
| LegacyEngine.EachTail | kValidation-core/src/commonMain/kotlin/de/kotlinBerlin/kValidation/internal/Validation.kt:53-69 | the inductive step of the element fold's law |
| LegacyEngine.EachLaw | kValidation-core/src/commonMain/kotlin/de/kotlinBerlin/kValidation/internal/Validation.kt:53-69 | the iterable and array navigators check every element: invalid exactly when an element is, otherwise valid, with exactly the elements' messages |
| LegacyEngine.EachNeverEmpty | kValidation-core/src/commonMain/kotlin/de/kotlinBerlin/kValidation/internal/Validation.kt:53-69 | an element fold started valid never gives `NoResult` |
| LegacyEngine.EntriesFromLaw | kValidation-core/src/commonMain/kotlin/de/kotlinBerlin/kValidation/internal/Validation.kt:75-81 | the entry fold as written is invalid exactly when the start or an entry is, and carries at most their messages |
| LegacyEngine.MapLaw | kValidation-core/src/commonMain/kotlin/de/kotlinBerlin/kValidation/internal/Validation.kt:75-81 | the map navigator as written checks every entry: invalid exactly when an entry is, with at most the entries' messages |
| LegacyEngine.EntriesFromCorrected | kValidation-core/src/commonMain/kotlin/de/kotlinBerlin/kValidation/internal/Validation.kt:75-81 | the entry fold with the corrected re-keying keeps the keys distinct |
| LegacyEngine.EvalMapCorrected | kValidation-core/src/commonMain/kotlin/de/kotlinBerlin/kValidation/internal/Validation.kt:75-81 | the map navigator with the corrected re-keying gives results with distinct keys |
| LegacyEngine.EntriesFromCorrectedLaw | kValidation-core/src/commonMain/kotlin/de/kotlinBerlin/kValidation/internal/Validation.kt:75-81 | the corrected entry fold is invalid exactly when the start or an entry is, and carries exactly their messages |
| LegacyEngine.MapLawCorrected | kValidation-core/src/commonMain/kotlin/de/kotlinBerlin/kValidation/internal/Validation.kt:75-81 | the corrected map navigator is invalid exactly when an entry is, agrees with the navigator as written on validity, and carries exactly the entries' messages |
| LegacyErrors.NewLegacyPathCleans | kValidation-core/src/commonMain/kotlin/de/kotlinBerlin/kValidation/ValidationErrors.kt:16-18 | a new path holds no `This` or conditional segment unless a conditional wrapped one, and a list without them is kept |
| LegacyErrors.CombineSegmentsAgree | kValidation-core/src/commonMain/kotlin/de/kotlinBerlin/kValidation/ValidationErrors.kt:39-49 | the older `combineSegments` agrees with the current one |
| LegacyErrors.RenderAgrees | kValidation-core/src/commonMain/kotlin/de/kotlinBerlin/kValidation/ValidationErrors.kt:21-23 | the older `toString` of a path without a custom segment is the current rendering |
| LegacyErrors.EmptyRendersThis | kValidation-core/src/commonMain/kotlin/de/kotlinBerlin/kValidation/ValidationErrors.kt:65 | the older empty path renders as "this", the current one as "empty" |
| LegacyErrors.PathEquals | kValidation-core/src/commonMain/kotlin/de/kotlinBerlin/kValidation/ValidationErrors.kt:25-35 | `equals` holds exactly when the two segment lists are equal position by position, the other path's segment compared on the left |
| LegacyErrors.Matches | kValidation-core/src/commonMain/kotlin/de/kotlinBerlin/kValidation/ValidationErrors.kt:87-105 | `matches` walks the query and returns false at the first mismatch, throws past the end of the path or on a `This` segment |
| LegacyErrors.MatchesIff | kValidation-core/src/commonMain/kotlin/de/kotlinBerlin/kValidation/ValidationErrors.kt:87-105 | a query matches exactly when it is no longer than the path and each item names the segment at its position |
| LegacyErrors.DataPathIsRendering | kValidation-core/src/commonMain/kotlin/de/kotlinBerlin/kValidation/ValidationErrors.kt:79-85 | an error's data path is the rendering of its path and starts with "this" |
| Constraints.PlainFill | kValidation-core/src/commonMain/kotlin/de/kotlinBerlin/kValidation/internal/Validations.kt:254-255 | filling template values into a hint without a brace leaves it unchanged |
| Constraints.OnePlaceholderBraces | kValidation-core/src/commonMain/kotlin/de/kotlinBerlin/kValidation/internal/Validations.kt:254-255 | a hint with one "{0}" has every brace opening a placeholder number |
| Constraints.ReplaceOnlyPlaceholder | kValidation-core/src/commonMain/kotlin/de/kotlinBerlin/kValidation/internal/Validations.kt:254-255 | replacing a placeholder ("{0}", or "{1}" once "{0}" is filled) that occurs once between brace-free texts puts the value exactly in its place |
| Constraints.TwoPlaceholderBraces | kValidation-core/src/commonMain/kotlin/de/kotlinBerlin/kValidation/internal/Validations.kt:254-255 | a hint with "{0}" and "{1}" has every brace opening a placeholder number |
| Constraints.InRangeHint | kValidation-core/src/commonMain/kotlin/de/kotlinBerlin/kValidation/constraints/Constraints.kt:68-73 | the `inRange` hint names both ends of the range |
| Constraints.UniqueValuesTest | kValidation-core/src/commonMain/kotlin/de/kotlinBerlin/kValidation/constraints/CollectionConstraints.kt:165-168 | the `uniqueValues` test holds exactly when the check is off or no two entries share a value |
| ValidationPaths.CursorStep | kValidation-core/src/commonMain/kotlin/de/kotlinBerlin/kValidation/ValidationPath.kt:47-56 | one step of the cleanUp iterator removes a `This`, unwraps a conditional and keeps any other segment |
| ValidationPaths.CleanUpStep | kValidation-core/src/commonMain/kotlin/de/kotlinBerlin/kValidation/ValidationPath.kt:47-56 | cleaning one more segment appends exactly its cleaned form |
| ValidationResults.FlatErrorsOf | kValidation-core/src/commonMain/kotlin/de/kotlinBerlin/kValidation/ValidationResult.kt:87 | the flattened children are leaves only |
| ValidationResults.PrintChildrenOfTwo | kValidation-core/src/commonMain/kotlin/de/kotlinBerlin/kValidation/ValidationResult.kt:162-173 | two children print as two indented blocks, each on new lines |
| ValidationResults.LeafPathsOfAreFlatErrors | kValidation-core/src/commonMain/kotlin/de/kotlinBerlin/kValidation/ValidationResult.kt:51-89 | the leaves listed with their paths are the flattened leaves of the children, in order |
| Values.NatToStringLength | kValidation-core/src/commonMain/kotlin/de/kotlinBerlin/kValidation/PathDescriptors.kt:82 | a number renders as a single digit exactly when it is below ten |
| Values.LinesOfNewlineFree | kValidation-core/src/commonMain/kotlin/de/kotlinBerlin/kValidation/ValidationResult.kt:194-195 | text without a newline joins the first line of what follows it |

## Left out

- I/O and concurrency are not modelled. `toString` of a validated value is
  approximated by
  `Values.ToString`. Numbers, booleans, strings, lists, maps and entries
  render as Kotlin renders them; records and arrays render as a fixed name.
- Kotlin's 32-bit `Int` is not modelled. Indices and numbers are unbounded
  integers, which matches the source for every index a real collection can
  have.
- Reflection, regular expressions and floating point are not modelled.
  - `type` (a `KClass` check) is left out.
  - `pattern` takes its matcher as a parameter.
  - NumberConstraints.kt compares through `toDouble()` and is not part of
    this model. `inRange` is modelled on integers.
- Object identity is modelled by identifiers.
  - Constraints carry an identity number in the builder.
  - A conditional descriptor carries a number that its `equals` compares,
    in place of Kotlin's reference comparison of conditions.
- The DSL lambdas (`init` blocks) are sequences of method calls on
  `Builders.BuilderPool`.
  - `NewBuilder` stands for the companion `Validation { }`, `and { }` and
    `or { }`.
  - `Splice` stands for the end of a nested `and { }`/`or { }` block.
- Builders.BuilderPool.Hint: the new constraint is made with the
  two-argument `Constraint` constructor, so it is an error again even when
  the original was a warning. The model keeps this behaviour of the source.
- Builders.SameKey: integer hash collisions are not modelled. Two
  descriptors are taken to hash alike exactly when what their hash is
  computed from agrees (`PathDescriptors.Hash`). A property or function
  descriptor is taken to hash by the member's name, which holds for the
  members of one receiver class.
- Constraints.MinLength: for a negative bound the model throws an
  `IllegalArgument` exception with the message of the exception built
  inside the `require` block. Kotlin's `require` throws a new exception
  whose message is that exception's `toString`, with a platform-dependent
  class-name prefix.
- Constraints.MaxLength: the same holds for its negative-bound exception.
- LegacyEngine.MapLaw: the map navigator as written keeps at most the
  entries' messages, not all of them (see Findings). The exact count is
  stated of the corrected navigator, `LegacyEngine.MapLawCorrected`.
- LegacyEngine.EntriesFromLaw: the same holds for the entry fold as written.
  The exact count is stated of `LegacyEngine.EntriesFromCorrectedLaw`.
- ValidationLaws.ObjectFailureContents: the full report is stated only
  without short-circuit. Under short-circuit the report is given by
  `AndStopsAtFirstFailure`, `OrStopsAtFirstSuccess`,
  `AndStopsAtFirstFailingSub` and `OrStopsAtFirstPassingSub`.
- PropKeys.kt declares its keys without an allow-list field, but the
  callers in BasicAndValidationBuilder.kt pass one. The model follows the
  callers: the allow-list is part of the key and is compared by value.
- `thisPath` is modelled as the `This` descriptor. `asWarning` is not part
  of this model.
- The kModel drivers (KModelExtensions.kt, FullValidation.kt) are not part
  of this model.
- The `BasicValidationContext` and `WrappingValidationContext` classes are
  not part of this model. `NonRepeatingContexts.Context` records only which
  of the three shapes the `noRepeat` constraint's lookup sees.
  - `noRepeat` is declared twice: as the cycle guard of
    NonRepeatingValidation.kt and as a constraint in NonRepeatingContext.kt.
  - The constraint version cannot reach a `NonRepeatingContext` through the
    context the engine passes. The model therefore proves it on its own
    (`NonRepeatingContexts.NoRepeatTest`) and does not wire it into
    `Engine`.
- `groupedErrors` is modelled as the list of leaves with their paths
  (`ValidationResults.ErrorPaths`), not as a map.
- The older engine's `ValidationResult` class is not part of this model.
  - Its shape is taken from its uses in internal/Validation.kt: `Valid`,
    `NoResult` and `Invalid` with an insertion-ordered map.
  - `map` re-attaches `Valid` and `NoResult` to the new value and keeps
    `Invalid` as it is.
- The older engine's constraint tests take the value only. The model calls
  the shared `Constraint` test with an empty context map.
- `customErrorMessage` of `ValidationNode` is never read by the source, so it
  is not modelled.
- The older descriptor hierarchy has no custom descriptor.
  - `LegacyErrors.Render` and `LegacyErrors.Matches` require paths without
    one.
  - `LegacyErrors.PathEquals` compares the other path's segment on the
    left, as the source does.

## Findings

| source | as written | input that shows it | evidently intended | confidence | as-written member | corrected member |
|---|---|---|---|---|---|---|
| kValidation-core/src/commonMain/kotlin/de/kotlinBerlin/kValidation/constraints/BooleanConstraints.kt:10-11 | `isFalse` is registered with the message "must be true" | `isFalse()` on the value `true` reports "must be true" | the message "must be false" | high; not executed | Constraints.IsFalseAsWrittenMisreports | Constraints.IsFalseConstraint |
| kValidation-core/src/commonMain/kotlin/de/kotlinBerlin/kValidation/ValidationResult.kt:148-157 | `pathMatches` throws "Should not happen!" on a path result whose descriptor is a conditional `This` | `validateIf` on `thisPath` with a failing check, then `errorsAt` with a non-empty query, throws `IllegalStateException` | a conditional `This` is transparent like `This` | medium; not executed | ValidationResults.ErrorsAtConditionalThisThrows | ValidationResults.ErrorsAtAgrees |
| kValidation-core/src/commonMain/kotlin/de/kotlinBerlin/kValidation/internal/Validation.kt:78 | the entry key transform drops a leading ".value", so the keys "" and ".value" both become ".k", and `mapKeys` keeps only the later list | an entry `k` whose validation gives `Invalid({"": ["entry"], ".value": ["value"]})` gives `Invalid({".k": ["value"]})`, losing "entry" | the two lists concatenated, as `combineWith` does | medium; not executed | LegacyResults.EntryErrorsAsWrittenLoseMessages | LegacyEngine.MapLawCorrected |
