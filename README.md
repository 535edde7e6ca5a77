# apisense validation core in Dafny

This project models three small sequential parts of apisense, an API
monitor that probes endpoints, checks each response against declared
expectations and reports pass or fail:

- **The less-than comparer** of the filter language (`ltComparer.Compare`).
  It is a predicate over untyped JSON-like values and dispatches on their
  dynamic Go type. Strings compare lexicographically, float64 numbers
  numerically and timestamps chronologically. A left-hand array holds when
  any of its elements does, recursively. Every other combination gives
  false.
- **External validators.** `parse` and `parseArgs` read validator
  definitions from the configuration value. Either every entry converts or
  the load fails with an `ExternalValidatorParseError`.
  `LoadExternalValidators` wraps each definition as a validator, and
  `Name`, `IsFatal` and `IsSlim` project a definition's fields. `Validate`
  maps the outcome of running the configured executable to a pass (`nil`)
  or a `ValidationError` message.
- **The report browser's endpoint table.** `getValidatedEndpointRows` and
  `getSelectedValidatedEndpoint` build one row per validated endpoint, set
  the selection flag, and look up the endpoint behind a chosen row.

Modules: `Values` holds the untyped value, its dynamic kind, Go's `%T`
names and map lookup. `Format` holds decimal rendering and reading of
integers. `LtComparer` (`api/filter/comparer/lt.go`), `External`
(`validation/validators/external.go`) and `EndpointTable`
(`tui/validatedEndpointModel.go`) follow the source files. `Wrappers` and
`Errors` hold the result and error shapes.

The three source files have different shapes, and the model keeps them.
The comparer is pure: recursive functions, with lemmas about them.
`parse`, `parseArgs` and `LoadExternalValidators` fill freshly made slices
in indexed loops. They become methods over fresh arrays with loop
invariants. `Parse` and `ParseArgs` are proved equal to declarative
specification functions (`Parsed`, `ArgsParsed`), and the lemmas state
what those functions promise. `LoadExternalValidators` is proved equal,
element by element, to `NewExternalValidator` applied to the definitions
`Parsed` returns. `getValidatedEndpointRows` appends in a loop and assigns a
package variable. It becomes a method of `TableState`, whose field
`allowEndpointSelection` stands for that variable.

Inputs from outside the code:
- The value `viper.Get("validation.external_validators")` returns is a
  parameter of `Parse` and `LoadExternalValidators`.
- The outcome of `json.Marshal(item)` is a `MarshalOutcome` parameter of
  `Validate`.
- The outcome of `cmd.Run()` is a `RunOutcome` parameter of `Validate`:
  a clean exit, an `*exec.ExitError` with its code and captured standard
  error, or any other error.

The model follows the code, including these behaviours a reader might not
expect:
- Process launch failure is a pass (`nil`), not an execution error
  (external.go:150-160).
- The `slim` flag selects nothing. The item is serialized as a whole. The
  slim or extended marshal at external.go:120-129 is overwritten at
  line 131 before it is read, so it appears only as a comment in `Validate`.
- `slim` is never read from the configuration, so every parsed definition
  has `Slim` false (external.go:49-54).
- A missing `args` key is an error, not an empty list (external.go:44,61-64).
- Missing or mistyped `name`, `path` or `fatal` panic rather than return an
  error (external.go:50-53). `ParseDoesNotPanic` is the precondition that
  excludes exactly those inputs: every entry before the first one that does
  not convert must have well-typed fields.

Two notes on the proved properties:
- `Compare` is irreflexive, asymmetric and transitive on all values,
  arrays included. No value is less than an array. A value is less than
  `b` exactly when one of the scalars it bottoms out in is.
- The failure message of an exit 1 copies standard error verbatim. So
  message text alone cannot tell "the check failed" from "the validator
  is broken" (`FailureCanReadAsMalfunction`). The malfunction message does
  identify the exit code (`UnexpectedExitMessageNamesCode`).

## Model

| member | source | states |
|---|---|---|
| `Values.KindOf` | api/filter/comparer/lt.go:13 | The dynamic type is the slice type exactly for arrays, the nil type exactly for `nil`, the map type exactly for maps |
| `Values.Lookup` | validation/validators/external.go:44 | Indexing a `map[string]any` gives the stored value, and `nil` for a missing key |
| `Values.TypeName` | validation/validators/external.go:33 | `%T` prints a non-empty type name; only a slice's starts with `[` and only nil's with `<`, the types the parse messages report |
| `Values.TypeNameDistinguishesKinds` | validation/validators/external.go:33 | `%T` prints two values alike exactly when they have the same dynamic type |
| `Format.NatToDecimal` | tui/validatedEndpointModel.go:122 | `%v` of a non-negative index is a non-empty string of digits without a leading zero |
| `Format.IntToDecimal` | validation/validators/external.go:156 | `%d` of a non-negative int is digits that read back as the number; of a negative one, a minus sign then digits that read back as its magnitude |
| `Format.DecimalRoundTrip` | tui/validatedEndpointModel.go:83 | Reading back the digits of a rendered index gives the index |
| `Format.DecimalInjective` | tui/validatedEndpointModel.go:122 | Different indices render as different strings |
| `Format.IntDecimalInjective` | validation/validators/external.go:156 | Different exit codes print differently under `%d` |
| `LtComparer.StrLess` | api/filter/comparer/lt.go:19 | Go's string `<` holds only between different strings |
| `LtComparer.Compare` | api/filter/comparer/lt.go:12-33 | Fails closed: false on a type mismatch with a non-array left value, false for an int, bool, nil or map on the left, and false whenever the right value is an array |
| `LtComparer.AnyCompare` | api/filter/comparer/lt.go:27-29 | The `util.Any` step is false on an empty array and against an array on the right |
| `LtComparer.StrLessIrreflexive` | api/filter/comparer/lt.go:19 | No string is less than itself |
| `LtComparer.StrLessTransitive` | api/filter/comparer/lt.go:19 | String order is transitive |
| `LtComparer.StrLessTrichotomy` | api/filter/comparer/lt.go:19 | For two strings exactly one of `a < b`, `b < a`, `a == b` holds |
| `LtComparer.StrLessIsLexicographic` | api/filter/comparer/lt.go:19 | The string order equals the textbook lexicographic order: a proper prefix, or a smaller character at the first difference |
| `LtComparer.CompareMismatchIsFalse` | api/filter/comparer/lt.go:13-15 | Values of different dynamic types compare false unless the left one is an array |
| `LtComparer.CompareScalars` | api/filter/comparer/lt.go:18-25 | Strings compare lexicographically, float64 numbers numerically, timestamps are less exactly when strictly before |
| `LtComparer.CompareUnsupportedIsFalse` | api/filter/comparer/lt.go:17-32 | An int, bool, nil or map on the left compares false against anything, its own type included |
| `LtComparer.AnyCompareIsExists` | api/filter/comparer/lt.go:27-29 | The `util.Any` step holds exactly when some element compares less; an empty list gives false |
| `LtComparer.CompareArrayIsExists` | api/filter/comparer/lt.go:26-29 | An array is less than `b` exactly when some element is; the empty array never is |
| `LtComparer.NothingIsLessThanArray` | api/filter/comparer/lt.go:13-29 | No value at all compares less than an array |
| `LtComparer.ArrayVersusArrayIsFalse` | api/filter/comparer/lt.go:13-29 | Array against array is always false |
| `LtComparer.CompareIsExistsOverLeaves` | api/filter/comparer/lt.go:26-29 | A value of any nesting is less than `b` exactly when one of its scalar leaves is (against an array `b`, both sides are false) |
| `LtComparer.Irreflexive` | api/filter/comparer/lt.go:12-33 | `Compare(x, x)` is false for every value |
| `LtComparer.Asymmetric` | api/filter/comparer/lt.go:12-33 | `Compare(a, b)` and `Compare(b, a)` never both hold |
| `LtComparer.Transitive` | api/filter/comparer/lt.go:12-33 | `Compare(a, b)` and `Compare(b, c)` imply `Compare(a, c)`, through arrays too |
| `LtComparer.Trichotomy` | api/filter/comparer/lt.go:18-25 | Two strings, numbers or timestamps of one type are ordered one way or the other, or are equal |
| `External.ParseArgs` | validation/validators/external.go:60-79 | The indexed fill returns exactly `ArgsParsed`: the strings of an all-string array, otherwise the error naming the first offending type |
| `External.ArgsMissingIsError` | validation/validators/external.go:61-64 | A missing `args` key is a parse error that names `<nil>` |
| `External.ArgsEmptyIsEmpty` | validation/validators/external.go:66-68 | An empty array gives an empty argument list |
| `External.ArgsNonStringIsError` | validation/validators/external.go:71-74 | Any non-string element makes the argument list a parse error |
| `External.ArgsRoundTrip` | validation/validators/external.go:70-78 | An array of strings parses to exactly those strings, in order |
| `External.ArgsOnlyFromStrings` | validation/validators/external.go:70-78 | A successful parse came from exactly the array of the returned strings |
| `External.Parse` | validation/validators/external.go:25-57 | The indexed fill returns exactly `Parsed`: nothing for `nil`, one definition per entry when every entry converts, otherwise the first failing entry's error |
| `External.ParseNilIsEmpty` | validation/validators/external.go:26-29 | A `nil` configuration gives no definitions and no error |
| `External.ParseNonArrayIsError` | validation/validators/external.go:31-34 | A configuration that is not an array is a parse error |
| `External.ParseAllOrNothing` | validation/validators/external.go:36-56 | The load succeeds exactly when every entry converts; every failure is a parse error |
| `External.ParseNonMapEntryIsError` | validation/validators/external.go:39-42 | Any entry that is not a map fails the whole load |
| `External.ParseCopiesEntries` | validation/validators/external.go:36-54 | On success there is one definition per entry, in order, with `name`, `path`, `fatal` and `args` copied and `Slim` false |
| `External.ExternalValidator.Name` | validation/validators/external.go:110-112 | The name is `external.` followed by the definition's name, which can be read back from it |
| `External.ExternalValidator.IsFatal` | validation/validators/external.go:163-165 | A validator is fatal exactly when its definition is |
| `External.ExternalValidator.IsSlim` | validation/validators/external.go:167-169 | A validator asks for the slim view exactly when its definition is slim |
| `External.NewExternalValidator` | validation/validators/external.go:97-101 | The validator reports the definition's name under the `external.` prefix, and `IsFatal`/`IsSlim` return the definition's flags |
| `External.NameInjective` | validation/validators/external.go:110-112 | Two validators have the same name exactly when their definitions do |
| `External.LoadExternalValidators` | validation/validators/external.go:82-94 | Parse errors propagate unchanged; otherwise one validator per definition, in order, whose `IsFatal` is the entry's `fatal` and whose `IsSlim` is false |
| `External.Validate` | validation/validators/external.go:117-161 | Marshal failure gives `CannotSerializeItemError` and runs nothing. A clean exit passes. Exit 1 fails with `validation failed: ` + stderr. Another code fails naming that code. Any other run error passes |
| `External.FailureMessage` | validation/validators/external.go:154 | The failure message is `validation failed: ` followed by standard error, which can be read back from it in full |
| `External.UnexpectedExitMessage` | validation/validators/external.go:156 | The malfunction message is the fixed text followed by the exit code's `%d` rendering, which can be read back from it |
| `External.UnexpectedExitMessageNamesCode` | validation/validators/external.go:156 | Two malfunction messages are equal exactly when their exit codes are |
| `External.FailureCanReadAsMalfunction` | validation/validators/external.go:153-156 | An exit-1 standard error can make the failure message equal a malfunction message |
| `EndpointTable.TableState.constructor` | tui/validatedEndpointModel.go:19 | The selection flag starts false, as Go's zero value |
| `EndpointTable.TableState.GetValidatedEndpointRows` | tui/validatedEndpointModel.go:119-131 | The appended rows are `EndpointRows(report)`, and selection is allowed exactly when the report has endpoints |
| `EndpointTable.RowsOnePerEndpoint` | tui/validatedEndpointModel.go:120-123 | A non-empty report gives exactly one row per endpoint, row `i` being (decimal `i`, endpoint name) |
| `EndpointTable.RowsForEmptyReport` | tui/validatedEndpointModel.go:125-128 | An empty report gives the single row (``, `No endpoints found`) |
| `EndpointTable.GetSelectedValidatedEndpointAsWritten` | tui/validatedEndpointModel.go:140-145 | As written: `Index out of range` below 0 or above the length, the endpoint within bounds; the index equal to the length is left as an undischargeable precondition |
| `EndpointTable.AsWrittenGuardAdmitsLength` | tui/validatedEndpointModel.go:141 | The written guard admits every index from 0 up to and including the length |
| `EndpointTable.GetSelectedValidatedEndpoint` | tui/validatedEndpointModel.go:140-145 | Corrected guard: the endpoint exactly for `0 <= index < len`, `Index out of range` for every other index |
| `EndpointTable.CorrectedAgreesWithAsWritten` | tui/validatedEndpointModel.go:140-145 | The corrected lookup agrees with the written one wherever the written one does not panic |
| `EndpointTable.ChosenRowSelectsItsEndpoint` | tui/validatedEndpointModel.go:83-87 | Reading row `i`'s index cell gives `i`, which is never the length; the lookup there, as written and corrected, returns the endpoint named in that row |

## Left out

- I/O in `Validate` is not modelled: building and running the process, its standard streams, and the debug logging (external.go:136-148). Only the run's outcome is an input.
- JSON encoding is not modelled. The outcome of `json.Marshal(item)` is an input.
- The slim or extended marshal at external.go:120-129 is not modelled, because its results are overwritten before they are read.
- The `viper` configuration lookup is not modelled. Its result is a parameter.
- `Parse`, `LoadExternalValidators`: a missing or mistyped `name`, `path` or `fatal` panics in the source. The model takes the precondition `ParseDoesNotPanic` instead of giving that panic an error path.
- Strings are modelled as sequences of Unicode scalar values, so Go strings holding invalid UTF-8 are not modelled; decoding JSON or YAML does not produce them, and a validator's standard error is assumed to be valid UTF-8. For valid UTF-8, Go's byte-wise string order is the code-point order `StrLess` uses.
- float64 is modelled as a real, so NaN, infinities and signed zero are not modelled. `time.Time` is an integer instant, so location and monotonic readings are not modelled.
- Only the value kinds the code meets are modelled: string, float64, int, time.Time, `[]any`, bool, nil and `map[string]any`. Other slice types such as `[]string` are a distinct dynamic type in Go and are not modelled.
- Of errorx errors, only the kind and the formatted message are modelled. The error namespace, stack and wrapped cause are not.
- `ValidatedEndpoint` and `Report` carry only the fields the table reads, because the pipeline package is not part of this model.
- The rest of `tui/validatedEndpointModel.go` is not modelled: the bubbletea model, `Update`, `View`, column layout and styling. These are UI event handling and rendering.
- Not modelled, as filesystem, HTTP, CLI or logging wiring: `fs/setup.go`, `api/start.go`, the `cmd/` files, `errors/handle.go`, `errors/api.go` and `conversion/json.go`.
- The pipeline orchestrator, the daemon scheduler and the other comparers are not part of this model.

## Findings

| source | as written | input that shows it | evidently intended | confidence | as-written member | corrected member |
|---|---|---|---|---|---|---|
| tui/validatedEndpointModel.go:141 | The guard `index > len(report.Endpoints) \|\| index < 0` lets `index == len` reach `report.Endpoints[index]`, which panics | any report with `index = len(report.Endpoints)`, e.g. no endpoints and index 0 | `index >= len(report.Endpoints) \|\| index < 0`, returning `Index out of range` | not executed; the guard is certainly off by one, but the table passes only indices of shown rows, which `EndpointTable.ChosenRowSelectsItsEndpoint` proves never equal the length, provided the rows shown were built by `getValidatedEndpointRows(selectedReport)`; the shown code does not establish this | `EndpointTable.AsWrittenGuardAdmitsLength` | `EndpointTable.GetSelectedValidatedEndpoint` |
