# Filter-to-SQL fragment builder of a personal-finance backend

This project models the filter compiler of a small personal-finance tracking
backend written in Go. It models that component and proves properties about the model.

A client sends a list of filters. Each filter is a `FilterModel{Property, Value, Operator}`:
`Property` is a field code (0 `Amount`, 1 `SpentAt`, 2 `Note`, 3 `CategoryId`),
and `Operator` is a comparison code (0 `=`, 1 `<`, 2 `>`, 3 `<>`, 4 `<=`, 5 `>=`).
`FilterBatch.Build` turns the list into two things:

- a WHERE-clause fragment `Amount>@P1 and CategoryId=@P2 and`, which always ends
  in `and` so that the caller can append its own predicate;
- the named SQL arguments `P1 .. Pn`, which carry the filter values.

An unknown code anywhere in the batch aborts the whole batch. The result is then
an empty fragment, no arguments and an error. `GetFilterSettings` lists both code
tables as `{index, value}` records for the client.

Files:

- `text.dfy` (module `Text`) holds string helpers. Two of them model what the
  builder takes from Go's standard library: decimal rendering as `fmt`'s `%d`
  does it, and `strings.Join`. The others exist only to state properties of the
  generated text: a character count, the index of a character, and splitting on
  one character (used to read a fragment back).
- `filtered_request.dfy` (module `FilteredRequest`) models `models/filteredRequest.go`.
  It has the code constants and the two tables as `map<int, string>` constants.
  `FilterModel.Build` becomes the function `BuildClause`. `FilterBatch.Build` becomes
  the method `BuildBatch`, whose loop is proved against the reference function
  `CompileFilters`. `GetFilterSettings` becomes a method, with its per-table loop in `TableEntries`.
- `filter_properties.dfy` (module `FilterProperties`) holds what callers can rely on.
  It includes a parser that reads a fragment back, and a proof that parsing
  inverts building. It also proves the comparison count, the argument numbering,
  distinct placeholder names and first-error reporting.

Modelling choices:

- Go's `error` becomes `FilterError` (`SignNotFound`, `FieldNotFound`). The three
  return values of `FilterBatch.Build` become three out-parameters. The error is an
  `Option<FilterError>`.
- `sql.NamedArg` becomes `NamedArg(name, value)`. Go's nil slice and empty slice
  are both the empty sequence.
- Go does not fix the order in which `range` visits a map. `GetFilterSettings`
  therefore takes each table's visiting order as a parameter, `fieldsOrder` and
  `signsOrder`. Each must list the table's keys exactly once. Its results are
  stated without reference to order.
- A `GetFilterSettings` record is a `map[string]interface{}` with keys `index` and
  `value`. It becomes the datatype `SettingEntry(index, value)`.
- The codes are Go `int`s and are only ever used as map keys, with no arithmetic
  on them. So unbounded `int` loses nothing. A position `idx + 1` is at most the
  length of a slice and cannot overflow.

Two points of the code's behaviour are kept as the code has them:

- The code reports two distinct errors, "sign was not found" and "field was not
  found", not a single invalid-filter error. It checks the operator before the field.
- The codes are plain integers looked up in maps, not a closed enumeration. So
  unknown codes can arrive, and their error path is modelled.

## Model

| member | source | states |
|---|---|---|
| `Text.DecimalRoundTrip` | models/filteredRequest.go:48 | the `%d` rendering used for placeholder numbers reads back to the same number, so different positions never render alike |
| `Text.NatToDecimal` | models/filteredRequest.go:48 | the `%d` form of a non-negative number: at least one character, only decimal digits, no leading zero for positive numbers, a single digit exactly below 10 |
| `Text.Join` | models/filteredRequest.go:55 | `strings.Join`: the result starts with the first element, and its length is the elements' total length plus one separator fewer than there are elements (`Text.SplitJoin` proves splitting undoes it) |
| `FilteredRequest.FilterError.Message` | models/filteredRequest.go:31-36 | "sign was not found" is the text of exactly the sign error and "field was not found" of exactly the field error |
| `FilteredRequest.SignsDomain` | models/filteredRequest.go:75-82 | the known operator codes are exactly 0 to 5, mapped to `=`, `<`, `>`, `<>`, `<=`, `>=` |
| `FilteredRequest.FieldsDomain` | models/filteredRequest.go:84-89 | the known field codes are exactly 0 to 3, mapped to the columns `Amount`, `SpentAt`, `Note`, `CategoryId` |
| `FilteredRequest.Placeholder` | models/filteredRequest.go:48 | the name for position `idx` is `P` followed by digits without leading zero that read back as `idx + 1` |
| `FilteredRequest.BuildClause` | models/filteredRequest.go:28-39 | succeeds exactly when both codes are table keys; an unknown operator gives `SignNotFound` even if the field is unknown too; a known operator with an unknown field gives `FieldNotFound`; on success the argument has the given name and the filter's value unchanged, and the text is column, sign, `@`, name |
| `FilteredRequest.FirstInvalid` | models/filteredRequest.go:47-51 | the position where the loop stops: every filter before it is valid and the filter at it (if any) is not |
| `FilteredRequest.CompileFilters` | models/filteredRequest.go:41-57 | empty batch gives empty fragment and no arguments; fails exactly when some filter has an unknown code; on success a non-empty batch's fragment ends with ` and` and there is one argument per filter |
| `FilteredRequest.BuildBatch` | models/filteredRequest.go:41-57 | the loop with early return computes exactly `CompileFilters`; on error it returns an empty fragment and no arguments, so nothing partial escapes |
| `FilteredRequest.TableEntries` | models/filteredRequest.go:94-99 | for any visiting order of the map, the records list the table: one per entry, no index twice, every value the table's image of its index |
| `FilteredRequest.GetFilterSettings` | models/filteredRequest.go:91-113 | both record lists list their tables, with 4 field records and 6 sign records |
| `FilteredRequest.DistinctCardinality` | models/filteredRequest.go:94 | a visiting order without repetitions has as many keys as entries, so the lists are as long as the tables |
| `FilterProperties.TablesArePlain` | models/filteredRequest.go:75-89 | no column name or sign contains `@` or a space |
| `FilterProperties.FieldNameIsRecognised` | models/filteredRequest.go:84-89 | exactly one column name begins a comparison, so the column is recovered from the text |
| `FilterProperties.SignIsRecognised` | models/filteredRequest.go:75-82 | the signs are pairwise different, so the operator code is recovered from its sign |
| `FilterProperties.ClauseRoundTrip` | models/filteredRequest.go:28-39 | parsing a built comparison gives back exactly its field code, operator code and parameter name, for every parameter name |
| `FilterProperties.PlaceholdersDistinct` | models/filteredRequest.go:48 | placeholders of different positions are different names |
| `FilterProperties.ArgumentsInOrder` | models/filteredRequest.go:45-53 | for a valid batch, argument `i` is named `P(i+1)` and carries filter `i`'s value, and no two arguments share a name |
| `FilterProperties.FragmentComparisons` | models/filteredRequest.go:47-56 | a valid non-empty batch's fragment holds exactly one `@` parameter reference per filter and ends with ` and` |
| `FilterProperties.FragmentRoundTrip` | models/filteredRequest.go:41-57 | parsing the fragment of a valid batch gives back, in batch order, each filter's field and operator codes with the name of the argument carrying its value |
| `FilterProperties.FirstErrorWins` | models/filteredRequest.go:47-51 | wherever the first bad filter sits, the batch fails with that filter's error (sign before field) |
| `FilterProperties.TwoFilterExample` | models/filteredRequest.go:41-57 | `Amount > "100"` and `CategoryId = "3"` compile to `Amount>@P1 and CategoryId=@P2 and` with arguments `P1 = "100"`, `P2 = "3"` |

## Left out

- `FilteredRequest.GetFilterSettings`: the model says nothing about the order of the records. Go's map iteration order is unspecified, so the order is a parameter of the model.
- `FilteredRequest.GetFilterSettings`: the record values are typed `int`/`string` fields, not `interface{}`, so dynamic typing is not modelled.
- The `FilteredRequest` struct (page number, page size and filters) is plain request data with no behaviour.
- main.go is not part of this model. It holds HTTP routing, JSON encoding, CORS headers, and the login and token checks built on a JWT library.
- storage/database.go is not part of this model. It executes SQL through a database driver and hashes passwords with SHA-512. Those are foreign I/O and cryptography.
- settings/settings.go, models/category.go, models/models.go, models/login.go and models/transaction.go are not part of this model. They load settings from files and the environment, or declare plain data types.
