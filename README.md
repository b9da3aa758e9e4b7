# Safe query builders and the holiday cache, modelled in Dafny

This project models the two pieces of logic in the `api-vite` backend that sit
around its I/O calls.

* **The database layer** (`src/database.ts`). `sql` is a template tag. It joins
  the template's literal fragments with `?` to form the query text, and it passes
  the interpolated values to the driver separately, as bound parameters.
  `prepare` builds the same text once and returns a callable. With declared keys,
  the callable reads its argument object's properties in declared key order and
  binds them by position. Without keys, it takes no argument and binds nothing.
  `insert` builds `INSERT INTO <table>\n    (<columns>) VALUES (?, ?, …)` from one
  record. Every call into the driver (`pool.execute`, `statement.execute`) is
  opaque. The model states exactly what is handed to it: an
  `Execution(query, params)`.
* **The holiday lookup** (`src/controllers/date_controller.ts`). A process-wide
  map goes from calendar year to the set of holiday dates of that year. It is
  filled on a miss from the public holiday service and never evicted.
  `fetchHolidays` rejects any response that is not an array. Otherwise it
  collects every element's `date` property into a set. The map is the field
  `feriados` of class `HolidayCache`. Its method `IsHoliday` is proved equal to
  the pure step function `Lookup`, and the memoisation properties are proved
  about `Lookup` and about `Run`, which chains any number of calls.

Files:

* `wrappers.dfy`: `Option` and `Result`.
* `strings.dfy`: `Join` (`Array.prototype.join`) and `Split` (`String.prototype.split`
  with a one-character separator). Each undoes the other.
* `js_values.dfy`: JavaScript values, and reading a property with `v[key]`.
* `database.dfy`: `sql`, `prepare` and `insert`.
* `date_controller.dfy`: `fetchHolidays`, `isHoliday` and the cache.

JavaScript values are one datatype, `JsValue`. An object lists its own properties
in enumeration order, which is the order `Object.keys` and `Object.values`
report. Reading `v[key]` throws a TypeError on `undefined` and `null`. On an
object it gives the named property, or `undefined` when there is none. On every
other value it gives `undefined`.

## Model

| member | source | states |
|---|---|---|
| `Strings.Split` | src/controllers/date_controller.ts:7 | `split` with one separator always yields at least one part, and no part contains the separator |
| `Strings.JoinSplit` | src/controllers/date_controller.ts:7 | splitting a text at a character and joining the parts with it gives back the text, for every text |
| `Strings.SplitJoin` | src/database.ts:28 | fragments free of `?`, joined with `?`, split back into exactly those fragments |
| `Strings.SplitCount` | src/database.ts:28 | a text holds one occurrence of a character fewer than it has parts when split at that character |
| `Strings.SplitFirst` | src/controllers/date_controller.ts:7 | the first part of a split is a prefix of the text, has no separator, and is followed by the separator or by the end of the text |
| `Strings.JoinAvoids` | src/database.ts:66 | joining parts and a separator that all avoid a character gives a text without it |
| `Strings.CountWithin` | src/database.ts:65-66 | surrounding text without the character adds no occurrence of it |
| `JsValues.Get` | src/database.ts:45 | for an object with distinct keys, reading a key gives that key's value, and `undefined` when the key is absent |
| `JsValues.Property` | src/database.ts:45 | reading a property throws exactly when the value is `undefined` or `null` |
| `JsValues.GetIgnoresOrder` | src/database.ts:45 | two objects with the same properties in any order answer every read alike |
| `Database.Sql` | src/database.ts:24-29 | `sql` hands the interpolated values to the driver unchanged, with the same length and order |
| `Database.SqlTextIsFragmentsOnly` | src/database.ts:13-28 | injection safety: the query text is the same for every list of values, and cutting it at its `?`s gives back exactly the caller's fragments |
| `Database.SqlPlaceholderCount` | src/database.ts:24-28 | with `?`-free fragments, the query holds `\|strings\| - 1` placeholders, which equals the number of bound values for a tagged template |
| `Database.SqlWithoutSlots` | src/database.ts:18-29 | a one-fragment template runs that fragment verbatim with no parameters |
| `Database.Prepare` | src/database.ts:34-56 | the statement text equals the text `sql` builds from the same fragments, and the keyed callable is returned exactly when at least one key is declared |
| `Database.ReadKeys` | src/database.ts:45 | `keys.map(key => values[key])` yields one value per key, in key order, each the property read for that key; it throws exactly when there is a key and the argument is `undefined` or `null` |
| `Database.Call` | src/database.ts:41-56 | the keyed callable binds `\|keys\|` parameters, the i-th being the argument's property `keys[i]`, and throws when called without an object; the unkeyed callable always binds `[]`; the statement text never changes |
| `Database.CallBindsInDeclaredOrder` | src/database.ts:41-47 | called with an object, slot i gets the value of the property named by the i-th declared key, or `undefined` where that property is missing; there is no error |
| `Database.CallIgnoresPropertyOrder` | src/database.ts:45 | the bound parameters do not depend on the order of the argument object's properties |
| `Database.CallKeyOrderExample` | src/database.ts:45 | keys `[a, b]` with argument `{b: 2, a: 1}` bind `[1, 2]` |
| `Database.ColumnsPairWithValues` | src/database.ts:60-61 | `Object.keys` and `Object.values` have equal length and pair back up into the record |
| `Database.Placeholders` | src/database.ts:63 | `Array(n).fill("?")` has n entries, all `"?"` |
| `Database.PlaceholderListCount` | src/database.ts:63-66 | the joined placeholder list holds exactly n placeholders |
| `Database.Insert` | src/database.ts:59-67 | as written, `insert` binds a single parameter: the array of the record's values |
| `Database.InsertQueryIgnoresValues` | src/database.ts:65-66 | the INSERT text depends only on the table and the column names, never on the values |
| `Database.InsertQueryPlaceholders` | src/database.ts:60-66 | with `?`-free identifiers, the INSERT text holds exactly one placeholder per field |
| `Database.InsertArityMismatch` | src/database.ts:63-67 | as written, the placeholder count equals the bound-parameter count exactly when the record has one field |
| `Database.InsertTwoFieldExample` | src/database.ts:59-67 | `{nome: "Ana", idade: 20}` gets two placeholders and one bound parameter |
| `Database.InsertIntended` | src/database.ts:59-67 | corrected `insert`: the same text, with the i-th field's value bound as the i-th parameter |
| `Database.InsertIntendedBindsEachValue` | src/database.ts:59-67 | corrected `insert` binds exactly one parameter per placeholder, in field order |
| `DateController.DatePrefix` | src/controllers/date_controller.ts:7 | the lookup key is the prefix of the ISO text before its first `T` (all of it when there is none) |
| `DateController.ProjectDates` | src/controllers/date_controller.ts:27 | projecting `date` fails exactly when an element is `null` or `undefined`; otherwise the set holds exactly the elements' `date` values |
| `DateController.FetchHolidays` | src/controllers/date_controller.ts:19-28 | a rejected request fails; a response that is not an array fails with the year-naming error; it succeeds exactly for an array without `null` or `undefined` elements |
| `DateController.FetchedDates` | src/controllers/date_controller.ts:27 | a date string is fetched exactly when some element is an object whose `date` is that string |
| `DateController.FetchIgnoresOrderAndRepeats` | src/controllers/date_controller.ts:27 | responses with the same elements in any order or multiplicity give the same result |
| `DateController.Lookup` | src/controllers/date_controller.ts:5-17 | fetches exactly on a miss; a hit answers from the cached set and leaves the cache unchanged; on a successful fetch the year's entry becomes the fetched set, other years are unchanged, and the answer is membership in that set; a failed fetch leaves the cache unchanged |
| `DateController.FailedLookupRetries` | src/controllers/date_controller.ts:11-13 | after a failed lookup, the next lookup for that year fetches again |
| `DateController.RunExtends` | src/controllers/date_controller.ts:9-14 | over any sequence of calls, the cached years only grow, and no entry is overwritten or removed |
| `DateController.RunNeverRefetches` | src/controllers/date_controller.ts:9-14 | a year already cached is never fetched by any later call |
| `DateController.SuccessfulLookupIsMemoised` | src/controllers/date_controller.ts:9-14 | after one successful lookup for a year, that year is fetched at most once in the whole run, by that lookup, and not at all when it was already cached |
| `DateController.SameYearFetchedOnce` | src/controllers/date_controller.ts:9-14 | from an empty cache, two calls for the same year fetch exactly once when the first response is well formed |
| `DateController.HolidayCache.constructor` | src/controllers/date_controller.ts:3 | the cache starts empty |
| `DateController.HolidayCache.IsHoliday` | src/controllers/date_controller.ts:5-17 | the answer, the new `feriados` and whether it fetched are exactly those of `Lookup` on the old map; the map only grows |

## Left out

- Pool creation, the credential error, its log line and `process.exit` (src/database.ts:4-11) are I/O and process control.
- What the MySQL driver does with a query and its parameters, the rows it returns, and the `rows as T[]` casts are left out. Execution is opaque; only its inputs are modelled.
- `prepare` acquires a connection and prepares a server-side statement (src/database.ts:39). Neither is modelled, and neither is the failure of that step. The connection is never released, which is a resource-lifetime matter.
- The type-level signature of `prepare` (conditional and mapped types) is left out. Only the runtime branch on the number of keys is modelled. `keys` is a rest parameter, so it is always an array, and `keys && …` reduces to `keys.length >= 1`.
- `prepare` does not check that the number of keys equals the number of slots, and the model does not require it either.
- JsValues.Property: properties inherited through prototypes (such as `toString`), and the index and `length` properties of strings and arrays, read as `undefined`. JavaScript would return the inherited or indexed value.
- JavaScript numbers are modelled as integers. Floating point, `NaN` and `-0` are left out.
- A JavaScript `Set` keeps distinct objects apart by identity. `HolidaySet` keeps them apart by value, so structurally equal non-string entries collapse. No string lookup can tell the difference.
- The HTTP request to the holiday service and the JSON decoding are left out. The decoded response is an input, and `None` stands for a rejected request or decoding. The year in the error message is carried as data, not formatted as text.
- `Date` is left out. The year (local time, `getFullYear`) and the ISO text (UTC, `toISOString`) are inputs. The two can disagree near midnight on New Year's Eve, depending on the time zone.
- Concurrency is left out. Overlapping `isHoliday` calls for one year can each fetch, and overlapping calls to one prepared callable are unguarded. The model runs calls one after another.

## Findings

| source | as written | input that shows it | evidently intended | confidence | as-written member | corrected member |
|---|---|---|---|---|---|---|
| src/database.ts:67 | `pool.execute(query, [values])` binds one parameter, the array of all values, while the text has one `?` per value | `insert("alunos", {nome: "Ana", idade: 20})`: two placeholders, one bound parameter | bind `values` itself, one parameter per placeholder, in column order | high that the counts differ; the driver's reaction is not modelled; not executed | `Database.InsertArityMismatch` | `Database.InsertIntendedBindsEachValue` |
