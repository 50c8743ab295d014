# SQL fragment builders of `helpers/sql.js`

This project models the two SQL-fragment builders that the jobly API uses to
build queries:

- `sqlForPartialUpdate(dataToUpdate, jsToSql)` turns a sparse update object
  into a SET list of `"column"=$i` assignments with 1-based placeholders, plus
  the matching values in the same order. An object with no fields throws
  `BadRequestError("No data")`. A field's column is `jsToSql[field]` when that
  entry is present and non-empty (JavaScript's `||`); otherwise the column is
  the field name itself.
- `searchParams(name, minEmployees, maxEmployees)` turns the optional company
  filters into a WHERE clause:
  - a name gives `name LIKE '%<lower-cased name>%'`;
  - a lone minimum gives a strict `numEmployees > min`;
  - a lone maximum gives a strict `numEmployees < max`;
  - both bounds give `numEmployees BETWEEN min AND max`;
  - when there are two predicates they are joined by ` AND `, name first;
  - with no filter it returns the sentinel `"No Paramaters Found"`, spelling
    kept;
  - a minimum above the maximum throws `BadRequestError`.

Files:

- `wrappers.dfy` holds `Option` and `Result`.
- `js_text.dfy` (module `JsText`) holds the JavaScript string behaviour the
  builders rely on:
  - `Array.prototype.join`;
  - the decimal rendering of integers in template literals;
  - ASCII `toLowerCase`;
  - small readers that invert them.
- `sql.dfy` (module `Sql`) holds both builders:
  - `sqlForPartialUpdate` is a function, as in the source;
  - `searchParams` is a method whose locals `strName`, `strEmployees` and
    `returnStr` follow the source's if/else chains. It is proved equal to the
    declarative `SearchClause`.
- `sql_read_back.dfy` (module `SqlReadBack`) holds parsers that read a SET list
  and a WHERE clause back into what they were built from. The round-trip
  lemmas show that the generated text determines the resolved columns and
  their placeholder numbers, the lower-cased name and the bounds.

The update object is a sequence of (field, value) pairs in `Object.keys`
order, and `jsToSql` is a `map`. For `searchParams`, an argument that is
`undefined` is `None`.

Three facts of the code the model keeps as written:

- a single bound gives a strict comparison, `>` at helpers/sql.js:47 and `<`
  at helpers/sql.js:60;
- the empty-update message is `"No data"` (helpers/sql.js:19);
- `jsToSql[colName] || colName` at helpers/sql.js:23 falls back to the field
  name when the mapped name is the empty string.

The integer reader accepts exactly what `${i}` prints. The SET-list reader
accepts exactly the `", "`-joined lists of `"col"=$n` fragments whose columns
contain no `"` and whose numerals are canonical, so `$01` is refused. That
includes lists the builder never produces, such as `"a"=$5`. The reader
never returns a column that contains `"`: the `setCols` of such a column is
either refused or misread as another list (the field `a"=$1, "b` gives
`"a"=$1, "b"=$1`, which reads as two assignments).

## Model

| member | source | states |
|---|---|---|
| Sql.SqlForPartialUpdate | helpers/sql.js:17-30 | Fails exactly when the object has no fields, with the error "No data". Otherwise `values` has one entry per field, and entry `i` is the value of field `i`. |
| Sql.SetColsIgnoreValues | helpers/sql.js:22-28 | `setCols` depends only on the field names and their order, never on the values. |
| Sql.SqlForPartialUpdateExample | helpers/sql.test.js:12-16 | `{firstName: 'Aliya', age: 32}` with `firstName` mapped gives `"first_name"=$1, "age"=$2` and the values `["Aliya", 32]` in field order. |
| Sql.SqlForPartialUpdateEmpty | helpers/sql.test.js:17-19 | An empty object gives the "No data" error. |
| Sql.SearchClause | helpers/sql.js:39-80 | Fails exactly when both bounds are given and min > max, with the source's message; min == max is accepted. Returns the sentinel exactly when no filter is given. Every other result starts with `WHERE `. |
| Sql.SearchClauseAssembled | helpers/sql.js:63-80 | Joining the present predicates with AND after WHERE equals the source's case-by-case placement: name and employees, name only, employees only, or the sentinel. |
| Sql.SearchParams | helpers/sql.js:39-88 | The imperative if/else chain over `strName`, `strEmployees` and `returnStr` returns exactly `SearchClause`, including the throw on an inverted range. |
| Sql.SearchClauseWithoutName | helpers/sql.js:46-80 | Without a name: a lone min gives `WHERE numEmployees > min`, a lone max gives `WHERE numEmployees < max`, both give `WHERE numEmployees BETWEEN min AND max`, and neither gives the sentinel. |
| Sql.SearchClauseWithName | helpers/sql.js:42-74 | With a name: the clause is `WHERE name LIKE '%<lower-cased name>%'`, followed by ` AND ` and the employee predicate when a bound is given. |
| SqlReadBack.ParsePartialUpdate | helpers/sql.js:22-27 | For columns without `"`, `setCols` reads back as exactly N assignments. Assignment `i` names the column of field `i` and uses placeholder `$i+1`, in field order. |
| SqlReadBack.SetColsColumns | helpers/sql.js:22-24 | For columns without `"`, assignment `i` of `setCols` names `jsToSql[field]` when the field is mapped to a non-empty name, and the field name itself when it is unmapped or mapped to `""`, with placeholder `$i+1`. |
| SqlReadBack.ParsedAssignmentsForm | helpers/sql.js:22-27 | Converse of the read-back: any text the SET-list reader accepts is exactly the `", "`-joined list of `"col"=$n` fragments of the pairs it reads, with canonical numerals. |
| SqlReadBack.ParseEmployeeRoundTrip | helpers/sql.js:46-61 | Every employee predicate reads back as the bounds it was built from. |
| SqlReadBack.EmployeePredicateForm | helpers/sql.js:47-60 | An employee predicate contains no `%`, does not start like a name predicate, and ends with a digit. |
| SqlReadBack.ParseSearchClause | helpers/sql.js:42-80 | Every non-failing clause reads back as the lower-cased name and the two bounds it was built from, for any name. |
| SqlReadBack.SearchClauseInjective | helpers/sql.js:42-80 | Two valid filter sets give the same clause only if they agree on the lower-cased name and on both bounds. |
| SqlReadBack.NameFilterIgnoresCase | helpers/sql.js:42-43 | Two names give the same clause, bounds fixed, if and only if they agree after lower-casing. |
| JsText.NatToString | helpers/sql.js:23 | The placeholder number is rendered as a canonical decimal numeral: non-empty, all digits, no leading zero. |
| JsText.NatToStringRoundTrip | helpers/sql.js:23 | Reading the rendered placeholder number back gives the number. |
| JsText.IntToString | helpers/sql.js:47-60 | An interpolated bound ends with a digit, and holds only digits after an optional leading `-`. |
| JsText.IntToStringRoundTrip | helpers/sql.js:47-60 | Reading an interpolated bound back gives the bound. |
| JsText.ParseIntExact | helpers/sql.js:47-60 | A string reads as the integer `i` if and only if it is how `${i}` prints `i`. |
| JsText.IntToStringInjective | helpers/sql.js:47-60 | Distinct bounds are rendered as distinct text. |
| JsText.ToLowerCase | helpers/sql.js:43 | The name keeps its length. Each ASCII capital becomes its lower-case letter, every other character is unchanged, and no capital remains. |
| JsText.ToLowerCaseIdempotent | helpers/sql.js:43 | Lower-casing a name twice gives the same text as lower-casing it once. |

## Left out

- The `console.log` of the clause in `searchParams` (helpers/sql.js:82-86) is output only and is dropped.
- `returnStr` is an undeclared, and therefore global, variable in the source. It is modelled as a local; the global it leaks is not modelled.
- `Object.keys` puts integer-like keys first in ascending order. The model takes the update object as a sequence already in enumeration order.
- Properties that `jsToSql` inherits from `Object.prototype` (for example a field named `constructor`) are not modelled. Neither are mapped values that are not strings; only own string entries are.
- `toLowerCase` is modelled for ASCII letters only. Unicode case mapping is not modelled.
- The bounds are modelled as unbounded integers. Route code passes query-string values, which JavaScript compares as strings in `minEmployees > maxEmployees`. Non-integer numbers and their float formatting are not modelled.
- JsText.IntToString: prints every integer as plain digits. JavaScript prints integer-valued numbers of magnitude at least 1e21 in exponent form (`1e+21`), and integers beyond 2^53 are not exact; neither is modelled.
- `jsToSql` is documented as optional (helpers/sql.js:6-8), but helpers/sql.js:23 reads `jsToSql[colName]`, which throws a TypeError when `jsToSql` is `undefined` and the object has fields. That exception path is not modelled: `jsToSql` is always a map.
- The name is interpolated into the clause without escaping (helpers/sql.js:43), so a quote in it changes what SQL reads: `x%' or 'a'='a` yields a disjunction. The clause round trip (SqlReadBack.ParseSearchClause) is about the text, not its SQL meaning.
- `BadRequestError` is modelled by its message only. Its class and status code come from expressError.js, which is not part of this model.
- SqlReadBack.ParsePartialUpdate: stated only for columns without a double quote. With a quote inside a column name the SET list is ambiguous: the reader refuses it or reads it as a different list.
- SqlReadBack.SetColsColumns: stated only for columns without a double quote, for the same reason: a quote inside a column name makes the SET list ambiguous, so the reader refuses it or reads it as a different list.
- helpers/search.js is an older copy of `searchParams` that never returns its clause. models/jobs.js and routes/jobs.js consist of database queries and Express routing. middleware/auth.js consists of JWT checks. None of these hold logic of the builders, and they are not part of this model.
