/** The two SQL-fragment builders of helpers/sql.js: `sqlForPartialUpdate`,
    which turns a sparse update object into a SET list with positional
    placeholders and the matching values, and `searchParams`, which turns
    the optional company filters into a WHERE clause. */
module Sql {
  import opened Wrappers
  import opened JsText

  /** The error both builders throw; only its message is modelled. */
  datatype BadRequestError = BadRequestError(message: string)

  const NoDataMessage := "No data"
  const InvertedRangeMessage := "MinEmployees must be less than maxEmployees"

  // =====================================================================
  // sqlForPartialUpdate
  // =====================================================================

  /** The result object `{ setCols, values }`. */
  datatype PartialUpdate<V> = PartialUpdate(setCols: string, values: seq<V>)

  /** The column written for field `key`: `jsToSql[key] || key`, that is the
      mapped name when the map has one that is not the empty string, and
      the field name itself otherwise. */
  function ColumnFor(key: string, jsToSql: map<string, string>): string {
    if key in jsToSql && jsToSql[key] != "" then jsToSql[key] else key
  }

  /** One assignment fragment `"col"=$n`. */
  function Assignment(col: string, placeholder: nat): string {
    "\"" + col + "\"=$" + NatToString(placeholder)
  }

  /** `keys.map((colName, idx) => ...)`: one fragment per field, numbered
      from 1 in field order. */
  function Fragments(keys: seq<string>, jsToSql: map<string, string>): seq<string> {
    seq(|keys|, idx requires 0 <= idx < |keys| => Assignment(ColumnFor(keys[idx], jsToSql), idx + 1))
  }

  /** `Object.keys(data)`: the object's fields in enumeration order. */
  function Keys<V>(data: seq<(string, V)>): seq<string> {
    seq(|data|, i requires 0 <= i < |data| => data[i].0)
  }

  /** `Object.values(data)`: the object's values in the same order. */
  function Values<V>(data: seq<(string, V)>): seq<V> {
    seq(|data|, i requires 0 <= i < |data| => data[i].1)
  }

  /** `sqlForPartialUpdate(dataToUpdate, jsToSql)`. The update object is a
      sequence of (field, value) pairs in `Object.keys` order. An object
      with no fields throws; otherwise the values come back in field order,
      one per field. What `setCols` holds is stated by ParsePartialUpdate. */
  function SqlForPartialUpdate<V>(data: seq<(string, V)>, jsToSql: map<string, string>)
    : (r: Result<PartialUpdate<V>, BadRequestError>)
    ensures r.Failure? <==> |data| == 0
    ensures r.Failure? ==> r.error == BadRequestError(NoDataMessage)
    ensures r.Success? ==> |r.value.values| == |data|
    ensures r.Success? ==> forall i :: 0 <= i < |data| ==> r.value.values[i] == data[i].1
  {
    var keys := Keys(data);
    if |keys| == 0 then Failure(BadRequestError(NoDataMessage))
    else
      Success(PartialUpdate(Join(Fragments(keys, jsToSql), ", "), Values(data)))
  }

  /** Values never enter the SET list: two updates of the same fields in
      the same order get the same `setCols`, whatever their values. */
  lemma SetColsIgnoreValues<V>(data1: seq<(string, V)>, data2: seq<(string, V)>, jsToSql: map<string, string>)
    requires |data1| > 0 && Keys(data1) == Keys(data2)
    ensures SqlForPartialUpdate(data1, jsToSql).value.setCols == SqlForPartialUpdate(data2, jsToSql).value.setCols
  {
  }

  /** A JavaScript value as an update object may carry it: a string or a
      number. */
  datatype JsValue = Str(s: string) | Num(n: int)

  /** A renamed field and an unmapped one: `firstName` is written to
      `first_name`, `age` keeps its own name, the placeholders count from 1
      in field order, and the values, string and number, come back as given. */
  lemma SqlForPartialUpdateExample()
    ensures SqlForPartialUpdate([("firstName", Str("Aliya")), ("age", Num(32))], map["firstName" := "first_name"])
      == Success(PartialUpdate("\"first_name\"=$1, \"age\"=$2", [Str("Aliya"), Num(32)]))
  {
    var data := [("firstName", Str("Aliya")), ("age", Num(32))];
    var jsToSql := map["firstName" := "first_name"];
    var first, second := "\"first_name\"=$1", "\"age\"=$2";
    ExampleFragments(Keys(data), jsToSql, first, second);
    assert Join([second], ", ") == second;
    assert Join([first, second], ", ") == first + ", " + second;
    assert first + ", " + second == "\"first_name\"=$1, \"age\"=$2";
    assert Values(data) == [Str("Aliya"), Num(32)];
  }

  /** The two fragments of the example above. */
  lemma ExampleFragments(keys: seq<string>, jsToSql: map<string, string>, first: string, second: string)
    requires keys == ["firstName", "age"] && jsToSql == map["firstName" := "first_name"]
    requires first == "\"first_name\"=$1" && second == "\"age\"=$2"
    ensures Fragments(keys, jsToSql) == [first, second]
  {
    assert NatToString(1) == "1" && NatToString(2) == "2";
    assert Assignment(ColumnFor(keys[0], jsToSql), 1) == first;
    assert Assignment(ColumnFor(keys[1], jsToSql), 2) == second;
  }

  /** An object with no fields throws. */
  lemma SqlForPartialUpdateEmpty<V>(jsToSql: map<string, string>)
    ensures SqlForPartialUpdate<V>([], jsToSql) == Failure(BadRequestError(NoDataMessage))
  {
  }

  // =====================================================================
  // searchParams
  // =====================================================================

  const NoParametersFound := "No Paramaters Found"
  const Where := "WHERE "
  const And := " AND "
  const NameOpen := "name LIKE '%"
  const NameClose := "%'"
  const AbovePrefix := "numEmployees > "
  const BelowPrefix := "numEmployees < "
  const BetweenPrefix := "numEmployees BETWEEN "

  /** A substring match on the name column: `name LIKE '%pattern%'`. */
  function LikePredicate(pattern: string): string {
    NameOpen + pattern + NameClose
  }

  /** The name filter: a substring match on the lower-cased name. */
  function NamePredicate(name: string): string {
    LikePredicate(ToLowerCase(name))
  }

  /** Only a minimum: strictly more employees than it. */
  function AbovePredicate(min: int): string {
    AbovePrefix + IntToString(min)
  }

  /** Only a maximum: strictly fewer employees than it. */
  function BelowPredicate(max: int): string {
    BelowPrefix + IntToString(max)
  }

  /** Both bounds: SQL's inclusive BETWEEN. */
  function BetweenPredicate(min: int, max: int): string {
    BetweenPrefix + IntToString(min) + And + IntToString(max)
  }

  /** Both bounds are given and the minimum exceeds the maximum. */
  predicate InvertedRange(minEmployees: Option<int>, maxEmployees: Option<int>) {
    minEmployees.Some? && maxEmployees.Some? && minEmployees.value > maxEmployees.value
  }

  /** The employee predicate, chosen by which bounds are given. */
  function EmployeePredicate(minEmployees: Option<int>, maxEmployees: Option<int>): Option<string> {
    match (minEmployees, maxEmployees)
    case (Some(lo), None) => Some(AbovePredicate(lo))
    case (None, Some(hi)) => Some(BelowPredicate(hi))
    case (Some(lo), Some(hi)) => Some(BetweenPredicate(lo, hi))
    case (None, None) => None
  }

  /** The name predicate, when a name is given. */
  function NameFilter(name: Option<string>): Option<string> {
    match name
    case Some(n) => Some(NamePredicate(n))
    case None => None
  }

  /** The value as a list of zero or one elements. */
  function Present<T>(o: Option<T>): seq<T> {
    match o
    case Some(v) => [v]
    case None => []
  }

  /** What `searchParams` returns, stated declaratively: an inverted range
      throws; otherwise the predicates of the filters that are given, name
      first, are joined by AND after WHERE, and with no filter at all the
      sentinel string comes back. */
  function SearchClause(name: Option<string>, minEmployees: Option<int>, maxEmployees: Option<int>)
    : (r: Result<string, BadRequestError>)
    ensures r.Failure? <==> InvertedRange(minEmployees, maxEmployees)
    ensures r.Failure? ==> r.error == BadRequestError(InvertedRangeMessage)
    ensures r == Success(NoParametersFound) <==> name.None? && minEmployees.None? && maxEmployees.None?
    ensures r.Success? && r.value != NoParametersFound ==> Where <= r.value
  {
    if InvertedRange(minEmployees, maxEmployees) then Failure(BadRequestError(InvertedRangeMessage))
    else
      var predicates := Present(NameFilter(name)) + Present(EmployeePredicate(minEmployees, maxEmployees));
      if predicates == [] then Success(NoParametersFound)
      else
        var clause := Where + Join(predicates, And);
        assert clause[0] != NoParametersFound[0];
        Success(clause)
  }

  /** The clause built from the name predicate and the employee predicate,
      the way the source's second if/else chain places them. */
  function Assemble(namePredicate: Option<string>, employeePredicate: Option<string>): string {
    match (namePredicate, employeePredicate)
    case (Some(n), Some(e)) => Where + n + And + e
    case (Some(n), None) => Where + n
    case (None, Some(e)) => Where + e
    case (None, None) => NoParametersFound
  }

  lemma WhereJoinTwo(first: string, second: string)
    ensures Where + Join([first, second], And) == Where + first + And + second
  {
    assert Join([first, second], And) == first + And + Join([second], And);
  }

  /** Joining the present predicates is the same as placing them case by case. */
  lemma SearchClauseAssembled(name: Option<string>, minEmployees: Option<int>, maxEmployees: Option<int>)
    requires !InvertedRange(minEmployees, maxEmployees)
    ensures SearchClause(name, minEmployees, maxEmployees)
      == Success(Assemble(NameFilter(name), EmployeePredicate(minEmployees, maxEmployees)))
  {
    var namePredicate := NameFilter(name);
    var employeePredicate := EmployeePredicate(minEmployees, maxEmployees);
    var predicates := Present(namePredicate) + Present(employeePredicate);
    if namePredicate.Some? && employeePredicate.Some? {
      assert predicates == [namePredicate.value, employeePredicate.value];
      WhereJoinTwo(namePredicate.value, employeePredicate.value);
    } else if namePredicate.Some? {
      assert predicates == [namePredicate.value];
    } else if employeePredicate.Some? {
      assert predicates == [employeePredicate.value];
    }
  }

  /** `searchParams(name, minEmployees, maxEmployees)`, following the
      source's if/else chain over the locals `strName`, `strEmployees` and
      `returnStr`; an absent argument (`undefined`) is `None`. */
  method SearchParams(name: Option<string>, minEmployees: Option<int>, maxEmployees: Option<int>)
    returns (r: Result<string, BadRequestError>)
    ensures r == SearchClause(name, minEmployees, maxEmployees)
  {
    var strName: Option<string> := None;
    var strEmployees: Option<string> := None;
    if name.Some? {
      strName := Some(NamePredicate(name.value));
    }

    if minEmployees.Some? && maxEmployees.None? {
      strEmployees := Some(AbovePredicate(minEmployees.value));
    } else if minEmployees.Some? && maxEmployees.Some? {
      if minEmployees.value > maxEmployees.value {
        return Failure(BadRequestError(InvertedRangeMessage));
      }
      strEmployees := Some(BetweenPredicate(minEmployees.value, maxEmployees.value));
    } else if maxEmployees.Some? && minEmployees.None? {
      strEmployees := Some(BelowPredicate(maxEmployees.value));
    }

    var returnStr: string;
    if strName.Some? {
      if strEmployees.Some? {
        returnStr := Where + strName.value + And + strEmployees.value;
      } else {
        returnStr := Where + strName.value;
      }
    } else if strEmployees.Some? {
      returnStr := Where + strEmployees.value;
    } else {
      returnStr := NoParametersFound;
    }
    r := Success(returnStr);
    SearchClauseAssembled(name, minEmployees, maxEmployees);
  }

  /** The clause without a name filter, case by case: a lone minimum gives
      a strict `>`, a lone maximum a strict `<`, both bounds an inclusive
      BETWEEN, and no filter at all the sentinel. */
  lemma SearchClauseWithoutName(minEmployees: Option<int>, maxEmployees: Option<int>)
    requires !InvertedRange(minEmployees, maxEmployees)
    ensures var r := SearchClause(None, minEmployees, maxEmployees);
      && (minEmployees.None? && maxEmployees.None? ==> r == Success(NoParametersFound))
      && (minEmployees.Some? && maxEmployees.None? ==>
            r == Success(Where + AbovePrefix + IntToString(minEmployees.value)))
      && (minEmployees.None? && maxEmployees.Some? ==>
            r == Success(Where + BelowPrefix + IntToString(maxEmployees.value)))
      && (minEmployees.Some? && maxEmployees.Some? ==>
            r == Success(Where + BetweenPrefix + IntToString(minEmployees.value)
                         + And + IntToString(maxEmployees.value)))
  {
    SearchClauseAssembled(None, minEmployees, maxEmployees);
    match (minEmployees, maxEmployees)
    case (Some(lo), None) =>
      assert Where + AbovePredicate(lo) == Where + AbovePrefix + IntToString(lo);
    case (None, Some(hi)) =>
      assert Where + BelowPredicate(hi) == Where + BelowPrefix + IntToString(hi);
    case (Some(lo), Some(hi)) =>
      assert Where + BetweenPredicate(lo, hi)
          == Where + BetweenPrefix + IntToString(lo) + And + IntToString(hi);
    case (None, None) =>
  }

  /** The clause with a name filter: the lower-cased name predicate comes
      first and the employee predicate, when there is one, follows after AND. */
  lemma SearchClauseWithName(name: string, minEmployees: Option<int>, maxEmployees: Option<int>)
    requires !InvertedRange(minEmployees, maxEmployees)
    ensures var r := SearchClause(Some(name), minEmployees, maxEmployees);
      && (minEmployees.None? && maxEmployees.None? ==>
            r == Success(Where + NameOpen + ToLowerCase(name) + NameClose))
      && (minEmployees.Some? || maxEmployees.Some? ==>
            r == Success(Where + NameOpen + ToLowerCase(name) + NameClose + And
                         + EmployeePredicate(minEmployees, maxEmployees).value))
  {
    SearchClauseAssembled(Some(name), minEmployees, maxEmployees);
    var l := ToLowerCase(name);
    assert Where + NamePredicate(name) == Where + NameOpen + l + NameClose;
  }
}
