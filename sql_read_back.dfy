/** Parsers that read the builders' outputs back, and the round trips that
    show the outputs carry exactly what the builders were given: the SET
    list of `sqlForPartialUpdate` and the WHERE clause of `searchParams`. */
module SqlReadBack {
  import opened Wrappers
  import opened JsText
  import opened Sql

  // =====================================================================
  // The SET list
  // =====================================================================

  /** The (column, placeholder number) pairs a SET list is expected to hold:
      field `i` goes to its column with placeholder `$(i+1)`. */
  function ExpectedAssignments<V>(data: seq<(string, V)>, jsToSql: map<string, string>)
    : seq<(string, nat)>
  {
    seq(|data|, i requires 0 <= i < |data| => (ColumnFor(data[i].0, jsToSql), i + 1))
  }

  /** Reads a double-quoted name at the start of `s`: the name and what
      follows the closing quote. */
  function ParseQuoted(s: string): (r: Option<(string, string)>)
    ensures r.Some? ==> |r.value.1| < |s|
  {
    if |s| == 0 || s[0] != '"' then None
    else
      match IndexOf(s[1..], '"')
      case None => None
      case Some(j) => Some((s[1..j + 1], s[j + 2..]))
  }

  /** Reads a placeholder `=$n` at the start of `s`: its numeral and what
      follows the digits. */
  function ParsePlaceholder(s: string): (r: Option<(string, string)>)
    ensures r.Some? ==> |r.value.1| < |s|
  {
    if |s| < 2 || s[..2] != "=$" then None
    else
      var digits := s[2..];
      var k := DigitRun(digits);
      if k == 0 then None else Some((digits[..k], digits[k..]))
  }

  /** Reads one fragment `"col"=$n` at the start of `s`: the pair and what
      follows it; `None` when `s` does not start with one. Only a numeral as
      `${n}` prints it is accepted, so `$01` is refused. */
  function ParseAssignment(s: string): (r: Option<((string, nat), string)>)
    ensures r.Some? ==> |r.value.1| < |s|
  {
    match ParseQuoted(s)
    case None => None
    case Some((col, rest)) =>
      match ParsePlaceholder(rest)
      case None => None
      case Some((numeral, tail)) =>
        if IsCanonicalNumeral(numeral) then Some(((col, DigitsValue(numeral)), tail)) else None
  }

  /** Reads a SET list `"c1"=$n1, "c2"=$n2, ...` back into its
      (column, placeholder number) pairs; `None` when it is not one. */
  function ParseAssignments(s: string): Option<seq<(string, nat)>>
    decreases |s|
  {
    match ParseAssignment(s)
    case None => None
    case Some((pair, tail)) =>
      if tail == [] then Some([pair])
      else if |tail| >= 2 && tail[..2] == ", " then
        match ParseAssignments(tail[2..])
        case None => None
        case Some(more) => Some([pair] + more)
      else None
  }

  predicate NoQuote(col: string) {
    '"' !in col
  }

  /** A fragment is read back as its own pair, leaving what follows it. */
  lemma ParseOneAssignment(col: string, n: nat, after: string)
    requires NoQuote(col)
    requires after == [] || !IsDigit(after[0])
    ensures ParseAssignment(Assignment(col, n) + after) == Some(((col, n), after))
  {
    var num := NatToString(n);
    var placeholder := "=$" + num + after;
    assert Assignment(col, n) + after == "\"" + col + "\"" + placeholder;
    ParseQuotedName(col, placeholder);
    ParseNumeralPlaceholder(num, after);
    NatToStringRoundTrip(n);
  }

  lemma ParseQuotedName(col: string, rest: string)
    requires NoQuote(col)
    ensures ParseQuoted("\"" + col + "\"" + rest) == Some((col, rest))
  {
    var s := "\"" + col + "\"" + rest;
    assert s[1..] == col + ("\"" + rest);
    IndexOfAfter(col, "\"" + rest, '"');
    assert s[1..|col| + 1] == col;
    assert s[|col| + 2..] == rest;
  }

  lemma ParseNumeralPlaceholder(num: string, after: string)
    requires |num| > 0 && AllDigits(num)
    requires after == [] || !IsDigit(after[0])
    ensures ParsePlaceholder("=$" + num + after) == Some((num, after))
  {
    var s := "=$" + num + after;
    var digits := num + after;
    assert s[..2] == "=$" && s[2..] == digits;
    DigitRunAppend(num, after);
    assert digits[..|num|] == num;
    assert digits[|num|..] == after;
  }

  /** A SET list built from pairs whose columns hold no double quote reads
      back as exactly those pairs. */
  lemma {:induction false} ParseJoinedAssignments(pairs: seq<(string, nat)>)
    requires |pairs| > 0
    requires forall i :: 0 <= i < |pairs| ==> NoQuote(pairs[i].0)
    ensures ParseAssignments(Join(AssignmentList(pairs), ", ")) == Some(pairs)
    decreases |pairs|
  {
    if |pairs| == 1 {
      ParseSingleAssignment(pairs);
    } else {
      ParseJoinedAssignments(pairs[1..]);
      ParseFirstAssignment(pairs);
    }
  }

  lemma ParseSingleAssignment(pairs: seq<(string, nat)>)
    requires |pairs| == 1 && NoQuote(pairs[0].0)
    ensures ParseAssignments(Join(AssignmentList(pairs), ", ")) == Some(pairs)
  {
    var first := Assignment(pairs[0].0, pairs[0].1);
    ParseOneAssignment(pairs[0].0, pairs[0].1, []);
    assert first + [] == first;
    assert AssignmentList(pairs) == [first];
    assert pairs == [pairs[0]];
  }

  lemma ParseFirstAssignment(pairs: seq<(string, nat)>)
    requires |pairs| > 1 && NoQuote(pairs[0].0)
    requires ParseAssignments(Join(AssignmentList(pairs[1..]), ", ")) == Some(pairs[1..])
    ensures ParseAssignments(Join(AssignmentList(pairs), ", ")) == Some(pairs)
  {
    JoinAssignmentsCons(pairs);
    ParseAssignmentThenList(pairs[0], Join(AssignmentList(pairs[1..]), ", "), pairs[1..]);
    assert [pairs[0]] + pairs[1..] == pairs;
  }

  lemma JoinAssignmentsCons(pairs: seq<(string, nat)>)
    requires |pairs| > 1
    ensures Join(AssignmentList(pairs), ", ")
      == Assignment(pairs[0].0, pairs[0].1) + (", " + Join(AssignmentList(pairs[1..]), ", "))
  {
    assert AssignmentList(pairs)[1..] == AssignmentList(pairs[1..]);
  }

  lemma ParseAssignmentThenList(pair: (string, nat), tail: string, more: seq<(string, nat)>)
    requires NoQuote(pair.0)
    requires ParseAssignments(tail) == Some(more)
    ensures ParseAssignments(Assignment(pair.0, pair.1) + (", " + tail)) == Some([pair] + more)
  {
    ParseOneAssignment(pair.0, pair.1, ", " + tail);
    assert (", " + tail)[..2] == ", " && (", " + tail)[2..] == tail;
  }

  function AssignmentList(pairs: seq<(string, nat)>): seq<string> {
    seq(|pairs|, i requires 0 <= i < |pairs| => Assignment(pairs[i].0, pairs[i].1))
  }

  /** A quoted name is read only from the text `"name"` followed by the rest. */
  lemma ParsedQuotedForm(s: string)
    requires ParseQuoted(s).Some?
    ensures NoQuote(ParseQuoted(s).value.0)
    ensures s == "\"" + ParseQuoted(s).value.0 + "\"" + ParseQuoted(s).value.1
  {
    var j := IndexOf(s[1..], '"').value;
    assert s[1..][..j] == s[1..j + 1];
    assert s == [s[0]] + s[1..j + 1] + [s[j + 1]] + s[j + 2..];
  }

  /** A placeholder is read only from the text `=$` numeral rest. */
  lemma ParsedPlaceholderForm(s: string)
    requires ParsePlaceholder(s).Some?
    ensures s == "=$" + ParsePlaceholder(s).value.0 + ParsePlaceholder(s).value.1
  {
    var digits := s[2..];
    var k := DigitRun(digits);
    assert digits == digits[..k] + digits[k..];
    assert s == s[..2] + digits;
  }

  /** Every fragment the reader accepts is the rendering of the pair it
      reads: the reader and Assignment are inverse both ways. */
  lemma ParsedAssignmentForm(s: string)
    requires ParseAssignment(s).Some?
    ensures NoQuote(ParseAssignment(s).value.0.0)
    ensures s == Assignment(ParseAssignment(s).value.0.0, ParseAssignment(s).value.0.1)
                 + ParseAssignment(s).value.1
  {
    var (col, rest) := ParseQuoted(s).value;
    ParsedQuotedForm(s);
    var (num, tail) := ParsePlaceholder(rest).value;
    ParsedPlaceholderForm(rest);
    CanonicalNumeralRoundTrip(num);
    AssignmentText(col, num, tail);
  }

  lemma AssignmentText(col: string, num: string, tail: string)
    ensures "\"" + col + "\"" + ("=$" + num + tail) == "\"" + col + "\"=$" + num + tail
  {
  }

  /** Every SET list the reader accepts is the one the builder renders from
      the pairs it reads, with no double quote in any column. */
  lemma {:induction false} ParsedAssignmentsForm(s: string)
    requires ParseAssignments(s).Some?
    ensures forall i :: 0 <= i < |ParseAssignments(s).value| ==> NoQuote(ParseAssignments(s).value[i].0)
    ensures s == Join(AssignmentList(ParseAssignments(s).value), ", ")
    decreases |s|
  {
    var (pair, tail) := ParseAssignment(s).value;
    ParsedAssignmentForm(s);
    if tail == [] {
      assert AssignmentList([pair]) == [Assignment(pair.0, pair.1)];
    } else {
      var more := ParseAssignments(tail[2..]).value;
      ParsedAssignmentsForm(tail[2..]);
      JoinAssignmentsCons([pair] + more);
      assert ([pair] + more)[1..] == more;
      assert tail == ", " + tail[2..];
    }
  }

  /** `setCols` holds exactly one `"column"=$i` fragment per field, in field
      order, numbered 1..N, each naming the field's column; together with
      the postcondition of SqlForPartialUpdate, placeholder `$i` is bound to
      the `i`-th value. Stated for columns without a double quote, since a
      quote inside a column name makes the list ambiguous. */
  lemma ParsePartialUpdate<V>(data: seq<(string, V)>, jsToSql: map<string, string>)
    requires |data| > 0
    requires forall i :: 0 <= i < |data| ==> NoQuote(ColumnFor(data[i].0, jsToSql))
    ensures SqlForPartialUpdate(data, jsToSql).Success?
    ensures ParseAssignments(SqlForPartialUpdate(data, jsToSql).value.setCols)
      == Some(ExpectedAssignments(data, jsToSql))
  {
    var pairs := ExpectedAssignments(data, jsToSql);
    assert Fragments(Keys(data), jsToSql) == AssignmentList(pairs);
    ParseJoinedAssignments(pairs);
  }

  /** The column each assignment of `setCols` names: `jsToSql[field]` when
      the field is mapped to a non-empty name, and the field name itself
      when it is unmapped or mapped to `""`; assignment `i` always uses
      placeholder `$i+1`. */
  lemma SetColsColumns<V>(data: seq<(string, V)>, jsToSql: map<string, string>, i: int)
    requires |data| > 0
    requires forall k :: 0 <= k < |data| ==> NoQuote(ColumnFor(data[k].0, jsToSql))
    requires 0 <= i < |data|
    ensures SqlForPartialUpdate(data, jsToSql).Success?
    ensures ParseAssignments(SqlForPartialUpdate(data, jsToSql).value.setCols).Some?
    ensures var assignments := ParseAssignments(SqlForPartialUpdate(data, jsToSql).value.setCols).value;
      && |assignments| == |data|
      && (data[i].0 in jsToSql && jsToSql[data[i].0] != "" ==> assignments[i] == (jsToSql[data[i].0], i + 1))
      && (data[i].0 !in jsToSql || jsToSql[data[i].0] == "" ==> assignments[i] == (data[i].0, i + 1))
  {
    ParsePartialUpdate(data, jsToSql);
    ExpectedAssignmentAt(data, jsToSql, i);
  }

  lemma ExpectedAssignmentAt<V>(data: seq<(string, V)>, jsToSql: map<string, string>, i: int)
    requires 0 <= i < |data|
    ensures |ExpectedAssignments(data, jsToSql)| == |data|
    ensures ExpectedAssignments(data, jsToSql)[i] == (ColumnFor(data[i].0, jsToSql), i + 1)
  {
  }

  // =====================================================================
  // The WHERE clause
  // =====================================================================

  /** The filters a clause was built from, with the name as it appears in
      the clause (lower-cased). */
  datatype Filters = Filters(name: Option<string>, minEmployees: Option<int>, maxEmployees: Option<int>)

  /** Reads an employee predicate back into the bounds it was built from. */
  function ParseEmployeePredicate(e: string): Option<(Option<int>, Option<int>)> {
    if AbovePrefix <= e then
      match ParseInt(e[|AbovePrefix|..])
      case Some(lo) => Some((Some(lo), None))
      case None => None
    else if BelowPrefix <= e then
      match ParseInt(e[|BelowPrefix|..])
      case Some(hi) => Some((None, Some(hi)))
      case None => None
    else if BetweenPrefix <= e then
      ParseBounds(e[|BetweenPrefix|..])
    else None
  }

  /** Reads `lo AND hi`. */
  function ParseBounds(t: string): Option<(Option<int>, Option<int>)> {
    match IndexOf(t, ' ')
    case None => None
    case Some(j) =>
      if And <= t[j..] then
        match (ParseInt(t[..j]), ParseInt(t[j + |And|..]))
        case (Some(lo), Some(hi)) => Some((Some(lo), Some(hi)))
        case _ => None
      else None
  }

  /** Reads a clause back into the filters it was built from; `None` for a
      string no filters produce. */
  function ParseClause(s: string): Option<Filters> {
    if s == NoParametersFound then Some(Filters(None, None, None))
    else if Where <= s then
      var body := s[|Where|..];
      if NameOpen <= body then ParseNameClause(body[|NameOpen|..])
      else
        match ParseEmployeePredicate(body)
        case Some((lo, hi)) => Some(Filters(None, lo, hi))
        case None => None
    else None
  }

  /** Reads what follows `name LIKE '%`: the name ends at the closing `%'`
      that ends the clause or, when an employee predicate follows, at the
      last `%' AND `, since an employee predicate holds no `%`. */
  function ParseNameClause(rest: string): Option<Filters> {
    if |rest| >= |NameClose| && rest[|rest| - |NameClose|..] == NameClose then
      Some(Filters(Some(rest[..|rest| - |NameClose|]), None, None))
    else
      match LastIndexOf(rest, NameClose + And)
      case None => None
      case Some(i) =>
        match ParseEmployeePredicate(rest[i + |NameClose + And|..])
        case Some((lo, hi)) => Some(Filters(Some(rest[..i]), lo, hi))
        case None => None
  }

  lemma ParseAbove(lo: int)
    ensures ParseEmployeePredicate(AbovePredicate(lo)) == Some((Some(lo), None))
  {
    IntToStringRoundTrip(lo);
    assert AbovePredicate(lo)[|AbovePrefix|..] == IntToString(lo);
  }

  lemma ParseBelow(hi: int)
    ensures ParseEmployeePredicate(BelowPredicate(hi)) == Some((None, Some(hi)))
  {
    var e := BelowPredicate(hi);
    assert e[13] != AbovePrefix[13];
    IntToStringRoundTrip(hi);
    assert e[|BelowPrefix|..] == IntToString(hi);
  }

  lemma ParseBetween(lo: int, hi: int)
    ensures ParseEmployeePredicate(BetweenPredicate(lo, hi)) == Some((Some(lo), Some(hi)))
  {
    BetweenPredicateParts(lo, hi);
    ParseBoundsRoundTrip(lo, hi);
  }

  lemma BetweenPredicateParts(lo: int, hi: int)
    ensures var e := BetweenPredicate(lo, hi);
      !(AbovePrefix <= e) && !(BelowPrefix <= e) && BetweenPrefix <= e
      && e[|BetweenPrefix|..] == IntToString(lo) + And + IntToString(hi)
  {
    var e := BetweenPredicate(lo, hi);
    assert e[13] != AbovePrefix[13] && e[13] != BelowPrefix[13];
  }

  lemma ParseBoundsRoundTrip(lo: int, hi: int)
    ensures ParseBounds(IntToString(lo) + And + IntToString(hi)) == Some((Some(lo), Some(hi)))
  {
    BoundsParts(IntToString(lo), IntToString(hi));
    IntToStringRoundTrip(lo);
    IntToStringRoundTrip(hi);
  }

  lemma BoundsParts(a: string, b: string)
    requires ' ' !in a
    ensures var t := a + And + b;
      IndexOf(t, ' ') == Some(|a|) && t[..|a|] == a && And <= t[|a|..] && t[|a| + |And|..] == b
  {
    var t := a + And + b;
    assert t == a + (And + b);
    IndexOfAfter(a, And + b, ' ');
  }

  /** Every employee predicate reads back as the bounds it was built from. */
  lemma ParseEmployeeRoundTrip(minEmployees: Option<int>, maxEmployees: Option<int>)
    requires EmployeePredicate(minEmployees, maxEmployees).Some?
    ensures ParseEmployeePredicate(EmployeePredicate(minEmployees, maxEmployees).value)
      == Some((minEmployees, maxEmployees))
  {
    match (minEmployees, maxEmployees)
    case (Some(lo), None) => ParseAbove(lo);
    case (None, Some(hi)) => ParseBelow(hi);
    case (Some(lo), Some(hi)) => ParseBetween(lo, hi);
  }

  /** An employee predicate holds no `%`, starts like no name predicate and
      ends with a digit. */
  lemma EmployeePredicateForm(minEmployees: Option<int>, maxEmployees: Option<int>)
    requires EmployeePredicate(minEmployees, maxEmployees).Some?
    ensures var e := EmployeePredicate(minEmployees, maxEmployees).value;
      '%' !in e && !(NameOpen <= e) && |e| > 0 && IsDigit(e[|e| - 1])
  {
    var e := EmployeePredicate(minEmployees, maxEmployees).value;
    assert e[1] != NameOpen[1];
    match (minEmployees, maxEmployees)
    case (Some(lo), None) => NoPercentAfter(AbovePrefix, lo);
    case (None, Some(hi)) => NoPercentAfter(BelowPrefix, hi);
    case (Some(lo), Some(hi)) =>
      NoPercentAfter(BetweenPrefix, lo);
      NoPercentAfter(And, hi);
  }

  lemma NoPercentAfter(prefix: string, i: int)
    requires prefix == AbovePrefix || prefix == BelowPrefix || prefix == BetweenPrefix || prefix == And
    ensures '%' !in prefix + IntToString(i)
  {
    var s := prefix + IntToString(i);
    forall k | 0 <= k < |s| ensures s[k] != '%' {
      if k >= |prefix| {
        assert s[k] == IntToString(i)[k - |prefix|];
      }
    }
  }

  /** After `WHERE name LIKE '%` the clause is read by ParseNameClause. */
  lemma ParseClauseNamed(x: string)
    ensures ParseClause(Where + NameOpen + x) == ParseNameClause(x)
  {
    var s := Where + NameOpen + x;
    assert s[0] != NoParametersFound[0];
    assert s[|Where|..] == NameOpen + x;
    assert (NameOpen + x)[|NameOpen|..] == x;
  }

  /** `WHERE name LIKE '%l%'` reads back as the name filter alone. */
  lemma ParseNameOnly(l: string)
    ensures ParseClause(Where + LikePredicate(l)) == Some(Filters(Some(l), None, None))
  {
    var rest := l + NameClose;
    assert Where + LikePredicate(l) == Where + NameOpen + rest;
    ParseClauseNamed(rest);
    assert rest[|rest| - |NameClose|..] == NameClose && rest[..|rest| - |NameClose|] == l;
  }

  /** `WHERE name LIKE '%l%' AND e` reads back as both filters. */
  lemma ParseNameAndEmployees(l: string, minEmployees: Option<int>, maxEmployees: Option<int>)
    requires EmployeePredicate(minEmployees, maxEmployees).Some?
    ensures ParseClause(Where + LikePredicate(l) + And + EmployeePredicate(minEmployees, maxEmployees).value)
      == Some(Filters(Some(l), minEmployees, maxEmployees))
  {
    var rest := l + (NameClose + And) + EmployeePredicate(minEmployees, maxEmployees).value;
    assert Where + LikePredicate(l) + And + EmployeePredicate(minEmployees, maxEmployees).value
      == Where + NameOpen + rest;
    ParseClauseNamed(rest);
    ParseNameThenEmployees(l, minEmployees, maxEmployees);
  }

  lemma ParseNameThenEmployees(l: string, minEmployees: Option<int>, maxEmployees: Option<int>)
    requires EmployeePredicate(minEmployees, maxEmployees).Some?
    ensures ParseNameClause(l + (NameClose + And) + EmployeePredicate(minEmployees, maxEmployees).value)
      == Some(Filters(Some(l), minEmployees, maxEmployees))
  {
    EmployeePredicateForm(minEmployees, maxEmployees);
    ParseEmployeeRoundTrip(minEmployees, maxEmployees);
    ParseNameClauseWithEmployees(l, EmployeePredicate(minEmployees, maxEmployees).value);
  }

  lemma ParseNameClauseWithEmployees(l: string, e: string)
    requires '%' !in e && |e| > 0 && IsDigit(e[|e| - 1])
    ensures ParseNameClause(l + (NameClose + And) + e) ==
      match ParseEmployeePredicate(e)
      case Some((lo, hi)) => Some(Filters(Some(l), lo, hi))
      case None => None
  {
    var rest := l + (NameClose + And) + e;
    assert rest[|rest| - 1] == e[|e| - 1];
    LastIndexOfAppend(l, NameClose + And, e);
    assert rest[..|l|] == l;
    assert rest[|l| + |NameClose + And|..] == e;
  }

  /** `WHERE e` reads back as the employee filter alone. */
  lemma ParseEmployeesOnly(minEmployees: Option<int>, maxEmployees: Option<int>)
    requires EmployeePredicate(minEmployees, maxEmployees).Some?
    ensures ParseClause(Where + EmployeePredicate(minEmployees, maxEmployees).value)
      == Some(Filters(None, minEmployees, maxEmployees))
  {
    var e := EmployeePredicate(minEmployees, maxEmployees).value;
    var s := Where + e;
    assert s[0] != NoParametersFound[0];
    assert s[|Where|..] == e;
    EmployeePredicateForm(minEmployees, maxEmployees);
    ParseEmployeeRoundTrip(minEmployees, maxEmployees);
  }

  /** The name as it appears in the clause. */
  function LowerName(name: Option<string>): Option<string> {
    match name
    case Some(n) => Some(ToLowerCase(n))
    case None => None
  }

  /** Every clause `searchParams` returns reads back as the filters it was
      given, the name lower-cased: the clause text determines the filters it
      was built from, whatever characters the name holds. This is about the
      text; the name is not escaped, so a quote in it changes what SQL reads. */
  lemma ParseSearchClause(name: Option<string>, minEmployees: Option<int>, maxEmployees: Option<int>)
    requires !InvertedRange(minEmployees, maxEmployees)
    ensures SearchClause(name, minEmployees, maxEmployees).Success?
    ensures ParseClause(SearchClause(name, minEmployees, maxEmployees).value)
      == Some(Filters(LowerName(name), minEmployees, maxEmployees))
  {
    SearchClauseAssembled(name, minEmployees, maxEmployees);
    var employeePredicate := EmployeePredicate(minEmployees, maxEmployees);
    match (name, employeePredicate)
    case (Some(n), Some(e)) => ParseNameAndEmployees(ToLowerCase(n), minEmployees, maxEmployees);
    case (Some(n), None) => ParseNameOnly(ToLowerCase(n));
    case (None, Some(e)) => ParseEmployeesOnly(minEmployees, maxEmployees);
    case (None, None) =>
  }

  /** Two calls return the same clause only when they were given the same
      bounds and names equal up to case. */
  lemma SearchClauseInjective(
    name1: Option<string>, min1: Option<int>, max1: Option<int>,
    name2: Option<string>, min2: Option<int>, max2: Option<int>)
    requires SearchClause(name1, min1, max1).Success?
    requires SearchClause(name1, min1, max1) == SearchClause(name2, min2, max2)
    ensures LowerName(name1) == LowerName(name2) && min1 == min2 && max1 == max2
  {
    ParseSearchClause(name1, min1, max1);
    ParseSearchClause(name2, min2, max2);
  }

  /** The name filter ignores case, and only case: with the same valid
      bounds, two names give the same clause exactly when they agree once
      lower-cased. */
  lemma NameFilterIgnoresCase(x: string, y: string, minEmployees: Option<int>, maxEmployees: Option<int>)
    requires !InvertedRange(minEmployees, maxEmployees)
    ensures SearchClause(Some(x), minEmployees, maxEmployees) == SearchClause(Some(y), minEmployees, maxEmployees)
      <==> ToLowerCase(x) == ToLowerCase(y)
  {
    if SearchClause(Some(x), minEmployees, maxEmployees) == SearchClause(Some(y), minEmployees, maxEmployees) {
      SearchClauseInjective(Some(x), minEmployees, maxEmployees, Some(y), minEmployees, maxEmployees);
    }
  }
}
