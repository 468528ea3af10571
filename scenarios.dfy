/**
 * The fixtures of the controller's unit tests, replayed on the model. Every
 * employee carries the same profile image, left as a parameter.
 */
module Scenarios {
  import opened Wrappers
  import opened JavaText
  import opened JavaInt
  import opened Dtos
  import opened SalaryStreams
  import opened EmployeeController

  /** The upstream answers 200 with an envelope whose status is OK and whose list is es. */
  function Envelope(es: seq<Employee>): Upstream {
    Received(OK, Some(EmployeeResponse(Some(es), Some(OK))))
  }

  /** A decimal literal parses to the int it spells. */
  lemma ParsesAs(s: string, v: int)
    requires InIntRange(v) && IntToString(v) == s
    ensures ParseInt(s) == Some(v)
  {
    ParseIntToString(v);
  }

  /** The salary texts the fixtures use parse to the salaries they spell. */
  lemma FixtureSalaries()
    ensures ParseInt("50000") == Some(50000)
    ensures ParseInt("60000") == Some(60000)
    ensures ParseInt("-50000") == Some(-50000)
  {
    ParsesAs("50000", 50000);
    ParsesAs("60000", 60000);
    ParsesAs("-50000", -50000);
  }

  /** The age texts the fixtures use parse to the ages they spell. */
  lemma FixtureAges()
    ensures ParseInt("30") == Some(30)
    ensures ParseInt("-30") == Some(-30)
    ensures ParseInt("150") == Some(150)
  {
    ParsesAs("30", 30);
    ParsesAs("-30", -30);
    ParsesAs("150", 150);
  }

  lemma ListedEnvelope(es: seq<Employee>)
    ensures Listed(Envelope(es)) == es
  {
    assert GetAllEmployees(Envelope(es)).body == Some(es);
  }

  // ---------------------------------------------------------------- reads

  /** A failing transport yields 500 with an empty list. */
  lemma NetworkErrorScenario()
    ensures GetAllEmployees(Thrown(TransportError)) == ResponseEntity(INTERNAL_SERVER_ERROR, Some([]))
  {
  }

  /** A name starting "Mr Test " matches the query "Test". */
  lemma MatchesTest(e: Employee, tail: string)
    requires e.employeeName == "Mr Test " + tail
    ensures NameMatches(e, "Test")
  {
    var name := Lower(e.employeeName);
    var query := Lower("Test");
    assert query == "test" by {
      assert forall i :: 0 <= i < 4 ==> query[i] == LowerChar("Test"[i]);
    }
    forall i | 0 <= i < 4 ensures name[3 + i] == query[i] {
      assert e.employeeName[3 + i] == "Mr Test "[3 + i];
    }
    assert OccursAt(name, query, 3);
    NameMatchesIff(e, "Test");
  }

  /** A search in which every listed employee matches returns the whole list. */
  lemma SearchKeepsAll(query: string, es: seq<Employee>)
    requires query != "" && forall i :: 0 <= i < |es| ==> NameMatches(es[i], query)
    ensures GetEmployeesByNameSearch(Some(query), Envelope(es)) == ResponseEntity(OK, Some(es))
  {
    FilterKeepsAllMatching(es, query);
  }

  /** Two employees, "Mr Test 1" and "Mr Test 2". */
  function SearchStaff(image: string): seq<Employee> {
    seq(2, i requires 0 <= i < 2 =>
      Employee(IntToString(i + 1), "Mr Test " + IntToString(i + 1), IntToString(50000 + 10000 * i), "3" + IntToString(5 * i), image))
  }

  lemma SearchStaffMatches(image: string)
    ensures forall i :: 0 <= i < |SearchStaff(image)| ==> NameMatches(SearchStaff(image)[i], "Test")
  {
    var es := SearchStaff(image);
    forall i | 0 <= i < |es| ensures NameMatches(es[i], "Test") {
      MatchesTest(es[i], IntToString(i + 1));
    }
  }

  /** Searching "Test" among "Mr Test 1" and "Mr Test 2" keeps both. */
  lemma SearchScenario(image: string)
    ensures GetEmployeesByNameSearch(Some("Test"), Envelope(SearchStaff(image))) == ResponseEntity(OK, Some(SearchStaff(image)))
  {
    SearchStaffMatches(image);
    SearchKeepsAll("Test", SearchStaff(image));
  }

  /** An id that is not all digits is refused with 400, before the upstream is asked. */
  lemma InvalidIdScenario(up: Upstream)
    ensures GetEmployeeById(Some("invalid_id"), up) == Returns(ResponseEntity(BAD_REQUEST, None))
    ensures DeleteEmployeeById(Some("invalid_id"), up) == ResponseEntity(BAD_REQUEST, Some("Invalid employee ID"))
  {
    assert !IsDigit("invalid_id"[0]);
  }

  /** A non-OK envelope for a valid id yields 404 with no body. */
  lemma NotFoundScenario()
    ensures GetEmployeeById(Some("999"), Received(NOT_FOUND, Some(EmployeeResponse(Some([]), Some(NOT_FOUND)))))
      == Returns(ResponseEntity(NOT_FOUND, None))
  {
    assert IsValidId(Some("999"));
  }

  // ---------------------------------------------------------------- aggregates

  /** The highest of 50000 and 60000 is 60000. */
  lemma HighestSalaryScenario(image: string)
    ensures var es := [Employee("1", "Mr Wealthy", "50000", "30", image), Employee("2", "Mrs Wealthier", "60000", "35", image)];
      GetHighestSalaryOfEmployees(Envelope(es)) == Returns(ResponseEntity(OK, Some(60000)))
  {
    var es := [Employee("1", "Mr Wealthy", "50000", "30", image), Employee("2", "Mrs Wealthier", "60000", "35", image)];
    FixtureSalaries();
    ListedEnvelope(es);
    HighestIsMax(Envelope(es));
    var rs := ParseSalaries(es).value;
  }

  /** An empty list yields 404 with no body. */
  lemma EmptyListScenario()
    ensures GetHighestSalaryOfEmployees(Envelope([])) == Returns(ResponseEntity(NOT_FOUND, None))
  {
    ListedEnvelope([]);
  }

  function StaffSalaries(): seq<int> {
    [50000, 50001, 55002, 55003, 55004, 55005, 55006, 55007, 55008, 55009, 5500]
  }

  /**
   * Eleven employees: "Mr Test 1" to "Mr Test 11" with id 1 to 11, each
   * earning the matching entry of StaffSalaries, so the tenth earns most and
   * the eleventh least.
   */
  function Staff(image: string): seq<Employee> {
    seq(11, i requires 0 <= i < 11 =>
      Employee(IntToString(i + 1), "Mr Test " + IntToString(i + 1), IntToString(StaffSalaries()[i]),
               if i == 0 then "30" else if i == 1 then "35" else "40", image))
  }

  lemma StaffParsed(image: string)
    ensures ParseSalaries(Staff(image)).Some?
    ensures forall i :: 0 <= i < 11 ==> ParseSalaries(Staff(image)).value[i] == Ranked(Staff(image)[i], StaffSalaries()[i])
  {
    forall i | 0 <= i < 11 ensures ParseInt(Staff(image)[i].employeeSalary) == Some(StaffSalaries()[i]) {
      ParseIntToString(StaffSalaries()[i]);
    }
  }

  lemma StaffSalariesShape()
    ensures forall j :: 0 <= j < 11 && j != 9 ==> StaffSalaries()[j] < StaffSalaries()[9]
    ensures forall j :: 0 <= j < 11 && j != 10 ==> StaffSalaries()[j] > StaffSalaries()[10]
  {
  }

  /** Distinct numbers give distinct staff names, since parsing recovers the number. */
  lemma StaffNamesDistinct(image: string)
    ensures forall j :: 0 <= j < 10 ==> Staff(image)[j].employeeName != Staff(image)[10].employeeName
  {
    forall j | 0 <= j < 10 ensures Staff(image)[j].employeeName != Staff(image)[10].employeeName {
      var prefix := "Mr Test ";
      var a := IntToString(j + 1);
      var b := IntToString(11);
      ParseIntToString(j + 1);
      ParseIntToString(11);
      assert a != b;
      assert a == (prefix + a)[|prefix|..];
      assert b == (prefix + b)[|prefix|..];
    }
  }

  /** Ranked with the staff's salaries: the tenth entry leads and the eleventh is dropped. */
  lemma StaffTop(rs: seq<Ranked>)
    requires |rs| == 11
    requires forall j :: 0 <= j < 11 ==> rs[j].salary == StaffSalaries()[j]
    ensures TopEarners(rs)[0] == rs[9]
    ensures rs[10] !in TopEarners(rs)
  {
    var top := TopEarners(rs);
    StaffSalariesShape();
    assert forall j :: 0 <= j < |rs| && j != 9 ==> rs[j].salary < rs[9].salary;
    assert forall j :: 0 <= j < |rs| && j != 10 ==> rs[j].salary > rs[10].salary;
    TopHeadUnique(top, rs, 9);
    TopDropsUniqueLowest(top, rs, 10);
  }

  /** The same on names, provided the eleventh name differs from the others. */
  lemma StaffTopNames(rs: seq<Ranked>)
    requires |rs| == 11
    requires forall j :: 0 <= j < 11 ==> rs[j].salary == StaffSalaries()[j]
    requires forall j :: 0 <= j < 10 ==> rs[j].employee.employeeName != rs[10].employee.employeeName
    ensures |Names(TopEarners(rs))| == 10
    ensures Names(TopEarners(rs))[0] == rs[9].employee.employeeName
    ensures rs[10].employee.employeeName !in Names(TopEarners(rs))
  {
    StaffTop(rs);
    var top := TopEarners(rs);
    var names := Names(top);
    forall i | 0 <= i < |names| ensures names[i] != rs[10].employee.employeeName {
      assert top[i] in multiset(rs);
      var j :| 0 <= j < |rs| && rs[j] == top[i];
      assert j != 10;
    }
  }

  lemma TopTenOfEnvelope(es: seq<Employee>)
    requires |es| >= 2 && ParseSalaries(es).Some?
    ensures GetTopTenHighestEarningEmployeeNames(Envelope(es))
      == Returns(ResponseEntity(OK, Some(Names(TopEarners(ParseSalaries(es).value)))))
  {
    ListedEnvelope(es);
  }

  lemma StaffLastNames(image: string)
    ensures Staff(image)[9].employeeName == "Mr Test 10"
    ensures Staff(image)[10].employeeName == "Mr Test 11"
  {
  }

  /** Ten names come back, "Mr Test 10" first, and "Mr Test 11" is not among them. */
  lemma TopTenScenario(image: string)
    ensures var r := GetTopTenHighestEarningEmployeeNames(Envelope(Staff(image)));
      && r.Returns? && r.response.status == OK && r.response.body.Some?
      && |r.response.body.value| == 10
      && r.response.body.value[0] == "Mr Test 10"
      && "Mr Test 11" !in r.response.body.value
  {
    var es := Staff(image);
    StaffParsed(image);
    StaffNamesDistinct(image);
    TopTenOfEnvelope(es);
    var rs := ParseSalaries(es).value;
    StaffTopNames(rs);
    StaffLastNames(image);
  }

  /**
   * The top-ten test also checks that no returned name, lower-cased,
   * contains "Mr test 11". A lower-cased name has no 'M', so that check holds
   * for every list of names and cannot fail.
   */
  lemma LoweredNameNeverContainsCapital(name: string)
    ensures !Contains(Lower(name), "Mr test 11")
  {
    var lowered := Lower(name);
    forall k ensures !OccursAt(lowered, "Mr test 11", k) {
      if 0 <= k && k + 10 <= |lowered| {
        assert !('A' <= lowered[k] <= 'Z');
        assert lowered[k + 0] != "Mr test 11"[0];
      }
    }
    ContainsIff(lowered, "Mr test 11");
  }

  /** Two employees: both names come back, the higher earner first. */
  lemma TopTwoScenario(image: string)
    ensures var es := [Employee("1", "Mr Test 1", "50000", "30", image), Employee("2", "Mr Test 2", "60000", "35", image)];
      var r := GetTopTenHighestEarningEmployeeNames(Envelope(es));
      && r.Returns? && r.response.status == OK && r.response.body.Some?
      && |r.response.body.value| == 2
      && r.response.body.value[0] == "Mr Test 2"
  {
    var es := [Employee("1", "Mr Test 1", "50000", "30", image), Employee("2", "Mr Test 2", "60000", "35", image)];
    FixtureSalaries();
    TopTenOfEnvelope(es);
    var rs := ParseSalaries(es).value;
    TopHeadUnique(TopEarners(rs), rs, 1);
  }

  /**
   * One employee whose salary is not a number: the top-ten endpoint returns
   * the name, since sorting a single element compares nothing, while the
   * highest-salary endpoint fails to parse it.
   */
  lemma SingleUnparsableSalary(image: string)
    ensures var es := [Employee("1", "Mr Test", "n/a", "30", image)];
      && GetTopTenHighestEarningEmployeeNames(Envelope(es)) == Returns(ResponseEntity(OK, Some(["Mr Test"])))
      && GetHighestSalaryOfEmployees(Envelope(es)) == Throws(NumberFormatException)
  {
    var es := [Employee("1", "Mr Test", "n/a", "30", image)];
    ListedEnvelope(es);
    assert !IsDigit("n/a"[0]);
  }

  // ---------------------------------------------------------------- writes

  // The creation inputs the tests reject: 400 from validation, with the
  // reason given, and 400 with no body from createEmployee.

  lemma InvalidSalaryScenario(up: Upstream)
    ensures var input := map["name" := "Mr Invalid", "salary" := "invalid_salary", "age" := "30"];
      && ValidateEmployeeInput(input) == ResponseEntity(BAD_REQUEST, Some("Invalid salary format"))
      && CreateEmployee(input, up) == Returns(ResponseEntity(BAD_REQUEST, None))
  {
    var input := map["name" := "Mr Invalid", "salary" := "invalid_salary", "age" := "30"];
    assert !IsTrimmable(input["name"][0]);
    assert !IsDigit("invalid_salary"[0]);
  }

  lemma NegativeSalaryScenario(up: Upstream)
    ensures var input := map["name" := "Mr Negative", "salary" := "-50000", "age" := "30"];
      && ValidateEmployeeInput(input) == ResponseEntity(BAD_REQUEST, Some("Salary cannot be negative"))
      && CreateEmployee(input, up) == Returns(ResponseEntity(BAD_REQUEST, None))
  {
    var input := map["name" := "Mr Negative", "salary" := "-50000", "age" := "30"];
    assert !IsTrimmable(input["name"][0]);
    FixtureSalaries();
  }

  lemma InvalidAgeScenario(up: Upstream)
    ensures var input := map["name" := "Mr Timeless", "salary" := "50000", "age" := "invalid_age"];
      && ValidateEmployeeInput(input) == ResponseEntity(BAD_REQUEST, Some("Invalid age format"))
      && CreateEmployee(input, up) == Returns(ResponseEntity(BAD_REQUEST, None))
  {
    var input := map["name" := "Mr Timeless", "salary" := "50000", "age" := "invalid_age"];
    assert !IsTrimmable(input["name"][0]);
    FixtureSalaries();
    assert !IsDigit("invalid_age"[0]);
  }

  lemma NegativeAgeScenario(up: Upstream)
    ensures var input := map["name" := "Mr How", "salary" := "50000", "age" := "-30"];
      && ValidateEmployeeInput(input) == ResponseEntity(BAD_REQUEST, Some("Age must be between 18 and 100"))
      && CreateEmployee(input, up) == Returns(ResponseEntity(BAD_REQUEST, None))
  {
    var input := map["name" := "Mr How", "salary" := "50000", "age" := "-30"];
    assert !IsTrimmable(input["name"][0]);
    FixtureSalaries();
    FixtureAges();
  }

  lemma AgeAboveMaximumScenario(up: Upstream)
    ensures var input := map["name" := "Mr CleanLife", "salary" := "50000", "age" := "150"];
      && ValidateEmployeeInput(input) == ResponseEntity(BAD_REQUEST, Some("Age must be between 18 and 100"))
      && CreateEmployee(input, up) == Returns(ResponseEntity(BAD_REQUEST, None))
  {
    var input := map["name" := "Mr CleanLife", "salary" := "50000", "age" := "150"];
    assert !IsTrimmable(input["name"][0]);
    FixtureSalaries();
    FixtureAges();
  }

  /** An empty name and a null name (an absent key reads as null) are both refused. */
  lemma MissingNameScenarios(up: Upstream)
    ensures var input := map["name" := "", "salary" := "50000", "age" := "30"];
      && ValidateEmployeeInput(input) == ResponseEntity(BAD_REQUEST, Some("Employee name cannot be empty"))
      && CreateEmployee(input, up) == Returns(ResponseEntity(BAD_REQUEST, None))
    ensures var input := map["salary" := "50000", "age" := "30"];
      && ValidateEmployeeInput(input) == ResponseEntity(BAD_REQUEST, Some("Employee name cannot be empty"))
      && CreateEmployee(input, up) == Returns(ResponseEntity(BAD_REQUEST, None))
  {
    assert "name" !in map["salary" := "50000", "age" := "30"];
  }

  /** Valid input with a 500 from upstream yields 500 with no body. */
  lemma CreateServerErrorScenario()
    ensures var input := map["name" := "Mr Test", "salary" := "50000", "age" := "30"];
      CreateEmployee(input, Thrown(StatusError(INTERNAL_SERVER_ERROR))) == Returns(ResponseEntity(INTERNAL_SERVER_ERROR, None))
  {
    FixtureSalaries();
    FixtureAges();
    assert !IsTrimmable("Mr Test"[0]);
  }

  /** A confirmed delete names the id; a 404 from upstream is passed on with no body. */
  lemma DeleteScenarios()
    ensures DeleteEmployeeById(Some("1"), Received(OK, Some(EmployeeResponse(None, Some(OK)))))
      == ResponseEntity(OK, Some("Successfully deleted employee with id: 1"))
    ensures DeleteEmployeeById(Some("999"), Thrown(StatusError(NOT_FOUND))) == ResponseEntity(NOT_FOUND, None)
  {
    assert IsValidId(Some("1"));
    assert IsValidId(Some("999"));
    assert "Successfully deleted employee with id: " + "1" == "Successfully deleted employee with id: 1";
  }
}
