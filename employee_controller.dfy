/**
 * The request handlers of EmployeeController. Each RestTemplate call is
 * replaced by an Upstream parameter holding what that call yielded, so every
 * handler is a function of its request and that one outcome.
 */
module EmployeeController {
  import opened Wrappers
  import opened JavaText
  import opened JavaInt
  import opened Dtos
  import opened SalaryStreams

  /** A RestClientException: an HttpStatusCodeException carries a status, any other does not. */
  datatype UpstreamError = StatusError(status: HttpStatus) | TransportError

  /** What one RestTemplate call yields: a response with its outer status and parsed envelope, or an exception. */
  datatype Upstream =
    | Received(statusCode: HttpStatus, body: Option<EmployeeResponse>)
    | Thrown(error: UpstreamError)

  /** The unchecked exceptions a handler lets escape. */
  datatype Unchecked = NumberFormatException | IndexOutOfBoundsException | NullPointerException

  /** A handler either returns a response or lets an unchecked exception escape. */
  datatype Reply<+T> = Returns(response: ResponseEntity<T>) | Throws(exception: Unchecked)

  /** The catch block every handler repeats: the carried status, or 500 when there is none. */
  function ErrorStatus(e: UpstreamError): (status: HttpStatus)
    ensures e.StatusError? ==> status == e.status
    ensures e.TransportError? ==> status == INTERNAL_SERVER_ERROR
  {
    match e
    case StatusError(s) => s
    case TransportError => INTERNAL_SERVER_ERROR
  }

  /**
   * The success test every handler repeats: a non-null body whose envelope
   * status is OK. The null check comes first, so a null body is never asked
   * for its status.
   */
  predicate IsOk(body: Option<EmployeeResponse>): (ok: bool)
    ensures body.None? ==> !ok
    ensures body.Some? ==> (ok <==> body.value.status.Some? && body.value.status.value == OK)
  {
    body.Some? && body.value.status == Some(OK)
  }

  /**
   * The upstream call succeeded: a response arrived and its envelope says OK.
   * The outer status code of the response plays no part (ReadsIgnoreOuterStatus).
   */
  predicate Delivered(up: Upstream): (d: bool)
    ensures d <==> up.Received? && up.body.Some? && up.body.value.status == Some(OK)
  {
    up.Received? && IsOk(up.body)
  }

  /** getEmployees().get(0) on the envelope's list. */
  function FirstEmployee(employees: Option<seq<Employee>>, status: HttpStatus): (r: Reply<Employee>)
    ensures employees.None? ==> r == Throws(NullPointerException)
    ensures employees == Some([]) ==> r == Throws(IndexOutOfBoundsException)
    ensures employees.Some? && employees.value != [] ==>
      r == Returns(ResponseEntity(status, Some(employees.value[0])))
  {
    match employees
    case None => Throws(NullPointerException)
    case Some(es) => if es == [] then Throws(IndexOutOfBoundsException) else Returns(ResponseEntity(status, Some(es[0])))
  }

  // ---------------------------------------------------------------- GET /employees

  /**
   * getAllEmployees: the envelope's list on success; on any failure an empty
   * list with 500, or with the status an HttpStatusCodeException carries.
   */
  function GetAllEmployees(up: Upstream): (r: ResponseEntity<seq<Employee>>)
    ensures Delivered(up) ==> r == ResponseEntity(OK, up.body.value.employees)
    ensures !Delivered(up) ==> r.body == Some([])
    ensures up.Received? && !Delivered(up) ==> r.status == INTERNAL_SERVER_ERROR
    ensures up.Thrown? ==> r.status == ErrorStatus(up.error)
    ensures r.body.None? ==> Delivered(up) && up.body.value.employees.None?
  {
    match up
    case Received(_, body) =>
      if IsOk(body) then ResponseEntity(OK, body.value.employees)
      else ResponseEntity(INTERNAL_SERVER_ERROR, Some([]))
    case Thrown(e) => ResponseEntity(ErrorStatus(e), Some([]))
  }

  // ---------------------------------------------------------------- GET /employees/search/{name}

  /** The filter predicate: the lower-cased name contains the lower-cased query. */
  predicate NameMatches(e: Employee, query: string) {
    Contains(Lower(e.employeeName), Lower(query))
  }

  /** a can be obtained from b by deleting entries. */
  ghost predicate IsSubsequence(a: seq<Employee>, b: seq<Employee>)
    decreases |b|
  {
    a == [] || (b != [] && ((a[0] == b[0] && IsSubsequence(a[1..], b[1..])) || IsSubsequence(a, b[1..])))
  }

  /** stream().filter(NameMatches).collect(toList()). */
  function FilterByName(es: seq<Employee>, query: string): (r: seq<Employee>)
    ensures IsSubsequence(r, es)
    ensures forall i :: 0 <= i < |r| ==> NameMatches(r[i], query)
    ensures forall e :: multiset(r)[e] == if NameMatches(e, query) then multiset(es)[e] else 0
  {
    if es == [] then []
    else
      var rest := FilterByName(es[1..], query);
      assert es == [es[0]] + es[1..];
      if NameMatches(es[0], query) then
        var r := [es[0]] + rest;
        assert r[1..] == rest;
        r
      else
        rest
  }

  /** Matching ignores case in the query: queries equal after lower-casing select the same employees. */
  lemma {:induction false} FilterIgnoresQueryCase(es: seq<Employee>, q1: string, q2: string)
    requires Lower(q1) == Lower(q2)
    ensures FilterByName(es, q1) == FilterByName(es, q2)
  {
    if es != [] {
      FilterIgnoresQueryCase(es[1..], q1, q2);
    }
  }

  /** When every employee matches, the filter keeps the whole list in its order. */
  lemma {:induction false} FilterKeepsAllMatching(es: seq<Employee>, query: string)
    requires forall i :: 0 <= i < |es| ==> NameMatches(es[i], query)
    ensures FilterByName(es, query) == es
  {
    if es != [] {
      FilterKeepsAllMatching(es[1..], query);
    }
  }

  /** An employee matches exactly when the lower-cased query occurs at some index of the lower-cased name. */
  lemma NameMatchesIff(e: Employee, query: string)
    ensures NameMatches(e, query) ==> exists k :: OccursAt(Lower(e.employeeName), Lower(query), k)
    ensures (exists k :: OccursAt(Lower(e.employeeName), Lower(query), k)) ==> NameMatches(e, query)
  {
    ContainsIff(Lower(e.employeeName), Lower(query));
  }

  /**
   * getEmployeesByNameSearch: 400 for a null or empty query; otherwise the
   * matching employees of getAllEmployees' list, or 404 when that list is null.
   */
  function GetEmployeesByNameSearch(searchString: Option<string>, up: Upstream): (r: ResponseEntity<seq<Employee>>)
    ensures searchString.None? || searchString == Some("") ==> r == ResponseEntity(BAD_REQUEST, None)
    ensures searchString.Some? && searchString.value != "" && Delivered(up) && up.body.value.employees.Some? ==>
      r == ResponseEntity(OK, Some(FilterByName(up.body.value.employees.value, searchString.value)))
    ensures searchString.Some? && searchString.value != "" && Delivered(up) && up.body.value.employees.None? ==>
      r == ResponseEntity(NOT_FOUND, Some([]))
    ensures searchString.Some? && searchString.value != "" && !Delivered(up) ==> r == ResponseEntity(OK, Some([]))
  {
    match searchString
    case None => ResponseEntity(BAD_REQUEST, None)
    case Some(q) =>
      if q == [] then ResponseEntity(BAD_REQUEST, None)
      else
        var all := GetAllEmployees(up).body;
        match all
        case None => ResponseEntity(NOT_FOUND, Some([]))
        case Some(es) => ResponseEntity(OK, Some(FilterByName(es, q)))
  }

  // ---------------------------------------------------------------- identifiers

  /** id.matches("\\d+"): one or more ASCII digits. */
  predicate MatchesDigits(s: string) {
    |s| >= 1 && AllDigits(s)
  }

  /** isValidId: not null, not blank after trim, and all digits. */
  function IsValidId(id: Option<string>): (b: bool)
    ensures b <==> id.Some? && id.value != [] && AllDigits(id.value)
  {
    id.Some? && Trim(id.value) != [] && MatchesDigits(id.value)
  }

  /** The blank test of isValidId adds nothing: a digit string is never blank. */
  lemma DigitsNeverBlank(s: string)
    requires MatchesDigits(s)
    ensures Trim(s) != []
  {
    assert !IsTrimmable(s[0]);
  }

  // ---------------------------------------------------------------- GET /employees/{id}

  /**
   * getEmployeeById: 400 for an invalid id without calling upstream; the
   * envelope's first employee on success; 404 for a non-OK envelope.
   */
  function GetEmployeeById(id: Option<string>, up: Upstream): (r: Reply<Employee>)
    ensures !IsValidId(id) ==> r == Returns(ResponseEntity(BAD_REQUEST, None))
    ensures IsValidId(id) && Delivered(up) ==> r == FirstEmployee(up.body.value.employees, OK)
    ensures IsValidId(id) && up.Received? && !Delivered(up) ==> r == Returns(ResponseEntity(NOT_FOUND, None))
    ensures IsValidId(id) && up.Thrown? ==> r == Returns(ResponseEntity(ErrorStatus(up.error), None))
  {
    if id.None? || id.value == [] then Returns(ResponseEntity(BAD_REQUEST, None))
    else if !IsValidId(id) then Returns(ResponseEntity(BAD_REQUEST, None))
    else
      match up
      case Received(_, body) =>
        if IsOk(body) then FirstEmployee(body.value.employees, OK)
        else Returns(ResponseEntity(NOT_FOUND, None))
      case Thrown(e) => Returns(ResponseEntity(ErrorStatus(e), None))
  }

  // ---------------------------------------------------------------- GET /employees/highest-salary

  /** The employees getAllEmployees hands to the aggregate endpoints; [] when its body is null. */
  function Listed(up: Upstream): (es: seq<Employee>)
    ensures !Delivered(up) ==> es == []
    ensures Delivered(up) ==> es == (if up.body.value.employees.Some? then up.body.value.employees.value else [])
  {
    var body := GetAllEmployees(up).body;
    if body.None? then [] else body.value
  }

  /**
   * getHighestSalaryOfEmployees: 404 for a null or empty list; otherwise the
   * largest parsed salary, or a NumberFormatException when a salary is not an int.
   */
  function GetHighestSalaryOfEmployees(up: Upstream): (r: Reply<int>)
    ensures Listed(up) == [] ==> r == Returns(ResponseEntity(NOT_FOUND, None))
    ensures Listed(up) != [] && (exists i :: 0 <= i < |Listed(up)| && ParseInt(Listed(up)[i].employeeSalary).None?) ==>
      r == Throws(NumberFormatException)
    ensures r.Returns? && r.response.status == OK ==>
      var es := Listed(up);
      && r.response.body.Some?
      && (forall i :: 0 <= i < |es| ==> ParseInt(es[i].employeeSalary) .Some? && ParseInt(es[i].employeeSalary).value <= r.response.body.value)
      && (exists i :: 0 <= i < |es| && ParseInt(es[i].employeeSalary) == r.response.body)
    ensures r.Throws? || r.response.status == OK || r.response.status == NOT_FOUND
  {
    var all := GetAllEmployees(up).body;
    if all.None? || all.value == [] then Returns(ResponseEntity(NOT_FOUND, None))
    else
      match ParseSalaries(all.value)
      case None => Throws(NumberFormatException)
      case Some(rs) => Returns(ResponseEntity(OK, Some(MaxSalary(rs))))
  }

  // ---------------------------------------------------------------- GET /employees/top10-salaries

  /**
   * getTopTenHighestEarningEmployeeNames: 404 for a null or empty list;
   * otherwise the names of the first ten of the stable descending sort. The
   * comparator parses salaries, and a sort of a single element never calls it,
   * so only a list of two or more can raise a NumberFormatException.
   */
  function GetTopTenHighestEarningEmployeeNames(up: Upstream): (r: Reply<seq<string>>)
    ensures Listed(up) == [] ==> r == Returns(ResponseEntity(NOT_FOUND, None))
    ensures |Listed(up)| == 1 ==> r == Returns(ResponseEntity(OK, Some([Listed(up)[0].employeeName])))
    ensures |Listed(up)| >= 2 && ParseSalaries(Listed(up)).None? ==> r == Throws(NumberFormatException)
    ensures |Listed(up)| >= 2 && ParseSalaries(Listed(up)).Some? ==>
      r == Returns(ResponseEntity(OK, Some(Names(TopEarners(ParseSalaries(Listed(up)).value)))))
  {
    var all := GetAllEmployees(up).body;
    if all.None? || all.value == [] then Returns(ResponseEntity(NOT_FOUND, None))
    else if |all.value| == 1 then Returns(ResponseEntity(OK, Some([all.value[0].employeeName])))
    else
      match ParseSalaries(all.value)
      case None => Throws(NumberFormatException)
      case Some(rs) => Returns(ResponseEntity(OK, Some(Names(TopEarners(rs)))))
  }

  /** When every listed salary parses, the highest salary is their maximum. */
  lemma HighestIsMax(up: Upstream)
    requires Listed(up) != [] && ParseSalaries(Listed(up)).Some?
    ensures GetHighestSalaryOfEmployees(up) == Returns(ResponseEntity(OK, Some(MaxSalary(ParseSalaries(Listed(up)).value))))
  {
  }

  /**
   * With two or more employees the two aggregate endpoints fail together: a
   * salary that does not parse breaks both the max and the sort.
   */
  lemma AggregatesFailTogether(up: Upstream)
    requires |Listed(up)| >= 2
    ensures GetTopTenHighestEarningEmployeeNames(up).Throws? <==> GetHighestSalaryOfEmployees(up).Throws?
  {
  }

  /**
   * When both aggregate endpoints succeed, the first name of the top ten
   * belongs to an employee whose salary is the highest salary.
   */
  lemma TopTenLeaderEarnsHighest(up: Upstream)
    requires Listed(up) != [] && ParseSalaries(Listed(up)).Some?
    ensures var names := GetTopTenHighestEarningEmployeeNames(up);
      var highest := GetHighestSalaryOfEmployees(up);
      && names.Returns? && names.response.body.Some? && names.response.body.value != []
      && highest.Returns? && highest.response.status == OK
      && exists i :: 0 <= i < |Listed(up)|
           && Listed(up)[i].employeeName == names.response.body.value[0]
           && ParseInt(Listed(up)[i].employeeSalary) == highest.response.body
  {
    var es := Listed(up);
    var rs := ParseSalaries(es).value;
    HighestIsMax(up);
    if |es| >= 2 {
      var top := TopEarners(rs);
      TopLeaderEarnsMax(top, rs);
      var j :| 0 <= j < |rs| && rs[j] == top[0];
    }
  }

  /**
   * The read handlers never look at the outer status code of the response:
   * only the envelope decides, so two responses with the same envelope give
   * the same reply.
   */
  lemma ReadsIgnoreOuterStatus(s1: HttpStatus, s2: HttpStatus, body: Option<EmployeeResponse>, id: Option<string>)
    ensures GetAllEmployees(Received(s1, body)) == GetAllEmployees(Received(s2, body))
    ensures GetEmployeeById(id, Received(s1, body)) == GetEmployeeById(id, Received(s2, body))
    ensures GetHighestSalaryOfEmployees(Received(s1, body)) == GetHighestSalaryOfEmployees(Received(s2, body))
    ensures GetTopTenHighestEarningEmployeeNames(Received(s1, body)) == GetTopTenHighestEarningEmployeeNames(Received(s2, body))
  {
  }

  // ---------------------------------------------------------------- POST /employees

  /** Map.get: the value under key, or null when the key is absent. */
  function Lookup(input: map<string, string>, key: string): (r: Option<string>)
    ensures r.Some? <==> key in input
    ensures r.Some? ==> r.value == input[key]
  {
    if key in input then Some(input[key]) else None
  }

  /** Some char of s survives trim: s is not blank. */
  predicate NonBlank(s: string) {
    exists i :: 0 <= i < |s| && !IsTrimmable(s[i])
  }

  /** The creation input the controller accepts, rule by rule. */
  predicate AcceptableInput(input: map<string, string>) {
    && "name" in input && NonBlank(input["name"])
    && "salary" in input && "age" in input
    && ParseInt(input["salary"]).Some? && ParseInt(input["salary"]).value >= 0
    && ParseInt(input["age"]).Some? && 18 <= ParseInt(input["age"]).value <= 100
  }

  /**
   * validateEmployeeInput: 200 with "Valid input" exactly when every rule
   * holds; otherwise 400 with the message of the first rule that fails.
   */
  function ValidateEmployeeInput(input: map<string, string>): (r: ResponseEntity<string>)
    ensures r.status == OK <==> AcceptableInput(input)
    ensures r.status == OK ==> r.body == Some("Valid input")
    ensures r.status != OK ==> r.status == BAD_REQUEST && r.body.Some?
    ensures !("name" in input && NonBlank(input["name"])) ==>
      r.body == Some("Employee name cannot be empty")
    ensures "name" in input && NonBlank(input["name"]) && ("salary" !in input || "age" !in input) ==>
      r.body == Some("Salary and age must be provided")
    ensures "name" in input && NonBlank(input["name"]) && "salary" in input && "age" in input ==>
      && (ParseInt(input["salary"]).None? ==> r.body == Some("Invalid salary format"))
      && (ParseInt(input["salary"]).Some? && ParseInt(input["salary"]).value < 0 ==>
            r.body == Some("Salary cannot be negative"))
      && (ParseInt(input["salary"]).Some? && ParseInt(input["salary"]).value >= 0 ==>
            && (ParseInt(input["age"]).None? ==> r.body == Some("Invalid age format"))
            && (ParseInt(input["age"]).Some? && !(18 <= ParseInt(input["age"]).value <= 100) ==>
                  r.body == Some("Age must be between 18 and 100")))
  {
    var name := Lookup(input, "name");
    var salary := Lookup(input, "salary");
    var age := Lookup(input, "age");
    if name.None? || Trim(name.value) == [] then
      ResponseEntity(BAD_REQUEST, Some("Employee name cannot be empty"))
    else if salary.None? || age.None? then
      ResponseEntity(BAD_REQUEST, Some("Salary and age must be provided"))
    else
      match ParseInt(salary.value)
      case None => ResponseEntity(BAD_REQUEST, Some("Invalid salary format"))
      case Some(salaryValue) =>
        if salaryValue < 0 then ResponseEntity(BAD_REQUEST, Some("Salary cannot be negative"))
        else
          match ParseInt(age.value)
          case None => ResponseEntity(BAD_REQUEST, Some("Invalid age format"))
          case Some(ageValue) =>
            if ageValue < 18 || ageValue > 100 then ResponseEntity(BAD_REQUEST, Some("Age must be between 18 and 100"))
            else ResponseEntity(OK, Some("Valid input"))
  }

  /**
   * createEmployee: 400 with no body for invalid input, without calling
   * upstream; 201 with the envelope's first employee on success; otherwise
   * the outer response status, or the status the exception carries.
   */
  function CreateEmployee(input: map<string, string>, up: Upstream): (r: Reply<Employee>)
    ensures !AcceptableInput(input) ==> r == Returns(ResponseEntity(BAD_REQUEST, None))
    ensures AcceptableInput(input) && Delivered(up) ==> r == FirstEmployee(up.body.value.employees, CREATED)
    ensures AcceptableInput(input) && up.Received? && !Delivered(up) ==>
      r == Returns(ResponseEntity(up.statusCode, None))
    ensures AcceptableInput(input) && up.Thrown? ==> r == Returns(ResponseEntity(ErrorStatus(up.error), None))
  {
    var validationResult := ValidateEmployeeInput(input);
    if validationResult.status != OK then Returns(ResponseEntity(BAD_REQUEST, None))
    else
      match up
      case Received(statusCode, body) =>
        if IsOk(body) then FirstEmployee(body.value.employees, CREATED)
        else Returns(ResponseEntity(statusCode, None))
      case Thrown(e) => Returns(ResponseEntity(ErrorStatus(e), None))
  }

  // ---------------------------------------------------------------- DELETE /employees/{id}

  /**
   * String concatenation of a possibly-null HttpStatus: "null" for null,
   * otherwise its toString, which starts with a digit and so is never "null".
   */
  function StatusText(status: Option<HttpStatus>): (text: string)
    ensures text == "null" <==> status.None?
    ensures status.Some? ==> text == status.value.ToString()
  {
    match status
    case None => "null"
    case Some(s) => s.ToString()
  }

  /**
   * deleteEmployeeById: 400 with "Invalid employee ID" for an invalid id,
   * without calling upstream; a confirmation naming the id on success; the
   * outer status with the envelope's status on a non-OK envelope.
   */
  function DeleteEmployeeById(id: Option<string>, up: Upstream): (r: ResponseEntity<string>)
    ensures !IsValidId(id) ==> r == ResponseEntity(BAD_REQUEST, Some("Invalid employee ID"))
    ensures IsValidId(id) && Delivered(up) ==>
      r == ResponseEntity(OK, Some("Successfully deleted employee with id: " + id.value))
    ensures IsValidId(id) && up.Received? && !Delivered(up) ==>
      && r.status == up.statusCode
      && r.body == Some("Failed to delete employee: " +
                        if up.body.Some? then StatusText(up.body.value.status) else "Unknown error")
    ensures IsValidId(id) && up.Thrown? ==> r == ResponseEntity(ErrorStatus(up.error), None)
  {
    if !IsValidId(id) then ResponseEntity(BAD_REQUEST, Some("Invalid employee ID"))
    else
      match up
      case Received(statusCode, body) =>
        if IsOk(body) then ResponseEntity(OK, Some("Successfully deleted employee with id: " + id.value))
        else
          ResponseEntity(statusCode, Some("Failed to delete employee: " +
            if body.Some? then StatusText(body.value.status) else "Unknown error"))
      case Thrown(e) => ResponseEntity(ErrorStatus(e), None)
  }
}
