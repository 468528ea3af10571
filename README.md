# EmployeeController, modelled in Dafny

This project models the REST controller of the ReliaQuest coding challenge
(`EmployeeController`). The controller fronts an upstream employee directory.
It forwards each request through a `RestTemplate` and translates the upstream
envelope (`EmployeeResponse`: a list of employees and an `HttpStatus`) into its
own `ResponseEntity`. Its endpoints are:

- list all employees;
- search by name fragment, ignoring case;
- fetch by id;
- the highest salary;
- the names of the ten highest earners;
- create an employee, after validating the input map;
- delete by id.

The model is pure. Each `RestTemplate` call is replaced by an `Upstream`
parameter holding what that call yielded: a response (outer status plus a
possibly-null envelope), an `HttpStatusCodeException` carrying a status, or
another `RestClientException`. Each handler becomes a function of its request
and that outcome. An unchecked exception that escapes a handler (a
`NumberFormatException` from `Integer.parseInt`, `get(0)` on an empty or null
list) is a `Throws` reply. Nothing in the controller updates state in place, so
there is no class.

Files:

- `wrappers.dfy`: `Option`.
- `java_text.dfy`: `String.trim`, ASCII `toLowerCase`, `contains`, and the `\d` digit class.
- `java_int.dfy`: `Integer.parseInt` on the 32-bit int range, and `Integer.toString`.
- `dtos.dfy`: `Employee`, `EmployeeResponse`, the `HttpStatus` constants used, and `ResponseEntity`.
- `salary_streams.dfy`: the two stream pipelines. One takes the maximum of the parsed salaries. The other is a stable descending sort followed by `limit(10)` and the name projection.
- `employee_controller.dfy`: the seven handlers, `validateEmployeeInput`, `isValidId`, and the properties relating them.
- `scenarios.dfy`: the fixtures of the controller's unit tests, replayed on the model.

Two behaviours of the code a caller may not expect:

- A search whose upstream call fails answers 200 with an empty list. It does not answer 404 or 500. The search reads `getAllEmployees().getBody()`, which is an empty list, not null, on every failure.
- The top-ten endpoint, given exactly one employee, returns that name without parsing its salary. Sorting a single element never calls the comparator.

A null id reaching `getEmployeeById` or `deleteEmployeeById` is modelled as `None`, although Spring's path binding never produces one.

## Model

| member | source | states |
|---|---|---|
| EmployeeController.ErrorStatus | src/main/java/com/example/rqchallenge/employees/EmployeeController.java:39-46 | the catch blocks' status: the status an HttpStatusCodeException carries, otherwise 500 |
| EmployeeController.IsOk | src/main/java/com/example/rqchallenge/employees/EmployeeController.java:33 | the success test: false for a null body; for a non-null body, true exactly when the envelope status is OK |
| EmployeeController.Delivered | src/main/java/com/example/rqchallenge/employees/EmployeeController.java:33 | a response counts as delivered exactly when a call returned (did not throw) with a non-null body whose envelope status is OK |
| EmployeeController.ReadsIgnoreOuterStatus | src/main/java/com/example/rqchallenge/employees/EmployeeController.java:33 | the read handlers (all, by id, highest salary, top ten) give the same reply for any two responses with the same envelope, whatever their outer status codes |
| EmployeeController.FirstEmployee | src/main/java/com/example/rqchallenge/employees/EmployeeController.java:82 | `getEmployees().get(0)`: a NullPointerException for a null list, an IndexOutOfBoundsException for an empty one, otherwise the first employee with the given status |
| EmployeeController.GetAllEmployees | src/main/java/com/example/rqchallenge/employees/EmployeeController.java:29-47 | the envelope's list with 200 exactly when the envelope says OK; otherwise an empty list with 500, or with the exception's status; the body is null only for an OK envelope with a null list |
| EmployeeController.FilterByName | src/main/java/com/example/rqchallenge/employees/EmployeeController.java:62-64 | the filter keeps input order (a subsequence), every kept employee matches, and each employee's multiplicity is kept exactly when it matches and is 0 otherwise |
| EmployeeController.NameMatchesIff | src/main/java/com/example/rqchallenge/employees/EmployeeController.java:63 | an employee matches exactly when the lower-cased query occurs at some index of the lower-cased name (both directions) |
| EmployeeController.FilterIgnoresQueryCase | src/main/java/com/example/rqchallenge/employees/EmployeeController.java:63 | two queries equal after lower-casing select the same employees in the same order |
| EmployeeController.FilterKeepsAllMatching | src/main/java/com/example/rqchallenge/employees/EmployeeController.java:62-64 | when every employee matches, the filter returns the list unchanged |
| EmployeeController.GetEmployeesByNameSearch | src/main/java/com/example/rqchallenge/employees/EmployeeController.java:51-67 | 400 with no body for a null or empty query; 200 with the filtered list when the upstream delivers a list; 404 with an empty list for an OK envelope with a null list; 200 with an empty list when the upstream fails |
| EmployeeController.IsValidId | src/main/java/com/example/rqchallenge/employees/EmployeeController.java:222-224 | valid exactly when the id is present, non-empty and all ASCII digits |
| EmployeeController.DigitsNeverBlank | src/main/java/com/example/rqchallenge/employees/EmployeeController.java:223 | a string of one or more digits is never blank after trim, so the blank test in isValidId never decides the outcome |
| EmployeeController.GetEmployeeById | src/main/java/com/example/rqchallenge/employees/EmployeeController.java:70-95 | 400 with no body for an invalid id whatever the upstream says; the envelope's first employee with 200 on success; 404 for a non-OK envelope; the exception's status otherwise |
| EmployeeController.Listed | src/main/java/com/example/rqchallenge/employees/EmployeeController.java:100-101 | the list the aggregate endpoints see: the envelope's list when the upstream delivers a non-null one, and empty otherwise (a null list is told apart from an empty one by the handlers' own contracts) |
| EmployeeController.GetHighestSalaryOfEmployees | src/main/java/com/example/rqchallenge/employees/EmployeeController.java:98-109 | 404 for a null or empty list; a NumberFormatException when some salary does not parse; on 200 the body is a listed salary that every listed salary is at most; no other status is possible |
| EmployeeController.GetTopTenHighestEarningEmployeeNames | src/main/java/com/example/rqchallenge/employees/EmployeeController.java:112-124 | 404 for a null or empty list; the only name for a single employee, without parsing; with two or more employees, a NumberFormatException when some salary does not parse, otherwise the names of the top earners |
| EmployeeController.HighestIsMax | src/main/java/com/example/rqchallenge/employees/EmployeeController.java:104-108 | when every listed salary parses, the highest salary is the maximum of the parsed salaries |
| EmployeeController.AggregatesFailTogether | src/main/java/com/example/rqchallenge/employees/EmployeeController.java:104-105 | with two or more employees, the top-ten endpoint throws exactly when the highest-salary endpoint throws |
| EmployeeController.TopTenLeaderEarnsHighest | src/main/java/com/example/rqchallenge/employees/EmployeeController.java:98-124 | when the list is non-empty and every salary parses (so both aggregates succeed, including for a single employee, which the sort never compares), the first top-ten name belongs to a listed employee whose salary is the highest salary |
| EmployeeController.Lookup | src/main/java/com/example/rqchallenge/employees/EmployeeController.java:189-191 | `Map.get`: a value exactly when the key is present, and then the value stored under it |
| EmployeeController.ValidateEmployeeInput | src/main/java/com/example/rqchallenge/employees/EmployeeController.java:188-220 | 200 with "Valid input" exactly when every rule holds; otherwise 400 with the message of the first failing rule, in the source's order: name, salary and age presence, salary format, salary sign, age format, age range 18 to 100 |
| EmployeeController.CreateEmployee | src/main/java/com/example/rqchallenge/employees/EmployeeController.java:129-155 | 400 with no body for unacceptable input whatever the upstream says; 201 with the envelope's first employee on success; the outer response status for a non-OK envelope; the exception's status otherwise |
| EmployeeController.StatusText | src/main/java/com/example/rqchallenge/employees/EmployeeController.java:176 | concatenating a null status gives "null"; a non-null status gives its toString, which is never "null" |
| Dtos.HttpStatus.ToString | src/main/java/com/example/rqchallenge/employees/EmployeeController.java:176 | HttpStatus.toString splits back into the status value in decimal with no leading zero, a space and the constant name ("404 NOT_FOUND") |
| EmployeeController.DeleteEmployeeById | src/main/java/com/example/rqchallenge/employees/EmployeeController.java:158-186 | 400 with "Invalid employee ID" for an invalid id; a confirmation naming the id on success; for a non-OK envelope, the outer status with "Failed to delete employee: " and the envelope status's text ("Unknown error" for a null envelope); the exception's status with no body otherwise |
| JavaText.TrimStart | src/main/java/com/example/rqchallenge/employees/EmployeeController.java:193 | the suffix after the leading chars at or below U+0020; it starts with a char that is kept |
| JavaText.TrimEnd | src/main/java/com/example/rqchallenge/employees/EmployeeController.java:193 | the prefix before the trailing chars at or below U+0020; it ends with a char that is kept |
| JavaText.Trim | src/main/java/com/example/rqchallenge/employees/EmployeeController.java:193 | the result is one contiguous slice of the input with only trimmable chars outside it; neither end of a non-empty result is trimmable; the result is empty exactly when every char is trimmable |
| JavaText.TrimSlice | src/main/java/com/example/rqchallenge/employees/EmployeeController.java:193 | dropping trimmable chars from the front and then from the back leaves one slice, bordered only by trimmable chars, empty exactly when all chars are trimmable |
| JavaText.Lower | src/main/java/com/example/rqchallenge/employees/EmployeeController.java:63 | same length, lower-cased char by char, no ASCII capital left |
| JavaText.LowerIdempotent | src/main/java/com/example/rqchallenge/employees/EmployeeController.java:63 | lower-casing twice is lower-casing once |
| JavaText.ContainsIff | src/main/java/com/example/rqchallenge/employees/EmployeeController.java:63 | `contains` holds exactly when the fragment occurs at some index |
| JavaInt.ParseInt | src/main/java/com/example/rqchallenge/employees/EmployeeController.java:202-211 | a result only for an optional sign then one or more digits whose signed value is an int, and then that value; a NumberFormatException (None) otherwise |
| JavaInt.DecimalString | src/main/java/com/example/rqchallenge/employees/EmployeeController.java:176 | a non-empty digit string with no leading zero |
| JavaInt.DecimalStringValue | src/main/java/com/example/rqchallenge/employees/EmployeeController.java:176 | the digits of n have value n |
| JavaInt.IntToString | src/main/java/com/example/rqchallenge/employees/EmployeeController.java:202 | `Integer.toString`, the inverse of the parse used here: a leading '-' exactly for a negative value (no sign at all otherwise), then digits with no leading zero whose value is the magnitude |
| JavaInt.ParseIntToString | src/main/java/com/example/rqchallenge/employees/EmployeeController.java:202 | parsing the decimal text of any int gives that int back |
| SalaryStreams.ParseSalaries | src/main/java/com/example/rqchallenge/employees/EmployeeController.java:105 | a result exactly when every salary parses; it pairs each employee, in order, with its parsed salary |
| SalaryStreams.MaxSalary | src/main/java/com/example/rqchallenge/employees/EmployeeController.java:104-107 | a salary of the list that no salary of the list exceeds |
| SalaryStreams.SortDescending | src/main/java/com/example/rqchallenge/employees/EmployeeController.java:119 | a permutation of the input in descending salary order that keeps the input order among equal salaries |
| SalaryStreams.StableDescendingUnique | src/main/java/com/example/rqchallenge/employees/EmployeeController.java:119 | two descending arrangements with the same order among equal salaries are identical, so the sort's result is fully determined |
| SalaryStreams.TopEarners | src/main/java/com/example/rqchallenge/employees/EmployeeController.java:118-120 | min(10, n) entries drawn from the input, descending, none earning less than an entry left out |
| SalaryStreams.TopEarnersStable | src/main/java/com/example/rqchallenge/employees/EmployeeController.java:119-120 | the top earners are a prefix of the stable descending arrangement, and among equal salaries they keep upstream order |
| SalaryStreams.TopHead | src/main/java/com/example/rqchallenge/employees/EmployeeController.java:118-120 | the first top earner is listed and earns at least as much as everyone |
| SalaryStreams.TopLeaderEarnsMax | src/main/java/com/example/rqchallenge/employees/EmployeeController.java:104-120 | the first top earner earns exactly the maximum salary |
| SalaryStreams.TopKeepsHigher | src/main/java/com/example/rqchallenge/employees/EmployeeController.java:118-120 | anyone earning more than a kept entry is kept |
| SalaryStreams.TopHeadUnique | src/main/java/com/example/rqchallenge/employees/EmployeeController.java:118-120 | an entry that out-earns every other entry heads the top earners |
| SalaryStreams.TopDropsUniqueLowest | src/main/java/com/example/rqchallenge/employees/EmployeeController.java:118-120 | with more than ten entries, one that earns less than every other entry is left out |
| SalaryStreams.Names | src/main/java/com/example/rqchallenge/employees/EmployeeController.java:121 | the names of the entries, position by position |
| Scenarios.NetworkErrorScenario | src/test/java/com/example/rqchallenge/RqChallengeApplicationTests.java:311-320 | a transport failure yields 500 with an empty list |
| Scenarios.SearchScenario | src/test/java/com/example/rqchallenge/RqChallengeApplicationTests.java:56-74 | searching "Test" over "Mr Test 1" and "Mr Test 2" returns both, in order, with 200 |
| Scenarios.InvalidIdScenario | src/test/java/com/example/rqchallenge/RqChallengeApplicationTests.java:185-191 | the id "invalid_id" gets 400 from fetch and delete for every upstream outcome |
| Scenarios.NotFoundScenario | src/test/java/com/example/rqchallenge/RqChallengeApplicationTests.java:322-335 | a NOT_FOUND envelope for id 999 yields 404 with no body |
| Scenarios.HighestSalaryScenario | src/test/java/com/example/rqchallenge/RqChallengeApplicationTests.java:93-110 | salaries 50000 and 60000 give 60000 |
| Scenarios.EmptyListScenario | src/test/java/com/example/rqchallenge/RqChallengeApplicationTests.java:150-163 | an empty list gives 404 with no body |
| Scenarios.TopTenScenario | src/test/java/com/example/rqchallenge/RqChallengeApplicationTests.java:112-148 | eleven employees give ten names, "Mr Test 10" first, with "Mr Test 11" left out |
| Scenarios.LoweredNameNeverContainsCapital | src/test/java/com/example/rqchallenge/RqChallengeApplicationTests.java:144-146 | no lower-cased name contains "Mr test 11", so that assertion of the test holds for every result |
| Scenarios.TopTwoScenario | src/test/java/com/example/rqchallenge/RqChallengeApplicationTests.java:165-183 | two employees give two names, the higher earner first |
| Scenarios.SingleUnparsableSalary | src/main/java/com/example/rqchallenge/employees/EmployeeController.java:104-122 | one employee with salary "n/a": top ten returns the name while highest salary throws NumberFormatException |
| Scenarios.InvalidSalaryScenario | src/test/java/com/example/rqchallenge/RqChallengeApplicationTests.java:218-229 | salary "invalid_salary" is refused with "Invalid salary format", and creation answers 400 with no body |
| Scenarios.NegativeSalaryScenario | src/test/java/com/example/rqchallenge/RqChallengeApplicationTests.java:231-242 | salary "-50000" is refused with "Salary cannot be negative", and creation answers 400 |
| Scenarios.InvalidAgeScenario | src/test/java/com/example/rqchallenge/RqChallengeApplicationTests.java:244-255 | age "invalid_age" is refused with "Invalid age format", and creation answers 400 |
| Scenarios.NegativeAgeScenario | src/test/java/com/example/rqchallenge/RqChallengeApplicationTests.java:257-268 | age "-30" is refused with the age-range message, and creation answers 400 |
| Scenarios.AgeAboveMaximumScenario | src/test/java/com/example/rqchallenge/RqChallengeApplicationTests.java:270-281 | age "150" is refused with the age-range message, and creation answers 400 |
| Scenarios.MissingNameScenarios | src/test/java/com/example/rqchallenge/RqChallengeApplicationTests.java:283-307 | an empty name and an absent name are both refused with "Employee name cannot be empty", and creation answers 400 |
| Scenarios.CreateServerErrorScenario | src/test/java/com/example/rqchallenge/RqChallengeApplicationTests.java:337-351 | valid input with a 500 exception from upstream yields 500 with no body |
| Scenarios.DeleteScenarios | src/test/java/com/example/rqchallenge/RqChallengeApplicationTests.java:356-379 | a confirmed delete of id 1 answers 200 with the confirmation; a 404 exception for id 999 answers 404 with no body |

## Left out

- The network, the base URL and the request paths: each upstream call is the `Upstream` parameter.
- Logging (`log.info`, `log.error`): no observable effect on responses.
- Spring bootstrap, request routing, the `IEmployeeController` interface and JSON binding. The request and the envelope arrive already bound.
- `EmployeeController.ValidateEmployeeInput`: the input map holds strings only. A non-String name, which makes the cast throw ClassCastException, is not modelled. A non-String salary or age, which would be parsed via `toString()`, is not modelled either. An absent key stands for a null value.
- `JavaInt.ParseInt`: accepts ASCII digits only. Other Unicode decimal digits, which `Character.digit` also accepts, are not modelled.
- `JavaText.Lower`: lower-cases ASCII letters only. Locale-specific and non-ASCII case mappings are not modelled.
- Null fields inside an `Employee`, and null elements of the employee list, are not modelled: names and salaries are always strings here. In the source a null salary reaches `Integer.parseInt(null)`, which throws NumberFormatException (EmployeeController.java:105 and :119; a one-element top-ten never compares and so never parses). A null name throws NullPointerException only in the search filter (EmployeeController.java:63); the top-ten `map(Employee::getEmployeeName)` (:121) passes it into the list as null, and the highest-salary aggregate never reads names.
- `HttpStatus` is an open pair of value and name, so `Upstream` can carry any status and the handlers pass it through, but the enum's closed set of constants is not enforced: a pair such as `HttpStatus(200, "X")` can be built. `ResponseEntity` is reduced to status and body, without headers.
- How Spring turns an escaping exception into an HTTP response is not modelled. The model stops at the `Throws` reply.
- The top-ten test file contains an unresolved merge conflict at lines 139-143. Its two sides expect "Mr Test 10" and "Mr Test 1" first. The code yields "Mr Test 10", which is what `Scenarios.TopTenScenario` proves.
- `Scenarios.Staff`, `Scenarios.SearchStaff`: the fixtures are built from numbers rendered by `Integer.toString`. They spell the same ids, names and salaries as the tests, and an empty profile image is the `image` parameter.

## Findings

| source | as written | input that shows it | evidently intended | confidence | as-written member | corrected member |
|---|---|---|---|---|---|---|
| src/test/java/com/example/rqchallenge/RqChallengeApplicationTests.java:144-146 | the top-ten test asserts that no lower-cased name contains "Mr test 11", a string with a capital M, so the assertion holds for every result | a result that does contain "Mr Test 11", for example the single name "Mr Test 11"; the assertion still passes | the returned names do not include "Mr Test 11" | not executed | Scenarios.LoweredNameNeverContainsCapital | Scenarios.TopTenScenario |
