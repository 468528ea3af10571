/**
 * The data holders the controller exchanges with the upstream directory and
 * with its own clients: Employee, the upstream envelope EmployeeResponse, the
 * HttpStatus enum constants it uses, and a ResponseEntity reduced to a status
 * and an optional body.
 */
module Dtos {
  import opened Wrappers
  import JavaInt
  import opened JavaText

  /** Every field travels as text; salary and age are parsed on demand. */
  datatype Employee = Employee(
    id: string,
    employeeName: string,
    employeeSalary: string,
    employeeAge: string,
    profileImage: string)

  /** An HttpStatus enum constant: its numeric value and its constant name. */
  datatype HttpStatus = HttpStatus(value: nat, name: string) {
    /**
     * HttpStatus.toString: the value in decimal, a space, and the constant
     * name ("404 NOT_FOUND"). The text splits back into the value and the name.
     */
    function ToString(): (text: string)
      ensures |text| >= |name| + 2 && IsDigit(text[0])
      ensures var digits := text[..|text| - |name| - 1];
        && AllDigits(digits) && JavaInt.DigitsValue(digits) == value
        && (|digits| > 1 ==> digits[0] != '0')
        && text[|digits|] == ' '
        && text[|digits| + 1..] == name
    {
      var digits := JavaInt.DecimalString(value);
      JavaInt.DecimalStringValue(value);
      var text := digits + " " + name;
      assert text[..|text| - |name| - 1] == digits;
      assert text[|digits| + 1..] == name;
      text
    }
  }

  const OK := HttpStatus(200, "OK")
  const CREATED := HttpStatus(201, "CREATED")
  const BAD_REQUEST := HttpStatus(400, "BAD_REQUEST")
  const NOT_FOUND := HttpStatus(404, "NOT_FOUND")
  const INTERNAL_SERVER_ERROR := HttpStatus(500, "INTERNAL_SERVER_ERROR")

  /** The upstream envelope; either field may be null after JSON binding. */
  datatype EmployeeResponse = EmployeeResponse(employees: Option<seq<Employee>>, status: Option<HttpStatus>)

  /** What a handler returns: a status and a body that may be absent. */
  datatype ResponseEntity<+T> = ResponseEntity(status: HttpStatus, body: Option<T>)
}
