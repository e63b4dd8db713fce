/**
 * The request handlers of the employee endpoints, as decisions over the
 * directory and the ledger. HTTP is not modelled: an action's response is an
 * `ActionResult` naming the status class and the body.
 *
 * Route ids are never null, so every handler passes a non-null id on.
 */
module Controller {
  import opened Common
  import opened Employees
  import opened Compensations

  /** The body of a response. */
  datatype Body =
    | NoBody
    | EmployeeBody(employee: Employee)
    | StructureBody(structure: ReportingStructure)
    | CompensationBody(compensation: Compensation)
    | Text(text: string)

  /**
   * The response of an action; `Unhandled` is an exception that escapes the
   * action, which the host turns into a server error.
   */
  datatype ActionResult =
    | Ok(body: Body)
    | Created(body: Body)
    | NotFound(body: Body)
    | BadRequest(body: Body)
    | Status500(body: Body)
    | Unhandled(exception: Exception)

  /** GET by id: the stored employee, or not found for an empty or unknown id. */
  function GetEmployeeById(employees: map<string, Employee>, id: string): (r: ActionResult)
    ensures id != "" && id in employees ==> r == Ok(EmployeeBody(employees[id]))
    ensures id == "" || id !in employees ==> r == NotFound(NoBody)
  {
    match GetById(employees, Some(id))
    case None => NotFound(NoBody)
    case Some(employee) => Ok(EmployeeBody(employee))
  }

  /**
   * GET of the reporting structure: not found for an empty or unknown id,
   * otherwise the employee with the number of employees under them.
   */
  function GetReportingStructure(employees: map<string, Employee>, id: string): (r: ActionResult)
    ensures id == "" || id !in employees ==> r == NotFound(NoBody)
    ensures id != "" && id in employees ==>
      && r.Ok? && r.body.StructureBody?
      && r.body.structure.employee == employees[id]
      && r.body.structure.numberOfReports == |Descendants(employees[id])|
  {
    match GetById(employees, Some(id))
    case None => NotFound(NoBody)
    case Some(employee) =>
      ReportCountIsDescendantCount(employee);
      Ok(StructureBody(ReportingStructure(employee, ReportCount(employee))))
  }

  /**
   * GET of a compensation: not found for an unknown employee or when there is
   * no compensation, an argument error as a bad request, any other exception
   * as a server error carrying its message, else the compensation.
   */
  function GetCompensation(employees: map<string, Employee>, comps: seq<Compensation>, id: string): (r: ActionResult)
    ensures id == "" || id !in employees ==> r == NotFound(NoBody)
    ensures r.Ok? ==>
      && id != "" && id in employees
      && r.body.CompensationBody?
      && r.body.compensation in comps && EmployeeIdOf(r.body.compensation) == Some(id)
    ensures r == NotFound(NoBody) <==>
      id == "" || id !in employees || forall c :: c in comps ==> EmployeeIdOf(c) != Some(id)
    ensures id != "" && id in employees && |Matching(comps, id)| == 1 ==>
      r == Ok(CompensationBody(Matching(comps, id)[0]))
    ensures id != "" && id in employees && |Matching(comps, id)| > 1 ==>
      r == Status500(Text(MoreThanOneMatchMessage))
    ensures r.Status500? ==> r.body == Text(MoreThanOneMatchMessage)
    ensures AtMostOnePerEmployee(comps) ==> !r.Status500?
    ensures !r.BadRequest?
  {
    match GetById(employees, Some(id))
    case None => NotFound(NoBody)
    case Some(_) =>
      match TryGetByEmployeeId(comps, Some(id))
      case Failure(ArgumentException(message)) => BadRequest(Text(message))
      case Failure(other) => Status500(Text(other.message))
      case Success(None) => NotFound(NoBody)
      case Success(Some(comp)) => Ok(CompensationBody(comp))
  }

  /** The body check of a compensation request: absent, or a zero salary. */
  predicate InvalidCompensationBody(newcomp: Option<Compensation>)
  {
    // `effectiveDate` is a value type, so its comparison with null is always false
    newcomp.None? || newcomp.value.salary == 0.0
  }

  /** The handlers, over the two services they are given. */
  class EmployeeController {
    const employeeService: EmployeeService
    const compensationService: CompensationService

    ghost predicate Valid()
      reads employeeService, compensationService
    {
      && compensationService.employeeService == employeeService
      && employeeService.Valid()
      && compensationService.Valid()
    }

    constructor (employeeService: EmployeeService, compensationService: CompensationService)
      requires compensationService.employeeService == employeeService
      requires employeeService.Valid() && compensationService.Valid()
      ensures Valid()
      ensures this.employeeService == employeeService && this.compensationService == compensationService
    {
      this.employeeService := employeeService;
      this.compensationService := compensationService;
    }

    /**
     * POST of an employee: creates it and answers with the created record.
     * A null body is dereferenced, so the request fails before anything is
     * stored.
     */
    method CreateEmployee(employee: Option<Employee>, assignedId: string) returns (result: ActionResult)
      requires Valid()
      requires assignedId !in employeeService.store
      modifies employeeService
      ensures Valid()
      ensures employee.None? ==>
        && result == Unhandled(NullReferenceException(NullReferenceMessage))
        && employeeService.store == old(employeeService.store)
      ensures employee.Some? ==>
        var created := employee.value.(employeeId := Some(assignedId));
        && result == Created(EmployeeBody(created))
        && employeeService.store == old(employeeService.store)[assignedId := created]
    {
      if employee.None? {
        result := Unhandled(NullReferenceException(NullReferenceMessage));
        return;
      }
      var created := employeeService.Create(employee, assignedId);
      result := Created(EmployeeBody(created.value));
    }

    /**
     * PUT of an employee: not found for an empty or unknown id, without
     * touching the store; otherwise the stored record is replaced (or only
     * removed, for a null body) and the replacement is returned.
     */
    method ReplaceEmployee(id: string, newEmployee: Option<Employee>) returns (result: ActionResult)
      requires Valid()
      modifies employeeService
      ensures Valid()
      ensures id == "" || id !in old(employeeService.store) ==>
        result == NotFound(NoBody) && employeeService.store == old(employeeService.store)
      ensures id != "" && id in old(employeeService.store) && newEmployee.None? ==>
        result == Ok(NoBody) && employeeService.store == old(employeeService.store) - {id}
      ensures id != "" && id in old(employeeService.store) && newEmployee.Some? ==>
        var replacement := newEmployee.value.(employeeId := Some(id));
        && result == Ok(EmployeeBody(replacement))
        && employeeService.store == old(employeeService.store)[id := replacement]
    {
      var existingEmployee := GetById(employeeService.store, Some(id));
      if existingEmployee.None? {
        result := NotFound(NoBody);
        return;
      }
      var replaced := employeeService.Replace(existingEmployee, newEmployee);
      result := Ok(if replaced.Some? then EmployeeBody(replaced.value) else NoBody);
    }

    /**
     * POST of a compensation for the employee named in the route. The body
     * is checked first, then the employee is resolved, then the resolved
     * employee replaces whatever employee the body carried and the ledger is
     * asked to store it; a ledger exception becomes a bad request carrying
     * its message.
     */
    method CreateCompensation(id: string, newcomp: Option<Compensation>) returns (result: ActionResult)
      requires Valid()
      modifies compensationService
      ensures Valid()
      ensures InvalidCompensationBody(newcomp) ==>
        result == BadRequest(NoBody) && compensationService.compensations == old(compensationService.compensations)
      ensures !InvalidCompensationBody(newcomp) && (id == "" || id !in employeeService.store) ==>
        result == NotFound(Text(id)) && compensationService.compensations == old(compensationService.compensations)
      ensures !InvalidCompensationBody(newcomp) && id != "" && id in employeeService.store ==>
        var comp := newcomp.value.(employee := Some(employeeService.store[id]));
        if Matching(old(compensationService.compensations), id) != [] then
          && result == BadRequest(Text(DuplicateMessage(id)))
          && compensationService.compensations == old(compensationService.compensations)
        else
          && result == Ok(CompensationBody(comp))
          && compensationService.compensations == old(compensationService.compensations) + [comp]
    {
      if InvalidCompensationBody(newcomp) {
        result := BadRequest(NoBody);
        return;
      }
      var employee := GetById(employeeService.store, Some(id));
      if employee.None? {
        result := NotFound(Text(id));
        return;
      }
      var comp := newcomp.value.(employee := employee);
      assert EmployeeIdOf(comp) == Some(id);
      var outcome := compensationService.TryCreate(Some(comp));
      match outcome
      case Fail(ex) =>
        result := BadRequest(Text(ex.message));
      case Pass =>
        result := Ok(CompensationBody(comp));
    }
  }
}
