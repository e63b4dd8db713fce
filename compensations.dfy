/**
 * The compensation ledger: at most one compensation per employee id,
 * checked by the service before every insert.
 *
 * The compensation repository is abstracted as the sequence of stored
 * compensations, in insertion order.
 */
module Compensations {
  import opened Common
  import opened Employees

  /** A point in time; the ledger only stores and returns it. */
  datatype DateTime = DateTime(ticks: int)

  /**
   * A compensation. `employee` is a nullable reference to the full employee
   * record; `effectiveDate` is a value type and is never null.
   */
  datatype Compensation = Compensation(
    compensationId: int,
    employee: Option<Employee>,
    salary: real,
    effectiveDate: DateTime)

  const InvalidValuesMessage: string := "Values must exist and be valid."
  const NoIdMessage: string := "No id provided"
  const MoreThanOneMatchMessage: string := "Sequence contains more than one matching element"

  /** The message of the conflict raised for a second compensation. */
  function DuplicateMessage(id: string): (r: string)
  {
    "Compensation for employee id " + id + " already exists."
  }

  /** The employee id a compensation is filed under; null when it has no employee. */
  function EmployeeIdOf(c: Compensation): (r: Option<string>)
  {
    if c.employee.Some? then c.employee.value.employeeId else None
  }

  /** The invariant of the ledger: no two stored compensations share an employee id. */
  ghost predicate AtMostOnePerEmployee(comps: seq<Compensation>)
  {
    forall i, j :: 0 <= i < j < |comps| && EmployeeIdOf(comps[i]).Some? ==>
      EmployeeIdOf(comps[i]) != EmployeeIdOf(comps[j])
  }

  /** The stored compensations filed under employee id `id`, in store order. */
  function Matching(comps: seq<Compensation>, id: string): (r: seq<Compensation>)
    ensures |r| <= |comps|
    ensures forall c :: c in r ==> c in comps && EmployeeIdOf(c) == Some(id)
    ensures forall c :: c in comps && EmployeeIdOf(c) == Some(id) ==> c in r
  {
    if comps == [] then []
    else
      var last := comps[|comps| - 1];
      assert comps == comps[..|comps| - 1] + [last];
      Matching(comps[..|comps| - 1], id) + (if EmployeeIdOf(last) == Some(id) then [last] else [])
  }

  /**
   * The repository's lookup by employee id: the single match, null when
   * there is none, and an `InvalidOperationException` when there are several.
   */
  function GetByEmployeeId(comps: seq<Compensation>, id: string): (r: Result<Option<Compensation>, Exception>)
    ensures r.Success? && r.value.Some? ==> r.value.value in comps && EmployeeIdOf(r.value.value) == Some(id)
    ensures r.Success? && r.value.Some? ==> Matching(comps, id) == [r.value.value]
    ensures r.Success? && r.value.None? ==> forall c :: c in comps ==> EmployeeIdOf(c) != Some(id)
    ensures |Matching(comps, id)| > 1 ==> r.Failure?
    ensures r.Failure? ==>
      && r.error == InvalidOperationException(MoreThanOneMatchMessage)
      && exists i, j :: 0 <= i < j < |comps| && EmployeeIdOf(comps[i]) == EmployeeIdOf(comps[j]) == Some(id)
  {
    var matches := Matching(comps, id);
    if |matches| == 0 then Success(None)
    else if |matches| == 1 then Success(Some(matches[0]))
    else
      MoreThanOneMatchHasTwoIndices(comps, id);
      Failure(InvalidOperationException(MoreThanOneMatchMessage))
  }

  lemma {:induction false} MoreThanOneMatchHasTwoIndices(comps: seq<Compensation>, id: string)
    requires |Matching(comps, id)| > 1
    ensures exists i, j :: 0 <= i < j < |comps| && EmployeeIdOf(comps[i]) == EmployeeIdOf(comps[j]) == Some(id)
  {
    var n := |comps| - 1;
    var prefix := comps[..n];
    if EmployeeIdOf(comps[n]) == Some(id) {
      var c := Matching(prefix, id)[0];
      assert c in Matching(prefix, id);
      var i :| 0 <= i < n && prefix[i] == c;
      assert EmployeeIdOf(comps[i]) == EmployeeIdOf(comps[n]) == Some(id);
    } else {
      MoreThanOneMatchHasTwoIndices(prefix, id);
      var i, j :| 0 <= i < j < |prefix| && EmployeeIdOf(prefix[i]) == EmployeeIdOf(prefix[j]) == Some(id);
      assert comps[i] == prefix[i] && comps[j] == prefix[j];
    }
  }

  /** Under the ledger's invariant an employee id matches at most one compensation. */
  lemma {:induction false} AtMostOneMatch(comps: seq<Compensation>, id: string)
    requires AtMostOnePerEmployee(comps)
    ensures |Matching(comps, id)| <= 1
  {
    if |Matching(comps, id)| > 1 {
      MoreThanOneMatchHasTwoIndices(comps, id);
    }
  }

  /**
   * The service's read: a null id is an argument error; any other id is
   * looked up without changing the store.
   */
  function TryGetByEmployeeId(comps: seq<Compensation>, id: Option<string>): (r: Result<Option<Compensation>, Exception>)
    ensures id.None? ==> r == Failure(ArgumentException(NoIdMessage))
    ensures r.Success? && r.value.Some? ==> r.value.value in comps && EmployeeIdOf(r.value.value) == id
    ensures r.Success? && r.value.None? ==> id.Some? && forall c :: c in comps ==> EmployeeIdOf(c) != id
    ensures r.Success? && r.value.Some? ==> Matching(comps, id.value) == [r.value.value]
    ensures r.Failure? && id.Some? ==>
      r.error == InvalidOperationException(MoreThanOneMatchMessage) && |Matching(comps, id.value)| > 1
    ensures id.Some? && |Matching(comps, id.value)| > 1 ==> r.Failure?
    ensures id.Some? && AtMostOnePerEmployee(comps) ==> r.Success?
  {
    if id.None? then Failure(ArgumentException(NoIdMessage))
    else GetByEmployeeId(comps, id.value)
  }

  /**
   * Appending a compensation for an employee id that has none keeps the
   * invariant; afterwards the read by that id returns the new compensation
   * and every other id reads as before.
   */
  lemma {:induction false} AppendKeepsAtMostOne(comps: seq<Compensation>, c: Compensation)
    requires AtMostOnePerEmployee(comps)
    requires EmployeeIdOf(c).Some? && Matching(comps, EmployeeIdOf(c).value) == []
    ensures AtMostOnePerEmployee(comps + [c])
    ensures TryGetByEmployeeId(comps + [c], EmployeeIdOf(c)) == Success(Some(c))
    ensures forall other :: other != EmployeeIdOf(c).value ==>
      TryGetByEmployeeId(comps + [c], Some(other)) == TryGetByEmployeeId(comps, Some(other))
  {
  }

  /**
   * The compensation service. `employeeService` is the directory used to
   * check that a compensation's employee exists.
   */
  class CompensationService {
    const employeeService: EmployeeService
    var compensations: seq<Compensation>

    ghost predicate Valid()
      reads this
    {
      AtMostOnePerEmployee(compensations)
    }

    constructor (employeeService: EmployeeService, initial: seq<Compensation>)
      requires AtMostOnePerEmployee(initial)
      ensures Valid() && this.employeeService == employeeService && compensations == initial
    {
      this.employeeService := employeeService;
      compensations := initial;
    }

    /**
     * Whether `comp` passes the first check: it, its employee and that
     * employee's id are non-null and the id resolves in the directory.
     */
    ghost predicate Resolves(comp: Option<Compensation>)
      reads employeeService
    {
      && comp.Some?
      && comp.value.employee.Some?
      && comp.value.employee.value.employeeId.Some?
      && GetById(employeeService.store, comp.value.employee.value.employeeId).Some?
    }

    /**
     * Validates, then refuses a second compensation for the same employee
     * id, then stores `comp`. Either check failing leaves the store as it was.
     */
    method TryCreate(comp: Option<Compensation>) returns (outcome: Outcome<Exception>)
      requires Valid()
      modifies this
      ensures Valid()
      ensures !Resolves(comp) ==>
        outcome == Fail(ArgumentException(InvalidValuesMessage)) && compensations == old(compensations)
      ensures Resolves(comp) && Matching(old(compensations), EmployeeIdOf(comp.value).value) != [] ==>
        && outcome == Fail(ApplicationException(DuplicateMessage(EmployeeIdOf(comp.value).value)))
        && compensations == old(compensations)
      ensures Resolves(comp) && Matching(old(compensations), EmployeeIdOf(comp.value).value) == [] ==>
        && outcome == Pass
        && compensations == old(compensations) + [comp.value]
        && TryGetByEmployeeId(compensations, EmployeeIdOf(comp.value)) == Success(Some(comp.value))
    {
      if && comp.Some?
         && comp.value.employee.Some?
         && comp.value.employee.value.employeeId.Some?
         && GetById(employeeService.store, comp.value.employee.value.employeeId).Some?
      {
        var id := comp.value.employee.value.employeeId.value;
        AtMostOneMatch(compensations, id);
        var existing := GetByEmployeeId(compensations, id);
        match existing
        case Failure(_) =>
          // the lookup cannot throw: at most one compensation per id is stored
          assert false;
        case Success(Some(_)) =>
          outcome := Fail(ApplicationException(DuplicateMessage(id)));
        case Success(None) =>
          AppendKeepsAtMostOne(compensations, comp.value);
          compensations := compensations + [comp.value];
          outcome := Pass;
      } else {
        outcome := Fail(ArgumentException(InvalidValuesMessage));
      }
    }
  }
}
