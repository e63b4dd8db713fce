/**
 * The employee directory: the employee record, lookup by id, creation,
 * replacement, and the recursive count of the reports under an employee.
 *
 * The employee repository is abstracted as a map from employee id to record;
 * every record in it is stored under its own id.
 */
module Employees {
  import opened Common

  /**
   * An employee. The hierarchy is an inductive tree, so it is acyclic by
   * construction.
   */
  datatype Employee = Employee(
    employeeId: Option<string>,
    firstName: string,
    lastName: string,
    position: string,
    department: string,
    directReports: ReportList)

  /**
   * The nullable list of direct reports: null is kept distinct from the
   * empty list, though both mean "no reports".
   */
  datatype ReportList = NullReports | Reports(list: seq<Employee>)

  /** The computed (never stored) answer of a reporting-structure request. */
  datatype ReportingStructure = ReportingStructure(employee: Employee, numberOfReports: nat)

  /** The store's own invariant: every record is kept under its own id. */
  ghost predicate StoredUnderOwnId(store: map<string, Employee>)
  {
    forall k :: k in store ==> store[k].employeeId == Some(k)
  }

  /**
   * Lookup by id. A null or empty id yields null whatever the store holds;
   * any other id yields the stored record or null.
   */
  function GetById(store: map<string, Employee>, id: Option<string>): (r: Option<Employee>)
    ensures id.None? || id.value == "" ==> r.None?
    ensures id.Some? && id.value != "" ==> (r.Some? <==> id.value in store)
    ensures r.Some? ==> id.Some? && id.value in store && r.value == store[id.value]
  {
    if id.Some? && id.value != "" then
      if id.value in store then Some(store[id.value]) else None
    else
      None
  }

  // ---------------------------------------------------------------------
  // Reporting structure
  // ---------------------------------------------------------------------

  /**
   * The count the reporting structure computes: for each direct report its
   * own count, plus the number of direct reports; zero when the list is null.
   */
  function ReportCount(e: Employee): (r: nat)
    ensures r == 0 <==> e.directReports.NullReports? || e.directReports.list == []
    decreases e, 1
  {
    match e.directReports
    case NullReports => 0
    case Reports(subordinates) => SumOfCounts(subordinates) + |subordinates|
  }

  /** The sum of the counts of a list of employees, accumulated left to right. */
  function SumOfCounts(s: seq<Employee>): (r: nat)
    decreases s, 0
  {
    if s == [] then 0 else SumOfCounts(s[..|s| - 1]) + ReportCount(s[|s| - 1])
  }

  /**
   * Every employee under `e`, in pre-order: each direct report followed by
   * the employees under it. The root itself is not listed.
   */
  function Descendants(e: Employee): (r: seq<Employee>)
    decreases e, 1
  {
    match e.directReports
    case NullReports => []
    case Reports(subordinates) => DescendantsOfAll(subordinates)
  }

  /** Every employee in `s` together with everyone under them, in pre-order. */
  function DescendantsOfAll(s: seq<Employee>): (r: seq<Employee>)
    decreases s, 0
  {
    if s == [] then [] else [s[0]] + Descendants(s[0]) + DescendantsOfAll(s[1..])
  }

  lemma {:induction false} SumOfCountsCons(x: Employee, t: seq<Employee>)
    ensures SumOfCounts([x] + t) == ReportCount(x) + SumOfCounts(t)
    decreases |t|
  {
    var u := [x] + t;
    if t == [] {
      assert u[..|u| - 1] == [];
    } else {
      assert u[..|u| - 1] == [x] + t[..|t| - 1];
      assert u[|u| - 1] == t[|t| - 1];
      SumOfCountsCons(x, t[..|t| - 1]);
    }
  }

  /** The count of a list is the length of its pre-order listing, minus the list itself. */
  lemma {:induction false} DescendantsOfAllLength(s: seq<Employee>)
    ensures |DescendantsOfAll(s)| == SumOfCounts(s) + |s|
    decreases s, 0
  {
    if s != [] {
      ReportCountIsDescendantCount(s[0]);
      DescendantsOfAllLength(s[1..]);
      assert s == [s[0]] + s[1..];
      SumOfCountsCons(s[0], s[1..]);
    }
  }

  /** `numberOfReports` is the number of employees under the root, the root excluded. */
  lemma {:induction false} ReportCountIsDescendantCount(e: Employee)
    ensures ReportCount(e) == |Descendants(e)|
    decreases e, 1
  {
    match e.directReports
    case NullReports =>
    case Reports(subordinates) => DescendantsOfAllLength(subordinates);
  }

  /**
   * The hierarchy the reporting-structure requests are checked against: a
   * root with two direct reports, one of which has two reports of its own.
   */
  lemma {:induction false} ExampleHierarchyCounts()
    ensures
      var leaf1 := Employee(Some("report-1"), "", "", "", "", NullReports);
      var leaf2 := Employee(Some("report-2"), "", "", "", "", Reports([]));
      var paul := Employee(Some("b7839309-3348-463b-a7e3-5de1c168beb3"), "Paul", "McCartney", "", "", NullReports);
      var middle := Employee(Some("03aa1462-ffa9-4978-901b-7c001562cf6f"), "", "", "", "", Reports([leaf1, leaf2]));
      var john := Employee(Some("16a596ae-edd3-4847-99fe-c4518e82c86f"), "John", "Lennon", "", "", Reports([paul, middle]));
      && ReportCount(john) == |Descendants(john)| == 4
      && ReportCount(middle) == |Descendants(middle)| == 2
      && ReportCount(paul) == |Descendants(paul)| == 0
  {
    var leaf1 := Employee(Some("report-1"), "", "", "", "", NullReports);
    var leaf2 := Employee(Some("report-2"), "", "", "", "", Reports([]));
    var paul := Employee(Some("b7839309-3348-463b-a7e3-5de1c168beb3"), "Paul", "McCartney", "", "", NullReports);
    var middle := Employee(Some("03aa1462-ffa9-4978-901b-7c001562cf6f"), "", "", "", "", Reports([leaf1, leaf2]));
    var john := Employee(Some("16a596ae-edd3-4847-99fe-c4518e82c86f"), "John", "Lennon", "", "", Reports([paul, middle]));
    assert [leaf1, leaf2][..1] == [leaf1];
    assert [paul, middle][..1] == [paul];
    assert SumOfCounts([leaf1, leaf2]) == 0;
    assert SumOfCounts([paul, middle]) == 2;
    ReportCountIsDescendantCount(john);
    ReportCountIsDescendantCount(middle);
    ReportCountIsDescendantCount(paul);
  }

  // ---------------------------------------------------------------------
  // The service
  // ---------------------------------------------------------------------

  /**
   * The employee service over its repository. `store` holds the committed
   * records; the intermediate commits of the repository are not modelled,
   * only the net effect of each operation.
   */
  class EmployeeService {
    var store: map<string, Employee>

    ghost predicate Valid()
      reads this
    {
      StoredUnderOwnId(store)
    }

    constructor (initial: map<string, Employee>)
      requires StoredUnderOwnId(initial)
      ensures Valid() && store == initial
    {
      store := initial;
    }

    /**
     * Adds a non-null record and commits; a null record changes nothing.
     * `assignedId` is the id the record ends up with, generated or the
     * client's; it is not yet stored.
     */
    method Create(employee: Option<Employee>, assignedId: string) returns (r: Option<Employee>)
      requires Valid()
      requires assignedId !in store
      modifies this
      ensures Valid()
      ensures employee.None? ==> r.None? && store == old(store)
      ensures employee.Some? ==>
        && r == Some(employee.value.(employeeId := Some(assignedId)))
        && store == old(store)[assignedId := r.value]
      ensures employee.Some? && assignedId != "" ==> GetById(store, r.value.employeeId) == r
    {
      if employee.Some? {
        var added := employee.value.(employeeId := Some(assignedId));
        store := store[assignedId := added];
        r := Some(added);
      } else {
        r := None;
      }
    }

    /**
     * Removes `original` and, when `newEmployee` is not null, stores it under
     * the original's id, overwriting the id it carried. Returns the
     * replacement (with its new id), or null. A null original changes nothing.
     */
    method Replace(original: Option<Employee>, newEmployee: Option<Employee>) returns (r: Option<Employee>)
      requires Valid()
      requires original.Some? ==> original.value.employeeId.Some?
      modifies this
      ensures Valid()
      ensures original.None? ==> r == newEmployee && store == old(store)
      ensures original.Some? && newEmployee.None? ==>
        r.None? && store == old(store) - {original.value.employeeId.value}
      ensures original.Some? && newEmployee.Some? ==>
        && r == Some(newEmployee.value.(employeeId := original.value.employeeId))
        && store == old(store)[original.value.employeeId.value := r.value]
      ensures original.Some? && newEmployee.Some? && original.value.employeeId != Some("") ==>
        GetById(store, original.value.employeeId) == r
      ensures original.Some? ==>
        forall k :: k != original.value.employeeId.value ==>
          (k in store <==> k in old(store)) && (k in store ==> store[k] == old(store)[k])
    {
      if original.Some? {
        var id := original.value.employeeId.value;
        store := store - {id};
        if newEmployee.Some? {
          var replacement := newEmployee.value.(employeeId := Some(id));
          store := store[id := replacement];
          r := Some(replacement);
        } else {
          r := None;
        }
      } else {
        r := newEmployee;
      }
    }

    /**
     * The reporting structure of `startNode`: each direct report's own
     * count is accumulated in order, then the number of direct reports is
     * added. The result is the number of employees under `startNode`.
     */
    static method BuildReportingStructure(startNode: Employee) returns (rtn: ReportingStructure)
      ensures rtn.employee == startNode
      ensures rtn.numberOfReports == ReportCount(startNode)
      ensures rtn.numberOfReports == |Descendants(startNode)|
      decreases startNode
    {
      rtn := ReportingStructure(startNode, 0);
      ReportCountIsDescendantCount(startNode);
      match startNode.directReports
      case NullReports =>
      case Reports(subordinates) =>
        var i := 0;
        while i < |subordinates|
          invariant 0 <= i <= |subordinates|
          invariant rtn == ReportingStructure(startNode, SumOfCounts(subordinates[..i]))
        {
          assert subordinates[..i + 1][..i] == subordinates[..i];
          var recRtn := BuildReportingStructure(subordinates[i]);
          rtn := rtn.(numberOfReports := rtn.numberOfReports + recRtn.numberOfReports);
          i := i + 1;
        }
        assert subordinates[..i] == subordinates;
        rtn := rtn.(numberOfReports := rtn.numberOfReports + |subordinates|);
    }
  }
}
