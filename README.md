# Employee directory and compensation ledger

A Dafny model of the core of a small employee web service. It has three parts:

- **Employee directory** (`Employees`): lookup by id, creation and replacement of employee records, and the reporting structure. The reporting structure is the recursive count of everyone under an employee.
- **Compensation ledger** (`Compensations`): one compensation per employee id. Every request is validated before the duplicate check, and the duplicate check runs before the insert.
- **Request handlers** (`Controller`): each endpoint is a decision over the results of the directory and the ledger, returning an `ActionResult` (`Ok`, `Created`, `NotFound`, `BadRequest`, `Status500`, or `Unhandled` for an exception that escapes the action).

Files:

- `common.dfy`: nullable references (`Option`), results and outcomes of the services, and the exceptions.
- `employees.dfy`: the `Employee` datatype, `GetById`, the reporting count and its reference definition, and the `EmployeeService` class.
- `compensations.dfy`: the `Compensation` datatype, the repository lookup, the uniqueness invariant, and the `CompensationService` class.
- `controller.dfy`: the handlers.

Each repository is abstracted as a field of its service:

- the employee repository is `store: map<string, Employee>`, and every record in it is keyed by its own id;
- the compensation repository is `compensations: seq<Compensation>`, in insertion order.

The operations that change a repository are methods on those classes. Their `modifies` clauses name the class, and their postconditions give the new contents in terms of the old. Lookups and the read-only handlers are functions over the repository contents.

An employee's `directReports` is the datatype `ReportList`: `NullReports` (null) or `Reports(list)`. Null and the empty list are kept apart, and both count zero. The hierarchy is an inductive tree, so it is acyclic by construction. `numberOfReports` is specified against `Descendants`, an independent pre-order listing of everyone under an employee. The tests' expected counts (4, 2 and 0) are checked on a hierarchy consistent with those counts; the seeded hierarchy itself is not part of this model, so its shape and the two leaf ids are chosen to fit.

The compensation repository's lookup by employee id behaves like a single-or-default query:

- no match gives null;
- one match gives that compensation;
- several matches throw an `InvalidOperationException`.

Under the ledger's invariant (at most one compensation per employee id) that exception cannot occur. This is proved (`AtMostOneMatch`, and the contracts of `TryGetByEmployeeId` and `GetCompensation`).

Where the code's evident intent and its behaviour differ, the model follows the behaviour:

- **Compensation body check.** The test `newcomp.effectiveDate == null` at code-challenge/Controllers/EmployeeController.cs:124 shows that a request without an effective date was meant to be rejected. But `effectiveDate` is a non-nullable value type (code-challenge/Models/Compensation.cs:14), so that comparison is always false. The body check is therefore only "body null or salary zero" (`InvalidCompensationBody`).
- **POST of an employee with a null body.** The handler dereferences the body (code-challenge/Controllers/EmployeeController.cs:32, 36) before and after creating it. A null body therefore ends in a `NullReferenceException`, with nothing stored.
- **PUT with a null body.** The original record is removed and nothing replaces it. The answer is `Ok` with no body.
- **Reading a compensation.** Route ids are never null, so the handler never reaches the `ArgumentException` path. `GetCompensation` is proved never to answer `BadRequest`.

## Model

| member | source | states |
|---|---|---|
| `Employees.GetById` | code-challenge/Services/EmployeeService.cs:33-41 | a null or empty id yields null whatever the store holds; any other id yields a record exactly when the id is stored, and that record is the stored one |
| `Employees.ReportCount` | code-challenge/Services/EmployeeService.cs:75-91 | the count is zero exactly when the direct-report list is null or empty |
| `Employees.ReportCountIsDescendantCount` | code-challenge/Services/EmployeeService.cs:84-90 | the count (children's counts plus the number of direct reports) equals the number of employees transitively under the root, root excluded |
| `Employees.ExampleHierarchyCounts` | code-challenge.Tests/EmployeeControllerTests.cs:155-189 | on a root with two reports, one of which has two reports, the counts are 4 for the root, 2 for the middle manager and 0 for the leaf report |
| `Employees.EmployeeService.constructor` | code-challenge/Services/EmployeeService.cs:16-20 | the service starts over the repository it is given |
| `Employees.EmployeeService.Create` | code-challenge/Services/EmployeeService.cs:22-31 | a null record changes nothing and yields null; a non-null record is returned with the repository-assigned id, is stored under that id, and is found again by that id; other records are untouched; the store stays keyed by own id |
| `Employees.EmployeeService.Replace` | code-challenge/Services/EmployeeService.cs:47-65 | a null original changes nothing and returns the replacement as given; otherwise the original's id is removed and, for a non-null replacement, the replacement is stored under that id with its id overwritten, returned, and found again by that id; a null replacement only deletes and yields null; every other id is unchanged |
| `Employees.EmployeeService.BuildReportingStructure` | code-challenge/Services/EmployeeService.cs:75-92 | the result's employee is the start node, and the loop's accumulation equals the recursive count, which is the number of employees under the start node |
| `Compensations.Matching` | code-challenge/Repositories/CompensationRepository.cs:29-32 | the result holds exactly the stored compensations filed under the id, and only stored ones |
| `Compensations.GetByEmployeeId` | code-challenge/Repositories/CompensationRepository.cs:29-32 | a returned compensation is the only stored compensation filed under the id; null means none is; the lookup throws (only `InvalidOperationException`) exactly when two or more stored compensations share the id |
| `Compensations.AtMostOneMatch` | code-challenge/Services/CompensationService.cs:30-36 | under the at-most-one invariant no employee id matches two compensations |
| `Compensations.TryGetByEmployeeId` | code-challenge/Services/CompensationService.cs:43-50 | a null id fails with `ArgumentException("No id provided")`; otherwise it is the repository's single-or-default lookup: the only stored compensation for that id, null when none is stored, and an `InvalidOperationException` exactly when several are; under the at-most-one invariant a non-null id never throws; it changes no state |
| `Compensations.AppendKeepsAtMostOne` | code-challenge/Services/CompensationService.cs:30-36 | adding a compensation for an id with none keeps at most one per id; afterwards the read by that id returns it and reads by every other id are unchanged |
| `Compensations.CompensationService.constructor` | code-challenge/Services/CompensationService.cs:17-24 | the service starts over the directory and repository it is given |
| `Compensations.CompensationService.TryCreate` | code-challenge/Services/CompensationService.cs:25-41 | if the comp, its employee or that id is null, or the id does not resolve in the directory, it fails with `ArgumentException("Values must exist and be valid.")`, whatever the ledger holds; else if a compensation exists for the id it fails with `ApplicationException("Compensation for employee id <id> already exists.")`; else it appends the comp, which a later read by that id returns; the store is unchanged on failure and at most one per id is preserved |
| `Controller.GetEmployeeById` | code-challenge/Controllers/EmployeeController.cs:39-50 | an empty or unknown id is not found; otherwise `Ok` with the stored employee |
| `Controller.GetReportingStructure` | code-challenge/Controllers/EmployeeController.cs:71-81 | an empty or unknown id is not found; otherwise `Ok` with the employee and the number of employees under them |
| `Controller.GetCompensation` | code-challenge/Controllers/EmployeeController.cs:83-107 | an unknown employee or a missing compensation is not found; a known employee with exactly one stored compensation gets `Ok` with that compensation, and `Ok` carries nothing else; several stored compensations give a server error; a server error carries only the duplicate-match message and cannot occur under the at-most-one invariant; it never answers `BadRequest` |
| `Controller.EmployeeController.constructor` | code-challenge/Controllers/EmployeeController.cs:20-27 | the handlers start over the two services, which share one directory |
| `Controller.EmployeeController.CreateEmployee` | code-challenge/Controllers/EmployeeController.cs:29-37 | a null body fails with a `NullReferenceException` and stores nothing; otherwise the record is stored with its assigned id and returned as `Created` |
| `Controller.EmployeeController.ReplaceEmployee` | code-challenge/Controllers/EmployeeController.cs:56-68 | an empty or unknown id is not found and the store is untouched; otherwise the record is replaced under the same id (or only removed, for a null body) and the replacement is returned as `Ok` |
| `Controller.EmployeeController.CreateCompensation` | code-challenge/Controllers/EmployeeController.cs:120-141 | a null body or zero salary is a bad request before any lookup, even for an unknown id; then an unresolvable id is not found carrying the id, even if the body carries an employee; then the body's employee is replaced by the resolved one; a duplicate is a bad request carrying the exact ledger message; otherwise the stored compensation is returned as `Ok`; the ledger changes only on success |

## Left out

- HTTP routing, status codes as numbers, `CreatedAtRoute`, JSON (de)serialization, and the debug-only sanity-check endpoint. Responses are the `ActionResult` datatype.
- Logging. It has no effect on results.
- Persistence details: `SaveAsync`, change tracking, and the difference between pending and committed changes. Each repository change is modelled by its net effect.
- The window inside `Replace` in which neither the original nor the replacement is stored is not modelled. A fault between the two commits would expose it.
- The employee repository is not part of this model. Its lookup is a map lookup. `assignedId` is the id the record ends up with, generated or the client's, and is assumed not yet stored; a POST whose id collides with a stored record is not modelled.
- Create's and Replace's in-place updates of the caller's object are not modelled, because `Employee` is a value here. In the source, the repository assigns an id and `Replace` overwrites the replacement's id. The model returns the updated record instead, so aliasing of that object is not captured. The same holds for the handler assigning the resolved employee to the posted compensation.
- The compensation lookup's predicate runs in the database, so a stored compensation without an employee simply does not match. No null dereference is modelled there.
- The hierarchy is held by value: each stored employee carries its own copy of its reporting tree, and nothing ties a manager's `directReports` to the stored records for those ids. In the source the reports are relations between stored records, so a replacement (`Employees.EmployeeService.Replace`, `Controller.EmployeeController.ReplaceEmployee`) is seen by the managers and by the replaced employee's former reports; in the model it changes only the record stored under that id, and managers' copies keep the old subtree. The same holds for a stored `Compensation`: it keeps its own copy of the employee record, so after a replacement `Controller.GetCompensation` returns the employee as it was when the compensation was created, where the source follows the reference to the stored record.
- The store-assigned `CompensationId`: the compensation store assigns the key on insert, and the handler returns the compensation with that key. `Compensations.CompensationService.TryCreate` and `Controller.EmployeeController.CreateCompensation` keep the id the client sent, so a client id that collides with a stored one (which the store would reject, turning into a bad request carrying the store's message) is not modelled.
- Compensations.CompensationService.TryCreate: requests are modelled as running one at a time. In the source the duplicate check and the insert are separate store calls with no lock, transaction or unique index between them, so two concurrent creates for the same employee id can both pass the check and both insert; that breaks the at-most-one invariant, and a later read of that compensation throws in the single-or-default lookup and answers a server error. `AtMostOneMatch` and the no-server-error clause of `Controller.GetCompensation` hold only for sequential requests.
- Cyclic `DirectReports`. The source recurses without a guard and would not terminate on a cycle. The model's hierarchy is an inductive tree.
- Employees.EmployeeService.BuildReportingStructure: `numberOfReports` is an unbounded `nat`, not a 32-bit `int`. 32-bit overflow would need more than two billion employees.
- `salary` is a `real`, not a `double`. The only logic on it is the comparison with zero, so NaN and the sign of zero are not modelled.
- `effectiveDate` is an opaque `DateTime` value.
- The integration-test harness. Its expected values appear only in `ExampleHierarchyCounts` and in the messages the contracts name.
