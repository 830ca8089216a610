/** `/api/employees`: GET lists the active employees, newest first; POST
    creates one employee unless its `employeeId` is taken. The dates of birth
    and joining the POST body carries are not part of the model. */
module EmployeesRoute {
  import opened Wrappers
  import opened Store
  import opened Lists

  const DuplicateIdError := "Employee ID already exists"

  /** GET: `findMany({ where: { isActive: true }, orderBy: { createdAt: "desc" } })`.
      Rows are kept in creation order, so newest first is the active rows
      backwards. */
  function ListEmployees(rows: seq<Employee>): (r: seq<Employee>)
    ensures forall e :: e in r <==> e in rows && e.isActive
    ensures |r| <= |rows|
    ensures Sublist(Reverse(r), rows)
  {
    var active := Filter(rows, Active);
    ReverseReverse(active);
    Reverse(active)
  }

  /** The answer to POST: the created row, or a 400 with its message. */
  datatype CreateResponse = Created(employee: Employee) | BadRequest(error: string)

  /** The data passed to `create`: the body's fields, with `body.photoPath || null`
      turning an empty photo path into none. */
  function StoredFields(body: NewEmployee): (d: NewEmployee)
    ensures d == body.(photoPath := d.photoPath)
    ensures d.photoPath.Some? <==> body.photoPath.Some? && body.photoPath.value != ""
    ensures d.photoPath.Some? ==> d.photoPath == body.photoPath
  {
    if body.photoPath == Some("") then body.(photoPath := None) else body
  }

  /** POST as a value of the table before it: the answer, the rows and the
      next key afterwards. */
  function CreateEmployeeOutcome(rows: seq<Employee>, nextId: nat, body: NewEmployee)
    : (r: (CreateResponse, seq<Employee>, nat))
    ensures body.employeeId in EmployeeIds(rows) ==> r == (BadRequest(DuplicateIdError), rows, nextId)
    ensures body.employeeId !in EmployeeIds(rows) ==>
      && r.0.Created?
      && r.0.employee == Materialise(StoredFields(body), nextId)
      && r.1 == rows + [r.0.employee]
      && r.2 == nextId + 1
    ensures WellKeyed(rows, nextId) ==> WellKeyed(r.1, r.2)
  {
    if body.employeeId in EmployeeIds(rows) then (BadRequest(DuplicateIdError), rows, nextId)
    else
      var e := Materialise(StoredFields(body), nextId);
      assert EmployeeIds(rows + [e]) == EmployeeIds(rows) + [e.employeeId];
      DistinctAppendWhenAbsent(EmployeeIds(rows), e.employeeId);
      (Created(e), rows + [e], nextId + 1)
  }

  lemma {:induction false} DistinctAppendWhenAbsent(xs: seq<string>, x: string)
    ensures x !in xs && Distinct(xs) ==> Distinct(xs + [x])
  {
    if x !in xs && Distinct(xs) {
      DistinctAppend(xs, x);
    }
  }

  /** POST against the table: `findUnique` on the id, then `create`. */
  method CreateEmployee(db: EmployeeTable, body: NewEmployee) returns (resp: CreateResponse)
    requires db.Valid()
    modifies db
    ensures db.Valid()
    ensures (resp, db.rows, db.nextId) == CreateEmployeeOutcome(old(db.rows), old(db.nextId), body)
  {
    var existing := db.FindByEmployeeId(body.employeeId);
    if existing.Some? {
      assert EmployeeIds(db.rows)[existing.value] == body.employeeId;
      return BadRequest(DuplicateIdError);
    }
    var e := db.Create(StoredFields(body));
    resp := Created(e);
  }
}
