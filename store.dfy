/**
 * The two database tables the routes read and write: employees and card
 * templates. A table is an object holding its rows in creation order and the
 * next primary key; route handlers receive the table and change it through
 * the methods below, as the database client's `create` and `update` do.
 */
module Store {
  import opened Wrappers

  /** An `Employee` row. Dates of birth and joining are not part of the
      model. */
  datatype Employee = Employee(
    id: nat,
    employeeId: string,
    firstName: string,
    lastName: string,
    designation: string,
    department: string,
    city: string,
    contactNumber: string,
    mobileNumber: string,
    cnic: string,
    bloodGroup: string,
    emergencyContact: string,
    photoPath: Option<string>,
    isActive: bool,
    cardGenerated: bool,
    cardFrontPath: Option<string>,
    cardBackPath: Option<string>)

  /** The `data` object passed to `prisma.employee.create`. */
  datatype NewEmployee = NewEmployee(
    employeeId: string,
    firstName: string,
    lastName: string,
    designation: string,
    department: string,
    city: string,
    contactNumber: string,
    mobileNumber: string,
    cnic: string,
    bloodGroup: string,
    emergencyContact: string,
    photoPath: Option<string>)

  /** A `Template` row; `kind` is the column the source calls `type`. */
  datatype Template = Template(id: nat, name: string, kind: string, imagePath: string, isActive: bool)

  /** The `where: { isActive: true }` filter. */
  predicate Active(e: Employee) {
    e.isActive
  }

  /** The row `create` stores: the given fields, an active employee whose
      card has not been generated. */
  function Materialise(d: NewEmployee, id: nat): (e: Employee)
    ensures e.id == id && e.employeeId == d.employeeId && e.photoPath == d.photoPath
    ensures NewEmployee(e.employeeId, e.firstName, e.lastName, e.designation, e.department, e.city,
      e.contactNumber, e.mobileNumber, e.cnic, e.bloodGroup, e.emergencyContact, e.photoPath) == d
    ensures e.isActive && !e.cardGenerated && e.cardFrontPath == None && e.cardBackPath == None
  {
    Employee(id, d.employeeId, d.firstName, d.lastName, d.designation, d.department, d.city,
      d.contactNumber, d.mobileNumber, d.cnic, d.bloodGroup, d.emergencyContact, d.photoPath,
      true, false, None, None)
  }

  /** Records created one after another, with consecutive keys from `id`. */
  function MaterialiseAll(ds: seq<NewEmployee>, id: nat): (es: seq<Employee>)
    ensures |es| == |ds|
    ensures forall i :: 0 <= i < |ds| ==> es[i] == Materialise(ds[i], id + i)
  {
    seq(|ds|, i requires 0 <= i < |ds| => Materialise(ds[i], id + i))
  }

  /** The `employeeId` column, in row order. */
  function EmployeeIds(rows: seq<Employee>): (ids: seq<string>)
    ensures |ids| == |rows| && forall i :: 0 <= i < |rows| ==> ids[i] == rows[i].employeeId
  {
    seq(|rows|, i requires 0 <= i < |rows| => rows[i].employeeId)
  }

  /** No value occurs twice. */
  predicate Distinct(xs: seq<string>) {
    forall i, j :: 0 <= i < j < |xs| ==> xs[i] != xs[j]
  }

  /** The schema's `@unique` on `employeeId`, and distinct primary keys below
      the next one to be handed out. */
  ghost predicate WellKeyed(rows: seq<Employee>, nextId: nat) {
    && Distinct(EmployeeIds(rows))
    && (forall i :: 0 <= i < |rows| ==> rows[i].id < nextId)
    && (forall i, j :: 0 <= i < j < |rows| ==> rows[i].id != rows[j].id)
  }

  /** Adding a value that is not yet present keeps a sequence distinct. */
  lemma {:induction false} DistinctAppend(xs: seq<string>, x: string)
    requires Distinct(xs) && x !in xs
    ensures Distinct(xs + [x])
  {
  }

  class EmployeeTable {
    var rows: seq<Employee>
    var nextId: nat

    ghost predicate Valid()
      reads this
    {
      WellKeyed(rows, nextId)
    }

    constructor ()
      ensures Valid() && rows == [] && nextId == 0
    {
      rows, nextId := [], 0;
    }

    /** `findUnique({ where: { employeeId } })`: the row with that key, active
        or not. */
    function FindByEmployeeId(employeeId: string): (r: Option<nat>)
      reads this
      ensures r.Some? ==> r.value < |rows| && rows[r.value].employeeId == employeeId
      ensures r.None? ==> employeeId !in EmployeeIds(rows)
    {
      FindKey(rows, employeeId)
    }

    /** `prisma.employee.create`: appends one row with a fresh key. The
        `@unique` constraint is the precondition. */
    method Create(d: NewEmployee) returns (e: Employee)
      requires Valid() && d.employeeId !in EmployeeIds(rows)
      modifies this
      ensures Valid()
      ensures e == Materialise(d, old(nextId))
      ensures rows == old(rows) + [e] && nextId == old(nextId) + 1
    {
      e := Materialise(d, nextId);
      assert EmployeeIds(rows + [e]) == EmployeeIds(rows) + [e.employeeId];
      DistinctAppend(EmployeeIds(rows), e.employeeId);
      rows := rows + [e];
      nextId := nextId + 1;
    }

    /** `prisma.employee.update`: replaces row `k` by a record with the same
        keys. */
    method Update(k: nat, e: Employee)
      requires Valid() && k < |rows|
      requires e.id == rows[k].id && e.employeeId == rows[k].employeeId
      modifies this
      ensures Valid() && nextId == old(nextId)
      ensures rows == old(rows)[k := e]
    {
      assert EmployeeIds(rows[k := e]) == EmployeeIds(rows);
      rows := rows[k := e];
    }
  }

  /** Position of the row whose `employeeId` is `key`. */
  function FindKey(rows: seq<Employee>, key: string): (r: Option<nat>)
    ensures r.Some? ==> r.value < |rows| && rows[r.value].employeeId == key
    ensures r.None? ==> key !in EmployeeIds(rows)
  {
    if rows == [] then None
    else if rows[|rows| - 1].employeeId == key then Some(|rows| - 1)
    else
      var r := FindKey(rows[..|rows| - 1], key);
      assert EmployeeIds(rows) == EmployeeIds(rows[..|rows| - 1]) + [rows[|rows| - 1].employeeId];
      r
  }

  /** `updateMany({ where: { type: kind, isActive: true }, data: { isActive: false } })`
      as a value: every template of that type is inactive afterwards and
      nothing else changes. */
  function Deactivated(rows: seq<Template>, kind: string): (r: seq<Template>)
    ensures |r| == |rows|
    ensures forall i :: 0 <= i < |rows| ==>
      r[i] == if rows[i].kind == kind then rows[i].(isActive := false) else rows[i]
  {
    seq(|rows|, i requires 0 <= i < |rows| =>
      if rows[i].kind == kind then rows[i].(isActive := false) else rows[i])
  }

  class TemplateTable {
    var rows: seq<Template>
    var nextId: nat

    ghost predicate Valid()
      reads this
    {
      forall i :: 0 <= i < |rows| ==> rows[i].id < nextId
    }

    constructor ()
      ensures Valid() && rows == [] && nextId == 0
    {
      rows, nextId := [], 0;
    }

    /** `updateMany` clearing `isActive` on the active templates of one type,
        row by row. */
    method DeactivateKind(kind: string)
      requires Valid()
      modifies this
      ensures Valid() && nextId == old(nextId)
      ensures rows == Deactivated(old(rows), kind)
    {
      var i := 0;
      while i < |rows|
        invariant 0 <= i <= |rows| == |old(rows)| && nextId == old(nextId)
        invariant forall j :: 0 <= j < i ==> rows[j] == Deactivated(old(rows), kind)[j]
        invariant forall j :: i <= j < |rows| ==> rows[j] == old(rows)[j]
      {
        if rows[i].kind == kind && rows[i].isActive {
          rows := rows[i := rows[i].(isActive := false)];
        }
        i := i + 1;
      }
    }

    /** `prisma.template.create`: appends one row with a fresh key. */
    method Create(name: string, kind: string, imagePath: string, isActive: bool) returns (t: Template)
      requires Valid()
      modifies this
      ensures Valid()
      ensures t == Template(old(nextId), name, kind, imagePath, isActive)
      ensures rows == old(rows) + [t] && nextId == old(nextId) + 1
    {
      t := Template(nextId, name, kind, imagePath, isActive);
      rows := rows + [t];
      nextId := nextId + 1;
    }
  }
}
