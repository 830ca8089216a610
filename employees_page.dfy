/** The list logic of the employees page: the search filter and the list
    update after a delete. Employee ids are the table's primary keys. */
module EmployeesPage {
  import opened Text
  import opened Store
  import opened Lists

  /** The lower-cased first name, last name or department contains the
      lower-cased search, or the id contains the search as typed. */
  predicate MatchesEmployeeSearch(e: Employee, search: string) {
    || Contains(ToLower(e.firstName), ToLower(search))
    || Contains(ToLower(e.lastName), ToLower(search))
    || Contains(e.employeeId, search)
    || Contains(ToLower(e.department), ToLower(search))
  }

  function EmployeeSearch(search: string): Employee -> bool {
    (e: Employee) => MatchesEmployeeSearch(e, search)
  }

  /** `filteredEmployees`: the matching employees in list order; an empty
      search matches everyone. */
  function FilteredEmployees(employees: seq<Employee>, search: string): (r: seq<Employee>)
    ensures forall e :: e in r <==> e in employees && MatchesEmployeeSearch(e, search)
    ensures Sublist(r, employees)
    ensures search == "" ==> r == employees
  {
    EmptySearchMatchesEveryone(employees, search);
    Filter(employees, EmployeeSearch(search))
  }

  lemma {:induction false} EmptySearchMatchesEveryone(employees: seq<Employee>, search: string)
    ensures search == "" ==> Filter(employees, EmployeeSearch(search)) == employees
  {
    if search == "" {
      forall i | 0 <= i < |employees| ensures EmployeeSearch(search)(employees[i]) {
        assert StartsWith(ToLower(employees[i].firstName), "");
      }
      FilterKeepsAll(employees, EmployeeSearch(search));
    }
  }

  function Other(id: nat): Employee -> bool {
    (e: Employee) => e.id != id
  }

  /** The list after `handleDelete`: on an OK response every employee with
      that id is gone and the others stay in order; otherwise nothing
      changes. */
  function AfterDelete(employees: seq<Employee>, id: nat, ok: bool): (r: seq<Employee>)
    ensures !ok ==> r == employees
    ensures ok ==> forall e :: e in r <==> e in employees && e.id != id
    ensures Sublist(r, employees)
  {
    if ok then Filter(employees, Other(id))
    else
      SublistOfItself(employees);
      employees
  }

  /** Deleting an id nobody has changes nothing. */
  lemma {:induction false} DeletingAnAbsentIdKeepsTheList(employees: seq<Employee>, id: nat, ok: bool)
    requires forall i :: 0 <= i < |employees| ==> employees[i].id != id
    ensures AfterDelete(employees, id, ok) == employees
  {
    if ok {
      FilterKeepsAll(employees, Other(id));
    }
  }
}
