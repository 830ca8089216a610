/** The list logic of the ID-cards page: the search box, the two counters,
    the row and header checkboxes, and the ids sent to the batch and download
    routes. Employee ids are the table's primary keys. */
module CardsPage {
  import opened Wrappers
  import opened Text
  import opened Store
  import opened Lists

  /** `search.toLowerCase().trim()`. */
  function SearchKey(search: string): (r: string)
    ensures |r| <= |search|
    ensures r == [] || (!IsSpace(r[0]) && !IsSpace(r[|r| - 1]))
    ensures exists a, b :: ToLower(search) == a + r + b && AllSpace(a) && AllSpace(b)
    ensures r == [] <==> AllSpace(search)
  {
    TrimHasNoSpaceEnds(ToLower(search));
    TrimIsInfix(ToLower(search));
    TrimEmptyIffAllSpace(ToLower(search));
    ToLowerKeepsSpace(search);
    Trim(ToLower(search))
  }

  /** The lower-cased first name, last name or id contains the key. */
  predicate MatchesCardSearch(e: Employee, key: string) {
    Contains(ToLower(e.firstName), key) || Contains(ToLower(e.lastName), key) || Contains(ToLower(e.employeeId), key)
  }

  function CardSearch(key: string): Employee -> bool {
    (e: Employee) => MatchesCardSearch(e, key)
  }

  /** `filteredEmployees`: everyone for a blank search, otherwise the
      employees matching the key, in list order. */
  function FilteredEmployees(employees: seq<Employee>, search: string): (r: seq<Employee>)
    ensures SearchKey(search) == "" ==> r == employees
    ensures SearchKey(search) != "" ==> forall e :: e in r <==> e in employees && MatchesCardSearch(e, SearchKey(search))
    ensures Sublist(r, employees)
  {
    var key := SearchKey(search);
    if key == "" then
      SublistOfItself(employees);
      employees
    else Filter(employees, CardSearch(key))
  }

  predicate CardGenerated(e: Employee) {
    e.cardGenerated
  }

  predicate CardPending(e: Employee) {
    !e.cardGenerated
  }

  predicate AnyEmployee(e: Employee) {
    true
  }

  /** `generatedCount`. */
  function GeneratedCount(employees: seq<Employee>): (r: nat)
    ensures r <= |employees| && r == |Filter(employees, CardGenerated)|
  {
    |Filter(employees, CardGenerated)|
  }

  /** `pendingCount = employees.length - generatedCount`: never negative, and
      the number of employees whose card is not generated. */
  function PendingCount(employees: seq<Employee>): (r: int)
    ensures 0 <= r == |Filter(employees, CardPending)|
    ensures r == |employees| - GeneratedCount(employees)
  {
    FilterKeepsAll(employees, AnyEmployee);
    FilterPartition(employees, AnyEmployee, CardGenerated, CardPending);
    |employees| - GeneratedCount(employees)
  }

  function Other(id: nat): nat -> bool {
    (x: nat) => x != id
  }

  /** `toggleSelect`: an absent id is appended; a present one is removed,
      every copy of it, with the other ids kept in order. */
  function ToggleSelect(selected: seq<nat>, id: nat): (r: seq<nat>)
    ensures id !in selected ==> r == selected + [id]
    ensures id in selected ==> r == Filter(selected, Other(id))
    ensures id in selected ==> id !in r && Sublist(r, selected) && forall x :: x in r <==> x in selected && x != id
    ensures NoDuplicates(selected) ==> NoDuplicates(r)
  {
    if id in selected then
      FilterNoDuplicates(selected, Other(id));
      Filter(selected, Other(id))
    else selected + [id]
  }

  /** Toggling an id that was not selected twice gives the selection back. */
  lemma {:induction false} ToggleTwiceRestores(selected: seq<nat>, id: nat)
    requires id !in selected
    ensures ToggleSelect(ToggleSelect(selected, id), id) == selected
  {
    FilterAppend(selected, [id], Other(id));
    FilterKeepsAll(selected, Other(id));
    FilterDropsAll([id], Other(id));
  }

  /** The `id` column of a list, in order. */
  function Ids(employees: seq<Employee>): (r: seq<nat>)
    ensures |r| == |employees| && forall i :: 0 <= i < |employees| ==> r[i] == employees[i].id
  {
    seq(|employees|, i requires 0 <= i < |employees| => employees[i].id)
  }

  /** `toggleSelectAll`. Only the lengths are compared, so a selection of
      as many ids as rows is cleared even when it holds other ids. */
  function ToggleSelectAll(selected: seq<nat>, filtered: seq<Employee>): (r: seq<nat>)
    ensures |filtered| == 0 ==> r == selected
    ensures |filtered| > 0 && |selected| == |filtered| ==> r == []
    ensures |filtered| > 0 && |selected| != |filtered| ==>
      r == Ids(filtered) && |r| == |filtered| && forall e :: e in filtered ==> e.id in r
  {
    if |filtered| == 0 then selected
    else if |selected| == |filtered| then []
    else Ids(filtered)
  }

  /** Pressing the header checkbox twice from an empty selection selects
      every listed row and then clears the selection again. */
  lemma {:induction false} SelectAllThenClear(filtered: seq<Employee>)
    requires |filtered| > 0
    ensures ToggleSelectAll([], filtered) == Ids(filtered)
    ensures ToggleSelectAll(ToggleSelectAll([], filtered), filtered) == []
  {
  }

  /** The request body's `employeeIds`: the selection, or undefined when
      nothing is selected. */
  function RequestIds(selected: seq<nat>): (r: Option<seq<nat>>)
    ensures r.None? <==> selected == []
    ensures r.Some? ==> r.value == selected
  {
    if |selected| > 0 then Some(selected) else None
  }

  /** `body.employeeIds || []` in the batch and download routes. */
  function RouteIds(body: Option<seq<nat>>): (r: seq<nat>)
    ensures body.Some? ==> r == body.value
    ensures body.None? ==> r == []
  {
    match body
    case Some(ids) => ids
    case None => []
  }

  /** The routes read back exactly the selection; an empty one means "every
      employee" to them. */
  lemma {:induction false} RequestCarriesSelection(selected: seq<nat>)
    ensures RouteIds(RequestIds(selected)) == selected
    ensures RequestIds(selected).None? <==> selected == []
  {
  }
}
