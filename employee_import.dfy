/**
 * The CSV import of `POST /api/employees/import`: each data row of the
 * uploaded sheet becomes a new employee unless its name or designation is
 * missing or its employee id is already taken; the response tallies the
 * rows imported and the rows refused, with one message per refusal.
 */
module EmployeeImport {
  import opened Wrappers
  import opened Text
  import opened Store
  import opened CardGenerator

  /** `clean(r[k])`: the trimmed cell, "" when the row is shorter. */
  function Cell(row: seq<string>, k: nat): (r: string)
    ensures k >= |row| ==> r == []
    ensures k < |row| ==> r == Trim(row[k]) && |r| <= |row[k]|
  {
    if k < |row| then Trim(row[k]) else ""
  }

  /** A cell never starts or ends with whitespace. */
  lemma {:induction false} CellHasNoSpaceEnds(row: seq<string>, k: nat)
    ensures var r := Cell(row, k);
      r != [] ==> !IsSpace(r[0]) && !IsSpace(r[|r| - 1])
  {
    if k < |row| {
      TrimHasNoSpaceEnds(row[k]);
    }
  }

  /** First and last name of a split full name. */
  datatype Name = Name(firstName: string, lastName: string)

  /** `clean(fullName).replace(/\s+/g, " ")` */
  function SquashedName(fullName: string): string {
    CollapseRuns(Trim(fullName), Whitespace, ' ')
  }

  /** `splitName`: the first word, and the remaining words joined by single
      spaces; "—" when the name is blank. */
  function SplitName(fullName: string): (r: Name)
    ensures r.firstName != [] && ' ' !in r.firstName
  {
    var name := SquashedName(fullName);
    if name == [] then Name("—", "")
    else
      SquashedNameStart(fullName);
      SplitPiecesAreClean(name, ' ');
      var parts := Split(name, ' ');
      if |parts| == 1 then Name(parts[0], "") else Name(parts[0], Join(parts[1..], ' '))
  }

  /** A blank name becomes "—"; otherwise the first name is a non-empty word
      without spaces, and first and last name joined by a space give back the
      squashed name (the first name alone when there is no last name). */
  lemma {:induction false} SplitNameRejoins(fullName: string)
    ensures var n, name := SplitName(fullName), SquashedName(fullName);
      && (Trim(fullName) == [] ==> n == Name("—", ""))
      && (Trim(fullName) != [] ==>
            && n.firstName != [] && ' ' !in n.firstName
            && (name == n.firstName || name == n.firstName + " " + n.lastName)
            && (n.lastName != [] ==> name == n.firstName + " " + n.lastName))
  {
    if Trim(fullName) != [] {
      SquashedNameStart(fullName);
      SplitFirstAndRest(SquashedName(fullName), ' ');
    }
  }

  /** A name with something besides whitespace squashes to a non-empty
      string that does not start with a space. */
  lemma {:induction false} SquashedNameStart(fullName: string)
    requires Trim(fullName) != []
    ensures var name := SquashedName(fullName); name != [] && name[0] != ' '
  {
    var t := Trim(fullName);
    TrimHasNoSpaceEnds(fullName);
    CollapseRunsCons(t[0], t[1..], Whitespace, ' ');
    assert t == [t[0]] + t[1..];
  }

  /** A name that is a single word is kept whole, with an empty last name. */
  lemma {:induction false} SplitNameOfOneWord(fullName: string)
    requires fullName != []
    requires forall i :: 0 <= i < |fullName| ==> !IsSpace(fullName[i])
    ensures SplitName(fullName) == Name(fullName, "")
  {
    assert TrimStart(fullName) == fullName;
    TrimEndIsIdempotent(fullName);
    CollapseRunsKeepsClean(fullName, Whitespace, ' ');
    assert ' ' !in fullName by {
      assert IsSpace(' ');
    }
    SplitWithoutSeparator(fullName, ' ');
  }

  /** The first cell of the first row mentions "employee" (in any ASCII case):
      that row is a title or header and is skipped. */
  function StartIndex(csv: seq<seq<string>>): (r: nat)
    ensures r <= 1 && (r == 1 ==> |csv| > 0)
  {
    if |csv| > 0 && Contains(ToLower(Cell(csv[0], 0)), "employee") then 1 else 0
  }

  /** The header row is skipped exactly when "employee" occurs somewhere in
      its lower-cased first cell; a sheet without rows starts at 0. */
  lemma {:induction false} StartIndexSkipsHeader(csv: seq<seq<string>>)
    ensures StartIndex(csv) <= |csv|
    ensures StartIndex(csv) == 1 <==>
      |csv| > 0 && exists k :: OccursAt(ToLower(Cell(csv[0], 0)), "employee", k)
  {
    if |csv| > 0 {
      ContainsIsOccurrence(ToLower(Cell(csv[0], 0)), "employee");
    }
  }

  /** `String(Date.now() + i).slice(-7)`: the id given to a row without one,
      `now` being the clock reading. */
  function GeneratedId(now: nat, i: nat): (r: string)
    ensures r != [] && |r| <= 7 && AllDigits(r)
  {
    var s := NatToString(now + i);
    var r := SliceLast(s, 7);
    assert r == s[|s| - |r|..];
    r
  }

  /** The row number used in messages: one more than the index. */
  function RowNo(i: nat): string {
    NatToString(i + 1)
  }

  /** `bloodRaw && bloodRaw !== "#N/A" ? bloodRaw : "—"` */
  function BloodGroup(raw: string): (r: string)
    ensures r != [] && r != "#N/A"
    ensures raw != [] && raw != "#N/A" ==> r == raw
    ensures raw == [] || raw == "#N/A" ==> r == "—"
  {
    if raw != "" && raw != "#N/A" then raw else "—"
  }

  /** The `data` passed to `create` for row `r` under `employeeId`. */
  function NewRecord(r: seq<string>, employeeId: string): NewEmployee {
    var name := SplitName(Cell(r, 2));
    NewEmployee(
      employeeId,
      name.firstName,
      name.lastName,
      OrDash(Cell(r, 3)),
      if Cell(r, 4) != "" then Cell(r, 4) else "General",
      OrDash(Cell(r, 6)),
      OrDash(Cell(r, 8)),
      OrDash(Cell(r, 8)),
      OrDash(Cell(r, 9)),
      BloodGroup(Cell(r, 10)),
      OrDash(Cell(r, 11)),
      None)
  }

  /** The id a row is imported under: its own, or a generated one. */
  function RowEmployeeId(r: seq<string>, i: nat, now: nat): (id: string)
    ensures id != []
  {
    if Cell(r, 1) != "" then Cell(r, 1) else GeneratedId(now, i)
  }

  /** The message for a row without a name or a designation. */
  function MissingMessage(i: nat): string {
    "Row " + RowNo(i) + ": Missing name/designation"
  }

  /** The message for a row whose employee id is taken. */
  function DuplicateMessage(i: nat, employeeId: string): string {
    "Row " + RowNo(i) + ": Employee ID " + employeeId + " already exists"
  }

  /** What a row asks for, before the table is consulted: it is incomplete,
      or it is a candidate record, refused with `duplicateError` if its id is
      taken by then. */
  datatype RowPlan = Incomplete(error: string) | Candidate(record: NewEmployee, duplicateError: string)

  /** Row `r` at index `i` of the sheet, read as a plan: the cleaned cells,
      the id (its own or a generated one), the split name and the defaults. */
  function PlanRow(r: seq<string>, i: nat, now: nat): RowPlan {
    if Cell(r, 2) == "" || Cell(r, 3) == "" then Incomplete(MissingMessage(i))
    else
      var employeeId := RowEmployeeId(r, i, now);
      Candidate(NewRecord(r, employeeId), DuplicateMessage(i, employeeId))
  }

  /** What happens to one row. */
  datatype RowOutcome = Created(record: NewEmployee) | Refused(error: string)

  /** The plan against the employee ids already stored. */
  function Decide(p: RowPlan, taken: seq<string>): RowOutcome {
    match p
    case Incomplete(msg) => Refused(msg)
    case Candidate(d, dup) => if d.employeeId in taken then Refused(dup) else Created(d)
  }

  /** One pass of the loop for row `r` at index `i`, `taken` being the
      employee ids already stored. */
  function ImportRow(r: seq<string>, i: nat, now: nat, taken: seq<string>): (o: RowOutcome)
    ensures o.Created? ==> o.record.employeeId !in taken && o.record.designation == Cell(r, 3)
  {
    Decide(PlanRow(r, i, now), taken)
  }

  /** A row is created exactly when it has a name and a designation and its
      id is free, and it is refused with the route's message otherwise; the
      id is the row's own when it has one. */
  lemma {:induction false} ImportRowCases(r: seq<string>, i: nat, now: nat, taken: seq<string>)
    ensures var o, id := ImportRow(r, i, now, taken), RowEmployeeId(r, i, now);
      && (o.Created? <==> Cell(r, 2) != "" && Cell(r, 3) != "" && id !in taken)
      && (Cell(r, 2) == "" || Cell(r, 3) == "" ==> o == Refused("Row " + RowNo(i) + ": Missing name/designation"))
      && (Cell(r, 2) != "" && Cell(r, 3) != "" && id in taken ==>
            o == Refused("Row " + RowNo(i) + ": Employee ID " + id + " already exists"))
      && (o.Created? ==> o.record.employeeId == id && id !in taken)
      && (Cell(r, 1) != "" ==> id == Cell(r, 1))
  {
  }

  /** The record of a row with a name and a designation: every column the
      card shows is filled, with the cell when present, "General" for a
      missing department and "—" for any other missing value; the contact
      number doubles as the mobile number, "#N/A" never reaches the blood
      group, and there is no photo yet. */
  lemma {:induction false} NewRecordIsFilled(r: seq<string>, employeeId: string)
    requires Cell(r, 2) != "" && Cell(r, 3) != ""
    ensures var d := NewRecord(r, employeeId);
      && d.employeeId == employeeId
      && d.firstName != []
      && d.designation == Cell(r, 3)
      && d.department != [] && d.city != []
      && d.contactNumber != [] && d.mobileNumber == d.contactNumber
      && d.cnic != [] && d.emergencyContact != []
      && d.bloodGroup != [] && d.bloodGroup != "#N/A"
      && (Cell(r, 4) == "" ==> d.department == "General")
      && (Cell(r, 4) != "" ==> d.department == Cell(r, 4))
      && Name(d.firstName, d.lastName) == SplitName(Cell(r, 2))
      && d.city == OrDash(Cell(r, 6))
      && d.contactNumber == OrDash(Cell(r, 8))
      && d.cnic == OrDash(Cell(r, 9))
      && d.bloodGroup == BloodGroup(Cell(r, 10))
      && d.emergencyContact == OrDash(Cell(r, 11))
      && d.photoPath.None?
  {
    var c := Cell(r, 2);
    TrimHasNoSpaceEnds(r[2]);
    TrimOfTrimmed(c);
    SplitNameRejoins(c);
  }

  /** The tallies the route returns. */
  datatype ImportResult = ImportResult(success: nat, failed: nat, errors: seq<string>)

  /** The employee table and the tallies while the rows are being read. */
  datatype ImportState = ImportState(rows: seq<Employee>, nextId: nat, result: ImportResult)

  /** The state after one more row, whose outcome is `o`. */
  function Step(st: ImportState, o: RowOutcome): ImportState {
    match o
    case Created(d) =>
      ImportState(st.rows + [Materialise(d, st.nextId)], st.nextId + 1,
        st.result.(success := st.result.success + 1))
    case Refused(msg) =>
      ImportState(st.rows, st.nextId,
        st.result.(failed := st.result.failed + 1, errors := st.result.errors + [msg]))
  }

  /** The plans of `rows`, the sheet's rows from index `first` on, in order:
      the `j`-th plan is that of the `j`-th row, numbered from `first`. */
  function PlanAll(rows: seq<seq<string>>, first: nat, now: nat): (plans: seq<RowPlan>)
    ensures |plans| == |rows|
    ensures forall j :: 0 <= j < |rows| ==> plans[j] == PlanRow(rows[j], first + j, now)
  {
    seq(|rows|, j requires 0 <= j < |rows| => PlanRow(rows[j], first + j, now))
  }

  /** The state after the first `n` planned rows, each decided against the
      ids stored by then. */
  function ImportUpTo(plans: seq<RowPlan>, n: nat, init: ImportState): ImportState
    requires n <= |plans|
  {
    if n == 0 then init
    else
      var prev := ImportUpTo(plans, n - 1, init);
      Step(prev, Decide(plans[n - 1], EmployeeIds(prev.rows)))
  }

  /** Every row is counted once, as imported or as failed, each failure has
      one message, and the imported rows are appended after the existing
      ones with consecutive keys. */
  lemma {:induction false} ImportTallies(plans: seq<RowPlan>, n: nat, init: ImportState)
    requires n <= |plans|
    ensures var fin := ImportUpTo(plans, n, init);
      && fin.result.success + fin.result.failed == init.result.success + init.result.failed + n
      && |fin.result.errors| - |init.result.errors| == fin.result.failed - init.result.failed
      && init.result.errors <= fin.result.errors
      && |fin.rows| == |init.rows| + (fin.result.success - init.result.success)
      && fin.nextId == init.nextId + (fin.result.success - init.result.success)
      && init.rows <= fin.rows
  {
    if n > 0 {
      ImportTallies(plans, n - 1, init);
      var prev := ImportUpTo(plans, n - 1, init);
      StepTallies(prev, Decide(plans[n - 1], EmployeeIds(prev.rows)));
    }
  }

  /** One step counts its row once. */
  lemma {:induction false} StepTallies(st: ImportState, o: RowOutcome)
    ensures var nx := Step(st, o);
      && nx.result.success + nx.result.failed == st.result.success + st.result.failed + 1
      && |nx.result.errors| - |st.result.errors| == nx.result.failed - st.result.failed
      && st.result.errors <= nx.result.errors
      && |nx.rows| - |st.rows| == nx.result.success - st.result.success == nx.nextId - st.nextId
      && st.rows <= nx.rows
  {
  }

  /** A step whose record has a free id keeps employee ids unique and keys
      below the next key. */
  lemma {:induction false} StepKeepsKeys(st: ImportState, o: RowOutcome)
    requires WellKeyed(st.rows, st.nextId)
    requires o.Created? ==> o.record.employeeId !in EmployeeIds(st.rows)
    ensures WellKeyed(Step(st, o).rows, Step(st, o).nextId)
  {
    match o
    case Created(d) =>
      var e := Materialise(d, st.nextId);
      assert EmployeeIds(st.rows + [e]) == EmployeeIds(st.rows) + [e.employeeId];
      DistinctAppend(EmployeeIds(st.rows), e.employeeId);
    case Refused(_) =>
  }

  /** However many rows share an id, with one another or with stored
      employees, the table never holds an employee id twice. */
  lemma {:induction false} ImportKeepsKeysUnique(plans: seq<RowPlan>, n: nat, init: ImportState)
    requires n <= |plans|
    requires WellKeyed(init.rows, init.nextId)
    ensures WellKeyed(ImportUpTo(plans, n, init).rows, ImportUpTo(plans, n, init).nextId)
  {
    if n > 0 {
      ImportKeepsKeysUnique(plans, n - 1, init);
      var prev := ImportUpTo(plans, n - 1, init);
      StepKeepsKeys(prev, Decide(plans[n - 1], EmployeeIds(prev.rows)));
    }
  }

  /** An employee whose card can be drawn without gaps: every value shown on
      the card is set, and the employee is active and awaits a card. */
  predicate CardReady(e: Employee) {
    && e.employeeId != [] && e.firstName != [] && e.designation != []
    && e.department != [] && e.city != [] && e.contactNumber != [] && e.mobileNumber != []
    && e.cnic != [] && e.bloodGroup != [] && e.emergencyContact != []
    && e.isActive && !e.cardGenerated
  }

  /** Every row from `base` on is ready for a card. */
  predicate CardReadyFrom(rows: seq<Employee>, base: nat) {
    forall k :: base <= k < |rows| ==> CardReady(rows[k])
  }

  /** A plan whose record, stored under any key, is ready for a card. */
  ghost predicate PlanReady(p: RowPlan) {
    p.Candidate? ==> forall id: nat :: CardReady(Materialise(p.record, id))
  }

  /** Every row's plan is ready for a card. */
  lemma {:induction false} PlanRowIsReady(r: seq<string>, i: nat, now: nat)
    ensures PlanReady(PlanRow(r, i, now))
  {
    if Cell(r, 2) != "" && Cell(r, 3) != "" {
      NewRecordIsFilled(r, RowEmployeeId(r, i, now));
    }
  }

  /** Every planned row is ready for a card. */
  lemma {:induction false} PlanAllIsReady(rows: seq<seq<string>>, first: nat, now: nat)
    ensures forall j :: 0 <= j < |rows| ==> PlanReady(PlanAll(rows, first, now)[j])
  {
    forall j | 0 <= j < |rows| ensures PlanReady(PlanAll(rows, first, now)[j]) {
      PlanRowIsReady(rows[j], first + j, now);
    }
  }


  /** Every employee an import creates is ready for a card. */
  lemma {:induction false} ImportedRowsAreCardReady(plans: seq<RowPlan>, n: nat, init: ImportState)
    requires n <= |plans|
    requires forall j :: 0 <= j < |plans| ==> PlanReady(plans[j])
    ensures var fin := ImportUpTo(plans, n, init);
      |init.rows| <= |fin.rows| && CardReadyFrom(fin.rows, |init.rows|)
  {
    if n > 0 {
      ImportedRowsAreCardReady(plans, n - 1, init);
      var prev := ImportUpTo(plans, n - 1, init);
      var o := Decide(plans[n - 1], EmployeeIds(prev.rows));
      assert PlanReady(plans[n - 1]);
      StepKeepsCardReady(prev, o, |init.rows|);
    }
  }

  lemma {:induction false} StepKeepsCardReady(st: ImportState, o: RowOutcome, base: nat)
    requires base <= |st.rows| && CardReadyFrom(st.rows, base)
    requires o.Created? ==> forall id: nat :: CardReady(Materialise(o.record, id))
    ensures var nx := Step(st, o);
      base <= |nx.rows| && CardReadyFrom(nx.rows, base)
  {
  }

  /** The sheet as parsed: its rows, or a parse error. */
  datatype ParsedCsv = Rows(cells: seq<seq<string>>) | Malformed

  const NoFileError := "No file provided"
  const InvalidCsvError := "Invalid CSV format"

  /** The route's answer. */
  datatype ImportResponse = Imported(result: ImportResult) | BadRequest(error: string)

  /** The outcome of the whole request, as a value. */
  function ImportOutcome(file: Option<ParsedCsv>, now: nat, rows: seq<Employee>, nextId: nat): (r: (ImportResponse, ImportState))
    ensures file.None? ==> r.0 == BadRequest(NoFileError) && r.1.rows == rows && r.1.nextId == nextId
    ensures file == Some(Malformed) ==> r.0 == BadRequest(InvalidCsvError) && r.1.rows == rows && r.1.nextId == nextId
    ensures file.Some? && file.value.Rows? ==> r.0 == Imported(r.1.result)
  {
    var init := ImportState(rows, nextId, ImportResult(0, 0, []));
    match file
    case None => (BadRequest(NoFileError), init)
    case Some(Malformed) => (BadRequest(InvalidCsvError), init)
    case Some(Rows(csv)) =>
      var start := StartIndex(csv);
      var fin := ImportUpTo(PlanAll(csv[start..], start, now), |csv| - start, init);
      (Imported(fin.result), fin)
  }

  /** What the route promises for a parsed sheet: every row after the header
      is counted once, as imported or as failed with one message; the table
      grows by the imported rows, each ready for a card; and employee ids
      stay unique. */
  lemma {:induction false} ImportOutcomeSummary(csv: seq<seq<string>>, now: nat, rows: seq<Employee>, nextId: nat)
    requires WellKeyed(rows, nextId)
    ensures var (resp, fin) := ImportOutcome(Some(Rows(csv)), now, rows, nextId);
      && resp == Imported(fin.result)
      && fin.result.success + fin.result.failed == |csv| - StartIndex(csv)
      && |fin.result.errors| == fin.result.failed
      && rows <= fin.rows && |fin.rows| == |rows| + fin.result.success
      && (forall k :: |rows| <= k < |fin.rows| ==> CardReady(fin.rows[k]))
      && WellKeyed(fin.rows, fin.nextId)
  {
    var init := ImportState(rows, nextId, ImportResult(0, 0, []));
    var start := StartIndex(csv);
    StartIndexSkipsHeader(csv);
    var plans := PlanAll(csv[start..], start, now);
    PlanAllIsReady(csv[start..], start, now);
    ImportTallies(plans, |plans|, init);
    ImportedRowsAreCardReady(plans, |plans|, init);
    ImportKeepsKeysUnique(plans, |plans|, init);
    ImportOutcomeOfSheet(csv, now, rows, nextId);
  }

  /** `POST /api/employees/import`: reads every row's cells up front, then
      walks the rows in order, writing to the table as it goes. `now` is the
      clock reading. */
  method Import(db: EmployeeTable, file: Option<ParsedCsv>, now: nat) returns (resp: ImportResponse)
    requires db.Valid()
    modifies db
    ensures db.Valid()
    ensures var (expected, fin) := ImportOutcome(file, now, old(db.rows), old(db.nextId));
      resp == expected && db.rows == fin.rows && db.nextId == fin.nextId
  {
    if file.None? {
      return BadRequest(NoFileError);
    }
    if file.value.Malformed? {
      return BadRequest(InvalidCsvError);
    }
    var csv := file.value.cells;
    assert file == Some(Rows(csv));
    ImportOutcomeOfSheet(csv, now, db.rows, db.nextId);
    var start := StartIndex(csv);
    var result := ImportRows(db, PlanAll(csv[start..], start, now));
    resp := Imported(result);
  }

  /** For a parsed sheet, the outcome is the fold over the rows after the
      header, answered with its tallies. */
  lemma {:induction false} ImportOutcomeOfSheet(csv: seq<seq<string>>, now: nat, rows: seq<Employee>, nextId: nat)
    ensures var start := StartIndex(csv);
      var plans := PlanAll(csv[start..], start, now);
      var fin := ImportUpTo(plans, |plans|, ImportState(rows, nextId, ImportResult(0, 0, [])));
      ImportOutcome(Some(Rows(csv)), now, rows, nextId) == (Imported(fin.result), fin)
  {
    StartIndexSkipsHeader(csv);
  }

  /** The loop over the planned rows, in order, with the tallies it keeps. */
  method ImportRows(db: EmployeeTable, plans: seq<RowPlan>) returns (result: ImportResult)
    requires db.Valid()
    modifies db
    ensures db.Valid()
    ensures ImportUpTo(plans, |plans|, ImportState(old(db.rows), old(db.nextId), ImportResult(0, 0, [])))
      == ImportState(db.rows, db.nextId, result)
  {
    ghost var init := ImportState(db.rows, db.nextId, ImportResult(0, 0, []));
    var success, failed, errors := 0, 0, [];
    var j := 0;
    while j < |plans|
      invariant j <= |plans|
      invariant db.Valid()
      invariant ImportUpTo(plans, j, init) == ImportState(db.rows, db.nextId, ImportResult(success, failed, errors))
    {
      ghost var prev := ImportState(db.rows, db.nextId, ImportResult(success, failed, errors));
      var o := ImportOne(db, plans[j]);
      assert ImportUpTo(plans, j + 1, init) == Step(prev, o);
      match o {
        case Created(_) =>
          success := success + 1;
        case Refused(msg) =>
          failed := failed + 1;
          errors := errors + [msg];
      }
      j := j + 1;
    }
    result := ImportResult(success, failed, errors);
  }

  /** The body of the loop for one planned row: refuse it, or look its id up
      and create its employee. */
  method ImportOne(db: EmployeeTable, p: RowPlan) returns (o: RowOutcome)
    requires db.Valid()
    modifies db
    ensures db.Valid()
    ensures o == Decide(p, EmployeeIds(old(db.rows)))
    ensures o.Created? ==> db.rows == old(db.rows) + [Materialise(o.record, old(db.nextId))] && db.nextId == old(db.nextId) + 1
    ensures o.Refused? ==> db.rows == old(db.rows) && db.nextId == old(db.nextId)
  {
    match p
    case Incomplete(msg) =>
      return Refused(msg);
    case Candidate(record, duplicateError) =>
      var existing := db.FindByEmployeeId(record.employeeId);
      if existing.Some? {
        assert record.employeeId in EmployeeIds(db.rows) by {
          assert EmployeeIds(db.rows)[existing.value] == record.employeeId;
        }
        return Refused(duplicateError);
      }
      var _ := db.Create(record);
      o := Created(record);
  }
}
