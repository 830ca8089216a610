/** `POST /api/cards/download`: packs the generated card images of the chosen
    employees into a ZIP archive. The archive's encoding is not modelled; the
    model is the list of entries added to it, each a file on disk and the
    name it gets inside the archive. Whether a file exists is the parameter
    `fileExists`, the working directory `cwd` and the clock reading `stamp`. */
module CardsDownload {
  import opened Wrappers
  import opened Text
  import opened Store
  import opened Lists
  import opened CardGenerator

  const NoCardsError := "No cards found to download"
  const FrontSuffix := "_front.png"
  const BackSuffix := "_back.png"

  /** The `findMany` filter: a generated card of an active employee, among
      the given ids when any were sent. */
  predicate Downloadable(e: Employee, ids: seq<nat>) {
    (|ids| == 0 || e.id in ids) && e.cardGenerated && e.isActive
  }

  /** The employees `findMany` returns, in table order. */
  function Qualifying(rows: seq<Employee>, ids: seq<nat>): (r: seq<Employee>)
    ensures forall e :: e in r <==> e in rows && Downloadable(e, ids)
    ensures Sublist(r, rows)
  {
    Filter(rows, e => Downloadable(e, ids))
  }

  /** One `archive.file(path, { name })` call. */
  datatype ZipEntry = ZipEntry(source: string, name: string)

  /** `${employeeId}_${firstName}_${lastName}` followed by the side's suffix. */
  function EntryName(e: Employee, suffix: string): string {
    e.employeeId + "_" + e.firstName + "_" + e.lastName + suffix
  }

  /** The entry for one side of a card: present when the path is set (not
      empty) and the file under `public` exists. */
  function SideEntry(path: Option<string>, e: Employee, suffix: string, cwd: string, fileExists: string -> bool)
    : (r: seq<ZipEntry>)
    ensures |r| <= 1
    ensures |r| == 1 <==> path.Some? && path.value != "" && fileExists(PublicPath(cwd, path.value))
    ensures |r| == 1 ==> r[0] == ZipEntry(PublicPath(cwd, path.value), EntryName(e, suffix))
  {
    if path.Some? && path.value != "" && fileExists(PublicPath(cwd, path.value)) then
      [ZipEntry(PublicPath(cwd, path.value), EntryName(e, suffix))]
    else []
  }

  /** The entries one employee contributes: the front, then the back. */
  function EmployeeEntries(e: Employee, cwd: string, fileExists: string -> bool): (r: seq<ZipEntry>)
    ensures |r| <= 2
    ensures forall i :: 0 <= i < |r| ==> r[i].name == EntryName(e, FrontSuffix) || r[i].name == EntryName(e, BackSuffix)
  {
    SideEntry(e.cardFrontPath, e, FrontSuffix, cwd, fileExists) + SideEntry(e.cardBackPath, e, BackSuffix, cwd, fileExists)
  }

  /** The entries of a list of employees, in list order. */
  function ZipEntries(employees: seq<Employee>, cwd: string, fileExists: string -> bool): (r: seq<ZipEntry>)
    ensures |r| <= 2 * |employees|
  {
    if employees == [] then []
    else ZipEntries(employees[..|employees| - 1], cwd, fileExists) + EmployeeEntries(employees[|employees| - 1], cwd, fileExists)
  }

  /** At most two entries per employee, the front one first; each present
      exactly when its path is set and the file exists, named after the
      employee and the side. */
  lemma {:induction false} EmployeeEntriesShape(e: Employee, cwd: string, fileExists: string -> bool)
    ensures var r := EmployeeEntries(e, cwd, fileExists);
      var hasFront := e.cardFrontPath.Some? && e.cardFrontPath.value != "" && fileExists(PublicPath(cwd, e.cardFrontPath.value));
      var hasBack := e.cardBackPath.Some? && e.cardBackPath.value != "" && fileExists(PublicPath(cwd, e.cardBackPath.value));
      && |r| == (if hasFront then 1 else 0) + (if hasBack then 1 else 0)
      && (hasFront ==> r[0] == ZipEntry(PublicPath(cwd, e.cardFrontPath.value), EntryName(e, FrontSuffix)))
      && (hasBack ==> r[|r| - 1] == ZipEntry(PublicPath(cwd, e.cardBackPath.value), EntryName(e, BackSuffix)))
  {
  }

  /** Employee order is kept: the entries of a list are those of any prefix
      followed by those of the rest. */
  lemma {:induction false} ZipEntriesAppend(a: seq<Employee>, b: seq<Employee>, cwd: string, fileExists: string -> bool)
    ensures ZipEntries(a + b, cwd, fileExists) == ZipEntries(a, cwd, fileExists) + ZipEntries(b, cwd, fileExists)
    decreases |b|
  {
    if b == [] {
      assert a + b == a;
    } else {
      var n := |b| - 1;
      assert (a + b)[..|a + b| - 1] == a + b[..n];
      ZipEntriesAppend(a, b[..n], cwd, fileExists);
    }
  }

  /** Every entry is named after one of the listed employees and ends in
      "_front.png" or "_back.png". */
  lemma {:induction false} EntriesNameListedEmployees(employees: seq<Employee>, cwd: string, fileExists: string -> bool)
    ensures forall x :: x in ZipEntries(employees, cwd, fileExists) ==>
      exists i :: 0 <= i < |employees| && (x.name == EntryName(employees[i], FrontSuffix) || x.name == EntryName(employees[i], BackSuffix))
  {
    if employees != [] {
      var n := |employees| - 1;
      EntriesNameListedEmployees(employees[..n], cwd, fileExists);
      forall x | x in ZipEntries(employees, cwd, fileExists)
        ensures exists i :: 0 <= i < |employees| && (x.name == EntryName(employees[i], FrontSuffix) || x.name == EntryName(employees[i], BackSuffix))
      {
        if x in ZipEntries(employees[..n], cwd, fileExists) {
          var i :| 0 <= i < n && (x.name == EntryName(employees[..n][i], FrontSuffix) || x.name == EntryName(employees[..n][i], BackSuffix));
          assert employees[..n][i] == employees[i];
        } else {
          assert x in EmployeeEntries(employees[n], cwd, fileExists);
        }
      }
    }
  }

  /** The answer: the archive's entries and its file name, or a 404. */
  datatype DownloadResponse = Archive(entries: seq<ZipEntry>, fileName: string) | NotFound(error: string)

  /** `employee_cards_${Date.now()}.zip`. */
  function ArchiveName(stamp: string): string {
    "employee_cards_" + stamp + ".zip"
  }

  /** The handler as a value of the table: a 404 when no employee qualifies,
      otherwise the entries of the qualifying employees in table order. */
  function DownloadOutcome(rows: seq<Employee>, ids: seq<nat>, cwd: string, fileExists: string -> bool, stamp: string)
    : (r: DownloadResponse)
    ensures r.NotFound? <==> forall k :: 0 <= k < |rows| ==> !Downloadable(rows[k], ids)
    ensures r.NotFound? ==> r.error == NoCardsError
    ensures r.Archive? ==> r.fileName == ArchiveName(stamp) && |r.entries| <= 2 * |rows|
    ensures r.Archive? ==> r.entries == ZipEntries(Qualifying(rows, ids), cwd, fileExists)
  {
    var employees := Qualifying(rows, ids);
    assert forall k :: 0 <= k < |rows| && Downloadable(rows[k], ids) ==> rows[k] in employees;
    if |employees| == 0 then NotFound(NoCardsError)
    else Archive(ZipEntries(employees, cwd, fileExists), ArchiveName(stamp))
  }

  /** The loop adding each employee's files to the archive. */
  method PlanArchive(employees: seq<Employee>, cwd: string, fileExists: string -> bool) returns (entries: seq<ZipEntry>)
    ensures entries == ZipEntries(employees, cwd, fileExists)
  {
    entries := [];
    var i := 0;
    while i < |employees|
      invariant 0 <= i <= |employees|
      invariant entries == ZipEntries(employees[..i], cwd, fileExists)
    {
      var e := employees[i];
      if e.cardFrontPath.Some? && e.cardFrontPath.value != "" {
        var frontPath := PublicPath(cwd, e.cardFrontPath.value);
        if fileExists(frontPath) {
          entries := entries + [ZipEntry(frontPath, EntryName(e, FrontSuffix))];
        }
      }
      if e.cardBackPath.Some? && e.cardBackPath.value != "" {
        var backPath := PublicPath(cwd, e.cardBackPath.value);
        if fileExists(backPath) {
          entries := entries + [ZipEntry(backPath, EntryName(e, BackSuffix))];
        }
      }
      assert employees[..i + 1][..i] == employees[..i];
      i := i + 1;
    }
    assert employees[..i] == employees;
  }

  /** The handler: filter, give up with a 404 when nothing qualifies, plan
      the archive. */
  method DownloadCards(rows: seq<Employee>, ids: seq<nat>, cwd: string, fileExists: string -> bool, stamp: string)
    returns (resp: DownloadResponse)
    ensures resp == DownloadOutcome(rows, ids, cwd, fileExists, stamp)
  {
    var employees := Qualifying(rows, ids);
    if |employees| == 0 {
      return NotFound(NoCardsError);
    }
    var entries := PlanArchive(employees, cwd, fileExists);
    resp := Archive(entries, ArchiveName(stamp));
  }
}
