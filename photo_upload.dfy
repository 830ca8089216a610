/**
 * The bulk photo upload of `POST /api/upload-photo`: every uploaded image is
 * matched to the employee whose id ends with the digits in the file's name,
 * and that employee's `photoPath` is pointed at the saved image. The response
 * lists one item per file, in upload order, with the counts of matched and
 * failed files.
 */
module PhotoUpload {
  import opened Wrappers
  import opened Text
  import opened Store

  /** An uploaded file: its name ("" when the client sent none) and its MIME
      type. The bytes are not part of the model. */
  datatype UploadFile = UploadFile(name: string, mime: string)

  /** No "." and no "/" after position `p`. */
  predicate CleanAfter(s: string, p: int) {
    forall q :: 0 <= q < |s| && p < q ==> s[q] != '.' && s[q] != '/'
  }

  /** Where `/\.[^/.]+$/` matches `s`: a "." followed by at least one
      character, none of them "." or "/", up to the end. */
  predicate IsExtensionAt(s: string, p: int) {
    0 <= p < |s| - 1 && s[p] == '.' && CleanAfter(s, p)
  }

  /** A "." at `p` with no "." or "/" after it. */
  predicate LastDotAt(s: string, p: int) {
    0 <= p < |s| && s[p] == '.' && CleanAfter(s, p)
  }

  /** The last "." of `s` when no "/" follows it. */
  function DotBeforeSlash(s: string): (r: Option<nat>)
    ensures r.Some? ==> LastDotAt(s, r.value)
    ensures r.None? ==> forall p :: !LastDotAt(s, p)
  {
    if s == [] then None
    else if s[|s| - 1] == '.' then Some(|s| - 1)
    else if s[|s| - 1] == '/' then None
    else
      var t := s[..|s| - 1];
      assert forall q :: 0 <= q < |t| ==> t[q] == s[q];
      assert forall p :: LastDotAt(s, p) ==> LastDotAt(t, p);
      DotBeforeSlash(t)
  }

  /** The position the extension pattern matches at, if any. There is at most
      one, since the match contains no "." after its own. */
  function ExtensionDot(s: string): (r: Option<nat>)
    ensures r.Some? ==> IsExtensionAt(s, r.value)
    ensures r.Some? ==> forall p :: IsExtensionAt(s, p) ==> p == r.value
    ensures r.None? ==> forall p :: !IsExtensionAt(s, p)
  {
    assert forall p :: IsExtensionAt(s, p) ==> LastDotAt(s, p) && s[|s| - 1] != '.';
    if s != [] && s[|s| - 1] != '.' then DotBeforeSlash(s) else None
  }

  /** `filename.replace(/\.[^/.]+$/, "")`: the name without its extension. */
  function StripExtension(s: string): (r: string)
    ensures ExtensionDot(s).None? ==> r == s
    ensures ExtensionDot(s).Some? ==> |r| < |s| && r == s[..|r|] && IsExtensionAt(s, |r|)
  {
    match ExtensionDot(s)
    case None => s
    case Some(p) => s[..p]
  }

  /** `getDigitsFromFilename`: the digits ending the name once its extension
      is removed (trailing whitespace allowed), "" when there are none. */
  function DigitsFromFilename(filename: string): (r: string)
    ensures AllDigits(r) && EndsWith(TrimEnd(StripExtension(filename)), r)
    ensures var t := TrimEnd(StripExtension(filename));
      |r| == |t| || !IsDigit(t[|t| - |r| - 1])
  {
    TrailingDigits(StripExtension(filename))
  }

  /** A name made of an optional non-numeric prefix, digits, a "." and an
      extension gives those digits: "0210.jpg" gives "0210", and so does
      "HRPSP-0210.png". */
  lemma {:induction false} DigitsOfNumberedFile(p: string, d: string, ext: string)
    requires p == [] || !IsDigit(p[|p| - 1])
    requires d != [] && AllDigits(d)
    requires ext != [] && CleanAfter(ext, -1)
    ensures DigitsFromFilename(p + d + ['.'] + ext) == d
  {
    var s := p + d + ['.'] + ext;
    assert IsExtensionAt(s, |p + d|);
    assert StripExtension(s) == p + d;
    TrailingDigitsOfIdEndingInDigits(p, d);
  }

  /** A name without any "." is searched whole: "0050" gives "0050". */
  lemma {:induction false} DigitsOfBareNumber(p: string, d: string)
    requires p == [] || !IsDigit(p[|p| - 1])
    requires d != [] && AllDigits(d)
    requires forall q :: 0 <= q < |p| ==> p[q] != '.'
    ensures DigitsFromFilename(p + d) == d
  {
    var s := p + d;
    forall q | 0 <= q < |s| ensures s[q] != '.' {
      if q < |p| {
        assert s[q] == p[q];
      } else {
        assert s[q] == d[q - |p|] && IsDigit(d[q - |p|]);
      }
    }
    assert ExtensionDot(s).None?;
    assert StripExtension(s) == s;
    TrailingDigitsOfIdEndingInDigits(p, d);
  }

  /** Digits after the last "." are taken for an extension and dropped: a
      file named like "HRPSP.0210" yields the digits before the ".", if any. */
  lemma {:induction false} DigitsAfterADotAreAnExtension(p: string, d: string)
    requires d != [] && AllDigits(d)
    ensures DigitsFromFilename(p + ['.'] + d) == TrailingDigits(p)
  {
    var s := p + ['.'] + d;
    forall q | |p| < q < |s| ensures s[q] != '.' && s[q] != '/' {
      assert IsDigit(d[q - |p| - 1]);
    }
    assert IsExtensionAt(s, |p|);
    assert StripExtension(s) == p;
  }

  /** `extFromMime` */
  function ExtFromMime(mime: string): (r: string)
    ensures r == ".png" <==> mime == "image/png"
    ensures r == ".webp" <==> mime == "image/webp"
    ensures r != ".png" && r != ".webp" ==> r == ".jpg"
  {
    if mime == "image/png" then ".png"
    else if mime == "image/webp" then ".webp"
    else ".jpg"
  }

  /** `isAllowedMime` */
  predicate IsAllowedMime(mime: string)
    ensures IsAllowedMime(mime) ==> StartsWith(mime, "image/") && |mime| > |"image/"|
  {
    mime in ["image/jpeg", "image/png", "image/webp"]
  }

  /** The three allowed types are the three types with their own extension:
      JPEG is saved as ".jpg", PNG as ".png", WebP as ".webp". */
  lemma {:induction false} AllowedTypesKeepTheirExtension(mime: string)
    requires IsAllowedMime(mime)
    ensures ExtFromMime(mime) == ".jpg" <==> mime == "image/jpeg"
    ensures ExtFromMime(mime) == ".png" <==> mime == "image/png"
    ensures ExtFromMime(mime) == ".webp" <==> mime == "image/webp"
  {
  }

  const BadTypeReason := "Only JPG/PNG/WEBP allowed"
  const NoDigitsReason := "Could not extract digits from filename"
  const NoEmployeeReason := "No employee found with employeeId ending in "
  const NoFilesError := "No files provided"

  /** `(file as any).name || "unknown"` */
  function OriginalName(name: string): (r: string)
    ensures r != [] && (name != [] ==> r == name)
    ensures name == [] ==> r == "unknown"
  {
    if name != [] then name else "unknown"
  }

  /** `/uploads/employees/${digits}${ext}` */
  function PhotoUrl(digits: string, mime: string): string {
    "/uploads/employees/" + digits + ExtFromMime(mime)
  }

  /** One entry of `results.items`. */
  datatype PhotoItem = PhotoItem(
    file: string,
    digits: Option<string>,
    employeeId: Option<string>,
    photoPath: Option<string>,
    success: bool,
    reason: Option<string>)

  function Failed(file: string, digits: Option<string>, reason: string): PhotoItem {
    PhotoItem(file, digits, None, None, false, Some(reason))
  }

  /** `findFirst({ where: { employeeId: { endsWith: digits } } })`, taking the
      rows in table order: the first employee, active or not, whose id ends
      with the digits. */
  function FindEndingWith(rows: seq<Employee>, digits: string): (r: Option<nat>)
    ensures r.Some? ==> r.value < |rows| && EndsWith(rows[r.value].employeeId, digits)
    ensures r.Some? ==> forall j :: 0 <= j < r.value ==> !EndsWith(rows[j].employeeId, digits)
    ensures r.None? ==> forall j :: 0 <= j < |rows| ==> !EndsWith(rows[j].employeeId, digits)
    decreases |rows|
  {
    if rows == [] then None
    else if EndsWith(rows[0].employeeId, digits) then Some(0)
    else match FindEndingWith(rows[1..], digits)
      case None => None
      case Some(k) => Some(k + 1)
  }

  /** The search only looks at the employee ids. */
  lemma {:induction false} FindEndingWithReadsIds(rows: seq<Employee>, rows': seq<Employee>, digits: string)
    requires EmployeeIds(rows) == EmployeeIds(rows')
    ensures FindEndingWith(rows, digits) == FindEndingWith(rows', digits)
    decreases |rows|
  {
    if rows != [] {
      assert rows[0].employeeId == EmployeeIds(rows)[0] == rows'[0].employeeId;
      assert EmployeeIds(rows[1..]) == EmployeeIds(rows')[1..];
      FindEndingWithReadsIds(rows[1..], rows'[1..], digits);
    }
  }

  /** What one file does: the item it adds to the response and the row whose
      `photoPath` it sets, if any. */
  datatype FileResult = FileResult(item: PhotoItem, target: Option<nat>)

  /** What the loop learns from a file before it looks at the table: the
      name it reports, whether its type is allowed, the digits in its name
      and the URL its photo would be saved under. */
  datatype ScannedFile = ScannedFile(name: string, allowed: bool, digits: string, photoUrl: string)

  function Scan(f: UploadFile): (sc: ScannedFile)
    ensures sc.name == OriginalName(f.name) && (sc.allowed <==> IsAllowedMime(f.mime))
    ensures sc.digits == DigitsFromFilename(sc.name) && sc.photoUrl == PhotoUrl(sc.digits, f.mime)
  {
    var name := OriginalName(f.name);
    var digits := DigitsFromFilename(name);
    ScannedFile(name, IsAllowedMime(f.mime), digits, PhotoUrl(digits, f.mime))
  }

  /** The files of a request, scanned. */
  function ScanAll(files: seq<UploadFile>): (scans: seq<ScannedFile>)
    ensures |scans| == |files| && forall i :: 0 <= i < |files| ==> scans[i] == Scan(files[i])
  {
    seq(|files|, i requires 0 <= i < |files| => Scan(files[i]))
  }

  /** The rest of the loop body: check the type and the digits, then look the
      digits up in the table `rows`. */
  function MatchFile(sc: ScannedFile, rows: seq<Employee>): (r: FileResult)
    ensures r.item.file == sc.name
    ensures r.item.success <==> r.target.Some?
    ensures r.target.Some? ==> r.target.value < |rows| && r.item.employeeId == Some(rows[r.target.value].employeeId)
    ensures r.item.success ==> r.item.photoPath == Some(sc.photoUrl)
  {
    if !sc.allowed then
      FileResult(Failed(sc.name, None, BadTypeReason), None)
    else if sc.digits == [] then
      FileResult(Failed(sc.name, None, NoDigitsReason), None)
    else
      match FindEndingWith(rows, sc.digits)
      case None =>
        FileResult(Failed(sc.name, Some(sc.digits), NoEmployeeReason + sc.digits), None)
      case Some(k) =>
        FileResult(PhotoItem(sc.name, Some(sc.digits), Some(rows[k].employeeId), Some(sc.photoUrl), true, None), Some(k))
  }

  /** The body of the loop for one file, against the table `rows`. */
  function UploadOne(f: UploadFile, rows: seq<Employee>): (r: FileResult)
    ensures r.item.file == OriginalName(f.name)
    ensures r.item.success <==> r.target.Some?
    ensures r.target.Some? ==> r.target.value < |rows|
    ensures r.item.success ==> r.item.photoPath == Some(PhotoUrl(DigitsFromFilename(OriginalName(f.name)), f.mime))
  {
    MatchFile(Scan(f), rows)
  }

  /** A file of a type other than JPEG, PNG or WebP fails and touches nothing;
      so does a file whose name has no digits, or whose digits end no
      employee id. A matched file names the first employee whose id ends with
      its digits, and the photo's URL is those digits with the type's
      extension under "/uploads/employees/". */
  lemma {:induction false} UploadOneCases(f: UploadFile, rows: seq<Employee>)
    ensures var r := UploadOne(f, rows);
      var digits := DigitsFromFilename(OriginalName(f.name));
      && (!IsAllowedMime(f.mime) ==>
            r == FileResult(Failed(OriginalName(f.name), None, BadTypeReason), None))
      && (IsAllowedMime(f.mime) && digits == [] ==>
            r == FileResult(Failed(OriginalName(f.name), None, NoDigitsReason), None))
      && (IsAllowedMime(f.mime) && digits != [] && FindEndingWith(rows, digits).None? ==>
            && !r.item.success && r.target.None? && r.item.digits == Some(digits)
            && r.item.reason == Some(NoEmployeeReason + digits))
      && (r.item.success <==>
            IsAllowedMime(f.mime) && digits != [] && exists j :: 0 <= j < |rows| && EndsWith(rows[j].employeeId, digits))
      && (r.item.success ==>
            && r.target == FindEndingWith(rows, digits)
            && r.item.digits == Some(digits)
            && r.item.employeeId == Some(rows[r.target.value].employeeId)
            && EndsWith(rows[r.target.value].employeeId, digits)
            && r.item.photoPath == Some(PhotoUrl(digits, f.mime))
            && r.item.reason.None?)
  {
  }

  /** The digits of a file are matched as a suffix of the id, not as its
      final number: "10.jpg" fits an employee "HRPSP/BI/0210" as well as one
      whose id ends in "/10". */
  lemma {:induction false} ShorterDigitsStillMatch(x: string, d: string, ext: string, mime: string, e: Employee)
    requires d != [] && AllDigits(d) && ext != [] && CleanAfter(ext, -1)
    requires IsAllowedMime(mime) && e.employeeId == x + d
    ensures var r := UploadOne(UploadFile(d + ['.'] + ext, mime), [e]);
      r.item.success && r.item.employeeId == Some(x + d)
  {
    assert d + ['.'] + ext == [] + d + ['.'] + ext;
    DigitsOfNumberedFile([], d, ext);
    assert EndsWith(e.employeeId, d);
  }

  /** The table and the response after some of the files. */
  datatype UploadState = UploadState(rows: seq<Employee>, success: nat, failed: nat, items: seq<PhotoItem>)

  /** Record one file's result: set the photo of its target row, count it and
      list its item. */
  function Apply(st: UploadState, r: FileResult): UploadState
    requires r.target.Some? ==> r.target.value < |st.rows|
  {
    match r.target
    case Some(k) =>
      UploadState(st.rows[k := st.rows[k].(photoPath := r.item.photoPath)], st.success + 1, st.failed, st.items + [r.item])
    case None =>
      UploadState(st.rows, st.success, st.failed + 1, st.items + [r.item])
  }

  /** The state after the first `n` scanned files. */
  function UploadUpTo(scans: seq<ScannedFile>, n: nat, rows: seq<Employee>): (st: UploadState)
    requires n <= |scans|
    ensures |st.rows| == |rows|
    decreases n
  {
    if n == 0 then UploadState(rows, 0, 0, [])
    else
      var prev := UploadUpTo(scans, n - 1, rows);
      Apply(prev, MatchFile(scans[n - 1], prev.rows))
  }

  /** Only photo paths change. */
  predicate SameButPhotos(rows: seq<Employee>, rows': seq<Employee>) {
    |rows'| == |rows| && forall k :: 0 <= k < |rows| ==> rows'[k] == rows[k].(photoPath := rows'[k].photoPath)
  }

  lemma {:induction false} SameButPhotosKeepsIds(rows: seq<Employee>, rows': seq<Employee>)
    requires SameButPhotos(rows, rows')
    ensures EmployeeIds(rows') == EmployeeIds(rows)
  {
  }

  /** Matching a file reads only the employee ids of the table. */
  lemma {:induction false} MatchFileReadsIds(sc: ScannedFile, rows: seq<Employee>, rows': seq<Employee>)
    requires EmployeeIds(rows) == EmployeeIds(rows')
    ensures MatchFile(sc, rows) == MatchFile(sc, rows')
  {
    FindEndingWithReadsIds(rows, rows', sc.digits);
    var k := FindEndingWith(rows, sc.digits);
    if k.Some? {
      assert rows[k.value].employeeId == EmployeeIds(rows)[k.value] == rows'[k.value].employeeId;
    }
  }

  /** One file adds one item and one count, and changes at most one photo. */
  lemma {:induction false} ApplyTallies(st: UploadState, r: FileResult, rows: seq<Employee>)
    requires r.target.Some? ==> r.target.value < |st.rows|
    requires SameButPhotos(rows, st.rows)
    ensures var nx := Apply(st, r);
      && nx.items == st.items + [r.item]
      && nx.success + nx.failed == st.success + st.failed + 1
      && SameButPhotos(rows, nx.rows)
  {
  }

  /** Each file yields one item and is counted once, as matched or failed;
      only photo paths change. */
  lemma {:induction false} UploadTallies(scans: seq<ScannedFile>, n: nat, rows: seq<Employee>)
    requires n <= |scans|
    ensures var st := UploadUpTo(scans, n, rows);
      |st.items| == n && st.success + st.failed == n && SameButPhotos(rows, st.rows)
    decreases n
  {
    if n > 0 {
      UploadTallies(scans, n - 1, rows);
      var prev := UploadUpTo(scans, n - 1, rows);
      var r := MatchFile(scans[n - 1], prev.rows);
      ApplyTallies(prev, r, rows);
      assert UploadUpTo(scans, n, rows) == Apply(prev, r);
    }
  }

  /** One more file appends its item, which is what the file gives against
      the table as it was before the upload. */
  lemma {:induction false} UploadItemStep(scans: seq<ScannedFile>, n: nat, rows: seq<Employee>)
    requires 0 < n <= |scans|
    ensures UploadUpTo(scans, n, rows).items == UploadUpTo(scans, n - 1, rows).items + [MatchFile(scans[n - 1], rows).item]
  {
    UploadTallies(scans, n - 1, rows);
    var prev := UploadUpTo(scans, n - 1, rows);
    SameButPhotosKeepsIds(rows, prev.rows);
    MatchFileReadsIds(scans[n - 1], prev.rows, rows);
    var r := MatchFile(scans[n - 1], prev.rows);
    assert UploadUpTo(scans, n, rows) == Apply(prev, r);
    assert Apply(prev, r).items == prev.items + [r.item];
  }

  /** The items the files give, in order, each matched against `rows`. */
  function MatchedItems(scans: seq<ScannedFile>, rows: seq<Employee>): (items: seq<PhotoItem>)
    ensures |items| == |scans| && forall i :: 0 <= i < |scans| ==> items[i] == MatchFile(scans[i], rows).item
  {
    if scans == [] then []
    else MatchedItems(scans[..|scans| - 1], rows) + [MatchFile(scans[|scans| - 1], rows).item]
  }

  /** The items follow the files in order, and each is what its file gives
      against the table as it was before the upload, because matching reads
      only the employee ids and the upload changes nothing but photos. */
  lemma {:induction false} UploadItems(scans: seq<ScannedFile>, n: nat, rows: seq<Employee>)
    requires n <= |scans|
    ensures UploadUpTo(scans, n, rows).items == MatchedItems(scans[..n], rows)
    ensures var st := UploadUpTo(scans, n, rows);
      |st.items| == n && forall i :: 0 <= i < n ==> st.items[i] == MatchFile(scans[i], rows).item
    decreases n
  {
    if n > 0 {
      UploadItems(scans, n - 1, rows);
      UploadItemStep(scans, n, rows);
      assert scans[..n][..n - 1] == scans[..n - 1];
    }
  }

  /** A row whose photo changed was the target of a matched file: the last
      such item names the row's employee and carries its new photo path. */
  lemma {:induction false} ChangedPhotosWereMatched(scans: seq<ScannedFile>, n: nat, rows: seq<Employee>)
    requires n <= |scans|
    ensures var st := UploadUpTo(scans, n, rows);
      forall k :: 0 <= k < |rows| && st.rows[k].photoPath != rows[k].photoPath ==>
        exists i :: (0 <= i < |st.items| && st.items[i].success
          && st.items[i].employeeId == Some(rows[k].employeeId)
          && st.items[i].photoPath == st.rows[k].photoPath)
    decreases n
  {
    if n > 0 {
      ChangedPhotosWereMatched(scans, n - 1, rows);
      UploadTallies(scans, n - 1, rows);
      var prev := UploadUpTo(scans, n - 1, rows);
      var r := MatchFile(scans[n - 1], prev.rows);
      ApplyTallies(prev, r, rows);
      var st := UploadUpTo(scans, n, rows);
      assert st == Apply(prev, r);
      assert st.items == prev.items + [r.item] && |prev.items| == n - 1;
      forall k | 0 <= k < |rows| && st.rows[k].photoPath != rows[k].photoPath
        ensures exists i :: (0 <= i < |st.items| && st.items[i].success
          && st.items[i].employeeId == Some(rows[k].employeeId)
          && st.items[i].photoPath == st.rows[k].photoPath)
      {
        if r.target == Some(k) {
          assert st.items[n - 1] == r.item;
          assert prev.rows[k].employeeId == rows[k].employeeId;
        } else {
          assert st.rows[k] == prev.rows[k];
          var i :| 0 <= i < |prev.items| && prev.items[i].success
            && prev.items[i].employeeId == Some(rows[k].employeeId)
            && prev.items[i].photoPath == prev.rows[k].photoPath;
          assert st.items[i] == prev.items[i];
        }
      }
    }
  }

  /** File `i` was matched to row `k` of the table. */
  predicate Targets(scans: seq<ScannedFile>, rows: seq<Employee>, i: nat, k: nat)
    requires i < |scans|
  {
    MatchFile(scans[i], rows).target == Some(k)
  }

  /** File `i` is the last of the first `n` files matched to row `k`. */
  predicate LastTarget(scans: seq<ScannedFile>, rows: seq<Employee>, n: nat, i: nat, k: nat)
    requires n <= |scans|
  {
    i < n && Targets(scans, rows, i, k) && forall j :: i < j < n ==> !Targets(scans, rows, j, k)
  }

  /** File `n - 1` changes row `k` only when it is matched to it, and then
      only the photo path, to the one its item reports. */
  lemma {:induction false} UploadStepRow(scans: seq<ScannedFile>, n: nat, rows: seq<Employee>, k: nat)
    requires 0 < n <= |scans| && k < |rows|
    ensures var prev := UploadUpTo(scans, n - 1, rows).rows[k];
      UploadUpTo(scans, n, rows).rows[k] ==
        if Targets(scans, rows, n - 1, k) then prev.(photoPath := MatchFile(scans[n - 1], rows).item.photoPath)
        else prev
  {
    UploadTallies(scans, n - 1, rows);
    var prev := UploadUpTo(scans, n - 1, rows);
    SameButPhotosKeepsIds(rows, prev.rows);
    MatchFileReadsIds(scans[n - 1], prev.rows, rows);
  }

  /** After the first `n` files, a row no file was matched to keeps its
      photo. */
  lemma {:induction false} UnmatchedRowKeepsPhoto(scans: seq<ScannedFile>, n: nat, rows: seq<Employee>, k: nat)
    requires n <= |scans| && k < |rows|
    requires forall i :: 0 <= i < n ==> !Targets(scans, rows, i, k)
    ensures UploadUpTo(scans, n, rows).rows[k] == rows[k]
    decreases n
  {
    if n > 0 {
      UnmatchedRowKeepsPhoto(scans, n - 1, rows, k);
      UploadStepRow(scans, n, rows, k);
    }
  }

  /** After the first `n` files, a row some files were matched to holds the
      photo path of the last of them: later files overwrite earlier ones. */
  lemma {:induction false} LastMatchSetsPhoto(scans: seq<ScannedFile>, n: nat, rows: seq<Employee>, k: nat, i: nat)
    requires n <= |scans| && k < |rows| && LastTarget(scans, rows, n, i, k)
    ensures UploadUpTo(scans, n, rows).rows[k].photoPath == MatchFile(scans[i], rows).item.photoPath
    decreases n
  {
    UploadStepRow(scans, n, rows, k);
    if i < n - 1 {
      assert !Targets(scans, rows, n - 1, k);
      assert LastTarget(scans, rows, n - 1, i, k);
      LastMatchSetsPhoto(scans, n - 1, rows, k, i);
    }
  }

  /** A successful item for the employee of row `k`. */
  predicate NamesRow(item: PhotoItem, e: Employee) {
    item.success && item.employeeId == Some(e.employeeId)
  }

  /** With unique employee ids, a file is matched to row `k` exactly when its
      item is a success naming that row's employee. */
  lemma {:induction false} TargetIsNamedRow(sc: ScannedFile, rows: seq<Employee>, k: nat)
    requires Distinct(EmployeeIds(rows)) && k < |rows|
    ensures MatchFile(sc, rows).target == Some(k) <==> NamesRow(MatchFile(sc, rows).item, rows[k])
  {
    var r := MatchFile(sc, rows);
    if NamesRow(r.item, rows[k]) {
      var j := r.target.value;
      assert EmployeeIds(rows)[j] == EmployeeIds(rows)[k];
    }
  }

  /** Item `i` is the last of `items` that is a success naming `e`. */
  predicate LastNaming(items: seq<PhotoItem>, i: nat, e: Employee) {
    i < |items| && NamesRow(items[i], e) && forall j :: i < j < |items| ==> !NamesRow(items[j], e)
  }

  /** With unique employee ids, the items that name row `k` are those of
      the files matched to it. */
  lemma {:induction false} NamingIsTargeting(scans: seq<ScannedFile>, rows: seq<Employee>, k: nat, i: nat)
    requires Distinct(EmployeeIds(rows)) && k < |rows| && i < |scans|
    ensures var items := UploadUpTo(scans, |scans|, rows).items;
      |items| == |scans| && (Targets(scans, rows, i, k) <==> NamesRow(items[i], rows[k]))
  {
    UploadItems(scans, |scans|, rows);
    TargetIsNamedRow(scans[i], rows, k);
  }

  /** A row that no successful item names keeps its photo. */
  lemma {:induction false} UnnamedRowKeepsPhoto(scans: seq<ScannedFile>, rows: seq<Employee>, k: nat)
    requires Distinct(EmployeeIds(rows)) && k < |rows|
    requires var items := UploadUpTo(scans, |scans|, rows).items;
      |items| == |scans| && forall i :: 0 <= i < |scans| ==> !NamesRow(items[i], rows[k])
    ensures UploadUpTo(scans, |scans|, rows).rows[k] == rows[k]
  {
    forall i | 0 <= i < |scans|
      ensures !Targets(scans, rows, i, k)
    {
      NamingIsTargeting(scans, rows, k, i);
    }
    UnmatchedRowKeepsPhoto(scans, |scans|, rows, k);
  }

  /** A row holds the photo path of the last successful item naming it,
      which is the URL its file was scanned with. */
  lemma {:induction false} LastNamingSetsPhoto(scans: seq<ScannedFile>, rows: seq<Employee>, k: nat, i: nat)
    requires Distinct(EmployeeIds(rows)) && k < |rows| && i < |scans|
    requires LastNaming(UploadUpTo(scans, |scans|, rows).items, i, rows[k])
    ensures var st := UploadUpTo(scans, |scans|, rows);
      st.rows[k].photoPath == st.items[i].photoPath == Some(scans[i].photoUrl)
  {
    var n := |scans|;
    var items := UploadUpTo(scans, n, rows).items;
    UploadItems(scans, n, rows);
    forall j | i <= j < n
      ensures Targets(scans, rows, j, k) <==> NamesRow(items[j], rows[k])
    {
      NamingIsTargeting(scans, rows, k, j);
    }
    LastMatchSetsPhoto(scans, n, rows, k, i);
  }

  /** The photo each row ends up with, told from the response: a row that no
      successful item names keeps its photo; otherwise it holds the photo
      path of the last successful item naming it, which is
      "/uploads/employees/" + digits + extension of that item's file. */
  lemma {:induction false} UploadSetsLastPhoto(files: seq<UploadFile>, rows: seq<Employee>, k: nat)
    requires Distinct(EmployeeIds(rows)) && k < |rows|
    ensures var st := UploadUpTo(ScanAll(files), |files|, rows);
      && |st.items| == |files|
      && ((forall i :: 0 <= i < |files| ==> !NamesRow(st.items[i], rows[k])) ==> st.rows[k] == rows[k])
      && (forall i :: 0 <= i < |files| && LastNaming(st.items, i, rows[k]) ==>
            st.rows[k].photoPath == st.items[i].photoPath
            == Some(PhotoUrl(DigitsFromFilename(OriginalName(files[i].name)), files[i].mime)))
  {
    var scans := ScanAll(files);
    var st := UploadUpTo(scans, |files|, rows);
    UploadTallies(scans, |files|, rows);
    if forall i :: 0 <= i < |files| ==> !NamesRow(st.items[i], rows[k]) {
      UnnamedRowKeepsPhoto(scans, rows, k);
    }
    forall i | 0 <= i < |files| && LastNaming(st.items, i, rows[k])
      ensures st.rows[k].photoPath == st.items[i].photoPath
        == Some(PhotoUrl(DigitsFromFilename(OriginalName(files[i].name)), files[i].mime))
    {
      LastNamingSetsPhoto(scans, rows, k, i);
    }
  }

  /** The route's answer. */
  datatype PhotoResponse =
    | Uploaded(total: nat, success: nat, failed: nat, items: seq<PhotoItem>)
    | BadRequest(error: string)

  /** The outcome of the whole request: the response and the new table. */
  function UploadOutcome(files: seq<UploadFile>, rows: seq<Employee>): (r: (PhotoResponse, seq<Employee>))
    ensures files == [] ==> r == (BadRequest(NoFilesError), rows)
    ensures files != [] ==> r.0.Uploaded? && r.0.total == |files|
  {
    if files == [] then (BadRequest(NoFilesError), rows)
    else
      var st := UploadUpTo(ScanAll(files), |files|, rows);
      (Uploaded(|files|, st.success, st.failed, st.items), st.rows)
  }

  /** What the route promises: no files is a bad request that changes
      nothing; otherwise `total` is the number of files, which is also the
      number of items and the sum of the two counts, the items follow the
      files, and every changed photo is one a matched item reports; a row no
      successful item names is untouched, and a named row holds the photo
      path of the last item naming it, "/uploads/employees/" + digits +
      extension; only photo paths change, so employee ids stay unique. */
  lemma {:induction false} UploadOutcomeSummary(files: seq<UploadFile>, rows: seq<Employee>, nextId: nat)
    requires WellKeyed(rows, nextId)
    ensures var (resp, rows') := UploadOutcome(files, rows);
      && (files == [] ==> resp == BadRequest(NoFilesError) && rows' == rows)
      && (files != [] ==>
            && resp.Uploaded? && resp.total == |files| == |resp.items| == resp.success + resp.failed
            && (forall i :: 0 <= i < |files| ==> resp.items[i] == UploadOne(files[i], rows).item)
            && (forall k :: 0 <= k < |rows| && rows'[k].photoPath != rows[k].photoPath ==>
                  exists i :: (0 <= i < |resp.items| && resp.items[i].success
                    && resp.items[i].employeeId == Some(rows[k].employeeId)
                    && resp.items[i].photoPath == rows'[k].photoPath))
            && (forall k :: 0 <= k < |rows| && (forall i :: 0 <= i < |files| ==> !NamesRow(resp.items[i], rows[k])) ==>
                  rows'[k] == rows[k])
            && (forall k, i :: 0 <= k < |rows| && 0 <= i < |files| && LastNaming(resp.items, i, rows[k]) ==>
                  rows'[k].photoPath == resp.items[i].photoPath
                  == Some(PhotoUrl(DigitsFromFilename(OriginalName(files[i].name)), files[i].mime))))
      && SameButPhotos(rows, rows')
      && WellKeyed(rows', nextId)
  {
    UploadTallies(ScanAll(files), |files|, rows);
    UploadItems(ScanAll(files), |files|, rows);
    ChangedPhotosWereMatched(ScanAll(files), |files|, rows);
    forall k | 0 <= k < |rows| {
      UploadSetsLastPhoto(files, rows, k);
    }
    var rows' := UploadOutcome(files, rows).1;
    SameButPhotosKeepsIds(rows, rows');
  }

  /** `POST /api/upload-photo`, handling the files in order and updating the
      table as it goes. What each file says about itself (its reported name,
      whether its type is allowed, its digits and photo URL) depends on the
      file alone, so it is read off before the loop over the table. */
  method UploadPhotos(db: EmployeeTable, files: seq<UploadFile>) returns (resp: PhotoResponse)
    requires db.Valid()
    modifies db
    ensures db.Valid() && db.nextId == old(db.nextId)
    ensures (resp, db.rows) == UploadOutcome(files, old(db.rows))
  {
    if |files| == 0 {
      return BadRequest(NoFilesError);
    }
    var success, failed, items := UploadAll(db, ScanAll(files));
    resp := Uploaded(|files|, success, failed, items);
  }

  /** The loop of the route over the files. */
  method UploadAll(db: EmployeeTable, scans: seq<ScannedFile>) returns (success: nat, failed: nat, items: seq<PhotoItem>)
    requires db.Valid()
    modifies db
    ensures db.Valid() && db.nextId == old(db.nextId)
    ensures UploadUpTo(scans, |scans|, old(db.rows)) == UploadState(db.rows, success, failed, items)
  {
    ghost var rows := db.rows;
    success, failed, items := 0, 0, [];
    var i := 0;
    while i < |scans|
      invariant 0 <= i <= |scans|
      invariant db.Valid() && db.nextId == old(db.nextId)
      invariant UploadUpTo(scans, i, rows) == UploadState(db.rows, success, failed, items)
    {
      ghost var prev := UploadState(db.rows, success, failed, items);
      ghost var r := MatchFile(scans[i], db.rows);
      var item := UploadFileTo(db, scans[i]);
      UploadStep(scans, i, rows, prev, r, db.rows);
      if item.success {
        success := success + 1;
      } else {
        failed := failed + 1;
      }
      items := items + [item];
      i := i + 1;
    }
  }

  /** One turn of the loop, seen from the specification: after file `i`
      the table is `rows'`, the file is counted and its item listed. */
  lemma {:induction false} UploadStep(scans: seq<ScannedFile>, i: nat, rows: seq<Employee>, prev: UploadState, r: FileResult, rows': seq<Employee>)
    requires i < |scans| && UploadUpTo(scans, i, rows) == prev
    requires r == MatchFile(scans[i], prev.rows)
    requires rows' == Apply(prev, r).rows
    ensures UploadUpTo(scans, i + 1, rows) == UploadState(rows',
      if r.item.success then prev.success + 1 else prev.success,
      if r.item.success then prev.failed else prev.failed + 1,
      prev.items + [r.item])
  {
  }

  /** The body of the loop for one file: refuse it, or point the photo of
      the first employee whose id ends with its digits at its URL. */
  method UploadFileTo(db: EmployeeTable, sc: ScannedFile) returns (item: PhotoItem)
    requires db.Valid()
    modifies db
    ensures db.Valid() && db.nextId == old(db.nextId)
    ensures var r := MatchFile(sc, old(db.rows));
      && item == r.item
      && db.rows == Apply(UploadState(old(db.rows), 0, 0, []), r).rows
  {
    if !sc.allowed {
      return Failed(sc.name, None, BadTypeReason);
    }
    if sc.digits == [] {
      return Failed(sc.name, None, NoDigitsReason);
    }
    var emp := FindEndingWith(db.rows, sc.digits);
    if emp.None? {
      return Failed(sc.name, Some(sc.digits), NoEmployeeReason + sc.digits);
    }
    var k := emp.value;
    item := PhotoItem(sc.name, Some(sc.digits), Some(db.rows[k].employeeId), Some(sc.photoUrl), true, None);
    db.Update(k, db.rows[k].(photoPath := Some(sc.photoUrl)));
  }
}
