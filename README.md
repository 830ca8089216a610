# flexi-card in Dafny

flexi-card is a Next.js application that manages employees and prints their
ID cards. Employees are created one at a time or imported from a CSV sheet.
Their photos are uploaded in bulk and matched to employees by the digits in
the file name. Card background templates are uploaded per side ("front" or
"back"). Card images are generated in batches, and the generated images are
downloaded as a ZIP archive. The dashboard shows counts, the cards page
filters and selects employees, and the sidebar marks the current section.

This project models the logic of that application, with the database as
sequences of records:

- `Store` holds the `Employee` and `Template` records. The classes
  `EmployeeTable` and `TemplateTable` hold the rows in table order and the
  next primary key. Their methods are the Prisma calls the routes make:
  `findUnique`, `create`, `update` and `updateMany`.
- `Text` holds the JavaScript string operations the code relies on:
  - the `\s` class, `trim`, and ASCII `toLowerCase`/`toUpperCase`;
  - `includes`, `startsWith` and `endsWith`;
  - `split`/`join`;
  - the regular expression `/(\d+)\s*$/`, proved equal to its leftmost-match
    reading.
- `Lists` holds `filter` with its order-preserving sublist property, and
  reversal.
- `Utils` models `src/lib/utils.ts`.
- `CardGenerator` models `src/lib/card-generator.ts`:
  - file-base derivation, output names and URLs, template path resolution;
  - the text lines drawn on each side (the drawing itself is not modelled).
- `CardScreenshot` models `src/lib/card-screenshot.ts`.
- `EmployeeImport` models `POST /api/employees/import`:
  - a fold over the sheet's rows (`ImportUpTo`) specifies it;
  - the method `Import` runs the loop against an `EmployeeTable`.
- `PhotoUpload` models `POST /api/upload-photo`. The fold `UploadUpTo` and
  the method `UploadPhotos` play the same two roles as in the import.
- `TemplateUpload` models `POST /api/upload/template`.
- `EmployeesRoute` models `GET` and `POST /api/employees`.
- `Stats` models `GET /api/stats`.
- `CardsBatch` models `POST /api/cards/batch`. The image generator is a
  parameter that may fail.
- `CardsDownload` models `POST /api/cards/download`. The archive is modelled
  as the list of entries added to it.
- `CardsPage` and `EmployeesPage` model the list logic of the two dashboard
  pages.
- `Sidebar` models the navigation table and the active-link test.

Each route that changes the database has two forms:

1. An `...Outcome` function of the old rows. It gives the response and the
   new rows, and the properties the route promises are proved about it.
2. A method on the table class whose `ensures` ties the response and the new
   table to that function.

Clocks, the working directory, environment variables, file existence and the
image renderer are parameters.

## Model

| member | source | states |
|---|---|---|
| Utils.FormatEmployeeId | src/lib/utils.ts:16-18 | The result has length max(4, \|id\|), ends with the id, and everything before the id is "0". |
| Utils.FormatEmployeeIdKeepsLongIds | src/lib/utils.ts:17 | An id of four or more characters comes back unchanged. |
| Utils.FormatEmployeeIdExample | src/lib/utils.ts:16-18 | "7" gives "0007", "210" gives "0210", and "8009654" stays as it is. |
| Utils.SanitizeFilename | src/lib/utils.ts:41-43 | Length is preserved, and every output character is in `[a-z0-9._-]`. |
| Utils.SanitizeFilenameAt | src/lib/utils.ts:42 | Per position: digits, ".", "-" and lower-case letters stay; upper-case ASCII letters are lower-cased; anything else becomes "_". |
| Utils.SanitizeFilenameIdempotent | src/lib/utils.ts:41-43 | Sanitising twice gives the same as sanitising once. |
| Utils.SanitizeFilenameKeepsSafeNames | src/lib/utils.ts:41-43 | A name made only of safe characters is unchanged. |
| Text.MatchEndsAtTrimEnd | src/lib/card-generator.ts:10-11 | Any match of `/(\d+)\s*$/` has its group end where trailing whitespace begins. |
| Text.TrailingDigitsIsLeftmostMatch | src/lib/card-generator.ts:10-11 | The digits taken from the end are the group that `/(\d+)\s*$/` captures: when the regex matches, its leftmost match; when it does not match, "". |
| Text.TrimStartDropsSpace | src/app/api/employees/import/route.ts:5-6 | What `trim` removes at the start is whitespace only. |
| Text.TrimEndDropsSpace | src/app/api/employees/import/route.ts:5-6 | What `trim` removes at the end is whitespace only. |
| Text.TrimHasNoSpaceEnds | src/app/api/employees/import/route.ts:5-6 | A cleaned value neither starts nor ends with whitespace. |
| Text.TrimIsInfix | src/app/api/employees/import/route.ts:5-6 | `trim` cuts a string into whitespace, the trimmed value, and whitespace. |
| Text.TrimSplitJoins | src/app/api/employees/import/route.ts:5-6 | The cut-off front, the trimmed value and the cut-off back put together give the string back. |
| Text.TrimSplitIsSpace | src/app/api/employees/import/route.ts:5-6 | What `trim` cuts off either end is whitespace only. |
| Text.TrimEmptyIffAllSpace | src/app/api/employees/import/route.ts:5-6 | `trim` gives "" exactly when the string is all whitespace. |
| Text.ToLowerKeepsSpace | src/app/dashboard/cards/page.tsx:56 | Lower-casing keeps a string all whitespace exactly when it was. |
| Text.TrimOfTrimmed | src/app/api/employees/import/route.ts:5-6 | A string that neither starts nor ends in whitespace is its own trim, so cleaning twice is cleaning once. |
| Text.ContainsIsOccurrence | src/app/dashboard/cards/page.tsx:61-63 | `includes` holds exactly when the needle occurs at some position. |
| Text.SplitFirstAndRest | src/app/api/employees/import/route.ts:12-14 | A string not starting with the separator splits into a non-empty first word without the separator, and the remaining words joined by the separator follow it. |
| Text.JoinSplit | src/app/api/employees/import/route.ts:12-14 | Joining the pieces of a split with the separator gives the string back. |
| Text.SplitPiecesAreClean | src/app/api/employees/import/route.ts:12 | No piece of a split contains the separator. |
| Text.NatToStringRoundTrip | src/app/api/employees/import/route.ts:86 | The decimal text of a row number reads back as that number. |
| CardGenerator.LastDigits | src/lib/card-generator.ts:9-12 | The result is all digits and ends the id once trailing whitespace is ignored. It is the maximal such run: either the whole trimmed id or preceded by a non-digit, so "" exactly when the id does not end in a digit. |
| CardGenerator.SafeBaseName | src/lib/card-generator.ts:17-23 | The result has no forbidden character (`/ \ : * ? " < > \|`) and no whitespace. It is empty exactly when the trimmed id is. |
| CardGenerator.ReplaceForbiddenKeepsPlain | src/lib/card-generator.ts:20-21 | Replacing forbidden characters by "_" keeps every plain character (not forbidden, not whitespace, not "_"), in order. |
| CardGenerator.DropRunKeepsPlain | src/lib/card-generator.ts:22 | Dropping the rest of a run of a class of non-plain characters keeps the plain characters, in order. |
| CardGenerator.CollapseRunsKeepsPlain | src/lib/card-generator.ts:22 | Replacing every run of a class by a non-plain character keeps the plain characters, in order. |
| CardGenerator.SafeBaseNameKeepsPlain | src/lib/card-generator.ts:17-23 | The safe name is no longer than the trimmed id, and its characters other than "_" are exactly the trimmed id's plain characters, in order: only forbidden characters and whitespace are replaced. |
| CardGenerator.CollapseRuns | src/lib/card-generator.ts:22 | Replacing runs never lengthens the string, and the result is empty exactly when the input is. |
| CardGenerator.CollapseRunsLeavesNoRun | src/lib/card-generator.ts:22 | After replacing each run of a class by a character outside the class, no character of that class remains. |
| CardGenerator.CollapseRunsIdempotent | src/lib/card-generator.ts:22 | Collapsing runs twice gives the same as collapsing once. |
| CardGenerator.GetFileBase | src/lib/card-generator.ts:29-31 | The result is never empty. It is the trailing digits when there are any; otherwise the safe base name when the trimmed id is not blank; otherwise "emp_" + the clock reading. |
| CardGenerator.CardFilesShape | src/lib/card-generator.ts:50-60 | Front and back files share the base and differ only in "_front.png" and "_back.png". Each URL is "/generated/" + the file. |
| CardGenerator.CardFilesDetermineBase | src/lib/card-generator.ts:50-53 | Two employees get the same front file exactly when their file bases are equal. |
| CardGenerator.SharedDigitsShareFiles | src/lib/card-generator.ts:50-53 | "HRPSP/BI/0210" and "HRPSP/KHI/0210" are different ids, but their card files have the same names. |
| CardGenerator.ResolveTemplatePathCases | src/lib/card-generator.ts:79-90 | "" exactly for ""; a rooted path, or a path without ":" that does not start with cwd, becomes exactly cwd + "/public/" + the path without its leading "/"; any other path is returned unchanged. |
| CardGenerator.ResolveTemplatePath | src/lib/card-generator.ts:79-90 | The result is "" exactly for "". A path starting with "/" becomes cwd + "/public" + path. A relative path without ":" that does not start with cwd becomes cwd + "/public/" + path. |
| CardGenerator.RootedPathIsPublic | src/lib/card-generator.ts:82-84 | A path starting with "/" resolves to cwd + "/public" + path. |
| CardGenerator.ResolveRejoinsPathsUnderCwd | src/lib/card-generator.ts:82-84 | An absolute path that already starts with cwd is still rooted, so it is placed under cwd/public again. |
| CardGenerator.TemplatesAreIgnored | src/lib/card-generator.ts:92-93 | `template?.path` is never set on template rows, so the fallback image is used whatever template is passed. |
| CardGenerator.OrDash | src/lib/card-generator.ts:155-162 | `x \|\| "—"`: the value when it is non-empty, otherwise "—"; never empty. |
| CardGenerator.NameLine | src/lib/card-generator.ts:120 | The name line is at most first + " " + last long, and it neither starts nor ends with whitespace. |
| CardGenerator.DesignationLine | src/lib/card-generator.ts:124 | The designation upper-cased character by character: the same length, each character the upper case of the designation's character at that place, and no lower-case ASCII letter left. |
| CardGenerator.IdLine | src/lib/card-generator.ts:128 | The id line is the id itself when the id is set, and "—" when it is empty. |
| CardGenerator.BackLines | src/lib/card-generator.ts:155-162 | Seven lines, the first being "Employee ID: " followed by the id line. |
| CardGenerator.NameLineBoth | src/lib/card-generator.ts:120 | With both names present and no surrounding whitespace, the name line is first + " " + last. |
| CardGenerator.NameLineWithoutFirst | src/lib/card-generator.ts:120 | Without a first name, the line is the trimmed last name. |
| CardGenerator.NameLineWithoutLast | src/lib/card-generator.ts:120 | Without a last name, the line is the trimmed first name. |
| CardGenerator.BackLinesFallBack | src/lib/card-generator.ts:155-162 | Seven lines. Each is its label followed by a non-empty value: the field when set, otherwise "—". Mobile falls back to the contact number, then to "—". |
| CardGenerator.GeneratedCardUsesDefaultTemplates | src/lib/card-generator.ts:92-93 | Whatever templates are passed, the images loaded are cwd/public/template/1.png and cwd/public/template/2.png. |
| CardGenerator.GenerateAndSaveCards | src/lib/card-generator.ts:133-135 | A photo is loaded exactly when `photoPath` is set and non-empty, and it is loaded from the resolved path, which is never empty. |
| CardGenerator.GeneratedCardShape | src/lib/card-generator.ts:50-60 | The returned files are those named after `getFileBase` of the id. Three lines are drawn on the front, the name, designation and id lines (lines 120-128), and seven on the back (lines 155-162). |
| CardScreenshot.GetBaseUrlCases | src/lib/card-screenshot.ts:4-19 | A set env URL wins and loses exactly one trailing "/". Otherwise a host header gives proto + "://" + host, with "http" by default. Otherwise "http://localhost:3000". |
| CardScreenshot.GetBaseUrl | src/lib/card-screenshot.ts:4-19 | A set env URL is returned less at most one trailing character; without it the result is never empty. |
| CardScreenshot.OnlyOneSlashIsDropped | src/lib/card-screenshot.ts:9 | An env URL ending in "//" keeps one "/". |
| CardScreenshot.FileBaseIsSafe | src/lib/card-screenshot.ts:22-25 | The file base is never empty. A blank id gives "emp_" + the clock reading; any other id gives a base without forbidden or whitespace characters. |
| CardScreenshot.FileBaseAgreesOnDigits | src/lib/card-screenshot.ts:22-25 | For ids ending in digits, the base equals `getFileBase` of the card generator. |
| CardScreenshot.FileBasesDisagreeWithoutDigits | src/lib/card-screenshot.ts:25 | Without digits the two helpers can differ: for an id like "a/ b", `getFileBase` gives "a__b" and `fileBaseFromEmployeeId` gives "a_b". |
| CardScreenshot.FileBasesWithoutDigits | src/lib/card-screenshot.ts:25 | For a trimmed id without trailing digits, one helper is `safeBaseName` and the other is a single collapse of forbidden-or-space runs. |
| CardScreenshot.FileBaseFromEmployeeId | src/lib/card-screenshot.ts:22-27 | The file base is never empty, and a blank id gives "emp_" + the clock reading. |
| CardScreenshot.PublicGeneratedUrl | src/lib/card-screenshot.ts:39-41 | The URL is "/generated/" followed by exactly the file name. |
| CardScreenshot.GeneratedUrlServesGeneratedPath | src/lib/card-screenshot.ts:35-41 | The public URL placed under cwd/public is the absolute generated path, and it is the URL the generator returns. |
| EmployeeImport.Cell | src/app/api/employees/import/route.ts:5-7 | A missing cell is "". A present cell is its trim: no longer than the raw cell and, by `CellHasNoSpaceEnds`, without leading or trailing whitespace. |
| EmployeeImport.CellHasNoSpaceEnds | src/app/api/employees/import/route.ts:5-7 | A cleaned cell neither starts nor ends with whitespace. |
| EmployeeImport.SplitName | src/app/api/employees/import/route.ts:9-15 | The first name is never empty and has no space: "—" for a blank name, otherwise the first word. |
| EmployeeImport.SplitNameRejoins | src/app/api/employees/import/route.ts:9-15 | A blank name gives ("—", ""). Otherwise the first name is a non-empty word without spaces, and first + " " + last rebuilds the whitespace-squashed name. |
| EmployeeImport.SplitNameOfOneWord | src/app/api/employees/import/route.ts:13 | A single word gives that word and an empty last name. |
| EmployeeImport.StartIndexSkipsHeader | src/app/api/employees/import/route.ts:79-80 | The start is 1 exactly when "employee" occurs in the cleaned, lower-cased first cell; otherwise it is 0. |
| EmployeeImport.StartIndex | src/app/api/employees/import/route.ts:79-80 | The start is 0 or 1, and 1 only for a sheet with a row. |
| EmployeeImport.GeneratedId | src/app/api/employees/import/route.ts:109 | The fallback id is a non-empty string of at most seven digits. |
| EmployeeImport.BloodGroup | src/app/api/employees/import/route.ts:134 | Never empty and never "#N/A": "" and "#N/A" become "—", any other value is kept. |
| EmployeeImport.ImportRowCases | src/app/api/employees/import/route.ts:102-139 | A row is created exactly when it has a name, a designation and a free id, under its own id when it has one. A refused row gets the missing-field or duplicate-id message with the row number. |
| EmployeeImport.ImportRow | src/app/api/employees/import/route.ts:102-139 | A created record has an id that is not taken and the row's designation. |
| EmployeeImport.NewRecordIsFilled | src/app/api/employees/import/route.ts:123-139 | The record of a row with a name and a designation is built column by column: the split name, the designation, the department or "General", the city, contact, CNIC and emergency contact or "—", the blood group with "#N/A" as "—", the contact number copied to the mobile number, and no photo. Every printed field is non-empty. |
| EmployeeImport.PlanAll | src/app/api/employees/import/route.ts:84-121 | The cells read for the j-th data row are those of that row, numbered from the first data row, one plan per row. |
| EmployeeImport.PlanAllIsReady | src/app/api/employees/import/route.ts:123-139 | Every row that would be created yields an employee ready for a card. |
| EmployeeImport.ImportTallies | src/app/api/employees/import/route.ts:84-146 | Each row counts once: success + failed grows by the number of rows, errors by the failures. The table grows by the successes only, and rows are only appended. |
| EmployeeImport.ImportKeepsKeysUnique | src/app/api/employees/import/route.ts:111-116 | The import keeps employee ids unique, rows inserted earlier in the same file included. |
| EmployeeImport.ImportedRowsAreCardReady | src/app/api/employees/import/route.ts:123-139 | Every imported employee is active, has no card yet, and has every printed field non-empty. |
| EmployeeImport.ImportOutcomeSummary | src/app/api/employees/import/route.ts:79-146 | For a parsed sheet: success + failed == rows after the header; errors == failed; the table grows by the successes; the new rows are card-ready; ids stay unique. |
| EmployeeImport.ImportOutcome | src/app/api/employees/import/route.ts:51-146 | No file gives 400 "No file provided" and a malformed sheet 400 "Invalid CSV format", both with the table unchanged; a parsed sheet gives the tallies of the final state. |
| EmployeeImport.ImportOutcomeOfSheet | src/app/api/employees/import/route.ts:79-146 | For a parsed sheet, the response is `Imported` with the tallies of the fold over the rows after the header, and the new table is that fold's. |
| EmployeeImport.Import | src/app/api/employees/import/route.ts:51-146 | The handler's response and table equal `ImportOutcome` of the old table, including the "No file provided" and "Invalid CSV format" answers. |
| EmployeeImport.ImportRows | src/app/api/employees/import/route.ts:84-146 | The loop over the data rows leaves the table and the tallies that `ImportUpTo` gives for all the rows, in order. |
| EmployeeImport.ImportOne | src/app/api/employees/import/route.ts:84-141 | One iteration, given the row's cells already read: the row's outcome against the current ids, and the table gains exactly the created record or nothing. |
| PhotoUpload.StripExtension | src/app/api/upload-photo/route.ts:11 | Strips the unique `/\.[^/.]+$/` match, or nothing when there is none. |
| PhotoUpload.DigitsFromFilename | src/app/api/upload-photo/route.ts:8-14 | The result is digits that end the stripped name, ignoring trailing whitespace, and it is the maximal such run: the whole name or preceded by a non-digit. |
| PhotoUpload.DigitsOfNumberedFile | src/app/api/upload-photo/route.ts:9 | "…0210.jpg" gives "0210". |
| PhotoUpload.DigitsOfBareNumber | src/app/api/upload-photo/route.ts:10 | "…0050", with no dot, gives "0050". |
| PhotoUpload.DigitsAfterADotAreAnExtension | src/app/api/upload-photo/route.ts:11-12 | Digits after the last dot are an extension and are stripped: "a12.0210" gives "12". |
| PhotoUpload.ExtFromMime | src/app/api/upload-photo/route.ts:16-20 | ".png" exactly for image/png, ".webp" exactly for image/webp, ".jpg" for anything else. |
| PhotoUpload.AllowedTypesKeepTheirExtension | src/app/api/upload-photo/route.ts:16-24 | Among allowed types, JPEG maps to ".jpg", PNG to ".png" and WebP to ".webp", each one-to-one. |
| PhotoUpload.IsAllowedMime | src/app/api/upload-photo/route.ts:22-24 | Every allowed type is an "image/" type with a subtype. |
| PhotoUpload.OriginalName | src/app/api/upload-photo/route.ts:56 | `name || "unknown"`: the name when there is one, "unknown" for an empty name. |
| PhotoUpload.FindEndingWith | src/app/api/upload-photo/route.ts:81-84 | The first employee whose id ends with the digits, or none when no employee's id does. |
| PhotoUpload.UploadOneCases | src/app/api/upload-photo/route.ts:56-122 | A bad type or a name without digits fails with its reason. Otherwise the file succeeds exactly when some id ends with the digits; the item then names that employee and "/uploads/employees/" + digits + ext. |
| PhotoUpload.MatchFile | src/app/api/upload-photo/route.ts:59-122 | The item is for the file, it succeeds exactly when a row is targeted, a targeted row is the one the item names, and a successful item carries the file's URL. |
| PhotoUpload.UploadOne | src/app/api/upload-photo/route.ts:56-122 | The item names the file; success means a target row, and the photo path of a success is "/uploads/employees/" + the file's digits + the type's extension. |
| PhotoUpload.ShorterDigitsStillMatch | src/app/api/upload-photo/route.ts:81-84 | A photo named with the digits of an id matches that employee. |
| PhotoUpload.UploadTallies | src/app/api/upload-photo/route.ts:41-131 | After n files: n items, success + failed == n, and only photo paths changed. |
| PhotoUpload.MatchedItems | src/app/api/upload-photo/route.ts:55-122 | One item per file, in file order, each the file's match against the table. |
| PhotoUpload.UploadItemStep | src/app/api/upload-photo/route.ts:55-122 | One more file appends exactly its own item, matched against the table as it was before the upload. |
| PhotoUpload.UploadItems | src/app/api/upload-photo/route.ts:55-122 | The items follow the files in order, each as matched against the ids. |
| PhotoUpload.ChangedPhotosWereMatched | src/app/api/upload-photo/route.ts:110-122 | Every employee whose photo changed is named by a successful item carrying the new path. |
| PhotoUpload.UploadStepRow | src/app/api/upload-photo/route.ts:110-113 | One file changes a row only when it targets it, and then only its photo path, to the file's URL. |
| PhotoUpload.UnmatchedRowKeepsPhoto | src/app/api/upload-photo/route.ts:110-113 | A row no file targets is unchanged. |
| PhotoUpload.LastMatchSetsPhoto | src/app/api/upload-photo/route.ts:110-113 | A row targeted by some file holds the photo path of the last file targeting it: later uploads overwrite earlier ones. |
| PhotoUpload.TargetIsNamedRow | src/app/api/upload-photo/route.ts:81-122 | With unique ids, a file targets a row exactly when its item succeeds naming that row's id. |
| PhotoUpload.NamingIsTargeting | src/app/api/upload-photo/route.ts:81-122 | With unique ids, file i targets row k exactly when item i succeeds naming that row's id. |
| PhotoUpload.UnnamedRowKeepsPhoto | src/app/api/upload-photo/route.ts:110-113 | With unique ids, a row no successful item names is unchanged. |
| PhotoUpload.LastNamingSetsPhoto | src/app/api/upload-photo/route.ts:110-121 | With unique ids, a named row holds the photo path of the last item naming it. |
| PhotoUpload.UploadSetsLastPhoto | src/app/api/upload-photo/route.ts:55-122 | One item per file; a row no item names is unchanged, and a named row holds "/uploads/employees/" + digits + extension of the last file naming it. |
| PhotoUpload.UploadOutcomeSummary | src/app/api/upload-photo/route.ts:31-131 | No files gives 400 "No files provided" and no change. Otherwise total == files == items == success + failed, items follow the files, changed photos were matched, a row no item names is unchanged, and a named row holds the URL of the last file naming it. Only photo paths change and ids stay unique. |
| PhotoUpload.UploadOutcome | src/app/api/upload-photo/route.ts:31-131 | No files gives 400 "No files provided" and the old rows; otherwise an upload summary whose total is the number of files. |
| PhotoUpload.UploadPhotos | src/app/api/upload-photo/route.ts:26-131 | The handler's response and table equal `UploadOutcome` of the old table. |
| PhotoUpload.UploadAll | src/app/api/upload-photo/route.ts:55-131 | The loop's counters, items and table equal the fold over all files. |
| PhotoUpload.UploadFileTo | src/app/api/upload-photo/route.ts:56-122 | One iteration: the item is the file's match, and the table changes only as that match says. |
| TemplateUpload.TemplateName | src/app/api/upload/template/route.ts:43 | The given name, or the type followed by " template". |
| TemplateUpload.TemplateImagePath | src/app/api/upload/template/route.ts:28-45 | "/uploads/templates/" + type + "_" + clock reading + ext, part by part. |
| TemplateUpload.AfterUpload | src/app/api/upload/template/route.ts:34-48 | The table grows by one, ending with the new template. Ids and types are kept, other types are untouched, and the type's old rows are deactivated. An active new template is the only active one of its type, and one active template per type is preserved. |
| TemplateUpload.UploadTemplateOutcome | src/app/api/upload/template/route.ts:13-48 | Without a file or type: 400 and no change. Otherwise an active template of that type under the next key, with the default name and the image path, stored after deactivating its type. |
| TemplateUpload.UploadTemplate | src/app/api/upload/template/route.ts:13-48 | The handler's response and table equal `UploadTemplateOutcome` of the old table. |
| Store.Materialise | src/app/api/employees/route.ts:37-54 | A created row carries the key, is active and has no card, and its fields read back as exactly the given ones. |
| Store.FindKey | src/app/api/employees/route.ts:26-29 | `findUnique` by employee id: the row with that id, or none when no row has it. |
| Store.Deactivated | src/app/api/upload/template/route.ts:35-38 | `updateMany`: rows of the type become inactive, the others are unchanged. |
| Store.EmployeeTable.FindByEmployeeId | src/app/api/employees/route.ts:26-29 | As `FindKey`, on the table's rows. |
| Store.EmployeeTable.Create | src/app/api/employees/route.ts:37-54 | Appends `Materialise` of the fields under the next key. |
| Store.EmployeeTable.Update | src/app/api/cards/batch/route.ts:48-55 | Replaces one row, keeping its keys. |
| Store.TemplateTable.DeactivateKind | src/app/api/upload/template/route.ts:35-38 | The rows become `Deactivated` of the old rows. |
| Store.TemplateTable.Create | src/app/api/upload/template/route.ts:41-48 | Appends the template under the next key. |
| EmployeesRoute.ListEmployees | src/app/api/employees/route.ts:6-9 | Exactly the active employees, newest first: reversed, the list is an order-preserving sublist of the table. |
| EmployeesRoute.StoredFields | src/app/api/employees/route.ts:37-54 | The fields are stored as given, except an empty `photoPath`, which becomes null. |
| EmployeesRoute.CreateEmployeeOutcome | src/app/api/employees/route.ts:26-54 | A taken id, inactive rows included, gives 400 "Employee ID already exists" and no change. Otherwise exactly one row is appended under the next key. Unique ids are preserved. |
| EmployeesRoute.CreateEmployee | src/app/api/employees/route.ts:21-54 | The handler's response and table equal `CreateEmployeeOutcome` of the old table. |
| Stats.GetStats | src/app/api/stats/route.ts:6-12 | Counts: active employees, active employees with a card, active templates of any type. `pendingCards` == total − generated, and it is never negative. |
| Stats.PendingCardsAreActiveWithoutCard | src/app/api/stats/route.ts:7-12 | `pendingCards` is the number of active employees without a card. |
| CardsBatch.Selection | src/app/api/cards/batch/route.ts:11-18 | The selected rows in table order: with ids, the rows with those keys whether active or not; without ids, the active rows. |
| CardsBatch.FirstActive | src/app/api/cards/batch/route.ts:28-31 | An active template of the type, or none when there is none. |
| CardsBatch.FirstActiveIsTheActiveOne | src/app/api/cards/batch/route.ts:28-31 | With one active template per type, the lookup finds exactly that template. |
| CardsBatch.GenerateSavesTheGeneratorsFiles | src/app/api/cards/batch/route.ts:42-46 | A render that does not fail gives the files `generateAndSaveCards` names, whatever templates are active. |
| CardsBatch.Generate | src/app/api/cards/batch/route.ts:42-46 | The render gives files exactly when the generator does not fail for the employee and the two templates found. |
| CardsBatch.BatchTallies | src/app/api/cards/batch/route.ts:33-62 | After n employees: success + failed == n, errors == failed, and the errors are the failure messages in selection order. Each error is "Failed to generate card for " + the id of an employee that failed, and each failed employee has its message. |
| CardsBatch.BatchCounts | src/app/api/cards/batch/route.ts:33-62 | After n employees: success + failed == n, and the errors are exactly `FailureMessages`, one per failure, in selection order. |
| CardsBatch.FailureMessages | src/app/api/cards/batch/route.ts:58-61 | One message per failed employee among the first n, so no more than n messages. |
| CardsBatch.FailureMessagesSound | src/app/api/cards/batch/route.ts:58-61 | Each failure message names one of the first n employees whose generation failed. |
| CardsBatch.FailureMessagesComplete | src/app/api/cards/batch/route.ts:58-61 | Each of the first n employees whose generation failed has its message. |
| CardsBatch.BatchKeepsKeys | src/app/api/cards/batch/route.ts:47-55 | The updates only touch card fields: every row keeps its primary key and employee id. |
| CardsBatch.BatchRows | src/app/api/cards/batch/route.ts:40-62 | After n employees: each processed row that rendered has its card set, failed rows and unprocessed rows are unchanged. |
| CardsBatch.BatchOutcomeSummary | src/app/api/cards/batch/route.ts:11-64 | 404 "No employees found" exactly when nothing is selected, and then no change. Otherwise success + failed == selected and errors == failed. Each message is "Failed to generate card for " + the id of a selected employee whose generation with the active templates failed, and each such employee has its message. Unselected rows never change; a selected row gets `cardGenerated` and the generated URLs exactly when its generation succeeds. Keys stay unique. |
| CardsBatch.BatchAnswer | src/app/api/cards/batch/route.ts:33-64 | When something is selected: one count per selected employee, and the messages name exactly the selected employees whose generation failed. |
| CardsBatch.BatchTable | src/app/api/cards/batch/route.ts:40-62 | Unselected rows never change; a selected row gets its generated card exactly when generation with the active templates succeeds; keys stay unique. |
| CardsBatch.SelectionFailures | src/app/api/cards/batch/route.ts:40-61 | Messages naming exactly the failed positions of the selection name exactly the failed selected rows of the table. |
| CardsBatch.BatchOutcome | src/app/api/cards/batch/route.ts:11-64 | The answer is 404 exactly when nothing is selected, and then it is "No employees found" with the rows unchanged. |
| CardsBatch.GenerateBatch | src/app/api/cards/batch/route.ts:8-64 | The handler's response and table equal `BatchOutcome` of the old table. |
| CardsBatch.GenerateAll | src/app/api/cards/batch/route.ts:40-62 | The loop's counters, errors and table equal the fold over all selected employees. |
| CardsDownload.Qualifying | src/app/api/cards/download/route.ts:11-20 | Exactly the active employees with a generated card, restricted to the ids when given, in table order. |
| CardsDownload.SideEntry | src/app/api/cards/download/route.ts:37-48 | One entry exactly when the path is set and the file under public exists, named after the employee and the side. |
| CardsDownload.EmployeeEntriesShape | src/app/api/cards/download/route.ts:36-49 | Each employee gives at most two entries, the front first. |
| CardsDownload.EmployeeEntries | src/app/api/cards/download/route.ts:36-49 | At most two entries, each named after the employee with the front or back suffix. |
| CardsDownload.ZipEntries | src/app/api/cards/download/route.ts:36-49 | At most two entries per employee. |
| CardsDownload.ZipEntriesAppend | src/app/api/cards/download/route.ts:36-49 | Employee order is kept: the entries of a list are those of its parts, concatenated. |
| CardsDownload.EntriesNameListedEmployees | src/app/api/cards/download/route.ts:40-46 | Every entry is named `${employeeId}_${firstName}_${lastName}` plus "_front.png" or "_back.png", for a listed employee. |
| CardsDownload.DownloadOutcome | src/app/api/cards/download/route.ts:14-58 | 404 "No cards found to download" exactly when no employee qualifies. Otherwise the archive is "employee_cards_" + clock + ".zip", and its entries are exactly the `ZipEntries` of the qualifying employees, at most two per employee. |
| CardsDownload.PlanArchive | src/app/api/cards/download/route.ts:36-49 | The loop adds exactly `ZipEntries` of the employees. |
| CardsDownload.DownloadCards | src/app/api/cards/download/route.ts:8-58 | The handler's response equals `DownloadOutcome`. |
| Lists.Filter | src/app/dashboard/cards/page.tsx:59-64 | `filter`: the elements passing the test, as an order-preserving sublist. |
| Lists.FilterPartition | src/app/dashboard/cards/page.tsx:67-68 | When a test splits into two disjoint tests, its count is the sum of theirs. |
| CardsPage.FilteredEmployees | src/app/dashboard/cards/page.tsx:55-65 | A blank key gives the whole list. Otherwise the employees whose lower-cased first name, last name or id contains the key, as an order-preserving sublist. |
| CardsPage.SearchKey | src/app/dashboard/cards/page.tsx:56 | The key is the lower-cased search with whitespace cut off both ends: the lower-cased search is whitespace + key + whitespace, the key neither starts nor ends with whitespace, and it is "" exactly when the search is all whitespace. |
| CardsPage.GeneratedCount | src/app/dashboard/cards/page.tsx:67 | The number of employees with a generated card, at most the number of employees. |
| CardsPage.PendingCount | src/app/dashboard/cards/page.tsx:67-68 | `employees.length - generatedCount` is never negative and is the number of employees without a card. |
| CardsPage.ToggleSelect | src/app/dashboard/cards/page.tsx:70-74 | An absent id is appended. A present id is filtered out, every copy, with the others kept in order. No duplicates is preserved. |
| CardsPage.ToggleTwiceRestores | src/app/dashboard/cards/page.tsx:70-74 | Toggling an absent id twice restores the selection. |
| CardsPage.Ids | src/app/dashboard/cards/page.tsx:82 | The ids of the filtered employees, in order. |
| CardsPage.ToggleSelectAll | src/app/dashboard/cards/page.tsx:76-84 | No change for an empty filtered list. A clear when the lengths are equal, comparing lengths only. Otherwise the selection becomes exactly the filtered ids, in order. |
| CardsPage.SelectAllThenClear | src/app/dashboard/cards/page.tsx:76-84 | From nothing, select-all selects the filtered ids in order, and a second press clears them. |
| CardsPage.RequestCarriesSelection | src/app/dashboard/cards/page.tsx:94-123 | The routes read back exactly the selection. An empty selection is sent as "undefined", which the routes read as every employee. |
| CardsPage.RequestIds | src/app/dashboard/cards/page.tsx:94 | The body carries the selection, and no ids exactly when nothing is selected. |
| CardsPage.RouteIds | src/app/api/cards/batch/route.ts:11 | The ids sent, or the empty list when the body has none. |
| EmployeesPage.FilteredEmployees | src/app/dashboard/employees/page.tsx:58-64 | Matches on lower-cased first name, last name or department, or on the raw id with case. The result is an order-preserving sublist, and an empty search keeps everyone. |
| EmployeesPage.AfterDelete | src/app/dashboard/employees/page.tsx:50-52 | On an OK response, exactly the employees with another id remain, in order. Otherwise the list is unchanged. |
| EmployeesPage.DeletingAnAbsentIdKeepsTheList | src/app/dashboard/employees/page.tsx:50-52 | Deleting an id no one has leaves the list as it was. |
| Sidebar.IsActive | src/components/layout/sidebar.tsx:35 | An active path starts with the link, and a path equal to the link is active. |
| Sidebar.ActiveNeedsSlash | src/components/layout/sidebar.tsx:35 | A path extending a link is active exactly when the extension starts with "/". |
| Sidebar.BoundaryIsRequired | src/components/layout/sidebar.tsx:35 | "/dashboard/employeesX" does not activate "/dashboard/employees". |
| Sidebar.NestedLinksAreBothActive | src/components/layout/sidebar.tsx:35 | A path that activates a nested link also activates its parent. |
| Sidebar.DashboardStaysActive | src/components/layout/sidebar.tsx:16-35 | Whenever another item is active, "/dashboard" is active too. |
| Sidebar.NavigationIsWellFormed | src/components/layout/sidebar.tsx:16-23 | Six items, with distinct names and distinct hrefs. |

## Left out

- Dates are not modelled: `parseDateSmart`, `parseCSVDate`, `formatDate` and the `dateOfBirth`/`dateOfJoining` fields. They depend on the engine's `new Date(string)` parsing and on locale formatting.
- The canvas drawing is not modelled: image loading, `drawImage`, fonts, colours and coordinates, and `toBuffer`. Only the strings drawn and the images loaded are kept.
- File writes, `mkdir` and the bytes of uploaded files are not modelled. File existence is the parameter `fileExists`.
- `path.join` and `path.extname` are taken as plain concatenation (`PublicPath`), with the extension as a parameter. Normalisation of "." and ".." segments and of doubled slashes is not modelled.
- Papaparse tokenising is not modelled. The sheet arrives as rows of cells or as `Malformed`, which gives "Invalid CSV format".
- The archive's ZIP encoding is not modelled. The model is the list of entries added to it and the archive's file name.
- Prisma has no `orderBy` in `findFirst` and `findMany`, and the order it returns is not specified. The model takes table order. `createdAt desc` is taken as reverse table order.
- Database keys are natural numbers handed out by a counter. The schema's string ids are not modelled.
- A `null` field is modelled as "", except `photoPath`, card paths and the optional request headers, which use `Option`.
- `toLowerCase` and `toUpperCase` map ASCII letters only. JavaScript's full Unicode case mapping is not modelled, and strings are sequences of characters, not UTF-16 code units.
- Clocks, `process.cwd()`, `process.env` and request headers are parameters. The model reads the clock once, as one `now` for the whole sheet, so each row's fallback id is `now + i`. The source calls `Date.now()` again for each row (src/app/api/employees/import/route.ts:109). Every fallback id still goes through the `findUnique` duplicate test, so no proved property depends on this choice.
- `isActive = true` and `cardGenerated = false` on a new employee are taken as the schema's defaults. The Prisma schema is not part of this model, and neither src/app/api/employees/route.ts:37-54 nor src/app/api/employees/import/route.ts:123-138 sets them. EmployeeImport.ImportedRowsAreCardReady and the card-ready clause of EmployeeImport.ImportOutcomeSummary rest on this assumption.
- EmployeeImport.GeneratedId: keeps the last seven digits of `now + i` as the source does, but the contract states only that the id is one to seven digits.
- The `catch` paths are not modelled: the 500 responses, "Row n: Failed to import" and the per-file upload failure. They are taken only on I/O or database errors, which the model does not have.
- CardsBatch.Generate: the renderer is a parameter that may fail for any employee. When it succeeds, it returns the files named after `getFileBase`; the lemma `GenerateSavesTheGeneratorsFiles` ties these to `GenerateAndSaveCards`.
- CardsBatch.GenerateBatch: passes the two templates it looks up to the generator, whose failure may depend on them; the files' names do not. It renders the selected employees first and then applies the table updates in selection order. Rendering reads only the employee read at the start, so the updates are the same as the source's interleaved ones.
- EmployeeImport.Import: reads every row's cells before the loop (`PlanAll`). The cells depend only on the row, so the table updates are the same as the source's.
- PhotoUpload.UploadPhotos: computes every file's name, digits and URL before the loop. These depend only on the file, so the loop's updates are the same as the source's.
- The active templates are looked up as the route does, but `generateAndSaveCards` reads `template?.path`, which template rows do not have. The model keeps this: the fallback images are always used.
- CardsPage.ToggleSelectAll: compares lengths only, as written. A selection of the same size but with different ids is cleared.
- `Promise.all` is not modelled. It only runs independent reads at the same time.
- React markup, event handlers, `cn`, `generateEmployeeId`, and the forms of the other pages are not modelled.
- Not part of this model: `src/app/api/upload/photo/route.ts`, `prisma/seed.ts`, `src/types/index.ts`, and bcrypt/next-auth.
