/**
 * The naming and text rules of `src/lib/card-generator.ts`: which files the
 * front and back images of an employee's card are written to, where the
 * template images are read from, and which lines of text are drawn on each
 * side. The drawing itself is not modelled.
 */
module CardGenerator {
  import opened Wrappers
  import opened Text
  import opened Store
  import opened Lists

  /** `lastDigits`: the run of digits at the end of the id, trailing
      whitespace ignored, or "" when the id does not end in a digit. */
  function LastDigits(employeeId: string): (r: string)
    ensures AllDigits(r) && EndsWith(TrimEnd(employeeId), r)
    ensures |r| == |TrimEnd(employeeId)|
      || !IsDigit(TrimEnd(employeeId)[|TrimEnd(employeeId)| - |r| - 1])
  {
    TrailingDigits(employeeId)
  }

  /** The characters Windows forbids in file names, replaced one by one. */
  predicate IsForbidden(c: char) {
    c == '/' || c == '\\' || c == ':' || c == '*' || c == '?' || c == '"' || c == '<' || c == '>' || c == '|'
  }

  /** `.replace(/[\/\\]/g, "_").replace(/[:*?"<>|]/g, "_")` */
  function ReplaceForbidden(s: string): (r: string)
    ensures |r| == |s|
    ensures forall i :: 0 <= i < |s| ==> r[i] == if IsForbidden(s[i]) then '_' else s[i]
  {
    seq(|s|, i requires 0 <= i < |s| => if IsForbidden(s[i]) then '_' else s[i])
  }

  /** The character classes whose runs the source collapses: `\s+` in
      `safeBaseName`, and `[\/\\:*?"<>|\s]+` in `fileBaseFromEmployeeId`. */
  datatype RunClass = Whitespace | ForbiddenOrWhitespace

  predicate InRun(k: RunClass, c: char) {
    match k
    case Whitespace => IsSpace(c)
    case ForbiddenOrWhitespace => IsForbidden(c) || IsSpace(c)
  }

  /** Neither class contains "_", the replacement character. */
  lemma {:induction false} UnderscoreIsInNoRun(k: RunClass)
    ensures !InRun(k, '_')
  {
  }

  /** The leading run of characters of class `cls` removed. */
  function DropRun(s: string, cls: RunClass): (r: string)
    ensures |r| <= |s| && r == s[|s| - |r|..]
    ensures s != [] && InRun(cls, s[0]) ==> |r| < |s|
    ensures r == [] || !InRun(cls, r[0])
  {
    if s != [] && InRun(cls, s[0]) then DropRun(s[1..], cls) else s
  }

  /** `DropRun` on a string given by its first character. */
  lemma {:induction false} DropRunCons(x: char, t: string, cls: RunClass)
    ensures DropRun([x] + t, cls) == if InRun(cls, x) then DropRun(t, cls) else [x] + t
  {
    assert ([x] + t)[1..] == t;
  }

  /** `s.replace(/[...]+/g, fill)`: every maximal run of characters of class
      `cls` becomes one `fill`; other characters stay. */
  function CollapseRuns(s: string, cls: RunClass, fill: char): (r: string)
    ensures |r| <= |s| && (r == [] <==> s == [])
    decreases |s|
  {
    if s == [] then []
    else if InRun(cls, s[0]) then [fill] + CollapseRuns(DropRun(s, cls), cls, fill)
    else [s[0]] + CollapseRuns(s[1..], cls, fill)
  }

  /** `CollapseRuns` on a string given by its first character. */
  lemma {:induction false} CollapseRunsCons(x: char, t: string, cls: RunClass, fill: char)
    ensures CollapseRuns([x] + t, cls, fill) ==
      if InRun(cls, x) then [fill] + CollapseRuns(DropRun(t, cls), cls, fill) else [x] + CollapseRuns(t, cls, fill)
  {
    assert ([x] + t)[1..] == t;
    DropRunCons(x, t, cls);
  }

  /** With a fill outside the class, no character of the class survives. */
  lemma {:induction false} CollapseRunsLeavesNoRun(s: string, cls: RunClass, fill: char)
    requires !InRun(cls, fill)
    ensures forall i :: 0 <= i < |CollapseRuns(s, cls, fill)| ==> !InRun(cls, CollapseRuns(s, cls, fill)[i])
    decreases |s|
  {
    if s != [] {
      var head, rest := if InRun(cls, s[0]) then fill else s[0], if InRun(cls, s[0]) then DropRun(s, cls) else s[1..];
      var tail := CollapseRuns(rest, cls, fill);
      assert CollapseRuns(s, cls, fill) == [head] + tail;
      CollapseRunsLeavesNoRun(rest, cls, fill);
      forall i | 0 <= i < |[head] + tail|
        ensures !InRun(cls, ([head] + tail)[i])
      {
        if i > 0 {
          assert ([head] + tail)[i] == tail[i - 1];
        }
      }
    }
  }

  /** Every character of the result is `fill` or a character of the input,
      so a property that `fill` and all input characters have, the result
      has too. */
  lemma {:induction false} CollapseRunsKeeps(s: string, cls: RunClass, fill: char, keep: char -> bool)
    requires keep(fill)
    requires forall i :: 0 <= i < |s| ==> keep(s[i])
    ensures forall i :: 0 <= i < |CollapseRuns(s, cls, fill)| ==> keep(CollapseRuns(s, cls, fill)[i])
    decreases |s|
  {
    if s != [] {
      if InRun(cls, s[0]) {
        var rest := DropRun(s, cls);
        assert forall i :: 0 <= i < |rest| ==> rest[i] == s[|s| - |rest| + i];
        CollapseRunsKeeps(rest, cls, fill, keep);
      } else {
        CollapseRunsKeeps(s[1..], cls, fill, keep);
      }
    }
  }

  /** A non-empty run collapses to a single `fill`. */
  lemma {:induction false} CollapseRunsOfRun(s: string, cls: RunClass, fill: char)
    requires s != []
    requires forall i :: 0 <= i < |s| ==> InRun(cls, s[i])
    ensures CollapseRuns(s, cls, fill) == [fill]
  {
    assert DropRun(s, cls) == [];
  }

  /** A string without run characters is left unchanged. */
  lemma {:induction false} CollapseRunsKeepsClean(s: string, cls: RunClass, fill: char)
    requires forall i :: 0 <= i < |s| ==> !InRun(cls, s[i])
    ensures CollapseRuns(s, cls, fill) == s
    decreases |s|
  {
    if s != [] {
      CollapseRunsKeepsClean(s[1..], cls, fill);
    }
  }

  /** With a fill outside the class, collapsing twice is collapsing once. */
  lemma {:induction false} CollapseRunsIdempotent(s: string, cls: RunClass, fill: char)
    requires !InRun(cls, fill)
    ensures CollapseRuns(CollapseRuns(s, cls, fill), cls, fill) == CollapseRuns(s, cls, fill)
  {
    CollapseRunsLeavesNoRun(s, cls, fill);
    CollapseRunsKeepsClean(CollapseRuns(s, cls, fill), cls, fill);
  }

  /** `safeBaseName`: the trimmed id with each forbidden character replaced
      by "_" and each whitespace run collapsed to one "_". */
  function SafeBaseName(employeeId: string): (r: string)
    ensures forall i :: 0 <= i < |r| ==> !IsForbidden(r[i]) && !IsSpace(r[i])
    ensures r == [] <==> Trim(employeeId) == []
  {
    var replaced := ReplaceForbidden(Trim(employeeId));
    CollapseRunsKeeps(replaced, Whitespace, '_', c => !IsForbidden(c));
    CollapseRunsLeavesNoRun(replaced, Whitespace, '_');
    CollapseRuns(replaced, Whitespace, '_')
  }

  /** The characters the file name keeps as they are: neither forbidden,
      nor whitespace, nor the "_" that stands in for those. */
  predicate Plain(c: char) {
    !IsForbidden(c) && !IsSpace(c) && c != '_'
  }

  /** Dropping a run removes no plain character. */
  lemma {:induction false} DropRunKeepsPlain(s: string, cls: RunClass)
    ensures Filter(DropRun(s, cls), Plain) == Filter(s, Plain)
    decreases |s|
  {
    if s != [] && InRun(cls, s[0]) {
      DropRunKeepsPlain(s[1..], cls);
    }
  }

  /** Collapsing runs into a non-plain fill keeps the plain characters, in
      their order. */
  lemma {:induction false} CollapseRunsKeepsPlain(s: string, cls: RunClass, fill: char)
    requires !Plain(fill)
    ensures Filter(CollapseRuns(s, cls, fill), Plain) == Filter(s, Plain)
    decreases |s|
  {
    if s != [] {
      if InRun(cls, s[0]) {
        var t := CollapseRuns(DropRun(s, cls), cls, fill);
        assert ([fill] + t)[1..] == t;
        CollapseRunsKeepsPlain(DropRun(s, cls), cls, fill);
        DropRunKeepsPlain(s, cls);
      } else {
        var t := CollapseRuns(s[1..], cls, fill);
        assert ([s[0]] + t)[1..] == t;
        CollapseRunsKeepsPlain(s[1..], cls, fill);
      }
    }
  }

  /** Replacing forbidden characters keeps the plain ones, in their order. */
  lemma {:induction false} ReplaceForbiddenKeepsPlain(s: string)
    ensures Filter(ReplaceForbidden(s), Plain) == Filter(s, Plain)
    decreases |s|
  {
    if s != [] {
      var r := ReplaceForbidden(s);
      assert r[1..] == ReplaceForbidden(s[1..]);
      ReplaceForbiddenKeepsPlain(s[1..]);
    }
  }

  function NotUnderscore(c: char): bool {
    c != '_'
  }

  /** The safe base name is no longer than the trimmed id, and apart from
      its "_" characters it is exactly the id's plain characters in their
      order: nothing else is dropped, added or reordered. */
  lemma {:induction false} SafeBaseNameKeepsPlain(employeeId: string)
    ensures |SafeBaseName(employeeId)| <= |Trim(employeeId)|
    ensures Filter(SafeBaseName(employeeId), NotUnderscore) == Filter(Trim(employeeId), Plain)
  {
    var replaced := ReplaceForbidden(Trim(employeeId));
    var r := SafeBaseName(employeeId);
    FilterSameOn(r, NotUnderscore, Plain);
    CollapseRunsKeepsPlain(replaced, Whitespace, '_');
    ReplaceForbiddenKeepsPlain(Trim(employeeId));
  }

  /** `getFileBase`: the trailing digits, else the safe base name, else
      "emp_" followed by the clock reading `stamp` (`Date.now()`). */
  function GetFileBase(employeeId: string, stamp: string): (r: string)
    ensures r != []
    ensures LastDigits(employeeId) != [] ==> r == LastDigits(employeeId)
    ensures LastDigits(employeeId) == [] && Trim(employeeId) != [] ==> r == SafeBaseName(employeeId)
    ensures Trim(employeeId) == [] ==> r == "emp_" + stamp
  {
    var digits := LastDigits(employeeId);
    TrailingDigitsOfTrim(employeeId);
    if digits != [] then digits
    else
      var safe := SafeBaseName(employeeId);
      if safe != [] then safe else "emp_" + stamp
  }

  /** The image files of one card and their public URLs. */
  datatype CardFiles = CardFiles(frontFile: string, backFile: string, frontUrl: string, backUrl: string)

  function FrontFile(base: string): string { base + "_front.png" }
  function BackFile(base: string): string { base + "_back.png" }
  function GeneratedUrl(file: string): string { "/generated/" + file }

  /** The files and URLs for a given base name (lines 52-60 of
      `generateAndSaveCards`). */
  function CardFilesFrom(base: string): CardFiles {
    CardFiles(FrontFile(base), BackFile(base), GeneratedUrl(FrontFile(base)), GeneratedUrl(BackFile(base)))
  }

  /** The files of an employee's card: named after `getFileBase` of the id. */
  function CardFilesFor(employeeId: string, stamp: string): CardFiles {
    CardFilesFrom(GetFileBase(employeeId, stamp))
  }

  /** Front and back share one base and differ only in their suffixes; each
      URL is the file under "/generated/". */
  lemma {:induction false} CardFilesShape(base: string)
    ensures var f := CardFilesFrom(base);
      && f.frontFile[..|base|] == base && f.frontFile[|base|..] == "_front.png"
      && f.backFile[..|base|] == base && f.backFile[|base|..] == "_back.png"
      && f.frontFile != f.backFile
      && f.frontUrl == "/generated/" + f.frontFile && f.backUrl == "/generated/" + f.backFile
  {
    SuffixSplit(base, "_front.png");
    SuffixSplit(base, "_back.png");
    assert FrontFile(base)[|base| + 1] == 'f' && BackFile(base)[|base| + 1] == 'b';
  }

  lemma {:induction false} SuffixSplit(base: string, suffix: string)
    ensures (base + suffix)[..|base|] == base && (base + suffix)[|base|..] == suffix
  {
  }

  /** The file name determines the base: two ids get the same files exactly
      when they get the same base. */
  lemma {:induction false} CardFilesDetermineBase(id1: string, id2: string, stamp: string)
    ensures CardFilesFor(id1, stamp).frontFile == CardFilesFor(id2, stamp).frontFile
        <==> GetFileBase(id1, stamp) == GetFileBase(id2, stamp)
  {
    var b1, b2 := GetFileBase(id1, stamp), GetFileBase(id2, stamp);
    if FrontFile(b1) == FrontFile(b2) {
      SuffixSplit(b1, "_front.png");
      SuffixSplit(b2, "_front.png");
    }
  }

  /** Two different employees whose ids end in the same digits are given the
      same image files, so the later card overwrites the earlier one; for
      example "HRPSP/BI/0210" and "HRPSP/KHI/0210". */
  lemma {:induction false} SharedDigitsShareFiles(id1: string, id2: string, stamp: string)
    requires id1 == "HRPSP/BI/0210" && id2 == "HRPSP/KHI/0210"
    ensures id1 != id2 && CardFilesFor(id1, stamp) == CardFilesFor(id2, stamp)
  {
    assert id1[9..] == id2[10..] && id1[8] == '/' && id2[9] == '/';
    assert id1 == id1[..9] + id1[9..] && id2 == id2[..10] + id2[10..];
    TrailingDigitsOfIdEndingInDigits(id1[..9], id1[9..]);
    TrailingDigitsOfIdEndingInDigits(id2[..10], id2[10..]);
  }

  /** `path.join(process.cwd(), "public", p)` for a path without "." or ".."
      segments. */
  function PublicPath(cwd: string, p: string): string {
    cwd + "/public" + (if StartsWith(p, "/") then p else "/" + p)
  }

  /** `resolveTemplatePath`, with the working directory as a parameter. */
  function ResolveTemplatePath(templatePath: string, cwd: string): (r: string)
    ensures r == [] <==> templatePath == []
    ensures StartsWith(templatePath, "/") ==> r == cwd + "/public" + templatePath
    ensures (templatePath != [] && !StartsWith(templatePath, "/") && !Contains(templatePath, ":")
             && !StartsWith(templatePath, cwd)) ==> r == cwd + "/public/" + templatePath
  {
    if templatePath == "" then ""
    else if StartsWith(templatePath, "/") then PublicPath(cwd, templatePath)
    else if !Contains(templatePath, ":") && !StartsWith(templatePath, cwd) then PublicPath(cwd, templatePath)
    else templatePath
  }

  /** The three outcomes of `resolveTemplatePath`: "" for "", the path placed
      under `cwd/public` when it is rooted or plainly relative, and the path
      itself otherwise. */
  lemma {:induction false} ResolveTemplatePathCases(templatePath: string, cwd: string)
    ensures var r := ResolveTemplatePath(templatePath, cwd);
      && (r == "" <==> templatePath == "")
      && (templatePath != "" && (StartsWith(templatePath, "/")
            || (!Contains(templatePath, ":") && !StartsWith(templatePath, cwd)))
          ==> (StartsWith(r, cwd + "/public/")
               && r == cwd + "/public/" + (if StartsWith(templatePath, "/") then templatePath[1..] else templatePath)))
      && (templatePath != "" && !StartsWith(templatePath, "/")
            && (Contains(templatePath, ":") || StartsWith(templatePath, cwd))
          ==> r == templatePath)
  {
    var r := ResolveTemplatePath(templatePath, cwd);
    if templatePath != "" && (StartsWith(templatePath, "/") || (!Contains(templatePath, ":") && !StartsWith(templatePath, cwd))) {
      var tail := if StartsWith(templatePath, "/") then templatePath else "/" + templatePath;
      assert r == (cwd + "/public") + tail;
      assert tail[0] == '/';
      assert tail == "/" + tail[1..];
      assert r[..|cwd + "/public/"|] == cwd + "/public/";
    }
  }

  /** On a system whose working directory is absolute, a path that already
      lies under it is rooted, so the `startsWith(cwd)` test is never reached
      and the path is placed under `cwd/public` a second time. */
  lemma {:induction false} ResolveRejoinsPathsUnderCwd(templatePath: string, cwd: string)
    requires StartsWith(cwd, "/") && StartsWith(templatePath, cwd)
    ensures ResolveTemplatePath(templatePath, cwd) == cwd + "/public" + templatePath
  {
    assert templatePath[0] == cwd[0];
  }

  /** `template?.path`: a template row has no `path` column (its image is
      stored in `imagePath`), so the property is always undefined. */
  function PathProperty(template: Option<Template>): Option<string> {
    None
  }

  /** `template?.path || fallback` */
  function TemplateSource(template: Option<Template>, fallback: string): string {
    match PathProperty(template)
    case Some(p) => if p != "" then p else fallback
    case None => fallback
  }

  /** Whatever template is active, the fallback image is used. */
  lemma {:induction false} TemplatesAreIgnored(template: Option<Template>, fallback: string)
    ensures TemplateSource(template, fallback) == fallback
  {
  }

  /** A rooted path is placed under `cwd/public`. */
  lemma {:induction false} RootedPathIsPublic(p: string, cwd: string)
    requires StartsWith(p, "/")
    ensures ResolveTemplatePath(p, cwd) == cwd + "/public" + p
  {
  }

  /** `s || "—"` */
  function OrDash(s: string): (r: string)
    ensures r != [] && (s != [] ==> r == s) && (s == [] ==> r == "—")
  {
    if s != [] then s else "—"
  }

  /** The name line: first and last name joined by a space, trimmed. */
  function NameLine(e: Employee): (r: string)
    ensures |r| <= |e.firstName| + 1 + |e.lastName|
    ensures r != [] ==> !IsSpace(r[0]) && !IsSpace(r[|r| - 1])
  {
    TrimHasNoSpaceEnds(e.firstName + " " + e.lastName);
    Trim(e.firstName + " " + e.lastName)
  }

  /** The designation line: the designation upper-cased character by
      character, so no lower-case ASCII letter is left. */
  function DesignationLine(e: Employee): (r: string)
    ensures |r| == |e.designation|
    ensures forall i :: 0 <= i < |r| ==> r[i] == Upper(e.designation[i]) && !IsLowerAscii(r[i])
  {
    ToUpper(e.designation)
  }

  /** The id line, "—" when there is no id. */
  function IdLine(e: Employee): (r: string)
    ensures r != [] && (e.employeeId != [] ==> r == e.employeeId)
    ensures e.employeeId == [] ==> r == "—"
  {
    OrDash(e.employeeId)
  }

  /** With both names present and no surrounding whitespace, the name line
      is first name, one space, last name. */
  lemma {:induction false} NameLineBoth(e: Employee)
    requires e.firstName != [] && e.lastName != []
    requires !IsSpace(e.firstName[0]) && !IsSpace(e.lastName[|e.lastName| - 1])
    ensures NameLine(e) == e.firstName + " " + e.lastName
  {
    var s := e.firstName + " " + e.lastName;
    assert TrimStart(s) == s;
    assert TrimEnd(s) == s;
  }

  /** Without a first name, the line is the trimmed last name. */
  lemma {:induction false} NameLineWithoutFirst(e: Employee)
    requires e.firstName == []
    ensures NameLine(e) == Trim(e.lastName)
  {
    var s := e.firstName + " " + e.lastName;
    assert s[1..] == e.lastName;
  }

  /** Without a last name, the line is the trimmed first name. */
  lemma {:induction false} NameLineWithoutLast(e: Employee)
    requires e.lastName == []
    ensures NameLine(e) == Trim(e.firstName)
  {
    var f := e.firstName;
    var s := f + " " + e.lastName;
    assert s == f + " ";
    TrimStartOfExtended(f, " ");
    if |TrimStart(f)| > 0 {
      TrimEndPastSpace(TrimStart(f) + " ", TrimStart(f));
    } else {
      assert TrimStart(" ") == [];
      assert TrimEnd(TrimStart(f)) == [];
    }
  }

  /** A string with one space appended is trimmed to the original's trim. */
  lemma {:induction false} TrimEndPastSpace(s: string, t: string)
    requires s == t + " "
    ensures TrimEnd(s) == TrimEnd(t)
  {
    assert s[..|s| - 1] == t;
  }

  lemma {:induction false} TrimStartOfExtended(f: string, tail: string)
    ensures TrimStart(f + tail) == if |TrimStart(f)| > 0 then TrimStart(f) + tail else TrimStart(tail)
    decreases |f|
  {
    if f != [] && IsSpace(f[0]) {
      assert (f + tail)[1..] == f[1..] + tail;
      TrimStartOfExtended(f[1..], tail);
    } else if f == [] {
      assert f + tail == tail;
    }
  }

  /** The value shown for the mobile number: `mobileNumber || contactNumber || "—"`. */
  function MobileValue(e: Employee): string {
    if e.mobileNumber != "" then e.mobileNumber else OrDash(e.contactNumber)
  }

  /** The seven lines drawn on the back, top to bottom; the first repeats
      the front's id line after its label. */
  function BackLines(e: Employee): (r: seq<string>)
    ensures |r| == 7 && r[0] == "Employee ID: " + IdLine(e)
  {
    [ "Employee ID: " + OrDash(e.employeeId),
      "Department: " + OrDash(e.department),
      "City: " + OrDash(e.city),
      "CNIC: " + OrDash(e.cnic),
      "Blood: " + OrDash(e.bloodGroup),
      "Mobile: " + MobileValue(e),
      "Emergency: " + OrDash(e.emergencyContact) ]
  }

  /** Every back line is its label followed by a non-empty value: the field
      itself when it is set and "—" when it is empty; the mobile line falls
      back from the mobile number to the contact number and then to "—". */
  lemma {:induction false} BackLinesFallBack(e: Employee)
    ensures var lines := BackLines(e);
      && |lines| == 7
      && LabelledLine(lines[0], "Employee ID: ", e.employeeId)
      && LabelledLine(lines[1], "Department: ", e.department)
      && LabelledLine(lines[2], "City: ", e.city)
      && LabelledLine(lines[3], "CNIC: ", e.cnic)
      && LabelledLine(lines[4], "Blood: ", e.bloodGroup)
      && LabelledLine(lines[5], "Mobile: ", (if e.mobileNumber != "" then e.mobileNumber else e.contactNumber))
      && LabelledLine(lines[6], "Emergency: ", e.emergencyContact)
  {
    LabelThenValue("Employee ID: ", e.employeeId);
    LabelThenValue("Department: ", e.department);
    LabelThenValue("City: ", e.city);
    LabelThenValue("CNIC: ", e.cnic);
    LabelThenValue("Blood: ", e.bloodGroup);
    LabelThenValue("Mobile: ", if e.mobileNumber != "" then e.mobileNumber else e.contactNumber);
    LabelThenValue("Emergency: ", e.emergencyContact);
  }

  /** `line` is `caption` followed by a non-empty value: `field` when it is
      set, "—" when it is empty. */
  predicate LabelledLine(line: string, caption: string, field: string) {
    && StartsWith(line, caption) && |line| > |caption|
    && (field != "" ==> line == caption + field)
    && (field == "" ==> line == caption + "—")
  }

  /** A caption followed by `OrDash` of a field is a labelled line. */
  lemma {:induction false} LabelThenValue(caption: string, field: string)
    ensures LabelledLine(caption + OrDash(field), caption, field)
  {
    assert (caption + OrDash(field))[..|caption|] == caption;
  }

  /** The three lines drawn on the front: name, designation, id. */
  function FrontLines(e: Employee): seq<string> {
    [NameLine(e), DesignationLine(e), IdLine(e)]
  }

  /** What `generateAndSaveCards` produces for one employee: the files it
      writes and the URLs it returns, the template images and photo it
      loads, and the text it draws. */
  datatype CardRender = CardRender(
    files: CardFiles,
    frontTemplate: string,
    backTemplate: string,
    photo: Option<string>,
    frontText: seq<string>,
    backText: seq<string>)

  /** `generateAndSaveCards` without the drawing: `cwd` is the working
      directory and `stamp` the clock reading. The templates reach only
      `template?.path`, which template rows do not have. */
  function GenerateAndSaveCards(e: Employee, frontTemplate: Option<Template>, backTemplate: Option<Template>,
                                cwd: string, stamp: string): (r: CardRender)
    ensures r.photo.Some? <==> e.photoPath.Some? && e.photoPath.value != ""
    ensures r.photo.Some? ==> r.photo.value == ResolveTemplatePath(e.photoPath.value, cwd) && r.photo.value != []
  {
    CardRender(
      CardFilesFor(e.employeeId, stamp),
      ResolveTemplatePath(TemplateSource(frontTemplate, "/template/1.png"), cwd),
      ResolveTemplatePath(TemplateSource(backTemplate, "/template/2.png"), cwd),
      match e.photoPath
      case Some(p) => if p != "" then Some(ResolveTemplatePath(p, cwd)) else None
      case None => None,
      FrontLines(e),
      BackLines(e))
  }

  /** Every employee is drawn on the default template images, whatever
      templates are active. */
  lemma {:induction false} GeneratedCardUsesDefaultTemplates(e: Employee, front: Option<Template>, back: Option<Template>, cwd: string, stamp: string)
    ensures var r := GenerateAndSaveCards(e, front, back, cwd, stamp);
      && r.frontTemplate == cwd + "/public" + "/template/1.png"
      && r.backTemplate == cwd + "/public" + "/template/2.png"
  {
    TemplatesAreIgnored(front, "/template/1.png");
    RootedPathIsPublic("/template/1.png", cwd);
    TemplatesAreIgnored(back, "/template/2.png");
    RootedPathIsPublic("/template/2.png", cwd);
  }

  /** The files are those named after the id; the front shows the name,
      designation and id lines, the back its seven labelled lines. */
  lemma {:induction false} GeneratedCardShape(e: Employee, front: Option<Template>, back: Option<Template>, cwd: string, stamp: string)
    ensures var r := GenerateAndSaveCards(e, front, back, cwd, stamp);
      && r.files == CardFilesFor(e.employeeId, stamp)
      && |r.frontText| == 3 && |r.backText| == 7
      && r.frontText == [NameLine(e), DesignationLine(e), IdLine(e)]
      && r.backText == BackLines(e)
  {
  }
}
