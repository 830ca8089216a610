/** The helpers shared by the screenshot-based card pipeline: the base URL
    pages are served from, the file base derived from an employee id, and
    where generated images live on disk and on the web. */
module CardScreenshot {
  import opened Wrappers
  import opened Text
  import opened CardGenerator

  /** The two request headers `getBaseUrl` looks at; "" stands for a
      missing header. */
  datatype Headers = Headers(host: string, forwardedProto: string)

  /** `envUrl.replace(/\/$/, "")`: one trailing "/" removed. */
  function DropTrailingSlash(s: string): string {
    if s != [] && s[|s| - 1] == '/' then s[..|s| - 1] else s
  }

  /** `getBaseUrl`: `envUrl` is the configured application URL ("" when it
      is not set) and `req` the headers of the request, if any. */
  function GetBaseUrl(envUrl: string, req: Option<Headers>): (r: string)
    ensures envUrl != "" ==> StartsWith(envUrl, r) && |envUrl| <= |r| + 1
    ensures envUrl == "" ==> r != []
  {
    if envUrl != "" then DropTrailingSlash(envUrl)
    else if req.Some? && req.value.host != "" then
      (if req.value.forwardedProto != "" then req.value.forwardedProto else "http") + "://" + req.value.host
    else "http://localhost:3000"
  }

  /** A configured URL wins and loses exactly one trailing "/"; otherwise the
      request's host is used with its forwarded protocol, "http" by default;
      otherwise the local development server. */
  lemma {:induction false} GetBaseUrlCases(envUrl: string, req: Option<Headers>)
    ensures var r := GetBaseUrl(envUrl, req);
      && (envUrl != "" ==>
            && StartsWith(envUrl, r)
            && (|envUrl| == |r| + 1 <==> envUrl[|envUrl| - 1] == '/')
            && (|envUrl| == |r| <==> envUrl[|envUrl| - 1] != '/'))
      && (envUrl == "" && req.Some? && req.value.host != "" ==>
            && EndsWith(r, "://" + req.value.host)
            && (req.value.forwardedProto == "" ==> r == "http://" + req.value.host)
            && (req.value.forwardedProto != "" ==> r == req.value.forwardedProto + "://" + req.value.host))
      && (envUrl == "" && (req.None? || req.value.host == "") ==> r == "http://localhost:3000")
  {
    var r := GetBaseUrl(envUrl, req);
    if envUrl == "" && req.Some? && req.value.host != "" {
      var proto := if req.value.forwardedProto != "" then req.value.forwardedProto else "http";
      assert r == (proto + "://") + req.value.host;
      assert r[|r| - |"://" + req.value.host|..] == "://" + req.value.host;
    }
  }

  /** Only one slash goes: a URL configured with two trailing slashes keeps
      one of them. */
  lemma {:induction false} OnlyOneSlashIsDropped()
    ensures GetBaseUrl("http://cards.example//", None) == "http://cards.example/"
  {
    assert "http://cards.example//"[..|"http://cards.example//"| - 1] == "http://cards.example/";
  }

  /** `fileBaseFromEmployeeId`: the digits ending the trimmed id; failing
      that, the trimmed id with every run of forbidden or whitespace
      characters made one "_"; failing that, "emp_" and the clock reading. */
  function FileBaseFromEmployeeId(employeeId: string, stamp: string): (r: string)
    ensures r != []
    ensures Trim(employeeId) == [] ==> r == "emp_" + stamp
  {
    var s := Trim(employeeId);
    var m := TrailingDigits(s);
    var base := if m != [] then m else CollapseRuns(s, ForbiddenOrWhitespace, '_');
    if base != [] then base else "emp_" + stamp
  }

  /** The result is never empty; a blank id gets the clock name, any other
      id a name without forbidden or whitespace characters. */
  lemma {:induction false} FileBaseIsSafe(employeeId: string, stamp: string)
    ensures var r := FileBaseFromEmployeeId(employeeId, stamp);
      && r != []
      && (Trim(employeeId) == [] ==> r == "emp_" + stamp)
      && (Trim(employeeId) != [] ==> forall i :: 0 <= i < |r| ==> !IsForbidden(r[i]) && !IsSpace(r[i]))
  {
    var s := Trim(employeeId);
    if s != [] {
      var m := TrailingDigits(s);
      if m != [] {
        DigitsAreSafe(m);
      } else {
        CollapseRunsLeavesNoRun(s, ForbiddenOrWhitespace, '_');
      }
    }
  }

  /** Digits are neither forbidden in file names nor whitespace. */
  lemma {:induction false} DigitsAreSafe(m: string)
    requires AllDigits(m)
    ensures forall i :: 0 <= i < |m| ==> !IsForbidden(m[i]) && !IsSpace(m[i])
  {
    forall i | 0 <= i < |m|
      ensures !IsForbidden(m[i]) && !IsSpace(m[i])
    {
      DigitIsNotSpace(m[i]);
    }
  }

  /** Where the id ends in digits, both routines name the files after those
      digits, so the two card pipelines agree. */
  lemma {:induction false} FileBaseAgreesOnDigits(employeeId: string, stamp: string)
    requires LastDigits(employeeId) != []
    ensures FileBaseFromEmployeeId(employeeId, stamp) == GetFileBase(employeeId, stamp)
  {
    TrailingDigitsOfTrim(employeeId);
  }

  /** A character that survives both routines unchanged. */
  predicate KeptByCollapse(c: char) {
    !IsSpace(c) && !IsForbidden(c)
  }

  /** Without digits they may disagree: for an id such as "a/ b", where a
      forbidden character is followed by whitespace, `safeBaseName` replaces
      the two separately, giving "a__b", while `fileBaseFromEmployeeId`
      collapses them into one "_", giving "a_b". */
  lemma {:induction false} FileBasesDisagreeWithoutDigits(a: char, f: char, w: char, b: char, stamp: string)
    requires KeptByCollapse(a) && IsForbidden(f) && IsSpace(w) && KeptByCollapse(b) && !IsDigit(b)
    ensures GetFileBase([a, f, w, b], stamp) == [a, '_', '_', b]
    ensures FileBaseFromEmployeeId([a, f, w, b], stamp) == [a, '_', b]
  {
    var id := [a, f, w, b];
    PlainEndsAreTrimmed(id);
    assert !IsDigit(id[|id| - 1]);
    assert ReplaceForbidden(id) == [a, '_', w, b];
    SafeCollapse(a, w, b);
    FileBaseCollapse(a, f, w, b);
    FileBasesWithoutDigits(id, stamp);
  }

  /** A string whose ends are not whitespace is its own trim. */
  lemma {:induction false} PlainEndsAreTrimmed(s: string)
    requires s != [] && !IsSpace(s[0]) && !IsSpace(s[|s| - 1])
    ensures Trim(s) == s
  {
    assert TrimStart(s) == s;
    TrimEndIsIdempotent(s);
  }

  lemma {:induction false} SafeCollapse(a: char, w: char, b: char)
    requires KeptByCollapse(a) && IsSpace(w) && KeptByCollapse(b)
    ensures CollapseRuns([a, '_', w, b], Whitespace, '_') == [a, '_', '_', b]
  {
    var k := Whitespace;
    CollapseRunsOfKept(b, k);
    DropRunCons(w, [b], k);
    CollapseRunsCons(w, [b], k, '_');
    assert [w, b] == [w] + [b];
    CollapseRunsCons('_', [w, b], k, '_');
    assert ['_', w, b] == ['_'] + [w, b];
    CollapseRunsCons(a, ['_', w, b], k, '_');
    assert [a, '_', w, b] == [a] + ['_', w, b];
  }

  lemma {:induction false} FileBaseCollapse(a: char, f: char, w: char, b: char)
    requires KeptByCollapse(a) && IsForbidden(f) && IsSpace(w) && KeptByCollapse(b)
    ensures CollapseRuns([a, f, w, b], ForbiddenOrWhitespace, '_') == [a, '_', b]
  {
    var k := ForbiddenOrWhitespace;
    CollapseRunsOfKept(b, k);
    DropRunCons(w, [b], k);
    assert [w, b] == [w] + [b];
    CollapseRunsCons(f, [w, b], k, '_');
    assert [f, w, b] == [f] + [w, b];
    CollapseRunsCons(a, [f, w, b], k, '_');
    assert [a, f, w, b] == [a] + [f, w, b];
  }

  /** Where the id has no final digits but is not blank, `getFileBase` gives
      the safe base name and `fileBaseFromEmployeeId` the collapsed id. */
  lemma {:induction false} FileBasesWithoutDigits(id: string, stamp: string)
    requires Trim(id) == id && id != [] && TrailingDigits(id) == []
    ensures GetFileBase(id, stamp) == SafeBaseName(id)
    ensures FileBaseFromEmployeeId(id, stamp) == CollapseRuns(id, ForbiddenOrWhitespace, '_')
  {
  }

  lemma {:induction false} CollapseRunsOfKept(x: char, cls: RunClass)
    requires !InRun(cls, x)
    ensures DropRun([x], cls) == [x] && CollapseRuns([x], cls, '_') == [x]
  {
    CollapseRunsCons(x, [], cls, '_');
    assert [x] + [] == [x];
  }

  /** `absGeneratedPath`, with the working directory as a parameter. */
  function AbsGeneratedPath(cwd: string, fileName: string): string {
    cwd + "/public/generated/" + fileName
  }

  /** `publicGeneratedUrl`. */
  function PublicGeneratedUrl(fileName: string): (r: string)
    ensures StartsWith(r, "/generated/") && r[|"/generated/"|..] == fileName
  {
    "/generated/" + fileName
  }

  /** The public URL of a generated file is served from the file on disk:
      placing the URL under `cwd/public` gives the absolute path. It is also
      the URL the card generator returns. */
  lemma {:induction false} GeneratedUrlServesGeneratedPath(cwd: string, fileName: string)
    ensures PublicPath(cwd, PublicGeneratedUrl(fileName)) == AbsGeneratedPath(cwd, fileName)
    ensures PublicGeneratedUrl(fileName) == GeneratedUrl(fileName)
  {
    assert StartsWith(PublicGeneratedUrl(fileName), "/");
  }
}
