/**
 * Formatting helpers of `src/lib/utils.ts`: the four-digit employee-id
 * padding and the file-name sanitiser.
 */
module Utils {
  import opened Text

  /** `"0".repeat(n)` */
  function Zeros(n: nat): (r: string)
    ensures |r| == n && forall i :: 0 <= i < n ==> r[i] == '0'
  {
    if n == 0 then "" else "0" + Zeros(n - 1)
  }

  /** `String(id).padStart(4, "0")` */
  function FormatEmployeeId(id: string): (r: string)
    ensures |r| == if |id| >= 4 then |id| else 4
    ensures EndsWith(r, id)
    ensures forall i :: 0 <= i < |r| - |id| ==> r[i] == '0'
  {
    if |id| >= 4 then id else Zeros(4 - |id|) + id
  }

  /** A string of length four or more is left as it is. */
  lemma {:induction false} FormatEmployeeIdKeepsLongIds(id: string)
    requires |id| >= 4
    ensures FormatEmployeeId(id) == id
  {
  }

  /** Worked examples of the padding. */
  lemma {:induction false} FormatEmployeeIdExample()
    ensures FormatEmployeeId("7") == "0007"
    ensures FormatEmployeeId("210") == "0210"
    ensures FormatEmployeeId("8009654") == "8009654"
  {
  }

  /** One character of `filename.replace(/[^a-z0-9.-]/gi, "_").toLowerCase()`. */
  function SanitizeChar(c: char): char {
    if IsLowerAscii(c) || IsDigit(c) || c == '.' || c == '-' then c
    else if IsUpperAscii(c) then Lower(c)
    else '_'
  }

  /** The characters a sanitised file name is made of: `[a-z0-9._-]`. */
  predicate IsSafeFileChar(c: char) {
    IsLowerAscii(c) || IsDigit(c) || c == '.' || c == '-' || c == '_'
  }

  /** `sanitizeFilename`: every character outside `[A-Za-z0-9.-]` becomes
      "_", then ASCII letters are lower-cased. */
  function SanitizeFilename(filename: string): (r: string)
    ensures |r| == |filename|
    ensures forall i :: 0 <= i < |r| ==> IsSafeFileChar(r[i])
  {
    seq(|filename|, i requires 0 <= i < |filename| => SanitizeChar(filename[i]))
  }

  /** Position by position: digits, "." and "-" stay, letters are
      lower-cased, and everything else becomes "_". */
  lemma {:induction false} SanitizeFilenameAt(filename: string, i: nat)
    requires i < |filename|
    ensures var c, r := filename[i], SanitizeFilename(filename)[i];
      && (IsDigit(c) || c == '.' || c == '-' || IsLowerAscii(c) ==> r == c)
      && (IsUpperAscii(c) ==> r == c - 'A' + 'a')
      && (!(IsDigit(c) || c == '.' || c == '-' || IsLowerAscii(c) || IsUpperAscii(c)) ==> r == '_')
  {
  }

  /** Sanitising a sanitised name changes nothing. */
  lemma {:induction false} SanitizeFilenameIdempotent(filename: string)
    ensures SanitizeFilename(SanitizeFilename(filename)) == SanitizeFilename(filename)
  {
  }

  /** Names already made of safe characters are fixed points. */
  lemma {:induction false} SanitizeFilenameKeepsSafeNames(filename: string)
    requires forall i :: 0 <= i < |filename| ==> IsSafeFileChar(filename[i])
    ensures SanitizeFilename(filename) == filename
  {
  }
}
