/**
 * The JavaScript string operations the application relies on, over `string`
 * (a sequence of characters): the `\s` character class, `trim`, ASCII case
 * mapping, `includes`, `startsWith`, `endsWith`, and the capture group of the
 * regular expression `/(\d+)\s*$/` that several modules use to find the
 * trailing digits of an identifier.
 */
module Text {

  /** ECMAScript WhiteSpace and LineTerminator: the class `\s` matches and the
      characters `String.prototype.trim` removes. */
  predicate IsSpace(c: char) {
    || c == '\t' || c == '\n' || c == '\U{000B}' || c == '\U{000C}' || c == '\r' || c == ' '
    || c == '\U{00A0}' || c == '\U{1680}' || ('\U{2000}' <= c <= '\U{200A}')
    || c == '\U{2028}' || c == '\U{2029}' || c == '\U{202F}' || c == '\U{205F}'
    || c == '\U{3000}' || c == '\U{FEFF}'
  }

  /** The class `\d`: ASCII decimal digits only. */
  predicate IsDigit(c: char) {
    '0' <= c <= '9'
  }

  predicate IsUpperAscii(c: char) {
    'A' <= c <= 'Z'
  }

  predicate IsLowerAscii(c: char) {
    'a' <= c <= 'z'
  }

  predicate AllSpace(s: string) {
    forall i :: 0 <= i < |s| ==> IsSpace(s[i])
  }

  predicate AllDigits(s: string) {
    forall i :: 0 <= i < |s| ==> IsDigit(s[i])
  }

  function Lower(c: char): char {
    if IsUpperAscii(c) then c - 'A' + 'a' else c
  }

  function Upper(c: char): char {
    if IsLowerAscii(c) then c - 'a' + 'A' else c
  }

  /** `s.toLowerCase()`, restricted to the ASCII letters. */
  function ToLower(s: string): (r: string)
    ensures |r| == |s|
    ensures forall i :: 0 <= i < |s| ==> r[i] == Lower(s[i])
  {
    seq(|s|, i requires 0 <= i < |s| => Lower(s[i]))
  }

  /** `s.toUpperCase()`, restricted to the ASCII letters. */
  function ToUpper(s: string): (r: string)
    ensures |r| == |s|
    ensures forall i :: 0 <= i < |s| ==> r[i] == Upper(s[i])
  {
    seq(|s|, i requires 0 <= i < |s| => Upper(s[i]))
  }

  /** `s.startsWith(p)` */
  predicate StartsWith(s: string, p: string) {
    |p| <= |s| && s[..|p|] == p
  }

  /** `s.endsWith(p)` */
  predicate EndsWith(s: string, p: string) {
    |p| <= |s| && s[|s| - |p|..] == p
  }

  /** `s.includes(p)`: `p` occurs in `s` at some position. */
  predicate Contains(s: string, p: string)
    decreases |s|
  {
    StartsWith(s, p) || (|s| > 0 && Contains(s[1..], p))
  }

  /** Leading whitespace removed (`trimStart`). */
  function TrimStart(s: string): (r: string)
    ensures |r| <= |s| && r == s[|s| - |r|..]
  {
    if |s| > 0 && IsSpace(s[0]) then TrimStart(s[1..]) else s
  }

  /** What `trimStart` removes is whitespace, and what it keeps does not
      start with whitespace. */
  lemma {:induction false} TrimStartDropsSpace(s: string)
    ensures AllSpace(s[..|s| - |TrimStart(s)|])
    ensures TrimStart(s) == [] || !IsSpace(TrimStart(s)[0])
    decreases |s|
  {
    if |s| > 0 && IsSpace(s[0]) {
      var r := TrimStart(s[1..]);
      assert TrimStart(s) == r;
      TrimStartDropsSpace(s[1..]);
      assert s[..|s| - |r|] == [s[0]] + s[1..][..|s| - 1 - |r|];
    } else {
      assert TrimStart(s) == s;
    }
  }

  /** Trailing whitespace removed (`trimEnd`). */
  function TrimEnd(s: string): (r: string)
    ensures |r| <= |s| && r == s[..|r|]
  {
    if |s| > 0 && IsSpace(s[|s| - 1]) then TrimEnd(s[..|s| - 1]) else s
  }

  /** What `trimEnd` removes is whitespace, and what it keeps does not end
      with whitespace. */
  lemma {:induction false} TrimEndDropsSpace(s: string)
    ensures AllSpace(s[|TrimEnd(s)|..])
    ensures TrimEnd(s) == [] || !IsSpace(TrimEnd(s)[|TrimEnd(s)| - 1])
    decreases |s|
  {
    if |s| > 0 && IsSpace(s[|s| - 1]) {
      var r := TrimEnd(s[..|s| - 1]);
      TrimEndDropsSpace(s[..|s| - 1]);
      assert s[|r|..] == s[..|s| - 1][|r|..] + [s[|s| - 1]];
    }
  }

  /** `s.trim()` */
  function Trim(s: string): (r: string)
    ensures |r| <= |s|
  {
    TrimEnd(TrimStart(s))
  }

  /** The trimmed string neither starts nor ends with whitespace. */
  lemma {:induction false} TrimHasNoSpaceEnds(s: string)
    ensures var r := Trim(s); r == [] || (!IsSpace(r[0]) && !IsSpace(r[|r| - 1]))
  {
    var u := TrimStart(s);
    TrimStartDropsSpace(s);
    TrimEndDropsSpace(u);
  }

  /** `trim` cuts `s` into whitespace, the trimmed value and whitespace. */
  lemma {:induction false} TrimIsInfix(s: string)
    ensures exists a, b :: s == a + Trim(s) + b && AllSpace(a) && AllSpace(b)
  {
    TrimSplitJoins(s);
    TrimSplitIsSpace(s);
    var a, b := Leading(s), Trailing(s);
    assert s == a + Trim(s) + b;
  }

  /** The whitespace `trim` cuts off the front of `s`. */
  function Leading(s: string): string {
    s[..|s| - |TrimStart(s)|]
  }

  /** The whitespace `trim` cuts off the back of `s`. */
  function Trailing(s: string): string {
    TrimStart(s)[|Trim(s)|..]
  }

  lemma {:induction false} TrimSplitJoins(s: string)
    ensures s == Leading(s) + Trim(s) + Trailing(s)
  {
    var u := TrimStart(s);
    var t := TrimEnd(u);
    var i := |s| - |u|;
    assert u == s[i..];
    assert t == u[..|t|] == s[i..i + |t|];
    assert Trailing(s) == u[|t|..] == s[i + |t|..];
    assert s == s[..i] + s[i..i + |t|] + s[i + |t|..];
  }

  lemma {:induction false} TrimSplitIsSpace(s: string)
    ensures AllSpace(Leading(s)) && AllSpace(Trailing(s))
  {
    var u := TrimStart(s);
    assert Leading(s) == s[..|s| - |u|];
    assert Trailing(s) == u[|TrimEnd(u)|..];
    TrimStartDropsSpace(s);
    TrimEndDropsSpace(u);
  }

  /** `trim` gives "" exactly when `s` is all whitespace. */
  lemma {:induction false} TrimEmptyIffAllSpace(s: string)
    ensures Trim(s) == [] <==> AllSpace(s)
  {
    var a, t, b := Leading(s), Trim(s), Trailing(s);
    TrimSplitJoins(s);
    if t == [] {
      TrimSplitIsSpace(s);
      assert s == a + b;
      forall i | 0 <= i < |s| ensures IsSpace(s[i]) {
        if i < |a| { assert s[i] == a[i]; } else { assert s[i] == b[i - |a|]; }
      }
    } else {
      TrimHasNoSpaceEnds(s);
      assert s[|a|] == t[0];
    }
  }

  /** ASCII lower-casing neither makes nor removes whitespace. */
  lemma {:induction false} ToLowerKeepsSpace(s: string)
    ensures AllSpace(ToLower(s)) <==> AllSpace(s)
  {
    forall i | 0 <= i < |s| ensures IsSpace(ToLower(s)[i]) <==> IsSpace(s[i]) {
      assert ToLower(s)[i] == Lower(s[i]);
    }
  }

  /** The longest suffix of `s` made of digits. */
  function DigitSuffix(s: string): (r: string)
    ensures |r| <= |s| && r == s[|s| - |r|..]
    ensures AllDigits(r)
    ensures |r| == |s| || !IsDigit(s[|s| - |r| - 1])
  {
    if |s| > 0 && IsDigit(s[|s| - 1]) then DigitSuffix(s[..|s| - 1]) + [s[|s| - 1]] else []
  }

  /** Capture group 1 of `s.match(/(\d+)\s*$/)`, or "" when nothing matches. */
  function TrailingDigits(s: string): string {
    DigitSuffix(TrimEnd(s))
  }

  /** Where the match of `/(\d+)\s*$/` starts (meaningful when it matches). */
  function TrailingDigitsStart(s: string): nat {
    |TrimEnd(s)| - |TrailingDigits(s)|
  }

  /** The regular expression `(\d+)\s*$` matches `s` from `p`, with the
      group ending at `q`. */
  ghost predicate TrailingMatch(s: string, p: int, q: int) {
    0 <= p < q <= |s| && AllDigits(s[p..q]) && AllSpace(s[q..])
  }

  lemma {:induction false} DigitIsNotSpace(c: char)
    ensures IsDigit(c) ==> !IsSpace(c)
  {
  }

  /** The regular-expression engine's answer: `TrailingDigits(s)` is non-empty
      exactly when some match exists; it is then the group of the LEFTMOST
      match, and that match's group can end nowhere else (the group is greedy
      and the rest must be whitespace up to the end). */
  lemma {:induction false} TrailingDigitsIsLeftmostMatch(s: string)
    ensures var d, p := TrailingDigits(s), TrailingDigitsStart(s);
      && (d != [] ==> p + |d| <= |s| && TrailingMatch(s, p, p + |d|) && d == s[p..p + |d|])
      && (forall p', q' :: TrailingMatch(s, p', q') ==> d != [] && p <= p' && q' == p + |d|)
  {
    var t := TrimEnd(s);
    TrimEndDropsSpace(s);
    var d := TrailingDigits(s);
    assert d == t[|t| - |d|..];
    forall p', q' | TrailingMatch(s, p', q')
      ensures d != [] && TrailingDigitsStart(s) <= p' && q' == |t|
    {
      MatchEndsAtTrimEnd(s, p', q');
      MatchIsWithinDigitSuffix(s, p', q');
    }
  }

  /** A match's group ends where trimming the end stops: digits are not
      whitespace, and what follows the group is. */
  lemma {:induction false} MatchEndsAtTrimEnd(s: string, p: int, q: int)
    requires TrailingMatch(s, p, q)
    ensures q == |TrimEnd(s)|
  {
    var t := TrimEnd(s);
    var e := |t|;
    TrimEndDropsSpace(s);
    if q > e {
      var j := if p > e then p else e;
      assert s[j] == s[e..][j - e] == s[p..q][j - p];
      DigitIsNotSpace(s[j]);
    }
  }

  /** A match whose group ends at the trimmed end starts inside the digit
      suffix, which is therefore non-empty. */
  lemma {:induction false} MatchIsWithinDigitSuffix(s: string, p: int, q: int)
    requires TrailingMatch(s, p, q) && q == |TrimEnd(s)|
    ensures TrailingDigits(s) != [] && TrailingDigitsStart(s) <= p
  {
    var t := TrimEnd(s);
    var d := DigitSuffix(t);
    assert t[q - 1] == s[p..q][q - 1 - p];
  }

  /** Digits after a non-digit (or at the start) are the digit suffix. */
  lemma {:induction false} DigitSuffixAfter(p: string, d: string)
    requires p == [] || !IsDigit(p[|p| - 1])
    requires AllDigits(d)
    ensures DigitSuffix(p + d) == d
  {
    var s := p + d;
    assert s[|p|..] == d;
  }

  /** An id ending in digits after a non-digit, such as "HRPSP/BI/0210" or
      "8009654", has exactly those digits as its trailing digits. */
  lemma {:induction false} TrailingDigitsOfIdEndingInDigits(p: string, d: string)
    requires p == [] || !IsDigit(p[|p| - 1])
    requires d != [] && AllDigits(d)
    ensures TrailingDigits(p + d) == d
  {
    var s := p + d;
    assert s[|s| - 1] == d[|d| - 1];
    DigitIsNotSpace(s[|s| - 1]);
    TrimEndIsIdempotent(s);
    DigitSuffixAfter(p, d);
  }

  /** Leading whitespace never changes the trailing digits, so applying
      `trim()` first gives the same group. */
  lemma {:induction false} TrailingDigitsOfTrim(s: string)
    ensures TrailingDigits(Trim(s)) == TrailingDigits(s)
  {
    var u := TrimStart(s);
    var a := |s| - |u|;
    TrimStartDropsSpace(s);
    assert u == s[a..] && AllSpace(s[..a]);
    var t := TrimEnd(s);
    TrimEndDropsSpace(u);
    TrimEndIsIdempotent(TrimEnd(u));
    TrimEndOfSuffix(s, a);
    TrimEndPastSpacePrefix(s, a);
    if |t| <= a {
      NoDigitsAfterSpace(t);
    } else {
      assert t[..a] == s[..a];
      DigitSuffixOfSuffix(t, a);
    }
  }

  /** What trimming the end leaves reaches past a whitespace prefix, or is
      empty. */
  lemma {:induction false} TrimEndPastSpacePrefix(s: string, a: nat)
    requires a <= |s| && AllSpace(s[..a])
    ensures TrimEnd(s) == [] || |TrimEnd(s)| > a
  {
    var t := TrimEnd(s);
    TrimEndDropsSpace(s);
    assert forall i :: 0 <= i < a ==> s[..a][i] == s[i];
    if t != [] {
      assert !IsSpace(t[|t| - 1]) && t[|t| - 1] == s[|t| - 1];
    }
  }

  /** A string that neither starts nor ends in whitespace is its own trim. */
  lemma {:induction false} TrimOfTrimmed(r: string)
    requires r == [] || (!IsSpace(r[0]) && !IsSpace(r[|r| - 1]))
    ensures Trim(r) == r
  {
    assert TrimStart(r) == r;
    TrimEndIsIdempotent(r);
  }

  lemma {:induction false} TrimEndIsIdempotent(r: string)
    requires r == [] || !IsSpace(r[|r| - 1])
    ensures TrimEnd(r) == r
  {
  }

  /** A string that is empty or ends in whitespace has no trailing digits. */
  lemma {:induction false} NoDigitsAfterSpace(t: string)
    requires t == [] || IsSpace(t[|t| - 1])
    ensures DigitSuffix(t) == []
  {
    if t != [] {
      DigitIsNotSpace(t[|t| - 1]);
    }
  }

  /** Dropping a prefix of whitespace keeps the trimmed end, unless the whole
      string was that whitespace. */
  lemma {:induction false} TrimEndOfSuffix(s: string, k: nat)
    requires k <= |s| && AllSpace(s[..k])
    ensures TrimEnd(s[k..]) == if |TrimEnd(s)| <= k then [] else TrimEnd(s)[k..]
    decreases |s|
  {
    if |s| > k && IsSpace(s[|s| - 1]) {
      assert s[k..][..|s[k..]| - 1] == s[..|s| - 1][k..];
      assert s[..|s| - 1][..k] == s[..k];
      TrimEndOfSuffix(s[..|s| - 1], k);
    }
  }

  /** Dropping a prefix of whitespace keeps the trailing digit run. */
  lemma {:induction false} DigitSuffixOfSuffix(t: string, k: nat)
    requires k < |t| && AllSpace(t[..k])
    ensures DigitSuffix(t[k..]) == DigitSuffix(t)
    decreases |t|
  {
    if IsDigit(t[|t| - 1]) {
      if |t| - 1 == k {
        assert t[..|t| - 1] == t[..k];
        assert k == 0 || IsSpace(t[..k][k - 1]);
        NoDigitsAfterSpace(t[..k]);
      } else {
        assert t[k..][..|t[k..]| - 1] == t[..|t| - 1][k..];
        assert t[..|t| - 1][..k] == t[..k];
        DigitSuffixOfSuffix(t[..|t| - 1], k);
      }
    }
  }

  function DigitChar(d: nat): (c: char)
    requires d < 10
    ensures IsDigit(c)
  {
    '0' + d as char
  }

  /** Decimal rendering of a natural number, as a template literal `${n}`
      prints it. */
  function NatToString(n: nat): (r: string)
    ensures r != [] && AllDigits(r)
  {
    if n < 10 then [DigitChar(n)] else NatToString(n / 10) + [DigitChar(n % 10)]
  }

  /** The value of a string of decimal digits. */
  function DigitsValue(s: string): nat
    requires AllDigits(s)
  {
    if s == [] then 0 else 10 * DigitsValue(s[..|s| - 1]) + (s[|s| - 1] - '0') as nat
  }

  /** Rendering a number and reading it back gives the number. */
  lemma {:induction false} NatToStringRoundTrip(n: nat)
    ensures DigitsValue(NatToString(n)) == n
  {
    if n >= 10 {
      var s := NatToString(n);
      assert s[..|s| - 1] == NatToString(n / 10);
      NatToStringRoundTrip(n / 10);
    }
  }

  /** `p` occurs in `s` at position `k`. */
  predicate OccursAt(s: string, p: string, k: int) {
    0 <= k && k + |p| <= |s| && s[k..k + |p|] == p
  }

  /** `Contains` is occurrence at some position: both directions. */
  lemma {:induction false} ContainsIsOccurrence(s: string, p: string)
    ensures Contains(s, p) <==> exists k :: OccursAt(s, p, k)
    decreases |s|
  {
    if StartsWith(s, p) {
      assert OccursAt(s, p, 0);
    } else if |s| == 0 {
    } else {
      ContainsIsOccurrence(s[1..], p);
      if Contains(s[1..], p) {
        var k :| OccursAt(s[1..], p, k);
        assert s[k + 1..k + 1 + |p|] == s[1..][k..k + |p|];
        assert OccursAt(s, p, k + 1);
      }
      if exists k :: OccursAt(s, p, k) {
        var k :| OccursAt(s, p, k);
        assert k != 0;
        assert s[1..][k - 1..k - 1 + |p|] == s[k..k + |p|];
        assert OccursAt(s[1..], p, k - 1);
      }
    }
  }

  /** `s.split(sep)` for a one-character separator: the pieces between the
      separators, always at least one. */
  function Split(s: string, sep: char): (parts: seq<string>)
    ensures |parts| >= 1
    decreases |s|
  {
    if s == [] then [""]
    else
      var rest := Split(s[1..], sep);
      if s[0] == sep then [""] + rest else [[s[0]] + rest[0]] + rest[1..]
  }

  /** `parts.join(sep)` for a one-character separator. */
  function Join(parts: seq<string>, sep: char): string
    decreases |parts|
  {
    if |parts| == 0 then ""
    else if |parts| == 1 then parts[0]
    else parts[0] + [sep] + Join(parts[1..], sep)
  }

  /** No piece contains the separator. */
  lemma {:induction false} SplitPiecesAreClean(s: string, sep: char)
    ensures forall k :: 0 <= k < |Split(s, sep)| ==> sep !in Split(s, sep)[k]
    decreases |s|
  {
    if s != [] {
      SplitPiecesAreClean(s[1..], sep);
    }
  }

  /** Joining the pieces with the separator gives the string back. */
  lemma {:induction false} JoinSplit(s: string, sep: char)
    ensures Join(Split(s, sep), sep) == s
    decreases |s|
  {
    if s != [] {
      var rest := Split(s[1..], sep);
      JoinSplit(s[1..], sep);
      if s[0] == sep {
        assert Split(s, sep)[1..] == rest;
      } else {
        var parts := Split(s, sep);
        assert parts[1..] == rest[1..];
        if |rest| == 1 {
          assert s == [s[0]] + s[1..];
        } else {
          assert Join(rest, sep) == rest[0] + [sep] + Join(rest[1..], sep);
          assert s == [s[0]] + s[1..];
        }
      }
    }
  }

  /** A string that does not start with the separator splits into a
      non-empty first piece without the separator and, when there are more
      pieces, the separator and the rest joined back. */
  lemma {:induction false} SplitFirstAndRest(s: string, sep: char)
    requires s != [] && s[0] != sep
    ensures var parts := Split(s, sep);
      && parts[0] != [] && sep !in parts[0]
      && (|parts| == 1 ==> s == parts[0])
      && (|parts| > 1 ==> s == parts[0] + [sep] + Join(parts[1..], sep))
  {
    SplitHead(s, sep);
    SplitPiecesAreClean(s, sep);
    JoinSplit(s, sep);
  }

  /** A string without the separator is one piece. */
  lemma {:induction false} SplitWithoutSeparator(s: string, sep: char)
    requires sep !in s
    ensures Split(s, sep) == [s]
    decreases |s|
  {
    if s != [] {
      assert sep !in s[1..];
      SplitWithoutSeparator(s[1..], sep);
      assert s == [s[0]] + s[1..];
    }
  }

  /** A string that does not start with the separator has a non-empty first
      piece. */
  lemma {:induction false} SplitHead(s: string, sep: char)
    requires s != [] && s[0] != sep
    ensures Split(s, sep)[0] != []
  {
  }

  /** `String(s).slice(-n)`: the last `n` characters, or all of `s` when it is
      shorter. */
  function SliceLast(s: string, n: nat): (r: string)
    ensures |r| == if |s| < n then |s| else n
    ensures EndsWith(s, r)
  {
    if |s| <= n then s else s[|s| - n..]
  }
}
