/** Java library behaviour the core relies on, stated over `string` = `seq<char>`.
    A `char` stands for one UTF-16 code unit, so `|s|`, slicing and indexing
    match `String.length`, `substring` and `charAt`.

    Java has three different notions of "white space" and the core uses all three:
    - `String.trim()` strips units `<= U+0020` from both ends (IsTrimSpace);
    - `String.isBlank()` tests `Character.isWhitespace` on every unit (IsWhitespace);
    - the regular-expression class `\s` is `[ \t\n\x0B\f\r]` (IsRegexSpace). */
module JavaLang {

  datatype Option<T> = None | Some(value: T) {
    function GetOr(default: T): T {
      match this
      case Some(v) => v
      case None => default
    }
  }

  // ---------------------------------------------------------------- white space

  predicate IsTrimSpace(c: char) {
    c <= ' '
  }

  /** `Character.isWhitespace`: the Unicode space, line and paragraph separators
      other than the three no-break spaces, plus U+0009..U+000D and U+001C..U+001F. */
  predicate IsWhitespace(c: char) {
    || ('\U{0009}' <= c <= '\U{000D}')
    || ('\U{001C}' <= c <= '\U{0020}')
    || c == '\U{1680}'
    || ('\U{2000}' <= c <= '\U{2006}')
    || ('\U{2008}' <= c <= '\U{200A}')
    || c == '\U{2028}' || c == '\U{2029}' || c == '\U{205F}' || c == '\U{3000}'
  }

  predicate IsRegexSpace(c: char) {
    c == ' ' || c == '\t' || c == '\n' || c == '\U{000B}' || c == '\U{000C}' || c == '\r'
  }

  /** `String.isBlank()`. */
  predicate IsBlank(s: string) {
    forall i | 0 <= i < |s| :: IsWhitespace(s[i])
  }

  /** `s == null || s.isBlank()`, the guard the core writes everywhere. */
  predicate IsNullOrBlank(s: Option<string>) {
    s.None? || IsBlank(s.value)
  }

  // ---------------------------------------------------------------- trim

  /** The first position at or after `i` whose unit is above U+0020. */
  function LeadEnd(s: string, i: nat): (k: nat)
    requires i <= |s|
    ensures i <= k <= |s|
    ensures forall m | i <= m < k :: IsTrimSpace(s[m])
    ensures k == |s| || !IsTrimSpace(s[k])
    decreases |s| - i
  {
    if i < |s| && IsTrimSpace(s[i]) then LeadEnd(s, i + 1) else i
  }

  /** The end of `s[lo..j]` once its trailing units `<= U+0020` are cut off. */
  function TrailEnd(s: string, lo: nat, j: nat): (k: nat)
    requires lo <= j <= |s|
    ensures lo <= k <= j
    ensures forall m | k <= m < j :: IsTrimSpace(s[m])
    ensures k == lo || !IsTrimSpace(s[k - 1])
    decreases j - lo
  {
    if lo < j && IsTrimSpace(s[j - 1]) then TrailEnd(s, lo, j - 1) else j
  }

  /** Where `String.trim()` starts its result. */
  function TrimStart(s: string): (a: nat)
    ensures a <= |s|
  {
    LeadEnd(s, 0)
  }

  /** `String.trim()`: the result is the slice of `s` from TrimStart(s), everything
      cut off on either side is `<= U+0020`, and the result neither starts nor ends
      with such a unit. */
  function Trim(s: string): (r: string)
    ensures TrimStart(s) + |r| <= |s| && r == s[TrimStart(s)..TrimStart(s) + |r|]
    ensures forall i | 0 <= i < TrimStart(s) :: IsTrimSpace(s[i])
    ensures forall i | TrimStart(s) + |r| <= i < |s| :: IsTrimSpace(s[i])
    ensures r == [] || (!IsTrimSpace(r[0]) && !IsTrimSpace(r[|r| - 1]))
  {
    s[TrimStart(s)..TrailEnd(s, TrimStart(s), |s|)]
  }

  /** `s.trim().isEmpty()` holds exactly when every unit of `s` is `<= U+0020`. */
  lemma TrimEmptyIffAllTrimSpace(s: string)
    ensures Trim(s) == [] <==> forall i | 0 <= i < |s| :: IsTrimSpace(s[i])
  {
    if Trim(s) != [] {
      assert s[TrimStart(s)] == Trim(s)[0];
    }
  }

  /** Trimming a string that neither starts nor ends with a unit `<= U+0020` is the identity. */
  lemma TrimIdentity(s: string)
    requires s == [] || (!IsTrimSpace(s[0]) && !IsTrimSpace(s[|s| - 1]))
    ensures Trim(s) == s
  {
  }

  // ---------------------------------------------------------------- prefixes, suffixes, case

  predicate StartsWith(s: string, prefix: string) {
    |prefix| <= |s| && s[..|prefix|] == prefix
  }

  predicate EndsWith(s: string, suffix: string) {
    |suffix| <= |s| && s[|s| - |suffix|..] == suffix
  }

  /** US-ASCII lower-casing: the case folding `Pattern.CASE_INSENSITIVE` uses
      without `UNICODE_CASE`. */
  function LowerAscii(c: char): char {
    if 'A' <= c <= 'Z' then (c as int + 32) as char else c
  }

  function LowerAsciiString(s: string): (r: string)
    ensures |r| == |s|
    ensures forall i | 0 <= i < |s| :: r[i] == LowerAscii(s[i])
  {
    seq(|s|, i requires 0 <= i < |s| => LowerAscii(s[i]))
  }

  /** Equality up to US-ASCII case. For the literals the core compares with
      `equalsIgnoreCase` ("all", "on", "off", "GET") this coincides with Java's
      Unicode-aware comparison: no non-ASCII unit case-maps to one of their letters. */
  predicate EqualsIgnoreCaseAscii(a: string, b: string) {
    LowerAsciiString(a) == LowerAsciiString(b)
  }

  /** `"lit".equalsIgnoreCase(s)` with a possibly-null `s`. */
  predicate NullableEqualsIgnoreCase(lit: string, s: Option<string>) {
    s.Some? && EqualsIgnoreCaseAscii(lit, s.value)
  }

  // ---------------------------------------------------------------- rendering

  /** The text Java's string concatenation writes for a possibly-null string. */
  function Str(s: Option<string>): string {
    match s
    case Some(v) => v
    case None => "null"
  }

  function DigitChar(d: int): char
    requires 0 <= d < 10
  {
    ('0' as int + d) as char
  }

  function NatToString(n: nat): (r: string)
    ensures |r| >= 1
    ensures forall i | 0 <= i < |r| :: '0' <= r[i] <= '9'
  {
    if n < 10 then [DigitChar(n)] else NatToString(n / 10) + [DigitChar(n % 10)]
  }

  /** `Integer.toString` / `Long.toString`: an optional '-' then decimal digits. */
  function IntToString(n: int): string {
    if n < 0 then "-" + NatToString(-n) else NatToString(n)
  }

  /** `t` occurs in `s` starting at position `p`. */
  predicate OccursAt(s: string, t: string, p: int) {
    0 <= p && p + |t| <= |s| && s[p..p + |t|] == t
  }

  /** Appending keeps an occurrence where it was. */
  lemma Grow(s: string, t: string, p: int, x: string, y: string)
    requires OccursAt(s, t, p)
    ensures OccursAt(s + x + y, t, p)
  {
    assert (s + x + y)[p..p + |t|] == s[p..p + |t|];
  }

  /** What is appended last occurs at the end. */
  lemma Last(s: string, x: string, y: string)
    ensures OccursAt(s + x + y, y, |s + x|)
  {
    assert (s + x + y)[|s + x|..|s + x| + |y|] == y;
  }

  /** `Collectors.joining(sep)` / `String.join(sep, parts)`. */
  function Join(parts: seq<string>, sep: string): string {
    if |parts| == 0 then ""
    else if |parts| == 1 then parts[0]
    else Join(parts[..|parts| - 1], sep) + sep + parts[|parts| - 1]
  }

  /** Every part occurs in the joined string. */
  lemma {:induction false} JoinContains(parts: seq<string>, sep: string, k: int)
    requires 0 <= k < |parts|
    ensures exists p :: OccursAt(Join(parts, sep), parts[k], p)
  {
    if |parts| == 1 {
      assert parts[0][0..|parts[0]|] == parts[0];
      assert OccursAt(Join(parts, sep), parts[k], 0);
    } else {
      var init := parts[..|parts| - 1];
      assert Join(parts, sep) == Join(init, sep) + sep + parts[|parts| - 1];
      if k == |parts| - 1 {
        Last(Join(init, sep), sep, parts[k]);
      } else {
        JoinContains(init, sep, k);
        var p :| OccursAt(Join(init, sep), init[k], p);
        assert init[k] == parts[k];
        Grow(Join(init, sep), parts[k], p, sep, parts[|parts| - 1]);
      }
    }
  }

  /** `(base.endsWith("/") ? base : base + "/") + rest`, the URL joining used for audio links. */
  function JoinUrl(base: string, rest: string): (r: string)
    ensures StartsWith(r, base) && EndsWith(r, "/" + rest)
    ensures |r| == |base| + |rest| + (if EndsWith(base, "/") then 0 else 1)
  {
    var b := if EndsWith(base, "/") then base else base + "/";
    assert b[|b| - 1] == '/';
    var r := b + rest;
    assert r[..|base|] == base;
    assert r[|r| - |"/" + rest|..] == "/" + rest;
    r
  }

  function Min(a: int, b: int): int {
    if a <= b then a else b
  }

  function Max(a: int, b: int): int {
    if a >= b then a else b
  }
}
