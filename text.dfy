/**
 * The string operations the backend relies on: `trim`, ASCII lower-casing,
 * the e-mail pattern `^[^\s@]+@[^\s@]+\.[^\s@]+$`, decimal rendering with
 * `padStart`, `parseInt` with its sign and base rules, `split`, the UTF-16
 * `length`, and the code-point order the database uses to sort credit
 * numbers.
 */
module Text {

  import opened Common

  /** The characters `String.prototype.trim` and the regex class `\s` treat as white space. */
  predicate IsSpace(c: char) {
    c == ' ' || c == '\t' || c == '\n' || c == '\r' || c == '\U{000B}' || c == '\U{000C}'
    || c == '\U{00A0}' || c == '\U{1680}' || ('\U{2000}' <= c <= '\U{200A}')
    || c == '\U{2028}' || c == '\U{2029}' || c == '\U{202F}' || c == '\U{205F}'
    || c == '\U{3000}' || c == '\U{FEFF}'
  }

  ghost predicate AllSpace(s: string) {
    forall i :: 0 <= i < |s| ==> IsSpace(s[i])
  }

  /**
   * `s.length`: the number of UTF-16 code units, which is two for a
   * character outside the Basic Multilingual Plane and one for any other.
   */
  function JsLength(s: string): (n: nat)
    ensures |s| <= n <= 2 * |s|
    ensures n == 0 <==> s == []
    decreases |s|
  {
    if s == [] then 0 else JsLength(s[..|s| - 1]) + (if s[|s| - 1] as int >= 0x10000 then 2 else 1)
  }

  /** Inside the Basic Multilingual Plane the length is the number of characters. */
  lemma {:induction false} JsLengthBmp(s: string)
    requires forall i | 0 <= i < |s| :: s[i] as int < 0x10000
    ensures JsLength(s) == |s|
    decreases |s|
  {
    if s != [] {
      JsLengthBmp(s[..|s| - 1]);
    }
  }

  /** Three characters outside the Basic Multilingual Plane have length 6. */
  lemma JsLengthAstral()
    ensures JsLength("\U{1F511}\U{1F511}\U{1F511}") == 6
  {
    var s := "\U{1F511}\U{1F511}\U{1F511}";
    assert s[..2][..1] == s[..1] && s[..3][..2] == s[..2];
    assert JsLength(s[..1]) == 2;
    assert JsLength(s[..2]) == 4;
  }

  /** Drops the leading white space. */
  function TrimStart(s: string): (r: string)
    ensures |r| <= |s|
  {
    if s != [] && IsSpace(s[0]) then TrimStart(s[1..]) else s
  }

  /** What `TrimStart` drops is a prefix of white space, and what it keeps starts with a non-space. */
  lemma {:induction false} TrimStartLaws(s: string)
    ensures var r := TrimStart(s);
            r == s[|s| - |r|..]
            && (forall i :: 0 <= i < |s| - |r| ==> IsSpace(s[i]))
            && (r != [] ==> !IsSpace(r[0]))
  {
    if s != [] && IsSpace(s[0]) {
      TrimStartLaws(s[1..]);
    }
  }

  /** Drops the trailing white space. */
  function TrimEnd(s: string): (r: string)
    ensures |r| <= |s|
  {
    if s != [] && IsSpace(s[|s| - 1]) then TrimEnd(s[..|s| - 1]) else s
  }

  /** What `TrimEnd` drops is a suffix of white space, and what it keeps ends with a non-space. */
  lemma {:induction false} TrimEndLaws(s: string)
    ensures var r := TrimEnd(s);
            r == s[..|r|]
            && (forall i :: |r| <= i < |s| ==> IsSpace(s[i]))
            && (r != [] ==> !IsSpace(r[|r| - 1]))
  {
    if s != [] && IsSpace(s[|s| - 1]) {
      TrimEndLaws(s[..|s| - 1]);
    }
  }

  /** `s.trim()`: the longest infix of `s` that starts and ends with a non-space. */
  function Trim(s: string): (r: string)
    ensures |r| <= |s|
  {
    TrimEnd(TrimStart(s))
  }

  /** The trim is empty exactly for a string of white space, and otherwise has non-space ends. */
  lemma TrimLaws(s: string)
    ensures Trim(s) == [] <==> AllSpace(s)
    ensures Trim(s) != [] ==> !IsSpace(Trim(s)[0]) && !IsSpace(Trim(s)[|Trim(s)| - 1])
  {
    var t := TrimStart(s);
    var r := TrimEnd(t);
    TrimStartLaws(s);
    TrimEndLaws(t);
    assert r == [] ==> AllSpace(t);
    assert AllSpace(s) ==> t == [] by {
      if t != [] {
        assert t[0] == s[|s| - |t|];
      }
    }
  }

  /** `s.trim().length === 0` */
  predicate IsBlank(s: string) {
    Trim(s) == []
  }

  /** A string without white space is its own trim. */
  lemma {:induction false} TrimNoSpace(s: string)
    requires forall i :: 0 <= i < |s| ==> !IsSpace(s[i])
    ensures Trim(s) == s
  {
    var t := TrimStart(s);
    TrimStartLaws(s);
    assert t == s;
    var r := TrimEnd(t);
    TrimEndLaws(t);
    assert r == t;
  }

  /** `!x || x.trim().length === 0` for an optional string. */
  predicate MissingOrBlank(x: Option<string>) {
    !TruthyStr(x) || |Trim(x.value)| == 0
  }

  /** Missing or blank, read as: absent, or nothing but white space. */
  lemma MissingOrBlankMeaning(x: Option<string>)
    ensures MissingOrBlank(x) <==> x.None? || AllSpace(x.value)
  {
    if x.Some? {
      TrimLaws(x.value);
    }
  }

  /** Trimming a trimmed string changes nothing. */
  lemma TrimIdempotent(s: string)
    ensures Trim(Trim(s)) == Trim(s)
  {
    var r := Trim(s);
    TrimLaws(s);
    if r != [] {
      assert TrimStart(r) == r;
      assert TrimEnd(r) == r;
    }
  }

  /** ASCII upper case to lower case; other characters unchanged. */
  function LowerChar(c: char): (r: char)
    ensures IsSpace(r) <==> IsSpace(c)
    ensures r == '@' <==> c == '@'
    ensures r == '.' <==> c == '.'
  {
    if 'A' <= c <= 'Z' then (c as int + 32) as char else c
  }

  /** `s.toLowerCase()` restricted to ASCII letters. */
  function ToLower(s: string): (r: string)
    ensures |r| == |s|
    ensures forall i :: 0 <= i < |s| ==> r[i] == LowerChar(s[i])
  {
    seq(|s|, i requires 0 <= i < |s| => LowerChar(s[i]))
  }

  /** Lower-casing twice is lower-casing once. */
  lemma ToLowerIdempotent(s: string)
    ensures ToLower(ToLower(s)) == ToLower(s)
  {
  }

  // ---------------------------------------------------------------------------
  // The e-mail pattern /^[^\s@]+@[^\s@]+\.[^\s@]+$/
  // ---------------------------------------------------------------------------

  /** The character class `[^\s@]`. */
  predicate EmailChar(c: char) {
    !IsSpace(c) && c != '@'
  }

  /** Every character of `s[lo..hi]` is in `[^\s@]`. */
  ghost predicate EmailRun(s: string, lo: int, hi: int) {
    forall t | lo <= t < hi && 0 <= t < |s| :: EmailChar(s[t])
  }

  /**
   * Reference reading of the pattern: three non-empty runs of `[^\s@]`,
   * the first two separated by `@`, the last two by a dot.
   */
  ghost predicate MatchesEmailPattern(s: string) {
    exists i, j | 0 < i && i + 1 < j && j + 1 < |s| ::
      s[i] == '@' && s[j] == '.'
      && EmailRun(s, 0, i) && EmailRun(s, i + 1, j) && EmailRun(s, j + 1, |s|)
  }

  /** Index of the first occurrence of `c`, or `|s|` when there is none. */
  function IndexOf(s: string, c: char): (k: nat)
    ensures k <= |s|
    ensures forall i :: 0 <= i < k ==> s[i] != c
    ensures k < |s| ==> s[k] == c
  {
    if s == [] then 0 else if s[0] == c then 0 else 1 + IndexOf(s[1..], c)
  }

  /**
   * `emailRegex.test(s)`, computed by one scan: no white space, exactly one `@`,
   * not in first position, and a dot after it that is neither right after the
   * `@` nor the last character.
   */
  predicate EmailTest(s: string) {
    var k := IndexOf(s, '@');
    0 < k < |s|
    && (forall i | 0 <= i < |s| :: !IsSpace(s[i]))
    && (forall i | k < i < |s| :: s[i] != '@')
    && exists j | k + 1 < j < |s| - 1 :: s[j] == '.'
  }

  /** The one-scan test accepts exactly the strings the pattern matches. */
  lemma EmailTestMatchesPattern(s: string)
    ensures EmailTest(s) <==> MatchesEmailPattern(s)
  {
    if EmailTest(s) {
      EmailTestSound(s);
    }
    if MatchesEmailPattern(s) {
      EmailTestComplete(s);
    }
  }

  lemma EmailTestSound(s: string)
    requires EmailTest(s)
    ensures MatchesEmailPattern(s)
  {
    var k := IndexOf(s, '@');
    var j :| k + 1 < j < |s| - 1 && s[j] == '.';
    assert EmailRun(s, 0, k);
    assert EmailRun(s, k + 1, j);
    assert EmailRun(s, j + 1, |s|);
  }

  lemma EmailTestComplete(s: string)
    requires MatchesEmailPattern(s)
    ensures EmailTest(s)
  {
    var i, j :| 0 < i && i + 1 < j && j + 1 < |s| && s[i] == '@' && s[j] == '.'
      && EmailRun(s, 0, i) && EmailRun(s, i + 1, j) && EmailRun(s, j + 1, |s|);
    assert forall t | 0 <= t < |s| && t != i && t != j :: EmailChar(s[t]);
    var k := IndexOf(s, '@');
    assert k == i;
  }

  /** An accepted e-mail has no white space, so trimming it changes nothing. */
  lemma EmailTestTrimmed(s: string)
    requires EmailTest(s)
    ensures Trim(s) == s
    ensures !IsBlank(s)
  {
    TrimNoSpace(s);
    TrimLaws(s);
  }

  /** Lower-casing keeps an accepted e-mail accepted. */
  lemma EmailTestLower(s: string)
    requires EmailTest(s)
    ensures EmailTest(ToLower(s))
  {
    var l := ToLower(s);
    var k := IndexOf(s, '@');
    assert IndexOf(l, '@') == k;
    var j :| k + 1 < j < |s| - 1 && s[j] == '.';
    assert l[j] == '.';
  }

  // ---------------------------------------------------------------------------
  // Decimal digits
  // ---------------------------------------------------------------------------

  predicate IsDigit(c: char) {
    '0' <= c <= '9'
  }

  predicate AllDigits(s: string) {
    forall i | 0 <= i < |s| :: IsDigit(s[i])
  }

  function DigitChar(d: nat): (c: char)
    requires d < 10
    ensures IsDigit(c) && c as int - '0' as int == d
  {
    "0123456789"[d]
  }

  function DigitValue(c: char): (d: nat)
    requires IsDigit(c)
    ensures d < 10
  {
    c as int - '0' as int
  }

  function Pow10(k: nat): (p: nat)
    ensures p >= 1
  {
    if k == 0 then 1 else 10 * Pow10(k - 1)
  }

  /** The number a string of decimal digits denotes, read from the most significant digit. */
  function DigitsValue(s: string): (v: nat)
    requires AllDigits(s)
    ensures v < Pow10(|s|)
  {
    if s == [] then 0
    else
      var rest := DigitsValue(s[1..]);
      LeadingDigitBound(DigitValue(s[0]), Pow10(|s| - 1), rest);
      DigitValue(s[0]) * Pow10(|s| - 1) + rest
  }

  lemma LeadingDigitBound(d: nat, p: nat, rest: nat)
    requires d <= 9 && rest < p
    ensures d * p + rest < 10 * p
  {
  }

  /** Appending a digit multiplies by ten and adds it. */
  lemma {:induction false} DigitsValueAppend(s: string, c: char)
    requires AllDigits(s) && IsDigit(c)
    ensures AllDigits(s + [c])
    ensures DigitsValue(s + [c]) == DigitsValue(s) * 10 + DigitValue(c)
  {
    var sc := s + [c];
    assert AllDigits(sc);
    if s != [] {
      assert sc[1..] == s[1..] + [c];
      assert sc[0] == s[0];
      DigitsValueAppend(s[1..], c);
      var x, p, r, d := DigitValue(s[0]), Pow10(|s| - 1), DigitsValue(s[1..]), DigitValue(c);
      assert DigitsValue(sc[1..]) == r * 10 + d;
      assert Pow10(|sc| - 1) == 10 * p;
      assert DigitValue(sc[0]) == x;
      assert DigitsValue(sc) == x * Pow10(|sc| - 1) + DigitsValue(sc[1..]);
      assert DigitsValue(s) == x * p + r;
      ShiftDigit(x, p, r, d);
    } else {
      assert sc[1..] == [];
    }
  }

  lemma ShiftDigit(x: int, p: int, r: int, d: int)
    ensures x * (10 * p) + (r * 10 + d) == (x * p + r) * 10 + d
  {
  }

  /** `String(n)` for a natural number: its decimal digits, no leading zero. */
  function NatToString(n: nat): (r: string)
    ensures r != [] && AllDigits(r)
    ensures |r| > 1 ==> r[0] != '0'
    decreases n
  {
    if n < 10 then [DigitChar(n)] else NatToString(n / 10) + [DigitChar(n % 10)]
  }

  /** `parseInt(String(n)) === n` */
  lemma {:induction false} NatToStringValue(n: nat)
    ensures DigitsValue(NatToString(n)) == n
    decreases n
  {
    if n >= 10 {
      NatToStringValue(n / 10);
      DigitsValueAppend(NatToString(n / 10), DigitChar(n % 10));
    }
  }

  /** A number below 10^k has at most k digits. */
  lemma {:induction false} NatToStringLength(n: nat, k: nat)
    requires 1 <= k && n < Pow10(k)
    ensures |NatToString(n)| <= k
    decreases n
  {
    if n >= 10 {
      assert Pow10(1) == 10;
      assert k >= 2;
      assert n / 10 < Pow10(k - 1);
      NatToStringLength(n / 10, k - 1);
    }
  }

  function Repeat(c: char, k: nat): (r: string)
    ensures |r| == k && forall i | 0 <= i < k :: r[i] == c
  {
    seq(k, _ => c)
  }

  /** `s.padStart(width, c)` */
  function PadStart(s: string, width: nat, c: char): (r: string)
    ensures |s| >= width ==> r == s
    ensures |s| < width ==> r == Repeat(c, width - |s|) + s
  {
    if |s| >= width then s else Repeat(c, width - |s|) + s
  }

  /** Leading zeros do not change the value of a digit string. */
  lemma {:induction false} LeadingZerosValue(k: nat, s: string)
    requires AllDigits(s)
    ensures AllDigits(Repeat('0', k) + s)
    ensures DigitsValue(Repeat('0', k) + s) == DigitsValue(s)
  {
    var z := Repeat('0', k) + s;
    assert AllDigits(z) by {
      forall i | 0 <= i < |z| ensures IsDigit(z[i]) {
        if i >= k {
          assert z[i] == s[i - k];
        }
      }
    }
    if k > 0 {
      assert z[0] == '0';
      assert z[1..] == Repeat('0', k - 1) + s;
      LeadingZerosValue(k - 1, s);
      assert DigitsValue(z) == 0 * Pow10(|z| - 1) + DigitsValue(z[1..]);
    } else {
      assert z == s;
    }
  }

  /** `String(n).padStart(6, '0')` */
  function Pad6(n: nat): string {
    PadStart(NatToString(n), 6, '0')
  }

  /** Below a million, the padded rendering is six digits that denote `n`. */
  lemma Pad6Value(n: nat)
    requires n < 1000000
    ensures |Pad6(n)| == 6 && AllDigits(Pad6(n)) && DigitsValue(Pad6(n)) == n
  {
    assert Pow10(6) == 1000000;
    NatToStringLength(n, 6);
    NatToStringValue(n);
    var s := NatToString(n);
    if |s| < 6 {
      LeadingZerosValue(6 - |s|, s);
    }
  }

  // ---------------------------------------------------------------------------
  // parseInt, split
  // ---------------------------------------------------------------------------

  /** The longest prefix of decimal digits. */
  function LeadingDigits(s: string): (r: string)
    ensures AllDigits(r) && |r| <= |s| && r == s[..|r|]
    ensures |r| < |s| ==> !IsDigit(s[|r|])
  {
    if s != [] && IsDigit(s[0]) then [s[0]] + LeadingDigits(s[1..]) else []
  }

  predicate IsHexDigit(c: char) {
    IsDigit(c) || 'a' <= c <= 'f' || 'A' <= c <= 'F'
  }

  function HexDigitValue(c: char): (d: nat)
    requires IsHexDigit(c)
    ensures d < 16
  {
    if IsDigit(c) then DigitValue(c)
    else if 'a' <= c <= 'f' then c as int - 'a' as int + 10
    else c as int - 'A' as int + 10
  }

  /** The longest prefix of hexadecimal digits. */
  function LeadingHexDigits(s: string): (r: string)
    ensures |r| <= |s| && r == s[..|r|] && forall i | 0 <= i < |r| :: IsHexDigit(r[i])
    ensures |r| < |s| ==> !IsHexDigit(s[|r|])
  {
    if s != [] && IsHexDigit(s[0]) then [s[0]] + LeadingHexDigits(s[1..]) else []
  }

  /** The number a run of hexadecimal digits denotes. */
  function HexValue(s: string): nat
    requires forall i | 0 <= i < |s| :: IsHexDigit(s[i])
    decreases |s|
  {
    if s == [] then 0 else HexValue(s[..|s| - 1]) * 16 + HexDigitValue(s[|s| - 1])
  }

  /** What follows the optional sign. */
  function Unsigned(t: string): string {
    if t != [] && (t[0] == '-' || t[0] == '+') then t[1..] else t
  }

  /** A `0x` or `0X` prefix, which makes `parseInt` without a radix read base 16. */
  predicate HexPrefixed(u: string) {
    |u| >= 2 && u[0] == '0' && (u[1] == 'x' || u[1] == 'X')
  }

  /**
   * `parseInt(s)` with no radix: leading white space is skipped, one sign is
   * taken, a `0x` prefix selects base 16, and the longest run of digits of
   * the base is read; `None` stands for `NaN`, which comes exactly when that
   * run is empty.
   */
  function ParseInt(s: string): (r: Option<int>)
    ensures var u := Unsigned(TrimStart(s));
            r.None? <==> if HexPrefixed(u) then |u| == 2 || !IsHexDigit(u[2]) else u == [] || !IsDigit(u[0])
  {
    var t := TrimStart(s);
    var negative := t != [] && t[0] == '-';
    var u := Unsigned(t);
    if HexPrefixed(u) then
      var h := LeadingHexDigits(u[2..]);
      if h == [] then None else Some(if negative then -(HexValue(h) as int) else HexValue(h))
    else
      var d := LeadingDigits(u);
      if d == [] then None else Some(if negative then -(DigitsValue(d) as int) else DigitsValue(d))
  }

  /** A digit string is read whole, in base 10. */
  lemma DigitsRead(d: string)
    requires d != [] && AllDigits(d)
    ensures !HexPrefixed(d) && LeadingDigits(d) == d
  {
    if |d| >= 2 {
      assert IsDigit(d[1]);
    }
    assert |LeadingDigits(d)| == |d|;
  }

  /** A string of decimal digits parses to its value. */
  lemma ParseDigits(s: string)
    requires s != [] && AllDigits(s)
    ensures ParseInt(s) == Some(DigitsValue(s))
  {
    assert TrimStart(s) == s;
    assert Unsigned(s) == s;
    DigitsRead(s);
  }

  /** Leading white space is skipped. */
  lemma ParseIntSkipsSpace(c: char, s: string)
    requires IsSpace(c)
    ensures ParseInt([c] + s) == ParseInt(s)
  {
    assert ([c] + s)[1..] == s;
  }

  /** A sign is not white space, and it is what `Unsigned` drops. */
  lemma SignKept(c: char, d: string)
    requires c == '-' || c == '+'
    ensures var s := [c] + d; s != [] && s[0] == c && TrimStart(s) == s && Unsigned(s) == d
  {
    assert !IsSpace(c);
    assert ([c] + d)[1..] == d;
  }

  /** A sign followed by decimal digits. */
  lemma ParseSign(c: char, d: string)
    requires (c == '-' || c == '+') && d != [] && AllDigits(d)
    ensures ParseInt([c] + d) == Some(if c == '-' then -(DigitsValue(d) as int) else DigitsValue(d))
  {
    SignKept(c, d);
    DigitsRead(d);
  }

  /** One sign is taken: `-` negates the digits that follow it and `+` keeps them. */
  lemma ParseIntSigned(d: string)
    requires d != [] && AllDigits(d)
    ensures ParseInt("-" + d) == Some(-(DigitsValue(d) as int))
    ensures ParseInt("+" + d) == Some(DigitsValue(d))
  {
    ParseSign('-', d);
    ParseSign('+', d);
  }

  /** `s.split(c)` */
  function Split(s: string, c: char): (parts: seq<string>)
    ensures |parts| >= 1
    decreases |s|
  {
    var k := IndexOf(s, c);
    if k == |s| then [s] else [s[..k]] + Split(s[k + 1..], c)
  }

  /** Splitting at a separator that the first part does not contain. */
  lemma SplitCons(a: string, c: char, rest: string)
    requires forall i | 0 <= i < |a| :: a[i] != c
    ensures Split(a + [c] + rest, c) == [a] + Split(rest, c)
  {
    var s := a + [c] + rest;
    assert s[|a|] == c;
    assert forall i | 0 <= i < |a| :: s[i] == a[i];
    assert IndexOf(s, c) == |a|;
    assert s[..|a|] == a;
    assert s[|a| + 1..] == rest;
  }

  // ---------------------------------------------------------------------------
  // Code-point order of strings (`orderBy: 'desc'` on a text column)
  // ---------------------------------------------------------------------------

  predicate StartsWith(s: string, p: string) {
    |p| <= |s| && s[..|p|] == p
  }

  /** `a <= b` in lexicographic code-point order. */
  predicate LexLe(a: string, b: string) {
    if a == [] then true
    else if b == [] then false
    else if a[0] != b[0] then a[0] < b[0]
    else LexLe(a[1..], b[1..])
  }

  lemma {:induction false} LexLeTotal(a: string, b: string)
    ensures LexLe(a, b) || LexLe(b, a)
  {
    if a != [] && b != [] && a[0] == b[0] {
      LexLeTotal(a[1..], b[1..]);
    }
  }

  lemma {:induction false} LexLeTrans(a: string, b: string, c: string)
    requires LexLe(a, b) && LexLe(b, c)
    ensures LexLe(a, c)
  {
    if a != [] && b != [] && c != [] && a[0] == b[0] && b[0] == c[0] {
      LexLeTrans(a[1..], b[1..], c[1..]);
    }
  }

  lemma {:induction false} LexLeAntisym(a: string, b: string)
    requires LexLe(a, b) && LexLe(b, a)
    ensures a == b
  {
    if a != [] && b != [] {
      LexLeAntisym(a[1..], b[1..]);
      assert a == [a[0]] + a[1..];
      assert b == [b[0]] + b[1..];
    }
  }

  /** A common prefix does not change the order. */
  lemma {:induction false} LexLePrefix(p: string, a: string, b: string)
    ensures LexLe(p + a, p + b) <==> LexLe(a, b)
  {
    if p != [] {
      assert (p + a)[0] == p[0] == (p + b)[0];
      assert (p + a)[1..] == p[1..] + a;
      assert (p + b)[1..] == p[1..] + b;
      LexLePrefix(p[1..], a, b);
    } else {
      assert p + a == a && p + b == b;
    }
  }

  /** For digit strings of one length, code-point order is numeric order. */
  lemma {:induction false} LexLeDigits(a: string, b: string)
    requires |a| == |b| && AllDigits(a) && AllDigits(b)
    ensures LexLe(a, b) <==> DigitsValue(a) <= DigitsValue(b)
  {
    if a != [] {
      DigitsCompareHead(a, b);
      LexLeDigits(a[1..], b[1..]);
    }
  }

  /** Two digit strings of one length compare by their first digits, then by the rest. */
  lemma DigitsCompareHead(a: string, b: string)
    requires |a| == |b| && a != [] && AllDigits(a) && AllDigits(b)
    ensures DigitsValue(a) <= DigitsValue(b) <==>
              a[0] < b[0] || (a[0] == b[0] && DigitsValue(a[1..]) <= DigitsValue(b[1..]))
  {
    DigitsValueHead(a);
    DigitsValueHead(b);
    var da, db := DigitValue(a[0]), DigitValue(b[0]);
    assert a[0] < b[0] <==> da < db;
    assert a[0] == b[0] <==> da == db;
    LeadingDigitDecides(da, db, Pow10(|a| - 1), DigitsValue(a[1..]), DigitsValue(b[1..]));
  }

  /** The first digit weighs its place value. */
  lemma DigitsValueHead(s: string)
    requires s != [] && AllDigits(s)
    ensures DigitsValue(s) == DigitValue(s[0]) * Pow10(|s| - 1) + DigitsValue(s[1..])
    ensures DigitsValue(s[1..]) < Pow10(|s| - 1)
  {
    var t := s[1..];
    assert |t| == |s| - 1 && AllDigits(t);
    assert DigitsValue(t) < Pow10(|t|);
  }

  /** A leading digit decides the comparison, and equal leading digits leave it to what follows. */
  lemma LeadingDigitDecides(x: nat, y: nat, p: nat, rx: nat, ry: nat)
    requires rx < p && ry < p
    ensures x * p + rx <= y * p + ry <==> x < y || (x == y && rx <= ry)
  {
    if x < y {
      MulMono(x + 1, y, p);
      assert (x + 1) * p == x * p + p;
    } else if y < x {
      MulMono(y + 1, x, p);
      assert (y + 1) * p == y * p + p;
    }
  }

  lemma {:induction false} MulMono(a: nat, b: nat, p: nat)
    requires a <= b
    ensures a * p <= b * p
    decreases b - a
  {
    if a < b {
      MulMono(a, b - 1, p);
      assert b * p == (b - 1) * p + p;
    }
  }
}
