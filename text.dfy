/**
 * Character classes and string helpers shared by the rest of the model.
 *
 * A JavaScript string is modelled as a `seq<char>`. A `char` is a Unicode scalar value,
 * so `length`, `slice` and indexing agree with the source only on strings without
 * characters above U+FFFF, which JavaScript counts as two UTF-16 code units.
 */
module Text {
  import opened Wrappers

  // ---------------------------------------------------------------------
  // Character classes
  // ---------------------------------------------------------------------

  /** The characters matched by the regular-expression class `\s` and removed by `trim()`:
      ECMAScript WhiteSpace (TAB, VT, FF, SP, NBSP, ZWNBSP and the Zs space separators)
      together with the LineTerminators (LF, CR, LS, PS). */
  predicate IsJsWhitespace(c: char) {
    c == '\t' || c == '\n' || c == '\U{B}' || c == '\U{C}' || c == '\r' || c == ' ' ||
    c == '\U{A0}' || c == '\U{1680}' || ('\U{2000}' <= c <= '\U{200A}') ||
    c == '\U{2028}' || c == '\U{2029}' || c == '\U{202F}' || c == '\U{205F}' ||
    c == '\U{3000}' || c == '\U{FEFF}'
  }

  /** The characters that the regular-expression `.` (without the `s` flag) does not match. */
  predicate IsLineTerminator(c: char) {
    c == '\n' || c == '\r' || c == '\U{2028}' || c == '\U{2029}'
  }

  predicate IsAsciiUpper(c: char) { 'A' <= c <= 'Z' }
  predicate IsAsciiLower(c: char) { 'a' <= c <= 'z' }
  predicate IsDigit(c: char) { '0' <= c <= '9' }
  predicate IsAsciiLetter(c: char) { IsAsciiUpper(c) || IsAsciiLower(c) }
  /** `[A-Za-z0-9]` */
  predicate IsAlnum(c: char) { IsAsciiLetter(c) || IsDigit(c) }
  /** `\w`, that is `[A-Za-z0-9_]` */
  predicate IsWordChar(c: char) { IsAlnum(c) || c == '_' }

  predicate AllChars(s: string, p: char -> bool) {
    forall k :: 0 <= k < |s| ==> p(s[k])
  }

  /** ASCII case folding; this is what a case-insensitive (`/i`) regular expression
      without the `u` flag does when the pattern is made of ASCII characters only. */
  function LowerAscii(c: char): (r: char)
    ensures IsAsciiUpper(c) ==> IsAsciiLower(r) && r as int == c as int + 32
    ensures !IsAsciiUpper(c) ==> r == c
  {
    if IsAsciiUpper(c) then (c as int + 32) as char else c
  }

  /** `toLowerCase()` restricted to ASCII letters. */
  function LowerAsciiString(s: string): (r: string)
    ensures |r| == |s|
    ensures forall k :: 0 <= k < |s| ==> r[k] == LowerAscii(s[k])
  {
    seq(|s|, k requires 0 <= k < |s| => LowerAscii(s[k]))
  }

  /** Every character of `r` occurs in `s` and `r` is no longer than `s`. Deleting
      characters always gives such an `r`; the order of what is kept is not recorded. */
  predicate DrawnFrom(r: string, s: string) {
    |r| <= |s| && forall k :: 0 <= k < |r| ==> r[k] in s
  }

  // ---------------------------------------------------------------------
  // Searching and splitting
  // ---------------------------------------------------------------------

  /** `p` occurs in `s` starting at index `i`. */
  predicate OccursAt(s: string, i: nat, p: string) {
    i + |p| <= |s| && s[i..i + |p|] == p
  }

  /** The first index at or after `from` where `p` occurs (`indexOf(p, from)`). */
  function FirstOccurrence(s: string, p: string, from: nat): (r: Option<nat>)
    requires from <= |s|
    ensures r.Some? ==> from <= r.value && OccursAt(s, r.value, p)
    ensures r.Some? ==> forall j :: from <= j < r.value ==> !OccursAt(s, j, p)
    ensures r.None? ==> forall j :: from <= j <= |s| ==> !OccursAt(s, j, p)
    decreases |s| - from
  {
    if OccursAt(s, from, p) then Some(from)
    else if from == |s| then None
    else FirstOccurrence(s, p, from + 1)
  }

  /** The first index at or after `from` holding `c` (`indexOf(c, from)`). */
  function IndexOfChar(s: string, c: char, from: nat): (r: Option<nat>)
    requires from <= |s|
    ensures r.Some? ==> from <= r.value < |s| && s[r.value] == c
    ensures r.Some? ==> forall j :: from <= j < r.value ==> s[j] != c
    ensures r.None? ==> forall j :: from <= j < |s| ==> s[j] != c
    decreases |s| - from
  {
    if from == |s| then None
    else if s[from] == c then Some(from)
    else IndexOfChar(s, c, from + 1)
  }

  /** `s.split(sep)` for a non-empty separator string. */
  function Split(s: string, sep: string): (parts: seq<string>)
    requires |sep| > 0
    ensures |parts| >= 1
    decreases |s|
  {
    match FirstOccurrence(s, sep, 0)
    case None => [s]
    case Some(i) => [s[..i]] + Split(s[i + |sep|..], sep)
  }

  /** `parts.join(sep)` */
  function Join(parts: seq<string>, sep: string): string
    decreases |parts|
  {
    if |parts| == 0 then ""
    else if |parts| == 1 then parts[0]
    else parts[0] + sep + Join(parts[1..], sep)
  }

  /** Splitting and joining back with the same separator gives the original string. */
  lemma {:induction false} JoinSplit(s: string, sep: string)
    requires |sep| > 0
    ensures Join(Split(s, sep), sep) == s
    decreases |s|
  {
    match FirstOccurrence(s, sep, 0)
    case None =>
    case Some(i) =>
      var rest := s[i + |sep|..];
      JoinSplit(rest, sep);
      SplitFirst(s, sep, i);
      JoinCons(s[..i], Split(rest, sep), sep);
      AroundOccurrence(s, i, sep);
  }

  /** A string is what comes before an occurrence, the occurrence, and what follows it. */
  lemma AroundOccurrence(s: string, i: nat, p: string)
    requires OccursAt(s, i, p)
    ensures s == s[..i] + p + s[i + |p|..]
  {
    assert s == s[..i] + s[i..i + |p|] + s[i + |p|..];
  }

  lemma SplitFirst(s: string, sep: string, i: nat)
    requires |sep| > 0
    requires FirstOccurrence(s, sep, 0) == Some(i)
    ensures Split(s, sep) == [s[..i]] + Split(s[i + |sep|..], sep)
  {
  }

  lemma JoinCons(x: string, rest: seq<string>, sep: string)
    requires |rest| >= 1
    ensures Join([x] + rest, sep) == x + sep + Join(rest, sep)
  {
    assert ([x] + rest)[1..] == rest;
  }

  /** No piece produced by `Split` contains the separator. */
  lemma {:induction false} SplitPiecesAvoidSeparator(s: string, sep: string, n: nat, j: nat)
    requires |sep| > 0
    requires n < |Split(s, sep)|
    ensures !OccursAt(Split(s, sep)[n], j, sep)
    decreases |s|
  {
    match FirstOccurrence(s, sep, 0)
    case None =>
      SplitNone(s, sep, j);
    case Some(i) =>
      if n == 0 {
        SplitFirst(s, sep, i);
        PrefixAvoids(s, sep, i, j);
      } else {
        var rest := SplitLater(s, sep, i, n);
        SplitPiecesAvoidSeparator(rest, sep, n - 1, j);
      }
  }

  /** Without an occurrence the only piece is the whole string. */
  lemma SplitNone(s: string, sep: string, j: nat)
    requires |sep| > 0
    requires FirstOccurrence(s, sep, 0).None?
    ensures Split(s, sep) == [s] && !OccursAt(s, j, sep)
  {
  }

  /** A later piece is a piece of what follows the first occurrence. */
  lemma SplitLater(s: string, sep: string, i: nat, n: nat) returns (rest: string)
    requires |sep| > 0 && 0 < n < |Split(s, sep)|
    requires FirstOccurrence(s, sep, 0) == Some(i)
    ensures |rest| < |s| && n - 1 < |Split(rest, sep)| && Split(s, sep)[n] == Split(rest, sep)[n - 1]
  {
    SplitFirst(s, sep, i);
    rest := s[i + |sep|..];
  }

  /** The part before the first occurrence does not contain the pattern. */
  lemma PrefixAvoids(s: string, p: string, i: nat, j: nat)
    requires |p| > 0 && i <= |s|
    requires forall k :: 0 <= k < i ==> !OccursAt(s, k, p)
    ensures !OccursAt(s[..i], j, p)
  {
    if j + |p| <= i {
      assert !OccursAt(s, j, p);
      assert s[..i][j..j + |p|] == s[j..j + |p|];
    }
  }

  /** When the first occurrence of a one-character separator is at index `|a|`,
      the first piece is `a` and the remaining pieces come from what follows it. */
  lemma SplitAtFirst(a: string, c: char, rest: string)
    requires c !in a
    ensures Split(a + [c] + rest, [c]) == [a] + Split(rest, [c])
  {
    var s := a + [c] + rest;
    var r := FirstOccurrence(s, [c], 0);
    assert OccursAt(s, |a|, [c]) by { assert s[|a|..|a| + 1] == [c]; }
    forall j | 0 <= j < |a| ensures !OccursAt(s, j, [c]) {
      assert s[j..j + 1] == [a[j]];
    }
    assert r == Some(|a|);
    assert s[..|a|] == a;
    assert s[|a| + 1..] == rest;
  }

  /** Without any occurrence of the one-character separator the string is a single piece. */
  lemma SplitWithout(s: string, c: char)
    requires c !in s
    ensures Split(s, [c]) == [s]
  {
    forall j | 0 <= j <= |s| ensures !OccursAt(s, j, [c]) {
      assert j < |s| ==> s[j..j + 1] == [s[j]];
    }
  }

  // ---------------------------------------------------------------------
  // Trimming
  // ---------------------------------------------------------------------

  /** `trimStart()` */
  function TrimStart(s: string): (r: string)
    ensures |r| <= |s| && r == s[|s| - |r|..]
    ensures r == [] || !IsJsWhitespace(r[0])
    ensures forall k :: 0 <= k < |s| - |r| ==> IsJsWhitespace(s[k])
    decreases |s|
  {
    if |s| > 0 && IsJsWhitespace(s[0]) then TrimStart(s[1..]) else s
  }

  /** `trimEnd()` */
  function TrimEnd(s: string): (r: string)
    ensures |r| <= |s| && r == s[..|r|]
    ensures r == [] || !IsJsWhitespace(r[|r| - 1])
    ensures forall k :: |r| <= k < |s| ==> IsJsWhitespace(s[k])
    decreases |s|
  {
    if |s| > 0 && IsJsWhitespace(s[|s| - 1]) then TrimEnd(s[..|s| - 1]) else s
  }

  /** `trim()`: no whitespace is left at either end. */
  function Trim(s: string): (r: string)
    ensures |r| <= |s|
    ensures r == [] || (!IsJsWhitespace(r[0]) && !IsJsWhitespace(r[|r| - 1]))
  {
    TrimEnd(TrimStart(s))
  }

  /** The trimmed string is the piece of `s` starting at `a`, and only whitespace was cut
      off on either side of it. */
  lemma TrimCutsOnlyWhitespace(s: string) returns (a: nat)
    ensures a + |Trim(s)| <= |s| && Trim(s) == s[a..a + |Trim(s)|]
    ensures forall k :: 0 <= k < a ==> IsJsWhitespace(s[k])
    ensures forall k :: a + |Trim(s)| <= k < |s| ==> IsJsWhitespace(s[k])
  {
    var t := TrimStart(s);
    a := |s| - |t|;
    var r := TrimEnd(t);
    assert Trim(s) == r;
    PrefixOfSuffix(s, a, t, r);
  }

  /** A prefix r of the suffix t of s starting at a is the slice of s at a, and what t has
      after r sits in s at the same offset. */
  lemma PrefixOfSuffix(s: string, a: nat, t: string, r: string)
    requires a <= |s| && t == s[a..] && |r| <= |t| && r == t[..|r|]
    requires forall k :: |r| <= k < |t| ==> IsJsWhitespace(t[k])
    ensures a + |r| <= |s| && r == s[a..a + |r|]
    ensures forall k :: a + |r| <= k < |s| ==> IsJsWhitespace(s[k])
  {
    forall k | a + |r| <= k < |s| ensures IsJsWhitespace(s[k]) {
      assert s[k] == t[k - a];
    }
  }

  /** Every character of the trimmed string occurs in the input. */
  lemma TrimDrawnFrom(s: string)
    ensures DrawnFrom(Trim(s), s)
  {
    var a := TrimCutsOnlyWhitespace(s);
    var r := Trim(s);
    forall k | 0 <= k < |r| ensures r[k] in s {
      assert r[k] == s[a + k];
    }
  }

  /** A string with whitespace at neither end is its own trim. */
  lemma TrimNoop(s: string)
    requires s == [] || (!IsJsWhitespace(s[0]) && !IsJsWhitespace(s[|s| - 1]))
    ensures Trim(s) == s
  {
  }

  // ---------------------------------------------------------------------
  // Decimal numbers
  // ---------------------------------------------------------------------

  function DigitChar(d: nat): (c: char)
    requires d < 10
    ensures IsDigit(c)
  {
    ('0' as int + d) as char
  }

  function DigitValue(c: char): (d: nat)
    requires IsDigit(c)
    ensures d < 10 && DigitChar(d) == c
  {
    c as int - '0' as int
  }

  /** The decimal rendering of a non-negative integer, as `String(n)` or `${n}` gives it. */
  function NatToDecimal(n: nat): (r: string)
    ensures |r| >= 1 && AllChars(r, IsDigit)
    ensures (|r| == 1) == (n < 10)
    ensures r[0] != '0' || n == 0
    decreases n
  {
    if n < 10 then [DigitChar(n)] else NatToDecimal(n / 10) + [DigitChar(n % 10)]
  }

  /** The decimal rendering of an integer, with a leading `-` when it is negative. */
  function IntToDecimal(i: int): (r: string)
    ensures |r| >= 1
    ensures (r[0] == '-') == (i < 0)
  {
    if i < 0 then "-" + NatToDecimal(-i) else NatToDecimal(i)
  }

  /** The value of a string of decimal digits. */
  function DigitsValue(s: string): (v: nat)
    requires AllChars(s, IsDigit)
    decreases |s|
  {
    if s == [] then 0 else DigitsValue(s[..|s| - 1]) * 10 + DigitValue(s[|s| - 1])
  }

  /** Reading back a rendered number gives the number. */
  lemma {:induction false} DigitsValueOfDecimal(n: nat)
    ensures DigitsValue(NatToDecimal(n)) == n
    decreases n
  {
    var r := NatToDecimal(n);
    if n >= 10 {
      DigitsValueOfDecimal(n / 10);
      assert r[..|r| - 1] == NatToDecimal(n / 10);
      assert DigitValue(r[|r| - 1]) == n % 10;
    } else {
      assert r[..0] == [];
    }
  }

  /** Different numbers have different decimal renderings. */
  lemma NatToDecimalInjective(a: nat, b: nat)
    requires NatToDecimal(a) == NatToDecimal(b)
    ensures a == b
  {
    DigitsValueOfDecimal(a);
    DigitsValueOfDecimal(b);
  }

  /** The longest prefix of `s` made of decimal digits. */
  function DigitRun(s: string): (r: string)
    ensures |r| <= |s| && r == s[..|r|] && AllChars(r, IsDigit)
    ensures |r| == |s| || !IsDigit(s[|r|])
    decreases |s|
  {
    if |s| > 0 && IsDigit(s[0]) then [s[0]] + DigitRun(s[1..]) else []
  }

  /** `parseInt(s)` with the default radix for strings without a `0x` prefix: leading
      whitespace is skipped, an optional sign is read, then the longest run of digits;
      `None` stands for `NaN` (no digit at all). */
  function ParseInt(s: string): (r: Option<int>)
    ensures r.None? <==>
      (var t := TrimStart(s);
       var u := if |t| > 0 && (t[0] == '+' || t[0] == '-') then t[1..] else t;
       u == [] || !IsDigit(u[0]))
  {
    var t := TrimStart(s);
    var negative := |t| > 0 && t[0] == '-';
    var u := if |t| > 0 && (t[0] == '+' || t[0] == '-') then t[1..] else t;
    var digits := DigitRun(u);
    if digits == [] then None
    else
      var v: int := DigitsValue(digits);
      Some(if negative then -v else v)
  }

  /** `parseInt` reads back every rendered non-negative integer. */
  lemma ParseIntOfDecimal(n: nat, tail: string)
    requires tail == [] || !IsDigit(tail[0])
    ensures ParseInt(NatToDecimal(n) + tail) == Some(n)
  {
    var d := NatToDecimal(n);
    var s := d + tail;
    assert s[0] == d[0];
    DigitRunPrefix(d, tail);
    DigitsValueOfDecimal(n);
    ParseIntOfDigitStart(s);
  }

  /** A string that starts with a digit is read as the value of its leading digits. */
  lemma ParseIntOfDigitStart(s: string)
    requires |s| > 0 && IsDigit(s[0])
    ensures ParseInt(s) == Some(DigitsValue(DigitRun(s)))
  {
    DigitIsNotBlankOrSign(s[0]);
    TrimStartKeeps(s);
  }

  /** A digit is neither whitespace nor a sign. */
  lemma DigitIsNotBlankOrSign(c: char)
    requires IsDigit(c)
    ensures !IsJsWhitespace(c) && c != '-' && c != '+'
  {
  }

  /** `trimStart()` keeps a string that does not start with whitespace. */
  lemma TrimStartKeeps(s: string)
    requires s == [] || !IsJsWhitespace(s[0])
    ensures TrimStart(s) == s
  {
  }

  lemma {:induction false} DigitRunPrefix(d: string, tail: string)
    requires AllChars(d, IsDigit)
    requires tail == [] || !IsDigit(tail[0])
    ensures DigitRun(d + tail) == d
    decreases |d|
  {
    if d == [] {
      assert d + tail == tail;
    } else {
      DigitRunPrefix(d[1..], tail);
      assert (d + tail)[1..] == d[1..] + tail;
    }
  }
}
