/**
 * The JavaScript string operations the simulator relies on, over strings as
 * sequences of Unicode scalar values (`seq<char>`), which agree with
 * JavaScript's UTF-16 code units on text inside the Basic Multilingual
 * Plane: whitespace and `trim`,
 * `includes`, `startsWith`, `indexOf`, `split` on one character, `replace`
 * with a literal pattern (first occurrence) and with a global literal pattern,
 * and `parseInt` with an explicit radix.
 */
module JsString {
  import opened JsValues

  /** The characters JavaScript's `\s`, `trim` and `parseInt` treat as white space. */
  predicate IsSpace(c: char)
  {
    c == '\t' || c == '\n' || c == '\U{000B}' || c == '\U{000C}' || c == '\r' || c == ' '
    || c == '\U{00A0}' || c == '\U{1680}' || ('\U{2000}' <= c <= '\U{200A}')
    || c == '\U{2028}' || c == '\U{2029}' || c == '\U{202F}' || c == '\U{205F}'
    || c == '\U{3000}' || c == '\U{FEFF}'
  }

  /** The characters `.` does not match in a regular expression. */
  predicate IsLineTerminator(c: char)
  {
    c == '\n' || c == '\r' || c == '\U{2028}' || c == '\U{2029}'
  }

  predicate IsDigit(c: char) { '0' <= c <= '9' }

  /** `\w`: ASCII letters, digits and underscore. */
  predicate IsWordChar(c: char)
  {
    ('a' <= c <= 'z') || ('A' <= c <= 'Z') || IsDigit(c) || c == '_'
  }

  /** Length of the run of white space (`\s*`) starting at from. */
  function SpaceRun(s: string, from: nat): (n: nat)
    requires from <= |s|
    ensures from + n <= |s|
    decreases |s| - from
  {
    if from < |s| && IsSpace(s[from]) then 1 + SpaceRun(s, from + 1) else 0
  }

  /** The run is made of white-space characters and stops at one that is not (or at the end). */
  lemma {:induction false} SpaceRunFacts(s: string, from: nat)
    requires from <= |s|
    ensures forall i :: from <= i < from + SpaceRun(s, from) ==> IsSpace(s[i])
    ensures from + SpaceRun(s, from) < |s| ==> !IsSpace(s[from + SpaceRun(s, from)])
    decreases |s| - from
  {
    if from < |s| && IsSpace(s[from]) {
      SpaceRunFacts(s, from + 1);
    }
  }

  /** Length of the run of word characters (`\w*`) starting at from. */
  function WordRun(s: string, from: nat): (n: nat)
    requires from <= |s|
    ensures from + n <= |s|
    decreases |s| - from
  {
    if from < |s| && IsWordChar(s[from]) then 1 + WordRun(s, from + 1) else 0
  }

  /** The run is made of word characters and stops at one that is not (or at the end). */
  lemma {:induction false} WordRunFacts(s: string, from: nat)
    requires from <= |s|
    ensures forall i :: from <= i < from + WordRun(s, from) ==> IsWordChar(s[i])
    ensures from + WordRun(s, from) < |s| ==> !IsWordChar(s[from + WordRun(s, from)])
    decreases |s| - from
  {
    if from < |s| && IsWordChar(s[from]) {
      WordRunFacts(s, from + 1);
    }
  }

  /** Length of the run of decimal digits (`\d*`) starting at from. */
  function DigitRun(s: string, from: nat): (n: nat)
    requires from <= |s|
    ensures from + n <= |s|
    decreases |s| - from
  {
    if from < |s| && IsDigit(s[from]) then 1 + DigitRun(s, from + 1) else 0
  }

  /** The run is made of digit characters and stops at one that is not (or at the end). */
  lemma {:induction false} DigitRunFacts(s: string, from: nat)
    requires from <= |s|
    ensures forall i :: from <= i < from + DigitRun(s, from) ==> IsDigit(s[i])
    ensures from + DigitRun(s, from) < |s| ==> !IsDigit(s[from + DigitRun(s, from)])
    decreases |s| - from
  {
    if from < |s| && IsDigit(s[from]) {
      DigitRunFacts(s, from + 1);
    }
  }

  /** A run of n word characters followed by a non-word character or the end. */
  lemma {:induction false} WordRunExact(s: string, from: nat, n: nat)
    requires from + n <= |s|
    requires forall k :: from <= k < from + n ==> IsWordChar(s[k])
    requires from + n < |s| ==> !IsWordChar(s[from + n])
    ensures WordRun(s, from) == n
    decreases n
  {
    if n > 0 {
      WordRunExact(s, from + 1, n - 1);
    }
  }

  /** A run of n digits followed by a non-digit or the end. */
  lemma {:induction false} DigitRunExact(s: string, from: nat, n: nat)
    requires from + n <= |s|
    requires forall k :: from <= k < from + n ==> IsDigit(s[k])
    requires from + n < |s| ==> !IsDigit(s[from + n])
    ensures DigitRun(s, from) == n
    decreases n
  {
    if n > 0 {
      DigitRunExact(s, from + 1, n - 1);
    }
  }

  /** Number of white-space characters ending just below hi. */
  function TrailingSpaces(s: string, hi: nat): (n: nat)
    requires hi <= |s|
    ensures n <= hi
    decreases hi
  {
    if hi > 0 && IsSpace(s[hi - 1]) then 1 + TrailingSpaces(s, hi - 1) else 0
  }

  /** `s.trimStart()` */
  function TrimStart(s: string): (r: string)
    ensures |r| <= |s|
  {
    s[SpaceRun(s, 0)..]
  }

  /** `s.trimEnd()` */
  function TrimEnd(s: string): (r: string)
    ensures |r| <= |s|
  {
    s[..|s| - TrailingSpaces(s, |s|)]
  }

  /** `s.trim()` */
  function Trim(s: string): (r: string)
    ensures |r| <= |s|
  {
    TrimEnd(TrimStart(s))
  }

  /** A string that neither starts nor ends with white space is its own trim. */
  lemma TrimmedAlready(s: string)
    requires s != [] && !IsSpace(s[0]) && !IsSpace(s[|s| - 1])
    ensures TrimStart(s) == s && Trim(s) == s
  {
    assert SpaceRun(s, 0) == 0;
    assert s[0..] == s;
    assert TrailingSpaces(s, |s|) == 0;
    assert s[..|s|] == s;
  }

  /** The trimmed text neither starts nor ends with white space. */
  lemma TrimEnds(s: string)
    ensures var r := Trim(s); r != [] ==> !IsSpace(r[0]) && !IsSpace(r[|r| - 1])
  {
    var a := SpaceRun(s, 0);
    SpaceRunFacts(s, 0);
    var u := s[a..];
    var m := |u| - TrailingSpaces(u, |u|);
    TrailingSpacesStop(u, |u|);
    if m > 0 {
      assert Trim(s)[0] == u[0] == s[a];
      assert Trim(s)[m - 1] == u[m - 1];
    }
  }

  lemma {:induction false} TrailingSpacesStop(s: string, hi: nat)
    requires hi <= |s|
    ensures var n := TrailingSpaces(s, hi); n < hi ==> !IsSpace(s[hi - n - 1])
    decreases hi
  {
    if hi > 0 && IsSpace(s[hi - 1]) {
      TrailingSpacesStop(s, hi - 1);
    }
  }

  predicate StartsWith(s: string, p: string)
  {
    |p| <= |s| && s[..|p|] == p
  }

  predicate EndsWith(s: string, p: string)
  {
    |p| <= |s| && s[|s| - |p|..] == p
  }

  predicate OccursAt(s: string, p: string, i: nat)
  {
    i + |p| <= |s| && s[i..i + |p|] == p
  }

  /** `s.indexOf(p, from)`: the first occurrence at or after from, or -1. */
  function IndexOfFrom(s: string, p: string, from: nat): (r: int)
    ensures r == -1 || (from <= r && OccursAt(s, p, r))
    ensures r == -1 ==> forall i :: from <= i ==> !OccursAt(s, p, i)
    ensures r >= 0 ==> forall i :: from <= i < r ==> !OccursAt(s, p, i)
    decreases |s| - from
  {
    if from + |p| > |s| then -1
    else if OccursAt(s, p, from) then from
    else IndexOfFrom(s, p, from + 1)
  }

  function IndexOf(s: string, p: string): (r: int)
    ensures r == -1 || (0 <= r && OccursAt(s, p, r))
    ensures r == -1 <==> forall i :: !OccursAt(s, p, i)
    ensures r >= 0 ==> forall i :: 0 <= i < r ==> !OccursAt(s, p, i)
  {
    IndexOfFrom(s, p, 0)
  }

  /** `s.includes(p)` */
  predicate Includes(s: string, p: string)
  {
    IndexOf(s, p) >= 0
  }

  lemma IncludesAt(s: string, p: string, i: nat)
    requires OccursAt(s, p, i)
    ensures Includes(s, p)
  {
  }

  /** The first position at or after from holding c, or -1. */
  function IndexOfChar(s: string, c: char, from: nat): (r: int)
    ensures r == -1 || from <= r < |s|
    decreases |s| - from
  {
    if from >= |s| then -1
    else if s[from] == c then from
    else IndexOfChar(s, c, from + 1)
  }

  lemma {:induction false} IndexOfCharFacts(s: string, c: char, from: nat)
    ensures var r := IndexOfChar(s, c, from);
            (r >= 0 ==> s[r] == c) &&
            forall k :: from <= k < (if r < 0 then |s| else r) ==> s[k] != c
    decreases |s| - from
  {
    if from < |s| && s[from] != c {
      IndexOfCharFacts(s, c, from + 1);
    }
  }

  /** `s.split(sep)` with a one-character separator. */
  function Split(s: string, sep: char): (r: seq<string>)
    ensures |r| >= 1
    ensures forall k :: 0 <= k < |r| ==> |r[k]| <= |s|
    decreases |s|
  {
    var i := IndexOfChar(s, sep, 0);
    if i < 0 then [s]
    else [s[..i]] + Split(s[i + 1..], sep)
  }

  /** Joining the pieces with the separator gives the string back. */
  lemma {:induction false} SplitJoin(s: string, sep: char)
    ensures Join(Split(s, sep), sep) == s
    decreases |s|
  {
    var i := IndexOfChar(s, sep, 0);
    if i >= 0 {
      var rest := Split(s[i + 1..], sep);
      calc {
        Join(Split(s, sep), sep);
        Join([s[..i]] + rest, sep);
        { JoinCons(s[..i], rest, sep); }
        s[..i] + [sep] + Join(rest, sep);
        { SplitJoin(s[i + 1..], sep); }
        s[..i] + [sep] + s[i + 1..];
        { IndexOfCharFacts(s, sep, 0); Recompose(s, i); }
        s;
      }
    }
  }

  lemma JoinCons(a: string, rest: seq<string>, sep: char)
    requires |rest| >= 1
    ensures Join([a] + rest, sep) == a + [sep] + Join(rest, sep)
  {
    assert ([a] + rest)[1..] == rest;
  }

  lemma Recompose(s: string, i: nat)
    requires i < |s|
    ensures s[..i] + [s[i]] + s[i + 1..] == s
  {
  }

  lemma SplitPiecesShort(s: string, sep: char)
    ensures forall k :: 0 <= k < |Split(s, sep)| ==> |Split(s, sep)[k]| <= |s|
  {
  }

  /** A string without the character c does not include it. */
  lemma NotIncludesChar(s: string, c: char)
    requires forall i :: 0 <= i < |s| ==> s[i] != c
    ensures !Includes(s, [c])
  {
    forall i: nat
      ensures !OccursAt(s, [c], i)
    {
      if i + 1 <= |s| {
        assert s[i..i + 1] == [s[i]];
      }
    }
  }

  /** A string without the character c includes no pattern containing c. */
  lemma NotIncludesWith(s: string, p: string, j: nat, c: char)
    requires j < |p| && p[j] == c
    requires forall i :: 0 <= i < |s| ==> s[i] != c
    ensures !Includes(s, p)
  {
    forall i: nat
      ensures !OccursAt(s, p, i)
    {
      if i + |p| <= |s| {
        assert s[i..i + |p|][j] == s[i + j];
      }
    }
  }

  /** The inverse of Split: the pieces with the separator between them. */
  function Join(pieces: seq<string>, sep: char): string
  {
    if |pieces| == 0 then ""
    else if |pieces| == 1 then pieces[0]
    else pieces[0] + [sep] + Join(pieces[1..], sep)
  }

  /** `s.replace(p, r)` with a literal string pattern: the first occurrence only. */
  function ReplaceFirst(s: string, p: string, r: string): (t: string)
    ensures IndexOf(s, p) < 0 ==> t == s
    ensures IndexOf(s, p) >= 0 ==> t == s[..IndexOf(s, p)] + r + s[IndexOf(s, p) + |p|..]
  {
    var i := IndexOf(s, p);
    if i < 0 then s else s[..i] + r + s[i + |p|..]
  }

  /** `s.replace(/p/g, r)` for a non-empty literal pattern: all occurrences, left to right. */
  function ReplaceAll(s: string, p: string, r: string): (t: string)
    requires p != []
    decreases |s|
  {
    if |s| < |p| then s
    else if s[..|p|] == p then r + ReplaceAll(s[|p|..], p, r)
    else [s[0]] + ReplaceAll(s[1..], p, r)
  }

  lemma {:induction false} ReplaceAllAbsent(s: string, p: string, r: string)
    requires p != [] && p[0] !in s
    ensures ReplaceAll(s, p, r) == s
    decreases |s|
  {
    if |s| >= |p| {
      assert s[..|p|] != p by { assert s[0] != p[0]; }
      ReplaceAllAbsent(s[1..], p, r);
    }
  }

  /** A replacement site: the pattern at the front is replaced and scanning resumes after it. */
  lemma ReplaceAllHit(y: string, p: string, r: string)
    requires p != []
    ensures ReplaceAll(p + y, p, r) == r + ReplaceAll(y, p, r)
  {
    assert (p + y)[..|p|] == p;
    assert (p + y)[|p|..] == y;
  }

  /** A prefix in which no occurrence of the pattern starts is kept as it is. */
  lemma {:induction false} ReplaceAllSkip(x: string, y: string, p: string, r: string)
    requires p != []
    requires forall i :: 0 <= i < |x| ==> !OccursAt(x + y, p, i)
    ensures ReplaceAll(x + y, p, r) == x + ReplaceAll(y, p, r)
    decreases |x|
  {
    if x == [] {
      assert x + y == y;
    } else {
      var s := x + y;
      if |s| < |p| {
        assert ReplaceAll(y, p, r) == y;
      } else {
        assert !OccursAt(s, p, 0);
        assert s[1..] == x[1..] + y;
        forall i | 0 <= i < |x| - 1
          ensures !OccursAt(x[1..] + y, p, i)
        {
          assert !OccursAt(s, p, i + 1);
          if i + |p| <= |x[1..] + y| {
            assert (x[1..] + y)[i..i + |p|] == s[i + 1..i + 1 + |p|];
          }
        }
        ReplaceAllSkip(x[1..], y, p, r);
        assert [x[0]] + x[1..] == x;
      }
    }
  }

  /** ASCII `toLowerCase`. */
  function ToLowerChar(c: char): char
  {
    if 'A' <= c <= 'Z' then (c as int + 32) as char else c
  }

  /** The value of a digit in radices up to 36, or 36 for a non-digit. */
  function DigitValue(c: char): (d: nat)
    ensures d <= 36
  {
    if '0' <= c <= '9' then c as int - '0' as int
    else if 'a' <= c <= 'z' then c as int - 'a' as int + 10
    else if 'A' <= c <= 'Z' then c as int - 'A' as int + 10
    else 36
  }

  /** Length of the longest prefix of s[from..] made of digits of the radix. */
  function RadixRun(s: string, from: nat, radix: nat): (n: nat)
    requires from <= |s|
    ensures from + n <= |s|
    ensures forall i :: from <= i < from + n ==> DigitValue(s[i]) < radix
    ensures from + n < |s| ==> DigitValue(s[from + n]) >= radix
    decreases |s| - from
  {
    if from < |s| && DigitValue(s[from]) < radix then 1 + RadixRun(s, from + 1, radix) else 0
  }

  /** The value of a string of digits of the given radix, most significant first. */
  function DigitsValue(s: string, radix: nat): nat
  {
    if s == [] then 0
    else DigitsValue(s[..|s| - 1], radix) * radix + (if DigitValue(s[|s| - 1]) < radix then DigitValue(s[|s| - 1]) else 0)
  }

  /**
   * `parseInt(s, radix)` for radix 2, 10 or 16: leading white space, an optional
   * sign, for radix 16 an optional "0x" prefix, then the longest run of digits.
   * No digits at all gives NaN.
   */
  function ParseInt(s: string, radix: nat): (r: Number)
    requires radix == 2 || radix == 10 || radix == 16
  {
    var t := TrimStart(s);
    var neg := t != [] && t[0] == '-';
    var u := if t != [] && (t[0] == '-' || t[0] == '+') then t[1..] else t;
    var w := if radix == 16 && (StartsWith(u, "0x") || StartsWith(u, "0X")) then u[2..] else u;
    var n := RadixRun(w, 0, radix);
    if n == 0 then NaN
    else Int(if neg then -(DigitsValue(w[..n], radix) as int) else DigitsValue(w[..n], radix))
  }

  lemma {:induction false} DigitsValueDecimalAppend(s: string, c: char)
    requires IsDigit(c)
    ensures DigitsValue(s + [c], 10) == DigitsValue(s, 10) * 10 + (c as int - '0' as int)
  {
    assert (s + [c])[..|s + [c]| - 1] == s;
  }

  /** parseInt of a plain digit string is its decimal value. */
  lemma ParseIntDigits(s: string)
    requires s != [] && forall i :: 0 <= i < |s| ==> IsDigit(s[i])
    ensures ParseInt(s, 10) == Int(DigitsValue(s, 10))
  {
    DecimalRunAll(s);
    ParseIntUnsigned(s);
  }

  /** parseInt of an unsigned run of decimal digits with nothing around it. */
  lemma ParseIntUnsigned(s: string)
    requires s != [] && IsDigit(s[0]) && RadixRun(s, 0, 10) == |s|
    ensures ParseInt(s, 10) == Int(DigitsValue(s, 10))
  {
    TrimStartKeeps(s);
    assert s[..|s|] == s;
  }

  /** parseInt of a string made only of binary or hexadecimal digits is their value in that radix. */
  lemma ParseIntRadixDigits(s: string, radix: nat)
    requires radix == 2 || radix == 16
    requires s != [] && forall i :: 0 <= i < |s| ==> DigitValue(s[i]) < radix
    ensures ParseInt(s, radix) == Int(DigitsValue(s, radix))
  {
    assert DigitValue(s[0]) < radix;
    assert !IsSpace(s[0]) && s[0] != '-' && s[0] != '+';
    TrimStartKeeps(s);
    if |s| >= 2 {
      assert DigitValue(s[1]) < 16 && s[..2][1] == s[1];
    }
    assert !StartsWith(s, "0x") && !StartsWith(s, "0X");
    RadixRunAll(s, 0, radix);
    assert s[..|s|] == s;
  }

  /** A string that does not start with white space is its own trimStart. */
  lemma TrimStartKeeps(s: string)
    requires s != [] && !IsSpace(s[0])
    ensures TrimStart(s) == s
  {
    assert SpaceRun(s, 0) == 0;
    assert s[0..] == s;
  }

  /** A string of decimal digits is one run of radix-10 digits. */
  lemma DecimalRunAll(s: string)
    requires forall i :: 0 <= i < |s| ==> IsDigit(s[i])
    ensures RadixRun(s, 0, 10) == |s|
  {
    forall i | 0 <= i < |s| ensures DigitValue(s[i]) < 10 {
      assert IsDigit(s[i]);
    }
    RadixRunAll(s, 0, 10);
  }

  /** A string made only of digits of the radix is one run. */
  lemma {:induction false} RadixRunAll(s: string, from: nat, radix: nat)
    requires from <= |s|
    requires forall i :: from <= i < |s| ==> DigitValue(s[i]) < radix
    ensures RadixRun(s, from, radix) == |s| - from
    decreases |s| - from
  {
    if from < |s| {
      RadixRunAll(s, from + 1, radix);
    }
  }
}
