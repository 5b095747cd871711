/** The JavaScript string operations the chat client relies on: `trim`,
    `split` on one character, `join`, `toUpperCase` of one character,
    `charCodeAt(0)` and the decimal rendering of a count.
    A string is a sequence of Unicode scalar values; each stands for one
    UTF-16 code unit, which holds for text in the Basic Multilingual Plane. */
module Text {

  /** ECMAScript WhiteSpace and LineTerminator characters, which `trim` removes. */
  predicate IsTrimmable(c: char) {
    || c == ' ' || c == '\t' || c == '\n' || c == '\r'
    || c == '\U{000B}' || c == '\U{000C}' || c == '\U{00A0}' || c == '\U{FEFF}'
    || c == '\U{1680}' || ('\U{2000}' <= c <= '\U{200A}')
    || c == '\U{2028}' || c == '\U{2029}' || c == '\U{202F}' || c == '\U{205F}'
    || c == '\U{3000}'
  }

  /** The suffix of `s` left after dropping its leading trimmable characters. */
  function TrimStart(s: string): string {
    if s != [] && IsTrimmable(s[0]) then TrimStart(s[1..]) else s
  }

  /** The prefix of `s` left after dropping its trailing trimmable characters. */
  function TrimEnd(s: string): string {
    if s != [] && IsTrimmable(s[|s| - 1]) then TrimEnd(s[..|s| - 1]) else s
  }

  /** `s.trim()`: the slice of `s` between its leading and trailing whitespace. */
  function Trim(s: string): string {
    TrimEnd(TrimStart(s))
  }

  /** `TrimStart` drops a run of whitespace from the front and stops at the
      first other character. */
  lemma {:induction false} TrimStartSpec(s: string)
    ensures var r := TrimStart(s);
      |r| <= |s| && r == s[|s| - |r|..] &&
      (forall i :: 0 <= i < |s| - |r| ==> IsTrimmable(s[i])) &&
      (r == [] || !IsTrimmable(r[0]))
  {
    if s != [] && IsTrimmable(s[0]) {
      var t := s[1..];
      TrimStartSpec(t);
      var r := TrimStart(t);
      assert TrimStart(s) == r;
      assert t[|t| - |r|..] == s[|s| - |r|..];
      forall i | 0 <= i < |s| - |r| ensures IsTrimmable(s[i]) {
        if i > 0 {
          assert s[i] == t[i - 1];
        }
      }
    }
  }

  /** `TrimEnd` drops a run of whitespace from the back and stops at the
      last other character. */
  lemma {:induction false} TrimEndSpec(s: string)
    ensures var r := TrimEnd(s);
      |r| <= |s| && r == s[..|r|] &&
      (forall i :: |r| <= i < |s| ==> IsTrimmable(s[i])) &&
      (r == [] || !IsTrimmable(r[|r| - 1]))
  {
    if s != [] && IsTrimmable(s[|s| - 1]) {
      var t := s[..|s| - 1];
      TrimEndSpec(t);
      var r := TrimEnd(t);
      assert TrimEnd(s) == r;
      assert t[..|r|] == s[..|r|];
      forall i | |r| <= i < |s| ensures IsTrimmable(s[i]) {
        if i < |s| - 1 {
          assert s[i] == t[i];
        }
      }
    }
  }

  /** `s.trim()` is a slice of `s` with no whitespace at either end. */
  lemma TrimSpec(s: string)
    ensures var k := |s| - |TrimStart(s)|; var r := Trim(s);
      0 <= k && k + |r| <= |s| && r == s[k..k + |r|] &&
      (r == [] || (!IsTrimmable(r[0]) && !IsTrimmable(r[|r| - 1])))
  {
    TrimStartSpec(s);
    TrimEndSpec(TrimStart(s));
  }

  /** `s.trim()` is empty exactly when every character of `s` is whitespace. */
  lemma {:induction false} TrimEmptyIffBlank(s: string)
    ensures Trim(s) == [] <==> forall i :: 0 <= i < |s| ==> IsTrimmable(s[i])
  {
    TrimStartSpec(s);
    TrimEndSpec(TrimStart(s));
    var t := TrimStart(s);
    if Trim(s) == [] {
      assert t == [] by {
        if t != [] { assert false; }
      }
    } else {
      var k := |s| - |t|;
      assert !IsTrimmable(s[k]);
    }
  }

  /** `s.split(sep)` for a one-character separator: the maximal runs between
      separators, empty runs included, so never an empty list. */
  function Split(s: string, sep: char): (parts: seq<string>)
    ensures |parts| >= 1
    ensures forall k :: 0 <= k < |parts| ==> sep !in parts[k]
  {
    if s == [] then [[]]
    else
      var rest := Split(s[1..], sep);
      if s[0] == sep then [[]] + rest
      else [[s[0]] + rest[0]] + rest[1..]
  }

  /** `parts.join(sep)` for a one-character separator. */
  function Join(parts: seq<string>, sep: char): string {
    if |parts| == 0 then []
    else if |parts| == 1 then parts[0]
    else parts[0] + [sep] + Join(parts[1..], sep)
  }

  /** `parts.join('')`. */
  function Concat(parts: seq<string>): string {
    if |parts| == 0 then [] else parts[0] + Concat(parts[1..])
  }

  /** Splitting and joining again on the same separator gives back the string. */
  lemma {:induction false} JoinSplit(s: string, sep: char)
    ensures Join(Split(s, sep), sep) == s
  {
    if s != [] {
      var rest := Split(s[1..], sep);
      JoinSplit(s[1..], sep);
      var parts := Split(s, sep);
      if s[0] == sep {
        assert parts[1..] == rest;
      } else if |rest| == 1 {
        assert parts == [[s[0]] + rest[0]];
      } else {
        assert parts[1..] == rest[1..];
        assert Join(rest, sep) == rest[0] + [sep] + Join(rest[1..], sep);
      }
    }
  }

  /** Joining separator-free parts and splitting again gives back the parts. */
  lemma {:induction false} SplitJoin(parts: seq<string>, sep: char)
    requires |parts| >= 1
    requires forall k :: 0 <= k < |parts| ==> sep !in parts[k]
    ensures Split(Join(parts, sep), sep) == parts
  {
    if |parts| == 1 {
      SplitSeparatorFree(parts[0], sep);
    } else {
      SplitJoin(parts[1..], sep);
      SplitPrefix(parts[0], Join(parts[1..], sep), sep);
      assert Join(parts, sep) == parts[0] + [sep] + Join(parts[1..], sep);
      assert [parts[0]] + parts[1..] == parts;
    }
  }

  /** A separator-free string splits into itself alone. */
  lemma {:induction false} SplitSeparatorFree(s: string, sep: char)
    requires sep !in s
    ensures Split(s, sep) == [s]
  {
    if s != [] {
      SplitSeparatorFree(s[1..], sep);
      assert [s[0]] + s[1..] == s;
    }
  }

  /** A separator-free head followed by the separator splits off as the first part. */
  lemma {:induction false} SplitPrefix(head: string, tail: string, sep: char)
    requires sep !in head
    ensures Split(head + [sep] + tail, sep) == [head] + Split(tail, sep)
  {
    var s := head + [sep] + tail;
    if head == [] {
      assert s[1..] == tail;
    } else {
      assert s[1..] == head[1..] + [sep] + tail;
      SplitPrefix(head[1..], tail, sep);
      assert [head[0]] + head[1..] == head;
    }
  }

  /** `c.toUpperCase()` for the ASCII letters; other characters are kept. */
  function UpperAscii(c: char): (u: char)
    ensures 'a' <= c <= 'z' ==> 'A' <= u <= 'Z' && u as int == c as int - 32
    ensures !('a' <= c <= 'z') ==> u == c
  {
    if 'a' <= c <= 'z' then (c as int - 32) as char else c
  }

  /** `s.charCodeAt(i)` for a character inside the string. */
  function CharCode(c: char): nat {
    c as nat
  }

  function Digit(d: nat): (c: char)
    requires d < 10
    ensures '0' <= c <= '9'
  {
    ('0' as int + d) as char
  }

  predicate IsDigits(s: string) {
    forall i :: 0 <= i < |s| ==> '0' <= s[i] <= '9'
  }

  /** `String(n)` for a non-negative integer. */
  function DecimalString(n: nat): (s: string)
    ensures |s| >= 1 && IsDigits(s)
    ensures n < 10 <==> |s| == 1
  {
    if n < 10 then [Digit(n)] else DecimalString(n / 10) + [Digit(n % 10)]
  }

  /** The number a string of decimal digits denotes. */
  function DecimalValue(s: string): nat
    requires IsDigits(s)
  {
    if s == [] then 0
    else DecimalValue(s[..|s| - 1]) * 10 + (s[|s| - 1] as int - '0' as int)
  }

  /** Reading back the decimal rendering of `n` gives `n`. */
  lemma {:induction false} DecimalRoundTrip(n: nat)
    ensures DecimalValue(DecimalString(n)) == n
  {
    if n >= 10 {
      DecimalRoundTrip(n / 10);
      var s := DecimalString(n);
      assert s[..|s| - 1] == DecimalString(n / 10);
    }
  }
}
