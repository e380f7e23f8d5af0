/**
 * The few JavaScript string operations the budgeting stores rely on:
 * decimal conversion of integers (`String(n)`), `Number(s)` on digit strings,
 * `padStart`, `split`, `includes`, `trim` and ASCII case mapping.
 */
module JsStrings {
  import opened Wrappers

  predicate IsDigit(c: char) { '0' <= c <= '9' }

  predicate AllDigits(s: string) { forall i :: 0 <= i < |s| ==> IsDigit(s[i]) }

  function DigitChar(d: int): (c: char)
    requires 0 <= d < 10
    ensures IsDigit(c) && c as int - '0' as int == d
  {
    (d + '0' as int) as char
  }

  function DigitValue(c: char): int
    requires IsDigit(c)
  {
    c as int - '0' as int
  }

  /** `String(n)` for a non-negative integer: its decimal digits, no leading zero. */
  function NatToString(n: nat): (s: string)
    ensures |s| >= 1 && AllDigits(s)
    ensures s[0] == '0' ==> n == 0
    decreases n
  {
    if n < 10 then [DigitChar(n)] else NatToString(n / 10) + [DigitChar(n % 10)]
  }

  /** `String(n)` for any integer. */
  function IntToString(n: int): string
  {
    if n < 0 then "-" + NatToString(-n) else NatToString(n)
  }

  /** The value of a string of decimal digits (leading zeros allowed). */
  function DigitsValue(s: string): (v: nat)
    requires AllDigits(s)
  {
    if s == [] then 0 else DigitsValue(s[..|s| - 1]) * 10 + DigitValue(s[|s| - 1])
  }

  lemma {:induction false} DigitsValueOfNatToString(n: nat)
    ensures DigitsValue(NatToString(n)) == n
    decreases n
  {
    var s := NatToString(n);
    if n >= 10 {
      DigitsValueOfNatToString(n / 10);
      assert s[..|s| - 1] == NatToString(n / 10);
    }
  }

  lemma {:induction false} DigitsValueLeadingZero(s: string)
    requires AllDigits(s)
    ensures AllDigits("0" + s) && DigitsValue("0" + s) == DigitsValue(s)
    decreases |s|
  {
    if s != [] {
      var t := "0" + s;
      assert t[..|t| - 1] == "0" + s[..|s| - 1];
      DigitsValueLeadingZero(s[..|s| - 1]);
    }
  }

  /** An optional string that JavaScript treats as true: present and non-empty. */
  predicate TruthyString(s: Option<string>)
  {
    s.Some? && s.value != ""
  }

  /**
   * `Number(s)` restricted to what this model needs: the empty string is 0,
   * a string of decimal digits is its value, anything else is NaN (`None`).
   */
  function ToNumber(s: string): (r: Option<int>)
    ensures r.Some? ==> r.value >= 0
  {
    if AllDigits(s) then Some(DigitsValue(s)) else None
  }

  lemma ToNumberOfNatToString(n: nat)
    ensures ToNumber(NatToString(n)) == Some(n)
  {
    DigitsValueOfNatToString(n);
  }

  /** `String(n).padStart(2, '0')`. */
  function PadStart2(s: string): (r: string)
    ensures |s| >= 2 ==> r == s
    ensures |s| < 2 ==> |r| == 2 && r[2 - |s|..] == s
  {
    if |s| >= 2 then s else if |s| == 1 then "0" + s else "00"
  }

  /** Two-digit zero-padded decimal of a number below 100. */
  function Pad2(n: nat): (r: string)
    requires n < 100
    ensures |r| == 2 && AllDigits(r) && ToNumber(r) == Some(n)
  {
    var s := NatToString(n);
    if n < 10 then
      DigitsValueOfNatToString(n);
      DigitsValueLeadingZero(s);
      PadStart2(s)
    else
      DigitsValueOfNatToString(n);
      assert |NatToString(n / 10)| == 1;
      PadStart2(s)
  }

  /** The prefix of `s` before the first `sep`, or all of `s` when there is none. */
  function TakeUntil(s: string, sep: char): (r: string)
    ensures |r| <= |s| && r == s[..|r|] && sep !in r
    ensures |r| < |s| ==> s[|r|] == sep
    ensures sep !in s ==> r == s
    ensures sep in s ==> |r| < |s|
  {
    if s == [] || s[0] == sep then [] else [s[0]] + TakeUntil(s[1..], sep)
  }

  /** `s.split(sep)` for a one-character separator. */
  function Split(s: string, sep: char): (parts: seq<string>)
    ensures |parts| >= 1
    ensures parts[0] == TakeUntil(s, sep)
    decreases |s|
  {
    var head := TakeUntil(s, sep);
    if |head| == |s| then [s] else [head] + Split(s[|head| + 1..], sep)
  }

  /** Splitting `a + [sep] + b`, when `b` holds no separator, adds `b` as one more part. */
  lemma {:induction false} SplitAppend(a: string, b: string, sep: char)
    requires sep !in b
    ensures Split(a + [sep] + b, sep) == Split(a, sep) + [b]
    decreases |a|
  {
    if sep !in a {
      SplitAppendLast(a, b, sep);
    } else {
      SplitAppend(AfterFirst(a, sep), b, sep);
      SplitAppendStep(a, b, sep);
    }
  }

  /** What follows the first separator of `s`. */
  function AfterFirst(s: string, sep: char): (r: string)
    requires sep in s
    ensures |r| < |s|
  {
    s[|TakeUntil(s, sep)| + 1..]
  }

  /** The base case: `a` holds no separator, so the split is `[a, b]`. */
  lemma SplitAppendLast(a: string, b: string, sep: char)
    requires sep !in a && sep !in b
    ensures Split(a + [sep] + b, sep) == Split(a, sep) + [b]
  {
    var s := a + [sep] + b;
    assert TakeUntil(s, sep) == a by {
      assert s == a + ([sep] + b);
      TakeUntilAppend(a, [sep] + b, sep);
    }
    assert s[|a|] == sep && s[|a| + 1..] == b;
    SplitStep(s, sep);
    SplitNoSep(a, sep);
    SplitNoSep(b, sep);
  }

  /** The step: when `a` holds a separator, the first part of both splits is the same. */
  lemma SplitAppendStep(a: string, b: string, sep: char)
    requires sep in a
    requires Split(AfterFirst(a, sep) + [sep] + b, sep) == Split(AfterFirst(a, sep), sep) + [b]
    ensures Split(a + [sep] + b, sep) == Split(a, sep) + [b]
  {
    var head, rest := TakeUntil(a, sep), AfterFirst(a, sep);
    SplitConsAppend(a, b, sep);
    SplitStep(a, sep);
    AppendAssoc([head], Split(rest, sep), [b]);
  }

  lemma SplitConsAppend(a: string, b: string, sep: char)
    requires sep in a
    ensures Split(a + [sep] + b, sep) == [TakeUntil(a, sep)] + Split(AfterFirst(a, sep) + [sep] + b, sep)
  {
    AfterFirstOfJoin(a, b, sep);
    SplitStep(a + [sep] + b, sep);
  }

  lemma TakeUntilOfJoin(a: string, b: string, sep: char)
    requires sep in a
    ensures TakeUntil(a + [sep] + b, sep) == TakeUntil(a, sep)
  {
    assert a + [sep] + b == a + ([sep] + b);
    TakeUntilAppend(a, [sep] + b, sep);
  }

  lemma AfterFirstOfJoin(a: string, b: string, sep: char)
    requires sep in a
    ensures sep in a + [sep] + b
    ensures TakeUntil(a + [sep] + b, sep) == TakeUntil(a, sep)
    ensures AfterFirst(a + [sep] + b, sep) == AfterFirst(a, sep) + [sep] + b
  {
    var s := a + [sep] + b;
    assert s[|a|] == sep;
    TakeUntilOfJoin(a, b, sep);
    assert s[|TakeUntil(a, sep)| + 1..] == AfterFirst(a, sep) + [sep] + b;
  }

  lemma AppendAssoc<T>(x: seq<T>, y: seq<T>, z: seq<T>)
    ensures (x + y) + z == x + (y + z)
  {
  }

  /** A string holding the separator splits into the part before it and the split of the rest. */
  lemma SplitStep(s: string, sep: char)
    requires sep in s
    ensures Split(s, sep) == [TakeUntil(s, sep)] + Split(AfterFirst(s, sep), sep)
  {
  }

  lemma SplitNoSep(s: string, sep: char)
    requires sep !in s
    ensures Split(s, sep) == [s]
  {
  }

  /** Cutting at the first separator only looks at `a` when `a` holds one or `b` starts with one. */
  lemma {:induction false} TakeUntilAppend(a: string, b: string, sep: char)
    requires sep in a || (b != [] && b[0] == sep)
    ensures TakeUntil(a + b, sep) == TakeUntil(a, sep)
    decreases |a|
  {
    if a != [] && a[0] != sep {
      assert (a + b)[1..] == a[1..] + b;
      TakeUntilAppend(a[1..], b, sep);
    }
  }

  lemma {:induction false} TakeUntilNoSep(s: string, sep: char)
    requires sep !in s
    ensures TakeUntil(s + [sep], sep) == s
  {
    assert sep in s + [sep];
    if s != [] {
      assert (s + [sep])[1..] == s[1..] + [sep];
      TakeUntilNoSep(s[1..], sep);
    }
  }

  /** Splitting three separator-free strings joined by the separator gives them back. */
  lemma SplitThree(a: string, b: string, c: string, sep: char)
    requires sep !in a && sep !in b && sep !in c
    ensures Split(a + [sep] + b + [sep] + c, sep) == [a, b, c]
  {
    assert Split(a, sep) == [a];
    SplitAppend(a, b, sep);
    SplitAppend(a + [sep] + b, c, sep);
  }

  /** `s.startsWith(t)`. */
  predicate StartsWith(s: string, t: string) { |t| <= |s| && s[..|t|] == t }

  /** `s.includes(t)`: `t` occurs in `s` at some position. */
  predicate Includes(s: string, t: string)
    decreases |s|
  {
    StartsWith(s, t) || (|s| > 0 && Includes(s[1..], t))
  }

  lemma {:induction false} IncludesAt(s: string, t: string, i: nat)
    requires i + |t| <= |s| && s[i..i + |t|] == t
    ensures Includes(s, t)
    decreases i
  {
    if i > 0 {
      assert s[1..][i - 1..i - 1 + |t|] == t;
      IncludesAt(s[1..], t, i - 1);
    }
  }

  /** A string lacking one of `t`'s characters does not include `t`. */
  lemma {:induction false} NotIncludesMissingChar(s: string, t: string, c: char)
    requires c in t && c !in s
    ensures !Includes(s, t)
    decreases |s|
  {
    if |s| > 0 {
      NotIncludesMissingChar(s[1..], t, c);
    }
  }

  /** Every string includes the empty string. */
  lemma IncludesEmpty(s: string)
    ensures Includes(s, "")
  {
  }

  /** The white-space and line-terminator characters of ECMAScript (`\s`, `trim`). */
  predicate IsJsSpace(c: char)
  {
    c == '\t' || c == '\n' || c == '\U{B}' || c == '\U{C}' || c == '\r' || c == ' '
    || c == '\U{A0}' || c == '\U{1680}' || ('\U{2000}' <= c <= '\U{200A}')
    || c == '\U{2028}' || c == '\U{2029}' || c == '\U{202F}' || c == '\U{205F}'
    || c == '\U{3000}' || c == '\U{FEFF}'
  }

  function TrimStart(s: string): (r: string)
    ensures |r| <= |s| && r == s[|s| - |r|..]
    ensures r != [] ==> !IsJsSpace(r[0])
  {
    if s != [] && IsJsSpace(s[0]) then TrimStart(s[1..]) else s
  }

  function TrimEnd(s: string): (r: string)
    ensures |r| <= |s| && r == s[..|r|]
    ensures r != [] ==> !IsJsSpace(r[|r| - 1])
  {
    if s != [] && IsJsSpace(s[|s| - 1]) then TrimEnd(s[..|s| - 1]) else s
  }

  /** `s.trim()`. */
  function Trim(s: string): string
  {
    TrimEnd(TrimStart(s))
  }

  function LowerChar(c: char): char
  {
    if 'A' <= c <= 'Z' then (c as int + 32) as char else c
  }

  function UpperChar(c: char): char
  {
    if 'a' <= c <= 'z' then (c as int - 32) as char else c
  }

  /** `s.toLowerCase()` on the ASCII letters. */
  function ToLower(s: string): (r: string)
    ensures |r| == |s| && forall i :: 0 <= i < |s| ==> r[i] == LowerChar(s[i])
  {
    seq(|s|, i requires 0 <= i < |s| => LowerChar(s[i]))
  }

  /** `s.toUpperCase()` on the ASCII letters. */
  function ToUpper(s: string): (r: string)
    ensures |r| == |s| && forall i :: 0 <= i < |s| ==> r[i] == UpperChar(s[i])
    ensures forall i :: 0 <= i < |r| ==> !('a' <= r[i] <= 'z')
  {
    seq(|s|, i requires 0 <= i < |s| => UpperChar(s[i]))
  }
}
