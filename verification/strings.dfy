/** String helpers standing in for Go's `strings` and `strconv` functions the core calls. */
module Strings {

  /** `strings.Join(parts, sep)`: the parts with `sep` between neighbours. */
  function JoinWith(parts: seq<string>, sep: string): string
    decreases |parts|
  {
    if |parts| == 0 then ""
    else if |parts| == 1 then parts[0]
    else JoinWith(parts[..|parts| - 1], sep) + sep + parts[|parts| - 1]
  }

  /** `strings.Split(s, sep)` for a one-character separator: the maximal runs of `s` free of `sep`. */
  function Split(s: string, sep: char): (r: seq<string>)
    ensures |r| >= 1
    ensures forall i :: 0 <= i < |r| ==> sep !in r[i]
    decreases |s|
  {
    if |s| == 0 then [""]
    else
      var init := Split(s[..|s| - 1], sep);
      ExtendKeepsFree(init, s[|s| - 1], sep);
      Extend(init, s[|s| - 1], sep)
  }

  /** Joining the parts of a split with the separator gives the string back. */
  lemma {:induction false} JoinSplit(s: string, sep: char)
    ensures JoinWith(Split(s, sep), [sep]) == s
    decreases |s|
  {
    if |s| > 0 {
      var init := Split(s[..|s| - 1], sep);
      JoinSplit(s[..|s| - 1], sep);
      ExtendJoin(init, s[|s| - 1], sep);
      assert s == s[..|s| - 1] + [s[|s| - 1]];
    }
  }

  /** The parts of a string after one more character `c` is appended to it. */
  function Extend(parts: seq<string>, c: char, sep: char): (r: seq<string>)
    requires |parts| >= 1
    ensures |r| >= 1
  {
    if c == sep then parts + [""]
    else parts[..|parts| - 1] + [parts[|parts| - 1] + [c]]
  }

  lemma ExtendKeepsFree(parts: seq<string>, c: char, sep: char)
    requires |parts| >= 1
    requires forall i :: 0 <= i < |parts| ==> sep !in parts[i]
    ensures forall i :: 0 <= i < |Extend(parts, c, sep)| ==> sep !in Extend(parts, c, sep)[i]
  {
    var r := Extend(parts, c, sep);
    if c != sep {
      assert r[..|r| - 1] == parts[..|parts| - 1];
    }
  }

  lemma ExtendJoin(parts: seq<string>, c: char, sep: char)
    requires |parts| >= 1
    ensures JoinWith(Extend(parts, c, sep), [sep]) == JoinWith(parts, [sep]) + [c]
  {
    var r := Extend(parts, c, sep);
    if c != sep {
      assert r[..|r| - 1] == parts[..|parts| - 1];
      if |parts| > 1 {
        assert JoinWith(parts, [sep]) == JoinWith(parts[..|parts| - 1], [sep]) + [sep] + parts[|parts| - 1];
      }
    } else {
      assert r[..|r| - 1] == parts;
    }
  }

  /** Splitting at a separator occurrence splits the two sides independently. */
  lemma {:induction false} SplitAround(a: string, b: string, sep: char)
    ensures Split(a + [sep] + b, sep) == Split(a, sep) + Split(b, sep)
    decreases |b|
  {
    var s := a + [sep] + b;
    if |b| == 0 {
      assert s[..|s| - 1] == a;
      assert Split(s, sep) == Extend(Split(a, sep), sep, sep);
    } else {
      var b' := b[..|b| - 1];
      var c := b[|b| - 1];
      assert s[..|s| - 1] == a + [sep] + b';
      assert s[|s| - 1] == c;
      SplitAround(a, b', sep);
      var x, y := Split(a, sep), Split(b', sep);
      assert Split(s, sep) == Extend(x + y, c, sep);
      assert Split(b, sep) == Extend(y, c, sep);
      ExtendAppend(x, y, c, sep);
    }
  }

  lemma ExtendAppend(x: seq<string>, y: seq<string>, c: char, sep: char)
    requires |y| >= 1
    ensures Extend(x + y, c, sep) == x + Extend(y, c, sep)
  {
    var xy := x + y;
    if c != sep {
      assert xy[..|xy| - 1] == x + y[..|y| - 1];
    }
  }

  /** Splitting a join of separator-free parts gives the parts back. */
  lemma {:induction false} SplitJoin(parts: seq<string>, sep: char)
    requires |parts| >= 1
    requires forall i :: 0 <= i < |parts| ==> sep !in parts[i]
    ensures Split(JoinWith(parts, [sep]), sep) == parts
    decreases |parts|
  {
    if |parts| == 1 {
      SplitFree(parts[0], sep);
    } else {
      var init, last := parts[..|parts| - 1], parts[|parts| - 1];
      var ji := JoinWith(init, [sep]);
      assert JoinWith(parts, [sep]) == ji + [sep] + last;
      assert forall i :: 0 <= i < |init| ==> init[i] == parts[i];
      SplitJoin(init, sep);
      SplitAround(ji, last, sep);
      SplitFree(last, sep);
      assert parts == init + [last];
    }
  }

  /** A string without the separator splits into itself alone. */
  lemma {:induction false} SplitFree(s: string, sep: char)
    requires sep !in s
    ensures Split(s, sep) == [s]
    decreases |s|
  {
    if |s| > 0 {
      assert s == s[..|s| - 1] + [s[|s| - 1]];
      SplitFree(s[..|s| - 1], sep);
    }
  }

  /** The decimal digit for `d`. */
  function Digit(d: nat): char
    requires d < 10
  {
    "0123456789"[d]
  }

  predicate IsDigit(c: char) {
    '0' as int <= c as int <= '9' as int
  }

  /** The number a string of decimal digits spells, most significant digit first. */
  function DecimalValue(s: string): nat
    requires forall i :: 0 <= i < |s| ==> IsDigit(s[i])
  {
    if |s| == 0 then 0
    else
      assert IsDigit(s[|s| - 1]);
      DecimalValue(s[..|s| - 1]) * 10 + (s[|s| - 1] as int - '0' as int)
  }

  /** `strconv.Itoa` on a non-negative integer: its decimal spelling, without leading zeros. */
  function Itoa(n: nat): (r: string)
    ensures |r| >= 1
    ensures forall i :: 0 <= i < |r| ==> IsDigit(r[i])
    ensures DecimalValue(r) == n
    ensures r[0] == '0' <==> n == 0
    ensures n < 10 <==> |r| == 1
    decreases n
  {
    if n < 10 then
      [Digit(n)]
    else
      var prefix := Itoa(n / 10);
      var r := prefix + [Digit(n % 10)];
      assert r[..|r| - 1] == prefix;
      r
  }

  /** `strconv.Itoa` on any integer: a leading minus sign for negative values. */
  function SignedItoa(i: int): string {
    if i < 0 then "-" + Itoa(-i) else Itoa(i)
  }

  /** Distinct numbers have distinct decimal spellings, since a spelling's value is the number. */
  lemma ItoaInjective(a: nat, b: nat)
    requires Itoa(a) == Itoa(b)
    ensures a == b
  {
  }

  /** `strings.HasSuffix(s, suffix)`. */
  predicate HasSuffix(s: string, suffix: string) {
    |suffix| <= |s| && s[|s| - |suffix|..] == suffix
  }
}
