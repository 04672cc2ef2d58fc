/**
 * The JavaScript string built-ins the modelled code relies on, stated over
 * `seq<char>`: `trim`, `split` on one character, `indexOf`, `startsWith`,
 * `padStart`, and the decimal rendering of integers by `String(n)` and
 * template literals.  Each comes with the facts the callers need.
 */
module JsStrings {

  /** The characters `String.prototype.trim` removes: ECMAScript WhiteSpace and LineTerminator. */
  predicate IsWhitespace(c: char) {
    var n := c as int;
    n == 0x09 || n == 0x0A || n == 0x0B || n == 0x0C || n == 0x0D || n == 0x20 ||
    n == 0xA0 || n == 0x1680 || (0x2000 <= n <= 0x200A) || n == 0x2028 || n == 0x2029 ||
    n == 0x202F || n == 0x205F || n == 0x3000 || n == 0xFEFF
  }

  predicate AllWhitespace(s: string) {
    forall i :: 0 <= i < |s| ==> IsWhitespace(s[i])
  }

  /** The first index at or after `i` that does not hold whitespace, or `|s|`. */
  function SkipLeading(s: string, i: nat): (k: nat)
    requires i <= |s|
    ensures i <= k <= |s|
    decreases |s| - i
  {
    if i < |s| && IsWhitespace(s[i]) then SkipLeading(s, i + 1) else i
  }

  /** Everything skipped is whitespace, and the scan stops at the first other character. */
  lemma {:induction false} SkipLeadingStops(s: string, i: nat)
    requires i <= |s|
    ensures forall j :: i <= j < SkipLeading(s, i) ==> IsWhitespace(s[j])
    ensures SkipLeading(s, i) < |s| ==> !IsWhitespace(s[SkipLeading(s, i)])
    decreases |s| - i
  {
    if i < |s| && IsWhitespace(s[i]) {
      SkipLeadingStops(s, i + 1);
    }
  }

  /** The end of `s[lo..j]` once its trailing whitespace is dropped. */
  function SkipTrailing(s: string, lo: nat, j: nat): (k: nat)
    requires lo <= j <= |s|
    ensures lo <= k <= j
    decreases j
  {
    if j > lo && IsWhitespace(s[j - 1]) then SkipTrailing(s, lo, j - 1) else j
  }

  /** Everything dropped is whitespace, and the scan stops after the last other character. */
  lemma {:induction false} SkipTrailingStops(s: string, lo: nat, j: nat)
    requires lo <= j <= |s|
    ensures forall m :: SkipTrailing(s, lo, j) <= m < j ==> IsWhitespace(s[m])
    ensures SkipTrailing(s, lo, j) > lo ==> !IsWhitespace(s[SkipTrailing(s, lo, j) - 1])
    decreases j
  {
    if j > lo && IsWhitespace(s[j - 1]) {
      SkipTrailingStops(s, lo, j - 1);
    }
  }

  /** `s.trim()`: `s` without its leading and trailing whitespace. */
  function Trim(s: string): (r: string)
    ensures |r| <= |s|
  {
    var a := SkipLeading(s, 0);
    var b := SkipTrailing(s, a, |s|);
    s[a..b]
  }

  /**
   * The trimmed text is empty exactly when `s` is all whitespace, and
   * otherwise neither starts nor ends with whitespace.
   */
  lemma {:induction false} TrimShape(s: string)
    ensures Trim(s) == [] <==> AllWhitespace(s)
    ensures Trim(s) != [] ==> !IsWhitespace(Trim(s)[0]) && !IsWhitespace(Trim(s)[|Trim(s)| - 1])
  {
    var a := SkipLeading(s, 0);
    var b := SkipTrailing(s, a, |s|);
    SkipLeadingStops(s, 0);
    SkipTrailingStops(s, a, |s|);
    assert Trim(s) == s[a..b];
    if AllWhitespace(s) {
      assert a == |s|;
    }
    if b > a {
      assert s[a] == Trim(s)[0];
      assert s[b - 1] == Trim(s)[|Trim(s)| - 1];
    }
  }

  /**
   * `trim` removes only whitespace, and only at the two ends: the result is
   * an infix of `s` with nothing but whitespace before and after it.
   */
  lemma {:induction false} TrimIsInfix(s: string)
    ensures var (a, r) := (SkipLeading(s, 0), Trim(s));
      && a + |r| <= |s|
      && r == s[a..a + |r|]
      && (forall i :: 0 <= i < a ==> IsWhitespace(s[i]))
      && (forall i :: a + |r| <= i < |s| ==> IsWhitespace(s[i]))
  {
    var a := SkipLeading(s, 0);
    var b := SkipTrailing(s, a, |s|);
    SkipLeadingStops(s, 0);
    SkipTrailingStops(s, a, |s|);
    assert Trim(s) == s[a..b];
  }

  /** Trimming adds no character: a character absent from `s` is absent from `s.trim()`. */
  lemma {:induction false} TrimKeepsOut(s: string, c: char)
    requires c !in s
    ensures c !in Trim(s)
  {
    TrimIsInfix(s);
  }

  /** `s.split(c)`: the maximal runs of `s` between occurrences of `c`, in order. */
  function Split(s: string, c: char): (r: seq<string>)
    ensures |r| >= 1
    ensures forall i :: 0 <= i < |r| ==> c !in r[i]
    decreases |s|
  {
    if |s| == 0 then [""]
    else
      var rest := Split(s[1..], c);
      if s[0] == c then [""] + rest
      else [[s[0]] + rest[0]] + rest[1..]
  }

  /** `parts.join(c)`, the inverse of `Split`. */
  function Join(parts: seq<string>, c: char): string
    decreases |parts|
  {
    if |parts| == 0 then ""
    else if |parts| == 1 then parts[0]
    else parts[0] + [c] + Join(parts[1..], c)
  }

  /** Splitting loses nothing: joining the pieces back with the separator gives the input. */
  lemma {:induction false} JoinSplit(s: string, c: char)
    ensures Join(Split(s, c), c) == s
    decreases |s|
  {
    if |s| > 0 {
      var rest := Split(s[1..], c);
      JoinSplit(s[1..], c);
      if s[0] == c {
        assert Split(s, c) == [""] + rest;
        assert ([""] + rest)[1..] == rest;
      } else {
        var r := Split(s, c);
        assert r == [[s[0]] + rest[0]] + rest[1..];
        if |rest| == 1 {
          assert Join(r, c) == [s[0]] + rest[0];
        } else {
          assert r[1..] == rest[1..];
          assert Join(rest, c) == rest[0] + [c] + Join(rest[1..], c);
          assert Join(r, c) == [s[0]] + rest[0] + [c] + Join(rest[1..], c);
        }
      }
    }
  }

  predicate StartsWith(s: string, p: string) {
    |p| <= |s| && s[..|p|] == p
  }

  /** `p` occurs in `s` at index `j`. */
  predicate Occurs(s: string, p: string, j: int) {
    0 <= j && j + |p| <= |s| && s[j..j + |p|] == p
  }

  /** The first occurrence of `p` in `s` at or after `k`, or -1. */
  function IndexFrom(s: string, p: string, k: nat): (r: int)
    ensures r == -1 || (k <= r && Occurs(s, p, r))
    decreases |s| - k
  {
    if k + |p| > |s| then -1
    else if s[k..k + |p|] == p then k
    else IndexFrom(s, p, k + 1)
  }

  /** No occurrence is skipped by `IndexFrom`. */
  lemma {:induction false} IndexFromSkipsNone(s: string, p: string, k: nat, j: int)
    requires k <= j && (IndexFrom(s, p, k) == -1 || j < IndexFrom(s, p, k))
    ensures !Occurs(s, p, j)
    decreases |s| - k
  {
    if k + |p| <= |s| && s[k..k + |p|] != p && k < j {
      IndexFromSkipsNone(s, p, k + 1, j);
    }
  }

  /** The position argument of `indexOf`, clamped into 0..|s|. */
  function ClampIndex(s: string, from: int): (k: nat)
    ensures k <= |s|
    ensures 0 <= from <= |s| ==> k == from
  {
    if from < 0 then 0 else if from > |s| then |s| else from
  }

  /**
   * `s.indexOf(p, from)`: the first occurrence of `p` at or after `from`
   * (clamped into 0..|s|), or -1 when there is none; `IndexOfSkipsNone`
   * states that it is the first.
   */
  function IndexOf(s: string, p: string, from: int): (r: int)
    ensures r == -1 || (ClampIndex(s, from) <= r && Occurs(s, p, r))
  {
    IndexFrom(s, p, ClampIndex(s, from))
  }

  /** Before the index `indexOf` returns (anywhere, when it returns -1) `p` does not occur. */
  lemma {:induction false} IndexOfSkipsNone(s: string, p: string, from: int, j: int)
    requires ClampIndex(s, from) <= j
    requires IndexOf(s, p, from) == -1 || j < IndexOf(s, p, from)
    ensures !Occurs(s, p, j)
  {
    IndexFromSkipsNone(s, p, ClampIndex(s, from), j);
  }

  /** `i` is where `p` first occurs in `s` at or after `from`. */
  predicate FirstAt(s: string, p: string, from: int, i: int) {
    from <= i && Occurs(s, p, i) && forall j :: from <= j < i ==> !Occurs(s, p, j)
  }

  /** `p` does not occur in `s` at or after `from`. */
  ghost predicate Absent(s: string, p: string, from: int) {
    forall j :: from <= j ==> !Occurs(s, p, j)
  }

  /** `indexOf` finds the first occurrence. */
  lemma {:induction false} IndexOfFirst(s: string, p: string, from: int, i: int)
    requires 0 <= from && FirstAt(s, p, from, i)
    ensures IndexOf(s, p, from) == i
  {
    var r := IndexOf(s, p, from);
    assert ClampIndex(s, from) == from;
    if r == -1 || r > i {
      IndexOfSkipsNone(s, p, from, i);
    }
  }

  /** `indexOf` gives -1 when there is no occurrence. */
  lemma {:induction false} IndexOfAbsent(s: string, p: string, from: int)
    requires 0 <= from <= |s| && Absent(s, p, from)
    ensures IndexOf(s, p, from) == -1
  {
    assert ClampIndex(s, from) == from;
  }

  function DigitChar(d: int): char
    requires 0 <= d < 10
  {
    ('0' as int + d) as char
  }

  predicate IsDigit(c: char) {
    '0' <= c <= '9'
  }

  function DigitValue(c: char): int
    requires IsDigit(c)
  {
    c as int - '0' as int
  }

  /** Decimal rendering of a natural number, without leading zeros. */
  function NatToString(n: nat): string {
    if n < 10 then [DigitChar(n)] else NatToString(n / 10) + [DigitChar(n % 10)]
  }

  /** The rendering is a non-empty digit string that starts with `0` only for zero. */
  lemma {:induction false} NatToStringDigits(n: nat)
    ensures var r := NatToString(n);
      && |r| >= 1 && (forall i :: 0 <= i < |r| ==> IsDigit(r[i]))
      && (r[0] == '0' ==> n == 0)
  {
    if n >= 10 {
      NatToStringDigits(n / 10);
    }
  }

  /** `String(n)` for an integer-valued JavaScript number. */
  function IntToString(n: int): string {
    if n < 0 then "-" + NatToString(-n) else NatToString(n)
  }

  /** `parseInt(s, 10)` on a string of decimal digits. */
  function ParseDigits(s: string): int
    requires forall i :: 0 <= i < |s| ==> IsDigit(s[i])
    decreases |s|
  {
    if s == [] then 0 else ParseDigits(s[..|s| - 1]) * 10 + DigitValue(s[|s| - 1])
  }

  /** `parseInt(s, 10)` on an optionally signed string of decimal digits. */
  function ParseInteger(s: string): int
    requires |s| >= 1 && s[0] == '-' ==> forall i :: 1 <= i < |s| ==> IsDigit(s[i])
    requires |s| >= 1 && s[0] != '-' ==> forall i :: 0 <= i < |s| ==> IsDigit(s[i])
  {
    if |s| >= 1 && s[0] == '-' then -ParseDigits(s[1..]) else ParseDigits(s)
  }

  lemma {:induction false} ParseNatToString(n: nat)
    ensures var r := NatToString(n);
      (forall i :: 0 <= i < |r| ==> IsDigit(r[i])) && ParseDigits(r) == n
  {
    NatToStringDigits(n);
    if n >= 10 {
      var s := NatToString(n);
      ParseNatToString(n / 10);
      assert s[..|s| - 1] == NatToString(n / 10);
    }
  }

  /** Reading back the decimal rendering of an integer gives the integer. */
  lemma {:induction false} IntToStringRoundTrip(n: int)
    ensures var s := IntToString(n);
      && |s| >= 1
      && (s[0] == '-' ==> forall i :: 1 <= i < |s| ==> IsDigit(s[i]))
      && (s[0] != '-' ==> forall i :: 0 <= i < |s| ==> IsDigit(s[i]))
      && ParseInteger(s) == n
  {
    if n < 0 {
      ParseNatToString(-n);
      assert IntToString(n)[1..] == NatToString(-n);
    } else {
      ParseNatToString(n);
    }
  }

  /** `s.padStart(width, fill)` with a one-character fill string. */
  function PadStart(s: string, width: nat, fill: char): (r: string)
    ensures |r| == if |s| >= width then |s| else width
    ensures r[|r| - |s|..] == s
    ensures forall i :: 0 <= i < |r| - |s| ==> r[i] == fill
  {
    if |s| >= width then s else seq(width - |s|, _ => fill) + s
  }

  /** Zero padding does not change the number a digit string denotes. */
  lemma {:induction false} ParseLeadingZeros(s: string, k: nat)
    requires forall i :: 0 <= i < |s| ==> IsDigit(s[i])
    ensures var z := seq(k, _ => '0') + s;
      (forall i :: 0 <= i < |z| ==> IsDigit(z[i])) && ParseDigits(z) == ParseDigits(s)
    decreases |s|
  {
    var z := seq(k, _ => '0') + s;
    assert forall i :: 0 <= i < |z| ==> IsDigit(z[i]);
    if s == [] {
      ZerosParseToZero(k);
      assert z == seq(k, _ => '0');
    } else {
      ParseLeadingZeros(s[..|s| - 1], k);
      assert z[..|z| - 1] == seq(k, _ => '0') + s[..|s| - 1];
    }
  }

  lemma {:induction false} ZerosParseToZero(k: nat)
    ensures ParseDigits(seq(k, _ => '0')) == 0
  {
    if k > 0 {
      ZerosParseToZero(k - 1);
      assert seq(k, _ => '0')[..k - 1] == seq(k - 1, _ => '0');
    }
  }
}
