/** Decimal numerals: what Python's `int()` accepts from a stripped `str`, and its inverse. */
module Numerals {
  import opened Common
  import opened Text

  /** The value of a run of ASCII digits. */
  function DigitsValue(s: string): nat
    requires AllDigits(s)
  {
    if s == [] then 0 else 10 * DigitsValue(s[..|s| - 1]) + (s[|s| - 1] as int - '0' as int)
  }

  /** The shortest decimal numeral of `n`, the inverse of `DigitsValue`. */
  function ShowNat(n: nat): (r: string)
    ensures r != [] && AllDigits(r)
    ensures DigitsValue(r) == n
    ensures r[0] != '0' || n == 0
  {
    var d := ['0' + (n % 10) as char];
    if n < 10 then d else ShowNat(n / 10) + d
  }

  /** The digits of `int()`'s underscore-grouped form: ASCII digits, with single underscores
      allowed between two digits. */
  predicate IsDecimal(s: string) {
    && s != [] && IsDigit(s[0]) && IsDigit(s[|s| - 1])
    && (forall i :: 0 <= i < |s| ==> IsDigit(s[i]) || s[i] == '_')
    && (forall i, j :: 0 <= i < |s| && 0 <= j < |s| && j == i + 1 ==> s[i] != '_' || s[j] != '_')
  }

  /** The digits of `s` without its underscores. */
  function Ungrouped(s: string): (r: string)
    requires forall i :: 0 <= i < |s| ==> IsDigit(s[i]) || s[i] == '_'
    ensures AllDigits(r)
    ensures AllDigits(s) ==> r == s
  {
    if s == [] then []
    else (if s[0] == '_' then [] else [s[0]]) + Ungrouped(s[1..])
  }

  /** Python's `int(s)` for a string without surrounding whitespace: an optional sign and
      an underscore-grouped run of ASCII digits; anything else raises `ValueError`. */
  function ParseInt(s: string): (r: Option<int>)
    ensures r.Some? ==> s != [] && IsDigit(s[|s| - 1])
    ensures r.Some? && s[0] == '-' ==> r.value <= 0
    ensures r.Some? && s[0] != '-' ==> r.value >= 0
  {
    var negative := s != [] && s[0] == '-';
    var body := if s != [] && (s[0] == '+' || s[0] == '-') then s[1..] else s;
    if !IsDecimal(body) then None
    else
      var v: int := DigitsValue(Ungrouped(body));
      Some(if negative then -v else v)
  }

  /** `str(n)` for an integer. */
  function ShowInt(n: int): string {
    if n < 0 then "-" + ShowNat(-n) else ShowNat(n)
  }

  /** `int(str(n)) == n`. */
  lemma ParseShowInt(n: int)
    ensures ParseInt(ShowInt(n)) == Some(n)
  {
    var m := if n < 0 then -n else n;
    var d := ShowNat(m);
    if n < 0 {
      assert ShowInt(n) == ['-'] + d;
      ParseIntSigned(d, '-');
    } else {
      ParseIntDecimal(d);
    }
    var r := ParseInt(ShowInt(n));
    assert r.Some? && r.value == n;
    assert r == Some(r.value);
  }

  /** An underscore-grouped numeral that starts with a digit reads as its digits. */
  lemma ParseIntDecimal(s: string)
    requires IsDecimal(s)
    ensures ParseInt(s) == Some(DigitsValue(Ungrouped(s)))
  {
    assert s[0] != '+' && s[0] != '-';
  }

  /** A sign in front of a run of digits. */
  lemma ParseIntSigned(d: string, sign: char)
    requires d != [] && AllDigits(d) && (sign == '+' || sign == '-')
    ensures ParseInt([sign] + d).Some?
    ensures ParseInt([sign] + d).value == if sign == '-' then -(DigitsValue(d) as int) else DigitsValue(d)
  {
    var s := [sign] + d;
    assert s[0] == sign && s[1..] == d;
    assert IsDecimal(d) && Ungrouped(d) == d;
  }

  /** A numeral and the same numeral with one underscore between two of its digits denote
      the same integer; both are accepted. */
  lemma ParseIntGrouped(a: string, b: string)
    requires a != [] && b != [] && AllDigits(a) && AllDigits(b)
    ensures ParseInt(a + "_" + b) == ParseInt(a + b) == Some(DigitsValue(a + b))
  {
    var g := a + "_" + b;
    var e := a + b;
    assert ParseInt(g) == Some(DigitsValue(a + b)) by {
      GroupedIsDecimal(a, b);
      UngroupedSeparator(a, b);
      ParseIntDecimal(g);
    }
    assert AllDigits(e) by {
      assert forall i :: 0 <= i < |e| ==> e[i] == if i < |a| then a[i] else b[i - |a|];
    }
    assert IsDecimal(e);
    ParseIntDecimal(e);
  }

  lemma UngroupedSeparator(a: string, b: string)
    requires AllDigits(a) && AllDigits(b)
    ensures Ungrouped(a + "_" + b) == a + b
  {
    var u := "_" + b;
    assert u == ['_'] + b && u[1..] == b;
    assert Ungrouped(u) == b;
    UngroupedAppend(a, u);
    assert a + "_" + b == a + u;
  }

  lemma GroupedIsDecimal(a: string, b: string)
    requires a != [] && b != [] && AllDigits(a) && AllDigits(b)
    ensures IsDecimal(a + "_" + b)
  {
    var g := a + "_" + b;
    assert g[0] == a[0] && g[|g| - 1] == b[|b| - 1];
    forall i, j | 0 <= i < |g| && 0 <= j < |g| && j == i + 1
      ensures g[i] != '_' || g[j] != '_'
    {
      if g[j] == '_' {
        assert j == |a|;
      }
    }
  }

  lemma {:induction false} UngroupedAppend(a: string, b: string)
    requires forall i :: 0 <= i < |a| ==> IsDigit(a[i]) || a[i] == '_'
    requires forall i :: 0 <= i < |b| ==> IsDigit(b[i]) || b[i] == '_'
    ensures Ungrouped(a + b) == Ungrouped(a) + Ungrouped(b)
  {
    if a == [] {
      assert a + b == b;
    } else {
      assert (a + b)[1..] == a[1..] + b;
      UngroupedAppend(a[1..], b);
    }
  }

  /** The number of leading ASCII digits. */
  function DigitRun(s: string): (k: nat)
    ensures k <= |s| && AllDigits(s[..k]) && (k == |s| || !IsDigit(s[k]))
  {
    if s == [] || !IsDigit(s[0]) then 0 else 1 + DigitRun(s[1..])
  }

  lemma DigitRunIs(d: string, rest: string)
    requires AllDigits(d)
    requires rest == [] || !IsDigit(rest[0])
    ensures DigitRun(d + rest) == |d|
    decreases |d|
  {
    if d != [] {
      assert (d + rest)[1..] == d[1..] + rest;
      DigitRunIs(d[1..], rest);
    } else {
      assert d + rest == rest;
    }
  }
}
