/** The few Python `str` operations the parser relies on. */
module Text {

  /** Python's `str.isspace()` for one character (also what `\s` matches in a `str` regex). */
  predicate IsSpace(c: char) {
    || ('\t' <= c <= '\r')
    || ('\U{1C}' <= c <= ' ')
    || c == '\U{85}' || c == '\U{A0}' || c == '\U{1680}'
    || ('\U{2000}' <= c <= '\U{200A}')
    || c == '\U{2028}' || c == '\U{2029}' || c == '\U{202F}' || c == '\U{205F}' || c == '\U{3000}'
  }

  predicate IsDigit(c: char) {
    '0' <= c <= '9'
  }

  predicate AllDigits(s: string) {
    forall i :: 0 <= i < |s| ==> IsDigit(s[i])
  }

  /** The index where the trailing run of whitespace of `s` starts. */
  function TrailingStart(s: string): (k: nat)
    ensures k <= |s|
    ensures forall i :: k <= i < |s| ==> IsSpace(s[i])
    ensures k == 0 || !IsSpace(s[k - 1])
  {
    if s == [] || !IsSpace(s[|s| - 1]) then |s| else TrailingStart(s[..|s| - 1])
  }

  /** The length of the leading run of whitespace of `s`. */
  function LeadingEnd(s: string): (k: nat)
    ensures k <= |s|
    ensures forall i :: 0 <= i < k ==> IsSpace(s[i])
    ensures k == |s| || !IsSpace(s[k])
  {
    if s == [] || !IsSpace(s[0]) then 0 else 1 + LeadingEnd(s[1..])
  }

  /** `s.rstrip()` */
  function RStrip(s: string): (r: string)
    ensures r == s[..TrailingStart(s)]
  {
    s[..TrailingStart(s)]
  }

  /** `s.strip()`: the middle piece of `s` between its leading and its trailing whitespace,
      which neither starts nor ends with whitespace. */
  function Strip(s: string): (r: string)
    ensures LeadingEnd(RStrip(s)) <= TrailingStart(s)
    ensures r == s[LeadingEnd(RStrip(s))..TrailingStart(s)]
    ensures forall k :: 0 <= k < LeadingEnd(RStrip(s)) ==> IsSpace(s[k])
    ensures r != [] ==> !IsSpace(r[0]) && !IsSpace(r[|r| - 1])
  {
    var t := RStrip(s);
    t[LeadingEnd(t)..]
  }

  /** A string strips to nothing exactly when it is all whitespace. */
  lemma StripEmptyIffBlank(s: string)
    ensures Strip(s) == [] <==> forall i :: 0 <= i < |s| ==> IsSpace(s[i])
  {
    var t := RStrip(s);
    if Strip(s) == [] {
      assert LeadingEnd(t) == |t|;
      assert t == [];
    } else {
      var k := LeadingEnd(t);
      assert k < |t| && !IsSpace(t[k]) && t[k] == s[k];
    }
  }

  /** A string without surrounding whitespace strips to itself. */
  lemma StripTrimmed(s: string)
    requires s == [] || (!IsSpace(s[0]) && !IsSpace(s[|s| - 1]))
    ensures Strip(s) == s
  {
  }

  /** The ASCII-only lower-casing of a character. */
  function LowerChar(c: char): char {
    if 'A' <= c <= 'Z' then (c as int + 32) as char else c
  }

  /** `s.lower()`, restricted to ASCII letters (see README). */
  function Lower(s: string): (r: string)
    ensures |r| == |s|
    ensures forall i :: 0 <= i < |s| ==> r[i] == LowerChar(s[i])
  {
    seq(|s|, i requires 0 <= i < |s| => LowerChar(s[i]))
  }

  /** The position of the first occurrence of `c` in `s`. */
  function IndexOf(s: string, c: char): (i: nat)
    requires c in s
    ensures i < |s| && s[i] == c && c !in s[..i]
  {
    if s[0] == c then 0 else 1 + IndexOf(s[1..], c)
  }

  /** `s.split('\n')` */
  function SplitLines(s: string): (r: seq<string>)
    ensures |r| >= 1
    ensures forall i :: 0 <= i < |r| ==> '\n' !in r[i]
    ensures JoinLines(r) == s
    decreases |s|
  {
    if '\n' !in s then [s]
    else
      var i := IndexOf(s, '\n');
      assert s == s[..i] + "\n" + s[i + 1..];
      [s[..i]] + SplitLines(s[i + 1..])
  }

  /** `'\n'.join(r)`, the inverse of `SplitLines`. */
  function JoinLines(r: seq<string>): string
    requires |r| >= 1
  {
    if |r| == 1 then r[0] else r[0] + "\n" + JoinLines(r[1..])
  }

  /** Splitting a join of newline-free pieces gives the pieces back. */
  lemma {:induction false} SplitJoin(r: seq<string>)
    requires |r| >= 1
    requires forall i :: 0 <= i < |r| ==> '\n' !in r[i]
    ensures SplitLines(JoinLines(r)) == r
  {
    if |r| > 1 {
      var s := JoinLines(r);
      assert s == r[0] + "\n" + JoinLines(r[1..]);
      assert s[|r[0]|] == '\n';
      assert s[..|r[0]|] == r[0];
      var i := IndexOf(s, '\n');
      assert s[i + 1..] == JoinLines(r[1..]);
      SplitJoin(r[1..]);
    } else {
      assert JoinLines(r) == r[0];
    }
  }

  /** Whitespace around a string without surrounding whitespace is what `strip()` removes. */
  lemma StripPadded(a: string, s: string, b: string)
    requires forall i :: 0 <= i < |a| ==> IsSpace(a[i])
    requires forall i :: 0 <= i < |b| ==> IsSpace(b[i])
    requires s != [] && !IsSpace(s[0]) && !IsSpace(s[|s| - 1])
    ensures Strip(a + s + b) == s
  {
    var w := a + s + b;
    var t := TrailingStart(w);
    assert w[|a| + |s| - 1] == s[|s| - 1];
    assert t == |a| + |s|;
    var r := RStrip(w);
    assert r == a + s;
    var l := LeadingEnd(r);
    assert r[|a|] == s[0];
    assert l == |a|;
    assert w[l..t] == s;
  }

  /** `IndexOf` finds the first occurrence and nothing else. */
  lemma IndexOfIs(s: string, c: char, i: nat)
    requires i < |s| && s[i] == c && c !in s[..i]
    ensures IndexOf(s, c) == i
  {
  }

  /** No surrounding whitespace: `Strip` leaves such a string unchanged. */
  predicate Trimmed(s: string) {
    s == [] || (!IsSpace(s[0]) && !IsSpace(s[|s| - 1]))
  }
}
