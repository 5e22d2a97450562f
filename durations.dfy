/** `RE_TIMEDELTA` and the `timedelta` built from its groups: a duration is written as
    `<digits>w`, `<digits>d`, `<digits>h`, `<digits>m`, `<digits>s`, `<digits>ms`, each at
    most once and in that order. */
module Durations {
  import opened Common
  import opened Text
  import opened Numerals

  datatype Unit = Weeks | Days | Hours | Minutes | Seconds | Milliseconds

  /** The position of a unit's group in the expression. */
  function Rank(u: Unit): nat {
    match u
    case Weeks => 0
    case Days => 1
    case Hours => 2
    case Minutes => 3
    case Seconds => 4
    case Milliseconds => 5
  }

  function Suffix(u: Unit): string {
    match u
    case Weeks => "w"
    case Days => "d"
    case Hours => "h"
    case Minutes => "m"
    case Seconds => "s"
    case Milliseconds => "ms"
  }

  /** The length of a unit in milliseconds. */
  function Factor(u: Unit): nat {
    match u
    case Weeks => 7 * 24 * 3600 * 1000
    case Days => 24 * 3600 * 1000
    case Hours => 3600 * 1000
    case Minutes => 60 * 1000
    case Seconds => 1000
    case Milliseconds => 1
  }

  /** One matched group: its digits and the unit after them. */
  datatype Component = Component(digits: string, unit: Unit)

  /** Groups as the expression can match them after the group of rank `after`: non-empty
      digit runs, units in strictly increasing rank. */
  predicate WellFormed(cs: seq<Component>, after: int) {
    cs != [] ==>
      && cs[0].digits != [] && AllDigits(cs[0].digits) && after < Rank(cs[0].unit)
      && WellFormed(cs[1..], Rank(cs[0].unit))
  }

  predicate DigitGroups(cs: seq<Component>) {
    forall i :: 0 <= i < |cs| ==> AllDigits(cs[i].digits)
  }

  /** The text the groups were matched from. */
  function Render(cs: seq<Component>): string {
    if cs == [] then [] else cs[0].digits + Suffix(cs[0].unit) + Render(cs[1..])
  }

  /** The unit that `s` starts with; `ms` is read as milliseconds, never as minutes. */
  function UnitAt(s: string): (r: Option<Unit>)
    ensures r.Some? ==> |Suffix(r.value)| <= |s| && s[..|Suffix(r.value)|] == Suffix(r.value)
  {
    if |s| >= 2 && s[0] == 'm' && s[1] == 's' then Some(Milliseconds)
    else if s == [] then None
    else if s[0] == 'w' then Some(Weeks)
    else if s[0] == 'd' then Some(Days)
    else if s[0] == 'h' then Some(Hours)
    else if s[0] == 'm' then Some(Minutes)
    else if s[0] == 's' then Some(Seconds)
    else None
  }

  /** One group read from the start of `s`, with the number of characters it spans. */
  function Step(s: string): Option<(Component, nat)> {
    var k := DigitRun(s);
    if k == 0 then None
    else match UnitAt(s[k..])
      case None => None
      case Some(u) => Some((Component(s[..k], u), k + |Suffix(u)|))
  }

  /** The match of `RE_TIMEDELTA` against `s`, reading groups whose rank exceeds `after`. */
  function Scan(s: string, after: int): Option<seq<Component>>
    decreases |s|
  {
    if s == [] then Some([])
    else match Step(s)
      case None => None
      case Some((c, n)) =>
        if Rank(c.unit) <= after || n > |s| then None
        else match Scan(s[n..], Rank(c.unit))
          case None => None
          case Some(rest) => Some([c] + rest)
  }

  /** `RE_TIMEDELTA.match(s)` with at least one group set, as `TimedeltaParser.check` asks. */
  function Match(s: string): (r: Option<seq<Component>>)
    ensures r.Some? ==> s != [] && r.value != []
  {
    match Scan(s, -1)
    case Some(cs) => if cs == [] then None else Some(cs)
    case None => None
  }

  /** The duration in milliseconds: the sum of the groups. */
  function Total(cs: seq<Component>): nat
    requires DigitGroups(cs)
  {
    if cs == [] then 0 else DigitsValue(cs[0].digits) * Factor(cs[0].unit) + Total(cs[1..])
  }

  /** `timedelta` refuses more than 999999999 days. */
  const MaxDays: nat := 999999999

  /** `timedelta(**groups)`, in milliseconds. */
  function ToTimedelta(cs: seq<Component>): (r: Result<nat>)
    requires DigitGroups(cs)
    ensures r.Ok? <==> Total(cs) / Factor(Days) <= MaxDays
    ensures r.Ok? ==> r.value == Total(cs)
    ensures r.Err? ==> r.error == OverflowError
  {
    if Total(cs) >= (MaxDays + 1) * Factor(Days) then Err(OverflowError) else Ok(Total(cs))
  }

  /** Each unit comes at most once, in the order weeks, days, hours, minutes, seconds,
      milliseconds, and every group has digits. */
  lemma {:induction false} WellFormedOrdered(cs: seq<Component>, after: int)
    requires WellFormed(cs, after)
    ensures DigitGroups(cs)
    ensures forall i :: 0 <= i < |cs| ==> cs[i].digits != [] && after < Rank(cs[i].unit)
    ensures forall i, j :: 0 <= i < j < |cs| ==> Rank(cs[i].unit) < Rank(cs[j].unit)
  {
    if cs != [] {
      WellFormedOrdered(cs[1..], Rank(cs[0].unit));
      assert forall i :: 0 < i < |cs| ==> cs[i] == cs[1..][i - 1];
    }
  }

  lemma StepSound(s: string)
    requires Step(s).Some?
    ensures var (c, n) := Step(s).value;
      && c.digits != [] && AllDigits(c.digits)
      && n <= |s| && s[..n] == c.digits + Suffix(c.unit)
  {
    var k := DigitRun(s);
    var u := UnitAt(s[k..]).value;
    assert s[k..][..|Suffix(u)|] == s[k..k + |Suffix(u)|];
    assert s[..k + |Suffix(u)|] == s[..k] + s[k..k + |Suffix(u)|];
  }

  lemma StepComplete(c: Component, rest: string)
    requires c.digits != [] && AllDigits(c.digits)
    requires c.unit == Minutes && rest != [] ==> rest[0] != 's'
    ensures Step(c.digits + Suffix(c.unit) + rest) == Some((c, |c.digits| + |Suffix(c.unit)|))
  {
    var s := c.digits + Suffix(c.unit) + rest;
    var k := |c.digits|;
    assert s == c.digits + (Suffix(c.unit) + rest);
    assert s[..k] == c.digits && s[k..] == Suffix(c.unit) + rest;
    DigitRunIs(c.digits, Suffix(c.unit) + rest);
    UnitAtSuffix(c.unit, rest);
  }

  lemma UnitAtSuffix(u: Unit, rest: string)
    requires u == Minutes && rest != [] ==> rest[0] != 's'
    ensures UnitAt(Suffix(u) + rest) == Some(u)
  {
    var s := Suffix(u) + rest;
    assert s[0] == Suffix(u)[0];
    assert |Suffix(u)| == 2 ==> s[1] == 's';
    assert u == Minutes && |s| >= 2 ==> s[1] == rest[0];
  }

  /** Whatever `Scan` reads is well formed and spells the input back. */
  lemma {:induction false} ScanSound(s: string, after: int)
    requires Scan(s, after).Some?
    ensures WellFormed(Scan(s, after).value, after) && Render(Scan(s, after).value) == s
    decreases |s|
  {
    if s != [] {
      var (c, n) := Step(s).value;
      StepSound(s);
      var t := s[n..];
      ScanSound(t, Rank(c.unit));
      var rest := Scan(t, Rank(c.unit)).value;
      var cs := [c] + rest;
      assert Scan(s, after).value == cs;
      assert cs[1..] == rest;
      assert s == s[..n] + t;
    }
  }

  /** Whatever well-formed groups render to is read back as those groups. */
  lemma {:induction false} ScanComplete(cs: seq<Component>, after: int)
    requires WellFormed(cs, after)
    ensures Scan(Render(cs), after) == Some(cs)
  {
    if cs != [] {
      var c := cs[0];
      var tail := Render(cs[1..]);
      var s := Render(cs);
      RenderStartsWithDigit(cs[1..], Rank(c.unit));
      assert tail != [] ==> tail[0] != 's';
      StepComplete(c, tail);
      var n := |c.digits| + |Suffix(c.unit)|;
      assert s[n..] == tail;
      ScanComplete(cs[1..], Rank(c.unit));
      assert cs == [c] + cs[1..];
    }
  }

  lemma RenderStartsWithDigit(cs: seq<Component>, after: int)
    requires WellFormed(cs, after)
    ensures Render(cs) != [] ==> IsDigit(Render(cs)[0])
  {
    if cs != [] {
      assert Render(cs) == cs[0].digits + (Suffix(cs[0].unit) + Render(cs[1..]));
    }
  }

  /** The accepted texts are exactly the renderings of one or more well-formed groups:
      what `Match` returns spells its input, and every such spelling is matched. */
  lemma MatchIsRender(s: string)
    ensures Match(s).Some? ==> WellFormed(Match(s).value, -1) && Match(s).value != [] && Render(Match(s).value) == s
  {
    if Match(s).Some? {
      ScanSound(s, -1);
    }
  }

  lemma RenderMatches(cs: seq<Component>)
    requires WellFormed(cs, -1) && cs != []
    ensures Match(Render(cs)) == Some(cs)
  {
    ScanComplete(cs, -1);
  }

  lemma {:induction false} TotalAppend(a: seq<Component>, b: seq<Component>)
    requires DigitGroups(a) && DigitGroups(b)
    ensures DigitGroups(a + b) && Total(a + b) == Total(a) + Total(b)
  {
    if a != [] {
      assert (a + b)[1..] == a[1..] + b;
      TotalAppend(a[1..], b);
    } else {
      assert a + b == b;
    }
  }

  lemma {:induction false} RenderAppend(a: seq<Component>, b: seq<Component>)
    ensures Render(a + b) == Render(a) + Render(b)
  {
    if a == [] {
      assert a + b == b;
    } else {
      assert (a + b)[1..] == a[1..] + b;
      RenderAppend(a[1..], b);
    }
  }

  lemma {:induction false} WellFormedAppend(a: seq<Component>, b: seq<Component>, after: int, mid: int)
    requires WellFormed(a, after) && WellFormed(b, mid)
    requires a != [] ==> Rank(a[|a| - 1].unit) <= mid
    requires a == [] ==> after <= mid
    ensures WellFormed(a + b, after)
  {
    if a == [] {
      assert a + b == b;
      WellFormedWeaken(b, mid, after);
    } else {
      assert (a + b)[1..] == a[1..] + b;
      WellFormedAppend(a[1..], b, Rank(a[0].unit), mid);
    }
  }

  lemma {:induction false} WellFormedWeaken(cs: seq<Component>, after: int, lower: int)
    requires WellFormed(cs, after) && lower <= after
    ensures WellFormed(cs, lower)
  {
  }

  /** Writing two durations one after the other, the second in units after the first's,
      writes their sum: `2h13s` is `2h` plus `13s`. */
  lemma ConcatenationAdds(a: seq<Component>, b: seq<Component>)
    requires a != [] && b != [] && WellFormed(a, -1) && WellFormed(b, Rank(a[|a| - 1].unit))
    ensures Match(Render(a) + Render(b)) == Some(a + b)
    ensures DigitGroups(a) && DigitGroups(b)
    ensures Total(Match(Render(a) + Render(b)).value) == Total(a) + Total(b)
  {
    WellFormedAppend(a, b, -1, Rank(a[|a| - 1].unit));
    RenderAppend(a, b);
    RenderMatches(a + b);
    WellFormedOrdered(a, -1);
    WellFormedOrdered(b, Rank(a[|a| - 1].unit));
    TotalAppend(a, b);
  }

  /** A unit may not repeat: `2d100ss` is refused. */
  lemma RejectsRepeatedUnit()
    ensures Match("2d100ss") == None
  {
    RepeatedSeconds();
    StepComplete(Component("2", Days), "100ss");
    assert "2d100ss" == "2" + Suffix(Days) + "100ss";
  }

  lemma RepeatedSeconds()
    ensures Scan("100ss", Rank(Days)) == None
  {
    assert Scan("s", Rank(Seconds)) == None by {
      assert DigitRun("s") == 0;
    }
    StepComplete(Component("100", Seconds), "s");
    assert "100ss" == "100" + Suffix(Seconds) + "s";
  }

  /** Only the six units exist: `2y2d` is refused. */
  lemma RejectsUnknownUnit()
    ensures Match("2y2d") == None
  {
    assert DigitRun("2y2d") == 1 && "2y2d"[1..] == "y2d";
  }

  /** A rendering starts with a digit, ends with a unit letter and holds no `-`. */
  lemma {:induction false} RenderShape(cs: seq<Component>, after: int)
    requires WellFormed(cs, after) && cs != []
    ensures var s := Render(cs); s != [] && IsDigit(s[0]) && s[|s| - 1] in "wdhms" && '-' !in s
  {
    var s := Render(cs);
    var head := cs[0].digits + Suffix(cs[0].unit);
    assert s == head + Render(cs[1..]);
    assert '-' !in cs[0].digits by {
      assert forall i :: 0 <= i < |cs[0].digits| ==> IsDigit(cs[0].digits[i]);
    }
    if cs[1..] != [] {
      RenderShape(cs[1..], Rank(cs[0].unit));
    } else {
      assert s == head;
    }
  }
}
