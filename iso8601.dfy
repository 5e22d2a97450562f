/** `RE_ISO8601`, the shape `DatetimeParser.check` asks of a value:
    `YYYY-MM-DD`, then optionally a time `[\sT]hh:mm`, optional `:ss` with an optional
    fraction `.d+`, and an optional UTC offset `\s?[+-]hh` with optional `:mm`, and finally an
    optional `z` or `Z`, which may also follow the date alone or an offset. */
module Iso8601 {
  import opened Common
  import opened Text
  import opened Numerals

  datatype Offset = Offset(space: Option<char>, sign: char, hours: string, minutes: Option<string>)

  datatype Seconds = Seconds(digits: string, fraction: Option<string>)

  datatype Time = Time(sep: char, hour: string, minute: string, seconds: Option<Seconds>, offset: Option<Offset>)

  /** The groups of a matching value, kept as the text they were read from. */
  datatype Stamp = Stamp(year: string, month: string, day: string, time: Option<Time>, zone: Option<char>)

  /** Two ASCII digits. */
  predicate TwoDigits(s: string) {
    |s| == 2 && IsDigit(s[0]) && IsDigit(s[1])
  }

  /** Four ASCII digits. */
  predicate FourDigits(s: string) {
    |s| == 4 && IsDigit(s[0]) && IsDigit(s[1]) && IsDigit(s[2]) && IsDigit(s[3])
  }

  predicate OffsetOk(o: Option<Offset>) {
    o.Some? ==>
      && (o.value.space.Some? ==> IsSpace(o.value.space.value))
      && (o.value.sign == '+' || o.value.sign == '-')
      && TwoDigits(o.value.hours)
      && (o.value.minutes.Some? ==> TwoDigits(o.value.minutes.value))
  }

  predicate SecondsOk(s: Option<Seconds>) {
    s.Some? ==>
      && TwoDigits(s.value.digits)
      && (s.value.fraction.Some? ==> s.value.fraction.value != [] && AllDigits(s.value.fraction.value))
  }

  predicate TimeOk(t: Option<Time>) {
    t.Some? ==>
      && (IsSpace(t.value.sep) || t.value.sep == 'T')
      && TwoDigits(t.value.hour) && TwoDigits(t.value.minute)
      && SecondsOk(t.value.seconds) && OffsetOk(t.value.offset)
  }

  /** Groups as the expression can match them. */
  predicate StampOk(st: Stamp) {
    && FourDigits(st.year) && TwoDigits(st.month) && TwoDigits(st.day)
    && TimeOk(st.time)
    && (st.zone.Some? ==> st.zone.value == 'z' || st.zone.value == 'Z')
  }

  function OptChar(c: Option<char>): string {
    if c.Some? then [c.value] else []
  }

  /** An optional part introduced by `mark`. */
  function OptPart(mark: char, p: Option<string>): string {
    if p.Some? then [mark] + p.value else []
  }

  function RenderOffset(o: Option<Offset>): string {
    if o.None? then [] else OptChar(o.value.space) + ([o.value.sign] + o.value.hours + OptPart(':', o.value.minutes))
  }

  function RenderSeconds(s: Option<Seconds>): string {
    if s.None? then [] else ":" + s.value.digits + OptPart('.', s.value.fraction)
  }

  function RenderTime(t: Option<Time>): string {
    if t.None? then []
    else
      var t := t.value;
      [t.sep] + t.hour + ":" + t.minute + (RenderSeconds(t.seconds) + RenderOffset(t.offset))
  }

  /** The text the groups were matched from. */
  function Render(st: Stamp): string {
    st.year + "-" + st.month + "-" + st.day + (RenderTime(st.time) + OptChar(st.zone))
  }

  /* Each scanner reads one optional group at the start of its input and returns it with
     the rest of the input; an absent group reads nothing. Every choice is forced by the next
     character, so reading greedily finds the one match the expression has. */

  /** `(?:<mark>\d\d)?` */
  function ScanPart(mark: char, s: string): (Option<string>, string) {
    if |s| >= 3 && s[0] == mark && IsDigit(s[1]) && IsDigit(s[2]) then (Some(s[1..3]), s[3..])
    else (None, s)
  }

  /** `(?:\.\d+)?`, the digits taken as far as they go. */
  function ScanFraction(s: string): (Option<string>, string) {
    if |s| >= 2 && s[0] == '.' && IsDigit(s[1]) then
      var k := DigitRun(s[1..]);
      (Some(s[1..][..k]), s[1..][k..])
    else (None, s)
  }

  /** `(?::\d\d(?:\.\d+)?)?` */
  function ScanSeconds(s: string): (Option<Seconds>, string) {
    var (digits, r) := ScanPart(':', s);
    if digits.None? then (None, s)
    else
      var (fraction, rest) := ScanFraction(r);
      (Some(Seconds(digits.value, fraction)), rest)
  }

  /** `[+-]\d\d(?::\d\d)?`, an offset after its optional space. */
  function ScanSigned(space: Option<char>, r: string): Option<(Offset, string)> {
    if |r| >= 3 && (r[0] == '+' || r[0] == '-') && IsDigit(r[1]) && IsDigit(r[2]) then
      var (minutes, rest) := ScanPart(':', r[3..]);
      Some((Offset(space, r[0], r[1..3], minutes), rest))
    else None
  }

  /** `(?:\s?[+-]\d\d(?::\d\d)?)?` */
  function ScanOffset(s: string): (Option<Offset>, string) {
    var space := if s != [] && IsSpace(s[0]) then Some(s[0]) else None;
    match ScanSigned(space, s[|OptChar(space)|..])
    case Some((o, rest)) => (Some(o), rest)
    case None => (None, s)
  }

  /** `[\sT]hh:mm` at the start of `s`. */
  predicate ClockAt(s: string) {
    && |s| >= 6 && (IsSpace(s[0]) || s[0] == 'T') && IsDigit(s[1]) && IsDigit(s[2]) && s[3] == ':'
    && IsDigit(s[4]) && IsDigit(s[5])
  }

  /** The optional time group. */
  function ScanTime(s: string): (Option<Time>, string) {
    if ClockAt(s) then
      var (seconds, r) := ScanSeconds(s[6..]);
      var (offset, rest) := ScanOffset(r);
      (Some(Time(s[0], s[1..3], s[4..6], seconds, offset)), rest)
    else (None, s)
  }

  /** The date `YYYY-MM-DD` at the start of `s`. */
  predicate DateAt(s: string) {
    && |s| >= 10 && IsDigit(s[0]) && IsDigit(s[1]) && IsDigit(s[2]) && IsDigit(s[3]) && s[4] == '-'
    && IsDigit(s[5]) && IsDigit(s[6]) && s[7] == '-' && IsDigit(s[8]) && IsDigit(s[9])
  }

  /** `(?:[zZ])?$`: the optional zone letter, when it is all that is left. */
  function ScanZone(s: string): Option<Option<char>> {
    if s == [] then Some(None)
    else if |s| == 1 && (s[0] == 'z' || s[0] == 'Z') then Some(Some(s[0]))
    else None
  }

  /** `RE_ISO8601.match(s)`: the groups, or `None` when `s` does not match. */
  function Scan(s: string): (r: Option<Stamp>)
    ensures r.Some? ==> |s| >= 10 && s[..10] == r.value.year + "-" + r.value.month + "-" + r.value.day
  {
    if !DateAt(s) then None
    else
      var (time, rest) := ScanTime(s[10..]);
      match ScanZone(rest)
      case None => None
      case Some(zone) => Some(Stamp(s[..4], s[5..7], s[8..10], time, zone))
  }

  // Soundness: what a scanner reads is well formed and is the text it consumed.

  lemma ScanPartSound(mark: char, s: string)
    ensures ScanPart(mark, s).0.Some? ==> TwoDigits(ScanPart(mark, s).0.value)
    ensures s == OptPart(mark, ScanPart(mark, s).0) + ScanPart(mark, s).1
  {
  }

  lemma ScanFractionSound(s: string)
    ensures ScanFraction(s).0.Some? ==> ScanFraction(s).0.value != [] && AllDigits(ScanFraction(s).0.value)
    ensures s == OptPart('.', ScanFraction(s).0) + ScanFraction(s).1
  {
  }

  lemma ScanSecondsSound(s: string)
    ensures SecondsOk(ScanSeconds(s).0)
    ensures s == RenderSeconds(ScanSeconds(s).0) + ScanSeconds(s).1
  {
    ScanPartSound(':', s);
    var r := ScanPart(':', s).1;
    ScanFractionSound(r);
  }

  lemma ScanSignedSound(space: Option<char>, r: string)
    requires ScanSigned(space, r).Some?
    ensures var (o, rest) := ScanSigned(space, r).value;
      && o.space == space && (o.sign == '+' || o.sign == '-') && TwoDigits(o.hours)
      && (o.minutes.Some? ==> TwoDigits(o.minutes.value))
      && r == [o.sign] + o.hours + (OptPart(':', o.minutes) + rest)
  {
    ScanPartSound(':', r[3..]);
    assert r == [r[0]] + r[1..3] + r[3..];
  }

  lemma ScanOffsetSound(s: string)
    ensures OffsetOk(ScanOffset(s).0)
    ensures s == RenderOffset(ScanOffset(s).0) + ScanOffset(s).1
  {
    var space := if s != [] && IsSpace(s[0]) then Some(s[0]) else None;
    var r := s[|OptChar(space)|..];
    if ScanSigned(space, r).Some? {
      ScanSignedSound(space, r);
      var (o, rest) := ScanSigned(space, r).value;
      assert s == OptChar(space) + r;
      OffsetText(o, rest);
    }
  }

  lemma ClockText(s: string)
    requires ClockAt(s)
    ensures s == [s[0]] + s[1..3] + ":" + s[4..6] + s[6..]
  {
  }

  lemma ScanTimeSound(s: string)
    ensures TimeOk(ScanTime(s).0)
    ensures s == RenderTime(ScanTime(s).0) + ScanTime(s).1
  {
    if ClockAt(s) {
      var r := ScanSeconds(s[6..]).1;
      ScanSecondsSound(s[6..]);
      ScanOffsetSound(r);
      ClockText(s);
    }
  }

  lemma DateText(s: string)
    requires DateAt(s)
    ensures s == s[..4] + "-" + s[5..7] + "-" + s[8..10] + s[10..]
  {
    assert s[..10] == s[..4] + "-" + s[5..7] + "-" + s[8..10];
  }

  lemma ScanZoneSound(s: string)
    requires ScanZone(s).Some?
    ensures s == OptChar(ScanZone(s).value)
  {
  }

  /** Whatever `Scan` accepts has well-formed groups that spell it back. */
  lemma ScanSound(s: string)
    requires Scan(s).Some?
    ensures StampOk(Scan(s).value) && Render(Scan(s).value) == s
  {
    var st := Scan(s).value;
    var r := s[10..];
    ScanTimeSound(r);
    ScanZoneSound(ScanTime(r).1);
    assert r == RenderTime(st.time) + OptChar(st.zone);
    DateText(s);
  }

  // Completeness: a scanner reads back exactly the group that was rendered, provided
  // the text that follows is what the expression allows there.

  /** What may follow the part before the zone: nothing, or the zone letter. */
  predicate ZoneNext(rest: string) {
    rest == [] || rest[0] == 'z' || rest[0] == 'Z'
  }

  /** What may follow a time's seconds: an offset or what may follow the offset. */
  predicate OffsetNext(rest: string) {
    ZoneNext(rest) || IsSpace(rest[0]) || rest[0] == '+' || rest[0] == '-'
  }

  lemma ScanPartIs(mark: char, p: Option<string>, rest: string)
    requires p.Some? ==> TwoDigits(p.value)
    requires p.None? ==> rest == [] || rest[0] != mark
    ensures ScanPart(mark, OptPart(mark, p) + rest) == (p, rest)
  {
    var s := OptPart(mark, p) + rest;
    if p.Some? {
      assert s[1..3] == p.value && s[3..] == rest;
    } else {
      assert s == rest;
    }
  }

  lemma ScanFractionIs(f: Option<string>, rest: string)
    requires f.Some? ==> f.value != [] && AllDigits(f.value)
    requires OffsetNext(rest)
    ensures ScanFraction(OptPart('.', f) + rest) == (f, rest)
  {
    var s := OptPart('.', f) + rest;
    if f.Some? {
      assert s[1..] == f.value + rest;
      DigitRunIs(f.value, rest);
      assert s[1..][..|f.value|] == f.value && s[1..][|f.value|..] == rest;
    } else {
      assert s == rest;
    }
  }

  lemma ScanSecondsIs(sec: Option<Seconds>, rest: string)
    requires SecondsOk(sec) && OffsetNext(rest)
    ensures ScanSeconds(RenderSeconds(sec) + rest) == (sec, rest)
  {
    if sec.Some? {
      SecondsPresent(sec.value, rest);
    } else {
      assert RenderSeconds(sec) + rest == rest;
      ScanPartIs(':', None, rest);
    }
  }

  lemma SecondsPresent(sec: Seconds, rest: string)
    requires SecondsOk(Some(sec)) && OffsetNext(rest)
    ensures ScanSeconds(RenderSeconds(Some(sec)) + rest) == (Some(sec), rest)
  {
    var f := OptPart('.', sec.fraction) + rest;
    assert RenderSeconds(Some(sec)) + rest == OptPart(':', Some(sec.digits)) + f;
    ScanPartIs(':', Some(sec.digits), f);
    ScanFractionIs(sec.fraction, rest);
  }

  lemma ScanOffsetIs(o: Option<Offset>, rest: string)
    requires OffsetOk(o) && ZoneNext(rest)
    ensures ScanOffset(RenderOffset(o) + rest) == (o, rest)
    ensures OffsetNext(RenderOffset(o) + rest)
  {
    if o.Some? {
      OffsetPresent(o.value, rest);
    } else {
      assert RenderOffset(o) + rest == rest;
    }
  }

  lemma OffsetPresent(o: Offset, rest: string)
    requires OffsetOk(Some(o)) && ZoneNext(rest)
    ensures ScanOffset(RenderOffset(Some(o)) + rest) == (Some(o), rest)
    ensures OffsetNext(RenderOffset(Some(o)) + rest)
  {
    var r := [o.sign] + o.hours + (OptPart(':', o.minutes) + rest);
    var s := OptChar(o.space) + r;
    assert RenderOffset(Some(o)) + rest == s by {
      OffsetText(o, rest);
    }
    SignedIs(o, rest);
    SpacedIs(o.space, r, o, rest);
  }

  /** The optional space in front of the sign is taken by the offset. */
  lemma SpacedIs(space: Option<char>, r: string, o: Offset, rest: string)
    requires space.Some? ==> IsSpace(space.value)
    requires r != [] && (r[0] == '+' || r[0] == '-')
    requires ScanSigned(space, r) == Some((o, rest))
    ensures ScanOffset(OptChar(space) + r) == (Some(o), rest)
    ensures OffsetNext(OptChar(space) + r)
  {
    var s := OptChar(space) + r;
    if space.Some? {
      assert s[0] == space.value && s[1..] == r;
    } else {
      assert s == r;
      assert !IsSpace(r[0]);
    }
  }

  lemma SignedIs(o: Offset, rest: string)
    requires OffsetOk(Some(o)) && ZoneNext(rest)
    ensures ScanSigned(o.space, [o.sign] + o.hours + (OptPart(':', o.minutes) + rest)) == Some((o, rest))
  {
    var m := OptPart(':', o.minutes) + rest;
    var r := [o.sign] + o.hours + m;
    assert r[1..3] == o.hours && r[3..] == m;
    ScanPartIs(':', o.minutes, rest);
  }

  lemma OffsetText(o: Offset, rest: string)
    ensures RenderOffset(Some(o)) + rest == OptChar(o.space) + ([o.sign] + o.hours + (OptPart(':', o.minutes) + rest))
  {
  }

  lemma ScanTimeIs(t: Option<Time>, rest: string)
    requires TimeOk(t) && ZoneNext(rest)
    ensures ScanTime(RenderTime(t) + rest) == (t, rest)
  {
    if t.Some? {
      TimePresent(t.value, rest);
    } else {
      assert RenderTime(t) + rest == rest;
    }
  }

  lemma TimePresent(t: Time, rest: string)
    requires TimeOk(Some(t)) && ZoneNext(rest)
    ensures ScanTime(RenderTime(Some(t)) + rest) == (Some(t), rest)
  {
    var tail := RenderOffset(t.offset) + rest;
    var r := RenderSeconds(t.seconds) + tail;
    var s := [t.sep] + t.hour + ":" + t.minute + r;
    assert ScanSeconds(r) == (t.seconds, tail) && ScanOffset(tail) == (t.offset, rest) by {
      ScanOffsetIs(t.offset, rest);
      ScanSecondsIs(t.seconds, tail);
    }
    assert RenderTime(Some(t)) + rest == s by {
      TimeText(t, rest);
    }
    ClockIs(t, r);
  }

  lemma TimeText(t: Time, rest: string)
    ensures RenderTime(Some(t)) + rest
      == [t.sep] + t.hour + ":" + t.minute + (RenderSeconds(t.seconds) + (RenderOffset(t.offset) + rest))
  {
  }

  lemma ClockIs(t: Time, r: string)
    requires TimeOk(Some(t))
    ensures var s := [t.sep] + t.hour + ":" + t.minute + r;
      ClockAt(s) && s[0] == t.sep && s[1..3] == t.hour && s[4..6] == t.minute && s[6..] == r
  {
  }

  /** Whatever well-formed groups spell is matched, and read back as those groups. */
  lemma ScanComplete(st: Stamp)
    requires StampOk(st)
    ensures Scan(Render(st)) == Some(st)
  {
    var z := OptChar(st.zone);
    var t := RenderTime(st.time);
    DatePrefix(st, t + z);
    ScanTimeIs(st.time, z);
  }

  /** The date group in front of `tail`, and where its fields sit. */
  lemma DatePrefix(st: Stamp, tail: string)
    requires FourDigits(st.year) && TwoDigits(st.month) && TwoDigits(st.day)
    ensures var s := st.year + "-" + st.month + "-" + st.day + tail;
      && DateAt(s) && s[..4] == st.year && s[5..7] == st.month && s[8..10] == st.day && s[10..] == tail
  {
  }

  /** A rendering starts with the year's first digit and ends with a digit or `Z`. */
  lemma RenderShape(st: Stamp)
    requires StampOk(st)
    ensures var s := Render(st); |s| >= 10 && DateAt(s) && !IsSpace(s[|s| - 1])
  {
    var s := Render(st);
    var tail := RenderTime(st.time) + OptChar(st.zone);
    DatePrefix(st, tail);
    if tail == [] {
      assert s[|s| - 1] == s[9];
    } else {
      assert s[|s| - 1] == tail[|tail| - 1];
      if st.zone.None? {
        assert tail == RenderTime(st.time);
        TimeEnds(st.time);
      }
    }
  }

  lemma TimeEnds(t: Option<Time>)
    requires TimeOk(t) && t.Some?
    ensures var r := RenderTime(t); r != [] && IsDigit(r[|r| - 1])
  {
    var t := t.value;
    var r := RenderTime(Some(t));
    var clock := [t.sep] + t.hour + ":" + t.minute;
    var more := RenderSeconds(t.seconds) + RenderOffset(t.offset);
    assert r == clock + more;
    if t.offset.Some? {
      var o := t.offset.value;
      var ro := RenderOffset(t.offset);
      assert ro == OptChar(o.space) + ([o.sign] + o.hours + OptPart(':', o.minutes));
      assert r[|r| - 1] == ro[|ro| - 1];
    } else if t.seconds.Some? {
      var sc := t.seconds.value;
      var rs := RenderSeconds(t.seconds);
      assert more == rs;
      assert r[|r| - 1] == rs[|rs| - 1];
      if sc.fraction.Some? {
        assert IsDigit(sc.fraction.value[|sc.fraction.value| - 1]);
      }
    } else {
      assert more == [];
      assert r == clock;
    }
  }
}
