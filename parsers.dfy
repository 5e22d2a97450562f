/** The value parsers: each has a `check`, which raises `ParseError` when the token does not
    hold a value of its kind, and a call, which checks and then converts. */
module Parsers {
  import opened Common
  import opened Text
  import opened KeyValues
  import Numerals
  import Durations
  import Iso8601

  /** What `float()` returns; its digits are not modelled. */
  type FloatValue(==, !new)

  /** What `dateutil.parser.parse` returns. */
  type DateTimeValue(==, !new)

  /** A Python value a parser returns or a declaration gives as a default. */
  datatype Value =
    | Str(s: string)
    | Bool(b: bool)
    | Int(i: int)
    | Float(f: FloatValue)
    | DateTime(d: DateTimeValue)
      /** a `timedelta`, in milliseconds */
    | Duration(ms: nat)
      /** any other object, known by its name */
    | Object(name: string)

  /** The outcome of `dateutil.parser.parse`: a datetime, or the message of its `ValueError`. */
  datatype Conversion = Converted(d: DateTimeValue) | Failed(message: string)

  /** The conversions this model takes as given: `float(s)` (`None` when it raises
      `ValueError`) and `dateutil.parser.parse(s)`. */
  datatype Externals = Externals(float: string -> Option<FloatValue>, datetime: string -> Conversion)

  datatype Kind = StringKind | BooleanKind | IntegerKind | FloatKind | DatetimeKind | TimedeltaKind | GenericKind

  /** A parser: its class and its `default` (`None` for `NOT_SET`). */
  datatype Parser = Parser(kind: Kind, default: Option<Value>)

  /** The order in which `GenericParser` tries the parsers. */
  const GenericOrder: seq<Kind> := [StringKind, BooleanKind, IntegerKind, FloatKind, DatetimeKind, TimedeltaKind]

  /** `OneLineParser.check` followed by `get_keyvalue(token).value`: a token of more than one
      line is refused at its second line; a first line without `=` or without a key at the
      first line. */
  function OneLineValue(token: seq<Line>): (r: Result<string>)
    requires token != []
    ensures |token| > 1 ==> r == Err(ErrorAt(token[1]))
    ensures |token| == 1 ==> r == (match GetKeyValue(token[0]) case Ok(kv) => Ok(kv.value) case Err(e) => Err(e))
  {
    if |token| > 1 then Err(ErrorAt(token[1]))
    else
      var kv :- GetKeyValue(token[0]);
      Ok(kv.value)
  }

  /** `StringParser.check`: at least two characters, the first a quote equal to the last. */
  predicate IsQuoted(v: string) {
    |v| >= 2 && (v[0] == '\'' || v[0] == '"') && v[0] == v[|v| - 1]
  }

  /** `BooleanParser.check`: `true` or `false` in any case. */
  predicate IsBoolean(v: string) {
    Lower(v) == "true" || Lower(v) == "false"
  }

  /** Whether a one-line value passes the check of a parser other than `GenericParser`. */
  predicate Accepts(kind: Kind, ext: Externals, v: string)
    requires kind != GenericKind
  {
    match kind
    case StringKind => IsQuoted(v)
    case BooleanKind => IsBoolean(v)
    case IntegerKind => Numerals.ParseInt(v).Some?
    case FloatKind => ext.float(v).Some?
    case DatetimeKind => Iso8601.Scan(v).Some?
    case TimedeltaKind => Durations.Match(v).Some?
  }

  /** The conversion a parser's call applies once its check has passed; the datetime
      conversion may still fail, with a comment, and a duration may overflow. */
  function Convert(kind: Kind, ext: Externals, first: Line, v: string): (r: Result<Value>)
    requires kind != GenericKind && Accepts(kind, ext, v)
    ensures r.Ok? ==> Produces(kind, r.value)
    ensures r.Err? && kind == DatetimeKind ==>
      ext.datetime(v).Failed? && r.error == ParseError(first.n, first.text, Some(ext.datetime(v).message))
    ensures r.Err? ==> kind == DatetimeKind || (kind == TimedeltaKind && r.error == OverflowError)
  {
    match kind
    case StringKind => Ok(Str(v[1..|v| - 1]))
    case BooleanKind => Ok(Bool(Lower(v) == "true"))
    case IntegerKind => Ok(Int(Numerals.ParseInt(v).value))
    case FloatKind => Ok(Float(ext.float(v).value))
    case DatetimeKind =>
      (match ext.datetime(v)
       case Converted(d) => Ok(DateTime(d))
       case Failed(message) => Err(ParseError(first.n, first.text, Some(message))))
    case TimedeltaKind =>
      var groups := Durations.Match(v).value;
      Durations.MatchIsRender(v);
      Durations.WellFormedOrdered(groups, -1);
      var ms :- Durations.ToTimedelta(groups);
      Ok(Duration(ms))
  }

  /** The Python type of what a parser of `kind` returns. */
  predicate Produces(kind: Kind, v: Value) {
    match kind
    case StringKind => v.Str?
    case BooleanKind => v.Bool?
    case IntegerKind => v.Int?
    case FloatKind => v.Float?
    case DatetimeKind => v.DateTime?
    case TimedeltaKind => v.Duration?
    case GenericKind => !v.Object?
  }

  /** `check(token)` of a parser other than `GenericParser`: the value, or the `ParseError`. */
  function CheckSimple(kind: Kind, ext: Externals, token: seq<Line>): (r: Result<string>)
    requires kind != GenericKind && token != []
    ensures |token| > 1 ==> r == Err(ErrorAt(token[1]))
    ensures |token| == 1 && r.Err? ==> r.error == ErrorAt(token[0])
    ensures r.Ok? ==> Accepts(kind, ext, r.value) && Trimmed(r.value)
  {
    var v :- OneLineValue(token);
    if Accepts(kind, ext, v) then Ok(v) else Err(ErrorAt(token[0]))
  }

  /** `parser(token)` for a parser other than `GenericParser`. */
  function CallSimple(kind: Kind, ext: Externals, token: seq<Line>): (r: Result<Value>)
    requires kind != GenericKind && token != []
    ensures r.Ok? ==> CheckSimple(kind, ext, token).Ok? && Produces(kind, r.value)
    ensures CheckSimple(kind, ext, token).Err? ==> r == Err(CheckSimple(kind, ext, token).error)
    ensures r.Err? && r.error.OverflowError? ==> kind == TimedeltaKind
    ensures r.Err? && CheckSimple(kind, ext, token).Ok? ==> kind == DatetimeKind || kind == TimedeltaKind
  {
    var v :- CheckSimple(kind, ext, token);
    Convert(kind, ext, token[0], v)
  }

  /** `GenericParser.check`: whether one of `kinds` accepts the token. */
  predicate AnyChecks(kinds: seq<Kind>, ext: Externals, token: seq<Line>)
    requires GenericKind !in kinds && token != []
  {
    kinds != [] && (CheckSimple(kinds[0], ext, token).Ok? || AnyChecks(kinds[1..], ext, token))
  }

  /** The loop of `GenericParser.__call__`: the first of `kinds` whose call returns; a
      `ParseError` moves on to the next, any other error escapes; when all fail, a
      `ParseError` at the token's first line. */
  function FirstSuccess(kinds: seq<Kind>, ext: Externals, token: seq<Line>): (r: Result<Value>)
    requires GenericKind !in kinds && token != []
    ensures r.Err? ==> r.error == ErrorAt(token[0]) || r.error == OverflowError
    ensures r.Ok? ==> Produces(GenericKind, r.value)
  {
    if kinds == [] then Err(ErrorAt(token[0]))
    else match CallSimple(kinds[0], ext, token)
      case Ok(v) => Ok(v)
      case Err(e) => if e.ParseError? then FirstSuccess(kinds[1..], ext, token) else Err(e)
  }

  /** `GenericParser()(token)`. */
  function CallGeneric(ext: Externals, token: seq<Line>): (r: Result<Value>)
    requires token != []
    ensures r.Err? ==> r.error == ErrorAt(token[0]) || r.error == OverflowError
    ensures r.Ok? ==> Produces(GenericKind, r.value)
  {
    if AnyChecks(GenericOrder, ext, token) then FirstSuccess(GenericOrder, ext, token)
    else Err(ErrorAt(token[0]))
  }

  /** `parser(token)`; the parser's default plays no part. */
  function Call(p: Parser, ext: Externals, token: seq<Line>): (r: Result<Value>)
    requires token != []
    ensures r.Ok? ==> Produces(p.kind, r.value)
    ensures r.Err? ==>
      || r.error == OverflowError
      || (r.error.ParseError? && (r.error.n == token[0].n || (|token| > 1 && r.error == ErrorAt(token[1]))))
  {
    if p.kind == GenericKind then CallGeneric(ext, token) else CallSimple(p.kind, ext, token)
  }

  /** A key as `get_keyvalue` reads it back: non-empty, without `=`, without surrounding
      whitespace. */
  predicate IsKey(key: string) {
    key != [] && '=' !in key && Trimmed(key)
  }

  /** The one-line token `key = value` on line `n`. */
  function Entry(n: nat, key: string, value: string): (token: seq<Line>)
    ensures |token| == 1
  {
    [Line(n, key + " = " + value)]
  }

  lemma EntryValue(n: nat, key: string, value: string)
    requires IsKey(key) && Trimmed(value)
    ensures OneLineValue(Entry(n, key, value)) == Ok(value)
  {
    GetKeyValueRoundTrip(n, key, value);
  }

  /** Once a one-line value passes the check, the call is its conversion. */
  lemma CallOnValue(kind: Kind, ext: Externals, token: seq<Line>, v: string)
    requires kind != GenericKind && token != [] && OneLineValue(token) == Ok(v) && Accepts(kind, ext, v)
    ensures CheckSimple(kind, ext, token) == Ok(v)
    ensures CallSimple(kind, ext, token) == Convert(kind, ext, token[0], v)
  {
  }

  /** A one-line value that fails the check makes the call raise `ParseError` at the
      token's line. */
  lemma CallRefused(kind: Kind, ext: Externals, token: seq<Line>, v: string)
    requires kind != GenericKind && token != [] && OneLineValue(token) == Ok(v) && !Accepts(kind, ext, v)
    ensures CallSimple(kind, ext, token) == Err(ErrorAt(token[0]))
  {
  }

  /** A quoted string reads back without its quotes. */
  lemma StringRoundTrip(ext: Externals, n: nat, key: string, q: char, s: string)
    requires IsKey(key) && (q == '\'' || q == '"')
    ensures CallSimple(StringKind, ext, Entry(n, key, [q] + s + [q])) == Ok(Str(s))
  {
    var v := [q] + s + [q];
    EntryValue(n, key, v);
    assert v[1..|v| - 1] == s;
  }

  lemma BooleanTrimmed(w: string)
    requires IsBoolean(w)
    ensures Trimmed(w) && w[0] != '\'' && w[0] != '"' && (w[0] == 't' || w[0] == 'T' || w[0] == 'f' || w[0] == 'F')
  {
    assert Lower(w)[0] == LowerChar(w[0]);
    assert Lower(w)[|w| - 1] == LowerChar(w[|w| - 1]);
  }

  /** `true` and `false`, in any case, read back as the boolean they name. */
  lemma BooleanRoundTrip(ext: Externals, n: nat, key: string, w: string)
    requires IsKey(key) && IsBoolean(w)
    ensures CallSimple(BooleanKind, ext, Entry(n, key, w)) == Ok(Bool(Lower(w) == "true"))
  {
    BooleanTrimmed(w);
    EntryValue(n, key, w);
  }

  lemma ShowIntShape(i: int)
    ensures var s := Numerals.ShowInt(i);
      s != [] && (s[0] == '-' || IsDigit(s[0])) && IsDigit(s[|s| - 1]) && Trimmed(s)
  {
    var d := Numerals.ShowNat(if i < 0 then -i else i);
    assert IsDigit(d[0]) && IsDigit(d[|d| - 1]);
  }

  /** `str(i)` reads back as `i`. */
  lemma IntegerRoundTrip(ext: Externals, n: nat, key: string, i: int)
    requires IsKey(key)
    ensures CallSimple(IntegerKind, ext, Entry(n, key, Numerals.ShowInt(i))) == Ok(Int(i))
  {
    var v := Numerals.ShowInt(i);
    var token := Entry(n, key, v);
    assert OneLineValue(token) == Ok(v) by {
      ShowIntShape(i);
      EntryValue(n, key, v);
    }
    assert Numerals.ParseInt(v) == Some(i) by {
      Numerals.ParseShowInt(i);
    }
    CallOnValue(IntegerKind, ext, token, v);
  }

  /** Digits grouped by an underscore read as the digits without it. */
  lemma IntegerGrouped(ext: Externals, n: nat, key: string, a: string, b: string)
    requires IsKey(key) && a != [] && b != [] && AllDigits(a) && AllDigits(b)
    ensures AllDigits(a + b)
    ensures CallSimple(IntegerKind, ext, Entry(n, key, a + "_" + b)) == Ok(Int(Numerals.DigitsValue(a + b)))
  {
    var v := a + "_" + b;
    GroupedText(a, b);
    EntryValue(n, key, v);
    Numerals.ParseIntGrouped(a, b);
    CallOnValue(IntegerKind, ext, Entry(n, key, v), v);
  }

  lemma GroupedText(a: string, b: string)
    requires a != [] && b != [] && AllDigits(a) && AllDigits(b)
    ensures Trimmed(a + "_" + b) && AllDigits(a + b)
  {
    var v := a + "_" + b;
    assert v[0] == a[0] && v[|v| - 1] == b[|b| - 1];
    assert forall i :: 0 <= i < |a + b| ==> (a + b)[i] == if i < |a| then a[i] else b[i - |a|];
  }

  /** Whatever `float()` makes of a one-line value is what `FloatParser` returns. */
  lemma FloatReads(ext: Externals, n: nat, key: string, v: string)
    requires IsKey(key) && Trimmed(v)
    ensures CallSimple(FloatKind, ext, Entry(n, key, v))
      == (match ext.float(v) case Some(f) => Ok(Float(f)) case None => Err(ParseError(n, key + " = " + v, None)))
  {
    EntryValue(n, key, v);
  }

  /** Every ISO 8601 form passes the check and is handed to the datetime conversion, whose
      failure message becomes the error's comment. */
  lemma DatetimeReads(ext: Externals, n: nat, key: string, st: Iso8601.Stamp)
    requires IsKey(key) && Iso8601.StampOk(st)
    ensures var v := Iso8601.Render(st);
      CallSimple(DatetimeKind, ext, Entry(n, key, v))
        == (match ext.datetime(v)
            case Converted(d) => Ok(DateTime(d))
            case Failed(m) => Err(ParseError(n, key + " = " + v, Some(m))))
  {
    var v := Iso8601.Render(st);
    var token := Entry(n, key, v);
    assert OneLineValue(token) == Ok(v) by {
      Iso8601.RenderShape(st);
      EntryValue(n, key, v);
    }
    assert Iso8601.Scan(v).Some? by {
      Iso8601.ScanComplete(st);
    }
    CallOnValue(DatetimeKind, ext, token, v);
  }

  /** A written duration reads back as the sum of its groups, unless that exceeds
      `timedelta`'s range. */
  lemma TimedeltaRoundTrip(ext: Externals, n: nat, key: string, cs: seq<Durations.Component>)
    requires IsKey(key) && Durations.WellFormed(cs, -1) && cs != []
    ensures Durations.DigitGroups(cs)
    ensures CallSimple(TimedeltaKind, ext, Entry(n, key, Durations.Render(cs)))
      == if Durations.Total(cs) / Durations.Factor(Durations.Days) <= Durations.MaxDays
         then Ok(Duration(Durations.Total(cs))) else Err(OverflowError)
  {
    Durations.WellFormedOrdered(cs, -1);
    var v := Durations.Render(cs);
    var token := Entry(n, key, v);
    assert OneLineValue(token) == Ok(v) by {
      Durations.RenderShape(cs, -1);
      EntryValue(n, key, v);
    }
    assert Durations.Match(v) == Some(cs) by {
      Durations.RenderMatches(cs);
    }
    CallOnValue(TimedeltaKind, ext, token, v);
  }

  /** A parser that refuses the token fails its call too: `GenericParser`'s own check
      changes nothing. */
  lemma {:induction false} NoCheckNoSuccess(kinds: seq<Kind>, ext: Externals, token: seq<Line>)
    requires GenericKind !in kinds && token != [] && !AnyChecks(kinds, ext, token)
    ensures FirstSuccess(kinds, ext, token) == Err(ErrorAt(token[0]))
  {
    if kinds != [] {
      NoCheckNoSuccess(kinds[1..], ext, token);
    }
  }

  lemma GenericIsFirstSuccess(ext: Externals, token: seq<Line>)
    requires token != []
    ensures CallGeneric(ext, token) == FirstSuccess(GenericOrder, ext, token)
  {
    if !AnyChecks(GenericOrder, ext, token) {
      NoCheckNoSuccess(GenericOrder, ext, token);
    }
  }

  /** The value `GenericParser` returns comes from the first parser whose call returns; all
      before it raised `ParseError`. */
  lemma {:induction false} FirstSuccessWitness(kinds: seq<Kind>, ext: Externals, token: seq<Line>) returns (i: nat)
    requires GenericKind !in kinds && token != [] && FirstSuccess(kinds, ext, token).Ok?
    ensures i < |kinds| && CallSimple(kinds[i], ext, token) == FirstSuccess(kinds, ext, token)
    ensures forall j :: 0 <= j < i ==> CallSimple(kinds[j], ext, token).Err? && CallSimple(kinds[j], ext, token).error.ParseError?
  {
    if CallSimple(kinds[0], ext, token).Ok? {
      i := 0;
    } else {
      var k := FirstSuccessWitness(kinds[1..], ext, token);
      i := k + 1;
      forall j | 0 <= j < i
        ensures CallSimple(kinds[j], ext, token).Err? && CallSimple(kinds[j], ext, token).error.ParseError?
      {
        if j > 0 {
          assert kinds[j] == kinds[1..][j - 1];
        }
      }
    }
  }

  /** Conversely, the first parser whose call returns decides the result. */
  lemma {:induction false} FirstSuccessAt(kinds: seq<Kind>, ext: Externals, token: seq<Line>, i: nat)
    requires GenericKind !in kinds && token != [] && i < |kinds|
    requires forall j :: 0 <= j < i ==> CallSimple(kinds[j], ext, token).Err? && CallSimple(kinds[j], ext, token).error.ParseError?
    requires CallSimple(kinds[i], ext, token).Ok?
    ensures FirstSuccess(kinds, ext, token) == CallSimple(kinds[i], ext, token)
  {
    if i > 0 {
      assert CallSimple(kinds[0], ext, token).Err?;
      forall j | 0 <= j < i - 1
        ensures CallSimple(kinds[1..][j], ext, token).Err? && CallSimple(kinds[1..][j], ext, token).error.ParseError?
      {
        assert kinds[1..][j] == kinds[j + 1];
      }
      FirstSuccessAt(kinds[1..], ext, token, i - 1);
    }
  }

  lemma {:induction false} MultiLineNoCheck(kinds: seq<Kind>, ext: Externals, token: seq<Line>)
    requires GenericKind !in kinds && |token| > 1
    ensures !AnyChecks(kinds, ext, token)
  {
    if kinds != [] {
      MultiLineNoCheck(kinds[1..], ext, token);
    }
  }

  /** A token of several lines: every one-line parser refuses it at its second line, and
      `GenericParser` then refuses it at its first. */
  lemma GenericMultiLine(ext: Externals, token: seq<Line>)
    requires |token| > 1
    ensures CallGeneric(ext, token) == Err(ErrorAt(token[0]))
  {
    MultiLineNoCheck(GenericOrder, ext, token);
  }

  /** A `ParseError` from the first parser hands the token to the next. */
  lemma FirstSuccessSkip(kinds: seq<Kind>, ext: Externals, token: seq<Line>)
    requires GenericKind !in kinds && token != [] && kinds != []
    requires CallSimple(kinds[0], ext, token).Err? && CallSimple(kinds[0], ext, token).error.ParseError?
    ensures FirstSuccess(kinds, ext, token) == FirstSuccess(kinds[1..], ext, token)
  {
  }

  /** `GenericParser` reads a quoted value as a string. */
  lemma GenericReadsQuoted(ext: Externals, n: nat, key: string, q: char, s: string)
    requires IsKey(key) && (q == '\'' || q == '"')
    ensures CallGeneric(ext, Entry(n, key, [q] + s + [q])) == Ok(Str(s))
  {
    var token := Entry(n, key, [q] + s + [q]);
    GenericIsFirstSuccess(ext, token);
    StringRoundTrip(ext, n, key, q, s);
  }

  /** `GenericParser` reads `true` and `false`, in any case, as booleans. */
  lemma GenericReadsBoolean(ext: Externals, n: nat, key: string, w: string)
    requires IsKey(key) && IsBoolean(w)
    ensures CallGeneric(ext, Entry(n, key, w)) == Ok(Bool(Lower(w) == "true"))
  {
    var token := Entry(n, key, w);
    BooleanTrimmed(w);
    EntryValue(n, key, w);
    GenericIsFirstSuccess(ext, token);
    CallRefused(StringKind, ext, token, w);
    FirstSuccessSkip(GenericOrder, ext, token);
    BooleanRoundTrip(ext, n, key, w);
    assert GenericOrder[1..][0] == BooleanKind;
  }

  lemma IntegerText(i: int)
    ensures var v := Numerals.ShowInt(i); Trimmed(v) && !IsQuoted(v) && !IsBoolean(v)
  {
    var v := Numerals.ShowInt(i);
    ShowIntShape(i);
    assert Lower(v)[0] == LowerChar(v[0]);
  }

  /** `GenericParser` reads an integer as an integer, not as a float: `IntegerParser` comes
      first. */
  lemma GenericReadsInteger(ext: Externals, n: nat, key: string, i: int)
    requires IsKey(key)
    ensures CallGeneric(ext, Entry(n, key, Numerals.ShowInt(i))) == Ok(Int(i))
  {
    var v := Numerals.ShowInt(i);
    var token := Entry(n, key, v);
    IntegerText(i);
    EntryValue(n, key, v);
    GenericIsFirstSuccess(ext, token);
    CallRefused(StringKind, ext, token, v);
    FirstSuccessSkip(GenericOrder, ext, token);
    CallRefused(BooleanKind, ext, token, v);
    FirstSuccessSkip(GenericOrder[1..], ext, token);
    IntegerRoundTrip(ext, n, key, i);
    assert GenericOrder[1..][1..][0] == IntegerKind;
  }

  lemma DurationText(cs: seq<Durations.Component>)
    requires Durations.WellFormed(cs, -1) && cs != []
    ensures var v := Durations.Render(cs);
      Trimmed(v) && !IsQuoted(v) && !IsBoolean(v) && Numerals.ParseInt(v).None? && Iso8601.Scan(v).None?
  {
    var v := Durations.Render(cs);
    Durations.RenderShape(cs, -1);
    assert Lower(v)[0] == LowerChar(v[0]);
    assert !IsDigit(v[|v| - 1]);
    assert !Iso8601.DateAt(v) by {
      if |v| >= 10 {
        assert v[4] in v;
      }
    }
  }

  /** A value every earlier parser refuses falls through to `TimedeltaParser`, whose error,
      `OverflowError` included, is then `GenericParser`'s. */
  lemma GenericFallsToTimedelta(ext: Externals, token: seq<Line>, v: string)
    requires token != [] && OneLineValue(token) == Ok(v)
    requires !IsQuoted(v) && !IsBoolean(v) && Numerals.ParseInt(v).None?
    requires ext.float(v).None? && Iso8601.Scan(v).None?
    ensures CallGeneric(ext, token) == FirstSuccess([TimedeltaKind], ext, token)
  {
    GenericIsFirstSuccess(ext, token);
    var rest := GenericOrder;
    CallRefused(StringKind, ext, token, v);
    FirstSuccessSkip(rest, ext, token);
    rest := rest[1..];
    CallRefused(BooleanKind, ext, token, v);
    FirstSuccessSkip(rest, ext, token);
    rest := rest[1..];
    CallRefused(IntegerKind, ext, token, v);
    FirstSuccessSkip(rest, ext, token);
    rest := rest[1..];
    CallRefused(FloatKind, ext, token, v);
    FirstSuccessSkip(rest, ext, token);
    rest := rest[1..];
    CallRefused(DatetimeKind, ext, token, v);
    FirstSuccessSkip(rest, ext, token);
    rest := rest[1..];
    assert rest == [TimedeltaKind];
  }

  /** `GenericParser` reads a written duration as a `timedelta`, and lets `timedelta`'s
      `OverflowError` escape, when `float()` refuses the text, as Python's `float()` does. */
  lemma GenericReadsDuration(ext: Externals, n: nat, key: string, cs: seq<Durations.Component>)
    requires IsKey(key) && Durations.WellFormed(cs, -1) && cs != []
    requires ext.float(Durations.Render(cs)).None?
    ensures Durations.DigitGroups(cs)
    ensures CallGeneric(ext, Entry(n, key, Durations.Render(cs)))
      == if Durations.Total(cs) / Durations.Factor(Durations.Days) <= Durations.MaxDays
         then Ok(Duration(Durations.Total(cs))) else Err(OverflowError)
  {
    var v := Durations.Render(cs);
    var token := Entry(n, key, v);
    DurationText(cs);
    EntryValue(n, key, v);
    GenericFallsToTimedelta(ext, token, v);
    TimedeltaRoundTrip(ext, n, key, cs);
  }
}
