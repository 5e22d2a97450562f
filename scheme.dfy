/** The scheme containers: a `Section` maps keys to parsers and parses a section body; a
    `Zini` maps section names to sections and parses a whole text. */
module Scheme {
  import opened Common
  import opened Text
  import opened KeyValues
  import opened Parsers
  import BlockTokenizer
  import SectionTokenizer

  /** The Python types a declaration can name. `OtherType` is any type outside the table of
      `Section.parsers`. */
  datatype PyType = StrType | BoolType | IntType | FloatType | DatetimeType | TimedeltaType | OtherType(name: string)

  /** `issubclass` among the types of the table: `bool` is a subclass of `int`. */
  predicate IsSubclass(t: PyType, u: PyType) {
    t == u || (t == BoolType && u == IntType)
  }

  /** `type(v)` for a value. */
  function TypeOf(v: Value): PyType {
    match v
    case Str(_) => StrType
    case Bool(_) => BoolType
    case Int(_) => IntType
    case Float(_) => FloatType
    case DateTime(_) => DatetimeType
    case Duration(_) => TimedeltaType
    case Object(name) => OtherType(name)
  }

  /** `Section.parsers`, in its order. */
  const ParserTable: seq<(PyType, Kind)> := [
    (StrType, StringKind), (BoolType, BooleanKind), (IntType, IntegerKind),
    (FloatType, FloatKind), (DatetimeType, DatetimeKind), (TimedeltaType, TimedeltaKind)]

  /** The parser class of the first entry of `table` whose type `t` is a subclass of. */
  function FirstMatch(t: PyType, table: seq<(PyType, Kind)>): (r: Option<Kind>)
    ensures r.Some? ==> exists i :: 0 <= i < |table| && IsSubclass(t, table[i].0) && table[i].1 == r.value
    ensures r.None? ==> forall i :: 0 <= i < |table| ==> !IsSubclass(t, table[i].0)
  {
    if table == [] then None
    else if IsSubclass(t, table[0].0) then Some(table[0].1)
    else FirstMatch(t, table[1..])
  }

  /** What `get_parser` is given: a type, or a default value. */
  datatype Declared = AType(t: PyType) | AValue(v: Value)

  /** What `Section.__setitem__` is given: a parser, or anything else, which goes through
      `get_parser`. */
  datatype Decl = UseParser(parser: Parser) | Declare(declared: Declared)

  /** `Section.get_parser`: a type gives its parser without a default, a value gives the
      parser of its type with the value as default; anything outside the table gives a
      `GenericParser` whose default is the thing itself. */
  function GetParser(d: Declared): (p: Parser)
    ensures d.AValue? ==> p.default == Some(d.v)
    ensures d.AValue? && !d.v.Object? ==> p.kind != GenericKind && Produces(p.kind, d.v)
    ensures d.AType? ==> (p.kind == GenericKind <==> d.t.OtherType?)
    ensures d.AType? ==> p.default == if d.t.OtherType? then Some(Object(d.t.name)) else None
  {
    var t := if d.AType? then d.t else TypeOf(d.v);
    match FirstMatch(t, ParserTable)
    case Some(kind) => Parser(kind, if d.AType? then None else Some(d.v))
    case None => Parser(GenericKind, Some(if d.AType? then Object(t.name) else d.v))
  }

  /** A declared type's parser returns values of that type. */
  lemma ParserForType(t: PyType, v: Value)
    requires GetParser(AType(t)).kind != GenericKind && Produces(GetParser(AType(t)).kind, v)
    ensures TypeOf(v) == t
  {
  }

  /** `bool` is a subclass of `int`, yet a boolean declaration gets `BooleanParser`: the
      table lists `bool` first, and without that entry `int` would catch it. */
  lemma BoolBeforeInt(b: bool)
    ensures IsSubclass(BoolType, IntType)
    ensures GetParser(AType(BoolType)) == Parser(BooleanKind, None)
    ensures GetParser(AValue(Bool(b))) == Parser(BooleanKind, Some(Bool(b)))
    ensures FirstMatch(BoolType, ParserTable[..1] + ParserTable[2..]) == Some(IntegerKind)
  {
    assert (ParserTable[..1] + ParserTable[2..])[1] == (IntType, IntegerKind);
  }

  function ParserOf(d: Decl): Parser {
    match d
    case UseParser(p) => p
    case Declare(x) => GetParser(x)
  }

  /** The keys of a sequence of declarations. */
  function DeclKeys(decls: seq<(string, Decl)>): (ks: seq<string>)
    ensures |ks| == |decls| && forall i :: 0 <= i < |decls| ==> ks[i] == decls[i].0
  {
    seq(|decls|, i requires 0 <= i < |decls| => decls[i].0)
  }

  /** `data` after `section[key] = decl` for each declaration in turn. */
  function DeclareAll(data: map<string, Parser>, decls: seq<(string, Decl)>): map<string, Parser>
    decreases |decls|
  {
    if decls == [] then data else DeclareAll(data[decls[0].0 := ParserOf(decls[0].1)], decls[1..])
  }

  /** The last declaration of a key decides its parser; a key declared nowhere keeps its
      entry. */
  lemma {:induction false} DeclareAllLast(data: map<string, Parser>, decls: seq<(string, Decl)>, k: string)
    ensures k in DeclareAll(data, decls) <==> k in data || k in DeclKeys(decls)
    ensures k !in DeclKeys(decls) && k in data ==> DeclareAll(data, decls)[k] == data[k]
    ensures forall i :: 0 <= i < |decls| && decls[i].0 == k && k !in DeclKeys(decls[i + 1..]) ==>
      DeclareAll(data, decls)[k] == ParserOf(decls[i].1)
    decreases |decls|
  {
    if decls != [] {
      var data' := data[decls[0].0 := ParserOf(decls[0].1)];
      DeclareAllLast(data', decls[1..], k);
      assert DeclKeys(decls) == [decls[0].0] + DeclKeys(decls[1..]);
      forall i | 0 <= i < |decls| && decls[i].0 == k && k !in DeclKeys(decls[i + 1..])
        ensures DeclareAll(data, decls)[k] == ParserOf(decls[i].1)
      {
        if i > 0 {
          assert decls[1..][i - 1] == decls[i] && decls[1..][i..] == decls[i + 1..];
        } else if k in DeclKeys(decls[1..]) {
          // With i == 0 the tail decls[1..] is decls[i + 1..], which was just assumed not
          // to declare k: this branch cannot be reached.
          assert false;
        }
      }
    }
  }

  /** The parser `Section.__call__` uses for a key: the declared one, or a `GenericParser`
      without default. */
  function ParserFor(data: map<string, Parser>, key: string): Parser {
    if key in data then data[key] else Parser(GenericKind, None)
  }

  /** `get_defaults()`: the default of every parser that has one. */
  function Defaults(data: map<string, Parser>): (d: map<string, Value>)
    ensures forall k :: k in d <==> k in data && data[k].default.Some?
  {
    map k | k in data && data[k].default.Some? :: data[k].default.value
  }

  type Token = BlockTokenizer.Token

  predicate NonEmpty(tokens: seq<Token>) {
    forall i :: 0 <= i < |tokens| ==> tokens[i] != []
  }

  /** The key of a token, as `get_key` reads it. */
  function TokenKey(t: Token): Result<string>
    requires t != []
  {
    GetKey(t[0])
  }

  /** The keys the tokens name. */
  function KeysOf(tokens: seq<Token>): set<string> {
    set t | t in tokens && t != [] && TokenKey(t).Ok? :: TokenKey(t).value
  }

  /** What a parser makes of a token, for the given conversions. */
  function ParseToken(ext: Externals): (Parser, Token) --> Result<Value> {
    (p: Parser, t: Token) requires t != [] => Call(p, ext, t)
  }

  /** `parse` is defined on every non-empty token. */
  ghost predicate Total(parse: (Parser, Token) --> Result<Value>) {
    forall p, t :: t != [] ==> parse.requires(p, t)
  }

  /** The dispatch of the value parsers is defined on every token and gives what `Call` gives. */
  lemma ParseTokenTotal(ext: Externals)
    ensures Total(ParseToken(ext))
    ensures forall p, t :: t != [] ==> ParseToken(ext)(p, t) == Call(p, ext, t)
  {
  }

  /** The loop of `Section.__call__` over `tokens`, from the result `acc`: each token's key
      and value, or the first error. */
  function Apply(data: map<string, Parser>, parse: (Parser, Token) --> Result<Value>, tokens: seq<Token>, acc: map<string, Value>): (r: Result<map<string, Value>>)
    requires NonEmpty(tokens) && Total(parse)
    ensures r.Ok? ==> forall k :: k in acc ==> k in r.value
    decreases |tokens|
  {
    if tokens == [] then Ok(acc)
    else
      var t := tokens[0];
      var key :- TokenKey(t);
      var v :- parse(ParserFor(data, key), t);
      Apply(data, parse, tokens[1..], acc[key := v])
  }

  /** One round of the token loop: the token's key and value, or the first error. */
  lemma ApplyStep(data: map<string, Parser>, parse: (Parser, Token) --> Result<Value>, tokens: seq<Token>, i: nat, acc: map<string, Value>)
    requires NonEmpty(tokens) && Total(parse) && i < |tokens|
    ensures TokenKey(tokens[i]).Err? ==> Apply(data, parse, tokens[i..], acc) == Err(TokenKey(tokens[i]).error)
    ensures TokenKey(tokens[i]).Ok? ==>
      var key := TokenKey(tokens[i]).value;
      var v := parse(ParserFor(data, key), tokens[i]);
      && (v.Err? ==> Apply(data, parse, tokens[i..], acc) == Err(v.error))
      && (v.Ok? ==> Apply(data, parse, tokens[i..], acc) == Apply(data, parse, tokens[i + 1..], acc[key := v.value]))
  {
    assert tokens[i..][0] == tokens[i] && tokens[i..][1..] == tokens[i + 1..];
  }

  lemma TokensNonEmpty(lines: seq<Line>)
    ensures NonEmpty(BlockTokenizer.Tokenize(lines).tokens)
  {
    var tokens := BlockTokenizer.Tokenize(lines).tokens;
    BlockTokenizer.TokenizeIndentation(lines, 0);
    forall i | 0 <= i < |tokens|
      ensures tokens[i] != []
    {
      assert tokens[i] in tokens;
    }
  }

  /** `Section.__call__(lines)`: the defaults, overridden by the parsed tokens; an error of a
      token wins over the tokenizer's error after it. */
  function SectionCall(data: map<string, Parser>, parse: (Parser, Token) --> Result<Value>, lines: seq<Line>): (r: Result<map<string, Value>>)
    requires Total(parse)
    ensures r.Ok? ==> forall k :: k in Defaults(data) ==> k in r.value
  {
    var ts := BlockTokenizer.Tokenize(lines);
    TokensNonEmpty(lines);
    var result :- Apply(data, parse, ts.tokens, Defaults(data));
    if ts.error.Some? then Err(ts.error.value) else Ok(result)
  }

  /** The keys an error-free run of `Apply` adds are the keys of the tokens. */
  lemma {:induction false} ApplyKeys(data: map<string, Parser>, parse: (Parser, Token) --> Result<Value>, tokens: seq<Token>, acc: map<string, Value>)
    requires NonEmpty(tokens) && Total(parse) && Apply(data, parse, tokens, acc).Ok?
    ensures forall i :: 0 <= i < |tokens| ==> TokenKey(tokens[i]).Ok?
    ensures forall k :: k in Apply(data, parse, tokens, acc).value <==> k in acc || k in KeysOf(tokens)
    decreases |tokens|
  {
    if tokens != [] {
      var key := TokenKey(tokens[0]).value;
      var v := parse(ParserFor(data, key), tokens[0]).value;
      ApplyKeys(data, parse, tokens[1..], acc[key := v]);
      assert forall j :: 0 <= j < |tokens[1..]| ==> tokens[1..][j] == tokens[j + 1];
      KeysOfCons(tokens);
    }
  }

  lemma KeysOfCons(tokens: seq<Token>)
    requires tokens != [] && tokens[0] != [] && TokenKey(tokens[0]).Ok?
    ensures forall k :: k in KeysOf(tokens) <==> k == TokenKey(tokens[0]).value || k in KeysOf(tokens[1..])
  {
    assert tokens == [tokens[0]] + tokens[1..];
    assert forall t :: t in tokens <==> t == tokens[0] || t in tokens[1..];
  }

  /** A key no token names keeps its entry in `acc`. */
  lemma {:induction false} ApplyUntouched(data: map<string, Parser>, parse: (Parser, Token) --> Result<Value>, tokens: seq<Token>, acc: map<string, Value>, k: string)
    requires NonEmpty(tokens) && Total(parse) && Apply(data, parse, tokens, acc).Ok?
    requires forall j {:trigger TokenKey(tokens[j])} :: 0 <= j < |tokens| ==> TokenKey(tokens[j]) != Ok(k)
    ensures k in Apply(data, parse, tokens, acc).value <==> k in acc
    ensures k in acc ==> Apply(data, parse, tokens, acc).value[k] == acc[k]
    decreases |tokens|
  {
    if tokens != [] {
      var key := TokenKey(tokens[0]).value;
      var v := parse(ParserFor(data, key), tokens[0]).value;
      assert forall j :: 0 <= j < |tokens[1..]| ==> tokens[1..][j] == tokens[j + 1];
      ApplyUntouched(data, parse, tokens[1..], acc[key := v], k);
    }
  }

  /** The last token that names a key decides its value: later duplicates override earlier
      ones and parsed values override defaults. */
  lemma {:induction false} ApplyLast(data: map<string, Parser>, parse: (Parser, Token) --> Result<Value>, tokens: seq<Token>, acc: map<string, Value>, k: string, i: nat)
    requires NonEmpty(tokens) && Total(parse) && Apply(data, parse, tokens, acc).Ok?
    requires i < |tokens| && TokenKey(tokens[i]) == Ok(k)
    requires forall j {:trigger TokenKey(tokens[j])} :: i < j < |tokens| ==> TokenKey(tokens[j]) != Ok(k)
    ensures parse(ParserFor(data, k), tokens[i]).Ok? && k in Apply(data, parse, tokens, acc).value
    ensures Apply(data, parse, tokens, acc).value[k] == parse(ParserFor(data, k), tokens[i]).value
    decreases |tokens|
  {
    var key := TokenKey(tokens[0]).value;
    var v := parse(ParserFor(data, key), tokens[0]).value;
    var rest := tokens[1..];
    assert NonEmpty(rest) by {
      forall j | 0 <= j < |rest| ensures rest[j] != [] {
        assert rest[j] == tokens[j + 1];
      }
    }
    assert Apply(data, parse, tokens, acc) == Apply(data, parse, rest, acc[key := v]);
    if i == 0 {
      assert key == k;
      forall j | 0 <= j < |rest| ensures TokenKey(rest[j]) != Ok(k) {
        assert rest[j] == tokens[j + 1];
      }
      ApplyUntouched(data, parse, rest, acc[key := v], k);
    } else {
      assert rest[i - 1] == tokens[i];
      forall j | i - 1 < j < |rest| ensures TokenKey(rest[j]) != Ok(k) {
        assert rest[j] == tokens[j + 1];
      }
      ApplyLast(data, parse, rest, acc[key := v], k, i - 1);
    }
  }

  /** The keys of a section's result are its declared defaults and its parsed keys; a key
      that no token names keeps its default. */
  lemma SectionCallKeys(data: map<string, Parser>, parse: (Parser, Token) --> Result<Value>, lines: seq<Line>, k: string)
    requires Total(parse) && SectionCall(data, parse, lines).Ok?
    ensures var tokens := BlockTokenizer.Tokenize(lines).tokens;
      && (forall k :: k in SectionCall(data, parse, lines).value <==> k in Defaults(data) || k in KeysOf(tokens))
      && ((forall i :: 0 <= i < |tokens| ==> tokens[i] == [] || TokenKey(tokens[i]) != Ok(k)) && k in Defaults(data) ==>
            SectionCall(data, parse, lines).value[k] == Defaults(data)[k])
  {
    var tokens := BlockTokenizer.Tokenize(lines).tokens;
    TokensNonEmpty(lines);
    ApplyKeys(data, parse, tokens, Defaults(data));
    if (forall i :: 0 <= i < |tokens| ==> tokens[i] == [] || TokenKey(tokens[i]) != Ok(k)) && k in Defaults(data) {
      ApplyUntouched(data, parse, tokens, Defaults(data), k);
    }
  }

  /** The last token that names a key gives its value in the section's result. */
  lemma SectionCallLast(data: map<string, Parser>, parse: (Parser, Token) --> Result<Value>, lines: seq<Line>, k: string, i: nat)
    requires Total(parse) && SectionCall(data, parse, lines).Ok?
    requires var tokens := BlockTokenizer.Tokenize(lines).tokens;
      && i < |tokens| && tokens[i] != [] && TokenKey(tokens[i]) == Ok(k)
      && forall j :: i < j < |tokens| ==> tokens[j] == [] || TokenKey(tokens[j]) != Ok(k)
    ensures var t := BlockTokenizer.Tokenize(lines).tokens[i];
      t != [] && parse(ParserFor(data, k), t).Ok? && k in SectionCall(data, parse, lines).value
      && SectionCall(data, parse, lines).value[k] == parse(ParserFor(data, k), t).value
  {
    TokensNonEmpty(lines);
    ApplyLast(data, parse, BlockTokenizer.Tokenize(lines).tokens, Defaults(data), k, i);
  }

  /** A section body without tokens gives the defaults. */
  lemma SectionCallBlank(data: map<string, Parser>, parse: (Parser, Token) --> Result<Value>, lines: seq<Line>)
    requires Total(parse)
    requires forall i :: 0 <= i < |lines| ==> BlockTokenizer.IsBlank(lines[i].text)
    ensures SectionCall(data, parse, lines) == Ok(Defaults(data))
  {
    BlankTokens(lines, 0);
  }

  lemma {:induction false} BlankTokens(lines: seq<Line>, i: nat)
    requires i <= |lines| && forall m :: i <= m < |lines| ==> BlockTokenizer.IsBlank(lines[m].text)
    ensures BlockTokenizer.TokenizeFrom(lines, i) == BlockTokenizer.Tokens([], None)
    decreases |lines| - i
  {
    if i < |lines| {
      BlankTokens(lines, i + 1);
    }
  }

  /** One section of the text, parsed with the scheme as it stands: a name the scheme does
      not declare gets the empty section `__getitem__` creates. */
  function SchemeFor(scheme: map<string, map<string, Parser>>, name: string): map<string, Parser> {
    if name in scheme then scheme[name] else map[]
  }

  /** The first loop of `Zini.parse`: each section of the text, in order, or the first
      error. A later section of the same name replaces an earlier one. */
  function ParseSections(scheme: map<string, map<string, Parser>>, parse: (Parser, Token) --> Result<Value>,
                         secs: seq<SectionTokenizer.SectionText>, acc: map<string, map<string, Value>>): (r: Result<map<string, map<string, Value>>>)
    requires Total(parse)
    ensures r.Ok? ==> forall k :: k in acc ==> k in r.value
    decreases |secs|
  {
    if secs == [] then Ok(acc)
    else
      var v :- SectionCall(SchemeFor(scheme, secs[0].name), parse, secs[0].body);
      ParseSections(scheme, parse, secs[1..], acc[secs[0].name := v])
  }

  /** The names of the sections of the text. */
  function Names(secs: seq<SectionTokenizer.SectionText>): set<string> {
    set s | s in secs :: s.name
  }

  /** One round of the section loop: the first remaining section decides the outcome. */
  lemma ParseSectionsStep(scheme: map<string, map<string, Parser>>, parse: (Parser, Token) --> Result<Value>, secs: seq<SectionTokenizer.SectionText>,
                          i: nat, acc: map<string, map<string, Value>>, v: Result<map<string, Value>>)
    requires Total(parse) && i < |secs| && v == SectionCall(SchemeFor(scheme, secs[i].name), parse, secs[i].body)
    ensures v.Err? ==> ParseSections(scheme, parse, secs[i..], acc) == Err(v.error)
    ensures v.Ok? ==> ParseSections(scheme, parse, secs[i..], acc) == ParseSections(scheme, parse, secs[i + 1..], acc[secs[i].name := v.value])
    ensures Visited(scheme, parse, secs[i..]) == if v.Err? then 1 else 1 + Visited(scheme, parse, secs[i + 1..])
  {
    assert secs[i..][1..] == secs[i + 1..];
  }

  lemma {:induction false} ParseSectionsKeys(scheme: map<string, map<string, Parser>>, parse: (Parser, Token) --> Result<Value>,
                                             secs: seq<SectionTokenizer.SectionText>, acc: map<string, map<string, Value>>)
    requires Total(parse) && ParseSections(scheme, parse, secs, acc).Ok?
    ensures forall k :: k in ParseSections(scheme, parse, secs, acc).value <==> k in acc || k in Names(secs)
    decreases |secs|
  {
    if secs != [] {
      var v := SectionCall(SchemeFor(scheme, secs[0].name), parse, secs[0].body).value;
      ParseSectionsKeys(scheme, parse, secs[1..], acc[secs[0].name := v]);
      assert forall s :: s in secs ==> s == secs[0] || s in secs[1..];
      assert forall k :: k in Names(secs) <==> k == secs[0].name || k in Names(secs[1..]);
    }
  }

  /** A section name no section of the text carries keeps its entry. */
  lemma {:induction false} ParseSectionsUntouched(scheme: map<string, map<string, Parser>>, parse: (Parser, Token) --> Result<Value>,
                                                  secs: seq<SectionTokenizer.SectionText>, acc: map<string, map<string, Value>>, k: string)
    requires Total(parse) && ParseSections(scheme, parse, secs, acc).Ok?
    requires forall j :: 0 <= j < |secs| ==> secs[j].name != k
    ensures k in ParseSections(scheme, parse, secs, acc).value <==> k in acc
    ensures k in acc ==> ParseSections(scheme, parse, secs, acc).value[k] == acc[k]
    decreases |secs|
  {
    if secs != [] {
      var v := SectionCall(SchemeFor(scheme, secs[0].name), parse, secs[0].body).value;
      assert forall j :: 0 <= j < |secs[1..]| ==> secs[1..][j] == secs[j + 1];
      ParseSectionsUntouched(scheme, parse, secs[1..], acc[secs[0].name := v], k);
    }
  }

  /** The last section of the text with a given name decides that name's entry: an earlier
      section of the same name is parsed and then replaced. */
  lemma {:induction false} ParseSectionsLast(scheme: map<string, map<string, Parser>>, parse: (Parser, Token) --> Result<Value>,
                                             secs: seq<SectionTokenizer.SectionText>, acc: map<string, map<string, Value>>, k: string, i: nat)
    requires Total(parse) && ParseSections(scheme, parse, secs, acc).Ok?
    requires i < |secs| && secs[i].name == k
    requires forall j :: i < j < |secs| ==> secs[j].name != k
    ensures SectionCall(SchemeFor(scheme, k), parse, secs[i].body).Ok? && k in ParseSections(scheme, parse, secs, acc).value
    ensures ParseSections(scheme, parse, secs, acc).value[k] == SectionCall(SchemeFor(scheme, k), parse, secs[i].body).value
    decreases |secs|
  {
    var v := SectionCall(SchemeFor(scheme, secs[0].name), parse, secs[0].body).value;
    var rest := secs[1..];
    assert forall j :: 0 <= j < |rest| ==> rest[j] == secs[j + 1];
    if i == 0 {
      ParseSectionsUntouched(scheme, parse, rest, acc[k := v], k);
    } else {
      ParseSectionsLast(scheme, parse, rest, acc[secs[0].name := v], k, i - 1);
    }
  }

  /** How many sections the section loop calls: all of them, or up to and including the
      first whose call fails. */
  function Visited(scheme: map<string, map<string, Parser>>, parse: (Parser, Token) --> Result<Value>,
                   secs: seq<SectionTokenizer.SectionText>): (n: nat)
    requires Total(parse)
    ensures n <= |secs|
    decreases |secs|
  {
    if secs == [] then 0
    else if SectionCall(SchemeFor(scheme, secs[0].name), parse, secs[0].body).Err? then 1
    else 1 + Visited(scheme, parse, secs[1..])
  }

  /** The section loop stops at section `n - 1`: it is the first whose call fails. */
  ghost predicate StopsAt(scheme: map<string, map<string, Parser>>, parse: (Parser, Token) --> Result<Value>,
                          secs: seq<SectionTokenizer.SectionText>, n: nat)
    requires Total(parse)
  {
    && 0 < n <= |secs|
    && SectionCall(SchemeFor(scheme, secs[n - 1].name), parse, secs[n - 1].body).Err?
    && forall j :: 0 <= j < n - 1 ==> SectionCall(SchemeFor(scheme, secs[j].name), parse, secs[j].body).Ok?
  }

  /** When the section loop succeeds, every section's call succeeded. */
  lemma {:induction false} ParseSectionsAllOk(scheme: map<string, map<string, Parser>>, parse: (Parser, Token) --> Result<Value>,
                                              secs: seq<SectionTokenizer.SectionText>, acc: map<string, map<string, Value>>)
    requires Total(parse) && ParseSections(scheme, parse, secs, acc).Ok?
    ensures forall j :: 0 <= j < |secs| ==> SectionCall(SchemeFor(scheme, secs[j].name), parse, secs[j].body).Ok?
    ensures Visited(scheme, parse, secs) == |secs|
    decreases |secs|
  {
    if secs != [] {
      var v := SectionCall(SchemeFor(scheme, secs[0].name), parse, secs[0].body);
      var rest := secs[1..];
      ParseSectionsAllOk(scheme, parse, rest, acc[secs[0].name := v.value]);
      forall j | 0 < j < |secs|
        ensures SectionCall(SchemeFor(scheme, secs[j].name), parse, secs[j].body).Ok?
      {
        assert secs[j] == rest[j - 1];
      }
    }
  }

  /** When the section loop succeeds, it has called every section and its result holds
      their names. */
  lemma ParseSectionsDone(scheme: map<string, map<string, Parser>>, parse: (Parser, Token) --> Result<Value>,
                          secs: seq<SectionTokenizer.SectionText>)
    requires Total(parse) && ParseSections(scheme, parse, secs, map[]).Ok?
    ensures Names(secs[..Visited(scheme, parse, secs)]) == Names(secs)
    ensures ParseSections(scheme, parse, secs, map[]).value.Keys == Names(secs)
  {
    ParseSectionsAllOk(scheme, parse, secs, map[]);
    ParseSectionsKeys(scheme, parse, secs, map[]);
    assert secs[..|secs|] == secs;
  }

  /** When the section loop fails, it fails with the error of the first section whose call
      fails. */
  lemma {:induction false} ParseSectionsStops(scheme: map<string, map<string, Parser>>, parse: (Parser, Token) --> Result<Value>,
                                              secs: seq<SectionTokenizer.SectionText>, acc: map<string, map<string, Value>>)
    requires Total(parse) && ParseSections(scheme, parse, secs, acc).Err?
    ensures StopsAt(scheme, parse, secs, Visited(scheme, parse, secs))
    ensures ParseSections(scheme, parse, secs, acc).error
         == SectionCall(SchemeFor(scheme, secs[Visited(scheme, parse, secs) - 1].name), parse, secs[Visited(scheme, parse, secs) - 1].body).error
    decreases |secs|
  {
    var v := SectionCall(SchemeFor(scheme, secs[0].name), parse, secs[0].body);
    if v.Ok? {
      var rest := secs[1..];
      assert ParseSections(scheme, parse, secs, acc) == ParseSections(scheme, parse, rest, acc[secs[0].name := v.value]);
      ParseSectionsStops(scheme, parse, rest, acc[secs[0].name := v.value]);
      var m := Visited(scheme, parse, rest);
      assert Visited(scheme, parse, secs) == m + 1;
      StopsAtCons(scheme, parse, secs, m);
    }
  }

  /** A section whose call succeeds, put in front, moves the stop one section on. */
  lemma StopsAtCons(scheme: map<string, map<string, Parser>>, parse: (Parser, Token) --> Result<Value>,
                    secs: seq<SectionTokenizer.SectionText>, m: nat)
    requires Total(parse) && secs != [] && SectionCall(SchemeFor(scheme, secs[0].name), parse, secs[0].body).Ok?
    requires StopsAt(scheme, parse, secs[1..], m)
    ensures StopsAt(scheme, parse, secs, m + 1) && secs[m] == secs[1..][m - 1]
  {
    var rest := secs[1..];
    assert secs[m] == rest[m - 1];
    forall j | 0 < j < m
      ensures SectionCall(SchemeFor(scheme, secs[j].name), parse, secs[j].body).Ok?
    {
      assert secs[j] == rest[j - 1];
    }
  }

  /** The names of the first `i + 1` sections are those of the first `i` and section `i`'s. */
  lemma NamesSnoc(secs: seq<SectionTokenizer.SectionText>, i: nat)
    requires i < |secs|
    ensures Names(secs[..i + 1]) == Names(secs[..i]) + {secs[i].name}
  {
    assert secs[..i + 1] == secs[..i] + [secs[i]];
    assert forall k :: k in Names(secs[..i + 1]) <==> k in Names(secs[..i]) || k == secs[i].name;
  }

  /** Where the section loop stands after `i` rounds: `r` is the result so far (or the
      error that ended the loop) and `seen` the names of the sections called. */
  ghost predicate Progress(scheme: map<string, map<string, Parser>>, parse: (Parser, Token) --> Result<Value>,
                           secs: seq<SectionTokenizer.SectionText>, i: nat, r: Result<map<string, map<string, Value>>>, seen: set<string>)
    requires Total(parse)
  {
    && i <= |secs|
    && seen == Names(secs[..i])
    && (r.Ok? ==> && ParseSections(scheme, parse, secs, map[]) == ParseSections(scheme, parse, secs[i..], r.value)
                  && Visited(scheme, parse, secs) == i + Visited(scheme, parse, secs[i..]))
    && (r.Err? ==> ParseSections(scheme, parse, secs, map[]) == r && Visited(scheme, parse, secs) == i)
  }

  /** One round of the section loop keeps `Progress`. */
  lemma ProgressStep(scheme: map<string, map<string, Parser>>, parse: (Parser, Token) --> Result<Value>,
                     secs: seq<SectionTokenizer.SectionText>, i: nat, r: Result<map<string, map<string, Value>>>, seen: set<string>,
                     v: Result<map<string, Value>>)
    requires Total(parse) && Progress(scheme, parse, secs, i, r, seen) && r.Ok? && i < |secs|
    requires v == SectionCall(SchemeFor(scheme, secs[i].name), parse, secs[i].body)
    ensures Progress(scheme, parse, secs, i + 1, if v.Err? then Err(v.error) else Ok(r.value[secs[i].name := v.value]), seen + {secs[i].name})
  {
    ParseSectionsStep(scheme, parse, secs, i, r.value, v);
    NamesSnoc(secs, i);
  }

  /** The section loop run for `i` rounds, or until a call fails: the result so far (or
      the error), the names of the sections called, and how many were called. */
  ghost function Run(scheme: map<string, map<string, Parser>>, parse: (Parser, Token) --> Result<Value>,
                     secs: seq<SectionTokenizer.SectionText>, i: nat): (Result<map<string, map<string, Value>>>, set<string>, nat)
    requires Total(parse) && i <= |secs|
  {
    if i == 0 then (Ok(map[]), {}, 0)
    else
      var (r, seen, n) := Run(scheme, parse, secs, i - 1);
      if r.Err? then (r, seen, n)
      else
        var v := SectionCall(SchemeFor(scheme, secs[i - 1].name), parse, secs[i - 1].body);
        (if v.Err? then Err(v.error) else Ok(r.value[secs[i - 1].name := v.value]), seen + {secs[i - 1].name}, n + 1)
  }

  /** What the loop has established after `i` rounds. */
  lemma {:induction false} RunProgress(scheme: map<string, map<string, Parser>>, parse: (Parser, Token) --> Result<Value>,
                                       secs: seq<SectionTokenizer.SectionText>, i: nat)
    requires Total(parse) && i <= |secs|
    ensures Run(scheme, parse, secs, i).2 <= i
    ensures Run(scheme, parse, secs, i).0.Ok? ==> Run(scheme, parse, secs, i).2 == i
    ensures Progress(scheme, parse, secs, Run(scheme, parse, secs, i).2, Run(scheme, parse, secs, i).0, Run(scheme, parse, secs, i).1)
  {
    if i == 0 {
      RunStart(scheme, parse, secs);
    } else {
      RunProgress(scheme, parse, secs, i - 1);
      if Run(scheme, parse, secs, i - 1).0.Ok? {
        RunStep(scheme, parse, secs, i);
      } else {
        var prev := Run(scheme, parse, secs, i - 1);
        assert Run(scheme, parse, secs, i).0 == prev.0 && Run(scheme, parse, secs, i).1 == prev.1;
        assert Run(scheme, parse, secs, i).2 == prev.2;
      }
    }
  }

  /** Before the first round nothing is called. */
  lemma RunStart(scheme: map<string, map<string, Parser>>, parse: (Parser, Token) --> Result<Value>,
                 secs: seq<SectionTokenizer.SectionText>)
    requires Total(parse)
    ensures Progress(scheme, parse, secs, 0, Ok(map[]), {})
  {
    assert secs[..0] == [] && secs[0..] == secs;
  }

  /** A round of the loop that calls a section keeps `Progress`. */
  lemma RunStep(scheme: map<string, map<string, Parser>>, parse: (Parser, Token) --> Result<Value>,
                secs: seq<SectionTokenizer.SectionText>, i: nat)
    requires Total(parse) && 0 < i <= |secs|
    requires Run(scheme, parse, secs, i - 1).0.Ok? && Run(scheme, parse, secs, i - 1).2 == i - 1
    requires Progress(scheme, parse, secs, i - 1, Run(scheme, parse, secs, i - 1).0, Run(scheme, parse, secs, i - 1).1)
    ensures Run(scheme, parse, secs, i).2 == i
    ensures Progress(scheme, parse, secs, i, Run(scheme, parse, secs, i).0, Run(scheme, parse, secs, i).1)
  {
    var prev := Run(scheme, parse, secs, i - 1);
    var v := SectionCall(SchemeFor(scheme, secs[i - 1].name), parse, secs[i - 1].body);
    ProgressStep(scheme, parse, secs, i - 1, prev.0, prev.1, v);
    assert Run(scheme, parse, secs, i).0 == if v.Err? then Err(v.error) else Ok(prev.0.value[secs[i - 1].name := v.value]);
    assert Run(scheme, parse, secs, i).1 == prev.1 + {secs[i - 1].name};
  }

  /** When the section loop ends, its result is `ParseSections` and it has called the first
      `Visited` sections. */
  lemma RunDone(scheme: map<string, map<string, Parser>>, parse: (Parser, Token) --> Result<Value>,
                secs: seq<SectionTokenizer.SectionText>, i: nat)
    requires Total(parse) && i <= |secs|
    requires Run(scheme, parse, secs, i).2 == i && (Run(scheme, parse, secs, i).0.Err? || i == |secs|)
    ensures Run(scheme, parse, secs, i).0 == ParseSections(scheme, parse, secs, map[])
    ensures Run(scheme, parse, secs, i).1 == Names(secs[..Visited(scheme, parse, secs)])
  {
    RunProgress(scheme, parse, secs, i);
    if Run(scheme, parse, secs, i).0.Ok? {
      assert secs[i..] == [];
    }
  }

  /** `enumerate(content.split('\n'))`: lines numbered from 0. */
  function Numbered(content: string): (lines: seq<Line>)
    ensures |lines| == |SplitLines(content)|
    ensures forall i :: 0 <= i < |lines| ==> lines[i] == Line(i, SplitLines(content)[i])
  {
    var texts := SplitLines(content);
    seq(|texts|, i requires 0 <= i < |texts| => Line(i, texts[i]))
  }

  /** The sections of a text, as `tokenize_sections` yields them. */
  function SectionsOf(content: string): Result<seq<SectionTokenizer.SectionText>> {
    SectionTokenizer.TokenizeSections(Numbered(content))
  }

  /** Every declared section missing from `parsed` gets its defaults. */
  function WithDefaults(scheme: map<string, map<string, Parser>>, parsed: map<string, map<string, Value>>): (r: map<string, map<string, Value>>)
    ensures forall k :: k in r <==> k in scheme || k in parsed
  {
    map k | k in scheme.Keys + parsed.Keys :: if k in parsed then parsed[k] else Defaults(scheme[k])
  }

  lemma MapsEqual<K, V>(a: map<K, V>, b: map<K, V>)
    requires a.Keys == b.Keys && forall k :: k in a ==> a[k] == b[k]
    ensures a == b
  {
  }

  /** `Zini.parse(content)` against the scheme it starts from. */
  function ZiniParse(scheme: map<string, map<string, Parser>>, parse: (Parser, Token) --> Result<Value>, content: string): (r: Result<map<string, map<string, Value>>>)
    requires Total(parse)
    ensures SectionsOf(content).Err? ==> r == Err(SectionsOf(content).error)
    ensures r.Ok? ==> SectionsOf(content).Ok? && forall k :: k in scheme ==> k in r.value
  {
    var secs :- SectionsOf(content);
    var parsed :- ParseSections(scheme, parse, secs, map[]);
    Ok(WithDefaults(scheme, parsed))
  }

  /** The result has an entry for every declared section and every section of the text; a
      declared section missing from the text gets its defaults. */
  lemma ZiniParseKeys(scheme: map<string, map<string, Parser>>, parse: (Parser, Token) --> Result<Value>, content: string, k: string)
    requires Total(parse) && ZiniParse(scheme, parse, content).Ok?
    ensures SectionsOf(content).Ok?
    ensures forall k :: k in ZiniParse(scheme, parse, content).value <==> k in scheme || k in Names(SectionsOf(content).value)
    ensures k in scheme && k !in Names(SectionsOf(content).value) ==>
      ZiniParse(scheme, parse, content).value[k] == Defaults(scheme[k])
  {
    var secs := SectionsOf(content).value;
    ParseSectionsKeys(scheme, parse, secs, map[]);
  }

  /** A section of the text is parsed with the declarations of its name, and when the
      text has several sections of that name the last one decides the result. */
  lemma ZiniParseLast(scheme: map<string, map<string, Parser>>, parse: (Parser, Token) --> Result<Value>, content: string, k: string, i: nat)
    requires Total(parse) && ZiniParse(scheme, parse, content).Ok?
    requires SectionsOf(content).Ok? && i < |SectionsOf(content).value| && SectionsOf(content).value[i].name == k
    requires forall j :: i < j < |SectionsOf(content).value| ==> SectionsOf(content).value[j].name != k
    ensures SectionCall(SchemeFor(scheme, k), parse, SectionsOf(content).value[i].body).Ok?
    ensures k in ZiniParse(scheme, parse, content).value
    ensures ZiniParse(scheme, parse, content).value[k] == SectionCall(SchemeFor(scheme, k), parse, SectionsOf(content).value[i].body).value
  {
    ParseSectionsLast(scheme, parse, SectionsOf(content).value, map[], k, i);
  }

  /** `Zini.defaults`: parsing the empty text gives every declared section its defaults. */
  lemma ZiniParseEmpty(scheme: map<string, map<string, Parser>>, parse: (Parser, Token) --> Result<Value>)
    requires Total(parse)
    ensures ZiniParse(scheme, parse, "") == Ok(map k | k in scheme :: Defaults(scheme[k]))
  {
    var lines := Numbered("");
    assert SplitLines("") == [""] by {
      SplitJoin([""]);
    }
    assert lines == [Line(0, "")];
    assert RStrip("") == "";
    SectionTokenizer.FirstSignificantLineDecides(lines, 1);
    assert SectionsOf("") == Ok([]);
    assert ParseSections(scheme, parse, [], map[]) == Ok(map[]);
    assert WithDefaults(scheme, map[]) == map k | k in scheme :: Defaults(scheme[k]);
  }

  /** A declaration of `Section`: a parser or what `get_parser` turns into one. */
  class Section {
    var data: map<string, Parser>

    /** `Section(data)`: each declaration set in turn. */
    constructor(decls: seq<(string, Decl)>)
      ensures data == DeclareAll(map[], decls)
    {
      data := map[];
      new;
      var i := 0;
      while i < |decls|
        invariant 0 <= i <= |decls|
        invariant DeclareAll(map[], decls) == DeclareAll(data, decls[i..])
      {
        assert decls[i..][1..] == decls[i + 1..];
        SetItem(decls[i].0, decls[i].1);
        i := i + 1;
      }
    }

    /** `section[key] = decl`. */
    method SetItem(key: string, decl: Decl)
      modifies this
      ensures data == old(data)[key := ParserOf(decl)]
    {
      match decl
      case UseParser(p) =>
        data := data[key := p];
      case Declare(d) =>
        data := data[key := GetParser(d)];
    }

    /** `get_defaults()`: one pass over the declarations. */
    method GetDefaults() returns (d: map<string, Value>)
      ensures d == Defaults(data)
    {
      d := map[];
      var rest := data.Keys;
      while rest != {}
        invariant rest <= data.Keys
        invariant forall k :: k in d <==> k in data && k !in rest && data[k].default.Some?
        invariant forall k :: k in d ==> d[k] == data[k].default.value
        decreases |rest|
      {
        var k :| k in rest;
        if data[k].default.Some? {
          d := d[k := data[k].default.value];
        }
        rest := rest - {k};
      }
    }

    /** `section(lines)`: the defaults, then each token's value in turn. */
    method Call(lines: seq<Line>, parse: (Parser, Token) --> Result<Value>) returns (r: Result<map<string, Value>>)
      requires Total(parse)
      ensures r == SectionCall(data, parse, lines)
    {
      var defaults := GetDefaults();
      var tokens, error := BlockTokenizer.TokenizeLines(lines);
      TokensNonEmpty(lines);
      r := Ok(defaults);
      var i := 0;
      while i < |tokens| && r.Ok?
        invariant 0 <= i <= |tokens|
        invariant r.Ok? ==> Apply(data, parse, tokens, Defaults(data)) == Apply(data, parse, tokens[i..], r.value)
        invariant r.Err? ==> Apply(data, parse, tokens, Defaults(data)) == r
      {
        var token := tokens[i];
        ApplyStep(data, parse, tokens, i, r.value);
        var key := GetKey(token[0]);
        if key.Err? {
          r := Err(key.error);
        } else {
          var parser := if key.value in data then data[key.value] else Parser(GenericKind, None);
          var v := parse(parser, token);
          r := if v.Err? then Err(v.error) else Ok(r.value[key.value := v.value]);
        }
        i := i + 1;
      }
      if r.Ok? && error.Some? {
        r := Err(error.value);
      }
    }
  }

  /** What `Zini.__setitem__` is given: a section, or the declarations of a new one. */
  datatype SectionValue = ExistingSection(section: Section) | Declarations(decls: seq<(string, Decl)>)

  class Zini {
    var sections: map<string, Section>

    /** The declarations of every section. */
    ghost function Scheme(): map<string, map<string, Parser>>
      reads this, sections.Values
    {
      map k | k in sections :: sections[k].data
    }

    /** `Zini()`; `Zini(**sections)` is this followed by `SetItem` for each argument. */
    constructor()
      ensures sections == map[]
    {
      sections := map[];
    }

    /** `zini[name] = value`: a section is stored as it is, declarations become a new one. */
    method SetItem(name: string, value: SectionValue)
      modifies this
      ensures name in sections && sections == old(sections)[name := sections[name]]
      ensures value.ExistingSection? ==> sections[name] == value.section
      ensures value.Declarations? ==> fresh(sections[name]) && sections[name].data == DeclareAll(map[], value.decls)
    {
      match value
      case ExistingSection(s) =>
        sections := sections[name := s];
      case Declarations(decls) =>
        var s := new Section(decls);
        sections := sections[name := s];
    }

    /** `zini[name]`: a missing section is created empty and kept. */
    method GetItem(name: string) returns (s: Section)
      modifies this
      ensures name in old(sections) ==> s == old(sections)[name] && sections == old(sections)
      ensures name !in old(sections) ==> fresh(s) && s.data == map[] && sections == old(sections)[name := s]
    {
      if name in sections {
        s := sections[name];
      } else {
        s := new Section([]);
        sections := sections[name := s];
      }
    }

    /** Every section holds the declarations `scheme` gives its name. */
    ghost predicate Agrees(scheme: map<string, map<string, Parser>>)
      reads this, sections.Values
    {
      && (forall k :: k in scheme ==> k in sections)
      && forall k :: k in sections ==> sections[k].data == SchemeFor(scheme, k)
    }

    /** `parse(content)`: every section of the text parsed with its declarations, then the
        defaults of the declared sections the text does not have. A section of the text that
        is not declared is created empty and stays in the scheme. */
    method Parse(content: string, ext: Externals) returns (r: Result<map<string, map<string, Value>>>)
      modifies this
      ensures r == ZiniParse(old(Scheme()), ParseToken(ext), content)
      ensures forall k :: k in old(sections) ==> k in sections
      ensures forall k :: k in old(sections) ==> sections[k] == old(sections[k])
      ensures forall k :: k in sections && k !in old(sections) ==> fresh(sections[k]) && sections[k].data == map[]
      ensures SectionsOf(content).Err? ==> sections == old(sections)
      ensures r.Ok? ==> forall k :: k in sections <==> k in old(sections) || k in Names(SectionsOf(content).value)
      ensures r.Err? && SectionsOf(content).Ok? ==>
        var n := Visited(old(Scheme()), ParseToken(ext), SectionsOf(content).value);
        && StopsAt(old(Scheme()), ParseToken(ext), SectionsOf(content).value, n)
        && forall k :: k in sections <==> k in old(sections) || k in Names(SectionsOf(content).value[..n])
    {
      ghost var scheme := Scheme();
      ParseTokenTotal(ext);
      var secs := SectionTokenizer.SplitSections(Numbered(content));
      if secs.Err? {
        return Err(secs.error);
      }
      var lost := sections.Keys;
      var parsed;
      parsed, lost := ParseAll(secs.value, ParseToken(ext), lost, scheme);
      if parsed.Err? {
        ParseSectionsStops(scheme, ParseToken(ext), secs.value, map[]);
        return Err(parsed.error);
      }
      ParseSectionsDone(scheme, ParseToken(ext), secs.value);
      var result := AddDefaults(parsed.value, lost, scheme);
      return Ok(result);
    }

    /** The first loop of `parse`: each section of the text is parsed by `self[name]`, which
        creates the missing ones, and its name leaves `lost`. The loop calls the first
        `Visited` sections: all of them, or up to the first whose call fails. */
    method ParseAll(list: seq<SectionTokenizer.SectionText>, parse: (Parser, Token) --> Result<Value>, lost0: set<string>, ghost scheme: map<string, map<string, Parser>>)
      returns (r: Result<map<string, map<string, Value>>>, lost: set<string>)
      requires Total(parse) && Agrees(scheme) && sections.Keys == scheme.Keys && lost0 == scheme.Keys
      modifies this
      ensures r == ParseSections(scheme, parse, list, map[])
      ensures Agrees(scheme)
      ensures forall k :: k in old(sections) ==> sections[k] == old(sections[k])
      ensures forall k :: k in sections && k !in old(sections) ==> fresh(sections[k])
      ensures sections.Keys == scheme.Keys + Names(list[..Visited(scheme, parse, list)])
      ensures lost == scheme.Keys - Names(list[..Visited(scheme, parse, list)])
    {
      r := Ok(map[]);
      lost := lost0;
      var i := 0;
      ghost var seen: set<string> := {};
      while i < |list| && r.Ok?
        invariant i <= |list|
        invariant r == Run(scheme, parse, list, i).0 && seen == Run(scheme, parse, list, i).1 && Run(scheme, parse, list, i).2 == i
        invariant Agrees(scheme)
        invariant forall k :: k in old(sections) ==> sections[k] == old(sections[k])
        invariant forall k :: k in sections && k !in old(sections) ==> fresh(sections[k])
        invariant sections.Keys == scheme.Keys + seen
        invariant lost == scheme.Keys - seen
        decreases |list| - i
      {
        r, lost, seen := Round(list, i, parse, r, lost, seen, scheme);
        i := i + 1;
      }
      RunDone(scheme, parse, list, i);
    }

    /** One round of the first loop of `parse`: section `i` is called and its name leaves
        `lost`. */
    method Round(list: seq<SectionTokenizer.SectionText>, i: nat, parse: (Parser, Token) --> Result<Value>,
                 r0: Result<map<string, map<string, Value>>>, lost0: set<string>, ghost seen0: set<string>, ghost scheme: map<string, map<string, Parser>>)
      returns (r: Result<map<string, map<string, Value>>>, lost: set<string>, ghost seen: set<string>)
      requires Total(parse) && Agrees(scheme) && i < |list| && r0.Ok?
      requires r0 == Run(scheme, parse, list, i).0 && seen0 == Run(scheme, parse, list, i).1 && Run(scheme, parse, list, i).2 == i
      requires sections.Keys == scheme.Keys + seen0 && lost0 == scheme.Keys - seen0
      modifies this
      ensures r == Run(scheme, parse, list, i + 1).0 && seen == Run(scheme, parse, list, i + 1).1
      ensures Run(scheme, parse, list, i + 1).2 == i + 1
      ensures Agrees(scheme)
      ensures forall k :: k in old(sections) ==> k in sections && sections[k] == old(sections[k])
      ensures forall k :: k in sections && k !in old(sections) ==> fresh(sections[k])
      ensures sections.Keys == scheme.Keys + seen && lost == scheme.Keys - seen
    {
      var name := list[i].name;
      lost := lost0 - {name};
      var v := CallSection(name, list[i].body, parse, scheme);
      seen := seen0 + {name};
      r := if v.Err? then Err(v.error) else Ok(r0.value[name := v.value]);
    }

    /** `self[name](body)`: the section of that name, created empty when missing, applied to
        the body. */
    method CallSection(name: string, body: seq<Line>, parse: (Parser, Token) --> Result<Value>, ghost scheme: map<string, map<string, Parser>>)
      returns (v: Result<map<string, Value>>)
      requires Total(parse) && Agrees(scheme)
      modifies this
      ensures v == SectionCall(SchemeFor(scheme, name), parse, body)
      ensures Agrees(scheme)
      ensures sections.Keys == old(sections).Keys + {name}
      ensures forall k :: k in old(sections) ==> sections[k] == old(sections[k])
      ensures name !in old(sections) ==> fresh(sections[name])
    {
      var section := GetItem(name);
      forall k | k in sections
        ensures sections[k].data == SchemeFor(scheme, k)
      {
        if k != name {
          assert sections[k] == old(sections)[k];
        }
      }
      v := section.Call(body, parse);
    }

    /** The second loop of `parse`: the defaults of each declared section the text lacks. */
    method AddDefaults(parsed: map<string, map<string, Value>>, lost: set<string>, ghost scheme: map<string, map<string, Parser>>)
      returns (result: map<string, map<string, Value>>)
      requires Agrees(scheme) && forall k :: k in lost <==> k in scheme && k !in parsed
      ensures result == WithDefaults(scheme, parsed)
    {
      result := parsed;
      var rest := lost;
      while rest != {}
        invariant rest <= lost
        invariant forall k :: k in result <==> k in parsed || (k in lost && k !in rest)
        invariant forall k :: k in result ==> result[k] == if k in parsed then parsed[k] else Defaults(scheme[k])
        decreases |rest|
      {
        var k :| k in rest;
        var d := sections[k].GetDefaults();
        result := result[k := d];
        rest := rest - {k};
      }
      MapsEqual(result, WithDefaults(scheme, parsed));
    }
  }
}
