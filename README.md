# zini — a verified model of a typed INI parser

zini reads INI text against a *scheme*. A scheme is a `Zini` object that maps section names to
`Section` objects. Each `Section` maps keys to value parsers. Parsing the text goes through four
stages:

1. `tokenize_sections` strips the trailing whitespace of each numbered line. Before the first
   `[name]` header it allows only blank and comment lines. It then groups the following lines into
   `(name, body)` pairs.
2. `tokenize` splits a body into tokens. A token is a `key = value` line followed by a run of
   more-indented continuation lines. A line indented strictly between the two levels is an error.
3. `get_key` and `get_keyvalue` split a token's first line at its first `=`.
4. Each key is read by its declared parser: string, boolean, integer, float, datetime, timedelta,
   or the generic parser, which tries them in that order. The results are laid over the declared
   defaults. `Zini.parse` gives declared sections that are absent from the text their defaults.

The model is written in Dafny. Each module follows a part of `zini.py`:

| module | file | models |
|---|---|---|
| `Common` | common.dfy | `Line` (a numbered line), `ParseError`, the `Result`/`Option` wrappers |
| `Text` | text.dfy | `str.strip`/`rstrip`, `lower()`, `split('\n')` |
| `SectionTokenizer` | sections.dfy | `tokenize_sections` |
| `BlockTokenizer` | tokenizer.dfy | `tokenize`, `get_indent` |
| `KeyValues` | keyvalue.dfy | `get_key`, `get_keyvalue` |
| `Numerals` | numerals.dfy | what `int(str)` accepts and returns |
| `Durations` | durations.dfy | `RE_TIMEDELTA` and the `timedelta` sum |
| `Iso8601` | iso8601.dfy | `RE_ISO8601` |
| `Parsers` | parsers.dfy | `OneLineParser` and its subclasses, `GenericParser` |
| `Scheme` | scheme.dfy | `Section` and `Zini`, as classes |

The loops of `tokenize_sections`, `tokenize`, `Section.__call__` and `Zini.parse` become
methods. Each method is proved equal to a recursive specification function, and the properties
are proved as lemmas about that function:

- `tokenize_sections` becomes `SplitSections`, specified by `TokenizeSections`.
- `tokenize` becomes `TokenizeLines`, specified by `Tokenize`.
- `Section.__call__` becomes `Section.Call`, specified by `SectionCall`.
- `Zini.parse` becomes `Zini.Parse`, specified by `ZiniParse`.

The other loops only compute a value and become recursive functions: the two loops of
`GenericParser` become `FirstSuccess` and `AnyChecks`, the loop of `get_parser` becomes
`FirstMatch`, and the loop of `get_indent` becomes `LeadingSpaces`. The loop of `Zini.__init__`
over its keyword arguments is the constructor followed by one `SetItem` per section.

The two regular expressions are written as scanners. Each scanner is proved sound and complete
against a renderer of the well-formed values.

## Model

| member | source | states |
|---|---|---|
| Common.ErrorAt | zini.py:27-32 | `ParseError(*token[i])` carries the line's number and text, and no comment |
| Text.RStrip | zini.py:354 | the result is the text without its trailing whitespace |
| Text.Strip | zini.py:427 | the result is the slice between the leading and the trailing whitespace; it neither starts nor ends with whitespace |
| Text.StripEmptyIffBlank | zini.py:392 | `line.strip()` is empty exactly when every character is whitespace |
| Text.Lower | zini.py:159 | `lower()` keeps the length and lowers each character |
| Text.SplitLines | zini.py:95 | `split('\n')` gives at least one piece, no piece holds a newline, and joining the pieces with newlines gives back the text |
| Text.SplitJoin | zini.py:95 | splitting newline-free pieces that were joined with newlines gives back the pieces |
| Scheme.Numbered | zini.py:95 | `enumerate(content.split('\n'))`: line `i` is numbered `i` and holds the `i`-th piece |
| SectionTokenizer.HeaderName | zini.py:362-363 | a header is `[` + name + `]`, and the name is what lies between |
| SectionTokenizer.Normalize | zini.py:354 | every line keeps its number and loses its trailing whitespace |
| SectionTokenizer.FirstHeader | zini.py:356-368 | a position it finds is a header at or after the start |
| SectionTokenizer.FindFirstHeader | zini.py:356-368 | the first loop, with its `break`, returns what `FirstHeader` specifies |
| SectionTokenizer.GroupSections | zini.py:370-384 | the grouping loop returns what `Group` specifies: comments skipped, a header flushes a non-empty body, the last body flushed at the end |
| SectionTokenizer.SplitSections | zini.py:353-384 | the whole generator returns `TokenizeSections(lines)` |
| SectionTokenizer.FirstHeaderAt | zini.py:356-368 | when every line before `j` is blank or a comment and line `j` is not, the first loop finds no header, the header at `j`, or a `ParseError` at `j` |
| SectionTokenizer.FirstSignificantLineDecides | zini.py:356-368 | the text fails exactly when its first line that is neither blank nor a comment is not a header, with that line's number and stripped text; a text of blanks and comments yields nothing |
| SectionTokenizer.GroupKeepsContent | zini.py:370-384 | the yielded bodies, concatenated, are the lines after the header minus comments and headers, in order |
| SectionTokenizer.GroupClean | zini.py:371-384 | every yielded section has a non-empty body with no comment and no header line |
| SectionTokenizer.TokenizeSectionsContent | zini.py:353-384 | the sections are clean; the first header is preceded only by blanks and comments; the bodies are the content after it |
| SectionTokenizer.FirstHeaderNone | zini.py:367-368 | when no header is found, every line is blank or a comment |
| SectionTokenizer.NextHeader | zini.py:370-384 | the next header is at or after the current line, or the end of the input |
| SectionTokenizer.NextHeaderFirst | zini.py:370-384 | no line before the next header is a header |
| SectionTokenizer.GroupByHeaders | zini.py:370-384 | the grouping loop, in the middle of a section, flushes that section with the lines up to the next header, then yields the sections of the headers after it |
| SectionTokenizer.HeaderSectionsAt | zini.py:370-384 | every section yielded from a header on has a non-empty body and is the name of some header together with the non-comment lines between that header and the next |
| SectionTokenizer.TokenizeSectionsByHeaders | zini.py:353-384 | after a first header found at `h`, the sections are those read header by header from `h` |
| SectionTokenizer.TokenizeSectionsHeaders | zini.py:353-384 | each yielded `(name, body)` comes from a header line `g`: the name is that header's name and the body is the non-empty run of non-comment lines between `g` and the next header |
| BlockTokenizer.BlankIsStripEmpty | zini.py:392 | `not line.strip()` is the blank test |
| BlockTokenizer.GetIndentCounts | zini.py:448-456 | `get_indent` counts the leading spaces: 0 for `''`, `len - 1` for all spaces, otherwise the index of the first non-space |
| BlockTokenizer.GetIndent | zini.py:448-456 | the indent is within the line, and below its length when the line is not empty |
| BlockTokenizer.NextStart | zini.py:390-393 | the next token starts at or after the current line, at a non-blank line or at the end |
| BlockTokenizer.NextStartSkipsBlanks | zini.py:390-393 | every line passed over on the way to the next token start is blank |
| BlockTokenizer.BlockEndStops | zini.py:402-415 | the block run takes every line whose indent (a blank counts as the block indent) reaches the block indent, and stops at the first that does not |
| BlockTokenizer.TokenEnd | zini.py:395-418 | a token ends after its first line and within the input; where exactly is stated by `TokenEndCloses` and `TokenEndIs` |
| BlockTokenizer.TokenEndCloses | zini.py:397-413 | a token is its first line alone unless at least two lines follow and the next one is deeper; then it takes more than one line and ends at the end of the input or at a non-blank line no deeper than its first line, so a blank line never closes it |
| BlockTokenizer.TokenEndIs | zini.py:397-413 | conversely, a well-indented run of lines that closes that way is exactly the token taken from its first line, without an error |
| BlockTokenizer.TakeBlock | zini.py:402-415 | the inner loop appends exactly the block run, or raises at the first line indented strictly between the two levels |
| BlockTokenizer.TokenizeLines | zini.py:387-420 | the outer loop returns the tokens and the error that `Tokenize` specifies |
| BlockTokenizer.TokenizeKeepsOrder | zini.py:390-420 | the tokens are contiguous runs of the input, in order, each starting at the next non-blank line and each as long as the block rule makes it (one line without a block, else the whole run up to the end or a non-blank line no deeper than the token); only blank lines in front of a token are dropped; without an error every line is consumed, with one the last position is the first line of the token that raises |
| BlockTokenizer.TokenEndIndentation | zini.py:395-415 | a token starts with a non-blank line, and every continuation line is blank or indented at least at the block indent, which exceeds the token's indent |
| BlockTokenizer.TokenizeIndentation | zini.py:390-420 | every yielded token is well indented in that sense |
| BlockTokenizer.TokenEndError | zini.py:409-412 | an error is raised at a line indented strictly between the token indent and the block indent |
| BlockTokenizer.TokenizeErrorIsJump | zini.py:390-420 | the tokenizer's error is always such a line |
| BlockTokenizer.JumpRaises | zini.py:402-415 | conversely, a token whose block holds a line indented strictly between its own indent and the block indent raises at that line |
| BlockTokenizer.ReachedJumpRaises | zini.py:390-420 | when the outer loop reaches such a token, `tokenize` ends with exactly that error |
| KeyValues.GetKey | zini.py:423-429 | it fails exactly when the first line has no `=`, with a `ParseError` at that line |
| KeyValues.GetKeyValue | zini.py:432-445 | every failure is a `ParseError` at the first line |
| KeyValues.GetKeyValueSplits | zini.py:432-445 | it succeeds exactly when there is an `=` and the stripped text before the first one is non-empty; key and value are the stripped sides of the first `=`; `get_key` agrees on the key |
| KeyValues.GetKeyValueRoundTrip | zini.py:441-445 | `key = value` with a trimmed key free of `=` and a trimmed value reads back as that key and value |
| Numerals.ShowNat | zini.py:194 | decimal digits without a leading zero that denote the number |
| Numerals.ParseInt | zini.py:194 | an accepted text ends in a digit, and its sign decides the sign of the value |
| Numerals.Ungrouped | zini.py:194 | removing the `_` separators leaves digits only |
| Numerals.ParseShowInt | zini.py:194 | `int(str(n)) == n` for every integer |
| Numerals.ParseIntDecimal | zini.py:194 | a digit string with single `_` separators between digits reads as its digits' value |
| Numerals.ParseIntSigned | zini.py:194 | a leading `+` or `-` gives the value or its negation |
| Numerals.ParseIntGrouped | zini.py:194 | `int('a_b') == int('ab')` for digit strings `a`, `b` |
| Durations.UnitAt | zini.py:17-21 | a unit it finds is a prefix of the text |
| Durations.Match | zini.py:17-21 | a match comes from a non-empty text and has at least one component |
| Durations.ToTimedelta | zini.py:226-227 | `timedelta(**groups)` is the sum of the components in milliseconds, and overflows past 999999999 days |
| Durations.WellFormedOrdered | zini.py:17-21 | components of a match have digits and strictly increasing units |
| Durations.StepSound | zini.py:17-21 | one step reads a digit group and a unit suffix |
| Durations.StepComplete | zini.py:17-21 | a digit group and a unit suffix are read back, with `m` not taken for `ms` |
| Durations.ScanSound | zini.py:17-21 | whatever the scanner accepts is well formed and renders back to the text |
| Durations.ScanComplete | zini.py:17-21 | every well-formed component list is accepted from its rendering |
| Durations.MatchIsRender | zini.py:17-21 | a match is a non-empty well-formed list that renders to the value |
| Durations.RenderMatches | zini.py:17-21 | every non-empty well-formed list renders to a match of itself |
| Durations.ConcatenationAdds | zini.py:17-21 | concatenating renderings with increasing units matches the concatenation, and the total is the sum, as in `2h13s` |
| Durations.RejectsRepeatedUnit | zini.py:17-21 | `2d100ss` does not match |
| Durations.RejectsUnknownUnit | zini.py:17-21 | `2y2d` does not match |
| Durations.RenderShape | zini.py:17-21 | a rendering starts with a digit, ends with a unit letter and holds no `-` |
| Iso8601.ScanSound | zini.py:11-15 | whatever the scanner accepts is a well-formed stamp that renders back to the text |
| Iso8601.Scan | zini.py:11-15 | an accepted stamp begins with its `YYYY-MM-DD` date |
| Iso8601.ScanComplete | zini.py:11-15 | every well-formed stamp is accepted from its rendering |
| Iso8601.ScanOffsetSound | zini.py:14 | the offset part is an optional whitespace, a sign, two digits and optional `:mm`, and renders back |
| Iso8601.ScanTimeSound | zini.py:13-14 | the time part is a separator, `hh:mm`, optional seconds and fraction and an optional offset, and renders back |
| Iso8601.RenderShape | zini.py:11-15 | a rendering starts with `YYYY-MM-DD` and does not end in whitespace |
| Parsers.OneLineValue | zini.py:134-138 | a token of several lines fails at its second line; a one-line token gives the value of `get_keyvalue` or its error |
| Parsers.CheckSimple | zini.py:134-235 | `check` fails at the second line of a multi-line token or at the first line; a value that passes is trimmed and accepted by the parser |
| Parsers.CallSimple | zini.py:141-235 | a success has passed `check` and is of the parser's type; a failed `check` is the error; after `check` only the datetime and timedelta conversions can fail, and only timedelta overflows |
| Parsers.Convert | zini.py:141-235 | a converted value has the parser's type; only the datetime conversion fails, with `dateutil`'s message, and only the timedelta one overflows |
| Parsers.Call | zini.py:115-266 | a result has the parser's type; a failure is an overflow or a `ParseError` at the first or the second line |
| Parsers.FirstSuccess | zini.py:250-256 | any failure is a `ParseError` at the first line or a timedelta overflow |
| Parsers.CallGeneric | zini.py:248-266 | the same for `GenericParser` as a whole |
| Parsers.EntryValue | zini.py:432-445 | `key = value` reads back as its value |
| Parsers.CallOnValue | zini.py:134-235 | when a one-line token's value passes the check, the call is the conversion |
| Parsers.CallRefused | zini.py:134-235 | when it does not, the call fails at the first line |
| Parsers.StringRoundTrip | zini.py:141-153 | a value quoted with `'` or `"` reads as the text between the quotes |
| Parsers.BooleanRoundTrip | zini.py:156-173 | `true`/`false` in any case read as the boolean |
| Parsers.IntegerRoundTrip | zini.py:176-194 | `str(i)` reads back as `i` |
| Parsers.IntegerGrouped | zini.py:176-194 | `a_b` reads as the integer of the digits `ab` |
| Parsers.FloatReads | zini.py:176-198 | a float value is what `float()` makes of it, or a `ParseError` at the line |
| Parsers.DatetimeReads | zini.py:201-217 | a well-formed ISO-8601 value is what `dateutil` makes of it, or a `ParseError` carrying its message |
| Parsers.TimedeltaRoundTrip | zini.py:220-235 | a rendered duration reads as its total, or overflows |
| Parsers.NoCheckNoSuccess | zini.py:248-266 | when no parser's check passes, the generic search fails at the first line |
| Parsers.GenericIsFirstSuccess | zini.py:248-266 | `GenericParser.check` can be dropped: the call is the first success of the ordered search |
| Parsers.FirstSuccessWitness | zini.py:250-254 | a success comes from a parser whose call succeeded, after parsers that all raised `ParseError` |
| Parsers.FirstSuccessAt | zini.py:250-254 | the first parser to succeed after `ParseError`s decides the result |
| Parsers.GenericMultiLine | zini.py:248-266 | a token of several lines fails in `GenericParser` at its first line |
| Parsers.GenericReadsQuoted | zini.py:239-256 | an untyped quoted value reads as a string |
| Parsers.GenericReadsBoolean | zini.py:239-256 | an untyped `true`/`false` reads as a boolean, not a string |
| Parsers.GenericReadsInteger | zini.py:239-256 | an untyped `str(i)` reads as the integer |
| Parsers.DurationText | zini.py:239-246 | a duration is not quoted, not a boolean, not an integer and not ISO-8601 |
| Parsers.GenericFallsToTimedelta | zini.py:239-256 | a value that none of the first five accept goes to `TimedeltaParser` |
| Parsers.GenericReadsDuration | zini.py:239-256 | an untyped duration that `float()` refuses reads as its total |
| Scheme.FirstMatch | zini.py:334-341 | a match is a table entry the type is a subclass of; no match means no entry fits |
| Scheme.GetParser | zini.py:328-341 | a value becomes the default of a parser of its own type; a type gets its parser without default, and a type outside the table gets the generic parser |
| Scheme.ParserForType | zini.py:328-341 | a declared type's parser produces values of exactly that type |
| Scheme.BoolBeforeInt | zini.py:272-279 | `bool` subclasses `int`, yet gets `BooleanParser`; without the `bool` entry it would get `IntegerParser` |
| Scheme.DeclKeys | zini.py:284 | the keys of the declarations, in order |
| Scheme.DeclareAllLast | zini.py:281-296 | after `Section(data)` or repeated `__setitem__`, the last declaration of a key decides its parser and other keys are kept |
| Scheme.Defaults | zini.py:343-350 | the defaults are exactly the keys whose parser has a default |
| Scheme.ParseTokenTotal | zini.py:324 | `parser(token)` is defined on every non-empty token |
| Scheme.Apply | zini.py:316-324 | the loop only adds keys to the result |
| Scheme.ApplyKeys | zini.py:316-324 | an error-free loop reads a key from every token and adds exactly the tokens' keys |
| Scheme.ApplyUntouched | zini.py:316-324 | a key no token names keeps its entry |
| Scheme.ApplyLast | zini.py:316-324 | the last token that names a key decides its value |
| Scheme.SectionCall | zini.py:313-326 | every default survives in the result |
| Scheme.SectionCallKeys | zini.py:313-326 | the result's keys are the declared defaults plus the parsed keys; a key no token names keeps its default |
| Scheme.SectionCallLast | zini.py:313-326 | parsed values override defaults, and a later duplicate key overrides an earlier one |
| Scheme.SectionCallBlank | zini.py:313-326 | a body of blank lines gives exactly the defaults |
| Scheme.ParseSections | zini.py:97-99 | the loop only adds sections |
| Scheme.ParseSectionsKeys | zini.py:97-99 | the parsed sections are exactly the sections of the text |
| Scheme.ParseSectionsUntouched | zini.py:97-99 | a name no section of the text carries keeps its entry |
| Scheme.ParseSectionsLast | zini.py:97-99 | the last section of the text with a name decides that name's entry, and its call succeeded |
| Scheme.ParseSectionsStep | zini.py:97-99 | one round: the first remaining section's error ends the loop, its success stores the value and goes on |
| Scheme.Visited | zini.py:97-99 | the loop calls at most as many sections as the text has |
| Scheme.ParseSectionsAllOk | zini.py:97-99 | when the loop succeeds every section's call succeeded and all were called |
| Scheme.ParseSectionsStops | zini.py:97-99 | when the loop fails it stops at the first section whose call fails, with that call's error |
| Scheme.RunProgress | zini.py:94-99 | after any number of rounds the loop's result, names seen and count agree with `ParseSections` and `Visited` |
| Scheme.RunDone | zini.py:94-99 | when the loop ends its result is `ParseSections` and it has seen the names of the `Visited` sections |
| Scheme.ZiniParse | zini.py:89-104 | a text that `tokenize_sections` rejects gives that error; a success has every declared section |
| Scheme.ZiniParseLast | zini.py:89-104 | a section of the text is the value of the last section of that name in the text |
| Scheme.WithDefaults | zini.py:101-102 | the result has every declared section and every parsed one |
| Scheme.ZiniParseKeys | zini.py:89-104 | there is an entry for every declared section and every section of the text; a declared section missing from the text gets its defaults |
| Scheme.ZiniParseEmpty | zini.py:105-112 | `defaults`, which parses `''`, gives every declared section its defaults |
| Scheme.Section.constructor | zini.py:281-285 | `Section(data)` declares each entry in turn |
| Scheme.Section.SetItem | zini.py:290-296 | a parser is stored as is; anything else goes through `get_parser` |
| Scheme.Section.GetDefaults | zini.py:343-350 | the loop collects the defaults |
| Scheme.Section.Call | zini.py:313-326 | the loop over the tokens returns `SectionCall` |
| Scheme.Zini.constructor | zini.py:43-44 | a new scheme has no sections |
| Scheme.Zini.SetItem | zini.py:56-64 | a `Section` is stored as is; a dict becomes a fresh `Section`; other sections are unchanged |
| Scheme.Zini.GetItem | zini.py:49-54 | a present section is returned unchanged; a missing one is created empty and stored |
| Scheme.Zini.Parse | zini.py:89-104 | the result is `ZiniParse` of the scheme before the call; existing sections are untouched and new ones are empty; a text that does not split changes nothing; on success every section of the text is in the scheme; on a section's failure exactly the sections up to and including the failing one have been created |
| Scheme.Zini.ParseAll | zini.py:94-99 | the first loop returns `ParseSections`; the scheme gains the sections it called and `lost` keeps the declared sections it did not call |
| Scheme.Zini.Round | zini.py:97-99 | one round calls the next section, adds it to the scheme and removes its name from `lost` |
| Scheme.Zini.CallSection | zini.py:99 | `self[name](body)` parses the body with the section as declared, creating it when missing |
| Scheme.Zini.AddDefaults | zini.py:101-104 | the second loop returns `WithDefaults` |

## Left out

- `Zini.read` (file I/O) is not modelled. `Zini.parse` takes the text.
- `__repr__`, `__str__`, `__iter__`, `__len__` and `__delitem__` of `Zini`, `Section` and `Parser` are not modelled. Neither is the `KeyError` of `Section.__getitem__`, which the parse never reaches: it asks with `in` first.
- Python's dict ordering is not modelled. Results are maps.
- `float()` is not modelled. Its outcome is a parameter (`Externals.float`), and its digits are not modelled.
- `dateutil.parser.parse` is not modelled. Its outcome is a parameter (`Externals.datetime`), which either converts or fails with a message. Its `OverflowError` is not modelled.
- `Parsers.Convert` takes the datetime conversion as given. Only the `RE_ISO8601` shape is modelled in detail.
- Python reflection in `get_parser` (`isinstance`/`issubclass` on arbitrary objects) is closed into `PyType` and `Declared`.
  - A default outside the table is an `Object` known by its name.
  - A type outside the table becomes the generic parser with that type as its default.
- The `TypeError` paths of `__setitem__` are not modelled: a non-string key, or a section value that is neither a dict nor a `Section`. Keys are strings and section values are a closed datatype.
- Custom parsers are not modelled: a declaration that is itself a `Parser`, `OneLineParser` or `BaseSimpleParser` instance, or an instance of a user subclass of them, cannot be written down. `Declared` offers only the table's types and defaults.
- A subclass of `str`, `int`, `float`, `bool` or `datetime`, or an instance of one, is outside `PyType` and so gets the generic parser in the model, where `issubclass` or `isinstance` in `get_parser` would pick the table's parser for its base type.
- `Zini(**sections)` is modelled as the constructor followed by `SetItem` for each section.
- TokenizeSectionsContent: states the bodies' content and that every section is clean, not which header names a section or where its body ends; `SectionTokenizer.TokenizeSectionsHeaders` states those.
- ZiniParseKeys: states the entries and the defaults of the declared sections the text lacks, not the value of a section the text has; `Scheme.ZiniParseLast` states that.
- Text.Lower: folds `A`–`Z` only, where Python's `lower()` folds all of Unicode. No other character lowers to a letter of `true` or `false`, so the boolean check is unaffected.
- Numerals.ParseInt: follows `int()` of Python 3.6 to 3.10 before the releases named in the next line, which accepts `_` between digits and text of any length. The package declares Python 3.3 to 3.5, whose `int()` rejects every `_`; under those versions a text such as `1_000` is not an integer and the generic parser would move on to the float parser.
- Numerals.ParseInt: has no limit on the number of digits. Python 3.11, and the security releases 3.7.14, 3.8.14, 3.9.14 and 3.10.7, make `int()` raise `ValueError` on decimal text of more than 4300 digits; there a duration component that long fails at `int(v)` (zini.py:226) with `ValueError`, where the model's `ToTimedelta` reports an overflow, and `IntegerParser.check` (zini.py:187-190) rejects an integer value that long, so the generic parser moves on to the float parser.
- Numerals.ParseInt: accepts ASCII digits only, and so does `\d` in both regular expressions. Python's `int()` and `\d` also accept the other Unicode decimal digits.
- `str.strip`, `rstrip` and `\s` are modelled with the full set of characters `str.isspace()` accepts.
- `Scheme.Section.Call` and `Scheme.Zini.ParseAll` take a parameter for what each parser makes of a token. `ParseToken(ext)` supplies the one that `Zini.Parse` uses, so each section's loop is proved once for every parser behaviour.
- `Parser.check` on an empty token and the `ValueError` of `get_keyvalue` on an empty token are not modelled. `tokenize` never yields an empty token, which `Scheme.TokensNonEmpty` states, so every call is given a non-empty token.
- The `RuntimeError` branches of `tokenize` and `BooleanParser.__call__` are not modelled. They cannot be reached: the first follows from the indent comparisons, the second from `check`.
- `tokenize` is a generator, and `Section.__call__` consumes it lazily. The model returns the tokens yielded before an indentation error together with that error. An error from parsing an earlier token therefore wins over a later indentation error, as it does in Python.
- Behaviours of `zini.py` that the model keeps as written:
  - blank lines stay inside section bodies and at the end of a token's block;
  - a comment is a line whose first character is `#` or `;`, with no leading whitespace allowed;
  - a block is looked for only when at least two lines follow the token's first line;
  - the block indent is read from the next line even when that line is blank;
  - there is no list or null value.
