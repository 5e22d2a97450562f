/** The block tokenizer: `tokenize` and `get_indent` (zini.py:387-420, 448-456). */
module BlockTokenizer {
  import opened Common
  import opened Text

  /** One key/value line followed by its more-indented continuation lines. */
  type Token = seq<Line>

  /** What a run of `tokenize` produces: the tokens it yields before it stops, and the
      error it raises when it stops early. */
  datatype Tokens = Tokens(tokens: seq<Token>, error: Option<Error>)

  /** `not line.strip()`: the line is nothing but whitespace (see `BlankIsStripEmpty`). */
  predicate IsBlank(s: string) {
    forall i :: 0 <= i < |s| ==> IsSpace(s[i])
  }

  lemma BlankIsStripEmpty(s: string)
    ensures IsBlank(s) <==> Strip(s) == []
  {
    StripEmptyIffBlank(s);
  }

  /** The number of leading ' ' characters of `s`. */
  function LeadingSpaces(s: string): (k: nat)
    ensures k <= |s|
  {
    if s == [] || s[0] != ' ' then 0 else 1 + LeadingSpaces(s[1..])
  }

  lemma {:induction false} LeadingSpacesRun(s: string)
    ensures forall i :: 0 <= i < LeadingSpaces(s) ==> s[i] == ' '
    ensures LeadingSpaces(s) == |s| || s[LeadingSpaces(s)] != ' '
  {
    if s != [] && s[0] == ' ' {
      LeadingSpacesRun(s[1..]);
    }
  }

  /** `get_indent`: the position of the first character that is not a space; the empty
      string has indent 0. Tabs are not spaces. */
  function GetIndent(s: string): (n: nat)
    ensures n <= |s| && (s != [] ==> n < |s|)
  {
    var k := LeadingSpaces(s);
    if k < |s| then k else if s == [] then 0 else |s| - 1
  }

  /** `get_indent` counts the leading spaces of a line that holds something else; for a
      string made only of spaces its loop runs off the end and leaves its index at the
      last character. */
  lemma GetIndentCounts(s: string)
    ensures GetIndent(s) <= |s| && (s != [] ==> GetIndent(s) < |s|)
    ensures forall i :: 0 <= i < GetIndent(s) ==> s[i] == ' '
    ensures (exists i :: 0 <= i < |s| && s[i] != ' ') ==> s[GetIndent(s)] != ' '
    ensures (forall i :: 0 <= i < |s| ==> s[i] == ' ') ==> GetIndent(s) == if s == [] then 0 else |s| - 1
  {
    LeadingSpacesRun(s);
  }

  /** The indent the continuation loop gives a line: a blank line counts as being at the
      block indent `bi`. */
  function EffectiveIndent(s: string, bi: nat): nat {
    if !IsBlank(s) then GetIndent(s) else bi
  }

  /** The end of the run of continuation lines that starts at line `from` for block indent
      `bi`: the first line the inner loop of `tokenize` does not append, because it is
      indented less than `bi`; `|lines|` when there is none. */
  function BlockEnd(lines: seq<Line>, from: nat, bi: nat): (k: nat)
    requires from <= |lines|
    ensures from <= k <= |lines|
    decreases |lines| - from
  {
    if from == |lines| || EffectiveIndent(lines[from].text, bi) < bi then from
    else BlockEnd(lines, from + 1, bi)
  }

  /** Every line of the run is indented at least `bi`, the line that ends it is not. */
  lemma {:induction false} BlockEndStops(lines: seq<Line>, from: nat, bi: nat)
    requires from <= |lines|
    ensures forall m :: from <= m < BlockEnd(lines, from, bi) ==> EffectiveIndent(lines[m].text, bi) >= bi
    ensures BlockEnd(lines, from, bi) < |lines| ==> EffectiveIndent(lines[BlockEnd(lines, from, bi)].text, bi) < bi
    decreases |lines| - from
  {
    if from < |lines| && EffectiveIndent(lines[from].text, bi) >= bi {
      BlockEndStops(lines, from + 1, bi);
    }
  }

  /** `BlockEnd` is the first line at or after `from` that is indented less than `bi`. */
  lemma {:induction false} BlockEndIs(lines: seq<Line>, from: nat, bi: nat, k: nat)
    requires from <= k <= |lines|
    requires forall m :: from <= m < k ==> EffectiveIndent(lines[m].text, bi) >= bi
    requires k < |lines| ==> EffectiveIndent(lines[k].text, bi) < bi
    ensures BlockEnd(lines, from, bi) == k
    decreases k - from
  {
    if from < k {
      BlockEndIs(lines, from + 1, bi, k);
    }
  }

  function Prepend(t: Token, ts: Tokens): Tokens {
    Tokens([t] + ts.tokens, ts.error)
  }

  /** Where the token whose first line is line `i` ends, or the error its continuation run
      raises. A block is only looked for when at least two lines follow the token's first
      line, and the block indent is taken from the very next line, blank or not. A line of
      the run indented deeper than the token but less than the block is an error. */
  function TokenEnd(lines: seq<Line>, i: nat): (r: Result<nat>)
    requires i < |lines|
    ensures r.Ok? ==> i < r.value <= |lines|
  {
    var ti := GetIndent(lines[i].text);
    if |lines| - (i + 1) > 1 && GetIndent(lines[i + 1].text) > ti then
      var bi := GetIndent(lines[i + 1].text);
      var k := BlockEnd(lines, i + 1, bi);
      if k < |lines| && EffectiveIndent(lines[k].text, bi) > ti then Err(ErrorAt(lines[k]))
      else Ok(k)
    else
      Ok(i + 1)
  }

  /** What `tokenize` yields from line `i` on: blank lines between tokens are skipped,
      every other line starts a token. */
  function TokenizeFrom(lines: seq<Line>, i: nat): Tokens
    requires i <= |lines|
    decreases |lines| - i
  {
    if i == |lines| then Tokens([], None)
    else if IsBlank(lines[i].text) then TokenizeFrom(lines, i + 1)
    else
      match TokenEnd(lines, i)
      case Err(e) => Tokens([], Some(e))
      case Ok(n) => Prepend(lines[i..n], TokenizeFrom(lines, n))
  }

  /** `tokenize(lines)`, as the sequence of tokens it yields and the error that ends it. */
  function Tokenize(lines: seq<Line>): Tokens {
    TokenizeFrom(lines, 0)
  }

  /** The state of `tokenize` after it has yielded `done` and still holds the lines from
      line `i` on. */
  function Resume(lines: seq<Line>, done: seq<Token>, i: nat): Tokens
    requires i <= |lines|
  {
    Tokens(done + TokenizeFrom(lines, i).tokens, TokenizeFrom(lines, i).error)
  }

  /** A round of the outer loop of `tokenize` that skips a blank line. */
  lemma SkipStep(lines: seq<Line>, done: seq<Token>, i: nat)
    requires i < |lines| && IsBlank(lines[i].text)
    ensures Resume(lines, done, i) == Resume(lines, done, i + 1)
  {
  }

  /** A round of the outer loop of `tokenize` that yields a one-line token. */
  lemma LineStep(lines: seq<Line>, done: seq<Token>, i: nat)
    requires i < |lines| && !IsBlank(lines[i].text)
    requires !(|lines| - (i + 1) > 1 && GetIndent(lines[i + 1].text) > GetIndent(lines[i].text))
    ensures Resume(lines, done, i) == Resume(lines, done + [[lines[i]]], i + 1)
  {
    assert lines[i..i + 1] == [lines[i]];
  }

  /** A round of the outer loop of `tokenize` that runs the inner loop, given what the inner
      loop left behind. */
  lemma BlockStep(lines: seq<Line>, done: seq<Token>, i: nat, token: Token, rest: seq<Line>, error: Option<Error>)
    requires i < |lines| && !IsBlank(lines[i].text)
    requires |lines| - (i + 1) > 1 && GetIndent(lines[i + 1].text) > GetIndent(lines[i].text)
    requires var ti, bi := GetIndent(lines[i].text), GetIndent(lines[i + 1].text);
      var k := BlockEnd(lines, i + 1, bi);
      if k < |lines| && EffectiveIndent(lines[k].text, bi) > ti then error == Some(ErrorAt(lines[k]))
      else error == None && token == [lines[i]] + lines[i + 1..k] && rest == lines[k..]
    ensures error.Some? ==> Resume(lines, done, i) == Tokens(done, error)
    ensures error.None? ==> Resume(lines, done, i) == Resume(lines, done + [token], |lines| - |rest|)
  {
    if error.Some? {
      assert done + [] == done;
    } else {
      var n := TokenEnd(lines, i).value;
      assert token == lines[i..n];
    }
  }

  /** `tokenize` as the source writes it: it consumes a copy of the line list from the
      front and yields one token per non-blank line that starts one. */
  method TokenizeLines(lines: seq<Line>) returns (tokens: seq<Token>, error: Option<Error>)
    ensures Tokens(tokens, error) == Tokenize(lines)
  {
    var rest := lines;
    tokens := [];
    error := None;
    ghost var pos: nat := 0;
    assert [] + Tokenize(lines).tokens == Tokenize(lines).tokens;
    while |rest| > 0
      invariant pos <= |lines| && rest == lines[pos..]
      invariant error == None
      invariant Tokenize(lines) == Resume(lines, tokens, pos)
      decreases |rest|
    {
      var first := rest[0];
      rest := rest[1..];
      if IsBlank(first.text) {
        SkipStep(lines, tokens, pos);
        pos := pos + 1;
        continue;
      }
      var tokenIndent := GetIndent(first.text);
      var token := [first];
      if |rest| > 1 && GetIndent(rest[0].text) > tokenIndent {
        var blockIndent := GetIndent(rest[0].text);
        token, rest, error := TakeBlock(token, rest, tokenIndent, blockIndent, lines, pos + 1);
        BlockStep(lines, tokens, pos, token, rest, error);
        if error.Some? {
          return;
        }
        pos := |lines| - |rest|;
      } else {
        LineStep(lines, tokens, pos);
        pos := pos + 1;
      }
      tokens := tokens + [token];
    }
  }

  /** The inner loop of `tokenize`: moves continuation lines from the front of `rest` onto
      `token` while they are indented at least `bi` (blank lines count as at `bi`), stops at
      a line indented no deeper than `ti`, and raises at a line indented strictly between.
      `rest0` is what is left of `lines` from line `from` on. */
  method TakeBlock(token0: Token, rest0: seq<Line>, ti: nat, bi: nat, ghost lines: seq<Line>, ghost from: nat)
    returns (token: Token, rest: seq<Line>, error: Option<Error>)
    requires ti < bi && from <= |lines| && rest0 == lines[from..]
    ensures var k := BlockEnd(lines, from, bi);
      if k < |lines| && EffectiveIndent(lines[k].text, bi) > ti then error == Some(ErrorAt(lines[k]))
      else error == None && token == token0 + lines[from..k] && rest == lines[k..]
  {
    token, rest, error := token0, rest0, None;
    ghost var k := from;
    while |rest| > 0
      invariant from <= k <= |lines| && rest == lines[k..] && token == token0 + lines[from..k]
      invariant forall m :: from <= m < k ==> EffectiveIndent(lines[m].text, bi) >= bi
      decreases |rest|
    {
      var line := rest[0];
      var indent := if !IsBlank(line.text) then GetIndent(line.text) else bi;
      if indent <= ti {
        BlockEndIs(lines, from, bi, k);
        return;
      } else if indent < bi {
        error := Some(ErrorAt(line));
        BlockEndIs(lines, from, bi, k);
        return;
      }
      assert lines[from..k + 1] == lines[from..k] + [line];
      token := token + [line];
      rest := rest[1..];
      k := k + 1;
    }
    BlockEndIs(lines, from, bi, k);
  }

  /** The first line at or after line `i` that is not blank, `|lines|` when there is none:
      where the outer loop of `tokenize` starts its next token. */
  function NextStart(lines: seq<Line>, i: nat): (k: nat)
    requires i <= |lines|
    ensures i <= k <= |lines| && (k < |lines| ==> !IsBlank(lines[k].text))
    decreases |lines| - i
  {
    if i == |lines| || !IsBlank(lines[i].text) then i else NextStart(lines, i + 1)
  }

  /** Every line `NextStart` passes over is blank. */
  lemma {:induction false} NextStartSkipsBlanks(lines: seq<Line>, i: nat)
    requires i <= |lines|
    ensures forall m :: i <= m < NextStart(lines, i) ==> IsBlank(lines[m].text)
    decreases |lines| - i
  {
    if i < |lines| && IsBlank(lines[i].text) {
      NextStartSkipsBlanks(lines, i + 1);
    }
  }

  /** The lines from line `i` up to line `p` are the tokens `ts` in order, each one a
      contiguous run of lines that starts at the next non-blank line and ends where
      `TokenCloses` says; only the blank lines in front of a token (and after the last one)
      are left out. */
  predicate Segments(lines: seq<Line>, i: nat, p: nat, ts: seq<Token>)
    requires i <= p <= |lines|
    decreases |ts|
  {
    var s := NextStart(lines, i);
    if ts == [] then s >= p
    else
      && s < p && 0 < |ts[0]| <= p - s
      && ts[0] == lines[s..s + |ts[0]|]
      && TokenCloses(lines, s, s + |ts[0]|)
      && Segments(lines, s + |ts[0]|, p, ts[1..])
  }

  /** Where a token that starts at line `s` and runs up to line `e` may end. Without a block
      (fewer than two lines follow line `s`, or the next line is not deeper) it is line `s`
      alone. With one it takes more than one line and stops only at the end of the input
      or at a non-blank line no deeper than line `s`: a blank line never closes a block. */
  predicate TokenCloses(lines: seq<Line>, s: nat, e: nat)
    requires s < e <= |lines|
  {
    var ti := GetIndent(lines[s].text);
    if |lines| - (s + 1) > 1 && GetIndent(lines[s + 1].text) > ti then
      e > s + 1 && (e == |lines| || (!IsBlank(lines[e].text) && GetIndent(lines[e].text) <= ti))
    else
      e == s + 1
  }

  /** A token: a non-blank first line and, when there are continuation lines, a block indent
      (that of the second line) deeper than the first line, which every continuation line
      that is not blank reaches. */
  predicate WellIndented(t: Token) {
    && |t| > 0
    && !IsBlank(t[0].text)
    && (|t| > 1 ==>
          && GetIndent(t[1].text) > GetIndent(t[0].text)
          && forall j :: 1 <= j < |t| ==> IsBlank(t[j].text) || GetIndent(t[j].text) >= GetIndent(t[1].text))
  }

  /** The token that starts at line `i` is well indented. */
  lemma TokenEndIndentation(lines: seq<Line>, i: nat)
    requires i < |lines| && !IsBlank(lines[i].text) && TokenEnd(lines, i).Ok?
    ensures WellIndented(lines[i..TokenEnd(lines, i).value])
  {
    var n := TokenEnd(lines, i).value;
    var t := lines[i..n];
    if n > i + 1 {
      var bi := GetIndent(lines[i + 1].text);
      BlockEndStops(lines, i + 1, bi);
      forall j | 1 <= j < |t|
        ensures IsBlank(t[j].text) || GetIndent(t[j].text) >= GetIndent(t[1].text)
      {
        assert t[j] == lines[i + j];
      }
    }
  }

  /** The token `tokenize` takes from line `i` closes where `TokenCloses` says: a single line
      unless a block opens, else the whole run of the block. */
  lemma TokenEndCloses(lines: seq<Line>, i: nat)
    requires i < |lines| && TokenEnd(lines, i).Ok?
    ensures TokenCloses(lines, i, TokenEnd(lines, i).value)
  {
    var n := TokenEnd(lines, i).value;
    if n > i + 1 && n < |lines| {
      BlockEndStops(lines, i + 1, GetIndent(lines[i + 1].text));
    }
  }

  /** Conversely, a well-indented run of lines that closes where `TokenCloses` says is
      exactly the token `tokenize` takes from its first line, and taking it raises nothing. */
  lemma TokenEndIs(lines: seq<Line>, i: nat, e: nat)
    requires i < e <= |lines| && TokenCloses(lines, i, e) && WellIndented(lines[i..e])
    ensures TokenEnd(lines, i) == Ok(e)
  {
    var ti := GetIndent(lines[i].text);
    if e > i + 1 {
      var bi := GetIndent(lines[i + 1].text);
      var t := lines[i..e];
      assert t[1] == lines[i + 1];
      forall m | i + 1 <= m < e
        ensures EffectiveIndent(lines[m].text, bi) >= bi
      {
        assert t[m - i] == lines[m];
      }
      BlockEndIs(lines, i + 1, bi, e);
    }
  }

  /** Line `j` of `lines` is an indentation jump in the run after the token that starts at
      line `i`: it is not blank and is indented deeper than line `i` but less deep than
      line `i + 1`, which sets the block indent, and every line between belongs to the
      block. */
  predicate JumpAt(lines: seq<Line>, i: nat, j: nat) {
    && i + 1 < j < |lines|
    && !IsBlank(lines[i].text) && !IsBlank(lines[j].text)
    && GetIndent(lines[i].text) < GetIndent(lines[j].text) < GetIndent(lines[i + 1].text)
    && forall m :: i < m < j ==> EffectiveIndent(lines[m].text, GetIndent(lines[i + 1].text)) >= GetIndent(lines[i + 1].text)
  }

  /** The token that starts at line `i` raises only at an indentation jump. */
  lemma TokenEndError(lines: seq<Line>, i: nat) returns (j: nat)
    requires i < |lines| && !IsBlank(lines[i].text) && TokenEnd(lines, i).Err?
    ensures JumpAt(lines, i, j) && TokenEnd(lines, i).error == ErrorAt(lines[j])
  {
    var bi := GetIndent(lines[i + 1].text);
    j := BlockEnd(lines, i + 1, bi);
    BlockEndStops(lines, i + 1, bi);
    assert j > i + 1 by {
      assert EffectiveIndent(lines[i + 1].text, bi) == bi;
    }
  }

  /** A blank line in front of the tokens is skipped. */
  lemma SegmentsSkip(lines: seq<Line>, i: nat, p: nat, ts: seq<Token>)
    requires i < p <= |lines| && IsBlank(lines[i].text) && Segments(lines, i + 1, p, ts)
    ensures Segments(lines, i, p, ts)
  {
    assert NextStart(lines, i) == NextStart(lines, i + 1);
  }

  /** A token that starts at a non-blank line `i` comes first. */
  lemma SegmentsCons(lines: seq<Line>, i: nat, p: nat, t: Token, ts: seq<Token>)
    requires i < |lines| && !IsBlank(lines[i].text)
    requires 0 < |t| && i + |t| <= p <= |lines| && t == lines[i..i + |t|]
    requires TokenCloses(lines, i, i + |t|)
    requires Segments(lines, i + |t|, p, ts)
    ensures Segments(lines, i, p, [t] + ts)
  {
    assert ([t] + ts)[1..] == ts;
  }

  /** The token that starts at a non-blank line `i` is put in front of the tokens that
      follow it. */
  lemma SegmentsToken(lines: seq<Line>, i: nat, p: nat)
    requires i < |lines| && !IsBlank(lines[i].text) && TokenEnd(lines, i).Ok?
    requires TokenEnd(lines, i).value <= p <= |lines|
    requires Segments(lines, TokenEnd(lines, i).value, p, TokenizeFrom(lines, TokenEnd(lines, i).value).tokens)
    ensures Segments(lines, i, p, TokenizeFrom(lines, i).tokens)
  {
    var n := TokenEnd(lines, i).value;
    TokenEndCloses(lines, i);
    SegmentsCons(lines, i, p, lines[i..n], TokenizeFrom(lines, n).tokens);
  }

  /** The tokens are the lines `tokenize` has consumed from line `i` on up to line `p`, in
      their order, less the blank lines it skipped in front of a token. Without an error it
      consumes every line; with one, line `p` is the first line of the token that raises. */
  lemma {:induction false} TokenizeKeepsOrder(lines: seq<Line>, i: nat) returns (p: nat)
    requires i <= |lines|
    ensures i <= p <= |lines|
    ensures Segments(lines, i, p, TokenizeFrom(lines, i).tokens)
    ensures TokenizeFrom(lines, i).error == None ==> p == |lines|
    ensures TokenizeFrom(lines, i).error.Some? ==>
      && p < |lines| && !IsBlank(lines[p].text) && TokenEnd(lines, p).Err?
      && TokenizeFrom(lines, i).error == Some(TokenEnd(lines, p).error)
    decreases |lines| - i
  {
    if i == |lines| {
      p := i;
    } else if IsBlank(lines[i].text) {
      p := TokenizeKeepsOrder(lines, i + 1);
      SegmentsSkip(lines, i, p, TokenizeFrom(lines, i + 1).tokens);
    } else if TokenEnd(lines, i).Err? {
      p := i;
    } else {
      p := TokenizeKeepsOrder(lines, TokenEnd(lines, i).value);
      SegmentsToken(lines, i, p);
    }
  }

  /** Every token `tokenize` yields from line `i` on starts with a non-blank line, and its
      continuation lines sit at or below a block indent that is deeper than the token's
      own indent. */
  lemma {:induction false} TokenizeIndentation(lines: seq<Line>, i: nat)
    requires i <= |lines|
    ensures forall t :: t in TokenizeFrom(lines, i).tokens ==> WellIndented(t)
    decreases |lines| - i
  {
    if i == |lines| {
    } else if IsBlank(lines[i].text) {
      TokenizeIndentation(lines, i + 1);
    } else if TokenEnd(lines, i).Ok? {
      TokenEndIndentation(lines, i);
      TokenizeIndentation(lines, TokenEnd(lines, i).value);
    }
  }

  /** `tokenize` raises only at an indentation jump: a line indented deeper than the first
      line of its token but less deep than the block. */
  lemma {:induction false} TokenizeErrorIsJump(lines: seq<Line>, i: nat) returns (t: nat, j: nat)
    requires i <= |lines| && TokenizeFrom(lines, i).error.Some?
    ensures i <= t && JumpAt(lines, t, j) && TokenizeFrom(lines, i).error == Some(ErrorAt(lines[j]))
    decreases |lines| - i
  {
    if IsBlank(lines[i].text) {
      t, j := TokenizeErrorIsJump(lines, i + 1);
    } else if TokenEnd(lines, i).Err? {
      t := i;
      j := TokenEndError(lines, i);
    } else {
      t, j := TokenizeErrorIsJump(lines, TokenEnd(lines, i).value);
    }
  }

  /** Conversely, a token whose run holds an indentation jump raises at that line. */
  lemma JumpRaises(lines: seq<Line>, i: nat, j: nat)
    requires i < |lines| && JumpAt(lines, i, j)
    ensures TokenEnd(lines, i) == Err(ErrorAt(lines[j]))
  {
    BlockEndIs(lines, i + 1, GetIndent(lines[i + 1].text), j);
  }

  /** The outer loop of `tokenize`, started at line `i`, comes to line `t` as the start of
      a token or the end of the input: it skips blank lines and steps over whole tokens. */
  predicate Reaches(lines: seq<Line>, i: nat, t: nat)
    requires i <= t <= |lines|
    decreases t - i
  {
    || i == t
    || (&& i < t
        && if IsBlank(lines[i].text) then Reaches(lines, i + 1, t)
           else TokenEnd(lines, i).Ok? && TokenEnd(lines, i).value <= t && Reaches(lines, TokenEnd(lines, i).value, t))
  }

  /** Once the loop has reached a token whose run holds an indentation jump, `tokenize`
      raises at that line. */
  lemma {:induction false} ReachedJumpRaises(lines: seq<Line>, i: nat, t: nat, j: nat)
    requires i <= t < |lines| && Reaches(lines, i, t) && JumpAt(lines, t, j)
    ensures TokenizeFrom(lines, i).error == Some(ErrorAt(lines[j]))
    decreases t - i
  {
    if i == t {
      JumpRaises(lines, t, j);
    } else if IsBlank(lines[i].text) {
      ReachedJumpRaises(lines, i + 1, t, j);
    } else {
      ReachedJumpRaises(lines, TokenEnd(lines, i).value, t, j);
    }
  }
}
