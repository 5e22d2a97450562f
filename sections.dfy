/** The section tokenizer: `tokenize_sections` (zini.py:353-384). */
module SectionTokenizer {
  import opened Common
  import opened Text

  /** A `(section_key, section_token)` pair: the name between the brackets of a header and
      the lines that follow it. */
  datatype SectionText = SectionText(name: string, body: seq<Line>)

  /** `line and line[0] in '#;'`: a whole-line comment; only the first column counts. */
  predicate IsComment(s: string) {
    s != [] && (s[0] == '#' || s[0] == ';')
  }

  /** `line.startswith('[') and line.endswith(']')` */
  predicate IsHeader(s: string) {
    s != [] && s[0] == '[' && s[|s| - 1] == ']'
  }

  /** `line[1:-1]` of a header. */
  function HeaderName(s: string): (name: string)
    requires IsHeader(s)
    ensures |name| + 2 == |s| && s == "[" + name + "]"
  {
    s[1..|s| - 1]
  }

  /** The numbered lines with their trailing whitespace removed, as the generator at the
      head of `tokenize_sections` hands them out. */
  function Normalize(lines: seq<Line>): (r: seq<Line>)
    ensures |r| == |lines|
    ensures forall i :: 0 <= i < |lines| ==> r[i] == Line(lines[i].n, RStrip(lines[i].text))
  {
    seq(|lines|, i requires 0 <= i < |lines| => Line(lines[i].n, RStrip(lines[i].text)))
  }

  /** The first loop of `tokenize_sections` from line `i` on: it skips empty and comment
      lines and stops at the first header (`Some` of its index), at the end (`None`), or
      raises at any other line. */
  function FirstHeader(lines: seq<Line>, i: nat): (r: Result<Option<nat>>)
    requires i <= |lines|
    ensures r.Ok? && r.value.Some? ==> i <= r.value.value < |lines| && IsHeader(lines[r.value.value].text)
    decreases |lines| - i
  {
    if i == |lines| then Ok(None)
    else if lines[i].text == [] || IsComment(lines[i].text) then FirstHeader(lines, i + 1)
    else if IsHeader(lines[i].text) then Ok(Some(i))
    else Err(ErrorAt(lines[i]))
  }

  /** `if section_token: yield section_key, section_token` */
  function Flush(name: string, body: seq<Line>): seq<SectionText> {
    if body == [] then [] else [SectionText(name, body)]
  }

  /** The second loop of `tokenize_sections` from line `i` on, with the current section
      named `name` and the lines `body` collected for it so far. */
  function Group(lines: seq<Line>, i: nat, name: string, body: seq<Line>): seq<SectionText>
    requires i <= |lines|
    decreases |lines| - i
  {
    if i == |lines| then Flush(name, body)
    else if IsComment(lines[i].text) then Group(lines, i + 1, name, body)
    else if IsHeader(lines[i].text) then Flush(name, body) + Group(lines, i + 1, HeaderName(lines[i].text), [])
    else Group(lines, i + 1, name, body + [lines[i]])
  }

  /** `list(tokenize_sections(lines))`: the generator raises only before it yields
      anything, so it either fails or produces all its sections. */
  function TokenizeSections(lines: seq<Line>): Result<seq<SectionText>> {
    var norm := Normalize(lines);
    match FirstHeader(norm, 0)
    case Err(e) => Err(e)
    case Ok(None) => Ok([])
    case Ok(Some(h)) => Ok(Group(norm, h + 1, HeaderName(norm[h].text), []))
  }

  /** What the second loop still produces after it has yielded `done`. */
  function Pending(lines: seq<Line>, done: seq<SectionText>, i: nat, name: string, body: seq<Line>): seq<SectionText>
    requires i <= |lines|
  {
    done + Group(lines, i, name, body)
  }

  /** A round of the second loop that drops a comment line. */
  lemma GroupSkip(lines: seq<Line>, done: seq<SectionText>, i: nat, name: string, body: seq<Line>)
    requires i < |lines| && IsComment(lines[i].text)
    ensures Pending(lines, done, i, name, body) == Pending(lines, done, i + 1, name, body)
  {
  }

  /** A round of the second loop that adds a line to the current section. */
  lemma GroupAppend(lines: seq<Line>, done: seq<SectionText>, i: nat, name: string, body: seq<Line>)
    requires i < |lines| && !IsComment(lines[i].text) && !IsHeader(lines[i].text)
    ensures Pending(lines, done, i, name, body) == Pending(lines, done, i + 1, name, body + [lines[i]])
  {
  }

  /** A round of the second loop that starts a new section, after yielding the current one
      if it has lines. */
  lemma GroupHeader(lines: seq<Line>, done: seq<SectionText>, i: nat, name: string, body: seq<Line>)
    requires i < |lines| && IsHeader(lines[i].text)
    ensures Pending(lines, done, i, name, body)
         == Pending(lines, done + Flush(name, body), i + 1, HeaderName(lines[i].text), [])
  {
  }

  /** The end of the second loop: the last section is yielded if it has lines. */
  lemma GroupDone(lines: seq<Line>, done: seq<SectionText>, name: string, body: seq<Line>)
    ensures Pending(lines, done, |lines|, name, body) == done + Flush(name, body)
  {
  }

  lemma FlushAppend(done: seq<SectionText>, name: string, body: seq<Line>)
    ensures done + Flush(name, body) == if body != [] then done + [SectionText(name, body)] else done
  {
    if body == [] {
      assert done + [] == done;
    }
  }

  /** The first loop of `tokenize_sections`: the index of the first header, if the lines
      before it are all empty or comments. */
  method FindFirstHeader(lines: seq<Line>) returns (r: Result<Option<nat>>)
    ensures r == FirstHeader(Normalize(lines), 0)
  {
    ghost var norm := Normalize(lines);
    var i := 0;
    while i < |lines|
      invariant i <= |lines|
      invariant FirstHeader(norm, 0) == FirstHeader(norm, i)
      decreases |lines| - i
    {
      var line := RStrip(lines[i].text);
      assert norm[i] == Line(lines[i].n, line);
      if line == [] || line[0] == '#' || line[0] == ';' {
        i := i + 1;
      } else if line[0] == '[' && line[|line| - 1] == ']' {
        return Ok(Some(i));
      } else {
        return Err(ParseError(lines[i].n, line, None));
      }
    }
    return Ok(None);
  }

  /** The second loop of `tokenize_sections`, from line `start` on, in the section `name0`:
      it builds up each section's lines and yields a section when the next header or the
      end arrives. */
  method GroupSections(lines: seq<Line>, start: nat, name0: string) returns (sections: seq<SectionText>)
    requires start <= |lines|
    ensures sections == Group(Normalize(lines), start, name0, [])
  {
    ghost var norm := Normalize(lines);
    ghost var spec := Group(norm, start, name0, []);
    assert spec == Pending(norm, [], start, name0, []);
    var i := start;
    var name := name0;
    var body: seq<Line> := [];
    sections := [];
    while i < |lines|
      invariant start <= i <= |lines|
      invariant spec == Pending(norm, sections, i, name, body)
      decreases |lines| - i
    {
      var line := RStrip(lines[i].text);
      assert norm[i] == Line(lines[i].n, line);
      if line != [] && (line[0] == '#' || line[0] == ';') {
        GroupSkip(norm, sections, i, name, body);
      } else if line != [] && line[0] == '[' && line[|line| - 1] == ']' {
        GroupHeader(norm, sections, i, name, body);
        FlushAppend(sections, name, body);
        if body != [] {
          sections := sections + [SectionText(name, body)];
        }
        name := line[1..|line| - 1];
        body := [];
      } else {
        GroupAppend(norm, sections, i, name, body);
        body := body + [Line(lines[i].n, line)];
      }
      i := i + 1;
    }
    GroupDone(norm, sections, name, body);
    FlushAppend(sections, name, body);
    if body != [] {
      sections := sections + [SectionText(name, body)];
    }
  }

  /** `tokenize_sections` as the source writes it: the first loop finds the first header,
      the second groups the lines after it. */
  method SplitSections(lines: seq<Line>) returns (r: Result<seq<SectionText>>)
    ensures r == TokenizeSections(lines)
  {
    var first := FindFirstHeader(lines);
    match first {
      case Err(e) =>
        return Err(e);
      case Ok(None) =>
        return Ok([]);
      case Ok(Some(h)) =>
        var line := RStrip(lines[h].text);
        var sections := GroupSections(lines, h + 1, line[1..|line| - 1]);
        return Ok(sections);
    }
  }

  /** A stripped line the first loop does not skip. */
  predicate Significant(s: string) {
    s != [] && !IsComment(s)
  }

  lemma {:induction false} FirstHeaderAt(lines: seq<Line>, i: nat, j: nat)
    requires i <= j <= |lines|
    requires forall m :: i <= m < j ==> !Significant(lines[m].text)
    requires j < |lines| ==> Significant(lines[j].text)
    ensures FirstHeader(lines, i) ==
      if j == |lines| then Ok(None)
      else if IsHeader(lines[j].text) then Ok(Some(j))
      else Err(ErrorAt(lines[j]))
    decreases j - i
  {
    if i < j {
      FirstHeaderAt(lines, i + 1, j);
    }
  }

  /** The first line that is neither empty (once stripped) nor a comment decides: if it is
      not a header, `tokenize_sections` raises at it, with its number and stripped text;
      if it is a header, or there is no such line, it does not raise, and with no such line
      it yields nothing. */
  lemma FirstSignificantLineDecides(lines: seq<Line>, j: nat)
    requires j <= |lines|
    requires forall m :: 0 <= m < j ==> !Significant(RStrip(lines[m].text))
    requires j < |lines| ==> Significant(RStrip(lines[j].text))
    ensures TokenizeSections(lines).Err? <==> j < |lines| && !IsHeader(RStrip(lines[j].text))
    ensures TokenizeSections(lines).Err? ==>
      TokenizeSections(lines).error == ParseError(lines[j].n, RStrip(lines[j].text), None)
    ensures j == |lines| ==> TokenizeSections(lines) == Ok([])
  {
    FirstHeaderAt(Normalize(lines), 0, j);
  }

  /** The lines of the sections, one section after the other. */
  function Bodies(sections: seq<SectionText>): seq<Line> {
    if sections == [] then [] else sections[0].body + Bodies(sections[1..])
  }

  lemma {:induction false} BodiesAppend(a: seq<SectionText>, b: seq<SectionText>)
    ensures Bodies(a + b) == Bodies(a) + Bodies(b)
  {
    if a == [] {
      assert a + b == b;
    } else {
      assert (a + b)[1..] == a[1..] + b;
      BodiesAppend(a[1..], b);
    }
  }

  /** The lines from line `i` on that are neither comments nor headers: what the second
      loop of `tokenize_sections` keeps. */
  function Content(lines: seq<Line>, i: nat): seq<Line>
    requires i <= |lines|
    decreases |lines| - i
  {
    if i == |lines| then []
    else if IsComment(lines[i].text) || IsHeader(lines[i].text) then Content(lines, i + 1)
    else [lines[i]] + Content(lines, i + 1)
  }

  /** The second loop loses no line and reorders nothing: its sections hold, in order, the
      lines collected so far followed by every later line that is not a comment or a header. */
  lemma {:induction false} GroupKeepsContent(lines: seq<Line>, i: nat, name: string, body: seq<Line>)
    requires i <= |lines|
    ensures Bodies(Group(lines, i, name, body)) == body + Content(lines, i)
    decreases |lines| - i
  {
    if i == |lines| {
      assert body + [] == body;
    } else if IsComment(lines[i].text) {
      GroupKeepsContent(lines, i + 1, name, body);
    } else if IsHeader(lines[i].text) {
      var rest := Group(lines, i + 1, HeaderName(lines[i].text), []);
      BodiesAppend(Flush(name, body), rest);
      GroupKeepsContent(lines, i + 1, HeaderName(lines[i].text), []);
      assert [] + Content(lines, i + 1) == Content(lines, i + 1);
    } else {
      GroupKeepsContent(lines, i + 1, name, body + [lines[i]]);
    }
  }

  /** A yielded section: it has lines, and none of them is a comment or a header. */
  predicate CleanSection(s: SectionText) {
    && s.body != []
    && forall l :: l in s.body ==> !IsComment(l.text) && !IsHeader(l.text)
  }

  lemma {:induction false} GroupClean(lines: seq<Line>, i: nat, name: string, body: seq<Line>)
    requires i <= |lines|
    requires forall l :: l in body ==> !IsComment(l.text) && !IsHeader(l.text)
    ensures forall s :: s in Group(lines, i, name, body) ==> CleanSection(s)
    decreases |lines| - i
  {
    if i == |lines| {
    } else if IsComment(lines[i].text) {
      GroupClean(lines, i + 1, name, body);
    } else if IsHeader(lines[i].text) {
      GroupClean(lines, i + 1, HeaderName(lines[i].text), []);
    } else {
      GroupClean(lines, i + 1, name, body + [lines[i]]);
    }
  }

  /** What `tokenize_sections` yields: sections with lines and without comment or header
      lines, which together hold every other line after the first header (stripped), in
      order. */
  lemma TokenizeSectionsContent(lines: seq<Line>) returns (h: nat)
    requires TokenizeSections(lines).Ok?
    ensures forall s :: s in TokenizeSections(lines).value ==> CleanSection(s)
    ensures h < |lines| ==> IsHeader(RStrip(lines[h].text))
    ensures forall m :: 0 <= m < h && m < |lines| ==> !Significant(RStrip(lines[m].text))
    ensures Bodies(TokenizeSections(lines).value) == if h < |lines| then Content(Normalize(lines), h + 1) else []
  {
    var norm := Normalize(lines);
    match FirstHeader(norm, 0)
    case Ok(None) =>
      h := |lines|;
      FirstHeaderNone(norm, 0);
      assert TokenizeSections(lines).value == [];
    case Ok(Some(k)) =>
      h := k;
      FirstHeaderSome(norm, 0);
      var g := Group(norm, h + 1, HeaderName(norm[h].text), []);
      assert TokenizeSections(lines).value == g;
      GroupClean(norm, h + 1, HeaderName(norm[h].text), []);
      assert Bodies(g) == Content(norm, h + 1) by {
        GroupKeepsContent(norm, h + 1, HeaderName(norm[h].text), []);
        assert [] + Content(norm, h + 1) == Content(norm, h + 1);
      }
  }

  /** `tokenize_sections` yields one section per header after the first one (included)
      that has lines, as `HeaderSections` reads them. */
  lemma TokenizeSectionsByHeaders(lines: seq<Line>, h: nat)
    requires h < |lines| && FirstHeader(Normalize(lines), 0) == Ok(Some(h))
    ensures TokenizeSections(lines) == Ok(HeaderSections(Normalize(lines), h))
  {
    var norm := Normalize(lines);
    var n := HeaderName(norm[h].text);
    var e := NextHeader(norm, h + 1);
    GroupByHeaders(norm, h + 1, n, []);
    assert [] + Between(norm, h + 1, e) == Between(norm, h + 1, e);
  }

  /** The first header at or after line `i`, `|lines|` when there is none. */
  function NextHeader(lines: seq<Line>, i: nat): (k: nat)
    requires i <= |lines|
    ensures i <= k <= |lines| && (k < |lines| ==> IsHeader(lines[k].text))
    decreases |lines| - i
  {
    if i == |lines| || IsHeader(lines[i].text) then i else NextHeader(lines, i + 1)
  }

  /** No line `NextHeader` passes over is a header. */
  lemma {:induction false} NextHeaderFirst(lines: seq<Line>, i: nat)
    requires i <= |lines|
    ensures forall m :: i <= m < NextHeader(lines, i) ==> !IsHeader(lines[m].text)
    decreases |lines| - i
  {
    if i < |lines| && !IsHeader(lines[i].text) {
      NextHeaderFirst(lines, i + 1);
    }
  }

  /** The lines from line `i` up to line `j` that are neither comments nor headers. */
  function Between(lines: seq<Line>, i: nat, j: nat): seq<Line>
    requires i <= j <= |lines|
    decreases j - i
  {
    if i == j then []
    else (if IsComment(lines[i].text) || IsHeader(lines[i].text) then [] else [lines[i]]) + Between(lines, i + 1, j)
  }

  /** The sections read from the header at line `h` on: each header names the lines after
      it up to the next header, and a header followed by no such line yields nothing. */
  function HeaderSections(lines: seq<Line>, h: nat): seq<SectionText>
    requires h < |lines| && IsHeader(lines[h].text)
    decreases |lines| - h
  {
    var e := NextHeader(lines, h + 1);
    Flush(HeaderName(lines[h].text), Between(lines, h + 1, e))
      + if e < |lines| then HeaderSections(lines, e) else []
  }

  /** The sections after the header at line `h`, when it has none of its own. */
  function Tail(lines: seq<Line>, e: nat): seq<SectionText>
    requires e <= |lines| && (e < |lines| ==> IsHeader(lines[e].text))
  {
    if e < |lines| then HeaderSections(lines, e) else []
  }

  /** The second loop, in the middle of a section, finishes that section with the lines up
      to the next header and then yields one section per header that has lines. */
  lemma {:induction false} GroupByHeaders(lines: seq<Line>, i: nat, name: string, body: seq<Line>)
    requires i <= |lines|
    ensures Group(lines, i, name, body)
         == Flush(name, body + Between(lines, i, NextHeader(lines, i))) + Tail(lines, NextHeader(lines, i))
    decreases |lines| - i
  {
    if i == |lines| {
      assert body + [] == body;
      assert Flush(name, body) + [] == Flush(name, body);
    } else if IsHeader(lines[i].text) {
      GroupByHeaders(lines, i + 1, HeaderName(lines[i].text), []);
      GroupHeaderStep(lines, i, name, body);
    } else if IsComment(lines[i].text) {
      GroupByHeaders(lines, i + 1, name, body);
      GroupCommentStep(lines, i, name, body);
    } else {
      GroupByHeaders(lines, i + 1, name, body + [lines[i]]);
      GroupLineStep(lines, i, name, body);
    }
  }

  /** A header ends the current section and starts its own. */
  lemma GroupHeaderStep(lines: seq<Line>, i: nat, name: string, body: seq<Line>)
    requires i < |lines| && IsHeader(lines[i].text)
    requires Group(lines, i + 1, HeaderName(lines[i].text), [])
          == Flush(HeaderName(lines[i].text), [] + Between(lines, i + 1, NextHeader(lines, i + 1))) + Tail(lines, NextHeader(lines, i + 1))
    ensures Group(lines, i, name, body)
         == Flush(name, body + Between(lines, i, NextHeader(lines, i))) + Tail(lines, NextHeader(lines, i))
  {
    var n := HeaderName(lines[i].text);
    var e := NextHeader(lines, i + 1);
    assert NextHeader(lines, i) == i && Between(lines, i, i) == [] && body + [] == body;
    assert [] + Between(lines, i + 1, e) == Between(lines, i + 1, e);
    TailAtHeader(lines, i);
    assert Group(lines, i, name, body) == Flush(name, body) + Group(lines, i + 1, n, []);
  }

  /** The sections from a header on: its own, then those from the next header on. */
  lemma TailAtHeader(lines: seq<Line>, i: nat)
    requires i < |lines| && IsHeader(lines[i].text)
    ensures Tail(lines, i)
         == Flush(HeaderName(lines[i].text), Between(lines, i + 1, NextHeader(lines, i + 1))) + Tail(lines, NextHeader(lines, i + 1))
  {
    assert Tail(lines, i) == HeaderSections(lines, i);
  }

  /** A comment line is skipped. */
  lemma GroupCommentStep(lines: seq<Line>, i: nat, name: string, body: seq<Line>)
    requires i < |lines| && !IsHeader(lines[i].text) && IsComment(lines[i].text)
    requires Group(lines, i + 1, name, body)
          == Flush(name, body + Between(lines, i + 1, NextHeader(lines, i + 1))) + Tail(lines, NextHeader(lines, i + 1))
    ensures Group(lines, i, name, body)
         == Flush(name, body + Between(lines, i, NextHeader(lines, i))) + Tail(lines, NextHeader(lines, i))
  {
    var e := NextHeader(lines, i);
    assert e == NextHeader(lines, i + 1);
    assert Between(lines, i, e) == Between(lines, i + 1, e);
  }

  /** A line that is neither a comment nor a header joins the current section. */
  lemma GroupLineStep(lines: seq<Line>, i: nat, name: string, body: seq<Line>)
    requires i < |lines| && !IsHeader(lines[i].text) && !IsComment(lines[i].text)
    requires Group(lines, i + 1, name, body + [lines[i]])
          == Flush(name, body + [lines[i]] + Between(lines, i + 1, NextHeader(lines, i + 1))) + Tail(lines, NextHeader(lines, i + 1))
    ensures Group(lines, i, name, body)
         == Flush(name, body + Between(lines, i, NextHeader(lines, i))) + Tail(lines, NextHeader(lines, i))
  {
    var e := NextHeader(lines, i);
    assert e == NextHeader(lines, i + 1);
    assert Between(lines, i, e) == [lines[i]] + Between(lines, i + 1, e);
    assert body + [lines[i]] + Between(lines, i + 1, e) == body + Between(lines, i, e);
  }

  /** Every section read from the header at line `h` on has lines, and is the name of some
      header at or after `h` with the lines between that header and the next. */
  lemma {:induction false} HeaderSectionsAt(lines: seq<Line>, h: nat)
    requires h < |lines| && IsHeader(lines[h].text)
    ensures forall s :: s in HeaderSections(lines, h) ==>
      && s.body != []
      && (exists g :: h <= g < |lines| && IsHeader(lines[g].text) &&
            s == SectionText(HeaderName(lines[g].text), Between(lines, g + 1, NextHeader(lines, g + 1))))
    decreases |lines| - h
  {
    var e := NextHeader(lines, h + 1);
    var first := Flush(HeaderName(lines[h].text), Between(lines, h + 1, e));
    if e < |lines| {
      HeaderSectionsAt(lines, e);
    }
    forall s | s in HeaderSections(lines, h)
      ensures s.body != []
      ensures exists g :: (h <= g < |lines| && IsHeader(lines[g].text) &&
        s == SectionText(HeaderName(lines[g].text), Between(lines, g + 1, NextHeader(lines, g + 1))))
    {
      if s in first {
        assert h <= h < |lines| && IsHeader(lines[h].text);
      }
    }
  }

  /** What `tokenize_sections` yields, section by section: each `(name, body)` has a
      non-empty body, its name is that of a header line `g` of the text, and its body is
      the lines between header `g` and the next header that are not comments, with their
      trailing whitespace stripped. */
  lemma TokenizeSectionsHeaders(lines: seq<Line>)
    requires TokenizeSections(lines).Ok?
    ensures forall s :: s in TokenizeSections(lines).value ==>
      && s.body != []
      && (exists g :: 0 <= g < |lines| && IsHeader(RStrip(lines[g].text)) &&
            s.name == HeaderName(RStrip(lines[g].text)) &&
            s.body == Between(Normalize(lines), g + 1, NextHeader(Normalize(lines), g + 1)))
  {
    var norm := Normalize(lines);
    match FirstHeader(norm, 0)
    case Ok(None) =>
      assert TokenizeSections(lines).value == [];
    case Ok(Some(h)) =>
      TokenizeSectionsByHeaders(lines, h);
      HeaderSectionsAt(norm, h);
      forall s | s in TokenizeSections(lines).value
        ensures exists g :: (0 <= g < |lines| && IsHeader(RStrip(lines[g].text)) &&
          s.name == HeaderName(RStrip(lines[g].text)) &&
          s.body == Between(norm, g + 1, NextHeader(norm, g + 1)))
      {
        var g :| h <= g < |lines| && IsHeader(norm[g].text) &&
          s == SectionText(HeaderName(norm[g].text), Between(norm, g + 1, NextHeader(norm, g + 1)));
        assert norm[g].text == RStrip(lines[g].text);
      }
  }

  lemma {:induction false} FirstHeaderNone(lines: seq<Line>, i: nat)
    requires i <= |lines| && FirstHeader(lines, i) == Ok(None)
    ensures forall m :: i <= m < |lines| ==> !Significant(lines[m].text)
    decreases |lines| - i
  {
    if i < |lines| {
      FirstHeaderNone(lines, i + 1);
    }
  }

  lemma {:induction false} FirstHeaderSome(lines: seq<Line>, i: nat)
    requires i <= |lines| && FirstHeader(lines, i).Ok? && FirstHeader(lines, i).value.Some?
    ensures forall m :: i <= m < FirstHeader(lines, i).value.value ==> !Significant(lines[m].text)
    decreases |lines| - i
  {
    if i < |lines| && !IsHeader(lines[i].text) {
      FirstHeaderSome(lines, i + 1);
    }
  }
}
