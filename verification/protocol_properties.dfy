/** What the reply parser of internal/review/review.go guarantees. */
module ProtocolProperties {
  import opened Results
  import opened Text
  import opened Protocol

  /** The parser run over a list of lines, without the sentinel check. */
  function ParseLines(lines: seq<string>, file: string): seq<Suggestion> {
    Finish(Run(Initial, lines, file))
  }

  lemma {:induction false} RunAppend(st: ParserState, a: seq<string>, b: seq<string>, file: string)
    ensures Run(st, a + b, file) == Run(Run(st, a, file), b, file)
    decreases |a|
  {
    if a != [] {
      assert (a + b)[0] == a[0];
      assert (a + b)[1..] == a[1..] + b;
      RunAppend(Step(st, a[0], file), a[1..], b, file);
    } else {
      assert a + b == b;
    }
  }

  /** Everything the parser has emitted, and the record it holds open,
      belongs to `file`; every emitted record has a title. */
  predicate Sound(st: ParserState, file: string) {
    && (forall k :: 0 <= k < |st.emitted| ==> st.emitted[k].title != "" && st.emitted[k].file == file)
    && (st.current.Some? ==> st.current.value.file == file)
  }

  /** Closing a block never changes the record's file. */
  lemma CloseBlockKeepsFile(current: Option<Suggestion>, field: BlockField, content: string)
    ensures CloseBlock(current, field, content).Some? <==> current.Some?
    ensures current.Some? ==> CloseBlock(current, field, content).value.file == current.value.file
  {
  }

  /** Emitting keeps every emitted record titled and about `file`. */
  lemma FlushSound(emitted: seq<Suggestion>, current: Option<Suggestion>, file: string)
    requires forall k :: 0 <= k < |emitted| ==> emitted[k].title != "" && emitted[k].file == file
    requires current.Some? ==> current.value.file == file
    ensures forall k :: 0 <= k < |Flush(emitted, current)| ==>
      Flush(emitted, current)[k].title != "" && Flush(emitted, current)[k].file == file
  {
  }

  lemma StepSound(st: ParserState, line: string, file: string)
    requires Sound(st, file)
    ensures Sound(Step(st, line, file), file)
  {
    var r := Step(st, line, file);
    if st.inBlock && line == ">>>" {
      CloseBlockKeepsFile(st.current, st.blockField, JoinLines(st.blockLines));
      assert r.emitted == st.emitted;
      assert r.current == CloseBlock(st.current, st.blockField, JoinLines(st.blockLines));
    } else if st.inBlock {
      assert r == st.(blockLines := st.blockLines + [line]);
    } else if line == "---" {
      FlushSound(st.emitted, st.current, file);
      assert r.emitted == Flush(st.emitted, st.current);
      assert r.current == Some(Blank(file));
    } else if st.current.None? || line == "<<<" {
      assert r.emitted == st.emitted && r.current == st.current;
    } else {
      assert r.emitted == st.emitted;
      assert r.current == Some(FieldLine(st.current.value, st.lastField, line).0);
    }
  }

  lemma {:induction false} RunSound(st: ParserState, lines: seq<string>, file: string)
    requires Sound(st, file)
    ensures Sound(Run(st, lines, file), file)
    decreases |lines|
  {
    if lines != [] {
      StepSound(st, lines[0], file);
      RunSound(Step(st, lines[0], file), lines[1..], file);
    }
  }

  /** Every suggestion the parser returns has a non-empty title and names
      the file it was asked about; the parser has no error result. */
  lemma ParsedSuggestionsTitledAndAnchored(response: string, file: string)
    ensures forall k :: 0 <= k < |ParseReviewResponse(response, file)| ==>
      ParseReviewResponse(response, file)[k].title != "" &&
      ParseReviewResponse(response, file)[k].file == file
  {
    RunSound(Initial, SplitLines(response), file);
  }

  /** Lines before the first `---` change nothing: no record is open yet. */
  lemma {:induction false} NoRecordNoChange(lines: seq<string>, file: string)
    requires forall k :: 0 <= k < |lines| ==> lines[k] != "---"
    ensures Run(Initial, lines, file) == Initial
    decreases |lines|
  {
    if lines != [] {
      assert Step(Initial, lines[0], file) == Initial;
      NoRecordNoChange(lines[1..], file);
    }
  }

  /** A preamble without a `---` line is ignored. */
  lemma PreambleIgnored(pre: seq<string>, rest: seq<string>, file: string)
    requires forall k :: 0 <= k < |pre| ==> pre[k] != "---"
    ensures ParseLines(pre + rest, file) == ParseLines(rest, file)
  {
    RunAppend(Initial, pre, rest, file);
    NoRecordNoChange(pre, file);
  }

  /** The same at the level of the reply text. */
  lemma PreambleTextIgnored(pre: string, rest: string, file: string)
    requires forall k :: 0 <= k < |SplitLines(pre)| ==> SplitLines(pre)[k] != "---"
    ensures ParseStructured(pre + "\n" + rest, file) == ParseStructured(rest, file)
  {
    SplitAppend(pre, '\n', rest);
    PreambleIgnored(SplitLines(pre), SplitLines(rest), file);
  }

  /** A reply without a `---` line yields no suggestions, so the sentinel
      check for "NO_ISSUES" and "" agrees with the state machine. */
  lemma NoSeparatorNoSuggestions(response: string, file: string)
    requires forall k :: 0 <= k < |SplitLines(response)| ==> SplitLines(response)[k] != "---"
    ensures ParseStructured(response, file) == []
    ensures ParseReviewResponse(response, file) == []
  {
    NoRecordNoChange(SplitLines(response), file);
  }

  lemma NoIssuesParsesEmpty(file: string)
    ensures ParseStructured("NO_ISSUES", file) == []
  {
    SplitWhole("NO_ISSUES", '\n');
    NoSeparatorNoSuggestions("NO_ISSUES", file);
  }

  lemma EmptyParsesEmpty(file: string)
    ensures ParseStructured("", file) == []
  {
    SplitWhole("", '\n');
    NoSeparatorNoSuggestions("", file);
  }

  lemma SentinelRepliesAreEmpty(file: string)
    ensures ParseReviewResponse("NO_ISSUES", file) == []
    ensures ParseStructured("NO_ISSUES", file) == []
    ensures ParseStructured("", file) == []
  {
    NoIssuesParsesEmpty(file);
    EmptyParsesEmpty(file);
  }

  /** Inside a block every line other than `>>>` is kept verbatim,
      including `---` and lines that look like fields. */
  lemma {:induction false} BlockKeepsLinesVerbatim(st: ParserState, lines: seq<string>, file: string)
    requires st.inBlock
    requires forall k :: 0 <= k < |lines| ==> lines[k] != ">>>"
    ensures Run(st, lines, file) == st.(blockLines := st.blockLines + lines)
    decreases |lines|
  {
    if lines == [] {
      assert st.blockLines + lines == st.blockLines;
    } else {
      var st' := Step(st, lines[0], file);
      assert st' == st.(blockLines := st.blockLines + [lines[0]]);
      BlockKeepsLinesVerbatim(st', lines[1..], file);
      assert st.blockLines + [lines[0]] + lines[1..] == st.blockLines + lines;
    }
  }

  /** A `<<<` ... `>>>` block inside a record writes its lines, joined with
      newlines, to the field named by the most recent `ORIGINAL:`/`FIX:`
      since the last `---`; with no such line the block is discarded. */
  lemma BlockAssignsLastField(st: ParserState, lines: seq<string>, file: string)
    requires !st.inBlock && st.current.Some?
    requires forall k :: 0 <= k < |lines| ==> lines[k] != ">>>"
    ensures Run(st, ["<<<"] + lines + [">>>"], file)
         == st.(current := CloseBlock(st.current, st.lastField, JoinLines(lines)), blockLines := [], blockField := NoField)
  {
    var inside := Step(st, "<<<", file);
    assert inside == st.(blockField := st.lastField, inBlock := true, blockLines := []);
    RunAppend(st, ["<<<"], lines + [">>>"], file);
    assert ["<<<"] + lines + [">>>"] == ["<<<"] + (lines + [">>>"]);
    assert Run(st, ["<<<"], file) == inside;
    RunAppend(inside, lines, [">>>"], file);
    BlockKeepsLinesVerbatim(inside, lines, file);
    assert [] + lines == lines;
  }

  /** With no `ORIGINAL:`/`FIX:` since the last `---`, a block changes
      nothing at all: its content is discarded. */
  lemma BlockWithoutFieldDiscarded(st: ParserState, lines: seq<string>, file: string)
    requires !st.inBlock && st.current.Some?
    requires st.lastField == NoField && st.blockField == NoField && st.blockLines == []
    requires forall k :: 0 <= k < |lines| ==> lines[k] != ">>>"
    ensures Run(st, ["<<<"] + lines + [">>>"], file) == st
  {
    BlockAssignsLastField(st, lines, file);
  }

  /** A block still open at end of input loses its content, but the record
      it belongs to is still emitted when it has a title. */
  lemma UnclosedBlockDropsContent(st: ParserState, lines: seq<string>, file: string)
    requires st.inBlock
    requires forall k :: 0 <= k < |lines| ==> lines[k] != ">>>"
    ensures Finish(Run(st, lines, file)) == Flush(st.emitted, st.current)
  {
    BlockKeepsLinesVerbatim(st, lines, file);
  }

  /** A `---` line closes the open record, keeping it only if titled, and
      opens a blank record for `file`. */
  lemma SeparatorFlushes(st: ParserState, file: string)
    requires !st.inBlock
    ensures Step(st, "---", file).emitted == Flush(st.emitted, st.current)
    ensures Step(st, "---", file).current == Some(Blank(file))
    ensures Step(st, "---", file).lastField == NoField
    ensures st.current.Some? && st.current.value.title == "" ==> Step(st, "---", file).emitted == st.emitted
  {
  }

  // ---------------------------------------------------------------------
  // Field lines

  lemma NotPrefixAt(s: string, p: string, i: nat)
    requires i < |s| && i < |p| && s[i] != p[i]
    ensures !HasPrefix(s, p)
  {
  }

  lemma TagOfLine(line: string, v: string)
    requires line == "LINE: " + v
    ensures TagOf(line) == Some(LineTag)
  {
    assert HasPrefix(line, "LINE:");
  }

  lemma TagOfEndLine(line: string, v: string)
    requires line == "END_LINE: " + v
    ensures TagOf(line) == Some(EndLineTag)
  {
    NotPrefixAt(line, "LINE:", 0);
    assert HasPrefix(line, "END_LINE:");
  }

  lemma TagOfSeverity(line: string, v: string)
    requires line == "SEVERITY: " + v
    ensures TagOf(line) == Some(SeverityTag)
  {
    NotPrefixAt(line, "LINE:", 0);
    NotPrefixAt(line, "END_LINE:", 0);
    assert HasPrefix(line, "SEVERITY:");
  }

  lemma TagOfConfidence(line: string, v: string)
    requires line == "CONFIDENCE: " + v
    ensures TagOf(line) == Some(ConfidenceTag)
  {
    NotPrefixAt(line, "LINE:", 0);
    NotPrefixAt(line, "END_LINE:", 0);
    NotPrefixAt(line, "SEVERITY:", 0);
    assert HasPrefix(line, "CONFIDENCE:");
  }

  lemma TagOfCategory(line: string, v: string)
    requires line == "CATEGORY: " + v
    ensures TagOf(line) == Some(CategoryTag)
  {
    NotPrefixAt(line, "LINE:", 0);
    NotPrefixAt(line, "END_LINE:", 0);
    NotPrefixAt(line, "SEVERITY:", 0);
    NotPrefixAt(line, "CONFIDENCE:", 1);
    assert HasPrefix(line, "CATEGORY:");
  }

  lemma TagOfTitle(line: string, v: string)
    requires line == "TITLE: " + v
    ensures TagOf(line) == Some(TitleTag)
  {
    NotPrefixAt(line, "LINE:", 0);
    NotPrefixAt(line, "END_LINE:", 0);
    NotPrefixAt(line, "SEVERITY:", 0);
    NotPrefixAt(line, "CONFIDENCE:", 0);
    NotPrefixAt(line, "CATEGORY:", 0);
    assert HasPrefix(line, "TITLE:");
  }

  lemma TagOfDescription(line: string, v: string)
    requires line == "DESCRIPTION: " + v
    ensures TagOf(line) == Some(DescriptionTag)
  {
    NotPrefixAt(line, "LINE:", 0);
    NotPrefixAt(line, "END_LINE:", 0);
    NotPrefixAt(line, "SEVERITY:", 0);
    NotPrefixAt(line, "CONFIDENCE:", 0);
    NotPrefixAt(line, "CATEGORY:", 0);
    NotPrefixAt(line, "TITLE:", 0);
    assert HasPrefix(line, "DESCRIPTION:");
  }

  lemma TagOfOriginal(line: string, v: string)
    requires line == "ORIGINAL: " + v
    ensures TagOf(line) == Some(OriginalTag)
  {
    NotPrefixAt(line, "LINE:", 0);
    NotPrefixAt(line, "END_LINE:", 0);
    NotPrefixAt(line, "SEVERITY:", 0);
    NotPrefixAt(line, "CONFIDENCE:", 0);
    NotPrefixAt(line, "CATEGORY:", 0);
    NotPrefixAt(line, "TITLE:", 0);
    NotPrefixAt(line, "DESCRIPTION:", 0);
    assert HasPrefix(line, "ORIGINAL:");
  }

  lemma TagOfFix(line: string, v: string)
    requires line == "FIX: " + v
    ensures TagOf(line) == Some(FixTag)
  {
    NotPrefixAt(line, "LINE:", 0);
    NotPrefixAt(line, "END_LINE:", 0);
    NotPrefixAt(line, "SEVERITY:", 0);
    NotPrefixAt(line, "CONFIDENCE:", 0);
    NotPrefixAt(line, "CATEGORY:", 0);
    NotPrefixAt(line, "TITLE:", 0);
    NotPrefixAt(line, "DESCRIPTION:", 0);
    NotPrefixAt(line, "ORIGINAL:", 0);
    assert HasPrefix(line, "FIX:");
  }

  /** A line written as "TAG: value" is classified as that tag. */
  lemma TagOfTagged(t: Tag, v: string)
    ensures TagOf(TagText(t) + " " + v) == Some(t)
  {
    var line := TagText(t) + " " + v;
    match t
    case LineTag => TagOfLine(line, v);
    case EndLineTag => TagOfEndLine(line, v);
    case SeverityTag => TagOfSeverity(line, v);
    case ConfidenceTag => TagOfConfidence(line, v);
    case CategoryTag => TagOfCategory(line, v);
    case TitleTag => TagOfTitle(line, v);
    case DescriptionTag => TagOfDescription(line, v);
    case OriginalTag => TagOfOriginal(line, v);
    case FixTag => TagOfFix(line, v);
  }

  /** The value after "TAG: " reads back as written when it is trimmed. */
  lemma ValueAfterTag(line: string, tag: string, v: string)
    requires line == tag + " " + v
    requires Trimmed(v)
    ensures ParseStringValue(line, tag) == v
  {
    assert line[|tag|..] == " " + v;
    TrimSpaceAfterBlank(v);
  }

  /** `ORIGINAL: v` with `v` trimmed: an inline value sets the field,
      `N/A` clears it, and an empty value leaves it alone while naming
      ORIGINAL as the target of the next block. */
  lemma OriginalLine(s: Suggestion, last: BlockField, v: string)
    requires Trimmed(v)
    ensures FieldLine(s, last, "ORIGINAL: " + v).1 == OriginalField
    ensures v == "N/A" ==> FieldLine(s, last, "ORIGINAL: " + v).0 == s.(originalCode := "")
    ensures v == "" ==> FieldLine(s, last, "ORIGINAL: " + v).0 == s
    ensures v != "" && v != "N/A" ==> FieldLine(s, last, "ORIGINAL: " + v).0 == s.(originalCode := v)
  {
    var line := "ORIGINAL: " + v;
    TagOfOriginal(line, v);
    ValueAfterTag(line, "ORIGINAL:", v);
  }

  /** The same three cases for `FIX: v`. */
  lemma FixLine(s: Suggestion, last: BlockField, v: string)
    requires Trimmed(v)
    ensures FieldLine(s, last, "FIX: " + v).1 == FixField
    ensures v == "N/A" ==> FieldLine(s, last, "FIX: " + v).0 == s.(suggestFix := "")
    ensures v == "" ==> FieldLine(s, last, "FIX: " + v).0 == s
    ensures v != "" && v != "N/A" ==> FieldLine(s, last, "FIX: " + v).0 == s.(suggestFix := v)
  {
    var line := "FIX: " + v;
    TagOfFix(line, v);
    ValueAfterTag(line, "FIX:", v);
  }

  /** A `LINE:` value that is not a decimal integer becomes 0; END_LINE is
      left as it was, never defaulted to LINE. */
  lemma LineValue(s: Suggestion, last: BlockField, v: string)
    requires Trimmed(v)
    ensures FieldLine(s, last, "LINE: " + v) == (s.(line := Atoi(v).GetOr(0)), last)
    ensures Atoi(v).Some? ==> FieldLine(s, last, "LINE: " + v).0.line == Atoi(v).value
    ensures Atoi(v).None? ==> FieldLine(s, last, "LINE: " + v).0.line == 0
    ensures FieldLine(s, last, "LINE: " + v).0.endLine == s.endLine
  {
    var line := "LINE: " + v;
    TagOfLine(line, v);
    ValueAfterTag(line, "LINE:", v);
  }

  /** The field-like line `END_LINE:` is not mistaken for `LINE:`. */
  lemma EndLineValue(s: Suggestion, last: BlockField, v: string)
    requires Trimmed(v)
    ensures FieldLine(s, last, "END_LINE: " + v) == (s.(endLine := Atoi(v).GetOr(0)), last)
  {
    var line := "END_LINE: " + v;
    TagOfEndLine(line, v);
    ValueAfterTag(line, "END_LINE:", v);
  }

  /** A bare tag, with nothing after the colon, sets a text field to "". */
  lemma TagOfBareTitle()
    ensures TagOf("TITLE:") == Some(TitleTag)
  {
    NotPrefixAt("TITLE:", "LINE:", 0);
    NotPrefixAt("TITLE:", "END_LINE:", 0);
    NotPrefixAt("TITLE:", "SEVERITY:", 0);
    NotPrefixAt("TITLE:", "CONFIDENCE:", 0);
    NotPrefixAt("TITLE:", "CATEGORY:", 0);
    assert HasPrefix("TITLE:", "TITLE:");
  }

  lemma BareTitleClears(s: Suggestion, last: BlockField)
    ensures FieldLine(s, last, "TITLE:").0 == s.(title := "")
  {
    TagOfBareTitle();
    assert ParseStringValue("TITLE:", "TITLE:") == "";
  }
}
