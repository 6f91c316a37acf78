/** The record format that buildReviewPrompt asks the assistant to use,
    written out as a renderer, and the round trip through the parser of
    internal/review/review.go. */
module ProtocolRender {
  import opened Results
  import opened Text
  import opened Protocol
  import opened ProtocolProperties

  /** A tagged single-line field, as "TAG: value". */
  function TaggedLine(t: Tag, v: string): string {
    TagText(t) + " " + v
  }

  /** The single-line fields of a record, in the order of the format. */
  function HeaderFields(s: Suggestion): seq<(Tag, string)> {
    [(LineTag, Itoa(s.line)), (EndLineTag, Itoa(s.endLine)), (SeverityTag, s.severity),
     (ConfidenceTag, s.confidence), (CategoryTag, s.category), (TitleTag, s.title),
     (DescriptionTag, s.description)]
  }

  function TaggedLines(fs: seq<(Tag, string)>): (r: seq<string>)
    ensures |r| == |fs|
  {
    if fs == [] then [] else [TaggedLine(fs[0].0, fs[0].1)] + TaggedLines(fs[1..])
  }

  /** One record: `---`, the single-line fields, then ORIGINAL and FIX as
      `<<<` ... `>>>` blocks. */
  function RecordLines(s: Suggestion): seq<string> {
    OpenLines(s) + CodeLines("ORIGINAL:", s.originalCode) + CodeLines("FIX:", s.suggestFix)
  }

  function OpenLines(s: Suggestion): seq<string> {
    ["---"] + TaggedLines(HeaderFields(s))
  }

  /** A code field written as a block under its bare tag line. */
  function CodeLines(tag: string, code: string): seq<string> {
    [tag] + (["<<<"] + SplitLines(code) + [">>>"])
  }

  function ReplyLines(sugs: seq<Suggestion>): seq<string> {
    if sugs == [] then [] else RecordLines(sugs[0]) + ReplyLines(sugs[1..])
  }

  /** A well-formed reply listing `sugs`. */
  function Render(sugs: seq<Suggestion>): string {
    JoinLines(ReplyLines(sugs))
  }

  /** A value that fits on one field line and reads back unchanged. */
  predicate SingleLine(v: string) {
    Trimmed(v) && NoChar(v, '\n')
  }

  /** Code that a block can carry: no line of it is the closing `>>>`. */
  predicate BlockSafe(code: string) {
    forall k :: 0 <= k < |SplitLines(code)| ==> SplitLines(code)[k] != ">>>"
  }

  /** What a suggestion needs to survive the record format: a title, line
      numbers in Go's int range, one-line trimmed text fields, and code
      without a `>>>` line. */
  predicate Renderable(s: Suggestion, file: string) {
    && s.file == file
    && s.title != ""
    && InInt64(s.line) && InInt64(s.endLine)
    && SingleLine(s.severity) && SingleLine(s.confidence) && SingleLine(s.category)
    && SingleLine(s.title) && SingleLine(s.description)
    && BlockSafe(s.originalCode) && BlockSafe(s.suggestFix)
  }

  function ApplyFields(s: Suggestion, last: BlockField, fs: seq<(Tag, string)>): (Suggestion, BlockField)
    decreases |fs|
  {
    if fs == [] then (s, last)
    else
      var (s', last') := SetField(s, last, fs[0].0, fs[0].1);
      ApplyFields(s', last', fs[1..])
  }

  lemma RunCons(st: ParserState, line: string, rest: seq<string>, file: string)
    ensures Run(st, [line] + rest, file) == Run(Step(st, line, file), rest, file)
  {
    assert ([line] + rest)[1..] == rest;
  }

  lemma {:induction false} RunTagged(st: ParserState, fs: seq<(Tag, string)>, file: string)
    requires !st.inBlock && st.current.Some?
    requires forall k :: 0 <= k < |fs| ==> Trimmed(fs[k].1)
    ensures Run(st, TaggedLines(fs), file)
         == st.(current := Some(ApplyFields(st.current.value, st.lastField, fs).0),
                lastField := ApplyFields(st.current.value, st.lastField, fs).1)
    decreases |fs|
  {
    if fs != [] {
      var (t, v) := fs[0];
      var line := TaggedLine(t, v);
      TagOfTagged(t, v);
      ValueAfterTag(line, TagText(t), v);
      assert line[0] == TagText(t)[0];
      assert line != "---" && line != "<<<";
      var (s', last') := SetField(st.current.value, st.lastField, t, v);
      assert Step(st, line, file) == st.(current := Some(s'), lastField := last');
      RunCons(st, line, TaggedLines(fs[1..]), file);
      RunTagged(st.(current := Some(s'), lastField := last'), fs[1..], file);
    }
  }

  /** The five text fields of a header, applied to any record, set
      exactly those fields. */
  lemma TextFieldsRebuild(s: Suggestion, b: Suggestion, last: BlockField)
    ensures ApplyFields(b, last, HeaderFields(s)[2..])
         == (b.(severity := s.severity, confidence := s.confidence, category := s.category,
                title := s.title, description := s.description), last)
  {
    var fs := HeaderFields(s)[2..];
    var s3 := b.(severity := s.severity);
    var s4 := s3.(confidence := s.confidence);
    var s5 := s4.(category := s.category);
    var s6 := s5.(title := s.title);
    var s7 := s6.(description := s.description);
    assert ApplyFields(s6, last, fs[4..]) == (s7, last) by {
      assert fs[4..][1..] == [];
    }
    assert ApplyFields(s5, last, fs[3..]) == (s7, last) by { assert fs[3..][1..] == fs[4..]; }
    assert ApplyFields(s4, last, fs[2..]) == (s7, last) by { assert fs[2..][1..] == fs[3..]; }
    assert ApplyFields(s3, last, fs[1..]) == (s7, last) by { assert fs[1..][1..] == fs[2..]; }
  }

  lemma HeaderFieldsRebuild(s: Suggestion, file: string, last: BlockField)
    requires Renderable(s, file)
    ensures ApplyFields(Blank(file), last, HeaderFields(s)) == (s.(originalCode := "", suggestFix := ""), last)
  {
    AtoiItoa(s.line);
    AtoiItoa(s.endLine);
    var fs := HeaderFields(s);
    var s1 := Blank(file).(line := s.line);
    var s2 := s1.(endLine := s.endLine);
    TextFieldsRebuild(s, s2, last);
    assert fs[1..][1..] == fs[2..];
    assert ApplyFields(s1, last, fs[1..]) == ApplyFields(s2, last, fs[2..]);
  }

  lemma TagOfBareOriginal()
    ensures TagOf("ORIGINAL:") == Some(OriginalTag)
  {
    NotPrefixAt("ORIGINAL:", "LINE:", 0);
    NotPrefixAt("ORIGINAL:", "END_LINE:", 0);
    NotPrefixAt("ORIGINAL:", "SEVERITY:", 0);
    NotPrefixAt("ORIGINAL:", "CONFIDENCE:", 0);
    NotPrefixAt("ORIGINAL:", "CATEGORY:", 0);
    NotPrefixAt("ORIGINAL:", "TITLE:", 0);
    NotPrefixAt("ORIGINAL:", "DESCRIPTION:", 0);
    assert HasPrefix("ORIGINAL:", "ORIGINAL:");
  }

  lemma TagOfBareFix()
    ensures TagOf("FIX:") == Some(FixTag)
  {
    NotPrefixAt("FIX:", "LINE:", 0);
    NotPrefixAt("FIX:", "END_LINE:", 0);
    NotPrefixAt("FIX:", "SEVERITY:", 0);
    NotPrefixAt("FIX:", "CONFIDENCE:", 0);
    NotPrefixAt("FIX:", "CATEGORY:", 0);
    NotPrefixAt("FIX:", "TITLE:", 0);
    NotPrefixAt("FIX:", "DESCRIPTION:", 0);
    NotPrefixAt("FIX:", "ORIGINAL:", 0);
    assert HasPrefix("FIX:", "FIX:");
  }

  /** A line inside an open record that is neither `---` nor `<<<` only
      updates the open record through `FieldLine`. */
  lemma FieldStep(st: ParserState, line: string, file: string)
    requires !st.inBlock && st.current.Some?
    requires line != "---" && line != "<<<"
    ensures Step(st, line, file)
         == st.(current := Some(FieldLine(st.current.value, st.lastField, line).0),
                lastField := FieldLine(st.current.value, st.lastField, line).1)
  {
  }

  lemma BareOriginal(s: Suggestion, last: BlockField)
    ensures FieldLine(s, last, "ORIGINAL:") == (s, OriginalField)
  {
    TagOfBareOriginal();
    assert ParseStringValue("ORIGINAL:", "ORIGINAL:") == "";
  }

  lemma BareFix(s: Suggestion, last: BlockField)
    ensures FieldLine(s, last, "FIX:") == (s, FixField)
  {
    TagOfBareFix();
    assert ParseStringValue("FIX:", "FIX:") == "";
  }

  /** The state after a record: the previous one flushed, this one open. */
  function AfterRecord(st: ParserState, s: Suggestion): ParserState {
    ParserState(Flush(st.emitted, st.current), Some(s), false, NoField, [], FixField)
  }

  lemma OpenRoundTrip(st: ParserState, s: Suggestion, file: string)
    requires !st.inBlock
    requires Renderable(s, file)
    ensures Run(st, OpenLines(s), file)
         == st.(emitted := Flush(st.emitted, st.current),
                current := Some(s.(originalCode := "", suggestFix := "")), lastField := NoField)
  {
    var st1 := Step(st, "---", file);
    assert st1 == st.(emitted := Flush(st.emitted, st.current), current := Some(Blank(file)), lastField := NoField);
    forall k | 0 <= k < |HeaderFields(s)|
      ensures Trimmed(HeaderFields(s)[k].1)
    {
    }
    RunTagged(st1, HeaderFields(s), file);
    HeaderFieldsRebuild(s, file, NoField);
    RunCons(st, "---", TaggedLines(HeaderFields(s)), file);
  }

  lemma OriginalRoundTrip(st: ParserState, code: string, file: string)
    requires !st.inBlock && st.current.Some?
    requires BlockSafe(code)
    ensures Run(st, CodeLines("ORIGINAL:", code), file)
         == st.(current := Some(st.current.value.(originalCode := code)),
                lastField := OriginalField, blockLines := [], blockField := NoField)
  {
    FieldStep(st, "ORIGINAL:", file);
    BareOriginal(st.current.value, st.lastField);
    var st1 := st.(lastField := OriginalField);
    assert Step(st, "ORIGINAL:", file) == st1;
    var lines := SplitLines(code);
    BlockAssignsLastField(st1, lines, file);
    JoinSplit(code, '\n');
    assert CloseBlock(st.current, OriginalField, JoinLines(lines)) == Some(st.current.value.(originalCode := code));
    RunCons(st, "ORIGINAL:", ["<<<"] + lines + [">>>"], file);
  }

  lemma FixRoundTrip(st: ParserState, code: string, file: string)
    requires !st.inBlock && st.current.Some?
    requires BlockSafe(code)
    ensures Run(st, CodeLines("FIX:", code), file)
         == st.(current := Some(st.current.value.(suggestFix := code)),
                lastField := FixField, blockLines := [], blockField := NoField)
  {
    FieldStep(st, "FIX:", file);
    BareFix(st.current.value, st.lastField);
    var st1 := st.(lastField := FixField);
    assert Step(st, "FIX:", file) == st1;
    var lines := SplitLines(code);
    BlockAssignsLastField(st1, lines, file);
    JoinSplit(code, '\n');
    assert CloseBlock(st.current, FixField, JoinLines(lines)) == Some(st.current.value.(suggestFix := code));
    RunCons(st, "FIX:", ["<<<"] + lines + [">>>"], file);
  }

  /** Parsing one rendered record leaves exactly that record open. */
  lemma RecordRoundTrip(st: ParserState, s: Suggestion, file: string)
    requires !st.inBlock
    requires Renderable(s, file)
    ensures Run(st, RecordLines(s), file) == AfterRecord(st, s)
  {
    var a := OpenLines(s);
    var b := CodeLines("ORIGINAL:", s.originalCode);
    var c := CodeLines("FIX:", s.suggestFix);
    OpenRoundTrip(st, s, file);
    var st1 := Run(st, a, file);
    OriginalRoundTrip(st1, s.originalCode, file);
    var st2 := Run(st1, b, file);
    FixRoundTrip(st2, s.suggestFix, file);
    RunAppend(st, a + b, c, file);
    RunAppend(st, a, b, file);
  }

  lemma AppendCons<T>(a: seq<T>, b: seq<T>)
    requires b != []
    ensures a + b == (a + [b[0]]) + b[1..]
  {
    assert b == [b[0]] + b[1..];
  }

  /** Parsing a rendered list of records leaves every record but the last
      emitted and the last one open. */
  lemma {:induction false} RecordsRoundTrip(st: ParserState, sugs: seq<Suggestion>, file: string)
    requires !st.inBlock && st.current.Some? && st.current.value.title != ""
    requires forall k :: 0 <= k < |sugs| ==> Renderable(sugs[k], file)
    ensures Finish(Run(st, ReplyLines(sugs), file)) == st.emitted + [st.current.value] + sugs
    decreases |sugs|
  {
    if sugs == [] {
      assert st.emitted + [st.current.value] + sugs == st.emitted + [st.current.value];
    } else {
      assert Renderable(sugs[0], file);
      RunAppend(st, RecordLines(sugs[0]), ReplyLines(sugs[1..]), file);
      RecordRoundTrip(st, sugs[0], file);
      var st' := AfterRecord(st, sugs[0]);
      assert st'.emitted == st.emitted + [st.current.value];
      assert forall k :: 0 <= k < |sugs[1..]| ==> Renderable(sugs[1..][k], file) by {
        forall k | 0 <= k < |sugs[1..]| ensures Renderable(sugs[1..][k], file) {
          assert sugs[1..][k] == sugs[k + 1];
        }
      }
      RecordsRoundTrip(st', sugs[1..], file);
      AppendCons(st.emitted + [st.current.value], sugs);
    }
  }

  predicate AllSingle(lines: seq<string>) {
    forall k :: 0 <= k < |lines| ==> NoChar(lines[k], '\n')
  }

  lemma AllSingleAppend(a: seq<string>, b: seq<string>)
    requires AllSingle(a) && AllSingle(b)
    ensures AllSingle(a + b)
  {
    assert forall k :: 0 <= k < |a + b| ==> (a + b)[k] == if k < |a| then a[k] else b[k - |a|];
  }

  lemma {:induction false} TaggedLinesSingle(fs: seq<(Tag, string)>)
    requires forall k :: 0 <= k < |fs| ==> NoChar(fs[k].1, '\n')
    ensures AllSingle(TaggedLines(fs))
    decreases |fs|
  {
    if fs != [] {
      var (t, v) := fs[0];
      NoCharAppend(TagText(t), " ", '\n');
      NoCharAppend(TagText(t) + " ", v, '\n');
      TaggedLinesSingle(fs[1..]);
      AllSingleAppend([TaggedLine(t, v)], TaggedLines(fs[1..]));
    }
  }

  lemma RecordLinesSingle(s: Suggestion, file: string)
    requires Renderable(s, file)
    ensures AllSingle(RecordLines(s))
  {
    var fs := HeaderFields(s);
    forall k | 0 <= k < |fs| ensures NoChar(fs[k].1, '\n') {
    }
    TaggedLinesSingle(fs);
    AllSingleAppend(["---"], TaggedLines(fs));
    var orig := SplitLines(s.originalCode);
    var fix := SplitLines(s.suggestFix);
    AllSingleAppend(["<<<"], orig);
    AllSingleAppend(["<<<"] + orig, [">>>"]);
    AllSingleAppend(["ORIGINAL:"], ["<<<"] + orig + [">>>"]);
    AllSingleAppend(["<<<"], fix);
    AllSingleAppend(["<<<"] + fix, [">>>"]);
    AllSingleAppend(["FIX:"], ["<<<"] + fix + [">>>"]);
    AllSingleAppend(OpenLines(s), CodeLines("ORIGINAL:", s.originalCode));
    AllSingleAppend(OpenLines(s) + CodeLines("ORIGINAL:", s.originalCode), CodeLines("FIX:", s.suggestFix));
  }

  lemma {:induction false} ReplyLinesSingle(sugs: seq<Suggestion>, file: string)
    requires forall k :: 0 <= k < |sugs| ==> Renderable(sugs[k], file)
    ensures AllSingle(ReplyLines(sugs))
    decreases |sugs|
  {
    if sugs != [] {
      RecordLinesSingle(sugs[0], file);
      assert forall k :: 0 <= k < |sugs[1..]| ==> Renderable(sugs[1..][k], file) by {
        forall k | 0 <= k < |sugs[1..]| ensures Renderable(sugs[1..][k], file) {
          assert sugs[1..][k] == sugs[k + 1];
        }
      }
      ReplyLinesSingle(sugs[1..], file);
      AllSingleAppend(RecordLines(sugs[0]), ReplyLines(sugs[1..]));
    }
  }

  /** A rendered non-empty reply is neither empty nor "NO_ISSUES", and
      splits back into its lines. */
  lemma RenderedLines(sugs: seq<Suggestion>, file: string)
    requires sugs != []
    requires forall k :: 0 <= k < |sugs| ==> Renderable(sugs[k], file)
    ensures Render(sugs) != "NO_ISSUES" && Render(sugs) != ""
    ensures SplitLines(Render(sugs)) == ReplyLines(sugs)
  {
    var lines := ReplyLines(sugs);
    var reply := Render(sugs);
    assert lines == RecordLines(sugs[0]) + ReplyLines(sugs[1..]);
    assert lines[0] == "---";
    JoinStartsWithFirst(lines, "\n");
    assert reply[0] == '-';
    ReplyLinesSingle(sugs, file);
    SplitJoin(lines, '\n');
  }

  lemma RenderableTail(sugs: seq<Suggestion>, file: string)
    requires sugs != []
    requires forall k :: 0 <= k < |sugs| ==> Renderable(sugs[k], file)
    ensures Renderable(sugs[0], file)
    ensures forall k :: 0 <= k < |sugs[1..]| ==> Renderable(sugs[1..][k], file)
  {
    forall k | 0 <= k < |sugs[1..]| ensures Renderable(sugs[1..][k], file) {
      assert sugs[1..][k] == sugs[k + 1];
    }
  }

  /** Running the parser over the lines of a non-empty reply gives back
      its records. */
  lemma RunRendered(sugs: seq<Suggestion>, file: string)
    requires sugs != []
    requires forall k :: 0 <= k < |sugs| ==> Renderable(sugs[k], file)
    ensures Finish(Run(Initial, ReplyLines(sugs), file)) == sugs
  {
    var rest := sugs[1..];
    RenderableTail(sugs, file);
    RunAppend(Initial, RecordLines(sugs[0]), ReplyLines(rest), file);
    RecordRoundTrip(Initial, sugs[0], file);
    var st := AfterRecord(Initial, sugs[0]);
    RecordsRoundTrip(st, rest, file);
    assert st.emitted + [sugs[0]] + rest == sugs;
  }

  /** The record format round-trips: parsing a rendered reply gives back
      exactly the suggestions it was rendered from, in order. */
  lemma ParseRenderRoundTrip(sugs: seq<Suggestion>, file: string)
    requires forall k :: 0 <= k < |sugs| ==> Renderable(sugs[k], file)
    ensures ParseReviewResponse(Render(sugs), file) == sugs
  {
    if sugs == [] {
      assert Render(sugs) == "";
    } else {
      RenderedLines(sugs, file);
      RunRendered(sugs, file);
    }
  }

}
