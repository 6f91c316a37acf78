/** The reply protocol of internal/review/review.go: the line-oriented state
    machine that folds an assistant's reply into `Suggestion` records. */
module Protocol {
  import opened Results
  import opened Text

  /** One review finding. Severity and confidence are free text here, as in
      Go, where they are string types whose values are never checked. */
  datatype Suggestion = Suggestion(
    file: string,
    line: int,
    endLine: int,
    severity: string,
    confidence: string,
    title: string,
    description: string,
    originalCode: string,
    suggestFix: string,
    category: string)

  /** The record a `---` line opens: every field empty except the file. */
  function Blank(file: string): Suggestion {
    Suggestion(file, 0, 0, "", "", "", "", "", "", "")
  }

  /** Which code field a `<<<` block is written to; `NoField` is Go's "". */
  datatype BlockField = NoField | OriginalField | FixField

  /** The parser's variables: the records emitted so far, the open record
      (Go's `current`, nil before the first `---`), the block state and the
      most recent `ORIGINAL:`/`FIX:` since the last `---`. */
  datatype ParserState = ParserState(
    emitted: seq<Suggestion>,
    current: Option<Suggestion>,
    inBlock: bool,
    blockField: BlockField,
    blockLines: seq<string>,
    lastField: BlockField)

  const Initial := ParserState([], None, false, NoField, [], NoField)

  /** A block is only ever open inside a record. */
  predicate Valid(st: ParserState) {
    st.inBlock ==> st.current.Some?
  }

  /** `parseStringValue`: the trimmed text after the prefix, or "" when the
      line is no longer than the prefix. */
  function ParseStringValue(line: string, prefix: string): (r: string)
    ensures |line| <= |prefix| ==> r == ""
    ensures |line| > |prefix| ==> r == TrimSpace(line[|prefix|..])
    ensures Trimmed(r)
  {
    if |line| <= |prefix| then "" else TrimSpace(line[|prefix|..])
  }

  /** Appends the open record when it has a title (review.go:307, 366). */
  function Flush(emitted: seq<Suggestion>, current: Option<Suggestion>): (r: seq<Suggestion>)
    ensures current.Some? && current.value.title != "" ==> r == emitted + [current.value]
    ensures !(current.Some? && current.value.title != "") ==> r == emitted
  {
    if current.Some? && current.value.title != "" then emitted + [current.value] else emitted
  }

  /** The value an `ORIGINAL:`/`FIX:` line leaves in its field: an inline
      value replaces it, `N/A` clears it, nothing after the colon keeps it. */
  function InlineCode(rest: string, previous: string): string {
    if rest != "" && rest != "N/A" then rest
    else if rest == "N/A" then ""
    else previous
  }

  /** The field prefixes of the record format. */
  datatype Tag = LineTag | EndLineTag | SeverityTag | ConfidenceTag | CategoryTag
               | TitleTag | DescriptionTag | OriginalTag | FixTag

  function TagText(t: Tag): string {
    match t
    case LineTag => "LINE:"
    case EndLineTag => "END_LINE:"
    case SeverityTag => "SEVERITY:"
    case ConfidenceTag => "CONFIDENCE:"
    case CategoryTag => "CATEGORY:"
    case TitleTag => "TITLE:"
    case DescriptionTag => "DESCRIPTION:"
    case OriginalTag => "ORIGINAL:"
    case FixTag => "FIX:"
  }

  /** The first prefix, in the order of review.go:328-362, that the line
      starts with. */
  function TagOf(line: string): (r: Option<Tag>)
    ensures r.Some? ==> HasPrefix(line, TagText(r.value))
  {
    if HasPrefix(line, "LINE:") then Some(LineTag)
    else if HasPrefix(line, "END_LINE:") then Some(EndLineTag)
    else if HasPrefix(line, "SEVERITY:") then Some(SeverityTag)
    else if HasPrefix(line, "CONFIDENCE:") then Some(ConfidenceTag)
    else if HasPrefix(line, "CATEGORY:") then Some(CategoryTag)
    else if HasPrefix(line, "TITLE:") then Some(TitleTag)
    else if HasPrefix(line, "DESCRIPTION:") then Some(DescriptionTag)
    else if HasPrefix(line, "ORIGINAL:") then Some(OriginalTag)
    else if HasPrefix(line, "FIX:") then Some(FixTag)
    else None
  }

  /** `parseIntValue` applied to an already extracted value. */
  function IntValue(value: string): int {
    Atoi(value).GetOr(0)
  }

  /** Sets the field `t` names from the text after its prefix; `ORIGINAL:`
      and `FIX:` also become the target of the next block. */
  function SetField(s: Suggestion, lastField: BlockField, t: Tag, value: string): (r: (Suggestion, BlockField))
    ensures r.0.file == s.file
  {
    match t
    case LineTag => (s.(line := IntValue(value)), lastField)
    case EndLineTag => (s.(endLine := IntValue(value)), lastField)
    case SeverityTag => (s.(severity := value), lastField)
    case ConfidenceTag => (s.(confidence := value), lastField)
    case CategoryTag => (s.(category := value), lastField)
    case TitleTag => (s.(title := value), lastField)
    case DescriptionTag => (s.(description := value), lastField)
    case OriginalTag => (s.(originalCode := InlineCode(value, s.originalCode)), OriginalField)
    case FixTag => (s.(suggestFix := InlineCode(value, s.suggestFix)), FixField)
  }

  /** A line inside an open record that is not `---`, `<<<` or a block
      line; a line with no known prefix changes nothing. */
  function FieldLine(s: Suggestion, lastField: BlockField, line: string): (r: (Suggestion, BlockField))
    ensures r.0.file == s.file
  {
    match TagOf(line)
    case None => (s, lastField)
    case Some(t) => SetField(s, lastField, t, ParseStringValue(line, TagText(t)))
  }

  /** Writes a closed block's content to the field it was opened for; a
      block opened with no field is discarded. */
  function CloseBlock(current: Option<Suggestion>, field: BlockField, content: string): Option<Suggestion> {
    match current
    case None => None
    case Some(s) =>
      match field
      case OriginalField => Some(s.(originalCode := content))
      case FixField => Some(s.(suggestFix := content))
      case NoField => Some(s)
  }

  /** One iteration of the loop at review.go:284-363. */
  function Step(st: ParserState, line: string, file: string): (r: ParserState)
    ensures Valid(st) ==> Valid(r)
  {
    if st.inBlock && line == ">>>" then
      st.(current := CloseBlock(st.current, st.blockField, JoinLines(st.blockLines)),
          inBlock := false, blockField := NoField, blockLines := [])
    else if st.inBlock then
      st.(blockLines := st.blockLines + [line])
    else if line == "---" then
      st.(emitted := Flush(st.emitted, st.current), current := Some(Blank(file)), lastField := NoField)
    else if st.current.None? then
      st
    else if line == "<<<" then
      st.(blockField := st.lastField, inBlock := true, blockLines := [])
    else
      var (s, last) := FieldLine(st.current.value, st.lastField, line);
      st.(current := Some(s), lastField := last)
  }

  /** The loop over all lines. */
  function Run(st: ParserState, lines: seq<string>, file: string): (r: ParserState)
    ensures Valid(st) ==> Valid(r)
    decreases |lines|
  {
    if lines == [] then st else Run(Step(st, lines[0], file), lines[1..], file)
  }

  /** End of input: the open record is kept if it has a title. */
  function Finish(st: ParserState): seq<Suggestion> {
    Flush(st.emitted, st.current)
  }

  /** `parseStructuredResponse`. */
  function ParseStructured(response: string, file: string): seq<Suggestion> {
    Finish(Run(Initial, SplitLines(response), file))
  }

  /** `parseReviewResponse`. Go returns a nil error on every path, so the
      model returns the suggestions alone. */
  function ParseReviewResponse(response: string, file: string): seq<Suggestion> {
    if response == "NO_ISSUES" || response == "" then [] else ParseStructured(response, file)
  }
}
