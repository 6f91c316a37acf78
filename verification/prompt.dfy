/** The review request sent for one file (`buildReviewPrompt`) and the
    tolerance default of `NewReviewer`. */
module Prompt {
  import opened Text
  import opened Git

  /** The tolerance texts, verbatim from the source. */
  const StrictGuidance: string := @"
TOLERANCE: STRICT
- Report all potential issues including style nitpicks
- Mark uncertain issues with CONFIDENCE: low
- Only mark as CONFIDENCE: high when you are 100% certain of an issue"

  const RelaxedGuidance: string := @"
TOLERANCE: RELAXED
- Only report definite bugs, security vulnerabilities, or critical performance issues
- Skip style suggestions, minor improvements, and best-practice recommendations
- If you're not at least 90% confident about an issue, don't report it
- Skip issues that might be intentional design decisions or framework-specific patterns
- When in doubt, assume the developer knows what they're doing"

  const ModerateGuidance: string := @"
TOLERANCE: MODERATE
- Report bugs, security issues, and significant code quality concerns
- Skip minor style nitpicks unless they affect readability significantly
- Mark uncertain issues with CONFIDENCE: low or medium
- Consider framework-specific patterns - what looks wrong might be idiomatic"

  /** The reviewer instructions that open every prompt. */
  const Preamble: string := @"You are a pragmatic code reviewer. Your goal is to be HELPFUL, not pedantic.

IMPORTANT GUIDELINES:
1. AVOID FALSE POSITIVES - When uncertain, don't report. Users hate being blocked by incorrect suggestions.
2. UNDERSTAND CONTEXT - A function that returns multiple types based on input is common (e.g., factory patterns, polymorphism).
3. TRUST THE DEVELOPER - If code works and is reasonable, don't suggest rewrites for minor improvements.
4. FRAMEWORK AWARENESS - Many frameworks have patterns that look wrong but are correct:
   - Factory methods returning different subtypes based on input parameters
   - Type hints may be broader than actual runtime types - this is often intentional
   - Data may be sanitized/escaped at storage time, not output time
   - Different color formats (hex, rgba, hsl) are all valid depending on context
5. DON'T CREATE LOOPS - If suggesting a change would create a new issue, reconsider the suggestion.
"

  /** The record format the reply parser depends on, with its rules. */
  const FormatContract: string := @"

For each GENUINE issue found, respond in this exact format:
---
LINE: <line number where issue starts>
END_LINE: <end line number if multi-line, otherwise same as LINE>
SEVERITY: <error|warning|info|hint>
CONFIDENCE: <high|medium|low>
CATEGORY: <security|performance|style|bug|best-practice>
TITLE: <short title>
DESCRIPTION: <detailed description explaining WHY this is an issue and the RISK if not fixed>
ORIGINAL:
<<<
the exact original code lines copied verbatim from the file
include multiple lines if needed, preserving all whitespace and indentation
>>>
FIX:
<<<
the exact replacement code
include multiple lines if needed, preserving all whitespace and indentation
>>>
---

CONFIDENCE LEVELS:
- high: You are certain this is a bug, security issue, or definite problem (>95% confident)
- medium: This is likely an issue but could be intentional (~70-95% confident)  
- low: This might be an issue, or might be a valid pattern (<70% confident)

CRITICAL RULES:
1. ORIGINAL must be copied EXACTLY from the file content - character for character
2. Include enough context (2-3 lines before/after) to make the match unique
3. Preserve ALL whitespace, tabs, and indentation exactly as they appear
4. For multi-line code, include all lines between <<< and >>>
5. If no code fix is applicable, use: N/A (without <<< >>>)
6. NEVER suggest a fix that would cause a different issue
7. If the code is already sanitized/escaped upstream, don't flag it again
8. Consider the full context - a ""wrong type"" might be polymorphic

Focus on:
- Security vulnerabilities (CONFIDENCE: high only for definite issues)
- Actual bugs that will cause runtime errors
- Performance issues with measurable impact
- Error handling gaps that could cause crashes
"

  /** The "no issues" instruction that precedes the file. */
  const NoIssuesInstruction: string := @"
If no issues are found (or only uncertain low-confidence issues in relaxed mode), respond with: NO_ISSUES

"

  const FileLabel: string := "File: "

  const DiffHeader: string := "\n\nDiff:\n"

  const ContentHeader: string := "\n\nFull staged content:\n"

  const HintsHeader: string := "\n\nPROJECT-SPECIFIC CONTEXT (trust these hints from the developer):\n"

  /** `NewReviewer` turns an empty tolerance into "moderate". */
  function DefaultTolerance(tolerance: string): (r: string)
    ensures r != ""
    ensures tolerance != "" ==> r == tolerance
  {
    if tolerance == "" then "moderate" else tolerance
  }

  /** The tolerance paragraph: "strict" and "relaxed" select their own
      text, and every other value falls back to the moderate one. */
  function ToleranceGuidance(tolerance: string): string {
    if tolerance == "strict" then StrictGuidance
    else if tolerance == "relaxed" then RelaxedGuidance
    else ModerateGuidance
  }

  /** Each tolerance text is chosen by exactly its own values. */
  lemma ToleranceSelects(tolerance: string)
    ensures ToleranceGuidance(tolerance) == StrictGuidance <==> tolerance == "strict"
    ensures ToleranceGuidance(tolerance) == RelaxedGuidance <==> tolerance == "relaxed"
    ensures ToleranceGuidance(tolerance) == ModerateGuidance <==> tolerance != "strict" && tolerance != "relaxed"
  {
    GuidanceTextsDistinct();
  }

  /** The three tolerance texts differ (already in length). */
  lemma GuidanceTextsDistinct()
    ensures |StrictGuidance| != |RelaxedGuidance|
    ensures |StrictGuidance| != |ModerateGuidance|
    ensures |RelaxedGuidance| != |ModerateGuidance|
  {
  }

  /** An unset tolerance reviews with the moderate text. */
  lemma UnsetToleranceIsModerate()
    ensures ToleranceGuidance(DefaultTolerance("")) == ModerateGuidance
  {
    ToleranceSelects("moderate");
  }

  function HintLine(hint: string): string {
    "- " + hint + "\n"
  }

  /** One line per hint, in order. */
  function HintLines(hints: seq<string>): (r: string)
    ensures |hints| == 0 ==> r == ""
    decreases |hints|
  {
    if hints == [] then "" else HintLine(hints[0]) + HintLines(hints[1..])
  }

  /** The hints section; empty when there are no hints. */
  function HintsBlock(hints: seq<string>): (r: string)
    ensures r == "" <==> |hints| == 0
  {
    if |hints| > 0 then HintsHeader + HintLines(hints) else ""
  }

  /** Everything before the optional sections: the reviewer's guidelines,
      the tolerance paragraph and the reply format. */
  function Head(tolerance: string): string {
    Preamble + ToleranceGuidance(tolerance) + FormatContract
  }

  /** Everything after them, behind a given lead-in: the path, the diff and
      the staged content under their headings. */
  function FileSection(lead: string, change: FileChange): string {
    lead + FileLabel + change.path + DiffHeader + change.diff + ContentHeader + change.content
  }

  function Tail(change: FileChange): string {
    FileSection(NoIssuesInstruction, change)
  }

  /** The composition order of `buildReviewPrompt`, for any head and tail:
      the standards context only when non-empty, the hints section only
      when there are hints. */
  function Assemble(head: string, std: string, hints: seq<string>, tail: string): (r: string)
    ensures HasPrefix(r, head)
    ensures HasSuffix(r, tail)
  {
    var withStandards := if std != "" then head + std else head;
    var withHints := if |hints| > 0 then withStandards + HintsHeader + HintLines(hints) else withStandards;
    withHints + tail
  }

  /** `buildReviewPrompt`: the fixed head, the standards context when it is
      non-empty, the hints section when there are hints, then the file. */
  function BuildReviewPrompt(change: FileChange, standardsContext: string, hints: seq<string>, tolerance: string): (r: string)
    ensures HasPrefix(r, Head(tolerance))
    ensures HasSuffix(r, Tail(change))
  {
    Assemble(Head(tolerance), standardsContext, hints, Tail(change))
  }

  // ---------------------------------------------------------------------
  // Where each part of the prompt lands

  /** An empty standards context and an empty hint list contribute nothing. */
  lemma AssembleSections(head: string, std: string, hints: seq<string>, tail: string)
    ensures Assemble(head, std, hints, tail) == head + std + HintsBlock(hints) + tail
  {
    if std == "" {
      assert head + std == head;
    }
    if |hints| == 0 {
      assert head + std + HintsBlock(hints) == head + std;
    } else {
      Assoc(head + std, HintsHeader, HintLines(hints));
    }
  }

  /** The prompt is the concatenation of its five parts in a fixed order. */
  lemma PromptSections(change: FileChange, std: string, hints: seq<string>, tolerance: string)
    ensures BuildReviewPrompt(change, std, hints, tolerance)
         == Head(tolerance) + std + HintsBlock(hints) + Tail(change)
  {
    AssembleSections(Head(tolerance), std, hints, Tail(change));
  }

  /** Without standards and hints the file follows the head directly. */
  lemma PlainPrompt(change: FileChange, tolerance: string)
    ensures BuildReviewPrompt(change, "", [], tolerance) == Head(tolerance) + Tail(change)
  {
    AssembleSections(Head(tolerance), "", [], Tail(change));
  }

  lemma FileSectionEnds(lead: string, change: FileChange)
    ensures HasSuffix(FileSection(lead, change), "Full staged content:\n" + change.content)
  {
    var suffix := "Full staged content:\n" + change.content;
    assert ContentHeader == "\n\n" + "Full staged content:\n";
    var before := lead + FileLabel + change.path + DiffHeader + change.diff + "\n\n";
    assert FileSection(lead, change) == before + suffix;
  }

  /** The prompt ends with the staged content under its heading. */
  lemma PromptEndsWithContent(change: FileChange, std: string, hints: seq<string>, tolerance: string)
    ensures HasSuffix(BuildReviewPrompt(change, std, hints, tolerance), "Full staged content:\n" + change.content)
  {
    FileSectionEnds(NoIssuesInstruction, change);
    var r := BuildReviewPrompt(change, std, hints, tolerance);
    var t := Tail(change);
    var suffix := "Full staged content:\n" + change.content;
    assert t[|t| - |suffix|..] == suffix;
    assert r[|r| - |t|..] == t;
    assert r[|r| - |suffix|..] == t[|t| - |suffix|..];
  }

  lemma FileSectionNamesFile(front: string, lead: string, change: FileChange)
    ensures OccursAt(front + FileSection(lead, change), "File: " + change.path, |front| + |lead|)
  {
    var rest := DiffHeader + change.diff + ContentHeader + change.content;
    assert FileSection(lead, change) == lead + (FileLabel + change.path) + rest;
    assert front + FileSection(lead, change) == (front + lead) + (FileLabel + change.path) + rest;
  }

  /** The prompt names the file on a "File: " line. */
  lemma PromptNamesFile(change: FileChange, std: string, hints: seq<string>, tolerance: string)
    ensures Contains(BuildReviewPrompt(change, std, hints, tolerance), "File: " + change.path)
  {
    PromptSections(change, std, hints, tolerance);
    var front := Head(tolerance) + std + HintsBlock(hints);
    FileSectionNamesFile(front, NoIssuesInstruction, change);
    ContainsWitness(BuildReviewPrompt(change, std, hints, tolerance), "File: " + change.path, |front| + |NoIssuesInstruction|);
  }

  lemma AssembleStandards(head: string, std: string, hints: seq<string>, tail: string)
    ensures OccursAt(Assemble(head, std, hints, tail), std, |head|)
  {
    AssembleSections(head, std, hints, tail);
    Assoc(head, std, HintsBlock(hints) + tail);
    Assoc(head + std, HintsBlock(hints), tail);
  }

  /** The standards context follows the head verbatim. */
  lemma StandardsFollowHead(change: FileChange, std: string, hints: seq<string>, tolerance: string)
    ensures OccursAt(BuildReviewPrompt(change, std, hints, tolerance), std, |Head(tolerance)|)
  {
    AssembleStandards(Head(tolerance), std, hints, Tail(change));
  }

  lemma {:induction false} HintLinesAppend(a: seq<string>, b: seq<string>)
    ensures HintLines(a + b) == HintLines(a) + HintLines(b)
    decreases |a|
  {
    if a == [] {
      assert a + b == b;
    } else {
      assert (a + b)[1..] == a[1..] + b;
      HintLinesAppend(a[1..], b);
      Assoc(HintLine(a[0]), HintLines(a[1..]), HintLines(b));
    }
  }

  lemma AssembleHint(head: string, std: string, hints: seq<string>, tail: string, k: nat)
    requires k < |hints|
    ensures OccursAt(Assemble(head, std, hints, tail), "- " + hints[k] + "\n",
                     |head| + |std| + |HintsHeader| + |HintLines(hints[..k])|)
  {
    AssembleSections(head, std, hints, tail);
    assert hints == hints[..k] + [hints[k]] + hints[k + 1..];
    HintLinesAppend(hints[..k] + [hints[k]], hints[k + 1..]);
    HintLinesAppend(hints[..k], [hints[k]]);
    assert HintLines([hints[k]]) == HintLine(hints[k]);
    var front := head + std + HintsHeader;
    var before := front + HintLines(hints[..k]);
    var after := HintLines(hints[k + 1..]) + tail;
    var lines := HintLines(hints[..k]) + HintLine(hints[k]) + HintLines(hints[k + 1..]);
    assert HintLines(hints) == lines;
    assert front + lines + tail == before + HintLine(hints[k]) + after by {
      Assoc(front, HintLines(hints[..k]) + HintLine(hints[k]), HintLines(hints[k + 1..]));
      Assoc(front, HintLines(hints[..k]), HintLine(hints[k]));
      Assoc(before + HintLine(hints[k]), HintLines(hints[k + 1..]), tail);
    }
    assert Assemble(head, std, hints, tail) == front + lines + tail by {
      Assoc(head + std, HintsHeader, lines);
    }
    OccursInMiddle(before, HintLine(hints[k]), after);
  }

  /** Each hint sits on its own "- " line, after the section heading and
      the lines of the hints before it. */
  lemma HintPlacement(change: FileChange, std: string, hints: seq<string>, tolerance: string, k: nat)
    requires k < |hints|
    ensures OccursAt(BuildReviewPrompt(change, std, hints, tolerance), "- " + hints[k] + "\n",
                     |Head(tolerance)| + |std| + |HintsHeader| + |HintLines(hints[..k])|)
  {
    AssembleHint(Head(tolerance), std, hints, Tail(change), k);
  }

  /** The hints section heading starts at offset `i` of `s`. */
  predicate HintsHeadingAt(s: string, i: int) {
    OccursAt(s, HintsHeader, i)
  }

  lemma AssembleHintsHeading(head: string, std: string, hints: seq<string>, tail: string)
    ensures |hints| > 0 ==> HintsHeadingAt(Assemble(head, std, hints, tail), |head| + |std|)
    ensures |hints| == 0 ==> Assemble(head, std, hints, tail) == head + std + tail
  {
    AssembleSections(head, std, hints, tail);
    if |hints| > 0 {
      var front := head + std;
      Assoc(front, HintsHeader, HintLines(hints));
      Assoc(front + HintsHeader, HintLines(hints), tail);
      Assoc(front, HintsHeader, HintLines(hints) + tail);
      OccursInMiddle(front, HintsHeader, HintLines(hints) + tail);
    }
  }

  /** With hints, their heading follows the standards context. */
  lemma HintsHeadingWithHints(change: FileChange, std: string, hints: seq<string>, tolerance: string)
    requires |hints| > 0
    ensures HintsHeadingAt(BuildReviewPrompt(change, std, hints, tolerance), |Head(tolerance)| + |std|)
  {
    AssembleHintsHeading(Head(tolerance), std, hints, Tail(change));
  }

  /** Without hints, nothing separates the standards context and the file. */
  lemma NoHintsNoHeading(change: FileChange, std: string, tolerance: string)
    ensures BuildReviewPrompt(change, std, [], tolerance) == Head(tolerance) + std + Tail(change)
  {
    AssembleHintsHeading(Head(tolerance), std, [], Tail(change));
  }
}
