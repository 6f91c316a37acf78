/** The review driver of internal/review/review.go: building a `Reviewer`
    and running it over the staged changes. The assistant is a `Chat`
    oracle from model and prompt to a reply or an error; the progress
    lines Go prints are left out. */
module Orchestrator {
  import opened Results
  import Text
  import opened Git
  import opened Protocol
  import opened ProtocolProperties
  import ProtocolRender
  import Prompt
  import Standards

  /** The assistant: a reply to (model, prompt), or an error. */
  type Chat = (string, string) -> Result<string, string>

  /** A configured reviewer; the client handle is left out. */
  datatype Reviewer = Reviewer(
    model: string,
    standardsContext: string,
    projectHints: seq<string>,
    tolerance: string)

  /** What a review returns. Go never fills in `Summary`, so it stays "". */
  datatype ReviewResult = ReviewResult(
    files: seq<string>,
    suggestions: seq<Suggestion>,
    summary: string)

  /** Where the standards detector looks: the table visiting orders stand for
      Go's map iteration order, and `fs` for the file system. */
  datatype Detection = Detection(
    knownOrder: seq<nat>,
    frameworkOrder: seq<nat>,
    fs: Standards.Fs)

  predicate ValidDetection(d: Detection) {
    && (forall k :: 0 <= k < |d.knownOrder| ==> d.knownOrder[k] < |Standards.KnownStandards|)
    && (forall k :: 0 <= k < |d.frameworkOrder| ==> d.frameworkOrder[k] < |Standards.FrameworkIndicators|)
  }

  /** `NewReviewer` in its five-parameter form. `client` is the outcome of
      starting the assistant client. Standards are detected only for a
      non-empty repository root, and an empty tolerance becomes "moderate". */
  function NewReviewer(model: string, repoRoot: string, customStandards: seq<string>, projectHints: seq<string>,
                       tolerance: string, client: Result<(), string>, detection: Detection): (r: Result<Reviewer, string>)
    requires ValidDetection(detection)
    ensures client.Err? ==> r == Err(client.error)
    ensures client.Ok? ==> r.Ok?
    ensures r.Ok? ==> r.value.model == model && r.value.projectHints == projectHints
    ensures r.Ok? ==> (tolerance == "" ==> r.value.tolerance == "moderate")
    ensures r.Ok? ==> (tolerance != "" ==> r.value.tolerance == tolerance)
    ensures r.Ok? ==> (r.value.standardsContext == "" <==>
      (repoRoot == "" || Standards.DetectStandards(repoRoot, customStandards, detection.knownOrder, detection.frameworkOrder, detection.fs) == []))
  {
    match client
    case Err(e) => Err(e)
    case Ok(_) =>
      var context :=
        if repoRoot != "" then
          Standards.GetStandardsContext(repoRoot, customStandards, detection.knownOrder, detection.frameworkOrder, detection.fs)
        else "";
      Ok(Reviewer(model, context, projectHints, Prompt.DefaultTolerance(tolerance)))
  }

  /** The prompt `reviewFile` sends for one change. */
  function PromptFor(rv: Reviewer, change: FileChange): string {
    Prompt.BuildReviewPrompt(change, rv.standardsContext, rv.projectHints, rv.tolerance)
  }

  /** `reviewFile`: ask the assistant, parse its reply. */
  function ReviewFile(rv: Reviewer, change: FileChange, chat: Chat): (r: Result<seq<Suggestion>, string>)
    ensures chat(rv.model, PromptFor(rv, change)).Err? <==> r.Err?
    ensures r.Ok? ==> forall k :: 0 <= k < |r.value| ==> r.value[k].file == change.path && r.value[k].title != ""
  {
    match chat(rv.model, PromptFor(rv, change))
    case Err(e) => Err(e)
    case Ok(reply) =>
      ParsedSuggestionsTitledAndAnchored(reply, change.path);
      Ok(ParseReviewResponse(reply, change.path))
  }

  /** What one change adds to the result: nothing for a binary file or a
      failed chat call. */
  function FileSuggestions(rv: Reviewer, change: FileChange, chat: Chat): (r: seq<Suggestion>)
    ensures change.isBinary ==> r == []
    ensures chat(rv.model, PromptFor(rv, change)).Err? ==> r == []
    ensures forall k :: 0 <= k < |r| ==> r[k].file == change.path && r[k].title != ""
  {
    if change.isBinary then []
    else match ReviewFile(rv, change, chat)
      case Err(_) => []
      case Ok(sugs) => sugs
  }

  function FilesOf(changes: seq<FileChange>): (r: seq<string>)
    ensures |r| == |changes|
    ensures forall k :: 0 <= k < |changes| ==> r[k] == changes[k].path
  {
    if changes == [] then [] else [changes[0].path] + FilesOf(changes[1..])
  }

  function SuggestionsOf(rv: Reviewer, changes: seq<FileChange>, chat: Chat): seq<Suggestion> {
    if changes == [] then [] else FileSuggestions(rv, changes[0], chat) + SuggestionsOf(rv, changes[1..], chat)
  }

  /** `Review`. Go's error result is nil on every path. */
  function Review(rv: Reviewer, changes: seq<FileChange>, chat: Chat): (r: Result<ReviewResult, string>)
    ensures r.Ok?
    ensures r.value.files == FilesOf(changes)
    ensures r.value.summary == ""
  {
    Ok(ReviewResult(FilesOf(changes), SuggestionsOf(rv, changes, chat), ""))
  }

  /** The prompts `Review` sends, in order: one per non-binary change. */
  function PromptsSent(rv: Reviewer, changes: seq<FileChange>): seq<string> {
    if changes == [] then []
    else (if changes[0].isBinary then [] else [PromptFor(rv, changes[0])]) + PromptsSent(rv, changes[1..])
  }

  // ---------------------------------------------------------------------
  // Properties

  /** Every suggestion names one of the reviewed files and has a title. */
  lemma {:induction false} SuggestionsAnchored(rv: Reviewer, changes: seq<FileChange>, chat: Chat)
    ensures forall k :: 0 <= k < |SuggestionsOf(rv, changes, chat)| ==>
      SuggestionsOf(rv, changes, chat)[k].file in FilesOf(changes) &&
      SuggestionsOf(rv, changes, chat)[k].title != ""
    decreases |changes|
  {
    if changes != [] {
      SuggestionsAnchored(rv, changes[1..], chat);
      var head: seq<Suggestion> := FileSuggestions(rv, changes[0], chat);
      var rest: seq<Suggestion> := SuggestionsOf(rv, changes[1..], chat);
      assert FilesOf(changes) == [changes[0].path] + FilesOf(changes[1..]);
      forall k | 0 <= k < |head + rest|
        ensures (head + rest)[k].file in FilesOf(changes) && (head + rest)[k].title != ""
      {
        if k >= |head| {
          assert (head + rest)[k] == rest[k - |head|];
        }
      }
    }
  }

  lemma ReviewAnchored(rv: Reviewer, changes: seq<FileChange>, chat: Chat)
    ensures forall s :: s in Review(rv, changes, chat).value.suggestions ==> s.file in Review(rv, changes, chat).value.files && s.title != ""
  {
    SuggestionsAnchored(rv, changes, chat);
  }

  /** Reviewing a concatenation reviews each part in order. */
  lemma {:induction false} SuggestionsAppend(rv: Reviewer, a: seq<FileChange>, b: seq<FileChange>, chat: Chat)
    ensures SuggestionsOf(rv, a + b, chat) == SuggestionsOf(rv, a, chat) + SuggestionsOf(rv, b, chat)
    decreases |a|
  {
    if a == [] {
      assert a + b == b;
    } else {
      assert (a + b)[0] == a[0];
      assert (a + b)[1..] == a[1..] + b;
      SuggestionsAppend(rv, a[1..], b, chat);
      Text.Assoc(FileSuggestions(rv, a[0], chat), SuggestionsOf(rv, a[1..], chat), SuggestionsOf(rv, b, chat));
    }
  }

  lemma {:induction false} FilesAppend(a: seq<FileChange>, b: seq<FileChange>)
    ensures FilesOf(a + b) == FilesOf(a) + FilesOf(b)
  {
  }

  lemma {:induction false} PromptsAppend(rv: Reviewer, a: seq<FileChange>, b: seq<FileChange>)
    ensures PromptsSent(rv, a + b) == PromptsSent(rv, a) + PromptsSent(rv, b)
    decreases |a|
  {
    if a == [] {
      assert a + b == b;
    } else {
      assert (a + b)[0] == a[0];
      assert (a + b)[1..] == a[1..] + b;
      PromptsAppend(rv, a[1..], b);
      var first: seq<string> := if a[0].isBinary then [] else [PromptFor(rv, a[0])];
      Text.Assoc(first, PromptsSent(rv, a[1..]), PromptsSent(rv, b));
    }
  }

  /** The review of a concatenation is the concatenation of the reviews. */
  lemma ReviewAppend(rv: Reviewer, a: seq<FileChange>, b: seq<FileChange>, chat: Chat)
    ensures Review(rv, a + b, chat).value.files == Review(rv, a, chat).value.files + Review(rv, b, chat).value.files
    ensures Review(rv, a + b, chat).value.suggestions == Review(rv, a, chat).value.suggestions + Review(rv, b, chat).value.suggestions
  {
    SuggestionsAppend(rv, a, b, chat);
    FilesAppend(a, b);
  }

  /** The result depends on the assistant only through the prompts sent;
      in particular a binary change is never sent. */
  lemma {:induction false} OnlySentPromptsMatter(rv: Reviewer, changes: seq<FileChange>, chat1: Chat, chat2: Chat)
    requires forall p :: p in PromptsSent(rv, changes) ==> chat1(rv.model, p) == chat2(rv.model, p)
    ensures Review(rv, changes, chat1) == Review(rv, changes, chat2)
    decreases |changes|
  {
    if changes != [] {
      var c := changes[0];
      var sent := if c.isBinary then [] else [PromptFor(rv, c)];
      assert PromptsSent(rv, changes) == sent + PromptsSent(rv, changes[1..]);
      OnlySentPromptsMatter(rv, changes[1..], chat1, chat2);
      if !c.isBinary {
        assert PromptFor(rv, c) in PromptsSent(rv, changes);
      }
      assert FileSuggestions(rv, c, chat1) == FileSuggestions(rv, c, chat2);
    }
  }

  /** A successful reply is parsed for the change's path, and for a text
      file those suggestions are what the file contributes. */
  lemma ReplyParsed(rv: Reviewer, change: FileChange, chat: Chat, reply: string)
    requires chat(rv.model, PromptFor(rv, change)) == Ok(reply)
    ensures ReviewFile(rv, change, chat) == Ok(ParseReviewResponse(reply, change.path))
    ensures !change.isBinary ==> FileSuggestions(rv, change, chat) == ParseReviewResponse(reply, change.path)
  {
  }

  /** A text file whose reply renders some suggestions contributes exactly
      those suggestions. */
  lemma RenderedReplyReturned(rv: Reviewer, change: FileChange, chat: Chat, sugs: seq<Suggestion>)
    requires !change.isBinary
    requires forall k :: 0 <= k < |sugs| ==> ProtocolRender.Renderable(sugs[k], change.path)
    requires chat(rv.model, PromptFor(rv, change)) == Ok(ProtocolRender.Render(sugs))
    ensures ReviewFile(rv, change, chat) == Ok(sugs)
    ensures FileSuggestions(rv, change, chat) == sugs
  {
    ReplyParsed(rv, change, chat, ProtocolRender.Render(sugs));
    ProtocolRender.ParseRenderRoundTrip(sugs, change.path);
  }

  /** Reviewing one such file returns it and exactly those suggestions. */
  lemma ReviewReturnsRendered(rv: Reviewer, change: FileChange, chat: Chat, sugs: seq<Suggestion>)
    requires !change.isBinary
    requires forall k :: 0 <= k < |sugs| ==> ProtocolRender.Renderable(sugs[k], change.path)
    requires chat(rv.model, PromptFor(rv, change)) == Ok(ProtocolRender.Render(sugs))
    ensures Review(rv, [change], chat).value == ReviewResult([change.path], sugs, "")
  {
    RenderedReplyReturned(rv, change, chat, sugs);
    assert SuggestionsOf(rv, [change], chat) == FileSuggestions(rv, change, chat) + SuggestionsOf(rv, [], chat);
  }

  /** A binary change costs no prompt. */
  lemma BinaryNotSent(rv: Reviewer, change: FileChange)
    requires change.isBinary
    ensures PromptsSent(rv, [change]) == []
  {
  }

  /** An assistant that always fails leaves the review without suggestions,
      yet every file is still listed. */
  lemma {:induction false} FailingChatNoSuggestions(rv: Reviewer, changes: seq<FileChange>, chat: Chat)
    requires forall p :: chat(rv.model, p).Err?
    ensures Review(rv, changes, chat).value.suggestions == []
    ensures Review(rv, changes, chat).value.files == FilesOf(changes)
    decreases |changes|
  {
    if changes != [] {
      FailingChatNoSuggestions(rv, changes[1..], chat);
      assert chat(rv.model, PromptFor(rv, changes[0])).Err?;
    }
  }
}
