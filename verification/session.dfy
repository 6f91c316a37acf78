/** The interactive session of internal/ui/session.go: a walk over the
    suggestions driven by the lines a user types. Standard input is a
    sequence of reads; once it runs out, every read fails with no data, as
    `ReadString` does at end of input. Printing is left out. */
module Session {
  import opened Results
  import opened Text
  import Protocol
  import Patch

  datatype Action = Commit | Abort | ReReview

  datatype Outcome = Outcome(action: Action, fixed: nat, skipped: nat)

  /** One `ReadString('\n')`: the data read and whether an error came back. */
  datatype Read = Read(text: string, failed: bool)

  /** The session's counters, the files the fixes edit, and how many fixes
      have been attempted. */
  datatype SessionState = SessionState(current: nat, fixed: nat, skipped: nat, files: Patch.Files, attempts: nat)

  /** The environment of each fix attempt, by its number: every attempt
      runs `os.Stat`, `os.WriteFile` and `git add` afresh, so a retry can
      fare differently. */
  type FixEnvs = nat -> Patch.FixEnv

  /** How the suggestion loop ended: by "quit", or by running past the last
      suggestion; `rest` is the input not yet read. */
  datatype LoopEnd = LoopEnd(quit: bool, st: SessionState, rest: seq<Read>)

  /** What `Run` returns, with the input it left unread and the files. */
  datatype SessionResult = SessionResult(outcome: Outcome, rest: seq<Read>, files: Patch.Files)

  /** The next read and the input after it. */
  function Next(input: seq<Read>): (r: (Read, seq<Read>))
    ensures input == [] ==> r == (Read("", true), [])
    ensures input != [] ==> r.0 == input[0] && r.1 == input[1..]
  {
    if input == [] then (Read("", true), []) else (input[0], input[1..])
  }

  /** How every answer is read: lower-cased, then trimmed. */
  function Normalize(text: string): string {
    TrimSpace(Lower(text))
  }

  /** The answer after the loop: "y"/"yes" commits, "r"/"re-review" asks for
      another review, anything else aborts. */
  function FinalAction(text: string): (a: Action)
    ensures a == Commit <==> Normalize(text) in {"y", "yes"}
    ensures a == ReReview <==> Normalize(text) in {"r", "re-review"}
  {
    var answer := Normalize(text);
    if answer == "y" || answer == "yes" then Commit
    else if answer == "r" || answer == "re-review" then ReReview
    else Abort
  }

  /** Counters stay within the walk: each suggestion is fixed, skipped, or
      passed over, once. */
  predicate Counted(st: SessionState, total: nat) {
    st.fixed + st.skipped <= st.current <= total
  }

  /** A step moves on: it reads at least one line, or, with the input used
      up, advances to the next suggestion. */
  predicate Progress(input: seq<Read>, st: SessionState, rest: seq<Read>, st': SessionState) {
    |rest| < |input| || (rest == input == [] && st'.current > st.current)
  }

  /** After a fix fails: "Skip this suggestion? [y/n]". Only an answer
      that normalises to exactly "y" skips; otherwise the suggestion stays. */
  function Confirm(input: seq<Read>, st: SessionState): (r: LoopEnd)
    ensures !r.quit && |r.rest| <= |input| && (input != [] ==> |r.rest| < |input|)
    ensures r.st == st || r.st == st.(skipped := st.skipped + 1, current := st.current + 1)
  {
    var (confirm, rest) := Next(input);
    if Normalize(confirm.text) == "y" then
      LoopEnd(false, st.(skipped := st.skipped + 1, current := st.current + 1), rest)
    else LoopEnd(false, st, rest)
  }

  /** The cases of the answer `switch` in the suggestion loop. */
  datatype Choice = FixIt | SkipIt | QuitIt | Stay

  /** Which case a normalised answer selects; "v"/"view" and anything
      unrecognised both stay. */
  function Choose(answer: string): (c: Choice)
    ensures c == FixIt <==> answer in {"f", "fix"}
    ensures c == SkipIt <==> answer in {"s", "skip"}
    ensures c == QuitIt <==> answer in {"q", "quit"}
  {
    if answer == "f" || answer == "fix" then FixIt
    else if answer == "s" || answer == "skip" then SkipIt
    else if answer == "q" || answer == "quit" then QuitIt
    else Stay
  }

  /** One pass of the loop body for the suggestion at `st.current`. */
  function Step(sugs: seq<Protocol.Suggestion>, input: seq<Read>, st: SessionState, envs: FixEnvs): (r: LoopEnd)
    requires st.current < |sugs| && Counted(st, |sugs|)
    ensures Counted(r.st, |sugs|)
    ensures Progress(input, st, r.rest, r.st)
    ensures |r.rest| <= |input|
    ensures r.st.fixed >= st.fixed && r.st.skipped >= st.skipped && r.st.current >= st.current
    ensures r.st.fixed + r.st.skipped <= st.fixed + st.skipped + 1
    ensures r.st.current <= st.current + 1
    ensures r.quit ==> r.st == st
  {
    var (read, rest) := Next(input);
    if read.failed then LoopEnd(false, st.(current := st.current + 1), rest)
    else
      match Choose(Normalize(read.text))
      case FixIt =>
        var fix := Patch.ApplyFix(sugs[st.current], st.files, envs(st.attempts));
        if fix.applied then
          LoopEnd(false, st.(fixed := st.fixed + 1, current := st.current + 1, files := fix.files, attempts := st.attempts + 1), rest)
        else Confirm(rest, st.(files := fix.files, attempts := st.attempts + 1))
      case SkipIt => LoopEnd(false, st.(skipped := st.skipped + 1, current := st.current + 1), rest)
      case QuitIt => LoopEnd(true, st, rest)
      case Stay => LoopEnd(false, st, rest)
  }

  /** The `for s.current < total` loop. */
  function Loop(sugs: seq<Protocol.Suggestion>, input: seq<Read>, st: SessionState, envs: FixEnvs): (r: LoopEnd)
    requires Counted(st, |sugs|)
    ensures Counted(r.st, |sugs|)
    ensures !r.quit ==> r.st.current == |sugs|
    ensures r.st.fixed >= st.fixed && r.st.skipped >= st.skipped
    ensures |r.rest| <= |input|
    decreases |input|, |sugs| - st.current
  {
    if st.current >= |sugs| then LoopEnd(false, st, input)
    else
      var step := Step(sugs, input, st, envs);
      if step.quit then step else Loop(sugs, step.rest, step.st, envs)
  }

  /** `ReviewSession.Run`. A quit aborts with the counts reached so far;
      otherwise the answer read after the loop decides the action, and the
      outcome carries the loop's counts. */
  function Run(sugs: seq<Protocol.Suggestion>, input: seq<Read>, files: Patch.Files, envs: FixEnvs): (r: SessionResult)
    ensures sugs == [] ==> r == SessionResult(Outcome(Commit, 0, 0), input, files)
    ensures r.outcome.fixed + r.outcome.skipped <= |sugs|
    ensures sugs != [] ==>
      var end := Loop(sugs, input, SessionState(0, 0, 0, files, 0), envs);
      && r.outcome.fixed == end.st.fixed && r.outcome.skipped == end.st.skipped
      && r.files == end.st.files
      && (end.quit ==> r.outcome.action == Abort && r.rest == end.rest)
      && (!end.quit ==> r.outcome.action == FinalAction(Next(end.rest).0.text) && r.rest == Next(end.rest).1)
  {
    if sugs == [] then SessionResult(Outcome(Commit, 0, 0), input, files)
    else
      var end := Loop(sugs, input, SessionState(0, 0, 0, files, 0), envs);
      if end.quit then SessionResult(Outcome(Abort, end.st.fixed, end.st.skipped), end.rest, end.st.files)
      else
        var (answer, rest) := Next(end.rest);
        SessionResult(Outcome(FinalAction(answer.text), end.st.fixed, end.st.skipped), rest, end.st.files)
  }

  /** The count `printSummary` reports as remaining. */
  function Remaining(total: nat, fixed: nat, skipped: nat): int {
    total - fixed - skipped
  }

  // ---------------------------------------------------------------------
  // Properties

  /** The remaining count of a finished session is never negative. */
  lemma RemainingNonNegative(sugs: seq<Protocol.Suggestion>, input: seq<Read>, files: Patch.Files, envs: FixEnvs)
    ensures var o := Run(sugs, input, files, envs).outcome;
      Remaining(|sugs|, o.fixed, o.skipped) >= 0
  {
  }

  /** A failed read passes over a suggestion without counting it, so the
      remaining count can be positive after a commit. */
  lemma ReadErrorLeavesRemaining(sug: Protocol.Suggestion, files: Patch.Files, envs: FixEnvs)
    ensures Run([sug], [Read("", true), Read("y\n", false)], files, envs).outcome == Outcome(Commit, 0, 0)
    ensures Remaining(1, 0, 0) == 1
  {
    var st := SessionState(0, 0, 0, files, 0);
    var input := [Read("", true), Read("y\n", false)];
    assert Step([sug], input, st, envs) == LoopEnd(false, st.(current := 1), input[1..]);
    assert Loop([sug], input, st, envs) == LoopEnd(false, st.(current := 1), input[1..]);
    assert Next(input[1..]) == (Read("y\n", false), []);
    assert Normalize("y\n") == "y" by {
      assert Lower("y\n") == "y\n";
      assert "y\n"[..1] == "y";
    }
  }

  /** One pass of the loop that does not quit is followed by the rest of
      the loop. */
  lemma LoopUnfold(sugs: seq<Protocol.Suggestion>, input: seq<Read>, st: SessionState, envs: FixEnvs)
    requires Counted(st, |sugs|) && st.current < |sugs|
    requires !Step(sugs, input, st, envs).quit
    ensures Loop(sugs, input, st, envs) == Loop(sugs, Step(sugs, input, st, envs).rest, Step(sugs, input, st, envs).st, envs)
  {
  }

  /** The first read of `[Read(text, false)] + input`. */
  lemma NextAnswer(text: string, input: seq<Read>)
    ensures Next([Read(text, false)] + input) == (Read(text, false), input)
  {
    assert ([Read(text, false)] + input)[1..] == input;
  }

  /** "v", "view" and any unrecognised answer leave the session exactly as
      it was: the line is read and nothing else happens. */
  lemma IdleAnswerChangesNothing(sugs: seq<Protocol.Suggestion>, text: string, input: seq<Read>, st: SessionState, envs: FixEnvs)
    requires Counted(st, |sugs|) && st.current < |sugs|
    requires Normalize(text) !in {"f", "fix", "s", "skip", "q", "quit"}
    ensures Loop(sugs, [Read(text, false)] + input, st, envs) == Loop(sugs, input, st, envs)
  {
    var all := [Read(text, false)] + input;
    NextAnswer(text, input);
    assert Step(sugs, all, st, envs) == LoopEnd(false, st, input);
    LoopUnfold(sugs, all, st, envs);
  }

  /** A skip answer: the step counts it and moves on. */
  lemma SkipStep(sugs: seq<Protocol.Suggestion>, text: string, input: seq<Read>, st: SessionState, envs: FixEnvs)
    requires Counted(st, |sugs|) && st.current < |sugs|
    requires Normalize(text) in {"s", "skip"}
    ensures Step(sugs, [Read(text, false)] + input, st, envs)
         == LoopEnd(false, st.(skipped := st.skipped + 1, current := st.current + 1), input)
  {
    NextAnswer(text, input);
  }

  /** "s" or "skip" counts a skip and moves to the next suggestion. */
  lemma SkipAnswer(sugs: seq<Protocol.Suggestion>, text: string, input: seq<Read>, st: SessionState, envs: FixEnvs)
    requires Counted(st, |sugs|) && st.current < |sugs|
    requires Normalize(text) in {"s", "skip"}
    ensures Loop(sugs, [Read(text, false)] + input, st, envs)
         == Loop(sugs, input, st.(skipped := st.skipped + 1, current := st.current + 1), envs)
  {
    SkipStep(sugs, text, input, st, envs);
    LoopUnfold(sugs, [Read(text, false)] + input, st, envs);
  }

  /** A "fix" answer whose fix fails goes on to the confirmation. */
  lemma FailedFixAsks(sugs: seq<Protocol.Suggestion>, text: string, rest: seq<Read>, st: SessionState, envs: FixEnvs)
    requires Counted(st, |sugs|) && st.current < |sugs|
    requires Normalize(text) in {"f", "fix"}
    requires !Patch.ApplyFix(sugs[st.current], st.files, envs(st.attempts)).applied
    ensures Step(sugs, [Read(text, false)] + rest, st, envs)
         == Confirm(rest, AfterFailedFix(sugs, st, envs))
  {
    NextAnswer(text, rest);
  }

  /** The confirmation: exactly "y" skips, anything else stays. */
  lemma ConfirmAnswer(confirm: string, input: seq<Read>, st: SessionState)
    ensures Confirm([Read(confirm, false)] + input, st)
         == if Normalize(confirm) == "y"
            then LoopEnd(false, st.(skipped := st.skipped + 1, current := st.current + 1), input)
            else LoopEnd(false, st, input)
  {
    NextAnswer(confirm, input);
  }

  /** The state after a fix that did not apply: the counters as they were,
      whatever the failed write left in the files, and one more attempt. */
  function AfterFailedFix(sugs: seq<Protocol.Suggestion>, st: SessionState, envs: FixEnvs): SessionState
    requires st.current < |sugs|
  {
    st.(files := Patch.ApplyFix(sugs[st.current], st.files, envs(st.attempts)).files, attempts := st.attempts + 1)
  }

  /** A failed fix asks for confirmation: exactly "y" skips, anything else
      stays on the same suggestion. */
  lemma FailedFixStep(sugs: seq<Protocol.Suggestion>, text: string, confirm: string, input: seq<Read>, st: SessionState, envs: FixEnvs)
    requires Counted(st, |sugs|) && st.current < |sugs|
    requires Normalize(text) in {"f", "fix"}
    requires !Patch.ApplyFix(sugs[st.current], st.files, envs(st.attempts)).applied
    ensures var st' := AfterFailedFix(sugs, st, envs);
      Step(sugs, [Read(text, false), Read(confirm, false)] + input, st, envs)
         == if Normalize(confirm) == "y"
            then LoopEnd(false, st'.(skipped := st.skipped + 1, current := st.current + 1), input)
            else LoopEnd(false, st', input)
  {
    var rest := [Read(confirm, false)] + input;
    assert [Read(text, false), Read(confirm, false)] + input == [Read(text, false)] + rest;
    FailedFixAsks(sugs, text, rest, st, envs);
    ConfirmAnswer(confirm, input, AfterFailedFix(sugs, st, envs));
  }

  lemma FailedFixConfirm(sugs: seq<Protocol.Suggestion>, text: string, confirm: string, input: seq<Read>, st: SessionState, envs: FixEnvs)
    requires Counted(st, |sugs|) && st.current < |sugs|
    requires Normalize(text) in {"f", "fix"}
    requires !Patch.ApplyFix(sugs[st.current], st.files, envs(st.attempts)).applied
    ensures Normalize(confirm) == "y" ==>
      Loop(sugs, [Read(text, false), Read(confirm, false)] + input, st, envs)
        == Loop(sugs, input, AfterFailedFix(sugs, st, envs).(skipped := st.skipped + 1, current := st.current + 1), envs)
    ensures Normalize(confirm) != "y" ==>
      Loop(sugs, [Read(text, false), Read(confirm, false)] + input, st, envs)
        == Loop(sugs, input, AfterFailedFix(sugs, st, envs), envs)
  {
    var all := [Read(text, false), Read(confirm, false)] + input;
    FailedFixStep(sugs, text, confirm, input, st, envs);
    LoopUnfold(sugs, all, st, envs);
  }

  /** A fix that applies: the step counts it and moves on. */
  lemma AppliedFixStep(sugs: seq<Protocol.Suggestion>, text: string, input: seq<Read>, st: SessionState, envs: FixEnvs)
    requires Counted(st, |sugs|) && st.current < |sugs|
    requires Normalize(text) in {"f", "fix"}
    requires Patch.ApplyFix(sugs[st.current], st.files, envs(st.attempts)).applied
    ensures Step(sugs, [Read(text, false)] + input, st, envs)
         == LoopEnd(false, st.(fixed := st.fixed + 1, current := st.current + 1,
                               files := Patch.ApplyFix(sugs[st.current], st.files, envs(st.attempts)).files,
                               attempts := st.attempts + 1), input)
  {
    NextAnswer(text, input);
  }

  /** A successful fix counts and moves on, with the edited file. */
  lemma AppliedFix(sugs: seq<Protocol.Suggestion>, text: string, input: seq<Read>, st: SessionState, envs: FixEnvs)
    requires Counted(st, |sugs|) && st.current < |sugs|
    requires Normalize(text) in {"f", "fix"}
    requires Patch.ApplyFix(sugs[st.current], st.files, envs(st.attempts)).applied
    ensures Loop(sugs, [Read(text, false)] + input, st, envs)
         == Loop(sugs, input, st.(fixed := st.fixed + 1, current := st.current + 1,
                                  files := Patch.ApplyFix(sugs[st.current], st.files, envs(st.attempts)).files,
                                  attempts := st.attempts + 1), envs)
  {
    AppliedFixStep(sugs, text, input, st, envs);
    LoopUnfold(sugs, [Read(text, false)] + input, st, envs);
  }

  /** A fix whose write could not open the file, refused at the
      confirmation and asked for again, applies when the second attempt's
      write succeeds: each attempt meets its own environment. */
  lemma RetryAfterFailedOpen(sugs: seq<Protocol.Suggestion>, text: string, confirm: string, again: string,
                             input: seq<Read>, st: SessionState, envs: FixEnvs)
    requires Counted(st, |sugs|) && st.current < |sugs|
    requires Normalize(text) in {"f", "fix"} && Normalize(again) in {"f", "fix"} && Normalize(confirm) != "y"
    requires Patch.Patched(sugs[st.current], st.files).Some?
    requires envs(st.attempts).write(sugs[st.current].file) == Patch.OpenFailed
    requires envs(st.attempts + 1).write(sugs[st.current].file) == Patch.Written
    ensures Loop(sugs, [Read(text, false), Read(confirm, false)] + ([Read(again, false)] + input), st, envs)
         == Loop(sugs, input, st.(fixed := st.fixed + 1, current := st.current + 1,
                                  files := Patch.ApplyFix(sugs[st.current], st.files, envs(st.attempts + 1)).files,
                                  attempts := st.attempts + 2), envs)
  {
    var st' := st.(attempts := st.attempts + 1);
    var later := [Read(again, false)] + input;
    assert Loop(sugs, [Read(text, false), Read(confirm, false)] + later, st, envs) == Loop(sugs, later, st', envs) by {
      FailedOpenRetries(sugs, st, envs);
      FailedFixConfirm(sugs, text, confirm, later, st, envs);
    }
    assert Loop(sugs, later, st', envs)
        == Loop(sugs, input, st.(fixed := st.fixed + 1, current := st.current + 1,
                                 files := Patch.ApplyFix(sugs[st.current], st.files, envs(st.attempts + 1)).files,
                                 attempts := st.attempts + 2), envs) by {
      FailedOpenRetries(sugs, st, envs);
      AppliedRetry(sugs, again, input, st, envs);
    }
  }

  /** The retry, one attempt later, applies and moves on. */
  lemma AppliedRetry(sugs: seq<Protocol.Suggestion>, again: string, input: seq<Read>, st: SessionState, envs: FixEnvs)
    requires Counted(st, |sugs|) && st.current < |sugs| && Normalize(again) in {"f", "fix"}
    requires Patch.ApplyFix(sugs[st.current], st.files, envs(st.attempts + 1)).applied
    ensures Loop(sugs, [Read(again, false)] + input, st.(attempts := st.attempts + 1), envs)
         == Loop(sugs, input, st.(fixed := st.fixed + 1, current := st.current + 1,
                                  files := Patch.ApplyFix(sugs[st.current], st.files, envs(st.attempts + 1)).files,
                                  attempts := st.attempts + 2), envs)
  {
    var st' := st.(attempts := st.attempts + 1);
    assert st'.current == st.current && st'.files == st.files && st'.attempts == st.attempts + 1;
    var done := st'.(fixed := st'.fixed + 1, current := st'.current + 1,
                     files := Patch.ApplyFix(sugs[st'.current], st'.files, envs(st'.attempts)).files,
                     attempts := st'.attempts + 1);
    assert done == st.(fixed := st.fixed + 1, current := st.current + 1,
                       files := Patch.ApplyFix(sugs[st.current], st.files, envs(st.attempts + 1)).files,
                       attempts := st.attempts + 2);
    AppliedFix(sugs, again, input, st', envs);
  }

  /** The failed open changes no file, so the retry starts from the same
      files with the next attempt's environment. */
  lemma FailedOpenRetries(sugs: seq<Protocol.Suggestion>, st: SessionState, envs: FixEnvs)
    requires st.current < |sugs|
    requires Patch.Patched(sugs[st.current], st.files).Some?
    requires envs(st.attempts).write(sugs[st.current].file) == Patch.OpenFailed
    requires envs(st.attempts + 1).write(sugs[st.current].file) == Patch.Written
    ensures !Patch.ApplyFix(sugs[st.current], st.files, envs(st.attempts)).applied
    ensures AfterFailedFix(sugs, st, envs) == st.(attempts := st.attempts + 1)
    ensures Patch.ApplyFix(sugs[st.current], st.files, envs(st.attempts + 1)).applied
  {
  }

  /** "q" or "quit" aborts with the counts reached so far. */
  lemma QuitAnswer(sugs: seq<Protocol.Suggestion>, text: string, input: seq<Read>, st: SessionState, envs: FixEnvs)
    requires Counted(st, |sugs|) && st.current < |sugs|
    requires Normalize(text) in {"q", "quit"}
    ensures Loop(sugs, [Read(text, false)] + input, st, envs) == LoopEnd(true, st, input)
  {
    var all := [Read(text, false)] + input;
    NextAnswer(text, input);
    assert Step(sugs, all, st, envs) == LoopEnd(true, st, input);
  }

  /** A failed read passes over the suggestion without counting it. */
  lemma ReadErrorPasses(sugs: seq<Protocol.Suggestion>, text: string, input: seq<Read>, st: SessionState, envs: FixEnvs)
    requires Counted(st, |sugs|) && st.current < |sugs|
    ensures Step(sugs, [Read(text, true)] + input, st, envs) == LoopEnd(false, st.(current := st.current + 1), input)
    ensures Loop(sugs, [Read(text, true)] + input, st, envs) == Loop(sugs, input, st.(current := st.current + 1), envs)
  {
    assert ([Read(text, true)] + input)[1..] == input;
    LoopUnfold(sugs, [Read(text, true)] + input, st, envs);
  }

  /** Once the input is used up every read fails, so the loop passes over
      all remaining suggestions without counting them. */
  lemma {:induction false} LoopAtEnd(sugs: seq<Protocol.Suggestion>, st: SessionState, envs: FixEnvs)
    requires Counted(st, |sugs|)
    ensures Loop(sugs, [], st, envs) == LoopEnd(false, st.(current := if st.current < |sugs| then |sugs| else st.current), [])
    decreases |sugs| - st.current
  {
    if st.current < |sugs| {
      assert Step(sugs, [], st, envs) == LoopEnd(false, st.(current := st.current + 1), []);
      LoopAtEnd(sugs, st.(current := st.current + 1), envs);
    }
  }

  /** When the loop runs past the last suggestion, the next answer decides
      the action and the outcome carries the loop's counts and files. */
  lemma RunAfterLoop(sugs: seq<Protocol.Suggestion>, input: seq<Read>, files: Patch.Files, envs: FixEnvs,
                     st: SessionState, answer: string, rest: seq<Read>)
    requires sugs != []
    requires Loop(sugs, input, SessionState(0, 0, 0, files, 0), envs) == LoopEnd(false, st, [Read(answer, false)] + rest)
    ensures Run(sugs, input, files, envs) == SessionResult(Outcome(FinalAction(answer), st.fixed, st.skipped), rest, st.files)
  {
    NextAnswer(answer, rest);
  }

  /** A session with no input at all aborts without counting anything. */
  lemma NoInputAborts(sugs: seq<Protocol.Suggestion>, files: Patch.Files, envs: FixEnvs)
    requires sugs != []
    ensures Run(sugs, [], files, envs) == SessionResult(Outcome(Abort, 0, 0), [], files)
  {
    LoopAtEnd(sugs, SessionState(0, 0, 0, files, 0), envs);
    assert Normalize("") == "";
  }

  /** Quitting at the first suggestion aborts with nothing counted and
      leaves the rest of the input unread. */
  lemma QuitFirst(sugs: seq<Protocol.Suggestion>, text: string, input: seq<Read>, files: Patch.Files, envs: FixEnvs)
    requires sugs != [] && Normalize(text) in {"q", "quit"}
    ensures Run(sugs, [Read(text, false)] + input, files, envs) == SessionResult(Outcome(Abort, 0, 0), input, files)
  {
    QuitAnswer(sugs, text, input, SessionState(0, 0, 0, files, 0), envs);
  }

  function Repeat(r: Read, n: nat): (s: seq<Read>)
    ensures |s| == n
  {
    if n == 0 then [] else [r] + Repeat(r, n - 1)
  }

  lemma RepeatCons(r: Read, n: nat, input: seq<Read>)
    requires n > 0
    ensures Repeat(r, n) + input == [r] + (Repeat(r, n - 1) + input)
  {
  }

  /** Skipping every remaining suggestion counts each one as skipped. */
  lemma {:induction false} LoopSkipsAll(sugs: seq<Protocol.Suggestion>, text: string, input: seq<Read>, st: SessionState, envs: FixEnvs)
    requires Counted(st, |sugs|) && Normalize(text) in {"s", "skip"}
    ensures Loop(sugs, Repeat(Read(text, false), |sugs| - st.current) + input, st, envs)
         == LoopEnd(false, st.(skipped := st.skipped + |sugs| - st.current, current := |sugs|), input)
    decreases |sugs| - st.current
  {
    var n := |sugs| - st.current;
    if n == 0 {
      assert Repeat(Read(text, false), n) + input == input;
    } else {
      var st' := st.(skipped := st.skipped + 1, current := st.current + 1);
      RepeatCons(Read(text, false), n, input);
      SkipAnswer(sugs, text, Repeat(Read(text, false), n - 1) + input, st, envs);
      LoopSkipsAll(sugs, text, input, st', envs);
    }
  }

  /** Skipping every suggestion and then answering: the answer decides the
      action, and the outcome counts every suggestion as skipped. */
  lemma SkipAllThenAnswer(sugs: seq<Protocol.Suggestion>, text: string, answer: string, input: seq<Read>,
                          files: Patch.Files, envs: FixEnvs)
    requires sugs != [] && Normalize(text) in {"s", "skip"}
    ensures Run(sugs, Repeat(Read(text, false), |sugs|) + ([Read(answer, false)] + input), files, envs)
         == SessionResult(Outcome(FinalAction(answer), 0, |sugs|), input, files)
  {
    var st := SessionState(0, 0, 0, files, 0);
    LoopSkipsAll(sugs, text, [Read(answer, false)] + input, st, envs);
    assert st.(skipped := st.skipped + |sugs| - st.current, current := |sugs|) == SessionState(|sugs|, 0, |sugs|, files, 0);
    RunAfterLoop(sugs, Repeat(Read(text, false), |sugs|) + ([Read(answer, false)] + input), files, envs,
                 SessionState(|sugs|, 0, |sugs|, files, 0), answer, input);
  }

  // ---------------------------------------------------------------------
  // viewDiff

  const MaxDiffLines: nat := 50

  /** What `viewDiff` shows: an error note, a "no staged changes" note, or
      the first lines of the diff and how many were left out. */
  datatype DiffView = DiffError | NoStagedChanges | Shown(lines: seq<string>, omitted: nat)

  function ViewDiff(output: Result<string, string>): (r: DiffView)
    ensures output.Err? <==> r == DiffError
    ensures output == Ok("") <==> r == NoStagedChanges
    ensures r.Shown? ==> |r.lines| <= MaxDiffLines
    ensures r.Shown? ==> r.lines <= SplitLines(output.value)
    ensures r.Shown? ==> |r.lines| + r.omitted == |SplitLines(output.value)|
    ensures r.Shown? && r.omitted > 0 ==> |r.lines| == MaxDiffLines
  {
    match output
    case Err(_) => DiffError
    case Ok(text) =>
      if text == "" then NoStagedChanges
      else
        var lines := SplitLines(text);
        if |lines| > MaxDiffLines then Shown(lines[..MaxDiffLines], |lines| - MaxDiffLines)
        else Shown(lines, 0)
  }

  /** The shown lines followed by the omitted ones give back the diff. */
  lemma ViewDiffLosesNothing(text: string)
    requires text != ""
    ensures var v := ViewDiff(Ok(text));
      JoinLines(v.lines + SplitLines(text)[|v.lines|..]) == text
  {
    var v := ViewDiff(Ok(text));
    assert v.lines + SplitLines(text)[|v.lines|..] == SplitLines(text);
    JoinSplit(text, '\n');
  }
}
