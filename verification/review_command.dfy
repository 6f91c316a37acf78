/** The decisions of cmd/review.go: which staged changes are reviewed
    (ignore patterns and the size limit) and what the command does with the
    session's outcome. Paths are taken as already slash-separated, which is
    what `filepath.ToSlash` leaves on a Unix system. */
module ReviewCommand {
  import opened Text
  import Paths
  import Glob
  import Git
  import Session
  import Protocol
  import Patch

  const DefaultMaxFileSize: int := 100000

  /** A configured `max_file_size` of 0 selects the default. */
  function EffectiveMaxFileSize(configured: int): (n: int)
    ensures configured == 0 ==> n == DefaultMaxFileSize
    ensures configured != 0 ==> n == configured
  {
    if configured == 0 then DefaultMaxFileSize else configured
  }

  /** The path lies in a directory called `dir`, at the top or deeper. */
  predicate UnderDir(path: string, dir: string) {
    HasPrefix(path, dir + "/") || Contains(path, "/" + dir + "/")
  }

  // `pattern` minus a trailing "/*".
  function DirOf(pattern: string): string
    requires HasSuffix(pattern, "/*")
  {
    pattern[..|pattern| - 2]
  }

  // One pattern's verdict on one path: a glob match of the whole path or
  // of its base name, a "dir/*" pattern naming a directory on the path,
  // or a pattern starting with "**/" whose rest names such a directory or
  // matches the base name.
  predicate PatternIgnores(pattern: string, path: string) {
    var base := Paths.Base(path);
    || Glob.Match(pattern, path)
    || Glob.Match(pattern, base)
    || (HasSuffix(pattern, "/*") && UnderDir(path, DirOf(pattern)))
    || (Contains(pattern, "**") && HasPrefix(pattern, "**/") &&
        var suffix := pattern[3..];
        if HasSuffix(suffix, "/*") then UnderDir(path, DirOf(suffix))
        else Glob.Match(suffix, base))
  }

  /** `shouldIgnoreFile`: some pattern ignores the path. */
  function ShouldIgnoreFile(path: string, patterns: seq<string>): (r: bool)
    ensures r <==> exists k :: 0 <= k < |patterns| && PatternIgnores(patterns[k], path)
  {
    if patterns == [] then false
    else if PatternIgnores(patterns[0], path) then true
    else
      var rest := ShouldIgnoreFile(path, patterns[1..]);
      assert forall k :: 1 <= k < |patterns| ==> patterns[k] == patterns[1..][k - 1];
      rest
  }

  /** A change survives the filter. */
  predicate Keep(change: Git.FileChange, patterns: seq<string>, limit: int) {
    !ShouldIgnoreFile(change.path, patterns) && |change.content| <= limit
  }

  /** `a` is `b` with some elements left out, order kept. */
  predicate Subsequence<T(==)>(a: seq<T>, b: seq<T>)
    decreases |b|
  {
    if a == [] then true
    else if b == [] then false
    else (a[0] == b[0] && Subsequence(a[1..], b[1..])) || Subsequence(a, b[1..])
  }

  function KeepOnly(changes: seq<Git.FileChange>, patterns: seq<string>, limit: int): (r: seq<Git.FileChange>)
    ensures forall c :: c in r <==> c in changes && Keep(c, patterns, limit)
    ensures Subsequence(r, changes)
    ensures forall c :: multiset(r)[c] == if Keep(c, patterns, limit) then multiset(changes)[c] else 0
  {
    if changes == [] then []
    else
      var rest := KeepOnly(changes[1..], patterns, limit);
      assert forall c :: c in changes <==> c == changes[0] || c in changes[1..];
      assert changes == [changes[0]] + changes[1..];
      assert multiset(changes) == multiset([changes[0]]) + multiset(changes[1..]);
      if Keep(changes[0], patterns, limit) then
        assert ([changes[0]] + rest)[1..] == rest;
        [changes[0]] + rest
      else
        SubsequenceSkips(rest, changes);
        rest
  }

  lemma SubsequenceSkips<T>(a: seq<T>, b: seq<T>)
    requires b != [] && Subsequence(a, b[1..])
    ensures Subsequence(a, b)
  {
  }

  /** The filter loop of `runReview` (cmd/review.go:61-78). */
  function FilterChanges(changes: seq<Git.FileChange>, patterns: seq<string>, maxFileSize: int): (r: seq<Git.FileChange>)
    ensures Subsequence(r, changes)
    ensures forall c :: c in r <==>
      c in changes && !ShouldIgnoreFile(c.path, patterns) && |c.content| <= EffectiveMaxFileSize(maxFileSize)
    ensures forall c ::
      multiset(r)[c] == if Keep(c, patterns, EffectiveMaxFileSize(maxFileSize)) then multiset(changes)[c] else 0
  {
    KeepOnly(changes, patterns, EffectiveMaxFileSize(maxFileSize))
  }

  lemma {:induction false} KeepOnlyIdempotent(changes: seq<Git.FileChange>, patterns: seq<string>, limit: int)
    ensures KeepOnly(KeepOnly(changes, patterns, limit), patterns, limit) == KeepOnly(changes, patterns, limit)
    decreases |changes|
  {
    if changes != [] {
      KeepOnlyIdempotent(changes[1..], patterns, limit);
      var rest := KeepOnly(changes[1..], patterns, limit);
      if Keep(changes[0], patterns, limit) {
        assert ([changes[0]] + rest)[0] == changes[0];
        assert ([changes[0]] + rest)[1..] == rest;
      }
    }
  }

  /** Filtering twice keeps what filtering once keeps. */
  lemma FilterIdempotent(changes: seq<Git.FileChange>, patterns: seq<string>, maxFileSize: int)
    ensures FilterChanges(FilterChanges(changes, patterns, maxFileSize), patterns, maxFileSize)
         == FilterChanges(changes, patterns, maxFileSize)
  {
    KeepOnlyIdempotent(changes, patterns, EffectiveMaxFileSize(maxFileSize));
  }

  lemma {:induction false} KeepOnlyAppend(a: seq<Git.FileChange>, b: seq<Git.FileChange>, patterns: seq<string>, limit: int)
    ensures KeepOnly(a + b, patterns, limit) == KeepOnly(a, patterns, limit) + KeepOnly(b, patterns, limit)
    decreases |a|
  {
    if a == [] {
      assert a + b == b;
    } else {
      assert (a + b)[0] == a[0];
      assert (a + b)[1..] == a[1..] + b;
      KeepOnlyAppend(a[1..], b, patterns, limit);
    }
  }

  /** The filter decides each change on its own: filtering a concatenation
      filters each part ... */
  lemma FilterAppend(a: seq<Git.FileChange>, b: seq<Git.FileChange>, patterns: seq<string>, maxFileSize: int)
    ensures FilterChanges(a + b, patterns, maxFileSize)
         == FilterChanges(a, patterns, maxFileSize) + FilterChanges(b, patterns, maxFileSize)
  {
    KeepOnlyAppend(a, b, patterns, EffectiveMaxFileSize(maxFileSize));
  }

  /** ... and a single change is kept, once, exactly when it passes the
      ignore patterns and the size limit. */
  lemma FilterSingle(change: Git.FileChange, patterns: seq<string>, maxFileSize: int)
    ensures FilterChanges([change], patterns, maxFileSize)
         == if Keep(change, patterns, EffectiveMaxFileSize(maxFileSize)) then [change] else []
  {
    assert [change][1..] == [];
  }

  /** Content of exactly the limit is still reviewed; one byte more is not. */
  lemma SizeBoundary(change: Git.FileChange, maxFileSize: int)
    requires |change.content| == EffectiveMaxFileSize(maxFileSize)
    ensures FilterChanges([change], [], maxFileSize) == [change]
    ensures FilterChanges([change.(content := change.content + "x")], [], maxFileSize) == []
  {
    var bigger := change.(content := change.content + "x");
    assert change in FilterChanges([change], [], maxFileSize);
    assert bigger !in FilterChanges([bigger], [], maxFileSize);
  }

  // ---------------------------------------------------------------------
  // Ignore patterns

  // "dir/*" ignores everything inside a directory called `dir`, at any
  // depth, although "*" alone does not cross '/'.
  lemma DirPatternIgnores(dir: string, path: string)
    requires UnderDir(path, dir)
    ensures ShouldIgnoreFile(path, [dir + "/*"])
  {
    var p := dir + "/*";
    assert HasSuffix(p, "/*");
    assert DirOf(p) == dir;
    assert PatternIgnores([p][0], path);
  }

  // "**" + "/dir/*" ignores the same directories.
  lemma DoubleStarDirIgnores(dir: string, path: string)
    requires UnderDir(path, dir)
    ensures ShouldIgnoreFile(path, ["**/" + dir + "/*"])
  {
    var p := "**/" + dir + "/*";
    var suffix := dir + "/*";
    assert p[3..] == suffix;
    assert HasPrefix(p, "**/");
    assert OccursAt(p, "**", 0);
    ContainsWitness(p, "**", 0);
    assert HasSuffix(suffix, "/*");
    assert DirOf(suffix) == dir;
    assert PatternIgnores([p][0], path);
  }

  // "**" + "/pat", without a "/*" ending, ignores files whose base name
  // matches `pat`, in any directory.
  lemma DoubleStarFileIgnores(pat: string, path: string)
    requires !HasSuffix(pat, "/*")
    requires Glob.Match(pat, Paths.Base(path))
    ensures ShouldIgnoreFile(path, ["**/" + pat])
  {
    var p := "**/" + pat;
    assert p[3..] == pat;
    assert HasPrefix(p, "**/");
    assert OccursAt(p, "**", 0);
    ContainsWitness(p, "**", 0);
    assert PatternIgnores([p][0], path);
  }

  /** A malformed pattern with neither special form ignores nothing, so
      adding it changes no verdict. */
  lemma MalformedPatternInert(bad: string, patterns: seq<string>, path: string)
    requires Glob.Parse(bad).None?
    requires !HasSuffix(bad, "/*") && !HasPrefix(bad, "**/")
    ensures ShouldIgnoreFile(path, patterns + [bad]) == ShouldIgnoreFile(path, patterns)
  {
    assert !PatternIgnores(bad, path);
    var all := patterns + [bad];
    if ShouldIgnoreFile(path, all) {
      var k :| 0 <= k < |all| && PatternIgnores(all[k], path);
      assert k < |patterns| && all[k] == patterns[k];
    }
    if ShouldIgnoreFile(path, patterns) {
      var k :| 0 <= k < |patterns| && PatternIgnores(patterns[k], path);
      assert all[k] == patterns[k];
    }
  }

  /** Adding patterns never un-ignores a file. */
  lemma MorePatternsIgnoreMore(path: string, patterns: seq<string>, extra: seq<string>)
    requires ShouldIgnoreFile(path, patterns)
    ensures ShouldIgnoreFile(path, patterns + extra)
  {
    var k :| 0 <= k < |patterns| && PatternIgnores(patterns[k], path);
    assert (patterns + extra)[k] == patterns[k];
  }

  // ---------------------------------------------------------------------
  // Outcome handling

  /** What `runReview` does after the session: finish normally, exit with
      status 1, or run the whole review again. */
  datatype Decision = Finish | ExitFailure | RunAgain

  function HandleOutcome(outcome: Session.Outcome, strict: bool): (d: Decision)
    ensures d == ExitFailure <==>
      outcome.action == Session.Abort || (outcome.action == Session.Commit && strict && outcome.skipped > 0)
    ensures d == RunAgain <==> outcome.action == Session.ReReview
  {
    match outcome.action
    case Commit => if strict && outcome.skipped > 0 then ExitFailure else Finish
    case Abort => ExitFailure
    case ReReview => RunAgain
  }

  /** In strict mode a session only finishes normally when it commits with
      nothing skipped; an empty review always does. */
  lemma StrictFinishMeansNothingSkipped(sugs: seq<Protocol.Suggestion>, input: seq<Session.Read>,
                                         files: Patch.Files, envs: Session.FixEnvs)
    ensures var o := Session.Run(sugs, input, files, envs).outcome;
      HandleOutcome(o, true) == Finish ==> o.action == Session.Commit && o.skipped == 0
    ensures sugs == [] ==> HandleOutcome(Session.Run(sugs, input, files, envs).outcome, true) == Finish
  {
  }
}
