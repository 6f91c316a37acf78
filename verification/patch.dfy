/** The patch core of `applyFix` in internal/ui/session.go: replace the
    first occurrence of a suggestion's original code with its fix, write the
    file back and stage it. The file system is an in-memory map and the
    write, stat and `git add` outcomes are oracle parameters. */
module Patch {
  import opened Results
  import opened Text
  import Protocol

  /** A code field the assistant left empty or marked "N/A". */
  predicate Missing(code: string) {
    code == "" || code == "N/A"
  }

  /** A file: its content and its permission bits. */
  datatype FileEntry = FileEntry(content: string, mode: nat)

  type Files = map<string, FileEntry>

  /** How `os.WriteFile` ends. It opens the file with truncation and then
      writes: a failed open leaves the file as it was, while a failure after
      the open leaves only the first `kept` bytes of the new content. */
  datatype WriteOutcome = Written | OpenFailed | WriteFailed(kept: nat)

  /** The effects `applyFix` depends on besides the file contents: the mode
      `os.Stat` reports, how `os.WriteFile` ends, and whether `git add`
      succeeds, each by path. */
  datatype FixEnv = FixEnv(
    stat: string -> Option<nat>,
    write: string -> WriteOutcome,
    stageOk: string -> bool)

  /** Whether a fix was applied, the files afterwards, and whether the
      "modified but could not stage" warning was shown. */
  datatype FixResult = FixResult(applied: bool, files: Files, stageWarning: bool)

  /** Replacing one occurrence by another string leaves the text unchanged
      exactly when the two strings are equal. */
  lemma SpliceUnchanged(a: string, target: string, fix: string, b: string)
    ensures a + fix + b == a + target + b <==> fix == target
  {
    if a + fix + b == a + target + b {
      assert |fix| == |target|;
      assert (a + fix + b)[|a|..|a| + |fix|] == fix;
      assert (a + target + b)[|a|..|a| + |target|] == target;
    }
  }

  /** The text edit: `None` when either code field is missing, when the
      original code does not occur, or when the replacement changes
      nothing; otherwise the content with the first occurrence replaced. */
  function PatchContent(content: string, original: string, fix: string): (r: Option<string>)
    ensures Missing(fix) || Missing(original) || !Contains(content, original) ==> r == None
    ensures !Missing(fix) && !Missing(original) && Contains(content, original) ==> (r == None <==> original == fix)
    ensures r.Some? ==> r.value != content
    ensures r.Some? ==>
      var i := IndexOf(content, original).value;
      && (forall j :: 0 <= j < i ==> !OccursAt(content, original, j))
      && r.value == content[..i] + fix + content[i + |original|..]
  {
    if Missing(fix) || Missing(original) then None
    else if !Contains(content, original) then None
    else
      var i := IndexOf(content, original).value;
      var patched := ReplaceFirst(content, original, fix);
      assert content == content[..i] + original + content[i + |original|..];
      SpliceUnchanged(content[..i], original, fix, content[i + |original|..]);
      if patched == content then None else Some(patched)
  }

  /** A successful patch leaves the fix in the file. */
  lemma PatchedContainsFix(content: string, original: string, fix: string)
    requires PatchContent(content, original, fix).Some?
    ensures Contains(PatchContent(content, original, fix).value, fix)
  {
    var i := IndexOf(content, original).value;
    var a := content[..i];
    var b := content[i + |original|..];
    OccursInMiddle(a, fix, b);
    ContainsWitness(a + fix + b, fix, |a|);
  }

  /** Text before the first occurrence and after it is kept unchanged. */
  lemma PatchKeepsSurroundings(content: string, original: string, fix: string)
    requires PatchContent(content, original, fix).Some?
    ensures var i := IndexOf(content, original).value;
      var r := PatchContent(content, original, fix).value;
      && r[..i] == content[..i]
      && r[i + |fix|..] == content[i + |original|..]
  {
  }

  /** The permission the write requests: what `os.Stat` reports, reduced to
      the permission bits, or 0644 when stat fails. */
  function ChosenPerm(stat: Option<nat>): (p: nat)
    ensures p < 512
    ensures stat.None? ==> p == 0x1A4
    ensures stat.Some? ==> p % 512 == stat.value % 512
  {
    match stat
    case None => 0x1A4
    case Some(mode) => mode % 512
  }

  /** `os.WriteFile`: an existing file keeps its mode; a new one gets `perm`. */
  function WriteFile(files: Files, path: string, content: string, perm: nat): (r: Files)
    ensures path in r && r[path].content == content
    ensures path in files ==> r[path].mode == files[path].mode
    ensures path !in files ==> r[path].mode == perm
    ensures forall p :: p in files && p != path ==> p in r && r[p] == files[p]
    ensures r.Keys == files.Keys + {path}
  {
    if path in files then files[path := FileEntry(content, files[path].mode)]
    else files[path := FileEntry(content, perm)]
  }

  /** The patched content of the suggestion's file, if it exists and the
      patch applies. */
  function Patched(sug: Protocol.Suggestion, files: Files): Option<string> {
    if sug.file in files then PatchContent(files[sug.file].content, sug.originalCode, sug.suggestFix) else None
  }

  /** The first `n` characters of `s`, or all of it. */
  function Take(s: string, n: nat): (r: string)
    ensures r <= s && |r| == if n < |s| then n else |s|
  {
    if n < |s| then s[..n] else s
  }

  /** `applyFix`. A failed `git add` after a successful write only shows a
      warning: the fix still counts as applied. A write that fails after
      the truncating open leaves part of the patched content behind. */
  function ApplyFix(sug: Protocol.Suggestion, files: Files, env: FixEnv): (r: FixResult)
    ensures r.applied <==> Patched(sug, files).Some? && env.write(sug.file) == Written
    ensures r.applied ==>
      r.files == files[sug.file := FileEntry(Patched(sug, files).value, files[sug.file].mode)]
    ensures r.stageWarning <==> r.applied && !env.stageOk(sug.file)
    ensures Patched(sug, files).Some? && env.write(sug.file).WriteFailed? ==>
      r.files == files[sug.file := FileEntry(Take(Patched(sug, files).value, env.write(sug.file).kept),
                                             files[sug.file].mode)]
    ensures Patched(sug, files).None? || env.write(sug.file) == OpenFailed ==> r.files == files
  {
    if Missing(sug.suggestFix) || Missing(sug.originalCode) then FixResult(false, files, false)
    else if sug.file !in files then FixResult(false, files, false)
    else
      match PatchContent(files[sug.file].content, sug.originalCode, sug.suggestFix)
      case None => FixResult(false, files, false)
      case Some(patched) =>
        var perm := ChosenPerm(env.stat(sug.file));
        match env.write(sug.file)
        case OpenFailed => FixResult(false, files, false)
        case WriteFailed(kept) => FixResult(false, WriteFile(files, sug.file, Take(patched, kept), perm), false)
        case Written => FixResult(true, WriteFile(files, sug.file, patched, perm), !env.stageOk(sug.file))
  }

  /** A write that fails right after the truncating open empties the file,
      although the fix is not counted. */
  lemma FailedWriteCanEmpty(sug: Protocol.Suggestion, files: Files, env: FixEnv)
    requires Patched(sug, files).Some? && env.write(sug.file) == WriteFailed(0)
    ensures !ApplyFix(sug, files, env).applied
    ensures sug.file in ApplyFix(sug, files, env).files
    ensures ApplyFix(sug, files, env).files[sug.file].content == ""
  {
  }

  /** Only the suggestion's file can change. */
  lemma FixTouchesOnlyItsFile(sug: Protocol.Suggestion, files: Files, env: FixEnv, p: string)
    requires p != sug.file
    ensures p in ApplyFix(sug, files, env).files <==> p in files
    ensures p in files ==> ApplyFix(sug, files, env).files[p] == files[p]
  {
  }

  /** A fix that is not applied leaves a file that is a prefix of the
      patched content, or the file as it was. */
  lemma UnappliedFixLeavesPrefix(sug: Protocol.Suggestion, files: Files, env: FixEnv)
    requires !ApplyFix(sug, files, env).applied
    ensures ApplyFix(sug, files, env).files == files ||
      (Patched(sug, files).Some? && sug.file in ApplyFix(sug, files, env).files &&
       ApplyFix(sug, files, env).files[sug.file].content <= Patched(sug, files).value)
  {
  }

  /** Whether a fix applies does not depend on staging. */
  lemma StagingDoesNotDecide(sug: Protocol.Suggestion, files: Files, env: FixEnv, stageOk: string -> bool)
    ensures ApplyFix(sug, files, env).applied == ApplyFix(sug, files, env.(stageOk := stageOk)).applied
    ensures ApplyFix(sug, files, env).files == ApplyFix(sug, files, env.(stageOk := stageOk)).files
  {
  }
}
