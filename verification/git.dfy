/** The staged-change listing of `internal/git`: parsing the output of
    `git diff --cached --name-status`, the binary-file rule and the
    empty-path guard of staging. Every git invocation is an oracle. */
module Git {
  import opened Results
  import opened Text
  import Paths

  /** One staged file as the review pipeline sees it. */
  datatype FileChange = FileChange(
    path: string,
    status: string,   // "A", "M", "R", ...
    oldPath: string,  // the previous path of a rename
    diff: string,
    content: string,
    isBinary: bool)

  /** What the per-file git commands print; `None` is a failed command.
      `numstat(p)`, `diff(p)` and `show(p)` stand for
      `git diff --cached --numstat -- p`, `git diff --cached -- p` and
      `git show :p`. */
  datatype GitOracle = GitOracle(
    numstat: string -> Option<string>,
    diff: string -> Option<string>,
    show: string -> Option<string>)

  /** The extensions treated as binary without asking git. */
  const BinaryExtensions: seq<string> := [
    ".png", ".jpg", ".jpeg", ".gif", ".ico", ".webp",
    ".pdf", ".zip", ".tar", ".gz", ".exe", ".dll",
    ".so", ".dylib", ".woff", ".woff2", ".ttf", ".eot"]

  predicate HasBinaryExtension(path: string) {
    Listed(Lower(Paths.Ext(path)), BinaryExtensions)
  }

  /** The numstat line git prints for a binary file starts with "-\t-\t". */
  predicate NumstatSaysBinary(output: Option<string>) {
    output.Some? && HasPrefix(output.value, "-\t-\t")
  }

  /** `isBinaryFile`: the extension list first; otherwise git's numstat,
      where a failed command means "not binary". */
  function IsBinaryFile(path: string, git: GitOracle): (r: bool)
    ensures HasBinaryExtension(path) ==> r
    ensures !HasBinaryExtension(path) ==> (r <==> NumstatSaysBinary(git.numstat(path)))
  {
    HasBinaryExtension(path) || NumstatSaysBinary(git.numstat(path))
  }

  /** A listed extension decides alone: git's answer is never consulted. */
  lemma ExtensionDecidesAlone(path: string, g1: GitOracle, g2: GitOracle)
    requires HasBinaryExtension(path)
    ensures IsBinaryFile(path, g1) && IsBinaryFile(path, g2)
  {
  }

  lemma LogoExtension()
    ensures Paths.Ext("assets/LOGO.PNG") == ".PNG"
  {
    var p := "assets/LOGO.PNG";
    assert p[11] == '.';
    assert Paths.ExtBefore(p, 12) == ".";
    assert Paths.ExtBefore(p, 13) == ".P";
    assert Paths.ExtBefore(p, 14) == ".PN";
  }

  lemma LowerPng()
    ensures Lower(".PNG") == ".png"
  {
    var r := Lower(".PNG");
    assert r[0] == '.' && r[1] == 'p' && r[2] == 'n' && r[3] == 'g';
  }

  /** The extension test ignores case: "LOGO.PNG" is binary whatever git says. */
  lemma UpperCaseExtensionIsBinary(git: GitOracle)
    ensures IsBinaryFile("assets/LOGO.PNG", git)
  {
    LogoExtension();
    LowerPng();
    assert BinaryExtensions[0] == ".png";
  }

  /** Lower-casing the path before taking the extension gives the
      lower-cased extension: case never turns a character into '/' or '.'. */
  lemma {:induction false} ExtBeforeLower(path: string, i: nat)
    requires i <= |path|
    ensures Paths.ExtBefore(Lower(path), i) == Lower(Paths.ExtBefore(path, i))
    decreases i
  {
    if i > 0 {
      if path[i - 1] == '/' || path[i - 1] == '.' {
        ExtBeforeLowerStops(path, i);
      } else {
        ExtBeforeLower(path, i - 1);
        ExtBeforeLowerStep(path, i);
      }
    }
  }

  /** At a '/' or a '.' both scans stop at the same place. */
  lemma ExtBeforeLowerStops(path: string, i: nat)
    requires 0 < i <= |path| && (path[i - 1] == '/' || path[i - 1] == '.')
    ensures Paths.ExtBefore(Lower(path), i) == Lower(Paths.ExtBefore(path, i))
  {
    var lp := Lower(path);
    var c := path[i - 1];
    assert lp[i - 1] == c;
    if c == '.' {
      assert Paths.ExtBefore(lp, i) == [c];
      assert Paths.ExtBefore(path, i) == [c];
      assert Lower([c]) == [c];
    }
  }

  /** Past any other character both scans take one more step. */
  lemma ExtBeforeLowerStep(path: string, i: nat)
    requires 0 < i <= |path| && path[i - 1] != '/' && path[i - 1] != '.'
    requires Paths.ExtBefore(Lower(path), i - 1) == Lower(Paths.ExtBefore(path, i - 1))
    ensures Paths.ExtBefore(Lower(path), i) == Lower(Paths.ExtBefore(path, i))
  {
    var lp := Lower(path);
    var c := path[i - 1];
    assert lp[i - 1] == LowerChar(c) && LowerChar(c) != '/' && LowerChar(c) != '.';
    var r := Paths.ExtBefore(path, i - 1);
    if r != "" {
      assert Paths.ExtBefore(lp, i) == Lower(r) + [LowerChar(c)];
      assert Paths.ExtBefore(path, i) == r + [c];
      assert Lower(r + [c]) == Lower(r) + [LowerChar(c)];
    }
  }

  /** Paths that differ only in letter case are both binary by extension or
      both not. */
  lemma CaseBlindExtension(p: string, q: string)
    requires Lower(p) == Lower(q)
    ensures HasBinaryExtension(p) == HasBinaryExtension(q)
  {
    ExtBeforeLower(p, |p|);
    ExtBeforeLower(q, |q|);
  }

  /** One line of `--name-status` output: blank lines and lines with fewer
      than two fields are skipped; a status starting with 'R' becomes "R"
      and, given three fields, names the old and the new path; deletions
      are dropped. Diff, content and the binary flag are filled in later. */
  function ParseLine(line: string): (r: Option<FileChange>)
    ensures |Fields(line)| < 2 ==> r.None?
    ensures r.Some? ==> r.value.status != "D" && r.value.path != ""
    ensures r.Some? ==> r.value.diff == "" && r.value.content == "" && !r.value.isBinary
  {
    if line == "" then None
    else
      var parts := Fields(line);
      if |parts| < 2 then None
      else
        var isRename := HasPrefix(parts[0], "R");
        var status := if isRename then "R" else parts[0];
        var path := if isRename && |parts| >= 3 then parts[2] else parts[|parts| - 1];
        var oldPath := if isRename && |parts| >= 3 then parts[1] else "";
        if status == "D" then None
        else Some(FileChange(path, status, oldPath, "", "", false))
  }

  /** Fill in the binary flag, and for text files the diff and staged
      content, each only when its command succeeds. */
  function Enrich(c: FileChange, git: GitOracle): (r: FileChange)
    ensures r.path == c.path && r.status == c.status && r.oldPath == c.oldPath
    ensures r.isBinary == IsBinaryFile(c.path, git)
    ensures r.isBinary ==> r.diff == c.diff && r.content == c.content
    ensures !r.isBinary ==> r.diff == git.diff(c.path).GetOr(c.diff)
    ensures !r.isBinary ==> r.content == git.show(c.path).GetOr(c.content)
  {
    if IsBinaryFile(c.path, git) then c.(isBinary := true)
    else c.(isBinary := false,
            diff := if git.diff(c.path).Some? then git.diff(c.path).value else c.diff,
            content := if git.show(c.path).Some? then git.show(c.path).value else c.content)
  }

  /** The change one listing line contributes: none, or its parsed and
      enriched entry. */
  function LineChanges(line: string, git: GitOracle): (r: seq<FileChange>)
    ensures |r| <= 1
    ensures r == [] <==> ParseLine(line).None?
    ensures r != [] ==> r[0] == Enrich(ParseLine(line).value, git)
  {
    match ParseLine(line)
    case None => []
    case Some(c) => [Enrich(c, git)]
  }

  /** The changes listed by some lines, in line order. */
  function ChangesOf(lines: seq<string>, git: GitOracle): (r: seq<FileChange>)
    ensures |r| <= |lines|
    ensures forall k :: 0 <= k < |r| ==> r[k].status != "D" && r[k].path != ""
  {
    if lines == [] then []
    else LineChanges(lines[0], git) + ChangesOf(lines[1..], git)
  }

  /** `GetStagedChanges` given the listing command's output (`None` when it
      failed): an error, no changes for empty output, or the changes of the
      trimmed output's lines. */
  function GetStagedChanges(listing: Option<string>, git: GitOracle): (r: Result<seq<FileChange>, string>)
    ensures listing.None? <==> r.Err?
    ensures listing == Some("") ==> r == Ok([])
  {
    if listing.None? then Err("failed to get staged files")
    else if listing.value == "" then Ok([])
    else Ok(ChangesOf(SplitLines(TrimSpace(listing.value)), git))
  }

  lemma {:induction false} ChangesOfAppend(a: seq<string>, b: seq<string>, git: GitOracle)
    ensures ChangesOf(a + b, git) == ChangesOf(a, git) + ChangesOf(b, git)
    decreases |a|
  {
    if a == [] {
      assert a + b == b;
    } else {
      assert (a + b)[1..] == a[1..] + b;
      assert (a + b)[0] == a[0];
      ChangesOfAppend(a[1..], b, git);
      Assoc(LineChanges(a[0], git), ChangesOf(a[1..], git), ChangesOf(b, git));
    }
  }

  /** `StageFile`: the empty path is refused before git runs; otherwise the
      outcome is that of `git add` (`stage(path)` is true on success). */
  function StageFile(path: string, stage: string -> bool): (r: Result<(), string>)
    ensures path == "" ==> r.Err?
    ensures path != "" ==> (r.Ok? <==> stage(path))
  {
    if path == "" then Err("path cannot be empty")
    else if stage(path) then Ok(())
    else Err("failed to stage file " + path)
  }

  // ---------------------------------------------------------------------
  // The listing format, and parsing it back

  /** A listing entry as git reports it. */
  datatype Entry = Entry(status: string, path: string, oldPath: string)

  /** An entry git can print and the parser keeps: single-token fields, a
      status that is not a deletion, and "R" only for renames. */
  predicate Listable(e: Entry) {
    && e.status != "" && NoSpace(e.status) && e.status != "D"
    && e.path != "" && NoSpace(e.path)
    && (HasPrefix(e.status, "R") <==> e.status == "R")
    && (e.status == "R" ==> e.oldPath != "" && NoSpace(e.oldPath))
  }

  /** The similarity column git prints before a rename's paths. */
  const RenameScore: string := "R100"

  lemma RenameScoreToken()
    ensures RenameScore != "" && NoSpace(RenameScore) && HasPrefix(RenameScore, "R")
    ensures NoChar(RenameScore, '\n')
  {
  }

  /** The `--name-status` line of an entry. */
  function EntryLine(e: Entry): string {
    if e.status == "R" then RenameScore + "\t" + e.oldPath + "\t" + e.path
    else e.status + "\t" + e.path
  }

  function ChangeOf(e: Entry): FileChange {
    FileChange(e.path, e.status, if e.status == "R" then e.oldPath else "", "", "", false)
  }

  /** A listable entry's line parses back to that entry. */
  lemma ParseEntryLine(e: Entry)
    requires Listable(e)
    ensures ParseLine(EntryLine(e)) == Some(ChangeOf(e))
  {
    RenameScoreToken();
    if e.status == "R" {
      FieldsOfThree(RenameScore, e.oldPath, e.path);
    } else {
      FieldsOfTwo(e.status, e.path);
    }
  }

  /** The line of an entry is trimmed, non-empty and unbroken. */
  lemma EntryLineShape(e: Entry)
    requires Listable(e)
    ensures EntryLine(e) != "" && Trimmed(EntryLine(e)) && NoChar(EntryLine(e), '\n')
  {
    RenameScoreToken();
    var l := EntryLine(e);
    if e.status == "R" {
      TabbedNoBreak(RenameScore, e.oldPath);
      TabbedNoBreak(RenameScore + "\t" + e.oldPath, e.path);
      assert l[0] == RenameScore[0];
    } else {
      TabbedNoBreak(e.status, e.path);
      assert l[0] == e.status[0];
    }
    assert l[|l| - 1] == e.path[|e.path| - 1];
  }

  function ListingLines(es: seq<Entry>): (r: seq<string>)
    ensures |r| == |es|
    ensures forall k :: 0 <= k < |es| ==> r[k] == EntryLine(es[k])
  {
    if es == [] then [] else [EntryLine(es[0])] + ListingLines(es[1..])
  }

  /** The listing git would print for some entries. */
  function Listing(es: seq<Entry>): string {
    JoinLines(ListingLines(es))
  }

  /** The changes expected for some entries: each one's own, enriched. */
  function Expected(es: seq<Entry>, git: GitOracle): (r: seq<FileChange>)
    ensures |r| == |es|
    ensures forall k :: 0 <= k < |es| ==> r[k] == Enrich(ChangeOf(es[k]), git)
  {
    if es == [] then [] else [Enrich(ChangeOf(es[0]), git)] + Expected(es[1..], git)
  }

  lemma {:induction false} ChangesOfListing(es: seq<Entry>, git: GitOracle)
    requires forall k :: 0 <= k < |es| ==> Listable(es[k])
    ensures ChangesOf(ListingLines(es), git) == Expected(es, git)
    decreases |es|
  {
    if es != [] {
      ParseEntryLine(es[0]);
      assert ListingLines(es)[1..] == ListingLines(es[1..]);
      ChangesOfListing(es[1..], git);
      assert LineChanges(ListingLines(es)[0], git) == [Enrich(ChangeOf(es[0]), git)];
    }
  }

  /** Parsing what git prints gives one change per listed entry, in order,
      each enriched through the oracle. */
  lemma ListingRoundTrip(es: seq<Entry>, git: GitOracle)
    requires |es| >= 1
    requires forall k :: 0 <= k < |es| ==> Listable(es[k])
    ensures GetStagedChanges(Some(Listing(es)), git) == Ok(Expected(es, git))
  {
    var lines := ListingLines(es);
    forall k | 0 <= k < |lines| ensures lines[k] != "" && Trimmed(lines[k]) && NoChar(lines[k], '\n') {
      EntryLineShape(es[k]);
    }
    JoinTrimmed(lines, "\n");
    TrimSpaceOfTrimmed(Listing(es));
    assert Listing(es) != "";
    SplitJoin(lines, '\n');
    assert SplitLines(TrimSpace(Listing(es))) == lines;
    ChangesOfListing(es, git);
  }

  /** Deleted files are never listed, whatever else is on the line. */
  lemma DeletionDropped(path: string, git: GitOracle)
    requires path != "" && NoSpace(path)
    ensures ChangesOf(["D" + "\t" + path], git) == []
  {
    FieldsOfTwo("D", path);
    assert LineChanges("D" + "\t" + path, git) == [];
  }

  /** A rename line with only two fields keeps its last field as the path
      and leaves the old path empty. */
  lemma ShortRenameKeepsLastField(status: string, path: string)
    requires status != "" && NoSpace(status) && HasPrefix(status, "R")
    requires path != "" && NoSpace(path)
    ensures ParseLine(status + "\t" + path) == Some(FileChange(path, "R", "", "", "", false))
  {
    FieldsOfTwo(status, path);
  }

  /** A line whose fields are a status `s`, some middle fields `mid` and a
      last field `p`: a deletion is dropped; another status other than a
      rename keeps `s` and takes the last field as the path; a rename takes
      its old path from the second field and its path from the third when
      there are three or more fields, and otherwise keeps the last field. */
  lemma ParseLineFields(line: string, s: string, mid: seq<string>, p: string)
    requires Fields(line) == [s] + mid + [p]
    ensures !HasPrefix(s, "R") && s == "D" ==> ParseLine(line).None?
    ensures !HasPrefix(s, "R") && s != "D" ==> ParseLine(line) == Some(FileChange(p, s, "", "", "", false))
    ensures HasPrefix(s, "R") && mid != [] ==> ParseLine(line) == Some(FileChange((mid + [p])[1], "R", mid[0], "", "", false))
    ensures HasPrefix(s, "R") && mid == [] ==> ParseLine(line) == Some(FileChange(p, "R", "", "", "", false))
  {
    var parts := Fields(line);
    assert line != "";
    assert parts[0] == s && parts[|parts| - 1] == p;
    if mid != [] {
      assert parts[1] == mid[0] && parts[2] == (mid + [p])[1];
    }
  }

  /** A file name with a space is cut at the space: for a line such as
      "M\tmy file.go" only the last word, "file.go", is taken as the path. */
  lemma SpacedNameLosesFirstWord(status: string, first: string, last: string)
    requires status != "" && NoSpace(status) && status != "D" && !HasPrefix(status, "R")
    requires first != "" && NoSpace(first) && last != "" && NoSpace(last)
    ensures ParseLine(status + "\t" + first + " " + last) == Some(FileChange(last, status, "", "", "", false))
  {
    var rest := first + [' '] + last;
    FieldsOfToken(last);
    FieldsPrepend(first, ' ', last);
    FieldsPrepend(status, '\t', rest);
    var line := status + ['\t'] + rest;
    assert Fields(line) == [status] + [first] + [last];
    assert line == status + "\t" + first + " " + last;
    ParseLineFields(line, status, [first], last);
  }
}
