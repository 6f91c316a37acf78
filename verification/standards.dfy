/** The coding-standards detector of `internal/standards`: which standards
    a repository declares, the WordPress decision rule, the context text
    handed to the reviewer, and bounded reading of a config file. The file
    system is an oracle. */
module Standards {
  import opened Results
  import opened Text
  import Paths

  datatype CodingStandard = CodingStandard(
    name: string,
    kind: string,        // "linter", "framework", "custom", ...
    configFile: string,  // "" for framework standards
    description: string)

  /** A file (or directory) whose presence indicates a standard. */
  datatype Indicator = Indicator(file: string, standard: CodingStandard)

  function Known(file: string, name: string, kind: string, description: string): Indicator {
    Indicator(file, CodingStandard(name, kind, "", description))
  }

  const EslintText: string := "JavaScript/TypeScript linting rules"
  const EslintFlatText: string := "JavaScript/TypeScript linting rules (flat config)"
  const PrettierText: string := "Code formatting rules"
  const BiomeText: string := "JavaScript/TypeScript linting and formatting"
  const PhpcsText: string := "PHP coding standards"
  const PhpCsFixerText: string := "PHP code style fixer"
  const PhpAnalysisText: string := "PHP static analysis"
  const PylintText: string := "Python code analysis"
  const MypyText: string := "Python static type checker"
  const RuffText: string := "Fast Python linter"
  const GolangciText: string := "Go linters aggregator"
  const RubocopText: string := "Ruby static code analyzer"
  const RustfmtText: string := "Rust code formatting"
  const StylelintText: string := "CSS/SCSS linting rules"

  /** Files that all declare the same standard. */
  function Group(files: seq<string>, name: string, kind: string, description: string): (r: seq<Indicator>)
    ensures |r| == |files|
    ensures forall k :: 0 <= k < |r| ==> r[k] == Known(files[k], name, kind, description)
  {
    seq(|files|, k requires 0 <= k < |files| => Known(files[k], name, kind, description))
  }

  const EslintGroup: seq<Indicator> :=
    Group([".eslintrc", ".eslintrc.js", ".eslintrc.json", ".eslintrc.yaml", ".eslintrc.yml"], "ESLint", "linter", EslintText)
  const EslintFlatGroup: seq<Indicator> :=
    Group(["eslint.config.js", "eslint.config.mjs"], "ESLint", "linter", EslintFlatText)
  const PrettierGroup: seq<Indicator> :=
    Group([".prettierrc", ".prettierrc.json", ".prettierrc.js", "prettier.config.js"], "Prettier", "formatter", PrettierText)
  const BiomeGroup: seq<Indicator> :=
    Group(["biome.json", "biome.jsonc"], "Biome", "linter", BiomeText)
  const PhpGroup: seq<Indicator> :=
    Group(["phpcs.xml", "phpcs.xml.dist"], "PHP_CodeSniffer", "linter", PhpcsText)
    + Group([".php-cs-fixer.php", ".php-cs-fixer.dist.php"], "PHP-CS-Fixer", "formatter", PhpCsFixerText)
    + Group(["phpstan.neon", "phpstan.neon.dist"], "PHPStan", "analyzer", PhpAnalysisText)
    + Group(["psalm.xml"], "Psalm", "analyzer", PhpAnalysisText)
  const PythonGroup: seq<Indicator> :=
    Group(["pyproject.toml"], "Python Project", "config", "Python project configuration (may include ruff, black, mypy settings)")
    + Group([".flake8"], "Flake8", "linter", "Python style guide enforcement")
    + Group([".pylintrc", "pylintrc"], "Pylint", "linter", PylintText)
    + Group([".mypy.ini", "mypy.ini"], "Mypy", "type-checker", MypyText)
    + Group(["ruff.toml", ".ruff.toml"], "Ruff", "linter", RuffText)
  const OtherGroup: seq<Indicator> :=
    Group([".golangci.yml", ".golangci.yaml", "golangci.yml"], "golangci-lint", "linter", GolangciText)
    + Group([".rubocop.yml", ".rubocop.yaml"], "RuboCop", "linter", RubocopText)
    + Group(["rustfmt.toml", ".rustfmt.toml"], "rustfmt", "formatter", RustfmtText)
    + Group(["clippy.toml"], "Clippy", "linter", "Rust linting")
    + Group([".editorconfig"], "EditorConfig", "editor", "Cross-editor coding style settings")
    + Group([".stylelintrc", ".stylelintrc.json", "stylelint.config.js"], "Stylelint", "linter", StylelintText)

  /** Configuration files and the standard each one declares. */
  const KnownStandards: seq<Indicator> :=
    EslintGroup + EslintFlatGroup + PrettierGroup + BiomeGroup + PhpGroup + PythonGroup + OtherGroup

  const WordPress: string := "WordPress"
  const WpcsText: string := "WordPress Coding Standards (WPCS)"
  const PythonText: string := "Python project - PEP8 standards"

  /** Files or directories that indicate a framework or package manager. */
  const FrameworkIndicators: seq<Indicator> := [
    Known("wp-config.php", WordPress, "framework", WpcsText),
    Known("wp-content", WordPress, "framework", WpcsText),
    Known("artisan", "Laravel", "framework", "Laravel/PSR coding standards"),
    Known("composer.json", "Composer/PHP", "package-manager", "PHP project - check for framework-specific standards"),
    Known("package.json", "Node.js", "package-manager", "Node.js project - check for eslint/prettier configs"),
    Known("Gemfile", "Ruby/Rails", "package-manager", "Ruby project - check for rubocop config"),
    Known("Cargo.toml", "Rust", "package-manager", "Rust project - rustfmt and clippy standards"),
    Known("go.mod", "Go", "package-manager", "Go project - gofmt and effective go standards"),
    Known("requirements.txt", "Python", "package-manager", PythonText),
    Known("setup.py", "Python", "package-manager", PythonText)]

  /** The file system as the detector sees it: whether a path exists, the
      contents of a file (`None` when it cannot be opened), and the matches
      of a glob pattern (`None` for a malformed pattern). */
  datatype Fs = Fs(
    present: string -> bool,
    read: string -> Option<string>,
    glob: string -> Option<seq<string>>)

  // ---------------------------------------------------------------------
  // Accumulating standards without repeating a name

  function NamesOf(stds: seq<CodingStandard>): (r: seq<string>)
    ensures |r| == |stds|
    ensures forall k :: 0 <= k < |stds| ==> r[k] == stds[k].name
  {
    seq(|stds|, k requires 0 <= k < |stds| => stds[k].name)
  }

  /** Append each candidate whose name is not yet present, in order: the
      role of the `seen` set. */
  function Dedup(acc: seq<CodingStandard>, cands: seq<CodingStandard>): (r: seq<CodingStandard>)
    ensures |acc| <= |r| && r[..|acc|] == acc
    decreases |cands|
  {
    if cands == [] then acc
    else if cands[0].name in NamesOf(acc) then Dedup(acc, cands[1..])
    else Dedup(acc + [cands[0]], cands[1..])
  }

  /** No entry from offset `from` on repeats the name of an earlier one. */
  predicate FreshFrom(stds: seq<CodingStandard>, from: int) {
    forall i, j :: 0 <= i < j < |stds| && from <= j ==> stds[i].name != stds[j].name
  }

  /** Every appended entry is a candidate, and no appended entry repeats a
      name that came before it. */
  lemma {:induction false} DedupFresh(acc: seq<CodingStandard>, cands: seq<CodingStandard>, from: int)
    requires from <= |acc| && FreshFrom(acc, from)
    ensures FreshFrom(Dedup(acc, cands), from)
    ensures forall k :: |acc| <= k < |Dedup(acc, cands)| ==> Dedup(acc, cands)[k] in cands
    decreases |cands|
  {
    if cands != [] {
      var c := cands[0];
      if c.name in NamesOf(acc) {
        DedupFresh(acc, cands[1..], from);
      } else {
        var acc' := acc + [c];
        assert FreshFrom(acc', from) by {
          forall i, j | 0 <= i < j < |acc'| && from <= j ensures acc'[i].name != acc'[j].name {
            if j == |acc| {
              assert acc'[i].name == NamesOf(acc)[i];
            }
          }
        }
        DedupFresh(acc', cands[1..], from);
      }
    }
  }

  /** Every candidate's name ends up in the result, whether it was appended
      or an entry of that name was already there. */
  lemma {:induction false} DedupComplete(acc: seq<CodingStandard>, cands: seq<CodingStandard>)
    ensures forall k :: 0 <= k < |cands| ==> cands[k].name in NamesOf(Dedup(acc, cands))
    ensures forall k :: 0 <= k < |acc| ==> acc[k].name in NamesOf(Dedup(acc, cands))
    decreases |cands|
  {
    if cands != [] {
      var c := cands[0];
      var acc' := if c.name in NamesOf(acc) then acc else acc + [c];
      DedupComplete(acc', cands[1..]);
      var r := Dedup(acc, cands);
      assert r == Dedup(acc', cands[1..]);
      assert c.name in NamesOf(acc') by {
        if c.name !in NamesOf(acc) {
          assert NamesOf(acc')[|acc|] == c.name;
        }
      }
      forall k | 0 <= k < |acc'| ensures acc'[k].name in NamesOf(r) {
      }
      forall k | 0 <= k < |cands| ensures cands[k].name in NamesOf(r) {
        if k > 0 {
          assert cands[k] == cands[1..][k - 1];
        } else {
          var i :| 0 <= i < |acc'| && NamesOf(acc')[i] == c.name;
          assert acc'[i].name in NamesOf(r);
        }
      }
      forall k | 0 <= k < |acc| ensures acc[k].name in NamesOf(r) {
        assert acc'[k] == acc[k];
      }
    }
  }

  // ---------------------------------------------------------------------
  // Detection

  function CustomStandard(file: string): CodingStandard {
    CodingStandard(Paths.Base(file), "custom", file, "User-specified coding standard configuration")
  }

  /** The user's standard files that exist, in the configured order. */
  function CustomStandards(root: string, customs: seq<string>, fs: Fs): (r: seq<CodingStandard>)
    ensures |r| <= |customs|
    ensures forall k :: 0 <= k < |r| ==> r[k].kind == "custom"
  {
    if customs == [] then []
    else
      var rest := CustomStandards(root, customs[1..], fs);
      if fs.present(Paths.Join2(root, customs[0])) then [CustomStandard(customs[0])] + rest else rest
  }

  /** The table entries in map-iteration order; Go leaves that order
      unspecified, so it is a parameter: a sequence of table offsets. */
  function Ordered(table: seq<Indicator>, order: seq<nat>): (r: seq<Indicator>)
    requires forall k :: 0 <= k < |order| ==> order[k] < |table|
    ensures |r| == |order|
    ensures forall k :: 0 <= k < |order| ==> r[k] == table[order[k]]
  {
    seq(|order|, k requires 0 <= k < |order| => table[order[k]])
  }

  /** `std` is the standard of one of the entries whose file exists, with
      that file recorded. */
  predicate FoundIn(root: string, entries: seq<Indicator>, fs: Fs, std: CodingStandard) {
    exists e :: e in entries && std == e.standard.(configFile := e.file) && fs.present(Paths.Join2(root, e.file))
  }

  /** The config-file standards whose file exists, with that file recorded. */
  function ConfigCandidates(root: string, entries: seq<Indicator>, fs: Fs): (r: seq<CodingStandard>)
    ensures forall k :: 0 <= k < |r| ==> FoundIn(root, entries, fs, r[k])
  {
    if entries == [] then []
    else
      var e := entries[0];
      var rest := ConfigCandidates(root, entries[1..], fs);
      if fs.present(Paths.Join2(root, e.file)) then [e.standard.(configFile := e.file)] + rest else rest
  }

  /** The framework standards whose indicator exists; WordPress also needs
      the WordPress decision to hold. */
  function FrameworkCandidates(root: string, entries: seq<Indicator>, fs: Fs, isWordPress: bool): (r: seq<CodingStandard>)
    ensures forall k :: 0 <= k < |r| ==> r[k] in StandardsOf(entries)
    ensures forall k :: 0 <= k < |r| ==> r[k].name == WordPress ==> isWordPress
  {
    if entries == [] then []
    else
      var e := entries[0];
      var rest := FrameworkCandidates(root, entries[1..], fs, isWordPress);
      if fs.present(Paths.Join2(root, e.file)) && (e.standard.name != WordPress || isWordPress)
      then [e.standard] + rest else rest
  }

  function StandardsOf(entries: seq<Indicator>): (r: seq<CodingStandard>)
    ensures |r| == |entries|
    ensures forall k :: 0 <= k < |entries| ==> r[k] == entries[k].standard
  {
    seq(|entries|, k requires 0 <= k < |entries| => entries[k].standard)
  }

  /** `DetectStandards`: custom files first, then known config files, then
      framework indicators, each skipped when its name is already present. */
  function DetectStandards(root: string, customs: seq<string>, knownOrder: seq<nat>, frameworkOrder: seq<nat>, fs: Fs): (r: seq<CodingStandard>)
    requires forall k :: 0 <= k < |knownOrder| ==> knownOrder[k] < |KnownStandards|
    requires forall k :: 0 <= k < |frameworkOrder| ==> frameworkOrder[k] < |FrameworkIndicators|
    ensures CustomStandards(root, customs, fs) <= r
  {
    var customs := CustomStandards(root, customs, fs);
    var known := ConfigCandidates(root, Ordered(KnownStandards, knownOrder), fs);
    var frameworks := FrameworkCandidates(root, Ordered(FrameworkIndicators, frameworkOrder), fs, IsWordPressProject(root, fs));
    Dedup(Dedup(customs, known), frameworks)
  }

  /** Past the custom entries, no standard repeats an earlier name. */
  lemma DetectedNamesFresh(root: string, customs: seq<string>, knownOrder: seq<nat>, frameworkOrder: seq<nat>, fs: Fs)
    requires forall k :: 0 <= k < |knownOrder| ==> knownOrder[k] < |KnownStandards|
    requires forall k :: 0 <= k < |frameworkOrder| ==> frameworkOrder[k] < |FrameworkIndicators|
    ensures FreshFrom(DetectStandards(root, customs, knownOrder, frameworkOrder, fs), |CustomStandards(root, customs, fs)|)
  {
    var cs := CustomStandards(root, customs, fs);
    var known := ConfigCandidates(root, Ordered(KnownStandards, knownOrder), fs);
    var frameworks := FrameworkCandidates(root, Ordered(FrameworkIndicators, frameworkOrder), fs, IsWordPressProject(root, fs));
    DedupFresh(cs, known, |cs|);
    DedupFresh(Dedup(cs, known), frameworks, |cs|);
  }

  /** Every known config file that exists, at any place of the iteration
      order, is represented by its standard's name. */
  lemma DetectedNamesComplete(root: string, customs: seq<string>, knownOrder: seq<nat>, frameworkOrder: seq<nat>, fs: Fs, k: nat)
    requires forall k :: 0 <= k < |knownOrder| ==> knownOrder[k] < |KnownStandards|
    requires forall k :: 0 <= k < |frameworkOrder| ==> frameworkOrder[k] < |FrameworkIndicators|
    requires k < |knownOrder| && fs.present(Paths.Join2(root, KnownStandards[knownOrder[k]].file))
    ensures KnownStandards[knownOrder[k]].standard.name in NamesOf(DetectStandards(root, customs, knownOrder, frameworkOrder, fs))
  {
    var cs := CustomStandards(root, customs, fs);
    var entries := Ordered(KnownStandards, knownOrder);
    var known := ConfigCandidates(root, entries, fs);
    var frameworks := FrameworkCandidates(root, Ordered(FrameworkIndicators, frameworkOrder), fs, IsWordPressProject(root, fs));
    ConfigCandidateIn(root, entries, fs, k);
    var j :| 0 <= j < |known| && known[j] == entries[k].standard.(configFile := entries[k].file);
    DedupComplete(cs, known);
    var mid := Dedup(cs, known);
    assert known[j].name in NamesOf(mid);
    DedupComplete(mid, frameworks);
    var i :| 0 <= i < |mid| && NamesOf(mid)[i] == known[j].name;
    assert mid[i].name in NamesOf(Dedup(mid, frameworks));
  }

  /** An existing entry contributes its standard, with its file recorded. */
  lemma {:induction false} ConfigCandidateIn(root: string, entries: seq<Indicator>, fs: Fs, k: nat)
    requires k < |entries| && fs.present(Paths.Join2(root, entries[k].file))
    ensures entries[k].standard.(configFile := entries[k].file) in ConfigCandidates(root, entries, fs)
    decreases k
  {
    if k > 0 {
      assert entries[1..][k - 1] == entries[k];
      ConfigCandidateIn(root, entries[1..], fs, k - 1);
    }
  }

  /** An existing framework indicator contributes its standard, unless it
      is WordPress and the WordPress decision does not hold. */
  lemma {:induction false} FrameworkCandidateIn(root: string, entries: seq<Indicator>, fs: Fs, isWordPress: bool, k: nat)
    requires k < |entries| && fs.present(Paths.Join2(root, entries[k].file))
    requires entries[k].standard.name != WordPress || isWordPress
    ensures entries[k].standard in FrameworkCandidates(root, entries, fs, isWordPress)
    decreases k
  {
    if k > 0 {
      assert entries[1..][k - 1] == entries[k];
      FrameworkCandidateIn(root, entries[1..], fs, isWordPress, k - 1);
    }
  }

  /** Every framework whose indicator exists, at any place of the iteration
      order, is represented by its standard's name; for WordPress the
      decision rule must hold as well. */
  lemma DetectedFrameworksComplete(root: string, customs: seq<string>, knownOrder: seq<nat>, frameworkOrder: seq<nat>, fs: Fs, k: nat)
    requires forall k :: 0 <= k < |knownOrder| ==> knownOrder[k] < |KnownStandards|
    requires forall k :: 0 <= k < |frameworkOrder| ==> frameworkOrder[k] < |FrameworkIndicators|
    requires k < |frameworkOrder| && fs.present(Paths.Join2(root, FrameworkIndicators[frameworkOrder[k]].file))
    requires FrameworkIndicators[frameworkOrder[k]].standard.name != WordPress || IsWordPressProject(root, fs)
    ensures FrameworkIndicators[frameworkOrder[k]].standard.name in NamesOf(DetectStandards(root, customs, knownOrder, frameworkOrder, fs))
  {
    var cs := CustomStandards(root, customs, fs);
    var known := ConfigCandidates(root, Ordered(KnownStandards, knownOrder), fs);
    var entries := Ordered(FrameworkIndicators, frameworkOrder);
    var isWp := IsWordPressProject(root, fs);
    var frameworks := FrameworkCandidates(root, entries, fs, isWp);
    FrameworkCandidateIn(root, entries, fs, isWp, k);
    var j :| 0 <= j < |frameworks| && frameworks[j] == entries[k].standard;
    DedupComplete(Dedup(cs, known), frameworks);
  }

  /** A map-iteration order over a table of `n` entries: every offset
      exactly once. */
  predicate FullOrder(order: seq<nat>, n: nat) {
    && |order| == n
    && (forall k :: 0 <= k < |order| ==> order[k] < n)
    && (forall i :: 0 <= i < n ==> i in order)
  }

  /** With Go's map iteration, which visits every entry, every known config
      file that exists is detected under its standard's name. */
  lemma KnownFilesDetected(root: string, customs: seq<string>, knownOrder: seq<nat>, frameworkOrder: seq<nat>, fs: Fs, i: nat)
    requires FullOrder(knownOrder, |KnownStandards|) && FullOrder(frameworkOrder, |FrameworkIndicators|)
    requires i < |KnownStandards| && fs.present(Paths.Join2(root, KnownStandards[i].file))
    ensures KnownStandards[i].standard.name in NamesOf(DetectStandards(root, customs, knownOrder, frameworkOrder, fs))
  {
    assert i in knownOrder;
    var k :| 0 <= k < |knownOrder| && knownOrder[k] == i;
    DetectedNamesComplete(root, customs, knownOrder, frameworkOrder, fs, k);
  }

  /** With Go's map iteration, every framework whose indicator exists is
      detected, WordPress when the decision rule holds. */
  lemma FrameworksDetected(root: string, customs: seq<string>, knownOrder: seq<nat>, frameworkOrder: seq<nat>, fs: Fs, i: nat)
    requires FullOrder(knownOrder, |KnownStandards|) && FullOrder(frameworkOrder, |FrameworkIndicators|)
    requires i < |FrameworkIndicators| && fs.present(Paths.Join2(root, FrameworkIndicators[i].file))
    requires FrameworkIndicators[i].standard.name != WordPress || IsWordPressProject(root, fs)
    ensures FrameworkIndicators[i].standard.name in NamesOf(DetectStandards(root, customs, knownOrder, frameworkOrder, fs))
  {
    assert i in frameworkOrder;
    var k :| 0 <= k < |frameworkOrder| && frameworkOrder[k] == i;
    DetectedFrameworksComplete(root, customs, knownOrder, frameworkOrder, fs, k);
  }

  /** Past the custom entries, a "WordPress" standard appears only when the
      WordPress decision holds: no config file declares that name. */
  lemma WordPressOnlyWhenDetected(root: string, customs: seq<string>, knownOrder: seq<nat>, frameworkOrder: seq<nat>, fs: Fs, k: nat)
    requires forall k :: 0 <= k < |knownOrder| ==> knownOrder[k] < |KnownStandards|
    requires forall k :: 0 <= k < |frameworkOrder| ==> frameworkOrder[k] < |FrameworkIndicators|
    requires |CustomStandards(root, customs, fs)| <= k < |DetectStandards(root, customs, knownOrder, frameworkOrder, fs)|
    requires DetectStandards(root, customs, knownOrder, frameworkOrder, fs)[k].name == WordPress
    ensures IsWordPressProject(root, fs)
  {
    var cs := CustomStandards(root, customs, fs);
    var entries := Ordered(KnownStandards, knownOrder);
    var known := ConfigCandidates(root, entries, fs);
    var isWp := IsWordPressProject(root, fs);
    var frameworks := FrameworkCandidates(root, Ordered(FrameworkIndicators, frameworkOrder), fs, isWp);
    var mid := Dedup(cs, known);
    var r := Dedup(mid, frameworks);
    DedupFresh(cs, known, |cs|);
    DedupFresh(mid, frameworks, |cs|);
    if k < |mid| {
      assert mid[k] == r[k];
      assert mid[k] in known;
      assert FoundIn(root, entries, fs, mid[k]);
      var e :| e in entries && mid[k] == e.standard.(configFile := e.file) && fs.present(Paths.Join2(root, e.file));
      KnownTableHasNoWordPress();
      assert false;
    } else {
      assert r[k] in frameworks;
    }
  }

  lemma KnownTableHasNoWordPress()
    ensures forall e :: e in KnownStandards ==> e.standard.name != WordPress
  {
    forall e | e in KnownStandards ensures e.standard.name != WordPress {
      InGroups(e);
    }
  }

  /** Every known entry's standard is named after one of the groups. */
  lemma InGroups(e: Indicator)
    requires e in KnownStandards
    ensures e.standard.name in ["ESLint", "Prettier", "Biome", "PHP_CodeSniffer", "PHP-CS-Fixer", "PHPStan", "Psalm",
                                "Python Project", "Flake8", "Pylint", "Mypy", "Ruff", "golangci-lint", "RuboCop",
                                "rustfmt", "Clippy", "EditorConfig", "Stylelint"]
  {
  }

  // ---------------------------------------------------------------------
  // The WordPress decision rule

  const WordPressIndicators: seq<string> := ["wp-config.php", "wp-content", "wp-includes", "wp-admin", "style.css"]

  /** How many header bytes are read from a theme or plugin file. */
  const HeaderBytes: nat := 8192

  /** How many PHP files are searched for a plugin header. */
  const MaxFilesToCheck: nat := 50

  function CountPresent(root: string, names: seq<string>, fs: Fs): (n: nat)
    ensures n <= |names|
  {
    if names == [] then 0
    else (if fs.present(Paths.Join2(root, names[0])) then 1 else 0) + CountPresent(root, names[1..], fs)
  }

  /** The first `HeaderBytes` bytes of a file. */
  function Header(content: string): (r: string)
    ensures HasPrefix(content, r) && |r| <= HeaderBytes
    ensures |content| <= HeaderBytes ==> r == content
  {
    if |content| <= HeaderBytes then content else content[..HeaderBytes]
  }

  predicate HeaderContains(fs: Fs, path: string, marker: string) {
    fs.read(path).Some? && Contains(Header(fs.read(path).value), marker)
  }

  /** Whether one of the files carries a plugin header. */
  predicate AnyPluginHeader(files: seq<string>, fs: Fs) {
    exists k :: 0 <= k < |files| && HeaderContains(fs, files[k], "Plugin Name:")
  }

  /** The first `MaxFilesToCheck` files of a list. */
  function FirstFiles(files: seq<string>): (r: seq<string>)
    ensures |r| <= MaxFilesToCheck && r <= files
    ensures |files| <= MaxFilesToCheck ==> r == files
  {
    if |files| <= MaxFilesToCheck then files else files[..MaxFilesToCheck]
  }

  /** A theme (style.css with a theme header) or a plugin (a top-level PHP
      file with a plugin header among the first ones listed). */
  predicate ThemeOrPlugin(root: string, fs: Fs) {
    || HeaderContains(fs, Paths.Join2(root, "style.css"), "Theme Name:")
    || (fs.glob(Paths.Join2(root, "*.php")).Some? && AnyPluginHeader(FirstFiles(fs.glob(Paths.Join2(root, "*.php")).value), fs))
  }

  /** `isWordPressProject`: two or more of the WordPress indicators exist,
      or none does and the project is a theme or plugin. */
  function IsWordPressProject(root: string, fs: Fs): (r: bool)
    ensures CountPresent(root, WordPressIndicators, fs) >= 2 ==> r
    ensures CountPresent(root, WordPressIndicators, fs) == 1 ==> !r
    ensures CountPresent(root, WordPressIndicators, fs) == 0 ==> (r <==> ThemeOrPlugin(root, fs))
  {
    var count := CountPresent(root, WordPressIndicators, fs);
    if count == 0 && ThemeOrPlugin(root, fs) then true
    else count >= 2
  }

  /** Only the first `HeaderBytes` bytes of a file are searched. */
  lemma HeaderIgnoresTail(content: string, extra: string)
    requires |content| >= HeaderBytes
    ensures Header(content + extra) == Header(content)
  {
    assert (content + extra)[..HeaderBytes] == content[..HeaderBytes];
  }

  /** Files listed after the first `MaxFilesToCheck` are never searched. */
  lemma PluginSearchBounded(files: seq<string>, more: seq<string>, fs: Fs)
    requires |files| >= MaxFilesToCheck
    ensures AnyPluginHeader(FirstFiles(files + more), fs) == AnyPluginHeader(FirstFiles(files), fs)
  {
    assert FirstFiles(files + more) == FirstFiles(files);
  }

  // ---------------------------------------------------------------------
  // The context text

  const ContextHeading: string := "Coding Standards Detected in Project:"
  const FooterStart: string := "Please ensure your code review "
  const FooterMiddle: string := "suggestions align with "
  const FooterEnd: string := "these coding standards."
  const ContextFooter: string := FooterStart + FooterMiddle + FooterEnd

  /** The heading and footer are single lines. */
  lemma ContextTextsSingleLine()
    ensures NoChar(ContextHeading, '\n') && NoChar(ContextFooter, '\n')
  {
    assert NoChar(FooterStart, '\n');
    assert NoChar(FooterMiddle, '\n');
    assert NoChar(FooterEnd, '\n');
    NoCharAppend(FooterStart, FooterMiddle, '\n');
    NoCharAppend(FooterStart + FooterMiddle, FooterEnd, '\n');
  }

  /** One standard's line, without its line break. */
  function StandardLine(std: CodingStandard): string {
    "- " + std.name + (if std.configFile != "" then " (" + std.configFile + ")" else "") + ": " + std.description
  }

  function StandardEntries(stds: seq<CodingStandard>): string {
    if stds == [] then "" else StandardLine(stds[0]) + "\n" + StandardEntries(stds[1..])
  }

  function StandardLines(stds: seq<CodingStandard>): (r: seq<string>)
    ensures |r| == |stds|
    ensures forall k :: 0 <= k < |stds| ==> r[k] == StandardLine(stds[k])
  {
    seq(|stds|, k requires 0 <= k < |stds| => StandardLine(stds[k]))
  }

  /** `GetStandardsContext` over the detected standards: nothing when there
      are none, otherwise a heading, one line per standard and a footer. */
  function StandardsContext(stds: seq<CodingStandard>): (r: string)
    ensures stds == [] <==> r == ""
  {
    if stds == [] then ""
    else Framed(ContextHeading, StandardEntries(stds), ContextFooter)
  }

  /** A body between a heading and a footer, as the context lays them out. */
  function Framed(heading: string, body: string, footer: string): string {
    "\n\n" + heading + "\n" + body + "\n" + footer + "\n"
  }

  /** The standards context of a detector rooted at `root`. */
  function GetStandardsContext(root: string, customs: seq<string>, knownOrder: seq<nat>, frameworkOrder: seq<nat>, fs: Fs): (r: string)
    requires forall k :: 0 <= k < |knownOrder| ==> knownOrder[k] < |KnownStandards|
    requires forall k :: 0 <= k < |frameworkOrder| ==> frameworkOrder[k] < |FrameworkIndicators|
    ensures r == "" <==> DetectStandards(root, customs, knownOrder, frameworkOrder, fs) == []
  {
    StandardsContext(DetectStandards(root, customs, knownOrder, frameworkOrder, fs))
  }

  predicate SingleLine(std: CodingStandard) {
    NoChar(std.name, '\n') && NoChar(std.configFile, '\n') && NoChar(std.description, '\n')
  }

  lemma {:induction false} EntriesAsLines(stds: seq<CodingStandard>)
    requires stds != []
    ensures StandardEntries(stds) == Join(StandardLines(stds), "\n") + "\n"
    decreases |stds|
  {
    if |stds| > 1 {
      EntriesAsLines(stds[1..]);
      assert StandardLines(stds) == [StandardLine(stds[0])] + StandardLines(stds[1..]);
      assert StandardLines(stds)[1..] == StandardLines(stds[1..]);
    }
  }

  predicate AllSingle(ls: seq<string>) {
    forall k :: 0 <= k < |ls| ==> NoChar(ls[k], '\n')
  }

  lemma AllSingleAppend(a: seq<string>, b: seq<string>)
    requires AllSingle(a) && AllSingle(b)
    ensures AllSingle(a + b)
  {
    forall k | 0 <= k < |a + b| ensures NoChar((a + b)[k], '\n') {
      if k < |a| { assert (a + b)[k] == a[k]; } else { assert (a + b)[k] == b[k - |a|]; }
    }
  }

  lemma FramedAsJoin(heading: string, footer: string, ls: seq<string>)
    requires ls != []
    ensures Framed(heading, Join(ls, "\n") + "\n", footer) == Join(["", "", heading] + ls + ["", footer, ""], "\n")
  {
    var top := ["", "", heading];
    var bottom := ["", footer, ""];
    var body := Join(ls, "\n");
    JoinAppend(top + ls, bottom, "\n");
    JoinAppend(top, ls, "\n");
    assert Join(["", heading], "\n") == "\n" + heading;
    assert Join(top, "\n") == "\n\n" + heading;
    assert Join([footer, ""], "\n") == footer + "\n";
    assert Join(bottom, "\n") == "\n" + footer + "\n";
    var a := "\n\n" + heading;
    assert Join(top + ls + bottom, "\n") == a + "\n" + body + "\n" + ("\n" + footer + "\n");
    Assoc(a + "\n" + body + "\n", "\n" + footer, "\n");
    Assoc(a + "\n" + body + "\n", "\n", footer);
    Assoc(a + "\n" + body, "\n", "\n");
    Assoc(a + "\n", body, "\n");
  }

  lemma FramedLines(heading: string, footer: string, ls: seq<string>)
    requires ls != []
    requires NoChar(heading, '\n') && NoChar(footer, '\n')
    requires AllSingle(ls)
    ensures SplitLines(Framed(heading, Join(ls, "\n") + "\n", footer)) == ["", "", heading] + ls + ["", footer, ""]
  {
    assert AllSingle(["", "", heading]);
    assert AllSingle(["", footer, ""]);
    AllSingleAppend(["", "", heading], ls);
    AllSingleAppend(["", "", heading] + ls, ["", footer, ""]);
    FramedAsJoin(heading, footer, ls);
    SplitJoin(["", "", heading] + ls + ["", footer, ""], '\n');
  }

  /** Read line by line, the context is two blank lines, the heading, one
      line per standard in order, a blank line, the footer and a final
      empty piece after the last line break. */
  lemma ContextLines(stds: seq<CodingStandard>)
    requires stds != []
    requires forall k :: 0 <= k < |stds| ==> SingleLine(stds[k])
    ensures SplitLines(StandardsContext(stds))
         == ["", "", ContextHeading] + StandardLines(stds) + ["", ContextFooter, ""]
  {
    var ls := StandardLines(stds);
    forall k | 0 <= k < |ls| ensures NoChar(ls[k], '\n') {
      LineSingle(stds[k]);
    }
    ContextTextsSingleLine();
    EntriesAsLines(stds);
    FramedLines(ContextHeading, ContextFooter, ls);
  }

  lemma LineSingle(std: CodingStandard)
    requires SingleLine(std)
    ensures NoChar(StandardLine(std), '\n')
  {
    var paren := if std.configFile != "" then " (" + std.configFile + ")" else "";
    NoCharAppend("- ", std.name, '\n');
    NoCharAppend(" (", std.configFile, '\n');
    NoCharAppend(" (" + std.configFile, ")", '\n');
    NoCharAppend("- " + std.name, paren, '\n');
    NoCharAppend("- " + std.name + paren, ": ", '\n');
    NoCharAppend("- " + std.name + paren + ": ", std.description, '\n');
  }

  /** A standard without a config file has no parenthetical. */
  lemma LineWithoutConfig(std: CodingStandard)
    requires std.configFile == ""
    ensures StandardLine(std) == "- " + std.name + ": " + std.description
  {
  }

  // ---------------------------------------------------------------------
  // Reading a config file

  datatype ConfigError = PermissionDenied | ReadFailed

  const DefaultMaxBytes: nat := 2048
  const TruncationMarker: string := "\n... (truncated)"

  /** `maxBytes` 0 selects the default limit. */
  function EffectiveMaxBytes(maxBytes: nat): (n: nat)
    ensures maxBytes == 0 ==> n == DefaultMaxBytes
    ensures maxBytes != 0 ==> n == maxBytes
  {
    if maxBytes == 0 then DefaultMaxBytes else maxBytes
  }

  /** A UTF-8 continuation byte (0x80 to 0xBF). */
  predicate Continuation(c: char) {
    0x80 <= c as int < 0xC0
  }

  /** Drop trailing continuation bytes. The lead byte they belong to is
      kept, so a cut backed off this way can still end inside a multi-byte
      character (`TruncateSplitsCharacter`). */
  function DropContinuation(s: string): (r: string)
    ensures r <= s
    ensures r == "" || !Continuation(r[|r| - 1])
    ensures forall i :: |r| <= i < |s| ==> Continuation(s[i])
  {
    if s != [] && Continuation(s[|s| - 1]) then DropContinuation(s[..|s| - 1]) else s
  }

  /** The cut `ReadConfigContent` applies: content within the limit is
      returned as is; longer content is cut to at most `maxBytes` bytes,
      backed off past continuation bytes, and marked as truncated. */
  function Truncate(content: string, maxBytes: nat): (r: string)
    ensures |content| <= maxBytes ==> r == content
    ensures |content| > maxBytes ==> Truncated(content, maxBytes, r)
  {
    if |content| <= maxBytes then content
    else
      var kept := DropContinuation(content[..maxBytes]);
      assert (kept + TruncationMarker)[..|kept|] == kept;
      kept + TruncationMarker
  }

  /** `r` is the longest prefix of the first `maxBytes` bytes of `content`
      that does not end in a continuation byte, followed by the marker. */
  predicate Truncated(content: string, maxBytes: nat, r: string) {
    && |r| >= |TruncationMarker|
    && var kept := r[..|r| - |TruncationMarker|];
    && r == kept + TruncationMarker
    && |kept| <= maxBytes && maxBytes <= |content|
    && kept <= content
    && (kept == "" || !Continuation(kept[|kept| - 1]))
    && (forall i :: |kept| <= i < maxBytes ==> Continuation(content[i]))
  }

  /** The marked cut is determined: at most one string is a truncation. */
  lemma TruncatedUnique(content: string, maxBytes: nat, r1: string, r2: string)
    requires Truncated(content, maxBytes, r1) && Truncated(content, maxBytes, r2)
    ensures r1 == r2
  {
    var k1 := r1[..|r1| - |TruncationMarker|];
    var k2 := r2[..|r2| - |TruncationMarker|];
    assert |k1| == |k2|;
    assert k1 == content[..|k1|] == k2;
  }

  /** The cut lies between two characters: at either end of the content or
      before a byte that is not a continuation byte. */
  predicate Boundary(content: string, k: nat)
    requires k <= |content|
  {
    k == 0 || k == |content| || !Continuation(content[k])
  }

  /** The last character boundary at or before `k`. */
  function BoundaryBefore(content: string, k: nat): (r: nat)
    requires k <= |content|
    ensures r <= k && Boundary(content, r)
    ensures forall j :: r < j <= k ==> !Boundary(content, j)
  {
    if Boundary(content, k) then k else BoundaryBefore(content, k - 1)
  }

  /** The cut the truncation in `ReadConfigContent` evidently intends:
      longer content keeps the longest prefix of at most `maxBytes` bytes
      that ends on a character boundary, then the marker. */
  function TruncateAtBoundary(content: string, maxBytes: nat): (r: string)
    ensures |content| <= maxBytes ==> r == content
    ensures |content| > maxBytes ==> TruncatedAtBoundary(content, maxBytes, r)
  {
    if |content| <= maxBytes then content
    else
      var kept := content[..BoundaryBefore(content, maxBytes)];
      assert (kept + TruncationMarker)[..|kept|] == kept;
      kept + TruncationMarker
  }

  /** `r` is the longest prefix of `content` of at most `maxBytes` bytes
      that ends on a character boundary, followed by the marker. */
  predicate TruncatedAtBoundary(content: string, maxBytes: nat, r: string) {
    && |r| >= |TruncationMarker|
    && var kept := r[..|r| - |TruncationMarker|];
    && r == kept + TruncationMarker
    && |kept| <= maxBytes < |content|
    && kept <= content
    && Boundary(content, |kept|)
    && (forall j :: |kept| < j <= maxBytes ==> !Boundary(content, j))
  }

  /** The corrected cut is determined: at most one string is such a
      truncation. */
  lemma TruncatedAtBoundaryUnique(content: string, maxBytes: nat, r1: string, r2: string)
    requires TruncatedAtBoundary(content, maxBytes, r1) && TruncatedAtBoundary(content, maxBytes, r2)
    ensures r1 == r2
  {
    var k1 := r1[..|r1| - |TruncationMarker|];
    var k2 := r2[..|r2| - |TruncationMarker|];
    assert |k1| == |k2|;
    assert k1 == content[..|k1|] == k2;
  }

  /** Two characters of two bytes each, 0xC3 0xA9 twice (two e-acutes in
      UTF-8). */
  const TwoAcutes: string := "\U{C3}\U{A9}\U{C3}\U{A9}"

  /** The written cut splits a character: with a limit of 2 it drops the
      0xA9 that completes the first character and keeps its lead byte 0xC3,
      which the continuation byte after the cut belongs to; the corrected
      cut keeps the whole first character. */
  lemma TruncateSplitsCharacter()
    ensures Truncate(TwoAcutes, 2) == "\U{C3}" + TruncationMarker
    ensures !Boundary(TwoAcutes, 1)
    ensures TruncateAtBoundary(TwoAcutes, 2) == "\U{C3}\U{A9}" + TruncationMarker
    ensures Boundary(TwoAcutes, 2)
  {
    assert TwoAcutes[..2] == "\U{C3}\U{A9}";
    assert "\U{C3}\U{A9}"[..1] == "\U{C3}";
    assert DropContinuation("\U{C3}") == "\U{C3}";
    assert BoundaryBefore(TwoAcutes, 2) == 2;
  }

  /** The path `ReadConfigContent` opens. */
  function ConfigPath(root: string, configFile: string): string {
    Paths.Join2(root, Paths.Clean(configFile))
  }

  /** `ReadConfigContent` as written: the joined path is rejected unless it
      starts with the root string. A negative `maxBytes` would make the
      source slice out of range, so it is excluded. */
  function ReadConfigContent(root: string, configFile: string, maxBytes: int, fs: Fs): (r: Result<string, ConfigError>)
    requires maxBytes >= 0
    ensures !HasPrefix(ConfigPath(root, configFile), root) ==> r == Err(PermissionDenied)
    ensures HasPrefix(ConfigPath(root, configFile), root) && fs.read(ConfigPath(root, configFile)).None? ==> r == Err(ReadFailed)
    ensures HasPrefix(ConfigPath(root, configFile), root) && fs.read(ConfigPath(root, configFile)).Some? ==>
      r == Ok(Truncate(fs.read(ConfigPath(root, configFile)).value, EffectiveMaxBytes(maxBytes)))
    ensures r.Ok? ==> (fs.read(ConfigPath(root, configFile)).Some?
                       && r.value == Truncate(fs.read(ConfigPath(root, configFile)).value, EffectiveMaxBytes(maxBytes)))
  {
    var limit := EffectiveMaxBytes(maxBytes);
    var path := ConfigPath(root, configFile);
    if !HasPrefix(path, root) then Err(PermissionDenied)
    else match fs.read(path)
      case None => Err(ReadFailed)
      case Some(content) => Ok(Truncate(content, limit))
  }

  /** `ReadConfigContent` with the containment check and the cut it
      evidently intends: a config path that climbs out of the root is
      rejected, and long content is cut on a character boundary. */
  function ReadConfigContentContained(root: string, configFile: string, maxBytes: int, fs: Fs): (r: Result<string, ConfigError>)
    requires maxBytes >= 0
    ensures Paths.Climbs(Paths.Clean(configFile)) ==> r == Err(PermissionDenied)
    ensures !Paths.Climbs(Paths.Clean(configFile)) && fs.read(ConfigPath(root, configFile)).None? ==> r == Err(ReadFailed)
    ensures !Paths.Climbs(Paths.Clean(configFile)) && fs.read(ConfigPath(root, configFile)).Some? ==>
      r == Ok(TruncateAtBoundary(fs.read(ConfigPath(root, configFile)).value, EffectiveMaxBytes(maxBytes)))
    ensures r.Ok? ==> (fs.read(ConfigPath(root, configFile)).Some?
                       && r.value == TruncateAtBoundary(fs.read(ConfigPath(root, configFile)).value, EffectiveMaxBytes(maxBytes)))
  {
    var limit := EffectiveMaxBytes(maxBytes);
    var path := ConfigPath(root, configFile);
    if Paths.Climbs(Paths.Clean(configFile)) then Err(PermissionDenied)
    else match fs.read(path)
      case None => Err(ReadFailed)
      case Some(content) => Ok(TruncateAtBoundary(content, limit))
  }

  /** Under an absolute root, whatever the contained reader opens is the
      root itself or lies below it. */
  lemma ContainedReadStaysWithin(root: string, configFile: string, maxBytes: int, fs: Fs)
    requires maxBytes >= 0 && Paths.Rooted(root)
    requires ReadConfigContentContained(root, configFile, maxBytes, fs).Ok?
    ensures Paths.Within(Paths.Clean(root), ConfigPath(root, configFile))
  {
    Paths.JoinStaysWithin(root, configFile);
  }

  /** Three pieces without the separator, joined by it, split back. */
  lemma SplitThree(a: string, b: string, c: string, sep: char)
    requires NoChar(a, sep) && NoChar(b, sep) && NoChar(c, sep)
    ensures Split(a + [sep] + b + [sep] + c, sep) == [a, b, c]
  {
    assert a + [sep] + b + [sep] + c == a + [sep] + (b + [sep] + c);
    SplitAppend(a, sep, b + [sep] + c);
    SplitAppend(b, sep, c);
    SplitWhole(a, sep);
    SplitWhole(b, sep);
    SplitWhole(c, sep);
  }

  lemma SiblingRelativeSplits()
    ensures Split("../app-secrets/key", '/') == ["..", "app-secrets", "key"]
  {
    assert "../app-secrets/key" == ".." + ['/'] + "app-secrets" + ['/'] + "key";
    SplitThree("..", "app-secrets", "key", '/');
  }

  lemma SiblingRootSplits()
    ensures Split("/srv/app", '/') == ["", "srv", "app"]
  {
    assert "/srv/app" == "" + ['/'] + "srv" + ['/'] + "app";
    SplitThree("", "srv", "app", '/');
  }

  /** The elements of the sibling-directory example. */
  lemma SiblingSplits()
    ensures Split("../app-secrets/key", '/') == ["..", "app-secrets", "key"]
    ensures Split("/srv/app", '/') == ["", "srv", "app"]
    ensures Split("/srv/app" + "/" + "../app-secrets/key", '/') == Split("/srv/app", '/') + Split("../app-secrets/key", '/')
  {
    SiblingRelativeSplits();
    SiblingRootSplits();
    SplitAppend("/srv/app", '/', "../app-secrets/key");
  }

  lemma SiblingReductions()
    ensures Paths.Reduce([], ["..", "app-secrets", "key"], false) == ["..", "app-secrets", "key"]
    ensures Paths.Reduce([], ["", "srv", "app"], true) == ["srv", "app"]
    ensures Paths.Reduce(["srv", "app"], ["..", "app-secrets", "key"], true) == ["srv", "app-secrets", "key"]
  {
  }

  lemma SiblingJoins()
    ensures Join(["..", "app-secrets", "key"], "/") == "../app-secrets/key"
    ensures "/" + Join(["srv", "app-secrets", "key"], "/") == "/srv/app-secrets/key"
  {
  }

  lemma SiblingExamplePaths()
    ensures Paths.Clean("../app-secrets/key") == "../app-secrets/key"
    ensures ConfigPath("/srv/app", "../app-secrets/key") == "/srv/app-secrets/key"
  {
    SiblingSplits();
    SiblingReductions();
    SiblingJoins();
    var rel := "../app-secrets/key";
    assert Paths.Elements(rel) == ["..", "app-secrets", "key"];
    assert Paths.Clean(rel) == rel;
    var root := "/srv/app";
    var full := root + "/" + rel;
    assert Paths.Rooted(full);
    Paths.ReduceAppend([], Split(root, '/'), Split(rel, '/'), true);
    assert Paths.Elements(full) == ["srv", "app-secrets", "key"];
    assert Paths.Clean(full) == "/srv/app-secrets/key";
  }

  lemma SiblingPrefixes()
    ensures HasPrefix("/srv/app-secrets/key", "/srv/app")
    ensures !HasPrefix("/srv/app-secrets/key", "/srv/app" + "/")
  {
    var p := "/srv/app-secrets/key";
    assert p[8] == '-';
  }

  /** The prefix check compares strings, not path elements: with root
      "/srv/app", the config file "../app-secrets/key" opens
      "/srv/app-secrets/key", a sibling of the root. */
  lemma PrefixGuardAdmitsSibling(fs: Fs)
    requires fs.read("/srv/app-secrets/key").Some?
    ensures ReadConfigContent("/srv/app", "../app-secrets/key", 0, fs).Ok?
    ensures !Paths.Within("/srv/app", ConfigPath("/srv/app", "../app-secrets/key"))
  {
    SiblingExamplePaths();
    SiblingPrefixes();
  }

  /** The contained reader refuses that same request. */
  lemma ContainedRefusesSibling(fs: Fs)
    ensures ReadConfigContentContained("/srv/app", "../app-secrets/key", 0, fs) == Err(PermissionDenied)
  {
    SiblingExamplePaths();
  }
}
