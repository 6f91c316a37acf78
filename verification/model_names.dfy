/** `mapModelName` of internal/copilot/client.go: the case-insensitive
    table from the model names a user may configure to the identifiers the
    assistant service accepts. Unknown names fall back to "gpt-4o-mini". */
module ModelNames {
  import opened Results
  import opened Text

  /** One `case` of the switch: the names it lists and what it returns. */
  datatype Case = Case(names: seq<string>, target: string)

  const Fallback: string := "gpt-4o-mini"

  /** The switch, case by case, in source order. */
  const Cases: seq<Case> := OpenAiCases + ClaudeCases + GeminiCases + GrokCases

  /** The OpenAI cases, in three runs: GPT-4, GPT-5 and o1. */
  const OpenAiCases: seq<Case> := Gpt4Cases + Gpt5Cases + O1Cases

  const Gpt4Cases: seq<Case> := [
    Case(["gpt-4", "gpt4", "gpt-4o"], "gpt-4o"),
    Case(["gpt-4o-mini", "gpt-4-mini"], "gpt-4o-mini"),
    Case(["gpt-4.1"], "gpt-4.1")
  ]

  const Gpt5Cases: seq<Case> := [
    Case(["gpt-5"], "gpt-5"),
    Case(["gpt-5-mini"], "gpt-5-mini"),
    Case(["gpt-5.1"], "gpt-5.1"),
    Case(["gpt-5.2"], "gpt-5.2")
  ]

  const O1Cases: seq<Case> := [
    Case(["o1", "o1-preview"], "o1-preview"),
    Case(["o1-mini"], "o1-mini")
  ]

  const ClaudeCases: seq<Case> := [
    Case(["claude", "claude-sonnet", "claude-sonnet-4"], "claude-sonnet-4"),
    Case(["claude-sonnet-4.5"], "claude-sonnet-4.5"),
    Case(["claude-opus", "claude-opus-4.5"], "claude-opus-4.5"),
    Case(["claude-haiku", "claude-haiku-4.5"], "claude-haiku-4.5")
  ]

  const GeminiCases: seq<Case> := [
    Case(["gemini", "gemini-2.5-pro"], "gemini-2.5-pro"),
    Case(["gemini-3-flash"], "gemini-3-flash"),
    Case(["gemini-3-pro"], "gemini-3-pro")
  ]

  const GrokCases: seq<Case> := [
    Case(["grok", "grok-code-fast"], "grok-code-fast-1")
  ]

  /** The identifiers the switch can return. */
  function Targets(cases: seq<Case>): (r: seq<string>)
    ensures |r| == |cases|
    ensures forall k :: 0 <= k < |cases| ==> r[k] == cases[k].target
  {
    if cases == [] then [] else [cases[0].target] + Targets(cases[1..])
  }

  /** The first case listing `key`, as a switch picks it. */
  function Lookup(cases: seq<Case>, key: string): (r: Option<string>)
    ensures r.None? <==> forall k :: 0 <= k < |cases| ==> key !in cases[k].names
    ensures r.Some? ==> r.value in Targets(cases)
  {
    if cases == [] then None
    else if key in cases[0].names then Some(cases[0].target)
    else
      var rest := Lookup(cases[1..], key);
      assert forall k :: 1 <= k < |cases| ==> cases[k] == cases[1..][k - 1];
      assert Targets(cases) == [cases[0].target] + Targets(cases[1..]);
      rest
  }

  /** The lookup returns the target of the first case that lists the key. */
  lemma {:induction false} LookupFirst(cases: seq<Case>, key: string, k: nat)
    requires k < |cases| && key in cases[k].names
    requires forall j :: 0 <= j < k ==> key !in cases[j].names
    ensures Lookup(cases, key) == Some(cases[k].target)
    decreases k
  {
    if k > 0 {
      LookupFirst(cases[1..], key, k - 1);
    }
  }

  /** Looking up in a concatenation tries the first table, then the second. */
  lemma {:induction false} LookupAppend(a: seq<Case>, b: seq<Case>, key: string)
    ensures Lookup(a + b, key) == if Lookup(a, key).Some? then Lookup(a, key) else Lookup(b, key)
    decreases |a|
  {
    if a == [] {
      assert a + b == b;
    } else {
      assert (a + b)[0] == a[0];
      assert (a + b)[1..] == a[1..] + b;
      LookupAppend(a[1..], b, key);
    }
  }

  lemma {:induction false} TargetsAppend(a: seq<Case>, b: seq<Case>)
    ensures Targets(a + b) == Targets(a) + Targets(b)
  {
  }

  /** `mapModelName`. */
  function MapModelName(model: string): (r: string)
    ensures r in Targets(Cases)
  {
    match Lookup(Cases, Lower(model))
    case None => assert Targets(Cases)[1] == Fallback; Fallback
    case Some(target) => target
  }

  // ---------------------------------------------------------------------
  // Properties

  /** What each group of cases returns, in order. */
  const OpenAiIdentifiers: seq<string> :=
    ["gpt-4o", "gpt-4o-mini", "gpt-4.1", "gpt-5", "gpt-5-mini", "gpt-5.1", "gpt-5.2", "o1-preview", "o1-mini"]
  const ClaudeIdentifiers: seq<string> := ["claude-sonnet-4", "claude-sonnet-4.5", "claude-opus-4.5", "claude-haiku-4.5"]
  const GeminiIdentifiers: seq<string> := ["gemini-2.5-pro", "gemini-3-flash", "gemini-3-pro"]
  const GrokIdentifiers: seq<string> := ["grok-code-fast-1"]

  lemma FamilyTargets()
    ensures Targets(Gpt4Cases) == ["gpt-4o", "gpt-4o-mini", "gpt-4.1"]
    ensures Targets(Gpt5Cases) == ["gpt-5", "gpt-5-mini", "gpt-5.1", "gpt-5.2"]
    ensures Targets(O1Cases) == ["o1-preview", "o1-mini"]
  {
  }

  lemma OpenAiTargets()
    ensures Targets(OpenAiCases) == OpenAiIdentifiers
  {
    TargetsAppend(Gpt4Cases, Gpt5Cases);
    TargetsAppend(Gpt4Cases + Gpt5Cases, O1Cases);
    FamilyTargets();
  }

  lemma OtherTargets()
    ensures Targets(ClaudeCases) == ClaudeIdentifiers
    ensures Targets(GeminiCases) == GeminiIdentifiers
    ensures Targets(GrokCases) == GrokIdentifiers
  {
  }

  /** The targets of the whole switch, group by group. */
  lemma GroupTargets()
    ensures Targets(Cases) == Targets(OpenAiCases) + Targets(ClaudeCases) + Targets(GeminiCases) + Targets(GrokCases)
  {
    TargetsAppend(OpenAiCases, ClaudeCases);
    TargetsAppend(OpenAiCases + ClaudeCases, GeminiCases);
    TargetsAppend(OpenAiCases + ClaudeCases + GeminiCases, GrokCases);
  }

  /** The switch returns one of 17 identifiers, the groups' lists in order. */
  lemma SeventeenIdentifiers()
    ensures Targets(Cases) == OpenAiIdentifiers + ClaudeIdentifiers + GeminiIdentifiers + GrokIdentifiers
    ensures |Targets(Cases)| == 17
  {
    GroupTargets();
    OpenAiTargets();
    OtherTargets();
  }

  /** Case does not matter: a name and its lower-case form map alike. */
  lemma CaseInsensitive(model: string)
    ensures MapModelName(model) == MapModelName(Lower(model))
  {
    LowerIdempotent(model);
  }

  /** A name no case lists, the empty name included, gets the fallback. */
  lemma UnlistedFallsBack(model: string)
    requires forall k :: 0 <= k < |Cases| ==> Lower(model) !in Cases[k].names
    ensures MapModelName(model) == Fallback
  {
  }

  lemma EmptyFallsBack()
    ensures MapModelName("") == Fallback
  {
    assert Lower("") == "";
    forall k | 0 <= k < |Cases|
      ensures "" !in Cases[k].names
    {
    }
  }

  /** Looking a key up in the whole switch, given where it is found. */
  lemma LookupInGroups(key: string)
    ensures Lookup(Cases, key) ==
      if Lookup(OpenAiCases, key).Some? then Lookup(OpenAiCases, key)
      else if Lookup(ClaudeCases, key).Some? then Lookup(ClaudeCases, key)
      else if Lookup(GeminiCases, key).Some? then Lookup(GeminiCases, key)
      else Lookup(GrokCases, key)
  {
    LookupAppend(OpenAiCases, ClaudeCases, key);
    LookupAppend(OpenAiCases + ClaudeCases, GeminiCases, key);
    LookupAppend(OpenAiCases + ClaudeCases + GeminiCases, GrokCases, key);
  }

  lemma OpenAiAliases()
    ensures Lookup(OpenAiCases, "gpt-4") == Lookup(OpenAiCases, "gpt4") == Lookup(OpenAiCases, "gpt-4o") == Some("gpt-4o")
  {
    LookupFirst(OpenAiCases, "gpt-4", 0);
    LookupFirst(OpenAiCases, "gpt4", 0);
    LookupFirst(OpenAiCases, "gpt-4o", 0);
  }

  /** Every name a table lists, case by case. */
  function Names(cases: seq<Case>): seq<string> {
    if cases == [] then [] else cases[0].names + Names(cases[1..])
  }

  lemma {:induction false} NamesAppend(a: seq<Case>, b: seq<Case>)
    ensures Names(a + b) == Names(a) + Names(b)
  {
    if a == [] {
      assert a + b == b;
    } else {
      assert (a + b)[0] == a[0];
      assert (a + b)[1..] == a[1..] + b;
      NamesAppend(a[1..], b);
    }
  }

  /** A key none of the cases lists finds nothing. */
  lemma {:induction false} Unlisted(cases: seq<Case>, key: string)
    requires key !in Names(cases)
    ensures Lookup(cases, key) == None
  {
    if cases != [] {
      assert Names(cases) == cases[0].names + Names(cases[1..]);
      Unlisted(cases[1..], key);
    }
  }

  const OpenAiNames: seq<string> := ["gpt-4", "gpt4", "gpt-4o", "gpt-4o-mini", "gpt-4-mini", "gpt-4.1", "gpt-5",
                                     "gpt-5-mini", "gpt-5.1", "gpt-5.2", "o1", "o1-preview", "o1-mini"]
  const ClaudeNames: seq<string> := ["claude", "claude-sonnet", "claude-sonnet-4", "claude-sonnet-4.5", "claude-opus",
                                     "claude-opus-4.5", "claude-haiku", "claude-haiku-4.5"]
  const GeminiNames: seq<string> := ["gemini", "gemini-2.5-pro", "gemini-3-flash", "gemini-3-pro"]

  lemma OpenAiGroupNames()
    ensures Names(OpenAiCases) == OpenAiNames
  {
    NamesAppend(Gpt4Cases, Gpt5Cases);
    NamesAppend(Gpt4Cases + Gpt5Cases, O1Cases);
    assert Names(Gpt4Cases) == ["gpt-4", "gpt4", "gpt-4o", "gpt-4o-mini", "gpt-4-mini", "gpt-4.1"];
    assert Names(Gpt5Cases) == ["gpt-5", "gpt-5-mini", "gpt-5.1", "gpt-5.2"];
    assert Names(O1Cases) == ["o1", "o1-preview", "o1-mini"];
  }

  lemma OtherGroupNames()
    ensures Names(ClaudeCases) == ClaudeNames
    ensures Names(GeminiCases) == GeminiNames
    ensures Names(GrokCases) == ["grok", "grok-code-fast"]
  {
  }

  lemma ClaudeNotOpenAiName(key: string)
    requires |key| > 0 && key[0] == 'c'
    ensures key !in OpenAiNames
  {
    forall k | 0 <= k < |OpenAiNames|
      ensures OpenAiNames[k] != key
    {
      assert OpenAiNames[k][0] != 'c';
    }
  }

  lemma ClaudeNotOpenAi(key: string)
    requires |key| > 0 && key[0] == 'c'
    ensures Lookup(OpenAiCases, key) == None
  {
    ClaudeNotOpenAiName(key);
    OpenAiGroupNames();
    Unlisted(OpenAiCases, key);
  }

  lemma ClaudeAliases()
    ensures Lookup(ClaudeCases, "claude") == Lookup(ClaudeCases, "claude-sonnet") == Lookup(ClaudeCases, "claude-sonnet-4")
         == Some("claude-sonnet-4")
  {
    LookupFirst(ClaudeCases, "claude", 0);
    LookupFirst(ClaudeCases, "claude-sonnet", 0);
    LookupFirst(ClaudeCases, "claude-sonnet-4", 0);
  }

  /** A lower-case name the first table lists maps to what it lists. */
  lemma OpenAiNameMaps(name: string, target: string)
    requires Lower(name) == name && Lookup(OpenAiCases, name) == Some(target)
    ensures MapModelName(name) == target
  {
    LookupInGroups(name);
  }

  /** A lower-case name starting with 'c' that the Claude table lists maps
      to what it lists. */
  lemma ClaudeNameMaps(name: string, target: string)
    requires Lower(name) == name && |name| > 0 && name[0] == 'c'
    requires Lookup(ClaudeCases, name) == Some(target)
    ensures MapModelName(name) == target
  {
    ClaudeNotOpenAi(name);
    LookupInGroups(name);
  }

  lemma AliasesLowerCase()
    ensures Lower("gpt-4") == "gpt-4" && Lower("gpt4") == "gpt4" && Lower("gpt-4o") == "gpt-4o"
    ensures Lower("claude") == "claude" && Lower("claude-sonnet") == "claude-sonnet"
    ensures Lower("claude-sonnet-4") == "claude-sonnet-4"
  {
  }

  /** Aliases collapse onto one identifier. */
  lemma AliasesCollapse()
    ensures MapModelName("gpt-4") == MapModelName("gpt4") == MapModelName("gpt-4o") == "gpt-4o"
    ensures MapModelName("claude") == MapModelName("claude-sonnet") == MapModelName("claude-sonnet-4") == "claude-sonnet-4"
  {
    AliasesLowerCase();
    OpenAiAliases();
    ClaudeAliases();
    OpenAiNameMaps("gpt-4", "gpt-4o");
    OpenAiNameMaps("gpt4", "gpt-4o");
    OpenAiNameMaps("gpt-4o", "gpt-4o");
    ClaudeNameMaps("claude", "claude-sonnet-4");
    ClaudeNameMaps("claude-sonnet", "claude-sonnet-4");
    ClaudeNameMaps("claude-sonnet-4", "claude-sonnet-4");
  }

  lemma NotOpenAiName(key: string)
    requires |key| > 1 && key[0] == 'g' && key[1] == 'r'
    ensures key !in OpenAiNames
  {
    forall k | 0 <= k < |OpenAiNames|
      ensures OpenAiNames[k] != key
    {
      assert OpenAiNames[k][1] != 'r';
    }
  }

  lemma NotGeminiName(key: string)
    requires |key| > 1 && key[0] == 'g' && key[1] == 'r'
    ensures key !in GeminiNames
  {
    forall k | 0 <= k < |GeminiNames|
      ensures GeminiNames[k] != key
    {
      assert GeminiNames[k][1] == 'e';
    }
  }

  lemma NotClaudeName(key: string)
    requires |key| > 0 && key[0] == 'g'
    ensures key !in ClaudeNames
  {
    forall k | 0 <= k < |ClaudeNames|
      ensures ClaudeNames[k] != key
    {
      assert ClaudeNames[k][0] == 'c';
    }
  }

  lemma GrokMisses(key: string)
    requires |key| > 1 && key[0] == 'g' && key[1] == 'r'
    ensures Lookup(OpenAiCases, key) == None
    ensures Lookup(ClaudeCases, key) == None
    ensures Lookup(GeminiCases, key) == None
  {
    NotOpenAiName(key);
    NotClaudeName(key);
    NotGeminiName(key);
    OpenAiGroupNames();
    OtherGroupNames();
    Unlisted(OpenAiCases, key);
    Unlisted(ClaudeCases, key);
    Unlisted(GeminiCases, key);
  }

  lemma GrokMaps()
    ensures MapModelName("grok") == "grok-code-fast-1"
  {
    GrokLowerCase();
    GrokMisses("grok");
    LookupFirst(GrokCases, "grok", 0);
    LookupInGroups("grok");
  }

  lemma GrokLowerCase()
    ensures Lower("grok") == "grok"
    ensures Lower("grok-code-fast-1") == "grok-code-fast-1"
  {
  }

  lemma GrokIdentifierUnlisted()
    ensures MapModelName("grok-code-fast-1") == Fallback
  {
    var id := "grok-code-fast-1";
    GrokLowerCase();
    GrokMisses(id);
    OtherGroupNames();
    assert id !in ["grok", "grok-code-fast"];
    Unlisted(GrokCases, id);
    LookupInGroups(id);
  }

  /** Mapping twice is not mapping once: "grok" gives "grok-code-fast-1",
      which no case lists, so it falls back. */
  lemma NotIdempotent()
    ensures MapModelName("grok") == "grok-code-fast-1"
    ensures MapModelName(MapModelName("grok")) == Fallback
  {
    GrokMaps();
    GrokIdentifierUnlisted();
  }
}
