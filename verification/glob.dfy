/** Shell patterns as `filepath.Match` reads them: `*` matches any run of
    characters other than '/', `?` one such character, `[...]` a character
    class (negated by a leading '^', ranges written lo-hi), and `\` quotes
    the character after it. A malformed pattern matches nothing.

    `MatchItems` is the language a pattern denotes. `filepath.Match` does
    not search it exhaustively: after a star it commits to the first place
    where the next run of non-star items matches. `Match` follows that
    algorithm; it is sound for the language, and `CommitMissesMatch` shows
    a name it rejects although the name is in the language. */
module Glob {
  import opened Results

  /** One pattern element. */
  datatype Item =
    | Lit(c: char)
    | AnyChar
    | Star
    | Class(negated: bool, ranges: seq<(char, char)>)

  /** One class bound: a character, possibly quoted by `\`. It may not be
      '-' or ']', and something must follow it. Returns the character and
      the index after it. */
  function ClassChar(p: string, i: nat): (r: Option<(char, nat)>)
    ensures r.Some? ==> i < r.value.1 < |p|
  {
    if i >= |p| || p[i] == '-' || p[i] == ']' then None
    else if p[i] == '\\' then
      if i + 2 < |p| then Some((p[i + 1], i + 2)) else None
    else if i + 1 < |p| then Some((p[i], i + 1))
    else None
  }

  /** The ranges of a class from index `i` to its closing ']'; `seen` says
      whether a range has been read already (the first ']' after '[' is
      not a closer). Returns the ranges and the index after ']'. */
  function ClassRanges(p: string, i: nat, seen: bool): (r: Option<(seq<(char, char)>, nat)>)
    ensures r.Some? ==> i < r.value.1 <= |p|
    ensures r.Some? && !seen ==> |r.value.0| >= 1
    decreases |p| - i
  {
    if i < |p| && p[i] == ']' && seen then Some(([], i + 1))
    else match ClassChar(p, i)
      case None => None
      case Some((lo, j)) =>
        if p[j] == '-' then
          match ClassChar(p, j + 1)
          case None => None
          case Some((hi, k)) =>
            match ClassRanges(p, k, true)
            case None => None
            case Some((rest, end)) => Some(([(lo, hi)] + rest, end))
        else
          match ClassRanges(p, j, true)
          case None => None
          case Some((rest, end)) => Some(([(lo, lo)] + rest, end))
  }

  /** The pattern from index `i` as items; `None` if it is malformed. */
  function ParseFrom(p: string, i: nat): (r: Option<seq<Item>>)
    decreases |p| - i
  {
    if i >= |p| then Some([])
    else
      var c := p[i];
      if c == '*' then PrependItem(Star, ParseFrom(p, i + 1))
      else if c == '?' then PrependItem(AnyChar, ParseFrom(p, i + 1))
      else if c == '\\' then
        if i + 1 < |p| then PrependItem(Lit(p[i + 1]), ParseFrom(p, i + 2)) else None
      else if c == '[' then
        var negated := i + 1 < |p| && p[i + 1] == '^';
        var start := if negated then i + 2 else i + 1;
        match ClassRanges(p, start, false)
        case None => None
        case Some((ranges, end)) => PrependItem(Class(negated, ranges), ParseFrom(p, end))
      else PrependItem(Lit(c), ParseFrom(p, i + 1))
  }

  function PrependItem(item: Item, rest: Option<seq<Item>>): (r: Option<seq<Item>>)
    ensures r.Some? <==> rest.Some?
    ensures r.Some? ==> r.value == [item] + rest.value
  {
    match rest
    case None => None
    case Some(items) => Some([item] + items)
  }

  function Parse(p: string): Option<seq<Item>> {
    ParseFrom(p, 0)
  }

  predicate InRanges(c: char, ranges: seq<(char, char)>) {
    exists k :: 0 <= k < |ranges| && ranges[k].0 <= c <= ranges[k].1
  }

  /** Whether a single-character item accepts `c`. */
  predicate Accepts(item: Item, c: char) {
    match item
    case Lit(l) => c == l
    case AnyChar => c != '/'
    case Star => false
    case Class(negated, ranges) => InRanges(c, ranges) != negated
  }

  /** Items against a name; a star stops at '/'. */
  predicate MatchItems(items: seq<Item>, s: string)
    decreases |s|, |items|
  {
    if items == [] then s == ""
    else if items[0] == Star then
      MatchItems(items[1..], s) || (s != "" && s[0] != '/' && MatchItems(items, s[1..]))
    else s != "" && Accepts(items[0], s[0]) && MatchItems(items[1..], s[1..])
  }

  predicate NoSlash(s: string) {
    forall i :: 0 <= i < |s| ==> s[i] != '/'
  }

  /** The items after the leading stars. */
  function DropStars(items: seq<Item>): (r: seq<Item>)
    ensures |r| <= |items| && r == items[|items| - |r|..]
    ensures forall k :: 0 <= k < |items| - |r| ==> items[k] == Star
    ensures r == [] || r[0] != Star
  {
    if items != [] && items[0] == Star then DropStars(items[1..]) else items
  }

  /** The length of the chunk at the front: the items before the next star. */
  function ChunkLength(items: seq<Item>): (n: nat)
    ensures n <= |items|
    ensures forall k :: 0 <= k < n ==> items[k] != Star
    ensures n < |items| ==> items[n] == Star
  {
    if items == [] || items[0] == Star then 0 else 1 + ChunkLength(items[1..])
  }

  /** `matchChunk`: a star-free chunk against the front of `s`, giving
      what is left of `s`. */
  function MatchChunk(chunk: seq<Item>, s: string): (r: Option<string>)
    ensures r.Some? ==> |chunk| <= |s| && r.value == s[|chunk|..]
  {
    if chunk == [] then Some(s)
    else if s != "" && Accepts(chunk[0], s[0]) then MatchChunk(chunk[1..], s[1..])
    else None
  }

  /** The search after a star: the first `m > i` such that the chunk
      matches from `m`, trying `m = i + 1, i + 2, ...` but never skipping a
      '/'. For the last chunk the match must also use up the name. */
  function SkipTo(chunk: seq<Item>, last: bool, name: string, i: nat): (m: Option<nat>)
    requires i <= |name| && NoSlash(name[..i])
    ensures m.Some? ==> i < m.value <= |name| && NoSlash(name[..m.value])
    ensures m.Some? ==> MatchChunk(chunk, name[m.value..]).Some?
    ensures m.Some? ==> !last || MatchChunk(chunk, name[m.value..]).value == ""
    decreases |name| - i
  {
    if i >= |name| || name[i] == '/' then None
    else
      assert name[..i + 1] == name[..i] + [name[i]];
      var t := MatchChunk(chunk, name[i + 1..]);
      if t.Some? && (!last || t.value == "") then Some(i + 1)
      else SkipTo(chunk, last, name, i + 1)
  }

  /** What one round of the loop in `filepath.Match` decides: the final
      answer, or the items and the part of the name the next round starts
      from. */
  datatype Round = Decided(matched: bool) | Continue(items: seq<Item>, name: string)

  /** One round: drop the leading stars; a trailing star matches a name
      without '/'; otherwise `ChunkRound` goes on. A round never admits a
      name outside the language. */
  function CommitRound(items: seq<Item>, name: string): (r: Round)
    requires items != []
    ensures r.Continue? ==> |r.items| < |items|
    ensures r.Decided? && r.matched ==> MatchItems(items, name)
    ensures r.Continue? && MatchItems(r.items, r.name) ==> MatchItems(items, name)
  {
    var body := DropStars(items);
    var stars := items[..|items| - |body|];
    SplitAt(items, |items| - |body|);
    if body == [] then
      if NoSlash(name) then StarsMatch(items, name); Decided(true) else Decided(false)
    else ChunkRound(stars, body, name)
  }

  /** The rest of a round: match the chunk up to the next star where the
      name starts or, after a star, at the first place `SkipTo` finds. */
  function ChunkRound(stars: seq<Item>, body: seq<Item>, name: string): (r: Round)
    requires forall k :: 0 <= k < |stars| ==> stars[k] == Star
    requires body != [] && body[0] != Star
    ensures r.Continue? ==> |r.items| < |body|
    ensures r.Decided? ==> !r.matched
    ensures r.Continue? && MatchItems(r.items, r.name) ==> MatchItems(stars + body, name)
  {
    var n := ChunkLength(body);
    var chunk := body[..n];
    var rest := body[n..];
    SplitAt(body, n);
    var here := MatchChunk(chunk, name);
    if here.Some? && (here.value == "" || rest != []) then
      assert name[..0] == [] && name[0..] == name;
      ChunkThenRest(stars, chunk, rest, name, 0);
      Continue(rest, here.value)
    else if stars != [] then
      assert name[..0] == [];
      match SkipTo(chunk, rest == [], name, 0)
      case None => Decided(false)
      case Some(m) =>
        ChunkThenRest(stars, chunk, rest, name, m);
        Continue(rest, MatchChunk(chunk, name[m..]).value)
    else Decided(false)
  }

  /** The loop of `filepath.Match` over the parsed items. A match is a real
      one: the items' language contains the name. */
  function CommitMatch(items: seq<Item>, name: string): (r: bool)
    ensures r ==> MatchItems(items, name)
    decreases |items|
  {
    if items == [] then name == ""
    else match CommitRound(items, name)
      case Decided(matched) => matched
      case Continue(rest, t) => CommitMatch(rest, t)
  }

  lemma SplitAt<T>(s: seq<T>, n: nat)
    requires n <= |s|
    ensures s == s[..n] + s[n..]
  {
  }

  /** A name without '/' matches a run of stars. */
  lemma {:induction false} StarsMatch(items: seq<Item>, name: string)
    requires items != [] && forall k :: 0 <= k < |items| ==> items[k] == Star
    requires NoSlash(name)
    ensures MatchItems(items, name)
    decreases |name|, |items|
  {
    if name == "" {
      if |items| > 1 {
        StarsMatch(items[1..], name);
      } else {
        assert items[1..] == [];
      }
    } else {
      StarsMatch(items, name[1..]);
    }
  }

  /** A chunk matching the front of `s` followed by a match of the rest. */
  lemma {:induction false} ChunkMatch(chunk: seq<Item>, rest: seq<Item>, s: string)
    requires forall k :: 0 <= k < |chunk| ==> chunk[k] != Star
    requires MatchChunk(chunk, s).Some? && MatchItems(rest, MatchChunk(chunk, s).value)
    ensures MatchItems(chunk + rest, s)
    decreases |chunk|
  {
    if chunk != [] {
      assert (chunk + rest)[1..] == chunk[1..] + rest;
      ChunkMatch(chunk[1..], rest, s[1..]);
    } else {
      assert chunk + rest == rest;
    }
  }

  /** Leading stars absorb a slash-free prefix of the name. */
  lemma {:induction false} StarsAbsorb(stars: seq<Item>, body: seq<Item>, name: string, m: nat)
    requires forall k :: 0 <= k < |stars| ==> stars[k] == Star
    requires m <= |name| && NoSlash(name[..m]) && (stars == [] ==> m == 0)
    requires MatchItems(body, name[m..])
    ensures MatchItems(stars + body, name)
    decreases |stars|, m
  {
    if stars == [] {
      assert stars + body == body && name[0..] == name;
    } else if m > 0 {
      assert name[1..][m - 1..] == name[m..];
      assert name[1..][..m - 1] == name[1..m];
      assert name[0] == name[..m][0];
      StarsAbsorb(stars, body, name[1..], m - 1);
    } else {
      assert (stars + body)[1..] == stars[1..] + body;
      StarsAbsorb(stars[1..], body, name, 0);
    }
  }

  /** The step of `CommitMatch` that consumes the leading stars, skips `m`
      characters and matches the first chunk. */
  lemma ChunkThenRest(stars: seq<Item>, chunk: seq<Item>, rest: seq<Item>, name: string, m: nat)
    requires forall k :: 0 <= k < |stars| ==> stars[k] == Star
    requires forall k :: 0 <= k < |chunk| ==> chunk[k] != Star
    requires m <= |name| && NoSlash(name[..m]) && (stars == [] ==> m == 0)
    requires MatchChunk(chunk, name[m..]).Some?
    ensures MatchItems(rest, MatchChunk(chunk, name[m..]).value) ==> MatchItems(stars + (chunk + rest), name)
  {
    if MatchItems(rest, MatchChunk(chunk, name[m..]).value) {
      ChunkMatch(chunk, rest, name[m..]);
      StarsAbsorb(stars, chunk + rest, name, m);
    }
  }

  /** `filepath.Match` with its error folded into a non-match. */
  function Match(pattern: string, name: string): (r: bool)
    ensures Parse(pattern).None? ==> !r
    ensures r ==> MatchItems(Parse(pattern).value, name)
  {
    match Parse(pattern)
    case None => false
    case Some(items) => CommitMatch(items, name)
  }

  // ---------------------------------------------------------------------
  // Properties

  /** No character of the pattern has a special meaning. */
  predicate Plain(p: string) {
    forall i :: 0 <= i < |p| ==> p[i] !in {'*', '?', '[', '\\'}
  }

  /** The items of a plain pattern: one literal per character. */
  function Lits(p: string): (r: seq<Item>)
    ensures |r| == |p|
  {
    if p == "" then [] else [Lit(p[0])] + Lits(p[1..])
  }

  lemma {:induction false} PlainParse(p: string, i: nat)
    requires Plain(p) && i <= |p|
    ensures ParseFrom(p, i) == Some(Lits(p[i..]))
    decreases |p| - i
  {
    if i < |p| {
      PlainParse(p, i + 1);
      assert p[i] !in {'*', '?', '[', '\\'};
      assert p[i..][1..] == p[i + 1..];
    }
  }

  lemma {:induction false} LiteralItems(p: string, s: string)
    ensures MatchItems(Lits(p), s) <==> s == p
    decreases |p|
  {
    if p != [] {
      assert Lits(p)[1..] == Lits(p[1..]);
      if s != "" {
        LiteralItems(p[1..], s[1..]);
        if s[1..] == p[1..] && s[0] == p[0] {
          assert s == [s[0]] + s[1..];
          assert p == [p[0]] + p[1..];
        }
      }
    }
  }

  lemma {:induction false} LiteralChunk(p: string, s: string)
    ensures MatchChunk(Lits(p), s) == Some("") <==> s == p
    decreases |p|
  {
    if p != [] {
      var items := Lits(p);
      assert items[0] == Lit(p[0]) && items[1..] == Lits(p[1..]);
      if s != "" {
        assert MatchChunk(items, s) == if s[0] == p[0] then MatchChunk(Lits(p[1..]), s[1..]) else None;
        LiteralChunk(p[1..], s[1..]);
        assert s == [s[0]] + s[1..] && p == [p[0]] + p[1..];
      }
    }
  }

  lemma {:induction false} LitsStarFree(p: string)
    ensures forall k :: 0 <= k < |Lits(p)| ==> Lits(p)[k] == Lit(p[k])
    decreases |p|
  {
    if p != [] {
      LitsStarFree(p[1..]);
    }
  }

  /** A pattern without metacharacters matches exactly itself, and agrees
      with its language there. */
  lemma PlainMatchesItself(p: string, s: string)
    requires Plain(p)
    ensures Match(p, s) <==> s == p
    ensures Parse(p).Some? && (Match(p, s) <==> MatchItems(Parse(p).value, s))
  {
    PlainParse(p, 0);
    assert p[0..] == p;
    LiteralItems(p, s);
    LiteralChunk(p, s);
    var items := Lits(p);
    if p != [] {
      LitsStarFree(p);
      assert DropStars(items) == items;
      assert ChunkLength(items) == |items|;
      assert items[..|items|] == items && items[|items|..] == [];
      assert items[..|items| - |items|] == [];
      assert CommitMatch(items, s) == (MatchChunk(items, s) == Some(""));
    }
  }

  lemma {:induction false} StarItems(s: string)
    ensures MatchItems([Star], s) <==> NoSlash(s)
    decreases |s|
  {
    assert [Star][1..] == [];
    if s != "" {
      StarItems(s[1..]);
      if NoSlash(s[1..]) && s[0] != '/' {
        assert forall i :: 1 <= i < |s| ==> s[i] == s[1..][i - 1];
      }
    }
  }

  /** "*" matches a single path element: any name without '/'; so does
      its language. */
  lemma StarMatchesElement(s: string)
    ensures Match("*", s) <==> NoSlash(s)
    ensures MatchItems(Parse("*").value, s) <==> NoSlash(s)
  {
    var p := "*";
    assert p[0] == '*';
    assert ParseFrom(p, 1) == Some([]);
    var none: seq<Item> := [];
    assert ParseFrom(p, 0) == PrependItem(Star, Some(none));
    assert [Star] + none == [Star];
    assert PrependItem(Star, Some(none)).value == [Star];
    assert DropStars([Star]) == [];
    assert Match(p, s) == NoSlash(s);
    StarItems(s);
  }

  /** The items of "*b[^z]*c". */
  const MissedItems: seq<Item> := [Star, Lit('b'), Class(true, [('z', 'z')]), Star, Lit('c')]

  lemma MissedPatternParse()
    ensures Parse("*b[^z]*c") == Some(MissedItems)
  {
    var p := "*b[^z]*c";
    var cls := Class(true, [('z', 'z')]);
    assert p[0] == '*' && p[1] == 'b' && p[2] == '[' && p[3] == '^';
    assert p[4] == 'z' && p[5] == ']' && p[6] == '*' && p[7] == 'c' && |p| == 8;
    assert ClassChar(p, 4) == Some(('z', 5));
    var none: seq<(char, char)> := [];
    assert ClassRanges(p, 5, true) == Some((none, 6));
    assert [('z', 'z')] + none == [('z', 'z')];
    assert ClassRanges(p, 4, false) == Some(([('z', 'z')], 6));
    var empty: seq<Item> := [];
    assert ParseFrom(p, 8) == Some(empty);
    assert [Lit('c')] + empty == [Lit('c')];
    assert ParseFrom(p, 7) == Some([Lit('c')]);
    assert [Star] + [Lit('c')] == [Star, Lit('c')];
    assert ParseFrom(p, 6) == Some([Star, Lit('c')]);
    assert [cls] + [Star, Lit('c')] == [cls, Star, Lit('c')];
    assert ParseFrom(p, 2) == Some([cls, Star, Lit('c')]);
    assert [Lit('b')] + [cls, Star, Lit('c')] == [Lit('b'), cls, Star, Lit('c')];
    assert ParseFrom(p, 1) == Some([Lit('b'), cls, Star, Lit('c')]);
    assert [Star] + [Lit('b'), cls, Star, Lit('c')] == MissedItems;
  }

  /** "bb/c" is in the language: the star takes the first 'b' and the
      class takes the '/'. */
  lemma MissedNameInLanguage()
    ensures MatchItems(MissedItems, "bb/c")
  {
    var cls := Class(true, [('z', 'z')]);
    assert MatchItems([Lit('c')], "c");
    assert MatchItems([Star, Lit('c')], "c");
    assert "/c"[1..] == "c";
    assert MatchItems([cls, Star, Lit('c')], "/c");
    assert "b/c"[1..] == "/c";
    assert MatchItems(MissedItems[1..], "b/c");
    assert MatchItems(MissedItems, "b/c");
    assert "bb/c"[1..] == "b/c";
  }

  /** The first round: "b[^z]" matches "bb" where the name starts. */
  lemma MissedFirstRound()
    ensures CommitRound(MissedItems, "bb/c") == Continue([Star, Lit('c')], "/c")
  {
    var chunk := [Lit('b'), Class(true, [('z', 'z')])];
    assert DropStars(MissedItems[1..]) == MissedItems[1..];
    assert DropStars(MissedItems) == MissedItems[1..];
    assert ChunkLength(MissedItems[1..]) == 2;
    assert MissedItems[1..][..2] == chunk && MissedItems[1..][2..] == [Star, Lit('c')];
    assert "bb/c"[1..] == "b/c" && "b/c"[1..] == "/c";
    assert MatchChunk(chunk, "bb/c") == Some("/c");
  }

  /** The second round: 'c' is not at the front of "/c", and the star
      cannot skip the '/'. */
  lemma MissedSecondRound()
    ensures CommitRound([Star, Lit('c')], "/c") == Decided(false)
  {
    var tail := [Star, Lit('c')];
    assert DropStars(tail[1..]) == tail[1..];
    assert DropStars(tail) == [Lit('c')];
    assert ChunkLength([Lit('c')]) == 1;
    assert [Lit('c')][..1] == [Lit('c')] && [Lit('c')][1..] == [];
    assert MatchChunk([Lit('c')], "/c") == None;
    assert SkipTo([Lit('c')], true, "/c", 0) == None;
  }

  /** The committed search: "b[^z]" first matches "bb", and the star
      before 'c' cannot cross the '/' that is left. */
  lemma MissedNameRejected()
    ensures !CommitMatch(MissedItems, "bb/c")
  {
    MissedFirstRound();
    MissedSecondRound();
  }

  /** The committing search can miss a match: `Match` rejects "bb/c" for
      "*b[^z]*c" although the name is in the pattern's language. */
  lemma CommitMissesMatch()
    ensures Parse("*b[^z]*c").Some?
    ensures MatchItems(Parse("*b[^z]*c").value, "bb/c")
    ensures !Match("*b[^z]*c", "bb/c")
  {
    MissedPatternParse();
    MissedNameInLanguage();
    MissedNameRejected();
  }

  /** A lone '[' or a trailing '\' is malformed and matches nothing. */
  lemma MalformedPatterns(s: string)
    ensures !Match("[", s)
    ensures !Match("\\", s)
    ensures !Match("[]", s)
  {
    assert ClassChar("[", 1) == None;
    assert ParseFrom("[", 0) == None;
    assert ParseFrom("\\", 0) == None;
    assert ClassChar("[]", 1) == None;
    assert ParseFrom("[]", 0) == None;
  }
}
