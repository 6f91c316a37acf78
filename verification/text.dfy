/** ASCII string helpers used across the model, standing in for Go's
    `strings` and `strconv` packages. A Go string is a byte string; the model
    lets each `char` stand for one byte. Whitespace and case are ASCII only. */
module Text {
  import opened Results

  /** Go's `unicode.IsSpace` restricted to ASCII. */
  predicate IsSpace(c: char) {
    c == ' ' || c == '\t' || c == '\n' || c == '\r' || c == '\U{0B}' || c == '\U{0C}'
  }

  function LowerChar(c: char): char {
    if 'A' <= c <= 'Z' then (c as int + 32) as char else c
  }

  /** Every character of `r` is the lower-case form of the one in `s` at the same place. */
  predicate LowersTo(s: string, r: string) {
    |r| == |s| && forall i :: 0 <= i < |s| ==> r[i] == LowerChar(s[i])
  }

  /** `strings.ToLower` on ASCII. */
  function Lower(s: string): (r: string)
    ensures |r| == |s|
    ensures LowersTo(s, r)
  {
    seq(|s|, i requires 0 <= i < |s| => LowerChar(s[i]))
  }

  lemma LowerIdempotent(s: string)
    ensures Lower(Lower(s)) == Lower(s)
  {
  }

  /** `strings.HasPrefix`. */
  predicate HasPrefix(s: string, p: string) {
    p <= s
  }

  /** `strings.HasSuffix`. */
  predicate HasSuffix(s: string, p: string) {
    |p| <= |s| && s[|s| - |p|..] == p
  }

  predicate OccursAt(s: string, sub: string, i: int) {
    0 <= i && i + |sub| <= |s| && s[i..i + |sub|] == sub
  }

  /** The middle of a three-part concatenation occurs right after the first part. */
  lemma OccursInMiddle(a: string, b: string, c: string)
    ensures OccursAt(a + b + c, b, |a|)
  {
    assert (a + b + c)[|a|..|a| + |b|] == b;
  }

  /** The first offset at which `sub` occurs in `s` (`strings.Index`). */
  function IndexOf(s: string, sub: string): (r: Option<nat>)
    ensures r.Some? ==> OccursAt(s, sub, r.value)
    ensures r.Some? ==> forall j :: 0 <= j < r.value ==> !OccursAt(s, sub, j)
    ensures r.None? ==> forall j :: 0 <= j ==> !OccursAt(s, sub, j)
    decreases |s|
  {
    if |sub| > |s| then None
    else if s[..|sub|] == sub then Some(0)
    else
      match IndexOf(s[1..], sub)
      case None =>
        assert forall j :: 1 <= j ==> (OccursAt(s, sub, j) <==> OccursAt(s[1..], sub, j - 1));
        None
      case Some(k) =>
        assert forall j :: 1 <= j ==> (OccursAt(s, sub, j) <==> OccursAt(s[1..], sub, j - 1));
        Some(k + 1)
  }

  /** `strings.Contains`. */
  predicate Contains(s: string, sub: string) {
    IndexOf(s, sub).Some?
  }

  lemma ContainsIff(s: string, sub: string)
    ensures Contains(s, sub) <==> exists j :: OccursAt(s, sub, j)
  {
  }

  lemma ContainsWitness(s: string, sub: string, j: int)
    requires OccursAt(s, sub, j)
    ensures Contains(s, sub)
  {
  }

  /** Membership in a list of strings, one entry at a time. */
  predicate Listed(x: string, list: seq<string>)
    ensures Listed(x, list) <==> x in list
  {
    list != [] && (x == list[0] || Listed(x, list[1..]))
  }

  /** `strings.Replace(s, old, new, 1)`: replace the first occurrence only;
      an empty `old` matches at the beginning of `s`. */
  function ReplaceFirst(s: string, target: string, repl: string): (r: string)
    ensures target == "" ==> r == repl + s
    ensures target != "" && !Contains(s, target) ==> r == s
    ensures target != "" && Contains(s, target) ==>
      var i := IndexOf(s, target).value;
      r == s[..i] + repl + s[i + |target|..]
  {
    if target == "" then repl + s
    else
      match IndexOf(s, target)
      case None => s
      case Some(i) => s[..i] + repl + s[i + |target|..]
  }

  // ---------------------------------------------------------------------
  // Trimming

  /** `r` is `s` with only white space removed before offset `a` and after `r`. */
  predicate StripsTo(s: string, r: string, a: int) {
    && 0 <= a <= |s| - |r|
    && r == s[a..a + |r|]
    && (forall i :: 0 <= i < a ==> IsSpace(s[i]))
    && (forall i :: a + |r| <= i < |s| ==> IsSpace(s[i]))
  }

  /** `r` is an infix of `s` with only white space around it. */
  ghost predicate Strips(s: string, r: string) {
    exists a :: StripsTo(s, r, a)
  }

  lemma StripsFirst(s: string, r: string)
    requires s != [] && IsSpace(s[0]) && Strips(s[1..], r)
    ensures Strips(s, r)
  {
    var a :| StripsTo(s[1..], r, a);
    assert s[1..][a..a + |r|] == s[a + 1..a + 1 + |r|];
    assert forall i :: 1 <= i < |s| ==> s[i] == s[1..][i - 1];
    assert StripsTo(s, r, a + 1);
  }

  lemma StripsLast(s: string, r: string)
    requires s != [] && IsSpace(s[|s| - 1]) && Strips(s[..|s| - 1], r)
    ensures Strips(s, r)
  {
    var a :| StripsTo(s[..|s| - 1], r, a);
    assert s[..|s| - 1][a..a + |r|] == s[a..a + |r|];
    assert StripsTo(s, r, a);
  }

  /** `strings.TrimSpace`: the longest infix of `s` that neither starts nor
      ends with white space, obtained by removing only white space. */
  function TrimSpace(s: string): (r: string)
    ensures Strips(s, r)
    ensures Trimmed(r)
    decreases |s|
  {
    if s != [] && IsSpace(s[0]) then
      var r := TrimSpace(s[1..]);
      StripsFirst(s, r);
      r
    else if s != [] && IsSpace(s[|s| - 1]) then
      var r := TrimSpace(s[..|s| - 1]);
      StripsLast(s, r);
      r
    else
      assert StripsTo(s, s, 0);
      s
  }

  predicate Trimmed(s: string) {
    s == "" || (!IsSpace(s[0]) && !IsSpace(s[|s| - 1]))
  }

  lemma TrimSpaceOfTrimmed(s: string)
    requires Trimmed(s)
    ensures TrimSpace(s) == s
  {
  }

  /** A field value written after "NAME: " reads back unchanged. */
  lemma TrimSpaceAfterBlank(v: string)
    requires Trimmed(v)
    ensures TrimSpace(" " + v) == v
  {
    assert (" " + v)[1..] == v;
    TrimSpaceOfTrimmed(v);
  }

  lemma TrimSpaceIdempotent(s: string)
    ensures TrimSpace(TrimSpace(s)) == TrimSpace(s)
  {
    TrimSpaceOfTrimmed(TrimSpace(s));
  }

  // ---------------------------------------------------------------------
  // Splitting and joining on one separator character

  predicate NoChar(s: string, c: char) {
    forall i :: 0 <= i < |s| ==> s[i] != c
  }

  lemma NoCharAppend(a: string, b: string, c: char)
    requires NoChar(a, c) && NoChar(b, c)
    ensures NoChar(a + b, c)
  {
    assert forall k :: 0 <= k < |a + b| ==> (a + b)[k] == if k < |a| then a[k] else b[k - |a|];
  }

  function IndexOfChar(s: string, c: char): (r: Option<nat>)
    ensures r.Some? ==> r.value < |s| && s[r.value] == c && NoChar(s[..r.value], c)
    ensures r.None? ==> NoChar(s, c)
  {
    if s == [] then None
    else if s[0] == c then Some(0)
    else
      match IndexOfChar(s[1..], c)
      case None => None
      case Some(k) => assert s[..k + 1] == [s[0]] + s[1..][..k]; Some(k + 1)
  }

  /** `strings.Split(s, sep)` for a one-character separator: never empty,
      and the pieces never contain the separator. */
  function Split(s: string, c: char): (r: seq<string>)
    ensures |r| >= 1
    ensures forall k :: 0 <= k < |r| ==> NoChar(r[k], c)
    decreases |s|
  {
    match IndexOfChar(s, c)
    case None => [s]
    case Some(i) => [s[..i]] + Split(s[i + 1..], c)
  }

  /** `strings.Join(parts, sep)`. */
  function Join(parts: seq<string>, sep: string): string {
    if parts == [] then ""
    else if |parts| == 1 then parts[0]
    else parts[0] + sep + Join(parts[1..], sep)
  }

  function SplitLines(s: string): seq<string> {
    Split(s, '\n')
  }

  function JoinLines(lines: seq<string>): string {
    Join(lines, "\n")
  }

  lemma {:induction false} JoinSplit(s: string, c: char)
    ensures Join(Split(s, c), [c]) == s
    decreases |s|
  {
    match IndexOfChar(s, c)
    case None =>
    case Some(i) =>
      var rest := Split(s[i + 1..], c);
      JoinSplit(s[i + 1..], c);
      assert Split(s, c) == [s[..i]] + rest;
      assert s == s[..i] + [c] + s[i + 1..];
  }

  lemma {:induction false} SplitJoin(parts: seq<string>, c: char)
    requires |parts| >= 1
    requires forall k :: 0 <= k < |parts| ==> NoChar(parts[k], c)
    ensures Split(Join(parts, [c]), c) == parts
    decreases |parts|
  {
    var s := Join(parts, [c]);
    if |parts| == 1 {
      assert IndexOfChar(s, c).None?;
    } else {
      var tail := Join(parts[1..], [c]);
      assert s == parts[0] + [c] + tail;
      var p := parts[0];
      assert s[|p|] == c && s[..|p|] == p;
      IndexOfCharAfter(p, c, tail);
      assert s[|p| + 1..] == tail;
      SplitJoin(parts[1..], c);
    }
  }

  lemma {:induction false} IndexOfCharAfter(p: string, c: char, t: string)
    requires NoChar(p, c)
    ensures IndexOfChar(p + [c] + t, c) == Some(|p|)
    decreases |p|
  {
    if p != [] {
      assert (p + [c] + t)[1..] == p[1..] + [c] + t;
      IndexOfCharAfter(p[1..], c, t);
    }
  }

  /** Splitting at a separator splits the two sides independently. */
  /** A string without the separator is its own single piece. */
  lemma SplitWhole(s: string, c: char)
    requires NoChar(s, c)
    ensures Split(s, c) == [s]
  {
  }

  lemma {:induction false} SplitAppend(a: string, c: char, b: string)
    ensures Split(a + [c] + b, c) == Split(a, c) + Split(b, c)
    decreases |a|
  {
    var s := a + [c] + b;
    match IndexOfChar(a, c)
    case None =>
      IndexOfCharAfter(a, c, b);
      assert s[|a| + 1..] == b;
      assert s[..|a|] == a;
      assert Split(s, c) == [a] + Split(b, c);
    case Some(i) =>
      assert IndexOfChar(s, c) == Some(i) by {
        assert s[..i] == a[..i];
        IndexOfCharAfter(a[..i], c, a[i + 1..] + [c] + b);
        assert a[..i] + [c] + (a[i + 1..] + [c] + b) == s;
      }
      assert s[..i] == a[..i];
      assert s[i + 1..] == a[i + 1..] + [c] + b;
      SplitAppend(a[i + 1..], c, b);
  }

  lemma JoinStartsWithFirst(parts: seq<string>, sep: string)
    requires |parts| >= 1
    ensures HasPrefix(Join(parts, sep), parts[0])
  {
  }

  /** Joining non-empty trimmed lines gives a trimmed text. */
  lemma {:induction false} JoinTrimmed(parts: seq<string>, sep: string)
    requires |parts| >= 1
    requires forall k :: 0 <= k < |parts| ==> parts[k] != "" && Trimmed(parts[k])
    ensures Trimmed(Join(parts, sep))
    ensures |Join(parts, sep)| >= |parts[|parts| - 1]|
    ensures Join(parts, sep)[|Join(parts, sep)| - 1] == parts[|parts| - 1][|parts[|parts| - 1]| - 1]
    decreases |parts|
  {
    if |parts| > 1 {
      JoinTrimmed(parts[1..], sep);
      var rest := Join(parts[1..], sep);
      assert Join(parts, sep) == parts[0] + sep + rest;
    }
  }

  lemma {:induction false} JoinAppend(a: seq<string>, b: seq<string>, sep: string)
    requires |a| >= 1 && |b| >= 1
    ensures Join(a + b, sep) == Join(a, sep) + sep + Join(b, sep)
    decreases |a|
  {
    if |a| == 1 {
      assert (a + b)[1..] == b;
    } else {
      assert (a + b)[1..] == a[1..] + b;
      JoinAppend(a[1..], b, sep);
    }
  }

  // ---------------------------------------------------------------------
  // Whitespace-separated fields

  function TokenLength(s: string): (n: nat)
    ensures n <= |s|
    ensures forall i :: 0 <= i < n ==> !IsSpace(s[i])
    ensures n == |s| || IsSpace(s[n])
    ensures s != [] && !IsSpace(s[0]) ==> n > 0
  {
    if s == [] || IsSpace(s[0]) then 0 else 1 + TokenLength(s[1..])
  }

  predicate NoSpace(s: string) {
    forall i :: 0 <= i < |s| ==> !IsSpace(s[i])
  }

  /** A tab-separated line of tokens holds no line break. */
  lemma TabbedNoBreak(a: string, b: string)
    requires NoChar(a, '\n') && NoSpace(b)
    ensures NoChar(a + "\t" + b, '\n')
  {
    NoCharAppend(a, "\t", '\n');
    NoCharAppend(a + "\t", b, '\n');
  }

  /** `strings.Fields`: the maximal runs of non-space characters, in order. */
  function Fields(s: string): (r: seq<string>)
    ensures forall k :: 0 <= k < |r| ==> r[k] != "" && NoSpace(r[k])
    decreases |s|
  {
    if s == [] then []
    else if IsSpace(s[0]) then Fields(s[1..])
    else
      var n := TokenLength(s);
      var word := s[..n];
      assert word != "" && NoSpace(word);
      var rest := Fields(s[n..]);
      assert forall k :: 0 < k < |rest| + 1 ==> ([word] + rest)[k] == rest[k - 1];
      [word] + rest
  }

  lemma {:induction false} TokenLengthOf(w: string, rest: string)
    requires NoSpace(w)
    requires rest == "" || IsSpace(rest[0])
    ensures TokenLength(w + rest) == |w|
    decreases |w|
  {
    if w != [] {
      assert (w + rest)[1..] == w[1..] + rest;
      TokenLengthOf(w[1..], rest);
    } else {
      assert w + rest == rest;
    }
  }

  lemma FieldsOfToken(w: string)
    requires w != "" && NoSpace(w)
    ensures Fields(w) == [w]
  {
    TokenLengthOf(w, "");
    assert w + "" == w;
    assert w[|w|..] == [];
  }

  /** Two tokens separated by one white-space character form two fields. */
  lemma FieldsPrepend(w: string, sp: char, rest: string)
    requires w != "" && NoSpace(w) && IsSpace(sp)
    ensures Fields(w + [sp] + rest) == [w] + Fields(rest)
  {
    var s := w + [sp] + rest;
    assert s[0] == w[0];
    var n := TokenLength(s);
    TokenLengthOf(w, [sp] + rest);
    assert s == w + ([sp] + rest);
    assert s[..n] == w;
    var t := s[n..];
    assert t == [sp] + rest;
    assert t[1..] == rest;
  }

  lemma Assoc<T>(x: seq<T>, y: seq<T>, z: seq<T>)
    ensures x + y + z == x + (y + z)
  {
  }

  /** Two tokens separated by a tab are two fields. */
  lemma FieldsOfTwo(a: string, b: string)
    requires a != "" && NoSpace(a) && b != "" && NoSpace(b)
    ensures Fields(a + "\t" + b) == [a, b]
  {
    FieldsOfToken(b);
    FieldsPrepend(a, '\t', b);
  }

  /** Three tokens separated by tabs are three fields. */
  lemma FieldsOfThree(a: string, b: string, c: string)
    requires a != "" && NoSpace(a) && b != "" && NoSpace(b) && c != "" && NoSpace(c)
    ensures Fields(a + "\t" + b + "\t" + c) == [a, b, c]
  {
    FieldsOfTwo(b, c);
    var t: string := "\t";
    Assoc(a + t + b, t, c);
    Assoc(a + t, b, t + c);
    Assoc(b, t, c);
    assert a + t + b + t + c == a + t + (b + t + c);
    FieldsPrepend(a, '\t', b + t + c);
  }

  // ---------------------------------------------------------------------
  // Decimal integers (`strconv.Atoi` / `strconv.Itoa`)

  predicate IsDigit(c: char) {
    '0' <= c <= '9'
  }

  function DigitValue(c: char): nat
    requires IsDigit(c)
  {
    c as int - '0' as int
  }

  function DigitChar(d: nat): (c: char)
    requires d < 10
    ensures IsDigit(c) && DigitValue(c) == d
  {
    ('0' as int + d) as char
  }

  predicate AllDigits(s: string) {
    forall i :: 0 <= i < |s| ==> IsDigit(s[i])
  }

  function DigitsValue(s: string): nat
    requires AllDigits(s)
  {
    if s == [] then 0 else 10 * DigitsValue(s[..|s| - 1]) + DigitValue(s[|s| - 1])
  }

  /** The smallest and largest values of Go's 64-bit `int`. */
  const MinInt64: int := -0x8000_0000_0000_0000
  const MaxInt64: int := 0x7FFF_FFFF_FFFF_FFFF

  predicate InInt64(n: int) {
    MinInt64 <= n <= MaxInt64
  }

  /** `strconv.Atoi`: an optional sign followed by at least one decimal
      digit, within the range of a 64-bit `int`; anything else is an error. */
  function Atoi(s: string): (r: Option<int>)
    ensures r.Some? ==> InInt64(r.value)
    ensures s == "" ==> r.None?
  {
    var signed := s != [] && (s[0] == '+' || s[0] == '-');
    var digits := if signed then s[1..] else s;
    if digits == [] || !AllDigits(digits) then None
    else
      var magnitude := DigitsValue(digits);
      var v: int := if signed && s[0] == '-' then -(magnitude as int) else magnitude;
      if InInt64(v) then Some(v) else None
  }

  function NatToDigits(n: nat): (s: string)
    ensures s != [] && AllDigits(s)
    ensures DigitsValue(s) == n
  {
    if n < 10 then [DigitChar(n)]
    else
      var s := NatToDigits(n / 10) + [DigitChar(n % 10)];
      assert s[..|s| - 1] == NatToDigits(n / 10);
      s
  }

  /** `strconv.Itoa`. */
  function Itoa(n: int): (s: string)
    ensures s != [] && Trimmed(s) && NoSpace(s)
  {
    if n < 0 then "-" + NatToDigits(-n) else NatToDigits(n)
  }

  lemma AtoiItoa(n: int)
    requires InInt64(n)
    ensures Atoi(Itoa(n)) == Some(n)
  {
    if n < 0 {
      assert Itoa(n)[1..] == NatToDigits(-n);
    } else {
      var s := NatToDigits(n);
      assert s[0] != '+' && s[0] != '-' by { assert IsDigit(s[0]); }
    }
  }
}
