/** The string helpers of Go's standard library that the modelled code calls. */
module Text {

  /** strings.IndexByte, with the length standing for "absent". */
  function IndexOf(s: string, c: char): (i: nat)
    ensures i <= |s| && c !in s[..i] && (i < |s| ==> s[i] == c)
    ensures i == |s| <==> c !in s
  {
    if s == "" || s[0] == c then 0 else
      assert s == [s[0]] + s[1..];
      var i := IndexOf(s[1..], c) + 1;
      assert s[..i] == [s[0]] + s[1..][..i - 1];
      i
  }

  /** strings.Split with a one-character separator. */
  function Split(s: string, sep: char): (parts: seq<string>)
    ensures |parts| >= 1
    decreases |s|
  {
    var i := IndexOf(s, sep);
    if i == |s| then [s] else [s[..i]] + Split(s[i + 1..], sep)
  }

  /** strings.Join with a one-character separator. */
  function Join(parts: seq<string>, sep: char): string
    requires |parts| >= 1
  {
    if |parts| == 1 then parts[0] else parts[0] + [sep] + Join(parts[1..], sep)
  }

  lemma JoinCons(p: string, rest: seq<string>, sep: char)
    requires |rest| >= 1
    ensures Join([p] + rest, sep) == p + [sep] + Join(rest, sep)
  {
    assert ([p] + rest)[1..] == rest;
  }

  lemma CutAt(s: string, i: nat)
    requires i < |s|
    ensures s == s[..i] + [s[i]] + s[i + 1..]
  {
  }

  lemma {:induction false} SplitPartsFree(s: string, sep: char)
    ensures forall p :: p in Split(s, sep) ==> sep !in p
    decreases |s|
  {
    var i := IndexOf(s, sep);
    if i < |s| { SplitPartsFree(s[i + 1..], sep); }
  }

  lemma {:induction false} FirstIndex(p: string, rest: string, sep: char)
    requires sep !in p
    ensures IndexOf(p + [sep] + rest, sep) == |p|
  {
    var s := p + [sep] + rest;
    if p != "" {
      assert s[1..] == p[1..] + [sep] + rest;
      assert p[0] in p;
      FirstIndex(p[1..], rest, sep);
    }
  }

  /** The first separator cuts off the first part. */
  lemma SplitFirst(p: string, rest: string, sep: char)
    requires sep !in p
    ensures Split(p + [sep] + rest, sep) == [p] + Split(rest, sep)
  {
    var s := p + [sep] + rest;
    FirstIndex(p, rest, sep);
    assert s[..|p|] == p && s[|p| + 1..] == rest;
  }

  lemma SplitAt(s: string, i: nat, sep: char)
    requires i == IndexOf(s, sep) < |s|
    ensures Split(s, sep) == [s[..i]] + Split(s[i + 1..], sep)
  {
    CutAt(s, i);
    SplitFirst(s[..i], s[i + 1..], sep);
  }

  lemma {:induction false} SplitJoin(parts: seq<string>, sep: char)
    requires |parts| >= 1 && forall p :: p in parts ==> sep !in p
    ensures Split(Join(parts, sep), sep) == parts
  {
    if |parts| > 1 {
      SplitJoin(parts[1..], sep);
      SplitFirst(parts[0], Join(parts[1..], sep), sep);
      assert Join(parts, sep) == parts[0] + [sep] + Join(parts[1..], sep);
    }
  }

  /** The text after the last separator. */
  function LastPart(s: string, sep: char): string {
    var parts := Split(s, sep);
    parts[|parts| - 1]
  }

  /** Splitting a concatenation: the last part of the left text runs on into the right text. */
  lemma {:induction false} SplitAppend(a: string, b: string, sep: char)
    ensures var l := Split(a, sep);
            Split(a + b, sep) == l[..|l| - 1] + Split(LastPart(a, sep) + b, sep)
    decreases |a|
  {
    var i := IndexOf(a, sep);
    if i == |a| {
      assert Split(a, sep) == [a] && [a][..0] == [];
    } else {
      var rest := a[i + 1..];
      var parts := Split(rest, sep);
      SplitAt(a, i, sep);
      SplitAppend(rest, b, sep);
      CutAppend(a, i, b);
      SplitFirst(a[..i], rest + b, sep);
      FirstAndRest(a[..i], parts);
      PrependAssociates(a[..i], parts[..|parts| - 1], Split(LastPart(rest, sep) + b, sep));
    }
  }

  lemma CutAppend(a: string, i: nat, b: string)
    requires i < |a|
    ensures a + b == a[..i] + [a[i]] + (a[i + 1..] + b)
  {
  }

  lemma FirstAndRest<T>(first: T, rest: seq<T>)
    requires rest != []
    ensures var all := [first] + rest;
            all[..|all| - 1] == [first] + rest[..|rest| - 1] && all[|all| - 1] == rest[|rest| - 1]
  {
  }

  lemma PrependAssociates<T>(x: T, s: seq<T>, t: seq<T>)
    ensures [x] + (s + t) == ([x] + s) + t
  {
  }

  predicate HasPrefix(s: string, p: string) { p <= s }

  predicate HasSuffix(s: string, p: string) {
    |p| <= |s| && s[|s| - |p|..] == p
  }

  /** strings.TrimPrefix. */
  function TrimPrefix(s: string, p: string): string {
    if p <= s then s[|p|..] else s
  }

  /** strings.TrimSuffix. */
  function TrimSuffix(s: string, p: string): string {
    if HasSuffix(s, p) then s[..|s| - |p|] else s
  }

  predicate IsSpace(c: char) {
    c == ' ' || c == '\n' || c == '\r' || c == '\t' || c == '\U{0B}' || c == '\U{0C}'
  }

  function TrimLeft(s: string): string {
    if s != "" && IsSpace(s[0]) then TrimLeft(s[1..]) else s
  }

  function TrimRight(s: string): string {
    if s != "" && IsSpace(s[|s| - 1]) then TrimRight(s[..|s| - 1]) else s
  }

  /** strings.TrimSpace, on ASCII white space. */
  function TrimSpace(s: string): string { TrimRight(TrimLeft(s)) }

  function LowerChar(c: char): char {
    if 'A' <= c <= 'Z' then c + 'a' - 'A' else c
  }

  /** strings.ToLower, on ASCII letters. */
  function ToLower(s: string): (r: string)
    ensures |r| == |s| && forall i :: 0 <= i < |s| ==> r[i] == LowerChar(s[i])
  {
    seq(|s|, i requires 0 <= i < |s| => LowerChar(s[i]))
  }

  // ---------------------------------------------------------------- what the helpers mean

  lemma HasPrefixIff(s: string, p: string)
    ensures HasPrefix(s, p) <==> exists rest :: s == p + rest
  {
    if HasPrefix(s, p) { assert s == p + s[|p|..]; }
  }

  lemma HasSuffixIff(s: string, p: string)
    ensures HasSuffix(s, p) <==> exists rest :: s == rest + p
  {
    if HasSuffix(s, p) { assert s == s[..|s| - |p|] + p; }
    if rest :| s == rest + p { assert s[|s| - |p|..] == p; }
  }

  /** The prefix is dropped once, where there is one. */
  lemma TrimPrefixIff(s: string, p: string, r: string)
    ensures TrimPrefix(s, p) == r <==> s == p + r || (s == r && forall rest :: s != p + rest)
  {
    if p <= s { assert s == p + s[|p|..]; }
    if s == p + r { assert s[|p|..] == r; }
  }

  lemma TrimSuffixIff(s: string, p: string, r: string)
    ensures TrimSuffix(s, p) == r <==> s == r + p || (s == r && forall rest :: s != rest + p)
  {
    HasSuffixIff(s, p);
    if HasSuffix(s, p) { assert s == s[..|s| - |p|] + p; }
    if s == r + p { assert s[..|s| - |p|] == r; }
  }

  /** Splitting and joining undo each other on every text. */
  lemma {:induction false} JoinOfSplit(s: string, sep: char)
    ensures Join(Split(s, sep), sep) == s
    decreases |s|
  {
    var i := IndexOf(s, sep);
    if i < |s| {
      JoinOfSplit(s[i + 1..], sep);
      JoinCons(s[..i], Split(s[i + 1..], sep), sep);
      CutAt(s, i);
    }
  }

  /** White space, a core that neither starts nor ends with white space, and white space. */
  ghost predicate CoreAt(s: string, a: int, b: int) {
    && 0 <= a <= b <= |s|
    && (forall i :: 0 <= i < a || b <= i < |s| ==> IsBlank(s[i]))
    && (a < b ==> !IsBlank(s[a]) && !IsBlank(s[b - 1]))
  }

  /** Tab, line feed, vertical tab, form feed, carriage return and space. */
  predicate IsBlank(c: char) { 9 <= c as int <= 13 || c as int == 32 }

  lemma {:induction false} TrimLeftAt(s: string) returns (a: nat)
    ensures a <= |s| && TrimLeft(s) == s[a..]
    ensures forall i :: 0 <= i < a ==> IsSpace(s[i])
    ensures a < |s| ==> !IsSpace(s[a])
  {
    a := 0;
    if s != "" && IsSpace(s[0]) {
      a := TrimLeftAt(s[1..]);
      a := a + 1;
      assert s[a..] == s[1..][a - 1..];
      assert forall i :: 1 <= i < |s| ==> s[i] == s[1..][i - 1];
    }
  }

  lemma {:induction false} TrimRightAt(s: string) returns (b: nat)
    ensures b <= |s| && TrimRight(s) == s[..b]
    ensures forall i :: b <= i < |s| ==> IsSpace(s[i])
    ensures b > 0 ==> !IsSpace(s[b - 1])
  {
    b := |s|;
    if s != "" && IsSpace(s[|s| - 1]) {
      var rest := s[..|s| - 1];
      b := TrimRightAt(rest);
      assert s[..b] == rest[..b];
    } else {
      assert s[..|s|] == s;
    }
  }

  /** strings.TrimSpace leaves the core. */
  lemma TrimSpaceCore(s: string) returns (a: nat, b: nat)
    ensures CoreAt(s, a, b) && TrimSpace(s) == s[a..b]
  {
    a := TrimLeftAt(s);
    var n := TrimRightAt(s[a..]);
    b := a + n;
    assert s[a..][..n] == s[a..b];
    assert forall i :: a <= i < |s| ==> s[i] == s[a..][i - a];
  }

  lemma CoreIsUnique(s: string, a: int, b: int, c: int, d: int)
    requires CoreAt(s, a, b) && CoreAt(s, c, d)
    ensures s[a..b] == s[c..d]
  {
  }

  /** ASCII upper-case letters move by 32; every other character stays. */
  lemma LowerCharIs(c: char)
    ensures 65 <= c as int <= 90 ==> LowerChar(c) as int == c as int + 32
    ensures !(65 <= c as int <= 90) ==> LowerChar(c) == c
  {
  }

  /** A character in small letters. */
  predicate SmallOf(c: char, small: char) {
    small as int == if 65 <= c as int <= 90 then c as int + 32 else c as int
  }

  ghost predicate ReadsAt(text: string, word: string, a: int, b: int) {
    CoreAt(text, a, b) && b - a == |word| && forall i :: 0 <= i < |word| ==> SmallOf(text[a + i], word[i])
  }

  /** The text is this word, in letters of either case and with white space around it. */
  ghost predicate ReadsAs(text: string, word: string) { exists a, b :: ReadsAt(text, word, a, b) }

  /** What is left of a text by lowering and trimming it. */
  lemma NormalTextIff(text: string, word: string)
    ensures TrimSpace(ToLower(text)) == word <==> ReadsAs(text, word)
  {
    var lower := ToLower(text);
    forall i | 0 <= i < |text|
      ensures SmallOf(text[i], lower[i]) && (IsBlank(lower[i]) <==> IsBlank(text[i]))
    {
      LowerCharIs(text[i]);
    }
    var a, b := TrimSpaceCore(lower);
    assert CoreAt(text, a, b);
    if lower[a..b] == word {
      assert forall i :: 0 <= i < |word| ==> word[i] == lower[a + i];
      assert ReadsAt(text, word, a, b);
    }
    if c, d :| ReadsAt(text, word, c, d) {
      assert CoreAt(lower, c, d);
      CoreIsUnique(lower, a, b, c, d);
      assert lower[c..d] == word;
    }
  }
}
