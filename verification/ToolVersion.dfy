/** The minimum-version check: internal/tools/registry.go. */
module ToolVersion {
  import opened Decimal
  import opened Text
  import opened Order

  function Zeros(n: nat): string { seq(n, i => '0') }

  /** zeroPad. */
  function ZeroPad(s: string, width: nat): string {
    if |s| < width then Zeros(width - |s|) + s else s
  }

  /** The version's components: a leading "v" is dropped once, the rest is cut at the dots. */
  function Parts(version: string): (parts: seq<string>)
    ensures |parts| >= 1
  {
    Split(TrimPrefix(version, "v"), '.')
  }

  /** Missing components count as "0". */
  function PadTo(parts: seq<string>, n: nat): seq<string> {
    if |parts| < n then parts + seq(n - |parts|, i => "0") else parts
  }

  /** The comparing loop from component `i` on. */
  predicate AtLeastFrom(hp: seq<string>, wp: seq<string>, i: nat)
    requires |hp| == |wp| && i <= |hp|
    decreases |hp| - i
  {
    i == |hp| ||
    (var h, w := ZeroPad(hp[i], |wp[i]|), ZeroPad(wp[i], |hp[i]|);
     Less(w, h) || (!Less(h, w) && AtLeastFrom(hp, wp, i + 1)))
  }

  predicate AtLeast(have: string, want: string) {
    var hp, wp := Parts(have), Parts(want);
    var n := if |hp| < |wp| then |wp| else |hp|;
    AtLeastFrom(PadTo(hp, n), PadTo(wp, n), 0)
  }

  // ---------------------------------------------------------------- the code's loops

  method ZeroPadLoop(s: string, width: nat) returns (r: string)
    ensures r == ZeroPad(s, width)
  {
    r := s;
    while |r| < width
      invariant ZeroPad(r, width) == ZeroPad(s, width)
      decreases width - |r|
    {
      r := "0" + r;
    }
  }

  method AppendZeros(parts: seq<string>, n: nat) returns (r: seq<string>)
    ensures r == PadTo(parts, n)
  {
    r := parts;
    while |r| < n
      invariant PadTo(r, n) == PadTo(parts, n)
      decreases n - |r|
    {
      r := r + ["0"];
    }
  }

  method VersionAtLeast(have: string, want: string) returns (ok: bool)
    ensures ok <==> AtLeast(have, want)
  {
    var hp, wp := Parts(have), Parts(want);
    ghost var n := if |hp| < |wp| then |wp| else |hp|;
    ghost var hp0, wp0 := hp, wp;
    hp := AppendZeros(hp, |wp|);
    wp := AppendZeros(wp, |hp|);
    assert hp == PadTo(hp0, n) && wp == PadTo(wp0, n);
    for i := 0 to |hp|
      invariant AtLeastFrom(hp, wp, i) == AtLeastFrom(hp, wp, 0)
    {
      var h := ZeroPadLoop(hp[i], |wp[i]|);
      var w := ZeroPadLoop(wp[i], |hp[i]|);
      if Less(w, h) { return true; }
      if Less(h, w) { return false; }
    }
    ok := true;
  }

  datatype Tool = Tool(name: string, version: string)

  predicate Meets(tool: Tool, name: string, minVersion: string) {
    tool.name == name && (minVersion == "" || AtLeast(tool.version, minVersion))
  }

  /** HasTool, over the tools that could be listed. */
  method HasTool(tools: seq<Tool>, name: string, minVersion: string) returns (found: bool)
    ensures found <==> exists t :: t in tools && t.name == name && (minVersion == "" || AtLeast(t.version, minVersion))
  {
    for i := 0 to |tools|
      invariant forall j :: 0 <= j < i ==> !Meets(tools[j], name, minVersion)
    {
      found := ToolMeets(tools[i], name, minVersion);
      if found {
        assert tools[i] in tools && Meets(tools[i], name, minVersion);
        return;
      }
    }
    found := false;
  }

  /** The body of HasTool's loop. */
  method ToolMeets(tool: Tool, name: string, minVersion: string) returns (ok: bool)
    ensures ok <==> Meets(tool, name, minVersion)
  {
    if tool.name != name { return false; }
    if minVersion == "" { return true; }
    ok := VersionAtLeast(tool.version, minVersion);
  }

  // ---------------------------------------------------------------- string order is number order

  lemma {:induction false} LessLastDigit(a: string, b: string, x: char, y: char)
    requires |a| == |b|
    ensures Less(a + [x], b + [y]) <==> Less(a, b) || (a == b && x < y)
  {
    if a == "" {
      assert a + [x] == [x] && b + [y] == [y];
    } else {
      assert (a + [x])[1..] == a[1..] + [x] && (b + [y])[1..] == b[1..] + [y];
      LessLastDigit(a[1..], b[1..], x, y);
      assert a == [a[0]] + a[1..] && b == [b[0]] + b[1..];
    }
  }

  /** Digit strings of one length compare as the numbers they spell. */
  lemma {:induction false} LessIsSmaller(a: string, b: string)
    requires |a| == |b| && AllDigits(a) && AllDigits(b)
    ensures Less(a, b) <==> Value(a) < Value(b)
    ensures a == b <==> Value(a) == Value(b)
  {
    if a != "" {
      var m := |a| - 1;
      LessIsSmaller(a[..m], b[..m]);
      LessLastDigit(a[..m], b[..m], a[m], b[m]);
      assert a == a[..m] + [a[m]] && b == b[..m] + [b[m]];
    }
  }

  lemma {:induction false} ZeroPadKeepsValue(s: string, k: nat)
    requires AllDigits(s)
    ensures AllDigits(Zeros(k) + s) && Value(Zeros(k) + s) == Value(s)
    decreases k + |s|
  {
    var p := Zeros(k) + s;
    if |p| > 0 {
      if s == "" {
        assert p[..|p| - 1] == Zeros(k - 1) + "";
        ZeroPadKeepsValue("", k - 1);
      } else {
        assert p[..|p| - 1] == Zeros(k) + s[..|s| - 1];
        ZeroPadKeepsValue(s[..|s| - 1], k);
      }
    }
  }

  /** The number of component i, absent ones counting as 0. */
  function Number(parts: seq<string>, i: nat): nat
    requires forall p :: p in parts ==> AllDigits(p)
  {
    if i < |parts| then Value(parts[i]) else 0
  }

  /** Numeric versions: equal from component i up to n, or larger at the first difference. */
  predicate NumericAtLeast(hp: seq<string>, wp: seq<string>, i: nat, n: nat)
    requires forall p :: p in hp || p in wp ==> AllDigits(p)
    decreases n - i
  {
    i >= n || Number(hp, i) > Number(wp, i) || (Number(hp, i) == Number(wp, i) && NumericAtLeast(hp, wp, i + 1, n))
  }

  /** Whether all components of a version are digit strings, of whatever length, the empty one included. */
  predicate IsNumeric(version: string) { forall p :: p in Parts(version) ==> AllDigits(p) }

  lemma PadToNumber(parts: seq<string>, n: nat, i: nat)
    requires |parts| <= n && i < n && forall p :: p in parts ==> AllDigits(p)
    ensures |PadTo(parts, n)| == n && AllDigits(PadTo(parts, n)[i]) && Value(PadTo(parts, n)[i]) == Number(parts, i)
  {
    if i < |parts| {
      assert parts[i] in parts;
    } else {
      assert PadTo(parts, n)[i] == "0";
      assert "0"[..0] == "";
      assert Value("0") == 10 * Value("0"[..0]) + DigitValue('0');
    }
  }

  lemma PaddedValue(s: string, width: nat)
    requires AllDigits(s)
    ensures AllDigits(ZeroPad(s, width)) && Value(ZeroPad(s, width)) == Value(s)
    ensures |ZeroPad(s, width)| == if |s| < width then width else |s|
  {
    if |s| < width {
      ZeroPadKeepsValue(s, width - |s|);
    }
  }

  /** The two comparisons of the loop decide as the components' numbers do. */
  lemma ComponentsCompare(h: string, w: string)
    requires AllDigits(h) && AllDigits(w)
    ensures Less(ZeroPad(w, |h|), ZeroPad(h, |w|)) <==> Value(h) > Value(w)
    ensures Less(ZeroPad(h, |w|), ZeroPad(w, |h|)) <==> Value(h) < Value(w)
  {
    var a, b := ZeroPad(h, |w|), ZeroPad(w, |h|);
    PaddedValue(h, |w|);
    PaddedValue(w, |h|);
    LessIsSmaller(a, b);
    LessIsSmaller(b, a);
  }

  lemma {:induction false} NumericFrom(hp: seq<string>, wp: seq<string>, n: nat, i: nat)
    requires |hp| <= n && |wp| <= n && i <= n && forall p :: p in hp || p in wp ==> AllDigits(p)
    ensures |PadTo(hp, n)| == |PadTo(wp, n)| == n
    ensures AtLeastFrom(PadTo(hp, n), PadTo(wp, n), i) <==> NumericAtLeast(hp, wp, i, n)
    decreases n - i
  {
    if i < n {
      PadToNumber(hp, n, i);
      PadToNumber(wp, n, i);
      ComponentsCompare(PadTo(hp, n)[i], PadTo(wp, n)[i]);
      NumericFrom(hp, wp, n, i + 1);
    }
  }

  /**
   Zero-padded string comparison is numeric comparison, for versions whose components are digit strings
   of any lengths, whichever version has more of them.
   */
  lemma AtLeastIsNumeric(have: string, want: string)
    requires IsNumeric(have) && IsNumeric(want)
    ensures var hp, wp := Parts(have), Parts(want);
            AtLeast(have, want) <==> NumericAtLeast(hp, wp, 0, if |hp| < |wp| then |wp| else |hp|)
  {
    var hp, wp := Parts(have), Parts(want);
    NumericFrom(hp, wp, if |hp| < |wp| then |wp| else |hp|, 0);
  }

  // ---------------------------------------------------------------- from the version text

  /** A version as people write it: components joined with dots, with or without a leading v. */
  function VersionText(v: bool, parts: seq<string>): string
    requires parts != []
  {
    (if v then ['v'] else []) + Join(parts, '.')
  }

  predicate DigitParts(parts: seq<string>) { parts != [] && forall p :: p in parts ==> AllDigits(p) }

  function Values(parts: seq<string>): seq<nat>
    requires forall p :: p in parts ==> AllDigits(p)
  {
    seq(|parts|, i requires 0 <= i < |parts| => assert parts[i] in parts; Value(parts[i]))
  }

  function First(xs: seq<nat>): nat { if xs == [] then 0 else xs[0] }

  function Rest(xs: seq<nat>): seq<nat> { if xs == [] then [] else xs[1..] }

  /** The order of versions as lists of numbers: the first difference decides, and missing numbers are 0. */
  predicate NumbersAtLeast(xs: seq<nat>, ys: seq<nat>)
    decreases |xs| + |ys|
  {
    || (xs == [] && ys == [])
    || First(xs) > First(ys)
    || (First(xs) == First(ys) && NumbersAtLeast(Rest(xs), Rest(ys)))
  }

  lemma PartsOfText(v: bool, parts: seq<string>)
    requires DigitParts(parts)
    ensures Parts(VersionText(v, parts)) == parts
  {
    var joined := Join(parts, '.');
    forall p | p in parts ensures '.' !in p {
      assert AllDigits(p) && !IsDigit('.');
    }
    SplitJoin(parts, '.');
    if v {
      TrimPrefixIff(['v'] + joined, "v", joined);
    } else {
      assert parts[0] in parts && AllDigits(parts[0]);
      assert parts[0] != "" ==> joined[0] == parts[0][0];
      assert joined != "" ==> joined[0] == '.' || IsDigit(joined[0]);
      assert [] + joined == joined;
    }
  }

  /** The components of any text are its pieces between the dots, without one leading v. */
  lemma PartsJoin(version: string)
    ensures Join(Parts(version), '.') == if version != "" && version[0] == 'v' then version[1..] else version
    ensures forall p :: p in Parts(version) ==> '.' !in p
  {
    var text := TrimPrefix(version, "v");
    JoinOfSplit(text, '.');
    SplitPartsFree(text, '.');
  }

  /** Padding puts zeros in front, up to the width. */
  lemma ZeroPadIs(s: string, width: nat)
    ensures var r := ZeroPad(s, width);
            && |r| == (if |s| < width then width else |s|) && r[|r| - |s|..] == s
            && forall i :: 0 <= i < |r| - |s| ==> r[i] == '0'
  {
  }

  function Drop(xs: seq<nat>, i: nat): seq<nat> { if i <= |xs| then xs[i..] else [] }

  lemma {:induction false} NumericFromIsNumbers(hp: seq<string>, wp: seq<string>, i: nat, n: nat)
    requires |hp| <= n && |wp| <= n && forall p :: p in hp || p in wp ==> AllDigits(p)
    ensures NumericAtLeast(hp, wp, i, n) <==> NumbersAtLeast(Drop(Values(hp), i), Drop(Values(wp), i))
    decreases n - i
  {
    var xs, ys := Drop(Values(hp), i), Drop(Values(wp), i);
    if i < n {
      assert First(xs) == Number(hp, i) && First(ys) == Number(wp, i);
      assert Rest(xs) == Drop(Values(hp), i + 1) && Rest(ys) == Drop(Values(wp), i + 1);
      NumericFromIsNumbers(hp, wp, i + 1, n);
      if xs == [] && ys == [] {
        assert NumbersAtLeast(Rest(xs), Rest(ys));
      }
    }
  }

  /**
   Versions in digits, of any lengths, with or without a leading v on either side, compare as their lists of
   numbers.
   */
  lemma VersionsCompareAsNumbers(v: bool, have: seq<string>, w: bool, want: seq<string>)
    requires DigitParts(have) && DigitParts(want)
    ensures AtLeast(VersionText(v, have), VersionText(w, want)) <==> NumbersAtLeast(Values(have), Values(want))
  {
    PartsOfText(v, have);
    PartsOfText(w, want);
    AtLeastIsNumeric(VersionText(v, have), VersionText(w, want));
    NumericFromIsNumbers(have, want, 0, if |have| < |want| then |want| else |have|);
    assert Drop(Values(have), 0) == Values(have) && Drop(Values(want), 0) == Values(want);
  }

  function Printed(xs: seq<nat>): seq<string> { seq(|xs|, i requires 0 <= i < |xs| => PrintNat(xs[i])) }

  /** In particular the versions that print the numbers. */
  lemma PrintedVersionsCompare(v: bool, have: seq<nat>, w: bool, want: seq<nat>)
    requires have != [] && want != []
    ensures AtLeast(VersionText(v, Printed(have)), VersionText(w, Printed(want))) <==> NumbersAtLeast(have, want)
  {
    PrintedValues(have);
    PrintedValues(want);
    VersionsCompareAsNumbers(v, Printed(have), w, Printed(want));
  }

  lemma PrintedValues(xs: seq<nat>)
    ensures (forall p :: p in Printed(xs) ==> AllDigits(p)) && Values(Printed(xs)) == xs
  {
    forall i | 0 <= i < |xs| ensures Value(Printed(xs)[i]) == xs[i] {
      ValueOfPrint(xs[i]);
    }
  }

  /** On any text, a leading v makes no difference on either side, unless there is one already. */
  lemma LeadingVIgnored(a: string, b: string)
    requires a == "" || a[0] != 'v'
    ensures AtLeast(['v'] + a, b) == AtLeast(a, b) && AtLeast(b, ['v'] + a) == AtLeast(b, a)
  {
    TrimPrefixIff(['v'] + a, "v", a);
    assert forall rest :: a != "v" + rest;
    TrimPrefixIff(a, "v", a);
  }

  // ---------------------------------------------------------------- a total preorder on all strings

  /** Padding two components further than the code does changes nothing. */
  lemma WidthDoesNotMatter(a: string, b: string, width: nat)
    requires |a| <= width && |b| <= width
    ensures Less(ZeroPad(a, width), ZeroPad(b, width)) == Less(ZeroPad(a, |b|), ZeroPad(b, |a|))
  {
    var m := if |a| < |b| then |b| else |a|;
    var zeros := Zeros(width - m);
    assert ZeroPad(a, width) == zeros + ZeroPad(a, |b|);
    assert ZeroPad(b, width) == zeros + ZeroPad(b, |a|);
    LessSharedPrefix(zeros, ZeroPad(a, |b|), ZeroPad(b, |a|));
  }

  /** Component i at a common width, absent ones counting as "0". */
  function Wide(parts: seq<string>, i: nat, width: nat): string {
    ZeroPad(if i < |parts| then parts[i] else "0", width)
  }

  predicate Fits(parts: seq<string>, n: nat, width: nat) {
    |parts| <= n && 1 <= width && forall i :: 0 <= i < |parts| ==> |parts[i]| <= width
  }

  /** Lexicographic order of the widened components. */
  predicate WideAtLeast(a: seq<string>, b: seq<string>, i: nat, n: nat, width: nat)
    decreases n - i
  {
    i >= n || Less(Wide(b, i, width), Wide(a, i, width))
    || (!Less(Wide(a, i, width), Wide(b, i, width)) && WideAtLeast(a, b, i + 1, n, width))
  }

  /** Beyond both versions' ends there is nothing left to decide. */
  lemma {:induction false} WideBeyond(a: seq<string>, b: seq<string>, i: nat, n: nat, width: nat)
    requires |a| <= i && |b| <= i
    ensures WideAtLeast(a, b, i, n, width)
    decreases n - i
  {
    if i < n {
      LessAsymmetric(Wide(a, i, width), Wide(a, i, width));
      WideBeyond(a, b, i + 1, n, width);
    }
  }

  lemma {:induction false} AtLeastIsWide(hp: seq<string>, wp: seq<string>, m: nat, i: nat, n: nat, width: nat)
    requires |hp| <= m && |wp| <= m && i <= m <= n && (m == |hp| || m == |wp|)
    requires Fits(hp, n, width) && Fits(wp, n, width)
    ensures |PadTo(hp, m)| == |PadTo(wp, m)| == m
    ensures AtLeastFrom(PadTo(hp, m), PadTo(wp, m), i) == WideAtLeast(hp, wp, i, n, width)
    decreases m - i
  {
    var a, b := PadTo(hp, m), PadTo(wp, m);
    if i == m {
      WideBeyond(hp, wp, m, n, width);
    } else {
      assert a[i] == (if i < |hp| then hp[i] else "0") && b[i] == if i < |wp| then wp[i] else "0";
      WidthDoesNotMatter(a[i], b[i], width);
      WidthDoesNotMatter(b[i], a[i], width);
      AtLeastIsWide(hp, wp, m, i + 1, n, width);
    }
  }

  lemma {:induction false} WideReflexive(a: seq<string>, i: nat, n: nat, width: nat)
    ensures WideAtLeast(a, a, i, n, width)
    decreases n - i
  {
    if i < n {
      LessAsymmetric(Wide(a, i, width), Wide(a, i, width));
      WideReflexive(a, i + 1, n, width);
    }
  }

  lemma {:induction false} WideTotal(a: seq<string>, b: seq<string>, i: nat, n: nat, width: nat)
    ensures WideAtLeast(a, b, i, n, width) || WideAtLeast(b, a, i, n, width)
    decreases n - i
  {
    if i < n {
      WideTotal(a, b, i + 1, n, width);
    }
  }

  lemma {:induction false} WideTransitive(a: seq<string>, b: seq<string>, c: seq<string>, i: nat, n: nat, width: nat)
    requires WideAtLeast(a, b, i, n, width) && WideAtLeast(b, c, i, n, width)
    ensures WideAtLeast(a, c, i, n, width)
    decreases n - i
  {
    if i < n {
      var x, y, z := Wide(a, i, width), Wide(b, i, width), Wide(c, i, width);
      LessAsymmetric(x, y);
      LessAsymmetric(y, z);
      LessTransitive(z, y, x);
      LessTotal(x, y);
      LessTotal(y, z);
      LessTotal(x, z);
      if WideAtLeast(a, b, i + 1, n, width) && WideAtLeast(b, c, i + 1, n, width) {
        WideTransitive(a, b, c, i + 1, n, width);
      }
    }
  }

  function Longest(parts: seq<string>): nat {
    if parts == [] then 1
    else var rest := Longest(parts[..|parts| - 1]); if rest < |parts[|parts| - 1]| then |parts[|parts| - 1]| else rest
  }

  lemma {:induction false} LongestFits(parts: seq<string>)
    ensures Fits(parts, |parts|, Longest(parts))
  {
    if parts != [] {
      LongestFits(parts[..|parts| - 1]);
      assert forall i :: 0 <= i < |parts| - 1 ==> parts[..|parts| - 1][i] == parts[i];
    }
  }

  lemma AtLeastWidened(have: string, want: string, n: nat, width: nat)
    requires Fits(Parts(have), n, width) && Fits(Parts(want), n, width)
    ensures AtLeast(have, want) == WideAtLeast(Parts(have), Parts(want), 0, n, width)
  {
    var hp, wp := Parts(have), Parts(want);
    AtLeastIsWide(hp, wp, if |hp| < |wp| then |wp| else |hp|, 0, n, width);
  }

  /**
   On all strings, numeric or not, "at least" is reflexive, total and transitive: no set of tool versions
   can confuse it.
   */
  lemma AtLeastIsTotalPreorder(a: string, b: string, c: string)
    ensures AtLeast(a, a)
    ensures AtLeast(a, b) || AtLeast(b, a)
    ensures AtLeast(a, b) && AtLeast(b, c) ==> AtLeast(a, c)
  {
    var all := Parts(a) + Parts(b) + Parts(c);
    var n, width := |all|, Longest(all);
    LongestFits(all);
    WithinLongest(all, Parts(a), Parts(b), Parts(c), width);
    AtLeastWidened(a, a, n, width);
    AtLeastWidened(a, b, n, width);
    AtLeastWidened(b, a, n, width);
    AtLeastWidened(b, c, n, width);
    AtLeastWidened(a, c, n, width);
    WideReflexive(Parts(a), 0, n, width);
    WideTotal(Parts(a), Parts(b), 0, n, width);
    if AtLeast(a, b) && AtLeast(b, c) {
      WideTransitive(Parts(a), Parts(b), Parts(c), 0, n, width);
    }
  }

  lemma WithinLongest(all: seq<string>, a: seq<string>, b: seq<string>, c: seq<string>, width: nat)
    requires all == a + b + c && Fits(all, |all|, width)
    ensures Fits(a, |all|, width) && Fits(b, |all|, width) && Fits(c, |all|, width)
  {
    assert forall i :: 0 <= i < |a| ==> all[i] == a[i];
    assert forall i :: 0 <= i < |b| ==> all[|a| + i] == b[i];
    assert forall i :: 0 <= i < |c| ==> all[|a| + |b| + i] == c[i];
  }
}
