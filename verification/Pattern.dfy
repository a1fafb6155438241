/** Regular expressions as they are read, apart from any way of running them: what a text must look like to match. */
module Pattern {

  datatype Regex = Class(ranges: seq<(char, char)>) | Then(first: Regex, second: Regex) | Star(of: Regex)

  predicate InRange(c: char, range: (char, char)) { range.0 <= c <= range.1 }

  /** The whole text matches. */
  ghost predicate Matches(r: Regex, s: string)
    decreases r, |s|
  {
    match r
    case Class(ranges) => |s| == 1 && exists range :: range in ranges && InRange(s[0], range)
    case Then(first, second) => exists k :: 0 <= k <= |s| && Matches(first, s[..k]) && Matches(second, s[k..])
    case Star(of) => s == "" || exists k :: 0 < k <= |s| && Matches(of, s[..k]) && Matches(r, s[k..])
  }

  /** A repeated class matches exactly the texts of its characters. */
  lemma {:induction false} StarOfClassIff(ranges: seq<(char, char)>, s: string)
    ensures Matches(Star(Class(ranges)), s)
       <==> forall i :: 0 <= i < |s| ==> exists range :: range in ranges && InRange(s[i], range)
    decreases |s|
  {
    if s != "" {
      StarOfClassIff(ranges, s[1..]);
      assert s[..1] == [s[0]];
      assert forall i :: 1 <= i < |s| ==> s[i] == s[1..][i - 1];
      assert forall i :: 0 <= i < |s| - 1 ==> s[1..][i] == s[i + 1];
      assert Matches(Star(Class(ranges)), s) <==>
             Matches(Class(ranges), s[..1]) && Matches(Star(Class(ranges)), s[1..]);
    }
  }

  /** One class and then another repeated: the first character is of one, all others are of the other. */
  lemma ClassThenStarIff(first: seq<(char, char)>, rest: seq<(char, char)>, s: string)
    ensures Matches(Then(Class(first), Star(Class(rest))), s)
       <==> s != "" && (exists range :: range in first && InRange(s[0], range))
            && forall i :: 1 <= i < |s| ==> exists range :: range in rest && InRange(s[i], range)
  {
    var r := Then(Class(first), Star(Class(rest)));
    if s != "" {
      StarOfClassIff(rest, s[1..]);
      assert s[..1] == [s[0]];
      assert forall i :: 1 <= i < |s| ==> s[i] == s[1..][i - 1];
      assert forall i :: 0 <= i < |s| - 1 ==> s[1..][i] == s[i + 1];
      assert Matches(r, s) <==> Matches(Class(first), s[..1]) && Matches(Star(Class(rest)), s[1..]);
    }
  }
}
