/** Go's string order and the sort package, shared by every module that sorts. */
module Order {

  /** Go's `a < b` on strings: the first difference decides, and a proper prefix is smaller. */
  predicate Less(a: string, b: string) {
    if b == "" then false
    else if a == "" then true
    else if a[0] != b[0] then a[0] < b[0]
    else Less(a[1..], b[1..])
  }

  predicate AtMost(a: string, b: string) {
    !Less(b, a)
  }

  lemma {:induction false} LessAsymmetric(a: string, b: string)
    ensures !(Less(a, b) && Less(b, a))
  {
    if a != "" && b != "" && a[0] == b[0] {
      LessAsymmetric(a[1..], b[1..]);
    }
  }

  lemma {:induction false} LessTotal(a: string, b: string)
    ensures Less(a, b) || Less(b, a) || a == b
  {
    if a != "" && b != "" && a[0] == b[0] {
      LessTotal(a[1..], b[1..]);
      assert a == [a[0]] + a[1..] && b == [b[0]] + b[1..];
    }
  }

  lemma {:induction false} LessTransitive(a: string, b: string, c: string)
    requires AtMost(a, b) && AtMost(b, c)
    ensures AtMost(a, c)
  {
    if a != "" && b != "" && c != "" && a[0] == b[0] == c[0] {
      LessTransitive(a[1..], b[1..], c[1..]);
    }
  }

  /** Two strings of one length compare as their first differing characters do, whatever precedes them. */
  lemma {:induction false} LessSharedPrefix(p: string, a: string, b: string)
    ensures Less(p + a, p + b) == Less(a, b)
  {
    if p == "" {
      assert p + a == a && p + b == b;
    } else {
      assert (p + a)[1..] == p[1..] + a && (p + b)[1..] == p[1..] + b;
      LessSharedPrefix(p[1..], a, b);
    }
  }

  ghost predicate TotalPreorder<T(!new)>(le: (T, T) -> bool) {
    && (forall a, b :: le(a, b) || le(b, a))
    && (forall a, b, c :: le(a, b) && le(b, c) ==> le(a, c))
  }

  ghost predicate Antisymmetric<T(!new)>(le: (T, T) -> bool) {
    forall a, b :: le(a, b) && le(b, a) ==> a == b
  }

  ghost predicate SortedBy<T>(le: (T, T) -> bool, s: seq<T>) {
    forall i, j :: 0 <= i < j < |s| ==> le(s[i], s[j])
  }

  lemma AtMostIsTotalOrder()
    ensures TotalPreorder(AtMost) && Antisymmetric(AtMost)
  {
    forall a: string, b: string ensures AtMost(a, b) || AtMost(b, a) { LessAsymmetric(a, b); }
    forall a: string, b: string | AtMost(a, b) && AtMost(b, a) ensures a == b { LessTotal(a, b); }
    forall a: string, b: string, c: string | AtMost(a, b) && AtMost(b, c) ensures AtMost(a, c) {
      LessTransitive(a, b, c);
    }
  }

  function Insert<T>(le: (T, T) -> bool, x: T, s: seq<T>): (r: seq<T>)
    ensures multiset(r) == multiset(s) + multiset{x}
  {
    if s == [] || le(x, s[0]) then [x] + s
    else
      assert s == [s[0]] + s[1..];
      [s[0]] + Insert(le, x, s[1..])
  }

  lemma {:induction false} InsertKeepsSorted<T(!new)>(le: (T, T) -> bool, x: T, s: seq<T>)
    requires TotalPreorder(le) && SortedBy(le, s)
    ensures SortedBy(le, Insert(le, x, s))
  {
    var r := Insert(le, x, s);
    if s != [] && le(x, s[0]) {
      forall i | 0 <= i < |s| ensures le(x, s[i]) {
        SortedHead(le, s, s[i]);
      }
    } else if s != [] {
      var rest := Insert(le, x, s[1..]);
      InsertKeepsSorted(le, x, s[1..]);
      forall i | 0 <= i < |rest| ensures le(s[0], rest[i]) {
        assert rest[i] in multiset(s[1..]) + multiset{x} by { assert rest[i] in multiset(rest); }
        if rest[i] != x {
          SortedHead(le, s, rest[i]);
        }
      }
    }
  }

  /** sort.Slice and sort.Strings. Callers use only the contract: a sorted permutation. */
  function Sort<T(!new)>(le: (T, T) -> bool, s: seq<T>): (r: seq<T>)
    requires TotalPreorder(le)
    ensures SortedBy(le, r) && multiset(r) == multiset(s)
  {
    if s == [] then []
    else
      assert s == [s[0]] + s[1..];
      InsertKeepsSorted(le, s[0], Sort(le, s[1..]));
      Insert(le, s[0], Sort(le, s[1..]))
  }

  lemma SortedHead<T(!new)>(le: (T, T) -> bool, a: seq<T>, x: T)
    requires TotalPreorder(le) && SortedBy(le, a) && x in a
    ensures le(a[0], x)
  {
    var i :| 0 <= i < |a| && a[i] == x;
    assert le(x, x);
  }

  /** A total order leaves the sort no choice. */
  lemma {:induction false} SortedUnique<T(!new)>(le: (T, T) -> bool, a: seq<T>, b: seq<T>)
    requires TotalPreorder(le) && Antisymmetric(le)
    requires SortedBy(le, a) && SortedBy(le, b) && multiset(a) == multiset(b)
    ensures a == b
  {
    PermutationMembers(a, b);
    if a != [] {
      SortedHead(le, a, b[0]);
      SortedHead(le, b, a[0]);
      assert a[0] == b[0];
      WithoutHead(a);
      WithoutHead(b);
      SortedUnique(le, a[1..], b[1..]);
      assert a == [a[0]] + a[1..] && b == [b[0]] + b[1..];
    }
  }

  lemma WithoutHead<T>(s: seq<T>)
    requires s != []
    ensures multiset(s[1..]) == multiset(s) - multiset{s[0]}
  {
    assert s == [s[0]] + s[1..];
  }

  /** The elements of a sorted permutation are the elements of the original. */
  lemma PermutationMembers<T>(a: seq<T>, b: seq<T>)
    requires multiset(a) == multiset(b)
    ensures |a| == |b| && forall x :: x in a <==> x in b
  {
    assert |a| == |multiset(a)| == |multiset(b)| == |b|;
    forall x ensures x in a <==> x in b {
      assert x in a <==> x in multiset(a);
      assert x in b <==> x in multiset(b);
    }
  }

  /** The names of a set in ascending order, as a sorted listing shows them. */
  function SortedNames(names: set<string>): (r: seq<string>)
    ensures SortedBy(AtMost, r)
    ensures forall x :: x in r <==> x in names
    ensures forall i, j :: 0 <= i < j < |r| ==> r[i] != r[j]
  {
    if names == {} then []
    else
      var x := Least(names);
      [x] + SortedNames(names - {x})
  }

  function Least(names: set<string>): (x: string)
    requires names != {}
    ensures x in names && forall y :: y in names ==> AtMost(x, y)
  {
    LeastExists(names);
    LeastUnique();
    var x :| x in names && forall y :: y in names ==> AtMost(x, y);
    x
  }

  /** A strictly ascending listing is determined by what it lists. */
  lemma ListingUnique(a: seq<string>, b: seq<string>)
    requires SortedBy(AtMost, a) && forall i, j :: 0 <= i < j < |a| ==> a[i] != a[j]
    requires SortedBy(AtMost, b) && forall i, j :: 0 <= i < j < |b| ==> b[i] != b[j]
    requires forall x :: x in a <==> x in b
    ensures a == b
  {
    NoDuplicatesIsSet(a);
    NoDuplicatesIsSet(b);
    assert (set x | x in a) == (set x | x in b);
    AtMostIsTotalOrder();
    SortedUnique(AtMost, a, b);
  }

  lemma {:induction false} NoDuplicatesIsSet(s: seq<string>)
    requires forall i, j :: 0 <= i < j < |s| ==> s[i] != s[j]
    ensures multiset(s) == multiset(set x | x in s)
  {
    if s != [] {
      var m := |s| - 1;
      NoDuplicatesIsSet(s[..m]);
      assert s == s[..m] + [s[m]];
      assert (set x | x in s) == (set x | x in s[..m]) + {s[m]};
      assert s[m] !in s[..m];
    }
  }

  /** Sorting any listing of a set gives its one sorted listing, whatever order it was listed in. */
  lemma SortedListing(listed: seq<string>, names: set<string>)
    requires forall i, j :: 0 <= i < j < |listed| ==> listed[i] != listed[j]
    requires forall x :: x in listed <==> x in names
    ensures TotalPreorder(AtMost) && Sort(AtMost, listed) == SortedNames(names)
  {
    AtMostIsTotalOrder();
    var sorted := SortedNames(names);
    NoDuplicatesIsSet(listed);
    NoDuplicatesIsSet(sorted);
    assert (set x | x in listed) == names == (set x | x in sorted);
    SortedUnique(AtMost, Sort(AtMost, listed), sorted);
  }

  lemma LeastUnique()
    ensures forall x: string, y: string :: AtMost(x, y) && AtMost(y, x) ==> x == y
  {
    AtMostIsTotalOrder();
  }

  lemma {:induction false} LeastExists(names: set<string>)
    requires names != {}
    ensures exists x :: x in names && forall y :: y in names ==> AtMost(x, y)
    decreases |names|
  {
    var z :| z in names;
    LessAsymmetric(z, z);
    if names == {z} {
      assert AtMost(z, z);
    } else {
      LeastExists(names - {z});
      var x :| x in names - {z} && forall y :: y in names - {z} ==> AtMost(x, y);
      LeastOfTwo(names, z, x);
    }
  }

  lemma LeastOfTwo(names: set<string>, z: string, x: string)
    requires z in names && x in names && forall y :: y in names - {z} ==> AtMost(x, y)
    ensures exists w :: w in names && forall y :: y in names ==> AtMost(w, y)
  {
    LessAsymmetric(x, z);
    LessAsymmetric(z, z);
    var w := if AtMost(x, z) then x else z;
    forall y | y in names ensures AtMost(w, y) {
      if w == z && y != z {
        LessTransitive(z, x, y);
      }
    }
  }

  // ---------------------------------------------------------------- what the order means

  /** The strings agree up to n; there the first ends, or has the smaller character. */
  ghost predicate SmallerAt(a: string, b: string, n: int) {
    0 <= n <= |a| && n < |b| && a[..n] == b[..n] && (n == |a| || a[n] < b[n])
  }

  /** A string is smaller exactly if it is a proper prefix, or has the smaller character where they first differ. */
  lemma {:induction false} LessIff(a: string, b: string)
    ensures Less(a, b) <==> exists n :: SmallerAt(a, b, n)
  {
    if a == "" && b != "" {
      assert SmallerAt(a, b, 0);
    } else if a != "" && b != "" && a[0] != b[0] {
      assert Less(a, b) ==> SmallerAt(a, b, 0);
      forall n ensures n > 0 ==> !SmallerAt(a, b, n) {
        if 0 < n <= |a| && n < |b| { assert a[..n][0] == a[0] && b[..n][0] == b[0]; }
      }
    } else if a != "" && b != "" {
      LessIff(a[1..], b[1..]);
      if n :| SmallerAt(a[1..], b[1..], n) {
        assert a[..n + 1] == [a[0]] + a[1..][..n] && b[..n + 1] == [b[0]] + b[1..][..n];
        assert SmallerAt(a, b, n + 1);
      }
      if n :| SmallerAt(a, b, n) {
        assert n > 0;
        assert a[..n][1..] == a[1..][..n - 1] && b[..n][1..] == b[1..][..n - 1];
        assert SmallerAt(a[1..], b[1..], n - 1);
      }
    }
  }
}
