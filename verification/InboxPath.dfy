/**
 Lexical resolution of inbox paths: resolveInboxPath of internal/files/handlers.go. The string prefix test
 is proved against a test on path components. Paths are Unix paths: the separator is a slash.
 */
module InboxPath {
  import opened Text
  import opened Wrappers

  // ---------------------------------------------------------------- components

  predicate IsDot(c: string) { |c| == 1 && c[0] == '.' }

  predicate IsDotDot(c: string) { |c| == 2 && c[0] == '.' && c[1] == '.' }

  predicate IsName(c: string) { c != "" && '/' !in c && !IsDot(c) && !IsDotDot(c) }

  predicate IsAbs(path: string) { path != "" && path[0] == '/' }

  /** One component applied to the components so far: `..` removes a name, is dropped at the root, or stays. */
  function Enter(rooted: bool, stack: seq<string>, c: string): seq<string> {
    if c == "" || IsDot(c) then stack
    else if !IsDotDot(c) then stack + [c]
    else if stack != [] && !IsDotDot(stack[|stack| - 1]) then stack[..|stack| - 1]
    else if rooted then stack
    else stack + [c]
  }

  function Walk(rooted: bool, stack: seq<string>, parts: seq<string>): seq<string>
    decreases |parts|
  {
    if parts == [] then stack else Walk(rooted, Enter(rooted, stack, parts[0]), parts[1..])
  }

  /** The components a path resolves to, without looking at any file system. */
  function Resolve(path: string): seq<string> { Walk(IsAbs(path), [], Split(path, '/')) }

  /** Names only below a root; above them only leading `..` when there is none. */
  ghost predicate IsClean(rooted: bool, stack: seq<string>) {
    && (forall i :: 0 <= i < |stack| ==> IsName(stack[i]) || (!rooted && IsDotDot(stack[i])))
    && (forall i, j :: 0 <= i < j < |stack| && IsDotDot(stack[j]) ==> IsDotDot(stack[i]))
  }

  /** filepath.Clean's result for resolved components. */
  function Print(rooted: bool, stack: seq<string>): string {
    if stack == [] then (if rooted then ['/'] else ['.'])
    else (if rooted then ['/'] else []) + Join(stack, '/')
  }

  function Clean(path: string): string { Print(IsAbs(path), Resolve(path)) }

  /** filepath.Join of two elements: empty ones are ignored. */
  function JoinPath(a: string, b: string): string {
    if a == "" && b == "" then ""
    else if a == "" then Clean(b)
    else if b == "" then Clean(a)
    else Clean(a + ['/'] + b)
  }

  lemma EnterKeepsClean(rooted: bool, stack: seq<string>, c: string)
    requires IsClean(rooted, stack) && '/' !in c
    ensures IsClean(rooted, Enter(rooted, stack, c))
  {
  }

  lemma {:induction false} WalkKeepsClean(rooted: bool, stack: seq<string>, parts: seq<string>)
    requires IsClean(rooted, stack) && forall p :: p in parts ==> '/' !in p
    ensures IsClean(rooted, Walk(rooted, stack, parts))
    decreases |parts|
  {
    if parts != [] {
      assert parts[0] in parts;
      EnterKeepsClean(rooted, stack, parts[0]);
      WalkKeepsClean(rooted, Enter(rooted, stack, parts[0]), parts[1..]);
    }
  }

  /** What any path resolves to is clean: below a root no empty, `.` or `..` component is left. */
  lemma ResolvedIsClean(path: string)
    ensures IsClean(IsAbs(path), Resolve(path))
  {
    SplitPartsFree(path, '/');
    WalkKeepsClean(IsAbs(path), [], Split(path, '/'));
  }

  lemma {:induction false} WalkInParts(rooted: bool, stack: seq<string>, a: seq<string>, b: seq<string>)
    ensures Walk(rooted, stack, a + b) == Walk(rooted, Walk(rooted, stack, a), b)
    decreases |a|
  {
    if a == [] {
      assert a + b == b;
    } else {
      assert (a + b)[1..] == a[1..] + b && (a + b)[0] == a[0];
      WalkInParts(rooted, Enter(rooted, stack, a[0]), a[1..], b);
    }
  }

  /** Walking clean components rebuilds them. */
  lemma {:induction false} WalkOfClean(rooted: bool, done: seq<string>, rest: seq<string>)
    requires IsClean(rooted, done + rest)
    ensures Walk(rooted, done, rest) == done + rest
    decreases |rest|
  {
    if rest == [] {
      assert done + rest == done;
    } else {
      var c := rest[0];
      assert (done + rest)[|done|] == c;
      assert done != [] ==> (done + rest)[|done| - 1] == done[|done| - 1];
      assert Enter(rooted, done, c) == done + [c];
      assert done + rest == (done + [c]) + rest[1..];
      WalkOfClean(rooted, done + [c], rest[1..]);
    }
  }

  /**
   The rules of cleaning: an empty or `.` component counts for nothing, a name followed by `..` cancels out, and
   `..` at the root counts for nothing. With WalkOfClean they leave every path one result.
   */
  lemma WalkRules(rooted: bool, a: seq<string>, c: string, b: seq<string>)
    requires forall p :: p in a ==> '/' !in p
    ensures c == "" || c == "." ==> Walk(rooted, [], a + ([c] + b)) == Walk(rooted, [], a + b)
    ensures IsName(c) ==> Walk(rooted, [], a + ([c, ".."] + b)) == Walk(rooted, [], a + b)
    ensures c == ".." && rooted && Walk(rooted, [], a) == [] ==>
              Walk(rooted, [], a + ([c] + b)) == Walk(rooted, [], a + b)
  {
    var stack := Walk(rooted, [], a);
    WalkInParts(rooted, [], a, b);
    WalkInParts(rooted, [], a, [c] + b);
    WalkInParts(rooted, [], a, [c, ".."] + b);
    assert ([c] + b)[1..] == b && ([c, ".."] + b)[1..] == [".."] + b && ([".."] + b)[1..] == b;
    assert (stack + [c])[..|stack|] == stack;
  }

  // ---------------------------------------------------------------- printing and reading back

  lemma {:induction false} SplitOfJoined(a: string, b: string)
    ensures Split(a + ['/'] + b, '/') == Split(a, '/') + Split(b, '/')
    decreases |a|
  {
    if '/' !in a {
      SplitFirst(a, b, '/');
      assert Split(a, '/') == [a];
    } else {
      var i := IndexOf(a, '/');
      var tail := a[i + 1..];
      SplitAt(a, i, '/');
      SplitOfJoined(tail, b);
      ReadyToSplit(a, b, i);
      SplitFirst(a[..i], tail + ['/'] + b, '/');
      PrependAssociates(a[..i], Split(tail, '/'), Split(b, '/'));
    }
  }

  lemma ReadyToSplit(a: string, b: string, i: nat)
    requires i < |a| && a[i] == '/'
    ensures a + ['/'] + b == a[..i] + ['/'] + (a[i + 1..] + ['/'] + b)
  {
  }

  /** A clean path printed is rooted as it was. */
  lemma PrintKeepsRoot(rooted: bool, stack: seq<string>)
    requires IsClean(rooted, stack)
    ensures IsAbs(Print(rooted, stack)) == rooted
  {
    if stack != [] && !rooted {
      assert stack[0] != "" && '/' !in stack[0];
      assert stack[0][0] in stack[0];
      assert Join(stack, '/')[0] == stack[0][0];
    }
  }

  /** The components of a printed path, an empty one standing before the root's slash. */
  function RootPart(rooted: bool): seq<string> { if rooted then [""] else [] }

  lemma SplitOfPrint(rooted: bool, stack: seq<string>)
    requires IsClean(rooted, stack) && stack != []
    ensures Split(Print(rooted, stack), '/') == RootPart(rooted) + stack
  {
    CleanHasNoSlash(rooted, stack);
    SplitJoin(stack, '/');
    SplitRooted(Join(stack, '/'));
    assert [] + Join(stack, '/') == Join(stack, '/');
    assert [] + stack == stack;
  }

  lemma SplitRooted(text: string)
    ensures Split(['/'] + text, '/') == [""] + Split(text, '/')
  {
    SplitFirst("", text, '/');
    assert "" + ['/'] + text == ['/'] + text;
  }

  lemma CleanHasNoSlash(rooted: bool, stack: seq<string>)
    requires IsClean(rooted, stack)
    ensures forall p :: p in stack ==> '/' !in p
  {
    forall p | p in stack ensures '/' !in p {
      var i :| 0 <= i < |stack| && stack[i] == p;
      assert IsName(stack[i]) || IsDotDot(stack[i]);
    }
  }

  lemma SplitOfPrintedNothing(rooted: bool)
    ensures Split(Print(rooted, []), '/') == if rooted then ["", ""] else [['.']]
  {
    if rooted {
      SplitFirst("", "", '/');
      assert ['/'] == "" + ['/'] + "";
      assert Split("", '/') == [""];
    }
  }

  /** Printing loses nothing: resolving the text gives the components back. */
  lemma ResolveOfPrint(rooted: bool, stack: seq<string>)
    requires IsClean(rooted, stack)
    ensures Resolve(Print(rooted, stack)) == stack
  {
    PrintKeepsRoot(rooted, stack);
    if stack == [] {
      SplitOfPrintedNothing(rooted);
    } else {
      SplitOfPrint(rooted, stack);
      assert [] + stack == stack;
      WalkOfClean(rooted, [], stack);
      WalkInParts(rooted, [], RootPart(rooted), stack);
    }
  }

  /** Cleaning a clean path changes nothing. */
  lemma CleanIdempotent(path: string)
    ensures Clean(Clean(path)) == Clean(path)
  {
    ResolvedIsClean(path);
    PrintKeepsRoot(IsAbs(path), Resolve(path));
    ResolveOfPrint(IsAbs(path), Resolve(path));
  }

  // ---------------------------------------------------------------- the inbox

  function ResolveInboxPath(toolDir: string, relPath: string): Option<string> {
    if IsAbs(relPath) then None
    else
      var clean := Clean(JoinPath(toolDir, relPath));
      if !HasPrefix(clean, Clean(toolDir) + ['/']) && clean != Clean(toolDir) then None else Some(clean)
  }

  /** Where a relative path leads when walked from the tool directory. */
  function Reached(toolDir: string, relPath: string): seq<string> {
    Walk(IsAbs(toolDir), Resolve(toolDir), Split(relPath, '/'))
  }

  lemma ReachedIsClean(toolDir: string, relPath: string)
    ensures IsClean(IsAbs(toolDir), Reached(toolDir, relPath))
  {
    ResolvedIsClean(toolDir);
    SplitPartsFree(relPath, '/');
    WalkKeepsClean(IsAbs(toolDir), Resolve(toolDir), Split(relPath, '/'));
  }

  lemma JoinedResolves(toolDir: string, relPath: string)
    requires !IsAbs(relPath)
    ensures Clean(JoinPath(toolDir, relPath)) == Print(IsAbs(toolDir), Reached(toolDir, relPath))
  {
    assert Split("", '/') == [""];
    if toolDir == "" {
      CleanIdempotent(relPath);
    } else if relPath == "" {
      CleanIdempotent(toolDir);
      var parts := [""];
      assert parts[1..] == [];
      assert Walk(IsAbs(toolDir), Resolve(toolDir), parts) == Resolve(toolDir);
    } else {
      CleanIdempotent(toolDir + ['/'] + relPath);
      ResolveOfJoined(toolDir, relPath);
    }
  }

  lemma ResolveOfJoined(a: string, b: string)
    requires a != ""
    ensures IsAbs(a + ['/'] + b) == IsAbs(a) && Resolve(a + ['/'] + b) == Walk(IsAbs(a), Resolve(a), Split(b, '/'))
  {
    SplitOfJoined(a, b);
    WalkInParts(IsAbs(a), [], Split(a, '/'), Split(b, '/'));
  }

  /** Directory components d hold the path components p; nothing but itself is held by no components. */
  predicate Holds(d: seq<string>, p: seq<string>) { if d == [] then p == [] else d <= p }

  lemma {:induction false} JoinInParts(a: seq<string>, b: seq<string>)
    requires a != [] && b != []
    ensures Join(a + b, '/') == Join(a, '/') + ['/'] + Join(b, '/')
    decreases |a|
  {
    JoinCons(a[0], a[1..] + b, '/');
    assert a + b == [a[0]] + (a[1..] + b);
    if |a| == 1 {
      assert a[1..] + b == b;
    } else {
      JoinInParts(a[1..], b);
      JoinTail(a[0], Join(a[1..], '/'), Join(b, '/'));
    }
  }

  lemma JoinTail(a: string, b: string, c: string)
    ensures a + ['/'] + (b + ['/'] + c) == a + ['/'] + b + ['/'] + c
  {
  }

  lemma HeldIsPrinted(rooted: bool, d: seq<string>, p: seq<string>)
    requires d != [] && d < p
    ensures HasPrefix(Print(rooted, p), Print(rooted, d) + ['/'])
  {
    var rest := p[|d|..];
    assert p == d + rest;
    JoinInParts(d, rest);
    var root := if rooted then ['/'] else [];
    assert Print(rooted, p) == root + Join(d, '/') + ['/'] + Join(rest, '/');
  }

  lemma PrintedIsHeld(rooted: bool, d: seq<string>, p: seq<string>)
    requires IsClean(rooted, d) && IsClean(rooted, p)
    requires HasPrefix(Print(rooted, p), Print(rooted, d) + ['/'])
    ensures d != [] && d < p
  {
    var text, head := Print(rooted, p), Print(rooted, d);
    var rest := text[|head| + 1..];
    assert text == head + ['/'] + rest;
    SplitOfJoined(head, rest);
    SplitOfPrintedNothing(rooted);
    if d != [] { SplitOfPrint(rooted, d); }
    if p != [] { SplitOfPrint(rooted, p); }
    SamePartsHeld(rooted, d, p, Split(rest, '/'));
  }

  /** The parts of a printed path. */
  function PrintedParts(rooted: bool, stack: seq<string>): seq<string> {
    if stack == [] then (if rooted then ["", ""] else [['.']]) else RootPart(rooted) + stack
  }

  lemma SamePartsHeld(rooted: bool, d: seq<string>, p: seq<string>, rest: seq<string>)
    requires IsClean(rooted, d) && IsClean(rooted, p) && rest != []
    requires PrintedParts(rooted, p) == PrintedParts(rooted, d) + rest
    ensures d != [] && d < p
  {
    var all := PrintedParts(rooted, d) + rest;
    if rooted {
      assert all == [""] + (if d == [] then [""] else d) + rest;
      assert all == [""] + (if p == [] then [""] else p);
      assert all[1] == (if p == [] then "" else p[0]) && |all| > 2;
      assert d != [] && p != [];
      Drop([""], p, d, rest);
    } else {
      assert all == (if d == [] then [['.']] else d) + rest;
      assert all == if p == [] then [['.']] else p;
      assert all[0] == (if p == [] then ['.'] else p[0]) && |all| > 1;
      assert d != [] && p != [];
      Drop([], p, d, rest);
    }
  }

  lemma Drop(root: seq<string>, p: seq<string>, d: seq<string>, rest: seq<string>)
    requires root + p == root + d + rest && rest != []
    ensures d < p
  {
    assert (root + p)[|root|..] == p;
    assert (root + d + rest)[|root|..] == d + rest;
  }

  /** The string test with its separator is the component test. */
  lemma PrefixTestIff(rooted: bool, d: seq<string>, p: seq<string>)
    requires IsClean(rooted, d) && IsClean(rooted, p)
    ensures HasPrefix(Print(rooted, p), Print(rooted, d) + ['/']) || Print(rooted, p) == Print(rooted, d)
            <==> Holds(d, p)
  {
    if HasPrefix(Print(rooted, p), Print(rooted, d) + ['/']) {
      PrintedIsHeld(rooted, d, p);
    }
    if Print(rooted, p) == Print(rooted, d) {
      ResolveOfPrint(rooted, p);
      ResolveOfPrint(rooted, d);
    }
    assert d <= p && |d| == |p| ==> d == p;
    if d != [] && d <= p && |d| < |p| {
      HeldIsPrinted(rooted, d, p);
    }
  }

  /**
   resolveInboxPath accepts exactly the relative paths that lead to components of which the tool directory's
   are a prefix, for every directory, absolute or not; it then returns the clean path reached. Only below an
   absolute directory does that mean inside it: see AcceptedIsInside.
   */
  lemma AcceptsIff(toolDir: string, relPath: string)
    ensures ResolveInboxPath(toolDir, relPath).Some?
       <==> !IsAbs(relPath) && Holds(Resolve(toolDir), Reached(toolDir, relPath))
    ensures ResolveInboxPath(toolDir, relPath).Some? ==>
              ResolveInboxPath(toolDir, relPath).value == Print(IsAbs(toolDir), Reached(toolDir, relPath))
  {
    if !IsAbs(relPath) {
      ResolvedIsClean(toolDir);
      ReachedIsClean(toolDir, relPath);
      JoinedResolves(toolDir, relPath);
      PrefixTestIff(IsAbs(toolDir), Resolve(toolDir), Reached(toolDir, relPath));
    }
  }

  /**
   Below an absolute directory other than the root: the result lies in it, has no `.`, `..` or empty component,
   and is clean.
   */
  lemma AcceptedIsInside(toolDir: string, relPath: string)
    requires IsAbs(toolDir) && ResolveInboxPath(toolDir, relPath).Some?
    ensures var path := ResolveInboxPath(toolDir, relPath).value;
            && Resolve(toolDir) <= Resolve(path)
            && (forall c :: c in Resolve(path) ==> IsName(c))
            && Clean(path) == path
  {
    AcceptsIff(toolDir, relPath);
    ReachedIsClean(toolDir, relPath);
    ResolveOfPrint(true, Reached(toolDir, relPath));
    PrintKeepsRoot(true, Reached(toolDir, relPath));
  }

  /** With a tool directory that resolves to no component, such as the root, no child is accepted. */
  lemma RootAcceptsOnlyItself(toolDir: string, relPath: string)
    requires Resolve(toolDir) == []
    ensures ResolveInboxPath(toolDir, relPath).Some? <==> !IsAbs(relPath) && Reached(toolDir, relPath) == []
  {
    AcceptsIff(toolDir, relPath);
  }

  lemma RootRefusesAChild()
    ensures ResolveInboxPath(['/'], ['a']).None?
  {
    SplitOfPrintedNothing(true);
    assert Print(true, []) == ['/'];
    assert Resolve(['/']) == [];
    assert Split(['a'], '/') == [['a']];
    assert Reached(['/'], ['a']) == [['a']];
    RootAcceptsOnlyItself(['/'], ['a']);
  }

  /** Clean components without a leading `..` have none at all. */
  predicate Descends(stack: seq<string>) { stack == [] || !IsDotDot(stack[0]) }

  lemma EnterFromBase(rooted: bool, base: seq<string>, done: seq<string>, c: string)
    requires IsClean(false, done) && Descends(done) && Descends(Enter(false, done, c))
    ensures Enter(rooted, base + done, c) == base + Enter(false, done, c)
  {
    assert base + (done + [c]) == base + done + [c];
    if done != [] {
      assert !IsDotDot(done[|done| - 1]);
      assert (base + done)[|base + done| - 1] == done[|done| - 1];
      assert (base + done)[..|base + done| - 1] == base + done[..|done| - 1];
    }
  }

  /** Resolved on its own, a path keeps a `..` only if it ever climbs above where it starts. */
  lemma {:induction false} WalkFromBase(rooted: bool, base: seq<string>, done: seq<string>, parts: seq<string>)
    requires IsClean(false, done) && Descends(done) && forall p :: p in parts ==> '/' !in p
    requires Descends(Walk(false, done, parts))
    ensures Walk(rooted, base + done, parts) == base + Walk(false, done, parts)
    decreases |parts|
  {
    if parts != [] {
      var next := Enter(false, done, parts[0]);
      assert parts[0] in parts;
      EnterKeepsClean(false, done, parts[0]);
      if !Descends(next) {
        ClimbStays(next, parts[1..]);
      }
      EnterFromBase(rooted, base, done, parts[0]);
      WalkFromBase(rooted, base, next, parts[1..]);
    }
  }

  lemma {:induction false} ClimbStays(stack: seq<string>, parts: seq<string>)
    requires stack != [] && IsDotDot(stack[0])
    ensures Walk(false, stack, parts) != [] && IsDotDot(Walk(false, stack, parts)[0])
    decreases |parts|
  {
    if parts != [] {
      ClimbStays(Enter(false, stack, parts[0]), parts[1..]);
    }
  }

  /** A relative path that never climbs is always accepted, and lands at its own resolution below the directory. */
  lemma DescendingIsAccepted(toolDir: string, relPath: string)
    requires !IsAbs(relPath) && forall c :: c in Resolve(relPath) ==> IsName(c)
    requires Resolve(toolDir) != []
    ensures ResolveInboxPath(toolDir, relPath) == Some(Print(IsAbs(toolDir), Resolve(toolDir) + Resolve(relPath)))
  {
    SplitPartsFree(relPath, '/');
    var base := Resolve(toolDir);
    assert Resolve(relPath) == [] || Resolve(relPath)[0] in Resolve(relPath);
    WalkFromBase(IsAbs(toolDir), base, [], Split(relPath, '/'));
    assert base + [] == base;
    AcceptsIff(toolDir, relPath);
  }
}
