/**
 The variable store and its shell rendering: internal/vars/store.go. The inverse of the rendering is a
 reader of key=word lines under the quote removal rules of the POSIX.1-2017 Shell Command Language,
 sections 2.2.1 (escape character) and 2.2.2 (single quotes).
 */
module VarStore {
  import opened Decimal
  import opened Text
  import opened Order
  import opened Disk
  import opened Pattern
  import Inbox = InboxPath
  import opened Wrappers

  type Vars = map<string, string>

  datatype Scope = Scope(project: string, env: string)

  /** A scope file that exists: its flat map, the JSON value null, or something that cannot be read or parsed. */
  datatype ScopeFile = Data(vars: Vars) | Null | Corrupt

  /** Panicked is an assignment to the nil map that null decodes to; Killed is a process that died while writing. */
  datatype Error =
    | NoError | Cancelled | ReservedKey | InvalidKey | ParseError | WriteError
    | ScopeNotFound | KeyNotFound | Panicked | Killed

  const UPDATED_AT := "_meta.updated_at"
  const UPDATED_BY := "_meta.updated_by"

  predicate IsLetter(c: char) { 'a' <= c <= 'z' || 'A' <= c <= 'Z' }

  predicate IsKeyChar(c: char) {
    IsLetter(c) || IsDigit(c) || c == '_' || c == '.' || c == '/' || c == '-'
  }

  /** keyPattern, anchored at both ends. */
  predicate ValidKey(key: string) {
    key != "" && IsLetter(key[0]) && forall i :: 0 <= i < |key| ==> IsKeyChar(key[i])
  }

  const LETTERS := [('a', 'z'), ('A', 'Z')]
  const KEY_CHARS := [('a', 'z'), ('A', 'Z'), ('0', '9'), ('_', '_'), ('.', '.'), ('/', '/'), ('-', '-')]

  /** ^[a-zA-Z][a-zA-Z0-9_./-]*$ */
  const KEY_PATTERN := Then(Class(LETTERS), Star(Class(KEY_CHARS)))

  lemma InClasses(c: char)
    ensures (exists range :: range in LETTERS && InRange(c, range)) <==> IsLetter(c)
    ensures (exists range :: range in KEY_CHARS && InRange(c, range)) <==> IsKeyChar(c)
  {
    assert ('a', 'z') in LETTERS && ('A', 'Z') in LETTERS;
    assert ('a', 'z') in KEY_CHARS && ('A', 'Z') in KEY_CHARS && ('0', '9') in KEY_CHARS;
    assert ('_', '_') in KEY_CHARS && ('.', '.') in KEY_CHARS && ('/', '/') in KEY_CHARS && ('-', '-') in KEY_CHARS;
    assert forall range :: range in LETTERS <==> range == ('a', 'z') || range == ('A', 'Z');
    assert forall range :: range in KEY_CHARS ==>
      range in [('a', 'z'), ('A', 'Z'), ('0', '9')] || range in [('_', '_'), ('.', '.'), ('/', '/'), ('-', '-')];
  }

  /** The valid keys are the texts that match the pattern. */
  lemma ValidKeyIff(key: string)
    ensures ValidKey(key) <==> Matches(KEY_PATTERN, key)
  {
    ClassThenStarIff(LETTERS, KEY_CHARS, key);
    forall i | 0 <= i < |key|
      ensures (exists range :: range in KEY_CHARS && InRange(key[i], range)) <==> IsKeyChar(key[i])
      ensures (exists range :: range in LETTERS && InRange(key[i], range)) <==> IsLetter(key[i])
    {
      InClasses(key[i]);
    }
  }

  predicate Reserved(key: string) { HasPrefix(key, "_") }

  /** What callers may see of a scope. */
  function Visible(vars: Vars): Vars {
    map k | k in vars && !Reserved(k) :: vars[k]
  }

  /** Every visible key is valid. */
  ghost predicate WellKeyed(vars: Vars) {
    forall k :: k in vars && !Reserved(k) ==> ValidKey(k)
  }

  function Stamped(vars: Vars, now: string, caller: string): Vars {
    vars[UPDATED_AT := now][UPDATED_BY := caller]
  }

  lemma MetaKeysReserved()
    ensures Reserved(UPDATED_AT) && Reserved(UPDATED_BY)
  {
  }

  /** The bookkeeping keys are invisible, so Set and Delete show as exactly one change. */
  lemma StampingIsInvisible(vars: Vars, now: string, caller: string)
    ensures Visible(Stamped(vars, now, caller)) == Visible(vars)
  {
    MetaKeysReserved();
  }

  /** Stamping sets two keys and leaves the others. */
  lemma StampedIs(vars: Vars, now: string, caller: string, k: string)
    ensures var s := Stamped(vars, now, caller);
            && "_meta.updated_at" in s && s["_meta.updated_at"] == now
            && "_meta.updated_by" in s && s["_meta.updated_by"] == caller
            && (k != "_meta.updated_at" && k != "_meta.updated_by" ==>
                  (k in s <==> k in vars) && (k in vars ==> s[k] == vars[k]))
  {
    assert UPDATED_AT[|UPDATED_AT| - 1] != UPDATED_BY[|UPDATED_BY| - 1];
  }

  lemma VisibleChange(vars: Vars, key: string, value: string)
    requires !Reserved(key)
    ensures Visible(vars[key := value]) == Visible(vars)[key := value]
    ensures Visible(vars - {key}) == Visible(vars) - {key}
  {
  }

  // ---------------------------------------------------------------- the store

  function WithSlash(element: string): string { if element == "" then "" else element + ['/'] }

  function FileName(env: string): string { env + ".json" }

  /** scopePath: filepath.Join of the base directory, the project and the file name. */
  function ScopePath(base: string, s: Scope): string {
    Inbox.Clean(WithSlash(base) + WithSlash(s.project) + FileName(s.env))
  }

  ghost predicate AllWellKeyed(files: map<string, ScopeFile>) {
    forall p :: p in files && files[p].Data? ==> WellKeyed(files[p].vars)
  }

  /** The calls writeScope makes, in order; AtReturn stands after the rename. It syncs nothing. */
  datatype ScopeStep = AtMkdir | AtCreate | AtWrite | AtChmod | AtClose | AtRename | AtReturn

  /** A call that returns an error, or the process dying as it reaches a call. */
  datatype ScopeFault = Smooth | Errs(step: ScopeStep) | Stops(step: ScopeStep)

  /** What one write may meet; `tmp` is the unused name os.CreateTemp picked. */
  datatype ScopeLuck = ScopeLuck(tmp: string, fault: ScopeFault, removeFails: bool)

  function ScopeEnd(fault: ScopeFault): WriteEnd {
    match fault
    case Smooth => Done
    case Errs(step) => if step.AtReturn? then Done else Failed
    case Stops(step) => Died(step.AtReturn?)
  }

  /** The scope's file is settled by the write's end; a temporary file may have stayed behind. */
  ghost predicate Rewritten(before: map<string, ScopeFile>, after: map<string, ScopeFile>, path: string, vars: Vars,
                            tmp: string, end: WriteEnd)
  {
    && after - {tmp} == Settle(before, before[path := Data(vars)], end)
    && (tmp in after ==> after[tmp].Corrupt? || after[tmp] == Data(vars))
  }

  lemma RewrittenIsWellKeyed(before: map<string, ScopeFile>, after: map<string, ScopeFile>, path: string, vars: Vars,
                             tmp: string, end: WriteEnd)
    requires Rewritten(before, after, path, vars, tmp, end) && tmp != path
    requires AllWellKeyed(before) && WellKeyed(vars)
    ensures AllWellKeyed(after)
    ensures end == Done ==> path in after && after[path] == Data(vars)
  {
    var settled := Settle(before, before[path := Data(vars)], end);
    forall p | p in after && p != tmp ensures p in settled && after[p] == settled[p] {
      assert p in after - {tmp};
    }
    if end == Done { assert path in settled && path in after - {tmp}; }
  }

  function ErrorOf(end: WriteEnd): Error {
    match end
    case Done => NoError
    case Failed => WriteError
    case Died(_) => Killed
  }

  class Store {
    const base: string
    var files: map<string, ScopeFile>

    constructor (base: string)
      ensures files == map[] && this.base == base && Valid()
    {
      files, this.base := map[], base;
    }

    /** What every scope reached through Set and Delete keeps. */
    ghost predicate Valid()
      reads this
    {
      AllWellKeyed(files)
    }

    function PathOf(scope: Scope): string { ScopePath(base, scope) }

    /** The scope's file, if there is one, can be read. */
    predicate Readable(scope: Scope)
      reads this
    {
      PathOf(scope) in files && !files[PathOf(scope)].Corrupt?
    }

    /** The scope's file is missing or holds a map. */
    predicate Writable(scope: Scope)
      reads this
    {
      PathOf(scope) !in files || files[PathOf(scope)].Data?
    }

    /** What a scope's file holds, an absent or null one holding nothing; and what List would show of it. */
    ghost function Held(scope: Scope): Vars
      reads this
    {
      if PathOf(scope) in files && files[PathOf(scope)].Data? then files[PathOf(scope)].vars else map[]
    }

    ghost function Shown(scope: Scope): Vars
      reads this
    {
      Visible(Held(scope))
    }

    /** The files with only this scope's changed: a key set or removed, and the bookkeeping keys stamped. */
    ghost function SetOf(scope: Scope, key: string, value: string, now: string, caller: string): map<string, ScopeFile>
      reads this
    {
      files[PathOf(scope) := Data(Stamped(Held(scope)[key := value], now, caller))]
    }

    ghost function UnsetOf(scope: Scope, key: string, now: string, caller: string): map<string, ScopeFile>
      reads this
    {
      files[PathOf(scope) := Data(Stamped(Held(scope) - {key}, now, caller))]
    }

    /** `isNil` marks the nil map a null file decodes to. */
    method ReadScope(scope: Scope) returns (vars: Vars, isNil: bool, err: Error)
      ensures err == ScopeNotFound <==> PathOf(scope) !in files
      ensures err == ParseError <==> PathOf(scope) in files && files[PathOf(scope)].Corrupt?
      ensures err == NoError || err == ScopeNotFound || err == ParseError
      ensures vars == Held(scope) && (isNil <==> PathOf(scope) in files && files[PathOf(scope)].Null?)
    {
      var path := PathOf(scope);
      if path !in files { return map[], false, ScopeNotFound; }
      match files[path]
      case Corrupt => return map[], false, ParseError;
      case Null => return map[], true, NoError;
      case Data(held) => return held, false, NoError;
    }

    /** Everything before the rename, on the temporary file alone: until it is written, it does not parse. */
    method FillTemp(vars: Vars, tmp: string, fault: ScopeFault) returns (ready: bool)
      requires tmp !in files
      modifies this
      ensures ready <==> fault.Smooth? || fault.step.AtReturn?
      ensures files == old(files) || files == old(files)[tmp := Corrupt] || files == old(files)[tmp := Data(vars)]
      ensures ready ==> files == old(files)[tmp := Data(vars)]
    {
      ready := fault.Smooth? || fault.step.AtReturn?;
      if !ready && (fault.step.AtMkdir? || fault.step.AtCreate?) { return; }
      files := files[tmp := Corrupt];
      if !ready && fault.step.AtWrite? { return; }
      files := files[tmp := Data(vars)];
    }

    /**
     writeScope: make the directory, create a temporary file in it, write, chmod, close, rename. An error
     leaves the scope as it was, a success replaces exactly it, a death does one or the other; only a
     temporary file can stay behind.
     */
    method WriteScope(scope: Scope, vars: Vars, luck: ScopeLuck) returns (err: Error)
      requires luck.tmp !in files && luck.tmp != PathOf(scope)
      modifies this
      ensures err == ErrorOf(ScopeEnd(luck.fault))
      ensures Rewritten(old(files), files, PathOf(scope), vars, luck.tmp, ScopeEnd(luck.fault))
      ensures err == NoError || (err == WriteError && !luck.removeFails) ==> luck.tmp !in files
    {
      ghost var before := files;
      var ready := FillTemp(vars, luck.tmp, luck.fault);
      assert files - {luck.tmp} == before;
      if !ready {
        if luck.fault.Stops? { return Killed; }
        if !luck.removeFails { files := files - {luck.tmp}; }
        return WriteError;
      }
      files := files[PathOf(scope) := files[luck.tmp]] - {luck.tmp};
      assert files == before[PathOf(scope) := Data(vars)];
      err := if luck.fault.Stops? then Killed else NoError;
    }

    method Set(cancelled: bool, scope: Scope, key: string, value: string, now: string, caller: string, luck: ScopeLuck)
      returns (err: Error)
      requires Valid() && luck.tmp !in files && luck.tmp != PathOf(scope)
      modifies this
      ensures Valid()
      ensures err == NoError <==>
                !cancelled && Matches(KEY_PATTERN, key) && old(Writable(scope)) && ScopeEnd(luck.fault) == Done
      ensures err == ReservedKey <==> !cancelled && key != "" && key[0] == '_'
      ensures err == InvalidKey <==> !cancelled && !(key != "" && key[0] == '_') && !Matches(KEY_PATTERN, key)
      ensures err == Panicked <==>
                !cancelled && Matches(KEY_PATTERN, key) && old(Readable(scope) && !Writable(scope))
      ensures files - {luck.tmp} ==
              if !cancelled && Matches(KEY_PATTERN, key) && old(Writable(scope))
              then Settle(old(files), old(SetOf(scope, key, value, now, caller)), ScopeEnd(luck.fault))
              else old(files)
      ensures err == NoError ==> Shown(scope) == old(Shown(scope))[key := value]
    {
      ValidKeyIff(key);
      assert files - {luck.tmp} == files;
      if cancelled { return Cancelled; }
      if Reserved(key) { return ReservedKey; }
      if !ValidKey(key) { return InvalidKey; }
      var vars, isNil, readErr := ReadScope(scope);
      if readErr == ParseError { return readErr; }
      if isNil { return Panicked; }
      StampingIsInvisible(vars[key := value], now, caller);
      VisibleChange(vars, key, value);
      KeepsWellKeyed(vars, key, value, now, caller);
      ghost var before := files;
      err := WriteScope(scope, Stamped(vars[key := value], now, caller), luck);
      RewrittenIsWellKeyed(before, files, PathOf(scope), Stamped(vars[key := value], now, caller), luck.tmp,
                           ScopeEnd(luck.fault));
    }

    method Delete(cancelled: bool, scope: Scope, key: string, now: string, caller: string, luck: ScopeLuck)
      returns (err: Error)
      requires Valid() && luck.tmp !in files && luck.tmp != PathOf(scope)
      modifies this
      ensures Valid()
      ensures err == NoError <==>
                !cancelled && !(key != "" && key[0] == '_') && old(Writable(scope)) && ScopeEnd(luck.fault) == Done
      ensures err == ReservedKey <==> !cancelled && key != "" && key[0] == '_'
      ensures err == Panicked <==> !cancelled && !Reserved(key) && old(Readable(scope) && !Writable(scope))
      ensures files - {luck.tmp} ==
              if !cancelled && !Reserved(key) && old(Writable(scope))
              then Settle(old(files), old(UnsetOf(scope, key, now, caller)), ScopeEnd(luck.fault))
              else old(files)
      ensures err == NoError ==> Shown(scope) == old(Shown(scope)) - {key}
    {
      assert files - {luck.tmp} == files;
      if cancelled { return Cancelled; }
      if Reserved(key) { return ReservedKey; }
      var vars, isNil, readErr := ReadScope(scope);
      if readErr == ParseError { return readErr; }
      if isNil { return Panicked; }
      StampingIsInvisible(vars - {key}, now, caller);
      VisibleChange(vars, key, "");
      KeepsWellKeyed(vars, key, "", now, caller);
      ghost var before := files;
      err := WriteScope(scope, Stamped(vars - {key}, now, caller), luck);
      RewrittenIsWellKeyed(before, files, PathOf(scope), Stamped(vars - {key}, now, caller), luck.tmp,
                           ScopeEnd(luck.fault));
    }

    method DeleteScope(cancelled: bool, scope: Scope, removeFails: bool) returns (err: Error)
      requires Valid()
      modifies this
      ensures Valid()
      ensures err == if cancelled then Cancelled
                     else if removeFails && PathOf(scope) in old(files) then WriteError else NoError
      ensures files == if err == NoError then old(files) - {PathOf(scope)} else old(files)
    {
      if cancelled { return Cancelled; }
      if removeFails && PathOf(scope) in files { return WriteError; }
      files := files - {PathOf(scope)};
      err := NoError;
    }

    method List(cancelled: bool, scope: Scope) returns (result: Vars, err: Error)
      ensures err == NoError <==> !cancelled && Readable(scope)
      ensures err == NoError ==> result == Shown(scope)
      ensures err == NoError ==> forall k :: k in result <==> k in Held(scope) && !(k != "" && k[0] == '_')
      ensures err == ScopeNotFound <==> !cancelled && PathOf(scope) !in files
      ensures err != NoError ==> result == map[]
    {
      if cancelled { return map[], Cancelled; }
      var vars, _, readErr := ReadScope(scope);
      if readErr != NoError { return map[], readErr; }
      result := map[];
      var keys := vars.Keys;
      while keys != {}
        invariant keys <= vars.Keys
        invariant result == map k | k in vars && k !in keys && !Reserved(k) :: vars[k]
        decreases |keys|
      {
        var k :| k in keys;
        keys := keys - {k};
        if !Reserved(k) { result := result[k := vars[k]]; }
      }
      err := NoError;
    }

    method Get(cancelled: bool, scope: Scope, key: string) returns (value: string, err: Error)
      ensures err == NoError <==> !cancelled && Readable(scope) && key in Shown(scope)
      ensures err == NoError ==> value == Shown(scope)[key]
      ensures err == ReservedKey <==> !cancelled && key != "" && key[0] == '_'
      ensures err == KeyNotFound <==>
                !cancelled && !(key != "" && key[0] == '_') && Readable(scope) && key !in Shown(scope)
    {
      value := "";
      if cancelled { return value, Cancelled; }
      if Reserved(key) { return value, ReservedKey; }
      var vars, _, readErr := ReadScope(scope);
      if readErr != NoError { return value, readErr; }
      if key !in vars { return value, KeyNotFound; }
      return vars[key], NoError;
    }

    /**
     RenderEnv: the visible variables as sorted lines. A shell-quoting-aware reader of the text gets back
     exactly the pairs of the map List returns.
     */
    method RenderEnv(cancelled: bool, scope: Scope) returns (text: string, err: Error)
      requires Valid()
      ensures err == NoError <==> !cancelled && Readable(scope)
      ensures err == NoError ==> ReadsBack(text, Shown(scope))
    {
      var vars: Vars;
      vars, err := List(cancelled, scope);
      if err != NoError { return "", err; }
      text := EnvLines(vars);
      RenderingReadsBack(vars);
    }
  }

  lemma WalkName(rooted: bool, stack: seq<string>, name: string)
    requires Inbox.IsName(name)
    ensures Inbox.Walk(rooted, stack, Split(name, '/')) == stack + [name]
  {
    assert Split(name, '/') == [name];
    assert [name][1..] == [];
    assert Inbox.Walk(rooted, stack + [name], []) == stack + [name];
  }

  /** A scope that a request can name: no slash in either part, and a project. */
  predicate SlashFree(s: Scope) { s.project != "" && '/' !in s.project && '/' !in s.env }

  /** Such a scope's file lies one step of its project away from the base directory, whatever that project is. */
  lemma ScopePathResolves(base: string, s: Scope)
    requires SlashFree(s)
    ensures Inbox.Resolve(ScopePath(base, s))
         == Inbox.Enter(Inbox.IsAbs(base), Inbox.Resolve(base), s.project) + [s.env + ".json"]
    ensures Inbox.IsAbs(ScopePath(base, s)) == Inbox.IsAbs(base)
  {
    var inner := WithSlash(base) + s.project;
    var full := inner + ['/'] + FileName(s.env);
    assert full == WithSlash(base) + WithSlash(s.project) + FileName(s.env);
    FileNameIsName(s.env);
    ResolveInner(base, s.project);
    Inbox.ResolveOfJoined(inner, FileName(s.env));
    WalkName(Inbox.IsAbs(base), Inbox.Enter(Inbox.IsAbs(base), Inbox.Resolve(base), s.project), FileName(s.env));
    Inbox.ResolvedIsClean(full);
    Inbox.ResolveOfPrint(Inbox.IsAbs(full), Inbox.Resolve(full));
    Inbox.PrintKeepsRoot(Inbox.IsAbs(full), Inbox.Resolve(full));
  }

  lemma ResolveInner(base: string, project: string)
    requires project != "" && '/' !in project
    ensures var inner := WithSlash(base) + project;
            && Inbox.IsAbs(inner) == Inbox.IsAbs(base)
            && Inbox.Resolve(inner) == Inbox.Enter(Inbox.IsAbs(base), Inbox.Resolve(base), project)
  {
    assert Split(project, '/') == [project] && [project][1..] == [];
    var stack := Inbox.Enter(Inbox.IsAbs(base), Inbox.Resolve(base), project);
    assert Inbox.Walk(Inbox.IsAbs(base), stack, []) == stack;
    if base == "" {
      assert WithSlash(base) + project == project && project[0] in project;
      assert Split("", '/') == [""] && [""][1..] == [];
      assert Inbox.Walk(false, [], [""]) == Inbox.Walk(false, [], []);
    } else {
      assert WithSlash(base) + project == base + ['/'] + project;
      Inbox.ResolveOfJoined(base, project);
    }
  }

  lemma FileNameIsName(env: string)
    requires '/' !in env
    ensures Inbox.IsName(FileName(env))
  {
    assert '/' !in ".json";
  }

  /** The base is the root itself, where `..` leads nowhere else than `.`. */
  predicate IsRoot(base: string) { Inbox.IsAbs(base) && Inbox.Resolve(base) == [] }

  predicate IsDots(project: string) { Inbox.IsDot(project) || Inbox.IsDotDot(project) }

  /**
   Exactly when two scopes that requests can name share a file: when they are one scope, or the base directory
   is the root and both projects are `.` or `..`. In any other directory what is set in one scope never
   shows in another.
   */
  lemma ScopesKeepApartIff(base: string, a: Scope, b: Scope)
    requires SlashFree(a) && SlashFree(b)
    ensures ScopePath(base, a) == ScopePath(base, b)
       <==> a == b || (a.env == b.env && IsRoot(base) && IsDots(a.project) && IsDots(b.project))
  {
    var abs, r := Inbox.IsAbs(base), Inbox.Resolve(base);
    ScopePathResolves(base, a);
    ScopePathResolves(base, b);
    Inbox.ResolvedIsClean(base);
    EnteredIff(abs, r, a.project, b.project);
    FileNameInjective(a.env, b.env);
    var da, db := Inbox.Enter(abs, r, a.project), Inbox.Enter(abs, r, b.project);
    SnocInjective(da, FileName(a.env), db, FileName(b.env));
    SamePathIff(base, a, b);
  }

  lemma SnocInjective<T>(s: seq<T>, x: T, s': seq<T>, x': T)
    ensures s + [x] == s' + [x'] <==> s == s' && x == x'
  {
    if s + [x] == s' + [x'] {
      assert (s + [x])[|s|] == x && (s' + [x'])[|s'|] == x';
      assert (s + [x])[..|s|] == s && (s' + [x'])[..|s'|] == s';
    }
  }

  /** A clean path is the print of its components. */
  lemma SamePathIff(base: string, a: Scope, b: Scope)
    requires Inbox.IsAbs(ScopePath(base, a)) == Inbox.IsAbs(ScopePath(base, b))
    ensures ScopePath(base, a) == ScopePath(base, b)
       <==> Inbox.Resolve(ScopePath(base, a)) == Inbox.Resolve(ScopePath(base, b))
  {
    Inbox.CleanIdempotent(WithSlash(base) + WithSlash(a.project) + FileName(a.env));
    Inbox.CleanIdempotent(WithSlash(base) + WithSlash(b.project) + FileName(b.env));
  }

  lemma EnteredIff(rooted: bool, stack: seq<string>, p: string, q: string)
    requires p != "" && q != "" && Inbox.IsClean(rooted, stack)
    ensures Inbox.Enter(rooted, stack, p) == Inbox.Enter(rooted, stack, q)
       <==> p == q || (rooted && stack == [] && IsDots(p) && IsDots(q))
  {
    if !IsDots(p) { assert (stack + [p])[|stack|] == p; }
    if !IsDots(q) { assert (stack + [q])[|stack|] == q; }
  }

  lemma FileNameInjective(a: string, b: string)
    ensures FileName(a) == FileName(b) <==> a == b
  {
    assert FileName(a)[..|a|] == a && FileName(b)[..|b|] == b;
  }

  /** Each scope has a lock of its own: the keys of the lock table tell such scopes apart as their files do. */
  lemma LocksKeepApart(a: Scope, b: Scope)
    requires SlashFree(a) && SlashFree(b)
    ensures a.project + ['/'] + a.env == b.project + ['/'] + b.env <==> a == b
  {
    SplitFirst(a.project, a.env, '/');
    SplitFirst(b.project, b.env, '/');
    assert Split(a.env, '/') == [a.env] && Split(b.env, '/') == [b.env];
    SplitFirstParts(a);
    SplitFirstParts(b);
  }

  lemma SplitFirstParts(s: Scope)
    requires SlashFree(s)
    ensures Split(s.project + ['/'] + s.env, '/') == [s.project, s.env]
  {
    SplitFirst(s.project, s.env, '/');
    assert Split(s.env, '/') == [s.env];
    assert [s.project] + [s.env] == [s.project, s.env];
  }

  // ---------------------------------------------------------------- which scopes requests can name

  datatype Target = Target(scope: Scope, key: Option<string>)

  /** route: what follows `/vars/` is cut at its first two slashes. */
  function Route(rest: string): Option<Target> {
    if '/' !in rest then None
    else
      var i := IndexOf(rest, '/');
      var project, tail := rest[..i], rest[i + 1..];
      var env := if '/' in tail then tail[..IndexOf(tail, '/')] else tail;
      var key := if '/' in tail then tail[IndexOf(tail, '/') + 1..] else "";
      if project == "" || env == "" then None
      else Some(Target(Scope(project, env), if key == "" then None else Some(key)))
  }

  /** Every scope a request names is slash free. */
  lemma RoutedIsSlashFree(rest: string)
    ensures Route(rest).Some? ==> SlashFree(Route(rest).value.scope) && Route(rest).value.scope.env != ""
  {
  }

  /** And every such scope is named, with any key. */
  lemma RouteReadsBack(s: Scope, key: string)
    requires SlashFree(s) && s.env != ""
    ensures Route(s.project + ['/'] + s.env) == Some(Target(s, None))
    ensures Route(s.project + ['/'] + (s.env + ['/'] + key)) == Some(Target(s, if key == "" then None else Some(key)))
  {
    CutAtSlash(s.project, s.env);
    CutAtSlash(s.project, s.env + ['/'] + key);
    CutAtSlash(s.env, key);
  }

  lemma CutAtSlash(head: string, tail: string)
    requires '/' !in head
    ensures var s := head + ['/'] + tail;
            '/' in s && IndexOf(s, '/') == |head| && s[..|head|] == head && s[|head| + 1..] == tail
  {
    FirstIndex(head, tail, '/');
    assert (head + ['/'] + tail)[|head|] == '/';
  }

  /** So two requests meet in one file if and only if they name one scope, unless the base directory is the root. */
  lemma RequestsKeepApartIff(base: string, x: string, y: string)
    requires Route(x).Some? && Route(y).Some? && !IsRoot(base)
    ensures ScopePath(base, Route(x).value.scope) == ScopePath(base, Route(y).value.scope)
       <==> Route(x).value.scope == Route(y).value.scope
  {
    RoutedIsSlashFree(x);
    RoutedIsSlashFree(y);
    ScopesKeepApartIff(base, Route(x).value.scope, Route(y).value.scope);
  }

  /** A direct caller may pass a slash: a project that climbs out of its directory lands on another's file. */
  lemma ClimbingScopesMeet()
    ensures var a, b := Scope("x/../y", "e"), Scope("y", "e");
            a != b && !SlashFree(a) && ScopePath("/v", a) == ScopePath("/v", b)
  {
    ClimbsBack("/v", "x", "y", "e");
    assert "x" + "/../" + "y" == "x/../y";
    assert "x/../y"[0] != "y"[0] && "x/../y"[1] == '/';
  }

  lemma ResolveChild(dir: string, name: string)
    requires dir != "" && Inbox.IsName(name)
    ensures Inbox.Resolve(dir + ['/'] + name) == Inbox.Resolve(dir) + [name]
    ensures Inbox.IsAbs(dir + ['/'] + name) == Inbox.IsAbs(dir)
  {
    Inbox.ResolveOfJoined(dir, name);
    WalkName(Inbox.IsAbs(dir), Inbox.Resolve(dir), name);
  }

  lemma ResolveParent(dir: string, name: string)
    requires dir != "" && Inbox.IsName(name)
    ensures var up := dir + ['/'] + name + ['/'] + ['.', '.'];
            Inbox.Resolve(up) == Inbox.Resolve(dir) && Inbox.IsAbs(up) == Inbox.IsAbs(dir)
  {
    var child := dir + ['/'] + name;
    var r := Inbox.Resolve(dir);
    ResolveChild(dir, name);
    Inbox.ResolveOfJoined(child, ['.', '.']);
    assert Split(['.', '.'], '/') == [['.', '.']] && [['.', '.']][1..] == [];
    assert Inbox.Enter(Inbox.IsAbs(dir), r + [name], ['.', '.']) == r by {
      assert (r + [name])[..|r|] == r;
    }
    assert Inbox.Walk(Inbox.IsAbs(dir), r, []) == r;
  }

  lemma ClimbsBack(base: string, x: string, y: string, env: string)
    requires base != "" && Inbox.IsName(x) && Inbox.IsName(y) && '/' !in env
    ensures ScopePath(base, Scope(x + "/../" + y, env)) == ScopePath(base, Scope(y, env))
  {
    var up := base + ['/'] + x + ['/'] + ['.', '.'];
    FileNameIsName(env);
    ResolveParent(base, x);
    ResolveChild(up, y);
    ResolveChild(up + ['/'] + y, FileName(env));
    ResolveChild(base, y);
    ResolveChild(base + ['/'] + y, FileName(env));
    PathsAsJoined(base, x, y, FileName(env));
  }

  lemma PathsAsJoined(base: string, x: string, y: string, file: string)
    requires base != "" && y != ""
    ensures base + ['/'] + x + ['/'] + ['.', '.'] + ['/'] + y + ['/'] + file
         == WithSlash(base) + WithSlash(x + "/../" + y) + file
    ensures base + ['/'] + y + ['/'] + file == WithSlash(base) + WithSlash(y) + file
  {
    assert "/../" == ['/'] + ['.', '.'] + ['/'];
    Regrouped(base, ['/'], x, ['.', '.'], y, file);
  }

  lemma Regrouped(b: string, s: string, x: string, d: string, y: string, f: string)
    ensures b + s + x + s + d + s + y + s + f == (b + s) + ((x + (s + d + s) + y) + s) + f
    ensures b + s + y + s + f == (b + s) + (y + s) + f
  {
  }

  lemma KeepsWellKeyed(vars: Vars, key: string, value: string, now: string, caller: string)
    requires WellKeyed(vars) && !Reserved(key)
    ensures ValidKey(key) ==> WellKeyed(Stamped(vars[key := value], now, caller))
    ensures WellKeyed(Stamped(vars - {key}, now, caller))
  {
    MetaKeysReserved();
  }

  /** Collecting the keys in map order and sorting them. */
  method SortedKeys(vars: Vars) returns (keys: seq<string>)
    ensures keys == SortedNames(vars.Keys)
  {
    keys := [];
    var left := vars.Keys;
    while left != {}
      invariant left <= vars.Keys
      invariant forall i, j :: 0 <= i < j < |keys| ==> keys[i] != keys[j]
      invariant forall k :: k in keys <==> k in vars.Keys - left
      decreases |left|
    {
      var k :| k in left;
      left := left - {k};
      assert k !in keys;
      keys := keys + [k];
    }
    SortedListing(keys, vars.Keys);
    keys := Sort(AtMost, keys);
  }

  /** The rendering loop: one line for each key, in order. */
  method EnvLines(vars: Vars) returns (text: string)
    ensures text == EnvText(Sorted(vars))
  {
    var keys := SortedKeys(vars);
    text := "";
    for i := 0 to |keys|
      invariant text == EnvText(Pairs(keys[..i], vars))
    {
      assert keys[i] in keys;
      EnvTextSnoc(keys, i, vars);
      text := text + EnvLine(Pair(keys[i], vars[keys[i]]));
    }
    assert keys[..|keys|] == keys;
  }

  // ---------------------------------------------------------------- quoting and reading back

  /** strings.ReplaceAll(s, "'", "'\''"). */
  function Escaped(s: string): string {
    if s == "" then "" else (if s[0] == '\'' then "'\\''" else [s[0]]) + Escaped(s[1..])
  }

  function ShellQuote(s: string): string { "'" + Escaped(s) + "'" }

  /** Texts with a mark between each two: what replacing every apostrophe in their join comes to. */
  function JoinMarked(parts: seq<string>, mark: string): string
    requires |parts| >= 1
  {
    if |parts| == 1 then parts[0] else parts[0] + mark + JoinMarked(parts[1..], mark)
  }

  lemma {:induction false} EscapedFree(s: string, rest: string)
    requires '\'' !in s
    ensures Escaped(s + rest) == s + Escaped(rest)
  {
    if s == "" {
      assert s + rest == rest;
    } else {
      assert s[0] in s && (s + rest)[1..] == s[1..] + rest;
      EscapedFree(s[1..], rest);
      assert s == [s[0]] + s[1..];
    }
  }

  /** Every apostrophe of a value, and nothing else, is replaced, and the whole is in single quotes. */
  lemma {:induction false} QuotedIs(parts: seq<string>)
    requires |parts| >= 1 && forall p :: p in parts ==> '\'' !in p
    ensures ShellQuote(Join(parts, '\'')) == "'" + JoinMarked(parts, "'\\''") + "'"
  {
    assert parts[0] in parts;
    if |parts| == 1 {
      EscapedFree(parts[0], "");
      assert parts[0] + "" == parts[0];
    } else {
      QuotedIs(parts[1..]);
      var rest := Join(parts[1..], '\'');
      var tail := ['\''] + rest;
      assert Join(parts, '\'') == parts[0] + tail;
      EscapedFree(parts[0], tail);
      assert tail[1..] == rest && Escaped(tail) == "'\\''" + Escaped(rest);
      SameInQuotes(Escaped(rest), JoinMarked(parts[1..], "'\\''"));
    }
  }

  lemma SameInQuotes(a: string, b: string)
    requires "'" + a + "'" == "'" + b + "'"
    ensures a == b
  {
    assert ("'" + a + "'")[1..|a| + 1] == a && ("'" + b + "'")[1..|b| + 1] == b;
  }

  datatype Pair = Pair(key: string, value: string)

  function Pairs(keys: seq<string>, vars: Vars): seq<Pair>
    requires forall k :: k in keys ==> k in vars
  {
    seq(|keys|, i requires 0 <= i < |keys| => assert keys[i] in keys; Pair(keys[i], vars[keys[i]]))
  }

  /** The pairs of a map in the order of their keys. */
  function Sorted(vars: Vars): seq<Pair> { Pairs(SortedNames(vars.Keys), vars) }

  function EnvLine(p: Pair): string { p.key + "=" + ShellQuote(p.value) + "\n" }

  function EnvText(pairs: seq<Pair>): string {
    if pairs == [] then "" else EnvText(pairs[..|pairs| - 1]) + EnvLine(pairs[|pairs| - 1])
  }

  /** A character that means itself outside quotes. */
  predicate IsPlain(c: char) { IsKeyChar(c) || c == ':' || c == ',' || c == '+' || c == '@' || c == '%' }

  /** A word read and the text after its line. */
  datatype Word = Word(value: string, rest: string) | NoWord

  /**
   The rest of a word, up to the unquoted newline or the end. Inside single quotes every character is
   literal; outside, a backslash keeps the next character literal and before a newline joins the lines;
   any other character with a meaning to the shell is refused.
   */
  function ReadWord(s: string, quoted: bool): Word {
    if s == "" then (if quoted then NoWord else Word("", ""))
    else if quoted then
      if s[0] == '\'' then ReadWord(s[1..], false) else Prepend(s[0], ReadWord(s[1..], true))
    else if s[0] == '\n' then Word("", s[1..])
    else if s[0] == '\'' then ReadWord(s[1..], true)
    else if s[0] == '\\' then
      if |s| == 1 then NoWord
      else if s[1] == '\n' then ReadWord(s[2..], false)
      else Prepend(s[1], ReadWord(s[2..], false))
    else if IsPlain(s[0]) then Prepend(s[0], ReadWord(s[1..], false))
    else NoWord
  }

  function Prepend(c: char, w: Word): Word {
    if w.NoWord? then w else Word([c] + w.value, w.rest)
  }

  lemma {:induction false} ReadWordShortens(s: string, quoted: bool)
    ensures ReadWord(s, quoted).Word? ==> |ReadWord(s, quoted).rest| <= |s|
    ensures ReadWord(s, quoted).Word? && s != "" ==> |ReadWord(s, quoted).rest| < |s|
    decreases |s|
  {
    if |s| >= 1 {
      ReadWordShortens(s[1..], false);
      ReadWordShortens(s[1..], true);
    }
    if |s| >= 2 {
      ReadWordShortens(s[2..], false);
    }
  }

  /** key=word lines, in order; None if the text is anything else. */
  function ReadEnv(text: string): Option<seq<Pair>>
    decreases |text|
  {
    if text == "" then Some([])
    else
      var i := IndexOf(text, '=');
      if i == |text| then None
      else
        var word := ReadWord(text[i + 1..], false);
        ReadWordShortens(text[i + 1..], false);
        if word.NoWord? then None
        else
          match ReadEnv(word.rest)
          case None => None
          case Some(pairs) => Some([Pair(text[..i], word.value)] + pairs)
  }

  /** Quote removal undoes shellQuote, whatever the value holds, and stops at the end of its line. */
  lemma {:induction false} QuotedReadsBack(v: string, rest: string)
    ensures ReadWord(Escaped(v) + "'\n" + rest, true) == Word(v, rest)
    decreases |v|
  {
    var s := Escaped(v) + "'\n" + rest;
    if v == "" {
      assert s[0] == '\'' && s[1..][0] == '\n' && s[1..][1..] == rest;
    } else {
      var tail := Escaped(v[1..]) + "'\n" + rest;
      QuotedReadsBack(v[1..], rest);
      if v[0] == '\'' {
        assert s == "'\\''" + tail;
        QuoteGap(tail);
      } else {
        assert s == [v[0]] + tail && s[1..] == tail;
      }
      assert v == [v[0]] + v[1..];
    }
  }

  /** The four characters an apostrophe becomes: close, escaped apostrophe, open. */
  lemma QuoteGap(tail: string)
    ensures ReadWord("'\\''" + tail, true) == Prepend('\'', ReadWord(tail, true))
  {
    var s := "'\\''" + tail;
    assert s[0] == '\'' && s[1] == '\\' && s[2] == '\'' && s[3] == '\'';
    var s1 := s[1..];
    assert s1[0] == '\\' && s1[1] == '\'' && s1[2..][0] == '\'' && s1[2..][1..] == tail;
    assert ReadWord(s1[2..], false) == ReadWord(tail, true);
    assert ReadWord(s1, false) == Prepend('\'', ReadWord(s1[2..], false));
  }

  /** A quoted word at the front of a line is read whole. */
  lemma QuotedWordReadsBack(v: string, rest: string)
    ensures ReadWord(ShellQuote(v) + ("\n" + rest), false) == Word(v, rest)
  {
    var word := ShellQuote(v) + ("\n" + rest);
    var inner := Escaped(v) + "'\n" + rest;
    assert word[0] == '\'' && word[1..] == inner;
    QuotedReadsBack(v, rest);
  }

  /** Reading splits at the first equals sign. */
  lemma ReadEnvStep(key: string, word: string)
    requires '=' !in key
    ensures var w := ReadWord(word, false);
            ReadEnv(key + ['='] + word) ==
            if w.NoWord? || |w.rest| > |word| || ReadEnv(w.rest).None? then None
            else Some([Pair(key, w.value)] + ReadEnv(w.rest).value)
  {
    var text := key + ['='] + word;
    FirstIndex(key, word, '=');
    assert text[..|key|] == key && text[|key| + 1..] == word;
    ReadWordShortens(word, false);
  }

  lemma LineReadsBack(p: Pair, rest: string)
    requires '=' !in p.key
    ensures ReadEnv(EnvLine(p) + rest) == if ReadEnv(rest).None? then None else Some([p] + ReadEnv(rest).value)
  {
    var word := ShellQuote(p.value) + ("\n" + rest);
    assert EnvLine(p) + rest == p.key + ['='] + word;
    QuotedWordReadsBack(p.value, rest);
    ReadWordShortens(word, false);
    ReadEnvStep(p.key, word);
  }

  lemma {:induction false} EnvTextCons(p: Pair, pairs: seq<Pair>)
    ensures EnvText([p] + pairs) == EnvLine(p) + EnvText(pairs)
    decreases |pairs|
  {
    var all := [p] + pairs;
    if pairs == [] {
      assert all[..0] == [];
      assert "" + EnvLine(p) == EnvLine(p) + "";
    } else {
      var m := |pairs| - 1;
      assert all[..|all| - 1] == [p] + pairs[..m];
      EnvTextCons(p, pairs[..m]);
      assert EnvLine(p) + EnvText(pairs[..m]) + EnvLine(pairs[m])
          == EnvLine(p) + (EnvText(pairs[..m]) + EnvLine(pairs[m]));
    }
  }

  lemma EnvTextSnoc(keys: seq<string>, i: nat, vars: Vars)
    requires i < |keys| && forall k :: k in keys ==> k in vars
    ensures EnvText(Pairs(keys[..i + 1], vars))
         == EnvText(Pairs(keys[..i], vars)) + EnvLine(Pair(keys[i], vars[keys[i]]))
  {
    var longer := Pairs(keys[..i + 1], vars);
    assert longer[..i] == Pairs(keys[..i], vars);
    assert longer[i] == Pair(keys[i], vars[keys[i]]);
  }

  lemma ValidKeyHasNoEquals(key: string)
    requires ValidKey(key)
    ensures '=' !in key
  {
    assert !IsKeyChar('=');
  }

  /** Rendering then reading gives back the pairs, in order. */
  lemma {:induction false} EnvRoundTrip(pairs: seq<Pair>)
    requires forall i :: 0 <= i < |pairs| ==> '=' !in pairs[i].key
    ensures ReadEnv(EnvText(pairs)) == Some(pairs)
    decreases |pairs|
  {
    if pairs != [] {
      EnvTextCons(pairs[0], pairs[1..]);
      assert pairs == [pairs[0]] + pairs[1..];
      EnvRoundTrip(pairs[1..]);
      LineReadsBack(pairs[0], EnvText(pairs[1..]));
    }
  }

  function MapOf(pairs: seq<Pair>): Vars {
    if pairs == [] then map[] else MapOf(pairs[..|pairs| - 1])[pairs[|pairs| - 1].key := pairs[|pairs| - 1].value]
  }

  lemma {:induction false} MapOfPairs(keys: seq<string>, vars: Vars)
    requires forall k :: k in keys ==> k in vars
    ensures MapOf(Pairs(keys, vars)) == map k | k in vars && k in keys :: vars[k]
  {
    if keys != [] {
      var m := |keys| - 1;
      assert Pairs(keys, vars)[..m] == Pairs(keys[..m], vars);
      assert keys[m] in keys && forall k :: k in keys <==> k in keys[..m] || k == keys[m];
      MapOfPairs(keys[..m], vars);
    }
  }

  /** The text reads back as the pairs of the map in key order, which rebuild it. */
  ghost predicate ReadsBack(text: string, vars: Vars) {
    ReadEnv(text) == Some(Sorted(vars)) && MapOf(Sorted(vars)) == vars
  }

  /** The rendering of a well keyed map reads back as its pairs in key order, which rebuild the map. */
  lemma RenderingReadsBack(vars: Vars)
    requires forall k :: k in vars ==> ValidKey(k)
    ensures ReadsBack(EnvText(Sorted(vars)), vars)
  {
    var pairs := Sorted(vars);
    var keys := SortedNames(vars.Keys);
    forall i | 0 <= i < |pairs| ensures '=' !in pairs[i].key {
      assert keys[i] in keys;
      ValidKeyHasNoEquals(keys[i]);
    }
    EnvRoundTrip(pairs);
    MapOfPairs(keys, vars);
  }
}
