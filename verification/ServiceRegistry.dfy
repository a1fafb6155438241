/** The debounced service registry: internal/services/registry.go. */
module ServiceRegistry {
  import opened Text
  import opened Order
  import opened Wrappers

  /** A validated service definition; `rest` stands for the fields the registry does not look at. */
  datatype Service = Service(name: string, rest: string)

  type Services = map<string, Service>

  /** What stands under a name: a directory, or a file that loadOne rejects or accepts. */
  datatype Entry = SubDir | BadFile | GoodFile(service: Service)

  type Directory = map<string, Entry>

  predicate IsToml(name: string) { HasSuffix(name, ".toml") }

  predicate Loadable(dir: Directory, name: string) {
    name in dir && !dir[name].SubDir? && IsToml(name)
  }

  /** Reading one listed file; a file that vanished or does not validate is skipped. */
  function ReadInto(loaded: Services, dir: Directory, name: string): Services {
    if name in dir && dir[name].GoodFile? then loaded[dir[name].service.name := dir[name].service] else loaded
  }

  function ReadAll(loaded: Services, dir: Directory, names: seq<string>): Services
    decreases |names|
  {
    if names == [] then loaded else ReadAll(ReadInto(loaded, dir, names[0]), dir, names[1..])
  }

  /** The files a listing offers, in the order os.ReadDir sorts them. */
  function Listing(dir: Directory): seq<string> {
    SortedNames(set name | name in dir && Loadable(dir, name))
  }

  /** The services a directory defines: of files that claim one name, the last in order wins. */
  function ServicesIn(dir: Directory): Services {
    ReadAll(map[], dir, Listing(dir))
  }

  // ---------------------------------------------------------------- loading

  predicate AllToml(names: seq<string>) { forall n :: n in names ==> IsToml(n) }

  function KeepLoadable(dir: Directory, names: seq<string>): seq<string> {
    if names == [] then []
    else KeepLoadable(dir, names[..|names| - 1])
         + (if Loadable(dir, names[|names| - 1]) then [names[|names| - 1]] else [])
  }

  lemma {:induction false} KeepLoadableMembers(dir: Directory, names: seq<string>)
    ensures forall x :: x in KeepLoadable(dir, names) <==> x in names && Loadable(dir, x)
  {
    if names != [] {
      var m := |names| - 1;
      KeepLoadableMembers(dir, names[..m]);
      assert forall x :: x in names <==> x in names[..m] || x == names[m];
    }
  }

  /** Strictly ascending. */
  ghost predicate Ascending(names: seq<string>) {
    SortedBy(AtMost, names) && forall i, j :: 0 <= i < j < |names| ==> names[i] != names[j]
  }

  lemma {:induction false} KeepLoadableAscends(dir: Directory, names: seq<string>)
    requires Ascending(names)
    ensures Ascending(KeepLoadable(dir, names))
  {
    if names != [] {
      var m := |names| - 1;
      var kept := KeepLoadable(dir, names[..m]);
      KeepLoadableAscends(dir, names[..m]);
      KeepLoadableMembers(dir, names[..m]);
      forall i | 0 <= i < |kept| ensures AtMost(kept[i], names[m]) && kept[i] != names[m] {
        assert kept[i] in names[..m];
      }
    }
  }

  /** Skipping entries of a sorted listing one by one gives the sorted listing of what is left. */
  lemma ListingIsKept(dir: Directory, names: seq<string>)
    requires Ascending(names) && forall n :: n in dir && Loadable(dir, n) ==> n in names
    ensures KeepLoadable(dir, names) == Listing(dir)
  {
    KeepLoadableMembers(dir, names);
    KeepLoadableAscends(dir, names);
    ListingUnique(KeepLoadable(dir, names), Listing(dir));
  }

  /** Reading names that are not there changes nothing. */
  lemma {:induction false} ReadAllKept(loaded: Services, dir: Directory, names: seq<string>)
    requires AllToml(names)
    ensures ReadAll(loaded, dir, KeepLoadable(dir, names)) == ReadAll(loaded, dir, names)
    decreases |names|
  {
    if names != [] {
      var m := |names| - 1;
      var kept := KeepLoadable(dir, names[..m]);
      assert names == names[..m] + [names[m]];
      assert forall n :: n in names[..m] ==> n in names;
      ReadAllKept(loaded, dir, names[..m]);
      ReadAllSnoc(loaded, dir, names[..m], names[m]);
      ReadAllSnoc(loaded, dir, kept, names[m]);
      assert names[m] in names && kept + [] == kept;
    }
  }

  /** The services of a directory some of whose files cannot be read are those of its listing, read without them. */
  lemma ServicesWithout(dir: Directory, unreadable: set<string>)
    ensures ServicesIn(dir - unreadable) == ReadAll(map[], dir - unreadable, Listing(dir))
  {
    var rest := dir - unreadable;
    assert forall n :: n in rest ==> n in dir && rest[n] == dir[n];
    ListingIsKept(rest, Listing(dir));
    ReadAllKept(map[], rest, Listing(dir));
  }

  lemma {:induction false} ReadAllSnoc(loaded: Services, dir: Directory, names: seq<string>, name: string)
    ensures ReadAll(loaded, dir, names + [name]) == ReadInto(ReadAll(loaded, dir, names), dir, name)
    decreases |names|
  {
    if names == [] {
      assert [] + [name] == [name] && [name][1..] == [];
    } else {
      assert (names + [name])[1..] == names[1..] + [name];
      ReadAllSnoc(ReadInto(loaded, dir, names[0]), dir, names[1..], name);
    }
  }

  // ---------------------------------------------------------------- what a directory defines

  predicate IsTomlName(name: string) { |name| >= 5 && name[|name| - 5..] == ".toml" }

  /** A .toml file of the directory that holds a valid definition of this service. */
  ghost predicate Defines(dir: Directory, file: string, service: string) {
    file in dir && IsTomlName(file) && dir[file].GoodFile? && dir[file].service.name == service
  }

  /** Of the files that define the service, the one with the greatest name. */
  ghost predicate LastToDefine(dir: Directory, file: string, service: string) {
    Defines(dir, file, service) && forall other :: Defines(dir, other, service) ==> AtMost(other, file)
  }

  ghost predicate LastIn(dir: Directory, names: seq<string>, i: int, service: string) {
    && 0 <= i < |names| && names[i] in dir && dir[names[i]].GoodFile? && dir[names[i]].service.name == service
    && forall j :: i < j < |names| && names[j] in dir && dir[names[j]].GoodFile? ==>
         dir[names[j]].service.name != service
  }

  /** Files are read one after the other, each adding its service to those before. */
  lemma {:induction false} ReadAllHolds(dir: Directory, names: seq<string>, service: string)
    ensures var read := ReadAll(map[], dir, names);
            && (service in read <==> exists i :: LastIn(dir, names, i, service))
            && forall i :: LastIn(dir, names, i, service) ==> service in read && read[service] == dir[names[i]].service
    decreases |names|
  {
    if names != [] {
      var m := |names| - 1;
      var rest := names[..m];
      ReadAllHolds(dir, rest, service);
      ReadAllSnoc(map[], dir, rest, names[m]);
      assert names == rest + [names[m]];
      if names[m] in dir && dir[names[m]].GoodFile? && dir[names[m]].service.name == service {
        assert LastIn(dir, names, m, service);
        assert forall i :: LastIn(dir, names, i, service) ==> i == m;
      } else {
        forall i ensures LastIn(dir, names, i, service) <==> LastIn(dir, rest, i, service) {
          assert forall j :: 0 <= j < m ==> names[j] == rest[j];
        }
      }
    }
  }

  lemma LastInListing(dir: Directory, i: int, service: string)
    requires LastIn(dir, Listing(dir), i, service)
    ensures LastToDefine(dir, Listing(dir)[i], service)
  {
    var names := Listing(dir);
    assert names[i] in names;
    forall other | Defines(dir, other, service) ensures AtMost(other, names[i]) {
      assert other in names;
      var j :| 0 <= j < |names| && names[j] == other;
      LessAsymmetric(other, other);
    }
  }

  lemma SomeIsLast(dir: Directory, names: seq<string>, j: nat, service: string) returns (i: nat)
    requires j < |names| && names[j] in dir && dir[names[j]].GoodFile? && dir[names[j]].service.name == service
    ensures LastIn(dir, names, i, service)
    decreases |names| - j
  {
    if k :| j < k < |names| && names[k] in dir && dir[names[k]].GoodFile? && dir[names[k]].service.name == service {
      i := SomeIsLast(dir, names, k, service);
    } else {
      i := j;
    }
  }

  lemma DefinedHasLast(dir: Directory, file: string, service: string) returns (i: nat)
    requires Defines(dir, file, service)
    ensures LastIn(dir, Listing(dir), i, service) && LastToDefine(dir, Listing(dir)[i], service)
  {
    var names := Listing(dir);
    assert file in names;
    var j :| 0 <= j < |names| && names[j] == file;
    i := SomeIsLast(dir, names, j, service);
    LastInListing(dir, i, service);
  }

  lemma LastDefines(dir: Directory, file: string, service: string)
    requires LastToDefine(dir, file, service)
    ensures service in ServicesIn(dir) && ServicesIn(dir)[service] == dir[file].service
  {
    var i := DefinedHasLast(dir, file, service);
    ReadAllHolds(dir, Listing(dir), service);
    LessTotal(file, Listing(dir)[i]);
  }

  lemma ServicesAreDefined(dir: Directory, service: string) returns (file: string)
    requires service in ServicesIn(dir)
    ensures LastToDefine(dir, file, service)
  {
    ReadAllHolds(dir, Listing(dir), service);
    var i :| LastIn(dir, Listing(dir), i, service);
    LastInListing(dir, i, service);
    file := Listing(dir)[i];
  }

  /**
   What a directory defines: a service is there exactly if a .toml file holds a valid definition of it, as the
   greatest such file name has it.
   */
  lemma ServicesInIff(dir: Directory, service: string)
    ensures service in ServicesIn(dir) <==> exists file :: Defines(dir, file, service)
    ensures service in ServicesIn(dir) <==> exists file :: LastToDefine(dir, file, service)
    ensures forall file :: LastToDefine(dir, file, service) ==>
              service in ServicesIn(dir) && ServicesIn(dir)[service] == dir[file].service
  {
    if service in ServicesIn(dir) {
      var file := ServicesAreDefined(dir, service);
    }
    if file :| Defines(dir, file, service) {
      var i := DefinedHasLast(dir, file, service);
      LastDefines(dir, Listing(dir)[i], service);
    }
    forall file | LastToDefine(dir, file, service)
      ensures service in ServicesIn(dir) && ServicesIn(dir)[service] == dir[file].service
    {
      LastDefines(dir, file, service);
    }
  }

  lemma KeepOneMore(dir: Directory, names: seq<string>, i: nat)
    requires i < |names|
    ensures ReadAll(map[], dir, KeepLoadable(dir, names[..i + 1]))
         == if Loadable(dir, names[i]) then ReadInto(ReadAll(map[], dir, KeepLoadable(dir, names[..i])), dir, names[i])
            else ReadAll(map[], dir, KeepLoadable(dir, names[..i]))
  {
    assert names[..i + 1][..i] == names[..i];
    var kept := KeepLoadable(dir, names[..i]);
    ReadAllSnoc(map[], dir, kept, names[i]);
    assert kept + [] == kept;
  }

  /**
   LoadDir on a directory that does not change meanwhile; None when it cannot be listed, and files that cannot
   be read are skipped. A missing directory counts as empty.
   */
  method LoadDir(dir: Directory, unlistable: bool, unreadable: set<string>) returns (loaded: Option<Services>)
    ensures loaded == if unlistable then None else Some(ServicesIn(dir - unreadable))
    ensures loaded.Some? ==>
              forall service :: service in loaded.value <==> exists file :: Defines(dir - unreadable, file, service)
  {
    if unlistable { return None; }
    forall service
      ensures service in ServicesIn(dir - unreadable) <==> exists file :: Defines(dir - unreadable, file, service)
    {
      ServicesInIff(dir - unreadable, service);
    }
    var entries := SortedNames(dir.Keys);
    var services: Services := map[];
    ghost var rest := dir - unreadable;
    for i := 0 to |entries|
      invariant services == ReadAll(map[], rest, KeepLoadable(rest, entries[..i]))
    {
      var name := entries[i];
      KeepOneMore(rest, entries, i);
      assert name in entries;
      if dir[name].SubDir? || !IsToml(name) { continue; }
      if name in unreadable || dir[name].BadFile? { continue; }
      assert name in rest && rest[name] == dir[name];
      services := services[dir[name].service.name := dir[name].service];
    }
    assert entries[..|entries|] == entries;
    ListingIsKept(rest, entries);
    loaded := Some(services);
  }

  // ---------------------------------------------------------------- the registry, step by step

  datatype Op = Write | Create | Rename | Remove | Chmod

  datatype FsEvent = FsEvent(name: string, op: Op)

  predicate Relevant(e: FsEvent) { IsToml(e.name) && e.op != Chmod }

  /** A Go timer: counting down, or with its tick waiting in the channel. */
  datatype Timer = Timer(armed: bool, ticked: bool)

  const STOPPED := Timer(false, false)

  /** The loop's reload under way: files still to read, and what was read so far. */
  datatype Load = NoLoad | Loading(pending: seq<string>, loaded: Services)

  /**
   A handler's reload under way. `stale` records that a relevant file changed after its listing, or that it
   skipped a good one.
   */
  datatype HandlerLoad = HandlerLoad(pending: seq<string>, loaded: Services, stale: bool)

  /**
   `failed` records that the loop's last reload could not list the directory or could not read a good file,
   and nothing made up for it.
   */
  datatype State = State(dir: Directory, queue: seq<FsEvent>, timer: Timer, load: Load,
                         handlers: map<nat, HandlerLoad>, failed: bool, services: Services)

  /** A registry that has just loaded its directory. */
  function Loaded(dir: Directory): State {
    State(dir, [], STOPPED, NoLoad, map[], false, ServicesIn(dir))
  }

  /**
   What can happen next. The world changes an entry, and the watcher queues an event for it, or queues
   one for nothing; the timer runs out; the loop, when it is not reloading, takes an event, or takes a
   tick and lists the directory or fails to; its reload reads a file, skips one it cannot read, or publishes.
   Any number of request handlers list, read, skip and publish on their own.
   */
  datatype Step =
    | Change(name: string, entry: Option<Entry>, op: Op)
    | Noise(event: FsEvent)
    | TimerExpires
    | TakeEvent
    | TakeTick
    | ListFails
    | ReadNext
    | SkipNext
    | Publish
    | HandlerLists(h: nat)
    | HandlerReads(h: nat)
    | HandlerSkips(h: nat)
    | HandlerPublishes(h: nat)

  /** A change is reported as a write, create, rename or remove. */
  predicate Reported(step: Step) { step.Change? ==> step.op != Chmod }

  /** resetRegistryTimer: stop; if it was not running, drain a waiting tick; start again. */
  function ResetTimer(t: Timer): Timer {
    Timer(true, if t.armed then t.ticked else false)
  }

  function AllStale(handlers: map<nat, HandlerLoad>): map<nat, HandlerLoad> {
    map h | h in handlers :: handlers[h].(stale := true)
  }

  function Changed(s: State, name: string, entry: Option<Entry>, op: Op): State {
    s.(dir := (match entry case Some(e) => s.dir[name := e] case None => s.dir - {name}),
       queue := s.queue + [FsEvent(name, op)],
       handlers := if IsToml(name) then AllStale(s.handlers) else s.handlers)
  }

  function Next(s: State, step: Step): State {
    match step
    case Change(name, entry, op) => Changed(s, name, entry, op)
    case Noise(event) => s.(queue := s.queue + [event])
    case TimerExpires => if s.timer.armed then s.(timer := Timer(false, true)) else s
    case TakeEvent =>
      if s.load.NoLoad? && s.queue != [] then
        s.(queue := s.queue[1..], timer := if Relevant(s.queue[0]) then ResetTimer(s.timer) else s.timer)
      else s
    case TakeTick =>
      if s.load.NoLoad? && s.timer.ticked then
        s.(timer := s.timer.(ticked := false), load := Loading(Listing(s.dir), map[]), failed := false)
      else s
    case ListFails =>
      if s.load.NoLoad? && s.timer.ticked then s.(timer := s.timer.(ticked := false), failed := true) else s
    case ReadNext =>
      if s.load.Loading? && s.load.pending != [] then
        s.(load := Loading(s.load.pending[1..], ReadInto(s.load.loaded, s.dir, s.load.pending[0])))
      else s
    case SkipNext =>
      if s.load.Loading? && s.load.pending != [] then
        s.(load := Loading(s.load.pending[1..], s.load.loaded), failed := s.failed || IsGood(s.dir, s.load.pending[0]))
      else s
    case Publish =>
      if s.load.Loading? && s.load.pending == [] then s.(load := NoLoad, services := s.load.loaded) else s
    case HandlerLists(h) =>
      if h in s.handlers then s else s.(handlers := s.handlers[h := HandlerLoad(Listing(s.dir), map[], false)])
    case HandlerReads(h) =>
      if h in s.handlers && s.handlers[h].pending != [] then
        s.(handlers := s.handlers[h := HandlerRead(s.handlers[h], s.dir)])
      else s
    case HandlerSkips(h) =>
      if h in s.handlers && s.handlers[h].pending != [] then
        s.(handlers := s.handlers[h := HandlerSkip(s.handlers[h], s.dir)])
      else s
    case HandlerPublishes(h) =>
      if Ready(s, h) then
        s.(handlers := s.handlers - {h}, services := s.handlers[h].loaded,
           failed := s.failed && (s.handlers[h].stale || s.load.Loading?))
      else s
  }

  predicate IsGood(dir: Directory, name: string) { name in dir && dir[name].GoodFile? }

  /** The handler has read everything it listed. */
  predicate Ready(s: State, h: nat) { h in s.handlers && s.handlers[h].pending == [] }

  function HandlerRead(load: HandlerLoad, dir: Directory): HandlerLoad
    requires load.pending != []
  {
    HandlerLoad(load.pending[1..], ReadInto(load.loaded, dir, load.pending[0]), load.stale)
  }

  function HandlerSkip(load: HandlerLoad, dir: Directory): HandlerLoad
    requires load.pending != []
  {
    HandlerLoad(load.pending[1..], load.loaded, load.stale || IsGood(dir, load.pending[0]))
  }

  function Run(s: State, steps: seq<Step>): State
    decreases |steps|
  {
    if steps == [] then s else Run(Next(s, steps[0]), steps[1..])
  }

  /** A reload of the current directory is owed: an event is queued, or the timer will or did tick. */
  ghost predicate Owed(s: State) {
    (exists e :: e in s.queue && Relevant(e)) || s.timer.armed || s.timer.ticked
  }

  /** Nothing is queued, no timer runs, and the loop is not reloading. */
  predicate Idle(s: State) { s.load.NoLoad? && s.queue == [] && s.timer == STOPPED }

  /** The snapshot is what the directory defines. */
  predicate Current(s: State) { s.services == ServicesIn(s.dir) }

  /**
   The snapshot is current, or will be when the loop's reload ends, or a reload is owed, or the loop's
   last reload missed something.
   */
  ghost predicate Consistent(s: State) {
    s.failed || Owed(s) || (match s.load
                            case NoLoad => Current(s)
                            case Loading(pending, loaded) => ReadAll(loaded, s.dir, pending) == ServicesIn(s.dir))
  }

  /**
   What every step keeps besides. The timer never counts down with a tick waiting; pending files come
   from a listing; a handler that is not stale will end with what the directory defines.
   */
  ghost predicate Orderly(s: State) {
    && !(s.timer.armed && s.timer.ticked)
    && (s.load.Loading? ==> AllToml(s.load.pending))
    && HandlersOrderly(s.handlers, s.dir)
  }

  ghost predicate HandlersOrderly(handlers: map<nat, HandlerLoad>, dir: Directory) {
    forall h :: h in handlers ==> HandlerOrderly(handlers[h], dir)
  }

  ghost predicate HandlerOrderly(load: HandlerLoad, dir: Directory) {
    AllToml(load.pending) && (!load.stale ==> ReadAll(load.loaded, dir, load.pending) == ServicesIn(dir))
  }

  /**
   A handler publishes in time: a reload is owed or under way that will overwrite what it publishes, or that is
   what the directory defines, or nothing was promised before and nothing is made up for.
   */
  ghost predicate Timely(s: State, step: Step) {
    step.HandlerPublishes? && Ready(s, step.h) ==>
      || Owed(s) || s.load.Loading?
      || s.handlers[step.h].loaded == ServicesIn(s.dir)
      || (s.failed && s.handlers[step.h].stale)
  }

  /** In particular in time: a handler that is not stale, since nothing relevant changed after its listing. */
  lemma FreshIsTimely(s: State, h: nat)
    requires Orderly(s) && h in s.handlers && !s.handlers[h].stale
    ensures Timely(s, HandlerPublishes(h))
  {
    assert HandlerOrderly(s.handlers[h], s.dir);
  }

  ghost predicate RunTimely(s: State, steps: seq<Step>)
    decreases |steps|
  {
    steps == [] || (Reported(steps[0]) && Timely(s, steps[0]) && RunTimely(Next(s, steps[0]), steps[1..]))
  }

  /** Resetting never leaves a stale tick behind. */
  lemma ResetLeavesNoTick(s: State)
    requires Orderly(s)
    ensures ResetTimer(s.timer) == Timer(true, false)
  {
  }

  lemma {:induction false} OtherFilesDoNotCount(loaded: Services, a: Directory, b: Directory, names: seq<string>)
    requires forall n :: n in names ==> (n in a <==> n in b) && (n in a ==> a[n] == b[n])
    ensures ReadAll(loaded, a, names) == ReadAll(loaded, b, names)
    decreases |names|
  {
    if names != [] {
      assert names[0] in names && forall n :: n in names[1..] ==> n in names;
      OtherFilesDoNotCount(ReadInto(loaded, a, names[0]), a, b, names[1..]);
    }
  }

  /** Files without the suffix are never listed, so they never matter. */
  lemma IrrelevantChange(dir: Directory, dir': Directory, name: string)
    requires !IsToml(name) && dir - {name} == dir' - {name}
    ensures Listing(dir) == Listing(dir') && ServicesIn(dir) == ServicesIn(dir')
    ensures name !in Listing(dir)
  {
    forall n | n != name ensures (n in dir <==> n in dir') && (n in dir ==> dir[n] == dir'[n]) {
      assert n in dir <==> n in dir - {name};
      assert n in dir' <==> n in dir' - {name};
      assert n in dir ==> (dir - {name})[n] == dir[n] && n in dir' && (dir' - {name})[n] == dir'[n];
    }
    assert (set n | n in dir && Loadable(dir, n)) == (set n | n in dir' && Loadable(dir', n));
    OtherFilesDoNotCount(map[], dir, dir', Listing(dir));
  }

  lemma OutsideChangeKeepsHandler(load: HandlerLoad, dir: Directory, dir': Directory, name: string)
    requires HandlerOrderly(load, dir) && !IsToml(name) && dir - {name} == dir' - {name}
    ensures HandlerOrderly(load, dir')
  {
    IrrelevantChange(dir, dir', name);
    SameOutside(dir, dir', name);
    OtherFilesDoNotCount(load.loaded, dir, dir', load.pending);
  }

  lemma SameOutside(dir: Directory, dir': Directory, name: string)
    requires dir - {name} == dir' - {name}
    ensures forall n :: n != name ==> (n in dir <==> n in dir') && (n in dir ==> dir[n] == dir'[n])
  {
    forall n | n != name ensures (n in dir <==> n in dir') && (n in dir ==> dir[n] == dir'[n]) {
      assert n in dir <==> n in dir - {name};
      assert n in dir' <==> n in dir' - {name};
      assert n in dir ==> (dir - {name})[n] == dir[n] && (dir' - {name})[n] == dir'[n];
    }
  }

  lemma ChangeKeepsOrderly(s: State, step: Step)
    requires step.Change? && Orderly(s)
    ensures Orderly(Next(s, step))
  {
    var s' := Next(s, step);
    if !IsToml(step.name) {
      assert s.dir - {step.name} == s'.dir - {step.name};
      forall h | h in s'.handlers ensures HandlerOrderly(s'.handlers[h], s'.dir) {
        OutsideChangeKeepsHandler(s.handlers[h], s.dir, s'.dir, step.name);
      }
    }
  }

  /** Every step keeps order, timely or not. */
  lemma StepKeepsOrderly(s: State, step: Step)
    requires Orderly(s)
    ensures Orderly(Next(s, step))
  {
    if step.Change? {
      ChangeKeepsOrderly(s, step);
    } else if IsHandlerStep(step) {
      HandlerStepKeepsOrderly(s, step);
    } else if (step.ReadNext? || step.SkipNext?) && Next(s, step) != s {
      assert forall n :: n in s.load.pending[1..] ==> n in s.load.pending;
    }
  }

  predicate IsHandlerStep(step: Step) {
    step.HandlerLists? || step.HandlerReads? || step.HandlerSkips? || step.HandlerPublishes?
  }

  lemma HandlerStepKeepsOrderly(s: State, step: Step)
    requires Orderly(s) && IsHandlerStep(step)
    ensures Orderly(Next(s, step))
  {
    if Next(s, step) != s {
      match step
      case HandlerLists(h) => SwapKeepsHandlers(s.handlers, h, HandlerLoad(Listing(s.dir), map[], false), s.dir);
      case HandlerReads(h) =>
        ReadKeepsHandler(s.handlers[h], s.dir);
        SwapKeepsHandlers(s.handlers, h, HandlerRead(s.handlers[h], s.dir), s.dir);
      case HandlerSkips(h) =>
        SkipKeepsHandler(s.handlers[h], s.dir);
        SwapKeepsHandlers(s.handlers, h, HandlerSkip(s.handlers[h], s.dir), s.dir);
      case HandlerPublishes(h) =>
    }
  }

  lemma SwapKeepsHandlers(handlers: map<nat, HandlerLoad>, h: nat, load: HandlerLoad, dir: Directory)
    requires HandlersOrderly(handlers, dir) && HandlerOrderly(load, dir)
    ensures HandlersOrderly(handlers[h := load], dir)
  {
  }

  lemma ReadKeepsHandler(load: HandlerLoad, dir: Directory)
    requires HandlerOrderly(load, dir) && load.pending != []
    ensures HandlerOrderly(HandlerRead(load, dir), dir)
  {
    assert forall n :: n in load.pending[1..] ==> n in load.pending;
  }

  lemma SkipKeepsHandler(load: HandlerLoad, dir: Directory)
    requires HandlerOrderly(load, dir) && load.pending != []
    ensures HandlerOrderly(HandlerSkip(load, dir), dir)
  {
    assert forall n :: n in load.pending[1..] ==> n in load.pending;
  }

  lemma ChangeKeepsConsistent(s: State, step: Step)
    requires step.Change? && Reported(step) && Consistent(s) && Orderly(s)
    ensures Consistent(Next(s, step))
    ensures IsToml(step.name) ==> Owed(Next(s, step))
  {
    var s' := Next(s, step);
    var e := FsEvent(step.name, step.op);
    assert e in s'.queue;
    if IsToml(step.name) {
      assert Relevant(e);
    } else {
      assert s.dir - {step.name} == s'.dir - {step.name};
      IrrelevantChange(s.dir, s'.dir, step.name);
      SameOutside(s.dir, s'.dir, step.name);
      if exists q :: q in s.queue && Relevant(q) {
        var q :| q in s.queue && Relevant(q);
        assert q in s'.queue;
      } else if s.load.Loading? {
        OtherFilesDoNotCount(s.load.loaded, s.dir, s'.dir, s.load.pending);
      }
    }
  }

  lemma TakeEventKeepsConsistent(s: State)
    requires Consistent(s) && s.load.NoLoad? && s.queue != []
    ensures Consistent(Next(s, TakeEvent))
  {
    if !Relevant(s.queue[0]) && exists q :: q in s.queue && Relevant(q) {
      var q :| q in s.queue && Relevant(q);
      assert q in s.queue[1..];
    }
  }

  /** Exactly which steps keep the snapshot consistent: all, unless a handler publishes late. */
  lemma StepKeepsConsistentIff(s: State, step: Step)
    requires Consistent(s) && Orderly(s) && Reported(step)
    ensures Orderly(Next(s, step)) && (Consistent(Next(s, step)) <==> Timely(s, step))
  {
    StepKeepsOrderly(s, step);
    if step.Change? {
      ChangeKeepsConsistent(s, step);
    } else if step.TakeEvent? && s.load.NoLoad? && s.queue != [] {
      TakeEventKeepsConsistent(s);
    } else if step.Noise? {
      assert forall q :: q in s.queue ==> q in Next(s, step).queue;
    }
  }

  /**
   Quiescent consistency. Over any run of changes, events, expiries, resets, reloads that fail, skip or succeed
   and handlers that publish in time, the snapshot is current, or a reload that will make it so is under
   way or owed, or the loop's last reload missed something. In particular, idle and with nothing missed by
   that reload, the snapshot is what the directory defines, whatever failed before.
   */
  lemma {:induction false} AlwaysConsistent(s: State, steps: seq<Step>)
    requires Consistent(s) && Orderly(s) && RunTimely(s, steps)
    ensures Consistent(Run(s, steps)) && Orderly(Run(s, steps))
    ensures Idle(Run(s, steps)) && !Run(s, steps).failed ==> Current(Run(s, steps))
    decreases |steps|
  {
    if steps != [] {
      StepKeepsConsistentIff(s, steps[0]);
      AlwaysConsistent(Next(s, steps[0]), steps[1..]);
    }
  }

  ghost predicate ConsistentThroughout(s: State, steps: seq<Step>)
    decreases |steps|
  {
    Consistent(s) && (steps != [] ==> ConsistentThroughout(Next(s, steps[0]), steps[1..]))
  }

  /** And only such runs: a run stays consistent throughout if and only if every handler in it publishes in time. */
  lemma {:induction false} ConsistentThroughoutIff(s: State, steps: seq<Step>)
    requires Consistent(s) && Orderly(s) && forall i :: 0 <= i < |steps| ==> Reported(steps[i])
    ensures ConsistentThroughout(s, steps) <==> RunTimely(s, steps)
    decreases |steps|
  {
    if steps != [] {
      StepKeepsConsistentIff(s, steps[0]);
      if Timely(s, steps[0]) {
        ConsistentThroughoutIff(Next(s, steps[0]), steps[1..]);
      }
    }
  }

  // ---------------------------------------------------------------- runs in parts

  lemma {:induction false} RunAppend(s: State, a: seq<Step>, b: seq<Step>)
    ensures Run(s, a + b) == Run(Run(s, a), b)
    decreases |a|
  {
    if a == [] {
      assert a + b == b;
    } else {
      assert (a + b)[1..] == a[1..] + b;
      RunAppend(Next(s, a[0]), a[1..], b);
    }
  }

  lemma RunOne(s: State, step: Step)
    ensures Run(s, [step]) == Next(s, step)
  {
    assert [step][1..] == [];
  }

  /** NewRegistry watches before its first load, so whatever changes in between is queued. */
  lemma WatchBeforeLoadIsConsistent(dir: Directory)
    ensures var s := State(dir, [], STOPPED, Loading(Listing(dir), map[]), map[], false, map[]);
            Consistent(s) && Orderly(s)
  {
    assert forall n :: n in Listing(dir) ==> IsToml(n);
  }

  // ---------------------------------------------------------------- what is never made up for

  /** Steps that neither change a relevant file, nor queue a relevant event, nor reload from a handler. */
  predicate QuietStep(step: Step) {
    match step
    case Change(name, entry, op) => !IsToml(name)
    case Noise(event) => !Relevant(event)
    case HandlerLists(h) => false
    case _ => true
  }

  /** The loop is not reloading, nothing is owed, and no handler is reloading. */
  ghost predicate Settled(s: State) { s.load.NoLoad? && !Owed(s) && s.handlers == map[] }

  lemma QuietStepChangesNothing(s: State, step: Step)
    requires Settled(s) && QuietStep(step)
    ensures var q := Next(s, step);
            Settled(q) && q.services == s.services && ServicesIn(q.dir) == ServicesIn(s.dir)
  {
    var q := Next(s, step);
    if step.Change? {
      assert s.dir - {step.name} == q.dir - {step.name};
      IrrelevantChange(s.dir, q.dir, step.name);
      assert forall e :: e in q.queue ==> e in s.queue || e == FsEvent(step.name, step.op);
    } else if step.Noise? {
      assert forall e :: e in q.queue ==> e in s.queue || e == step.event;
    } else if step.TakeEvent? && s.queue != [] {
      assert s.queue[0] in s.queue;
      assert forall e :: e in s.queue[1..] ==> e in s.queue;
    }
  }

  /**
   Nothing is retried. Once the registry has settled, the snapshot stays exactly what it is over every
   run without a relevant change, a relevant event or a handler's reload, right or wrong.
   */
  lemma {:induction false} NeverRetried(s: State, steps: seq<Step>)
    requires Settled(s) && forall i :: 0 <= i < |steps| ==> QuietStep(steps[i])
    ensures var q := Run(s, steps);
            && Settled(q) && q.services == s.services && ServicesIn(q.dir) == ServicesIn(s.dir)
            && (Current(q) <==> Current(s))
    decreases |steps|
  {
    if steps != [] {
      QuietStepChangesNothing(s, steps[0]);
      NeverRetried(Next(s, steps[0]), steps[1..]);
    }
  }

  /** In particular a reload that fails: a tick whose listing fails, with nothing else owed, settles the registry. */
  lemma FailedReloadSticks(s: State, steps: seq<Step>)
    requires s.load.NoLoad? && s.handlers == map[] && s.timer == Timer(false, true)
    requires forall e :: e in s.queue ==> !Relevant(e)
    requires forall i :: 0 <= i < |steps| ==> QuietStep(steps[i])
    ensures var q := Run(s, [ListFails] + steps);
            Settled(q) && q.services == s.services && ServicesIn(q.dir) == ServicesIn(s.dir)
  {
    assert ([ListFails] + steps)[1..] == steps;
    NeverRetried(Next(s, ListFails), steps);
  }

  /**
   Exactly when the snapshot is current although no listing succeeded. From any state with no reload under
   way, over any run in which no reload gets past its listing, the snapshot does not move. If it was
   current at the start, it is current at the end if and only if the directory then defines what it
   defined at the start, however it changed in between.
   */
  lemma {:induction false} CurrentWithoutListingIff(s: State, steps: seq<Step>)
    requires s.load.NoLoad? && s.handlers == map[]
    requires forall i :: 0 <= i < |steps| ==> !steps[i].TakeTick? && !steps[i].HandlerLists?
    ensures var q := Run(s, steps);
            && q.load.NoLoad? && q.handlers == map[] && q.services == s.services
            && (Current(s) ==> (Current(q) <==> ServicesIn(q.dir) == ServicesIn(s.dir)))
    decreases |steps|
  {
    if steps != [] {
      var s1 := Next(s, steps[0]);
      assert s1.load.NoLoad? && s1.handlers == map[] && s1.services == s.services;
      CurrentWithoutListingIff(s1.(services := s.services), steps[1..]);
    }
  }

  /**
   Exactly when a failed reload is harmless. A change arrives at a registry that has loaded its directory,
   its event is taken, the timer expires, and the listing fails. Nothing is then owed, the old snapshot
   stays over every quiet run, and it is current if and only if the change did not matter.
   */
  lemma FailedReloadIff(dir: Directory, change: Step, more: seq<Step>)
    requires change.Change? && Reported(change) && IsToml(change.name)
    requires forall i :: 0 <= i < |more| ==> QuietStep(more[i])
    ensures var q := Run(Loaded(dir), [change, TakeEvent, TimerExpires, ListFails]);
            var dir' := Next(Loaded(dir), change).dir;
            && Settled(q) && q.dir == dir' && Run(q, more).services == ServicesIn(dir)
            && (Current(Run(q, more)) <==> ServicesIn(dir) == ServicesIn(dir'))
  {
    var s1 := Next(Loaded(dir), change);
    RunOfFour(Loaded(dir), change, TakeEvent, TimerExpires, ListFails);
    TickThatFails(s1, FsEvent(change.name, change.op));
    NeverRetried(s1.(queue := [], failed := true), more);
  }

  lemma TickThatFails(s: State, e: FsEvent)
    requires s.queue == [e] && Relevant(e) && s.timer == STOPPED && s.load.NoLoad?
    ensures Next(Next(Next(s, TakeEvent), TimerExpires), ListFails) == s.(queue := [], failed := true)
  {
    var s2 := Next(s, TakeEvent);
    assert s2 == s.(queue := [], timer := Timer(true, false));
  }

  /** A concrete stale run: the first file of an empty directory. */
  lemma FailedReloadLeavesStale(service: Service, more: seq<Step>)
    requires forall i :: 0 <= i < |more| ==> QuietStep(more[i])
    ensures var add := Change("a.toml", Some(GoodFile(service)), Create);
            !Current(Run(Run(Loaded(map[]), [add, TakeEvent, TimerExpires, ListFails]), more))
  {
    var add := Change("a.toml", Some(GoodFile(service)), Create);
    OneFileMatters(service);
    assert Next(Loaded(map[]), add).dir == map["a.toml" := GoodFile(service)];
    FailedReloadIff(map[], add, more);
  }

  lemma RunOfFour(s: State, a: Step, b: Step, c: Step, d: Step)
    ensures Run(s, [a, b, c, d]) == Next(Next(Next(Next(s, a), b), c), d)
  {
    RunCons(s, a, [b, c, d]);
    RunCons(Next(s, a), b, [c, d]);
    RunCons(Next(Next(s, a), b), c, [d]);
    RunOne(Next(Next(Next(s, a), b), c), d);
    assert [a] + [b, c, d] == [a, b, c, d] && [b] + [c, d] == [b, c, d] && [c] + [d] == [c, d];
  }

  lemma RunCons(s: State, step: Step, rest: seq<Step>)
    ensures Run(s, [step] + rest) == Run(Next(s, step), rest)
  {
    assert ([step] + rest)[1..] == rest;
  }

  lemma NoFile()
    ensures ServicesIn(map[]) == map[]
  {
    assert Listing(map[]) == [];
  }

  lemma OneFileMatters(service: Service)
    ensures IsToml("a.toml") && ServicesIn(map[]) != ServicesIn(map["a.toml" := GoodFile(service)])
  {
    assert "a.toml"[1..] == ".toml";
    OneFile("a.toml", service);
    NoFile();
    assert service.name in ServicesIn(map["a.toml" := GoodFile(service)]);
  }

  lemma OneFile(name: string, service: Service)
    requires IsToml(name)
    ensures ServicesIn(map[name := GoodFile(service)]) == map[service.name := service]
  {
    var dir: Directory := map[name := GoodFile(service)];
    var listing := Listing(dir);
    assert (set n | n in dir && Loadable(dir, n)) == {name};
    ListingUnique(listing, [name]);
    var read := ReadInto(map[], dir, name);
    assert read == map[service.name := service];
    assert [name][1..] == [] && ReadAll(map[], dir, [name]) == ReadAll(read, dir, []);
  }

  /** One reload's readings, skipping the files that cannot be read. */
  function Readings(names: seq<string>, unreadable: set<string>): (steps: seq<Step>)
    ensures |steps| == |names|
  {
    seq(|names|, i requires 0 <= i < |names| => if names[i] in unreadable then SkipNext else ReadNext)
  }

  lemma {:induction false} ReadingsRead(s: State, names: seq<string>, loaded: Services, unreadable: set<string>)
    requires s.load == Loading(names, loaded)
    ensures var q := Run(s, Readings(names, unreadable));
            && q.load == Loading([], ReadAll(loaded, s.dir - unreadable, names))
            && q == s.(load := q.load, failed := q.failed)
            && (q.failed <==> s.failed || exists n :: n in names && n in unreadable && IsGood(s.dir, n))
    decreases |names|
  {
    if names != [] {
      var name := names[0];
      var steps := Readings(names, unreadable);
      var s1 := Next(s, steps[0]);
      assert s1.load.loaded == ReadInto(loaded, s.dir - unreadable, name);
      assert steps[1..] == Readings(names[1..], unreadable);
      assert forall n :: n in names <==> n == name || n in names[1..];
      ReadingsRead(s1, names[1..], s1.load.loaded, unreadable);
    }
  }

  /**
   Exactly when skipping files is harmless. A registry whose tick is waiting reloads, and some files cannot be
   read at that moment: they are skipped, nothing is owed, and over every quiet run the snapshot stays what
   the other files define. It is current if and only if they define the same as all of them.
   */
  lemma SkippedReadIff(s: State, unreadable: set<string>, more: seq<Step>)
    requires s.load.NoLoad? && s.handlers == map[] && s.timer == Timer(false, true)
    requires forall e :: e in s.queue ==> !Relevant(e)
    requires forall i :: 0 <= i < |more| ==> QuietStep(more[i])
    ensures var q := Run(s, [TakeTick] + (Readings(Listing(s.dir), unreadable) + [Publish]));
            && Settled(q) && q.dir == s.dir && Run(q, more).services == ServicesIn(s.dir - unreadable)
            && (q.failed <==> exists n :: n in Listing(s.dir) && n in unreadable && IsGood(s.dir, n))
            && (Current(Run(q, more)) <==> ServicesIn(s.dir - unreadable) == ServicesIn(s.dir))
  {
    var names := Listing(s.dir);
    var s1 := Next(s, TakeTick);
    var s2 := Run(s1, Readings(names, unreadable));
    RunCons(s, TakeTick, Readings(names, unreadable) + [Publish]);
    RunAppend(s1, Readings(names, unreadable), [Publish]);
    ReadingsRead(s1, names, map[], unreadable);
    ServicesWithout(s.dir, unreadable);
    RunOne(s2, Publish);
    NeverRetried(Next(s2, Publish), more);
  }

  /** A concrete stale run: the only file of a directory, unreadable when it is reloaded. */
  lemma SkippedReadLeavesStale(service: Service, more: seq<Step>)
    requires forall i :: 0 <= i < |more| ==> QuietStep(more[i])
    ensures var dir: Directory := map["a.toml" := GoodFile(service)];
            var s := Loaded(dir).(timer := Timer(false, true));
            var reload := [TakeTick] + (Readings(Listing(dir), {"a.toml"}) + [Publish]);
            !Current(Run(Run(s, reload), more))
  {
    var dir: Directory := map["a.toml" := GoodFile(service)];
    OneFileMatters(service);
    assert dir - {"a.toml"} == map[];
    SkippedReadIff(Loaded(dir).(timer := Timer(false, true)), {"a.toml"}, more);
  }

  /**
   Loading before watching: a change in between is reported to nobody, and the snapshot stays wrong over every
   quiet run.
   */
  lemma LoadBeforeWatchStaysStale(dir: Directory, dir': Directory, steps: seq<Step>)
    requires ServicesIn(dir) != ServicesIn(dir') && forall i :: 0 <= i < |steps| ==> QuietStep(steps[i])
    ensures !Current(Run(Loaded(dir).(dir := dir'), steps))
  {
    NeverRetried(Loaded(dir).(dir := dir'), steps);
  }

  // ---------------------------------------------------------------- settling

  /** A step of the loop, or the timer running out, that really happens in this state. */
  predicate LoopTakes(s: State, step: Step) {
    match step
    case TimerExpires => s.timer.armed
    case TakeEvent => s.load.NoLoad? && s.queue != []
    case TakeTick => s.load.NoLoad? && s.timer.ticked
    case ReadNext => s.load.Loading? && s.load.pending != []
    case Publish => s.load.Loading? && s.load.pending == []
    case _ => false
  }

  predicate LoopRun(s: State, steps: seq<Step>)
    decreases |steps|
  {
    steps == [] || (LoopTakes(s, steps[0]) && LoopRun(Next(s, steps[0]), steps[1..]))
  }

  /** An upper bound on the steps the loop can take before the next change. */
  function Work(s: State): nat {
    var files := |Listing(s.dir)|;
    Events(|s.queue|, files)
    + (if s.timer.armed then files + 3 else 0) + (if s.timer.ticked then files + 2 else 0)
    + (if s.load.Loading? then |s.load.pending| + 1 else 0)
  }

  /** Each queued event may set the timer going once. */
  function Events(queued: nat, files: nat): nat { if queued == 0 then 0 else Events(queued - 1, files) + files + 4 }

  lemma LoopStepWorks(s: State, step: Step)
    requires Orderly(s) && LoopTakes(s, step)
    ensures Work(Next(s, step)) < Work(s) && Next(s, step).dir == s.dir && Next(s, step).handlers == s.handlers
    ensures Reported(step) && Timely(s, step)
  {
  }

  /** A failed listing is made up for: a reload is owed again. */
  ghost predicate Recovers(s: State) { s.failed ==> Owed(s) }

  lemma LoopStepRecovers(s: State, step: Step)
    requires Recovers(s) && LoopTakes(s, step)
    ensures Recovers(Next(s, step))
  {
    if step.TakeEvent? && !Relevant(s.queue[0]) && exists e :: e in s.queue && Relevant(e) {
      var e :| e in s.queue && Relevant(e);
      assert e in s.queue[1..];
    }
  }

  /** Something is left to do exactly when the loop is not idle. */
  lemma BusyIff(s: State)
    ensures (exists step :: LoopTakes(s, step)) <==> !Idle(s)
  {
    if !Idle(s) {
      var step := if s.load.Loading? then (if s.load.pending == [] then Publish else ReadNext)
                  else if s.queue != [] then TakeEvent
                  else if s.timer.armed then TimerExpires
                  else TakeTick;
      assert LoopTakes(s, step);
    }
  }

  /**
   When the directory stops changing, every schedule settles. Whatever the loop does next and in whatever
   order the timer runs out, it can take no more than `Work` steps; and where it can take none it is idle
   with what the directory defines. A listing that failed before does not matter if a reload is owed again.
   */
  lemma {:induction false} EveryScheduleSettles(s: State, steps: seq<Step>)
    requires Consistent(s) && Orderly(s) && Recovers(s) && LoopRun(s, steps)
    ensures var q := Run(s, steps);
            && |steps| + Work(q) <= Work(s) && q.dir == s.dir && q.handlers == s.handlers
            && Consistent(q) && Orderly(q) && Recovers(q)
            && ((exists step :: LoopTakes(q, step)) || (Idle(q) && !q.failed && Current(q)))
    decreases |steps|
  {
    if steps == [] {
      BusyIff(s);
    } else {
      LoopStepWorks(s, steps[0]);
      LoopStepRecovers(s, steps[0]);
      StepKeepsConsistentIff(s, steps[0]);
      EveryScheduleSettles(Next(s, steps[0]), steps[1..]);
    }
  }

  /** So there is a schedule that settles it. */
  lemma {:induction false} SettlingSchedule(s: State) returns (steps: seq<Step>)
    requires Consistent(s) && Orderly(s) && Recovers(s)
    ensures LoopRun(s, steps) && Idle(Run(s, steps)) && Current(Run(s, steps))
    decreases Work(s)
  {
    BusyIff(s);
    steps := [];
    if !Idle(s) {
      var step :| LoopTakes(s, step);
      LoopStepWorks(s, step);
      LoopStepRecovers(s, step);
      StepKeepsConsistentIff(s, step);
      var rest := SettlingSchedule(Next(s, step));
      steps := [step] + rest;
      assert steps[1..] == rest;
    }
  }

  // ---------------------------------------------------------------- handlers

  lemma {:induction false} HandlerReadsAll(s: State, h: nat) returns (steps: seq<Step>)
    requires h in s.handlers
    ensures var load := s.handlers[h];
            var done := HandlerLoad([], ReadAll(load.loaded, s.dir, load.pending), load.stale);
            Run(s, steps) == s.(handlers := s.handlers[h := done])
    decreases |s.handlers[h].pending|
  {
    steps := [];
    if s.handlers[h].pending == [] {
      assert s.handlers[h := s.handlers[h]] == s.handlers;
    } else {
      var s1 := Next(s, HandlerReads(h));
      var rest := HandlerReadsAll(s1, h);
      steps := [HandlerReads(h)] + rest;
      assert steps[1..] == rest;
      assert Run(s, steps) == Run(s1, rest);
      Overwrites(s.handlers, h, s1.handlers[h], Run(s1, rest).handlers[h]);
    }
  }

  /** A handler's reload up to its publish. */
  lemma HandlerPrepares(s: State, h: nat) returns (steps: seq<Step>)
    requires h !in s.handlers
    ensures Run(s, steps) == s.(handlers := s.handlers[h := HandlerLoad([], ServicesIn(s.dir), false)])
  {
    var s1 := Next(s, HandlerLists(h));
    var readings := HandlerReadsAll(s1, h);
    steps := [HandlerLists(h)] + readings;
    RunCons(s, HandlerLists(h), readings);
    Overwrites(s.handlers, h, HandlerLoad(Listing(s.dir), map[], false), HandlerLoad([], ServicesIn(s.dir), false));
  }

  lemma Overwrites(m: map<nat, HandlerLoad>, h: nat, a: HandlerLoad, b: HandlerLoad)
    ensures m[h := a][h := b] == m[h := b]
  {
  }

  /** A handler's reload with nothing in between makes the snapshot current at once. */
  lemma HandlerReloadsAlone(s: State, h: nat) returns (steps: seq<Step>)
    requires h !in s.handlers
    ensures Run(s, steps) == s.(services := ServicesIn(s.dir), failed := s.failed && s.load.Loading?)
  {
    var prepare := HandlerPrepares(s, h);
    var s1 := Run(s, prepare);
    steps := prepare + [HandlerPublishes(h)];
    RunAppend(s, prepare, [HandlerPublishes(h)]);
    RunOne(s1, HandlerPublishes(h));
    assert s1.handlers - {h} == s.handlers;
  }

  /**
   Late publishes, all of them. A handler has read everything, a file changes, and the loop catches up with the
   change in whatever order it takes its steps, until it is idle with the right snapshot. Then the handler
   publishes: nothing is owed, and the snapshot is current if and only if what the handler read is still
   what the directory defines; for a handler that was not stale, if and only if the change did not matter.
   */
  lemma LateHandlerPublishIff(s: State, h: nat, change: Step, settle: seq<Step>)
    requires Consistent(s) && Orderly(s) && Ready(s, h)
    requires change.Change? && Reported(change) && IsToml(change.name)
    requires LoopRun(Next(s, change), settle) && Idle(Run(Next(s, change), settle))
    ensures var caughtUp := Run(Next(s, change), settle);
            var q := Next(caughtUp, HandlerPublishes(h));
            && Run(s, [change] + (settle + [HandlerPublishes(h)])) == q
            && Current(caughtUp) && !caughtUp.failed
            && Idle(q) && q.dir == Next(s, change).dir && q.services == s.handlers[h].loaded
            && (Current(q) <==> s.handlers[h].loaded == ServicesIn(q.dir))
            && (!s.handlers[h].stale ==> (Current(q) <==> ServicesIn(s.dir) == ServicesIn(q.dir)))
  {
    CatchesUp(s, change, settle);
    RunThenPublish(s, change, settle, h);
    FreshHasRead(s, h);
    PublishWhenIdle(Run(Next(s, change), settle), h, s.handlers[h].loaded);
  }

  lemma PublishWhenIdle(s: State, h: nat, loaded: Services)
    requires Idle(s) && Ready(s, h) && s.handlers[h].loaded == loaded
    ensures var q := Next(s, HandlerPublishes(h));
            && Idle(q) && q.dir == s.dir && q.services == loaded && (Current(q) <==> loaded == ServicesIn(s.dir))
  {
  }

  lemma CatchesUp(s: State, change: Step, settle: seq<Step>)
    requires Consistent(s) && Orderly(s)
    requires change.Change? && Reported(change) && IsToml(change.name)
    requires LoopRun(Next(s, change), settle) && Idle(Run(Next(s, change), settle))
    ensures var caughtUp := Run(Next(s, change), settle);
            && Current(caughtUp) && !caughtUp.failed && caughtUp.dir == Next(s, change).dir
            && caughtUp.handlers == AllStale(s.handlers)
  {
    var s1 := Next(s, change);
    StepKeepsConsistentIff(s, change);
    ChangeKeepsConsistent(s, change);
    EveryScheduleSettles(s1, settle);
    BusyIff(Run(s1, settle));
  }

  lemma RunThenPublish(s: State, change: Step, settle: seq<Step>, h: nat)
    ensures Run(s, [change] + (settle + [HandlerPublishes(h)]))
         == Next(Run(Next(s, change), settle), HandlerPublishes(h))
  {
    RunCons(s, change, settle + [HandlerPublishes(h)]);
    RunAppend(Next(s, change), settle, [HandlerPublishes(h)]);
    RunOne(Run(Next(s, change), settle), HandlerPublishes(h));
  }

  lemma FreshHasRead(s: State, h: nat)
    requires Orderly(s) && Ready(s, h)
    ensures !s.handlers[h].stale ==> s.handlers[h].loaded == ServicesIn(s.dir)
  {
    assert HandlerOrderly(s.handlers[h], s.dir);
  }

  lemma SettlesAfter(s: State, change: Step) returns (settle: seq<Step>)
    requires Consistent(s) && Orderly(s)
    requires change.Change? && Reported(change) && IsToml(change.name)
    ensures LoopRun(Next(s, change), settle) && Idle(Run(Next(s, change), settle))
  {
    StepKeepsConsistentIff(s, change);
    ChangeKeepsConsistent(s, change);
    settle := SettlingSchedule(Next(s, change));
  }

  lemma OnlyHandler(s: State, h: nat)
    requires Ready(s, h) && s.handlers.Keys == {h}
    ensures Next(s, HandlerPublishes(h)).handlers == map[]
  {
  }

  /** There are such runs from a fresh registry: it settles with the services the directory defined before. */
  lemma LateHandlerPublishes(dir: Directory, h: nat, change: Step) returns (steps: seq<Step>)
    requires change.Change? && Reported(change) && IsToml(change.name)
    ensures var q := Run(Loaded(dir), steps);
            && Settled(q) && q.dir == Next(Loaded(dir), change).dir && q.services == ServicesIn(dir)
            && (Current(q) <==> ServicesIn(dir) == ServicesIn(q.dir))
  {
    var prepare := HandlerPrepares(Loaded(dir), h);
    var s := Run(Loaded(dir), prepare);
    assert s == Loaded(dir).(handlers := map[h := HandlerLoad([], ServicesIn(dir), false)]);
    var rest := CatchUpThenPublish(s, h, change);
    steps := prepare + rest;
    RunAppend(Loaded(dir), prepare, rest);
  }

  lemma CatchUpThenPublish(s: State, h: nat, change: Step) returns (steps: seq<Step>)
    requires Consistent(s) && Orderly(s) && Ready(s, h) && s.handlers.Keys == {h}
    requires change.Change? && Reported(change) && IsToml(change.name)
    ensures var q := Run(s, steps);
            Settled(q) && q.dir == Next(s, change).dir && q.services == s.handlers[h].loaded
  {
    var settle := SettlesAfter(s, change);
    LateHandlerPublishIff(s, h, change, settle);
    CatchesUp(s, change, settle);
    OnlyHandler(Run(Next(s, change), settle), h);
    steps := [change] + (settle + [HandlerPublishes(h)]);
  }

  lemma LoadedIsConsistent(dir: Directory)
    ensures Consistent(Loaded(dir)) && Orderly(Loaded(dir))
  {
  }

  // ---------------------------------------------------------------- the registry object

  /** A reload that cannot read these files misses a good one. */
  predicate Misses(dir: Directory, unreadable: set<string>) {
    exists n :: n in unreadable && IsToml(n) && IsGood(dir, n)
  }

  class Registry {
    var dir: Directory
    var queue: seq<FsEvent>
    var timer: Timer
    var load: Load
    var handlers: map<nat, HandlerLoad>
    var failed: bool
    var services: Services

    function Now(): State
      reads this
    {
      State(dir, queue, timer, load, handlers, failed, services)
    }

    constructor (dir: Directory)
      ensures Now() == Loaded(dir).(services := map[])
    {
      this.dir, queue, timer, load, handlers, failed, services := dir, [], STOPPED, NoLoad, map[], false, map[];
    }

    /** NewRegistry: make the directory, watch it, load it; null when one of these fails. */
    static method Open(dir: Directory, mkdirFails: bool, watchFails: bool, unlistable: bool, unreadable: set<string>)
      returns (r: Registry?)
      ensures r == null <==> mkdirFails || watchFails || unlistable
      ensures r != null ==> fresh(r)
      ensures r != null ==>
                r.Now() == Loaded(dir).(services := ServicesIn(dir - unreadable), failed := Misses(dir, unreadable))
    {
      r := null;
      if mkdirFails || watchFails { return; }
      var made := new Registry(dir);
      made.failed := Misses(dir, unreadable);
      var ok := made.Reload(unlistable, unreadable);
      if ok { r := made; }
    }

    /**
     Reload, when nothing changes meanwhile: files that cannot be read are skipped, and a directory that cannot
     be listed leaves the snapshot.
     */
    method Reload(unlistable: bool, unreadable: set<string>) returns (ok: bool)
      modifies this`services, this`failed
      ensures ok <==> !unlistable
      ensures ok ==> services == ServicesIn(dir - unreadable)
      ensures ok ==> failed == (old(failed) && (Misses(dir, unreadable) || load.Loading?))
      ensures !ok ==> Now() == old(Now())
    {
      var loaded := LoadDir(dir, unlistable, unreadable);
      if loaded.None? { return false; }
      services, failed := loaded.value, failed && (Misses(dir, unreadable) || load.Loading?);
      ok := true;
    }

    method ResetRegistryTimer()
      requires Orderly(Now())
      modifies this`timer
      ensures timer == ResetTimer(old(timer)) == Timer(true, false)
    {
      var wasRunning := timer.armed;
      timer := timer.(armed := false);
      if !wasRunning {
        if timer.ticked { timer := timer.(ticked := false); }
      }
      timer := timer.(armed := true);
    }

    /** The event branch of watchLoop's select. */
    method OnEvent()
      requires load.NoLoad? && queue != [] && Orderly(Now())
      modifies this`queue, this`timer
      ensures Now() == Next(old(Now()), TakeEvent)
      ensures timer == if IsTomlName(old(queue)[0].name) && old(queue)[0].op in {Write, Create, Rename, Remove}
                       then Timer(true, false) else old(timer)
    {
      var event := queue[0];
      queue := queue[1..];
      if !IsToml(event.name) { return; }
      if event.op == Chmod { return; }
      ResetRegistryTimer();
    }

    /** The timer branch: the tick is consumed and a reload begins with a listing, or fails there and is only logged. */
    method OnTick(unlistable: bool)
      requires load.NoLoad? && timer.ticked
      modifies this`timer, this`load, this`failed
      ensures Now() == Next(old(Now()), if unlistable then ListFails else TakeTick)
    {
      timer := timer.(ticked := false);
      failed := unlistable;
      if !unlistable {
        load := Loading(Listing(dir), map[]);
      }
    }

    /** The reload's loop body: read one file, as it stands now. */
    method OnReadNext()
      requires load.Loading? && load.pending != []
      modifies this`load
      ensures Now() == Next(old(Now()), ReadNext)
    {
      var name := load.pending[0];
      var loaded := load.loaded;
      if name in dir && dir[name].GoodFile? {
        loaded := loaded[dir[name].service.name := dir[name].service];
      }
      load := Loading(load.pending[1..], loaded);
    }

    /** A file that cannot be read just now is skipped, with a warning. */
    method OnSkipNext()
      requires load.Loading? && load.pending != []
      modifies this`load, this`failed
      ensures Now() == Next(old(Now()), SkipNext)
    {
      failed := failed || IsGood(dir, load.pending[0]);
      load := Loading(load.pending[1..], load.loaded);
    }

    method OnPublish()
      requires load.Loading? && load.pending == []
      modifies this`load, this`services
      ensures Now() == Next(old(Now()), Publish)
    {
      services := load.loaded;
      load := NoLoad;
    }

    /** What the world does to the registry. */
    method OnWorld(step: Step)
      requires step.Change? || step.Noise? || step.TimerExpires?
      modifies this`dir, this`queue, this`handlers, this`timer
      ensures Now() == Next(old(Now()), step)
    {
      match step {
        case Change(name, entry, op) =>
          dir := match entry case Some(e) => dir[name := e] case None => dir - {name};
          queue := queue + [FsEvent(name, op)];
          if IsToml(name) { handlers := AllStale(handlers); }
        case Noise(event) => queue := queue + [event];
        case TimerExpires => if timer.armed { timer := Timer(false, true); }
      }
    }

    /** What a request handler's own call of Reload does. */
    method OnHandler(step: Step)
      requires IsHandlerStep(step)
      modifies this`handlers, this`services, this`failed
      ensures Now() == Next(old(Now()), step)
    {
      match step {
        case HandlerLists(h) =>
          if h !in handlers { handlers := handlers[h := HandlerLoad(Listing(dir), map[], false)]; }
        case HandlerReads(h) =>
          if h in handlers && handlers[h].pending != [] {
            handlers := handlers[h := HandlerRead(handlers[h], dir)];
          }
        case HandlerSkips(h) =>
          if h in handlers && handlers[h].pending != [] {
            handlers := handlers[h := HandlerSkip(handlers[h], dir)];
          }
        case HandlerPublishes(h) =>
          if h in handlers && handlers[h].pending == [] {
            services, failed := handlers[h].loaded, failed && (handlers[h].stale || load.Loading?);
            handlers := handlers - {h};
          }
      }
    }

    /** watchLoop over a schedule: the object goes through exactly the specified run. */
    method WatchLoop(schedule: seq<Step>)
      requires Orderly(Now())
      modifies this
      ensures Now() == Run(old(Now()), schedule) && Orderly(Now())
    {
      for i := 0 to |schedule|
        invariant Orderly(Now()) && Run(Now(), schedule[i..]) == Run(old(Now()), schedule)
      {
        assert schedule[i..][0] == schedule[i] && schedule[i..][1..] == schedule[i + 1..];
        StepKeepsOrderly(Now(), schedule[i]);
        Take(schedule[i]);
      }
      assert schedule[|schedule|..] == [];
    }

    /** One step of a schedule; a step that is not possible is passed over. */
    method Take(step: Step)
      requires Orderly(Now())
      modifies this
      ensures Now() == Next(old(Now()), step)
    {
      match step
      case Change(_, _, _) => OnWorld(step);
      case Noise(_) => OnWorld(step);
      case TimerExpires => OnWorld(step);
      case TakeEvent => if load.NoLoad? && queue != [] { OnEvent(); }
      case TakeTick => if load.NoLoad? && timer.ticked { OnTick(false); }
      case ListFails => if load.NoLoad? && timer.ticked { OnTick(true); }
      case ReadNext => if load.Loading? && load.pending != [] { OnReadNext(); }
      case SkipNext => if load.Loading? && load.pending != [] { OnSkipNext(); }
      case Publish => if load.Loading? && load.pending == [] { OnPublish(); }
      case HandlerLists(_) => OnHandler(step);
      case HandlerReads(_) => OnHandler(step);
      case HandlerSkips(_) => OnHandler(step);
      case HandlerPublishes(_) => OnHandler(step);
    }
  }
}
