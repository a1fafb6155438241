/**
 The atomic write under loss of power: internal/utils/atomic_write.go once more, now on a disk whose
 directory changes and file contents become durable only when they are synced, or by chance.
 */
module PowerLoss {
  import opened Disk
  import opened Wrappers
  import Vars = VarStore

  /** A directory change that may or may not have reached the platter. */
  datatype Change = Link(name: string, inode: nat) | Unlink(name: string) | Move(from: string, to: string, inode: nat)

  /**
   What processes see (`dir`, `data`) and what is sure to survive (`kept`, `synced`); `pending` are the
   directory changes in between, oldest first.
   */
  datatype Layers = Layers(dir: map<string, nat>, data: map<nat, string>,
                           kept: map<string, nat>, pending: seq<Change>, synced: map<nat, string>)

  function Apply(dir: map<string, nat>, c: Change): map<string, nat> {
    match c
    case Link(name, inode) => dir[name := inode]
    case Unlink(name) => dir - {name}
    case Move(from, to, inode) => (dir - {from})[to := inode]
  }

  /** The directory after a loss of power in which exactly these changes had reached the platter. */
  function Replay(dir: map<string, nat>, pending: seq<Change>, reached: set<nat>): map<string, nat> {
    if pending == [] then dir
    else
      var m := |pending| - 1;
      var before := Replay(dir, pending[..m], reached);
      if m in reached then Apply(before, pending[m]) else before
  }

  /** A file comes back with its synced content, or with anything at all if it was written since. */
  ghost predicate Matches(s: Layers, dir: map<string, nat>, files: map<string, string>) {
    files.Keys == dir.Keys && forall n :: n in dir && dir[n] in s.synced ==> files[n] == s.synced[dir[n]]
  }

  /** What may be found after a loss of power: any of the pending changes may have been lost, in any combination. */
  ghost predicate MayRemain(s: Layers, files: map<string, string>) {
    exists reached: set<nat> :: Matches(s, Replay(s.kept, s.pending, reached), files)
  }

  function ContentOf(files: map<string, string>, path: string): Option<string> {
    if path in files then Some(files[path]) else None
  }

  /** Whatever survives, the path holds one of these. */
  ghost predicate Holds(s: Layers, path: string, possible: set<Option<string>>) {
    forall files :: MayRemain(s, files) ==> ContentOf(files, path) in possible
  }

  /** What processes see at a path. */
  function Seen(s: Layers, path: string): Option<string> {
    if path in s.dir && s.dir[path] in s.data then Some(s.data[s.dir[path]]) else None
  }

  // ---------------------------------------------------------------- an invariant over the layers

  predicate Touches(c: Change, path: string) {
    match c
    case Link(name, _) => name == path
    case Unlink(name) => name == path
    case Move(from, to, _) => from == path || to == path
  }

  /** An inode whose content is safe, and one of these. */
  ghost predicate SafeInode(s: Layers, inode: nat, possible: set<Option<string>>) {
    inode in s.data && inode in s.synced && Some(s.synced[inode]) in possible
  }

  /** Only safe contents can show at the path: in the kept directory, and through any pending change. */
  ghost predicate Guarded(s: Layers, path: string, possible: set<Option<string>>) {
    && (path in s.kept ==> SafeInode(s, s.kept[path], possible))
    && (path !in s.kept ==> None in possible)
    && forall c :: c in s.pending && Touches(c, path) ==> c.Move? && c.from != path && SafeInode(s, c.inode, possible)
  }

  lemma {:induction false} ReplayIsSafe(s: Layers, pending: seq<Change>, reached: set<nat>, path: string,
                                        possible: set<Option<string>>)
    requires path in s.kept ==> SafeInode(s, s.kept[path], possible)
    requires path !in s.kept ==> None in possible
    requires forall c :: c in pending && Touches(c, path) ==>
               c.Move? && c.from != path && SafeInode(s, c.inode, possible)
    ensures var dir := Replay(s.kept, pending, reached);
            if path in dir then SafeInode(s, dir[path], possible) else None in possible
    decreases |pending|
  {
    if pending != [] {
      var m := |pending| - 1;
      assert pending[m] in pending && forall c :: c in pending[..m] ==> c in pending;
      ReplayIsSafe(s, pending[..m], reached, path, possible);
    }
  }

  /** The invariant is enough: every surviving directory shows one of the possible contents. */
  lemma GuardedHolds(s: Layers, path: string, possible: set<Option<string>>)
    requires Guarded(s, path, possible)
    ensures Holds(s, path, possible)
  {
    forall files | MayRemain(s, files) ensures ContentOf(files, path) in possible {
      var reached :| Matches(s, Replay(s.kept, s.pending, reached), files);
      ReplayIsSafe(s, s.pending, reached, path, possible);
    }
  }

  /** Changing an inode that the path cannot show leaves it guarded. */
  lemma OtherInodeKeepsGuarded(s: Layers, s': Layers, path: string, possible: set<Option<string>>, inode: nat)
    requires Guarded(s, path, possible) && inode !in s.data
    requires s'.kept == s.kept && s'.data - {inode} == s.data && s'.synced - {inode} == s.synced - {inode}
    requires forall c :: c in s'.pending && Touches(c, path) ==> c in s.pending
    ensures Guarded(s', path, possible)
  {
    forall i | SafeInode(s, i, possible) ensures SafeInode(s', i, possible) {
      assert i in s'.data - {inode};
      assert i in s.synced - {inode} && i in s'.synced - {inode};
      assert (s'.synced - {inode})[i] == (s.synced - {inode})[i];
    }
  }

  // ---------------------------------------------------------------- one file, over many writes

  /** One file: what processes see of it, and what a loss of power can bring back. */
  datatype Grip<C(==)> = Grip(shown: C, possible: set<C>)

  /**
   How a write leaves the file: replaced with the directory synced or not, not replaced, or cut off before or
   after the rename.
   */
  datatype PowerEnd = Synced | Unsynced | NotWritten | Cut(replaced: bool)

  function AfterWrite<C(==)>(g: Grip<C>, content: C, end: PowerEnd): Grip<C> {
    match end
    case Synced => Grip(content, {content})
    case Unsynced => Grip(content, g.possible + {content})
    case NotWritten => g
    case Cut(replaced) => if replaced then Grip(content, g.possible + {content}) else g
  }

  /** The layers bear the grip out. */
  ghost predicate Holding(s: Layers, path: string, g: Grip<Option<string>>) {
    Guarded(s, path, g.possible) && Seen(s, path) == g.shown
  }

  /** The disk as the next boot finds it: these changes arrived, and files never synced hold anything. */
  function Rebooted(s: Layers, reached: set<nat>, garbage: map<nat, string>): Layers {
    var dir := Replay(s.kept, s.pending, reached);
    var data := map i | i in dir.Values ::
      if i in s.synced then s.synced[i] else if i in garbage then garbage[i] else "";
    Layers(dir, data, dir, [], data)
  }

  /** A boot finds one of the possible contents, and that is then certain. */
  lemma RebootedHolds(s: Layers, path: string, g: Grip<Option<string>>, reached: set<nat>, garbage: map<nat, string>)
    requires Guarded(s, path, g.possible)
    ensures var after := Rebooted(s, reached, garbage);
            Seen(after, path) in g.possible && Holding(after, path, Grip(Seen(after, path), {Seen(after, path)}))
  {
    ReplayIsSafe(s, s.pending, reached, path, g.possible);
  }

  /** What a boot finds is what may remain. */
  lemma RebootedMayRemain(s: Layers, reached: set<nat>, garbage: map<nat, string>)
    ensures var after := Rebooted(s, reached, garbage);
            MayRemain(s, map n | n in after.dir :: after.data[after.dir[n]])
  {
    var after := Rebooted(s, reached, garbage);
    assert Matches(s, Replay(s.kept, s.pending, reached), map n | n in after.dir :: after.data[after.dir[n]]);
  }

  lemma {:induction false} NothingReached(dir: map<string, nat>, pending: seq<Change>)
    ensures Replay(dir, pending, {}) == dir
    decreases |pending|
  {
    if pending != [] { NothingReached(dir, pending[..|pending| - 1]); }
  }

  /** Some loss of power shows this at the path. */
  ghost predicate CanShow(s: Layers, path: string, content: Option<string>) {
    exists files :: MayRemain(s, files) && ContentOf(files, path) == content
  }

  /** A directory change that was not synced can be lost with the power: what was certain before comes back. */
  lemma UnsyncedCanBeLost(s: Layers, path: string)
    requires path in s.kept ==> s.kept[path] in s.synced
    ensures CanShow(s, path, if path in s.kept then Some(s.synced[s.kept[path]]) else None)
  {
    NothingReached(s.kept, s.pending);
    RebootedMayRemain(s, {}, map[]);
    var after := Rebooted(s, {}, map[]);
    var files := map n | n in after.dir :: after.data[after.dir[n]];
    assert ContentOf(files, path) == if path in s.kept then Some(s.synced[s.kept[path]]) else None;
  }

  /** A file renamed into place without a sync can come back with anything at all. */
  lemma UnsyncedShowsAnything(s: Layers, path: string, tmp: string, inode: nat, found: string)
    requires s.pending != [] && s.pending[|s.pending| - 1] == Move(tmp, path, inode) && inode !in s.synced
    ensures CanShow(s, path, Some(found))
  {
    var last := |s.pending| - 1;
    var after := Rebooted(s, {last}, map[inode := found]);
    assert after.dir[path] == inode && inode in after.dir.Values;
    RebootedMayRemain(s, {last}, map[inode := found]);
    var files := map n | n in after.dir :: after.data[after.dir[n]];
    assert ContentOf(files, path) == Some(found);
  }

  // ---------------------------------------------------------------- the write

  /** How a run of the write ends: with success or an error, or with the power. */
  datatype Outcome = Succeeded | Errored | PowerLost

  class Machine {
    var now: Layers

    constructor (now: Layers)
      ensures this.now == now
    {
      this.now := now;
    }

    method Create(name: string, inode: nat)
      modifies this
      ensures now == old(now).(dir := old(now).dir[name := inode], data := old(now).data[inode := ""],
                               pending := old(now).pending + [Link(name, inode)], synced := old(now).synced - {inode})
    {
      now := now.(dir := now.dir[name := inode], data := now.data[inode := ""],
                  pending := now.pending + [Link(name, inode)], synced := now.synced - {inode});
    }

    method Write(inode: nat, text: string)
      modifies this
      ensures now == old(now).(data := old(now).data[inode := text], synced := old(now).synced - {inode})
    {
      now := now.(data := now.data[inode := text], synced := now.synced - {inode});
    }

    method Sync(inode: nat)
      requires inode in now.data
      modifies this
      ensures now == old(now).(synced := old(now).synced[inode := old(now).data[inode]])
    {
      now := now.(synced := now.synced[inode := now.data[inode]]);
    }

    method Rename(from: string, to: string)
      requires from in now.dir
      modifies this
      ensures now == old(now).(dir := (old(now).dir - {from})[to := old(now).dir[from]],
                               pending := old(now).pending + [Move(from, to, old(now).dir[from])])
    {
      var inode := now.dir[from];
      now := now.(dir := (now.dir - {from})[to := inode], pending := now.pending + [Move(from, to, inode)]);
    }

    method Remove(name: string)
      modifies this
      ensures now == old(now).(dir := old(now).dir - {name}, pending := old(now).pending + [Unlink(name)])
    {
      now := now.(dir := now.dir - {name}, pending := now.pending + [Unlink(name)]);
    }

    method SyncDir()
      modifies this
      ensures now == old(now).(kept := old(now).dir, pending := [])
    {
      now := now.(kept := now.dir, pending := []);
    }

    /**
     Everything before the rename, on an inode of its own. `calls` is how many calls run before the power
     fails, `fault` the call that fails.
     */
    method Fill(data: string, tmp: string, inode: nat, fault: Fault, calls: nat) returns (outcome: Outcome)
      requires inode !in now.data && tmp !in now.dir
      modifies this
      ensures Filling(old(now), now, tmp, inode)
      ensures outcome == Succeeded ==>
                && tmp in now.dir && now.dir[tmp] == inode
                && inode in now.data && now.data[inode] == data && SyncedInode(now, inode)
    {
      if calls == 0 { return PowerLost; }
      if fault == Fails(AtCreate) { return Errored; }
      Create(tmp, inode);
      if calls == 1 { return PowerLost; }
      if fault == Fails(AtChmod) { return Errored; }
      if calls == 2 { return PowerLost; }
      outcome := FillInode(data, inode, fault, calls);
    }

    /** The part of it that writes: write, sync and close. */
    method FillInode(data: string, inode: nat, fault: Fault, calls: nat) returns (outcome: Outcome)
      requires inode in now.data
      modifies this
      ensures OnlyInode(old(now), now, inode)
      ensures outcome == Succeeded ==> inode in now.data && now.data[inode] == data && SyncedInode(now, inode)
    {
      if fault.Fails? && fault.step.AtWrite? {
        Write(inode, data[..if fault.step.count < |data| then fault.step.count else |data|]);
        return Errored;
      }
      Write(inode, data);
      if calls == 3 { return PowerLost; }
      if fault == Fails(AtSync) { return Errored; }
      Sync(inode);
      if calls == 4 { return PowerLost; }
      outcome := if fault == Fails(AtClose) then Errored else Succeeded;
    }

    /**
     AtomicWrite, the power failing or the process dying after any number of calls and any call failing: what is
     seen of the target and what a loss of power can show of it are as `end` says. So a loss of power
     always shows what the target could hold before or exactly the new data; after an error the former; after
     a success whose directory sync worked the latter. After an error `cleansUp` says whether the power lasts
     for the deferred remove.
     */
    method AtomicWrite(path: string, data: string, tmp: string, inode: nat, fault: Fault, dirSyncFails: bool,
                       calls: nat, cleansUp: bool, ghost g: Grip<Option<string>>)
      returns (outcome: Outcome, ghost end: PowerEnd)
      requires inode !in now.data && inode !in now.dir.Values && tmp !in now.dir && tmp != path
      requires Holding(now, path, g)
      modifies this
      ensures Holding(now, path, AfterWrite(g, Some(data), end))
      ensures outcome == match end
                         case Synced => Succeeded case Unsynced => Succeeded
                         case NotWritten => Errored case Cut(_) => PowerLost
      ensures outcome == Succeeded ==> (end == Unsynced <==> dirSyncFails)
      ensures Holds(now, path, AfterWrite(g, Some(data), end).possible)
      ensures end == Unsynced ==> now.kept == old(now).kept && now.synced - {inode} == old(now).synced - {inode}
    {
      ghost var before := now;
      outcome := Fill(data, tmp, inode, fault, calls);
      FillingKeepsGuarded(before, now, tmp, inode, path, g.possible);
      if outcome == Succeeded && calls == 5 { outcome := PowerLost; }
      if outcome == Succeeded && fault == Fails(AtRename) { outcome := Errored; }
      if outcome != Succeeded {
        end := if outcome == Errored then NotWritten else Cut(false);
        if outcome == Errored && cleansUp {
          ghost var filled := now;
          Remove(tmp);
          RemoveKeepsGuarded(filled, now, tmp, path, g.possible);
        }
        return;
      }
      WidensGuarded(now, path, g.possible, data);
      Rename(tmp, path);
      GuardedHolds(now, path, g.possible + {Some(data)});
      if calls == 6 { return PowerLost, Cut(true); }
      if !dirSyncFails {
        SyncDir();
        GuardedHolds(now, path, {Some(data)});
      }
      end := if dirSyncFails then Unsynced else Synced;
    }

    /**
     writeScope of the variable store, which renames without a sync. Cut off or failing before the rename it does
     no harm; but once the new data is seen, a loss of power can show the scope with anything at all.
     */
    method WriteScope(path: string, data: string, tmp: string, inode: nat, fault: Vars.ScopeFault, cleansUp: bool,
                      ghost g: Grip<Option<string>>)
      requires inode !in now.data && inode !in now.dir.Values && inode !in now.synced
      requires tmp !in now.dir && tmp != path && Holding(now, path, g)
      modifies this
      ensures match Vars.ScopeEnd(fault)
              case Failed => Holding(now, path, g)
              case Died(replaced) => if replaced then Exposed(now, path, data) else Holding(now, path, g)
              case Done => Exposed(now, path, data)
    {
      ghost var before := now;
      FillUnsynced(data, tmp, inode, fault);
      FillingKeepsGuarded(before, now, tmp, inode, path, g.possible);
      if !fault.Smooth? && !fault.step.AtReturn? {
        if fault.Errs? && cleansUp {
          ghost var filled := now;
          Remove(tmp);
          RemoveKeepsGuarded(filled, now, tmp, path, g.possible);
        }
        return;
      }
      Rename(tmp, path);
      forall found ensures CanShow(now, path, Some(found)) {
        UnsyncedShowsAnything(now, path, tmp, inode, found);
      }
    }

    /** Create, write, chmod and close, as far as the fault lets it. */
    method FillUnsynced(data: string, tmp: string, inode: nat, fault: Vars.ScopeFault)
      requires inode !in now.data && inode !in now.synced && tmp !in now.dir
      modifies this
      ensures Filling(old(now), now, tmp, inode) && inode !in now.synced
      ensures fault.Smooth? || fault.step.AtReturn? ==>
                && tmp in now.dir && now.dir[tmp] == inode && inode in now.data && now.data[inode] == data
    {
      var whole := fault.Smooth? || fault.step.AtReturn?;
      if !whole && (fault.step.AtMkdir? || fault.step.AtCreate?) { return; }
      Create(tmp, inode);
      if !whole && fault.step.AtWrite? { return; }
      Write(inode, data);
    }

    /** The power fails and comes back: these changes had arrived. */
    method Reboot(reached: set<nat>, garbage: map<nat, string>, ghost path: string, ghost g: Grip<Option<string>>)
      requires Guarded(now, path, g.possible)
      modifies this
      ensures Seen(now, path) in g.possible && Holding(now, path, Grip(Seen(now, path), {Seen(now, path)}))
    {
      RebootedHolds(now, path, g, reached, garbage);
      now := Rebooted(now, reached, garbage);
    }
  }

  /** The data is seen, but a loss of power can show anything in its place. */
  ghost predicate Exposed(s: Layers, path: string, data: string) {
    Seen(s, path) == Some(data) && forall found :: CanShow(s, path, Some(found))
  }

  ghost predicate SyncedInode(s: Layers, inode: nat) {
    inode in s.data && inode in s.synced && s.synced[inode] == s.data[inode]
  }

  /** Only this inode's contents were touched. */
  ghost predicate OnlyInode(before: Layers, after: Layers, inode: nat) {
    && after.kept == before.kept && after.dir == before.dir && after.pending == before.pending
    && after.data - {inode} == before.data - {inode} && after.synced - {inode} == before.synced - {inode}
  }

  /** Only the new inode and the temporary name were touched. */
  ghost predicate Filling(before: Layers, after: Layers, tmp: string, inode: nat) {
    && after.kept == before.kept && after.dir - {tmp} == before.dir
    && after.data - {inode} == before.data && after.synced - {inode} == before.synced - {inode}
    && (after.pending == before.pending || after.pending == before.pending + [Link(tmp, inode)])
  }

  lemma FillingKeepsGuarded(before: Layers, after: Layers, tmp: string, inode: nat, path: string,
                            possible: set<Option<string>>)
    requires Filling(before, after, tmp, inode) && inode !in before.data && inode !in before.dir.Values
    requires tmp !in before.dir && tmp != path
    requires Guarded(before, path, possible)
    ensures Guarded(after, path, possible) && Holds(after, path, possible) && Seen(after, path) == Seen(before, path)
  {
    OtherInodeKeepsGuarded(before, after, path, possible, inode);
    GuardedHolds(after, path, possible);
    if path in after.dir {
      assert path in after.dir - {tmp};
    }
    if path in before.dir {
      assert path in after.dir - {tmp} && before.dir[path] == after.dir[path];
      var i := before.dir[path];
      assert i != inode;
      assert i in after.data <==> i in after.data - {inode};
      assert i in after.data ==> after.data[i] == (after.data - {inode})[i];
    }
  }

  lemma RemoveKeepsGuarded(before: Layers, after: Layers, tmp: string, path: string, possible: set<Option<string>>)
    requires after == before.(dir := before.dir - {tmp}, pending := before.pending + [Unlink(tmp)]) && tmp != path
    requires Guarded(before, path, possible)
    ensures Guarded(after, path, possible) && Holds(after, path, possible) && Seen(after, path) == Seen(before, path)
  {
    GuardedHolds(after, path, possible);
  }

  lemma WidensGuarded(s: Layers, path: string, possible: set<Option<string>>, data: string)
    requires Guarded(s, path, possible)
    ensures Guarded(s, path, possible + {Some(data)}) && Holds(s, path, possible + {Some(data)})
  {
    GuardedHolds(s, path, possible + {Some(data)});
  }
}
