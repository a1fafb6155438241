/**
 The file system as the daemon's durable writes see it: internal/utils/atomic_write.go. A file holds a
 sequence of bytes or records; the process may fail or die at any step of a write.
 */
module Disk {
  import opened Wrappers

  datatype File<T> = File(data: seq<T>, perm: nat)

  /** The calls AtomicWrite makes, in order; AtReturn stands after the rename. */
  datatype Step = AtCreate | AtChmod | AtWrite(count: nat) | AtSync | AtClose | AtRename | AtReturn

  /** One run's misfortune: a call that returns an error, or the process dying as it reaches a call. */
  datatype Fault = NoFault | Fails(step: Step) | Dies(step: Step)

  /** Nothing went wrong, or only after the rename, where errors are ignored. */
  predicate Survives(fault: Fault) { fault.NoFault? || fault == Fails(AtReturn) }

  /** How a run ended; a process that died left the target old or already replaced. */
  datatype WriteEnd = Done | Failed | Died(replaced: bool)

  /** How a run ends under a fault: done, failed, or dead before or after the rename. */
  function Ends(fault: Fault): WriteEnd {
    if Survives(fault) then Done else if fault.Fails? then Failed else Died(fault.step.AtReturn?)
  }

  /** What one persist may meet: making the directory, then the atomic write. */
  datatype Luck = Luck(mkdirFails: bool, tmp: string, fault: Fault, removeFails: bool)

  function EndOf(luck: Luck): WriteEnd { if luck.mkdirFails then Failed else Ends(luck.fault) }

  /** The state a write leads to. */
  function Settle<S>(before: S, after: S, end: WriteEnd): S {
    match end
    case Done => after
    case Failed => before
    case Died(replaced) => if replaced then after else before
  }

  function Lookup<T>(files: map<string, File<T>>, path: string): Option<File<T>> {
    if path in files then Some(files[path]) else None
  }

  /** Nothing changed, except that the temporary file may have been left behind. */
  ghost predicate OnlyLeftover<T>(before: map<string, File<T>>, after: map<string, File<T>>, tmp: string) {
    after == before || (tmp in after && after - {tmp} == before)
  }

  /** All or nothing. */
  ghost predicate AtomicEffect<T>(before: map<string, File<T>>, after: map<string, File<T>>,
                                  path: string, file: File<T>, tmp: string, end: WriteEnd)
  {
    match end
    case Done => after == before[path := file]
    case Failed => OnlyLeftover(before, after, tmp)
    case Died(replaced) => if replaced then after == before[path := file] else OnlyLeftover(before, after, tmp)
  }

  class Disk<T> {
    var files: map<string, File<T>>

    constructor ()
      ensures files == map[]
    {
      files := map[];
    }

    /** The deferred os.Remove; its own error is ignored. */
    method Remove(name: string, fails: bool)
      modifies this
      ensures files == if fails then old(files) else old(files) - {name}
    {
      if !fails { files := files - {name}; }
    }

    /** Everything up to the rename, on the temporary file alone; true when the rename is next. */
    method FillTemp(data: seq<T>, perm: nat, tmp: string, fault: Fault) returns (ready: bool)
      requires tmp !in files
      modifies this
      ensures ready <==> fault.NoFault? || fault.step.AtReturn?
      ensures ready ==> files == old(files)[tmp := File(data, perm)]
      ensures files - {tmp} == old(files)
      ensures fault == Fails(AtCreate) || fault == Dies(AtCreate) ==> files == old(files)
      ensures files == old(files) || tmp in files
    {
      ready := fault.NoFault? || fault.step.AtReturn?;
      if !ready && fault.step.AtCreate? { return; }
      files := files[tmp := File([], 0x180)];
      if !ready && fault.step.AtChmod? { return; }
      files := files[tmp := File([], perm)];
      if !ready && fault.step.AtWrite? {
        files := files[tmp := File(data[..if fault.step.count < |data| then fault.step.count else |data|], perm)];
        return;
      }
      files := files[tmp := File(data, perm)];
    }

    /**
     AtomicWrite: create a temporary file beside the target, set its mode, write, sync, close, rename
     over the target. `tmp` is the unused name os.CreateTemp picked. An error leaves the target alone, and
     no temporary file unless removing it failed too; success leaves exactly the new file; death leaves
     one or the other. No other path changes.
     */
    method AtomicWrite(path: string, data: seq<T>, perm: nat, tmp: string, fault: Fault, removeFails: bool)
      returns (end: WriteEnd)
      requires tmp !in files
      modifies this
      ensures end == Ends(fault)
      ensures files.Keys <= old(files.Keys) + {path, tmp}
      ensures tmp != path ==> AtomicEffect(old(files), files, path, File(data, perm), tmp, end)
      ensures end == Failed && !removeFails ==> files == old(files)
      ensures tmp == path && end == Done && !removeFails ==> path !in files
    {
      var ready := FillTemp(data, perm, tmp, fault);
      if !ready {
        if fault.Dies? { return Died(false); }
        Remove(tmp, removeFails);
        return Failed;
      }
      files := if path == tmp then files else files[path := files[tmp]] - {tmp};
      if fault.Dies? { return Died(true); }
      Remove(tmp, removeFails);
      end := Done;
    }
  }

  /** The target is settled by the outcome, and every path but the two named is as it was. */
  lemma AtomicEffectSettles<T>(before: map<string, File<T>>, after: map<string, File<T>>,
                               path: string, file: File<T>, tmp: string, end: WriteEnd, other: string)
    requires AtomicEffect(before, after, path, file, tmp, end) && tmp != path && tmp !in before
    ensures Lookup(after, path) == Settle(Lookup(before, path), Some(file), end)
    ensures other != path && other != tmp ==> Lookup(after, other) == Lookup(before, other)
    ensures end == Done ==> tmp !in after
  {
    if after - {tmp} == before {
      assert forall p :: p != tmp ==> (p in after <==> p in after - {tmp});
    }
  }

  // ---------------------------------------------------------------- many writes

  /** One write of a run: where, what, under which temporary name, and how it ended. */
  datatype Write<T> = Write(path: string, file: File<T>, tmp: string, end: WriteEnd)

  /** A run of writes by processes that may die and be restarted; `states` are the disks around each write. */
  ghost predicate WriteRun<T>(states: seq<map<string, File<T>>>, writes: seq<Write<T>>) {
    && |states| == |writes| + 1
    && forall i :: 0 <= i < |writes| ==>
         && writes[i].tmp !in states[i] && writes[i].tmp != writes[i].path
         && AtomicEffect(states[i], states[i + 1], writes[i].path, writes[i].file, writes[i].tmp, writes[i].end)
  }

  /** What a path should hold: the file of the last write to it that took effect. */
  function LastEffect<T>(initial: Option<File<T>>, writes: seq<Write<T>>, path: string): Option<File<T>> {
    if writes == [] then initial
    else
      var before := LastEffect(initial, writes[..|writes| - 1], path);
      var w := writes[|writes| - 1];
      if w.path == path then Settle(before, Some(w.file), w.end) else before
  }

  /**
   Over any run, whatever failed or died and whatever was left behind, a path no temporary file used holds the
   last write that took effect.
   */
  lemma {:induction false} RunHoldsLastEffect<T>(states: seq<map<string, File<T>>>, writes: seq<Write<T>>, path: string)
    requires WriteRun(states, writes)
    requires forall i :: 0 <= i < |writes| ==> writes[i].tmp != path
    ensures Lookup(states[|writes|], path) == LastEffect(Lookup(states[0], path), writes, path)
  {
    if writes != [] {
      var n := |writes| - 1;
      var w := writes[n];
      assert WriteRun(states[..n + 1], writes[..n]);
      RunHoldsLastEffect(states[..n + 1], writes[..n], path);
      AtomicEffectSettles(states[n], states[n + 1], w.path, w.file, w.tmp, w.end, path);
    }
  }
}
