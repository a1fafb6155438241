/**
 Handing the admin role over: internal/api/admin.go, transferAdmin and acceptPromotion, over the fence
 file of internal/admin/bootstrap.go. One fence file serves reads and writes, as cmd/tailkitd/run.go
 wires it.
 */
module AdminTransfer {
  import opened Decimal
  import opened Text
  import opened Disk
  import opened Wrappers

  /** A node: its in-memory admin flag, and the number GetFenceToken reads, if any. */
  datatype NodeState = NodeState(isAdmin: bool, fence: Option<int>)

  /** What becomes of the promotion request. */
  datatype Net = Delivered | RequestLost | ResponseLost

  /** The environment of one transfer: how each fence write ends, deaths of its process included, and the network. */
  datatype Env = Env(raise: WriteEnd, net: Net, accept: WriteEnd, rollback: WriteEnd)

  type Cluster = map<string, NodeState>

  /** The transfer gets as far as asking the target. */
  predicate Asks(c: Cluster, from: string, env: Env)
    requires from in c
  {
    c[from].isAdmin && c[from].fence.Some? && env.raise == Done
  }

  /** The request gets as far as the target's fence. */
  predicate Reaches(c: Cluster, from: string, env: Env)
    requires from in c
  {
    Asks(c, from, env) && !env.net.RequestLost? && Next64(c[from].fence.value) >= 0
  }

  /** The target takes the role. */
  predicate Accepted(c: Cluster, from: string, env: Env)
    requires from in c
  {
    Reaches(c, from, env) && env.accept == Done
  }

  /** The sender is told so. */
  predicate Succeeds(c: Cluster, from: string, env: Env)
    requires from in c
  {
    Accepted(c, from, env) && env.net.Delivered?
  }

  /** A fence write, as its end leaves the node. A process that died starts again, not admin before its bootstrap. */
  function AfterWrite(n: NodeState, fence: int, end: WriteEnd): NodeState {
    NodeState(n.isAdmin && !end.Died?, Settle(n.fence, Some(fence), end))
  }

  /** An accepted or failed promotion. */
  function AfterAccept(n: NodeState, fence: int, end: WriteEnd): NodeState {
    if end == Done then NodeState(true, Some(fence)) else AfterWrite(n, fence, end)
  }

  /** A whole transfer, from check to answer. */
  function TransferStep(c: Cluster, from: string, to: string, env: Env): Cluster
    requires from in c && to in c
  {
    if !c[from].isAdmin || c[from].fence.None? then c
    else
      var current := c[from].fence.value;
      var raised := c[from := AfterWrite(c[from], Next64(current), env.raise)];
      if env.raise != Done then raised
      else
        var accepted := AfterAccept(raised[to], Next64(current), env.accept);
        var asked := if Reaches(c, from, env) then raised[to := accepted] else raised;
        if Succeeds(c, from, env) then asked[from := asked[from].(isAdmin := false)]
        else if to == from && Reaches(c, from, env) && env.accept.Died? then asked
        else asked[from := AfterWrite(asked[from], current, env.rollback)]
  }

  // ---------------------------------------------------------------- the handlers

  /** How one fence write fares. */
  datatype Fate = Fate(tmp: string, fault: Fault, removeFails: bool)

  function ReadFence(files: map<string, File<char>>, path: string): Option<int> {
    if path !in files then None else ParseInt64(TrimSpace(files[path].data))
  }

  class Node {
    const path: string
    const disk: Disk<char>
    var isAdmin: bool

    constructor (path: string, disk: Disk<char>)
      ensures this.path == path && this.disk == disk && !isAdmin
    {
      this.path, this.disk, this.isAdmin := path, disk, false;
    }

    function State(): NodeState
      reads this, disk
    {
      NodeState(isAdmin, ReadFence(disk.files, path))
    }

    /** The fence file is the number on a line, for its owner alone. */
    ghost predicate FileHolds(n: int)
      reads disk
    {
      path in disk.files && disk.files[path] == File(PrintInt(n) + "\n", 0x180)
    }

    /** utils.AtomicWrite of "%d\n" to the fence file; a death also forgets the flag. */
    method WriteFence(n: int, luck: Fate) returns (end: WriteEnd)
      requires IsInt64(n) && luck.tmp !in disk.files && luck.tmp != path
      modifies this`isAdmin, disk
      ensures end == Ends(luck.fault) && State() == AfterWrite(old(State()), n, end)
      ensures end == Done ==> FileHolds(n)
      ensures disk.files.Keys <= old(disk.files.Keys) + {path, luck.tmp}
    {
      FileTextRoundTrip(n);
      ghost var before := disk.files;
      var text := PrintInt(n) + "\n";
      end := disk.AtomicWrite(path, text, 0x180, luck.tmp, luck.fault, luck.removeFails);
      AtomicEffectSettles(before, disk.files, path, File(text, 0x180), luck.tmp, end, path);
      if end.Died? { isAdmin := false; }
    }

    /** acceptPromotion; 0 stands for a process that died before answering. */
    method AcceptPromotion(post: bool, bodyOk: bool, newFence: int, luck: Fate) returns (status: nat)
      requires IsInt64(newFence) && luck.tmp !in disk.files && luck.tmp != path
      modifies this`isAdmin, disk
      ensures if post && bodyOk && newFence >= 0
              then State() == AfterAccept(old(State()), newFence, Ends(luck.fault))
                && (status == 200 <==> Ends(luck.fault) == Done) && (status == 0 <==> Ends(luck.fault).Died?)
              else State() == old(State()) && (status == 400 || status == 405)
      ensures disk.files.Keys <= old(disk.files.Keys) + {path, luck.tmp}
    {
      if !post { return 405; }
      if !bodyOk || newFence < 0 { return 400; }
      var end := WriteFence(newFence, luck);
      if end.Died? { return 0; }
      if end == Failed { return 500; }
      isAdmin := true;
      status := 200;
    }

    /** HTTPPromotionClient.Promote: nil exactly when a 200 came back. */
    method Promote(target: Node, newFence: int, net: Net, luck: Fate) returns (ok: bool, targetDied: bool)
      requires IsInt64(newFence) && luck.tmp !in target.disk.files && luck.tmp != target.path
      modifies target`isAdmin, target.disk
      ensures var reaches := !net.RequestLost? && newFence >= 0;
              && target.State() == (if reaches then AfterAccept(old(target.State()), newFence, Ends(luck.fault))
                                    else old(target.State()))
              && (ok <==> reaches && Ends(luck.fault) == Done && net.Delivered?)
              && (targetDied <==> reaches && Ends(luck.fault).Died?)
      ensures target.disk.files.Keys <= old(target.disk.files.Keys) + {target.path, luck.tmp}
    {
      if net.RequestLost? { return false, false; }
      var status := target.AcceptPromotion(true, true, newFence, luck);
      ok := net.Delivered? && status == 200;
      targetDied := status == 0;
    }

    /** The three fence writes of a transfer use three unused temporary names. */
    predicate Names(target: Node, raise: Fate, accept: Fate, rollback: Fate)
      reads this, disk, target, target.disk
    {
      && raise.tmp !in disk.files && accept.tmp !in disk.files && rollback.tmp !in disk.files
      && accept.tmp !in target.disk.files
      && raise.tmp != accept.tmp && raise.tmp != rollback.tmp && accept.tmp != rollback.tmp
      && (forall l :: l in {raise, accept, rollback} ==> l.tmp != path && l.tmp != target.path)
    }

    /**
     transferAdmin to another node or, as nothing in the code forbids, to the node itself. The two nodes
     end up as the specified step says, whatever fails and whoever dies; 0 stands for a death of this node.
     */
    method TransferAdmin(name: string, post: bool, bodyOk: bool, targetName: string, target: Node,
                         net: Net, raise: Fate, accept: Fate, rollback: Fate)
      returns (status: nat)
      requires (name == targetName <==> this == target) && (this != target ==> disk != target.disk)
      requires Names(target, raise, accept, rollback)
      modifies this`isAdmin, disk, target`isAdmin, target.disk
      ensures var before := map[name := old(State()), targetName := old(target.State())];
              var env := Env(Ends(raise.fault), net, Ends(accept.fault), Ends(rollback.fault));
              if post && bodyOk && targetName != "" then
                && State() == TransferStep(before, name, targetName, env)[name]
                && target.State() == TransferStep(before, name, targetName, env)[targetName]
                && (status == 200 <==> Succeeds(before, name, env))
              else State() == old(State()) && target.State() == old(target.State()) && status != 200
    {
      if !post { return 405; }
      if !isAdmin { return 403; }
      if !bodyOk || targetName == "" { return 400; }
      var current := ReadFence(disk.files, path);
      if current.None? { return 500; }
      status := HandOver(name, targetName, target, current.value, net, raise, accept, rollback);
    }

    /** The rest of transferAdmin: raise the fence, ask the target, and step down or roll back. */
    method HandOver(ghost name: string, ghost targetName: string, target: Node, current: int,
                    net: Net, raise: Fate, accept: Fate, rollback: Fate)
      returns (status: nat)
      requires (name == targetName <==> this == target) && (this != target ==> disk != target.disk)
      requires Names(target, raise, accept, rollback) && State() == NodeState(true, Some(current))
      modifies this`isAdmin, disk, target`isAdmin, target.disk
      ensures var before := map[name := old(State()), targetName := old(target.State())];
              var env := Env(Ends(raise.fault), net, Ends(accept.fault), Ends(rollback.fault));
              && State() == TransferStep(before, name, targetName, env)[name]
              && target.State() == TransferStep(before, name, targetName, env)[targetName]
              && (status == 200 <==> Succeeds(before, name, env))
    {
      var newFence := Next64(current);
      var end := WriteFence(newFence, raise);
      if end != Done { return if end == Failed then 500 else 0; }
      status := AskTarget(target, current, newFence, net, accept, rollback);
    }

    /** Ask the target, and step down or roll back. */
    method AskTarget(target: Node, current: int, newFence: int, net: Net, accept: Fate, rollback: Fate)
      returns (status: nat)
      requires (this != target ==> disk != target.disk) && IsInt64(current) && IsInt64(newFence)
      requires accept.tmp !in target.disk.files && rollback.tmp !in disk.files && accept.tmp != rollback.tmp
      requires accept.tmp != target.path && rollback.tmp != path && rollback.tmp != target.path
      modifies this`isAdmin, disk, target`isAdmin, target.disk
      ensures var reaches := !net.RequestLost? && newFence >= 0;
              var asked := if reaches then AfterAccept(old(target.State()), newFence, Ends(accept.fault))
                           else old(target.State());
              var sender := if this == target then asked else old(State());
              && (status == 200 <==> reaches && Ends(accept.fault) == Done && net.Delivered?)
              && (this != target ==> target.State() == asked)
              && State() == if status == 200 then sender.(isAdmin := false)
                            else if this == target && reaches && Ends(accept.fault).Died? then sender
                            else AfterWrite(sender, current, Ends(rollback.fault))
    {
      var end: WriteEnd;
      var ok, targetDied := Promote(target, newFence, net, accept);
      if targetDied && target == this { return 0; }
      if !ok {
        end := WriteFence(current, rollback);
        return if end.Died? then 0 else 409;
      }
      isAdmin := false;
      status := 200;
    }
  }

  // ---------------------------------------------------------------- one leader

  /** `h` is the only admin. */
  predicate OnlyAdmin(c: Cluster, h: string) {
    h in c && c[h].isAdmin && forall g :: g in c && g != h ==> !c[g].isAdmin
  }

  ghost predicate OneAdmin(c: Cluster) { exists h :: OnlyAdmin(c, h) }

  /** Its fence is readable and no node has a larger one. */
  predicate Leads(c: Cluster, h: string) {
    && OnlyAdmin(c, h) && c[h].fence.Some?
    && forall g :: g in c && c[g].fence.Some? ==> c[g].fence.value <= c[h].fence.value
  }

  /** The transfer goes to another node, the sender learns what the target did, and nobody dies. */
  predicate Proper(from: string, to: string, env: Env) {
    from != to && !env.net.ResponseLost? && !env.raise.Died? && !env.accept.Died? && !env.rollback.Died?
  }

  /**
   A proper transfer keeps one leader with a maximal fence. Success moves the role and strictly raises the
   fence; failure with its rollback written changes nothing at all.
   */
  lemma TransferKeepsLeader(c: Cluster, h: string, from: string, to: string, env: Env)
    requires Leads(c, h) && from in c && to in c && Proper(from, to, env)
    requires 0 <= c[h].fence.value < MAX_INT64
    ensures var c' := TransferStep(c, from, to, env);
            var h' := if Succeeds(c, from, env) then to else h;
            && Leads(c', h') && c'.Keys == c.Keys
            && c[h].fence.value <= c'[h'].fence.value <= c[h].fence.value + 1
            && (Succeeds(c, from, env) ==> from == h && c'[h'].fence.value > c[h].fence.value)
            && (!Succeeds(c, from, env) && env.rollback == Done ==> c' == c)
  {
  }

  datatype Transfer = Transfer(from: string, to: string, env: Env)

  function Run(c: Cluster, transfers: seq<Transfer>): Cluster
    requires forall i :: 0 <= i < |transfers| ==> transfers[i].from in c && transfers[i].to in c
    decreases |transfers|
  {
    if transfers == [] then c
    else
      var c' := TransferStep(c, transfers[0].from, transfers[0].to, transfers[0].env);
      Run(c', transfers[1..])
  }

  function Wins(c: Cluster, transfers: seq<Transfer>): nat
    requires forall i :: 0 <= i < |transfers| ==> transfers[i].from in c && transfers[i].to in c
    decreases |transfers|
  {
    if transfers == [] then 0
    else
      var t := transfers[0];
      (if Succeeds(c, t.from, t.env) then 1 else 0) + Wins(TransferStep(c, t.from, t.to, t.env), transfers[1..])
  }

  /**
   Over any run of proper transfers, one after the other, there is always exactly one admin, its fence
   is maximal, and it has risen by at least the number of successes.
   */
  lemma {:induction false} RunKeepsLeader(c: Cluster, h: string, transfers: seq<Transfer>) returns (leader: string)
    requires Leads(c, h) && 0 <= c[h].fence.value && c[h].fence.value + |transfers| <= MAX_INT64
    requires forall i :: 0 <= i < |transfers| ==>
               transfers[i].from in c && transfers[i].to in c
                   && Proper(transfers[i].from, transfers[i].to, transfers[i].env)
    ensures Leads(Run(c, transfers), leader)
    ensures Run(c, transfers)[leader].fence.value >= c[h].fence.value + Wins(c, transfers)
    decreases |transfers|
  {
    leader := h;
    if transfers != [] {
      var t := transfers[0];
      TransferKeepsLeader(c, h, t.from, t.to, t.env);
      var next := if Succeeds(c, t.from, t.env) then t.to else h;
      leader := RunKeepsLeader(TransferStep(c, t.from, t.to, t.env), next, transfers[1..]);
    }
  }

  /**
   Whether a transfer started by the only admin leaves one. It fails when the sender dies raising or rolling
   back its fence while it still holds the role; when the target took it but the answer was lost and the
   sender lives on; and when the node handed the role to itself and was told so, or died of it.
   */
  predicate LeavesOne(c: Cluster, h: string, to: string, env: Env)
    requires h in c
  {
    if c[h].fence.None? || env.raise == Failed then true
    else if env.raise.Died? then false
    else if to == h then
      !Succeeds(c, h, env) && !(Reaches(c, h, env) && env.accept.Died?) && !env.rollback.Died?
    else if Accepted(c, h, env) then env.net.Delivered? || env.rollback.Died?
    else !env.rollback.Died?
  }

  /** Exactly when there is one admin afterwards, over every failure, lost message and death. */
  lemma OneAdminIff(c: Cluster, h: string, to: string, env: Env)
    requires OnlyAdmin(c, h) && to in c
    ensures OneAdmin(TransferStep(c, h, to, env)) <==> LeavesOne(c, h, to, env)
  {
    var c' := TransferStep(c, h, to, env);
    assert forall g :: g in c' && g != h && g != to ==> !c'[g].isAdmin;
    assert c'[h].isAdmin && (to == h || !c'[to].isAdmin) ==> OnlyAdmin(c', h);
    assert c'[to].isAdmin && (to == h || !c'[h].isAdmin) ==> OnlyAdmin(c', to);
    assert to != h ==> (c'[h].isAdmin != c'[to].isAdmin <==> LeavesOne(c, h, to, env));
    assert to == h ==> (c'[h].isAdmin <==> LeavesOne(c, h, to, env));
  }

  /** A node that transfers to itself ends up with no admin at all. */
  lemma SelfTransferLosesTheAdmin()
    ensures var c := map["a" := NodeState(true, Some(0)), "b" := NodeState(false, Some(0))];
            var c' := TransferStep(c, "a", "a", Env(Done, Delivered, Done, Done));
            OnlyAdmin(c, "a") && !c'["a"].isAdmin && !c'["b"].isAdmin
  {
    assert "a"[0] != "b"[0];
  }

  /** A lost answer leaves two. */
  lemma LostAnswerMakesTwoAdmins()
    ensures var c := map["a" := NodeState(true, Some(0)), "b" := NodeState(false, Some(0))];
            var c' := TransferStep(c, "a", "b", Env(Done, ResponseLost, Done, Done));
            OnlyAdmin(c, "a") && c'["a"] == NodeState(true, Some(0)) && c'["b"] == NodeState(true, Some(1))
  {
    assert "a"[0] != "b"[0];
  }
}
