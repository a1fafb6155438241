/**
 What acknowledged writes are worth when the power can fail: the invite claims and the epoch over runs of
 writes, deaths, restarts and losses of power, on files that behave as PowerLoss shows of AtomicWrite. AtomicWrite
 ignores an error of its directory sync, and that is exactly where the promises end.
 */
module PowerRuns {
  import opened PowerLoss
  import opened Wrappers
  import opened Disk
  import Decimal
  import Invites = InviteStore

  // ---------------------------------------------------------------- from a file's text to its meaning

  /** A file's grip, as the meaning of its contents. */
  function Read<C(==), D(==)>(load: C -> D, g: Grip<C>): Grip<D> {
    Grip(load(g.shown), set c | c in g.possible :: load(c))
  }

  /** Reading commutes with writing, so runs can be told by what the file means. */
  lemma ReadAfterWrite<C, D>(load: C -> D, g: Grip<C>, content: C, end: PowerEnd)
    ensures Read(load, AfterWrite(g, content, end)) == AfterWrite(Read(load, g), load(content), end)
  {
    var added := g.possible + {content};
    assert (set c | c in added :: load(c)) == (set c | c in g.possible :: load(c)) + {load(content)};
    assert (set c | c in {content} :: load(c)) == {load(content)};
  }

  /** Persisting a value through AtomicWrite is one step of such a run. */
  method Persist<D(==)>(m: Machine, path: string, text: string, load: Option<string> -> D, tmp: string, inode: nat,
                          fault: Fault, dirSyncFails: bool, calls: nat, cleansUp: bool,
                          ghost g: Grip<Option<string>>)
    returns (outcome: Outcome, ghost end: PowerEnd)
    requires inode !in m.now.data && inode !in m.now.dir.Values && tmp !in m.now.dir && tmp != path
    requires Holding(m.now, path, g)
    modifies m
    ensures var after := AfterWrite(g, Some(text), end);
            Holding(m.now, path, after) && Read(load, after) == AfterWrite(Read(load, g), load(Some(text)), end)
    ensures outcome == Succeeded ==> end == if dirSyncFails then Unsynced else Synced
    ensures outcome == Errored ==> end == NotWritten
    ensures outcome == PowerLost ==> end.Cut?
  {
    outcome, end := m.AtomicWrite(path, text, tmp, inode, fault, dirSyncFails, calls, cleansUp, g);
    ReadAfterWrite(load, g, Some(text), end);
  }

  // ---------------------------------------------------------------- claims

  /** The claim machine of InviteStore, on a file that a loss of power can set back. */
  datatype ClaimState = ClaimState(claims: Invites.Claims, file: Grip<Invites.Claims>, checked: set<nat>,
                                   winners: seq<nat>)

  datatype ClaimEvent =
    | Check(req: nat)
    | Mark(req: nat, end: PowerEnd)
    | Restart
    | PowerFails(found: Invites.Claims)

  /** A write that is cut off takes the process with it; a loss of power finds one of the possible contents. */
  function NextClaim(s: ClaimState, e: ClaimEvent, record: nat -> Invites.ClaimRecord): ClaimState {
    match e
    case Check(req) =>
      if record(req).tokenID in s.claims then s else s.(checked := s.checked + {req})
    case Mark(req, end) =>
      var r := record(req);
      if req !in s.checked then s
      else if r.tokenID in s.claims then s.(checked := s.checked - {req})
      else
        var claims := s.claims[r.tokenID := r];
        var file := AfterWrite(s.file, claims, end);
        if end.Cut? then ClaimState(file.shown, file, {}, s.winners)
        else ClaimState(claims, file, s.checked - {req}, if end.NotWritten? then s.winners else s.winners + [req])
    case Restart => ClaimState(s.file.shown, s.file, {}, s.winners)
    case PowerFails(found) =>
      if found in s.file.possible then ClaimState(found, Grip(found, {found}), {}, s.winners) else s
  }

  function RunClaims(s: ClaimState, events: seq<ClaimEvent>, record: nat -> Invites.ClaimRecord): ClaimState
    decreases |events|
  {
    if events == [] then s else RunClaims(NextClaim(s, events[0], record), events[1..], record)
  }

  /**
   Whatever the power does, an answered claim stays: it is in every content that can come back. And every such
   content is within what is seen, and that within memory; no two answers share a token.
   */
  ghost predicate Unbroken(s: ClaimState, record: nat -> Invites.ClaimRecord) {
    && s.file.shown in s.file.possible && s.file.shown.Keys <= s.claims.Keys
    && (forall c :: c in s.file.possible ==> c.Keys <= s.file.shown.Keys && HoldsAll(c, s.winners, record))
    && (forall i, j :: 0 <= i < j < |s.winners| ==> record(s.winners[i]).tokenID != record(s.winners[j]).tokenID)
  }

  ghost predicate HoldsAll(claims: Invites.Claims, winners: seq<nat>, record: nat -> Invites.ClaimRecord) {
    forall i :: 0 <= i < |winners| ==> record(winners[i]).tokenID in claims
  }

  /** A claim is answered 200 although the directory sync of its write failed. */
  predicate WinsUnsynced(s: ClaimState, e: ClaimEvent, record: nat -> Invites.ClaimRecord) {
    e.Mark? && e.req in s.checked && record(e.req).tokenID !in s.claims && e.end == Unsynced
  }

  lemma WinnerJoins(claims: Invites.Claims, r: Invites.ClaimRecord, req: nat, winners: seq<nat>,
                    record: nat -> Invites.ClaimRecord)
    requires HoldsAll(claims, winners, record) && record(req) == r
    ensures HoldsAll(claims[r.tokenID := r], winners + [req], record)
  {
  }

  lemma Outgrows(winners: seq<nat>, req: nat, claims: Invites.Claims, record: nat -> Invites.ClaimRecord)
    requires HoldsAll(claims, winners, record) && record(req).tokenID !in claims
    requires forall i, j :: 0 <= i < j < |winners| ==> record(winners[i]).tokenID != record(winners[j]).tokenID
    ensures var w := winners + [req];
            forall i, j :: 0 <= i < j < |w| ==> record(w[i]).tokenID != record(w[j]).tokenID
  {
  }

  /** Exactly which steps break that: a claim answered on a write whose directory sync failed. */
  lemma StepUnbrokenIff(s: ClaimState, e: ClaimEvent, record: nat -> Invites.ClaimRecord)
    requires Unbroken(s, record)
    ensures Unbroken(NextClaim(s, e, record), record) <==> !WinsUnsynced(s, e, record)
  {
    if e.Mark? && e.req in s.checked && record(e.req).tokenID !in s.claims {
      MarkUnbrokenIff(s, e.req, e.end, record);
    }
  }

  lemma MarkUnbrokenIff(s: ClaimState, req: nat, end: PowerEnd, record: nat -> Invites.ClaimRecord)
    requires Unbroken(s, record) && req in s.checked && record(req).tokenID !in s.claims
    ensures Unbroken(NextClaim(s, Mark(req, end), record), record) <==> end != Unsynced
  {
    var r := record(req);
    var s' := NextClaim(s, Mark(req, end), record);
    var shown := s.file.shown;
    assert HoldsAll(shown, s.winners, record);
    forall i | 0 <= i < |s.winners| ensures record(s.winners[i]).tokenID in s.claims {
    }
    WinnerJoins(s.claims, r, req, s.winners, record);
    Outgrows(s.winners, req, s.claims, record);
    if end == Unsynced {
      assert shown in s'.file.possible && s'.winners[|s.winners|] == req;
      assert !HoldsAll(shown, s'.winners, record);
    }
  }

  ghost predicate UnbrokenThroughout(s: ClaimState, events: seq<ClaimEvent>, record: nat -> Invites.ClaimRecord)
    decreases |events|
  {
    && Unbroken(s, record)
    && (events != [] ==> UnbrokenThroughout(NextClaim(s, events[0], record), events[1..], record))
  }

  ghost predicate SomeWinsUnsynced(s: ClaimState, events: seq<ClaimEvent>, record: nat -> Invites.ClaimRecord)
    decreases |events|
  {
    events != [] && (WinsUnsynced(s, events[0], record)
                     || SomeWinsUnsynced(NextClaim(s, events[0], record), events[1..], record))
  }

  /**
   Single use under loss of power. Over any interleaving of checks, claims, failures, deaths, restarts and losses
   of power, every answered claim is safe from the next loss of power at all times, if and only if no claim was
   answered on a write whose directory sync failed.
   */
  lemma {:induction false} ClaimsUnbrokenIff(s: ClaimState, events: seq<ClaimEvent>,
                                             record: nat -> Invites.ClaimRecord)
    requires Unbroken(s, record)
    ensures UnbrokenThroughout(s, events, record) <==> !SomeWinsUnsynced(s, events, record)
    decreases |events|
  {
    if events != [] {
      StepUnbrokenIff(s, events[0], record);
      if !WinsUnsynced(s, events[0], record) {
        ClaimsUnbrokenIff(NextClaim(s, events[0], record), events[1..], record);
      }
    }
  }

  /** So with every directory sync working no token is ever claimed twice, whatever the power does. */
  lemma {:induction false} ClaimedOnceDespitePower(s: ClaimState, events: seq<ClaimEvent>,
                                                   record: nat -> Invites.ClaimRecord)
    requires Unbroken(s, record) && !SomeWinsUnsynced(s, events, record)
    ensures Unbroken(RunClaims(s, events, record), record)
    decreases |events|
  {
    if events != [] {
      StepUnbrokenIff(s, events[0], record);
      ClaimedOnceDespitePower(NextClaim(s, events[0], record), events[1..], record);
    }
  }

  /** And after any claim answered without it, the next loss of power can have the token claimed again. */
  lemma UnsyncedClaimedTwice(s: ClaimState, a: nat, b: nat, record: nat -> Invites.ClaimRecord)
    requires Unbroken(s, record) && a in s.checked && record(a).tokenID !in s.claims
    requires record(b).tokenID == record(a).tokenID
    ensures var events := [Mark(a, Unsynced), PowerFails(s.file.shown), Check(b), Mark(b, Synced)];
            RunClaims(s, events, record).winners == s.winners + [a, b]
  {
    RunOfFour(s, Mark(a, Unsynced), PowerFails(s.file.shown), Check(b), Mark(b, Synced), record);
    LostAfterWin(s, a, record);
    var lost := NextClaim(NextClaim(s, Mark(a, Unsynced), record), PowerFails(s.file.shown), record);
    CheckedWins(lost, b, record);
    assert lost.winners + [b] == s.winners + [a, b];
  }

  lemma LostAfterWin(s: ClaimState, a: nat, record: nat -> Invites.ClaimRecord)
    requires s.file.shown in s.file.possible && a in s.checked && record(a).tokenID !in s.claims
    ensures NextClaim(NextClaim(s, Mark(a, Unsynced), record), PowerFails(s.file.shown), record)
         == ClaimState(s.file.shown, Grip(s.file.shown, {s.file.shown}), {}, s.winners + [a])
  {
  }

  lemma CheckedWins(s: ClaimState, b: nat, record: nat -> Invites.ClaimRecord)
    requires record(b).tokenID !in s.claims
    ensures NextClaim(NextClaim(s, Check(b), record), Mark(b, Synced), record).winners == s.winners + [b]
  {
  }

  lemma RunOfFour(s: ClaimState, a: ClaimEvent, b: ClaimEvent, c: ClaimEvent, d: ClaimEvent,
                  record: nat -> Invites.ClaimRecord)
    ensures RunClaims(s, [a, b, c, d], record)
         == NextClaim(NextClaim(NextClaim(NextClaim(s, a, record), b, record), c, record), d, record)
  {
    assert [a, b, c, d][1..] == [b, c, d] && [b, c, d][1..] == [c, d] && [c, d][1..] == [d] && [d][1..] == [];
    var s1 := NextClaim(s, a, record);
    var s2 := NextClaim(s1, b, record);
    assert RunClaims(s2, [c, d], record) == RunClaims(NextClaim(s2, c, record), [d], record);
    assert RunClaims(s1, [b, c, d], record) == RunClaims(s2, [c, d], record);
  }

  // ---------------------------------------------------------------- epochs

  /** The epoch machine, on a file that a loss of power can set back. */
  datatype EpochState = EpochState(mem: int, file: Grip<int>, returned: seq<int>)

  datatype EpochEvent = Inc(end: PowerEnd) | Reopen | PowerCut(found: int)

  function NextEpoch(s: EpochState, e: EpochEvent): EpochState {
    match e
    case Inc(end) =>
      var value := Decimal.Next64(s.mem);
      var file := AfterWrite(s.file, value, end);
      if end.Cut? then EpochState(file.shown, file, s.returned)
      else EpochState(value, file, if end.NotWritten? then s.returned else s.returned + [value])
    case Reopen => EpochState(s.file.shown, s.file, s.returned)
    case PowerCut(found) =>
      if found in s.file.possible then EpochState(found, Grip(found, {found}), s.returned) else s
  }

  /** The returned values rise, and none is above what a loss of power can bring back. */
  ghost predicate Rising(s: EpochState) {
    && s.file.shown in s.file.possible && s.file.shown <= s.mem
    && (forall c :: c in s.file.possible ==> c <= s.file.shown && NoneAbove(s.returned, c))
    && (forall i, j :: 0 <= i < j < |s.returned| ==> s.returned[i] < s.returned[j])
  }

  ghost predicate NoneAbove(returned: seq<int>, c: int) { forall i :: 0 <= i < |returned| ==> returned[i] <= c }

  /** Exactly which steps break that, below the largest value: an increment answered with its directory not synced. */
  lemma StepRisingIff(s: EpochState, e: EpochEvent)
    requires Rising(s) && s.mem < Decimal.MAX_INT64
    ensures Rising(NextEpoch(s, e)) <==> e != Inc(Unsynced)
    ensures NextEpoch(s, e).mem <= s.mem + 1
  {
    var s' := NextEpoch(s, e);
    if e == Inc(Unsynced) {
      assert s.file.shown in s'.file.possible && s'.returned[|s.returned|] == s.mem + 1;
      assert !NoneAbove(s'.returned, s.file.shown);
    } else if e.Inc? {
      assert NoneAbove(s.returned, s.file.shown);
    }
  }

  ghost predicate RisingThroughout(s: EpochState, events: seq<EpochEvent>)
    decreases |events|
  {
    Rising(s) && (events != [] ==> RisingThroughout(NextEpoch(s, events[0]), events[1..]))
  }

  /**
   Rising epochs under loss of power. Over any run of increments, failures, deaths, restarts and losses of power,
   the returned values rise and stay safe from the next loss of power at all times, if and only if every
   increment that was answered had its directory synced.
   */
  lemma {:induction false} EpochsRiseIff(s: EpochState, events: seq<EpochEvent>)
    requires Rising(s) && s.mem + |events| <= Decimal.MAX_INT64
    ensures RisingThroughout(s, events) <==> Inc(Unsynced) !in events
    decreases |events|
  {
    if events != [] {
      StepRisingIff(s, events[0]);
      assert Inc(Unsynced) in events <==> events[0] == Inc(Unsynced) || Inc(Unsynced) in events[1..];
      if events[0] != Inc(Unsynced) {
        EpochsRiseIff(NextEpoch(s, events[0]), events[1..]);
      }
    }
  }

  /** After an increment answered without it, a loss of power can have that epoch, or an older one, returned again. */
  lemma UnsyncedEpochReturns(s: EpochState)
    requires Rising(s) && s.mem < Decimal.MAX_INT64 && Decimal.MIN_INT64 <= s.file.shown
    ensures var q := NextEpoch(NextEpoch(NextEpoch(s, Inc(Unsynced)), PowerCut(s.file.shown)), Inc(Synced));
            q.returned == s.returned + [s.mem + 1, s.file.shown + 1] && s.file.shown + 1 <= s.mem + 1
  {
    assert s.returned + [s.mem + 1] + [s.file.shown + 1] == s.returned + [s.mem + 1, s.file.shown + 1];
  }
}
