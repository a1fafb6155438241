/**
 Single-use invite claims: internal/invite/store.go and the check-then-claim steps of
 internal/api/invites.go. The claims file is modelled as the list of records its JSON holds.
 */
module InviteStore {
  import opened Disk
  import opened Wrappers

  datatype ClaimRecord = ClaimRecord(tokenID: string, claimedBy: string, claimedAt: int, expiresAt: int)

  type Claims = map<string, ClaimRecord>

  predicate Keyed(claims: Claims) { forall id :: id in claims ==> claims[id].tokenID == id }

  /** The map a list of records loads as; a later record for a token replaces an earlier one. */
  function LoadList(list: seq<ClaimRecord>): Claims {
    if list == [] then map[]
    else LoadList(list[..|list| - 1])[list[|list| - 1].tokenID := list[|list| - 1]]
  }

  /** The list shows each claim of the map and nothing else, in any order. */
  ghost predicate Lists(list: seq<ClaimRecord>, claims: Claims) {
    && (forall i :: 0 <= i < |list| ==> list[i].tokenID in claims && claims[list[i].tokenID] == list[i])
    && (forall id :: id in claims ==> claims[id] in list)
  }

  lemma {:induction false} LoadListRecords(list: seq<ClaimRecord>)
    ensures Keyed(LoadList(list))
    ensures forall id :: id in LoadList(list) ==> LoadList(list)[id] in list
    ensures forall i :: 0 <= i < |list| ==> list[i].tokenID in LoadList(list)
  {
    if list != [] {
      LoadListRecords(list[..|list| - 1]);
      assert list == list[..|list| - 1] + [list[|list| - 1]];
    }
  }

  /** Record i is the last of its token. */
  ghost predicate LastOf(list: seq<ClaimRecord>, i: int, id: string) {
    0 <= i < |list| && list[i].tokenID == id && forall j :: i < j < |list| ==> list[j].tokenID != id
  }

  /** What a list loads as: of each token the last record, and nothing else. */
  lemma {:induction false} LoadListIff(list: seq<ClaimRecord>, id: string)
    ensures id in LoadList(list) <==> exists i :: LastOf(list, i, id)
    ensures forall i :: LastOf(list, i, id) ==> id in LoadList(list) && LoadList(list)[id] == list[i]
    decreases |list|
  {
    if list != [] {
      var m := |list| - 1;
      var rest := list[..m];
      LoadListIff(rest, id);
      if list[m].tokenID == id {
        assert LastOf(list, m, id);
        assert forall i :: LastOf(list, i, id) ==> i == m;
      } else {
        forall i ensures LastOf(list, i, id) <==> LastOf(rest, i, id) {
          assert forall j :: 0 <= j < m ==> list[j] == rest[j];
        }
      }
    }
  }

  /** Persist then load gives the same map, whatever order the map was iterated in. */
  lemma PersistThenLoad(list: seq<ClaimRecord>, claims: Claims)
    requires Keyed(claims) && Lists(list, claims)
    ensures LoadList(list) == claims
  {
    LoadListRecords(list);
    var loaded := LoadList(list);
    forall id ensures id in loaded <==> id in claims {
      if id in loaded { assert loaded[id] in list && loaded[id].tokenID == id; }
      if id in claims {
        var i :| 0 <= i < |list| && list[i] == claims[id];
        assert list[i].tokenID == id;
      }
    }
    forall id | id in loaded ensures loaded[id] == claims[id] {
      var i :| 0 <= i < |list| && list[i] == loaded[id];
    }
  }

  datatype MarkEnd = AlreadyClaimed | PersistFailed | Claimed | ProcessDied(persisted: bool)

  /** What a request needs to be accepted, as the handler learns it before it looks at the store. */
  datatype ClaimRequest = ClaimRequest(
    post: bool, bodyOk: bool, keyOk: bool, verified: bool,
    tokenID: string, grantee: string, expiresAt: int, callerLogin: Option<string>)

  class Store {
    const path: string
    const disk: Disk<ClaimRecord>
    var claims: Claims

    ghost predicate Valid()
      reads this
    {
      Keyed(claims)
    }

    /** The claims a restart would load. */
    ghost function Durable(): Claims
      reads disk
    {
      if path in disk.files then LoadList(disk.files[path].data) else map[]
    }

    constructor (path: string, disk: Disk<ClaimRecord>)
      ensures this.path == path && this.disk == disk && claims == map[]
    {
      this.path, this.disk, this.claims := path, disk, map[];
    }

    /**
     NewStore: a missing file starts empty; one that cannot be read or parsed is an error; otherwise its claims
     are loaded.
     */
    static method Open(path: string, disk: Disk<ClaimRecord>, unreadable: bool) returns (s: Store?)
      ensures s == null <==> path in disk.files && unreadable
      ensures s != null ==> fresh(s) && s.path == path && s.disk == disk && s.Valid() && s.claims == s.Durable()
    {
      var store := new Store(path, disk);
      var ok := store.Load(unreadable);
      s := if ok then store else null;
    }

    method Load(unreadable: bool) returns (ok: bool)
      requires claims == map[]
      modifies this
      ensures ok <==> !(path in disk.files && unreadable)
      ensures Valid() && claims == if ok then Durable() else map[]
    {
      if path !in disk.files { return true; }
      if unreadable { return false; }
      var list := disk.files[path].data;
      for i := 0 to |list|
        invariant claims == LoadList(list[..i])
      {
        assert list[..i + 1][..i] == list[..i];
        claims := claims[list[i].tokenID := list[i]];
      }
      assert list[..|list|] == list;
      LoadListRecords(list);
      ok := true;
    }

    method IsClaimed(tokenID: string) returns (claimed: bool)
      ensures claimed <==> tokenID in claims
    {
      claimed := tokenID in claims;
    }

    method ListClaims() returns (list: seq<ClaimRecord>)
      requires Valid()
      ensures Lists(list, claims)
    {
      list := [];
      var ids := claims.Keys;
      while ids != {}
        invariant ids <= claims.Keys
        invariant forall i :: 0 <= i < |list| ==> list[i].tokenID in claims && claims[list[i].tokenID] == list[i]
        invariant forall id :: id in claims && id !in ids ==> claims[id] in list
        decreases |ids|
      {
        var id :| id in ids;
        ids := ids - {id};
        list := list + [claims[id]];
      }
    }

    method PersistLocked(luck: Luck) returns (end: WriteEnd)
      requires Valid() && luck.tmp !in disk.files && luck.tmp != path
      modifies disk
      ensures end == EndOf(luck) && Durable() == Settle(old(Durable()), claims, end)
      ensures end == Done ==> path in disk.files && disk.files[path].perm == 0x180
    {
      if luck.mkdirFails { return Failed; }
      var list := ListClaims();
      PersistThenLoad(list, claims);
      ghost var before := disk.files;
      end := disk.AtomicWrite(path, list, 0x180, luck.tmp, luck.fault, luck.removeFails);
      AtomicEffectSettles(before, disk.files, path, File(list, 0x180), luck.tmp, end, path);
    }

    /**
     MarkClaimed, under the store's lock. The claim enters memory before it is persisted, and stays there
     when persisting fails; it is reported claimed exactly when it is durable and the process lived.
     */
    method MarkClaimed(tokenID: string, claimedBy: string, now: int, expiresAt: int, luck: Luck) returns (end: MarkEnd)
      requires Valid() && luck.tmp !in disk.files && luck.tmp != path
      modifies this, disk
      ensures Valid()
      ensures end == AlreadyClaimed <==> tokenID in old(claims)
      ensures end == AlreadyClaimed ==> claims == old(claims) && Durable() == old(Durable())
      ensures end != AlreadyClaimed ==>
                && claims == old(claims)[tokenID := ClaimRecord(tokenID, claimedBy, now, expiresAt)]
                && PersistEnd(end) == EndOf(luck) && Durable() == Settle(old(Durable()), claims, EndOf(luck))
      ensures Next(State(old(claims), old(Durable()), {0}, []), Mark(0, EndOf(luck)),
              Always(ClaimRecord(tokenID, claimedBy, now, expiresAt)))
              == Stands(end.ProcessDied?, claims, Durable(), if end.Claimed? then [0] else [])
    {
      if tokenID in claims { return AlreadyClaimed; }
      claims := claims[tokenID := ClaimRecord(tokenID, claimedBy, now, expiresAt)];
      var written := PersistLocked(luck);
      end := match written
        case Done => Claimed
        case Failed => PersistFailed
        case Died(persisted) => ProcessDied(persisted);
    }

    /** The handler's answer as an HTTP status; 0 stands for a process that died before answering. */
    method ServeHTTP(req: ClaimRequest, now: int, luck: Luck) returns (status: nat)
      requires Valid() && luck.tmp !in disk.files && luck.tmp != path
      modifies this, disk
      ensures Valid()
      ensures status == 405 <==> !req.post
      ensures status == 400 <==> req.post && !req.bodyOk
      ensures status == 500 <==> req.post && req.bodyOk && !req.keyOk
      ensures status == 401 <==> req.post && req.bodyOk && req.keyOk && !req.verified
      ensures status == 403 <==> Signed(req) && now <= req.expiresAt && !ByGrantee(req)
      ensures status == 410 <==> Signed(req) && (now > req.expiresAt || (ByGrantee(req) && req.tokenID in old(claims)))
      ensures status == 200 <==>
                && Signed(req) && now <= req.expiresAt && ByGrantee(req)
                && req.tokenID !in old(claims) && EndOf(luck) == Done
      ensures !Admissible(req, now) ==> 400 <= status && claims == old(claims) && Durable() == old(Durable())
      ensures Admissible(req, now) && req.tokenID in old(claims) ==>
                status == 410 && claims == old(claims) && Durable() == old(Durable())
      ensures Admissible(req, now) && req.tokenID !in old(claims) ==>
                && claims == old(claims)[req.tokenID := ClaimRecord(req.tokenID, req.grantee, now, req.expiresAt)]
                && Durable() == Settle(old(Durable()), claims, EndOf(luck))
                && (EndOf(luck) == Failed ==> status == 409) && (EndOf(luck).Died? ==> status == 0)
      ensures Admissible(req, now) ==>
                Run(State(old(claims), old(Durable()), {}, []), [Check(0), Mark(0, EndOf(luck))],
                    Always(ClaimRecord(req.tokenID, req.grantee, now, req.expiresAt)))
                == Stands(status == 0, claims, Durable(), if status == 200 then [0] else [])
    {
      if !req.post { return 405; }
      if !req.bodyOk { return 400; }
      if !req.keyOk { return 500; }
      if !req.verified { return 401; }
      if now > req.expiresAt { return 410; }
      if req.callerLogin.None? || req.callerLogin.value == "" { return 403; }
      if req.grantee != req.callerLogin.value { return 403; }
      CheckThenMark(State(claims, Durable(), {}, []), EndOf(luck),
              Always(ClaimRecord(req.tokenID, req.grantee, now, req.expiresAt)));
      var claimed := IsClaimed(req.tokenID);
      if claimed { return 410; }
      var end := MarkClaimed(req.tokenID, req.callerLogin.value, now, req.expiresAt, luck);
      status := if end.Claimed? then 200 else if end.ProcessDied? then 0 else 409;
    }
  }

  /** How the machine below sees this process: its store, or after a death what a restart finds. */
  function Stands(died: bool, claims: Claims, durable: Claims, winners: seq<nat>): State {
    State(if died then durable else claims, durable, {}, winners)
  }

  function Always(r: ClaimRecord): nat -> ClaimRecord { _ => r }

  lemma CheckThenMark(s: State, end: WriteEnd, record: nat -> ClaimRecord)
    requires s.checked == {}
    ensures var s1 := if record(0).tokenID in s.claims then s else Next(s.(checked := {0}), Mark(0, end), record);
            Run(s, [Check(0), Mark(0, end)], record) == s1
  {
    var checked := Next(s, Check(0), record);
    assert [Check(0), Mark(0, end)][1..] == [Mark(0, end)] && [Mark(0, end)][1..] == [];
    assert Run(checked, [Mark(0, end)], record) == Next(checked, Mark(0, end), record);
    assert checked == if record(0).tokenID in s.claims then s else s.(checked := {0});
  }

  /** A post with a token that the artifact key verifies. */
  predicate Signed(req: ClaimRequest) { req.post && req.bodyOk && req.keyOk && req.verified }

  /** The caller is known, and is the one the token was issued to. */
  predicate ByGrantee(req: ClaimRequest) { req.callerLogin == Some(req.grantee) && req.grantee != "" }

  /** Everything the handler asks of a request before it asks the store. */
  predicate Admissible(req: ClaimRequest, now: int) {
    && req.post && req.bodyOk && req.keyOk && req.verified && now <= req.expiresAt
    && req.callerLogin.Some? && req.callerLogin.value != "" && req.grantee == req.callerLogin.value
  }

  function PersistEnd(end: MarkEnd): WriteEnd
    requires end != AlreadyClaimed
  {
    match end
    case Claimed => Done
    case PersistFailed => Failed
    case ProcessDied(persisted) => Died(persisted)
  }

  // ---------------------------------------------------------------- interleaved runs

  /**
   The daemon over any run: requests that passed the IsClaimed check wait in `checked` until they call
   MarkClaimed; `winners` are the requests answered 200, oldest first.
   */
  datatype State = State(claims: Claims, durable: Claims, checked: set<nat>, winners: seq<nat>)

  datatype Event =
    | Check(req: nat)
    | Mark(req: nat, end: WriteEnd)
    | Restart

  /** One step; `record` gives each request's claim record. A dead process restarts from what is durable. */
  function Next(s: State, e: Event, record: nat -> ClaimRecord): State {
    match e
    case Check(req) =>
      if record(req).tokenID in s.claims then s else s.(checked := s.checked + {req})
    case Mark(req, end) =>
      var r := record(req);
      if req !in s.checked then s
      else if r.tokenID in s.claims then s.(checked := s.checked - {req})
      else
        var claims := s.claims[r.tokenID := r];
        var durable := Settle(s.durable, claims, end);
        if end.Died? then State(durable, durable, {}, s.winners)
        else State(claims, durable, s.checked - {req}, if end == Done then s.winners + [req] else s.winners)
    case Restart => State(s.durable, s.durable, {}, s.winners)
  }

  function Run(s: State, events: seq<Event>, record: nat -> ClaimRecord): State
    decreases |events|
  {
    if events == [] then s else Run(Next(s, events[0], record), events[1..], record)
  }

  /** Answered 200 implies durable, durable implies claimed in memory, and no two answers share a token. */
  ghost predicate Safe(s: State, record: nat -> ClaimRecord) {
    && (forall i :: 0 <= i < |s.winners| ==> record(s.winners[i]).tokenID in s.durable)
    && (forall id :: id in s.durable ==> id in s.claims && s.claims[id] == s.durable[id])
    && (forall i, j :: 0 <= i < j < |s.winners| ==> record(s.winners[i]).tokenID != record(s.winners[j]).tokenID)
  }

  lemma StepKeepsSafe(s: State, e: Event, record: nat -> ClaimRecord)
    requires Safe(s, record)
    ensures Safe(Next(s, e, record), record)
  {
    var s' := Next(s, e, record);
    if e.Mark? && e.req in s.checked && record(e.req).tokenID !in s.claims && e.end == Done {
      forall i, j | 0 <= i < j < |s'.winners|
        ensures record(s'.winners[i]).tokenID != record(s'.winners[j]).tokenID
      {
        if j == |s.winners| {
          assert record(s.winners[i]).tokenID in s.durable;
        }
      }
    }
  }

  /**
   Single use. Over any interleaving of checks and claims, with persists failing, the process dying at
   any step of a write, and restarts, no token is ever successfully claimed twice.
   */
  lemma {:induction false} ClaimedAtMostOnce(s: State, events: seq<Event>, record: nat -> ClaimRecord)
    requires Safe(s, record)
    ensures Safe(Run(s, events, record), record)
    decreases |events|
  {
    if events != [] {
      StepKeepsSafe(s, events[0], record);
      ClaimedAtMostOnce(Next(s, events[0], record), events[1..], record);
    }
  }

  /** Two requests for one token, checked before either claims: the second is turned away at the claim. */
  lemma SecondOfTwoLoses(s: State, a: nat, b: nat, end: WriteEnd, record: nat -> ClaimRecord)
    requires a in s.checked && b in s.checked && a != b && record(a).tokenID == record(b).tokenID
    requires record(a).tokenID !in s.claims
    ensures var s' := Run(s, [Mark(a, Done), Mark(b, end)], record);
            s'.winners == s.winners + [a] && s'.claims == s.claims[record(a).tokenID := record(a)]
  {
    var s1 := Next(s, Mark(a, Done), record);
    assert [Mark(a, Done), Mark(b, end)][1..] == [Mark(b, end)];
    assert [Mark(b, end)][1..] == [];
    assert Run(s1, [Mark(b, end)], record) == Next(s1, Mark(b, end), record);
  }

  /** A claim whose persist failed blocks its token until the next restart, and only until then. */
  lemma FailedPersistBlocksUntilRestart(s: State, a: nat, b: nat, record: nat -> ClaimRecord)
    requires Safe(s, record) && a in s.checked && record(a).tokenID !in s.claims
    requires record(b).tokenID == record(a).tokenID
    ensures var failed := Next(s, Mark(a, Failed), record);
            && Next(failed, Check(b), record) == failed
            && b in Next(Next(failed, Restart, record), Check(b), record).checked
  {
  }
}
