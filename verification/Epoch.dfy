/**
 The mutation epoch: internal/state/epoch.go, and the gate of internal/api/admin.go that validates it
 before a mutation and raises it after a successful one.
 */
module Epoch {
  import opened Decimal
  import opened Text
  import opened Disk
  import opened Wrappers

  /** What the epoch file holds: nothing, something unreadable, or a number. */
  datatype Stored = Absent | Unreadable | Number(value: int)

  function ReadStored(files: map<string, File<char>>, path: string): Stored {
    if path !in files then Absent
    else
      match ParseInt64(TrimSpace(files[path].data))
      case None => Unreadable
      case Some(n) => Number(n)
  }

  function EpochText(value: int): string { PrintInt(value) + "\n" }

  datatype GateError = Stale | Future

  class Counter {
    const path: string
    const disk: Disk<char>
    var value: int

    /** The number the file stands for: a missing one counts as 0. */
    ghost function Durable(): int
      reads disk
    {
      match ReadStored(disk.files, path)
      case Number(n) => n
      case _ => 0
    }

    /** NewEpoch: a missing file counts as 0; one that cannot be read, or holds no number, is an error. */
    static method Open(path: string, disk: Disk<char>, readFails: bool) returns (c: Counter?)
      ensures c == null <==> path in disk.files && (readFails || ReadStored(disk.files, path).Unreadable?)
      ensures c != null ==> fresh(c) && c.path == path && c.disk == disk && IsInt64(c.value) && c.value == c.Durable()
      ensures c != null && path !in disk.files ==> c.value == 0
    {
      var value := 0;
      if path in disk.files {
        if readFails { return null; }
        var parsed := ParseInt64(TrimSpace(disk.files[path].data));
        if parsed.None? { return null; }
        value := parsed.value;
      }
      c := new Counter(path, disk, value);
    }

    constructor (path: string, disk: Disk<char>, value: int)
      ensures this.path == path && this.disk == disk && this.value == value
    {
      this.path, this.disk, this.value := path, disk, value;
    }

    method Validate(caller: int) returns (err: Option<GateError>)
      ensures err.None? <==> caller == value
      ensures err == Some(Stale) <==> caller < value
    {
      err := if caller < value then Some(Stale) else if caller > value then Some(Future) else None;
    }

    /**
     Increment: memory moves first and stays moved. The new value is returned exactly when it was made
     durable and the process lived; otherwise the file holds what it held, or already the new value.
     */
    method Increment(luck: Luck) returns (next: Option<int>)
      requires IsInt64(value) && luck.tmp !in disk.files && luck.tmp != path
      modifies this, disk
      ensures IsInt64(value) && value == Next64(old(value))
      ensures next == if EndOf(luck) == Done then Some(value) else None
      ensures ReadStored(disk.files, path) == Settle(old(ReadStored(disk.files, path)), Number(value), EndOf(luck))
      ensures EndOf(luck) == Done ==> path in disk.files && disk.files[path] == File(PrintInt(value) + "\n", 0x180)
      ensures var step := Next(State(old(value), old(Durable()), []), Inc(EndOf(luck)));
              step == if EndOf(luck).Died? then State(Durable(), Durable(), [])
                      else State(value, Durable(), if next.Some? then [next.value] else [])
    {
      value := Next64(value);
      if luck.mkdirFails { return None; }
      FileTextRoundTrip(value);
      ghost var before := disk.files;
      var written := disk.AtomicWrite(path, EpochText(value), 0x180, luck.tmp, luck.fault, luck.removeFails);
      SettlesStored(before, disk.files, path, EpochText(value), luck.tmp, written);
      next := if written == Done then Some(value) else None;
    }
  }

  /** parseCallerEpoch on the X-State-Epoch header: a missing or unreadable one is refused. */
  function CallerEpoch(header: string): Option<int> {
    if header == "" then None else ParseInt64(header)
  }

  /** The callers' epochs are exactly the signed digit strings that fit 64 bits. */
  lemma CallerEpochIff(header: string, n: int)
    ensures CallerEpoch(header) == Some(n)
       <==> -0x8000_0000_0000_0000 <= n < 0x8000_0000_0000_0000 && exists digits :: Spells(header, digits, n)
  {
    ParseInt64Iff(header, n);
  }

  predicate IsMutation(httpMethod: string) {
    httpMethod == "POST" || httpMethod == "PUT" || httpMethod == "PATCH" || httpMethod == "DELETE"
  }

  /** A request as requireAdminKey sees it; `allowed` is the access registry's answer. */
  datatype Request = Request(httpMethod: string, keyConfigured: bool, keyMatches: bool, epochHeader: string,
                             allowed: bool) {
    predicate Mutates() { IsMutation(httpMethod) }
    function Caller(): Option<int> { CallerEpoch(epochHeader) }
  }

  /** What a request that was let through does to the gate. */
  function Trace(req: Request, handlerStatus: nat): seq<GateStep> {
    if !req.Mutates() || req.Caller().None? then []
    else [Admit(0, req.Caller().value)] + if 200 <= handlerStatus < 300 then [Succeed(0)] else []
  }

  /**
   requireAdminKey around a handler that answers `handlerStatus`. The handler runs exactly when the
   request passes; the epoch goes through exactly the steps of the gate, even if persisting fails. A node
   without an epoch gates nothing.
   */
  method RequireAdminKey(c: Counter?, req: Request, handlerStatus: nat, luck: Luck) returns (status: nat, ran: bool)
    requires c != null ==> IsInt64(c.value) && luck.tmp !in c.disk.files && luck.tmp != c.path
    modifies if c == null then {} else {c, c.disk}
    ensures ran <==>
              && req.keyConfigured && req.keyMatches && req.allowed
              && (c != null && req.httpMethod in {"POST", "PUT", "PATCH", "DELETE"} ==>
                    CallerEpoch(req.epochHeader) == Some(old(c.value)))
    ensures ran ==> status == handlerStatus
    ensures !ran ==> status == if !req.keyConfigured then 403 else if !req.keyMatches then 401
                               else if c == null || req.httpMethod !in {"POST", "PUT", "PATCH", "DELETE"} then 403
                               else if CallerEpoch(req.epochHeader).None? then 400
                               else if CallerEpoch(req.epochHeader).value != old(c.value) then 409 else 403
    ensures c != null && ran ==>
              var steps := Trace(req, handlerStatus);
              && c.value == Current(old(c.value), steps)
              && (forall k :: 0 <= k < |steps| && steps[k].Admit? ==> Admitted(old(c.value), steps, k))
              && (if Succeed(0) in steps
                  then ReadStored(c.disk.files, c.path)
                      == Settle(old(ReadStored(c.disk.files, c.path)), Number(c.value), EndOf(luck))
                  else c.disk.files == old(c.disk.files))
    ensures c != null && !ran ==> c.value == old(c.value) && c.disk.files == old(c.disk.files)
  {
    ran := false;
    if !req.keyConfigured { return 403, ran; }
    if !req.keyMatches { return 401, ran; }
    if req.Mutates() && c != null {
      if req.Caller().None? { return 400, ran; }
      var err := c.Validate(req.Caller().value);
      if err.Some? { return 409, ran; }
    }
    if !req.allowed { return 403, ran; }
    status, ran := handlerStatus, true;
    TraceMoves(req, handlerStatus, if c == null then 0 else c.value);
    if req.Mutates() && c != null && 200 <= status < 300 {
      var next := c.Increment(luck);
    }
  }

  lemma TraceMoves(req: Request, handlerStatus: nat, value: int)
    ensures var steps := Trace(req, handlerStatus);
            && Current(value, steps) == (if Succeed(0) in steps then Next64(value) else value)
            && (Succeed(0) in steps <==> req.Mutates() && req.Caller().Some? && 200 <= handlerStatus < 300)
            && (req.Caller() == Some(value) ==>
                  forall k :: 0 <= k < |steps| && steps[k].Admit? ==> Admitted(value, steps, k))
  {
    var steps := Trace(req, handlerStatus);
    if steps != [] {
      var first := [steps[0]];
      assert first[..0] == [] && steps[..0] == [] && Current(value, first) == value;
      if |steps| == 2 {
        assert steps[..1] == first;
      } else {
        assert steps == first;
      }
    }
  }

  lemma SettlesStored(before: map<string, File<char>>, after: map<string, File<char>>, path: string, text: string,
                      tmp: string, end: WriteEnd)
    requires AtomicEffect(before, after, path, File(text, 0x180), tmp, end) && tmp != path && tmp !in before
    ensures ReadStored(after, path)
         == Settle(ReadStored(before, path), ReadStored(map[path := File(text, 0x180)], path), end)
  {
    AtomicEffectSettles(before, after, path, File(text, 0x180), tmp, end, path);
  }

  // ---------------------------------------------------------------- returned values over any run

  datatype State = State(mem: int, disk: int, returned: seq<int>)

  /** One increment with its outcome, or a restart; a process that died restarts from the file. */
  datatype Event = Inc(end: WriteEnd) | Restart

  function Next(s: State, e: Event): State {
    match e
    case Inc(end) =>
      var value := Next64(s.mem);
      var disk := Settle(s.disk, value, end);
      if end.Died? then State(disk, disk, s.returned)
      else State(value, disk, if end == Done then s.returned + [value] else s.returned)
    case Restart => State(s.disk, s.disk, s.returned)
  }

  function Run(s: State, events: seq<Event>): State
    decreases |events|
  {
    if events == [] then s else Run(Next(s, events[0]), events[1..])
  }

  /** Memory is never below the file, the file never below what was returned, and what was returned rises. */
  ghost predicate Monotone(s: State) {
    && s.disk <= s.mem
    && (forall i :: 0 <= i < |s.returned| ==> s.returned[i] <= s.disk)
    && (forall i, j :: 0 <= i < j < |s.returned| ==> s.returned[i] < s.returned[j])
  }

  /** The numbers of a state fit 64 bits. */
  ghost predicate Fits64(s: State) {
    IsInt64(s.mem) && IsInt64(s.disk) && forall i :: 0 <= i < |s.returned| ==> IsInt64(s.returned[i])
  }

  /**
   Exactly when a step keeps the order: always below the largest value and on a restart. At the largest
   value memory wraps to the smallest, and order is kept only if nothing above that is left standing.
   */
  lemma StepMonotoneIff(s: State, e: Event)
    requires Monotone(s) && Fits64(s)
    ensures Fits64(Next(s, e))
    ensures Monotone(Next(s, e)) <==>
              || e.Restart?
              || s.mem < MAX_INT64
              || e == Inc(Died(false))
              || (e == Inc(Failed) && s.disk == MIN_INT64)
              || (e == Inc(Done) && s.returned == [])
              || (e == Inc(Died(true)) && forall i :: 0 <= i < |s.returned| ==> s.returned[i] == MIN_INT64)
  {
    var s' := Next(s, e);
    if e == Inc(Done) && s.mem == MAX_INT64 && s.returned != [] {
      assert s'.returned[0] == s.returned[0] && s'.returned[|s.returned|] == MIN_INT64;
    }
  }

  /** Over any run of increments, failed writes, deaths and restarts, the returned values strictly rise. */
  lemma {:induction false} ReturnedValuesRise(s: State, events: seq<Event>)
    requires Monotone(s) && Fits64(s) && s.mem + |events| <= MAX_INT64
    ensures Monotone(Run(s, events))
    decreases |events|
  {
    if events != [] {
      StepMonotoneIff(s, events[0]);
      ReturnedValuesRise(Next(s, events[0]), events[1..]);
    }
  }

  /** The file holds what this increment raised memory to. */
  predicate Durably(e: Event) { e.Inc? && (e.end == Done || e.end == Died(true)) }

  /** Step i raises memory past an epoch, and the file with it. */
  ghost predicate LeavesForGood(s: State, events: seq<Event>, i: int, epoch: int) {
    0 <= i < |events| && Durably(events[i]) && Run(s, events[..i]).mem >= epoch
  }

  /**
   What is not promised: after a failed persist and a restart, an epoch is in use again. Over any run of
   increments, failures, deaths and restarts, a restart comes back at or below an epoch if and only if the
   file was not past it at the start and no increment past it was durable.
   */
  lemma {:induction false} RestartReopensEpochIff(s: State, events: seq<Event>, epoch: int)
    requires s.disk <= s.mem && s.mem + |events| <= MAX_INT64
    ensures Run(s, events + [Restart]).mem <= epoch
       <==> s.disk <= epoch && forall i :: !LeavesForGood(s, events, i, epoch)
    decreases |events|
  {
    if events == [] {
      assert [] + [Restart] == [Restart] && [Restart][1..] == [];
    } else {
      var rest := events[1..];
      var s1 := Next(s, events[0]);
      assert (events + [Restart])[1..] == rest + [Restart];
      assert events[..0] == [];
      assert LeavesForGood(s, events, 0, epoch) <==> Durably(events[0]) && s.mem >= epoch;
      RestartReopensEpochIff(s1, rest, epoch);
      forall i ensures i > 0 ==> (LeavesForGood(s, events, i, epoch) <==> LeavesForGood(s1, rest, i - 1, epoch)) {
        if 0 < i < |events| {
          assert events[..i][1..] == rest[..i - 1];
        }
      }
      forall i ensures LeavesForGood(s1, rest, i, epoch) ==> LeavesForGood(s, events, i + 1, epoch) {
      }
    }
  }

  function Incs(ends: seq<WriteEnd>): (events: seq<Event>)
    ensures |events| == |ends| && forall i :: 0 <= i < |ends| ==> events[i] == Inc(ends[i])
  {
    seq(|ends|, i requires 0 <= i < |ends| => Inc(ends[i]))
  }

  /** The ends of one process's increments: only the last can be its death. */
  ghost predicate OneLife(ends: seq<WriteEnd>) {
    forall i :: 0 <= i < |ends| - 1 ==> !ends[i].Died?
  }

  lemma {:induction false} LifeCounts(s: State, ends: seq<WriteEnd>, i: nat)
    requires OneLife(ends) && i < |ends| && s.mem + |ends| <= MAX_INT64
    ensures Run(s, Incs(ends)[..i]).mem == s.mem + i
    decreases i
  {
    if i > 0 {
      assert Incs(ends)[..i][1..] == Incs(ends[1..])[..i - 1];
      assert Next(s, Inc(ends[0])).mem == s.mem + 1;
      LifeCounts(Next(s, Inc(ends[0])), ends[1..], i - 1);
    }
  }

  /**
   The same within the life of one process, by numbers: it increments, perhaps dies of it, and a restart comes
   back at or below an epoch it had reached exactly when every increment from there on was lost.
   */
  lemma LifeReopensEpochIff(s: State, ends: seq<WriteEnd>, epoch: int)
    requires OneLife(ends) && s.disk <= s.mem <= epoch && s.mem + |ends| <= MAX_INT64
    ensures Run(s, Incs(ends) + [Restart]).mem <= epoch
       <==> forall i :: epoch - s.mem <= i < |ends| ==> ends[i] == Failed || ends[i] == Died(false)
  {
    var events := Incs(ends);
    RestartReopensEpochIff(s, events, epoch);
    forall i ensures LeavesForGood(s, events, i, epoch) <==>
                       epoch - s.mem <= i < |ends| && !(ends[i] == Failed || ends[i] == Died(false))
    {
      if 0 <= i < |ends| { LifeCounts(s, ends, i); }
    }
  }

  // ---------------------------------------------------------------- the gate, requests interleaved

  /**
   A request passes validation, or a request that passed has succeeded; a failed persist raises memory all the
   same.
   */
  datatype GateStep = Admit(req: nat, caller: int) | Succeed(req: nat)

  /** The epoch in memory after some steps of one process. */
  function Current(start: int, steps: seq<GateStep>): int {
    if steps == [] then start
    else
      var before := Current(start, steps[..|steps| - 1]);
      if steps[|steps| - 1].Succeed? then Next64(before) else before
  }

  /** Step k is a request that passed validation. */
  ghost predicate Admitted(start: int, steps: seq<GateStep>, k: int) {
    0 <= k < |steps| && steps[k].Admit? && steps[k].caller == Current(start, steps[..k])
  }

  /** Step k is the success of the request admitted at p. */
  ghost predicate Completes(start: int, steps: seq<GateStep>, p: int, k: int) {
    p < k < |steps| && Admitted(start, steps, p) && steps[k] == Succeed(steps[p].req)
  }

  /** A run of the gate: requests are admitted by their epoch, once each, and succeed at most once, after that. */
  ghost predicate GateRun(start: int, steps: seq<GateStep>) {
    && (forall k :: 0 <= k < |steps| && steps[k].Admit? ==> Admitted(start, steps, k))
    && (forall k :: 0 <= k < |steps| && steps[k].Succeed? ==> exists p :: Completes(start, steps, p, k))
    && (forall i, j :: 0 <= i < j < |steps| && steps[i].req == steps[j].req ==> steps[i].Admit? && steps[j].Succeed?)
  }

  function Successes(steps: seq<GateStep>): nat {
    if steps == [] then 0 else Successes(steps[..|steps| - 1]) + if steps[|steps| - 1].Succeed? then 1 else 0
  }

  lemma {:induction false} CurrentCounts(start: int, steps: seq<GateStep>)
    requires start + |steps| <= MAX_INT64
    ensures Current(start, steps) == start + Successes(steps) && Successes(steps) <= |steps|
  {
    if steps != [] {
      CurrentCounts(start, steps[..|steps| - 1]);
    }
  }

  lemma {:induction false} SuccessesBetween(steps: seq<GateStep>, p: nat, q: nat)
    requires p <= q <= |steps|
    ensures Successes(steps[..p]) <= Successes(steps[..q])
    ensures Successes(steps[..p]) == Successes(steps[..q]) <==> forall k :: p <= k < q ==> steps[k].Admit?
    decreases q
  {
    if p < q {
      SuccessesBetween(steps, p, q - 1);
      assert steps[..q][..q - 1] == steps[..q - 1];
    }
  }

  /**
   Exactly when two mutations can carry one epoch. However requests interleave, two admitted requests
   carry the same epoch if and only if no mutation completed between their validations.
   */
  lemma SameEpochIffNoSuccessBetween(start: int, steps: seq<GateStep>, p: nat, q: nat)
    requires start + |steps| <= MAX_INT64
    requires p < q && Admitted(start, steps, p) && Admitted(start, steps, q)
    ensures steps[p].caller <= steps[q].caller
    ensures steps[p].caller == steps[q].caller <==> forall k :: p <= k < q ==> steps[k].Admit?
  {
    CurrentCounts(start, steps[..p]);
    CurrentCounts(start, steps[..q]);
    SuccessesBetween(steps, p, q);
  }

  /** Requests served one at a time: a successful one completes before the next is validated. */
  ghost predicate Serial(steps: seq<GateStep>) {
    forall k :: 0 <= k < |steps| && steps[k].Succeed? ==>
      k > 0 && steps[k - 1].Admit? && steps[k - 1].req == steps[k].req
  }

  /** Served one at a time, no two successful mutations of a process carried the same epoch. */
  lemma SerialSuccessesDistinct(start: int, steps: seq<GateStep>, p: nat, k: nat, q: nat, l: nat)
    requires start + |steps| <= MAX_INT64 && GateRun(start, steps) && Serial(steps)
    requires p < q && Completes(start, steps, p, k) && Completes(start, steps, q, l)
    ensures steps[p].caller < steps[q].caller
  {
    assert steps[k - 1].req == steps[p].req;
    assert k - 1 == p && steps[k].Succeed?;
    SameEpochIffNoSuccessBetween(start, steps, p, q);
  }

  /** Overlapping requests are not told apart: both are admitted under one epoch, and both succeed. */
  lemma OverlapSharesEpoch(start: int)
    requires start + 4 <= MAX_INT64
    ensures var steps := [Admit(0, start), Admit(1, start), Succeed(0), Succeed(1)];
            && GateRun(start, steps) && Completes(start, steps, 0, 2) && Completes(start, steps, 1, 3)
            && steps[0].caller == steps[1].caller
  {
    var steps := [Admit(0, start), Admit(1, start), Succeed(0), Succeed(1)];
    assert steps[..0] == [] && steps[..1] == [Admit(0, start)];
    assert [Admit(0, start)][..0] == [];
    assert Completes(start, steps, 0, 2) && Completes(start, steps, 1, 3);
  }
}
