/**
 The listening-port stream: internal/metrics/streams.go. The first event carries a snapshot, each tick
 sends what was bound and what was released since the one before, and a client rebuilds the set of
 ports from the events alone.
 */
module PortStream {
  import opened Decimal
  import opened Order
  import opened Ports

  /** portIdentity: what makes two entries the same port to the stream. */
  function Identity(p: Port): string {
    p.addr + "|" + p.proto + "|" + PrintNat(p.port)
  }

  function Identities(ports: seq<Port>): set<string> {
    set p | p in ports :: Identity(p)
  }

  datatype Event = Snapshot(ports: seq<Port>) | Bound(port: Port) | Released(port: Port)

  // ---------------------------------------------------------------- identities

  lemma CutBeforeLast(x: string, y: string, x': string, y': string)
    requires x + ['|'] + y == x' + ['|'] + y'
    requires '|' !in y && '|' !in y'
    ensures x == x' && y == y'
  {
    var s := x + ['|'] + y;
    assert s[|x|] == '|' && s[|x'|] == '|';
    assert forall k :: |x| < k < |s| ==> s[k] == y[k - |x| - 1] && s[k] != '|';
    assert forall k :: |x'| < k < |s| ==> s[k] == y'[k - |x'| - 1] && s[k] != '|';
    assert |x| == |x'|;
    assert s[..|x|] == x && s[..|x'|] == x';
    assert s[|x| + 1..] == y && s[|x'| + 1..] == y';
  }

  /** The printed port never holds a bar, so it is always recovered; the rest is the text before it. */
  lemma SameIdentityIff(a: Port, b: Port)
    ensures Identity(a) == Identity(b) <==> a.port == b.port && a.addr + "|" + a.proto == b.addr + "|" + b.proto
  {
    if Identity(a) == Identity(b) {
      CutBeforeLast(a.addr + "|" + a.proto, PrintNat(a.port), b.addr + "|" + b.proto, PrintNat(b.port));
      ValueOfPrint(a.port);
      ValueOfPrint(b.port);
    }
  }

  /** With no bar in the protocol the identity is the address, protocol and port, and nothing else. */
  lemma IdentityInjective(a: Port, b: Port)
    requires '|' !in a.proto && '|' !in b.proto
    ensures Identity(a) == Identity(b) <==> a.addr == b.addr && a.proto == b.proto && a.port == b.port
  {
    SameIdentityIff(a, b);
    if a.addr + "|" + a.proto == b.addr + "|" + b.proto {
      CutBeforeLast(a.addr, a.proto, b.addr, b.proto);
    }
  }

  /** A bar in the protocol lets two different ports share an identity. */
  lemma BarredProtocolsCollide()
    ensures exists a: Port, b: Port :: a.addr != b.addr && Identity(a) == Identity(b)
  {
    var a := Port("x|y", 1, "z", 0, "");
    var b := Port("x", 1, "y|z", 0, "");
    assert a.addr + "|" + a.proto == b.addr + "|" + b.proto;
    SameIdentityIff(a, b);
    assert a.addr[1] == '|';
  }

  // ---------------------------------------------------------------- one difference

  /** The entries of `after` that `before` has no identity for, in the order they come. */
  function Missing(before: seq<Port>, after: seq<Port>): seq<Port> {
    if after == [] then []
    else
      var m := |after| - 1;
      Missing(before, after[..m]) + if Identity(after[m]) in Identities(before) then [] else [after[m]]
  }

  /** What diffPorts may return: the missing entries, every copy of them, in the order of changes. */
  ghost predicate IsDiff(before: seq<Port>, after: seq<Port>, diff: seq<Port>) {
    multiset(diff) == multiset(Missing(before, after)) && SortedBy(ChangeAtMost, diff)
  }

  /** sort.Slice over an order with ties: some sorted permutation. */
  method SortChanges(ports: seq<Port>) returns (sorted: seq<Port>)
    ensures multiset(sorted) == multiset(ports) && SortedBy(ChangeAtMost, sorted)
  {
    ChangeOrderIsTotal();
    sorted := Sort(ChangeAtMost, ports);
  }

  method DiffPorts(before: seq<Port>, after: seq<Port>) returns (diff: seq<Port>)
    ensures IsDiff(before, after, diff)
  {
    var known: set<string> := {};
    for i := 0 to |before|
      invariant known == set k | 0 <= k < i :: Identity(before[k])
    {
      known := known + {Identity(before[i])};
    }
    assert known == Identities(before);
    diff := [];
    for i := 0 to |after|
      invariant diff == Missing(before, after[..i])
    {
      assert after[..i + 1][..i] == after[..i];
      if Identity(after[i]) !in known {
        diff := diff + [after[i]];
      }
    }
    assert after[..|after|] == after;
    diff := SortChanges(diff);
  }

  lemma {:induction false} MissingMembers(before: seq<Port>, after: seq<Port>)
    ensures forall p :: p in Missing(before, after) <==> p in after && Identity(p) !in Identities(before)
    decreases |after|
  {
    if after != [] {
      var m := |after| - 1;
      MissingMembers(before, after[..m]);
      assert after == after[..m] + [after[m]];
    }
  }

  /** Every copy of a missing entry is there, and no other. */
  lemma {:induction false} MissingCounts(before: seq<Port>, after: seq<Port>, p: Port)
    ensures multiset(Missing(before, after))[p]
         == if exists q :: q in before && Identity(q) == Identity(p) then 0 else multiset(after)[p]
    decreases |after|
  {
    if after != [] {
      var m := |after| - 1;
      MissingCounts(before, after[..m], p);
      assert after == after[..m] + [after[m]];
    }
  }

  lemma DiffMembers(before: seq<Port>, after: seq<Port>, diff: seq<Port>)
    requires IsDiff(before, after, diff)
    ensures forall p :: p in diff <==> p in after && Identity(p) !in Identities(before)
    ensures Identities(diff) == Identities(after) - Identities(before)
  {
    MissingMembers(before, after);
    PermutationMembers(diff, Missing(before, after));
  }

  /** A tick says nothing exactly when the identities are unchanged: a new PID alone is never streamed. */
  lemma QuietIff(before: seq<Port>, after: seq<Port>, bound: seq<Port>, released: seq<Port>)
    requires IsDiff(before, after, bound) && IsDiff(after, before, released)
    ensures bound == [] && released == [] <==> Identities(before) == Identities(after)
    ensures Identities(bound) !! Identities(released)
  {
    DiffMembers(before, after, bound);
    DiffMembers(after, before, released);
    assert bound == [] || bound[0] in bound;
    assert released == [] || released[0] in released;
  }

  // ---------------------------------------------------------------- the stream

  /** The two differences of one tick. */
  datatype Tick = Tick(bound: seq<Port>, released: seq<Port>)

  function BoundEvents(ports: seq<Port>): (events: seq<Event>)
    ensures |events| == |ports| && forall i :: 0 <= i < |ports| ==> events[i] == Bound(ports[i])
  {
    seq(|ports|, i requires 0 <= i < |ports| => Bound(ports[i]))
  }

  function ReleasedEvents(ports: seq<Port>): (events: seq<Event>)
    ensures |events| == |ports| && forall i :: 0 <= i < |ports| ==> events[i] == Released(ports[i])
  {
    seq(|ports|, i requires 0 <= i < |ports| => Released(ports[i]))
  }

  function TickEvents(t: Tick): seq<Event> { BoundEvents(t.bound) + ReleasedEvents(t.released) }

  /** In a tick every bound port comes before every released one, each as an event of its own, in order. */
  lemma TickInOrder(t: Tick, i: nat)
    requires i < |TickEvents(t)|
    ensures |TickEvents(t)| == |t.bound| + |t.released|
    ensures TickEvents(t)[i] == if i < |t.bound| then Bound(t.bound[i]) else Released(t.released[i - |t.bound|])
  {
  }

  function AllTickEvents(ticks: seq<Tick>): seq<Event> {
    if ticks == [] then [] else AllTickEvents(ticks[..|ticks| - 1]) + TickEvents(ticks[|ticks| - 1])
  }

  /** Everything the stream sends for these ticks. */
  function Log(first: seq<Port>, ticks: seq<Tick>): seq<Event> { [Snapshot(first)] + AllTickEvents(ticks) }

  ghost predicate IsTick(before: seq<Port>, after: seq<Port>, t: Tick) {
    IsDiff(before, after, t.bound) && IsDiff(after, before, t.released)
  }

  /** Ticks that follow the samples, one for each after the first. */
  ghost predicate Follow(samples: seq<seq<Port>>, ticks: seq<Tick>) {
    && |samples| == |ticks| + 1
    && forall i :: 0 <= i < |ticks| ==> IsTick(samples[i], samples[i + 1], ticks[i])
  }

  /** What a connection with room for n events takes of them. */
  function Cut<T>(events: seq<T>, n: nat): seq<T> {
    if |events| <= n then events else events[..n]
  }

  lemma CutConcat<T>(sent: seq<T>, a: seq<T>, b: seq<T>, n: nat)
    ensures |a| <= n ==> sent + Cut(a + b, n) == sent + a + Cut(b, n - |a|)
    ensures |a| > n ==> Cut(a + b, n) == Cut(a, n)
    ensures Cut(sent + a, |sent| + n) == sent + Cut(a, n)
  {
  }

  /** sse.Write for each event of a batch; the connection takes `room` more events and then fails. */
  method WriteAll(sent: seq<Event>, room: nat, batch: seq<Event>) returns (now: seq<Event>, left: nat, ok: bool)
    ensures ok <==> |batch| <= room
    ensures now == sent + Cut(batch, room) && left == room - |Cut(batch, room)|
  {
    now, left := sent, room;
    for i := 0 to |batch|
      invariant i <= room && now == sent + batch[..i] && left == room - i
    {
      if left == 0 {
        return now, left, false;
      }
      now := now + [batch[i]];
      left := left - 1;
    }
    ok := true;
  }

  /** A run of the stream: what arrived is the events of its ticks, cut where the connection fails. */
  ghost predicate Streamed(samples: seq<seq<Port>>, ticks: seq<Tick>, room: nat, sent: seq<Event>) {
    && samples != [] && Follow(samples, ticks)
    && sent == Cut(Log(samples[0], ticks), room)
  }

  /** One tick of the loop: both differences, each written event by event. */
  method SendTick(previous: seq<Port>, current: seq<Port>, sent: seq<Event>, room: nat)
    returns (now: seq<Event>, left: nat, ok: bool, ghost tick: Tick)
    ensures IsTick(previous, current, tick)
    ensures ok <==> |TickEvents(tick)| <= room
    ensures now == sent + Cut(TickEvents(tick), room) && left == room - |Cut(TickEvents(tick), room)|
  {
    var bound := DiffPorts(previous, current);
    now, left, ok := WriteAll(sent, room, BoundEvents(bound));
    if !ok {
      ChangeOrderIsTotal();
      tick := Tick(bound, Sort(ChangeAtMost, Missing(current, previous)));
      CutConcat(sent, BoundEvents(bound), ReleasedEvents(tick.released), room);
      return;
    }
    var released := DiffPorts(current, previous);
    tick := Tick(bound, released);
    CutConcat(sent, BoundEvents(bound), ReleasedEvents(released), room);
    now, left, ok := WriteAll(now, left, ReleasedEvents(released));
  }

  lemma FollowSnoc(samples: seq<seq<Port>>, ticks: seq<Tick>, current: seq<Port>, tick: Tick)
    requires Follow(samples, ticks) && IsTick(samples[|ticks|], current, tick)
    ensures Follow(samples + [current], ticks + [tick])
  {
  }

  /** Where the loop stands before tick i: every event so far went through. */
  ghost predicate Sending(samples: seq<seq<Port>>, i: nat, ticks: seq<Tick>, room: nat, sent: seq<Event>, left: nat) {
    && 1 <= i <= |samples| && i == |ticks| + 1 && Follow(samples[..i], ticks)
    && sent == Log(samples[0], ticks) && |sent| + left == room
  }

  lemma SendingAdvances(samples: seq<seq<Port>>, i: nat, ticks: seq<Tick>, room: nat, sent: seq<Event>, left: nat,
                        tick: Tick)
    requires Sending(samples, i, ticks, room, sent, left) && i < |samples|
    requires IsTick(samples[i - 1], samples[i], tick)
    ensures var now := sent + Cut(TickEvents(tick), left);
            && Streamed(samples[..i + 1], ticks + [tick], room, now)
            && (|TickEvents(tick)| <= left ==>
                  Sending(samples, i + 1, ticks + [tick], room, now, left - |TickEvents(tick)|))
            && (|TickEvents(tick)| > left ==> |now| == room)
  {
    assert samples[..i] + [samples[i]] == samples[..i + 1];
    FollowSnoc(samples[..i], ticks, samples[i], tick);
    LogSnoc(samples[0], ticks, tick, room);
  }

  /**
   handlePortsStream: a snapshot, then the differences on each tick, until a write fails or the samples
   end. `samples` are the results of sampling up to the first that fails or the end of the request.
   */
  method StreamPorts(samples: seq<seq<Port>>, room: nat) returns (sent: seq<Event>, ok: bool, ghost ticks: seq<Tick>)
    ensures samples == [] ==> sent == []
    ensures samples != [] ==> |ticks| < |samples| && Streamed(samples[..|ticks| + 1], ticks, room, sent)
    ensures samples != [] && ok ==> |ticks| + 1 == |samples| && |sent| == |Log(samples[0], ticks)|
    ensures !ok ==> |sent| == room
  {
    sent, ok, ticks := [], true, [];
    if samples == [] { return; }
    if room == 0 {
      ok := false;
      return;
    }
    sent := [Snapshot(samples[0])];
    var left: nat := room - 1;
    var previous := samples[0];
    for i := 1 to |samples|
      invariant previous == samples[i - 1]
      invariant Sending(samples, i, ticks, room, sent, left)
    {
      ghost var tick;
      ghost var head, had := sent, left;
      sent, left, ok, tick := SendTick(previous, samples[i], sent, left);
      SendingAdvances(samples, i, ticks, room, head, had, tick);
      ticks := ticks + [tick];
      if !ok { return; }
      previous := samples[i];
    }
    assert samples[..|samples|] == samples;
  }

  lemma LogSnoc(first: seq<Port>, ticks: seq<Tick>, tick: Tick, room: nat)
    requires |Log(first, ticks)| <= room
    ensures Log(first, ticks + [tick]) == Log(first, ticks) + TickEvents(tick)
    ensures Cut(Log(first, ticks + [tick]), room)
         == Log(first, ticks) + Cut(TickEvents(tick), room - |Log(first, ticks)|)
  {
    assert (ticks + [tick])[..|ticks|] == ticks;
    CutConcat(Log(first, ticks), TickEvents(tick), [], room - |Log(first, ticks)|);
  }

  // ---------------------------------------------------------------- the client

  /** The client keeps a set of identities. */
  function Apply(held: set<string>, event: Event): set<string> {
    match event
    case Snapshot(ports) => Identities(ports)
    case Bound(port) => held + {Identity(port)}
    case Released(port) => held - {Identity(port)}
  }

  function ApplyAll(held: set<string>, events: seq<Event>): set<string> {
    if events == [] then held else Apply(ApplyAll(held, events[..|events| - 1]), events[|events| - 1])
  }

  lemma {:induction false} ApplyInParts(held: set<string>, first: seq<Event>, second: seq<Event>)
    ensures ApplyAll(held, first + second) == ApplyAll(ApplyAll(held, first), second)
    decreases |second|
  {
    if second == [] {
      assert first + second == first;
    } else {
      var m := |second| - 1;
      assert (first + second)[..|first| + m] == first + second[..m];
      ApplyInParts(held, first, second[..m]);
    }
  }

  lemma LastIdentity(ports: seq<Port>)
    requires ports != []
    ensures Identities(ports) == Identities(ports[..|ports| - 1]) + {Identity(ports[|ports| - 1])}
  {
    assert ports == ports[..|ports| - 1] + [ports[|ports| - 1]];
  }

  lemma {:induction false} ApplyBound(held: set<string>, ports: seq<Port>)
    ensures ApplyAll(held, BoundEvents(ports)) == held + Identities(ports)
    decreases |ports|
  {
    if ports != [] {
      var m := |ports| - 1;
      assert BoundEvents(ports)[..m] == BoundEvents(ports[..m]);
      ApplyBound(held, ports[..m]);
      LastIdentity(ports);
    }
  }

  lemma {:induction false} ApplyReleased(held: set<string>, ports: seq<Port>)
    ensures ApplyAll(held, ReleasedEvents(ports)) == held - Identities(ports)
    decreases |ports|
  {
    if ports != [] {
      var m := |ports| - 1;
      assert ReleasedEvents(ports)[..m] == ReleasedEvents(ports[..m]);
      ApplyReleased(held, ports[..m]);
      LastIdentity(ports);
    }
  }

  /** A whole tick takes the client from one sample to the next. */
  lemma TickReplays(before: seq<Port>, after: seq<Port>, t: Tick)
    requires IsTick(before, after, t)
    ensures ApplyAll(Identities(before), TickEvents(t)) == Identities(after)
  {
    var bound, released := BoundEvents(t.bound), ReleasedEvents(t.released);
    ApplyInParts(Identities(before), bound, released);
    ApplyBound(Identities(before), t.bound);
    ApplyReleased(Identities(before) + Identities(t.bound), t.released);
    DiffMembers(before, after, t.bound);
    DiffMembers(after, before, t.released);
  }

  /** Every event of a tick is about an identity that only one of the two samples has. */
  lemma TickEventsChange(before: seq<Port>, after: seq<Port>, t: Tick, i: nat)
    requires IsTick(before, after, t) && i < |TickEvents(t)|
    ensures Changes(Identities(before), Identities(after), TickEvents(t)[i])
  {
    var e := TickEvents(t)[i];
    if i < |t.bound| {
      DiffMembers(before, after, t.bound);
      assert e == Bound(t.bound[i]) && t.bound[i] in t.bound;
    } else {
      DiffMembers(after, before, t.released);
      assert e == Released(t.released[i - |t.bound|]) && t.released[i - |t.bound|] in t.released;
    }
  }

  predicate Between(before: set<string>, after: set<string>, held: set<string>) {
    before * after <= held <= before + after
  }

  /** An event about an identity that only one of two sets has, on the right side. */
  predicate Changes(before: set<string>, after: set<string>, e: Event) {
    || (e.Bound? && Identity(e.port) in after - before)
    || (e.Released? && Identity(e.port) in before - after)
  }

  lemma {:induction false} ChangesStayBetween(before: set<string>, after: set<string>, events: seq<Event>)
    requires forall i :: 0 <= i < |events| ==> Changes(before, after, events[i])
    ensures Between(before, after, ApplyAll(before, events))
    decreases |events|
  {
    if events != [] {
      ChangesStayBetween(before, after, events[..|events| - 1]);
    }
  }

  /** A tick cut anywhere leaves the client with what both samples have, and nothing neither has. */
  lemma CutTickStaysBetween(before: seq<Port>, after: seq<Port>, t: Tick, n: nat)
    requires IsTick(before, after, t) && n <= |TickEvents(t)|
    ensures Between(Identities(before), Identities(after), ApplyAll(Identities(before), TickEvents(t)[..n]))
  {
    forall i | 0 <= i < n ensures Changes(Identities(before), Identities(after), TickEvents(t)[..n][i]) {
      TickEventsChange(before, after, t, i);
    }
    ChangesStayBetween(Identities(before), Identities(after), TickEvents(t)[..n]);
  }

  /** After any number of ticks the client holds exactly the identities of the last sample. */
  lemma {:induction false} TicksReplay(samples: seq<seq<Port>>, ticks: seq<Tick>)
    requires Follow(samples, ticks)
    ensures ApplyAll(Identities(samples[0]), AllTickEvents(ticks)) == Identities(samples[|ticks|])
    decreases |ticks|
  {
    if ticks != [] {
      var m := |ticks| - 1;
      TicksReplay(samples[..m + 1], ticks[..m]);
      ApplyInParts(Identities(samples[0]), AllTickEvents(ticks[..m]), TickEvents(ticks[m]));
      TickReplays(samples[m], samples[m + 1], ticks[m]);
    }
  }

  /** Whatever the client held before, the whole log leaves it with the last sample's ports. */
  lemma WholeLogReplays(samples: seq<seq<Port>>, ticks: seq<Tick>, held: set<string>)
    requires Follow(samples, ticks)
    ensures ApplyAll(held, Log(samples[0], ticks)) == Identities(samples[|ticks|])
  {
    TicksReplay(samples, ticks);
    ApplyInParts(held, [Snapshot(samples[0])], AllTickEvents(ticks));
    assert ApplyAll(held, [Snapshot(samples[0])]) == Apply(ApplyAll(held, []), Snapshot(samples[0])) by {
      assert [Snapshot(samples[0])][..0] == [];
    }
  }

  /** The log without its last tick. */
  function Head(first: seq<Port>, ticks: seq<Tick>): seq<Event>
    requires ticks != []
  {
    Log(first, ticks[..|ticks| - 1])
  }

  lemma LogInParts(first: seq<Port>, ticks: seq<Tick>, room: nat)
    requires ticks != [] && room <= |Log(first, ticks)|
    ensures var head, last := Head(first, ticks), TickEvents(ticks[|ticks| - 1]);
            && |Log(first, ticks)| == |head| + |last|
            && Log(first, ticks)[..room] == if room <= |head| then head[..room] else head + last[..room - |head|]
  {
  }

  lemma HeadReplays(samples: seq<seq<Port>>, ticks: seq<Tick>, held: set<string>)
    requires Follow(samples, ticks) && ticks != []
    ensures ApplyAll(held, Head(samples[0], ticks)) == Identities(samples[|ticks| - 1])
  {
    var m := |ticks| - 1;
    WholeLogReplays(samples[..m + 1], ticks[..m], held);
  }

  lemma CutInLastTick(samples: seq<seq<Port>>, ticks: seq<Tick>, room: nat, held: set<string>)
    requires Follow(samples, ticks) && ticks != []
    requires |Head(samples[0], ticks)| < room <= |Log(samples[0], ticks)|
    ensures Between(Identities(samples[|ticks| - 1]), Identities(samples[|ticks|]),
                    ApplyAll(held, Log(samples[0], ticks)[..room]))
  {
    var m := |ticks| - 1;
    var head := Head(samples[0], ticks);
    LogInParts(samples[0], ticks, room);
    HeadReplays(samples, ticks, held);
    ApplyInParts(held, head, TickEvents(ticks[m])[..room - |head|]);
    CutTickStaysBetween(samples[m], samples[m + 1], ticks[m], room - |head|);
  }

  /** A stream cut anywhere after its snapshot leaves the client between two samples taken one after the other. */
  lemma {:induction false} CutStreamStaysBetween(samples: seq<seq<Port>>, ticks: seq<Tick>, room: nat,
                                                 held: set<string>)
    returns (i: nat, j: nat)
    requires Follow(samples, ticks) && 1 <= room <= |Log(samples[0], ticks)|
    ensures i <= j < |samples| && j <= i + 1
    ensures Between(Identities(samples[i]), Identities(samples[j]), ApplyAll(held, Log(samples[0], ticks)[..room]))
    decreases |ticks|
  {
    if ticks == [] {
      i, j := 0, 0;
      CutAtSnapshot(samples, ticks, room, held);
    } else if room <= |Head(samples[0], ticks)| {
      var m := |ticks| - 1;
      CutInHead(samples, ticks, room);
      i, j := CutStreamStaysBetween(samples[..m + 1], ticks[..m], room, held);
    } else {
      i, j := |ticks| - 1, |ticks|;
      CutInLastTick(samples, ticks, room, held);
    }
  }

  lemma CutAtSnapshot(samples: seq<seq<Port>>, ticks: seq<Tick>, room: nat, held: set<string>)
    requires Follow(samples, ticks) && ticks == [] && 1 <= room <= |Log(samples[0], ticks)|
    ensures Between(Identities(samples[0]), Identities(samples[0]), ApplyAll(held, Log(samples[0], ticks)[..room]))
  {
    assert Log(samples[0], ticks)[..room] == Log(samples[0], ticks);
    WholeLogReplays(samples, ticks, held);
  }

  lemma CutInHead(samples: seq<seq<Port>>, ticks: seq<Tick>, room: nat)
    requires Follow(samples, ticks) && ticks != [] && room <= |Head(samples[0], ticks)|
    ensures var m := |ticks| - 1;
            && Follow(samples[..m + 1], ticks[..m]) && samples[..m + 1][0] == samples[0]
            && room <= |Log(samples[0], ticks[..m])| && room <= |Log(samples[0], ticks)|
            && Log(samples[0], ticks[..m])[..room] == Log(samples[0], ticks)[..room]
  {
  }
}
