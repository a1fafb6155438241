/**
 The client's side of the job event log: any number of connections, each cut at any character, with
 heartbeats mixed in anywhere, against a job whose records are looked up afresh every time.
 */
module JobResume {
  import opened Decimal
  import opened SseWire
  import opened JobEvents
  import opened JobStream

  /** What survives between connections: the dispatched events and the last event ID string. */
  datatype Client = Client(log: seq<ClientEvent>, lastId: string)

  /**
   What the last event ID buffer holds when a stream starts. Section 9.2.6 starts it empty; some
   clients seed it with the last event ID instead.
   */
  datatype BufferStart = Empty | Seeded

  /** One connection: the lookups made, what was written with heartbeats included, and where it was cut. */
  datatype Session = Session(polls: seq<Poll>, items: seq<Item>, cut: nat)

  function Connect(c: Client, start: BufferStart): Reader {
    Reader("", false, "", "", if start.Seeded? then c.lastId else "", c.lastId, c.log)
  }

  function AfterSession(c: Client, s: Session, start: BufferStart): Client
    requires s.cut <= |Wire(s.items)|
  {
    var r := Feed(Connect(c, start), Wire(s.items)[..s.cut]);
    Client(r.events, r.lastId)
  }

  /** The server answered this client as streamJob does, heartbeats aside. */
  ghost predicate Served(c: Client, s: Session, encode: Update -> string) {
    && s.cut <= |Wire(s.items)|
    && (forall it :: it in s.items ==> Clean(it))
    && WithoutBeats(s.items) == SessionItems(s.polls, ResumeFrom(c.lastId), encode)
  }

  /** The items that arrived whole. */
  function Arrived(s: Session): seq<Item>
    requires s.cut <= |Wire(s.items)|
  {
    s.items[..WholeItems(s.items, s.cut)]
  }

  /** What would wipe the last event ID: an empty buffer, and heartbeats arriving with no event among them. */
  predicate KeepsId(s: Session, start: BufferStart)
    requires s.cut <= |Wire(s.items)|
  {
    start.Seeded? || Arrived(s) == [] || WithoutBeats(Arrived(s)) != []
  }

  /** The looked-up records belong to one job history that ends in `final`. */
  ghost predicate Follows(polls: seq<Poll>, final: seq<JobEvent>) {
    forall i :: 0 <= i < |polls| && polls[i].Found? ==>
      polls[i].events <= final && (polls[i].terminal ==> polls[i].events == final)
  }

  // ---------------------------------------------------------------- the invariant

  function Entry(e: JobEvent, id: int, encode: Update -> string): ClientEvent {
    ClientEvent(NameText(e.name), encode(e.data), PrintInt(id))
  }

  function ErrorEntry(id: int): ClientEvent {
    ClientEvent(ERROR_EVENT, JOB_NOT_FOUND, PrintInt(id))
  }

  predicate IsErrorEntry(x: ClientEvent, id: int) { x == ErrorEntry(id) }

  /** The k-th dispatched event is the k-th event of the job, or a terminal error that took its id. */
  ghost predicate EntryFits(x: ClientEvent, k: nat, final: seq<JobEvent>, encode: Update -> string) {
    (k < |final| && x == Entry(final[k], k + 1, encode)) || x == ErrorEntry(k + 1)
  }

  ghost predicate LogFits(log: seq<ClientEvent>, final: seq<JobEvent>, encode: Update -> string) {
    forall k :: 0 <= k < |log| ==> EntryFits(log[k], k, final, encode)
  }

  /** The client stands at a point it can resume from: its log fits and its last id is its length. */
  ghost predicate InStep(c: Client, final: seq<JobEvent>, encode: Update -> string) {
    LogFits(c.log, final, encode) && c.lastId == if c.log == [] then "" else PrintInt(|c.log|)
  }

  /** No id in use can exceed this, plus one for a terminal error. */
  function Span(n: nat, final: seq<JobEvent>): nat {
    if n <= |final| then |final| else n
  }

  lemma InStepResumes(c: Client, final: seq<JobEvent>, encode: Update -> string)
    requires InStep(c, final, encode) && |c.log| <= MAX_INT64
    ensures ResumeFrom(c.lastId) == |c.log|
  {
    if c.log != [] {
      ResumeReadsBackId(|c.log|);
    }
  }

  /** From a resume point n the run sends the job's events from n on, up to `last`. */
  lemma {:induction false} RunFollows(polls: seq<Poll>, n: nat, final: seq<JobEvent>)
    requires Follows(polls, final)
    ensures var run := StreamSpec(polls, n);
            && n <= run.last
            && (n <= |final| ==> run.last <= |final| && run.sends == final[n..run.last])
            && (n >= |final| ==> run.sends == [] && run.last == n)
            && (run.end.Finished? ==> |final| <= run.last)
    decreases |polls|
  {
    if polls != [] && polls[0].Found? {
      var events := polls[0].events;
      var unsent := Unsent(events, n);
      var n' := if unsent == [] then n else |events|;
      FollowsTail(polls, final);
      RunFollows(polls[1..], n', final);
      if unsent != [] {
        assert unsent == final[n..n'];
        Stretches(final, n, n', StreamSpec(polls[1..], n').last);
      }
    }
  }

  lemma FollowsTail(polls: seq<Poll>, final: seq<JobEvent>)
    requires Follows(polls, final) && polls != []
    ensures Follows(polls[1..], final)
  {
    assert forall i :: 0 <= i < |polls[1..]| ==> polls[1..][i] == polls[i + 1];
  }

  lemma Stretches<T>(s: seq<T>, a: nat, b: nat, c: nat)
    requires a <= b <= |s|
    ensures b <= c <= |s| ==> s[a..b] + s[b..c] == s[a..c]
    ensures s[a..b] + [] == s[a..b]
  {
  }

  /** An item that dispatches as the k-th entry of a log would. */
  ghost predicate ItemFits(it: Item, k: nat, final: seq<JobEvent>, encode: Update -> string) {
    it.Sent? && it.id == k + 1 && EntryFits(ClientEvent(it.name, it.data, PrintInt(it.id)), k, final, encode)
  }

  ghost predicate ItemsFit(items: seq<Item>, n: nat, final: seq<JobEvent>, encode: Update -> string) {
    forall k :: 0 <= k < |items| ==> ItemFits(items[k], n + k, final, encode)
  }

  /** Everything a connection can deliver fits after the first n entries. */
  lemma SessionItemsFit(polls: seq<Poll>, n: nat, final: seq<JobEvent>, encode: Update -> string)
    requires Follows(polls, final) && Span(n, final) < MAX_INT64
    ensures ItemsFit(SessionItems(polls, n, encode), n, final, encode)
    ensures var run := StreamSpec(polls, n);
            |SessionItems(polls, n, encode)| == |run.sends| + (if run.end.NotFound? then 1 else 0)
    ensures n + |StreamSpec(polls, n).sends| <= Span(n, final)
  {
    RunFollows(polls, n, final);
    var run := StreamSpec(polls, n);
    NumberedShape(run.sends, n, encode);
    var all := SessionItems(polls, n, encode);
    forall k | 0 <= k < |all| ensures ItemFits(all[k], n + k, final, encode) {
      if k < |run.sends| {
        assert all[k] == Numbered(run.sends, n, encode)[k];
        assert run.sends[k] == final[n + k];
      }
    }
  }

  // ---------------------------------------------------------------- one session

  lemma {:induction false} DeliveredSent(items: seq<Item>)
    requires forall k :: 0 <= k < |items| ==> items[k].Sent?
    ensures |Delivered(items)| == |items|
    ensures forall k :: 0 <= k < |items| ==>
              Delivered(items)[k] == ClientEvent(items[k].name, items[k].data, PrintInt(items[k].id))
  {
    if items != [] {
      DeliveredSent(items[1..]);
    }
  }

  lemma WithoutBeatsPrefix(items: seq<Item>, k: nat)
    requires k <= |items|
    ensures WithoutBeats(items[..k]) <= WithoutBeats(items)
  {
    assert items == items[..k] + items[k..];
    WithoutBeatsAppend(items[..k], items[k..]);
  }

  /** The client took in some more events; if its id was kept, it is now that of the last of them. */
  ghost predicate Received(c: Client, after: Client, more: seq<ClientEvent>, idKept: bool) {
    && after.log == c.log + more
    && (idKept ==> after.lastId == if more == [] then c.lastId else more[|more| - 1].id)
  }

  /** What a connection leaves with the client: the first few of the sent items, as log entries. */
  lemma SessionDelivers(c: Client, s: Session, start: BufferStart, encode: Update -> string)
    returns (got: seq<Item>)
    requires Served(c, s, encode)
    ensures got == WithoutBeats(Arrived(s)) && got <= SessionItems(s.polls, ResumeFrom(c.lastId), encode)
    ensures s.cut == |Wire(s.items)| ==> got == SessionItems(s.polls, ResumeFrom(c.lastId), encode)
    ensures Received(c, AfterSession(c, s, start), Delivered(got), KeepsId(s, start))
    ensures !KeepsId(s, start) ==> got == [] && AfterSession(c, s, start).lastId == ""
  {
    var r := Connect(c, start);
    var whole := Arrived(s);
    got := WithoutBeats(whole);
    CutAnywhere(r, s.items, s.cut);
    AfterAllDelivered(r, whole);
    WithoutBeatsPrefix(s.items, |whole|);
    NoneLeftIff(whole);
    if s.cut == |Wire(s.items)| {
      WholeItemsAll(s.items);
      assert whole == s.items;
    }
  }

  lemma {:induction false} NoneLeftIff(items: seq<Item>)
    ensures WithoutBeats(items) == [] <==> Delivered(items) == []
  {
    if items != [] {
      NoneLeftIff(items[1..]);
    }
  }

  /** The entries a session appended fit where they stand. */
  lemma AppendedFits(log: seq<ClientEvent>, got: seq<Item>, final: seq<JobEvent>, encode: Update -> string)
    requires LogFits(log, final, encode)
    requires ItemsFit(got, |log|, final, encode)
    ensures LogFits(log + Delivered(got), final, encode) && |Delivered(got)| == |got|
    ensures got != [] ==> Delivered(got)[|got| - 1].id == PrintInt(|log| + |got|)
  {
    assert forall k :: 0 <= k < |got| ==> ItemFits(got[k], |log| + k, final, encode);
    DeliveredSent(got);
    var longer := log + Delivered(got);
    forall k | 0 <= k < |longer| ensures EntryFits(longer[k], k, final, encode) {
      if k < |log| {
        assert longer[k] == log[k];
      } else {
        var i := k - |log|;
        assert ItemFits(got[i], |log| + i, final, encode);
        assert longer[k] == ClientEvent(got[i].name, got[i].data, PrintInt(got[i].id));
      }
    }
  }

  /** A client in step is served from its own length on. */
  lemma StepDelivers(c: Client, s: Session, start: BufferStart, final: seq<JobEvent>, encode: Update -> string)
    returns (got: seq<Item>)
    requires InStep(c, final, encode) && |c.log| <= MAX_INT64 && Served(c, s, encode)
    ensures got == WithoutBeats(Arrived(s)) && got <= SessionItems(s.polls, |c.log|, encode)
    ensures s.cut == |Wire(s.items)| ==> got == SessionItems(s.polls, |c.log|, encode)
    ensures Received(c, AfterSession(c, s, start), Delivered(got), KeepsId(s, start) || c.log == [])
    ensures !KeepsId(s, start) ==> got == [] && AfterSession(c, s, start).lastId == ""
  {
    InStepResumes(c, final, encode);
    got := SessionDelivers(c, s, start, encode);
  }

  /** Events that fit keep a client in step. */
  lemma {:induction false} ReceivedKeepsStep(c: Client, after: Client, got: seq<Item>, final: seq<JobEvent>,
                                             encode: Update -> string)
    requires InStep(c, final, encode) && Received(c, after, Delivered(got), true)
    requires ItemsFit(got, |c.log|, final, encode)
    ensures InStep(after, final, encode) && c.log <= after.log && |after.log| == |c.log| + |got|
  {
    AppendedFits(c.log, got, final, encode);
    MoreKeepsStep(c, after, Delivered(got), final, encode);
  }

  lemma MoreKeepsStep(c: Client, after: Client, more: seq<ClientEvent>, final: seq<JobEvent>, encode: Update -> string)
    requires InStep(c, final, encode) && Received(c, after, more, true) && LogFits(c.log + more, final, encode)
    requires more != [] ==> more[|more| - 1].id == PrintInt(|c.log| + |more|)
    ensures InStep(after, final, encode) && c.log <= after.log && |after.log| == |c.log| + |more|
  {
    if more == [] {
      assert c.log + more == c.log;
    }
  }

  /** Every connection, cut anywhere, leaves the client in step: it appended to the log and kept count. */
  lemma SessionKeepsStep(c: Client, s: Session, start: BufferStart, final: seq<JobEvent>, encode: Update -> string)
    requires InStep(c, final, encode) && Served(c, s, encode) && Follows(s.polls, final)
    requires (KeepsId(s, start) || c.log == []) && Span(|c.log|, final) < MAX_INT64
    ensures var c' := AfterSession(c, s, start);
            && InStep(c', final, encode) && c.log <= c'.log
            && Span(|c'.log|, final) <= Span(|c.log|, final) + 1
  {
    var got := StepDelivers(c, s, start, final, encode);
    GotFits(s.polls, |c.log|, got, final, encode);
    ReceivedKeepsStep(c, AfterSession(c, s, start), got, final, encode);
  }

  /** The condition is exact: a client that had events is put out of step if and only if its id was wiped. */
  lemma InStepAfterIff(c: Client, s: Session, start: BufferStart, final: seq<JobEvent>, encode: Update -> string)
    requires InStep(c, final, encode) && Served(c, s, encode) && Follows(s.polls, final)
    requires Span(|c.log|, final) < MAX_INT64
    ensures InStep(AfterSession(c, s, start), final, encode) <==> KeepsId(s, start) || c.log == []
  {
    if KeepsId(s, start) || c.log == [] {
      SessionKeepsStep(c, s, start, final, encode);
    } else {
      var got := StepDelivers(c, s, start, final, encode);
      PrintIntChars(|c.log|);
      assert c.log + [] == c.log;
    }
  }

  /** The same of the first few items as of all of them. */
  lemma GotFits(polls: seq<Poll>, n: nat, got: seq<Item>, final: seq<JobEvent>, encode: Update -> string)
    requires Follows(polls, final) && Span(n, final) < MAX_INT64
    requires got <= SessionItems(polls, n, encode)
    ensures n + |got| <= Span(n, final) + 1
    ensures ItemsFit(got, n, final, encode)
  {
    SessionItemsFit(polls, n, final, encode);
    var all := SessionItems(polls, n, encode);
    forall k | 0 <= k < |got| ensures ItemFits(got[k], n + k, final, encode) {
      assert got[k] == all[k] && ItemFits(all[k], n + k, final, encode);
    }
  }

  /** A connection that runs uncut to the end of the job leaves no event out. */
  lemma FinishedSessionCompletes(c: Client, s: Session, start: BufferStart, final: seq<JobEvent>,
                                 encode: Update -> string)
    requires InStep(c, final, encode) && Served(c, s, encode) && Follows(s.polls, final)
    requires Span(|c.log|, final) < MAX_INT64
    requires s.cut == |Wire(s.items)| && StreamSpec(s.polls, |c.log|).end.Finished?
    ensures |AfterSession(c, s, start).log| >= |final|
  {
    var got := StepDelivers(c, s, start, final, encode);
    GotFits(s.polls, |c.log|, got, final, encode);
    SessionItemsFit(s.polls, |c.log|, final, encode);
    RunFollows(s.polls, |c.log|, final);
    AppendedFits(c.log, got, final, encode);
  }

  // ---------------------------------------------------------------- any number of sessions

  /** Connections made one after the other, each with the last event ID the one before it left. */
  ghost predicate History(c: Client, sessions: seq<Session>, start: BufferStart, final: seq<JobEvent>,
                          encode: Update -> string)
    decreases |sessions|
  {
    sessions == []
    || (&& Served(c, sessions[0], encode) && (KeepsId(sessions[0], start) || c.log == [])
        && Follows(sessions[0].polls, final)
        && History(AfterSession(c, sessions[0], start), sessions[1..], start, final, encode))
  }

  ghost function AfterSessions(c: Client, sessions: seq<Session>, start: BufferStart, final: seq<JobEvent>,
                               encode: Update -> string): Client
    requires History(c, sessions, start, final, encode)
    decreases |sessions|
  {
    if sessions == [] then c
    else AfterSessions(AfterSession(c, sessions[0], start), sessions[1..], start, final, encode)
  }

  /** A client stays in step over any history, and its log only grows. */
  lemma {:induction false} HistoryKeepsStep(c: Client, sessions: seq<Session>, start: BufferStart,
                                            final: seq<JobEvent>, encode: Update -> string)
    requires InStep(c, final, encode) && History(c, sessions, start, final, encode)
    requires Span(|c.log|, final) + |sessions| <= MAX_INT64
    ensures var c' := AfterSessions(c, sessions, start, final, encode);
            InStep(c', final, encode) && c.log <= c'.log
    decreases |sessions|
  {
    if sessions != [] {
      SessionKeepsStep(c, sessions[0], start, final, encode);
      HistoryKeepsStep(AfterSession(c, sessions[0], start), sessions[1..], start, final, encode);
    }
  }

  // ---------------------------------------------------------------- while the job is found

  predicate JobAlwaysFound(sessions: seq<Session>) {
    forall i :: 0 <= i < |sessions| ==> AllFound(sessions[i].polls)
  }

  predicate AllFound(polls: seq<Poll>) { forall i :: 0 <= i < |polls| ==> polls[i].Found? }

  /** The log is the job's first events, under the ids 1, 2, and so on. */
  ghost predicate OnlyEntries(log: seq<ClientEvent>, final: seq<JobEvent>, encode: Update -> string) {
    |log| <= |final| && forall k :: 0 <= k < |log| ==> log[k] == Entry(final[k], k + 1, encode)
  }

  /** The frames of the job's events from n on, under their positions. */
  ghost predicate AreFrames(items: seq<Item>, n: nat, final: seq<JobEvent>, encode: Update -> string) {
    n + |items| <= |final| && forall k :: 0 <= k < |items| ==> items[k] == FrameOf(final[n + k], n + k + 1, encode)
  }

  lemma {:induction false} RunNotMissing(polls: seq<Poll>, n: nat)
    requires AllFound(polls)
    ensures !StreamSpec(polls, n).end.NotFound?
    decreases |polls|
  {
    if polls != [] {
      RunNotMissing(polls[1..], if Unsent(polls[0].events, n) == [] then n else |polls[0].events|);
    }
  }

  /** What a connection sends while the job is found: the job's events from n on, under their positions. */
  lemma FoundItems(polls: seq<Poll>, n: nat, got: seq<Item>, final: seq<JobEvent>, encode: Update -> string)
    requires Follows(polls, final) && n <= |final| && AllFound(polls)
    requires got <= SessionItems(polls, n, encode)
    ensures AreFrames(got, n, final, encode)
  {
    var run := StreamSpec(polls, n);
    RunFollows(polls, n, final);
    RunNotMissing(polls, n);
    var frames := Numbered(run.sends, n, encode);
    assert SessionItems(polls, n, encode) == frames;
    forall k | 0 <= k < |got| ensures got[k] == FrameOf(final[n + k], n + k + 1, encode) {
      NumberedAt(run.sends, k, n, encode);
      assert got[k] == frames[k];
    }
  }

  lemma EntriesAppend(log: seq<ClientEvent>, got: seq<Item>, final: seq<JobEvent>, encode: Update -> string)
    requires OnlyEntries(log, final, encode)
    requires AreFrames(got, |log|, final, encode)
    ensures OnlyEntries(log + Delivered(got), final, encode)
  {
    DeliveredSent(got);
    var more := Delivered(got);
    forall i | 0 <= i < |got| ensures more[i] == Entry(final[|log| + i], |log| + i + 1, encode) {
      assert got[i] == FrameOf(final[|log| + i], |log| + i + 1, encode);
    }
    assert forall k :: |log| <= k < |log| + |got| ==> (log + more)[k] == more[k - |log|];
  }

  lemma EntriesReceived(c: Client, after: Client, got: seq<Item>, final: seq<JobEvent>, encode: Update -> string)
    requires OnlyEntries(c.log, final, encode) && after.log == c.log + Delivered(got)
    requires AreFrames(got, |c.log|, final, encode)
    ensures OnlyEntries(after.log, final, encode)
  {
    EntriesAppend(c.log, got, final, encode);
  }

  lemma FoundSessionHasNoErrors(c: Client, s: Session, start: BufferStart, final: seq<JobEvent>,
                                encode: Update -> string)
    requires InStep(c, final, encode) && Served(c, s, encode) && Follows(s.polls, final)
    requires |final| < MAX_INT64 && AllFound(s.polls)
    requires OnlyEntries(c.log, final, encode)
    ensures OnlyEntries(AfterSession(c, s, start).log, final, encode)
  {
    var got := StepDelivers(c, s, start, final, encode);
    var after := AfterSession(c, s, start);
    FoundItems(s.polls, |c.log|, got, final, encode);
    EntriesReceived(c, after, got, final, encode);
  }

  /** While the job is always found, no terminal error is ever dispatched. */
  lemma {:induction false} FoundHistoryStaysWithin(c: Client, sessions: seq<Session>, start: BufferStart,
                                                   final: seq<JobEvent>, encode: Update -> string)
    requires InStep(c, final, encode) && History(c, sessions, start, final, encode)
    requires OnlyEntries(c.log, final, encode) && JobAlwaysFound(sessions)
    requires |final| + |sessions| < MAX_INT64
    ensures OnlyEntries(AfterSessions(c, sessions, start, final, encode).log, final, encode)
    decreases |sessions|
  {
    if sessions != [] {
      assert AllFound(sessions[0].polls);
      assert forall i :: 0 <= i < |sessions| - 1 ==> sessions[1..][i] == sessions[i + 1];
      SessionKeepsStep(c, sessions[0], start, final, encode);
      FoundSessionHasNoErrors(c, sessions[0], start, final, encode);
      FoundHistoryStaysWithin(AfterSession(c, sessions[0], start), sessions[1..], start, final, encode);
    }
  }

  const NEW_CLIENT := Client([], "")

  /**
   Exactly once, in order. A client that reconnects with its last id any number of times, each
   connection cut anywhere, has the first events of the job and nothing else, with ids counting from 1.
   Once its last connection runs uncut to the end of the job, it has exactly the final record's events.
   */
  lemma ResumeExactlyOnce(sessions: seq<Session>, start: BufferStart, final: seq<JobEvent>, encode: Update -> string)
    requires History(NEW_CLIENT, sessions, start, final, encode)
    requires JobAlwaysFound(sessions) && |final| + |sessions| < MAX_INT64
    ensures OnlyEntries(AfterSessions(NEW_CLIENT, sessions, start, final, encode).log, final, encode)
    ensures EndsUncut(NEW_CLIENT, sessions, start, final, encode) ==>
              |AfterSessions(NEW_CLIENT, sessions, start, final, encode).log| == |final|
  {
    FoundHistoryStaysWithin(NEW_CLIENT, sessions, start, final, encode);
    if EndsUncut(NEW_CLIENT, sessions, start, final, encode) {
      EndsUncutCompletes(NEW_CLIENT, sessions, start, final, encode);
    }
  }

  /** The last connection of the history reached the end of the job and was not cut. */
  ghost predicate EndsUncut(c: Client, sessions: seq<Session>, start: BufferStart, final: seq<JobEvent>,
                            encode: Update -> string)
    requires History(c, sessions, start, final, encode)
    decreases |sessions|
  {
    && sessions != []
    && (if |sessions| == 1 then
          sessions[0].cut == |Wire(sessions[0].items)| && StreamSpec(sessions[0].polls, |c.log|).end.Finished?
        else EndsUncut(AfterSession(c, sessions[0], start), sessions[1..], start, final, encode))
  }

  lemma {:induction false} EndsUncutCompletes(c: Client, sessions: seq<Session>, start: BufferStart,
                                              final: seq<JobEvent>, encode: Update -> string)
    requires InStep(c, final, encode) && History(c, sessions, start, final, encode)
    requires EndsUncut(c, sessions, start, final, encode)
    requires Span(|c.log|, final) + |sessions| <= MAX_INT64
    ensures |AfterSessions(c, sessions, start, final, encode).log| >= |final|
    decreases |sessions|
  {
    var c1 := AfterSession(c, sessions[0], start);
    if |sessions| == 1 {
      FinishedSessionCompletes(c, sessions[0], start, final, encode);
      assert AfterSessions(c1, sessions[1..], start, final, encode) == c1;
    } else {
      SessionKeepsStep(c, sessions[0], start, final, encode);
      EndsUncutCompletes(c1, sessions[1..], start, final, encode);
    }
  }

  // ---------------------------------------------------------------- when the log is not complete

  /** The job events of a log: everything but terminal errors. */
  function JobEntries(log: seq<ClientEvent>): seq<ClientEvent> {
    if log == [] then []
    else JobEntries(log[..|log| - 1]) + (if log[|log| - 1].name == ERROR_EVENT then [] else [log[|log| - 1]])
  }

  ghost predicate Entries(log: seq<ClientEvent>, final: seq<JobEvent>, encode: Update -> string) {
    |log| == |final| && forall k :: 0 <= k < |log| ==> log[k] == Entry(final[k], k + 1, encode)
  }

  lemma NamesDiffer(name: EventName)
    ensures NameText(name) != ERROR_EVENT
  {
    assert NameText(name)[0] == 'j';
  }

  /** The last entry is a job event only where the job has one. */
  lemma LastEntry(log: seq<ClientEvent>, final: seq<JobEvent>, encode: Update -> string)
    requires LogFits(log, final, encode) && log != []
    ensures var x := log[|log| - 1];
            && LogFits(log[..|log| - 1], final, encode)
            && (x.name == ERROR_EVENT <==> x == ErrorEntry(|log|))
            && (x.name != ERROR_EVENT ==> |log| <= |final| && x == Entry(final[|log| - 1], |log|, encode))
  {
    var m := |log| - 1;
    assert EntryFits(log[m], m, final, encode);
    assert forall k :: 0 <= k < m ==> log[..m][k] == log[k];
    if m < |final| {
      NamesDiffer(final[m].name);
    }
  }

  /** A terminal error in one of the job's positions leaves a job event out for good. */
  lemma {:induction false} ErrorLeavesGap(log: seq<ClientEvent>, k: nat, final: seq<JobEvent>, encode: Update -> string)
    requires LogFits(log, final, encode) && k < |final|
    requires k < |log| ==> log[k] == ErrorEntry(k + 1)
    ensures |JobEntries(log)| <= (if |log| <= |final| then |log| else |final|) - (if k < |log| then 1 else 0)
    decreases |log|
  {
    if log != [] {
      LastEntry(log, final, encode);
      ErrorLeavesGap(log[..|log| - 1], k, final, encode);
    }
  }

  lemma CutOneMore<T>(s: seq<T>, n: nat)
    requires s != []
    ensures var m := |s| - 1;
            && (m < n ==> s[..m][..m] + [s[m]] == s)
            && (m >= n ==> s[..m][..n] == s[..n])
  {
  }

  /** Without one, the job events are the log itself, up to the end of the job. */
  lemma {:induction false} NoErrorNoGap(log: seq<ClientEvent>, final: seq<JobEvent>, encode: Update -> string)
    requires LogFits(log, final, encode)
    requires NoErrorWithin(log, final)
    ensures JobEntries(log) == log[..if |log| <= |final| then |log| else |final|]
    decreases |log|
  {
    if log != [] {
      var m := |log| - 1;
      var rest := log[..m];
      LastEntry(log, final, encode);
      assert NoErrorWithin(rest, final);
      NoErrorNoGap(rest, final, encode);
      CutOneMore(log, |final|);
    }
  }

  /** At the end of the job, only a terminal error in one of its positions keeps a log from being its events. */
  lemma CompleteIffNoErrorWithin(c: Client, final: seq<JobEvent>, encode: Update -> string)
    requires InStep(c, final, encode) && |c.log| >= |final|
    ensures Entries(JobEntries(c.log), final, encode) <==>
              forall k :: 0 <= k < |final| ==> c.log[k] != ErrorEntry(k + 1)
  {
    if forall k :: 0 <= k < |final| ==> c.log[k] != ErrorEntry(k + 1) {
      NoErrorNoGap(c.log, final, encode);
      assert forall k :: 0 <= k < |final| ==> EntryFits(c.log[k], k, final, encode);
    } else {
      var k :| 0 <= k < |final| && c.log[k] == ErrorEntry(k + 1);
      ErrorLeavesGap(c.log, k, final, encode);
    }
  }

  /** No terminal error stands in one of the job's positions. */
  ghost predicate NoErrorWithin(log: seq<ClientEvent>, final: seq<JobEvent>) {
    forall k :: 0 <= k < |log| && k < |final| ==> log[k] != ErrorEntry(k + 1)
  }

  /**
   What does the damage: the job is missing at a lookup before all its events were sent, and the error that
   reports it arrives whole.
   */
  predicate TakesEventId(c: Client, s: Session, final: seq<JobEvent>)
    requires s.cut <= |Wire(s.items)|
  {
    var run := StreamSpec(s.polls, |c.log|);
    run.end.NotFound? && |WithoutBeats(Arrived(s))| > |run.sends| && |c.log| + |run.sends| < |final|
  }

  ghost predicate SomeTakesEventId(c: Client, sessions: seq<Session>, start: BufferStart, final: seq<JobEvent>,
                                   encode: Update -> string)
    requires History(c, sessions, start, final, encode)
    decreases |sessions|
  {
    sessions != [] && (TakesEventId(c, sessions[0], final)
                       || SomeTakesEventId(AfterSession(c, sessions[0], start), sessions[1..], start, final, encode))
  }

  /** Of what a connection delivers, exactly the last item of a run that ended "not found" is an error. */
  lemma {:induction false} DeliveredError(polls: seq<Poll>, n: nat, got: seq<Item>, i: nat, final: seq<JobEvent>,
                                          encode: Update -> string)
    requires Follows(polls, final) && Span(n, final) < MAX_INT64
    requires got <= SessionItems(polls, n, encode) && i < |got|
    ensures var run := StreamSpec(polls, n);
            |Delivered(got)| == |got| && (Delivered(got)[i] == ErrorEntry(n + i + 1) <==> i == |run.sends|)
    ensures |got| > |StreamSpec(polls, n).sends| ==>
              StreamSpec(polls, n).end.NotFound? && |got| == |StreamSpec(polls, n).sends| + 1
  {
    var run := StreamSpec(polls, n);
    SessionItemsFit(polls, n, final, encode);
    GotFits(polls, n, got, final, encode);
    assert forall k :: 0 <= k < |got| ==> ItemFits(got[k], n + k, final, encode);
    DeliveredSent(got);
    var all := SessionItems(polls, n, encode);
    assert got[i] == all[i];
    if i < |run.sends| {
      NumberedAt(run.sends, i, n, encode);
      NamesDiffer(run.sends[i].name);
    }
  }

  lemma SessionErrorIff(c: Client, s: Session, start: BufferStart, final: seq<JobEvent>, encode: Update -> string)
    requires InStep(c, final, encode) && Served(c, s, encode) && Follows(s.polls, final)
    requires Span(|c.log|, final) < MAX_INT64 && NoErrorWithin(c.log, final)
    ensures NoErrorWithin(AfterSession(c, s, start).log, final) <==> !TakesEventId(c, s, final)
  {
    var n := |c.log|;
    var got := StepDelivers(c, s, start, final, encode);
    LogErrorIff(c.log, s.polls, got, AfterSession(c, s, start).log, final, encode);
  }

  lemma LogErrorIff(log: seq<ClientEvent>, polls: seq<Poll>, got: seq<Item>, after: seq<ClientEvent>,
                    final: seq<JobEvent>, encode: Update -> string)
    requires Follows(polls, final) && Span(|log|, final) < MAX_INT64 && NoErrorWithin(log, final)
    requires got <= SessionItems(polls, |log|, encode) && after == log + Delivered(got)
    ensures var run := StreamSpec(polls, |log|);
            NoErrorWithin(after, final)
            <==> !(run.end.NotFound? && |got| > |run.sends| && |log| + |run.sends| < |final|)
  {
    DeliveredErrors(polls, |log|, got, final, encode);
    OneErrorWithin(log, Delivered(got), |StreamSpec(polls, |log|).sends|, final);
  }

  /** Of some entries that follow a log of length n, only this one is a terminal error. */
  ghost predicate OnlyErrorAt(entries: seq<ClientEvent>, n: nat, at: int) {
    forall i :: 0 <= i < |entries| ==> (entries[i] == ErrorEntry(n + i + 1) <==> i == at)
  }

  lemma DeliveredErrors(polls: seq<Poll>, n: nat, got: seq<Item>, final: seq<JobEvent>, encode: Update -> string)
    requires Follows(polls, final) && Span(n, final) < MAX_INT64 && got <= SessionItems(polls, n, encode)
    ensures var run := StreamSpec(polls, n);
            && |Delivered(got)| == |got| && OnlyErrorAt(Delivered(got), n, |run.sends|)
            && (|got| > |run.sends| ==> run.end.NotFound?)
  {
    if got != [] { DeliveredError(polls, n, got, 0, final, encode); }
    forall i | 0 <= i < |got|
      ensures Delivered(got)[i] == ErrorEntry(n + i + 1) <==> i == |StreamSpec(polls, n).sends|
    {
      DeliveredError(polls, n, got, i, final, encode);
    }
  }

  /** Entries added to a log without errors. */
  lemma OneErrorWithin(log: seq<ClientEvent>, more: seq<ClientEvent>, at: nat, final: seq<JobEvent>)
    requires NoErrorWithin(log, final) && OnlyErrorAt(more, |log|, at)
    ensures NoErrorWithin(log + more, final) <==> !(at < |more| && |log| + at < |final|)
  {
    var longer := log + more;
    assert forall k :: |log| <= k < |longer| ==> longer[k] == more[k - |log|];
    if at < |more| && |log| + at < |final| {
      assert longer[|log| + at] == ErrorEntry(|log| + at + 1);
    }
  }

  lemma {:induction false} HistoryErrorIff(c: Client, sessions: seq<Session>, start: BufferStart,
                                           final: seq<JobEvent>, encode: Update -> string)
    requires InStep(c, final, encode) && History(c, sessions, start, final, encode)
    requires Span(|c.log|, final) + |sessions| <= MAX_INT64 && NoErrorWithin(c.log, final)
    ensures NoErrorWithin(AfterSessions(c, sessions, start, final, encode).log, final)
       <==> !SomeTakesEventId(c, sessions, start, final, encode)
    decreases |sessions|
  {
    if sessions != [] {
      var c1 := AfterSession(c, sessions[0], start);
      SessionKeepsStep(c, sessions[0], start, final, encode);
      SessionErrorIff(c, sessions[0], start, final, encode);
      if TakesEventId(c, sessions[0], final) {
        HistoryKeepsStep(c1, sessions[1..], start, final, encode);
        ErrorStays(c1.log, AfterSessions(c1, sessions[1..], start, final, encode).log, final);
      } else {
        HistoryErrorIff(c1, sessions[1..], start, final, encode);
      }
    }
  }

  lemma ErrorStays(log: seq<ClientEvent>, longer: seq<ClientEvent>, final: seq<JobEvent>)
    requires !NoErrorWithin(log, final) && log <= longer
    ensures !NoErrorWithin(longer, final)
  {
    var k :| 0 <= k < |log| && k < |final| && log[k] == ErrorEntry(k + 1);
    assert longer[k] == log[k];
  }

  /**
   Exactly when the docs' promise of a full replay holds. A new client whose log reached the end of the job,
   after any number of connections cut anywhere, has exactly the job's events if and only if no connection
   was told that the job is missing before all its events were sent.
   */
  lemma CompleteIffNoneTaken(sessions: seq<Session>, start: BufferStart, final: seq<JobEvent>, encode: Update -> string)
    requires History(NEW_CLIENT, sessions, start, final, encode) && |final| + |sessions| <= MAX_INT64
    requires |AfterSessions(NEW_CLIENT, sessions, start, final, encode).log| >= |final|
    ensures Entries(JobEntries(AfterSessions(NEW_CLIENT, sessions, start, final, encode).log), final, encode)
       <==> !SomeTakesEventId(NEW_CLIENT, sessions, start, final, encode)
  {
    HistoryKeepsStep(NEW_CLIENT, sessions, start, final, encode);
    HistoryErrorIff(NEW_CLIENT, sessions, start, final, encode);
    CompleteIffNoErrorWithin(AfterSessions(NEW_CLIENT, sessions, start, final, encode), final, encode);
  }

  /** Reconnecting cannot repair it: once an error took a job event's id, no later history is complete. */
  lemma LostForGood(c: Client, k: nat, sessions: seq<Session>, start: BufferStart,
                    final: seq<JobEvent>, encode: Update -> string)
    requires InStep(c, final, encode) && History(c, sessions, start, final, encode)
    requires Span(|c.log|, final) + |sessions| <= MAX_INT64
    requires k < |c.log| && k < |final| && c.log[k] == ErrorEntry(k + 1)
    ensures !Entries(JobEntries(AfterSessions(c, sessions, start, final, encode).log), final, encode)
  {
    HistoryKeepsStep(c, sessions, start, final, encode);
    var log := AfterSessions(c, sessions, start, final, encode).log;
    assert log[k] == c.log[k];
    ErrorLeavesGap(log, k, final, encode);
  }

  /** A connection that is told the job is missing, uncut, hands the error the id of the next job event. */
  lemma MissingJobTakesNextId(c: Client, s: Session, start: BufferStart, final: seq<JobEvent>, encode: Update -> string)
    requires InStep(c, final, encode) && Served(c, s, encode) && Follows(s.polls, final)
    requires Span(|c.log|, final) < MAX_INT64
    requires s.cut == |Wire(s.items)| && StreamSpec(s.polls, |c.log|).end.NotFound?
    ensures var log := AfterSession(c, s, start).log;
            var sent := |StreamSpec(s.polls, |c.log|).sends|;
            |log| == |c.log| + sent + 1 && IsErrorEntry(log[|log| - 1], |log|)
  {
    var more := MissingReceived(c, s, start, final, encode);
    ErrorIsLast(c.log, AfterSession(c, s, start).log, more, |StreamSpec(s.polls, |c.log|).sends|);
  }

  lemma MissingReceived(c: Client, s: Session, start: BufferStart, final: seq<JobEvent>, encode: Update -> string)
    returns (more: seq<ClientEvent>)
    requires InStep(c, final, encode) && Served(c, s, encode) && Follows(s.polls, final)
    requires Span(|c.log|, final) < MAX_INT64
    requires s.cut == |Wire(s.items)| && StreamSpec(s.polls, |c.log|).end.NotFound?
    ensures var sent := |StreamSpec(s.polls, |c.log|).sends|;
            && AfterSession(c, s, start).log == c.log + more
            && |more| == sent + 1 && IsErrorEntry(more[sent], |c.log| + sent + 1)
  {
    var got := WholeDelivered(c, s, start, final, encode);
    more := Delivered(got);
    MissingDelivered(s.polls, |c.log|, got, more, final, encode);
  }

  lemma WholeDelivered(c: Client, s: Session, start: BufferStart, final: seq<JobEvent>, encode: Update -> string)
    returns (got: seq<Item>)
    requires InStep(c, final, encode) && |c.log| <= MAX_INT64 && Served(c, s, encode) && s.cut == |Wire(s.items)|
    ensures got == SessionItems(s.polls, |c.log|, encode)
    ensures AfterSession(c, s, start).log == c.log + Delivered(got)
  {
    got := StepDelivers(c, s, start, final, encode);
  }

  lemma ErrorIsLast(log: seq<ClientEvent>, after: seq<ClientEvent>, more: seq<ClientEvent>, sent: nat)
    requires after == log + more && |more| == sent + 1 && IsErrorEntry(more[sent], |log| + sent + 1)
    ensures |after| == |log| + sent + 1 && IsErrorEntry(after[|after| - 1], |after|)
  {
  }

  lemma MissingDelivered(polls: seq<Poll>, n: nat, got: seq<Item>, more: seq<ClientEvent>, final: seq<JobEvent>,
                         encode: Update -> string)
    requires Follows(polls, final) && Span(n, final) < MAX_INT64 && more == Delivered(got)
    requires got == SessionItems(polls, n, encode) && StreamSpec(polls, n).end.NotFound?
    ensures var sent := |StreamSpec(polls, n).sends|; |more| == sent + 1 && IsErrorEntry(more[sent], n + sent + 1)
  {
    SessionItemsFit(polls, n, final, encode);
    DeliveredErrors(polls, n, got, final, encode);
  }

  /**
   A concrete loss. The client is told of acceptance, the record is evicted while the job still runs,
   the stream ends with "job not found", and the job's late result is stored: its status event, second
   of three, can never reach this client.
   */
  lemma EvictionLosesAnEvent(encode: Update -> string, start: BufferStart)
    returns (s: Session, final: seq<JobEvent>)
    requires EncodesOneLine(encode)
    ensures final == JobEventsOf("j", JobResult(Completed, 0, "", "", "")) && |final| == 3
    ensures Served(NEW_CLIENT, s, encode) && Follows(s.polls, final) && KeepsId(s, start)
    ensures var c := AfterSession(NEW_CLIENT, s, start);
            InStep(c, final, encode) && |c.log| == 2 && c.log[1] == ErrorEntry(2)
  {
    final := EventList("j", Completed, [], [], 0, "");
    assert SplitLines("") == [] by { assert UnixNewlines("") == ""; }
    var accepted := EventList("j", Accepted, [], [], 0, "");
    assert accepted == [final[0]];
    var polls := [Found(accepted, false), Missing];
    assert polls[1..] == [Missing];
    var run := StreamSpec(polls, 0);
    assert StreamSpec([Missing], 1) == StreamRun([], 1, NotFound);
    assert run == StreamRun(accepted, 1, NotFound);
    var items := SessionItems(polls, 0, encode);
    NumberedShape(accepted, 0, encode);
    assert items == [FrameOf(final[0], 1, encode), Sent(ERROR_EVENT, 2, JOB_NOT_FOUND)];
    CleanFrames(final[0], encode);
    NoBeats(items);
    s := Session(polls, items, |Wire(items)|);
    WholeItemsAll(items);
    assert Arrived(s) == items;
    SessionKeepsStep(NEW_CLIENT, s, start, final, encode);
    MissingJobTakesNextId(NEW_CLIENT, s, start, final, encode);
  }

  /** A JSON encoder prints no line break. */
  ghost predicate EncodesOneLine(encode: Update -> string) { forall u :: OneLine(encode(u)) }

  lemma CleanFrames(e: JobEvent, encode: Update -> string)
    requires EncodesOneLine(encode)
    ensures forall id :: Clean(FrameOf(e, id, encode))
    ensures forall id :: Clean(Sent(ERROR_EVENT, id, JOB_NOT_FOUND))
  {
    assert OneLine(NameText(e.name)) && NameText(e.name) != "";
    assert OneLine(ERROR_EVENT) && OneLine(JOB_NOT_FOUND) && ERROR_EVENT != "";
  }

  /**
   The condition on heartbeats is needed too. A client whose buffer starts empty, as section 9.2.6 has
   it, forgets its last id when a reconnected stream opens with a heartbeat, and is then served from the
   first event again.
   */
  lemma HeartbeatFirstForgetsId(c: Client, s: Session, start: BufferStart)
    requires s.items == [Beat] && s.cut == |Wire([Beat])|
    ensures var c' := AfterSession(c, s, start);
            c'.log == c.log && (c'.lastId == c.lastId <==> start.Seeded? || c.lastId == "")
            && (start.Empty? ==> ResumeFrom(c'.lastId) == 0)
  {
    var r := Connect(c, start);
    assert Wire([Beat])[..s.cut] == Wire([Beat]);
    FeedWire(r, [Beat]);
    assert [Beat][1..] == [];
    assert AfterAll(r, [Beat]) == AfterAll(After(r, Beat), []);
  }

  /**
   So is the resume point's sign. The id of a sent event is its position in the job's list exactly when
   the resume point was not negative.
   */
  lemma IdIsPositionIff(events: seq<JobEvent>, resume: int, k: nat, encode: Update -> string)
    requires k < |Unsent(events, resume)|
    ensures var item := Numbered(Unsent(events, resume), resume, encode)[k];
            var position := |events| - |Unsent(events, resume)| + k + 1;
            && item.Sent? && item == FrameOf(events[position - 1], item.id, encode)
            && (item.id == position <==> resume >= 0)
  {
    NumberedAt(Unsent(events, resume), k, resume, encode);
  }
}
