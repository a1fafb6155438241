/**
 A job from its record to its client: the handler's responses, looked up in the job table, are the
 connections of JobResume, and the events they carry are those of the job's final record.
 */
module JobHistory {
  import opened Decimal
  import opened SseWire
  import opened JobEvents
  import opened JobStream
  import opened JobResume
  import Table = JobStore
  import opened Wrappers

  // ---------------------------------------------------------------- records

  /** What a lookup of a job may give: nothing, the accepted record, or the one final record. */
  predicate OfJob(result: Option<JobResult>, r: JobResult) {
    result.None? || result.value == Table.ACCEPTED_RESULT || result.value == r
  }

  /** Lookups of one job show beginnings of one list, and all of it once the job has ended. */
  lemma LookupsFollow(jobID: string, results: seq<Option<JobResult>>, r: JobResult)
    requires IsTerminal(r.status) && forall i :: 0 <= i < |results| ==> OfJob(results[i], r)
    ensures Follows(PollsOf(jobID, results), JobEventsOf(jobID, r))
  {
    AcceptedIsPrefix(jobID, r);
  }

  // ---------------------------------------------------------------- connections

  ghost predicate AllClean(items: seq<Item>) { forall it :: it in items ==> Clean(it) }

  lemma {:induction false} FramesClean(sends: seq<JobEvent>, from: int, encode: Update -> string)
    requires EncodesOneLine(encode)
    ensures AllClean(Numbered(sends, from, encode))
    decreases |sends|
  {
    if sends != [] {
      CleanFrames(sends[0], encode);
      FramesClean(sends[1..], from + 1, encode);
      BothClean([FrameOf(sends[0], from + 1, encode)], Numbered(sends[1..], from + 1, encode),
                Numbered(sends, from, encode));
    }
  }

  lemma RunClean(run: StreamRun, resume: int, items: seq<Item>, encode: Update -> string)
    requires EncodesOneLine(encode)
    requires items == Numbered(run.sends, resume, encode) + ErrorItems(run.end, resume + |run.sends|)
    ensures AllClean(items)
  {
    var frames := CleanFramesOf(run.sends, resume, encode);
    var error := CleanErrorOf(run.end, resume + |run.sends|);
    BothClean(frames, error, items);
  }

  lemma CleanFramesOf(sends: seq<JobEvent>, resume: int, encode: Update -> string)
    returns (frames: seq<Item>)
    requires EncodesOneLine(encode)
    ensures frames == Numbered(sends, resume, encode) && AllClean(frames)
  {
    FramesClean(sends, resume, encode);
    frames := Numbered(sends, resume, encode);
  }

  lemma CleanErrorOf(end: StreamEnd, counter: int) returns (error: seq<Item>)
    ensures error == ErrorItems(end, counter) && AllClean(error)
  {
    ErrorClean(end, counter);
    error := ErrorItems(end, counter);
  }

  lemma BothClean(a: seq<Item>, b: seq<Item>, all: seq<Item>)
    requires AllClean(a) && AllClean(b) && all == a + b
    ensures AllClean(all)
  {
  }

  lemma ErrorClean(end: StreamEnd, counter: int)
    ensures AllClean(ErrorItems(end, counter))
  {
    assert OneLine(ERROR_EVENT) && OneLine(JOB_NOT_FOUND) && ERROR_EVENT != "";
  }

  lemma SentClean(items: seq<Item>, sent: seq<Item>)
    requires WithoutBeats(items) == sent && AllClean(sent)
    ensures AllClean(items)
  {
    CleanWithoutBeats(items);
  }

  lemma ItemsClean(items: seq<Item>, polls: seq<Poll>, resume: int, encode: Update -> string)
    requires EncodesOneLine(encode) && WithoutBeats(items) == SessionItems(polls, resume, encode)
    ensures AllClean(items)
  {
    RunClean(StreamSpec(polls, resume), resume, WithoutBeats(items), encode);
    SentClean(items, WithoutBeats(items));
  }

  /** A response that is a beginning of the wire text of these items is a connection cut where it ends. */
  lemma ResponseServed(c: Client, polls: seq<Poll>, items: seq<Item>, body: string, encode: Update -> string)
    returns (s: Session)
    requires body <= Wire(items) && WithoutBeats(items) == SessionItems(polls, ResumeFrom(c.lastId), encode)
    requires EncodesOneLine(encode)
    ensures s == Session(polls, items, |body|) && Served(c, s, encode) && Wire(s.items)[..s.cut] == body
  {
    ItemsClean(items, polls, ResumeFrom(c.lastId), encode);
    s := Session(polls, items, |body|);
  }

  /**
   The client reconnects and reads the whole response of handleJobStream, as far as it arrives. This is a
   connection in the sense of JobResume, cut where the response ends; it is not cut at all if neither
   bytes nor calls ran out.
   */
  method Reconnect(c: Client, jobID: string, results: seq<Option<JobResult>>, start: BufferStart,
                   encode: Update -> string,
                   room: nat, calls: nat, rhythm: Rhythm, message: string)
    returns (sw: Writer, ghost s: Session)
    requires AllSliceSized(PollsOf(jobID, results)) && EncodesOneLine(encode)
    ensures fresh(sw) && s.polls == PollsOf(jobID, results) && Served(c, s, encode)
    ensures var r := Feed(Connect(c, start), Body(sw.prints)); AfterSession(c, s, start) == Client(r.events, r.lastId)
    ensures sw.calls > 0 && sw.room > 0 ==> s.cut == |Wire(s.items)|
  {
    ghost var items;
    sw, items := HandleJobStream(c.lastId, jobID, results, encode, room, calls, rhythm, message);
    s := ResponseServed(c, PollsOf(jobID, results), items, Body(sw.prints), encode);
  }

  /** Connections one after the other that do not wipe the client's id; nothing is said of what was looked up. */
  ghost predicate Connections(c: Client, sessions: seq<Session>, start: BufferStart, encode: Update -> string)
    decreases |sessions|
  {
    sessions == []
    || (&& Served(c, sessions[0], encode) && (KeepsId(sessions[0], start) || c.log == [])
        && Connections(AfterSession(c, sessions[0], start), sessions[1..], start, encode))
  }

  lemma {:induction false} ConnectionsAreHistory(c: Client, sessions: seq<Session>, start: BufferStart,
                                                 final: seq<JobEvent>, encode: Update -> string)
    requires Connections(c, sessions, start, encode)
    requires forall i :: 0 <= i < |sessions| ==> Follows(sessions[i].polls, final)
    ensures History(c, sessions, start, final, encode)
    decreases |sessions|
  {
    if sessions != [] {
      assert forall i :: 0 <= i < |sessions| - 1 ==> sessions[1..][i] == sessions[i + 1];
      ConnectionsAreHistory(AfterSession(c, sessions[0], start), sessions[1..], start, final, encode);
    }
  }

  /** Every connection looked up this job: what each lookup gave is in `lookups`. */
  ghost predicate LooksUp(sessions: seq<Session>, jobID: string, lookups: seq<seq<Option<JobResult>>>) {
    |lookups| == |sessions| && forall i :: 0 <= i < |sessions| ==> sessions[i].polls == PollsOf(jobID, lookups[i])
  }

  /**
   The whole promise over records, evictions included. A new client of a job that ends with record r, after
   any number of connections cut anywhere whose lookups found the job or did not, stays in step with r's
   events; and if its log reached their end, it has exactly them if and only if no connection was told
   that the job is missing before all of them were sent.
   */
  lemma RecordReplayIff(jobID: string, r: JobResult, lookups: seq<seq<Option<JobResult>>>, sessions: seq<Session>,
                        start: BufferStart, encode: Update -> string)
    requires IsTerminal(r.status) && LooksUp(sessions, jobID, lookups)
    requires Connections(NEW_CLIENT, sessions, start, encode)
    requires forall i, j :: 0 <= i < |lookups| && 0 <= j < |lookups[i]| ==> OfJob(lookups[i][j], r)
    requires |JobEventsOf(jobID, r)| + |sessions| <= MAX_INT64
    ensures var final := JobEventsOf(jobID, r);
            && History(NEW_CLIENT, sessions, start, final, encode)
            && var c := AfterSessions(NEW_CLIENT, sessions, start, final, encode);
               && InStep(c, final, encode)
               && (|c.log| >= |final| ==>
                     (Entries(JobEntries(c.log), final, encode)
                      <==> !SomeTakesEventId(NEW_CLIENT, sessions, start, final, encode)))
  {
    var final := JobEventsOf(jobID, r);
    forall i | 0 <= i < |sessions| ensures Follows(sessions[i].polls, final) {
      LookupsFollow(jobID, lookups[i], r);
    }
    ConnectionsAreHistory(NEW_CLIENT, sessions, start, final, encode);
    HistoryKeepsStep(NEW_CLIENT, sessions, start, final, encode);
    if |AfterSessions(NEW_CLIENT, sessions, start, final, encode).log| >= |final| {
      CompleteIffNoneTaken(sessions, start, final, encode);
    }
  }

  // ---------------------------------------------------------------- the job table

  /**
   In this run of the table the job is accepted at p and ends with record r at q; nothing else is stored under
   its id.
   */
  ghost predicate StoredOnce(events: seq<Table.Event>, id: string, p: nat, q: nat, r: JobResult) {
    && p < q < |events|
    && events[p].Put? && events[p].id == id && events[p].result == Table.ACCEPTED_RESULT
    && events[q].Put? && events[q].id == id && events[q].result == r
    && forall i :: 0 <= i < |events| && i != p && i != q ==> !(events[i].Put? && events[i].id == id)
  }

  /**
   The job ends within five minutes of being accepted, and its stream within five more: no later pass comes
   before.
   */
  ghost predicate WithinTTL(events: seq<Table.Event>, p: nat, q: nat)
    requires p < q < |events|
  {
    && (forall i :: p < i < q ==> events[i].at <= events[p].at + 300_000_000_000)
    && (forall i :: q < i < |events| ==> events[i].at <= events[q].at + 300_000_000_000)
  }

  function LookupAt(events: seq<Table.Event>, id: string, k: nat): Option<JobResult>
    requires k <= |events|
  {
    Table.Found(Table.After(events[..k]), id)
  }

  /** Every lookup after acceptance finds the accepted record until the job ended, and the final one from then on. */
  lemma LookupWithinTTL(events: seq<Table.Event>, id: string, p: nat, q: nat, r: JobResult, k: nat)
    requires StoredOnce(events, id, p, q, r) && WithinTTL(events, p, q) && p < k <= |events|
    ensures LookupAt(events, id, k) == Some(if k <= q then Table.ACCEPTED_RESULT else r)
  {
    var seen := events[..k];
    var last := if k <= q then p else q;
    assert Table.LastPut(seen, id, last);
    Table.FoundWithinTTL(seen, id, last);
  }

  function LookupsAt(events: seq<Table.Event>, id: string, points: seq<nat>): seq<Option<JobResult>>
    requires forall k :: k in points ==> k <= |events|
  {
    seq(|points|, i requires 0 <= i < |points| => assert points[i] in points; LookupAt(events, id, points[i]))
  }

  /**
   End to end. A job is accepted and ends within five minutes, and the client is done within five more. After
   any number of connections, each cut at any character, each looking the job up at any moments after it was
   accepted, the client has the first events of the job's final record, once each, in order, under the ids
   1, 2 and so on; and all of them once its last connection ran uncut to the end.
   */
  lemma StoredJobReplays(events: seq<Table.Event>, id: string, p: nat, q: nat, r: JobResult, points: seq<seq<nat>>,
                         sessions: seq<Session>, start: BufferStart, encode: Update -> string)
    requires StoredOnce(events, id, p, q, r) && WithinTTL(events, p, q) && IsTerminal(r.status)
    requires |points| == |sessions| && forall i, k :: 0 <= i < |points| && k in points[i] ==> p < k <= |events|
    requires forall i :: 0 <= i < |sessions| ==> sessions[i].polls == PollsOf(id, LookupsAt(events, id, points[i]))
    requires Connections(NEW_CLIENT, sessions, start, encode)
    requires |JobEventsOf(id, r)| + |sessions| < MAX_INT64
    ensures var final := JobEventsOf(id, r);
            && History(NEW_CLIENT, sessions, start, final, encode)
            && var log := AfterSessions(NEW_CLIENT, sessions, start, final, encode).log;
               && OnlyEntries(log, final, encode)
               && (EndsUncut(NEW_CLIENT, sessions, start, final, encode) ==> |log| == |final|)
  {
    var final := JobEventsOf(id, r);
    forall i | 0 <= i < |sessions|
      ensures Follows(sessions[i].polls, final) && AllFound(sessions[i].polls)
    {
      PointsFollow(events, id, p, q, r, points[i]);
    }
    ConnectionsAreHistory(NEW_CLIENT, sessions, start, final, encode);
    ResumeExactlyOnce(sessions, start, final, encode);
  }

  lemma PointsFollow(events: seq<Table.Event>, id: string, p: nat, q: nat, r: JobResult, points: seq<nat>)
    requires StoredOnce(events, id, p, q, r) && WithinTTL(events, p, q) && IsTerminal(r.status)
    requires forall k :: k in points ==> p < k <= |events|
    ensures var polls := PollsOf(id, LookupsAt(events, id, points));
            Follows(polls, JobEventsOf(id, r)) && AllFound(polls)
  {
    var results := LookupsAt(events, id, points);
    forall i | 0 <= i < |results| ensures results[i].Some? && OfJob(results[i], r) {
      assert points[i] in points;
      LookupWithinTTL(events, id, p, q, r, points[i]);
    }
    LookupsFollow(id, results, r);
  }
}
