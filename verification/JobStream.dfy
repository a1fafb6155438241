/**
 The resumable job event log: internal/exec/handlers.go, handleJobStream and streamJob, run through
 internal/sse/handler.go and read by a client that reconnects with its last event ID (WHATWG HTML
 Living Standard, section 9.2.4).
 */
module JobStream {
  import opened Decimal
  import opened SseWire
  import opened JobEvents
  import opened Wrappers

  const ERROR_EVENT := "error"
  const JOB_NOT_FOUND := "{\"error\":\"job not found\"}"

  datatype StreamEnd = Finished | NotFound | Interrupted

  /** What one connection sends: the events in order, `lastSent` afterwards, and how the loop ended. */
  datatype StreamRun = StreamRun(sends: seq<JobEvent>, last: int, end: StreamEnd)

  /** The events whose 1-based position exceeds `last`. */
  function Unsent(events: seq<JobEvent>, last: int): seq<JobEvent> {
    if last <= 0 then events else if last >= |events| then [] else events[last..]
  }

  /** One lookup of the job, as far as the stream is concerned. */
  datatype Poll = Missing | Found(events: seq<JobEvent>, terminal: bool)

  function PollOf(jobID: string, result: Option<JobResult>): Poll {
    match result
    case None => Missing
    case Some(r) => Found(JobEventsOf(jobID, r), IsTerminal(r.status))
  }

  function PollsOf(jobID: string, results: seq<Option<JobResult>>): seq<Poll> {
    seq(|results|, i requires 0 <= i < |results| => PollOf(jobID, results[i]))
  }

  /** The poll loop over the lookups; running out of them is the request being cancelled. */
  function StreamSpec(polls: seq<Poll>, last: int): StreamRun
    decreases |polls|
  {
    if polls == [] then StreamRun([], last, Interrupted)
    else if polls[0].Missing? then StreamRun([], last, NotFound)
    else
      var unsent := Unsent(polls[0].events, last);
      var last' := if unsent == [] then last else |polls[0].events|;
      if polls[0].terminal then StreamRun(unsent, last', Finished)
      else
        var rest := StreamSpec(polls[1..], last');
        StreamRun(unsent + rest.sends, rest.last, rest.end)
  }

  /** The frames of some events, numbered from `from + 1`. */
  function Numbered(sends: seq<JobEvent>, from: int, encode: Update -> string): (items: seq<Item>)
    ensures |items| == |sends|
  {
    if sends == [] then []
    else [Sent(NameText(sends[0].name), from + 1, encode(sends[0].data))] + Numbered(sends[1..], from + 1, encode)
  }

  lemma {:induction false} NumberedShape(sends: seq<JobEvent>, from: int, encode: Update -> string)
    ensures forall k :: 0 <= k < |sends| ==>
              Numbered(sends, from, encode)[k] == Sent(NameText(sends[k].name), from + 1 + k, encode(sends[k].data))
    decreases |sends|
  {
    if sends != [] {
      NumberedShape(sends[1..], from + 1, encode);
    }
  }

  lemma {:induction false} NumberedAppend(a: seq<JobEvent>, b: seq<JobEvent>, from: int, encode: Update -> string)
    ensures Numbered(a + b, from, encode) == Numbered(a, from, encode) + Numbered(b, from + |a|, encode)
    decreases |a|
  {
    if a == [] {
      assert a + b == b;
    } else {
      assert (a + b)[1..] == a[1..] + b;
      NumberedAppend(a[1..], b, from + 1, encode);
    }
  }

  // ---------------------------------------------------------------- the loop as the code runs it

  datatype LoopEnd = Stopped(end: StreamEnd) | SendFailed(error: SendError)

  /** How many heartbeats the ticker squeezes in before the event of each id. */
  type Rhythm = int -> nat

  function FrameOf(e: JobEvent, id: int, encode: Update -> string): Item {
    Sent(NameText(e.name), id, encode(e.data))
  }

  lemma NumberedAt(all: seq<JobEvent>, k: nat, from: int, encode: Update -> string)
    requires k < |all|
    ensures Numbered(all, from, encode)[k] == FrameOf(all[k], from + 1 + k, encode)
  {
    NumberedShape(all, from, encode);
  }

  lemma NumberedPrefix(some: seq<JobEvent>, all: seq<JobEvent>, from: int, encode: Update -> string)
    requires some <= all
    ensures Numbered(some, from, encode) <= Numbered(all, from, encode)
  {
    var rest := all[|some|..];
    assert all == some + rest;
    NumberedAppend(some, rest, from, encode);
  }

  /** What was to be printed has grown by these items, heartbeats aside. */
  ghost predicate GrownBy(before: seq<Item>, after: seq<Item>, items: seq<Item>) {
    before <= after && WithoutBeats(after[|before|..]) == items
  }

  lemma GrownByMore(before: seq<Item>, mid: seq<Item>, after: seq<Item>, a: seq<Item>, b: seq<Item>)
    requires GrownBy(before, mid, a) && GrownBy(mid, after, b)
    ensures GrownBy(before, after, a + b)
  {
    assert after[|before|..] == mid[|before|..] + after[|mid|..];
    WithoutBeatsAppend(mid[|before|..], after[|mid|..]);
  }

  lemma GrownByOne(before: seq<Item>, it: Item)
    ensures GrownBy(before, before + [it], if it.Beat? then [] else [it])
  {
    assert (before + [it])[|before|..] == [it];
    assert [it][1..] == [];
  }

  lemma GrownByNone(before: seq<Item>)
    ensures GrownBy(before, before, [])
  {
  }

  /** Everything so far is the frames of these events, numbered on from the resume point. */
  ghost predicate Asked(sw: Writer, before: seq<Item>, sends: seq<JobEvent>, resume: int, encode: Update -> string)
    reads sw
  {
    sw.Valid() && sw.next == resume + |sends| && GrownBy(before, sw.asked, Numbered(sends, resume, encode))
  }

  /** Why a send fails: the request is done, or the connection takes no more bytes. */
  ghost predicate Failing(sw: Writer, err: SendError)
    reads sw
  {
    (err == ClientGone ==> sw.calls == 0) && (err == WriteFailed ==> sw.room == 0)
  }

  /** The ticker's side of sse.Handler: heartbeats under the writer's lock, until one fails. */
  method Beats(sw: Writer, count: nat)
    requires sw.Valid()
    modifies sw
    ensures sw.Valid() && sw.next == old(sw.next) && GrownBy(old(sw.asked), sw.asked, [])
    ensures sw.calls <= old(sw.calls) && sw.room <= old(sw.room)
  {
    ghost var before := sw.asked;
    GrownByNone(before);
    for i := 0 to count
      invariant sw.Valid() && sw.next == old(sw.next) && GrownBy(before, sw.asked, [])
      invariant sw.calls <= old(sw.calls) && sw.room <= old(sw.room)
    {
      ghost var mid := sw.asked;
      var err := sw.Heartbeat();
      if err == ClientGone { return; }
      GrownByOne(mid, Beat);
      GrownByMore(before, mid, sw.asked, [], []);
      if err != NoError { return; }
    }
  }

  lemma AskedMore(before: seq<Item>, mid: seq<Item>, after: seq<Item>, a: seq<JobEvent>, b: seq<JobEvent>,
                  from: int, encode: Update -> string)
    requires GrownBy(before, mid, Numbered(a, from, encode)) && GrownBy(mid, after, Numbered(b, from + |a|, encode))
    ensures GrownBy(before, after, Numbered(a + b, from, encode))
  {
    NumberedAppend(a, b, from, encode);
    GrownByMore(before, mid, after, Numbered(a, from, encode), Numbered(b, from + |a|, encode));
  }

  lemma AskedOne(mid: seq<Item>, quiet: seq<Item>, e: JobEvent, at: int, encode: Update -> string)
    requires GrownBy(mid, quiet, [])
    ensures GrownBy(mid, quiet + [FrameOf(e, at + 1, encode)], Numbered([e], at, encode))
  {
    var frame := FrameOf(e, at + 1, encode);
    assert [e][1..] == [] && Numbered([e], at, encode) == [frame];
    GrownByOne(quiet, frame);
    GrownByMore(mid, quiet, quiet + [frame], [], [frame]);
    assert [] + [frame] == [frame];
  }

  /**
   One send of the inner loop, after some heartbeats. A send that fails on the connection was asked for all
   the same.
   */
  method SendOne(sw: Writer, e: JobEvent, encode: Update -> string, rhythm: Rhythm,
                 ghost before: seq<Item>, ghost sends: seq<JobEvent>, ghost from: int)
    returns (err: SendError)
    requires Asked(sw, before, sends, from, encode) && sw.next < MAX_INT64
    modifies sw
    ensures Asked(sw, before, if err == ClientGone then sends else sends + [e], from, encode)
    ensures Failing(sw, err) && sw.calls <= old(sw.calls) && sw.room <= old(sw.room)
  {
    ghost var mid := sw.asked;
    Beats(sw, rhythm(sw.next + 1));
    ghost var quiet := sw.asked;
    err := sw.Write(NameText(e.name), encode(e.data));
    if err == ClientGone {
      GrownByMore(before, mid, quiet, Numbered(sends, from, encode), []);
      assert Numbered(sends, from, encode) + [] == Numbered(sends, from, encode);
    } else {
      AskedOne(mid, quiet, e, from + |sends|, encode);
      AskedMore(before, mid, sw.asked, sends, [e], from, encode);
    }
  }

  /**
   The inner loop of streamJob: sends what this record has beyond `last`, one frame at a time, until a
   send fails.
   */
  method SendUnsent(sw: Writer, events: seq<JobEvent>, last: int, encode: Update -> string, rhythm: Rhythm)
    returns (lastSent: int, err: SendError, ghost sends: seq<JobEvent>)
    requires sw.Valid() && sw.next + |Unsent(events, last)| <= MAX_INT64
    modifies sw
    ensures Asked(sw, old(sw.asked), sends, old(sw.next), encode) && sends <= Unsent(events, last)
    ensures err == NoError ==> sends == Unsent(events, last) && lastSent == if sends == [] then last else |events|
    ensures Failing(sw, err) && sw.calls <= old(sw.calls) && sw.room <= old(sw.room)
  {
    ghost var from, before := sw.next, sw.asked;
    lastSent, sends := last, [];
    GrownByNone(before);
    for i := 0 to |events|
      invariant Asked(sw, before, sends, from, encode)
      invariant sends == Unsent(events[..i], last)
      invariant lastSent == if sends == [] then last else i
      invariant sw.calls <= old(sw.calls) && sw.room <= old(sw.room)
    {
      var seqNo := i + 1;
      if seqNo > lastSent {
        UnsentStep(events, i, last);
        err := SendOne(sw, events[i], encode, rhythm, before, sends, from);
        if err != NoError {
          sends := if err == ClientGone then sends else sends + [events[i]];
          return;
        }
        lastSent, sends := seqNo, sends + [events[i]];
      } else {
        UnsentSkip(events, i, last);
      }
    }
    assert events[..|events|] == events;
    err := NoError;
  }

  /** A Go slice is never longer than the largest int64. */
  predicate SliceSized(p: Poll) { p.Found? ==> |p.events| < MAX_INT64 }

  predicate AllSliceSized(polls: seq<Poll>) { forall i :: 0 <= i < |polls| ==> SliceSized(polls[i]) }

  /** The ids of a run stay within 64 bits, and from a resume point that is not negative they count `lastSent`. */
  lemma {:induction false} RunCounts(polls: seq<Poll>, last: int)
    requires AllSliceSized(polls) && IsInt64(last)
    ensures var run := StreamSpec(polls, last);
            && last + |run.sends| <= MAX_INT64
            && (0 <= last ==> run.last == last + |run.sends|)
    decreases |polls|
  {
    if polls != [] && polls[0].Found? {
      var unsent := Unsent(polls[0].events, last);
      RunCounts(polls[1..], if unsent == [] then last else |polls[0].events|);
    }
  }

  /**
   What one round does: a missing job ends the run, a failed send too; else everything unsent goes, and a
   terminal record ends it.
   */
  ghost predicate Polled(poll: Poll, last: int, end: Option<LoopEnd>, lastSent: int, more: seq<JobEvent>) {
    match poll
    case Missing => end == Some(Stopped(NotFound)) && more == []
    case Found(events, terminal) =>
      if end.Some? && end.value.SendFailed? then more <= Unsent(events, last)
      else
        && more == Unsent(events, last)
        && end == (if terminal then Some(Stopped(Finished)) else None)
        && lastSent == if more == [] then last else |events|
  }

  /** A lookup ends the stream: the job is missing, or it completed, failed or was cancelled. */
  ghost predicate Decides(result: Option<JobResult>) {
    match result
    case None => true
    case Some(r) => r.status in {Completed, Failed, Cancelled}
  }

  ghost predicate FirstDecides(results: seq<Option<JobResult>>, k: int) {
    0 <= k < |results| && Decides(results[k]) && forall j :: 0 <= j < k ==> !Decides(results[j])
  }

  /** The stream ends with the first lookup that ends it, and with none it is interrupted. */
  ghost predicate EndsAsLookedUp(results: seq<Option<JobResult>>, end: StreamEnd) {
    match end
    case Finished => exists k :: FirstDecides(results, k) && results[k].Some?
    case NotFound => exists k :: FirstDecides(results, k) && results[k].None?
    case Interrupted => forall k :: !FirstDecides(results, k)
  }

  lemma DecidesIff(jobID: string, result: Option<JobResult>)
    ensures Decides(result) <==> PollOf(jobID, result).Missing? || PollOf(jobID, result).terminal
  {
  }

  /** Exactly when a stream ends, and how: no lookup after the first deciding one matters. */
  lemma {:induction false} StreamEndsAsLookedUp(jobID: string, results: seq<Option<JobResult>>, last: int)
    ensures EndsAsLookedUp(results, StreamSpec(PollsOf(jobID, results), last).end)
    decreases |results|
  {
    var polls := PollsOf(jobID, results);
    if results != [] {
      DecidesIff(jobID, results[0]);
      if Decides(results[0]) {
        assert FirstDecides(results, 0);
      } else {
        var rest := results[1..];
        assert polls[1..] == PollsOf(jobID, rest);
        var unsent := Unsent(polls[0].events, last);
        StreamEndsAsLookedUp(jobID, rest, if unsent == [] then last else |polls[0].events|);
        forall k ensures FirstDecides(results, k) <==> k >= 1 && FirstDecides(rest, k - 1) {
          assert 0 < k < |results| ==> results[k] == rest[k - 1];
          assert forall j :: 1 <= j < |results| ==> results[j] == rest[j - 1];
        }
        forall k | FirstDecides(rest, k) ensures FirstDecides(results, k + 1) && results[k + 1] == rest[k] {
        }
      }
    }
  }

  /** One round of the poll loop on one looked-up result; no end means the loop goes on. */
  method PollOnce(sw: Writer, jobID: string, result: Option<JobResult>, last: int, encode: Update -> string,
                  rhythm: Rhythm, ghost before: seq<Item>, ghost sends: seq<JobEvent>, ghost resume: int)
    returns (end: Option<LoopEnd>, lastSent: int, ghost more: seq<JobEvent>)
    requires Asked(sw, before, sends, resume, encode)
    requires IsInt64(last) && SliceSized(PollOf(jobID, result))
    requires result.Some? ==> sw.next + |Unsent(PollOf(jobID, result).events, last)| <= MAX_INT64
    modifies sw
    ensures Asked(sw, before, sends + more, resume, encode)
    ensures Polled(PollOf(jobID, result), last, end, lastSent, more)
    ensures end.None? || end.value.Stopped? ==> (end.Some? <==> Decides(result))
    ensures end.None? ==> IsInt64(lastSent)
    ensures end.Some? && end.value.SendFailed? ==> end.value.error != NoError && Failing(sw, end.value.error)
    ensures sw.calls <= old(sw.calls) && sw.room <= old(sw.room)
  {
    DecidesIff(jobID, result);
    if result.None? {
      assert sends + [] == sends;
      return Some(Stopped(NotFound)), last, [];
    }
    var events := BuildJobEvents(jobID, result.value);
    ghost var mid := sw.asked;
    var err: SendError;
    lastSent, err, more := SendUnsent(sw, events, last, encode, rhythm);
    AskedMore(before, mid, sw.asked, sends, more, resume, encode);
    if err != NoError {
      return Some(SendFailed(err)), lastSent, more;
    }
    end := if IsTerminal(result.value.status) then Some(Stopped(Finished)) else None;
  }

  /**
   streamJob: the poll loop, with heartbeats anywhere in between. What is asked of the writer is exactly the
   numbered frames of the specified run, or a beginning of them when a send fails; and from a resume
   point that is not negative `lastSent` is the writer's counter.
   */
  method StreamJob(sw: Writer, jobID: string, results: seq<Option<JobResult>>, resume: int,
                   encode: Update -> string, rhythm: Rhythm)
    returns (end: LoopEnd, ghost sends: seq<JobEvent>)
    requires sw.Valid() && IsInt64(resume) && sw.next == resume && AllSliceSized(PollsOf(jobID, results))
    modifies sw
    ensures Asked(sw, old(sw.asked), sends, resume, encode)
    ensures sends <= StreamSpec(PollsOf(jobID, results), resume).sends
    ensures end.Stopped? ==>
              var run := StreamSpec(PollsOf(jobID, results), resume);
              sends == run.sends && end.end == run.end && (0 <= resume ==> sw.next == run.last)
    ensures end.Stopped? ==> EndsAsLookedUp(results, end.end)
    ensures end.SendFailed? ==> end.error != NoError && Failing(sw, end.error)
  {
    StreamEndsAsLookedUp(jobID, results, resume);
    ghost var before := sw.asked;
    ghost var polls := PollsOf(jobID, results);
    ghost var run := StreamSpec(polls, resume);
    RunCounts(polls, resume);
    RunBegins(polls, resume);
    GrownByNone(before);
    var lastSent := resume;
    sends := [];
    for p := 0 to |results|
      invariant Asked(sw, before, sends, resume, encode) && sends <= run.sends
      invariant IsInt64(lastSent) && RunSoFar(run, sends, polls, p, lastSent)
    {
      assert polls[p] == PollOf(jobID, results[p]) && SliceSized(polls[p]);
      UnsentFits(run, sends, polls, p, lastSent);
      ghost var from := lastSent;
      var stop: Option<LoopEnd>;
      ghost var more: seq<JobEvent>;
      stop, lastSent, more := PollOnce(sw, jobID, results[p], lastSent, encode, rhythm, before, sends, resume);
      RoundOfRun(run, sends, polls, p, from, stop, lastSent, more);
      sends := sends + more;
      if stop.Some? {
        return stop.value, sends;
      }
    }
    RunEnds(run, sends, polls, lastSent);
    end := Stopped(Interrupted);
  }

  /** After `p` lookups, what was sent and what the remaining lookups would send make up the run. */
  ghost predicate RunSoFar(run: StreamRun, sends: seq<JobEvent>, polls: seq<Poll>, p: nat, last: int) {
    && p <= |polls|
    && var rest := StreamSpec(polls[p..], last);
       run == StreamRun(sends + rest.sends, rest.last, rest.end)
  }

  lemma RunBegins(polls: seq<Poll>, resume: int)
    ensures RunSoFar(StreamSpec(polls, resume), [], polls, 0, resume)
  {
    assert polls[0..] == polls;
    assert [] + StreamSpec(polls, resume).sends == StreamSpec(polls, resume).sends;
  }

  lemma RunEnds(run: StreamRun, sends: seq<JobEvent>, polls: seq<Poll>, last: int)
    requires RunSoFar(run, sends, polls, |polls|, last)
    ensures run == StreamRun(sends, last, Interrupted)
  {
    assert polls[|polls|..] == [];
  }

  /** One lookup more: either the run ends here, or what this record adds is part of it. */
  lemma PollAdvances(run: StreamRun, sends: seq<JobEvent>, polls: seq<Poll>, p: nat, last: int)
    requires p < |polls| && RunSoFar(run, sends, polls, p, last)
    ensures polls[p].Missing? ==> run == StreamRun(sends, last, NotFound)
    ensures polls[p].Found? ==>
              var unsent := Unsent(polls[p].events, last);
              var last' := if unsent == [] then last else |polls[p].events|;
              && sends + unsent <= run.sends
              && (polls[p].terminal ==> run == StreamRun(sends + unsent, last', Finished))
              && (!polls[p].terminal ==> RunSoFar(run, sends + unsent, polls, p + 1, last'))
  {
    assert polls[p..][0] == polls[p] && polls[p..][1..] == polls[p + 1..];
    if polls[p].Found? && !polls[p].terminal {
      var unsent := Unsent(polls[p].events, last);
      var next := StreamSpec(polls[p + 1..], if unsent == [] then last else |polls[p].events|);
      assert sends + (unsent + next.sends) == (sends + unsent) + next.sends;
    }
  }

  lemma UnsentFits(run: StreamRun, sends: seq<JobEvent>, polls: seq<Poll>, p: nat, last: int)
    requires p < |polls| && RunSoFar(run, sends, polls, p, last)
    ensures polls[p].Found? ==> |sends| + |Unsent(polls[p].events, last)| <= |run.sends|
  {
    PollAdvances(run, sends, polls, p, last);
  }

  /** A round of the loop is a round of the run. */
  lemma RoundOfRun(run: StreamRun, sends: seq<JobEvent>, polls: seq<Poll>, p: nat, last: int,
                   end: Option<LoopEnd>, lastSent: int, more: seq<JobEvent>)
    requires p < |polls| && RunSoFar(run, sends, polls, p, last) && sends <= run.sends
    requires Polled(polls[p], last, end, lastSent, more)
    ensures sends + more <= run.sends
    ensures end.None? ==> RunSoFar(run, sends + more, polls, p + 1, lastSent)
    ensures end.Some? && end.value.Stopped? ==> sends + more == run.sends && end.value.end == run.end
  {
    PollAdvances(run, sends, polls, p, last);
    if polls[p].Found? {
      PartOfRun(run.sends, sends, Unsent(polls[p].events, last), more);
    } else {
      assert sends + [] == sends;
    }
  }

  lemma PartOfRun(all: seq<JobEvent>, sends: seq<JobEvent>, unsent: seq<JobEvent>, more: seq<JobEvent>)
    requires more <= unsent && sends + unsent <= all
    ensures sends + more <= all
  {
  }

  lemma UnsentStep(events: seq<JobEvent>, i: nat, last: int)
    requires i < |events|
    requires i + 1 > (if Unsent(events[..i], last) == [] then last else i)
    ensures Unsent(events[..i + 1], last) == Unsent(events[..i], last) + [events[i]]
    ensures Unsent(events[..i], last) < Unsent(events, last)
    ensures Unsent(events, last)[|Unsent(events[..i], last)|] == events[i]
  {
    assert events[..i + 1] == events[..i] + [events[i]];
  }

  lemma UnsentSkip(events: seq<JobEvent>, i: nat, last: int)
    requires i < |events|
    requires i + 1 <= (if Unsent(events[..i], last) == [] then last else i)
    ensures Unsent(events[..i + 1], last) == [] && Unsent(events[..i], last) == []
  {
  }

  // ---------------------------------------------------------------- one connection

  /**
   Everything one connection writes: the run's frames and, if the job was not found, the terminal error under
   the next id.
   */
  function SessionItems(polls: seq<Poll>, resume: int, encode: Update -> string): seq<Item>
  {
    var run := StreamSpec(polls, resume);
    Numbered(run.sends, resume, encode) + ErrorItems(run.end, resume + |run.sends|)
  }

  function ErrorItems(end: StreamEnd, counter: int): seq<Item> {
    if end.NotFound? then [Sent(ERROR_EVENT, Next64(counter), JOB_NOT_FOUND)] else []
  }

  /** The response is a beginning of the wire text of these items, and all of it if neither bytes nor calls ran out. */
  ghost predicate Answers(sw: Writer, items: seq<Item>)
    reads sw
  {
    && sw.Valid() && Body(sw.prints) <= Wire(items)
    && (sw.calls > 0 && sw.room > 0 ==> Body(sw.prints) == Wire(items))
  }

  /** What a client of a job that is gone reads: one error event, after the id it resumed at. */
  lemma MissingJobOnTheWire(resume: int, encode: Update -> string)
    requires resume < MAX_INT64
    ensures Wire(SessionItems([Missing], resume, encode))
         == "event: " + "error" + "\nid: " + PrintInt(resume + 1)
            + "\ndata: " + "{\"error\":\"job not found\"}" + "\n\n"
  {
    MissingJobItems(resume, encode);
    WireOfOne(Sent(ERROR_EVENT, resume + 1, JOB_NOT_FOUND));
  }

  lemma MissingJobItems(resume: int, encode: Update -> string)
    requires resume < MAX_INT64
    ensures SessionItems([Missing], resume, encode) == [Sent(ERROR_EVENT, resume + 1, JOB_NOT_FOUND)]
  {
  }

  lemma WireOfOne(it: Item)
    ensures Wire([it]) == ItemText(it)
  {
    assert [it][1..] == [];
  }

  /** Frames asked for so far can be completed to everything the connection was to write. */
  lemma Completion(asked: seq<Item>, sends: seq<JobEvent>, polls: seq<Poll>, resume: int, encode: Update -> string)
    returns (items: seq<Item>)
    requires GrownBy([], asked, Numbered(sends, resume, encode)) && sends <= StreamSpec(polls, resume).sends
    ensures asked <= items && WithoutBeats(items) == SessionItems(polls, resume, encode)
    ensures sends == StreamSpec(polls, resume).sends && !StreamSpec(polls, resume).end.NotFound? ==> items == asked
  {
    var all := SessionItems(polls, resume, encode);
    var frames := Numbered(sends, resume, encode);
    NumberedPrefix(sends, StreamSpec(polls, resume).sends, resume, encode);
    var rest := all[|frames|..];
    assert all == frames + rest;
    items := asked + rest;
    assert asked[0..] == asked;
    AllSent(polls, resume, encode);
    NoBeats(rest);
    WithoutBeatsAppend(asked, rest);
  }

  lemma AllSent(polls: seq<Poll>, resume: int, encode: Update -> string)
    ensures forall it :: it in SessionItems(polls, resume, encode) ==> it.Sent?
  {
    var run := StreamSpec(polls, resume);
    NumberedShape(run.sends, resume, encode);
  }

  lemma {:induction false} NoBeats(items: seq<Item>)
    requires forall it :: it in items ==> it.Sent?
    ensures WithoutBeats(items) == items
  {
    if items != [] {
      assert items[0] in items && forall it :: it in items[1..] ==> it in items;
      NoBeats(items[1..]);
    }
  }

  lemma PrefixOfWire(body: string, asked: seq<Item>, items: seq<Item>)
    requires body <= Wire(asked) && asked <= items
    ensures body <= Wire(items)
  {
    assert items == asked + items[|asked|..];
    WireAppend(asked, items[|asked|..]);
  }

  /** sse.Handler's answer to "job not found": a terminal error event, unless the request is done. */
  method ReportMissing(sw: Writer, rhythm: Rhythm, ghost sends: seq<JobEvent>, ghost polls: seq<Poll>,
                       ghost resume: int, encode: Update -> string)
    returns (ghost items: seq<Item>)
    requires Asked(sw, [], sends, resume, encode)
    requires sends == StreamSpec(polls, resume).sends && StreamSpec(polls, resume).end.NotFound?
    modifies sw
    ensures Answers(sw, items) && WithoutBeats(items) == SessionItems(polls, resume, encode)
  {
    ghost var frames := Numbered(sends, resume, encode);
    ghost var mid := sw.asked;
    Beats(sw, rhythm(sw.next + 1));
    ghost var quiet := sw.asked;
    GrownByMore([], mid, quiet, frames, []);
    assert frames + [] == frames;
    ghost var error := Sent(ERROR_EVENT, Next64(sw.next), JOB_NOT_FOUND);
    var err := sw.Write(ERROR_EVENT, JOB_NOT_FOUND);
    items := quiet + [error];
    GrownByOne(quiet, error);
    GrownByMore([], quiet, items, frames, [error]);
    assert items[0..] == items;
    if err == ClientGone {
      PrefixOfWire(Body(sw.prints), quiet, items);
    }
  }

  /** And to any other error of the stream: one more error event, which a broken connection does not carry. */
  method ReportBroken(sw: Writer, message: string, ghost items: seq<Item>)
    requires sw.Valid() && sw.room == 0 && sw.asked <= items
    modifies sw
    ensures Answers(sw, items)
  {
    ghost var body, asked := Body(sw.prints), sw.asked;
    var err := sw.Write(ERROR_EVENT, message);
    PrefixOfWire(body, asked, items);
    PrefixOfWire(body, asked, sw.asked);
    assert Body(sw.prints) <= Wire(sw.asked) && |Body(sw.prints)| <= |body|;
    assert Body(sw.prints) <= body;
  }

  /**
   The stream function under sse.Handler: start the counter at the resume point, stream, and report an
   error. `room` is how many bytes of the response arrive, `calls` how many calls pass before the request
   is done. `items` says what the response is a beginning of: the events and the error of the specified
   run, with heartbeats among them.
   */
  method ServeFrom(resume: int, jobID: string, results: seq<Option<JobResult>>, encode: Update -> string,
                   room: nat, calls: nat, rhythm: Rhythm, message: string)
    returns (sw: Writer, ghost items: seq<Item>)
    requires IsInt64(resume) && AllSliceSized(PollsOf(jobID, results))
    ensures fresh(sw) && Answers(sw, items)
    ensures WithoutBeats(items) == SessionItems(PollsOf(jobID, results), resume, encode)
  {
    ghost var polls := PollsOf(jobID, results);
    sw := new Writer(room, calls);
    sw.SetSequence(resume);
    var end, sends := StreamJob(sw, jobID, results, resume, encode, rhythm);
    if end.Stopped? && end.end.NotFound? {
      items := ReportMissing(sw, rhythm, sends, polls, resume, encode);
    } else if end.Stopped? {
      ghost var mid := sw.asked;
      Beats(sw, rhythm(sw.next + 1));
      GrownByMore([], mid, sw.asked, Numbered(sends, resume, encode), []);
      assert Numbered(sends, resume, encode) + [] == Numbered(sends, resume, encode);
      items := Completion(sw.asked, sends, polls, resume, encode);
    } else {
      items := Completion(sw.asked, sends, polls, resume, encode);
      PrefixOfWire(Body(sw.prints), sw.asked, items);
      if end.error == WriteFailed {
        ReportBroken(sw, message, items);
      }
    }
  }

  /** handleJobStream: the resume point comes from the Last-Event-ID header. */
  method HandleJobStream(header: string, jobID: string, results: seq<Option<JobResult>>, encode: Update -> string,
                         room: nat, calls: nat, rhythm: Rhythm, message: string)
    returns (sw: Writer, ghost items: seq<Item>)
    requires AllSliceSized(PollsOf(jobID, results))
    ensures fresh(sw) && Answers(sw, items)
    ensures WithoutBeats(items) == SessionItems(PollsOf(jobID, results), ResumeFrom(header), encode)
  {
    sw, items := ServeFrom(ResumeFrom(header), jobID, results, encode, room, calls, rhythm, message);
  }
}
