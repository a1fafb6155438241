/** The event list of a job record: internal/exec/handlers.go, buildJobEvents and splitLines. */
module JobEvents {
  import opened Text

  datatype JobStatus = Accepted | Completed | Failed | Cancelled | OtherStatus(name: string)

  datatype JobResult = JobResult(status: JobStatus, exitCode: int, stdout: string, stderr: string, error: string)

  datatype Stream = Stdout | Stderr

  /** The event names; NameText gives them as they stand on the wire. */
  datatype EventName = Status | Out | Err | Done | Broken

  datatype Update =
    | StatusUpdate(jobID: string, status: JobStatus)
    | LineUpdate(jobID: string, line: string, stream: Stream)
    | EndUpdate(jobID: string, exitCode: int, error: string)

  datatype JobEvent = JobEvent(name: EventName, data: Update)

  function NameText(name: EventName): string {
    match name
    case Status => "job.status"
    case Out => "job.stdout"
    case Err => "job.stderr"
    case Done => "job.completed"
    case Broken => "job.failed"
  }

  predicate IsTerminal(status: JobStatus) {
    status.Completed? || status.Failed? || status.Cancelled?
  }

  /** strings.ReplaceAll(text, "\r\n", "\n"). */
  function UnixNewlines(text: string): string {
    if |text| >= 2 && text[0] == '\r' && text[1] == '\n' then "\n" + UnixNewlines(text[2..])
    else if text == "" then ""
    else [text[0]] + UnixNewlines(text[1..])
  }

  function SplitLines(text: string): seq<string> {
    var t := TrimSuffix(UnixNewlines(text), "\n");
    if t == "" then [] else Split(t, '\n')
  }

  function LineEvents(jobID: string, name: EventName, stream: Stream, lines: seq<string>): seq<JobEvent> {
    if lines == [] then []
    else [JobEvent(name, LineUpdate(jobID, lines[0], stream))] + LineEvents(jobID, name, stream, lines[1..])
  }

  function OpeningEvents(jobID: string, status: JobStatus): seq<JobEvent> {
    [JobEvent(Status, StatusUpdate(jobID, Accepted))]
    + if status.Accepted? then [] else [JobEvent(Status, StatusUpdate(jobID, status))]
  }

  function ClosingEvents(jobID: string, status: JobStatus, exitCode: int, error: string): seq<JobEvent> {
    if IsTerminal(status) then
      [JobEvent(if status.Completed? then Done else Broken, EndUpdate(jobID, exitCode, error))]
    else []
  }

  /** The whole list, from the record's parts with the outputs already split into lines. */
  function EventList(jobID: string, status: JobStatus, out: seq<string>, err: seq<string>, exitCode: int, error: string)
    : seq<JobEvent>
  {
    OpeningEvents(jobID, status)
    + LineEvents(jobID, Out, Stdout, out)
    + LineEvents(jobID, Err, Stderr, err)
    + ClosingEvents(jobID, status, exitCode, error)
  }

  function JobEventsOf(jobID: string, r: JobResult): seq<JobEvent> {
    EventList(jobID, r.status, SplitLines(r.stdout), SplitLines(r.stderr), r.exitCode, r.error)
  }

  /** One of the two appending loops of buildJobEvents. */
  method AppendLineEvents(events: seq<JobEvent>, jobID: string, name: EventName, stream: Stream, lines: seq<string>)
    returns (longer: seq<JobEvent>)
    ensures longer == events + LineEvents(jobID, name, stream, lines)
  {
    longer := events;
    for i := 0 to |lines|
      invariant longer + LineEvents(jobID, name, stream, lines[i..])
             == events + LineEvents(jobID, name, stream, lines)
    {
      assert lines[i..][1..] == lines[i + 1..];
      longer := longer + [JobEvent(name, LineUpdate(jobID, lines[i], stream))];
    }
  }

  /** The appending stages of buildJobEvents, on outputs split into lines. */
  method AppendStages(jobID: string, status: JobStatus, out: seq<string>, err: seq<string>, exitCode: int,
                      error: string)
    returns (events: seq<JobEvent>)
    ensures events == EventList(jobID, status, out, err, exitCode, error)
  {
    events := [JobEvent(Status, StatusUpdate(jobID, Accepted))];
    if status != Accepted {
      events := events + [JobEvent(Status, StatusUpdate(jobID, status))];
    }
    assert events == OpeningEvents(jobID, status);
    events := AppendLineEvents(events, jobID, Out, Stdout, out);
    events := AppendLineEvents(events, jobID, Err, Stderr, err);
    if IsTerminal(status) {
      var name := Done;
      if status != Completed { name := Broken; }
      events := events + [JobEvent(name, EndUpdate(jobID, exitCode, error))];
    }
  }

  /** buildJobEvents as the code runs it: one slice, appended to stage by stage. */
  method BuildJobEvents(jobID: string, r: JobResult) returns (events: seq<JobEvent>)
    ensures events == JobEventsOf(jobID, r)
    ensures EndsAs(events, r.status, EndUpdate(jobID, r.exitCode, r.error))
  {
    EventsCarryStatusAndEnd(jobID, r);
    events := AppendStages(jobID, r.status, SplitLines(r.stdout), SplitLines(r.stderr), r.exitCode, r.error);
  }

  // ---------------------------------------------------------------- the list carries the record

  /** The lines a listener collects for one stream. */
  function LinesOf(stream: Stream, events: seq<JobEvent>): seq<string> {
    if events == [] then []
    else (if events[0].data.LineUpdate? && events[0].data.stream == stream then [events[0].data.line] else [])
         + LinesOf(stream, events[1..])
  }

  /** Where an event name stands in the order status, stdout, stderr, end. */
  function Rank(name: EventName): nat {
    match name
    case Status => 0
    case Out => 1
    case Err => 2
    case Done => 3
    case Broken => 3
  }

  lemma {:induction false} LinesOfAppend(stream: Stream, a: seq<JobEvent>, b: seq<JobEvent>)
    ensures LinesOf(stream, a + b) == LinesOf(stream, a) + LinesOf(stream, b)
  {
    if a == [] {
      assert a + b == b;
    } else {
      assert (a + b)[1..] == a[1..] + b;
      LinesOfAppend(stream, a[1..], b);
    }
  }

  lemma {:induction false} LineEventsShape(jobID: string, name: EventName, stream: Stream, lines: seq<string>)
    ensures var ev := LineEvents(jobID, name, stream, lines);
            && |ev| == |lines|
            && (forall i :: 0 <= i < |lines| ==> ev[i] == JobEvent(name, LineUpdate(jobID, lines[i], stream)))
            && LinesOf(stream, ev) == lines
  {
    if lines != [] {
      LineEventsShape(jobID, name, stream, lines[1..]);
      var ev := LineEvents(jobID, name, stream, lines);
      assert ev[1..] == LineEvents(jobID, name, stream, lines[1..]);
    }
  }

  lemma {:induction false} NoLinesOf(stream: Stream, events: seq<JobEvent>)
    requires forall e :: e in events ==> !(e.data.LineUpdate? && e.data.stream == stream)
    ensures LinesOf(stream, events) == []
  {
    if events != [] {
      assert events[0] in events;
      NoLinesOf(stream, events[1..]);
    }
  }

  lemma LinesOfFour(stream: Stream, a: seq<JobEvent>, o: seq<JobEvent>, e: seq<JobEvent>, c: seq<JobEvent>)
    ensures LinesOf(stream, a + o + e + c)
         == LinesOf(stream, a) + LinesOf(stream, o) + LinesOf(stream, e) + LinesOf(stream, c)
  {
    LinesOfAppend(stream, a + o + e, c);
    LinesOfAppend(stream, a + o, e);
    LinesOfAppend(stream, a, o);
  }

  lemma NoLinesOfOther(jobID: string, name: EventName, stream: Stream, lines: seq<string>, other: Stream)
    requires other != stream
    ensures LinesOf(other, LineEvents(jobID, name, stream, lines)) == []
  {
    LineEventsShape(jobID, name, stream, lines);
    NoLinesOf(other, LineEvents(jobID, name, stream, lines));
  }

  lemma ListCarriesOutput(jobID: string, status: JobStatus, out: seq<string>, err: seq<string>, exitCode: int,
                          error: string, stream: Stream)
    ensures LinesOf(stream, EventList(jobID, status, out, err, exitCode, error))
         == if stream == Stdout then out else err
  {
    var a := OpeningEvents(jobID, status);
    var c := ClosingEvents(jobID, status, exitCode, error);
    LinesOfFour(stream, a, LineEvents(jobID, Out, Stdout, out), LineEvents(jobID, Err, Stderr, err), c);
    NoLinesAround(jobID, status, exitCode, error, stream);
    LinesOfEvents(jobID, Out, Stdout, out, stream);
    LinesOfEvents(jobID, Err, Stderr, err, stream);
  }

  lemma NoLinesAround(jobID: string, status: JobStatus, exitCode: int, error: string, stream: Stream)
    ensures LinesOf(stream, OpeningEvents(jobID, status)) == []
    ensures LinesOf(stream, ClosingEvents(jobID, status, exitCode, error)) == []
  {
    NoLinesOf(stream, OpeningEvents(jobID, status));
    NoLinesOf(stream, ClosingEvents(jobID, status, exitCode, error));
  }

  lemma LinesOfEvents(jobID: string, name: EventName, stream: Stream, lines: seq<string>, collected: Stream)
    ensures LinesOf(collected, LineEvents(jobID, name, stream, lines)) == if collected == stream then lines else []
  {
    if collected == stream {
      LineEventsShape(jobID, name, stream, lines);
    } else {
      NoLinesOfOther(jobID, name, stream, lines, collected);
    }
  }

  /** A listener that only collects lines per stream gets back both outputs, line for line. */
  lemma EventsCarryOutput(jobID: string, r: JobResult)
    ensures LinesOf(Stdout, JobEventsOf(jobID, r)) == SplitLines(r.stdout)
    ensures LinesOf(Stderr, JobEventsOf(jobID, r)) == SplitLines(r.stderr)
  {
    ListCarriesOutput(jobID, r.status, SplitLines(r.stdout), SplitLines(r.stderr), r.exitCode, r.error, Stdout);
    ListCarriesOutput(jobID, r.status, SplitLines(r.stdout), SplitLines(r.stderr), r.exitCode, r.error, Stderr);
  }

  predicate InRankOrder(ev: seq<JobEvent>) {
    forall i, j :: 0 <= i < j < |ev| ==> Rank(ev[i].name) <= Rank(ev[j].name)
  }

  predicate WellLabelled(jobID: string, e: JobEvent) {
    && e.data.jobID == jobID
    && (e.data.StatusUpdate? ==> e.name == Status)
    && (e.data.LineUpdate? ==> e.name == (if e.data.stream.Stdout? then Out else Err))
    && (e.data.EndUpdate? ==> e.name == Done || e.name == Broken)
  }

  predicate AllWellLabelled(jobID: string, ev: seq<JobEvent>) {
    forall i :: 0 <= i < |ev| ==> WellLabelled(jobID, ev[i])
  }

  lemma StagesAppend(jobID: string, a: seq<JobEvent>, b: seq<JobEvent>, rank: nat)
    requires InRankOrder(a) && AllWellLabelled(jobID, a) && AllWellLabelled(jobID, b)
    requires forall i :: 0 <= i < |a| ==> Rank(a[i].name) <= rank
    requires forall i :: 0 <= i < |b| ==> Rank(b[i].name) == rank
    ensures InRankOrder(a + b) && AllWellLabelled(jobID, a + b)
    ensures forall i :: 0 <= i < |a + b| ==> Rank((a + b)[i].name) <= rank
  {
  }

  lemma ListOrderAndLabels(jobID: string, status: JobStatus, out: seq<string>, err: seq<string>, exitCode: int,
                           error: string)
    ensures InRankOrder(EventList(jobID, status, out, err, exitCode, error))
    ensures AllWellLabelled(jobID, EventList(jobID, status, out, err, exitCode, error))
  {
    var a := OpeningEvents(jobID, status);
    var o := LineEvents(jobID, Out, Stdout, out);
    var e := LineEvents(jobID, Err, Stderr, err);
    LineEventsShape(jobID, Out, Stdout, out);
    LineEventsShape(jobID, Err, Stderr, err);
    StagesAppend(jobID, a, o, 1);
    StagesAppend(jobID, a + o, e, 2);
    StagesAppend(jobID, a + o + e, ClosingEvents(jobID, status, exitCode, error), 3);
  }

  /**
   Status, stdout, stderr, end: the stages never interleave. Every event names its job, and its event
   name agrees with what it carries.
   */
  lemma EventsInOrderAndLabelled(jobID: string, r: JobResult)
    ensures InRankOrder(JobEventsOf(jobID, r)) && AllWellLabelled(jobID, JobEventsOf(jobID, r))
  {
    ListOrderAndLabels(jobID, r.status, SplitLines(r.stdout), SplitLines(r.stderr), r.exitCode, r.error);
  }

  /** How many events a record has: acceptance, a later status, the lines, and the end of a job that ended. */
  function Count(status: JobStatus, lines: nat): nat {
    match status
    case Accepted => 1 + lines
    case Completed | Failed | Cancelled => 3 + lines
    case OtherStatus(_) => 2 + lines
  }

  /** The list ends as the status has it: completed, failed (of a cancelled job too), or not at all. */
  ghost predicate EndsAs(ev: seq<JobEvent>, status: JobStatus, end: Update) {
    && ev != []
    && match status
       case Completed => ev[|ev| - 1] == JobEvent(Done, end)
       case Failed => ev[|ev| - 1] == JobEvent(Broken, end)
       case Cancelled => ev[|ev| - 1] == JobEvent(Broken, end)
       case Accepted => forall e :: e in ev ==> !e.data.EndUpdate?
       case OtherStatus(_) => forall e :: e in ev ==> !e.data.EndUpdate?
  }

  lemma ListCarriesStatusAndEnd(jobID: string, status: JobStatus, out: seq<string>, err: seq<string>, exitCode: int,
                                error: string)
    ensures var ev := EventList(jobID, status, out, err, exitCode, error);
            && |ev| == Count(status, |out| + |err|)
            && ev[0] == JobEvent(Status, StatusUpdate(jobID, Accepted))
            && (status != Accepted ==> ev[1] == JobEvent(Status, StatusUpdate(jobID, status)))
            && EndsAs(ev, status, EndUpdate(jobID, exitCode, error))
            && forall i :: 0 <= i < |ev| - 1 ==> !ev[i].data.EndUpdate?
  {
    var a := OpeningEvents(jobID, status);
    var c := ClosingEvents(jobID, status, exitCode, error);
    var o := LineEvents(jobID, Out, Stdout, out);
    var e := LineEvents(jobID, Err, Stderr, err);
    LineEventsShape(jobID, Out, Stdout, out);
    LineEventsShape(jobID, Err, Stderr, err);
    var ao := a + o;
    assert ao[0] == a[0] && (|a| == 2 ==> ao[1] == a[1]);
    assert forall i :: 0 <= i < |ao| ==> !ao[i].data.EndUpdate?;
    var before := ao + e;
    assert before[0] == a[0] && (|a| == 2 ==> before[1] == a[1]);
    assert forall i :: 0 <= i < |before| ==> !before[i].data.EndUpdate?;
    if !IsTerminal(status) {
      assert before + c == before;
    }
  }

  /**
   The first event announces acceptance and the next one any later status. The last event of a completed,
   failed or cancelled job closes it with the exit code and error, as completed or as failed; no other event
   closes a job.
   */
  lemma EventsCarryStatusAndEnd(jobID: string, r: JobResult)
    ensures var ev := JobEventsOf(jobID, r);
            && |ev| == Count(r.status, |SplitLines(r.stdout)| + |SplitLines(r.stderr)|)
            && ev[0] == JobEvent(Status, StatusUpdate(jobID, Accepted))
            && (r.status != Accepted ==> ev[1] == JobEvent(Status, StatusUpdate(jobID, r.status)))
            && EndsAs(ev, r.status, EndUpdate(jobID, r.exitCode, r.error))
            && forall i :: 0 <= i < |ev| - 1 ==> !ev[i].data.EndUpdate?
  {
    ListCarriesStatusAndEnd(jobID, r.status, SplitLines(r.stdout), SplitLines(r.stderr), r.exitCode, r.error);
  }

  /** The documented event names, by what the events carry. */
  lemma EventsNamedAsDocumented(jobID: string, r: JobResult, i: nat)
    requires i < |JobEventsOf(jobID, r)|
    ensures var e := JobEventsOf(jobID, r)[i];
            NameText(e.name) ==
            match e.data
            case StatusUpdate(_, _) => "job.status"
            case LineUpdate(_, _, stream) => if stream == Stdout then "job.stdout" else "job.stderr"
            case EndUpdate(_, _, _) => if r.status == Completed then "job.completed" else "job.failed"
  {
    var ev := JobEventsOf(jobID, r);
    EventsInOrderAndLabelled(jobID, r);
    EndNamed(jobID, r, i);
    NamedAsDocumented(jobID, ev[i], r.status == Completed);
  }

  lemma EndNamed(jobID: string, r: JobResult, i: nat)
    requires i < |JobEventsOf(jobID, r)|
    ensures var e := JobEventsOf(jobID, r)[i];
            e.data.EndUpdate? ==> (e.name == Done <==> r.status == Completed)
  {
    EventsCarryStatusAndEnd(jobID, r);
    assert JobEventsOf(jobID, r)[i] in JobEventsOf(jobID, r);
  }

  lemma NamedAsDocumented(jobID: string, e: JobEvent, completed: bool)
    requires WellLabelled(jobID, e) && (e.data.EndUpdate? ==> (e.name == Done <==> completed))
    ensures NameText(e.name) ==
            match e.data
            case StatusUpdate(_, _) => "job.status"
            case LineUpdate(_, _, stream) => if stream == Stdout then "job.stdout" else "job.stderr"
            case EndUpdate(_, _, _) => if completed then "job.completed" else "job.failed"
  {
  }

  /** The list of a record that has only been accepted begins the list of every later record. */
  lemma AcceptedIsPrefix(jobID: string, r: JobResult)
    ensures JobEventsOf(jobID, JobResult(Accepted, 0, "", "", "")) <= JobEventsOf(jobID, r)
  {
    assert UnixNewlines("") == "" && SplitLines("") == [];
    var a := EventList(jobID, Accepted, [], [], 0, "");
    assert a == [JobEvent(Status, StatusUpdate(jobID, Accepted))];
    EventsCarryStatusAndEnd(jobID, r);
  }

  // ---------------------------------------------------------------- line endings

  function Eol(crlf: bool): string { if crlf then ['\r', '\n'] else ['\n'] }

  /**
   Lines each ended by CR LF or by LF alone, as `crlf` says, and then `last`, which is not ended. Every text is
   one.
   */
  function Written(lines: seq<string>, crlf: seq<bool>, last: string): string
    requires |lines| == |crlf|
  {
    if lines == [] then last
    else lines[0] + (Eol(crlf[0]) + Written(lines[1..], crlf[1..], last))
  }

  predicate EndsInCR(line: string) { line != "" && line[|line| - 1] == '\r' }

  /** A carriage return before a bare LF reads as part of the line ending. */
  function Kept(line: string, crlf: bool): string {
    if !crlf && EndsInCR(line) then line[..|line| - 1] else line
  }

  function AllKept(lines: seq<string>, crlf: seq<bool>): (kept: seq<string>)
    requires |lines| == |crlf|
    ensures |kept| == |lines|
  {
    if lines == [] then [] else [Kept(lines[0], crlf[0])] + AllKept(lines[1..], crlf[1..])
  }

  lemma {:induction false} KeptAll(lines: seq<string>, crlf: seq<bool>)
    requires |lines| == |crlf|
    ensures forall i :: 0 <= i < |lines| ==> AllKept(lines, crlf)[i] == Kept(lines[i], crlf[i])
  {
    if lines != [] {
      KeptAll(lines[1..], crlf[1..]);
    }
  }

  lemma UnixNewlinesSkip(c: char, s: string)
    requires c != '\r' || s == "" || s[0] != '\n'
    ensures UnixNewlines([c] + s) == [c] + UnixNewlines(s)
  {
    assert ([c] + s)[1..] == s;
  }

  lemma UnixNewlinesEol(crlf: bool, rest: string)
    ensures UnixNewlines(Eol(crlf) + rest) == ['\n'] + UnixNewlines(rest)
  {
    var s := Eol(crlf) + rest;
    assert s[|Eol(crlf)|..] == rest;
  }

  lemma KeptStep(line: string, crlf: bool)
    requires line != "" && !(line == ['\r'] && !crlf)
    ensures Kept(line, crlf) == [line[0]] + Kept(line[1..], crlf)
  {
    assert line == [line[0]] + line[1..];
  }

  lemma {:induction false} UnixNewlinesLine(line: string, crlf: bool, rest: string)
    requires '\n' !in line
    ensures UnixNewlines(line + (Eol(crlf) + rest)) == Kept(line, crlf) + (['\n'] + UnixNewlines(rest))
  {
    if line == "" {
      assert line + (Eol(crlf) + rest) == Eol(crlf) + rest;
      UnixNewlinesEol(crlf, rest);
    } else if line == ['\r'] && !crlf {
      UnixNewlinesEol(true, rest);
      assert line + (Eol(crlf) + rest) == Eol(true) + rest;
    } else {
      var tail := line[1..] + (Eol(crlf) + rest);
      assert tail[0] == if |line| > 1 then line[1] else Eol(crlf)[0];
      assert |line| > 1 ==> line[1] in line;
      assert line == [line[0]] + line[1..];
      PrependAssociates(line[0], line[1..], Eol(crlf) + rest);
      UnixNewlinesSkip(line[0], tail);
      UnixNewlinesLine(line[1..], crlf, rest);
      KeptStep(line, crlf);
      PrependAssociates(line[0], Kept(line[1..], crlf), ['\n'] + UnixNewlines(rest));
    }
  }

  lemma {:induction false} UnixNewlinesNone(s: string)
    requires '\n' !in s
    ensures UnixNewlines(s) == s
  {
    if s != "" {
      assert |s| > 1 ==> s[1] in s;
      assert s == [s[0]] + s[1..];
      UnixNewlinesNone(s[1..]);
    }
  }

  predicate NoNewlines(lines: seq<string>) { forall l :: l in lines ==> '\n' !in l }

  lemma Regroup(a: string, b: string, c: string)
    ensures a + (b + c) == a + b + c
  {
  }

  lemma {:induction false} UnixNewlinesWritten(lines: seq<string>, crlf: seq<bool>, last: string)
    requires |lines| == |crlf| && NoNewlines(lines) && '\n' !in last
    ensures UnixNewlines(Written(lines, crlf, last)) == Join(AllKept(lines, crlf) + [last], '\n')
  {
    if lines == [] {
      UnixNewlinesNone(last);
      assert [] + [last] == [last];
    } else {
      assert lines[0] in lines && forall l :: l in lines[1..] ==> l in lines;
      UnixNewlinesLine(lines[0], crlf[0], Written(lines[1..], crlf[1..], last));
      UnixNewlinesWritten(lines[1..], crlf[1..], last);
      var kept := AllKept(lines[1..], crlf[1..]);
      PrependAssociates(Kept(lines[0], crlf[0]), kept, [last]);
      JoinCons(Kept(lines[0], crlf[0]), kept + [last], '\n');
      Regroup(Kept(lines[0], crlf[0]), ['\n'], Join(kept + [last], '\n'));
    }
  }

  lemma {:induction false} JoinEmptyLast(lines: seq<string>)
    requires lines != []
    ensures Join(lines + [""], '\n') == Join(lines, '\n') + "\n"
  {
    if |lines| == 1 {
      assert (lines + [""])[1..] == [""];
      assert Join(lines + [""], '\n') == lines[0] + ['\n'] + "";
    } else {
      assert (lines + [""])[1..] == lines[1..] + [""];
      JoinEmptyLast(lines[1..]);
      assert lines[0] + ['\n'] + (Join(lines[1..], '\n') + "\n") == lines[0] + ['\n'] + Join(lines[1..], '\n') + "\n";
    }
  }

  lemma {:induction false} JoinEndsInLast(lines: seq<string>, last: string)
    requires last != ""
    ensures var t := Join(lines + [last], '\n'); t != "" && t[|t| - 1] == last[|last| - 1]
  {
    if lines == [] {
      assert [] + [last] == [last];
    } else {
      assert (lines + [last])[1..] == lines[1..] + [last];
      JoinEndsInLast(lines[1..], last);
    }
  }

  /** What splitting makes of any text: its lines as kept, and nothing at all of one blank line. */
  lemma SplitLinesOfWritten(lines: seq<string>, crlf: seq<bool>, last: string)
    requires |lines| == |crlf| && NoNewlines(lines) && '\n' !in last
    ensures var kept := AllKept(lines, crlf);
            SplitLines(Written(lines, crlf, last)) ==
            if last != "" then kept + [last] else if kept == [""] then [] else kept
  {
    var kept := AllKept(lines, crlf);
    KeptHasNoNewlines(lines, crlf);
    UnixNewlinesWritten(lines, crlf, last);
    var t := Join(kept + [last], '\n');
    if last != "" {
      JoinEndsInLast(kept, last);
      assert last[|last| - 1] in last;
      assert !HasSuffix(t, "\n") by { assert t[|t| - 1..] == [t[|t| - 1]]; }
      SplitJoin(kept + [last], '\n');
    } else if kept != [] {
      JoinEmptyLast(kept);
      assert TrimSuffix(Join(kept, '\n') + "\n", "\n") == Join(kept, '\n');
      SplitJoin(kept, '\n');
      if Join(kept, '\n') == "" {
        assert Split("", '\n') == [""];
      }
    } else {
      assert [] + [""] == [""];
    }
  }

  lemma KeptHasNoNewlines(lines: seq<string>, crlf: seq<bool>)
    requires |lines| == |crlf| && NoNewlines(lines)
    ensures NoNewlines(AllKept(lines, crlf))
  {
    KeptAll(lines, crlf);
    forall l | l in AllKept(lines, crlf) ensures '\n' !in l {
      var i :| 0 <= i < |lines| && AllKept(lines, crlf)[i] == l;
      assert lines[i] in lines;
      assert forall c :: c in l ==> c in lines[i];
    }
  }

  /**
   Exactly when splitting gives back the lines of a text, whichever endings were used, carriage returns
   inside them or not, and with the last line ended or not: when no line before a bare LF ends in a
   carriage return, and the text is not one blank line.
   */
  lemma SplitLinesInvertsIff(lines: seq<string>, crlf: seq<bool>, last: string)
    requires |lines| == |crlf| && NoNewlines(lines) && '\n' !in last
    ensures SplitLines(Written(lines, crlf, last)) == lines + (if last == "" then [] else [last])
       <==> (forall i :: 0 <= i < |lines| && !crlf[i] ==> !EndsInCR(lines[i])) && !(lines == [""] && last == "")
  {
    var kept := AllKept(lines, crlf);
    SplitLinesOfWritten(lines, crlf, last);
    KeptAll(lines, crlf);
    assert kept == lines <==> forall i :: 0 <= i < |lines| && !crlf[i] ==> !EndsInCR(lines[i]) by {
      if kept == lines {
        forall i | 0 <= i < |lines| && !crlf[i] ensures !EndsInCR(lines[i]) {
          assert |kept[i]| == |lines[i]|;
        }
      }
    }
    if last != "" {
      assert (kept + [last])[..|kept|] == kept && (lines + [last])[..|lines|] == lines;
    } else {
      assert lines + [] == lines;
    }
  }

  lemma CutLine(text: string, i: nat) returns (line: string, cr: bool)
    requires i < |text| && text[i] == '\n' && '\n' !in text[..i]
    ensures '\n' !in line && text == line + (Eol(cr) + text[i + 1..]) && (!cr ==> !EndsInCR(line))
  {
    var full := text[..i];
    cr := EndsInCR(full);
    line := if cr then full[..i - 1] else full;
    assert forall c :: c in line ==> c in full;
    assert text == full + (['\n'] + text[i + 1..]);
    if cr {
      assert full == line + ['\r'];
    }
  }

  /** Every text is lines and a rest, with no CR left before a bare LF. */
  lemma {:induction false} EveryTextIsWritten(text: string) returns (lines: seq<string>, crlf: seq<bool>, last: string)
    ensures |lines| == |crlf| && NoNewlines(lines) && '\n' !in last && text == Written(lines, crlf, last)
    ensures forall i :: 0 <= i < |lines| && !crlf[i] ==> !EndsInCR(lines[i])
    decreases |text|
  {
    var i := IndexOf(text, '\n');
    if i == |text| {
      lines, crlf, last := [], [], text;
    } else {
      var ls, cs, l := EveryTextIsWritten(text[i + 1..]);
      var line, cr := CutLine(text, i);
      lines, crlf, last := [line] + ls, [cr] + cs, l;
      assert lines[1..] == ls && crlf[1..] == cs;
    }
  }

  /** So for any text at all, read with its own line endings, only one blank line alone is lost. */
  lemma EveryTextSplits(text: string) returns (lines: seq<string>, crlf: seq<bool>, last: string)
    ensures |lines| == |crlf| && NoNewlines(lines) && '\n' !in last && text == Written(lines, crlf, last)
    ensures SplitLines(text) == lines + (if last == "" then [] else [last]) <==> !(lines == [""] && last == "")
  {
    lines, crlf, last := EveryTextIsWritten(text);
    SplitLinesInvertsIff(lines, crlf, last);
  }
}
