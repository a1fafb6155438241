/**
 Container log lines put back together from the chunks Docker delivers: internal/docker/streams.go.
 `parse` stands for time.Parse with RFC 3339.
 */
module LogLines {
  import opened Text
  import opened Wrappers

  /** What one writer was made with. */
  datatype Config = Config(containerID: string, stream: string, timestamps: bool, parse: string -> Option<int>)

  /** `ts` is None for the zero time. */
  datatype LogLine = LogLine(containerID: string, stream: string, ts: Option<int>, line: string)

  datatype Stamped = Stamped(ts: Option<int>, line: string)

  function ParseTimestampedLine(cfg: Config, line: string): Stamped {
    var i := IndexOf(line, ' ');
    if !cfg.timestamps || i == |line| || i == 0 then Stamped(None, line)
    else
      match cfg.parse(line[..i])
      case None => Stamped(None, line)
      case Some(ts) => Stamped(Some(ts), TrimPrefix(line[i + 1..], " "))
  }

  /** A stamp, a space and a text come back as they were exactly when the text does not itself start with a space. */
  lemma StampedTextKeptIff(cfg: Config, stamp: string, text: string)
    requires cfg.timestamps && stamp != "" && ' ' !in stamp && cfg.parse(stamp).Some?
    ensures ParseTimestampedLine(cfg, stamp + [' '] + text) == Stamped(cfg.parse(stamp), text)
            <==> !HasPrefix(text, " ")
  {
    FirstIndex(stamp, text, ' ');
    var line := stamp + [' '] + text;
    assert line[..|stamp|] == stamp && line[|stamp| + 1..] == text;
    assert HasPrefix(text, " ") ==> |TrimPrefix(text, " ")| == |text| - 1;
  }

  function LineOf(cfg: Config, text: string): LogLine {
    var stamped := ParseTimestampedLine(cfg, text);
    LogLine(cfg.containerID, cfg.stream, stamped.ts, stamped.line)
  }

  /** Without timestamps, or with nothing before a first space, a line is its text, under its container and stream. */
  lemma PlainLineIs(cfg: Config, text: string)
    requires !cfg.timestamps || ' ' !in text || text[0] == ' '
    ensures LineOf(cfg, text) == LogLine(cfg.containerID, cfg.stream, None, text)
  {
  }

  /** What stands before the first space is the time if it parses, and part of the text if it does not. */
  lemma StampedLineIs(cfg: Config, stamp: string, text: string)
    requires cfg.timestamps && stamp != "" && ' ' !in stamp
    ensures var l := LineOf(cfg, stamp + [' '] + text);
            && l.containerID == cfg.containerID && l.stream == cfg.stream && l.ts == cfg.parse(stamp)
            && if cfg.parse(stamp).None? then l.line == stamp + [' '] + text
               else text == [' '] + l.line || (text == l.line && (text == "" || text[0] != ' '))
  {
    FirstIndex(stamp, text, ' ');
    var line := stamp + [' '] + text;
    assert line[..|stamp|] == stamp && line[|stamp| + 1..] == text;
    TrimPrefixIff(text, " ", TrimPrefix(text, " "));
    assert text != "" && text[0] == ' ' ==> text == " " + text[1..];
  }

  function Lines(cfg: Config, texts: seq<string>): (r: seq<LogLine>)
    ensures |r| == |texts|
  {
    seq(|texts|, i requires 0 <= i < |texts| => LineOf(cfg, texts[i]))
  }

  // ---------------------------------------------------------------- lines of a text

  /** The lines of a text that end in a newline, and what follows the last newline. */
  function Whole(s: string): seq<string> {
    var parts := Split(s, '\n');
    parts[..|parts| - 1]
  }

  function Tail(s: string): string { LastPart(s, '\n') }

  /** Every line of a text: an empty last piece is no line. */
  function AllLines(s: string): seq<string> {
    Whole(s) + if Tail(s) == "" then [] else [Tail(s)]
  }

  /** Each line with its newline: the bytes that the lines account for. */
  function Terminated(lines: seq<string>): string {
    if lines == [] then "" else lines[0] + ['\n'] + Terminated(lines[1..])
  }

  /** The first newline cuts off the first whole line. */
  lemma WholeStep(s: string, i: nat)
    requires i == IndexOf(s, '\n') < |s|
    ensures Whole(s) == [s[..i]] + Whole(s[i + 1..]) && Tail(s) == Tail(s[i + 1..])
  {
    SplitAt(s, i, '\n');
    FirstAndRest(s[..i], Split(s[i + 1..], '\n'));
  }

  lemma NoWholeLine(s: string)
    requires '\n' !in s
    ensures Whole(s) == [] && Tail(s) == s
  {
    assert Split(s, '\n') == [s];
  }

  /** No byte is lost or added: the whole lines and the tail are the text. */
  lemma {:induction false} LinesConserve(s: string)
    ensures Terminated(Whole(s)) + Tail(s) == s
    ensures '\n' !in Tail(s)
    decreases |s|
  {
    if '\n' !in s {
      NoWholeLine(s);
    } else {
      var i := IndexOf(s, '\n');
      WholeStep(s, i);
      var rest := s[i + 1..];
      LinesConserve(rest);
      CutAt(s, i);
      TerminatedCons(s[..i], Whole(rest), Tail(rest));
    }
  }

  lemma TerminatedCons(line: string, rest: seq<string>, tail: string)
    ensures Terminated([line] + rest) + tail == line + ['\n'] + (Terminated(rest) + tail)
  {
    assert ([line] + rest)[1..] == rest;
  }

  /** More text after a text adds lines after its whole lines; the tail runs on. */
  lemma WholeAppend(a: string, b: string)
    ensures Whole(a + b) == Whole(a) + Whole(Tail(a) + b)
    ensures Tail(a + b) == Tail(Tail(a) + b)
  {
    SplitAppend(a, b, '\n');
    var l, r := Split(a, '\n'), Split(Tail(a) + b, '\n');
    var whole := l[..|l| - 1];
    assert (whole + r)[..|whole| + |r| - 1] == whole + r[..|r| - 1];
  }

  function Concat(chunks: seq<string>): string {
    if chunks == [] then "" else Concat(chunks[..|chunks| - 1]) + chunks[|chunks| - 1]
  }

  // ---------------------------------------------------------------- the writer

  /** The first n of a list of lines. */
  function Cut<T>(lines: seq<T>, n: nat): seq<T> { if |lines| <= n then lines else lines[..n] }

  /** The loop of Write: the lines done so far and those of the buffer are the lines of the text. */
  ghost predicate Drained(text: string, done: seq<string>, buf: string) {
    Whole(text) == done + Whole(buf) && Tail(text) == Tail(buf)
  }

  lemma DrainedStep(text: string, done: seq<string>, buf: string, i: nat)
    requires Drained(text, done, buf) && i == IndexOf(buf, '\n') < |buf|
    ensures && Drained(text, done + [buf[..i]], buf[i + 1..])
            && |Whole(text)| > |done| && Whole(text)[..|done|] == done
            && Whole(text)[|done| + 1..] == Whole(buf[i + 1..])
  {
    WholeStep(buf, i);
    TakeOne(done, buf[..i], Whole(buf[i + 1..]));
  }

  lemma TakeOne(done: seq<string>, x: string, rest: seq<string>)
    ensures var all := done + ([x] + rest);
            all == done + [x] + rest && |all| > |done| && all[..|done|] == done && all[|done| + 1..] == rest
  {
  }

  /** The emit callback the two writers share: what it accepted, and how many more lines it accepts before it fails. */
  class Emitter {
    var emitted: seq<LogLine>
    var room: nat

    constructor (room: nat)
      ensures emitted == [] && this.room == room
    {
      emitted, this.room := [], room;
    }

    method Emit(line: LogLine) returns (ok: bool)
      modifies this
      ensures ok <==> old(room) > 0
      ensures emitted == if ok then old(emitted) + [line] else old(emitted)
      ensures room == if ok then old(room) - 1 else 0
    {
      if room == 0 { return false; }
      emitted := emitted + [line];
      room := room - 1;
      ok := true;
    }
  }

  class Writer {
    const cfg: Config
    const emitter: Emitter
    var buf: string

    constructor (cfg: Config, emitter: Emitter)
      ensures this.cfg == cfg && this.emitter == emitter && buf == ""
    {
      this.cfg, this.emitter, buf := cfg, emitter, "";
    }

    method EmitLine(line: string) returns (ok: bool)
      modifies emitter
      ensures ok <==> old(emitter.room) > 0
      ensures emitter.emitted == if ok then old(emitter.emitted) + [LineOf(cfg, line)] else old(emitter.emitted)
      ensures emitter.room == if ok then old(emitter.room) - 1 else 0
    {
      ok := emitter.Emit(LineOf(cfg, line));
    }

    /**
     Every whole line of the buffered and the new text is emitted and the tail is kept. When the emitter
     fails, the line it refused is gone, later text stays in the buffer, and no bytes count as written.
     */
    method Write(p: string) returns (n: nat, ok: bool)
      modifies this, emitter
      ensures ok <==> |Whole(old(buf) + p)| <= old(emitter.room)
      ensures emitter.emitted == old(emitter.emitted) + Lines(cfg, Cut(Whole(old(buf) + p), old(emitter.room)))
      ensures ok ==> n == |p| && buf == Tail(old(buf) + p) && emitter.room == old(emitter.room) - |Whole(old(buf) + p)|
      ensures !ok ==> n == 0 && emitter.room == 0
      ensures !ok ==> Whole(old(buf) + p)[old(emitter.room) + 1..] == Whole(buf) && Tail(buf) == Tail(old(buf) + p)
    {
      ghost var text, before := buf + p, emitter.emitted;
      ghost var done: seq<string> := [];
      buf := buf + p;
      while '\n' in buf
        invariant Drained(text, done, buf)
        invariant emitter.emitted == before + Lines(cfg, done) && emitter.room == old(emitter.room) - |done|
        decreases |buf|
      {
        var idx := IndexOf(buf, '\n');
        DrainedStep(text, done, buf, idx);
        var line := buf[..idx];
        var rest := buf[idx + 1..];
        buf := rest;
        assert Lines(cfg, done + [line]) == Lines(cfg, done) + [LineOf(cfg, line)];
        var emittedOk := EmitLine(line);
        if !emittedOk {
          return 0, false;
        }
        done := done + [line];
      }
      NoWholeLine(buf);
      return |p|, true;
    }

    method Flush() returns (ok: bool)
      modifies this, emitter
      ensures buf == ""
      ensures ok <==> old(buf) == "" || old(emitter.room) > 0
      ensures emitter.emitted == old(emitter.emitted) + if old(buf) == "" || !ok then [] else [LineOf(cfg, old(buf))]
      ensures |emitter.emitted| + emitter.room == old(|emitter.emitted| + emitter.room)
    {
      if buf == "" { return true; }
      var line := buf;
      buf := "";
      ok := EmitLine(line);
    }
  }

  lemma LinesConcat(cfg: Config, a: seq<string>, b: seq<string>)
    ensures Lines(cfg, a + b) == Lines(cfg, a) + Lines(cfg, b)
  {
  }

  lemma CutConcat(a: seq<string>, b: seq<string>, n: nat)
    requires |a| <= n
    ensures Cut(a + b, n) == a + Cut(b, n - |a|)
  {
  }

  lemma {:induction false} ConcatInParts(chunks: seq<string>, i: nat) returns (rest: string)
    requires i <= |chunks|
    ensures Concat(chunks) == Concat(chunks[..i]) + rest
    decreases |chunks|
  {
    if i == |chunks| {
      rest := "";
      assert chunks[..i] == chunks;
    } else {
      var m := |chunks| - 1;
      rest := ConcatInParts(chunks[..m], i);
      assert chunks[..m][..i] == chunks[..i];
      assert Concat(chunks[..i]) + rest + chunks[m] == Concat(chunks[..i]) + (rest + chunks[m]);
      rest := rest + chunks[m];
    }
  }

  /** Lines already whole stay as they are, whatever follows. */
  lemma WholeStaysWhole(a: string, b: string, n: nat)
    requires |Whole(a)| > n
    ensures |AllLines(a + b)| > n && Cut(AllLines(a + b), n) == Cut(Whole(a), n)
  {
    WholeAppend(a, b);
  }

  /** Where the copy loop stands: everything whole so far is out, the rest is buffered. */
  ghost predicate Copied(w: Writer, room: nat, text: string)
    reads w, w.emitter
  {
    && |Whole(text)| + w.emitter.room == room
    && w.buf == Tail(text) && w.emitter.emitted == Lines(w.cfg, Whole(text))
  }

  method WriteChunk(w: Writer, room: nat, ghost text: string, chunk: string) returns (ok: bool)
    requires Copied(w, room, text)
    modifies w, w.emitter
    ensures ok ==> Copied(w, room, text + chunk)
    ensures !ok ==> |Whole(text + chunk)| > room && w.emitter.emitted == Lines(w.cfg, Cut(Whole(text + chunk), room))
  {
    var n;
    WholeAppend(text, chunk);
    ghost var added := Whole(Tail(text) + chunk);
    n, ok := w.Write(chunk);
    CutConcat(Whole(text), added, room);
    LinesConcat(w.cfg, Whole(text), Cut(added, room - |Whole(text)|));
  }

  /**
   A stream copied chunk by chunk and flushed: the lines depend on the bytes alone, not on where they
   were cut. When the emitter fails after `room` lines, exactly the first `room` lines arrived.
   */
  method FollowStream(cfg: Config, room: nat, chunks: seq<string>) returns (emitted: seq<LogLine>, ok: bool)
    ensures emitted == Lines(cfg, Cut(AllLines(Concat(chunks)), room))
    ensures ok <==> |AllLines(Concat(chunks))| <= room
  {
    var emitter := new Emitter(room);
    var w := new Writer(cfg, emitter);
    NoWholeLine("");
    for i := 0 to |chunks|
      invariant fresh(w) && fresh(w.emitter) && w.cfg == cfg && w.emitter == emitter
      invariant Copied(w, room, Concat(chunks[..i]))
    {
      assert chunks[..i + 1][..i] == chunks[..i];
      ok := WriteChunk(w, room, Concat(chunks[..i]), chunks[i]);
      if !ok {
        ghost var rest := ConcatInParts(chunks, i + 1);
        WholeStaysWhole(Concat(chunks[..i + 1]), rest, room);
        return emitter.emitted, false;
      }
    }
    assert chunks[..|chunks|] == chunks;
    ghost var whole, tail := Whole(Concat(chunks)), w.buf;
    CutConcat(whole, if tail == "" then [] else [tail], room);
    LinesConcat(cfg, whole, if tail == "" || emitter.room == 0 then [] else [tail]);
    assert Lines(cfg, [tail]) == [LineOf(cfg, tail)];
    ok := w.Flush();
    emitted := emitter.emitted;
  }

  // ---------------------------------------------------------------- both streams

  /** One piece of Docker's multiplexed output. */
  datatype Frame = Frame(stderr: bool, text: string)

  /** What one stream of the output carries. */
  function TextOf(frames: seq<Frame>, stderr: bool): string {
    if frames == [] then ""
    else
      var last := frames[|frames| - 1];
      TextOf(frames[..|frames| - 1], stderr) + if last.stderr == stderr then last.text else ""
  }

  /** The lines of one stream, in the order they were emitted. */
  function OfStream(emitted: seq<LogLine>, stream: string): seq<LogLine> {
    if emitted == [] then []
    else
      var last := emitted[|emitted| - 1];
      OfStream(emitted[..|emitted| - 1], stream) + if last.stream == stream then [last] else []
  }

  lemma {:induction false} OfStreamConcat(a: seq<LogLine>, b: seq<LogLine>, stream: string)
    ensures OfStream(a + b, stream) == OfStream(a, stream) + OfStream(b, stream)
    decreases |b|
  {
    if b == [] {
      assert a + b == a;
    } else {
      var m := |b| - 1;
      assert (a + b)[..|a| + m] == a + b[..m];
      OfStreamConcat(a, b[..m], stream);
    }
  }

  lemma LinesLast(cfg: Config, texts: seq<string>)
    requires texts != []
    ensures Lines(cfg, texts)[..|texts| - 1] == Lines(cfg, texts[..|texts| - 1])
    ensures Lines(cfg, texts)[|texts| - 1] == LineOf(cfg, texts[|texts| - 1])
  {
  }

  lemma {:induction false} OfStreamLines(cfg: Config, texts: seq<string>, stream: string)
    ensures OfStream(Lines(cfg, texts), stream) == if stream == cfg.stream then Lines(cfg, texts) else []
    decreases |texts|
  {
    if texts != [] {
      var m := |texts| - 1;
      OfStreamLines(cfg, texts[..m], stream);
      LinesLast(cfg, texts);
    }
  }

  lemma {:induction false} TextOfParts(frames: seq<Frame>, i: nat, stderr: bool) returns (rest: string)
    requires i <= |frames|
    ensures TextOf(frames, stderr) == TextOf(frames[..i], stderr) + rest
    decreases |frames|
  {
    if i == |frames| {
      rest := "";
      assert frames[..i] == frames;
    } else {
      var m := |frames| - 1;
      var before := TextOfParts(frames[..m], i, stderr);
      assert frames[..m][..i] == frames[..i];
      var last := if frames[m].stderr == stderr then frames[m].text else "";
      assert TextOf(frames[..i], stderr) + before + last == TextOf(frames[..i], stderr) + (before + last);
      rest := before + last;
    }
  }

  /** Where a stream stands: its whole lines are out, among those of the other, and its tail is buffered. */
  ghost predicate StreamAt(w: Writer, text: string)
    reads w, w.emitter
  {
    w.buf == Tail(text) && OfStream(w.emitter.emitted, w.cfg.stream) == Lines(w.cfg, Whole(text))
  }

  /** A stream's emitted lines are a beginning of those of its whole text. */
  ghost predicate Begins(cfg: Config, emitted: seq<LogLine>, text: string) {
    OfStream(emitted, cfg.stream) <= Lines(cfg, AllLines(text))
  }

  lemma WholeBegins(cfg: Config, some: seq<string>, text: string, rest: string)
    requires some <= Whole(text)
    ensures Lines(cfg, some) <= Lines(cfg, AllLines(text + rest))
  {
    WholeAppend(text, rest);
    var all := AllLines(text + rest);
    assert some <= all;
    assert all == some + all[|some|..];
    LinesConcat(cfg, some, all[|some|..]);
  }

  /** What a write adds, seen by one stream: its own lines, or nothing of the other's. */
  lemma AddsTo(cfg: Config, before: seq<LogLine>, texts: seq<string>, stream: string)
    ensures OfStream(before + Lines(cfg, texts), stream)
         == OfStream(before, stream) + if stream == cfg.stream then Lines(cfg, texts) else []
  {
    OfStreamConcat(before, Lines(cfg, texts), stream);
    OfStreamLines(cfg, texts, stream);
  }

  /** stdcopy handing one frame to its writer. */
  method WriteFrame(w: Writer, other: Writer, ghost text: string, ghost otherText: string, chunk: string,
                    ghost rest: string)
    returns (ok: bool)
    requires w != other && w.emitter == other.emitter && w.cfg.stream != other.cfg.stream
    requires StreamAt(w, text) && StreamAt(other, otherText)
    modifies w, w.emitter
    ensures |w.emitter.emitted| + w.emitter.room == old(|w.emitter.emitted| + w.emitter.room)
    ensures OfStream(w.emitter.emitted, other.cfg.stream) == Lines(other.cfg, Whole(otherText))
    ensures ok ==> StreamAt(w, text + chunk) && StreamAt(other, otherText)
    ensures !ok ==> w.emitter.room == 0 && Begins(w.cfg, w.emitter.emitted, text + chunk + rest)
  {
    ghost var before, room := w.emitter.emitted, w.emitter.room;
    WholeAppend(text, chunk);
    ghost var added := Cut(Whole(Tail(text) + chunk), room);
    var _, written := w.Write(chunk);
    AddsTo(w.cfg, before, added, w.cfg.stream);
    AddsTo(w.cfg, before, added, other.cfg.stream);
    LinesConcat(w.cfg, Whole(text), added);
    if !written {
      WholeBegins(w.cfg, Whole(text) + added, text + chunk, rest);
    }
    ok := written;
  }

  /** Flushing one writer completes its stream and leaves the other's lines. */
  method FlushStream(w: Writer, other: Config, ghost text: string) returns (ok: bool)
    requires StreamAt(w, text) && w.cfg.stream != other.stream
    modifies w, w.emitter
    ensures |w.emitter.emitted| + w.emitter.room == old(|w.emitter.emitted| + w.emitter.room)
    ensures OfStream(w.emitter.emitted, other.stream) == old(OfStream(w.emitter.emitted, other.stream))
    ensures OfStream(w.emitter.emitted, w.cfg.stream) == Lines(w.cfg, if ok then AllLines(text) else Whole(text))
    ensures !ok ==> w.emitter.room == 0
  {
    ghost var before, tail := w.emitter.emitted, w.buf;
    ok := w.Flush();
    ghost var added := if tail == "" || !ok then [] else [tail];
    assert Lines(w.cfg, added) == if tail == "" || !ok then [] else [LineOf(w.cfg, tail)];
    assert w.emitter.emitted == before + Lines(w.cfg, added);
    AddsTo(w.cfg, before, added, w.cfg.stream);
    AddsTo(w.cfg, before, added, other.stream);
    LinesConcat(w.cfg, Whole(text), added);
    if tail == "" || !ok { assert Whole(text) + [] == Whole(text); }
  }

  lemma AllBegins(cfg: Config, emitted: seq<LogLine>, text: string)
    requires OfStream(emitted, cfg.stream) == Lines(cfg, Whole(text))
    ensures Begins(cfg, emitted, text)
  {
    WholeBegins(cfg, Whole(text), text, "");
    assert text + "" == text;
  }

  /** Where both streams stand once some frames were copied. */
  ghost predicate BothAt(stdout: Writer, stderr: Writer, room: nat, frames: seq<Frame>)
    reads stdout, stderr, stdout.emitter, stderr.emitter
  {
    && stdout != stderr && stdout.emitter == stderr.emitter && stdout.cfg.stream != stderr.cfg.stream
    && |stdout.emitter.emitted| + stdout.emitter.room == room
    && StreamAt(stdout, TextOf(frames, false)) && StreamAt(stderr, TextOf(frames, true))
  }

  /** One turn of the copy loop. A refused line leaves each stream with a beginning of its lines. */
  method CopyFrame(stdout: Writer, stderr: Writer, ghost room: nat, frames: seq<Frame>, i: nat) returns (ok: bool)
    requires i < |frames| && BothAt(stdout, stderr, room, frames[..i])
    modifies stdout, stderr, stdout.emitter
    ensures ok ==> BothAt(stdout, stderr, room, frames[..i + 1])
    ensures !ok ==>
              && |stdout.emitter.emitted| == room
              && Begins(stdout.cfg, stdout.emitter.emitted, TextOf(frames, false))
              && Begins(stderr.cfg, stdout.emitter.emitted, TextOf(frames, true))
  {
    assert frames[..i + 1][..i] == frames[..i];
    ghost var restOut := TextOfParts(frames, i + 1, false);
    ghost var restErr := TextOfParts(frames, i + 1, true);
    ghost var textOut, textErr := TextOf(frames[..i], false), TextOf(frames[..i], true);
    var f := frames[i];
    if f.stderr {
      assert textOut + "" == textOut;
      ok := WriteFrame(stderr, stdout, textErr, textOut, f.text, restErr);
      if !ok { WholeBegins(stdout.cfg, Whole(textOut), textOut, restOut); }
    } else {
      assert textErr + "" == textErr;
      ok := WriteFrame(stdout, stderr, textOut, textErr, f.text, restOut);
      if !ok { WholeBegins(stderr.cfg, Whole(textErr), textErr, restErr); }
    }
  }

  /** Both writers are flushed, stdout first. */
  method FlushBoth(stdout: Writer, stderr: Writer, ghost room: nat, ghost frames: seq<Frame>) returns (ok: bool)
    requires BothAt(stdout, stderr, room, frames)
    modifies stdout, stderr, stdout.emitter
    ensures |stdout.emitter.emitted| <= room && (!ok ==> |stdout.emitter.emitted| == room)
    ensures var emitted, textOut, textErr := stdout.emitter.emitted, TextOf(frames, false), TextOf(frames, true);
            && Begins(stdout.cfg, emitted, textOut) && Begins(stderr.cfg, emitted, textErr)
            && (ok ==> OfStream(emitted, stdout.cfg.stream) == Lines(stdout.cfg, AllLines(textOut)))
            && (ok ==> OfStream(emitted, stderr.cfg.stream) == Lines(stderr.cfg, AllLines(textErr)))
  {
    ghost var textOut, textErr := TextOf(frames, false), TextOf(frames, true);
    ok := FlushStream(stdout, stderr.cfg, textOut);
    AllBegins(stderr.cfg, stdout.emitter.emitted, textErr);
    if !ok {
      AllBegins(stdout.cfg, stdout.emitter.emitted, textOut);
      return;
    }
    ok := FlushStream(stderr, stdout.cfg, textErr);
    if !ok { AllBegins(stderr.cfg, stdout.emitter.emitted, textErr); }
  }

  /**
   defaultFollowContainerLogs: both streams of a container, interleaved as Docker sends them, with one
   callback. Each stream's lines are those of its own bytes, in order, wherever the frames were cut. When the
   copy fails the unended last lines stay unsent; when the callback fails each stream has a beginning.
   */
  method FollowLogs(out: Config, err: Config, room: nat, frames: seq<Frame>, copyFails: bool)
    returns (emitted: seq<LogLine>, ok: bool)
    requires out.stream != err.stream
    ensures |emitted| <= room
    ensures Begins(out, emitted, TextOf(frames, false)) && Begins(err, emitted, TextOf(frames, true))
    ensures ok ==> !copyFails && OfStream(emitted, out.stream) == Lines(out, AllLines(TextOf(frames, false)))
    ensures ok ==> OfStream(emitted, err.stream) == Lines(err, AllLines(TextOf(frames, true)))
    ensures !ok && |emitted| < room ==>
              && copyFails && OfStream(emitted, out.stream) == Lines(out, Whole(TextOf(frames, false)))
              && OfStream(emitted, err.stream) == Lines(err, Whole(TextOf(frames, true)))
  {
    var emitter := new Emitter(room);
    var stdout := new Writer(out, emitter);
    var stderr := new Writer(err, emitter);
    NoWholeLine("");
    for i := 0 to |frames|
      invariant stdout.cfg == out && stderr.cfg == err && stdout.emitter == emitter
      invariant fresh(stdout) && fresh(stderr) && fresh(emitter)
      invariant BothAt(stdout, stderr, room, frames[..i])
    {
      ok := CopyFrame(stdout, stderr, room, frames, i);
      if !ok { return emitter.emitted, false; }
    }
    assert frames[..|frames|] == frames;
    if copyFails {
      AllBegins(out, emitter.emitted, TextOf(frames, false));
      AllBegins(err, emitter.emitted, TextOf(frames, true));
      return emitter.emitted, false;
    }
    ok := FlushBoth(stdout, stderr, room, frames);
    emitted := emitter.emitted;
  }
}
