/**
 The server-sent event stream: the frame printer of internal/sse/writer.go on one side, and on the
 other an independent reader that follows the WHATWG HTML Living Standard, sections 9.2.5 (line
 and field parsing) and 9.2.6 (interpreting the fields and dispatching).
 */
module SseWire {
  import opened Decimal
  import opened Text
  import opened Wrappers

  // ---------------------------------------------------------------- what the server sends

  /** One call on the writer that reached the response: an event with its id, or a heartbeat. */
  datatype Item =
    | Sent(name: string, id: int, data: string)
    | Beat

  predicate OneLine(s: string) { '\n' !in s && '\r' !in s }

  /** Event names and JSON payloads hold no line break; the code never sends an empty name. */
  predicate Clean(it: Item) {
    it.Sent? ==> it.name != "" && OneLine(it.name) && OneLine(it.data)
  }

  /** The text of one call, as the two format strings print it. */
  function ItemText(it: Item): string {
    match it
    case Sent(name, id, data) =>
      "event: " + name + "\nid: " + PrintInt(id) + "\ndata: " + data + "\n\n"
    case Beat => ": heartbeat\n\n"
  }

  /** The lines of a frame and of a heartbeat, as documented. */
  lemma ItemTextLines(it: Item)
    requires Clean(it)
    ensures Split(ItemText(it), '\n') ==
            match it
            case Sent(name, id, data) => ["event: " + name, "id: " + PrintInt(id), "data: " + data, "", ""]
            case Beat => [": heartbeat", "", ""]
  {
    if it.Beat? {
      BeatText();
      TextEndsTwice(": heartbeat");
    } else {
      PrintIntChars(it.id);
      assert !IsDigit('\n');
      FrameInLines(it.name, PrintInt(it.id), it.data);
      SplitThree("event: " + it.name, "id: " + PrintInt(it.id), "data: " + it.data);
    }
  }

  lemma BeatText()
    ensures ItemText(Beat) == ": heartbeat" + ['\n'] + (['\n'] + "")
  {
  }

  lemma FrameInLines(name: string, id: string, data: string)
    ensures "event: " + name + "\nid: " + id + "\ndata: " + data + "\n\n"
         == InLines("event: " + name, "id: " + id, "data: " + data)
  {
    assert "\nid: " == ['\n'] + "id: " && "\ndata: " == ['\n'] + "data: " && "\n\n" == ['\n'] + (['\n'] + "");
    Regroup("event: " + name, ['\n'], "id: ", id, "data: ", data, ['\n'] + "");
  }

  lemma Regroup(a: string, n: string, i: string, id: string, d: string, data: string, e: string)
    ensures a + (n + i) + id + (n + d) + data + (n + e) == a + n + (i + id + n + (d + data + n + e))
  {
  }

  function InLines(a: string, b: string, c: string): string {
    a + ['\n'] + (b + ['\n'] + (c + ['\n'] + (['\n'] + "")))
  }

  lemma SplitThree(a: string, b: string, c: string)
    requires '\n' !in a && '\n' !in b && '\n' !in c
    ensures Split(InLines(a, b, c), '\n') == [a, b, c, "", ""]
  {
    var afterB := c + ['\n'] + (['\n'] + "");
    TextEndsTwice(c);
    SplitTwoMore(a, b, afterB, [c, "", ""], InLines(a, b, c));
    FiveLines(a, b, c);
  }

  lemma SplitTwoMore(a: string, b: string, rest: string, lines: seq<string>, text: string)
    requires '\n' !in a && '\n' !in b && Split(rest, '\n') == lines
    requires text == a + ['\n'] + (b + ['\n'] + rest)
    ensures Split(text, '\n') == [a] + ([b] + lines)
  {
    SplitOneMore(b, rest, lines);
    SplitOneMore(a, b + ['\n'] + rest, [b] + lines);
  }

  lemma FiveLines(a: string, b: string, c: string)
    ensures [a] + ([b] + [c, "", ""]) == [a, b, c, "", ""]
  {
  }

  lemma SplitOneMore(line: string, rest: string, lines: seq<string>)
    requires '\n' !in line && Split(rest, '\n') == lines
    ensures Split(line + ['\n'] + rest, '\n') == [line] + lines
  {
    SplitFirst(line, rest, '\n');
  }

  lemma TextEndsTwice(s: string)
    requires '\n' !in s
    ensures Split(s + ['\n'] + (['\n'] + ""), '\n') == [s, "", ""]
  {
    SplitFirst("", "", '\n');
    assert "" + ['\n'] + "" == ['\n'] + "";
    assert Split("", '\n') == [""];
    SplitFirst(s, ['\n'] + "", '\n');
  }

  function Wire(items: seq<Item>): string {
    if items == [] then "" else ItemText(items[0]) + Wire(items[1..])
  }

  lemma {:induction false} WireAppend(a: seq<Item>, b: seq<Item>)
    ensures Wire(a + b) == Wire(a) + Wire(b)
  {
    if a == [] {
      assert a + b == b;
    } else {
      assert (a + b)[1..] == a[1..] + b;
      WireAppend(a[1..], b);
      assert ItemText(a[0]) + (Wire(a[1..]) + Wire(b)) == Wire(a) + Wire(b);
    }
  }

  // ---------------------------------------------------------------- what the client reads

  datatype ClientEvent = ClientEvent(name: string, data: string, id: string)

  /**
   The reader's whole state: the unfinished line, whether a CR was just consumed, the event type,
   data and last event ID buffers, and the event source's last event ID string and dispatched events.
   */
  datatype Reader = Reader(
    line: string, afterCR: bool,
    kind: string, data: string, idBuffer: string,
    lastId: string, events: seq<ClientEvent>)

  predicate AtRest(r: Reader) {
    r.line == "" && !r.afterCR && r.kind == "" && r.data == ""
  }

  /** Section 9.2.6, dispatching at a blank line. */
  function Dispatch(r: Reader): Reader {
    var stamped := r.(lastId := r.idBuffer, kind := "", data := "");
    if r.data == "" then stamped
    else
      var name := if r.kind == "" then "message" else r.kind;
      stamped.(events := r.events + [ClientEvent(name, TrimSuffix(r.data, "\n"), r.idBuffer)])
  }

  /** Section 9.2.6, processing one field. */
  function ProcessField(r: Reader, field: string, value: string): Reader {
    if field == "event" then r.(kind := value)
    else if field == "data" then r.(data := r.data + value + "\n")
    else if field == "id" && '\0' !in value then r.(idBuffer := value)
    else r
  }

  function ProcessLine(r: Reader, line: string): Reader {
    if line == "" then Dispatch(r)
    else if line[0] == ':' then r
    else
      var i := IndexOf(line, ':');
      if i == |line| then ProcessField(r, line, "")
      else ProcessField(r, line[..i], TrimPrefix(line[i + 1..], " "))
  }

  function EndLine(r: Reader): Reader {
    ProcessLine(r.(line := ""), r.line)
  }

  /** Section 9.2.5: a line ends with CR LF, LF or CR. */
  function FeedChar(r: Reader, c: char): Reader {
    if c == '\n' then (if r.afterCR then r.(afterCR := false) else EndLine(r))
    else if c == '\r' then EndLine(r.(afterCR := false)).(afterCR := true)
    else r.(line := r.line + [c], afterCR := false)
  }

  /** The reader after some more characters. What is pending when the stream ends is simply dropped. */
  function Feed(r: Reader, s: string): Reader
    decreases |s|
  {
    if s == "" then r else Feed(FeedChar(r, s[0]), s[1..])
  }

  lemma {:induction false} FeedAppend(r: Reader, a: string, b: string)
    ensures Feed(r, a + b) == Feed(Feed(r, a), b)
    decreases |a|
  {
    if a == "" {
      assert a + b == b;
    } else {
      assert (a + b)[1..] == a[1..] + b;
      FeedAppend(FeedChar(r, a[0]), a[1..], b);
    }
  }

  lemma {:induction false} FeedText(r: Reader, t: string)
    requires !r.afterCR && OneLine(t)
    ensures Feed(r, t) == r.(line := r.line + t)
    decreases |t|
  {
    if t == "" {
      assert r.line + t == r.line;
    } else {
      assert t[0] in t;
      var r' := FeedChar(r, t[0]);
      FeedText(r', t[1..]);
      assert r'.line + t[1..] == r.line + t by { assert t == [t[0]] + t[1..]; }
    }
  }

  /** A whole line with its line feed. */
  lemma FeedLine(r: Reader, t: string)
    requires r.line == "" && !r.afterCR && OneLine(t)
    ensures Feed(r, t + "\n") == ProcessLine(r, t)
  {
    FeedAppend(r, t, "\n");
    FeedText(r, t);
    var m := r.(line := t);
    assert Feed(m, "\n") == Feed(FeedChar(m, '\n'), "");
    assert r.line + t == t && m.(line := "") == r;
  }

  // ---------------------------------------------------------------- one item at a time

  /** What an item must do to a reader: an event is delivered with its id, a heartbeat is not. */
  function After(r: Reader, it: Item): Reader {
    match it
    case Sent(name, id, data) =>
      var p := PrintInt(id);
      r.(idBuffer := p, lastId := p, events := r.events + [ClientEvent(name, data, p)])
    case Beat => r.(lastId := r.idBuffer)
  }

  function AfterAll(r: Reader, items: seq<Item>): Reader
    decreases |items|
  {
    if items == [] then r else AfterAll(After(r, items[0]), items[1..])
  }

  predicate TextLines(lines: seq<string>) {
    forall i :: 0 <= i < |lines| ==> lines[i] != "" && OneLine(lines[i])
  }

  /** The lines of an item, without the blank line that ends it. */
  function ItemLines(it: Item): (lines: seq<string>)
    requires Clean(it)
    ensures TextLines(lines)
  {
    match it
    case Sent(name, id, data) =>
      PrintIntOneLine(id);
      ["event: " + name, "id: " + PrintInt(id), "data: " + data]
    case Beat => [": heartbeat"]
  }

  function Lines(lines: seq<string>): string {
    if lines == [] then "" else lines[0] + "\n" + Lines(lines[1..])
  }

  lemma PrintIntOneLine(id: int)
    ensures OneLine(PrintInt(id)) && '\0' !in PrintInt(id)
  {
    PrintIntChars(id);
  }

  lemma ThreeLines(a: string, b: string, c: string)
    ensures Lines([a, b, c]) == a + "\n" + (b + "\n" + (c + "\n" + ""))
  {
    assert [a, b, c][1..] == [b, c] && [b, c][1..] == [c] && [c][1..] == [];
    assert Lines([c]) == c + "\n" + "";
    assert Lines([b, c]) == b + "\n" + Lines([c]);
  }

  lemma FieldsInOneText(e: string, name: string, i: string, id: string, d: string, data: string, n: string)
    ensures e + name + (n + i) + id + (n + d) + data + (n + n)
            == (e + name) + n + ((i + id) + n + ((d + data) + n + "")) + n
  {
  }

  lemma ItemTextIsLines(it: Item)
    requires Clean(it)
    ensures ItemText(it) == Lines(ItemLines(it)) + "\n"
  {
    match it
    case Sent(name, id, data) =>
      ThreeLines("event: " + name, "id: " + PrintInt(id), "data: " + data);
      FieldsInOneText("event: ", name, "id: ", PrintInt(id), "data: ", data, "\n");
      assert "\nid: " == "\n" + "id: " && "\ndata: " == "\n" + "data: " && "\n\n" == "\n" + "\n";
    case Beat =>
      assert [": heartbeat"][1..] == [];
  }

  /** The reader after some whole non-blank lines. */
  function ReadLines(r: Reader, lines: seq<string>): Reader
    decreases |lines|
  {
    if lines == [] then r else ReadLines(ProcessLine(r, lines[0]), lines[1..])
  }

  /** A line that is not blank dispatches nothing. */
  lemma LineIsQuiet(r: Reader, line: string)
    requires line != ""
    ensures var q := ProcessLine(r, line);
            q.events == r.events && q.lastId == r.lastId && q.line == r.line && q.afterCR == r.afterCR
  {
  }

  lemma {:induction false} FeedLines(r: Reader, lines: seq<string>)
    requires r.line == "" && !r.afterCR
    requires TextLines(lines)
    ensures var q := Feed(r, Lines(lines));
            q == ReadLines(r, lines) && q.line == "" && !q.afterCR
    decreases |lines|
  {
    if lines != [] {
      var head := lines[0] + "\n";
      FeedAppend(r, head, Lines(lines[1..]));
      FeedLine(r, lines[0]);
      LineIsQuiet(r, lines[0]);
      FeedLines(ProcessLine(r, lines[0]), lines[1..]);
    }
  }

  lemma FieldLine(r: Reader, field: string, value: string)
    requires field != "" && field[0] != ':' && ':' !in field
    ensures ProcessLine(r, field + ": " + value) == ProcessField(r, field, value)
  {
    var line := field + ": " + value;
    assert line == field + [':'] + (" " + value);
    FirstIndex(field, " " + value, ':');
    assert line[..|field|] == field && line[|field| + 1..] == " " + value;
    assert (" " + value)[1..] == value;
  }

  lemma ReadThree(r: Reader, a: string, b: string, c: string)
    ensures ReadLines(r, [a, b, c]) == ProcessLine(ProcessLine(ProcessLine(r, a), b), c)
  {
    assert [a, b, c][1..] == [b, c] && [b, c][1..] == [c] && [c][1..] == [];
    assert Lines([c]) == c + "\n" + "";
    assert Lines([b, c]) == b + "\n" + Lines([c]);
    var r1 := ProcessLine(r, a);
    var r2 := ProcessLine(r1, b);
    assert ReadLines(r1, [b, c]) == ReadLines(r2, [c]);
  }

  lemma ThreeFields(r: Reader, name: string, id: string, data: string)
    requires r.data == "" && '\0' !in id
    ensures ProcessField(ProcessField(ProcessField(r, "event", name), "id", id), "data", data)
         == r.(kind := name, idBuffer := id, data := data + "\n")
  {
    assert "" + data + "\n" == data + "\n";
  }

  lemma FieldLines(name: string, id: string, data: string)
    ensures "event" + ": " + name == "event: " + name
    ensures "id" + ": " + id == "id: " + id
    ensures "data" + ": " + data == "data: " + data
  {
    assert "event" + ": " == "event: " && "id" + ": " == "id: " && "data" + ": " == "data: ";
  }

  /** The three field lines of a frame fill the three buffers. */
  lemma ReadFrameLines(r: Reader, name: string, id: int, data: string)
    requires r.data == ""
    ensures ReadLines(r, ["event: " + name, "id: " + PrintInt(id), "data: " + data])
         == r.(kind := name, idBuffer := PrintInt(id), data := data + "\n")
  {
    var p := PrintInt(id);
    PrintIntOneLine(id);
    FieldLines(name, p, data);
    ReadThree(r, "event" + ": " + name, "id" + ": " + p, "data" + ": " + data);
    FieldLine(r, "event", name);
    var r1 := ProcessField(r, "event", name);
    FieldLine(r1, "id", p);
    FieldLine(ProcessField(r1, "id", p), "data", data);
    ThreeFields(r, name, p, data);
  }

  /** Reading a whole frame delivers exactly the event that was sent; reading a heartbeat delivers nothing. */
  lemma FeedItem(r: Reader, it: Item)
    requires AtRest(r) && Clean(it)
    ensures Feed(r, ItemText(it)) == After(r, it) && AtRest(After(r, it))
  {
    var ls := ItemLines(it);
    ItemTextIsLines(it);
    FeedAppend(r, Lines(ls), "\n");
    FeedLines(r, ls);
    var q := ReadLines(r, ls);
    assert Feed(q, "\n") == Feed(FeedChar(q, '\n'), "");
    assert FeedChar(q, '\n') == Dispatch(q) by { assert q.(line := "") == q; }
    match it
    case Sent(name, id, data) =>
      ReadFrameLines(r, name, id, data);
      var d := data + "\n";
      assert d[|d| - 1..] == "\n" && d[..|d| - 1] == data;
      assert TrimSuffix(d, "\n") == data;
    case Beat =>
      assert ls[1..] == [] && ls[0][0] == ':';
      assert q == r;
  }

  // ---------------------------------------------------------------- cut anywhere

  lemma PrefixOneLine(l: string, n: nat)
    requires OneLine(l) && n <= |l|
    ensures OneLine(l[..n])
  {
    assert l == l[..n] + l[n..];
  }

  lemma {:induction false} CutLinesQuiet(r: Reader, lines: seq<string>, p: string)
    requires r.line == "" && !r.afterCR
    requires TextLines(lines)
    requires p <= Lines(lines)
    ensures Feed(r, p).events == r.events && Feed(r, p).lastId == r.lastId
    decreases |lines|
  {
    if lines != [] {
      var l := lines[0];
      if |p| <= |l| {
        assert p == l[..|p|];
        PrefixOneLine(l, |p|);
        FeedText(r, p);
      } else {
        var rest := p[|l| + 1..];
        assert p == (l + "\n") + rest && rest <= Lines(lines[1..]);
        FeedAppend(r, l + "\n", rest);
        FeedLine(r, l);
        LineIsQuiet(r, l);
        CutLinesQuiet(ProcessLine(r, l), lines[1..], rest);
      }
    }
  }

  /** A frame or heartbeat that was cut short delivers nothing and moves no id. */
  lemma CutItemQuiet(r: Reader, it: Item, p: string)
    requires AtRest(r) && Clean(it)
    requires p <= ItemText(it) && p != ItemText(it)
    ensures Feed(r, p).events == r.events && Feed(r, p).lastId == r.lastId
  {
    ItemTextIsLines(it);
    assert p <= Lines(ItemLines(it));
    CutLinesQuiet(r, ItemLines(it), p);
  }

  /** How many items lie wholly within the first `cut` characters. */
  function WholeItems(items: seq<Item>, cut: nat): (k: nat)
    ensures k <= |items|
  {
    if items == [] || cut < |ItemText(items[0])| then 0
    else 1 + WholeItems(items[1..], cut - |ItemText(items[0])|)
  }

  /** Nothing is lost when nothing is cut. */
  lemma {:induction false} WholeItemsAll(items: seq<Item>)
    ensures WholeItems(items, |Wire(items)|) == |items|
  {
    if items != [] {
      WholeItemsAll(items[1..]);
    }
  }

  /**
   The decoding theorem. Whatever mix of events and heartbeats was written, and wherever the
   response is cut, the reader has dispatched exactly the events that arrived whole, in order, with
   their names, payloads and ids, and its last event ID is the one those items leave.
   */
  lemma {:induction false} CutAnywhere(r: Reader, items: seq<Item>, cut: nat)
    requires AtRest(r) && cut <= |Wire(items)|
    requires forall it :: it in items ==> Clean(it)
    ensures var q := Feed(r, Wire(items)[..cut]);
            var whole := AfterAll(r, items[..WholeItems(items, cut)]);
            q.events == whole.events && q.lastId == whole.lastId
    decreases |items|
  {
    if items != [] {
      var first := ItemText(items[0]);
      var p := Wire(items)[..cut];
      assert items[0] in items;
      if cut < |first| {
        assert p == first[..cut];
        CutItemQuiet(r, items[0], p);
        assert items[..0] == [];
      } else {
        var rest := Wire(items[1..])[..cut - |first|];
        assert p == first + rest;
        FeedAppend(r, first, rest);
        FeedItem(r, items[0]);
        CutAnywhere(After(r, items[0]), items[1..], cut - |first|);
        WholeAfterFirst(r, items, cut);
      }
    }
  }

  lemma WholeAfterFirst(r: Reader, items: seq<Item>, cut: nat)
    requires items != [] && |ItemText(items[0])| <= cut <= |Wire(items)|
    ensures var k := WholeItems(items[1..], cut - |ItemText(items[0])|);
            && WholeItems(items, cut) == k + 1
            && AfterAll(r, items[..k + 1]) == AfterAll(After(r, items[0]), items[1..][..k])
  {
    var k := WholeItems(items[1..], cut - |ItemText(items[0])|);
    assert items[..k + 1][1..] == items[1..][..k];
  }

  /** Uncut, the reader ends at rest, ready for whatever is written next. */
  lemma {:induction false} FeedWire(r: Reader, items: seq<Item>)
    requires AtRest(r) && forall it :: it in items ==> Clean(it)
    ensures Feed(r, Wire(items)) == AfterAll(r, items) && AtRest(AfterAll(r, items))
    decreases |items|
  {
    if items != [] {
      FeedAppend(r, ItemText(items[0]), Wire(items[1..]));
      FeedItem(r, items[0]);
      FeedWire(After(r, items[0]), items[1..]);
    }
  }

  // ---------------------------------------------------------------- what the items add up to

  function Delivered(items: seq<Item>): seq<ClientEvent> {
    if items == [] then []
    else (match items[0]
          case Sent(name, id, data) => [ClientEvent(name, data, PrintInt(id))]
          case Beat => []) + Delivered(items[1..])
  }

  function WithoutBeats(items: seq<Item>): seq<Item> {
    if items == [] then []
    else (if items[0].Beat? then [] else [items[0]]) + WithoutBeats(items[1..])
  }

  lemma {:induction false} BeatsDeliverNothing(items: seq<Item>)
    ensures Delivered(items) == Delivered(WithoutBeats(items))
    decreases |items|
  {
    if items != [] {
      BeatsDeliverNothing(items[1..]);
      var w := WithoutBeats(items);
      if items[0].Sent? {
        assert w[0] == items[0] && w[1..] == WithoutBeats(items[1..]);
      } else {
        assert w == WithoutBeats(items[1..]);
      }
    }
  }

  lemma {:induction false} EventsAfterAll(r: Reader, items: seq<Item>)
    ensures AfterAll(r, items).events == r.events + Delivered(items)
    decreases |items|
  {
    if items != [] {
      EventsAfterAll(After(r, items[0]), items[1..]);
    }
  }

  lemma {:induction false} IdsAfterAll(r: Reader, items: seq<Item>)
    ensures var q := AfterAll(r, items);
            && q.idBuffer == (if Delivered(items) == [] then r.idBuffer
                else Delivered(items)[|Delivered(items)| - 1].id)
            && q.lastId == (if items == [] then r.lastId else q.idBuffer)
    decreases |items|
  {
    if items != [] {
      IdsAfterAll(After(r, items[0]), items[1..]);
    }
  }

  lemma {:induction false} WithoutBeatsAppend(a: seq<Item>, b: seq<Item>)
    ensures WithoutBeats(a + b) == WithoutBeats(a) + WithoutBeats(b)
  {
    if a == [] {
      assert a + b == b;
    } else {
      assert (a + b)[1..] == a[1..] + b;
      WithoutBeatsAppend(a[1..], b);
    }
  }

  /** Heartbeats are clean, so a stream is as clean as its events. */
  lemma {:induction false} CleanWithoutBeats(items: seq<Item>)
    requires forall it :: it in WithoutBeats(items) ==> Clean(it)
    ensures forall it :: it in items ==> Clean(it)
  {
    if items != [] {
      assert items[0].Sent? ==> items[0] in WithoutBeats(items);
      assert forall it :: it in WithoutBeats(items[1..]) ==> it in WithoutBeats(items);
      CleanWithoutBeats(items[1..]);
    }
  }

  /** Heartbeats may be mixed in freely: they change neither the events nor, once an event was read, the id. */
  lemma AfterAllDelivered(r: Reader, items: seq<Item>)
    ensures var q := AfterAll(r, items);
            && q.events == r.events + Delivered(items)
            && Delivered(items) == Delivered(WithoutBeats(items))
            && q.idBuffer == (if Delivered(items) == [] then r.idBuffer
                else Delivered(items)[|Delivered(items)| - 1].id)
            && q.lastId == (if items == [] then r.lastId else q.idBuffer)
  {
    BeatsDeliverNothing(items);
    EventsAfterAll(r, items);
    IdsAfterAll(r, items);
  }

  lemma {:induction false} DeliveredAppend(a: seq<Item>, b: seq<Item>)
    ensures Delivered(a + b) == Delivered(a) + Delivered(b)
  {
    if a == [] {
      assert a + b == b;
    } else {
      assert (a + b)[1..] == a[1..] + b;
      DeliveredAppend(a[1..], b);
      if a[0].Sent? {
        var x := [ClientEvent(a[0].name, a[0].data, PrintInt(a[0].id))];
        assert x + (Delivered(a[1..]) + Delivered(b)) == (x + Delivered(a[1..])) + Delivered(b);
      } else {
        assert Delivered(a + b) == Delivered(a[1..] + b) && Delivered(a) == Delivered(a[1..]);
      }
    }
  }

  const NEW_READER := Reader("", false, "", "", "", "", [])

  /**
   Frames decode to what was sent: a new reader of the whole response has exactly the sent names, ids
   and payloads; a reader of any beginning of it has a beginning of them; heartbeats leave no trace.
   */
  lemma ResponseDecodes(items: seq<Item>, cut: nat)
    requires forall it :: it in items ==> Clean(it)
    requires cut <= |Wire(items)|
    ensures Feed(NEW_READER, Wire(items)).events == Delivered(WithoutBeats(items))
    ensures Feed(NEW_READER, Wire(items)[..cut]).events <= Delivered(WithoutBeats(items))
  {
    FeedWire(NEW_READER, items);
    AfterAllDelivered(NEW_READER, items);
    CutAnywhere(NEW_READER, items, cut);
    DeliveredBegins(NEW_READER, items, WholeItems(items, cut));
  }

  /** What whole items at the beginning deliver is a beginning of what all deliver. */
  lemma DeliveredBegins(r: Reader, items: seq<Item>, k: nat)
    requires k <= |items| && r.events == []
    ensures AfterAll(r, items[..k]).events <= Delivered(WithoutBeats(items))
  {
    AfterAllDelivered(r, items[..k]);
    AfterAllDelivered(r, items);
    assert items == items[..k] + items[k..];
    DeliveredAppend(items[..k], items[k..]);
  }

  /** A heartbeat leaves the last event ID alone exactly when the ID buffer already holds it. */
  lemma BeatKeepsIdIff(r: Reader)
    requires AtRest(r)
    ensures Feed(r, ItemText(Beat)).events == r.events
    ensures Feed(r, ItemText(Beat)).lastId == r.lastId <==> r.idBuffer == r.lastId
  {
    FeedItem(r, Beat);
  }

  // ---------------------------------------------------------------- the writer

  datatype SendError = NoError | ClientGone | WriteFailed

  /** The response body a series of prints makes. */
  function Body(prints: seq<string>): string {
    if prints == [] then "" else Body(prints[..|prints| - 1]) + prints[|prints| - 1]
  }

  lemma BodyGrows(prints: seq<string>, more: string)
    ensures Body(prints + [more]) == Body(prints) + more
  {
    assert (prints + [more])[..|prints|] == prints;
  }

  lemma WireGrows(items: seq<Item>, it: Item)
    ensures Wire(items + [it]) == Wire(items) + ItemText(it)
  {
    WireAppend(items, [it]);
    assert [it][1..] == [];
    assert ItemText(it) + "" == ItemText(it);
  }

  lemma ItemTextNotEmpty(it: Item)
    ensures ItemText(it) != ""
  {
  }

  /**
   sse.Writer, with what its surroundings have in store for it: the connection takes `room` more bytes and
   fails from then on, and the request is done after `calls` more calls. `asked` is everything that was
   to be printed, in order, whether or not it arrived.
   */
  class Writer {
    var prints: seq<string>
    var next: int
    var room: nat
    var calls: nat
    ghost const limit: nat
    ghost var asked: seq<Item>

    /** The response is the beginning of what was to be printed, as long as the connection allows. */
    ghost predicate Valid()
      reads this
    {
      && IsInt64(next) && |Body(prints)| + room == limit
      && Body(prints) <= Wire(asked) && (room == 0 || Body(prints) == Wire(asked))
    }

    constructor (room: nat, calls: nat)
      ensures Valid() && asked == [] && prints == [] && next == 0
      ensures this.room == limit == room && this.calls == calls
    {
      prints, next, this.room, this.calls := [], 0, room, calls;
      limit, asked := room, [];
    }

    /** Prints one frame under the counter's next value. The counter moves even if the print fails. */
    method Write(name: string, raw: string) returns (err: SendError)
      requires Valid()
      modifies this
      ensures Valid() && room <= old(room) && (err == ClientGone <==> old(calls) == 0)
      ensures err == ClientGone ==> asked == old(asked) && next == old(next) && prints == old(prints) && calls == 0
      ensures err != ClientGone ==> next == Next64(old(next)) && asked == old(asked) + [Sent(name, next, raw)]
      ensures err != ClientGone ==> (err == NoError <==> Body(prints) == Wire(asked)) && calls == old(calls) - 1
    {
      if calls == 0 { return ClientGone; }
      calls := calls - 1;
      next := Next64(next);
      var frame := "event: " + name + "\nid: " + PrintInt(next) + "\ndata: " + raw + "\n\n";
      err := Print(frame, Sent(name, next, raw));
    }

    method Heartbeat() returns (err: SendError)
      requires Valid()
      modifies this
      ensures Valid() && room <= old(room) && next == old(next) && (err == ClientGone <==> old(calls) == 0)
      ensures err == ClientGone ==> asked == old(asked) && prints == old(prints) && calls == 0
      ensures err != ClientGone ==> asked == old(asked) + [Beat]
      ensures err != ClientGone ==> (err == NoError <==> Body(prints) == Wire(asked)) && calls == old(calls) - 1
    {
      if calls == 0 { return ClientGone; }
      calls := calls - 1;
      err := Print(": heartbeat\n\n", Beat);
    }

    method SetSequence(seqNo: int)
      requires Valid() && IsInt64(seqNo)
      modifies this`next
      ensures Valid() && next == seqNo
    {
      next := seqNo;
    }

    /** One fmt.Fprint on the connection: all of the text, or as much as there is room for. */
    method Print(text: string, ghost it: Item) returns (err: SendError)
      requires Valid() && text == ItemText(it)
      modifies this`prints, this`room, this`asked
      ensures Valid() && asked == old(asked) + [it] && room <= old(room)
      ensures err == NoError || err == WriteFailed
      ensures err == NoError <==> Body(prints) == Wire(asked)
    {
      var taken := text[..if room < |text| then room else |text|];
      BodyGrows(prints, taken);
      WireGrows(asked, it);
      ItemTextNotEmpty(it);
      TakenSoFar(Body(prints), Wire(asked), text, room);
      err := if |text| <= room then NoError else WriteFailed;
      asked := asked + [it];
      room := room - |taken|;
      prints := prints + [taken];
    }
  }

  /** A beginning, cut short only when there was no room, stays one when as much as there is room for is added. */
  lemma TakenSoFar(body: string, wire: string, text: string, room: nat)
    requires body <= wire && (room == 0 || body == wire) && text != ""
    ensures var taken := text[..if room < |text| then room else |text|];
            && body + taken <= wire + text
            && (room == |taken| || body + taken == wire + text)
            && (|text| <= room <==> body + taken == wire + text)
  {
    if room < |text| {
      assert |body + text[..room]| < |wire + text|;
    }
  }

  /** The Last-Event-ID header of a reconnecting client; a missing or unreadable one means 0. */
  function ResumeFrom(header: string): (resume: int)
    ensures IsInt64(resume)
  {
    if header == "" then 0
    else
      match ParseInt64(header)
      case Some(n) => n
      case None => 0
  }

  /** Any header that is not a 64-bit number resumes at 0. */
  lemma ResumeFromIff(header: string, n: int)
    ensures ResumeFrom(header) == n
       <==> if exists digits, m :: IsInt64(m) && Spells(header, digits, m)
            then exists digits :: Spells(header, digits, n)
            else n == 0
  {
    if digits, m :| IsInt64(m) && Spells(header, digits, m) {
      ParseInt64Iff(header, m);
      if d :| Spells(header, d, n) { ParseInt64Iff(header, m); SameNumber(header, digits, m, d, n); }
    } else if header != "" && ParseInt64(header).Some? {
      ParseInt64Iff(header, ParseInt64(header).value);
    }
  }

  lemma SameNumber(s: string, a: string, m: int, b: string, n: int)
    requires Spells(s, a, m) && Spells(s, b, n)
    ensures m == n
  {
    assert IsDigit(a[0]) && IsDigit(b[0]);
    assert a == (if s[0] == '+' || s[0] == '-' then s[1..] else s) == b;
  }

  /** The id an event carried, handed back in the header, resumes at that event. */
  lemma ResumeReadsBackId(id: int)
    requires IsInt64(id)
    ensures ResumeFrom(PrintInt(id)) == id
  {
    ParsePrint(id);
    PrintIntChars(id);
  }
}
