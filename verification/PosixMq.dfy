/** The POSIX message queue CSV printer and the chunked line reader that parses it. */
module PosixMq {
  import opened Options
  import opened Text

  /** One record as the printer gets it; every number is unsigned. */
  datatype Record = Record(
    windowEnd: nat, pid: nat, tid: nat, mqd: nat, direction: nat, bytes: nat, count: nat, prio: nat)

  datatype Event = Event(
    timestamp: int, pid: int, tid: int, mqd: int, direction: string, bytes: int, count: int, msgPrio: int)

  // ----- The printer ---------------------------------------------------------------------------------

  // One line of text; short literals are what the verifier can index into.
  const HEADER: string := "timestamp" + ",pid,tid,mqd," + "direction," + "bytes,count," + "msg_prio"

  function DirectionName(d: nat): string {
    if d == 1 then "send" else "recv"
  }

  function FieldsOf(r: Record): seq<string> {
    [Itoa(r.windowEnd), Itoa(r.pid), Itoa(r.tid), Itoa(r.mqd), DirectionName(r.direction),
     Itoa(r.bytes), Itoa(r.count), Itoa(r.prio)]
  }

  function LineOf(r: Record): string {
    Join(FieldsOf(r), ',')
  }

  function LinesOf(recs: seq<Record>): seq<string> {
    [HEADER] + seq(|recs|, i requires 0 <= i < |recs| => LineOf(recs[i]))
  }

  /** Every line with its newline. */
  function PrintLines(lines: seq<string>): string {
    if lines == [] then "" else lines[0] + ['\n'] + PrintLines(lines[1..])
  }

  function Stream(recs: seq<Record>): string {
    PrintLines(LinesOf(recs))
  }

  // ----- The reader ------------------------------------------------------------------------------------

  function ParseLine(line: string): Option<Event> {
    var s := Strip(line);
    if s == "" || StartsWith(s, "timestamp") then None
    else
      var parts := Split(s, ',');
      if |parts| < 8 then None
      else
        match (ParseInt(parts[0]), ParseInt(parts[1]), ParseInt(parts[2]), ParseInt(parts[3]))
        case (Some(timestamp), Some(pid), Some(tid), Some(mqd)) =>
          (match (ParseInt(parts[5]), ParseInt(parts[6]), ParseInt(parts[7]))
           case (Some(bytes), Some(count), Some(prio)) =>
             Some(Event(timestamp, pid, tid, mqd, parts[4], bytes, count, prio))
           case _ => None)
        case _ => None
  }

  function ParseLines(lines: seq<string>): seq<Event> {
    if lines == [] then []
    else
      ParseLines(lines[..|lines| - 1])
      + match ParseLine(lines[|lines| - 1])
        case None => []
        case Some(e) => [e]
  }

  lemma ParseNone()
    ensures ParseLines([]) == []
  {
  }

  lemma ParseNext(lines: seq<string>, i: nat)
    requires i < |lines|
    ensures ParseLines(lines[..i + 1]) ==
            var e := ParseLine(lines[i]);
            if e.Some? then ParseLines(lines[..i]) + [e.value] else ParseLines(lines[..i])
  {
    hide ParseLine;
    assert lines[..i + 1][..i] == lines[..i];
    assert ParseLines(lines[..i]) + [] == ParseLines(lines[..i]);
  }

  class Sniffer {
    var running: bool
    var buffer: string

    constructor ()
      ensures !running && buffer == ""
    {
      running, buffer := false, "";
    }

    method Start() returns (ok: bool)
      modifies this
      ensures ok <==> !old(running)
      ensures running && buffer == if ok then "" else old(buffer)
    {
      if running {
        return false;
      }
      running, buffer, ok := true, "", true;
    }

    /** One call; `data` is what the pipe had to offer, if anything. */
    method GetEvents(data: Option<string>) returns (events: seq<Event>)
      modifies this
      ensures running == old(running)
      ensures !running ==> events == [] && buffer == old(buffer)
      ensures running ==>
                var lines := Split(old(buffer) + if data.Some? then data.value else "", '\n');
                events == ParseLines(Init(lines)) && buffer == Last(lines)
    {
      hide ParseLine, ParseLines, Split;
      events := [];
      if !running {
        return;
      }
      if data.Some? {
        buffer := buffer + data.value;
      }
      var lines := Split(buffer, '\n');
      assert old(buffer) + "" == old(buffer);
      buffer := lines[|lines| - 1];
      ParseNone();
      for i := 0 to |lines| - 1
        invariant events == ParseLines(lines[..i]) && running && buffer == Last(lines)
      {
        ParseNext(lines, i);
        var event := ParseLine(lines[i]);
        if event.Some? {
          events := events + [event.value];
        }
      }
    }
  }

  // ----- Chunks do not matter ----------------------------------------------------------------------------

  /** The calls of one session: all events returned so far, and the buffer. */
  function FeedAll(chunks: seq<string>): (seq<Event>, string) {
    if chunks == [] then ([], "")
    else
      var (events, buffer) := FeedAll(chunks[..|chunks| - 1]);
      var lines := Split(buffer + chunks[|chunks| - 1], '\n');
      (events + ParseLines(Init(lines)), Last(lines))
  }

  function Concat(chunks: seq<string>): string {
    if chunks == [] then "" else Concat(chunks[..|chunks| - 1]) + chunks[|chunks| - 1]
  }

  lemma {:induction false} ParseAppend(a: seq<string>, b: seq<string>)
    ensures ParseLines(a + b) == ParseLines(a) + ParseLines(b)
  {
    hide ParseLine;
    if b == [] {
      assert a + b == a;
    } else {
      ParseAppend(a, b[..|b| - 1]);
      assert (a + b)[..|a + b| - 1] == a + b[..|b| - 1];
    }
  }

  lemma JoinedInit(a: seq<string>, b: seq<string>)
    requires b != []
    ensures Init(a + b) == a + Init(b) && Last(a + b) == Last(b)
  {
  }

  /** However the text is cut, the events are those of its finished lines and the buffer is the rest. */
  lemma {:induction false} ChunksDoNotMatter(chunks: seq<string>)
    ensures FeedAll(chunks) == (ParseLines(Init(Split(Concat(chunks), '\n'))), Last(Split(Concat(chunks), '\n')))
  {
    hide ParseLine;
    if chunks == [] {
      assert Split("", '\n') == [""];
      assert Init([""]) == [];
    } else {
      hide Split;
      var before, chunk := chunks[..|chunks| - 1], chunks[|chunks| - 1];
      ChunksDoNotMatter(before);
      var done := Split(Concat(before), '\n');
      var more := Split(Last(done) + chunk, '\n');
      SplitResumes(Concat(before), chunk, '\n');
      JoinedInit(Init(done), more);
      ParseAppend(Init(done), Init(more));
    }
  }

  // ----- The printed stream ---------------------------------------------------------------------------------

  predicate OneLine(s: string) {
    '\n' !in s
  }

  /** How many of the printed lines lie wholly within the first `n` characters, and what follows them. */
  function Whole(lines: seq<string>, n: nat): nat {
    if lines == [] || n <= |lines[0]| then 0 else 1 + Whole(lines[1..], n - |lines[0]| - 1)
  }

  function Tail(lines: seq<string>, n: nat): string {
    if lines == [] then "" else if n <= |lines[0]| then lines[0][..n] else Tail(lines[1..], n - |lines[0]| - 1)
  }

  lemma {:induction false} CutLines(lines: seq<string>, n: nat)
    requires n <= |PrintLines(lines)| && forall i | 0 <= i < |lines| :: OneLine(lines[i])
    ensures Whole(lines, n) <= |lines|
    ensures Split(PrintLines(lines)[..n], '\n') == lines[..Whole(lines, n)] + [Tail(lines, n)]
    ensures PrintLines(lines)[..n] == PrintLines(lines[..Whole(lines, n)]) + Tail(lines, n)
  {
    if lines == [] {
      assert Split("", '\n') == [""];
    } else if n <= |lines[0]| {
      assert PrintLines(lines)[..n] == lines[0][..n];
      SplitPlain(lines[0][..n], '\n');
    } else {
      var m := n - |lines[0]| - 1;
      CutLines(lines[1..], m);
      CutAfterFirst(lines, n, Whole(lines[1..], m), Tail(lines[1..], m));
    }
  }

  /** One complete line in front: the split and the whole lines both gain it. */
  lemma CutAfterFirst(lines: seq<string>, n: nat, k: nat, tail: string)
    requires lines != [] && |lines[0]| < n <= |PrintLines(lines)| && k <= |lines[1..]| && OneLine(lines[0])
    requires var m := n - |lines[0]| - 1;
             && Split(PrintLines(lines[1..])[..m], '\n') == lines[1..][..k] + [tail]
             && PrintLines(lines[1..])[..m] == PrintLines(lines[1..][..k]) + tail
    ensures Split(PrintLines(lines)[..n], '\n') == lines[..k + 1] + [tail]
    ensures PrintLines(lines)[..n] == PrintLines(lines[..k + 1]) + tail
  {
    hide Split, PrintLines;
    var first, text := lines[0], PrintLines(lines[1..]);
    PrintFirst(first, lines[1..]);
    assert lines == [first] + lines[1..];
    var rest := text[..n - |first| - 1];
    CutPast(first, text, n);
    SplitFirst(first, '\n', rest);
    PrintFirst(first, lines[1..][..k]);
    assert lines[..k + 1] == [first] + lines[1..][..k];
    assert first + ['\n'] + (PrintLines(lines[1..][..k]) + tail) == first + ['\n'] + PrintLines(lines[1..][..k]) + tail;
  }

  lemma PrintFirst(first: string, rest: seq<string>)
    ensures PrintLines([first] + rest) == first + ['\n'] + PrintLines(rest)
  {
    assert ([first] + rest)[1..] == rest;
  }

  lemma CutPast(first: string, text: string, n: nat)
    requires |first| < n <= |first| + 1 + |text|
    ensures (first + ['\n'] + text)[..n] == first + ['\n'] + text[..n - |first| - 1]
  {
  }

  function EventOf(r: Record): Event {
    Event(r.windowEnd, r.pid, r.tid, r.mqd, DirectionName(r.direction), r.bytes, r.count, r.prio)
  }

  lemma ItoaClean(n: nat)
    ensures Itoa(n) != "" && ',' !in Itoa(n) && '\n' !in Itoa(n)
    ensures IsDigit(Itoa(n)[0]) && IsDigit(Itoa(n)[|Itoa(n)| - 1])
  {
    ItoaValue(n);
    assert forall c | c in Itoa(n) :: IsDigit(c);
  }

  lemma FieldsClean(r: Record, i: nat)
    requires i < 8
    ensures ',' !in FieldsOf(r)[i] && '\n' !in FieldsOf(r)[i]
  {
    ItoaClean(r.windowEnd);
    ItoaClean(r.pid);
    ItoaClean(r.tid);
    ItoaClean(r.mqd);
    ItoaClean(r.bytes);
    ItoaClean(r.count);
    ItoaClean(r.prio);
  }

  lemma {:induction false} JoinClean(parts: seq<string>)
    requires forall i | 0 <= i < |parts| :: '\n' !in parts[i]
    ensures OneLine(Join(parts, ','))
  {
    if |parts| <= 1 {
    } else {
      JoinClean(parts[1..]);
    }
  }

  lemma {:induction false} JoinEnds(parts: seq<string>)
    requires parts != [] && parts[0] != "" && parts[|parts| - 1] != ""
    ensures var s := Join(parts, ',');
            s != "" && s[0] == parts[0][0] && s[|s| - 1] == parts[|parts| - 1][|parts[|parts| - 1]| - 1]
    decreases |parts|
  {
    if |parts| == 1 {
    } else {
      LastChar(parts[1..]);
    }
  }

  lemma {:induction false} LastChar(parts: seq<string>)
    requires parts != [] && parts[|parts| - 1] != ""
    ensures var s := Join(parts, ','); s != "" && s[|s| - 1] == parts[|parts| - 1][|parts[|parts| - 1]| - 1]
  {
    if |parts| == 1 {
    } else {
      LastChar(parts[1..]);
    }
  }

  /** A printed record parses back to its event. */
  lemma LineRoundTrip(r: Record)
    ensures OneLine(LineOf(r)) && ParseLine(LineOf(r)) == Some(EventOf(r))
  {
    hide Itoa, Join, Split, ParseInt, DirectionName;
    forall i | 0 <= i < |FieldsOf(r)|
      ensures ',' !in FieldsOf(r)[i] && '\n' !in FieldsOf(r)[i]
    {
      FieldsClean(r, i);
    }
    JoinClean(FieldsOf(r));
    SplitJoin(FieldsOf(r), ',');
    ItoaClean(r.windowEnd);
    ItoaClean(r.prio);
    JoinEnds(FieldsOf(r));
    StripDigits(LineOf(r));
    assert !StartsWith(LineOf(r), "timestamp");
    ItoaRoundTrip(r.windowEnd);
    ItoaRoundTrip(r.pid);
    ItoaRoundTrip(r.tid);
    ItoaRoundTrip(r.mqd);
    ItoaRoundTrip(r.bytes);
    ItoaRoundTrip(r.count);
    ItoaRoundTrip(r.prio);
  }

  lemma HeaderSkipped()
    ensures OneLine(HEADER) && ParseLine(HEADER) == None
  {
    assert OneLine("timestamp") && OneLine(",pid,tid,mqd,") && OneLine("direction,") && OneLine("bytes,count,")
        && OneLine("msg_prio");
    assert HEADER[0] == 't' && HEADER[|HEADER| - 1] == 'o';
    StripDigits(HEADER);
    assert StartsWith(HEADER, "timestamp");
  }

  /** The text of a line, and what is read from it, field by field. */
  lemma LineFields(r: Record)
    ensures LineOf(r) == Itoa(r.windowEnd) + "," + Itoa(r.pid) + "," + Itoa(r.tid) + "," + Itoa(r.mqd) + ","
                        + (if r.direction == 1 then "send" else "recv") + ","
                        + Itoa(r.bytes) + "," + Itoa(r.count) + "," + Itoa(r.prio)
    ensures ParseLine(LineOf(r)).Some?
    ensures var e := ParseLine(LineOf(r)).value;
            && e.timestamp == r.windowEnd && e.pid == r.pid && e.tid == r.tid && e.mqd == r.mqd
            && e.direction == (if r.direction == 1 then "send" else "recv")
            && e.bytes == r.bytes && e.count == r.count && e.msgPrio == r.prio
  {
    LineRoundTrip(r);
    hide Itoa, Join;
    EightJoined(Itoa(r.windowEnd), Itoa(r.pid), Itoa(r.tid), Itoa(r.mqd), DirectionName(r.direction),
                Itoa(r.bytes), Itoa(r.count), Itoa(r.prio));
  }

  lemma EightJoined(a: string, b: string, c: string, d: string, e: string, f: string, g: string, h: string)
    ensures Join([a, b, c, d, e, f, g, h], ',')
         == a + "," + b + "," + c + "," + d + "," + e + "," + f + "," + g + "," + h
  {
    hide Join;
    FourJoined(e, f, g, h);
    Front(a, b, c, d, [e, f, g, h]);
    assert [a, b, c, d] + [e, f, g, h] == [a, b, c, d, e, f, g, h];
  }

  lemma FourJoined(a: string, b: string, c: string, d: string)
    ensures Join([a, b, c, d], ',') == a + "," + (b + "," + (c + "," + d))
  {
    hide Join;
    JoinMeans(d, [], ',');
    JoinMeans(c, [d], ',');
    JoinMeans(b, [c, d], ',');
    JoinMeans(a, [b, c, d], ',');
    assert [c] + [d] == [c, d] && [b] + [c, d] == [b, c, d] && [a] + [b, c, d] == [a, b, c, d];
  }

  lemma Front(a: string, b: string, c: string, d: string, rest: seq<string>)
    requires rest != []
    ensures Join([a, b, c, d] + rest, ',') == a + "," + (b + "," + (c + "," + (d + "," + Join(rest, ','))))
  {
    hide Join;
    JoinMeans(d, rest, ',');
    JoinMeans(c, [d] + rest, ',');
    JoinMeans(b, [c, d] + rest, ',');
    JoinMeans(a, [b, c, d] + rest, ',');
    assert [c] + ([d] + rest) == [c, d] + rest && [b] + ([c, d] + rest) == [b, c, d] + rest;
    assert [a] + ([b, c, d] + rest) == [a, b, c, d] + rest;
  }

  /** The names in the header. */
  lemma HeaderNames()
    ensures HEADER == "timestamp" + "," + "pid" + "," + "tid" + "," + "mqd" + "," + "direction" + ","
                      + "bytes" + "," + "count" + "," + "msg_prio"
  {
    assert ",pid,tid,mqd," == "," + "pid" + "," + "tid" + "," + "mqd" + ",";
    assert "direction," == "direction" + "," && "bytes,count," == "bytes" + "," + "count" + ",";
  }

  /** When a line yields an event: not blank, not a header, eight parts or more, and seven of them numbers. */
  lemma LineParsesIff(line: string)
    ensures var s := Strip(line);
            var parts := Split(s, ',');
            ParseLine(line).Some? <==>
            && s != "" && !("timestamp" <= s) && |parts| >= 8
            && forall i | 0 <= i < 8 && i != 4 :: ParseInt(parts[i]).Some?
  {
    hide Strip, Split, ParseInt;
    var s := Strip(line);
    var parts := Split(s, ',');
    if |parts| >= 8 && forall i | 0 <= i < 8 && i != 4 :: ParseInt(parts[i]).Some? {
      assert ParseInt(parts[0]).Some? && ParseInt(parts[1]).Some? && ParseInt(parts[2]).Some?;
      assert ParseInt(parts[3]).Some? && ParseInt(parts[5]).Some? && ParseInt(parts[6]).Some?;
      assert ParseInt(parts[7]).Some?;
    }
  }

  function EventsOf(recs: seq<Record>): seq<Event> {
    seq(|recs|, i requires 0 <= i < |recs| => EventOf(recs[i]))
  }

  lemma {:induction false} LinesParse(recs: seq<Record>)
    ensures ParseLines(LinesOf(recs)) == EventsOf(recs)
  {
    hide ParseLine, LineOf, EventOf;
    HeaderSkipped();
    if recs == [] {
      assert LinesOf(recs) == [HEADER] && [HEADER][..0] == [];
    } else {
      var init, r := recs[..|recs| - 1], recs[|recs| - 1];
      LinesParse(init);
      LineRoundTrip(r);
      assert LinesOf(recs)[..|recs|] == LinesOf(init);
      assert LinesOf(recs)[|recs|] == LineOf(r);
    }
  }

  /** The records whose lines are complete within the first `n` characters (the header is line 0). */
  function CompleteRecords(recs: seq<Record>, n: nat): nat {
    if Whole(LinesOf(recs), n) == 0 then 0 else Whole(LinesOf(recs), n) - 1
  }

  /**
   For any records and any chunks that make up any beginning of the printed stream, the events
   returned are exactly the records with complete lines, in order, and the buffer is the unfinished
   tail: what was read is the complete lines, then the buffer.
   */
  lemma StreamRead(recs: seq<Record>, chunks: seq<string>, n: nat)
    requires n <= |Stream(recs)| && Concat(chunks) == Stream(recs)[..n]
    ensures CompleteRecords(recs, n) <= |recs|
    ensures FeedAll(chunks).0 == EventsOf(recs[..CompleteRecords(recs, n)])
    ensures Concat(chunks) == PrintLines(LinesOf(recs)[..Whole(LinesOf(recs), n)]) + FeedAll(chunks).1
    ensures OneLine(FeedAll(chunks).1)
  {
    hide LineOf, ParseLine, Split;
    var lines := LinesOf(recs);
    forall i | 0 <= i < |lines|
      ensures OneLine(lines[i])
    {
      if i == 0 {
        HeaderSkipped();
      } else {
        LineRoundTrip(recs[i - 1]);
      }
    }
    ChunksDoNotMatter(chunks);
    CutLines(lines, n);
    TailIsOneLine(lines, n);
    var k := Whole(lines, n);
    assert Init(lines[..k] + [Tail(lines, n)]) == lines[..k];
    if k > 0 {
      LinesParse(recs[..k - 1]);
      assert lines[..k] == LinesOf(recs[..k - 1]);
    } else {
      assert lines[..0] == [] && recs[..0] == [];
    }
  }

  lemma {:induction false} TailIsOneLine(lines: seq<string>, n: nat)
    requires forall i | 0 <= i < |lines| :: OneLine(lines[i])
    ensures OneLine(Tail(lines, n))
  {
    if lines == [] || n <= |lines[0]| {
    } else {
      TailIsOneLine(lines[1..], n - |lines[0]| - 1);
    }
  }

  /** With the whole stream read, event `i` is record `i`, field by field, and nothing is left over. */
  lemma StreamFields(recs: seq<Record>, chunks: seq<string>, i: nat)
    requires Concat(chunks) == Stream(recs) && i < |recs|
    ensures |FeedAll(chunks).0| == |recs| && FeedAll(chunks).1 == ""
    ensures var e, r := FeedAll(chunks).0[i], recs[i];
            && e.timestamp == r.windowEnd && e.pid == r.pid && e.tid == r.tid && e.mqd == r.mqd
            && e.direction == (if r.direction == 1 then "send" else "recv")
            && e.bytes == r.bytes && e.count == r.count && e.msgPrio == r.prio
  {
    hide LineOf, FeedAll, PrintLines, Whole, Itoa;
    var n := |Stream(recs)|;
    assert Stream(recs)[..n] == Stream(recs);
    StreamRead(recs, chunks, n);
    WholeIsAll(LinesOf(recs));
    assert recs[..|recs|] == recs && LinesOf(recs)[..|LinesOf(recs)|] == LinesOf(recs);
    assert Stream(recs) == Stream(recs) + FeedAll(chunks).1;
  }

  lemma {:induction false} WholeIsAll(lines: seq<string>)
    ensures Whole(lines, |PrintLines(lines)|) == |lines|
  {
    if lines == [] {
    } else {
      WholeIsAll(lines[1..]);
    }
  }

  lemma ConcatOne(chunk: string)
    ensures Concat([chunk]) == chunk
  {
    assert [chunk][..0] == [];
    assert Concat([]) == "";
  }
}
