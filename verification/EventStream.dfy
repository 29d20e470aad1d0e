/**
 * Server-sent notifications: the JSON text `send` publishes, the frames `subscribe`
 * writes, and the reader of the other end, sections 9.2.5 and 9.2.6 of the WHATWG
 * HTML Standard.
 */
module EventStream {
  import opened Wrappers

  // ------------------------------------------------ the reader

  /** A dispatched event. */
  datatype Event = Event(name: string, data: string, lastId: string)

  /** The reader between two characters: the line so far, the three buffers, the events dispatched. */
  datatype Reader = Reader(line: string, afterCr: bool, data: string, name: string, id: string, events: seq<Event>)

  const OPENED := Reader("", false, "", "", "", [])

  predicate IsNewline(c: char) {
    c == '\r' || c == '\n'
  }

  predicate OneLine(s: string) {
    forall i :: 0 <= i < |s| ==> !IsNewline(s[i])
  }

  /** The position of the first colon from `i` on, or the length. */
  function ColonFrom(line: string, i: nat): (k: nat)
    requires i <= |line|
    ensures i <= k <= |line|
    decreases |line| - i
  {
    if i == |line| || line[i] == ':' then i else ColonFrom(line, i + 1)
  }

  /** A field value loses one leading space. */
  function TrimOne(s: string): string {
    if s != "" && s[0] == ' ' then s[1..] else s
  }

  /** A field is processed; `retry` and unknown fields dispatch and buffer nothing. */
  function Process(p: Reader, field: string, value: string): Reader {
    if field == "event" then p.(name := value)
    else if field == "data" then p.(data := p.data + value + "\n")
    else if field == "id" && '\0' !in value then p.(id := value)
    else p
  }

  function Dispatch(p: Reader): Reader {
    if p.data == "" then p.(name := "")
    else p.(data := "", name := "",
            events := p.events + [Event(if p.name == "" then "message" else p.name, p.data[..|p.data| - 1], p.id)])
  }

  /** A complete line: blank, comment, or field. */
  function EndLine(p: Reader): Reader {
    if p.line == "" then Dispatch(p)
    else if p.line[0] == ':' then p.(line := "")
    else
      var k := ColonFrom(p.line, 0);
      Process(p.(line := ""), p.line[..k], if k == |p.line| then "" else TrimOne(p.line[k + 1..]))
  }

  /** One more character; lines end at CRLF, LF or CR. */
  function Step(p: Reader, c: char): Reader {
    if c == '\n' && p.afterCr then p.(afterCr := false)
    else if IsNewline(c) then EndLine(p).(afterCr := c == '\r')
    else p.(line := p.line + [c], afterCr := false)
  }

  function Feed(p: Reader, s: string): Reader
    decreases |s|, p
  {
    if s == "" then p else Feed(Step(p, s[0]), s[1..])
  }

  function Data(events: seq<Event>): seq<string> {
    if events == [] then [] else Data(events[..|events| - 1]) + [events[|events| - 1].data]
  }

  // ------------------------------------------------ the writer

  /** One round of the receive loop. */
  datatype Poll = Message(data: string) | Quiet | TimedOut | Broken

  const HEARTBEAT := ": heartbeat\n\n"
  const DISCONNECTED := "data: {\"error\": \"Redis disconnected\"}\n\n"

  function Frame(data: string): string {
    "data: " + data + "\n\n"
  }

  /** The rounds before the first error. */
  function Received(polls: seq<Poll>): (r: seq<Poll>) {
    if polls == [] || polls[0].Broken? then [] else [polls[0]] + Received(polls[1..])
  }

  function FrameOf(poll: Poll): string {
    if poll.Message? then Frame(poll.data) else HEARTBEAT
  }

  function Wire(polls: seq<Poll>): string {
    if polls == [] then "" else FrameOf(polls[0]) + Wire(polls[1..])
  }

  function Payloads(polls: seq<Poll>): seq<string> {
    if polls == [] then []
    else (if polls[0].Message? then [polls[0].data] else []) + Payloads(polls[1..])
  }

  predicate SingleLine(polls: seq<Poll>) {
    forall i :: 0 <= i < |polls| && polls[i].Message? ==> OneLine(polls[i].data)
  }

  lemma {:induction false} WireAppend(polls: seq<Poll>, poll: Poll)
    ensures Wire(polls + [poll]) == Wire(polls) + FrameOf(poll)
    decreases |polls|
  {
    var all, last := polls + [poll], FrameOf(poll);
    if polls == [] {
      assert all[1..] == [];
      assert Wire(all) == last + "";
    } else {
      var head, rest := FrameOf(polls[0]), polls[1..];
      assert all[1..] == rest + [poll];
      WireAppend(rest, poll);
      assert Wire(all) == head + (Wire(rest) + last);
    }
  }

  lemma ReceivedPrefix(polls: seq<Poll>, n: nat)
    requires n <= |polls| && forall i :: 0 <= i < n ==> !polls[i].Broken?
    ensures n == |polls| || polls[n].Broken? ==> Received(polls) == polls[..n]
  {
    if n > 0 {
      ReceivedPrefix(polls[1..], n - 1);
      if n == |polls| || polls[n].Broken? {
        assert polls[..n] == [polls[0]] + polls[1..][..n - 1];
      }
    }
  }

  /** What the loop yields for a round that did not fail. */
  method Answer(poll: Poll) returns (frame: string)
    requires !poll.Broken?
    ensures frame == FrameOf(poll)
  {
    match poll {
      case Message(data) => frame := "data: " + data + "\n\n";
      case Quiet => frame := ": heartbeat\n\n";
      case TimedOut => frame := ": heartbeat\n\n";
    }
  }

  /** `subscribe`: what one subscriber is sent while the loop meets these rounds. */
  method Subscribe(connected: bool, polls: seq<Poll>) returns (sent: string)
    ensures sent == if connected then Wire(Received(polls)) else DISCONNECTED
    ensures connected ==> (Data(Feed(OPENED, sent).events) == Payloads(Received(polls)) <==>
              SingleLine(Received(polls)))
  {
    if !connected {
      sent := "data: {\"error\": \"Redis disconnected\"}\n\n";
      return;
    }
    sent := "";
    var i := 0;
    while i < |polls| && !polls[i].Broken?
      invariant 0 <= i <= |polls| && forall j :: 0 <= j < i ==> !polls[j].Broken?
      invariant sent == Wire(polls[..i])
    {
      var frame := Answer(polls[i]);
      sent := sent + frame;
      WireAppend(polls[..i], polls[i]);
      assert polls[..i + 1] == polls[..i] + [polls[i]];
      i := i + 1;
    }
    ReceivedPrefix(polls, i);
    StreamFaithfulExactly(Received(polls));
  }

  /** The three texts a subscriber can be sent. */
  lemma FrameTexts(data: string)
    ensures FrameOf(Message(data)) == "data: " + data + "\n\n"
    ensures FrameOf(Quiet) == ": heartbeat\n\n" && FrameOf(TimedOut) == ": heartbeat\n\n"
    ensures DISCONNECTED == "data: {\"error\": \"Redis disconnected\"}\n\n"
  {
  }

  // ------------------------------------------------ what the reader gets

  lemma {:induction false} FeedAppend(p: Reader, a: string, b: string)
    ensures Feed(p, a + b) == Feed(Feed(p, a), b)
    decreases |a|
  {
    if a == "" {
      assert a + b == b;
    } else {
      assert (a + b)[0] == a[0] && (a + b)[1..] == a[1..] + b;
      FeedAppend(Step(p, a[0]), a[1..], b);
    }
  }

  /** Text without a newline only extends the line. */
  lemma {:induction false} FeedText(p: Reader, s: string)
    requires OneLine(s) && !p.afterCr
    ensures Feed(p, s) == p.(line := p.line + s)
    decreases |s|
  {
    if s == "" {
      assert p.line + s == p.line;
    } else {
      assert !IsNewline(s[0]);
      assert OneLine(s[1..]);
      FeedText(Step(p, s[0]), s[1..]);
      assert p.line + [s[0]] + s[1..] == p.line + s;
    }
  }

  lemma FeedChar(p: Reader, c: char)
    ensures Feed(p, [c]) == Step(p, c)
  {
    assert [c][1..] == "";
  }

  lemma FeedTwo(p: Reader)
    ensures Feed(p, "\n\n") == Step(Step(p, '\n'), '\n')
  {
    FeedAppend(p, ['\n'], ['\n']);
    FeedChar(p, '\n');
    FeedChar(Step(p, '\n'), '\n');
    assert ['\n'] + ['\n'] == "\n\n";
  }

  /** Between frames. */
  predicate Clean(p: Reader) {
    p.line == "" && !p.afterCr && p.data == "" && p.name == ""
  }

  lemma DataLine(d: string)
    ensures var line := "data: " + d; ColonFrom(line, 0) == 4 && line[..4] == "data" && TrimOne(line[5..]) == d
  {
    var line := "data: " + d;
    assert line[0] == 'd' && line[1] == 'a' && line[2] == 't' && line[3] == 'a' && line[4] == ':';
    assert ColonFrom(line, 4) == 4 && ColonFrom(line, 3) == 4 && ColonFrom(line, 2) == 4 && ColonFrom(line, 1) == 4;
    assert line[5..] == " " + d;
  }

  /** A data line buffers its value. */
  lemma DataLineEnds(p: Reader, d: string, c: char)
    requires Clean(p) && OneLine(d) && IsNewline(c)
    ensures Step(Feed(p, "data: " + d), c) == p.(data := d + "\n", afterCr := c == '\r')
  {
    FeedText(p, "data: " + d);
    assert p.line + ("data: " + d) == "data: " + d;
    DataLine(d);
  }

  lemma MessageFrame(p: Reader, d: string)
    requires Clean(p) && OneLine(d)
    ensures Feed(p, Frame(d)) == p.(events := p.events + [Event("message", d, p.id)])
  {
    FeedAppend(p, "data: " + d, "\n\n");
    FeedTwo(Feed(p, "data: " + d));
    DataLineEnds(p, d, '\n');
    assert (d + "\n")[..|d|] == d;
  }

  lemma HeartbeatFrame(p: Reader)
    requires Clean(p)
    ensures Feed(p, HEARTBEAT) == p
  {
    var text := ": heartbeat";
    assert HEARTBEAT == text + "\n\n";
    FeedAppend(p, text, "\n\n");
    FeedText(p, text);
    assert p.line + text == text;
    FeedTwo(p.(line := text));
  }

  lemma {:induction false} DataAppend(a: seq<Event>, b: seq<Event>)
    ensures Data(a + b) == Data(a) + Data(b)
    decreases |b|
  {
    if b == [] {
      assert a + b == a;
    } else {
      assert (a + b)[..|a + b| - 1] == a + b[..|b| - 1];
      DataAppend(a, b[..|b| - 1]);
    }
  }

  lemma DataOne(events: seq<Event>, e: Event)
    ensures Data(events + [e]) == Data(events) + [e.data]
  {
    DataAppend(events, [e]);
    assert [e][..0] == [];
  }

  /** One unnamed event for each payload. */
  function Plain(polls: seq<Poll>, id: string): seq<Event> {
    if polls == [] then [] else PlainOne(polls[0], id) + Plain(polls[1..], id)
  }

  function PlainOne(poll: Poll, id: string): seq<Event> {
    if poll.Message? then [Event("message", poll.data, id)] else []
  }

  lemma {:induction false} PlainData(polls: seq<Poll>, id: string)
    ensures Data(Plain(polls, id)) == Payloads(polls)
    decreases |polls|
  {
    if polls != [] {
      PlainData(polls[1..], id);
      var one := PlainOne(polls[0], id);
      DataAppend(one, Plain(polls[1..], id));
      if polls[0].Message? {
        assert one[..0] == [];
      }
    }
  }

  lemma FrameReadsBack(p: Reader, poll: Poll)
    requires Clean(p) && (poll.Message? ==> OneLine(poll.data))
    ensures Feed(p, FrameOf(poll)) == p.(events := p.events + PlainOne(poll, p.id))
  {
    if poll.Message? {
      MessageFrame(p, poll.data);
    } else {
      HeartbeatFrame(p);
      assert p.events + [] == p.events;
    }
  }

  lemma SingleLineCons(polls: seq<Poll>)
    requires polls != []
    ensures SingleLine(polls) <==> (polls[0].Message? ==> OneLine(polls[0].data)) && SingleLine(polls[1..])
  {
    assert polls == [polls[0]] + polls[1..];
  }

  lemma FeedThen(p: Reader, frame: string, one: seq<Event>, text: string, more: seq<Event>)
    requires Feed(p, frame) == p.(events := p.events + one)
    requires var q := p.(events := p.events + one); Feed(q, text) == q.(events := q.events + more)
    ensures Feed(p, frame + text) == p.(events := p.events + (one + more))
  {
    FeedAppend(p, frame, text);
    assert p.events + one + more == p.events + (one + more);
  }

  /** From a clean reader, single-line payloads come out one event each, in order, and nothing else does. */
  lemma {:induction false} StreamReadsBack(p: Reader, polls: seq<Poll>)
    requires Clean(p) && SingleLine(polls)
    ensures Feed(p, Wire(polls)) == p.(events := p.events + Plain(polls, p.id))
    decreases |polls|
  {
    if polls == [] {
      assert p.events + [] == p.events;
    } else {
      SingleLineCons(polls);
      FrameReadsBack(p, polls[0]);
      StreamReadsBack(p.(events := p.events + PlainOne(polls[0], p.id)), polls[1..]);
      FeedThen(p, FrameOf(polls[0]), PlainOne(polls[0], p.id), Wire(polls[1..]), Plain(polls[1..], p.id));
    }
  }

  // ------------------------------------------------ payloads with a newline

  function Total(texts: seq<string>): nat {
    if texts == [] then 0 else Total(texts[..|texts| - 1]) + |texts[|texts| - 1]|
  }

  lemma {:induction false} TotalAppend(a: seq<string>, b: seq<string>)
    ensures Total(a + b) == Total(a) + Total(b)
  {
    if b == [] {
      assert a + b == a;
    } else {
      assert (a + b)[..|a + b| - 1] == a + b[..|b| - 1];
      TotalAppend(a, b[..|b| - 1]);
    }
  }

  /** The most text the reader can still deliver from what it has read. */
  function Weight(p: Reader): int {
    Total(Data(p.events)) + (if p.data == "" then 0 else |p.data| - 1) + |p.line|
  }

  lemma EndLineLosesNothing(p: Reader)
    ensures Weight(EndLine(p)) <= Weight(p) && EndLine(p).line == ""
  {
    if p.line == "" && p.data != "" {
      var e := Event(if p.name == "" then "message" else p.name, p.data[..|p.data| - 1], p.id);
      DataOne(p.events, e);
      TotalAppend(Data(p.events), [e.data]);
      assert Total([e.data]) == |e.data| by {
        assert [e.data][..0] == [];
      }
    }
  }

  /** No character adds more than itself. */
  lemma StepAdds(p: Reader, c: char)
    ensures Weight(Step(p, c)) <= Weight(p) + if IsNewline(c) then 0 else 1
  {
    EndLineLosesNothing(p);
  }

  lemma {:induction false} FeedAdds(p: Reader, s: string)
    ensures Weight(Feed(p, s)) <= Weight(p) + |s|
    decreases |s|
  {
    if s != "" {
      StepAdds(p, s[0]);
      FeedAdds(Step(p, s[0]), s[1..]);
    }
  }

  predicate Settled(p: Reader) {
    p.afterCr ==> p.line == ""
  }

  lemma {:induction false} FeedSettled(p: Reader, s: string)
    requires Settled(p)
    ensures Settled(Feed(p, s))
    decreases |s|
  {
    if s != "" {
      EndLineLosesNothing(p);
      FeedSettled(Step(p, s[0]), s[1..]);
    }
  }

  lemma BlankLineCleans(p: Reader)
    requires Settled(p)
    ensures Clean(Feed(p, "\n\n")) && Weight(Feed(p, "\n\n")) <= Weight(p)
  {
    FeedTwo(p);
    EndLineLosesNothing(p);
    StepAdds(p, '\n');
    StepAdds(Step(p, '\n'), '\n');
  }

  /** The first line of such a payload is buffered as data; the rest adds at most its own length. */
  lemma FirstLineBuffered(p: Reader, d: string, k: nat)
    requires Clean(p) && k < |d| && OneLine(d[..k]) && IsNewline(d[k])
    ensures Feed(p, "data: " + d) == Feed(p.(data := d[..k] + "\n", afterCr := d[k] == '\r'), d[k + 1..])
  {
    var start, rest := "data: " + d[..k], d[k + 1..];
    assert d == d[..k] + ([d[k]] + rest);
    assert "data: " + d == start + ([d[k]] + rest);
    FeedAppend(p, start, [d[k]] + rest);
    FeedAppend(Feed(p, start), [d[k]], rest);
    FeedChar(Feed(p, start), d[k]);
    DataLineEnds(p, d[..k], d[k]);
  }

  /** A payload with a newline delivers less text than it holds. */
  lemma BrokenFrameLoses(p: Reader, d: string, k: nat)
    requires Clean(p) && k < |d| && OneLine(d[..k]) && IsNewline(d[k])
    ensures Clean(Feed(p, Frame(d))) && Total(Data(Feed(p, Frame(d)).events)) < Total(Data(p.events)) + |d|
  {
    var q, rest := p.(data := d[..k] + "\n", afterCr := d[k] == '\r'), d[k + 1..];
    FirstLineBuffered(p, d, k);
    FeedAppend(p, "data: " + d, "\n\n");
    FeedAdds(q, rest);
    FeedSettled(q, rest);
    BlankLineCleans(Feed(q, rest));
  }

  lemma FirstNewline(d: string) returns (k: nat)
    requires !OneLine(d)
    ensures k < |d| && OneLine(d[..k]) && IsNewline(d[k])
  {
    k := 0;
    while !IsNewline(d[k])
      invariant k < |d| && OneLine(d[..k])
      invariant exists i :: k <= i < |d| && IsNewline(d[i])
      decreases |d| - k
    {
      k := k + 1;
    }
  }

  /** Every frame leaves the reader clean and delivers at most its payload's length, less when that has a newline. */
  lemma FrameDelivers(p: Reader, poll: Poll)
    requires Clean(p)
    ensures var q := Feed(p, FrameOf(poll)); var size := if poll.Message? then |poll.data| else 0;
            && Clean(q)
            && Total(Data(q.events)) <= Total(Data(p.events)) + size
            && (poll.Message? && !OneLine(poll.data) ==> Total(Data(q.events)) < Total(Data(p.events)) + size)
  {
    if poll.Message? {
      if OneLine(poll.data) {
        MessageFrame(p, poll.data);
        DataOne(p.events, Event("message", poll.data, p.id));
        TotalAppend(Data(p.events), [poll.data]);
        assert Total([poll.data]) == |poll.data| by {
          assert [poll.data][..0] == [];
        }
      } else {
        var k := FirstNewline(poll.data);
        BrokenFrameLoses(p, poll.data, k);
      }
    } else {
      HeartbeatFrame(p);
    }
  }

  lemma {:induction false} StreamDelivers(p: Reader, polls: seq<Poll>)
    requires Clean(p)
    ensures var n, m := Total(Data(Feed(p, Wire(polls)).events)), Total(Data(p.events)) + Total(Payloads(polls));
            n <= m && (!SingleLine(polls) ==> n < m)
    decreases |polls|
  {
    if polls != [] {
      var rest := polls[1..];
      var q := Feed(p, FrameOf(polls[0]));
      FeedAppend(p, FrameOf(polls[0]), Wire(rest));
      FrameDelivers(p, polls[0]);
      StreamDelivers(q, rest);
      var head := if polls[0].Message? then [polls[0].data] else [];
      TotalAppend(head, Payloads(rest));
      assert Total(head) == if polls[0].Message? then |polls[0].data| else 0 by {
        assert |head| == 1 ==> head[..0] == [];
      }
      SingleLineCons(polls);
    }
  }

  lemma SingleLineMeans(polls: seq<Poll>)
    ensures SingleLine(polls)
       <==> forall i :: 0 <= i < |polls| && polls[i].Message? ==> '\r' !in polls[i].data && '\n' !in polls[i].data
  {
    forall d: string ensures OneLine(d) <==> '\r' !in d && '\n' !in d {
      assert forall k :: 0 <= k < |d| ==> d[k] in d;
    }
  }

  /** The reader of a subscription gets exactly the published payloads if and only if none has a newline in it. */
  lemma StreamFaithfulExactly(polls: seq<Poll>)
    ensures Data(Feed(OPENED, Wire(polls)).events) == Payloads(polls) <==> SingleLine(polls)
  {
    StreamDelivers(OPENED, polls);
    if SingleLine(polls) {
      StreamReadsBack(OPENED, polls);
      DataAppend([], Plain(polls, ""));
      PlainData(polls, "");
    }
  }

  lemma {:induction false} EventsGrow(p: Reader, s: string)
    ensures p.events <= Feed(p, s).events
    decreases |s|
  {
    if s != "" {
      EventsGrow(Step(p, s[0]), s[1..]);
    }
  }

  lemma {:induction false} DataPrefix(a: seq<Event>, b: seq<Event>)
    requires a <= b
    ensures Data(a) <= Data(b)
    decreases |b|
  {
    if a != b {
      DataPrefix(a, b[..|b| - 1]);
    }
  }

  /** A connection cut anywhere, inside a frame too, delivers a prefix of the payloads. */
  lemma CutStreamDeliversPrefix(polls: seq<Poll>, n: nat)
    requires SingleLine(polls) && n <= |Wire(polls)|
    ensures Data(Feed(OPENED, Wire(polls)[..n]).events) <= Payloads(polls)
  {
    var cut, rest := Wire(polls)[..n], Wire(polls)[n..];
    assert cut + rest == Wire(polls);
    FeedAppend(OPENED, cut, rest);
    EventsGrow(Feed(OPENED, cut), rest);
    DataPrefix(Feed(OPENED, cut).events, Feed(OPENED, Wire(polls)).events);
    StreamFaithfulExactly(polls);
  }
}
