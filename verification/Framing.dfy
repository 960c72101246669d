// Framing of messages on the socket by jsonrpc.js: a hexadecimal length, a line end,
// the message and a line end.
module Framing {
  import opened Outcomes
  import opened Hexadecimal

  const MAX_MESSAGE_SIZE := 64 * 1024

  const LINE_END := "\r\n"

  // ---------- frames ----------

  // The packet that sendMessage writes.
  function Frame(message: string): (p: string)
    ensures |p| == |Hex(|message|)| + |message| + 4
  {
    Hex(|message|) + LINE_END + message + LINE_END
  }

  function Frames(messages: seq<string>): string
    decreases |messages|
  {
    if messages == [] then "" else Frame(messages[0]) + Frames(messages[1..])
  }

  // buffer.indexOf('\r\n', from), or -1
  function IndexOfLineEnd(s: string, from: nat): (k: int)
    ensures k == -1 || from <= k <= |s| - 2
    ensures k >= 0 ==> s[k] == '\r' && s[k + 1] == '\n'
    ensures forall j :: from <= j < (if k < 0 then |s| - 1 else k) ==> !(s[j] == '\r' && s[j + 1] == '\n')
    decreases |s| - from
  {
    if from + 2 > |s| then -1
    else if s[from] == '\r' && s[from + 1] == '\n' then from
    else IndexOfLineEnd(s, from + 1)
  }

  // What is at the front of a buffer within the limit: a complete frame and the text
  // after it, or less than that, or a header that is not a number.
  datatype First = Complete(message: string, rest: string) | Incomplete | Malformed

  function FirstOf(buffer: string): (f: First)
    ensures f.Complete? ==> |f.rest| < |buffer|
  {
    var pos := IndexOfLineEnd(buffer, 0);
    if pos < 0 then Incomplete
    else match ParseHex(buffer[..pos])
      case None => Malformed
      case Some(size) =>
        if |buffer| < pos + size + 4 then Incomplete
        else Complete(buffer[pos + 2..pos + 2 + size], buffer[pos + size + 4..])
  }

  // What reading a buffer gives: the messages delivered, what stays in the buffer, and
  // whether the reader met a header that is not a number.
  datatype Reading = Reading(messages: seq<string>, rest: string, malformed: bool)

  function Read(buffer: string): Reading
    decreases |buffer|
  {
    if buffer == "" || |buffer| > MAX_MESSAGE_SIZE then Reading([], "", false)
    else match FirstOf(buffer)
      case Incomplete => Reading([], buffer, false)
      case Malformed => Reading([], buffer, true)
      case Complete(message, rest) =>
        var r := Read(rest);
        Reading([message] + r.messages, r.rest, r.malformed)
  }

  lemma FirstIs(buffer: string, pos: int, size: nat)
    requires pos == IndexOfLineEnd(buffer, 0) >= 0
    requires ParseHex(buffer[..pos]) == Some(size) && |buffer| >= pos + size + 4
    ensures FirstOf(buffer) == Complete(buffer[pos + 2..pos + 2 + size], buffer[pos + size + 4..])
  {
    hide ParseHex, IndexOfLineEnd;
  }

  lemma ReadStep(buffer: string, pos: int, size: nat)
    requires |buffer| <= MAX_MESSAGE_SIZE && pos == IndexOfLineEnd(buffer, 0) >= 0
    requires ParseHex(buffer[..pos]) == Some(size) && |buffer| >= pos + size + 4
    ensures var r := Read(buffer[pos + size + 4..]);
            Read(buffer) == Reading([buffer[pos + 2..pos + 2 + size]] + r.messages, r.rest, r.malformed)
  {
    hide ParseHex, IndexOfLineEnd, FirstOf;
    FirstIs(buffer, pos, size);
  }

  // Where reading a buffer delivers nothing.
  lemma ReadStops(buffer: string)
    ensures buffer == "" || |buffer| > MAX_MESSAGE_SIZE ==> Read(buffer) == Reading([], "", false)
    ensures buffer != "" && |buffer| <= MAX_MESSAGE_SIZE ==>
      var pos := IndexOfLineEnd(buffer, 0);
      && (pos < 0 ==> Read(buffer) == Reading([], buffer, false))
      && (pos >= 0 ==>
        match ParseHex(buffer[..pos])
        case None => Read(buffer) == Reading([], buffer, true)
        case Some(size) => |buffer| < pos + size + 4 ==> Read(buffer) == Reading([], buffer, false))
  {
    hide ParseHex, IndexOfLineEnd;
  }

  // The first of the messages to come moves to those delivered.
  lemma OneMore(done: seq<string>, message: string, more: seq<string>)
    ensures done + ([message] + more) == (done + [message]) + more
  {
  }

  // One turn of the loop of _onSocketData: the message it delivers, if it goes on.
  method NextMessage(buffer: string) returns (message: Option<string>, rest: string, malformed: bool)
    requires buffer != ""
    ensures message == None ==> Read(buffer) == Reading([], rest, malformed)
    ensures message.Some? ==> |rest| < |buffer|
    ensures message.Some? ==> var r := Read(rest);
                              Read(buffer) == Reading([message.value] + r.messages, r.rest, r.malformed)
  {
    hide Read, IndexOfLineEnd, ParseHex;
    ReadStops(buffer);
    if |buffer| > MAX_MESSAGE_SIZE {
      return None, "", false;
    }
    var pos := IndexOfLineEnd(buffer, 0);
    if pos < 0 {
      return None, buffer, false;
    }
    var value := ParseHex(buffer[..pos]);
    if value == None {
      return None, buffer, true;
    }
    var size := value.value;
    var chunkSize := pos + size + 4;
    if |buffer| < chunkSize {
      return None, buffer, false;
    }
    ReadStep(buffer, pos, size);
    return Some(buffer[pos + 2..pos + 2 + size]), buffer[chunkSize..], false;
  }

  class Reader {
    var readBuffer: string
    var malformed: bool
    ghost var delivered: seq<string>

    constructor ()
      ensures readBuffer == "" && !malformed && delivered == []
    {
      readBuffer, malformed, delivered := "", false, [];
    }

    // _onSocketData, on the decoded text.
    method OnSocketData(data: string)
      requires !malformed
      modifies this
      ensures var r := Read(old(readBuffer) + data);
              readBuffer == r.rest && malformed == r.malformed && delivered == old(delivered) + r.messages
    {
      readBuffer := readBuffer + data;
      ghost var all, before := Read(readBuffer), delivered;
      ghost var todo := all;
      hide Read, IndexOfLineEnd, ParseHex;
      while readBuffer != ""
        invariant todo == Read(readBuffer) && todo.rest == all.rest && todo.malformed == all.malformed
        invariant delivered + todo.messages == before + all.messages
        invariant !malformed
        decreases |readBuffer|
      {
        var message, rest, bad := NextMessage(readBuffer);
        readBuffer := rest;
        if message == None {
          malformed := bad;
          return;
        }
        todo := Read(readBuffer);
        OneMore(delivered, message.value, todo.messages);
        delivered := delivered + [message.value];
      }
      ReadStops("");
    }
  }

  // ---------- a stream in chunks ----------

  // Reading chunk after chunk; nothing more is read after a malformed header.
  function Feed(buffer: string, chunks: seq<string>): Reading
    decreases |chunks|
  {
    if chunks == [] then Reading([], buffer, false)
    else
      var r := Read(buffer + chunks[0]);
      if r.malformed then r
      else
        var t := Feed(r.rest, chunks[1..]);
        Reading(r.messages + t.messages, t.rest, t.malformed)
  }

  // No chunk takes the buffer over the limit.
  predicate Fits(buffer: string, chunks: seq<string>)
    decreases |chunks|
  {
    chunks != [] ==>
      |buffer + chunks[0]| <= MAX_MESSAGE_SIZE && Fits(Read(buffer + chunks[0]).rest, chunks[1..])
  }

  function Concat(chunks: seq<string>): string
    decreases |chunks|
  {
    if chunks == [] then "" else chunks[0] + Concat(chunks[1..])
  }

  // messages is the longest prefix of the bodies whose frames are complete in text, and
  // rest is what follows them.
  ghost predicate LongestPrefix(text: string, bodies: seq<string>, r: Reading) {
    && !r.malformed && r.messages <= bodies
    && text == Frames(r.messages) + r.rest
    && (|r.messages| < |bodies| ==> |r.rest| < |Frame(bodies[|r.messages|])|)
  }

  // The first line end of a text that begins with digits.
  lemma LineEndAfter(h: string, text: string, all: string)
    requires AllDigits(h) && |all| >= |h| + 2 && |text| <= |all|
    requires forall j :: 0 <= j < |text| ==> text[j] == all[j]
    requires forall j :: 0 <= j < |h| ==> all[j] == h[j]
    requires all[|h|] == '\r' && all[|h| + 1] == '\n'
    ensures IndexOfLineEnd(text, 0) == if |text| >= |h| + 2 then |h| else -1
  {
    assert DigitValue('\r') == -1 && DigitValue('\n') == -1;
    assert forall j :: 0 <= j < |h| ==> all[j] != '\r';
  }

  // The line end of a frame, complete or not, is after its length.
  lemma HeaderOf(text: string, body: string, more: string)
    requires text <= Frame(body) + more
    ensures var h := |Hex(|body|)|;
            IndexOfLineEnd(text, 0) == if |text| >= h + 2 then h else -1
    ensures |text| >= |Hex(|body|)| ==> text[..|Hex(|body|)|] == Hex(|body|)
  {
    var all, h := Frame(body) + more, Hex(|body|);
    hide Hex;
    assert all == h + LINE_END + body + LINE_END + more;
    hide Frame;
    LineEndAfter(h, text, all);
  }

  lemma FrameParts(body: string, more: string)
    ensures var text, h := Frame(body) + more, |Hex(|body|)|;
            text[h + 2..h + 2 + |body|] == body && text[h + |body| + 4..] == more
  {
    var h := Hex(|body|);
    hide Hex;
    assert Frame(body) + more == h + LINE_END + body + LINE_END + more;
  }

  // Reading a complete frame delivers it.
  lemma ReadFrame(text: string, body: string, more: string)
    requires |text| <= 65536 && text == Frame(body) + more
    ensures var r := Read(more);
            Read(text) == Reading([body] + r.messages, r.rest, r.malformed)
  {
    hide Hex, Read, Frame, IndexOfLineEnd, ParseHex;
    var h := |Hex(|body|)|;
    HeaderOf(text, body, more);
    HexRoundTrip(|body|);
    FrameParts(body, more);
    ReadStep(text, h, |body|);
  }

  // Reading less than a frame delivers nothing.
  lemma ReadPart(text: string, body: string)
    requires |text| <= 65536 && text <= Frame(body) && |text| < |Frame(body)|
    ensures Read(text) == Reading([], text, false)
  {
    hide Hex, Read, Frame, IndexOfLineEnd, ParseHex;
    assert Frame(body) + "" == Frame(body);
    HeaderOf(text, body, "");
    HexRoundTrip(|body|);
    ReadStops(text);
  }

  // A buffer of more than 64 KiB is dropped.
  lemma ReadDropped(text: string)
    requires |text| > 65536
    ensures Read(text) == Reading([], "", false)
  {
    ReadStops(text);
  }

  // The packet for a message of 26 characters.
  lemma FrameText(body: string)
    requires |body| == 26
    ensures Frame(body) == "1a\r\n" + body + "\r\n"
  {
    assert Hex(1) == "1" && Hex(26) == Hex(1) + "a";
    hide Hex;
    assert "1" + "a" + LINE_END == "1a\r\n";
  }

  // ---------- what a stream delivers ----------

  // Reading a prefix of a stream of frames.
  lemma {:induction false} ReadStream(text: string, bodies: seq<string>)
    requires |text| <= MAX_MESSAGE_SIZE && text <= Frames(bodies)
    ensures LongestPrefix(text, bodies, Read(text))
    decreases |bodies|
  {
    if bodies != [] {
      var body, f := bodies[0], Frame(bodies[0]);
      if |text| >= |f| {
        var more := text[|f|..];
        PrefixTail(text, f, Frames(bodies[1..]));
        ReadStream(more, bodies[1..]);
        ReadFrame(text, body, more);
        LongestMore(more, body, bodies[1..], Read(more));
      } else {
        assert text <= f;
        ReadPart(text, body);
      }
    }
  }

  lemma PrefixTail(text: string, f: string, g: string)
    requires text <= f + g && |text| >= |f|
    ensures text == f + text[|f|..] && text[|f|..] <= g
  {
    assert forall j :: 0 <= j < |text| ==> text[j] == (f + g)[j];
  }

  lemma LongestMore(more: string, body: string, bodies: seq<string>, r: Reading)
    requires LongestPrefix(more, bodies, r)
    ensures LongestPrefix(Frame(body) + more, [body] + bodies, Reading([body] + r.messages, r.rest, r.malformed))
  {
    hide Frame;
    var m := [body] + r.messages;
    assert m[1..] == r.messages;
    assert Frame(body) + (Frames(r.messages) + r.rest) == (Frame(body) + Frames(r.messages)) + r.rest;
  }

  lemma {:induction false} FramesAppend(a: seq<string>, b: seq<string>)
    ensures Frames(a + b) == Frames(a) + Frames(b)
    decreases |a|
  {
    hide Frame;
    if a == [] {
      assert a + b == b;
    } else {
      assert (a + b)[1..] == a[1..] + b;
      FramesAppend(a[1..], b);
    }
  }

  // However a stream of frames is cut, while no chunk takes the buffer over the limit:
  // at each point exactly the messages with a complete frame have been delivered, in
  // order, and the rest is in the buffer.
  lemma {:induction false} DeliversInOrder(buffer: string, chunks: seq<string>, bodies: seq<string>)
    requires Fits(buffer, chunks) && buffer + Concat(chunks) <= Frames(bodies)
    requires LongestPrefix(buffer, bodies, Reading([], buffer, false))
    ensures LongestPrefix(buffer + Concat(chunks), bodies, Feed(buffer, chunks))
    decreases |chunks|
  {
    if chunks == [] {
      assert buffer + "" == buffer;
    } else {
      hide Read, LongestPrefix, Frames, Feed, Fits;
      var text, more := buffer + chunks[0], Concat(chunks[1..]);
      Assoc(buffer, chunks[0], more);
      var r := Read(text);
      FeedFirst(buffer, chunks);
      ReadStream(text, bodies);
      StreamRest(text, more, bodies, r);
      DeliversInOrder(r.rest, chunks[1..], bodies[|r.messages|..]);
      LongestJoin(text, r, more, bodies, Feed(r.rest, chunks[1..]));
    }
  }

  lemma Assoc(a: string, b: string, c: string)
    ensures a + (b + c) == (a + b) + c
  {
  }

  lemma FeedFirst(buffer: string, chunks: seq<string>)
    requires chunks != []
    ensures Fits(buffer, chunks) ==>
      |buffer + chunks[0]| <= MAX_MESSAGE_SIZE && Fits(Read(buffer + chunks[0]).rest, chunks[1..])
    ensures var r := Read(buffer + chunks[0]);
            var t := Feed(r.rest, chunks[1..]);
            !r.malformed ==> Feed(buffer, chunks) == Reading(r.messages + t.messages, t.rest, t.malformed)
  {
    hide Read;
  }

  lemma PrefixParts(text: string, bodies: seq<string>, r: Reading)
    requires LongestPrefix(text, bodies, r)
    ensures !r.malformed && |r.messages| <= |bodies| && text == Frames(r.messages) + r.rest
    ensures bodies == r.messages + bodies[|r.messages|..]
  {
    hide Frame, Frames;
  }

  lemma StreamRest(text: string, more: string, bodies: seq<string>, r: Reading)
    requires LongestPrefix(text, bodies, r) && text + more <= Frames(bodies)
    ensures !r.malformed && |r.messages| <= |bodies| && r.rest + more <= Frames(bodies[|r.messages|..])
    ensures LongestPrefix(r.rest, bodies[|r.messages|..], Reading([], r.rest, false))
  {
    hide *;
    PrefixParts(text, bodies, r);
    RestIsPart(text, bodies, r);
    var m, later := r.messages, bodies[|r.messages|..];
    FramesAppend(m, later);
    RestFits(text, Frames(bodies), Frames(m), r.rest, more, Frames(later));
  }

  lemma RestIsPart(text: string, bodies: seq<string>, r: Reading)
    requires LongestPrefix(text, bodies, r)
    ensures LongestPrefix(r.rest, bodies[|r.messages|..], Reading([], r.rest, false))
  {
    hide Frame;
    assert "" + r.rest == r.rest;
  }

  lemma RestFits(text: string, all: string, done: string, rest: string, more: string, later: string)
    requires text == done + rest && all == done + later && text + more <= all
    ensures rest + more <= later
  {
    assert forall j :: 0 <= j < |rest + more| ==> (rest + more)[j] == (text + more)[|done| + j];
    assert forall j :: 0 <= j < |later| ==> later[j] == all[|done| + j];
  }

  lemma LongestJoin(text: string, r: Reading, more: string, bodies: seq<string>, t: Reading)
    requires LongestPrefix(text, bodies, r) && |r.messages| <= |bodies|
    requires LongestPrefix(r.rest + more, bodies[|r.messages|..], t)
    ensures LongestPrefix(text + more, bodies, Reading(r.messages + t.messages, t.rest, t.malformed))
  {
    hide Frame;
    var m := r.messages + t.messages;
    FramesAppend(r.messages, t.messages);
    assert forall j :: 0 <= j < |m| ==> m[j] == bodies[j];
    assert |m| < |bodies| ==> bodies[|r.messages|..][|t.messages|] == bodies[|m|];
    Regroup(Frames(r.messages), r.rest, more, Frames(t.messages), t.rest);
  }

  lemma Regroup(a: string, x: string, more: string, b: string, c: string)
    requires x + more == b + c
    ensures (a + x) + more == (a + b) + c
  {
    assert (a + x) + more == a + (x + more);
  }

  // ---------- when everything arrives ----------

  lemma FramesMore(body: string, more: seq<string>)
    ensures |Frames([body] + more)| == |Frame(body)| + |Frames(more)|
  {
    hide Frame;
    assert ([body] + more)[1..] == more;
  }

  function Cost(r: Reading): nat { |Frames(r.messages)| + |r.rest| }

  // What a delivered message and the rest of its buffer take.
  lemma CostMore(text: string, pos: int, size: nat)
    requires |text| <= MAX_MESSAGE_SIZE && pos == IndexOfLineEnd(text, 0) >= 0
    requires ParseHex(text[..pos]) == Some(size) && |text| >= pos + size + 4
    ensures Cost(Read(text)) <= pos + size + 4 + Cost(Read(text[pos + size + 4..]))
  {
    hide Read, IndexOfLineEnd, Frame, Frames, ParseHex;
    HexShortest(text[..pos]);
    ReadStep(text, pos, size);
    FramesMore(text[pos + 2..pos + 2 + size], Read(text[pos + size + 4..]).messages);
  }

  // What reading the first complete frame takes, or 0 where there is none.
  function FirstTaken(text: string): (n: nat)
    ensures n <= |text|
  {
    var pos := IndexOfLineEnd(text, 0);
    if |text| > MAX_MESSAGE_SIZE || pos < 0 then 0
    else match ParseHex(text[..pos])
      case None => 0
      case Some(size) => if |text| < pos + size + 4 then 0 else pos + size + 4
  }

  lemma NoneCost(text: string)
    requires FirstTaken(text) == 0
    ensures Cost(Read(text)) <= |text|
  {
    assert Frames([]) == "";
    hide Read, IndexOfLineEnd, Frame, Frames, ParseHex;
    ReadStops(text);
  }

  lemma FirstCost(text: string)
    requires FirstTaken(text) > 0
    ensures Cost(Read(text)) <= FirstTaken(text) + Cost(Read(text[FirstTaken(text)..]))
  {
    hide Read, IndexOfLineEnd, Frame, Frames, ParseHex, Cost;
    var pos := IndexOfLineEnd(text, 0);
    CostMore(text, pos, FirstTaken(text) - pos - 4);
  }

  // What is delivered takes at least the length of its frames out of the stream.
  lemma {:induction false} ReadCost(text: string)
    ensures Cost(Read(text)) <= |text|
    decreases |text|
  {
    hide *;
    var n := FirstTaken(text);
    if n == 0 {
      NoneCost(text);
    } else {
      FirstCost(text);
      ReadCost(text[n..]);
    }
  }

  lemma {:induction false} FeedCost(buffer: string, chunks: seq<string>)
    ensures var f, size := Feed(buffer, chunks), |buffer| + |Concat(chunks)|;
            !f.malformed ==> |Frames(f.messages)| <= (if Fits(buffer, chunks) then size else size - 1)
    decreases |chunks|
  {
    hide Read, Frame;
    if chunks != [] {
      var r := Read(buffer + chunks[0]);
      ReadCost(buffer + chunks[0]);
      ReadStops(buffer + chunks[0]);
      if !r.malformed {
        var t := Feed(r.rest, chunks[1..]);
        FeedCost(r.rest, chunks[1..]);
        FramesAppend(r.messages, t.messages);
      }
    }
  }

  lemma AllOfThem(bodies: seq<string>, r: Reading)
    requires LongestPrefix(Frames(bodies), bodies, r)
    ensures r.messages == bodies
  {
    var later := bodies[|r.messages|..];
    if later != [] {
      assert later[0] == bodies[|r.messages|];
      assert |Frames(later)| >= |Frame(later[0])|;
    }
    hide Frame, Frames;
    PrefixParts(Frames(bodies), bodies, r);
    FramesAppend(r.messages, later);
  }

  // A stream of whole frames is delivered, all of it, exactly when no chunk takes the
  // buffer over the limit.
  lemma WholeDelivery(chunks: seq<string>, bodies: seq<string>)
    requires Concat(chunks) == Frames(bodies)
    ensures Feed("", chunks).messages == bodies && !Feed("", chunks).malformed <==> Fits("", chunks)
  {
    FeedCost("", chunks);
    if Fits("", chunks) {
      assert LongestPrefix("", bodies, Reading([], "", false));
      assert "" + Concat(chunks) == Frames(bodies);
      hide Feed, Fits, Frames, Concat;
      DeliversInOrder("", chunks, bodies);
      AllOfThem(bodies, Feed("", chunks));
    }
  }

  const LONG_BODY: string := seq(40000, _ => 'x')

  // Two messages that come in one chunk over the limit are lost; each in its own chunk
  // they arrive.
  lemma LongChunkLost()
    ensures var f, b := Frame(LONG_BODY), LONG_BODY;
            && !Fits("", [f + f]) && Feed("", [f + f]) == Reading([], "", false)
            && Feed("", [f, f]).messages == [b, b]
  {
    var f, b := Frame(LONG_BODY), LONG_BODY;
    LongLength();
    hide Read, Frame;
    assert "" + (f + f) == f + f && "" + f == f;
    ReadStops(f + f);
    OneChunk(f + f);
    OneChunkEach(f, b);
    hide *;
    WholeDelivery([f, f], [b, b]);
  }

  lemma LongLength()
    ensures |Frame(LONG_BODY)| == 40008
  {
    assert Hex(9) == [Digit(9)];
    assert Hex(156) == Hex(9) + [Digit(12)];
    assert Hex(2500) == Hex(156) + [Digit(4)];
    assert Hex(40000) == Hex(2500) + [Digit(0)];
  }

  lemma OneChunk(text: string)
    requires |text| > MAX_MESSAGE_SIZE
    ensures !Fits("", [text]) && Feed("", [text]) == Reading([], "", false)
  {
    hide Read;
    assert "" + text == text && [text][1..] == [];
    ReadStops(text);
    assert Feed("", []) == Reading([], "", false);
  }

  lemma WholeFrame(f: string, b: string)
    requires f == Frame(b) && |f| <= MAX_MESSAGE_SIZE
    ensures Read("" + f).rest == ""
  {
    hide Read, Frame;
    assert "" + f == f && f + "" == f;
    ReadFrame(f, b, "");
    ReadStops("");
  }

  lemma OneChunkEach(f: string, b: string)
    requires f == Frame(b) && |f| <= MAX_MESSAGE_SIZE
    ensures Concat([f, f]) == Frames([b, b]) && Fits("", [f, f])
  {
    hide Read, Frame;
    WholeFrame(f, b);
    assert [f, f][1..] == [f] && [f][1..] == [] && [b, b][1..] == [b] && [b][1..] == [];
    assert f + "" == f;
    assert Concat([]) == "" && Concat([f]) == f && Concat([f, f]) == f + f;
    assert Frames([]) == "" && Frames([b]) == f && Frames([b, b]) == f + f;
    assert Fits("", []) && Fits("", [f]);
  }
}
