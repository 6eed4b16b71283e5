/** A message of the web server over its one fixed buffer: reading a request, writing and streaming a response. */
module HttpMessage {
  import opened HttpSend
  import opened HttpText

  function Min(a: int, b: int): int { if a <= b then a else b }

  /** Appending to a fixed string of `capacity` characters silently drops what does not fit. */
  function Append(buffer: string, text: string, capacity: nat): (r: string)
    requires |buffer| <= capacity
    ensures |r| <= capacity && buffer <= r
  {
    buffer + text[..Min(|text|, capacity - |buffer|)]
  }

  function Truncated(headers: seq<Header>, max: nat): seq<Header> {
    headers[..Min(|headers|, max)]
  }

  lemma TruncatedPush(headers: seq<Header>, h: Header, max: nat)
    ensures Truncated(headers + [h], max)
         == if |headers| < max then Truncated(headers, max) + [h] else Truncated(headers, max)
  {
  }

  /** `seen` are the header lines of `text` before `view`. */
  ghost predicate Progress(text: string, seen: seq<Header>, view: string) {
    HeaderLines(text) == (seen + HeaderLines(view).0, HeaderLines(view).1)
  }

  lemma Regroup<T>(a: seq<T>, x: T, b: seq<T>)
    ensures a + ([x] + b) == a + [x] + b
  {
  }

  lemma ProgressStep(text: string, seen: seq<Header>, view: string)
    requires Progress(text, seen, view) && ExtractLine(view).key != ""
    ensures Progress(text, seen + [HeaderOf(ExtractLine(view))], ExtractNewline(ExtractLine(view).rest).1)
  {
    Regroup(seen, HeaderOf(ExtractLine(view)), HeaderLines(ExtractNewline(ExtractLine(view).rest).1).0);
  }

  lemma ProgressEnd(text: string, seen: seq<Header>, view: string)
    requires Progress(text, seen, view) && ExtractLine(view).key == ""
    ensures HeaderLines(text) == (seen, ExtractLine(view).rest)
  {
    assert seen + [] == seen;
  }

  function Frames(n: nat, frame: nat): nat {
    if n == 0 then 0 else frame + Frames(n - 1, frame)
  }

  lemma {:induction false} FramesProduct(n: nat, frame: nat)
    ensures Frames(n, frame) == n * frame
  {
    if n > 0 {
      FramesProduct(n - 1, frame);
      assert n * frame == frame + (n - 1) * frame;
    }
  }

  // ---- the frames of a body ----

  /** The frames that go out when `text` is written to a buffer of `frame` bytes that holds `buffer`, in at most `turns`
      turns. */
  function FullFrames(buffer: string, text: string, frame: nat, turns: nat): seq<string>
    requires |buffer| <= frame
    decreases turns, |text|
  {
    if turns == 0 || text == "" then []
    else
      var size := Min(|text|, frame - |buffer|);
      var filled := buffer + text[..size];
      if |filled| == frame then [filled] + FullFrames("", text[size..], frame, turns - 1)
      else FullFrames(filled, text[size..], frame, turns - 1)
  }

  /** What the buffer holds behind them. */
  function LeftIn(buffer: string, text: string, frame: nat, turns: nat): (left: string)
    requires |buffer| <= frame
    ensures |left| <= frame && (0 < frame && 0 < turns && text != "" ==> |left| < frame)
    decreases turns, |text|
  {
    if turns == 0 || text == "" then buffer
    else
      var size := Min(|text|, frame - |buffer|);
      var filled := buffer + text[..size];
      if |filled| == frame then LeftIn("", text[size..], frame, turns - 1)
      else LeftIn(filled, text[size..], frame, turns - 1)
  }

  /** How many bytes fit into that many turns. */
  function Capacity(buffer: string, frame: nat, turns: nat): nat
    requires |buffer| <= frame
  {
    if turns == 0 then 0 else frame - |buffer| + Frames(turns - 1, frame)
  }

  lemma JoinFirst(frame: string, frames: seq<string>)
    ensures Join([frame] + frames) == frame + Join(frames)
  {
  }

  /** The frames and what is left are buffer and text, in order, as far as the text fits into the turns. */
  lemma {:induction false} FramesExact(buffer: string, text: string, frame: nat, turns: nat)
    requires |buffer| <= frame
    ensures Join(FullFrames(buffer, text, frame, turns)) + LeftIn(buffer, text, frame, turns)
         == buffer + text[..Min(|text|, Capacity(buffer, frame, turns))]
    decreases turns
  {
    if turns == 0 || text == "" {
      assert text[..Min(|text|, Capacity(buffer, frame, turns))] == "";
    } else {
      var size := Min(|text|, frame - |buffer|);
      var filled, rest := buffer + text[..size], text[size..];
      if |filled| == frame {
        var more, left := FullFrames("", rest, frame, turns - 1), LeftIn("", rest, frame, turns - 1);
        var n := Min(|rest|, Capacity("", frame, turns - 1));
        FramesExact("", rest, frame, turns - 1);
        assert Join(more) + left == rest[..n];
        JoinFirst(filled, more);
        Regroup3(filled, Join(more), left);
        Regroup3(buffer, text[..size], rest[..n]);
        SplitText(text, size, n);
        assert size + n == Min(|text|, Capacity(buffer, frame, turns));
      } else {
        assert rest == "" && text[..size] == text;
        FramesExact(filled, rest, frame, turns - 1);
      }
    }
  }

  lemma Regroup3(a: string, b: string, c: string)
    ensures a + b + c == a + (b + c)
  {
  }

  lemma SplitText(text: string, size: nat, n: nat)
    requires size + n <= |text|
    ensures text[..size] + text[size..][..n] == text[..size + n]
  {
  }

  /** Where the frame loop stands. */
  datatype Flow = Flow(buffer: string, rest: string, turns: nat, attempt: nat, written: string)

  datatype Goal = Goal(written: string, attempt: nat, left: string)

  /** Every frame that is still to go out comes to its end. */
  ghost predicate CanFlow(stack: Stack, frame: nat, f: Flow) {
    |f.buffer| <= frame && AllEnd(stack, FullFrames(f.buffer, f.rest, frame, f.turns), f.attempt)
  }

  /** What the loop leads to. */
  ghost function GoalOf(stack: Stack, frame: nat, f: Flow): Goal
    requires CanFlow(stack, frame, f)
  {
    var frames := FullFrames(f.buffer, f.rest, frame, f.turns);
    Goal(f.written + AllHanded(stack, frames, f.attempt), After(stack, frames, f.attempt),
         LeftIn(f.buffer, f.rest, frame, f.turns))
  }

  ghost predicate Toward(stack: Stack, frame: nat, f: Flow, goal: Goal) {
    CanFlow(stack, frame, f) && GoalOf(stack, frame, f) == goal
  }

  function Filled(frame: nat, f: Flow): string
    requires |f.buffer| <= frame
  {
    f.buffer + f.rest[..Min(|f.rest|, frame - |f.buffer|)]
  }

  /** The buffer once the turn is over. */
  function Turned(frame: nat, f: Flow): string
    requires |f.buffer| <= frame
  {
    if |Filled(frame, f)| == frame then "" else Filled(frame, f)
  }

  function Remains(frame: nat, f: Flow): string
    requires |f.buffer| <= frame
  {
    f.rest[Min(|f.rest|, frame - |f.buffer|)..]
  }

  lemma FramesStep(frame: nat, f: Flow)
    requires |f.buffer| <= frame && f.rest != "" && 0 < f.turns
    ensures |Turned(frame, f)| <= frame
    ensures FullFrames(f.buffer, f.rest, frame, f.turns)
         == (if |Filled(frame, f)| == frame then [Filled(frame, f)] else [])
            + FullFrames(Turned(frame, f), Remains(frame, f), frame, f.turns - 1)
    ensures LeftIn(f.buffer, f.rest, frame, f.turns)
         == LeftIn(Turned(frame, f), Remains(frame, f), frame, f.turns - 1)
  {
  }

  lemma FirstOut(stack: Stack, first: string, more: seq<string>, attempt: nat, written: string)
    requires AllEnd(stack, [first] + more, attempt)
    ensures Ends(stack, HttpSend.Begin(first, attempt))
    ensures var next := End(stack, first, attempt).attempt;
            && AllEnd(stack, more, next) && After(stack, [first] + more, attempt) == After(stack, more, next)
            && written + AllHanded(stack, [first] + more, attempt)
               == written + Handed(stack, first, attempt) + AllHanded(stack, more, next)
  {
    var frames := [first] + more;
    assert frames[0] == first && frames[1..] == more;
    Regroup3(written, Handed(stack, first, attempt), AllHanded(stack, more, End(stack, first, attempt).attempt));
  }

  /** Where the loop stands after one more turn: it takes the first of the frames still to go out, if there is one. */
  ghost function Next(stack: Stack, frame: nat, f: Flow): Flow
    requires |f.buffer| <= frame && 0 < f.turns
    requires |Filled(frame, f)| == frame ==> Ends(stack, HttpSend.Begin(Filled(frame, f), f.attempt))
  {
    if |Filled(frame, f)| == frame then
      Flow("", Remains(frame, f), f.turns - 1, End(stack, Filled(frame, f), f.attempt).attempt,
           f.written + Handed(stack, Filled(frame, f), f.attempt))
    else Flow(Filled(frame, f), Remains(frame, f), f.turns - 1, f.attempt, f.written)
  }

  lemma NextFrame(stack: Stack, frame: nat, f: Flow, goal: Goal)
    requires Toward(stack, frame, f, goal) && f.rest != "" && 0 < f.turns
    ensures |Filled(frame, f)| == frame ==> Ends(stack, HttpSend.Begin(Filled(frame, f), f.attempt))
    ensures Toward(stack, frame, Next(stack, frame, f), goal)
  {
    FramesStep(frame, f);
    var more := FullFrames(Turned(frame, f), Remains(frame, f), frame, f.turns - 1);
    if |Filled(frame, f)| == frame {
      FirstOut(stack, Filled(frame, f), more, f.attempt, f.written);
    } else {
      assert [] + more == more;
    }
  }

  /** What became of a header line: it did not fit the buffer with its key and colon, so that taking its value out of
      the buffer is an error; it is there, but the limit of headers is reached; or it has been noted. */
  datatype Adding = OutOfRange | LimitReached | Added(header: Header)

  class MessageBuffer {
    const capacity: nat
    const maxHeaders: nat
    const link: Link
    var buffer: string
    var verb: string
    var path: string
    var version: string
    var headers: seq<Header>
    var body: string
    var bodyAt: nat    // where the view of the body begins
    var bodyOpen: bool // whether that view is not empty; behind a cleared buffer it reaches backwards
    var onStreamOut: bool

    ghost predicate Valid()
      reads this
    {
      1 < capacity && |buffer| <= capacity && |headers| <= maxHeaders
    }

    constructor (capacity: nat, maxHeaders: nat, link: Link)
      requires 1 < capacity
      ensures Valid() && this.capacity == capacity && this.maxHeaders == maxHeaders && this.link == link
      ensures buffer == verb == path == version == body == "" && headers == [] && !onStreamOut && !bodyOpen
    {
      this.capacity, this.maxHeaders, this.link := capacity, maxHeaders, link;
      buffer, verb, path, version, headers, body, onStreamOut := "", "", "", "", [], "", false;
      bodyAt, bodyOpen := 0, false;
    }

    /** Splits the received text into its parts; header lines are added to those held, up to the limit, and read and
        dropped beyond it. */
    method ReqUpdateStructuredViews()
      requires Valid()
      modifies this`buffer, `verb, `path, `version, `headers, `body, `bodyAt, `bodyOpen
      ensures Valid() && (bodyOpen <==> body != "")
      ensures var r := Parse(old(buffer));
              && verb == r.verb && path == r.path && version == r.version && body == r.body
              && headers == Truncated(old(headers) + r.headers, maxHeaders)
      ensures buffer == Append(old(buffer), "\0", capacity)
    {
      var word := ExtractWord(buffer, ' ');
      verb := word.0;
      word := ExtractWord(word.1, ' ');
      path := word.0;
      word := ExtractWord(word.1, ' ');
      version := word.0;
      var view := ReadHeaders(ExtractNewline(word.1).1);
      ViewBody(ExtractNewline(view).1);
      buffer := Append(buffer, "\0", capacity);
    }

    /** The body is the end of what has been received. */
    method ViewBody(text: string)
      modifies this`body, `bodyAt, `bodyOpen
      ensures body == text && (bodyOpen <==> text != "")
    {
      body, bodyOpen := text, text != "";
      bodyAt := if |text| <= |buffer| then |buffer| - |text| else 0;
    }

    method ReadHeaders(text: string) returns (rest: string)
      requires Valid()
      modifies this`headers
      ensures headers == Truncated(old(headers) + HeaderLines(text).0, maxHeaders) && rest == HeaderLines(text).1
    {
      ghost var seen := [];
      assert old(headers) + seen == headers;
      var view := text;
      var line := ExtractLine(view);
      assert [] + HeaderLines(text).0 == HeaderLines(text).0;
      while line.key != ""
        invariant line == ExtractLine(view) && Progress(text, seen, view)
        invariant headers == Truncated(old(headers) + seen, maxHeaders)
        decreases |view|
      {
        ProgressStep(text, seen, view);
        TruncatedPush(old(headers) + seen, HeaderOf(line), maxHeaders);
        assert old(headers) + (seen + [HeaderOf(line)]) == old(headers) + seen + [HeaderOf(line)];
        seen := seen + [HeaderOf(line)];
        if |headers| < maxHeaders {
          headers := headers + [HeaderOf(line)];
        }
        view := ExtractNewline(line.rest).1;
        line := ExtractLine(view);
      }
      ProgressEnd(text, seen, view);
      rest := line.rest;
    }

    method ResSetStatusLine(httpVersion: string, status: string)
      requires Valid()
      modifies this`buffer, `verb, `path, `headers, `body, `bodyOpen
      ensures Valid() && headers == [] && verb == path == body == "" && !bodyOpen
      ensures buffer == Append("", httpVersion + " " + status + CRLF, capacity)
    {
      buffer, headers, body, bodyOpen, verb, path := "", [], "", false, "", "";
      buffer := Append(buffer, httpVersion + " " + status + CRLF, capacity);
    }

    /** Appends a header line; on a message already streaming out, the line starts the buffer afresh. The header noted
        reaches from key and value to the end of the buffer. */
    method ResAddHeader(key: string, value: string) returns (r: Adding)
      requires Valid()
      modifies this`buffer, `body, `bodyOpen, `headers
      ensures Valid() && body == "" && !bodyOpen
      ensures var start := if onStreamOut then "" else old(buffer);
              && buffer == Append(start, key + ": " + value + CRLF, capacity)
              && (r == OutOfRange <==> capacity < |start| + |key| + 2)
              && (r != OutOfRange ==>
                    r == (if |old(headers)| < maxHeaders
                          then Added(Header(buffer[|start|..], buffer[|start| + |key| + 2..])) else LimitReached))
      ensures headers == if r.Added? then old(headers) + [r.header] else old(headers)
    {
      if onStreamOut {
        buffer := "";
      }
      body, bodyOpen := "", false;
      var s := |buffer|;
      buffer := Append(buffer, key + ": " + value + CRLF, capacity);
      if s + |key| + 2 > |buffer| {
        return OutOfRange;
      }
      if |headers| >= maxHeaders {
        return LimitReached;
      }
      headers := headers + [Header(buffer[s..], buffer[s + |key| + 2..])];
      return Added(headers[|headers| - 1]);
    }

    /** A body is being written already. */
    predicate Started()
      reads this
    {
      bodyOpen || onStreamOut
    }

    /** The buffer as the body starts: closed by an empty line, unless a body is being written already. */
    function Opened(): (b: string)
      requires Valid()
      reads this
      ensures |b| <= capacity
    {
      if Started() then buffer else Append(buffer, CRLF, capacity)
    }

    /** How much of a body 32 frames can take. */
    function Room(): int
      requires Valid()
      reads this
    {
      capacity - 1 - |Opened()| + 31 * (capacity - 1)
    }

    /** What has been sent, and what the buffer holds. */
    ghost function Here(): Goal
      reads this, link
    {
      Goal(link.written, link.attempts, buffer)
    }

    /** Writing `text` to a buffer that holds `start`. */
    ghost function Coming(start: string, text: string): Flow
      reads link
    {
      Flow(start, text, 32, link.attempts, link.written)
    }

    /** Whatever has to be sent to write `text` comes to its end. */
    ghost predicate CanWrite(text: string)
      requires Valid()
      reads this, link
    {
      |Opened()| < capacity ==> CanFlow(link.stack, capacity - 1, Coming(Opened(), text))
    }

    /** What writing `text` leads to. */
    ghost function Written(text: string): Goal
      requires Valid() && CanWrite(text)
      reads this, link
    {
      if |Opened()| < capacity then GoalOf(link.stack, capacity - 1, Coming(Opened(), text))
      else Here().(left := Opened())
    }

    /** Writes a body, streaming out full frames of capacity - 1 bytes, whatever becomes of each of them. It fails
        exactly when a body is to be written and the opened buffer has outgrown a frame. On a reliable stack nothing is
        lost or reordered up to the 32-frame limit, behind which the rest of the body is dropped. */
    method ResWriteBody(text: string) returns (ok: bool)
      requires Valid() && CanWrite(text)
      modifies this`buffer, `body, `bodyAt, `bodyOpen, `onStreamOut, link
      ensures |buffer| <= capacity && Here() == old(Written(text))
      ensures ok <==> text == "" || |old(Opened())| < capacity
      ensures ok && Reliable(link.stack) ==>
                link.written + buffer == old(link.written + Opened()) + text[..Min(|text|, old(Room()))]
      ensures ok && Reliable(link.stack) ==>
                (link.written + buffer == old(link.written + Opened()) + text <==> |text| <= old(Room()))
      ensures ok && text != "" && !old(Started()) ==> Started()
      ensures ok && text == "" ==> Started() == old(Started())
    {
      if !bodyOpen && !onStreamOut {
        buffer := Append(buffer, CRLF, capacity);
      }
      assert buffer == old(Opened());
      ok := WriteOpened(text);
    }

    /** A body written in two parts on a reliable stack: one empty line in front of the first, and none in between. */
    method WriteTwice(first: string, second: string)
      requires Valid() && !Started() && |Opened()| < capacity && first != ""
      requires |first| <= Room() && |second| <= 31 * (capacity - 1)
      requires Reliable(link.stack) && SpaceComes(link.stack)
      modifies this`buffer, `body, `bodyAt, `bodyOpen, `onStreamOut, link
      ensures link.written + buffer == old(link.written + Append(buffer, CRLF, capacity)) + first + second
    {
      SpaceEndsAll(link.stack, FullFrames(Opened(), first, capacity - 1, 32), link.attempts);
      var ok := ResWriteBody(first);
      assert |buffer| < capacity - 1 && Opened() == buffer;
      SpaceEndsAll(link.stack, FullFrames(buffer, second, capacity - 1, 32), link.attempts);
      ok := ResWriteBody(second);
    }

    method WriteOpened(text: string) returns (ok: bool)
      requires Valid() && (|buffer| < capacity ==> CanFlow(link.stack, capacity - 1, Coming(buffer, text)))
      modifies this`buffer, `body, `bodyAt, `bodyOpen, `onStreamOut, link
      ensures |buffer| <= capacity && (ok <==> text == "" || old(|buffer|) < capacity)
      ensures ok && text != "" && !old(bodyOpen) && old(buffer) != "" ==> Started()
      ensures text == "" ==> Started() == old(Started())
      ensures Here() == if old(|buffer|) < capacity then old(GoalOf(link.stack, capacity - 1, Coming(buffer, text)))
                        else old(Here())
      ensures ok && Reliable(link.stack) ==>
                Joined(old(link.written + buffer), text, capacity - 1 - old(|buffer|) + 31 * (capacity - 1),
                       link.written + buffer)
    {
      ghost var f := Coming(buffer, text);
      ok := WriteFrames(text);
      if ok && Reliable(link.stack) {
        BodyArrives(link.stack, capacity, f, capacity - 1 - |f.buffer| + 31 * (capacity - 1), Here());
      }
    }

    method WriteFrames(text: string) returns (ok: bool)
      requires Valid() && (|buffer| < capacity ==> CanFlow(link.stack, capacity - 1, Coming(buffer, text)))
      modifies this`buffer, `body, `bodyAt, `bodyOpen, `onStreamOut, link
      ensures |buffer| <= capacity && (ok <==> text == "" || old(|buffer|) < capacity)
      ensures ok && text != "" && !old(bodyOpen) && old(buffer) != "" ==> Started()
      ensures text == "" ==> Started() == old(Started())
      ensures Here() == if old(|buffer|) < capacity then old(GoalOf(link.stack, capacity - 1, Coming(buffer, text)))
                        else old(Here())
    {
      ok := text == "" || |buffer| < capacity;
      if ok && text != "" {
        StreamBody(text);
      } else if |buffer| < capacity {
        NothingFlows(link.stack, capacity - 1, Coming(buffer, text));
      }
    }

    /** The frame loop. */
    method StreamBody(text: string)
      requires Valid() && |buffer| < capacity && CanFlow(link.stack, capacity - 1, Coming(buffer, text))
      modifies this`buffer, `body, `bodyAt, `bodyOpen, `onStreamOut, link
      ensures Here() == old(GoalOf(link.stack, capacity - 1, Coming(buffer, text)))
      ensures text != "" && !old(bodyOpen) && old(buffer) != "" ==> Started()
    {
      var start: nat := if bodyOpen then bodyAt else |buffer|;
      var rest := text;
      ghost var stack, frame := link.stack, capacity - 1;
      ghost var goal := GoalOf(stack, frame, Coming(buffer, text));
      ghost var turns, first := 32, |buffer|;
      for i := 0 to 32
        invariant |buffer| <= frame && turns == 32 - i && bodyOpen == old(bodyOpen)
        invariant Toward(stack, frame, Flow(buffer, rest, turns, link.attempts, link.written), goal)
        invariant !bodyOpen && 0 < first ==>
                    onStreamOut || (start == first && if rest == "" then text == "" || |buffer| != first else i == 0)
        invariant i == 0 ==> |buffer| == first && rest == text && (bodyOpen || start == first)
      {
        if rest == "" {
          break;
        }
        var size, streaming := StreamFrame(rest, turns, goal);
        turns := turns - 1;
        start := if streaming then 0 else start;
        rest := rest[size..];
      }
      FlowIsDone(stack, frame, Coming(buffer, rest).(turns := turns), goal);
      body := buffer[Min(start, |buffer|)..];
      bodyAt, bodyOpen := start, start != |buffer|;
    }

    /** One turn of it, with `turns` left. */
    method StreamFrame(rest: string, ghost turns: nat, ghost goal: Goal) returns (size: nat, streaming: bool)
      requires Valid() && |buffer| < capacity && rest != "" && 0 < turns
      requires Toward(link.stack, capacity - 1, Flow(buffer, rest, turns, link.attempts, link.written), goal)
      modifies this`buffer, `onStreamOut, link
      ensures size <= |rest| && |buffer| < capacity && onStreamOut == (old(onStreamOut) || streaming)
      ensures !streaming ==> size == |rest| && (buffer == "" || |buffer| == old(|buffer|) + |rest|)
      ensures Toward(link.stack, capacity - 1,
                     Flow(buffer, rest[size..], turns - 1, link.attempts, link.written), goal)
    {
      NextFrame(link.stack, capacity - 1, Flow(buffer, rest, turns, link.attempts, link.written), goal);
      size, streaming := WriteFrame(rest);
    }

    /** Fills up the buffer with the next `size` bytes of the body and streams it out once it is a full frame, whether
        sending it succeeds or not. */
    method WriteFrame(rest: string) returns (size: nat, streaming: bool)
      requires Valid() && |buffer| < capacity
      requires var filled := buffer + rest[..Min(|rest|, capacity - 1 - |buffer|)];
               |filled| == capacity - 1 ==> Ends(link.stack, HttpSend.Begin(filled, link.attempts))
      modifies this`buffer, `onStreamOut, link
      ensures size == Min(|rest|, capacity - 1 - old(|buffer|)) && onStreamOut == (old(onStreamOut) || streaming)
      ensures streaming <==> size < |rest|
      ensures var filled := old(buffer) + rest[..size];
              if |filled| == capacity - 1 then
                && buffer == "" && link.attempts == End(link.stack, filled, old(link.attempts)).attempt
                && link.written == old(link.written) + Handed(link.stack, filled, old(link.attempts))
              else buffer == filled && link.attempts == old(link.attempts) && link.written == old(link.written)
    {
      size := |rest|;
      var frame := capacity - 1;
      var m := frame - |buffer|;
      streaming := size > m;
      if streaming {
        size := m;
        onStreamOut := true;
      }
      buffer := buffer + rest[..size];
      if |buffer| == frame {
        var sent := link.SendData(buffer);
        buffer := "";
      }
    }

    method WriteHead(httpVersion: string, status: string, fields: seq<Header>)
      requires Valid() && !onStreamOut && |Head(httpVersion, status, fields)| <= capacity
      modifies this`buffer, `verb, `path, `headers, `body, `bodyOpen
      ensures Valid() && !bodyOpen && buffer == Head(httpVersion, status, fields)
    {
      HeadPrefix(httpVersion, status, fields, 0);
      ResSetStatusLine(httpVersion, status);
      for i := 0 to |fields|
        invariant Valid() && !bodyOpen && buffer == Head(httpVersion, status, fields[..i])
      {
        WriteField(httpVersion, status, fields, i);
      }
      assert fields[..|fields|] == fields;
    }

    /** One more header line behind the first `i`. */
    method WriteField(httpVersion: string, status: string, fields: seq<Header>, i: nat)
      requires Valid() && !onStreamOut && |Head(httpVersion, status, fields)| <= capacity && i < |fields|
      requires !bodyOpen && buffer == Head(httpVersion, status, fields[..i])
      modifies this`buffer, `body, `bodyOpen, `headers
      ensures Valid() && !bodyOpen && buffer == Head(httpVersion, status, fields[..i + 1])
    {
      HeadPrefix(httpVersion, status, fields, i + 1);
      HeadNext(httpVersion, status, fields, i);
      var r := ResAddHeader(fields[i].key, fields[i].value);
    }

    /** A whole response as the server gives it: status line, fields, body, and what is left in the buffer. On a
        reliable stack it arrives, but for what 32 frames cannot take. */
    method Respond(httpVersion: string, status: string, fields: seq<Header>, text: string)
      requires Valid() && !onStreamOut && |Head(httpVersion, status, fields)| + 2 < capacity
      requires AllEnd(link.stack, Sends(Head(httpVersion, status, fields) + CRLF, text, capacity), link.attempts)
      modifies this, link
      ensures link.written == old(link.written)
              + AllHanded(link.stack, Sends(Head(httpVersion, status, fields) + CRLF, text, capacity),
                          old(link.attempts))
      ensures Reliable(link.stack) ==>
                var head := Head(httpVersion, status, fields) + CRLF;
                link.written == old(link.written) + (head + text[..Min(|text|, 32 * (capacity - 1) - |head|)])
    {
      ghost var start, first := Head(httpVersion, status, fields) + CRLF, link.attempts;
      WriteHead(httpVersion, status, fields);
      assert start == Opened();
      WriteAndSend(text, FullFrames(start, text, capacity - 1, 32), LeftIn(start, text, capacity - 1, 32));
      if Reliable(link.stack) {
        ResponseArrives(link.stack, start, text, capacity, first);
      }
    }

    /** The body, and then what is left in the buffer. */
    method WriteAndSend(text: string, ghost frames: seq<string>, ghost left: string)
      requires Valid() && |Opened()| < capacity
      requires frames == FullFrames(Opened(), text, capacity - 1, 32)
      requires left == LeftIn(Opened(), text, capacity - 1, 32)
      requires AllEnd(link.stack, frames + [left], link.attempts)
      modifies this`buffer, `body, `bodyAt, `bodyOpen, `onStreamOut, link
      ensures link.written == old(link.written) + AllHanded(link.stack, frames + [left], old(link.attempts))
    {
      SendsApart(link.stack, capacity - 1, Coming(Opened(), text), frames, left);
      var ok := ResWriteBody(text);
      var sent := link.SendData(buffer);
    }
  }

  /** All that is sent for a response that opens with `start`. */
  function Sends(start: string, text: string, capacity: nat): seq<string>
    requires |start| < capacity
  {
    FullFrames(start, text, capacity - 1, 32) + [LeftIn(start, text, capacity - 1, 32)]
  }

  /** The frames of the body, and then what is left in the buffer. */
  lemma SendsApart(stack: Stack, frame: nat, f: Flow, frames: seq<string>, left: string)
    requires |f.buffer| <= frame && AllEnd(stack, frames + [left], f.attempt)
    requires frames == FullFrames(f.buffer, f.rest, frame, f.turns) && left == LeftIn(f.buffer, f.rest, frame, f.turns)
    ensures CanFlow(stack, frame, f)
    ensures var goal := GoalOf(stack, frame, f);
            && goal.left == left && Ends(stack, HttpSend.Begin(left, goal.attempt))
            && goal.written + Handed(stack, left, goal.attempt)
               == f.written + AllHanded(stack, frames + [left], f.attempt)
  {
    AppendSend(stack, frames, left, f.attempt);
    Regroup3(f.written, AllHanded(stack, frames, f.attempt), Handed(stack, left, After(stack, frames, f.attempt)));
    GoalIs(stack, frame, f, frames, left);
  }

  lemma GoalIs(stack: Stack, frame: nat, f: Flow, frames: seq<string>, left: string)
    requires |f.buffer| <= frame && AllEnd(stack, frames, f.attempt)
    requires frames == FullFrames(f.buffer, f.rest, frame, f.turns) && left == LeftIn(f.buffer, f.rest, frame, f.turns)
    ensures CanFlow(stack, frame, f)
    ensures GoalOf(stack, frame, f)
         == Goal(f.written + AllHanded(stack, frames, f.attempt), After(stack, frames, f.attempt), left)
  {
  }

  /** On a reliable stack a response arrives, but for what 32 frames cannot take. */
  lemma ResponseArrives(stack: Stack, start: string, text: string, capacity: nat, attempt: nat)
    requires |start| < capacity && Reliable(stack) && AllEnd(stack, Sends(start, text, capacity), attempt)
    ensures AllHanded(stack, Sends(start, text, capacity), attempt)
         == start + text[..Min(|text|, 32 * (capacity - 1) - |start|)]
  {
    var frame := capacity - 1;
    var frames, left := FullFrames(start, text, frame, 32), LeftIn(start, text, frame, 32);
    AllArrive(stack, Sends(start, text, capacity), attempt);
    JoinLast(frames, left);
    FramesExact(start, text, frame, 32);
    RoomIsCapacity(Flow(start, text, 32, attempt, ""), frame, frame - |start| + 31 * frame);
  }

  lemma {:induction false} JoinLast(frames: seq<string>, last: string)
    ensures Join(frames + [last]) == Join(frames) + last
  {
    if frames == [] {
      assert [] + [last] == [last] && [last][1..] == [];
    } else {
      assert (frames + [last])[0] == frames[0] && (frames + [last])[1..] == frames[1..] + [last];
      JoinLast(frames[1..], last);
    }
  }

  /** On a reliable stack what is sent and what is left are what was there and the text, as far as there is room for
      it. */
  lemma Arrived(stack: Stack, frame: nat, f: Flow, room: int)
    requires CanFlow(stack, frame, f) && Reliable(stack) && f.turns == 32 && room == frame - |f.buffer| + 31 * frame
    ensures var goal := GoalOf(stack, frame, f);
            && goal.written + goal.left == f.written + f.buffer + f.rest[..Min(|f.rest|, room)]
            && (goal.written + goal.left == f.written + f.buffer + f.rest <==> |f.rest| <= room)
  {
    var frames, left := FullFrames(f.buffer, f.rest, frame, 32), LeftIn(f.buffer, f.rest, frame, 32);
    AllArrive(stack, frames, f.attempt);
    FramesExact(f.buffer, f.rest, frame, 32);
    FramesProduct(31, frame);
    RoomIsCapacity(f, frame, room);
    Rejoin(f, Join(frames), left, Min(|f.rest|, room));
  }

  lemma FlowIsDone(stack: Stack, frame: nat, f: Flow, goal: Goal)
    requires Toward(stack, frame, f, goal) && (f.rest == "" || f.turns == 0)
    ensures goal == Goal(f.written, f.attempt, f.buffer)
  {
  }

  lemma NothingFlows(stack: Stack, frame: nat, f: Flow)
    requires |f.buffer| <= frame && f.rest == ""
    ensures CanFlow(stack, frame, f) && GoalOf(stack, frame, f) == Goal(f.written, f.attempt, f.buffer)
  {
  }

  /** `text` has been added to `before` as far as there is room for it: all of it if and only if it fits. */
  predicate Joined(before: string, text: string, room: nat, after: string) {
    after == before + text[..Min(|text|, room)] && (after == before + text <==> |text| <= room)
  }

  lemma BodyArrives(stack: Stack, capacity: nat, f: Flow, room: int, goal: Goal)
    requires 1 < capacity && Reliable(stack) && f.turns == 32
    requires room == capacity - 1 - |f.buffer| + 31 * (capacity - 1)
    requires if |f.buffer| < capacity then Toward(stack, capacity - 1, f, goal)
             else |f.buffer| == capacity && f.rest == "" && goal.written + goal.left == f.written + f.buffer
    ensures Joined(f.written + f.buffer, f.rest, room, goal.written + goal.left)
  {
    if |f.buffer| < capacity {
      Arrived(stack, capacity - 1, f, room);
    }
  }

  lemma RoomIsCapacity(f: Flow, frame: nat, room: int)
    requires |f.buffer| <= frame && f.turns == 32 && room == frame - |f.buffer| + 31 * frame
    ensures Capacity(f.buffer, frame, 32) == room
  {
    FramesProduct(31, frame);
  }

  lemma Rejoin(f: Flow, sent: string, left: string, n: nat)
    requires n <= |f.rest| && sent + left == f.buffer + f.rest[..n]
    ensures f.written + sent + left == f.written + f.buffer + f.rest[..n]
    ensures f.written + sent + left == f.written + f.buffer + f.rest <==> n == |f.rest|
  {
    Regroup3(f.written, sent, left);
    Regroup3(f.written, f.buffer, f.rest[..n]);
    PrefixIsAll(f.written + f.buffer, f.rest, n);
  }

  /** Only the whole text is as long as itself. */
  lemma PrefixIsAll(before: string, text: string, n: nat)
    requires n <= |text|
    ensures before + text[..n] == before + text <==> n == |text|
  {
    assert |before + text[..n]| == |before| + n;
    assert n == |text| ==> text[..n] == text;
  }

  // ---- at the size of the program's buffers ----

  const BUFFER := 4096

  /** A stack with space for one byte at a time that accepts everything. */
  function Steady(): Stack {
    Stack(_ => 1, _ => true, _ => true)
  }

  lemma SteadyEnds(frames: seq<string>)
    ensures Reliable(Steady()) && AllEnd(Steady(), frames, 0)
  {
    forall k: nat ensures HasSpaceFrom(Steady(), k) {
      assert 0 < Steady().space(k);
    }
    SpaceEndsAll(Steady(), frames, 0);
  }

  /** Written to a new message, 131038 bytes of a body pass through the 32 frames; the next one is lost. */
  method LosesTheLast(text: string) returns (m: MessageBuffer)
    requires |text| == 131039
    ensures m.link.written + m.buffer == CRLF + text[..131038] != CRLF + text
  {
    var link := new Link(Steady());
    m := new MessageBuffer(BUFFER, 0, link);
    assert m.Opened() == CRLF && m.Room() == 131038;
    SteadyEnds(FullFrames(CRLF, text, BUFFER - 1, 32));
    assert CanFlow(link.stack, BUFFER - 1, m.Coming(CRLF, text));
    var ok := m.ResWriteBody(text);
    PrefixIsAll(CRLF, text, 131038);
  }

  /** Behind a status line that fills the buffer no body can be written. */
  method FailsWhenFull(status: string, text: string) returns (ok: bool)
    requires |status| == 4096 && text != ""
    ensures !ok
  {
    var link := new Link(Steady());
    var m := new MessageBuffer(BUFFER, 0, link);
    m.ResSetStatusLine("", status);
    assert |m.Opened()| == BUFFER;
    ok := m.ResWriteBody(text);
  }

  /** Nor can a header whose key fills the buffer be added. */
  method KeyOutOfRange(key: string) returns (r: Adding)
    requires |key| == 4095
    ensures r == OutOfRange
  {
    var link := new Link(Steady());
    var m := new MessageBuffer(BUFFER, 1, link);
    r := m.ResAddHeader(key, "");
  }

  function Head(httpVersion: string, status: string, fields: seq<Header>): string {
    httpVersion + " " + status + CRLF + PrintHeaders(fields, "")
  }

  lemma {:induction false} PrintMore(fields: seq<Header>, tail: string)
    ensures PrintHeaders(fields, tail) == PrintHeaders(fields, "") + tail
  {
    if fields != [] {
      PrintMore(fields[1..], tail);
    }
  }

  lemma {:induction false} PrintConcat(a: seq<Header>, b: seq<Header>, tail: string)
    ensures PrintHeaders(a + b, tail) == PrintHeaders(a, PrintHeaders(b, tail))
  {
    if a == [] {
      assert a + b == b;
    } else {
      assert (a + b)[1..] == a[1..] + b && (a + b)[0] == a[0];
      PrintConcat(a[1..], b, tail);
    }
  }

  lemma HeadPrefix(httpVersion: string, status: string, fields: seq<Header>, i: nat)
    requires i <= |fields|
    ensures |httpVersion + " " + status + CRLF| <= |Head(httpVersion, status, fields)|
    ensures |Head(httpVersion, status, fields[..i])| <= |Head(httpVersion, status, fields)|
  {
    assert fields == fields[..i] + fields[i..];
    PrintConcat(fields[..i], fields[i..], "");
    PrintMore(fields[..i], PrintHeaders(fields[i..], ""));
  }

  lemma HeadNext(httpVersion: string, status: string, fields: seq<Header>, i: nat)
    requires i < |fields|
    ensures Head(httpVersion, status, fields[..i + 1])
         == Head(httpVersion, status, fields[..i]) + (fields[i].key + ": " + fields[i].value + CRLF)
  {
    var line := fields[i].key + ": " + fields[i].value + CRLF;
    assert fields[..i + 1] == fields[..i] + [fields[i]];
    PrintConcat(fields[..i], [fields[i]], "");
    PrintMore(fields[..i], PrintHeaders([fields[i]], ""));
    assert PrintHeaders([fields[i]], "") == FieldLine(fields[i], 1) == line by {
      assert ": " == ":" + Blanks(1);
    }
  }
}
