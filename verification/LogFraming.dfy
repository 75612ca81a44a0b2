/** The container log stream: `logs/log_wrapper.go` prints frames into a pipe, the scanner loop of
    `logs/logs.go` turns them back into messages. */
module LogFraming {
  import opened ByteStrings
  import opened Framing

  /** "[RANLOGS]" */
  const SEPARATOR: Bytes := [91, 82, 65, 78, 76, 79, 71, 83, 93]
  const TAG_LENGTH: nat := 3
  const MESSAGE_OFFSET: nat := TAG_LENGTH + |SEPARATOR|

  datatype Stream = Both | Stdout | Stderr {
    /** "00 ", "01 " and "02 " */
    function Tag(): Bytes {
      match this
      case Both => [48, 48, 32]
      case Stdout => [48, 49, 32]
      case Stderr => [48, 50, 32]
    }
  }

  datatype LogMessage = LogMessage(stream: Stream, text: Bytes)

  function Tagged(log: seq<LogMessage>): (tokens: seq<Bytes>)
    ensures |tokens| == |log|
    ensures forall i | 0 <= i < |log| :: tokens[i] == log[i].stream.Tag() + log[i].text
  {
    if log == [] then [] else [log[0].stream.Tag() + log[0].text] + Tagged(log[1..])
  }

  lemma TagIdentifies(a: LogMessage, b: LogMessage)
    requires a.stream.Tag() + a.text == b.stream.Tag() + b.text
    ensures a == b
  {
    var t := a.stream.Tag() + a.text;
    assert a.text == t[TAG_LENGTH..] && b.text == t[TAG_LENGTH..];
    assert a.stream.Tag()[1] == t[1] == b.stream.Tag()[1];
  }

  /** What the client gets identifies the log: every message with its stream. */
  lemma TaggedIdentifies(a: seq<LogMessage>, b: seq<LogMessage>)
    requires Tagged(a) == Tagged(b)
    ensures a == b
  {
    assert |a| == |Tagged(a)| == |b|;
    forall i | 0 <= i < |a| ensures a[i] == b[i] {
      assert Tagged(a)[i] == Tagged(b)[i];
      TagIdentifies(a[i], b[i]);
    }
  }

  // ----- printing --------------------------------------------------------------------------------

  /** A Go slice that starts at the beginning of its backing array; the rest is spare capacity. */
  datatype Slice = Slice(backing: array<byte>, len: nat) {
    ghost predicate Valid() {
      len <= backing.Length
    }

    ghost function Content(): Bytes
      requires Valid()
      reads backing
    {
      backing[..len]
    }
  }

  /** `append(s, data...)`: in place when the spare capacity allows it, otherwise in a new array of
      any sufficient size. */
  method Append(s: Slice, data: Bytes) returns (r: Slice)
    requires s.Valid()
    modifies s.backing
    ensures r.Valid() && (r.backing == s.backing || fresh(r.backing))
    ensures r.Content() == old(s.Content()) + data
    ensures s.Content() == old(s.Content())
  {
    var n := s.len + |data|;
    if n <= s.backing.Length {
      forall i | 0 <= i < |data| {
        s.backing[s.len + i] := data[i];
      }
      r := Slice(s.backing, n);
    } else {
      var size :| size >= n;
      var grown := new byte[size];
      forall i | 0 <= i < n {
        grown[i] := if i < s.len then s.backing[i] else data[i - s.len];
      }
      r := Slice(grown, n);
    }
  }

  /** The write end of `io.Pipe`; its reader takes `room` more bytes before the pipe is closed. */
  class Pipe {
    var written: seq<Bytes>
    var room: nat

    ghost predicate Valid()
      reads this
    {
      forall i | 0 <= i < |written| :: written[i] != []
    }

    ghost function Stream(): Bytes
      reads this
    {
      Concat(written)
    }

    constructor (room: nat)
      ensures Valid() && Stream() == [] && this.room == room
    {
      written := [];
      this.room := room;
    }

    method Write(data: Slice) returns (n: nat, ok: bool)
      requires Valid() && data.Valid()
      modifies this
      ensures Valid()
      ensures ok == (data.len <= old(room))
      ensures n == if ok then data.len else old(room)
      ensures Stream() == old(Stream()) + data.Content()[..n]
      ensures room == old(room) - n
    {
      ok := data.len <= room;
      n := if ok then data.len else room;
      assert data.Content()[..n] == data.backing[..n];
      if n > 0 {
        ConcatSnoc(written, data.backing[..n]);
        written, room := written + [data.backing[..n]], room - n;
      }
    }
  }

  /** `wrapMessage`: whatever spare capacity the shared prefix slice has, the pipe gets
      tag + message + separator, the prefix keeps its bytes, and a full write reports the length of
      the message. */
  method WrapMessage(pipe: Pipe, prefix: Slice, message: Bytes) returns (n: int, ok: bool)
    requires pipe.Valid() && prefix.Valid()
    modifies pipe, prefix.backing
    ensures pipe.Valid()
    ensures prefix.Content() == old(prefix.Content())
    ensures var frame := old(prefix.Content()) + message + SEPARATOR;
            && ok == (|frame| <= old(pipe.room))
            && n == (if ok then |frame| else old(pipe.room)) - MESSAGE_OFFSET
            && pipe.Stream() == old(pipe.Stream()) + frame[..n + MESSAGE_OFFSET]
            && pipe.room == old(pipe.room) - (n + MESSAGE_OFFSET)
    ensures ok && prefix.len == TAG_LENGTH ==> n == |message|
  {
    var msg := Append(prefix, message);
    msg := Append(msg, SEPARATOR);
    n, ok := pipe.Write(msg);
    n := n - MESSAGE_OFFSET;
  }

  /** The three tagged writers over one pipe. */
  class LogWriters {
    const pipe: Pipe
    const stdoutPrefix: Slice
    const stderrPrefix: Slice
    const bothPrefix: Slice

    ghost const Repr: set<object> := {pipe, stdoutPrefix.backing, stderrPrefix.backing, bothPrefix.backing}

    ghost predicate Valid()
      reads Repr
    {
      && pipe.Valid()
      && stdoutPrefix.backing != stderrPrefix.backing
      && stdoutPrefix.backing != bothPrefix.backing
      && stderrPrefix.backing != bothPrefix.backing
      && stdoutPrefix.Valid() && stdoutPrefix.Content() == Stdout.Tag()
      && stderrPrefix.Valid() && stderrPrefix.Content() == Stderr.Tag()
      && bothPrefix.Valid() && bothPrefix.Content() == Both.Tag()
    }

    constructor (pipe: Pipe, stdoutPrefix: Slice, stderrPrefix: Slice, bothPrefix: Slice)
      ensures this.pipe == pipe && this.stdoutPrefix == stdoutPrefix
      ensures this.stderrPrefix == stderrPrefix && this.bothPrefix == bothPrefix
    {
      this.pipe, this.stdoutPrefix, this.stderrPrefix, this.bothPrefix :=
        pipe, stdoutPrefix, stderrPrefix, bothPrefix;
    }

    method Write(m: LogMessage) returns (n: int, ok: bool)
      requires Valid()
      modifies Repr
      ensures Valid()
      ensures var frame := m.stream.Tag() + m.text + SEPARATOR;
              var taken := if ok then |frame| else old(pipe.room);
              && ok == (|frame| <= old(pipe.room))
              && n == taken - MESSAGE_OFFSET
              && pipe.Stream() == old(pipe.Stream()) + frame[..taken]
              && pipe.room == old(pipe.room) - taken
      ensures ok ==> n == |m.text|
    {
      match m.stream
      case Stdout => n, ok := WrapMessage(pipe, stdoutPrefix, m.text);
      case Stderr => n, ok := WrapMessage(pipe, stderrPrefix, m.text);
      case Both => n, ok := WrapMessage(pipe, bothPrefix, m.text);
    }

    /** A log written message by message, up to the first failing write. */
    method WriteLog(log: seq<LogMessage>) returns (ok: bool)
      requires Valid()
      modifies Repr
      ensures Valid()
      ensures var stream := Frame(Tagged(log), SEPARATOR);
              && ok == (|stream| <= old(pipe.room))
              && pipe.Stream() == old(pipe.Stream()) + if ok then stream else stream[..old(pipe.room)]
    {
      ghost var before, tokens := pipe.Stream(), Tagged(log);
      for i := 0 to |log|
        invariant Valid()
        invariant AfterWrites(before, tokens, SEPARATOR, i, pipe.Stream(), old(pipe.room), pipe.room)
      {
        ghost var stream, room := pipe.Stream(), pipe.room;
        var n;
        n, ok := Write(log[i]);
        if !ok {
          FailedWrite(before, tokens, SEPARATOR, i, stream, old(pipe.room), room);
          return;
        }
        FullWrite(before, tokens, SEPARATOR, i, stream, old(pipe.room), room);
      }
      assert tokens[..|log|] == tokens;
      ok := true;
    }
  }

  /** The pipe after the frames of the first `i` tokens. */
  ghost predicate AfterWrites(before: Bytes, tokens: seq<Bytes>, sep: Bytes, i: nat, stream: Bytes,
                              room: nat, left: nat) {
    && i <= |tokens|
    && stream == before + Frame(tokens[..i], sep)
    && |Frame(tokens[..i], sep)| + left == room
  }

  lemma FailedWrite(before: Bytes, tokens: seq<Bytes>, sep: Bytes, i: nat, stream: Bytes, room: nat, left: nat)
    requires i < |tokens| && AfterWrites(before, tokens, sep, i, stream, room, left)
    requires left < |tokens[i] + sep|
    ensures room < |Frame(tokens, sep)|
    ensures stream + (tokens[i] + sep)[..left] == before + Frame(tokens, sep)[..room]
  {
    FrameAt(tokens, i, sep);
    CutInside(before, Frame(tokens[..i], sep), tokens[i] + sep, Frame(tokens, sep), left);
  }

  lemma FullWrite(before: Bytes, tokens: seq<Bytes>, sep: Bytes, i: nat, stream: Bytes, room: nat, left: nat)
    requires i < |tokens| && AfterWrites(before, tokens, sep, i, stream, room, left)
    requires |tokens[i] + sep| <= left
    ensures var frame := tokens[i] + sep;
            AfterWrites(before, tokens, sep, i + 1, stream + frame[..|frame|], room, left - |frame|)
  {
    FrameAt(tokens, i, sep);
    CutAtEnd(before, Frame(tokens[..i], sep), tokens[i] + sep);
  }

  lemma CutInside(before: Bytes, done: Bytes, frame: Bytes, stream: Bytes, room: nat)
    requires done + frame <= stream && room <= |frame|
    ensures before + done + frame[..room] == before + stream[..|done| + room]
  {
    assert stream[..|done| + room] == done + frame[..room];
    Assoc(before, done, frame[..room]);
  }

  lemma CutAtEnd(before: Bytes, done: Bytes, frame: Bytes)
    ensures before + done + frame[..|frame|] == before + (done + frame)
  {
    assert frame[..|frame|] == frame;
    Assoc(before, done, frame);
  }

  // ----- parsing -----------------------------------------------------------------------------------

  datatype Message = Body(key: Bytes, body: Bytes)

  /** The goroutine of `Handle` that turns the pipe's bytes into messages: for every way of cutting
      the stream into reads, one message for each token of the whole stream, in order. */
  method ForwardLog(key: Bytes, chunks: seq<Bytes>) returns (response: seq<Message>, failed: bool)
    requires forall i | 0 <= i < |chunks| :: chunks[i] != []
    ensures response == Messages(key, Emitted(Concat(chunks), SEPARATOR))
    ensures failed == Overflows(Concat(chunks), SEPARATOR)
  {
    var scanner := new Scanner(SEPARATOR, chunks);
    var tokens := ScanAll(scanner);
    response := Messages(key, tokens);
    failed := scanner.err.TooLong?;
  }

  function Messages(key: Bytes, tokens: seq<Bytes>): (r: seq<Message>)
    ensures |r| == |tokens|
    ensures forall i | 0 <= i < |tokens| :: r[i] == Body(key, tokens[i])
  {
    seq(|tokens|, i requires 0 <= i < |tokens| => Body(key, tokens[i]))
  }

  // ----- round trip --------------------------------------------------------------------------------

  /** A tag in front of a message neither hides nor makes a separator: it lacks its first byte. */
  lemma TagIsTransparent(tag: Bytes, text: Bytes, sep: Bytes)
    requires |sep| > 0 && sep[0] !in tag
    ensures Contains(tag + text, sep) <==> Contains(text, sep)
  {
    var t := tag + text;
    forall i | 0 <= i < |tag| ensures !OccursAt(t, sep, i) {
      if i + |sep| <= |t| {
        assert t[i..i + |sep|][0] == tag[i];
      }
    }
    if Contains(text, sep) {
      var i :| OccursAt(text, sep, i);
      assert t[i + |tag|..i + |tag| + |sep|] == text[i..i + |sep|];
      assert OccursAt(t, sep, i + |tag|);
    }
    if Contains(t, sep) {
      var i :| OccursAt(t, sep, i);
      assert t[i..i + |sep|] == text[i - |tag|..i - |tag| + |sep|];
      assert OccursAt(text, sep, i - |tag|);
    }
  }

  /** The messages that survive the trip: without the separator, and small enough to be scanned. */
  ghost predicate PrintableWith(m: LogMessage, sep: Bytes) {
    !Contains(m.text, sep) && |m.text| + TAG_LENGTH + |sep| <= MAX_SCAN_TOKEN_SIZE
  }

  ghost predicate Printable(m: LogMessage) {
    PrintableWith(m, SEPARATOR)
  }

  /** A separator that cannot begin inside a tag. */
  ghost predicate OutsideTags(sep: Bytes) {
    Marker(sep) && forall stream: Stream :: sep[0] !in stream.Tag()
  }

  lemma SeparatorOutsideTags()
    ensures OutsideTags(SEPARATOR)
  {
  }

  lemma PrintableToken(m: LogMessage, sep: Bytes)
    requires OutsideTags(sep)
    ensures var t := m.stream.Tag() + m.text;
            PrintableWith(m, sep) <==> !Contains(t, sep) && |t| + |sep| <= MAX_SCAN_TOKEN_SIZE
  {
    TagIsTransparent(m.stream.Tag(), m.text, sep);
  }

  lemma PrintableTokens(log: seq<LogMessage>, sep: Bytes)
    requires OutsideTags(sep)
    ensures SeparatorFree(Tagged(log), sep) && Fits(Tagged(log), sep) <==>
            forall i | 0 <= i < |log| :: PrintableWith(log[i], sep)
  {
    forall i | 0 <= i < |log|
      ensures PrintableWith(log[i], sep) <==>
              !Contains(Tagged(log)[i], sep) && |Tagged(log)[i]| + |sep| <= MAX_SCAN_TOKEN_SIZE
    {
      PrintableToken(log[i], sep);
    }
  }

  /** Log round trip: the handler emits exactly tag + message for every message of the log, in order
      and without a scanner error, if and only if every message is printable. */
  lemma LogRoundTrip(log: seq<LogMessage>)
    ensures var s := Frame(Tagged(log), SEPARATOR);
            (Emitted(s, SEPARATOR) == Tagged(log) && !Overflows(s, SEPARATOR)) <==>
            (forall i | 0 <= i < |log| :: Printable(log[i]))
  {
    SeparatorOutsideTags();
    TaggedRoundTrip(log, SEPARATOR);
  }

  /** The same for every separator that cannot begin inside a tag. */
  lemma TaggedRoundTrip(log: seq<LogMessage>, sep: Bytes)
    requires OutsideTags(sep)
    ensures var s := Frame(Tagged(log), sep);
            (Emitted(s, sep) == Tagged(log) && !Overflows(s, sep)) <==>
            (forall i | 0 <= i < |log| :: PrintableWith(log[i], sep))
  {
    FrameRoundTrip(Tagged(log), sep);
    PrintableTokens(log, sep);
  }

  /** When the pipe is closed after `n` bytes, the handler emits the messages that got through and,
      if a frame was cut, one partial frame: a proper prefix of tag + message + separator, which may
      end in a part of the separator. */
  lemma TruncatedLog(log: seq<LogMessage>, n: nat) returns (k: nat, part: Bytes)
    requires forall i | 0 <= i < |log| :: Printable(log[i])
    requires n <= |Frame(Tagged(log), SEPARATOR)|
    ensures k <= |log|
    ensures var s := Frame(Tagged(log), SEPARATOR)[..n];
            && Emitted(s, SEPARATOR) == Tagged(log)[..k] + (if part == [] then [] else [part])
            && !Overflows(s, SEPARATOR)
            && s == Frame(Tagged(log)[..k], SEPARATOR) + part
    ensures part != [] ==> k < |log| && part < log[k].stream.Tag() + log[k].text + SEPARATOR
  {
    SeparatorOutsideTags();
    PrintableTokens(log, SEPARATOR);
    k, part := TruncatedFrames(Tagged(log), n, SEPARATOR);
  }

  /** Writers, pipe and scanner together: a log of printable messages, written through prefix slices
      of any capacity into a pipe that stays open, arrives message by message. */
  method DeliverLog(writers: LogWriters, log: seq<LogMessage>, key: Bytes)
    returns (response: seq<Message>)
    requires writers.Valid() && writers.pipe.Stream() == []
    requires |Frame(Tagged(log), SEPARATOR)| <= writers.pipe.room
    requires forall i | 0 <= i < |log| :: Printable(log[i])
    modifies writers.Repr
    ensures |response| == |log|
    ensures forall i | 0 <= i < |log| :: response[i] == Body(key, log[i].stream.Tag() + log[i].text)
    ensures writers.Valid()
  {
    var ok := writers.WriteLog(log);
    assert writers.pipe.Stream() == Frame(Tagged(log), SEPARATOR);
    var failed;
    response, failed := ForwardLog(key, writers.pipe.written);
    LogRoundTrip(log);
  }
}
