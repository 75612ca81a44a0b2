/** Byte streams over JSON messages: `proxy/io.go`. */
module HttpStream {
  import opened ByteStrings

  datatype HTTPMessage = HTTPMessage(
    hijack: bool, host: string, httpMethod: string, url: string,
    headers: map<string, seq<string>>, code: int, body: Bytes, eof: bool)

  const EMPTY := HTTPMessage(false, "", "", "", map[], 0, [], false)

  /** A string on the incoming channel, by what `json.Unmarshal` makes of it. */
  datatype Wire = Json(message: HTTPMessage) | Malformed

  /** A message on the response channel: an HTTP message, or the signal that the handler is done. */
  datatype Outgoing = Body(message: HTTPMessage) | Closed

  // ----- the writer --------------------------------------------------------------------------------

  /** The sending end of the response channel for one message key. */
  class ResponseChannel {
    var sent: seq<Outgoing>

    constructor ()
      ensures sent == []
    {
      sent := [];
    }
  }

  class HttpWriter {
    var message: HTTPMessage
    const chan: ResponseChannel

    constructor (message: HTTPMessage, chan: ResponseChannel)
      ensures this.message == message && this.chan == chan
    {
      this.message, this.chan := message, chan;
    }

    method Write(bytes: Bytes) returns (n: nat)
      modifies this, chan
      ensures n == |bytes| && message == EMPTY
      ensures chan.sent == old(chan.sent) + [Body(old(message).(body := bytes))]
    {
      message := message.(body := bytes);
      WriteMessage();
      n := |bytes|;
    }

    method WriteMessage()
      modifies this, chan
      ensures message == EMPTY
      ensures chan.sent == old(chan.sent) + [Body(old(message))]
    {
      chan.sent := chan.sent + [Body(message)];
      message := EMPTY;
    }

    method Close()
      modifies this, chan
      ensures message == EMPTY
      ensures chan.sent == old(chan.sent) + [Body(old(message).(eof := true))]
    {
      message := message.(eof := true);
      WriteMessage();
    }

    /** `io.Copy(writer, src)`, for a source whose reads return `chunks` and then end. */
    method Copy(chunks: seq<Bytes>)
      requires message == EMPTY
      modifies this, chan
      ensures message == EMPTY
      ensures exists sent :: chan.sent == old(chan.sent) + sent && BodyOnly(sent, Concat(chunks))
    {
      ghost var sent: seq<Outgoing> := [];
      for i := 0 to |chunks|
        invariant message == EMPTY && chan.sent == old(chan.sent) + sent
        invariant BodyOnly(sent, Concat(chunks[..i]))
      {
        assert chunks[..i + 1] == chunks[..i] + [chunks[i]];
        ConcatSnoc(chunks[..i], chunks[i]);
        if |chunks[i]| > 0 {
          BodyOnlySnoc(sent, Concat(chunks[..i]), chunks[i]);
          sent := sent + [Body(EMPTY.(body := chunks[i]))];
          var _ := Write(chunks[i]);
        }
      }
      assert chunks[..|chunks|] == chunks;
    }
  }

  function Bodies(sent: seq<Outgoing>): seq<Bytes> {
    if sent == [] then []
    else (if sent[0].Body? then [sent[0].message.body] else []) + Bodies(sent[1..])
  }

  /** Messages that carry nothing but a part of `bytes`, in order and without empty parts. */
  ghost predicate BodyOnly(sent: seq<Outgoing>, bytes: Bytes) {
    && (forall i | 0 <= i < |sent| :: IsChunk(sent[i]))
    && Concat(Bodies(sent)) == bytes
  }

  predicate IsChunk(o: Outgoing) {
    o.Body? && o.message.body != [] && o.message == EMPTY.(body := o.message.body)
  }

  lemma {:induction false} BodiesAppend(a: seq<Outgoing>, b: seq<Outgoing>)
    ensures Bodies(a + b) == Bodies(a) + Bodies(b)
  {
    if a == [] {
      assert a + b == b;
    } else {
      BodiesAppend(a[1..], b);
      assert a + b == [a[0]] + (a[1..] + b);
      Assoc(if a[0].Body? then [a[0].message.body] else [], Bodies(a[1..]), Bodies(b));
    }
  }

  lemma BodyOnlySnoc(sent: seq<Outgoing>, bytes: Bytes, chunk: Bytes)
    requires BodyOnly(sent, bytes) && chunk != []
    ensures BodyOnly(sent + [Body(EMPTY.(body := chunk))], bytes + chunk)
  {
    var o := Body(EMPTY.(body := chunk));
    BodiesAppend(sent, [o]);
    assert Bodies([o]) == [chunk];
    ConcatSnoc(Bodies(sent), chunk);
  }

  // ----- the reader --------------------------------------------------------------------------------

  datatype ReadError = NoError | EndOfStream | BadMessage

  /** `chan` holds the messages still to be received before the channel is closed. */
  datatype ReaderState = ReaderState(buffered: Bytes, chan: seq<Wire>, eof: bool)

  datatype ReadResult = ReadResult(state: ReaderState, data: Bytes, err: ReadError)

  function Fetch(st: ReaderState): (ReaderState, ReadError) {
    if st.chan == [] then (st, EndOfStream)
    else match st.chan[0]
      case Malformed => (st.(chan := st.chan[1..]), BadMessage)
      case Json(m) => (ReaderState(m.body, st.chan[1..], m.eof), NoError)
  }

  /** One call of `Read` with a buffer of `size` bytes. */
  function ReadStep(st: ReaderState, size: nat): ReadResult {
    var (st', err) := if st.buffered == [] && !st.eof then Fetch(st) else (st, NoError);
    if !err.NoError? then ReadResult(st', [], err)
    else
      var count := if size < |st'.buffered| then size else |st'.buffered|;
      ReadResult(st'.(buffered := st'.buffered[count..]), st'.buffered[..count],
                 if st'.eof then EndOfStream else NoError)
  }

  class HttpReader {
    var buffered: Bytes
    var chan: seq<Wire>
    var eof: bool

    ghost function State(): ReaderState
      reads this
    {
      ReaderState(buffered, chan, eof)
    }

    constructor (buffered: Bytes, chan: seq<Wire>, eof: bool)
      ensures State() == ReaderState(buffered, chan, eof)
    {
      this.buffered, this.chan, this.eof := buffered, chan, eof;
    }

    method ReadMessage() returns (err: ReadError)
      modifies this
      ensures (State(), err) == Fetch(old(State()))
    {
      if chan == [] {
        return EndOfStream;
      }
      var str := chan[0];
      chan := chan[1..];
      match str
      case Malformed => err := BadMessage;
      case Json(message) =>
        buffered, eof := message.body, message.eof;
        err := NoError;
    }

    /** The call delivers `buf[..n]` and leaves the rest of the caller's buffer alone. */
    method Read(buf: array<byte>) returns (n: nat, err: ReadError)
      modifies this, buf
      ensures n <= buf.Length && buf[n..] == old(buf[n..])
      ensures ReadResult(State(), buf[..n], err) == ReadStep(old(State()), buf.Length)
    {
      if |buffered| == 0 && !eof {
        err := ReadMessage();
        if !err.NoError? {
          return 0, err;
        }
      }
      n := if buf.Length < |buffered| then buf.Length else |buffered|;
      forall i | 0 <= i < n {
        buf[i] := buffered[i];
      }
      buffered := buffered[n..];
      err := if eof then EndOfStream else NoError;
    }

    /** A call with a new buffer of `size` bytes, and the bytes it delivers. */
    method ReadInto(size: nat) returns (data: Bytes, err: ReadError)
      modifies this
      ensures ReadResult(State(), data, err) == ReadStep(old(State()), size)
    {
      var buf := new byte[size];
      var n;
      n, err := Read(buf);
      data := buf[..n];
    }
  }

  // ----- conservation ------------------------------------------------------------------------------

  /** The bodies up to and including the first end-of-stream message. */
  function BodiesToEof(chan: seq<Wire>): Bytes {
    if chan == [] then []
    else match chan[0]
      case Malformed => BodiesToEof(chan[1..])
      case Json(m) => if m.eof then m.body else m.body + BodiesToEof(chan[1..])
  }

  /** Everything the reader has received or will receive, and has not yet delivered. */
  function Undelivered(st: ReaderState): Bytes {
    st.buffered + if st.eof then [] else BodiesToEof(st.chan)
  }

  /** The bytes one call can choose from. */
  function Available(st: ReaderState): Bytes {
    if st.buffered == [] && !st.eof && st.chan != [] && st.chan[0].Json? then st.chan[0].message.body
    else st.buffered
  }

  /** No call loses, repeats or reorders a byte. It delivers as much of what is available as fits; a
      call that reports the end of the stream leaves exactly the rest of that behind, which is nothing
      if and only if the available bytes fit the caller's buffer. */
  lemma ReadConserves(st: ReaderState, size: nat)
    ensures var r := ReadStep(st, size);
            && r.data + Undelivered(r.state) == Undelivered(st)
            && |r.data| == (if size < |Available(st)| then size else |Available(st)|)
            && (r.err.EndOfStream? ==>
                  && Undelivered(r.state) == r.state.buffered
                  && (r.state.buffered == [] <==> |Available(st)| <= size))
  {
    var r := ReadStep(st, size);
    if st.buffered == [] && !st.eof {
      if st.chan != [] && st.chan[0].Json? {
        var m := st.chan[0].message;
        assert m.body == r.data + r.state.buffered;
        assert Undelivered(st) == m.body + if m.eof then [] else BodiesToEof(st.chan[1..]);
        Assoc(r.data, r.state.buffered, if m.eof then [] else BodiesToEof(st.chan[1..]));
      }
    } else {
      assert st.buffered == r.data + r.state.buffered;
      Assoc(r.data, r.state.buffered, if st.eof then [] else BodiesToEof(st.chan));
    }
  }

  /** What one call takes and reports. With something buffered, or after the end-of-stream mark, it takes
      nothing off the channel. Otherwise it takes one message: a malformed one is dropped and reported, the
      body of any other becomes available. The end is reported by every call that has seen the mark, and
      by a call that finds the channel closed. */
  lemma ReadReports(st: ReaderState, size: nat)
    ensures var r := ReadStep(st, size);
            if st.buffered != [] || st.eof then
              && r.state.chan == st.chan && r.state.eof == st.eof
              && r.data + r.state.buffered == st.buffered
              && r.err == if st.eof then EndOfStream else NoError
            else if st.chan == [] then r == ReadResult(st, [], EndOfStream)
            else
              && r.state.chan == st.chan[1..]
              && match st.chan[0]
                 case Malformed => r.err == BadMessage && r.data == [] && r.state.buffered == [] && !r.state.eof
                 case Json(m) =>
                   && r.data + r.state.buffered == m.body && r.state.eof == m.eof
                   && r.err == if m.eof then EndOfStream else NoError
    ensures var r := ReadStep(st, size); |r.data| <= size && (|r.data| < size ==> r.state.buffered == [])
  {
    var r := ReadStep(st, size);
    if st.buffered != [] || st.eof {
      assert st.buffered == r.data + r.state.buffered;
    } else if st.chan != [] && st.chan[0].Json? {
      assert st.chan[0].message.body == r.data + r.state.buffered;
    }
  }

  datatype ReadsResult = ReadsResult(state: ReaderState, data: Bytes)

  /** A series of calls that goes on whatever the calls report. */
  function Reads(st: ReaderState, sizes: seq<nat>): ReadsResult
    decreases |sizes|
  {
    if sizes == [] then ReadsResult(st, [])
    else
      var r := ReadStep(st, sizes[0]);
      var more := Reads(r.state, sizes[1..]);
      ReadsResult(more.state, r.data + more.data)
  }

  /** Conservation over every series of calls, past malformed messages and past the end. */
  lemma {:induction false} ReadsConserve(st: ReaderState, sizes: seq<nat>)
    ensures var r := Reads(st, sizes); r.data + Undelivered(r.state) == Undelivered(st)
    decreases |sizes|
  {
    if sizes == [] {
    } else {
      ReadConserves(st, sizes[0]);
      var r := ReadStep(st, sizes[0]);
      ReadsConserve(r.state, sizes[1..]);
      Assoc(r.data, Reads(r.state, sizes[1..]).data, Undelivered(Reads(st, sizes).state));
    }
  }

  // ----- reading until the end ---------------------------------------------------------------------

  /** Whether the reader has received, or will receive, an end-of-stream message. */
  predicate EofSeen(st: ReaderState) {
    st.eof || HasEof(st.chan)
  }

  predicate HasEof(chan: seq<Wire>) {
    chan != [] && ((chan[0].Json? && chan[0].message.eof) || HasEof(chan[1..]))
  }

  /** The bytes that come together with the first end-of-stream mark. */
  function EofBody(st: ReaderState): Bytes {
    if st.eof then st.buffered else ChanEofBody(st.chan)
  }

  function ChanEofBody(chan: seq<Wire>): Bytes {
    if chan == [] then []
    else if chan[0].Json? && chan[0].message.eof then chan[0].message.body
    else ChanEofBody(chan[1..])
  }

  predicate WellFormed(chan: seq<Wire>) {
    forall i | 0 <= i < |chan| :: chan[i].Json?
  }

  /** The end-of-stream body stays ahead of the reader until a call reports the end; that call cuts
      it at the size of the buffer. */
  lemma EofBodyAhead(st: ReaderState, size: nat)
    ensures var r := ReadStep(st, size);
            && (!r.err.EndOfStream? ==> EofBody(r.state) == EofBody(st) && EofSeen(r.state) == EofSeen(st))
            && (r.err.EndOfStream? ==>
                  r.state.buffered == if size < |EofBody(st)| then EofBody(st)[size..] else [])
            && (r.err.EndOfStream? ==> r.state.eof || (!EofSeen(st) && st.chan == []))
  {
  }

  /** A caller that reads with any positive buffer sizes until the first error. On well-formed
      messages it stops at the end of the stream, and the bytes it has not got are exactly what did
      not fit the last buffer; so it gets the whole stream if and only if the end-of-stream body fits. */
  method ReadAll(reader: HttpReader, sizes: nat -> nat) returns (data: Bytes, err: ReadError, last: nat)
    requires forall k :: sizes(k) > 0
    modifies reader
    ensures !err.NoError?
    ensures data + Undelivered(reader.State()) == Undelivered(old(reader.State()))
    ensures WellFormed(old(reader.chan)) ==> err.EndOfStream?
    ensures err.EndOfStream? ==>
              var body := EofBody(old(reader.State()));
              && Undelivered(reader.State()) == (if last < |body| then body[last..] else [])
              && (data == Undelivered(old(reader.State())) <==> |body| <= last)
  {
    data, err, last := [], NoError, 0;
    var k := 0;
    ghost var start := reader.State();
    while err.NoError?
      invariant Progress(start, reader.State(), data, err, last)
      decreases err.NoError?, |reader.chan|, |reader.buffered|
    {
      ghost var st := reader.State();
      last, k := sizes(k), k + 1;
      var more;
      more, err := reader.ReadInto(last);
      ProgressStep(start, st, data, last);
      ReadShortens(st, last);
      data := data + more;
    }
    if err.EndOfStream? {
      NothingMissed(data, Undelivered(reader.State()), EofBody(start), last);
    }
  }

  /** A call without an error takes a message off the channel or bytes off the buffer. */
  lemma ReadShortens(st: ReaderState, size: nat)
    requires size > 0
    ensures var r := ReadStep(st, size);
            && |r.state.chan| <= |st.chan|
            && (r.err.NoError? && |r.state.chan| == |st.chan| ==> |r.state.buffered| < |st.buffered|)
  {
  }

  lemma NothingMissed(data: Bytes, rest: Bytes, body: Bytes, last: nat)
    requires rest == if last < |body| then body[last..] else []
    ensures data == data + rest <==> |body| <= last
  {
    assert |data + rest| == |data| + |rest|;
  }

  /** What holds between two calls of a caller that started at `start`. */
  ghost predicate Progress(start: ReaderState, st: ReaderState, data: Bytes, err: ReadError, last: nat) {
    var body := EofBody(start);
    && data + Undelivered(st) == Undelivered(start)
    && (WellFormed(start.chan) ==> WellFormed(st.chan) && !err.BadMessage?)
    && (err.NoError? ==> EofBody(st) == body)
    && (err.EndOfStream? ==> Undelivered(st) == if last < |body| then body[last..] else [])
  }

  lemma ProgressStep(start: ReaderState, st: ReaderState, data: Bytes, size: nat)
    requires Progress(start, st, data, NoError, size)
    ensures var r := ReadStep(st, size); Progress(start, r.state, data + r.data, r.err, size)
  {
    var r := ReadStep(st, size);
    ReadConserves(st, size);
    EofBodyAhead(st, size);
    Assoc(data, r.data, Undelivered(r.state));
    if WellFormed(st.chan) && st.chan != [] {
      assert st.chan[0].Json?;
    }
  }

  // ----- writer and reader together ------------------------------------------------------------------

  /** What a writer sends for a pending message, some writes, and a close. */
  function Written(pending: HTTPMessage, writes: seq<Bytes>): (sent: seq<Outgoing>)
    ensures forall i | 0 <= i < |sent| :: sent[i].Body?
    decreases |writes|
  {
    if writes == [] then [Body(pending.(eof := true))]
    else [Body(pending.(body := writes[0]))] + Written(EMPTY, writes[1..])
  }

  function OnWire(sent: seq<Outgoing>): (chan: seq<Wire>)
    requires forall i | 0 <= i < |sent| :: sent[i].Body?
    ensures |chan| == |sent| && WellFormed(chan)
  {
    if sent == [] then [] else [Json(sent[0].message)] + OnWire(sent[1..])
  }

  /** The writer's messages carry the writes, and the end-of-stream message is empty. */
  lemma {:induction false} WrittenStream(pending: HTTPMessage, writes: seq<Bytes>)
    requires !pending.eof && pending.body == []
    ensures var chan := OnWire(Written(pending, writes));
            BodiesToEof(chan) == Concat(writes) && HasEof(chan) && ChanEofBody(chan) == []
    decreases |writes|
  {
    var sent := Written(pending, writes);
    if writes == [] {
      assert OnWire(sent) == [Json(sent[0].message)] + OnWire(sent[1..]);
    } else {
      WrittenStream(EMPTY, writes[1..]);
      assert sent[1..] == Written(EMPTY, writes[1..]);
      assert OnWire(sent)[1..] == OnWire(sent[1..]);
    }
  }

  lemma {:induction false} WrittenAt(pending: HTTPMessage, writes: seq<Bytes>)
    ensures var sent, n := Written(pending, writes), |writes|;
            && |sent| == n + 1
            && (forall i | 0 <= i < n ::
                  sent[i] == Body((if i == 0 then pending else EMPTY).(body := writes[i])))
            && sent[n] == Body((if n == 0 then pending else EMPTY).(eof := true))
    decreases |writes|
  {
    if writes == [] {
    } else {
      WrittenAt(EMPTY, writes[1..]);
    }
  }

  lemma WrittenStep(all: seq<Outgoing>, sent: seq<Outgoing>, message: HTTPMessage, writes: seq<Bytes>, i: nat)
    requires i < |writes| && all == sent + Written(message, writes[i..])
    ensures all == sent + [Body(message.(body := writes[i]))] + Written(EMPTY, writes[i + 1..])
  {
    assert writes[i..][1..] == writes[i + 1..];
    Assoc(sent, [Body(message.(body := writes[i]))], Written(EMPTY, writes[i + 1..]));
  }

  /** Some writes and a close. */
  method WriteAll(writer: HttpWriter, writes: seq<Bytes>)
    modifies writer, writer.chan
    ensures writer.chan.sent == old(writer.chan.sent) + Written(old(writer.message), writes)
    ensures var first, n := |old(writer.chan.sent)|, |writes|; var sent := writer.chan.sent[first..];
            && |sent| == n + 1
            && (forall i | 0 <= i < n ::
                  sent[i] == Body((if i == 0 then old(writer.message) else EMPTY).(body := writes[i])))
            && sent[n] == Body((if n == 0 then old(writer.message) else EMPTY).(eof := true))
  {
    WrittenAt(writer.message, writes);
    ghost var all := writer.chan.sent + Written(writer.message, writes);
    assert writes[0..] == writes;
    for i := 0 to |writes|
      invariant all == writer.chan.sent + Written(writer.message, writes[i..])
    {
      WrittenStep(all, writer.chan.sent, writer.message, writes, i);
      var _ := writer.Write(writes[i]);
    }
    writer.Close();
  }

  /** Round trip: any writes and a close on one side, reads with any positive buffer sizes on the
      other, and exactly the written bytes come out. */
  method RoundTrip(pending: HTTPMessage, writes: seq<Bytes>, sizes: nat -> nat)
    returns (data: Bytes, err: ReadError)
    requires !pending.eof && pending.body == []
    requires forall k :: sizes(k) > 0
    ensures data == Concat(writes) && err.EndOfStream?
  {
    var chan := new ResponseChannel();
    var writer := new HttpWriter(pending, chan);
    WriteAll(writer, writes);
    assert chan.sent == Written(pending, writes);
    WrittenStream(pending, writes);
    var reader := new HttpReader([], OnWire(chan.sent), false);
    var last;
    data, err, last := ReadAll(reader, sizes);
  }
}
