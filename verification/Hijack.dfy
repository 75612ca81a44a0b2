/** The hijacked request path of `proxy/proxy.go`: one goroutine copies the incoming messages to the
    connection, the handler itself copies the connection to the response channel. The two, the
    client and the remote end of the connection interleave freely; every step below is one atomic
    action of one of them. */
module Hijack {
  import opened ByteStrings
  import opened HttpStream
  import opened HttpProxy
  import opened Positions

  /** The buffer of `io.Copy`. */
  const COPY_BUFFER: nat := 32768

  datatype InPc =
    | Reading
    | Writing(chunk: Bytes, err: ReadError)  // read, with the error the read returned
    | Draining
    | ClosingConn
    | Done                                   // wg.Done

  datatype OutPc =
    | Receiving
    | Sending(chunk: Bytes, more: bool)      // !more: the read also returned an error
    | ClosingWriter
    | Waiting                                // wg.Wait
    | Deferred                               // the deferred conn.Close
    | Signalling
    | Returned

  /** Why the incoming direction stopped copying. */
  datatype Ended = Running | Finished(err: ReadError) | WriteFailed

  datatype State = State(
    start: ReaderState,       // the reader when the goroutines start
    arrived: seq<Wire>,       // messages put on the incoming channel since then
    closed: bool,             // the incoming channel is closed
    reader: ReaderState,
    toRemote: Bytes,          // written to the connection after the request
    ended: Ended,
    fromRemote: Bytes,        // read from the connection
    connClosed: bool,
    out: seq<Outgoing>,
    inPc: InPc,
    outPc: OutPc)

  predicate Init(s: State) {
    && s.reader == s.start && s.arrived == [] && s.toRemote == [] && s.ended.Running?
    && s.fromRemote == [] && !s.connClosed && s.out == []
    && s.inPc.Reading? && s.outPc.Receiving?
  }

  // ----- steps of the client ------------------------------------------------------------------------

  predicate Arrive(s: State, s': State, m: Wire) {
    && !s.closed
    && s' == s.(arrived := s.arrived + [m], reader := s.reader.(chan := s.reader.chan + [m]))
  }

  predicate CloseIncoming(s: State, s': State) {
    !s.closed && s' == s.(closed := true)
  }

  // ----- steps of the goroutine that copies incoming messages ----------------------------------------

  /** A receive on the open, empty channel blocks. */
  predicate CanRead(s: State) {
    s.reader.buffered != [] || s.reader.eof || s.reader.chan != [] || s.closed
  }

  function AfterChunk(s: State, err: ReadError): State {
    if err.NoError? then s.(inPc := Reading) else s.(inPc := Draining, ended := Finished(err))
  }

  predicate InRead(s: State, s': State) {
    && s.inPc.Reading? && CanRead(s)
    && var r := ReadStep(s.reader, COPY_BUFFER);
       var s1 := s.(reader := r.state);
       s' == if r.data != [] then s1.(inPc := Writing(r.data, r.err)) else AfterChunk(s1, r.err)
  }

  predicate InDrain(s: State, s': State) {
    && s.inPc.Draining? && s.reader.chan != []
    && s' == s.(reader := s.reader.(chan := s.reader.chan[1..]))
  }

  predicate InDrained(s: State, s': State) {
    s.inPc.Draining? && s.reader.chan == [] && s.closed && s' == s.(inPc := ClosingConn)
  }

  predicate InCloseConn(s: State, s': State) {
    s.inPc.ClosingConn? && s' == s.(connClosed := true, inPc := Done)
  }

  // ----- steps of the handler --------------------------------------------------------------------------

  predicate OutSend(s: State, s': State) {
    && s.outPc.Sending?
    && s' == s.(out := s.out + [Body(EMPTY.(body := s.outPc.chunk))],
                outPc := if s.outPc.more then Receiving else ClosingWriter)
  }

  /** Reading from the connection after the other goroutine has closed it. */
  predicate OutReadFails(s: State, s': State) {
    s.outPc.Receiving? && s.connClosed && s' == s.(outPc := ClosingWriter)
  }

  predicate OutCloseWriter(s: State, s': State) {
    && s.outPc.ClosingWriter?
    && s' == s.(out := s.out + [Body(EMPTY.(eof := true))], outPc := Waiting)
  }

  predicate OutWait(s: State, s': State) {
    s.outPc.Waiting? && s.inPc.Done? && s' == s.(outPc := Deferred)
  }

  predicate OutDeferred(s: State, s': State) {
    s.outPc.Deferred? && s' == s.(connClosed := true, outPc := Signalling)
  }

  predicate OutSignal(s: State, s': State) {
    s.outPc.Signalling? && s' == s.(out := s.out + [Closed], outPc := Returned)
  }

  // ----- steps of the remote end -------------------------------------------------------------------------

  /** A write on the connection has no deadline: it returns when the remote end has taken the chunk. */
  predicate RemoteTakes(s: State, s': State) {
    && s.inPc.Writing?
    && s' == AfterChunk(s.(toRemote := s.toRemote + s.inPc.chunk), s.inPc.err)
  }

  /** Or when the remote end breaks the connection, after `n` bytes. */
  predicate RemoteRefuses(s: State, s': State, n: nat) {
    && s.inPc.Writing? && n <= |s.inPc.chunk|
    && s' == s.(toRemote := s.toRemote + s.inPc.chunk[..n], inPc := Draining, ended := WriteFailed)
  }

  /** Data from the remote end, possibly together with an error. */
  predicate RemoteData(s: State, s': State, chunk: Bytes, more: bool) {
    && s.outPc.Receiving? && !s.connClosed && 0 < |chunk| <= COPY_BUFFER
    && s' == s.(fromRemote := s.fromRemote + chunk, outPc := Sending(chunk, more))
  }

  predicate RemoteEnd(s: State, s': State) {
    s.outPc.Receiving? && !s.connClosed && s' == s.(outPc := ClosingWriter)
  }

  predicate InStep(s: State, s': State) {
    InRead(s, s') || InDrain(s, s') || InDrained(s, s') || InCloseConn(s, s')
  }

  predicate OutStep(s: State, s': State) {
    || OutSend(s, s') || OutReadFails(s, s') || OutCloseWriter(s, s')
    || OutWait(s, s') || OutDeferred(s, s') || OutSignal(s, s')
  }

  /** The steps that wait for neither the client nor the remote end. */
  predicate OwnStep(s: State, s': State) {
    InStep(s, s') || OutStep(s, s')
  }

  ghost predicate ClientStep(s: State, s': State) {
    (exists m :: Arrive(s, s', m)) || CloseIncoming(s, s')
  }

  ghost predicate RemoteStep(s: State, s': State) {
    || RemoteTakes(s, s') || (exists n :: RemoteRefuses(s, s', n))
    || (exists chunk, more :: RemoteData(s, s', chunk, more)) || RemoteEnd(s, s')
  }

  ghost predicate Step(s: State, s': State) {
    OwnStep(s, s') || ClientStep(s, s') || RemoteStep(s, s')
  }

  /** Any number of steps from one state on. */
  ghost predicate Path(path: seq<State>) {
    path != [] && forall i | 0 <= i < |path| - 1 :: Step(path[i], path[i + 1])
  }

  ghost predicate Run(run: seq<State>) {
    Path(run) && Init(run[0])
  }

  // ----- the invariant -----------------------------------------------------------------------------------

  /** The reader as it would be with every message that has arrived still to come. */
  function Full(s: State): ReaderState {
    s.start.(chan := s.start.chan + s.arrived)
  }

  /** The bytes the client has sent after the request, up to its end-of-stream mark. */
  function ClientStream(s: State): Bytes {
    Undelivered(Full(s))
  }

  function Cut(body: Bytes): Bytes {
    if COPY_BUFFER < |body| then body[COPY_BUFFER..] else []
  }

  ghost predicate InFlight(s: State, sent: Bytes, err: ReadError) {
    && sent <= ClientStream(s)
    && (err.NoError? ==>
          && sent + Undelivered(s.reader) == ClientStream(s)
          && EofSeen(s.reader) == EofSeen(Full(s))
          && EofBody(s.reader) == EofBody(Full(s)))
    && (err.EndOfStream? ==>
          && sent + s.reader.buffered == ClientStream(s)
          && s.reader.buffered == Cut(EofBody(Full(s)))
          && (EofSeen(Full(s)) || s.closed))
  }

  ghost predicate InInv(s: State) {
    && (s.ended.Running? <==> s.inPc.Reading? || s.inPc.Writing?)
    && (s.inPc.ClosingConn? || s.inPc.Done? ==> s.closed && s.reader.chan == [])
    && (s.inPc.Done? ==> s.connClosed)
    && (s.connClosed ==> s.inPc.Done?)
    && match s.ended
       case Running =>
         if s.inPc.Writing?
         then s.inPc.chunk != [] && InFlight(s, s.toRemote + s.inPc.chunk, s.inPc.err)
         else InFlight(s, s.toRemote, NoError)
       case Finished(err) => !err.NoError? && InFlight(s, s.toRemote, err)
       case WriteFailed => s.toRemote <= ClientStream(s)
  }

  const EOF_MESSAGE := Body(EMPTY.(eof := true))

  /** The response so far: body-only messages with the bytes read, then one end-of-stream message,
      then the closed signal, each exactly when the handler is past it. */
  ghost predicate OutInv(s: State) {
    && (s.outPc.Deferred? || s.outPc.Signalling? || s.outPc.Returned? ==> s.inPc.Done?)
    && match s.outPc
       case Receiving => BodyOnly(s.out, s.fromRemote)
       case Sending(chunk, _) =>
         chunk != [] && exists sent :: BodyOnly(s.out, sent) && sent + chunk == s.fromRemote
       case ClosingWriter => BodyOnly(s.out, s.fromRemote)
       case Returned => HijackResponse(s.out, s.fromRemote)
       case _ => HijackResponse(s.out + [Closed], s.fromRemote)
  }

  ghost predicate HijackResponse(out: seq<Outgoing>, bytes: Bytes) {
    && |out| >= 2
    && BodyOnly(out[..|out| - 2], bytes)
    && out[|out| - 2] == EOF_MESSAGE && out[|out| - 1] == Closed
  }

  ghost predicate Inv(s: State) {
    InInv(s) && OutInv(s)
  }

  lemma InitInv(s: State)
    requires Init(s)
    ensures Inv(s)
  {
    assert s.start.chan + s.arrived == s.start.chan;
    assert s.toRemote + Undelivered(s.reader) == Undelivered(s.reader);
  }

  // ----- arrivals ------------------------------------------------------------------------------------------

  function Extend(st: ReaderState, m: Wire): ReaderState {
    st.(chan := st.chan + [m])
  }

  /** A new message adds its body behind everything undelivered, unless the end was already seen. */
  lemma ExtendReader(st: ReaderState, m: Wire)
    ensures Undelivered(Extend(st, m)) ==
            Undelivered(st) + if EofSeen(st) || m.Malformed? then [] else m.message.body
    ensures EofSeen(Extend(st, m)) <==> EofSeen(st) || (m.Json? && m.message.eof)
    ensures EofBody(Extend(st, m)) ==
            if !EofSeen(st) && m.Json? && m.message.eof then m.message.body else EofBody(st)
  {
    ExtendChan(st.chan, m);
    if !st.eof {
      Assoc(st.buffered, BodiesToEof(st.chan), if HasEof(st.chan) || m.Malformed? then [] else m.message.body);
    }
  }

  lemma {:induction false} ExtendChan(chan: seq<Wire>, m: Wire)
    ensures BodiesToEof(chan + [m]) ==
            BodiesToEof(chan) + if HasEof(chan) || m.Malformed? then [] else m.message.body
    ensures HasEof(chan + [m]) <==> HasEof(chan) || (m.Json? && m.message.eof)
    ensures ChanEofBody(chan + [m]) ==
            if !HasEof(chan) && m.Json? && m.message.eof then m.message.body else ChanEofBody(chan)
  {
    if chan == [] {
      assert (chan + [m])[1..] == [];
    } else {
      ExtendChan(chan[1..], m);
      assert (chan + [m])[1..] == chan[1..] + [m];
      if chan[0].Json? && !chan[0].message.eof {
        Assoc(chan[0].message.body, BodiesToEof(chan[1..]),
              if HasEof(chan[1..]) || m.Malformed? then [] else m.message.body);
      }
    }
  }

  lemma ArriveInFlight(s: State, s': State, m: Wire, sent: Bytes, err: ReadError)
    requires InFlight(s, sent, err) && Arrive(s, s', m)
    ensures InFlight(s', sent, err)
  {
    FullExtends(s, s', m);
    ExtendReader(Full(s), m);
    ExtendReader(s.reader, m);
    assert ClientStream(s) <= ClientStream(s');
  }

  lemma FullExtends(s: State, s': State, m: Wire)
    requires Arrive(s, s', m)
    ensures Full(s') == Extend(Full(s), m)
  {
    assert s'.start.chan + s'.arrived == (s.start.chan + s.arrived) + [m];
  }

  lemma ArriveInv(s: State, s': State, m: Wire)
    requires InInv(s) && Arrive(s, s', m)
    ensures InInv(s')
  {
    match s.ended
    case Running =>
      if s.inPc.Writing? {
        ArriveInFlight(s, s', m, s.toRemote + s.inPc.chunk, s.inPc.err);
      } else {
        ArriveInFlight(s, s', m, s.toRemote, NoError);
      }
    case Finished(err) => ArriveInFlight(s, s', m, s.toRemote, err);
    case WriteFailed =>
      FullExtends(s, s', m);
      ExtendReader(Full(s), m);
  }

  // ----- the incoming direction ----------------------------------------------------------------------------

  lemma InReadInv(s: State, s': State)
    requires InInv(s) && InRead(s, s')
    ensures InInv(s')
  {
    var r := ReadStep(s.reader, COPY_BUFFER);
    ReadConserves(s.reader, COPY_BUFFER);
    EofBodyAhead(s.reader, COPY_BUFFER);
    Assoc(s.toRemote, r.data, Undelivered(r.state));
    assert Full(s') == Full(s);
    assert s.toRemote + r.data <= ClientStream(s);
    assert InFlight(s', s.toRemote + r.data, r.err);
    if r.data == [] {
      assert s.toRemote + r.data == s.toRemote;
    }
  }

  lemma WriteInv(s: State, s': State, n: nat)
    requires InInv(s) && (RemoteTakes(s, s') || RemoteRefuses(s, s', n))
    ensures InInv(s')
  {
    assert Full(s') == Full(s);
    assert s'.toRemote <= s.toRemote + s.inPc.chunk;
  }

  lemma InDrainInv(s: State, s': State)
    requires InInv(s) && InDrain(s, s')
    ensures InInv(s')
  {
    assert Full(s') == Full(s);
  }

  lemma InStepInv(s: State, s': State)
    requires Inv(s) && InStep(s, s')
    ensures Inv(s')
  {
    if InRead(s, s') {
      InReadInv(s, s');
    } else if InDrain(s, s') {
      InDrainInv(s, s');
    } else {
      assert Full(s') == Full(s);
    }
  }

  // ----- the outgoing direction ----------------------------------------------------------------------------

  /** The incoming direction does not look at the response. */
  lemma InFrame(s: State, s': State)
    requires InInv(s)
    requires s'.start == s.start && s'.arrived == s.arrived && s'.closed == s.closed && s'.reader == s.reader
    requires s'.toRemote == s.toRemote && s'.ended == s.ended && s'.inPc == s.inPc
    requires s'.connClosed == s.connClosed || (s.inPc.Done? && s'.connClosed)
    ensures InInv(s')
  {
    assert Full(s') == Full(s);
  }

  lemma OutSendInv(s: State, s': State)
    requires OutInv(s) && OutSend(s, s')
    ensures OutInv(s')
  {
    var sent :| BodyOnly(s.out, sent) && sent + s.outPc.chunk == s.fromRemote;
    BodyOnlySnoc(s.out, sent, s.outPc.chunk);
  }

  lemma OutCloseWriterInv(s: State, s': State)
    requires OutInv(s) && OutCloseWriter(s, s')
    ensures OutInv(s')
  {
    assert (s'.out + [Closed])[..|s.out|] == s.out;
  }

  lemma OutStepInv(s: State, s': State)
    requires Inv(s) && OutStep(s, s')
    ensures Inv(s')
  {
    InFrame(s, s');
    if OutSend(s, s') {
      OutSendInv(s, s');
    } else if OutCloseWriter(s, s') {
      OutCloseWriterInv(s, s');
    }
  }

  lemma RemoteDataInv(s: State, s': State, chunk: Bytes, more: bool)
    requires Inv(s) && RemoteData(s, s', chunk, more)
    ensures Inv(s')
  {
    InFrame(s, s');
    assert BodyOnly(s'.out, s.fromRemote);
  }

  lemma RemoteStepInv(s: State, s': State)
    requires Inv(s) && RemoteStep(s, s')
    ensures Inv(s')
  {
    if RemoteTakes(s, s') {
      WriteInv(s, s', 0);
    } else if exists n :: RemoteRefuses(s, s', n) {
      var n :| RemoteRefuses(s, s', n);
      WriteInv(s, s', n);
    } else if RemoteEnd(s, s') {
      InFrame(s, s');
    } else {
      var chunk, more :| RemoteData(s, s', chunk, more);
      RemoteDataInv(s, s', chunk, more);
    }
  }

  lemma StepInv(s: State, s': State)
    requires Inv(s) && Step(s, s')
    ensures Inv(s')
  {
    if InStep(s, s') {
      InStepInv(s, s');
    } else if OutStep(s, s') {
      OutStepInv(s, s');
    } else if RemoteStep(s, s') {
      RemoteStepInv(s, s');
    } else if exists m :: Arrive(s, s', m) {
      var m :| Arrive(s, s', m);
      ArriveInv(s, s', m);
    }
  }

  lemma {:induction false} RunInv(run: seq<State>, i: nat)
    requires Run(run) && i < |run|
    ensures Inv(run[i])
  {
    if i == 0 {
      InitInv(run[0]);
    } else {
      RunInv(run, i - 1);
      StepInv(run[i - 1], run[i]);
    }
  }

  /** What every step keeps stays along a path. */
  lemma {:induction false} StaysAlong(path: seq<State>, k: nat, i: nat, p: State -> bool)
    requires Path(path) && k <= i < |path| && p(path[k])
    requires forall s, s' | Step(s, s') && p(s) :: p(s')
    ensures p(path[i])
  {
    if i == k {
    } else {
      StaysAlong(path, k, i - 1, p);
      assert Step(path[i - 1], path[i]);
    }
  }

  // ----- shutdown ------------------------------------------------------------------------------------------

  /** Body-only messages, then as much of the end-of-stream message and the closed signal as is sent. */
  ghost predicate Orderly(out: seq<Outgoing>) {
    exists b: nat | b <= |out| ::
      (forall k | 0 <= k < b :: IsChunk(out[k])) && out[b..] <= [EOF_MESSAGE, Closed]
  }

  lemma InvOrderly(s: State)
    requires OutInv(s)
    ensures Orderly(s.out) && Concat(Bodies(s.out)) <= s.fromRemote
  {
    var n := |s.out|;
    assert s.out[..n] == s.out;
    match s.outPc
    case Returned =>
      assert s.out[n - 2..] == [EOF_MESSAGE, Closed];
      ChunksThenEnd(s.out, n - 2, s.fromRemote);
    case Receiving => ChunksThenEnd(s.out, n, s.fromRemote);
    case ClosingWriter => ChunksThenEnd(s.out, n, s.fromRemote);
    case Sending(chunk, _) =>
      var sent :| BodyOnly(s.out, sent) && sent + chunk == s.fromRemote;
      ChunksThenEnd(s.out, n, sent);
    case _ => EofSent(s.out, s.fromRemote);
  }

  lemma EofSent(out: seq<Outgoing>, bytes: Bytes)
    requires HijackResponse(out + [Closed], bytes)
    ensures Orderly(out) && Concat(Bodies(out)) == bytes
  {
    var n := |out|;
    assert (out + [Closed])[..n - 1] == out[..n - 1];
    assert out[n - 1..] == [(out + [Closed])[n - 1]] == [EOF_MESSAGE];
    ChunksThenEnd(out, n - 1, bytes);
  }

  lemma ChunksThenEnd(out: seq<Outgoing>, b: nat, bytes: Bytes)
    requires b <= |out| && BodyOnly(out[..b], bytes) && out[b..] <= [EOF_MESSAGE, Closed]
    ensures Orderly(out) && Concat(Bodies(out)) == bytes
  {
    forall k | 0 <= k < b ensures IsChunk(out[k]) {
      assert out[k] == out[..b][k];
    }
    assert out == out[..b] + out[b..];
    BodiesAppend(out[..b], out[b..]);
    ConcatAppend(Bodies(out[..b]), Bodies(out[b..]));
    NoBodyInEnd(out[b..]);
  }

  lemma NoBodyInEnd(end: seq<Outgoing>)
    requires end <= [EOF_MESSAGE, Closed]
    ensures Concat(Bodies(end)) == []
  {
    if end != [] {
      assert Bodies(end[1..]) == [];
      assert Bodies(end) == [[]];
    }
  }

  /** Shutdown protocol, at every moment of every run: the response is orderly and carries nothing but
      bytes read from the connection; when the handler returns, it carries all of them followed by one
      end-of-stream message and the closed signal, and the incoming channel is closed and drained. */
  lemma ShutdownProtocol(run: seq<State>, i: nat)
    requires Run(run) && i < |run|
    ensures var s := run[i];
            && Orderly(s.out) && Concat(Bodies(s.out)) <= s.fromRemote
            && (s.outPc.Returned? ==>
                  && HijackResponse(s.out, s.fromRemote)
                  && s.closed && s.reader.chan == [] && s.connClosed)
  {
    RunInv(run, i);
    InvOrderly(run[i]);
    if run[i].outPc.Returned? {
      ReturnedIsShutDown(run[i]);
    }
  }

  lemma ReturnedIsShutDown(s: State)
    requires Inv(s) && s.outPc.Returned?
    ensures HijackResponse(s.out, s.fromRemote) && s.closed && s.reader.chan == [] && s.connClosed
  {
  }

  // ----- termination ---------------------------------------------------------------------------------------

  function WireBytes(chan: seq<Wire>): nat {
    if chan == [] then 0
    else (if chan[0].Json? then |chan[0].message.body| else 0) + WireBytes(chan[1..])
  }

  /** What the reader still has to get through. */
  function Load(st: ReaderState): nat {
    |st.buffered| + WireBytes(st.chan) + 2 * |st.chan|
  }

  function InCost(s: State): nat {
    match s.inPc
    case Reading => Load(s.reader) + 3
    case Writing(_, _) => Load(s.reader) + 3
    case Draining => |s.reader.chan| + 2
    case ClosingConn => 1
    case Done => 0
  }

  function OutCost(s: State): nat {
    match s.outPc
    case Sending(_, _) => 6
    case Receiving => 5
    case ClosingWriter => 4
    case Waiting => 3
    case Deferred => 2
    case Signalling => 1
    case Returned => 0
  }

  /** The steps the two goroutines can still take if the remote end sends nothing more. */
  function Cost(s: State): nat {
    InCost(s) + OutCost(s)
  }

  lemma ReadShrinks(st: ReaderState)
    ensures var r := ReadStep(st, COPY_BUFFER);
            && |r.state.chan| <= |st.chan|
            && (r.data != [] || r.err.NoError? ==> Load(r.state) < Load(st))
  {
  }

  lemma InReadDescends(s: State, s': State)
    requires InRead(s, s')
    ensures InCost(s') < InCost(s) && s'.outPc == s.outPc
  {
    ReadShrinks(s.reader);
  }

  /** Every step of the two goroutines lowers the cost. */
  lemma OwnStepsDescend(s: State, s': State)
    requires OwnStep(s, s')
    ensures Cost(s') < Cost(s) && s'.closed == s.closed
  {
    if OutStep(s, s') {
      OutStepsDescend(s, s');
    } else if InRead(s, s') {
      InReadDescends(s, s');
    } else {
      DrainDescends(s, s');
    }
  }

  lemma DrainDescends(s: State, s': State)
    requires InDrain(s, s') || InDrained(s, s') || InCloseConn(s, s')
    ensures Cost(s') < Cost(s)
  {
  }

  lemma OutStepsDescend(s: State, s': State)
    requires OutStep(s, s')
    ensures InCost(s') == InCost(s) && OutCost(s') < OutCost(s)
  {
  }

  lemma WriteCost(s: State, s': State, n: nat)
    requires RemoteTakes(s, s') || RemoteRefuses(s, s', n)
    ensures InCost(s') <= InCost(s) && OutCost(s') == OutCost(s) && s'.closed == s.closed
  {
  }

  /** A step of the remote end raises it by one at most. */
  lemma RemoteStepsCost(s: State, s': State)
    requires RemoteStep(s, s')
    ensures Cost(s') <= Cost(s) + 1 && s'.closed == s.closed
  {
    if RemoteTakes(s, s') {
      WriteCost(s, s', 0);
    } else if exists n :: RemoteRefuses(s, s', n) {
      var n :| RemoteRefuses(s, s', n);
      WriteCost(s, s', n);
    } else {
      assert s'.inPc == s.inPc && s'.reader == s.reader;
    }
  }

  /** The steps of a path that are not the handler's own. */
  ghost function Waits(path: seq<State>): nat {
    if |path| <= 1 then 0
    else (if OwnStep(path[0], path[1]) then 0 else 1) + Waits(path[1..])
  }

  /** Once the incoming channel is closed, the handler takes no more steps than its cost and one for every
      step of the remote end. */
  lemma {:induction false} StepsAfterClose(path: seq<State>)
    requires Path(path) && path[0].closed
    ensures |path| - 1 <= Cost(path[0]) + 2 * Waits(path)
  {
    if |path| == 1 {
    } else {
      var s, s', tail := path[0], path[1], path[1..];
      assert Step(s, s');
      if OwnStep(s, s') {
        OwnStepsDescend(s, s');
      } else {
        RemoteStepsCost(s, s');
      }
      forall i | 0 <= i < |tail| - 1 ensures Step(tail[i], tail[i + 1]) {
        assert Step(path[i + 1], path[i + 2]);
      }
      StepsAfterClose(tail);
    }
  }

  /** The copy to the connection waits for the remote end to take a chunk, and the handler for the remote
      end to send something or for the other goroutine. */
  predicate Hanging(s: State) {
    s.inPc.Writing? && (s.outPc.Receiving? || s.outPc.Waiting?)
  }

  /** The handler waits for the remote end or the goroutine, or has returned. */
  predicate OutWaits(s: State) {
    match s.outPc
    case Receiving => !s.connClosed
    case Waiting => !s.inPc.Done?
    case Returned => true
    case _ => false
  }

  lemma OutCanMove(s: State) returns (s': State)
    requires !OutWaits(s)
    ensures OutStep(s, s')
  {
    s' := match s.outPc
      case Receiving => s.(outPc := ClosingWriter)
      case Sending(chunk, more) =>
        s.(out := s.out + [Body(EMPTY.(body := chunk))], outPc := if more then Receiving else ClosingWriter)
      case ClosingWriter => s.(out := s.out + [EOF_MESSAGE], outPc := Waiting)
      case Waiting => s.(outPc := Deferred)
      case Deferred => s.(connClosed := true, outPc := Signalling)
      case _ => s.(out := s.out + [Closed], outPc := Returned);
  }

  /** The goroutine has nothing to do: it waits for the remote end or the client, or is done. */
  predicate InWaits(s: State) {
    match s.inPc
    case Writing(_, _) => true
    case Reading => !s.closed && s.reader.buffered == [] && !s.reader.eof && s.reader.chan == []
    case Draining => !s.closed && s.reader.chan == []
    case ClosingConn => false
    case Done => true
  }

  lemma InCanMove(s: State) returns (s': State)
    requires !InWaits(s)
    ensures InStep(s, s')
  {
    match s.inPc
    case Reading =>
      var r := ReadStep(s.reader, COPY_BUFFER);
      var s1 := s.(reader := r.state);
      s' := if r.data != [] then s1.(inPc := Writing(r.data, r.err)) else AfterChunk(s1, r.err);
    case Draining =>
      s' := if s.reader.chan != [] then s.(reader := s.reader.(chan := s.reader.chan[1..]))
            else s.(inPc := ClosingConn);
    case ClosingConn =>
      s' := s.(connClosed := true, inPc := Done);
  }

  /** Neither goroutine ever waits without need: each has no step if and only if there is nothing for it to
      do. A goroutine that waits for the client's next message has forwarded all the client's bytes. */
  lemma StuckIffNothingToDo(run: seq<State>, i: nat)
    requires Run(run) && i < |run|
    ensures (forall s' :: !InStep(run[i], s')) <==> InWaits(run[i])
    ensures (forall s' :: !OutStep(run[i], s')) <==> OutWaits(run[i])
    ensures InWaits(run[i]) && run[i].inPc.Reading? ==>
              run[i].toRemote == ClientStream(run[i]) && !EofSeen(Full(run[i]))
  {
    RunInv(run, i);
    var s := run[i];
    if InWaits(s) {
      forall s' ensures !InStep(s, s') {
      }
    } else {
      var s' := InCanMove(s);
    }
    if OutWaits(s) {
      forall s' ensures !OutStep(s, s') {
      }
    } else {
      var s' := OutCanMove(s);
    }
  }

  /** After the client has closed the incoming channel, the handler that has not returned can go on by itself
      unless it is hanging: it waits for the remote end if and only if a chunk for the connection is not
      taken and the other direction has nothing to send. */
  lemma StuckIffHanging(run: seq<State>, i: nat)
    requires Run(run) && i < |run| && run[i].closed && !run[i].outPc.Returned?
    ensures (forall s' :: !OwnStep(run[i], s')) <==> Hanging(run[i])
  {
    RunInv(run, i);
    StuckIffNothingToDo(run, i);
    assert Hanging(run[i]) <==> InWaits(run[i]) && OutWaits(run[i]);
    forall s' ensures OwnStep(run[i], s') <==> InStep(run[i], s') || OutStep(run[i], s') {
    }
  }

  /** A handler that hangs although the client has gone and the response is complete: the remote end has
      closed its side and does not take the client's bytes. Nothing but the remote end can free it. */
  lemma HangingRun(chunk: Bytes) returns (run: seq<State>)
    requires 0 < |chunk| <= COPY_BUFFER
    ensures Run(run)
    ensures var s := run[|run| - 1];
            && s.closed && Hanging(s) && s.outPc.Waiting? && s.out == [EOF_MESSAGE]
            && s.toRemote == [] && ClientStream(s) == chunk
            && forall s' | Step(s, s') :: RemoteTakes(s, s') || exists n :: RemoteRefuses(s, s', n)
  {
    var start := ReaderState(chunk, [], false);
    var s0 := State(start, [], false, start, [], Running, [], false, [], Reading, Receiving);
    var s1 := s0.(reader := ReaderState([], [], false), inPc := Writing(chunk, NoError));
    var s2 := s1.(outPc := ClosingWriter);
    var s3 := s2.(out := [EOF_MESSAGE], outPc := Waiting);
    var s4 := s3.(closed := true);
    assert chunk[..|chunk|] == chunk && chunk[|chunk|..] == [];
    assert InRead(s0, s1);
    assert RemoteEnd(s1, s2);
    assert OutCloseWriter(s2, s3);
    assert CloseIncoming(s3, s4);
    run := [s0, s1, s2, s3, s4];
    OnlyRemoteFrees(s4);
  }

  lemma OnlyRemoteFrees(s: State)
    requires s.closed && s.inPc.Writing? && s.outPc.Waiting?
    ensures forall s' | Step(s, s') :: RemoteTakes(s, s') || exists n :: RemoteRefuses(s, s', n)
  {
    forall s' ensures !OwnStep(s, s') && !ClientStep(s, s') {
    }
  }

  // ----- the bytes of the request --------------------------------------------------------------------------

  ghost predicate Refuses(s: State, s': State) {
    exists n :: RemoteRefuses(s, s', n)
  }

  /** The remote end has broken a write before moment `i`. */
  ghost predicate Refused(run: seq<State>, i: nat) {
    exists k | 0 <= k < i && k + 1 < |run| :: Refuses(run[k], run[k + 1])
  }

  lemma FailsByRefusal(s: State, s': State)
    requires Step(s, s') && s'.ended.WriteFailed?
    ensures s.ended.WriteFailed? || Refuses(s, s')
  {
  }

  lemma FailedOnlyIfRefused(run: seq<State>, i: nat)
    requires Run(run) && i < |run| && run[i].ended.WriteFailed?
    ensures Refused(run, i)
  {
    var flags := seq(|run|, k requires 0 <= k < |run| => run[k].ended.WriteFailed?);
    var k := TurnsTrue(flags, 0, i);
    FailsByRefusal(run[k], run[k + 1]);
  }

  /** Of well-formed messages none is reported as malformed. */
  ghost predicate CleanInv(s: State) {
    WellFormed(s.start.chan + s.arrived) ==>
      && WellFormed(s.reader.chan)
      && s.ended != Finished(BadMessage) && !(s.inPc.Writing? && s.inPc.err.BadMessage?)
  }

  lemma CleanArrive(s: State, s': State, m: Wire)
    requires CleanInv(s) && Arrive(s, s', m)
    ensures CleanInv(s')
  {
    var all := s.start.chan + s.arrived;
    assert s'.start.chan + s'.arrived == all + [m];
    if WellFormed(all + [m]) {
      assert (all + [m])[|all|] == m;
      forall k | 0 <= k < |all| ensures all[k].Json? {
        assert (all + [m])[k] == all[k];
      }
    }
  }

  lemma CleanRead(s: State, s': State)
    requires CleanInv(s) && InRead(s, s')
    ensures CleanInv(s')
  {
    if WellFormed(s.reader.chan) && s.reader.chan != [] {
      assert s.reader.chan[0].Json?;
    }
  }

  lemma CleanWrite(s: State, s': State)
    requires CleanInv(s) && (RemoteTakes(s, s') || Refuses(s, s'))
    ensures CleanInv(s')
  {
  }

  lemma CleanDrain(s: State, s': State)
    requires CleanInv(s) && (InDrain(s, s') || InDrained(s, s') || InCloseConn(s, s'))
    ensures CleanInv(s')
  {
  }

  lemma CleanStep(s: State, s': State)
    requires CleanInv(s) && Step(s, s')
    ensures CleanInv(s')
  {
    if exists m :: Arrive(s, s', m) {
      var m :| Arrive(s, s', m);
      CleanArrive(s, s', m);
    } else if InRead(s, s') {
      CleanRead(s, s');
    } else if InStep(s, s') {
      CleanDrain(s, s');
    } else if RemoteTakes(s, s') || Refuses(s, s') {
      CleanWrite(s, s');
    } else {
      InUntouched(s, s');
    }
  }

  /** The other steps leave the incoming direction alone. */
  lemma InUntouched(s: State, s': State)
    requires Step(s, s') && !InStep(s, s') && !RemoteTakes(s, s') && !Refuses(s, s')
    requires forall m :: !Arrive(s, s', m)
    ensures s'.start == s.start && s'.arrived == s.arrived && s'.reader == s.reader
    ensures s'.ended == s.ended && s'.inPc == s.inPc
  {
    if OutStep(s, s') {
      assert s'.reader == s.reader;
    }
  }

  lemma {:induction false} CleanRun(run: seq<State>, i: nat)
    requires Run(run) && i < |run|
    ensures CleanInv(run[i])
  {
    if i == 0 {
      assert run[0].start.chan + [] == run[0].start.chan;
    } else {
      CleanRun(run, i - 1);
      CleanStep(run[i - 1], run[i]);
    }
  }

  /** Why the incoming direction stops copying: a refused write, a malformed message, or the end of the
      stream, which is the client's end-of-stream mark or a closed channel. */
  lemma StopsOnlyIf(run: seq<State>, i: nat)
    requires Run(run) && i < |run| && !run[i].inPc.Reading? && !run[i].inPc.Writing?
    ensures var s := run[i];
            && (s.ended.WriteFailed? ==> Refused(run, i))
            && (s.ended == Finished(BadMessage) ==> !WellFormed(s.start.chan + s.arrived))
            && (s.ended == Finished(EndOfStream) ==> EofSeen(Full(s)) || s.closed)
            && (WellFormed(s.start.chan + s.arrived) && !Refused(run, i) ==> s.ended == Finished(EndOfStream))
  {
    RunInv(run, i);
    CleanRun(run, i);
    if run[i].ended.WriteFailed? {
      FailedOnlyIfRefused(run, i);
    }
  }

  /** The incoming direction has stopped copying, and nothing but the end of the stream has stopped it. */
  ghost predicate CopiedAll(run: seq<State>, i: nat)
    requires i < |run|
  {
    || run[i].ended == Finished(EndOfStream)
    || (!run[i].inPc.Reading? && !run[i].inPc.Writing? && !Refused(run, i) &&
        WellFormed(run[i].start.chan + run[i].arrived))
  }

  /** The connection never gets anything but the client's bytes in order. When the copying has stopped at
      the end of the stream, as it has whenever it has stopped on well-formed messages and without a refused
      write, what is not forwarded is exactly what did not fit the copy buffer together with the
      end-of-stream mark. */
  lemma ForwardedBytes(run: seq<State>, i: nat)
    requires Run(run) && i < |run|
    ensures var s := run[i];
            && s.toRemote <= ClientStream(s)
            && (CopiedAll(run, i) ==>
                  && s.toRemote + Cut(EofBody(Full(s))) == ClientStream(s)
                  && (s.toRemote == ClientStream(s) <==> |EofBody(Full(s))| <= COPY_BUFFER))
  {
    RunInv(run, i);
    var s := run[i];
    if s.inPc.Writing? {
      assert s.toRemote <= s.toRemote + s.inPc.chunk;
    }
    if CopiedAll(run, i) && s.ended != Finished(EndOfStream) {
      StopsOnlyIf(run, i);
    }
  }

  // ----- the bytes of the response -------------------------------------------------------------------------

  /** The remote end has ended its side, with or without some last data. */
  ghost predicate RemoteEnds(s: State, s': State) {
    RemoteEnd(s, s') || exists chunk :: RemoteData(s, s', chunk, false)
  }

  predicate StillCopying(pc: OutPc) {
    pc.Receiving? || (pc.Sending? && pc.more)
  }

  lemma StopsReceiving(s: State, s': State)
    requires InInv(s) && Step(s, s') && StillCopying(s.outPc) && !StillCopying(s'.outPc)
    ensures RemoteEnds(s, s') || s'.closed
  {
    if InStep(s, s') {
      InKeepsOut(s, s');
    } else if OutStep(s, s') {
      assert s.connClosed;
    }
  }

  lemma ClosedStays(s: State, s': State)
    requires Step(s, s') && s.closed
    ensures s'.closed
  {
  }

  lemma ClosedForGood(run: seq<State>, k: nat, i: nat)
    requires Path(run) && k <= i < |run| && run[k].closed
    ensures run[i].closed
  {
    var p := (s: State) => s.closed;
    forall s, s' | Step(s, s') && p(s) ensures p(s') {
      ClosedStays(s, s');
    }
    StaysAlong(run, k, i, p);
  }

  /** The response is cut short only by the remote end or after the client has closed the channel. */
  lemma ResponseEndsOnlyIf(run: seq<State>, i: nat)
    requires Run(run) && i < |run| && !StillCopying(run[i].outPc)
    ensures run[i].closed || exists k | 0 <= k < i :: RemoteEnds(run[k], run[k + 1])
  {
    var flags := seq(|run|, k requires 0 <= k < |run| => !StillCopying(run[k].outPc));
    var k := TurnsTrue(flags, 0, i);
    RunInv(run, k);
    StopsReceiving(run[k], run[k + 1]);
    if run[k + 1].closed {
      ClosedForGood(run, k + 1, i);
    }
  }

  /** The chunk is message `at` of the response, or about to be. */
  predicate Carries(s: State, at: nat, chunk: Bytes) {
    || (at == |s.out| && s.outPc.Sending? && s.outPc.chunk == chunk)
    || (at < |s.out| && s.out[at] == Body(EMPTY.(body := chunk)))
  }

  lemma OutGrows(s: State, s': State)
    requires Step(s, s')
    ensures s.out <= s'.out
    ensures s.outPc.Sending? ==> (s'.outPc == s.outPc && s'.out == s.out) || OutSend(s, s')
  {
    if InStep(s, s') {
      InKeepsOut(s, s');
    } else if ClientStep(s, s') {
      assert s'.outPc == s.outPc && s'.out == s.out;
    } else if RemoteStep(s, s') {
      RemoteKeepsOut(s, s');
    }
  }

  lemma RemoteKeepsOut(s: State, s': State)
    requires RemoteStep(s, s')
    ensures s'.out == s.out && (s.outPc.Sending? ==> s'.outPc == s.outPc)
  {
  }

  lemma InKeepsOut(s: State, s': State)
    requires InStep(s, s')
    ensures s'.outPc == s.outPc && s'.out == s.out
  {
  }

  lemma CarriesStep(s: State, s': State, at: nat, chunk: Bytes)
    requires Step(s, s') && Carries(s, at, chunk)
    ensures Carries(s', at, chunk)
  {
    OutGrows(s, s');
  }

  lemma CarriesOn(run: seq<State>, k: nat, i: nat, at: nat, chunk: Bytes)
    requires Path(run) && k <= i < |run| && Carries(run[k], at, chunk)
    ensures Carries(run[i], at, chunk)
  {
    var p := (s: State) => Carries(s, at, chunk);
    forall s, s' | Step(s, s') && p(s) ensures p(s') {
      CarriesStep(s, s', at, chunk);
    }
    StaysAlong(run, k, i, p);
  }

  lemma CarriesFirst(s: State, s': State, chunk: Bytes, more: bool)
    requires RemoteData(s, s', chunk, more)
    ensures Carries(s', |s.out|, chunk)
  {
  }

  /** Every chunk the remote end sends becomes one message of the response, in its place. */
  lemma ChunkIsSent(run: seq<State>, k: nat, i: nat, chunk: Bytes, more: bool)
    requires Run(run) && k < i < |run| && RemoteData(run[k], run[k + 1], chunk, more)
    ensures Carries(run[i], |run[k].out|, chunk)
  {
    CarriesFirst(run[k], run[k + 1], chunk, more);
    CarriesOn(run, k + 1, i, |run[k].out|, chunk);
  }

  // ----- the request ---------------------------------------------------------------------------------------

  /** The initial content of the request: with a positive declared length, a buffer of that length
      filled by one read. The request body and what the reader still holds make up the client's bytes if
      and only if the first body is at least as long as declared; otherwise zeros are appended. A length
      that does not parse ends the request. */
  method InitialContent(reader: HttpReader, length: ContentLength) returns (ok: bool, body: Option<Bytes>)
    modifies reader
    ensures ok <==> !length.Unparsable?
    ensures body.Some? <==> length.Length? && length.n > 0
    ensures body.None? ==> reader.State() == old(reader.State())
    ensures body.Some? ==>
              var content, available := length.n, Available(old(reader.State()));
              && reader.State() == ReadStep(old(reader.State()), content).state
              && |body.value| == content
              && (|available| >= content ==> body.value == available[..content])
              && (|available| < content ==> body.value == available + seq(content - |available|, _ => 0))
              && (body.value + Undelivered(reader.State()) == Undelivered(old(reader.State())) <==>
                  |available| >= content)
  {
    body := None;
    var content := SetContentLength(length);
    ok := content.Some?;
    if ok && content.value > 0 {
      ghost var st := reader.State();
      var buf := new byte[content.value](_ => 0);
      var n, err := reader.Read(buf);
      body := Some(buf[..]);
      ReadConserves(st, content.value);
      assert buf[..] == buf[..n] + buf[n..];
      DeliveredIsAvailable(st, content.value);
    }
  }

  lemma DeliveredIsAvailable(st: ReaderState, size: nat)
    ensures ReadStep(st, size).data ==
            if size < |Available(st)| then Available(st)[..size] else Available(st)
  {
  }

  /** A read that finds something to receive does not depend on messages that arrive later. */
  lemma ReadIgnoresLater(st: ReaderState, later: seq<Wire>, size: nat)
    requires st.buffered != [] || st.eof || st.chan != []
    ensures ReadStep(st.(chan := st.chan + later), size).state ==
            ReadStep(st, size).state.(chan := ReadStep(st, size).state.chan + later)
    ensures Available(st.(chan := st.chan + later)) == Available(st)
  {
    if st.chan != [] {
      assert (st.chan + later)[1..] == st.chan[1..] + later;
    }
  }

  /** The bytes of a hijacked request whose first body holds at least the declared content: the request body
      followed by the forwarded bytes is the client's stream, nothing lost, repeated or reordered, if and
      only if the end-of-stream body fits the copy buffer. */
  lemma HijackedRequestBytes(first: ReaderState, content: nat, run: seq<State>, i: nat)
    requires 0 < content <= |Available(first)|
    requires Run(run) && i < |run| && run[i].start == ReadStep(first, content).state
    requires CopiedAll(run, i)
    ensures Available(first)[..content] + run[i].toRemote ==
            Undelivered(first.(chan := first.chan + run[i].arrived)) <==>
            |EofBody(Full(run[i]))| <= COPY_BUFFER
  {
    ForwardedBytes(run, i);
    SplitStream(first, run[i].arrived, content);
  }

  /** The client's bytes are the content taken by the initial read and what the reader gets later. */
  lemma SplitStream(first: ReaderState, later: seq<Wire>, content: nat)
    requires 0 < content <= |Available(first)|
    ensures var start := ReadStep(first, content).state;
            Undelivered(first.(chan := first.chan + later)) ==
            Available(first)[..content] + Undelivered(start.(chan := start.chan + later))
  {
    var whole := first.(chan := first.chan + later);
    ReadIgnoresLater(first, later, content);
    ReadConserves(whole, content);
    DeliveredIsAvailable(whole, content);
    assert Available(whole)[..|Available(whole)|] == Available(whole);
    assert ReadStep(whole, content).data == Available(first)[..content];
  }
}
