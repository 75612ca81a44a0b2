/** The goroutines of `LogsHandler.Handle` together: the handler, in which the Docker client writes the
    log into the pipe; the goroutine that closes the pipe when the incoming channel closes; and the
    goroutine that scans the pipe and sends messages. Each takes one atomic step at a time. */
module LogSession {
  import opened ByteStrings
  import opened Framing
  import LogFraming

  datatype Scan =
    | Splitting                 // about to call the split function
    | Reading                   // waiting for the pipe
    | Sending(token: Bytes)
    | Stopped(err: ScanError)

  datatype Handler = Writing | Returned | Signalled

  datatype Out = Body(text: Bytes) | Closed

  datatype State = State(
    next: nat,                  // writes the Docker client has begun
    current: Option<Bytes>,     // what the pipe has not yet taken of the write under way
    closed: bool,               // the write end of the pipe is closed
    taken: Bytes,               // what the scanner has read in all
    buf: Bytes,
    atEOF: bool,
    scan: Scan,
    handler: Handler,
    out: seq<Out>)

  /** The separator and the writes of the Docker client. */
  datatype Config = Config(sep: Bytes, writes: seq<Bytes>) {
    ghost predicate Valid() {
      |sep| > 0 && forall i | 0 <= i < |writes| :: writes[i] != []
    }
  }

  predicate Init(s: State) {
    s == State(0, None, false, [], [], false, Splitting, Writing, [])
  }

  // ----- the handler and the pipe ----------------------------------------------------------------------

  predicate BeginWrite(c: Config, s: State, s': State) {
    && s.handler.Writing? && s.current.None? && s.next < |c.writes| && !s.closed
    && s' == s.(current := Some(c.writes[s.next]), next := s.next + 1)
  }

  /** `client.Logs` returns at the end of the log, or when the pipe is closed. */
  predicate Return(c: Config, s: State, s': State) {
    && s.handler.Writing? && (s.closed || (s.current.None? && s.next >= |c.writes|))
    && s' == s.(handler := Returned)
  }

  predicate Signal(s: State, s': State) {
    s.handler.Returned? && s' == s.(handler := Signalled, out := s.out + [Closed])
  }

  predicate ClosePipe(s: State, s': State) {
    !s.closed && s' == s.(closed := true)
  }

  // ----- the scanner -----------------------------------------------------------------------------------

  /** A read takes some of the write under way, as far as the buffer has room. */
  predicate ReadPipe(s: State, s': State, n: nat) {
    && s.scan.Reading? && !s.closed && s.current.Some?
    && 0 < n <= |s.current.value| && |s.buf| + n <= MAX_SCAN_TOKEN_SIZE
    && var w := s.current.value;
       s' == s.(buf := s.buf + w[..n], taken := s.taken + w[..n], scan := Splitting,
                current := if n == |w| then None else Some(w[n..]))
  }

  predicate ReadEOF(s: State, s': State) {
    s.scan.Reading? && s.closed && s' == s.(atEOF := true, scan := Splitting)
  }

  predicate SplitBuffer(c: Config, s: State, s': State) {
    && s.scan.Splitting?
    && var r := Split(s.buf, s.atEOF, c.sep);
       s' == if r.token.Some? then s.(buf := s.buf[r.advance..], scan := Sending(r.token.value))
             else if s.atEOF then s.(scan := Stopped(EOF))
             else if |s.buf| >= MAX_SCAN_TOKEN_SIZE then s.(scan := Stopped(TooLong))
             else s.(scan := Reading)
  }

  predicate SendMessage(s: State, s': State) {
    s.scan.Sending? && s' == s.(out := s.out + [Body(s.scan.token)], scan := Splitting)
  }

  /** The steps that do not wait for the client to go. */
  ghost predicate OwnStep(c: Config, s: State, s': State) {
    || BeginWrite(c, s, s') || Return(c, s, s') || Signal(s, s')
    || (exists n :: ReadPipe(s, s', n)) || ReadEOF(s, s') || SplitBuffer(c, s, s') || SendMessage(s, s')
  }

  ghost predicate Step(c: Config, s: State, s': State) {
    OwnStep(c, s, s') || ClosePipe(s, s')
  }

  /** Any number of steps from one state on. */
  ghost predicate Path(c: Config, path: seq<State>) {
    path != [] && forall i | 0 <= i < |path| - 1 :: Step(c, path[i], path[i + 1])
  }

  // ----- the invariant ---------------------------------------------------------------------------------

  function SentTexts(out: seq<Out>): seq<Bytes> {
    if out == [] then []
    else
      var n := |out| - 1;
      SentTexts(out[..n]) + if out[n].Body? then [out[n].text] else []
  }

  lemma SentTextsSnoc(out: seq<Out>, o: Out)
    ensures SentTexts(out + [o]) == SentTexts(out) + if o.Body? then [o.text] else []
  {
    assert (out + [o])[..|out|] == out;
  }

  /** The messages found so far, the one about to be sent included. */
  function Found(s: State): seq<Bytes> {
    SentTexts(s.out) + if s.scan.Sending? then [s.scan.token] else []
  }

  /** Whatever follows, the messages found are the first ones of the stream, and the buffer is what is left
      of it to split. */
  ghost predicate Ahead(sep: Bytes, taken: Bytes, found: seq<Bytes>, buf: Bytes)
    requires |sep| > 0
  {
    forall later ::
      && Emitted(taken + later, sep) == found + Emitted(buf + later, sep)
      && Overflows(taken + later, sep) == Overflows(buf + later, sep)
  }

  ghost predicate ScanInv(c: Config, s: State)
    requires c.Valid()
  {
    && |s.buf| <= MAX_SCAN_TOKEN_SIZE
    && (s.scan.Reading? ==> |s.buf| < MAX_SCAN_TOKEN_SIZE && !s.atEOF && Index(s.buf, c.sep) < 0)
    && (s.atEOF ==> s.closed && |s.buf| < MAX_SCAN_TOKEN_SIZE)
    && (s.scan.Stopped? ==>
          || (s.scan.err.EOF? && s.atEOF && s.buf == [])
          || (s.scan.err.TooLong? && !s.atEOF && |s.buf| == MAX_SCAN_TOKEN_SIZE && Index(s.buf, c.sep) < 0))
    && (!s.atEOF ==> Ahead(c.sep, s.taken, Found(s), s.buf))
    && (s.atEOF ==>
          && Emitted(s.taken, c.sep) == Found(s) + Emitted(s.buf, c.sep)
          && Overflows(s.taken, c.sep) == Overflows(s.buf, c.sep))
  }

  ghost predicate PipeInv(c: Config, s: State) {
    && s.next <= |c.writes|
    && s.taken + (if s.current.Some? then s.current.value else []) == Concat(c.writes[..s.next])
    && (s.current.Some? ==> s.current.value != [])
    && (s.handler.Writing? || s.closed || (s.current.None? && s.next == |c.writes|))
  }

  ghost predicate Inv(c: Config, s: State) {
    c.Valid() && ScanInv(c, s) && PipeInv(c, s)
  }

  lemma AheadAtStart(sep: Bytes)
    requires |sep| > 0
    ensures Ahead(sep, [], [], [])
  {
    forall later: Bytes ensures Emitted([] + later, sep) == [] + Emitted([] + later, sep) {
    }
  }

  lemma InitInv(c: Config, s: State)
    requires c.Valid() && Init(s)
    ensures Inv(c, s)
  {
    AheadAtStart(c.sep);
    assert Found(s) == [];
    assert c.writes[..0] == [];
  }

  lemma AheadAfterRead(sep: Bytes, taken: Bytes, found: seq<Bytes>, buf: Bytes, chunk: Bytes)
    requires |sep| > 0 && Ahead(sep, taken, found, buf)
    ensures Ahead(sep, taken + chunk, found, buf + chunk)
  {
    forall later
      ensures Emitted(taken + chunk + later, sep) == found + Emitted(buf + chunk + later, sep)
      ensures Overflows(taken + chunk + later, sep) == Overflows(buf + chunk + later, sep)
    {
      Assoc(taken, chunk, later);
      Assoc(buf, chunk, later);
      assert Emitted(taken + (chunk + later), sep) == found + Emitted(buf + (chunk + later), sep);
    }
  }

  /** Taking one token off the buffer moves the first message of the rest to the messages found. */
  lemma TokenFound(sep: Bytes, found: seq<Bytes>, buf: Bytes, later: Bytes, atEOF: bool)
    requires |sep| > 0 && |buf| <= MAX_SCAN_TOKEN_SIZE && Split(buf, atEOF, sep).token.Some?
    requires atEOF ==> later == [] && |buf| < MAX_SCAN_TOKEN_SIZE
    ensures var r := Split(buf, atEOF, sep);
            && found + Emitted(buf + later, sep) == found + [r.token.value] + Emitted(buf[r.advance..] + later, sep)
            && Overflows(buf + later, sep) == Overflows(buf[r.advance..] + later, sep)
  {
    var r := Split(buf, atEOF, sep);
    SplitFindsNext(buf, later, atEOF, sep);
    AdvanceDrops(buf, later, r.advance);
    EmittedNext(found, buf + later, sep);
  }

  lemma AheadAfterToken(sep: Bytes, taken: Bytes, found: seq<Bytes>, buf: Bytes)
    requires |sep| > 0 && |buf| <= MAX_SCAN_TOKEN_SIZE && Ahead(sep, taken, found, buf)
    requires Split(buf, false, sep).token.Some?
    ensures var r := Split(buf, false, sep); Ahead(sep, taken, found + [r.token.value], buf[r.advance..])
  {
    var r := Split(buf, false, sep);
    forall later
      ensures Emitted(taken + later, sep) == found + [r.token.value] + Emitted(buf[r.advance..] + later, sep)
      ensures Overflows(taken + later, sep) == Overflows(buf[r.advance..] + later, sep)
    {
      TokenFound(sep, found, buf, later, false);
    }
  }

  lemma SplitInv(c: Config, s: State, s': State)
    requires Inv(c, s) && SplitBuffer(c, s, s')
    ensures Inv(c, s')
  {
    assert Found(s) == SentTexts(s.out);
    if Split(s.buf, s.atEOF, c.sep).token.Some? {
      TokenInv(c, s, s');
    } else {
      assert Found(s') == Found(s);
    }
  }

  lemma TokenInv(c: Config, s: State, s': State)
    requires Inv(c, s) && SplitBuffer(c, s, s') && Split(s.buf, s.atEOF, c.sep).token.Some?
    ensures Inv(c, s')
  {
    assert Found(s) == SentTexts(s.out);
    if s.atEOF {
      TokenFound(c.sep, Found(s), s.buf, [], true);
      assert s.buf + [] == s.buf && s'.buf + [] == s'.buf;
    } else {
      AheadAfterToken(c.sep, s.taken, Found(s), s.buf);
    }
  }

  lemma ReadInv(c: Config, s: State, s': State, n: nat)
    requires Inv(c, s) && ReadPipe(s, s', n)
    ensures Inv(c, s')
  {
    AheadAfterRead(c.sep, s.taken, Found(s), s.buf, s.current.value[..n]);
    assert Found(s') == Found(s);
    ReadKeepsPipe(c, s, s', n);
  }

  lemma ReadKeepsPipe(c: Config, s: State, s': State, n: nat)
    requires PipeInv(c, s) && ReadPipe(s, s', n)
    ensures PipeInv(c, s')
  {
    var w := s.current.value;
    assert w == w[..n] + w[n..];
    Assoc(s.taken, w[..n], w[n..]);
    assert n == |w| ==> w[n..] == [];
  }

  lemma EofInv(c: Config, s: State, s': State)
    requires Inv(c, s) && ReadEOF(s, s')
    ensures Inv(c, s')
  {
    assert s.taken + [] == s.taken && s.buf + [] == s.buf;
    assert Emitted(s.taken + [], c.sep) == Found(s) + Emitted(s.buf + [], c.sep);
    assert Found(s') == Found(s);
  }

  lemma StepInv(c: Config, s: State, s': State)
    requires Inv(c, s) && Step(c, s, s')
    ensures Inv(c, s')
  {
    if SplitBuffer(c, s, s') {
      SplitInv(c, s, s');
    } else if exists n :: ReadPipe(s, s', n) {
      var n :| ReadPipe(s, s', n);
      ReadInv(c, s, s', n);
    } else if ReadEOF(s, s') {
      EofInv(c, s, s');
    } else if SendMessage(s, s') {
      OutputInv(c, s, s');
    } else {
      HandlerInv(c, s, s');
    }
  }

  lemma OutputInv(c: Config, s: State, s': State)
    requires Inv(c, s) && SendMessage(s, s')
    ensures Inv(c, s')
  {
    SentTextsSnoc(s.out, Body(s.scan.token));
    assert Found(s') == Found(s);
  }

  lemma HandlerInv(c: Config, s: State, s': State)
    requires Inv(c, s) && (BeginWrite(c, s, s') || Return(c, s, s') || Signal(s, s') || ClosePipe(s, s'))
    ensures Inv(c, s')
  {
    if Signal(s, s') {
      SentTextsSnoc(s.out, Closed);
    } else if BeginWrite(c, s, s') {
      BeginWriteInv(c, s, s');
    }
    ScanFrame(c, s, s');
  }

  lemma BeginWriteInv(c: Config, s: State, s': State)
    requires c.Valid() && PipeInv(c, s) && BeginWrite(c, s, s')
    ensures PipeInv(c, s')
  {
    assert c.writes[..s.next + 1] == c.writes[..s.next] + [c.writes[s.next]];
    ConcatSnoc(c.writes[..s.next], c.writes[s.next]);
  }

  lemma ScanFrame(c: Config, s: State, s': State)
    requires c.Valid() && ScanInv(c, s)
    requires s'.buf == s.buf && s'.taken == s.taken && s'.atEOF == s.atEOF && s'.scan == s.scan
    requires SentTexts(s'.out) == SentTexts(s.out) && (s.closed ==> s'.closed)
    ensures ScanInv(c, s')
  {
    assert Found(s') == Found(s);
  }

  lemma {:induction false} PathInv(c: Config, path: seq<State>, i: nat)
    requires Path(c, path) && i < |path| && Inv(c, path[0])
    ensures Inv(c, path[i])
  {
    if i == 0 {
    } else {
      PathInv(c, path, i - 1);
      StepInv(c, path[i - 1], path[i]);
    }
  }

  // ----- main results ----------------------------------------------------------------------------------

  /** At every moment, the pipe has handed over the beginning of what was written, and the messages sent are
      the first messages of the stream, whatever may still follow in it. */
  lemma SentIsBeginning(c: Config, run: seq<State>, i: nat, later: Bytes)
    requires c.Valid() && Path(c, run) && Init(run[0]) && i < |run|
    ensures var s := run[i];
            && s.next <= |c.writes| && s.taken <= Concat(c.writes[..s.next])
            && (!s.atEOF ==> SentTexts(s.out) <= Emitted(s.taken + later, c.sep))
            && (s.atEOF ==> SentTexts(s.out) <= Emitted(s.taken, c.sep))
  {
    InitInv(c, run[0]);
    PathInv(c, run, i);
    var s := run[i];
    assert SentTexts(s.out) <= Found(s);
    if !s.atEOF {
      assert Emitted(s.taken + later, c.sep) == Found(s) + Emitted(s.buf + later, c.sep);
    }
  }

  /** When the scanner has stopped at the end of the pipe, it has sent exactly the messages of what it has
      read; when it has stopped at a message that is too long, all messages before that one. */
  lemma StoppedIsComplete(c: Config, run: seq<State>, i: nat)
    requires c.Valid() && Path(c, run) && Init(run[0]) && i < |run| && run[i].scan.Stopped?
    ensures var s := run[i];
            && SentTexts(s.out) == Emitted(s.taken, c.sep)
            && s.scan.err == if Overflows(s.taken, c.sep) then TooLong else EOF
  {
    InitInv(c, run[0]);
    PathInv(c, run, i);
    var s := run[i];
    assert s.taken + [] == s.taken && s.buf + [] == s.buf;
    if !s.atEOF {
      assert Emitted(s.taken + [], c.sep) == Found(s) + Emitted(s.buf + [], c.sep);
    }
    assert Emitted(s.buf, c.sep) == [];
  }

  /** The scanner has nothing left to say: it has stopped, or holds neither a message nor the makings of one. */
  predicate Quiet(c: Config, s: State)
    requires |c.sep| > 0
  {
    s.scan.Stopped? || (!s.scan.Sending? && Emitted(s.buf, c.sep) == [])
  }

  lemma QuietSplit(c: Config, s: State, s': State)
    requires Inv(c, s) && Quiet(c, s) && SplitBuffer(c, s, s')
    ensures Quiet(c, s') && s'.out == s.out && s'.handler == s.handler
  {
    SplitFindsNext(s.buf, [], s.atEOF, c.sep);
    assert s.buf + [] == s.buf;
  }

  lemma QuietStep(c: Config, s: State, s': State)
    requires Inv(c, s) && s.handler.Signalled? && Quiet(c, s) && Step(c, s, s')
    ensures s'.handler.Signalled? && Quiet(c, s') && s'.out == s.out
  {
    if SplitBuffer(c, s, s') {
      QuietSplit(c, s, s');
    } else if exists n :: ReadPipe(s, s', n) {
      assert false;
    } else {
      assert s'.buf == s.buf;
    }
  }

  lemma {:induction false} QuietStays(c: Config, path: seq<State>, i: nat)
    requires Path(c, path) && i < |path| && Inv(c, path[0])
    requires path[0].handler.Signalled? && Quiet(c, path[0])
    ensures path[i].handler.Signalled? && Quiet(c, path[i]) && path[i].out == path[0].out
  {
    if i == 0 {
    } else {
      QuietStays(c, path, i - 1);
      PathInv(c, path, i - 1);
      QuietStep(c, path[i - 1], path[i]);
    }
  }

  lemma SpeakFromSplit(c: Config, s: State) returns (path: seq<State>)
    requires Inv(c, s) && s.scan.Splitting? && Split(s.buf, s.atEOF, c.sep).token.Some?
    ensures Path(c, path) && path[0] == s && |path[|path| - 1].out| == |s.out| + 1
    ensures path[|path| - 1].out[|s.out|].Body?
  {
    var r := Split(s.buf, s.atEOF, c.sep);
    var s1 := s.(buf := s.buf[r.advance..], scan := Sending(r.token.value));
    var s2 := s1.(out := s1.out + [Body(r.token.value)], scan := Splitting);
    assert SplitBuffer(c, s, s1) && SendMessage(s1, s2);
    path := [s, s1, s2];
  }

  lemma PathCons(c: Config, s: State, tail: seq<State>)
    requires Path(c, tail) && Step(c, s, tail[0])
    ensures Path(c, [s] + tail) && ([s] + tail)[|tail|] == tail[|tail| - 1]
  {
    var path := [s] + tail;
    forall i | 0 <= i < |path| - 1 ensures Step(c, path[i], path[i + 1]) {
      if i == 0 {
      } else {
        assert Step(c, tail[i - 1], tail[i]);
      }
    }
  }

  lemma SpeakAtEOF(c: Config, s: State) returns (path: seq<State>)
    requires Inv(c, s) && s.scan.Reading? && s.buf != [] && s.closed
    ensures Path(c, path) && path[0] == s && |path[|path| - 1].out| == |s.out| + 1
    ensures path[|path| - 1].out[|s.out|].Body?
  {
    var s1 := s.(atEOF := true, scan := Splitting);
    assert ReadEOF(s, s1);
    StepInv(c, s, s1);
    var tail := SpeakFromSplit(c, s1);
    PathCons(c, s, tail);
    path := [s] + tail;
  }

  lemma SpeakFromReading(c: Config, s: State) returns (path: seq<State>)
    requires Inv(c, s) && s.scan.Reading? && s.buf != []
    ensures Path(c, path) && path[0] == s && |path[|path| - 1].out| == |s.out| + 1
    ensures path[|path| - 1].out[|s.out|].Body?
  {
    if s.closed {
      path := SpeakAtEOF(c, s);
    } else {
      var s1 := s.(closed := true);
      assert ClosePipe(s, s1);
      StepInv(c, s, s1);
      var tail := SpeakAtEOF(c, s1);
      PathCons(c, s, tail);
      path := [s] + tail;
    }
  }

  lemma NothingYet(c: Config, s: State)
    requires Inv(c, s) && s.scan.Splitting? && !Quiet(c, s) && Split(s.buf, s.atEOF, c.sep).token.None?
    ensures !s.atEOF && s.buf != [] && |s.buf| < MAX_SCAN_TOKEN_SIZE
  {
    SplitFindsNext(s.buf, [], s.atEOF, c.sep);
    assert s.buf + [] == s.buf;
  }

  lemma SpeakSending(c: Config, s: State) returns (path: seq<State>)
    requires s.scan.Sending?
    ensures Path(c, path) && path[0] == s && |path[|path| - 1].out| == |s.out| + 1
    ensures path[|path| - 1].out[|s.out|].Body?
  {
    var s1 := s.(out := s.out + [Body(s.scan.token)], scan := Splitting);
    assert SendMessage(s, s1);
    path := [s, s1];
  }

  lemma SpeakAfterReading(c: Config, s: State) returns (path: seq<State>)
    requires Inv(c, s) && s.scan.Splitting? && !Quiet(c, s) && Split(s.buf, s.atEOF, c.sep).token.None?
    ensures Path(c, path) && path[0] == s && |path[|path| - 1].out| == |s.out| + 1
    ensures path[|path| - 1].out[|s.out|].Body?
  {
    NothingYet(c, s);
    var s1 := s.(scan := Reading);
    assert SplitBuffer(c, s, s1);
    StepInv(c, s, s1);
    var tail := SpeakFromReading(c, s1);
    PathCons(c, s, tail);
    path := [s] + tail;
  }

  lemma Speak(c: Config, s: State) returns (path: seq<State>)
    requires Inv(c, s) && !Quiet(c, s)
    ensures Path(c, path) && path[0] == s && |path[|path| - 1].out| == |s.out| + 1
    ensures path[|path| - 1].out[|s.out|].Body?
  {
    if s.scan.Sending? {
      path := SpeakSending(c, s);
    } else if s.scan.Reading? {
      path := SpeakFromReading(c, s);
    } else if Split(s.buf, s.atEOF, c.sep).token.Some? {
      path := SpeakFromSplit(c, s);
    } else {
      path := SpeakAfterReading(c, s);
    }
  }

  /** The closed signal is the last message if and only if the scanner is quiet when it is sent. */
  lemma ClosedIsLastIffQuiet(c: Config, run: seq<State>, i: nat)
    requires c.Valid() && Path(c, run) && Init(run[0]) && i < |run| && run[i].handler.Signalled?
    ensures (forall path: seq<State> | Path(c, path) && path[0] == run[i] :: path[|path| - 1].out == run[i].out) <==>
            Quiet(c, run[i])
  {
    InitInv(c, run[0]);
    PathInv(c, run, i);
    var s := run[i];
    if Quiet(c, s) {
      forall path: seq<State> | Path(c, path) && path[0] == s ensures path[|path| - 1].out == s.out {
        QuietStays(c, path, |path| - 1);
      }
    } else {
      var path := Speak(c, s);
      assert path[|path| - 1].out != s.out;
    }
  }

  lemma SplitOneFrame(t: Bytes, sep: Bytes)
    requires Marker(sep) && !Contains(t, sep)
    ensures Split(t + sep, false, sep) == SplitResult(|t + sep|, Some(t))
    ensures (t + sep)[|t + sep|..] == []
  {
    NoStraddle(t, sep, []);
    assert t + sep + [] == t + sep;
    assert (t + sep)[..|t|] == t;
  }

  /** A run that has read one frame, and not yet split it, when `client.Logs` returns. */
  lemma ReadOneFrame(frame: Bytes, sep: Bytes) returns (c: Config, run: seq<State>)
    requires |sep| > 0 && 0 < |frame| <= MAX_SCAN_TOKEN_SIZE
    ensures c == Config(sep, [frame]) && Path(c, run) && Init(run[0])
    ensures run[|run| - 1] == State(1, None, false, frame, frame, false, Splitting, Returned, [])
  {
    c := Config(sep, [frame]);
    var s0 := State(0, None, false, [], [], false, Splitting, Writing, []);
    var s1 := s0.(scan := Reading);
    var s2 := s1.(current := Some(frame), next := 1);
    var s3 := s2.(buf := frame, taken := frame, scan := Splitting, current := None);
    var s4 := s3.(handler := Returned);
    assert SplitBuffer(c, s0, s1) && BeginWrite(c, s1, s2);
    assert ReadPipe(s2, s3, |frame|) by {
      assert frame[..|frame|] == frame && [] + frame == frame;
    }
    assert Return(c, s3, s4);
    run := [s0, s1, s2, s3, s4];
  }

  lemma PathSnoc(c: Config, path: seq<State>, s: State)
    requires Path(c, path) && Step(c, path[|path| - 1], s)
    ensures Path(c, path + [s])
  {
    var longer := path + [s];
    forall i | 0 <= i < |longer| - 1 ensures Step(c, longer[i], longer[i + 1]) {
      if i < |path| - 1 {
        assert Step(c, path[i], path[i + 1]);
      }
    }
  }

  /** A run in which a message follows the closed signal. */
  lemma LateFrame(t: Bytes, sep: Bytes) returns (c: Config, run: seq<State>)
    requires Marker(sep) && !Contains(t, sep) && |t| + |sep| <= MAX_SCAN_TOKEN_SIZE
    ensures c == Config(sep, [t + sep]) && Path(c, run) && Init(run[0])
    ensures run[|run| - 1].out == [Closed, Body(t)]
  {
    c, run := ReadOneFrame(t + sep, sep);
    var s0 := run[|run| - 1];
    var s1 := s0.(handler := Signalled, out := [Closed]);
    assert Signal(s0, s1);
    PathSnoc(c, run, s1);
    var s2 := s1.(buf := [], scan := Sending(t));
    SplitOneFrame(t, sep);
    assert SplitBuffer(c, s1, s2);
    PathSnoc(c, run + [s1], s2);
    var s3 := s2.(out := [Closed, Body(t)], scan := Splitting);
    assert SendMessage(s2, s3);
    PathSnoc(c, run + [s1] + [s2], s3);
    run := run + [s1] + [s2] + [s3];
  }

  /** Any printable message can follow the closed signal. */
  lemma BodyAfterClosed(m: LogFraming.LogMessage) returns (c: Config, run: seq<State>)
    requires LogFraming.Printable(m)
    ensures var t := m.stream.Tag() + m.text;
            && c == Config(LogFraming.SEPARATOR, [t + LogFraming.SEPARATOR])
            && Path(c, run) && Init(run[0]) && run[|run| - 1].out == [Closed, Body(t)]
  {
    LogFraming.SeparatorOutsideTags();
    LogFraming.PrintableToken(m, LogFraming.SEPARATOR);
    c, run := LateFrame(m.stream.Tag() + m.text, LogFraming.SEPARATOR);
  }

  // ----- the session and the log -----------------------------------------------------------------------

  /** One write for each frame. */
  ghost predicate WritesFrames(c: Config, tokens: seq<Bytes>) {
    |c.writes| == |tokens| && forall i | 0 <= i < |tokens| :: c.writes[i] == tokens[i] + c.sep
  }

  lemma {:induction false} ConcatOfFrames(writes: seq<Bytes>, tokens: seq<Bytes>, sep: Bytes)
    requires |writes| == |tokens| && forall i | 0 <= i < |tokens| :: writes[i] == tokens[i] + sep
    ensures Concat(writes) == Frame(tokens, sep)
  {
    if tokens == [] {
    } else {
      ConcatOfFrames(writes[1..], tokens[1..], sep);
    }
  }

  /** What the scanner has read is the beginning of the framed log. */
  lemma TakenIsBeginning(c: Config, s: State, tokens: seq<Bytes>)
    requires WritesFrames(c, tokens) && s.next <= |c.writes| && s.taken <= Concat(c.writes[..s.next])
    ensures s.taken <= Frame(tokens, c.sep)
  {
    ConcatOfFrames(c.writes, tokens, c.sep);
    assert c.writes == c.writes[..s.next] + c.writes[s.next..];
    ConcatAppend(c.writes[..s.next], c.writes[s.next..]);
  }

  /** Tokens in full, and then at most one proper prefix of the next frame. */
  function Delivered(tokens: seq<Bytes>, k: nat, part: Bytes): seq<Bytes>
    requires k <= |tokens|
  {
    tokens[..k] + if part == [] then [] else [part]
  }

  ghost predicate Cut(tokens: seq<Bytes>, sep: Bytes, k: nat, part: Bytes) {
    k <= |tokens| && (part != [] ==> k < |tokens| && part < tokens[k] + sep)
  }

  lemma BeginningOfDelivered(sent: seq<Bytes>, tokens: seq<Bytes>, sep: Bytes, k: nat, part: Bytes)
    returns (k': nat, part': Bytes)
    requires Cut(tokens, sep, k, part) && sent <= Delivered(tokens, k, part)
    ensures Cut(tokens, sep, k', part') && sent == Delivered(tokens, k', part')
    ensures sent == Delivered(tokens, k, part) ==> k' == k && part' == part
  {
    if |sent| == |Delivered(tokens, k, part)| {
      k', part' := k, part;
    } else {
      k', part' := |sent|, [];
      assert sent == tokens[..|sent|];
    }
  }

  /** While the pipe is open, every message sent is a whole one. */
  lemma OpenSession(tokens: seq<Bytes>, sep: Bytes, taken: Bytes, sent: seq<Bytes>)
    requires Marker(sep) && SeparatorFree(tokens, sep) && Fits(tokens, sep)
    requires taken <= Frame(tokens, sep)
    requires sent <= Emitted(taken + Frame(tokens, sep)[|taken|..], sep)
    ensures |sent| <= |tokens| && sent == Delivered(tokens, |sent|, [])
  {
    var stream := Frame(tokens, sep);
    assert taken + stream[|taken|..] == stream;
    assert Emitted(stream, sep) == tokens by {
      FrameRoundTrip(tokens, sep);
    }
    assert sent == tokens[..|sent|];
  }

  /** At every moment of every run over a framed log, the messages sent are the first messages of the log and
      then at most one proper prefix of the next frame. When the scanner stops, it stops without an error
      and has sent all that it has read. */
  lemma SessionFrames(c: Config, tokens: seq<Bytes>, run: seq<State>, i: nat) returns (k: nat, part: Bytes)
    requires Marker(c.sep) && SeparatorFree(tokens, c.sep) && Fits(tokens, c.sep) && WritesFrames(c, tokens)
    requires Path(c, run) && Init(run[0]) && i < |run|
    ensures Cut(tokens, c.sep, k, part) && SentTexts(run[i].out) == Delivered(tokens, k, part)
    ensures run[i].scan.Stopped? ==>
              run[i].scan.err.EOF? && run[i].taken == Frame(tokens[..k], c.sep) + part
  {
    var taken, sent := run[i].taken, SentTexts(run[i].out);
    SentIsBeginning(c, run, i, []);
    TakenIsBeginning(c, run[i], tokens);
    if run[i].scan.Stopped? {
      StoppedIsComplete(c, run, i);
      k, part := ReadFrames(tokens, c.sep, taken);
    } else if run[i].atEOF {
      k, part := ReadFrames(tokens, c.sep, taken);
      k, part := BeginningOfDelivered(sent, tokens, c.sep, k, part);
    } else {
      SentIsBeginning(c, run, i, Frame(tokens, c.sep)[|taken|..]);
      OpenSession(tokens, c.sep, taken, sent);
      k, part := |sent|, [];
    }
  }

  lemma ReadFrames(tokens: seq<Bytes>, sep: Bytes, taken: Bytes) returns (k: nat, part: Bytes)
    requires Marker(sep) && SeparatorFree(tokens, sep) && Fits(tokens, sep)
    requires taken <= Frame(tokens, sep)
    ensures Cut(tokens, sep, k, part) && taken == Frame(tokens[..k], sep) + part
    ensures Emitted(taken, sep) == Delivered(tokens, k, part) && !Overflows(taken, sep)
  {
    k, part := TruncatedFrames(tokens, |taken|, sep);
    assert taken == Frame(tokens, sep)[..|taken|];
  }

  /** The same in terms of the log. */
  lemma SessionOfLog(log: seq<LogFraming.LogMessage>, c: Config, run: seq<State>, i: nat)
    returns (k: nat, part: Bytes)
    requires forall j | 0 <= j < |log| :: LogFraming.Printable(log[j])
    requires c.sep == LogFraming.SEPARATOR && WritesFrames(c, LogFraming.Tagged(log))
    requires Path(c, run) && Init(run[0]) && i < |run|
    ensures var tokens := LogFraming.Tagged(log);
            && Cut(tokens, c.sep, k, part) && SentTexts(run[i].out) == Delivered(tokens, k, part)
            && (run[i].scan.Stopped? ==>
                  run[i].scan.err.EOF? && run[i].taken == Frame(tokens[..k], c.sep) + part)
  {
    LogFraming.SeparatorOutsideTags();
    LogFraming.PrintableTokens(log, c.sep);
    k, part := SessionFrames(c, LogFraming.Tagged(log), run, i);
  }

  // ----- progress --------------------------------------------------------------------------------------

  /** The session is at rest: the scanner waits on an open pipe for a handler that is done, or it has stopped.
      If it has stopped at a message that is too long, the handler may hang in a write nobody reads. */
  predicate AtRest(s: State) {
    || (s.scan.Reading? && s.handler.Signalled? && !s.closed)
    || (s.scan.Stopped? && (s.handler.Signalled? || (s.handler.Writing? && !s.closed && s.current.Some?)))
  }

  lemma HandlerCanMove(c: Config, s: State) returns (s': State)
    requires PipeInv(c, s) && !s.handler.Signalled? && (s.closed || s.current.None? || s.handler.Returned?)
    ensures OwnStep(c, s, s')
  {
    if s.handler.Returned? {
      s' := s.(handler := Signalled, out := s.out + [Closed]);
      assert Signal(s, s');
    } else if s.closed || s.next >= |c.writes| {
      s' := s.(handler := Returned);
      assert Return(c, s, s');
    } else {
      s' := s.(current := Some(c.writes[s.next]), next := s.next + 1);
      assert BeginWrite(c, s, s');
    }
  }

  lemma ScannerCanMove(c: Config, s: State) returns (s': State)
    requires Inv(c, s) && !s.scan.Stopped? && (s.scan.Reading? ==> s.closed || s.current.Some?)
    ensures OwnStep(c, s, s')
  {
    match s.scan
    case Sending(token) =>
      s' := s.(out := s.out + [Body(token)], scan := Splitting);
      assert SendMessage(s, s');
    case Reading =>
      if s.closed {
        s' := s.(atEOF := true, scan := Splitting);
        assert ReadEOF(s, s');
      } else {
        var w := s.current.value;
        s' := s.(buf := s.buf + w[..1], taken := s.taken + w[..1], scan := Splitting,
                 current := if 1 == |w| then None else Some(w[1..]));
        assert ReadPipe(s, s', 1);
      }
    case Splitting =>
      var r := Split(s.buf, s.atEOF, c.sep);
      s' := if r.token.Some? then s.(buf := s.buf[r.advance..], scan := Sending(r.token.value))
            else if s.atEOF then s.(scan := Stopped(EOF))
            else if |s.buf| >= MAX_SCAN_TOKEN_SIZE then s.(scan := Stopped(TooLong))
            else s.(scan := Reading);
      assert SplitBuffer(c, s, s');
  }

  lemma RestHasNoStep(c: Config, s: State)
    requires PipeInv(c, s) && AtRest(s)
    ensures forall s' :: !OwnStep(c, s, s')
  {
  }

  /** Until the client goes, the session has no step left if and only if it is at rest. */
  lemma StuckIffAtRest(c: Config, run: seq<State>, i: nat)
    requires c.Valid() && Path(c, run) && Init(run[0]) && i < |run|
    ensures (forall s' :: !OwnStep(c, run[i], s')) <==> AtRest(run[i])
  {
    InitInv(c, run[0]);
    PathInv(c, run, i);
    var s := run[i];
    if AtRest(s) {
      RestHasNoStep(c, s);
    } else if !s.scan.Stopped? && (s.scan.Reading? ==> s.closed || s.current.Some?) {
      var s' := ScannerCanMove(c, s);
    } else {
      var s' := HandlerCanMove(c, s);
    }
  }

  /** A bound on the steps still to come. */
  function Measure(c: Config, s: State): nat
    requires s.next <= |c.writes|
  {
    10 * (|Concat(c.writes[s.next..])| + if s.current.Some? then |s.current.value| else 0)
    + 4 * |s.buf| + (|c.writes| - s.next)
    + (if s.atEOF then 0 else 2) + (if s.closed then 0 else 1)
    + (match s.scan case Sending(_) => 2 case Splitting => 1 case _ => 0)
    + match s.handler case Writing => 2 case Returned => 1 case Signalled => 0
  }

  lemma BeginWriteDescends(c: Config, s: State, s': State)
    requires s.next <= |c.writes| && BeginWrite(c, s, s')
    ensures Measure(c, s') < Measure(c, s)
  {
    assert c.writes[s.next..] == [c.writes[s.next]] + c.writes[s'.next..];
  }

  lemma SplitDescends(c: Config, s: State, s': State)
    requires s.next <= |c.writes| && |c.sep| > 0 && SplitBuffer(c, s, s')
    ensures s'.next == s.next && Measure(c, s') < Measure(c, s)
  {
    var r := Split(s.buf, s.atEOF, c.sep);
    assert r.token.Some? ==> r.advance > 0;
  }

  lemma ReadDescends(c: Config, s: State, s': State, n: nat)
    requires s.next <= |c.writes| && ReadPipe(s, s', n)
    ensures s'.next == s.next && Measure(c, s') < Measure(c, s)
  {
  }

  lemma RankDescends(c: Config, s: State, s': State)
    requires s.next <= |c.writes| && (s.scan.Reading? ==> !s.atEOF)
    requires Return(c, s, s') || Signal(s, s') || ClosePipe(s, s') || ReadEOF(s, s') || SendMessage(s, s')
    ensures s'.next == s.next && Measure(c, s') < Measure(c, s)
  {
    assert s'.next == s.next && s'.current == s.current && s'.buf == s.buf;
  }

  lemma StepsDescend(c: Config, s: State, s': State)
    requires Inv(c, s) && Step(c, s, s')
    ensures s'.next <= |c.writes| && Measure(c, s') < Measure(c, s)
  {
    if BeginWrite(c, s, s') {
      BeginWriteDescends(c, s, s');
    } else if SplitBuffer(c, s, s') {
      SplitDescends(c, s, s');
    } else if exists n :: ReadPipe(s, s', n) {
      var n :| ReadPipe(s, s', n);
      ReadDescends(c, s, s', n);
    } else {
      RankDescends(c, s, s');
    }
  }

  lemma DescendsAt(c: Config, run: seq<State>, i: nat)
    requires Path(c, run) && i + 1 < |run| && Inv(c, run[i])
    ensures Inv(c, run[i + 1]) && Measure(c, run[i + 1]) < Measure(c, run[i])
  {
    StepInv(c, run[i], run[i + 1]);
    StepsDescend(c, run[i], run[i + 1]);
  }

  /** Every session ends: no run has more steps than its first state allows. */
  lemma SessionBound(c: Config, run: seq<State>)
    requires c.Valid() && Path(c, run) && Init(run[0])
    ensures |run| - 1 <= 10 * |Concat(c.writes)| + |c.writes| + 6
  {
    InitInv(c, run[0]);
    var i := 0;
    while i < |run| - 1
      invariant 0 <= i < |run| && Inv(c, run[i]) && i + Measure(c, run[i]) <= Measure(c, run[0])
    {
      DescendsAt(c, run, i);
      i := i + 1;
    }
    assert c.writes[0..] == c.writes;
  }

  // ----- the whole log ---------------------------------------------------------------------------------

  /** An open pipe means that the handler ends only when all of the log has been read; a scanner that waits
      for the pipe has no complete message left in its buffer. */
  lemma ReadInFull(c: Config, run: seq<State>, i: nat)
    requires c.Valid() && Path(c, run) && Init(run[0]) && i < |run|
    ensures var s := run[i];
            && (!s.closed && !s.handler.Writing? ==> s.taken == Concat(c.writes))
            && (s.scan.Reading? ==> !Contains(s.buf, c.sep))
  {
    InitInv(c, run[0]);
    PathInv(c, run, i);
    assert c.writes[..|c.writes|] == c.writes;
  }

  /** Nothing is left behind complete frames: a separator more would have to be one more, empty message. */
  lemma NothingLeft(tokens: seq<Bytes>, sep: Bytes, found: seq<Bytes>, buf: Bytes)
    requires Marker(sep) && SeparatorFree(tokens, sep) && Fits(tokens, sep) && !Contains(buf, sep)
    requires |sep| <= MAX_SCAN_TOKEN_SIZE && Ahead(sep, Frame(tokens, sep), found, buf)
    ensures found == tokens && buf == []
  {
    EmittedOfFrames(tokens, sep, sep);
    OneFrame([], sep);
    OneFrame(buf, sep);
    assert Emitted(Frame(tokens, sep) + sep, sep) == found + Emitted(buf + sep, sep);
    assert Overflows(Frame(tokens, sep) + sep, sep) == Overflows(buf + sep, sep);
    assert tokens + [[]] == found + [buf];
    assert (tokens + [[]])[|tokens|] == (found + [buf])[|found|];
    assert (tokens + [[]])[..|tokens|] == (found + [buf])[..|found|];
  }

  lemma OneFrame(t: Bytes, sep: Bytes)
    requires Marker(sep) && !Contains(t, sep)
    ensures Overflows(t + sep, sep) <==> |t| + |sep| > MAX_SCAN_TOKEN_SIZE
    ensures |t| + |sep| <= MAX_SCAN_TOKEN_SIZE ==> Emitted(t + sep, sep) == [t]
    ensures [] + sep == sep
  {
    FirstFrame(t, [], sep);
    assert t + sep + [] == t + sep;
    assert Emitted([], sep) == [];
  }

  lemma FramesInFull(c: Config, tokens: seq<Bytes>, run: seq<State>, i: nat)
    requires Marker(c.sep) && SeparatorFree(tokens, c.sep) && Fits(tokens, c.sep) && WritesFrames(c, tokens)
    requires |c.sep| <= MAX_SCAN_TOKEN_SIZE
    requires Path(c, run) && Init(run[0]) && i < |run|
    requires !run[i].closed && !run[i].handler.Writing? && run[i].scan.Reading?
    ensures SentTexts(run[i].out) == tokens
  {
    ReadInFull(c, run, i);
    ConcatOfFrames(c.writes, tokens, c.sep);
    InitInv(c, run[0]);
    PathInv(c, run, i);
    NothingLeft(tokens, c.sep, Found(run[i]), run[i].buf);
  }

  lemma StoppedOpen(c: Config, run: seq<State>, i: nat)
    requires c.Valid() && Path(c, run) && Init(run[0]) && i < |run|
    ensures run[i].scan.Stopped? && run[i].scan.err.EOF? ==> run[i].closed
  {
    InitInv(c, run[0]);
    PathInv(c, run, i);
  }

  /** Delivery: a session over frames that fit that has no step left has signalled its end; and if the client
      has not gone, it has sent exactly the framed messages. */
  lemma FramesDelivered(c: Config, tokens: seq<Bytes>, run: seq<State>, i: nat)
    requires Marker(c.sep) && SeparatorFree(tokens, c.sep) && Fits(tokens, c.sep) && WritesFrames(c, tokens)
    requires |c.sep| <= MAX_SCAN_TOKEN_SIZE
    requires Path(c, run) && Init(run[0]) && i < |run|
    requires forall s' :: !OwnStep(c, run[i], s')
    ensures run[i].handler.Signalled?
    ensures !run[i].closed ==> SentTexts(run[i].out) == tokens
  {
    StuckIffAtRest(c, run, i);
    if run[i].scan.Stopped? {
      var k, part := SessionFrames(c, tokens, run, i);
      StoppedOpen(c, run, i);
    } else if !run[i].closed {
      FramesInFull(c, tokens, run, i);
    }
  }

  /** The same in terms of the log: all of it, message by message. */
  lemma SessionDelivers(log: seq<LogFraming.LogMessage>, c: Config, run: seq<State>, i: nat)
    requires forall j | 0 <= j < |log| :: LogFraming.Printable(log[j])
    requires c.sep == LogFraming.SEPARATOR && WritesFrames(c, LogFraming.Tagged(log))
    requires Path(c, run) && Init(run[0]) && i < |run|
    requires forall s' :: !OwnStep(c, run[i], s')
    ensures run[i].handler.Signalled?
    ensures !run[i].closed ==> SentTexts(run[i].out) == LogFraming.Tagged(log)
  {
    LogFraming.SeparatorOutsideTags();
    LogFraming.PrintableTokens(log, c.sep);
    FramesDelivered(c, LogFraming.Tagged(log), run, i);
  }

  /** A message that is too long makes the session hang: the scanner has stopped, nothing has been sent, and
      the handler waits in its write until the client goes. */
  lemma TooLongHangs(t: Bytes, sep: Bytes) returns (c: Config, run: seq<State>)
    requires Marker(sep) && !Contains(t, sep) && |t| + |sep| > MAX_SCAN_TOKEN_SIZE
    ensures c == Config(sep, [t + sep]) && Path(c, run) && Init(run[0])
    ensures var s := run[|run| - 1];
            && s.handler.Writing? && s.scan == Stopped(TooLong) && s.out == []
            && forall s' | Step(c, s, s') :: ClosePipe(s, s')
  {
    var frame := t + sep;
    c := Config(sep, [frame]);
    var first := frame[..MAX_SCAN_TOKEN_SIZE];
    var s0 := State(0, None, false, [], [], false, Splitting, Writing, []);
    var s1 := s0.(scan := Reading);
    var s2 := s1.(current := Some(frame), next := 1);
    var s3 := s2.(buf := first, taken := first, scan := Splitting, current := Some(frame[MAX_SCAN_TOKEN_SIZE..]));
    var s4 := s3.(scan := Stopped(TooLong));
    assert SplitBuffer(c, s0, s1) && BeginWrite(c, s1, s2);
    assert ReadPipe(s2, s3, MAX_SCAN_TOKEN_SIZE);
    ProperPrefixOfFrame(t, MAX_SCAN_TOKEN_SIZE, sep);
    assert SplitBuffer(c, s3, s4);
    run := [s0, s1, s2, s3, s4];
    HangsAlone(c, s4);
  }

  lemma HangsAlone(c: Config, s: State)
    requires s.scan.Stopped? && s.handler.Writing? && !s.closed && s.current.Some?
    ensures forall s' | Step(c, s, s') :: ClosePipe(s, s')
  {
  }

  // ----- the shape of the response ---------------------------------------------------------------------

  function Bodies(texts: seq<Bytes>): (r: seq<Out>)
    ensures |r| == |texts| && forall k | 0 <= k < |texts| :: r[k] == Body(texts[k])
  {
    seq(|texts|, k requires 0 <= k < |texts| => Body(texts[k]))
  }

  ghost predicate ClosedAt(out: seq<Out>, texts: seq<Bytes>, p: nat) {
    p <= |texts| && out == Bodies(texts[..p]) + [Closed] + Bodies(texts[p..])
  }

  /** One body message for every text, and the closed signal once, somewhere, when the handler has sent it. */
  ghost predicate Shape(s: State) {
    if s.handler.Signalled? then exists p :: ClosedAt(s.out, SentTexts(s.out), p)
    else s.out == Bodies(SentTexts(s.out))
  }

  lemma BodiesSnoc(texts: seq<Bytes>, t: Bytes)
    ensures Bodies(texts + [t]) == Bodies(texts) + [Body(t)]
  {
  }

  lemma ClosedAtSnoc(out: seq<Out>, texts: seq<Bytes>, p: nat, t: Bytes)
    requires ClosedAt(out, texts, p)
    ensures ClosedAt(out + [Body(t)], texts + [t], p)
  {
    assert (texts + [t])[..p] == texts[..p] && (texts + [t])[p..] == texts[p..] + [t];
    BodiesSnoc(texts[p..], t);
    Assoc(Bodies(texts[..p]) + [Closed], Bodies(texts[p..]), [Body(t)]);
  }

  lemma ShapeSend(s: State, s': State)
    requires Shape(s) && SendMessage(s, s')
    ensures Shape(s')
  {
    var texts, t := SentTexts(s.out), s.scan.token;
    SentTextsSnoc(s.out, Body(t));
    if s.handler.Signalled? {
      var p :| ClosedAt(s.out, texts, p);
      ClosedAtSnoc(s.out, texts, p, t);
    } else {
      BodiesSnoc(texts, t);
    }
  }

  lemma ShapeSignal(s: State, s': State)
    requires Shape(s) && Signal(s, s')
    ensures Shape(s')
  {
    var texts := SentTexts(s.out);
    SentTextsSnoc(s.out, Closed);
    assert SentTexts(s'.out) == texts;
    assert texts[..|texts|] == texts && Bodies(texts[|texts|..]) == [];
    assert ClosedAt(s'.out, texts, |texts|);
  }

  lemma ShapeStep(c: Config, s: State, s': State)
    requires Shape(s) && Step(c, s, s')
    ensures Shape(s')
  {
    if SendMessage(s, s') {
      ShapeSend(s, s');
    } else if Signal(s, s') {
      ShapeSignal(s, s');
    } else {
      OutputKept(c, s, s');
    }
  }

  lemma OutputKept(c: Config, s: State, s': State)
    requires Step(c, s, s') && !SendMessage(s, s') && !Signal(s, s')
    ensures s'.out == s.out && s'.handler.Signalled? == s.handler.Signalled?
  {
  }

  /** The closed signal is sent exactly once. */
  lemma {:induction false} ClosedOnce(c: Config, run: seq<State>, i: nat)
    requires Path(c, run) && Init(run[0]) && i < |run|
    ensures Shape(run[i])
  {
    if i == 0 {
    } else {
      ClosedOnce(c, run, i - 1);
      ShapeStep(c, run[i - 1], run[i]);
    }
  }
}
