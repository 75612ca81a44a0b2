/** Byte strings, and the operations of Go's `bytes` package that the handlers use. */
module ByteStrings {
  newtype byte = x: int | 0 <= x < 256
  type Bytes = seq<byte>

  datatype Option<+T> = None | Some(value: T)

  /** The bytes that a series of writes, or of reads, carries. */
  function Concat(chunks: seq<Bytes>): Bytes {
    if chunks == [] then [] else chunks[0] + Concat(chunks[1..])
  }

  lemma Assoc<T>(a: seq<T>, b: seq<T>, c: seq<T>)
    ensures a + b + c == a + (b + c)
  {
  }

  lemma {:induction false} ConcatAppend(a: seq<Bytes>, b: seq<Bytes>)
    ensures Concat(a + b) == Concat(a) + Concat(b)
  {
    if a == [] {
      assert a + b == b;
    } else {
      ConcatAppend(a[1..], b);
      assert a + b == [a[0]] + (a[1..] + b);
      Assoc(a[0], Concat(a[1..]), Concat(b));
    }
  }

  lemma ConcatSnoc(a: seq<Bytes>, c: Bytes)
    ensures Concat(a + [c]) == Concat(a) + c
  {
    ConcatAppend(a, [c]);
    assert Concat([c]) == c + Concat([]);
  }

  predicate OccursAt(data: Bytes, sep: Bytes, i: int) {
    0 <= i && i + |sep| <= |data| && data[i..i + |sep|] == sep
  }

  ghost predicate Contains(data: Bytes, sep: Bytes) {
    exists i :: OccursAt(data, sep, i)
  }

  /** `bytes.Index`: the first occurrence of `sep`, or -1. */
  function Index(data: Bytes, sep: Bytes): (r: int)
    ensures r >= 0 ==> OccursAt(data, sep, r) && forall j | 0 <= j < r :: !OccursAt(data, sep, j)
    ensures r < 0 ==> r == -1 && !Contains(data, sep)
  {
    IndexFrom(data, sep, 0)
  }

  function IndexFrom(data: Bytes, sep: Bytes, from: nat): (r: int)
    requires forall j | 0 <= j < from :: !OccursAt(data, sep, j)
    ensures r >= 0 ==> OccursAt(data, sep, r) && forall j | 0 <= j < r :: !OccursAt(data, sep, j)
    ensures r < 0 ==> r == -1 && !Contains(data, sep)
    decreases |data| - from
  {
    if from + |sep| > |data| then -1
    else if OccursAt(data, sep, from) then from
    else IndexFrom(data, sep, from + 1)
  }

  lemma IndexIs(data: Bytes, sep: Bytes, i: nat)
    requires OccursAt(data, sep, i)
    requires forall j | 0 <= j < i :: !OccursAt(data, sep, j)
    ensures Index(data, sep) == i
  {
    assert Contains(data, sep);
  }

  lemma IndexAbsent(data: Bytes, sep: Bytes)
    requires !Contains(data, sep)
    ensures Index(data, sep) == -1
  {
  }

  /** What a prefix of the stream already says about the first separator of the whole stream. */
  lemma IndexOfPrefix(data: Bytes, rest: Bytes, sep: Bytes)
    requires |sep| > 0
    ensures Index(data, sep) >= 0 ==> Index(data + rest, sep) == Index(data, sep)
    ensures Index(data, sep) < 0 && Index(data + rest, sep) >= 0 ==>
              Index(data + rest, sep) + |sep| > |data|
  {
    var s := data + rest;
    forall i ensures i + |sep| <= |data| ==> (OccursAt(data, sep, i) <==> OccursAt(s, sep, i)) {
      if 0 <= i && i + |sep| <= |data| {
        assert data[i..i + |sep|] == s[i..i + |sep|];
      }
    }
    var i, k := Index(data, sep), Index(s, sep);
    if i >= 0 {
      assert OccursAt(s, sep, i);
      assert Contains(s, sep);
    } else {
      assert !OccursAt(data, sep, k);
    }
  }
}

/** Splitting a byte stream at a separator: `bufio.Scanner` with a separator split function. */
module Framing {
  import opened ByteStrings

  /** `bufio.MaxScanTokenSize`, and the size of the scanner's first buffer. */
  const MAX_SCAN_TOKEN_SIZE: nat := 65536
  const START_BUFFER_SIZE: nat := 4096

  /** A separator whose first byte does not occur again in it: two occurrences never overlap. */
  ghost predicate Marker(sep: Bytes) {
    |sep| > 0 && forall k | 1 <= k < |sep| :: sep[k] != sep[0]
  }

  datatype SplitResult = SplitResult(advance: nat, token: Option<Bytes>)

  /** `customSplit`; with a one-byte separator, `bufio.ScanLines` before it drops a final CR. */
  function Split(data: Bytes, atEOF: bool, sep: Bytes): (r: SplitResult)
    ensures r.advance <= |data|
  {
    if atEOF && |data| == 0 then SplitResult(0, None)
    else
      var i := Index(data, sep);
      if i >= 0 then SplitResult(i + |sep|, Some(data[..i]))
      else if atEOF then SplitResult(|data|, Some(data))
      else SplitResult(0, None)
  }

  /** What the split function does with the buffered data: it takes off the bytes before the first separator,
      and the separator; without one, at the end of the stream, all that is left; and otherwise nothing. */
  lemma SplitMeans(data: Bytes, atEOF: bool, sep: Bytes)
    requires |sep| > 0
    ensures var r := Split(data, atEOF, sep);
            && (Contains(data, sep) ==>
                  && r.token.Some? && r.token.value + sep == data[..r.advance]
                  && forall j | 0 <= j < |r.token.value| :: !OccursAt(data, sep, j))
            && (!Contains(data, sep) && atEOF && data != [] ==> r == SplitResult(|data|, Some(data)))
            && (!Contains(data, sep) && (!atEOF || data == []) ==> r == SplitResult(0, None))
  {
    var r, i := Split(data, atEOF, sep), Index(data, sep);
    if Contains(data, sep) {
      assert i >= 0;
      assert data[..i + |sep|] == data[..i] + data[i..i + |sep|];
    } else {
      IndexAbsent(data, sep);
    }
  }

  // ----- what a whole stream means ------------------------------------------------------------

  /** Splitting the whole stream at once, with no limit on the size of a token. */
  function Tokens(s: Bytes, sep: Bytes): seq<Bytes>
    requires |sep| > 0
    decreases |s|
  {
    if s == [] then []
    else
      var i := Index(s, sep);
      if i < 0 then [s] else [s[..i]] + Tokens(s[i + |sep|..], sep)
  }

  /** The inverse: every token followed by the separator. */
  function Frame(tokens: seq<Bytes>, sep: Bytes): Bytes {
    if tokens == [] then [] else (tokens[0] + sep) + Frame(tokens[1..], sep)
  }

  datatype Scanned = End | Token(token: Bytes, rest: Bytes) | Oversized

  /** What one call of `Scan` has to find on a stream `s`, however the stream is cut into reads. */
  function Next(s: Bytes, sep: Bytes): (r: Scanned)
    requires |sep| > 0
    ensures r.Token? ==> |r.rest| < |s|
  {
    var i := Index(s, sep);
    if s == [] then End
    else if i >= 0 then
      if i + |sep| <= MAX_SCAN_TOKEN_SIZE then Token(s[..i], s[i + |sep|..]) else Oversized
    else if |s| < MAX_SCAN_TOKEN_SIZE then Token(s, []) else Oversized
  }

  /** The tokens a scanner loop emits before it stops. */
  function Emitted(s: Bytes, sep: Bytes): seq<Bytes>
    requires |sep| > 0
    decreases |s|
  {
    match Next(s, sep)
    case Token(t, rest) => [t] + Emitted(rest, sep)
    case _ => []
  }

  /** Whether the scanner loop stops with `bufio.ErrTooLong`. */
  predicate Overflows(s: Bytes, sep: Bytes)
    requires |sep| > 0
    decreases |s|
  {
    match Next(s, sep)
    case Token(t, rest) => Overflows(rest, sep)
    case End => false
    case Oversized => true
  }

  // ----- the scanner ---------------------------------------------------------------------------

  datatype ScanError = NoError | EOF | TooLong

  /** `bufio.Scanner` reading from a pipe. `input` holds what the pipe's writes have not yet handed
      over: a read takes as much of the first one as fits the free part of the buffer. */
  class Scanner {
    const sep: Bytes
    var buf: Bytes
    var capacity: nat
    var input: seq<Bytes>
    var err: ScanError

    ghost predicate Valid()
      reads this
    {
      && |sep| > 0
      && |buf| <= capacity
      && 0 < capacity <= MAX_SCAN_TOKEN_SIZE
      && (forall i | 0 <= i < |input| :: input[i] != [])
      && (err.EOF? ==> input == [] && |buf| < MAX_SCAN_TOKEN_SIZE)
    }

    /** The bytes not yet returned in a token. */
    ghost function Remaining(): Bytes
      reads this
    {
      buf + Concat(input)
    }

    constructor (sep: Bytes, input: seq<Bytes>)
      requires |sep| > 0
      requires forall i | 0 <= i < |input| :: input[i] != []
      ensures Valid() && err.NoError?
      ensures this.sep == sep && Remaining() == Concat(input)
    {
      this.sep := sep;
      this.input := input;
      buf, capacity, err := [], START_BUFFER_SIZE, NoError;
    }

    method Read()
      requires Valid() && err.NoError? && |buf| < capacity
      modifies this
      ensures Valid() && Remaining() == old(Remaining()) && capacity == old(capacity)
      ensures err.EOF? || (err.NoError? && |Concat(input)| < old(|Concat(input)|))
    {
      if input == [] {
        err := EOF;
        return;
      }
      var first, n := input[0], capacity - |buf|;
      if |first| <= n {
        buf, input := buf + first, input[1..];
      } else {
        buf, input := buf + first[..n], [first[n..]] + input[1..];
        assert input[1..] == old(input)[1..];
      }
    }

    /** `Scan` returns the next token of the stream, the end of the stream, or `ErrTooLong`;
        which one does not depend on the reads. */
    method Scan() returns (token: Option<Bytes>)
      requires Valid() && !err.TooLong?
      modifies this
      ensures Valid()
      ensures match Next(old(Remaining()), sep)
              case End => token.None? && err.EOF? && Remaining() == []
              case Token(t, rest) => token == Some(t) && !err.TooLong? && Remaining() == rest
              case Oversized => token.None? && err.TooLong?
    {
      ghost var s := Remaining();
      while true
        invariant Valid() && Remaining() == s && !err.TooLong?
        decreases if err.NoError? then 1 else 0, |Concat(input)|
      {
        SplitFindsNext(buf, Concat(input), err.EOF?, sep);
        if |buf| > 0 || !err.NoError? {
          var r := Split(buf, !err.NoError?, sep);
          AdvanceDrops(buf, Concat(input), r.advance);
          buf := buf[r.advance..];
          if r.token.Some? {
            return r.token;
          }
        }
        if !err.NoError? {
          return None;
        }
        if |buf| == capacity {
          if capacity >= MAX_SCAN_TOKEN_SIZE {
            err := TooLong;
            return None;
          }
          capacity := if 2 * capacity < MAX_SCAN_TOKEN_SIZE then 2 * capacity else MAX_SCAN_TOKEN_SIZE;
        }
        Read();
      }
    }
  }

  lemma AdvanceDrops(buf: Bytes, later: Bytes, n: nat)
    requires n <= |buf|
    ensures buf[n..] + later == (buf + later)[n..]
  {
  }

  /** What the split function makes of the buffer is what the whole stream demands. */
  lemma SplitFindsNext(buf: Bytes, later: Bytes, atEOF: bool, sep: Bytes)
    requires |sep| > 0 && |buf| <= MAX_SCAN_TOKEN_SIZE
    requires atEOF ==> later == [] && |buf| < MAX_SCAN_TOKEN_SIZE
    ensures var r, s := Split(buf, atEOF, sep), buf + later;
            && (r.token.Some? ==> Next(s, sep) == Token(r.token.value, s[r.advance..]))
            && (r.token.None? ==> r.advance == 0)
            && (r.token.None? && atEOF ==> s == [])
            && (r.token.None? && |buf| == MAX_SCAN_TOKEN_SIZE ==> Next(s, sep) == Oversized)
  {
    var r, s := Split(buf, atEOF, sep), buf + later;
    IndexOfPrefix(buf, later, sep);
    if r.token.Some? {
      assert s[..|r.token.value|] == r.token.value;
    }
    if atEOF {
      assert s == buf;
    }
  }

  /** The loop `for scanner.Scan() { ... scanner.Text() ... }`: for every way of cutting the stream
      into reads, the same tokens, those of the whole stream. */
  method ScanAll(scanner: Scanner) returns (tokens: seq<Bytes>)
    requires scanner.Valid() && scanner.err.NoError?
    modifies scanner
    ensures tokens == Emitted(old(scanner.Remaining()), scanner.sep)
    ensures scanner.err.TooLong? <==> Overflows(old(scanner.Remaining()), scanner.sep)
  {
    ghost var s := scanner.Remaining();
    tokens := [];
    while true
      invariant scanner.Valid() && !scanner.err.TooLong?
      invariant Emitted(s, scanner.sep) == tokens + Emitted(scanner.Remaining(), scanner.sep)
      invariant Overflows(s, scanner.sep) == Overflows(scanner.Remaining(), scanner.sep)
      decreases |scanner.Remaining()|
    {
      EmittedNext(tokens, scanner.Remaining(), scanner.sep);
      var token := scanner.Scan();
      if token.None? {
        return;
      }
      tokens := tokens + [token.value];
    }
  }

  lemma EmittedNext(tokens: seq<Bytes>, s: Bytes, sep: Bytes)
    requires |sep| > 0
    ensures match Next(s, sep)
            case Token(t, rest) =>
              && tokens + Emitted(s, sep) == tokens + [t] + Emitted(rest, sep)
              && Overflows(s, sep) == Overflows(rest, sep)
            case End => tokens + Emitted(s, sep) == tokens && !Overflows(s, sep)
            case Oversized => tokens + Emitted(s, sep) == tokens && Overflows(s, sep)
  {
    if Next(s, sep).Token? {
      Assoc(tokens, [Next(s, sep).token], Emitted(Next(s, sep).rest, sep));
    }
  }

  // ----- properties of the whole-stream meaning ------------------------------------------------

  ghost predicate SeparatorFree(tokens: seq<Bytes>, sep: Bytes) {
    forall i | 0 <= i < |tokens| :: !Contains(tokens[i], sep)
  }

  /** Every token, with the separator behind it, fits the scanner's largest buffer. */
  predicate Fits(tokens: seq<Bytes>, sep: Bytes) {
    forall i | 0 <= i < |tokens| :: |tokens[i]| + |sep| <= MAX_SCAN_TOKEN_SIZE
  }

  /** No occurrence of the separator straddles the end of a separator-free token. */
  lemma NoStraddle(t: Bytes, sep: Bytes, rest: Bytes)
    requires Marker(sep) && !Contains(t, sep)
    ensures Index(t + sep + rest, sep) == |t|
  {
    var s := t + sep + rest;
    assert s[|t|..|t| + |sep|] == sep;
    assert OccursAt(s, sep, |t|);
    forall j | 0 <= j < |t| ensures !OccursAt(s, sep, j) {
      if j + |sep| <= |t| {
        assert !OccursAt(t, sep, j);
        assert s[j..j + |sep|] == t[j..j + |sep|];
      } else {
        assert s[j..j + |sep|][|t| - j] == s[|t|] == sep[0];
      }
    }
    IndexIs(s, sep, |t|);
  }

  lemma FrameCons(t: Bytes, more: seq<Bytes>, sep: Bytes)
    ensures Frame([t] + more, sep) == t + sep + Frame(more, sep)
  {
    assert ([t] + more)[1..] == more;
  }

  lemma {:induction false} FrameAppend(a: seq<Bytes>, b: seq<Bytes>, sep: Bytes)
    ensures Frame(a + b, sep) == Frame(a, sep) + Frame(b, sep)
  {
    if a == [] {
      assert a + b == b;
    } else {
      FrameAppend(a[1..], b, sep);
      assert a + b == [a[0]] + (a[1..] + b);
      FrameCons(a[0], a[1..] + b, sep);
      Assoc(a[0] + sep, Frame(a[1..], sep), Frame(b, sep));
    }
  }

  /** The frames before token `i`, its own frame, and the rest. */
  lemma FrameAt(tokens: seq<Bytes>, i: nat, sep: Bytes)
    requires i < |tokens|
    ensures Frame(tokens[..i + 1], sep) == Frame(tokens[..i], sep) + (tokens[i] + sep)
    ensures Frame(tokens[..i], sep) + (tokens[i] + sep) <= Frame(tokens, sep)
  {
    assert tokens[..i + 1] == tokens[..i] + [tokens[i]];
    FrameAppend(tokens[..i], [tokens[i]], sep);
    FrameCons(tokens[i], [], sep);
    assert tokens == tokens[..i + 1] + tokens[i + 1..];
    FrameAppend(tokens[..i + 1], tokens[i + 1..], sep);
  }

  /** No token contains the separator, for any stream. */
  lemma {:induction false} TokensAreSeparatorFree(s: Bytes, sep: Bytes)
    requires |sep| > 0
    ensures SeparatorFree(Tokens(s, sep), sep)
    decreases |s|
  {
    if s == [] || Index(s, sep) < 0 {
    } else {
      var i := Index(s, sep);
      TokensAreSeparatorFree(s[i + |sep|..], sep);
      forall j ensures !OccursAt(s[..i], sep, j) {
        if 0 <= j && j + |sep| <= i {
          assert !OccursAt(s, sep, j);
          assert s[..i][j..j + |sep|] == s[j..j + |sep|];
        }
      }
    }
  }

  /** Framing the tokens again restores the stream, up to one final separator. */
  lemma {:induction false} FrameOfTokens(s: Bytes, sep: Bytes)
    requires |sep| > 0
    ensures Frame(Tokens(s, sep), sep) == s || Frame(Tokens(s, sep), sep) == s + sep
    decreases |s|
  {
    var i := Index(s, sep);
    if s == [] {
    } else if i < 0 {
      FrameCons(s, [], sep);
    } else {
      var rest := s[i + |sep|..];
      FrameOfTokens(rest, sep);
      FrameCons(s[..i], Tokens(rest, sep), sep);
      RejoinFirst(s, i, Frame(Tokens(rest, sep), sep), sep);
    }
  }

  lemma RejoinFirst(s: Bytes, i: nat, framed: Bytes, sep: Bytes)
    requires OccursAt(s, sep, i)
    requires framed == s[i + |sep|..] || framed == s[i + |sep|..] + sep
    ensures s[..i] + sep + framed == s || s[..i] + sep + framed == s + sep
  {
    assert s == s[..i] + sep + s[i + |sep|..];
    Assoc(s[..i] + sep, s[i + |sep|..], sep);
  }

  /** One frame in front of a stream is split off, or is too long for the scanner. */
  lemma FirstFrame(t: Bytes, rest: Bytes, sep: Bytes)
    requires Marker(sep) && !Contains(t, sep)
    ensures Tokens(t + sep + rest, sep) == [t] + Tokens(rest, sep)
    ensures Next(t + sep + rest, sep) ==
            if |t| + |sep| <= MAX_SCAN_TOKEN_SIZE then Token(t, rest) else Oversized
  {
    NoStraddle(t, sep, rest);
    var s := t + sep + rest;
    assert s[..|t|] == t && s[|t| + |sep|..] == rest;
  }

  lemma FrameFirst(tokens: seq<Bytes>, rest: Bytes, sep: Bytes)
    requires tokens != []
    ensures Frame(tokens, sep) + rest == tokens[0] + sep + (Frame(tokens[1..], sep) + rest)
  {
    Assoc(tokens[0] + sep, Frame(tokens[1..], sep), rest);
  }

  lemma EmitFirstFrame(t: Bytes, rest: Bytes, sep: Bytes)
    requires Marker(sep) && !Contains(t, sep)
    ensures |t| + |sep| <= MAX_SCAN_TOKEN_SIZE ==>
              && Emitted(t + sep + rest, sep) == [t] + Emitted(rest, sep)
              && Overflows(t + sep + rest, sep) == Overflows(rest, sep)
    ensures |t| + |sep| > MAX_SCAN_TOKEN_SIZE ==> Overflows(t + sep + rest, sep)
  {
    FirstFrame(t, rest, sep);
  }

  /** Frames come first: the rest of the stream is split as if they were not there. */
  lemma {:induction false} TokensOfFrames(tokens: seq<Bytes>, rest: Bytes, sep: Bytes)
    requires Marker(sep) && SeparatorFree(tokens, sep)
    ensures Tokens(Frame(tokens, sep) + rest, sep) == tokens + Tokens(rest, sep)
  {
    if tokens == [] {
      assert Frame(tokens, sep) + rest == rest;
    } else {
      var t, more := tokens[0], tokens[1..];
      TokensOfFrames(more, rest, sep);
      Assoc(t + sep, Frame(more, sep), rest);
      FirstFrame(t, Frame(more, sep) + rest, sep);
      assert tokens == [t] + more;
      Assoc([t], more, Tokens(rest, sep));
    }
  }

  lemma {:induction false} EmittedOfFitting(tokens: seq<Bytes>, rest: Bytes, sep: Bytes)
    requires Marker(sep) && SeparatorFree(tokens, sep) && Fits(tokens, sep)
    ensures Emitted(Frame(tokens, sep) + rest, sep) == tokens + Emitted(rest, sep)
    ensures Overflows(Frame(tokens, sep) + rest, sep) == Overflows(rest, sep)
  {
    if tokens == [] {
      assert Frame(tokens, sep) + rest == rest;
    } else {
      var t, more := tokens[0], tokens[1..];
      EmittedOfFitting(more, rest, sep);
      FrameFirst(tokens, rest, sep);
      EmitFirstFrame(t, Frame(more, sep) + rest, sep);
      assert tokens == [t] + more;
      Assoc([t], more, Emitted(rest, sep));
    }
  }

  lemma {:induction false} FirstUnfit(tokens: seq<Bytes>, sep: Bytes, n: nat) returns (i: nat)
    requires n <= |tokens| && !Fits(tokens[..n], sep)
    ensures i < |tokens| && Fits(tokens[..i], sep) && |tokens[i]| + |sep| > MAX_SCAN_TOKEN_SIZE
  {
    if Fits(tokens[..n - 1], sep) {
      i := n - 1;
      assert tokens[..n] == tokens[..i] + [tokens[i]];
    } else {
      i := FirstUnfit(tokens, sep, n - 1);
    }
  }

  lemma FrameFrom(tokens: seq<Bytes>, i: nat, rest: Bytes, sep: Bytes)
    requires i < |tokens|
    ensures Frame(tokens, sep) + rest ==
            Frame(tokens[..i], sep) + (tokens[i] + sep + (Frame(tokens[i + 1..], sep) + rest))
  {
    assert tokens == tokens[..i] + tokens[i..];
    FrameAppend(tokens[..i], tokens[i..], sep);
    Assoc(Frame(tokens[..i], sep), Frame(tokens[i..], sep), rest);
    FrameFirst(tokens[i..], rest, sep);
    assert tokens[i..][1..] == tokens[i + 1..];
  }

  lemma OverflowsAtFrame(tokens: seq<Bytes>, i: nat, rest: Bytes, sep: Bytes)
    requires Marker(sep) && SeparatorFree(tokens, sep) && i < |tokens|
    requires Fits(tokens[..i], sep) && |tokens[i]| + |sep| > MAX_SCAN_TOKEN_SIZE
    ensures Overflows(Frame(tokens, sep) + rest, sep)
  {
    var later := Frame(tokens[i + 1..], sep) + rest;
    EmitFirstFrame(tokens[i], later, sep);
    EmittedOfFitting(tokens[..i], tokens[i] + sep + later, sep);
    FrameFrom(tokens, i, rest, sep);
  }

  /** The scanner loop gets past frames if and only if all of them fit its buffer. */
  lemma EmittedOfFrames(tokens: seq<Bytes>, rest: Bytes, sep: Bytes)
    requires Marker(sep) && SeparatorFree(tokens, sep)
    ensures Fits(tokens, sep) ==>
              && Emitted(Frame(tokens, sep) + rest, sep) == tokens + Emitted(rest, sep)
              && Overflows(Frame(tokens, sep) + rest, sep) == Overflows(rest, sep)
    ensures !Fits(tokens, sep) ==> Overflows(Frame(tokens, sep) + rest, sep)
  {
    if Fits(tokens, sep) {
      EmittedOfFitting(tokens, rest, sep);
    } else {
      assert tokens[..|tokens|] == tokens;
      var i := FirstUnfit(tokens, sep, |tokens|);
      OverflowsAtFrame(tokens, i, rest, sep);
    }
  }

  /** Round trip: the scanner gives back exactly the framed tokens, without an error, if and only if
      none of them contains the separator and each of them fits the scanner's buffer. */
  lemma FrameRoundTrip(tokens: seq<Bytes>, sep: Bytes)
    requires Marker(sep)
    ensures var s := Frame(tokens, sep);
            (Emitted(s, sep) == tokens && !Overflows(s, sep)) <==>
            (SeparatorFree(tokens, sep) && Fits(tokens, sep))
  {
    var s := Frame(tokens, sep);
    assert s + [] == s;
    if SeparatorFree(tokens, sep) {
      EmittedOfFrames(tokens, [], sep);
    }
    if Emitted(s, sep) == tokens && !Overflows(s, sep) {
      EmittedIsTokens(s, sep);
      TokensAreSeparatorFree(s, sep);
    }
  }

  /** The scanner emits the tokens of the whole stream, all of them unless one is too long. */
  lemma {:induction false} EmittedIsTokens(s: Bytes, sep: Bytes)
    requires |sep| > 0
    ensures Emitted(s, sep) <= Tokens(s, sep)
    ensures !Overflows(s, sep) <==> Emitted(s, sep) == Tokens(s, sep)
    decreases |s|
  {
    var next := Next(s, sep);
    if !next.Token? {
    } else {
      EmittedIsTokens(next.rest, sep);
      assert Tokens(s, sep) == [next.token] + Tokens(next.rest, sep);
    }
  }

  /** Token `i` of the stream does not fit the scanner's buffer: together with its separator, or by itself if
      it is the last one and the stream ends without a separator. */
  ghost predicate TooBig(s: Bytes, sep: Bytes, i: nat)
    requires |sep| > 0
  {
    var tokens := Tokens(s, sep);
    && i < |tokens|
    && if i == |tokens| - 1 && Frame(tokens, sep) != s then |tokens[i]| >= MAX_SCAN_TOKEN_SIZE
       else |tokens[i]| + |sep| > MAX_SCAN_TOKEN_SIZE
  }

  lemma SameTail(head: Bytes, a: Bytes, b: Bytes)
    ensures head + a == head + b <==> a == b
  {
    assert (head + a)[|head|..] == a && (head + b)[|head|..] == b;
  }

  lemma TerminatedLater(s: Bytes, sep: Bytes)
    requires |sep| > 0 && s != [] && Index(s, sep) >= 0
    ensures var k := Index(s, sep); var rest := s[k + |sep|..];
            && Tokens(s, sep) == [s[..k]] + Tokens(rest, sep)
            && (Frame(Tokens(s, sep), sep) == s <==> Frame(Tokens(rest, sep), sep) == rest)
            && (Tokens(rest, sep) == [] <==> rest == [])
  {
    var k := Index(s, sep);
    var rest := s[k + |sep|..];
    FrameCons(s[..k], Tokens(rest, sep), sep);
    assert s == s[..k] + sep + rest;
    SameTail(s[..k] + sep, Frame(Tokens(rest, sep), sep), rest);
  }

  /** Behind the first token, the stream goes on as if it started there. */
  lemma TooBigLater(s: Bytes, sep: Bytes, i: nat)
    requires |sep| > 0 && s != [] && Index(s, sep) >= 0
    ensures TooBig(s, sep, i + 1) <==> TooBig(s[Index(s, sep) + |sep|..], sep, i)
    ensures TooBig(s, sep, 0) <==> Index(s, sep) + |sep| > MAX_SCAN_TOKEN_SIZE
  {
    TerminatedLater(s, sep);
    var tokens, more := Tokens(s, sep), Tokens(s[Index(s, sep) + |sep|..], sep);
    assert |tokens| == |more| + 1 && (i < |more| ==> tokens[i + 1] == more[i]);
    if more == [] {
      assert Frame(more, sep) == [];
    }
  }

  lemma TooBigUnterminated(s: Bytes, sep: Bytes)
    requires |sep| > 0 && s != [] && Index(s, sep) < 0
    ensures forall i :: TooBig(s, sep, i) <==> i == 0 && |s| >= MAX_SCAN_TOKEN_SIZE
    ensures Overflows(s, sep) <==> |s| >= MAX_SCAN_TOKEN_SIZE
    ensures |Emitted(s, sep)| == if |s| >= MAX_SCAN_TOKEN_SIZE then 0 else 1
  {
    FrameCons(s, [], sep);
    assert Tokens(s, sep) == [s] && Frame([s], sep) == s + sep + [];
    assert Emitted([], sep) == [] && !Overflows([], sep);
  }

  /** The scanner stops before token `n` if that is the first one that does not fit. */
  ghost predicate StopsBefore(s: Bytes, sep: Bytes, n: nat)
    requires |sep| > 0
  {
    (forall i | 0 <= i < n :: !TooBig(s, sep, i)) && (Overflows(s, sep) <==> TooBig(s, sep, n))
  }

  lemma StopsLater(s: Bytes, sep: Bytes, n: nat)
    requires |sep| > 0 && s != [] && 0 <= Index(s, sep) && Index(s, sep) + |sep| <= MAX_SCAN_TOKEN_SIZE
    requires StopsBefore(s[Index(s, sep) + |sep|..], sep, n)
    ensures StopsBefore(s, sep, n + 1)
  {
    TooBigLater(s, sep, n);
    forall i | 0 <= i < n + 1 ensures !TooBig(s, sep, i) {
      if i == 0 {
      } else {
        TooBigLater(s, sep, i - 1);
      }
    }
  }

  lemma StopsNow(s: Bytes, sep: Bytes)
    requires |sep| > 0 && s != [] && Index(s, sep) + |sep| > MAX_SCAN_TOKEN_SIZE && Index(s, sep) >= 0
    ensures Emitted(s, sep) == [] && StopsBefore(s, sep, 0)
  {
    TooBigLater(s, sep, 0);
  }

  lemma StopsUnterminated(s: Bytes, sep: Bytes)
    requires |sep| > 0 && (s == [] || Index(s, sep) < 0)
    ensures StopsBefore(s, sep, |Emitted(s, sep)|)
  {
    if s != [] {
      TooBigUnterminated(s, sep);
    }
  }

  /** The scanner stops at the first token that does not fit, and only there. */
  lemma {:induction false} StopsAtFirstTooBig(s: Bytes, sep: Bytes)
    requires |sep| > 0
    ensures StopsBefore(s, sep, |Emitted(s, sep)|)
    decreases |s|
  {
    var k := Index(s, sep);
    if s == [] || k < 0 {
      StopsUnterminated(s, sep);
    } else if k + |sep| > MAX_SCAN_TOKEN_SIZE {
      StopsNow(s, sep);
    } else {
      StopsAtFirstTooBig(s[k + |sep|..], sep);
      StopsLater(s, sep, |Emitted(s[k + |sep|..], sep)|);
    }
  }

  /** A stream of frames cut off after `n` bytes: the frames that got through are split as before,
      and what is left of the next frame, if anything, is one more token. */
  lemma TruncatedFrames(tokens: seq<Bytes>, n: nat, sep: Bytes)
    returns (k: nat, part: Bytes)
    requires Marker(sep) && SeparatorFree(tokens, sep) && Fits(tokens, sep)
    requires n <= |Frame(tokens, sep)|
    ensures k <= |tokens|
    ensures Frame(tokens, sep)[..n] == Frame(tokens[..k], sep) + part
    ensures part != [] ==> k < |tokens| && part < tokens[k] + sep
    ensures var s := Frame(tokens, sep)[..n];
            && Emitted(s, sep) == tokens[..k] + (if part == [] then [] else [part])
            && !Overflows(s, sep)
  {
    k, part := CutFrames(tokens, n, sep);
    EmittedOfFrames(tokens[..k], part, sep);
    if part != [] {
      assert part == (tokens[k] + sep)[..|part|];
      ProperPrefixOfFrame(tokens[k], |part|, sep);
      assert Emitted([], sep) == [];
      assert Emitted(part, sep) == [part];
    }
  }

  lemma TakeCons(tokens: seq<Bytes>, k: nat)
    requires k < |tokens|
    ensures tokens[..k + 1] == [tokens[0]] + tokens[1..][..k]
  {
  }

  lemma {:induction false} CutFrames(tokens: seq<Bytes>, n: nat, sep: Bytes) returns (k: nat, part: Bytes)
    requires n <= |Frame(tokens, sep)|
    ensures k <= |tokens|
    ensures Frame(tokens, sep)[..n] == Frame(tokens[..k], sep) + part
    ensures part != [] ==> k < |tokens| && part < tokens[k] + sep
  {
    if tokens == [] {
      k, part := 0, [];
    } else {
      var frame, more := tokens[0] + sep, tokens[1..];
      if n < |frame| {
        k, part := 0, frame[..n];
        assert Frame(tokens, sep)[..n] == part;
      } else {
        var k', part' := CutFrames(more, n - |frame|, sep);
        k, part := k' + 1, part';
        assert Frame(tokens, sep)[..n] == frame + Frame(more, sep)[..n - |frame|];
        TakeCons(tokens, k');
        FrameCons(tokens[0], more[..k'], sep);
        Assoc(frame, Frame(more[..k'], sep), part);
      }
    }
  }

  lemma ProperPrefixOfFrame(t: Bytes, n: nat, sep: Bytes)
    requires Marker(sep) && !Contains(t, sep) && n < |t + sep|
    ensures Index((t + sep)[..n], sep) == -1
  {
    var frame := t + sep;
    assert frame[..n] + frame[n..] == frame == t + sep + [];
    NoStraddle(t, sep, []);
    IndexOfPrefix(frame[..n], frame[n..], sep);
  }
}

/** Reading a stream line by line: a `bufio.Scanner` with its default split function. */
module Lines {
  import opened ByteStrings
  import opened Framing

  const NEWLINE: Bytes := [10]
  const CR: byte := 13

  /** `bufio.ScanLines` drops one carriage return before the newline. */
  function DropCR(line: Bytes): Bytes {
    if |line| > 0 && line[|line| - 1] == CR then line[..|line| - 1] else line
  }

  function Texts(tokens: seq<Bytes>): (lines: seq<Bytes>)
    ensures |lines| == |tokens| && forall i | 0 <= i < |tokens| :: lines[i] == DropCR(tokens[i])
  {
    seq(|tokens|, i requires 0 <= i < |tokens| => DropCR(tokens[i]))
  }

  /** The scanner loop over lines, for every way of cutting the stream into reads. */
  method ScanLines(chunks: seq<Bytes>) returns (lines: seq<Bytes>, failed: bool)
    requires forall i | 0 <= i < |chunks| :: chunks[i] != []
    ensures lines == Texts(Emitted(Concat(chunks), NEWLINE))
    ensures failed == Overflows(Concat(chunks), NEWLINE)
  {
    var scanner := new Scanner(NEWLINE, chunks);
    var tokens := ScanAll(scanner);
    lines := Texts(tokens);
    failed := scanner.err.TooLong?;
  }

  ghost predicate PlainLine(line: Bytes, sep: Bytes) {
    && !Contains(line, sep) && (line == [] || line[|line| - 1] != CR)
    && |line| + |sep| <= MAX_SCAN_TOKEN_SIZE
  }

  /** Printed lines come back unchanged and without an error if and only if every one of them is free of
      newlines, does not end in a carriage return, and fits the scanner's largest buffer. */
  lemma LinesRoundTrip(lines: seq<Bytes>)
    ensures var s := Frame(lines, NEWLINE);
            (Texts(Emitted(s, NEWLINE)) == lines && !Overflows(s, NEWLINE)) <==>
            (forall i | 0 <= i < |lines| :: PlainLine(lines[i], NEWLINE))
  {
    PlainRoundTrip(lines, NEWLINE);
  }

  /** The same for any end of line. */
  lemma PlainRoundTrip(lines: seq<Bytes>, sep: Bytes)
    requires Marker(sep)
    ensures var s := Frame(lines, sep);
            (Texts(Emitted(s, sep)) == lines && !Overflows(s, sep)) <==>
            (forall i | 0 <= i < |lines| :: PlainLine(lines[i], sep))
  {
    var s := Frame(lines, sep);
    FrameRoundTrip(lines, sep);
    if forall i | 0 <= i < |lines| :: PlainLine(lines[i], sep) {
      assert SeparatorFree(lines, sep) && Fits(lines, sep);
      assert Texts(lines) == lines;
    }
    if Texts(Emitted(s, sep)) == lines && !Overflows(s, sep) {
      ReadBackIsPlain(lines, sep);
    }
  }

  lemma ReadBackIsPlain(lines: seq<Bytes>, sep: Bytes)
    requires Marker(sep)
    requires Texts(Emitted(Frame(lines, sep), sep)) == lines && !Overflows(Frame(lines, sep), sep)
    ensures forall i | 0 <= i < |lines| :: PlainLine(lines[i], sep)
  {
    var tokens := Emitted(Frame(lines, sep), sep);
    EmittedIsTokens(Frame(lines, sep), sep);
    TokensAreSeparatorFree(Frame(lines, sep), sep);
    TextsAreSeparatorFree(tokens, sep);
    ReadBackIsSame(lines, tokens, sep);
    FrameRoundTrip(lines, sep);
    forall i | 0 <= i < |lines| ensures PlainLine(lines[i], sep) {
      assert DropCR(lines[i]) == Texts(tokens)[i];
    }
  }

  lemma TextsAreSeparatorFree(tokens: seq<Bytes>, sep: Bytes)
    requires SeparatorFree(tokens, sep)
    ensures SeparatorFree(Texts(tokens), sep)
  {
    forall i | 0 <= i < |tokens| ensures !Contains(Texts(tokens)[i], sep) {
      ShorterHasNone(tokens[i], |DropCR(tokens[i])|, sep);
    }
  }

  lemma ReadBackIsSame(lines: seq<Bytes>, tokens: seq<Bytes>, sep: Bytes)
    requires Marker(sep) && SeparatorFree(lines, sep)
    requires tokens == Emitted(Frame(lines, sep), sep) && !Overflows(Frame(lines, sep), sep)
    ensures tokens == lines
  {
    var s := Frame(lines, sep);
    EmittedIsTokens(s, sep);
    assert s + [] == s;
    TokensOfFrames(lines, [], sep);
  }

  function WithCR(lines: seq<Bytes>): (r: seq<Bytes>)
    ensures |r| == |lines| && forall i | 0 <= i < |lines| :: r[i] == lines[i] + [CR]
  {
    seq(|lines|, i requires 0 <= i < |lines| => lines[i] + [CR])
  }

  lemma LongerHasNone(t: Bytes, sep: Bytes)
    requires |sep| > 0 && CR !in sep && !Contains(t, sep)
    ensures !Contains(t + [CR], sep)
  {
    var s := t + [CR];
    forall i ensures !OccursAt(s, sep, i) {
      if 0 <= i && i + |sep| <= |t| {
        assert !OccursAt(t, sep, i);
        assert s[i..i + |sep|] == t[i..i + |sep|];
      } else if 0 <= i && i + |sep| == |s| {
        assert s[i..i + |sep|][|sep| - 1] == CR;
      }
    }
  }

  lemma TextsOfCR(lines: seq<Bytes>)
    ensures Texts(WithCR(lines)) == lines
  {
    forall i | 0 <= i < |lines| ensures DropCR(WithCR(lines)[i]) == lines[i] {
    }
  }

  lemma FitsWithCR(lines: seq<Bytes>, sep: Bytes)
    requires |sep| > 0 && CR !in sep
    requires forall i | 0 <= i < |lines| :: !Contains(lines[i], sep) && |lines[i]| + 1 + |sep| <= MAX_SCAN_TOKEN_SIZE
    ensures SeparatorFree(WithCR(lines), sep) && Fits(WithCR(lines), sep)
  {
    forall i | 0 <= i < |lines| ensures !Contains(WithCR(lines)[i], sep) {
      LongerHasNone(lines[i], sep);
    }
  }

  /** Lines that end in carriage return and newline come back without the two, also when a line itself ends in
      a carriage return: exactly one is dropped. */
  lemma DropsOneCR(lines: seq<Bytes>, sep: Bytes)
    requires Marker(sep) && CR !in sep
    requires forall i | 0 <= i < |lines| :: !Contains(lines[i], sep) && |lines[i]| + 1 + |sep| <= MAX_SCAN_TOKEN_SIZE
    ensures var s := Frame(WithCR(lines), sep); Texts(Emitted(s, sep)) == lines && !Overflows(s, sep)
  {
    FitsWithCR(lines, sep);
    FrameRoundTrip(WithCR(lines), sep);
    TextsOfCR(lines);
  }

  lemma ShorterHasNone(t: Bytes, n: nat, sep: Bytes)
    requires n <= |t| && !Contains(t, sep)
    ensures !Contains(t[..n], sep)
  {
    forall i ensures !OccursAt(t[..n], sep, i) {
      if 0 <= i && i + |sep| <= n {
        assert !OccursAt(t, sep, i);
        assert t[..n][i..i + |sep|] == t[i..i + |sep|];
      }
    }
  }
}
