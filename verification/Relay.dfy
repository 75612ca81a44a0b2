/** The two base64 relays: `dockersocketproxy/proxy.go` (and `console/console.go`, which is the same)
    and `exec/exec.go`. The codec is a parameter; all that is used of it is that decoding undoes
    encoding. */
module Relay {
  import opened ByteStrings
  import opened Positions

  datatype Codec = Codec(encode: Bytes -> string, decode: string -> Option<Bytes>) {
    ghost predicate Inverse() {
      forall b :: decode(encode(b)) == Some(b)
    }
  }

  /** The end-of-transmission byte. */
  const EOT: byte := 4

  // ----- incoming messages -----------------------------------------------------------------------------

  /** The bytes of the messages that decode; the others contribute nothing. */
  function DecodeAll(codec: Codec, messages: seq<string>): Bytes {
    if messages == [] then []
    else
      var first := codec.decode(messages[0]);
      (if first.Some? then first.value else []) + DecodeAll(codec, messages[1..])
  }

  lemma {:induction false} DecodeAllAppend(codec: Codec, a: seq<string>, b: seq<string>)
    ensures DecodeAll(codec, a + b) == DecodeAll(codec, a) + DecodeAll(codec, b)
  {
    if a == [] {
      assert a + b == b;
    } else {
      DecodeAllAppend(codec, a[1..], b);
      assert (a + b)[1..] == a[1..] + b;
      var first := codec.decode(a[0]);
      Assoc(if first.Some? then first.value else [], DecodeAll(codec, a[1..]), DecodeAll(codec, b));
    }
  }

  lemma DecodeAllSnoc(codec: Codec, messages: seq<string>, i: nat)
    requires i < |messages|
    ensures DecodeAll(codec, messages[..i + 1]) ==
            DecodeAll(codec, messages[..i]) +
            (if codec.decode(messages[i]).Some? then codec.decode(messages[i]).value else [])
  {
    assert messages[..i + 1] == messages[..i] + [messages[i]];
    DecodeAllAppend(codec, messages[..i], [messages[i]]);
    assert DecodeAll(codec, [messages[i]][1..]) == [];
  }

  /** The length of the longest prefix of messages that all decode. */
  function ValidPrefix(codec: Codec, messages: seq<string>): (k: nat)
    ensures k <= |messages|
    ensures forall i | 0 <= i < k :: codec.decode(messages[i]).Some?
    ensures k < |messages| ==> codec.decode(messages[k]).None?
  {
    if messages == [] || codec.decode(messages[0]).None? then 0
    else 1 + ValidPrefix(codec, messages[1..])
  }

  /** The bytes of messages that all decode, one chunk for each. */
  function Values(codec: Codec, messages: seq<string>): (chunks: seq<Bytes>)
    requires forall i | 0 <= i < |messages| :: codec.decode(messages[i]).Some?
    ensures |chunks| == |messages| && forall i | 0 <= i < |messages| :: codec.decode(messages[i]) == Some(chunks[i])
  {
    seq(|messages|, i requires 0 <= i < |messages| => codec.decode(messages[i]).value)
  }

  lemma {:induction false} DecodeAllIsConcat(codec: Codec, messages: seq<string>)
    requires forall i | 0 <= i < |messages| :: codec.decode(messages[i]).Some?
    ensures DecodeAll(codec, messages) == Concat(Values(codec, messages))
  {
    if messages == [] {
    } else {
      DecodeAllIsConcat(codec, messages[1..]);
      assert Values(codec, messages)[1..] == Values(codec, messages[1..]);
    }
  }

  /** The bytes the connection gets from a relay that stops at the first message that does not decode and at
      the first failing write: the whole messages before it, and a part of the message of that write. */
  function Forwarded(codec: Codec, incoming: seq<string>, accepted: nat, part: nat): Bytes {
    var chunks := Values(codec, incoming[..ValidPrefix(codec, incoming)]);
    if accepted < |chunks| then
      Concat(chunks[..accepted]) + chunks[accepted][..if part < |chunks[accepted]| then part else |chunks[accepted]|]
    else Concat(chunks)
  }

  /** The chunks are what the messages before the first undecodable one decode to. */
  ghost predicate DecodesUntilBad(codec: Codec, messages: seq<string>, chunks: seq<Bytes>) {
    var k := |chunks|;
    && k <= |messages| && (k < |messages| ==> codec.decode(messages[k]).None?)
    && forall i | 0 <= i < k :: codec.decode(messages[i]) == Some(chunks[i])
  }

  /** The socket relay's goroutine. The connection takes `accepted` writes, and of the next one at most
      `part` bytes. Every message before the first undecodable one is forwarded as far as the connection
      takes it. */
  method SocketForward(codec: Codec, incoming: seq<string>, accepted: nat, part: nat)
    returns (sent: Bytes, ghost chunks: seq<Bytes>)
    ensures sent == Forwarded(codec, incoming, accepted, part)
    ensures DecodesUntilBad(codec, incoming, chunks)
    ensures accepted >= |chunks| ==> sent == Concat(chunks)
    ensures accepted < |chunks| ==>
              && |sent| <= |Concat(chunks[..accepted])| + part
              && Concat(chunks[..accepted]) <= sent <= Concat(chunks[..accepted]) + chunks[accepted]
  {
    chunks := Values(codec, incoming[..ValidPrefix(codec, incoming)]);
    sent := [];
    for i := 0 to |incoming|
      invariant i <= accepted && i <= |chunks| && sent == Concat(chunks[..i])
    {
      var data := codec.decode(incoming[i]);
      if data.None? {
        break;
      }
      assert data.value == chunks[i];
      if i == accepted {
        var n := if part < |data.value| then part else |data.value|;
        sent := sent + data.value[..n];
        break;
      }
      assert chunks[..i + 1] == chunks[..i] + [chunks[i]];
      ConcatSnoc(chunks[..i], chunks[i]);
      sent := sent + data.value;
    }
    assert chunks[..|chunks|] == chunks;
  }

  /** The messages at positions `p`, all that decode, decode to the chunks. */
  ghost predicate Decodes(codec: Codec, messages: seq<string>, p: seq<nat>, chunks: seq<Bytes>) {
    && Increasing(p, |messages|) && |chunks| == |p|
    && (forall i: nat | i < |messages| :: codec.decode(messages[i]).Some? <==> i in p)
    && forall k | 0 <= k < |p| :: codec.decode(messages[p[k]]) == Some(chunks[k])
  }

  lemma DecodesSnoc(codec: Codec, messages: seq<string>, p: seq<nat>, chunks: seq<Bytes>, m: string)
    requires Decodes(codec, messages, p, chunks)
    ensures match codec.decode(m)
            case Some(data) => Decodes(codec, messages + [m], p + [|messages|], chunks + [data])
            case None => Decodes(codec, messages + [m], p, chunks)
  {
    var n := |messages|;
    IncreasingSnoc(p, n);
    forall i: nat | i < n ensures codec.decode((messages + [m])[i]).Some? <==> i in p {
      assert (messages + [m])[i] == messages[i];
    }
  }

  /** The exec relay's goroutine: it skips messages that do not decode, and writes the end-of-transmission
      byte when the incoming channel is closed. */
  method ExecForward(codec: Codec, incoming: seq<string>, closed: bool)
    returns (sent: Bytes, ghost p: seq<nat>, ghost chunks: seq<Bytes>)
    ensures sent == DecodeAll(codec, incoming) + if closed then [EOT] else []
    ensures sent == Concat(chunks) + (if closed then [EOT] else []) && Decodes(codec, incoming, p, chunks)
  {
    sent, p, chunks := [], [], [];
    for i := 0 to |incoming|
      invariant sent == DecodeAll(codec, incoming[..i]) == Concat(chunks)
      invariant Decodes(codec, incoming[..i], p, chunks)
    {
      DecodeAllSnoc(codec, incoming, i);
      DecodesSnoc(codec, incoming[..i], p, chunks, incoming[i]);
      assert incoming[..i + 1] == incoming[..i] + [incoming[i]];
      var data := codec.decode(incoming[i]);
      if data.None? {
        continue;
      }
      ConcatSnoc(chunks, data.value);
      sent, p, chunks := sent + data.value, p + [i], chunks + [data.value];
    }
    assert incoming[..|incoming|] == incoming;
    if closed {
      sent := sent + [EOT];
    }
  }

  /** Whatever the connection does, what the socket relay forwards is the beginning of what the exec relay
      forwards. On a connection that takes all writes, the two agree if and only if the messages from the
      first undecodable one on carry nothing. */
  lemma SocketIsPrefixOfExec(codec: Codec, incoming: seq<string>, accepted: nat, part: nat)
    ensures Forwarded(codec, incoming, accepted, part) <= DecodeAll(codec, incoming)
    ensures var k := ValidPrefix(codec, incoming);
            accepted >= k ==>
              (Forwarded(codec, incoming, accepted, part) == DecodeAll(codec, incoming) <==>
               DecodeAll(codec, incoming[k..]) == [])
  {
    var k := ValidPrefix(codec, incoming);
    var all := Values(codec, incoming[..k]);
    assert incoming == incoming[..k] + incoming[k..];
    DecodeAllAppend(codec, incoming[..k], incoming[k..]);
    DecodeAllIsConcat(codec, incoming[..k]);
    if accepted < k {
      PartIsPrefix(all, accepted, part);
    }
  }

  lemma PartIsPrefix(chunks: seq<Bytes>, i: nat, part: nat)
    requires i < |chunks|
    ensures Concat(chunks[..i]) + chunks[i][..if part < |chunks[i]| then part else |chunks[i]|] <= Concat(chunks)
  {
    assert chunks == chunks[..i] + chunks[i..];
    ConcatAppend(chunks[..i], chunks[i..]);
    assert Concat(chunks[i..]) == chunks[i] + Concat(chunks[i..][1..]);
  }

  function EncodeAll(codec: Codec, chunks: seq<Bytes>): (messages: seq<string>)
    ensures |messages| == |chunks| && forall i | 0 <= i < |chunks| :: messages[i] == codec.encode(chunks[i])
  {
    seq(|chunks|, i requires 0 <= i < |chunks| => codec.encode(chunks[i]))
  }

  lemma {:induction false} DecodeEncoded(codec: Codec, chunks: seq<Bytes>)
    requires codec.Inverse()
    ensures DecodeAll(codec, EncodeAll(codec, chunks)) == Concat(chunks)
  {
    if chunks == [] {
    } else {
      DecodeEncoded(codec, chunks[1..]);
      assert EncodeAll(codec, chunks)[1..] == EncodeAll(codec, chunks[1..]);
    }
  }

  // ----- outgoing bytes --------------------------------------------------------------------------------

  /** One read from the connection or the pipe: the bytes it returned, and whether it returned an error. */
  datatype ReadResult = ReadResult(data: Bytes, failed: bool)

  /** The number of reads before the first failing one. */
  function Good(results: seq<ReadResult>): (k: nat)
    ensures k <= |results|
    ensures forall i | 0 <= i < k :: !results[i].failed
    ensures k < |results| ==> results[k].failed
  {
    if results == [] || results[0].failed then 0 else 1 + Good(results[1..])
  }

  function Chunks(results: seq<ReadResult>): (chunks: seq<Bytes>)
    ensures |chunks| == |results| && forall i | 0 <= i < |results| :: chunks[i] == results[i].data
  {
    seq(|results|, i requires 0 <= i < |results| => results[i].data)
  }

  lemma ChunksSnoc(results: seq<ReadResult>, i: nat)
    requires i < |results|
    ensures Concat(Chunks(results[..i + 1])) == Concat(Chunks(results[..i])) + results[i].data
  {
    assert Chunks(results[..i + 1]) == Chunks(results[..i]) + [results[i].data];
    ConcatSnoc(Chunks(results[..i]), results[i].data);
  }

  /** Messages that all decode, to the parts of `bytes`, in order and without empty parts. */
  ghost predicate ReadBack(codec: Codec, bodies: seq<string>, bytes: Bytes) {
    && DecodeAll(codec, bodies) == bytes
    && forall i | 0 <= i < |bodies| :: codec.decode(bodies[i]).Some? && codec.decode(bodies[i]) != Some([])
  }

  lemma ReadBackSnoc(codec: Codec, bodies: seq<string>, bytes: Bytes, data: Bytes)
    requires codec.Inverse() && ReadBack(codec, bodies, bytes) && data != []
    ensures ReadBack(codec, bodies + [codec.encode(data)], bytes + data)
  {
    DecodeAllAppend(codec, bodies, [codec.encode(data)]);
    assert DecodeAll(codec, [codec.encode(data)][1..]) == [];
  }

  /** The socket relay's read loop: the response decodes to the bytes of all reads before the failing one;
      bytes returned together with the error are dropped. */
  method SocketReadLoop(codec: Codec, results: seq<ReadResult>) returns (bodies: seq<string>)
    requires codec.Inverse()
    ensures ReadBack(codec, bodies, Concat(Chunks(results[..Good(results)])))
  {
    bodies := [];
    for i := 0 to |results|
      invariant i <= Good(results)
      invariant ReadBack(codec, bodies, Concat(Chunks(results[..i])))
    {
      var n, failed := |results[i].data|, results[i].failed;
      ChunksSnoc(results, i);
      if n > 0 && !failed {
        ReadBackSnoc(codec, bodies, Concat(Chunks(results[..i])), results[i].data);
        bodies := bodies + [codec.encode(results[i].data)];
      }
      if failed {
        return;
      }
    }
  }

  /** The exec relay's read loop: bytes returned together with the error are sent as well. */
  method ExecReadLoop(codec: Codec, results: seq<ReadResult>) returns (bodies: seq<string>)
    requires codec.Inverse()
    ensures var k := Good(results);
            ReadBack(codec, bodies, Concat(Chunks(results[..if k < |results| then k + 1 else k])))
  {
    bodies := [];
    for i := 0 to |results|
      invariant i <= Good(results)
      invariant ReadBack(codec, bodies, Concat(Chunks(results[..i])))
    {
      var n, failed := |results[i].data|, results[i].failed;
      ChunksSnoc(results, i);
      if n > 0 {
        ReadBackSnoc(codec, bodies, Concat(Chunks(results[..i])), results[i].data);
        bodies := bodies + [codec.encode(results[i].data)];
      }
      assert ReadBack(codec, bodies, Concat(Chunks(results[..i + 1])));
      if failed {
        break;
      }
    }
  }

  /** The two directions joined: what one relay's read loop sends, the other side's forwarder restores. */
  method RelayRoundTrip(codec: Codec, results: seq<ReadResult>) returns (sent: Bytes)
    requires codec.Inverse()
    ensures sent == Concat(Chunks(results[..Good(results)]))
  {
    var bodies := SocketReadLoop(codec, results);
    ghost var chunks;
    sent, chunks := SocketForward(codec, bodies, |bodies|, 0);
    assert bodies[..|bodies|] == bodies;
    DecodeAllIsConcat(codec, bodies);
  }
}
