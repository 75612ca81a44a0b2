/** The plain request path of `proxy/proxy.go`. */
module HttpProxy {
  import opened ByteStrings
  import opened HttpStream

  /** The Content-Length header of the request. */
  datatype ContentLength = Absent | Unparsable | Length(n: int)

  /** `setContentLength`: the declared length, 0 without one, nothing for a malformed one. */
  function SetContentLength(length: ContentLength): Option<int> {
    match length
    case Absent => Some(0)
    case Unparsable => None
    case Length(n) => Some(n)
  }

  /** An upstream response; `chunks` are the reads of its body, up to its end or its failure. */
  datatype Answer = Answer(code: int, headers: map<string, seq<string>>, chunks: seq<Bytes>)

  /** What the client must see for an upstream response: one message with code and headers and no
      body, messages that carry nothing but the bytes of the body, one empty end-of-stream message,
      and the closed signal. */
  ghost predicate HttpResponse(sent: seq<Outgoing>, code: int, headers: map<string, seq<string>>, bytes: Bytes) {
    && |sent| >= 3
    && sent[0] == Body(EMPTY.(code := code, headers := headers))
    && BodyOnly(sent[1..|sent| - 2], bytes)
    && sent[|sent| - 2] == Body(EMPTY.(eof := true))
    && sent[|sent| - 1] == Closed
  }

  method DoHttp(requestValid: bool, length: ContentLength, answer: Option<Answer>, response: ResponseChannel)
    modifies response
    ensures if !requestValid || length.Unparsable? || answer.None?
            then response.sent == old(response.sent)
            else exists sent :: response.sent == old(response.sent) + sent &&
                   HttpResponse(sent + [Closed], answer.value.code, answer.value.headers, Concat(answer.value.chunks))
  {
    if !requestValid || SetContentLength(length).None? || answer.None? {
      return;
    }
    var resp := answer.value;
    var writer := new HttpWriter(EMPTY.(code := resp.code, headers := resp.headers), response);
    writer.WriteMessage();
    ghost var head := response.sent;
    writer.Copy(resp.chunks);
    ghost var middle :| response.sent == head + middle && BodyOnly(middle, Concat(resp.chunks));
    writer.Close();
    ghost var first, last := Body(EMPTY.(code := resp.code, headers := resp.headers)), Body(EMPTY.(eof := true));
    ghost var sent := [first] + middle + [last];
    assert response.sent == old(response.sent) + sent;
    assert (sent + [Closed])[1..|sent| - 1] == middle;
  }

  /** `Handle`: a first message that asks for it is passed on to the hijacked path (module `Hijack`, which
      sends its own closed signal at the end). On every other path the response ends with the closed
      signal; a channel closed before the first message, or a first message that is not JSON, gives
      nothing but that. */
  method Handle(incoming: seq<Wire>, requestValid: bool, length: ContentLength, answer: Option<Answer>,
                response: ResponseChannel) returns (hijack: bool)
    modifies response
    ensures hijack <==> incoming != [] && incoming[0].Json? && incoming[0].message.hijack
    ensures hijack ==> response.sent == old(response.sent)
    ensures !hijack ==>
              if incoming == [] || incoming[0].Malformed? || !requestValid || length.Unparsable? || answer.None?
              then response.sent == old(response.sent) + [Closed]
              else exists sent :: response.sent == old(response.sent) + sent &&
                     HttpResponse(sent, answer.value.code, answer.value.headers, Concat(answer.value.chunks))
  {
    hijack := false;
    if incoming != [] && incoming[0].Json? {
      if incoming[0].message.hijack {
        return true;
      }
      DoHttp(requestValid, length, answer, response);
    }
    ghost var before := response.sent;
    response.sent := response.sent + [Closed];
    if incoming != [] && incoming[0].Json? && requestValid && !length.Unparsable? && answer.Some? {
      ghost var sent :| before == old(response.sent) + sent &&
        HttpResponse(sent + [Closed], answer.value.code, answer.value.headers, Concat(answer.value.chunks));
      Assoc(old(response.sent), sent, [Closed]);
    }
  }

  /** The messages of a response, read back by an `HttpReader`, are the upstream bytes, and the
      end-of-stream mark comes without a body, so that no reader loses anything at the end. */
  lemma HttpResponseReadBack(sent: seq<Outgoing>, code: int, headers: map<string, seq<string>>, bytes: Bytes)
    requires HttpResponse(sent, code, headers, bytes)
    ensures forall i | 0 <= i < |sent| - 1 :: sent[i].Body? && (sent[i].message.eof <==> i == |sent| - 2)
    ensures var chan := OnWire(sent[..|sent| - 1]);
            BodiesToEof(chan) == bytes && HasEof(chan) && ChanEofBody(chan) == []
  {
    var middle := sent[1..|sent| - 2];
    var last := [Body(EMPTY.(eof := true))];
    forall i | 0 <= i < |sent| - 1 ensures sent[i].Body? && (sent[i].message.eof <==> i == |sent| - 2) {
      if 1 <= i < |sent| - 2 {
        assert IsChunk(middle[i - 1]);
      }
    }
    assert sent[..|sent| - 1][1..] == middle + last;
    assert OnWire(last) == [Json(EMPTY.(eof := true))] + OnWire([]);
    ChunksOnWire(middle, last, bytes);
  }

  lemma OnWireCons(first: Outgoing, rest: seq<Outgoing>)
    requires first.Body? && forall i | 0 <= i < |rest| :: rest[i].Body?
    ensures OnWire([first] + rest) == [Json(first.message)] + OnWire(rest)
  {
    assert ([first] + rest)[1..] == rest;
  }

  lemma ChunkFirst(m: HTTPMessage, more: seq<Wire>)
    requires !m.eof
    ensures var chan := [Json(m)] + more;
            && BodiesToEof(chan) == m.body + BodiesToEof(more)
            && HasEof(chan) == HasEof(more) && ChanEofBody(chan) == ChanEofBody(more)
  {
    assert ([Json(m)] + more)[1..] == more;
  }

  lemma ChunkOnWire(first: Outgoing, rest: seq<Outgoing>)
    requires IsChunk(first) && forall i | 0 <= i < |rest| :: rest[i].Body?
    ensures var chan, more := OnWire([first] + rest), OnWire(rest);
            && BodiesToEof(chan) == first.message.body + BodiesToEof(more)
            && HasEof(chan) == HasEof(more) && ChanEofBody(chan) == ChanEofBody(more)
  {
    OnWireCons(first, rest);
    ChunkFirst(first.message, OnWire(rest));
  }

  lemma {:induction false} ChunksOnWire(chunks: seq<Outgoing>, last: seq<Outgoing>, bytes: Bytes)
    requires BodyOnly(chunks, bytes)
    requires |last| == 1 && last[0] == Body(EMPTY.(eof := true))
    ensures forall i | 0 <= i < |chunks + last| :: (chunks + last)[i].Body?
    ensures var chan := OnWire(chunks + last);
            BodiesToEof(chan) == bytes && HasEof(chan) && ChanEofBody(chan) == []
    decreases |chunks|
  {
    if chunks == [] {
      assert chunks + last == last;
      assert OnWire(last)[1..] == [];
    } else {
      var first, more := chunks[0], chunks[1..];
      assert IsChunk(first);
      ChunksOnWire(more, last, Concat(Bodies(more)));
      ChunkOnWire(first, more + last);
      assert chunks + last == [first] + (more + last);
      assert Bodies(chunks)[1..] == Bodies(more);
    }
  }
}
