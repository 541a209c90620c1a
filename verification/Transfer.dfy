/** Sending and receiving whole messages: chunking, reassembly and the round trip between the two. */
module Transfer {
  import opened ByteText
  import opened Wire

  // ------------------------------------------------------------------ the sender

  datatype Sender = Sender(isServer: bool, maximumSize: int, threshold: int)
  {
    /** Chunking is for servers with a positive threshold below the message size. */
    predicate Chunks(payload: Bytes) { isServer && 0 < threshold < |payload| }
  }

  datatype SendError = MessageTooLarge | ChunkingUnsupported

  function CeilDiv(a: nat, b: nat): (q: nat)
    requires b > 0
    ensures (q - 1) * b < a <= q * b || (a == 0 && q == 0)
  {
    (a + b - 1) / b
  }

  /** `payload[i * t:(i + 1) * t]`, with Python's clamping of the upper bound. */
  function Piece(payload: Bytes, t: nat, i: nat): Bytes
    requires i * t <= |payload|
  {
    payload[i * t..if (i + 1) * t < |payload| then (i + 1) * t else |payload|]
  }

  function ChunkHeaders(mime: Bytes, count: nat, id: nat): Bytes {
    Printed(CONTENT_TYPE, mime) + Printed(CHUNK_COUNT, Decimal(count)) + Printed(CHUNK_ID, Decimal(id))
  }

  function Chunk(v: Version, mime: Bytes, count: nat, id: nat, body: Bytes): Bytes {
    v.Prefix() + ChunkHeaders(mime, count, id) + body
  }

  lemma PieceStarts(payload: Bytes, t: nat, i: nat)
    requires t > 0 && i < CeilDiv(|payload|, t)
    ensures i * t < |payload|
  {
    assert i * t <= (CeilDiv(|payload|, t) - 1) * t;
  }

  /** `_serialize_check_and_chunk_message` from the serialized bytes on. */
  function Serialize(s: Sender, v: Version, mime: Bytes, payload: Bytes): Result<seq<Bytes>, SendError> {
    if |payload| > s.maximumSize then Err(MessageTooLarge)
    else if s.Chunks(payload) then
      if !ChunkedResponses.SupportedIn(v) then Err(ChunkingUnsupported)
      else
        var count := CeilDiv(|payload|, s.threshold);
        Ok(seq(count, i requires 0 <= i < count =>
          PieceStarts(payload, s.threshold, i);
          Chunk(v, mime, count, i + 1, Piece(payload, s.threshold, i))))
    else
      var m := if ContentTypeHeader.SupportedIn(v) then Printed(CONTENT_TYPE, mime) + payload else payload;
      Ok([if VersionMarker.SupportedIn(v) then v.Prefix() + m else m])
  }

  // ------------------------------------------------------------------ the receiver

  datatype Parsed = Parsed(version: Version, headers: Headers, payload: Bytes)

  function Parse(data: Bytes): Result<Parsed, ReceiveError> {
    var v := ExtractVersion(data);
    if v.Err? then Err(v.error)
    else
      var x := ExtractHeaders(map[], v.value.rest);
      Ok(Parsed(v.value.version, x.headers, x.rest))
  }

  datatype Receiver = Receiver(isServer: bool, defaultMime: Bytes, supportedMimes: set<Bytes>)
  {
    /** The content type of the serializer that will read the payload. */
    function MimeFor(headers: Headers): Bytes {
      if CONTENT_TYPE in headers && headers[CONTENT_TYPE] in supportedMimes then headers[CONTENT_TYPE]
      else defaultMime
    }
  }

  datatype Received = Received(version: Version, mime: Bytes, payload: Bytes)

  /** The result of a receive and the queue it leaves behind. */
  datatype Outcome<+T> = Outcome(result: Result<T, ReceiveError>, queue: seq<Bytes>)

  datatype Joined = Joined(version: Version, payload: Bytes)

  /** The reply-chunk loop, from the state just after chunk `id` of `count`. */
  function Reassemble(id: int, count: int, sofar: Joined, queue: seq<Bytes>): Outcome<Joined>
    decreases count - id
  {
    if id >= count then Outcome(Ok(sofar), queue)
    else if queue == [] then Outcome(Err(Timeout), queue)
    else
      var rest, p := queue[1..], Parse(queue[0]);
      if p.Err? then Outcome(Err(p.error), rest)
      else
        var headers := p.value.headers;
        if CHUNK_COUNT !in headers || CHUNK_ID !in headers then Outcome(Err(MissingChunkHeaders), rest)
        else if IntValue(headers[CHUNK_COUNT]).None? then Outcome(Err(BadNumber), rest)
        else if IntValue(headers[CHUNK_COUNT]).value != count then Outcome(Err(WrongChunkCount), rest)
        else if IntValue(headers[CHUNK_ID]).None? then Outcome(Err(BadNumber), rest)
        else if IntValue(headers[CHUNK_ID]).value != id + 1 then Outcome(Err(WrongChunkId), rest)
        else Reassemble(id + 1, count, Joined(p.value.version, sofar.payload + p.value.payload), rest)
  }

  /** `receive_message` up to the serializer. */
  function Receive(r: Receiver, queue: seq<Bytes>): Outcome<Received> {
    if queue == [] then Outcome(Err(Timeout), queue)
    else
      var rest, p := queue[1..], Parse(queue[0]);
      if p.Err? then Outcome(Err(p.error), rest)
      else
        var headers, mime := p.value.headers, r.MimeFor(p.value.headers);
        if CHUNK_COUNT !in headers then Outcome(Ok(Received(p.value.version, mime, p.value.payload)), rest)
        else if r.isServer then Outcome(Err(ChunkedRequest), rest)
        else if CHUNK_ID !in headers then Outcome(Err(MissingChunkId), rest)
        else
          var id, count := IntValue(headers[CHUNK_ID]), IntValue(headers[CHUNK_COUNT]);
          if id.None? || count.None? then Outcome(Err(BadNumber), rest)
          else
            var o := Reassemble(id.value, count.value, Joined(p.value.version, p.value.payload), rest);
            Outcome(if o.result.Err? then Err(o.result.error)
                    else Ok(Received(o.result.value.version, mime, o.result.value.payload)), o.queue)
  }

  // ------------------------------------------------------------------ soundness for any queue

  /** `data` is chunk `id` of `count`. */
  predicate IsChunk(data: Bytes, id: int, count: int) {
    var p := Parse(data);
    && p.Ok? && CHUNK_COUNT in p.value.headers && CHUNK_ID in p.value.headers
    && IntValue(p.value.headers[CHUNK_COUNT]) == Some(count)
    && IntValue(p.value.headers[CHUNK_ID]) == Some(id)
  }

  /** The messages are chunks `id`, `id + 1`, ... of `count`. */
  predicate AreChunks(queue: seq<Bytes>, id: int, count: int) {
    queue == [] || (IsChunk(queue[0], id, count) && AreChunks(queue[1..], id + 1, count))
  }

  function PayloadOf(data: Bytes): Bytes { if Parse(data).Ok? then Parse(data).value.payload else [] }

  function Payloads(queue: seq<Bytes>): Bytes {
    if queue == [] then [] else PayloadOf(queue[0]) + Payloads(queue[1..])
  }

  /** The version marked on the last piece; each piece overrides the one before. */
  function LastVersion(v: Version, queue: seq<Bytes>): Version
    decreases |queue|
  {
    if queue == [] then v
    else LastVersion(if Parse(queue[0]).Ok? then Parse(queue[0]).value.version else v, queue[1..])
  }

  function Missing(id: int, count: int): nat { if id < count then count - id else 0 }

  /** The chunk loop completes exactly when the next pieces carry the one count and the consecutive IDs up to it;
      it then takes just those pieces and appends their payloads in order. */
  lemma {:induction false} ReassembleSound(id: int, count: int, sofar: Joined, queue: seq<Bytes>)
    ensures
      var o, m := Reassemble(id, count, sofar, queue), Missing(id, count);
      && (o.result.Ok? <==> m <= |queue| && AreChunks(queue[..m], id + 1, count))
      && (o.result.Ok? ==>
            && o.queue == queue[m..] && o.result.value.payload == sofar.payload + Payloads(queue[..m])
            && o.result.value.version == LastVersion(sofar.version, queue[..m]))
    decreases count - id
  {
    hide Parse, IntValue;
    var m := Missing(id, count);
    if id >= count {
      assert queue[..0] == [] && queue[0..] == queue && sofar.payload + [] == sofar.payload;
    } else if queue != [] {
      var rest := queue[1..];
      if IsChunk(queue[0], id + 1, count) {
        var p := Parse(queue[0]).value;
        var next := Joined(p.version, sofar.payload + p.payload);
        ReassembleSound(id + 1, count, next, rest);
        if m <= |queue| {
          assert queue[..m][1..] == rest[..m - 1] && queue[..m][0] == queue[0];
          assert queue[m..] == rest[m - 1..];
          assert sofar.payload + (p.payload + Payloads(rest[..m - 1])) == next.payload + Payloads(rest[..m - 1]);
        }
      } else {
        assert m <= |queue| ==> queue[..m][0] == queue[0];
      }
    }
  }

  /** Whatever is on the queue, a completed receive took a run of messages off its front and returned their
      payloads joined; if the first was chunk `a` of `n`, the run is exactly chunks `a` to `n` of `n`. */
  lemma ReceiveSound(r: Receiver, queue: seq<Bytes>) returns (taken: nat)
    requires Receive(r, queue).result.Ok?
    ensures
      var o := Receive(r, queue);
      && 1 <= taken <= |queue| && o.queue == queue[taken..] && o.result.value.payload == Payloads(queue[..taken])
      && (forall a: int, n: int :: IsChunk(queue[0], a, n) ==>
            taken == 1 + Missing(a, n) && AreChunks(queue[..taken], a, n))
  {
    hide Parse, IntValue;
    var p := Parse(queue[0]).value;
    taken := 1;
    if CHUNK_COUNT in p.headers {
      var id, count := IntValue(p.headers[CHUNK_ID]).value, IntValue(p.headers[CHUNK_COUNT]).value;
      taken := 1 + Missing(id, count);
      ReassembleSound(id, count, Joined(p.version, p.payload), queue[1..]);
    }
    assert queue[..taken][1..] == queue[1..][..taken - 1] && queue[taken..] == queue[1..][taken - 1..];
    assert taken == 1 ==> p.payload + [] == p.payload;
  }
}
