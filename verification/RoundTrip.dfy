/** Parsing what the sender printed, for every version, size and chunk threshold. */
module RoundTrip {
  import opened ByteText
  import opened Wire
  import opened Transfer

  /** No text at the front of `body` that the header pattern matches. */
  predicate Clean(body: Bytes) { MatchHeader(body).None? }

  predicate AllClean(payload: Bytes, t: nat, from: nat)
    requires t > 0
  {
    forall i :: from <= i < CeilDiv(|payload|, t) ==> (PieceStarts(payload, t, i); Clean(Piece(payload, t, i)))
  }

  /** What the code leaves unescaped: header-like text at the start of any piece, and, for an unversioned payload,
      text that looks like one of the two version markings. */
  predicate Unambiguous(s: Sender, v: Version, payload: Bytes) {
    if s.Chunks(payload) then AllClean(payload, s.threshold, 0)
    else Clean(payload) && (v == Version1 ==> MatchVersion(payload).None? && !StartsWith(payload, CONTENT_TYPE))
  }

  /** What a client should read: version 1 does not carry a content type. */
  function Expected(r: Receiver, v: Version, mime: Bytes, payload: Bytes): Received {
    Received(v, if v == Version1 || mime !in r.supportedMimes then r.defaultMime else mime, payload)
  }

  // ------------------------------------------------------------------ one message

  lemma PrefixReads(v: Version, rest: Bytes)
    ensures MatchVersion(v.Prefix() + rest) == Some(Wire.Marker(v.Number(), rest))
    ensures ExtractVersion(v.Prefix() + rest) == Ok(Versioned(v, rest))
  {
    hide DigitRun, Decimal, DecimalValue;
    var n := Decimal(v.Number());
    var tail := n + ("//" + rest);
    var s := v.Prefix() + rest;
    assert s == "pysoa-redis/" + tail;
    assert s[12..] == tail;
    DigitRunIs(tail, |n|);
    DecimalRoundTrip(v.Number());
    assert tail[..|n|] == n && tail[|n|..] == "//" + rest;
    assert tail[|n| + 2..] == rest;
  }

  lemma HeadersRead(headers: Headers, name: Bytes, value: Bytes, rest: Bytes)
    requires IsName(name) && IsValue(value)
    ensures ExtractHeaders(headers, Printed(name, value) + rest) == ExtractHeaders(headers[name := value], rest)
  {
    hide MatchHeader, IsValue, IsName;
    PrintedHeaderMatches(name, value, rest);
  }

  /** A chunk parses to its body stripped of any header-like front, under headers that carry a count and an ID. */
  lemma ChunkParses(v: Version, mime: Bytes, count: nat, id: nat, body: Bytes)
    requires v == Version3 && IsValue(mime)
    ensures
      var p := Parse(Chunk(v, mime, count, id, body));
      && p.Ok? && p.value.version == v
      && CHUNK_COUNT in p.value.headers && |p.value.payload| <= |body|
      && (Clean(body) <==> |p.value.payload| == |body|)
      && (Clean(body) ==>
            && p.value.payload == body && IsChunk(Chunk(v, mime, count, id, body), id, count)
            && CONTENT_TYPE in p.value.headers && p.value.headers[CONTENT_TYPE] == mime)
  {
    hide MatchHeader, ExtractVersion, IsValue, IntValue, ExtractHeaders, Printed, Decimal, Version.Prefix;
    var h1, h2, h3 := Printed(CONTENT_TYPE, mime), Printed(CHUNK_COUNT, Decimal(count)), Printed(CHUNK_ID, Decimal(id));
    PrefixReads(v, h1 + (h2 + (h3 + body)));
    assert Chunk(v, mime, count, id, body) == v.Prefix() + (h1 + (h2 + (h3 + body)));
    PrintedNumberReads(count);
    PrintedNumberReads(id);
    var m1: Headers := map[][CONTENT_TYPE := mime];
    var m2 := m1[CHUNK_COUNT := Decimal(count)];
    HeadersRead(map[], CONTENT_TYPE, mime, h2 + (h3 + body));
    HeadersRead(m1, CHUNK_COUNT, Decimal(count), h3 + body);
    HeadersRead(m2, CHUNK_ID, Decimal(id), body);
  }

  /** A receive that leaves just `rest` behind has joined the payloads of everything before it. */
  lemma TookAllPieces(r: Receiver, pieces: seq<Bytes>, rest: seq<Bytes>)
    requires pieces != []
    ensures
      var o := Receive(r, pieces + rest);
      o.result.Ok? && o.queue == rest ==> o.result.value.payload == Payloads(pieces)
  {
    hide Parse, IntValue, Receive;
    var q := pieces + rest;
    if Receive(r, q).result.Ok? && Receive(r, q).queue == rest {
      var taken := ReceiveSound(r, q);
      assert |q[taken..]| == |rest|;
      assert q[..taken] == pieces;
    }
  }

  lemma PayloadsOfOne(message: Bytes)
    ensures Payloads([message]) == PayloadOf(message)
  {
    assert PayloadOf(message) + [] == PayloadOf(message);
  }

  /** The unchunked form reads back exactly when it is unambiguous. */
  lemma PlainRoundTrip(s: Sender, r: Receiver, v: Version, mime: Bytes, payload: Bytes, rest: seq<Bytes>)
    requires !s.Chunks(payload) && |payload| <= s.maximumSize && IsValue(mime)
    ensures
      var sent := Serialize(s, v, mime, payload);
      && sent.Ok?
      && (Receive(r, sent.value + rest) == Outcome(Ok(Expected(r, v, mime, payload)), rest)
          <==> Unambiguous(s, v, payload))
  {
    hide MatchHeader, ExtractHeaders, MatchVersion, IntValue, Receive;
    var message := Serialize(s, v, mime, payload).value[0];
    var h := Printed(CONTENT_TYPE, mime);
    match v
    case Version1 => UnversionedReads(r, mime, payload, rest);
    case Version2 =>
      assert message[..12] == CONTENT_TYPE;
      NoVersionMark(message);
      HeadersRead(map[], CONTENT_TYPE, mime, payload);
      VersionedReads(r, v, mime, payload, message, rest);
    case Version3 =>
      PrefixReads(v, h + payload);
      HeadersRead(map[], CONTENT_TYPE, mime, payload);
      VersionedReads(r, v, mime, payload, message, rest);
  }

  lemma NoVersionMark(s: Bytes)
    requires StartsWith(s, CONTENT_TYPE)
    ensures MatchVersion(s).None?
  {
    assert s[0] == s[..12][0] == 'c' && "pysoa-redis/"[0] == 'p';
  }

  lemma UnversionedReads(r: Receiver, mime: Bytes, payload: Bytes, rest: seq<Bytes>)
    ensures Receive(r, [payload] + rest) == Outcome(Ok(Expected(r, Version1, mime, payload)), rest)
       <==> Clean(payload) && MatchVersion(payload).None? && !StartsWith(payload, CONTENT_TYPE)
  {
    hide MatchHeader, ExtractHeaders, MatchVersion, IntValue, Reassemble;
    var q := [payload] + rest;
    assert q[0] == payload && q[1..] == rest;
    TookAllPieces(r, [payload], rest);
    PayloadsOfOne(payload);
    ExtractedChunkCountIsUnclean(map[], payload);
  }

  lemma ExtractedChunkCountIsUnclean(headers: Headers, s: Bytes)
    requires CHUNK_COUNT !in headers
    ensures CHUNK_COUNT in ExtractHeaders(headers, s).headers ==> |ExtractHeaders(headers, s).rest| < |s|
  {
  }

  lemma VersionedReads(r: Receiver, v: Version, mime: Bytes, payload: Bytes, message: Bytes, rest: seq<Bytes>)
    requires ExtractVersion(message) == Ok(Versioned(v, Printed(CONTENT_TYPE, mime) + payload)) && v != Version1
    requires ExtractHeaders(map[], Printed(CONTENT_TYPE, mime) + payload)
          == ExtractHeaders(map[CONTENT_TYPE := mime], payload)
    ensures Receive(r, [message] + rest) == Outcome(Ok(Expected(r, v, mime, payload)), rest) <==> Clean(payload)
  {
    hide MatchHeader, ExtractHeaders, ExtractVersion, IntValue, Reassemble;
    var q := [message] + rest;
    assert q[0] == message && q[1..] == rest;
    TookAllPieces(r, [message], rest);
    PayloadsOfOne(message);
  }

  // ------------------------------------------------------------------ chunked messages

  /** Where piece `i` starts, or the end of the payload. */
  function Cut(payload: Bytes, t: nat, i: nat): (c: nat)
    ensures c <= |payload|
  {
    if i * t < |payload| then i * t else |payload|
  }

  lemma PieceBetweenCuts(payload: Bytes, t: nat, i: nat)
    requires t > 0 && i < CeilDiv(|payload|, t)
    ensures i * t < |payload|
    ensures payload[Cut(payload, t, i)..] == Piece(payload, t, i) + payload[Cut(payload, t, i + 1)..]
  {
    PieceStarts(payload, t, i);
    assert (i + 1) * t == i * t + t;
  }

  lemma LastCut(payload: Bytes, t: nat)
    requires t > 0
    ensures Cut(payload, t, CeilDiv(|payload|, t)) == |payload|
  {
  }

  /** From piece `i` on: the parsed payloads are at most as long as what was sent, as long exactly when every piece
      is clean, and then they are the rest of the payload under consecutive IDs. */
  lemma {:induction false} PiecesParse(v: Version, mime: Bytes, payload: Bytes, t: nat, pieces: seq<Bytes>, i: nat)
    requires v == Version3 && IsValue(mime) && t > 0
    requires i <= |pieces| == CeilDiv(|payload|, t)
    requires forall k :: 0 <= k < |pieces| ==>
               (PieceStarts(payload, t, k); pieces[k] == Chunk(v, mime, |pieces|, k + 1, Piece(payload, t, k)))
    ensures
      var left := payload[Cut(payload, t, i)..];
      && |Payloads(pieces[i..])| <= |left|
      && (AllClean(payload, t, i) <==> |Payloads(pieces[i..])| == |left|)
      && (AllClean(payload, t, i) ==>
            && Payloads(pieces[i..]) == left && AreChunks(pieces[i..], i + 1, |pieces|)
            && LastVersion(v, pieces[i..]) == v)
    decreases |pieces| - i
  {
    hide MatchHeader, Parse, IntValue, IsValue, IsChunk, Chunk, Cut, CeilDiv, Piece, Clean;
    if i == |pieces| {
      LastCut(payload, t);
    } else {
      PieceBetweenCuts(payload, t, i);
      var body := Piece(payload, t, i);
      ChunkParses(v, mime, |pieces|, i + 1, body);
      PiecesParse(v, mime, payload, t, pieces, i + 1);
      assert pieces[i..][0] == pieces[i] && pieces[i..][1..] == pieces[i + 1..];
      assert AllClean(payload, t, i) <==> Clean(body) && AllClean(payload, t, i + 1);
    }
  }

  /** The chunked form reads back exactly when no piece starts with header-like text. */
  lemma ChunkedRoundTrip(s: Sender, r: Receiver, v: Version, mime: Bytes, payload: Bytes, rest: seq<Bytes>)
    requires s.Chunks(payload) && |payload| <= s.maximumSize && v == Version3 && IsValue(mime) && !r.isServer
    ensures
      var sent := Serialize(s, v, mime, payload);
      && sent.Ok?
      && (Receive(r, sent.value + rest) == Outcome(Ok(Expected(r, v, mime, payload)), rest)
          <==> Unambiguous(s, v, payload))
  {
    hide MatchHeader, Parse, IntValue, IsValue, Chunk, Reassemble;
    var t := s.threshold;
    var pieces := Serialize(s, v, mime, payload).value;
    var n := |pieces|;
    PiecesParse(v, mime, payload, t, pieces, 0);
    assert pieces[0..] == pieces && payload[Cut(payload, t, 0)..] == payload;
    TookAllPieces(r, pieces, rest);
    if AllClean(payload, t, 0) {
      PieceStarts(payload, t, 0);
      ChunkParses(v, mime, n, 1, Piece(payload, t, 0));
      var q := pieces + rest;
      var p := Parse(pieces[0]).value;
      assert q[0] == pieces[0] && q[1..] == pieces[1..] + rest;
      ReassembleSound(1, n, Joined(p.version, p.payload), q[1..]);
      assert q[1..][..n - 1] == pieces[1..] && q[1..][n - 1..] == rest;
    }
  }

  // ------------------------------------------------------------------ any message, and several

  /** The round trip, with its exact condition: a client reads what was sent, and leaves just what followed it on the
      queue, if and only if the payload is unambiguous for the sender's settings. */
  lemma WireRoundTrip(s: Sender, r: Receiver, v: Version, mime: Bytes, payload: Bytes, rest: seq<Bytes>)
    requires IsValue(mime) && Serialize(s, v, mime, payload).Ok? && (s.isServer ==> !r.isServer)
    ensures
      Receive(r, Serialize(s, v, mime, payload).value + rest) == Outcome(Ok(Expected(r, v, mime, payload)), rest)
      <==> Unambiguous(s, v, payload)
  {
    hide Receive, MatchHeader, Unambiguous, IsValue;
    if s.Chunks(payload) {
      ChunkedRoundTrip(s, r, v, mime, payload, rest);
    } else {
      PlainRoundTrip(s, r, v, mime, payload, rest);
    }
  }

  datatype Message = Message(version: Version, mime: Bytes, payload: Bytes)

  predicate Sendable(s: Sender, m: Message) {
    IsValue(m.mime) && Serialize(s, m.version, m.mime, m.payload).Ok? && Unambiguous(s, m.version, m.payload)
  }

  function SentAll(s: Sender, messages: seq<Message>): seq<Bytes>
    requires forall m :: m in messages ==> Sendable(s, m)
  {
    if messages == [] then []
    else
      assert Sendable(s, messages[0]);
      Serialize(s, messages[0].version, messages[0].mime, messages[0].payload).value + SentAll(s, messages[1..])
  }

  /** `n` receives in a row, stopping at the first that fails. */
  function ReceiveMany(r: Receiver, n: nat, queue: seq<Bytes>): Outcome<seq<Received>>
    decreases n
  {
    if n == 0 then Outcome(Ok([]), queue)
    else
      var first := Receive(r, queue);
      if first.result.Err? then Outcome(Err(first.result.error), first.queue)
      else
        var more := ReceiveMany(r, n - 1, first.queue);
        if more.result.Err? then more
        else Outcome(Ok([first.result.value] + more.result.value), more.queue)
  }

  /** Messages pushed whole by one sender come back in order, each once, whatever mix of versions and sizes. */
  lemma {:induction false} StreamRoundTrip(s: Sender, r: Receiver, messages: seq<Message>, rest: seq<Bytes>)
    requires s.isServer ==> !r.isServer
    requires forall m :: m in messages ==> Sendable(s, m)
    ensures
      var o := ReceiveMany(r, |messages|, SentAll(s, messages) + rest);
      && o.result.Ok? && o.queue == rest && |o.result.value| == |messages|
      && forall k :: 0 <= k < |messages| ==>
           o.result.value[k] == Expected(r, messages[k].version, messages[k].mime, messages[k].payload)
  {
    hide Receive, Serialize, Unambiguous, IsValue, Expected;
    if messages == [] {
      assert [] + rest == rest;
    } else {
      var m := messages[0];
      assert Sendable(s, m);
      var sent := Serialize(s, m.version, m.mime, m.payload).value;
      var others := SentAll(s, messages[1..]);
      WireRoundTrip(s, r, m.version, m.mime, m.payload, others + rest);
      assert SentAll(s, messages) + rest == sent + (others + rest);
      StreamRoundTrip(s, r, messages[1..], rest);
    }
  }

  /** An unchunked payload is unambiguous as soon as its first byte is not white space, `c` or `p`, as
      the `{` of a JSON object and the bytes from 0x80 up are not. */
  lemma FirstByteSuffices(s: Sender, v: Version, payload: Bytes)
    requires !s.Chunks(payload)
    requires payload != [] && !IsSpace(payload[0]) && payload[0] != 'c' && payload[0] != 'p'
    ensures Unambiguous(s, v, payload)
  {
    FirstMismatch(payload, CONTENT_TYPE);
    FirstMismatch(payload, CHUNK_COUNT);
    FirstMismatch(payload, CHUNK_ID);
    FirstMismatch(payload, "pysoa-redis/");
  }

  lemma FirstMismatch(s: Bytes, p: Bytes)
    requires s != [] && p != [] && s[0] != p[0]
    ensures !StartsWith(s, p)
  {
    assert |p| <= |s| ==> s[..|p|][0] == s[0];
  }

  /** The first byte does not suffice for chunks: when a later piece happens to start with `chunk-id:2;`, the
      receiver takes that text for a header and does not return the message. */
  lemma CutAtHeaderTextCorrupts(s: Sender, r: Receiver, mime: Bytes, first: Bytes, tail: Bytes, rest: seq<Bytes>)
    requires s.isServer && !r.isServer && IsValue(mime) && |first| == s.threshold >= 11
    requires |first| + 11 + |tail| <= s.maximumSize
    ensures
      var payload := first + (Printed(CHUNK_ID, "2") + tail);
      && Serialize(s, Version3, mime, payload).Ok?
      && Receive(r, Serialize(s, Version3, mime, payload).value + rest)
         != Outcome(Ok(Expected(r, Version3, mime, payload)), rest)
  {
    hide Receive, MatchHeader;
    var header := Printed(CHUNK_ID, "2");
    var payload := first + (header + tail);
    var t := s.threshold;
    PieceStarts(payload, t, 1);
    var body := Piece(payload, t, 1);
    assert |header| == 11 && body == header + body[11..];
    PrintedHeaderMatches(CHUNK_ID, "2", body[11..]);
    assert !Clean(body);
    WireRoundTrip(s, r, Version3, mime, payload, rest);
  }
}
