/** `SyslogHandler.emit`: one record becomes one packet, a truncated packet, or a numbered train of packets. */
module Syslog {
  import opened ByteText
  import opened Utf8

  datatype Overflow = Fragment | Truncate

  /** The settings `emit` reads. `priority` is the rendered `<N>` and `suffix` is the NUL byte or nothing. */
  datatype Handler = Handler(maximumLength: int, overflow: Overflow, priority: Bytes, prefix: Bytes, suffix: Bytes)
  {
    function MessageLimit(): int { maximumLength - |prefix| - |suffix| - |priority| }

    predicate Whole(formatted: Text) { |Encode(formatted)| < MessageLimit() }
  }

  const CONTINUED: Bytes := "... (cont'd)"

  function Marker(i: nat): Bytes { "(cont'd #" + Decimal(i) + ") ..." }

  // ------------------------------------------------------------------ where the record is split

  predicate OccursAt(t: Text, needle: Text, k: nat) { k + |needle| <= |t| && t[k..k + |needle|] == needle }

  /** `str.index`: the first occurrence, or `None` for the exception. */
  function Index(t: Text, needle: Text): (r: Option<nat>)
    ensures r.Some? ==> OccursAt(t, needle, r.value)
    ensures forall k: nat :: k < (if r.Some? then r.value else |t| + 1) ==> !OccursAt(t, needle, k)
  {
    IndexFrom(t, needle, 0)
  }

  function IndexFrom(t: Text, needle: Text, from: nat): (r: Option<nat>)
    requires from <= |t| + 1
    ensures r.Some? ==> from <= r.value && OccursAt(t, needle, r.value)
    ensures forall k: nat :: from <= k < (if r.Some? then r.value else |t| + 1) ==> !OccursAt(t, needle, k)
    decreases |t| + 1 - from
  {
    if from == |t| + 1 then None
    else if OccursAt(t, needle, from) then Some(from)
    else IndexFrom(t, needle, from + 1)
  }

  function Take<T>(s: seq<T>, n: nat): seq<T> { if n < |s| then s[..n] else s }

  function Drop<T>(s: seq<T>, n: nat): seq<T> { if n < |s| then s[n..] else [] }

  datatype Record = Record(preamble: Text, message: Text)

  /** The part repeated in every packet and the part that is chunked. `message` is `None` when the log record
      cannot render its message. */
  function SplitRecord(formatted: Text, message: Option<Text>): Record {
    var found := if message.Some? then Index(formatted, Take(message.value, 40)) else None;
    if found.Some? then Record(formatted[..found.value], formatted[found.value..])
    else Record(Take(formatted, 30) + [0x20], Drop(formatted, 30))
  }

  function ChunkLimit(h: Handler, r: Record): int { h.MessageLimit() - |Encode(r.preamble)| - 12 }

  // ------------------------------------------------------------------ the fragmenting loop

  /** The budget of the i-th packet (from 1) for message bytes. */
  function Budget(i: nat, limit: int): int { limit - if i > 1 then 14 + |Decimal(i)| else 0 }

  function AfterPacket(i: nat, remaining: Bytes, limit: int): Bytes {
    CleanlySlice(remaining, Budget(i, limit)).remaining
  }

  /** What is left after `n` turns of the loop, whether or not the loop would have stopped earlier. */
  function RemainingAfter(n: nat, i: nat, remaining: Bytes, limit: int): Bytes {
    if n == 0 then remaining else RemainingAfter(n - 1, i + 1, AfterPacket(i, remaining, limit), limit)
  }

  /** Every packet has room for at least the next character. */
  predicate Fits(i: nat, remaining: Bytes, limit: int)
    requires Valid(remaining)
    decreases |remaining|
  {
    remaining == [] || (
      Lead(remaining) <= Budget(i, limit)
      && (CleanlySliceLongest(remaining, Budget(i, limit));
          Fits(i + 1, AfterPacket(i, remaining, limit), limit)))
  }

  lemma BudgetShrinks(i: nat, limit: int)
    ensures Budget(i + 1, limit) <= Budget(i, limit)
  {
    DecimalLengthMonotone(i, i + 1);
  }

  lemma NotFitting(i: nat, remaining: Bytes, limit: int)
    requires Valid(remaining) && remaining != [] && Budget(i, limit) < Lead(remaining)
    ensures !Fits(i, remaining, limit)
  {
  }

  lemma {:induction false} StuckForever(n: nat, i: nat, remaining: Bytes, limit: int)
    requires Valid(remaining) && !Fits(i, remaining, limit)
    ensures RemainingAfter(n, i, remaining, limit) != []
  {
    hide Lead, Valid, CleanlySlice;
    if n > 0 {
      var budget := Budget(i, limit);
      var rest := AfterPacket(i, remaining, limit);
      BudgetShrinks(i, limit);
      if budget < 0 {
        CleanlySliceNegative(remaining, budget);
        NotFitting(i + 1, rest, limit);
      } else {
        CleanlySliceLongest(remaining, budget);
        if budget < Lead(remaining) {
          assert rest == [] + rest == remaining;
          NotFitting(i + 1, rest, limit);
        }
      }
      StuckForever(n - 1, i + 1, rest, limit);
    }
  }

  lemma {:induction false} FittingEnds(i: nat, remaining: Bytes, limit: int) returns (n: nat)
    requires Valid(remaining) && Fits(i, remaining, limit)
    ensures RemainingAfter(n, i, remaining, limit) == []
    decreases |remaining|
  {
    if remaining == [] {
      n := 0;
    } else {
      CleanlySliceLongest(remaining, Budget(i, limit));
      var m := FittingEnds(i + 1, AfterPacket(i, remaining, limit), limit);
      n := m + 1;
    }
  }

  /** The loop ends exactly when no packet's budget is smaller than the character it has to start with; once one
      is, the loop never ends, because budgets only shrink. */
  lemma LoopEndsIffFits(i: nat, remaining: Bytes, limit: int)
    requires Valid(remaining)
    ensures (exists n: nat :: RemainingAfter(n, i, remaining, limit) == []) <==> Fits(i, remaining, limit)
  {
    if Fits(i, remaining, limit) {
      var n := FittingEnds(i, remaining, limit);
    } else {
      forall n: nat ensures RemainingAfter(n, i, remaining, limit) != [] {
        StuckForever(n, i, remaining, limit);
      }
    }
  }

  /** A bound the caller can check: room for four bytes beside a marker whose number has as many digits as the
      message has bytes. */
  lemma {:induction false} RoomForFourBytesFits(i: nat, remaining: Bytes, limit: int)
    requires Valid(remaining) && i >= 1
    requires limit >= 18 + |Decimal(i + |remaining|)|
    ensures Fits(i, remaining, limit)
    decreases |remaining|
  {
    hide Lead, CleanlySlice, Decimal;
    if remaining != [] {
      DecimalLengthMonotone(i, i + |remaining|);
      CleanlySliceLongest(remaining, Budget(i, limit));
      var rest := AfterPacket(i, remaining, limit);
      DecimalLengthMonotone(i + 1 + |rest|, i + |remaining|);
      RoomForFourBytesFits(i + 1, rest, limit);
    }
  }

  // ------------------------------------------------------------------ what the packets carry

  function Packet(h: Handler, start: Bytes, i: nat, payload: Bytes, last: bool): Bytes {
    h.priority + h.prefix + start
    + ((if i > 1 then Marker(i) + payload else payload) + if last then [] else CONTINUED)
    + h.suffix
  }

  /** The payload of the i-th packet, read back by position. */
  function Payload(h: Handler, start: Bytes, i: nat, packet: Bytes, last: bool): Bytes {
    var from := |h.priority| + |h.prefix| + |start| + if i > 1 then |Marker(i)| else 0;
    var to := |packet| - |h.suffix| - if last then 0 else |CONTINUED|;
    if 0 <= from <= to <= |packet| then packet[from..to] else []
  }

  function Packets(h: Handler, start: Bytes, i: nat, remaining: Bytes, limit: int): seq<Bytes>
    requires Valid(remaining) && Fits(i, remaining, limit)
    decreases |remaining|
  {
    if remaining == [] then []
    else
      CleanlySliceLongest(remaining, Budget(i, limit));
      var cut := CleanlySlice(remaining, Budget(i, limit));
      [Packet(h, start, i, cut.sliced, cut.remaining == [])] + Packets(h, start, i + 1, cut.remaining, limit)
  }

  /** What a reader of the packets recovers: the payloads in order. */
  function Payloads(h: Handler, start: Bytes, i: nat, packets: seq<Bytes>): seq<Bytes>
    decreases |packets|
  {
    if packets == [] then []
    else [Payload(h, start, i, packets[0], |packets| == 1)] + Payloads(h, start, i + 1, packets[1..])
  }

  function Concat(parts: seq<Bytes>): Bytes { if parts == [] then [] else parts[0] + Concat(parts[1..]) }

  lemma PayloadOfPacket(h: Handler, start: Bytes, i: nat, payload: Bytes, last: bool)
    ensures Payload(h, start, i, Packet(h, start, i, payload, last), last) == payload
    ensures |Packet(h, start, i, payload, last)|
         == |h.priority| + |h.prefix| + |start| + |h.suffix| + |payload|
            + (if i > 1 then 14 + |Decimal(i)| else 0) + (if last then 0 else 12)
  {
    hide Marker;
    MarkerLength(i);
    var front := h.priority + h.prefix + start + if i > 1 then Marker(i) else [];
    var back := (if last then [] else CONTINUED) + h.suffix;
    PacketShape(h, start, i, payload, last);
    Middle(Packet(h, start, i, payload, last), front, payload, back);
  }

  lemma PacketShape(h: Handler, start: Bytes, i: nat, payload: Bytes, last: bool)
    ensures Packet(h, start, i, payload, last)
         == (h.priority + h.prefix + start + if i > 1 then Marker(i) else []) + payload
            + ((if last then [] else CONTINUED) + h.suffix)
  {
    hide Marker;
    var head, marker, tail := h.priority + h.prefix + start, Marker(i), if last then [] else CONTINUED;
    assert head + ((marker + payload) + tail) + h.suffix == (head + marker) + payload + (tail + h.suffix);
    assert head + (payload + tail) + h.suffix == (head + []) + payload + (tail + h.suffix);
  }

  lemma Middle(s: Bytes, front: Bytes, middle: Bytes, back: Bytes)
    requires s == front + middle + back
    ensures |s| == |front| + |middle| + |back| && s[|front|..|front| + |middle|] == middle
  {
  }

  lemma MarkerLength(i: nat)
    ensures |Marker(i)| == 14 + |Decimal(i)|
  {
  }

  /** Nothing is lost and the limit holds: every packet is at most `maximumLength` bytes, every payload is a
      non-empty run of whole characters, and the payloads read back from the packets are the message. */
  lemma {:induction false} PacketsCarryMessage(h: Handler, r: Record, i: nat, remaining: Bytes)
    requires Valid(remaining) && Fits(i, remaining, ChunkLimit(h, r)) && i >= 1
    ensures
      var packets := Packets(h, Encode(r.preamble), i, remaining, ChunkLimit(h, r));
      var payloads := Payloads(h, Encode(r.preamble), i, packets);
      && (forall p :: p in packets ==> |p| <= h.maximumLength)
      && (forall p :: p in payloads ==> p != [] && Valid(p))
      && |payloads| == |packets| && Concat(payloads) == remaining
    decreases |remaining|
  {
    hide Lead, Valid, CleanlySlice, Packet, Payload;
    if remaining != [] {
      var start, limit := Encode(r.preamble), ChunkLimit(h, r);
      CleanlySliceLongest(remaining, Budget(i, limit));
      var cut := CleanlySlice(remaining, Budget(i, limit));
      PayloadOfPacket(h, start, i, cut.sliced, cut.remaining == []);
      PacketsCarryMessage(h, r, i + 1, cut.remaining);
      var rest := Packets(h, start, i + 1, cut.remaining, limit);
      assert cut.remaining == [] <==> rest == [];
      var packets := Packets(h, start, i, remaining, limit);
      assert packets[1..] == rest;
      assert Payloads(h, start, i, packets)[1..] == Payloads(h, start, i + 1, rest);
    }
  }

  lemma PacketsStep(h: Handler, start: Bytes, i: nat, remaining: Bytes, limit: int)
    requires Valid(remaining) && Fits(i, remaining, limit) && remaining != []
    ensures
      var cut := CleanlySlice(remaining, Budget(i, limit));
      && Valid(cut.remaining) && Fits(i + 1, cut.remaining, limit) && |cut.remaining| < |remaining|
      && Packets(h, start, i, remaining, limit)
         == [Packet(h, start, i, cut.sliced, cut.remaining == [])] + Packets(h, start, i + 1, cut.remaining, limit)
  {
    hide Lead, Valid, CleanlySlice;
    CleanlySliceLongest(remaining, Budget(i, limit));
  }

  lemma NoMorePackets(h: Handler, start: Bytes, i: nat, limit: int)
    ensures Valid([]) && Fits(i, [], limit) && Packets(h, start, i, [], limit) == []
  {
  }

  // ------------------------------------------------------------------ the method

  predicate WillEnd(h: Handler, formatted: Text, message: Option<Text>) {
    var r := SplitRecord(formatted, message);
    EncodeRoundTrip(r.message);
    h.Whole(formatted) || h.overflow.Truncate? || Fits(1, Encode(r.message), ChunkLimit(h, r))
  }

  /** A record that has to be fragmented and whose preamble leaves no byte for the first packet is never finished. */
  lemma LongPreambleNeverEnds(h: Handler, formatted: Text, message: Option<Text>, n: nat)
    requires !h.Whole(formatted) && h.overflow.Fragment?
    requires
      var r := SplitRecord(formatted, message);
      r.message != [] && ChunkLimit(h, r) < 1
    ensures !WillEnd(h, formatted, message)
    ensures
      var r := SplitRecord(formatted, message);
      RemainingAfter(n, 1, Encode(r.message), ChunkLimit(h, r)) != []
  {
    hide Encode, SplitRecord, Lead;
    var r := SplitRecord(formatted, message);
    var toChunk, limit := Encode(r.message), ChunkLimit(h, r);
    EncodeRoundTrip(r.message);
    EncodedNotEmpty(r.message);
    ValidLead(toChunk);
    NotFitting(1, toChunk, limit);
    StuckForever(n, 1, toChunk, limit);
  }

  lemma EncodedNotEmpty(t: Text)
    requires t != []
    ensures Encode(t) != []
  {
  }

  lemma ValidLead(s: Bytes)
    requires Valid(s) && s != []
    ensures Lead(s) >= 1
  {
  }

  /** The packet length for the smallest path MTU that the handler assumes, 576 bytes with headers. */
  const SMALLEST := 548

  const EXAMPLE_MESSAGE: Text := [0x78, 0x79, 0x7A]

  function ExampleRecord(): Text { seq(540, _ => 0x61) + EXAMPLE_MESSAGE }

  lemma {:induction false} EncodeAscii(t: Text)
    requires forall k :: 0 <= k < |t| ==> t[k] < 0x80
    ensures |Encode(t)| == |t|
  {
    if t != [] { EncodeAscii(t[1..]); }
  }

  /** Three letters after a preamble of 540 bytes, at the smallest packet length: the handler loops for ever. */
  lemma ExampleNeverEnds(n: nat)
    ensures
      var h := Handler(SMALLEST, Fragment, "<14>", [], [0 as char]);
      var r := SplitRecord(ExampleRecord(), Some(EXAMPLE_MESSAGE));
      && r == Record(ExampleRecord()[..540], EXAMPLE_MESSAGE) && !WillEnd(h, ExampleRecord(), Some(EXAMPLE_MESSAGE))
      && RemainingAfter(n, 1, Encode(r.message), ChunkLimit(h, r)) != []
  {
    hide Encode, WillEnd, RemainingAfter;
    var h, t := Handler(SMALLEST, Fragment, "<14>", [], [0 as char]), ExampleRecord();
    var found := Index(t, EXAMPLE_MESSAGE);
    assert OccursAt(t, EXAMPLE_MESSAGE, 540);
    assert forall k: nat :: k < 540 && OccursAt(t, EXAMPLE_MESSAGE, k) ==> t[k..k + 3][0] == t[k];
    assert found == Some(540) && t[540..] == EXAMPLE_MESSAGE;
    EncodeAscii(t);
    EncodeAscii(t[..540]);
    LongPreambleNeverEnds(h, t, Some(EXAMPLE_MESSAGE), n);
  }

  /** `emit` up to the hand-over of the packets to the socket. */
  method Emit(h: Handler, formatted: Text, message: Option<Text>) returns (parts: seq<Bytes>)
    requires WillEnd(h, formatted, message)
    ensures h.Whole(formatted) ==> parts == [h.priority + h.prefix + Encode(formatted) + h.suffix]
    ensures !h.Whole(formatted) && h.overflow.Truncate? ==>
              parts == [h.priority + h.prefix + CleanlySlice(Encode(formatted), h.MessageLimit()).sliced + h.suffix]
    ensures !h.Whole(formatted) && h.overflow.Fragment? ==>
              var r := SplitRecord(formatted, message);
              && Valid(Encode(r.message))
              && Fits(1, Encode(r.message), ChunkLimit(h, r))
              && parts == Packets(h, Encode(r.preamble), 1, Encode(r.message), ChunkLimit(h, r))
              && (forall p :: p in parts ==> |p| <= h.maximumLength)
              && Concat(Payloads(h, Encode(r.preamble), 1, parts)) == Encode(r.message)
  {
    hide Lead, Valid, CleanlySlice, Packets, Fits, Encode, SplitRecord;
    var encodedMessage := Encode(formatted);
    var limit := h.MessageLimit();
    if |encodedMessage| < limit {
      parts := [h.priority + h.prefix + encodedMessage + h.suffix];
    } else if h.overflow == Truncate {
      var cut := CleanlySlice(encodedMessage, limit);
      parts := [h.priority + h.prefix + cut.sliced + h.suffix];
    } else {
      var record := SplitRecord(formatted, message);
      var start, toChunk := Encode(record.preamble), Encode(record.message);
      var chunkLimit := limit - |start| - 12;
      EncodeRoundTrip(record.message);
      var i := 1;
      parts := [];
      var remaining := toChunk;
      while remaining != []
        invariant i >= 1 && Valid(remaining) && Fits(i, remaining, chunkLimit)
        invariant parts + Packets(h, start, i, remaining, chunkLimit) == Packets(h, start, 1, toChunk, chunkLimit)
        decreases |remaining|
      {
        var marker: Bytes, subtractor := [], 0;
        if i > 1 {
          marker := Marker(i);
          subtractor := 14 + |Decimal(i)|;
        }
        PacketsStep(h, start, i, remaining, chunkLimit);
        var cut := CleanlySlice(remaining, chunkLimit - subtractor);
        var chunk := marker + cut.sliced;
        if cut.remaining != [] {
          chunk := chunk + CONTINUED;
        }
        var packet := h.priority + h.prefix + start + chunk + h.suffix;
        assert packet == Packet(h, start, i, cut.sliced, cut.remaining == []) by {
          assert chunk == (if i > 1 then Marker(i) + cut.sliced else cut.sliced)
                          + if cut.remaining == [] then [] else CONTINUED;
        }
        parts := parts + [packet];
        i, remaining := i + 1, cut.remaining;
      }
      NoMorePackets(h, start, i, chunkLimit);
      PacketsCarryMessage(h, record, 1, toChunk);
    }
  }

  /** A record is sent whole exactly when it is shorter than the limit with all around it, and a truncated one fits
      exactly when priority, prefix and suffix do. */
  lemma SinglePacketFitsIff(h: Handler, formatted: Text)
    ensures h.Whole(formatted) <==> |h.priority + h.prefix + Encode(formatted) + h.suffix| < h.maximumLength
    ensures
      var cut := CleanlySlice(Encode(formatted), h.MessageLimit()).sliced;
      |h.priority + h.prefix + cut + h.suffix| <= h.maximumLength <==> 0 <= h.MessageLimit()
  {
    hide Lead, CleanlySlice;
    EncodeRoundTrip(formatted);
    if h.MessageLimit() >= 0 { CleanlySliceLongest(Encode(formatted), h.MessageLimit()); }
  }

  /** The preamble and the chunked part are the whole record, apart from one space when the message is not found. */
  lemma SplitRecordKeepsText(formatted: Text, message: Option<Text>)
    ensures
      var r := SplitRecord(formatted, message);
      || r.preamble + r.message == formatted
      || (|formatted| <= 30 && r.preamble == formatted + [0x20] && r.message == [])
      || (|formatted| > 30 && r.preamble[..30] + r.message == formatted && r.preamble[30..] == [0x20])
  {
  }
}
