/** The receiving end of a train of syslog packets: what is printed in each, and how a reader who gets them in any order
    puts them in order again. */
module Reader {
  import opened ByteText
  import opened Utf8
  import opened Syslog

  predicate Begins(s: Bytes, p: Bytes) { |p| <= |s| && s[..|p|] == p }

  /** The text of a packet between the preamble, which is the same in all, and the suffix. */
  function TextOf(h: Handler, start: Bytes, packet: Bytes): Bytes {
    var from, to := |h.priority| + |h.prefix| + |start|, |packet| - |h.suffix|;
    if 0 <= from <= to then packet[from..to] else []
  }

  /** Letter by letter: all but the first packet begin with their number, and all but the last end alike. */
  lemma PacketInFull(h: Handler, start: Bytes, i: nat, payload: Bytes, last: bool)
    ensures
      var number := if i > 1 then "(cont'd #" + (Decimal(i) + (") ..." + payload)) else payload;
      var text := number + if last then "" else "... (cont'd)";
      && Packet(h, start, i, payload, last) == h.priority + h.prefix + start + text + h.suffix
      && TextOf(h, start, Packet(h, start, i, payload, last)) == text
  {
    hide Decimal;
    var d, tail := Decimal(i), if last then "" else "... (cont'd)";
    var number := if i > 1 then "(cont'd #" + (d + (") ..." + payload)) else payload;
    if i > 1 { assert Syslog.Marker(i) + payload == number; }
    var front := h.priority + h.prefix + start;
    var packet := Packet(h, start, i, payload, last);
    assert packet == front + (number + tail) + h.suffix;
    Middle(packet, front, number + tail, h.suffix);
  }

  // ------------------------------------------------------------------ the number of a packet

  /** The number at the front of a text, 1 when there is none. */
  function NumberIn(text: Bytes): nat {
    if !Begins(text, "(cont'd #") then 1
    else
      var s := text[9..];
      var n := DigitRun(s);
      if n == 0 || !Begins(s[n..], ") ...") then 1 else DecimalValue(s[..n])
  }

  function NumberOf(h: Handler, start: Bytes, packet: Bytes): nat { NumberIn(TextOf(h, start, packet)) }

  lemma NumberedBy(d: Bytes, rest: Bytes)
    requires d != [] && AllDigits(d)
    ensures NumberIn("(cont'd #" + (d + (") ..." + rest))) == DecimalValue(d)
  {
    hide DecimalValue, DigitRun;
    var t := ") ..." + rest;
    var s := d + t;
    var text := "(cont'd #" + s;
    assert text[..9] == "(cont'd #" && text[9..] == s;
    DigitRunIs(s, |d|);
    assert s[..|d|] == d && s[|d|..] == t && t[..5] == ") ...";
  }

  lemma NumberedText(n: nat, rest: Bytes)
    ensures NumberIn("(cont'd #" + (Decimal(n) + (") ..." + rest))) == n
  {
    NumberedBy(Decimal(n), rest);
    DecimalRoundTrip(n);
  }

  /** A text is taken for another packet's than the first exactly when it begins with the marker of that number. */
  lemma NumberInIff(text: Bytes, n: nat)
    requires n != 1
    ensures NumberIn(text) == n
       <==> exists d, rest :: AllDigits(d) && d != [] && DecimalValue(d) == n
                              && text == "(cont'd #" + (d + (") ..." + rest))
  {
    hide DecimalValue, NumberIn, AllDigits;
    if NumberIn(text) == n { var d, rest := MarkerIn(text); }
    forall d, rest | AllDigits(d) && d != [] && text == "(cont'd #" + (d + (") ..." + rest))
      ensures NumberIn(text) == DecimalValue(d)
    {
      NumberedBy(d, rest);
    }
  }

  lemma MarkerIn(text: Bytes) returns (d: Bytes, rest: Bytes)
    requires NumberIn(text) != 1
    ensures AllDigits(d) && d != [] && DecimalValue(d) == NumberIn(text)
    ensures text == "(cont'd #" + (d + (") ..." + rest))
  {
    hide DecimalValue, DigitRun;
    var s := text[9..];
    var k := DigitRun(s);
    d, rest := s[..k], s[k + 5..];
    assert text == text[..9] + s && s == d + s[k..] && s[k..] == s[k..][..5] + rest;
  }

  /** Every later packet tells its number. */
  lemma LaterPacketTells(h: Handler, start: Bytes, i: nat, payload: Bytes, last: bool)
    requires i > 1
    ensures NumberOf(h, start, Packet(h, start, i, payload, last)) == i
  {
    hide Decimal, Packet, TextOf, NumberIn;
    PacketInFull(h, start, i, payload, last);
    var tail := if last then "" else "... (cont'd)";
    assert "(cont'd #" + (Decimal(i) + (") ..." + payload)) + tail
        == "(cont'd #" + (Decimal(i) + (") ..." + (payload + tail)));
    NumberedText(i, payload + tail);
  }

  /** So does the first, of a message that begins like a number. */
  lemma FirstPacketMistold(h: Handler, start: Bytes, n: nat, rest: Bytes, last: bool)
    ensures NumberOf(h, start, Packet(h, start, 1, "(cont'd #" + (Decimal(n) + (") ..." + rest)), last)) == n
  {
    hide Decimal, Packet, TextOf, NumberIn;
    var payload := "(cont'd #" + (Decimal(n) + (") ..." + rest));
    PacketInFull(h, start, 1, payload, last);
    var tail := if last then "" else "... (cont'd)";
    assert payload + tail == "(cont'd #" + (Decimal(n) + (") ..." + (rest + tail)));
    NumberedText(n, rest + tail);
  }

  /** The first one reads as the first, unless the message itself begins like a number. */
  lemma FirstPacketTells(h: Handler, start: Bytes, payload: Bytes, last: bool)
    requires payload != [] && !Begins(payload, "(cont'd #")
    ensures NumberOf(h, start, Packet(h, start, 1, payload, last)) == 1
  {
    hide Packet, TextOf;
    PacketInFull(h, start, 1, payload, last);
    var text := payload + if last then "" else "... (cont'd)";
    assert |payload| < 9 && !last ==> text[|payload|] == '.';
  }

  // ------------------------------------------------------------------ a train of packets

  /** The k-th packet from number `i` on, with a payload of its own. */
  lemma {:induction false} PacketAt(h: Handler, start: Bytes, i: nat, remaining: Bytes, limit: int, k: nat)
    returns (payload: Bytes)
    requires Valid(remaining) && Fits(i, remaining, limit) && k < |Packets(h, start, i, remaining, limit)|
    ensures
      var packets := Packets(h, start, i, remaining, limit);
      packets[k] == Packet(h, start, i + k, payload, k == |packets| - 1)
    ensures payload != [] && (k == 0 ==> Begins(remaining, payload))
    decreases |remaining|
  {
    hide Lead, Valid, CleanlySlice, Packet;
    PacketsStep(h, start, i, remaining, limit);
    CleanlySliceLongest(remaining, Budget(i, limit));
    var cut := CleanlySlice(remaining, Budget(i, limit));
    var rest := Packets(h, start, i + 1, cut.remaining, limit);
    assert cut.remaining == [] <==> rest == [];
    if k == 0 {
      payload := cut.sliced;
    } else {
      payload := PacketAt(h, start, i + 1, cut.remaining, limit, k - 1);
    }
  }

  /** All packets but the last end in the mark of continuation. */
  lemma ContinuedUntilLast(h: Handler, start: Bytes, i: nat, remaining: Bytes, limit: int, k: nat)
    requires Valid(remaining) && Fits(i, remaining, limit) && k + 1 < |Packets(h, start, i, remaining, limit)|
    ensures
      var text := TextOf(h, start, Packets(h, start, i, remaining, limit)[k]);
      |text| >= 12 && text[|text| - 12..] == "... (cont'd)"
  {
    hide Packet, TextOf, Packets, Fits;
    var payload := PacketAt(h, start, i, remaining, limit, k);
    PacketInFull(h, start, i + k, payload, false);
  }

  lemma PacketsTell(h: Handler, start: Bytes, message: Bytes, limit: int, k: nat)
    requires Valid(message) && Fits(1, message, limit) && k < |Packets(h, start, 1, message, limit)|
    requires !Begins(message, "(cont'd #")
    ensures NumberOf(h, start, Packets(h, start, 1, message, limit)[k]) == k + 1
  {
    hide Packet, NumberOf, Packets, Fits;
    var payload := PacketAt(h, start, 1, message, limit, k);
    var last := k == |Packets(h, start, 1, message, limit)| - 1;
    if k == 0 {
      FirstPacketTells(h, start, payload, last);
    } else {
      LaterPacketTells(h, start, k + 1, payload, last);
    }
  }

  lemma {:induction false} IncreasingFills(s: seq<nat>, k: nat)
    requires (forall i, j :: 0 <= i < j < |s| ==> s[i] < s[j]) && (forall i :: 0 <= i < |s| ==> 1 <= s[i] <= |s|)
    requires k < |s|
    ensures s[k] >= k + 1 && s[|s| - 1 - k] <= |s| - k
    decreases k
  {
    if k > 0 { IncreasingFills(s, k - 1); }
  }

  /** Packets of a record, each taken once and put in the order of their numbers, are the train as it was sent, and
      their payloads the message. */
  lemma AnyOrderReads(h: Handler, r: Record, sorted: seq<Bytes>)
    requires
      var message, limit := Encode(r.message), ChunkLimit(h, r);
      && Valid(message) && Fits(1, message, limit) && !Begins(message, "(cont'd #")
      && |sorted| == |Packets(h, Encode(r.preamble), 1, message, limit)|
      && forall p :: p in sorted ==> p in Packets(h, Encode(r.preamble), 1, message, limit)
    requires forall i, j :: 0 <= i < j < |sorted| ==>
               NumberOf(h, Encode(r.preamble), sorted[i]) < NumberOf(h, Encode(r.preamble), sorted[j])
    ensures sorted == Packets(h, Encode(r.preamble), 1, Encode(r.message), ChunkLimit(h, r))
    ensures Concat(Payloads(h, Encode(r.preamble), 1, sorted)) == Encode(r.message)
  {
    hide Packets, Fits, NumberOf, Encode, Valid, Payloads, Lead, Begins;
    var start, message, limit := Encode(r.preamble), Encode(r.message), ChunkLimit(h, r);
    var packets := Packets(h, start, 1, message, limit);
    forall j | 0 <= j < |packets| ensures NumberOf(h, start, packets[j]) == j + 1 {
      PacketsTell(h, start, message, limit, j);
    }
    NumbersPutInOrder(h, start, packets, sorted);
    PacketsCarryMessage(h, r, 1, message);
  }

  lemma NumbersPutInOrder(h: Handler, start: Bytes, packets: seq<Bytes>, sorted: seq<Bytes>)
    requires forall j :: 0 <= j < |packets| ==> NumberOf(h, start, packets[j]) == j + 1
    requires |sorted| == |packets| && forall p :: p in sorted ==> p in packets
    requires forall i, j :: 0 <= i < j < |sorted| ==> NumberOf(h, start, sorted[i]) < NumberOf(h, start, sorted[j])
    ensures sorted == packets
  {
    hide NumberOf;
    var numbers := seq(|sorted|, k requires 0 <= k < |sorted| => NumberOf(h, start, sorted[k]));
    forall k | 0 <= k < |sorted| ensures 1 <= numbers[k] <= |sorted| && sorted[k] == packets[numbers[k] - 1] {
      assert sorted[k] in sorted;
      var j :| 0 <= j < |packets| && packets[j] == sorted[k];
    }
    forall k | 0 <= k < |sorted| ensures numbers[k] == k + 1 {
      IncreasingFills(numbers, k);
      IncreasingFills(numbers, |sorted| - 1 - k);
    }
  }

  // ------------------------------------------------------------------ no packet more than needed

  /** The next character would not have fitted. */
  lemma SliceIsFull(s: Bytes, limit: nat)
    requires Valid(s)
    ensures
      var r := CleanlySlice(s, limit);
      r.remaining != [] ==> |r.sliced| + 4 > limit
  {
    hide Lead, CleanlySlice;
    CleanlySliceLongest(s, limit);
    var r := CleanlySlice(s, limit);
    if r.remaining != [] {
      var n := Lead(r.remaining);
      LeadOfPrefix(r.remaining, n);
      assert r.remaining[..n][n..] == [] && ErrorStart([]) == 0;
      assert Valid(r.remaining[..n]);
      ValidConcat(r.sliced, r.remaining[..n]);
      assert s[..|r.sliced| + n] == r.sliced + r.remaining[..n];
    }
  }

  /** All packets but the last are within three bytes of the limit. */
  lemma {:induction false} PacketsAreFull(h: Handler, r: Record, i: nat, remaining: Bytes, k: nat)
    requires Valid(remaining) && Fits(i, remaining, ChunkLimit(h, r)) && i >= 1
    requires k + 1 < |Packets(h, Encode(r.preamble), i, remaining, ChunkLimit(h, r))|
    ensures |Packets(h, Encode(r.preamble), i, remaining, ChunkLimit(h, r))[k]| > h.maximumLength - 4
    decreases |remaining|
  {
    hide Lead, Valid, CleanlySlice, Packet, Encode;
    var start, limit := Encode(r.preamble), ChunkLimit(h, r);
    PacketsStep(h, start, i, remaining, limit);
    var cut := CleanlySlice(remaining, Budget(i, limit));
    if k == 0 {
      SliceIsFull(remaining, Budget(i, limit));
      PayloadOfPacket(h, start, i, cut.sliced, false);
    } else {
      PacketsAreFull(h, r, i + 1, cut.remaining, k - 1);
    }
  }

  // ------------------------------------------------------------------ where the record is split

  /** The chunked part begins where the first 40 characters of the message first occur in the record, or after 30
      characters. */
  lemma SplitMeans(formatted: Text, message: Option<Text>)
    ensures
      var r := SplitRecord(formatted, message);
      var opening := if message.None? then [] else if |message.value| <= 40 then message.value else message.value[..40];
      if message.Some? && exists k: nat :: OccursAt(formatted, opening, k) then
        && r.preamble + r.message == formatted && OccursAt(formatted, opening, |r.preamble|)
        && forall k: nat :: k < |r.preamble| ==> !OccursAt(formatted, opening, k)
      else if |formatted| <= 30 then r == Record(formatted + [0x20], [])
      else r.preamble == formatted[..30] + [0x20] && r.message == formatted[30..]
  {
  }
}
