/** The texts that pass over the wire, letter by letter: what the receiver matches and what the sender prints. */
module Grammar {
  import opened ByteText
  import opened Wire
  import opened Transfer
  import opened RoundTrip

  // ------------------------------------------------------------------ headers

  predicate White(s: Bytes) { forall k :: 0 <= k < |s| ==> s[k] as int == 0x20 || 0x09 <= s[k] as int <= 0x0D }

  /** A digit, an upper-case or lower-case letter, an underscore, a slash, a dot or a dash, by its code. */
  predicate ValueCode(n: int) {
    0x30 <= n <= 0x39 || 0x41 <= n <= 0x5A || 0x61 <= n <= 0x7A || n == 0x5F || n == 0x2F || n == 0x2E || n == 0x2D
  }

  predicate ValueText(v: Bytes) { v != [] && forall k :: 0 <= k < |v| ==> ValueCode(v[k] as int) }

  datatype Parts = Parts(w0: Bytes, name: Bytes, w1: Bytes, w2: Bytes, value: Bytes, w3: Bytes, rest: Bytes)
  {
    /** White space around the name and the value, and nothing else. */
    predicate IsHeader() {
      && White(w0) && White(w1) && White(w2) && White(w3)
      && (name == "content-type" || name == "chunk-count" || name == "chunk-id") && ValueText(value)
    }

    function AfterName(): Bytes { w1 + (":" + AfterColon()) }

    function AfterColon(): Bytes { w2 + (value + AfterValue()) }

    function AfterValue(): Bytes { w3 + (";" + rest) }

    function Text(): Bytes { w0 + (name + AfterName()) }
  }

  lemma ValueCodes(c: char)
    ensures IsValueChar(c) <==> ValueCode(c as int)
  {
  }

  lemma {:induction false} SkipsWhite(w: Bytes, s: Bytes)
    requires White(w) && s != [] && !IsSpace(s[0])
    ensures SkipSpace(w + s) == s
  {
    if w == [] {
      assert w + s == s;
    } else {
      assert (w + s)[1..] == w[1..] + s;
      SkipsWhite(w[1..], s);
    }
  }

  lemma {:induction false} WhiteSkipped(s: Bytes) returns (w: Bytes)
    ensures White(w) && s == w + SkipSpace(s) && (SkipSpace(s) != [] ==> !IsSpace(SkipSpace(s)[0]))
  {
    if s != [] && IsSpace(s[0]) {
      var v := WhiteSkipped(s[1..]);
      w := [s[0]] + v;
    } else {
      w := [];
    }
  }

  /** The receiver's pattern matches every header text ... */
  lemma HeaderTextMatches(p: Parts)
    requires p.IsHeader()
    ensures MatchHeader(p.Text()) == Some(Header(p.name, p.value, p.rest))
  {
    hide NameAt, SkipSpace, ValueRun;
    var s1 := p.name + p.AfterName();
    assert s1[0] == p.name[0] == 'c';
    SkipsWhite(p.w0, s1);
    NameAtFront(p.name, p.AfterName());
    assert s1[|p.name|..] == p.AfterName();
    var s2 := ":" + p.AfterColon();
    SkipsWhite(p.w1, s2);
    assert s2[1..] == p.AfterColon();
    var s3 := p.value + p.AfterValue();
    forall k | 0 <= k < |p.value| ensures IsValueChar(p.value[k]) { ValueCodes(p.value[k]); }
    assert s3[0] == p.value[0];
    SkipsWhite(p.w2, s3);
    var tail := p.AfterValue();
    assert tail[0] == if p.w3 == [] then ';' else p.w3[0];
    ValueRunIs(p.value, tail);
    assert s3[..|p.value|] == p.value && s3[|p.value|..] == tail;
    SkipsWhite(p.w3, ";" + p.rest);
    assert (";" + p.rest)[1..] == p.rest;
  }

  /** ... and nothing else. */
  lemma MatchIsHeaderText(s: Bytes) returns (p: Parts)
    requires MatchHeader(s).Some?
    ensures p.IsHeader() && p.Text() == s && MatchHeader(s) == Some(Header(p.name, p.value, p.rest))
  {
    hide SkipSpace, ValueRun;
    var h := MatchHeader(s).value;
    var w0 := WhiteSkipped(s);
    var s1 := SkipSpace(s);
    assert s1 == h.name + s1[|h.name|..];
    var w1 := WhiteSkipped(s1[|h.name|..]);
    var s2 := SkipSpace(s1[|h.name|..]);
    assert s2 == ":" + s2[1..];
    var w2 := WhiteSkipped(s2[1..]);
    var s3 := SkipSpace(s2[1..]);
    var n := ValueRun(s3);
    assert s3 == h.value + s3[n..];
    var w3 := WhiteSkipped(s3[n..]);
    var s4 := SkipSpace(s3[n..]);
    assert s4 == ";" + s4[1..];
    p := Parts(w0, h.name, w1, w2, h.value, w3, h.rest);
    forall k | 0 <= k < |h.value| ensures ValueCode(h.value[k] as int) { ValueCodes(h.value[k]); }
  }

  /** The header pattern, both ways. */
  lemma HeaderIff(s: Bytes, name: Bytes, value: Bytes, rest: Bytes)
    ensures MatchHeader(s) == Some(Header(name, value, rest))
       <==> exists p: Parts :: p.IsHeader() && p.Text() == s && (p.name, p.value, p.rest) == (name, value, rest)
  {
    hide MatchHeader, Parts.IsHeader, Parts.Text;
    if MatchHeader(s).Some? { var p := MatchIsHeaderText(s); }
    forall p: Parts | p.IsHeader() && p.Text() == s ensures MatchHeader(s) == Some(Header(p.name, p.value, p.rest)) {
      HeaderTextMatches(p);
    }
  }

  // ------------------------------------------------------------------ versions

  /** The version pattern, both ways: literal text around a number in decimal. */
  lemma VersionIff(s: Bytes, n: nat, rest: Bytes)
    ensures MatchVersion(s) == Some(Wire.Marker(n, rest))
       <==> exists d :: d != [] && AllDigits(d) && DecimalValue(d) == n && s == "pysoa-redis/" + (d + ("//" + rest))
  {
    hide MatchVersion, AllDigits, DecimalValue;
    if MatchVersion(s) == Some(Wire.Marker(n, rest)) { var d := MatchIsVersionText(s); }
    forall d | d != [] && AllDigits(d) && DecimalValue(d) == n && s == "pysoa-redis/" + (d + ("//" + rest))
      ensures MatchVersion(s) == Some(Wire.Marker(n, rest))
    {
      VersionTextMatches(d, rest);
    }
  }

  lemma MatchIsVersionText(s: Bytes) returns (d: Bytes)
    requires MatchVersion(s).Some?
    ensures
      var m := MatchVersion(s).value;
      && d != [] && AllDigits(d) && DecimalValue(d) == m.number && s == "pysoa-redis/" + (d + ("//" + m.rest))
  {
    hide DigitRun, DecimalValue;
    var t := s[12..];
    var k := DigitRun(t);
    d := t[..k];
    assert s == s[..12] + t && t == d + t[k..] && t[k..] == t[k..][..2] + t[k + 2..];
  }

  lemma VersionTextMatches(d: Bytes, rest: Bytes)
    requires d != [] && AllDigits(d)
    ensures MatchVersion("pysoa-redis/" + (d + ("//" + rest))) == Some(Wire.Marker(DecimalValue(d), rest))
  {
    hide DigitRun, DecimalValue;
    var t := d + ("//" + rest);
    var s := "pysoa-redis/" + t;
    assert s[..12] == "pysoa-redis/" && s[12..] == t;
    DigitRunIs(t, |d|);
    assert t[..|d|] == d && t[|d|..] == "//" + rest && t[|d| + 2..] == rest;
  }

  /** The version a message is taken for: by its marking, else 2 for a content type in front, else 1. */
  lemma VersionMeans(s: Bytes)
    ensures
      match MatchVersion(s)
      case Some(m) =>
        if m.number in {1, 2, 3} then
          ExtractVersion(s).Ok? && ExtractVersion(s).value.version.Number() == m.number
          && ExtractVersion(s).value.rest == m.rest
        else ExtractVersion(s) == Err(UnknownVersion)
      case None =>
        ExtractVersion(s) == Ok(Versioned(if "content-type" <= s then Version2 else Version1, s))
  {
  }

  // ------------------------------------------------------------------ numbers

  predicate DigitOrBar(c: char) { 0x30 <= c as int <= 0x39 || c == '_' }

  /** Digits with single underscores between them. */
  predicate Grouped(v: Bytes) {
    && v != [] && (forall k :: 0 <= k < |v| ==> DigitOrBar(v[k]))
    && v[0] != '_' && v[|v| - 1] != '_'
    && forall k :: 0 <= k < |v| - 1 ==> !(v[k] == '_' && v[k + 1] == '_')
  }

  function WithoutBars(v: Bytes): Bytes {
    if v == [] then [] else WithoutBars(v[..|v| - 1]) + if v[|v| - 1] == '_' then [] else [v[|v| - 1]]
  }

  lemma {:induction false} WithoutBarsAreDigits(v: Bytes)
    requires forall k :: 0 <= k < |v| ==> DigitOrBar(v[k])
    ensures AllDigits(WithoutBars(v))
  {
    if v != [] { WithoutBarsAreDigits(v[..|v| - 1]); }
  }

  /** Which texts are unsigned numbers, and which number each is. */
  lemma {:induction false} UnsignedIff(v: Bytes)
    ensures Unsigned(v).Some? <==> Grouped(v)
    ensures Grouped(v) ==> AllDigits(WithoutBars(v)) && Unsigned(v) == Some(DecimalValue(WithoutBars(v)))
    decreases |v|
  {
    hide Grouped, WithoutBars, DecimalValue, AllDigits;
    var n := |v|;
    GroupedEnds(v);
    if n >= 1 && IsDigit(v[n - 1]) {
      if n == 1 {
        OneDigit(v);
      } else {
        var front := if v[n - 2] == '_' then v[..n - 2] else v[..n - 1];
        UnsignedIff(front);
        GroupedFront(v);
        if Grouped(v) {
          FrontWithoutBars(v, front);
          DecimalSnoc(WithoutBars(front), v[n - 1]);
        }
      }
    }
  }

  lemma GroupedEnds(v: Bytes)
    ensures Grouped(v) ==> v != [] && IsDigit(v[|v| - 1])
  {
  }

  lemma OneDigit(v: Bytes)
    requires |v| == 1 && IsDigit(v[0])
    ensures Grouped(v) && WithoutBars(v) == v && AllDigits(v) && DecimalValue(v) == (v[0] - '0') as nat
  {
    assert v[..0] == [] && WithoutBars([]) == [];
  }

  lemma FrontWithoutBars(v: Bytes, front: Bytes)
    requires |v| >= 2 && IsDigit(v[|v| - 1]) && front == if v[|v| - 2] == '_' then v[..|v| - 2] else v[..|v| - 1]
    ensures WithoutBars(v) == WithoutBars(front) + [v[|v| - 1]]
  {
    assert v[..|v| - 1][..|v| - 2] == v[..|v| - 2];
    assert WithoutBars(front) + [] == WithoutBars(front);
  }

  lemma DecimalSnoc(d: Bytes, c: char)
    requires AllDigits(d) && IsDigit(c)
    ensures AllDigits(d + [c]) && DecimalValue(d + [c]) == 10 * DecimalValue(d) + (c - '0') as nat
  {
    assert (d + [c])[..|d|] == d;
  }

  lemma GroupedFront(v: Bytes)
    requires |v| >= 2 && IsDigit(v[|v| - 1])
    ensures Grouped(v) <==> Grouped(if v[|v| - 2] == '_' then v[..|v| - 2] else v[..|v| - 1])
  {
  }

  /** Which texts are numbers: one minus sign may stand in front. */
  lemma IntIff(v: Bytes, i: int)
    ensures IntValue(v) == Some(i)
       <==> || (Grouped(v) && i == DecimalValueOf(v))
            || (v != [] && v[0] == '-' && Grouped(v[1..]) && i == -DecimalValueOf(v[1..]))
  {
    UnsignedIff(v);
    if v != [] { UnsignedIff(v[1..]); }
  }

  function DecimalValueOf(v: Bytes): int
    requires Grouped(v)
  {
    WithoutBarsAreDigits(v);
    DecimalValue(WithoutBars(v))
  }

  /** Numerals have their usual order of digits. */
  lemma ExampleNumeral()
    ensures Decimal(120) == "120" && AllDigits("012") && DecimalValue("012") == 12
  {
    hide DecimalValue, Grouped, WithoutBars;
    assert Decimal(1) == "1" && Decimal(12) == "12";
    OneDigit("0");
    DecimalSnoc("0", '1');
    DecimalSnoc("01", '2');
    assert "0" + ['1'] == "01" && "01" + ['2'] == "012";
  }

  // ------------------------------------------------------------------ what is printed

  /** Every text the sender prints, in full: the payload alone in version 1, behind its content type in version 2, also
      behind the version in version 3; and in version 3 a long reply in as many pieces as it takes, all but the last of
      the threshold's size, each with the number of pieces and its own number from 1. */
  lemma PrintedInFull(s: Sender, v: Version, mime: Bytes, payload: Bytes)
    ensures
      var long := s.isServer && 0 < s.threshold < |payload|;
      var r := Serialize(s, v, mime, payload);
      var typed := "content-type:" + mime + ";";
      if |payload| > s.maximumSize then r == Err(MessageTooLarge)
      else if long && v != Version3 then r == Err(ChunkingUnsupported)
      else if !long then
        r == Ok([match v
                 case Version1 => payload
                 case Version2 => typed + payload
                 case Version3 => "pysoa-redis/3//" + (typed + payload)])
      else
        && r.Ok? && var n, t := |r.value|, s.threshold;
           && (n - 1) * t < |payload| <= n * t
           && forall i :: 0 <= i < n ==>
                && 0 <= i * t < |payload|
                && r.value[i] == "pysoa-redis/3//"
                     + (typed + ("chunk-count:" + Decimal(n) + ";") + ("chunk-id:" + Decimal(i + 1) + ";"))
                     + payload[i * t..if (i + 1) * t < |payload| then (i + 1) * t else |payload|]
  {
    hide Decimal, Printed;
    PrintedPieces(mime);
    if s.Chunks(payload) {
      if v == Version3 && |payload| <= s.maximumSize {
        var n, t := CeilDiv(|payload|, s.threshold), s.threshold;
        forall i | 0 <= i < n ensures 0 <= i * t < |payload| { PieceStarts(payload, t, i); }
      }
    }
  }

  lemma PrintedPieces(mime: Bytes)
    ensures Version3.Prefix() == "pysoa-redis/3//" && Printed(CONTENT_TYPE, mime) == "content-type:" + mime + ";"
    ensures forall n :: Printed(CHUNK_COUNT, n) == "chunk-count:" + n + ";"
    ensures forall n :: Printed(CHUNK_ID, n) == "chunk-id:" + n + ";"
  {
    assert Decimal(3) == "3";
  }

  /** The content types of the two serializers the library comes with. */
  lemma ShippedTypesAreValues()
    ensures IsValue("application/msgpack") && IsValue("application/json")
  {
  }

  /** The round trip for those, with its exact condition. */
  lemma ShippedRoundTrip(s: Sender, r: Receiver, v: Version, mime: Bytes, payload: Bytes, rest: seq<Bytes>)
    requires mime == "application/msgpack" || mime == "application/json"
    requires Serialize(s, v, mime, payload).Ok? && (s.isServer ==> !r.isServer)
    ensures
      Receive(r, Serialize(s, v, mime, payload).value + rest) == Outcome(Ok(Expected(r, v, mime, payload)), rest)
      <==> Unambiguous(s, v, payload)
  {
    hide Receive, Serialize, Unambiguous, IsValue;
    ShippedTypesAreValues();
    WireRoundTrip(s, r, v, mime, payload, rest);
  }

  /** A server takes no chunks. */
  lemma ServerRefusesChunks(r: Receiver, queue: seq<Bytes>, id: int, count: int)
    requires r.isServer && queue != [] && IsChunk(queue[0], id, count)
    ensures Receive(r, queue) == Outcome(Err(ChunkedRequest), queue[1..])
  {
    hide Parse, IntValue;
  }
}
