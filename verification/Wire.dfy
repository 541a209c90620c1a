/** The Redis gateway's message text: what the sender prints and what the receiver makes of it. */
module Wire {
  import opened ByteText

  // ------------------------------------------------------------------ protocol versions

  datatype Version = Version1 | Version2 | Version3
  {
    function Number(): nat { match this case Version1 => 1 case Version2 => 2 case Version3 => 3 }

    function Prefix(): Bytes { "pysoa-redis/" + Decimal(Number()) + "//" }
  }

  datatype Feature = ContentTypeHeader | VersionMarker | ChunkedResponses
  {
    predicate SupportedIn(v: Version) { v.Number() >= if ContentTypeHeader? then 2 else 3 }
  }

  predicate StartsWith(s: Bytes, p: Bytes) { |p| <= |s| && s[..|p|] == p }

  datatype Marker = Marker(number: nat, rest: Bytes)

  /** The match of `pysoa-redis/([0-9]+)//` at the start of the data. */
  function MatchVersion(data: Bytes): (m: Option<Marker>)
    ensures m.Some? ==> |m.value.rest| < |data|
  {
    if !StartsWith(data, "pysoa-redis/") then None
    else
      var s := data[12..];
      var n := DigitRun(s);
      if n == 0 || !StartsWith(s[n..], "//") then None
      else Some(Marker(DecimalValue(s[..n]), s[n + 2..]))
  }

  datatype ReceiveError =
    | UnknownVersion | BadNumber | ChunkedRequest | MissingChunkId | MissingChunkHeaders
    | WrongChunkCount | WrongChunkId | Timeout

  datatype Versioned = Versioned(version: Version, rest: Bytes)

  function ExtractVersion(data: Bytes): Result<Versioned, ReceiveError> {
    var m := MatchVersion(data);
    if m.Some? then
      if m.value.number == 1 then Ok(Versioned(Version1, m.value.rest))
      else if m.value.number == 2 then Ok(Versioned(Version2, m.value.rest))
      else if m.value.number == 3 then Ok(Versioned(Version3, m.value.rest))
      else Err(UnknownVersion)
    else if StartsWith(data, "content-type") then Ok(Versioned(Version2, data))
    else Ok(Versioned(Version1, data))
  }

  // ------------------------------------------------------------------ headers

  predicate IsSpace(c: char) { c == ' ' || 9 <= c as int <= 13 }

  predicate IsValueChar(c: char) {
    'a' <= c <= 'z' || 'A' <= c <= 'Z' || IsDigit(c) || c == '_' || c == '/' || c == '.' || c == '-'
  }

  function SkipSpace(s: Bytes): (r: Bytes)
    ensures |r| <= |s|
  {
    if s != [] && IsSpace(s[0]) then SkipSpace(s[1..]) else s
  }

  function ValueRun(s: Bytes): (n: nat)
    ensures n <= |s| && forall k :: 0 <= k < n ==> IsValueChar(s[k])
  {
    if s != [] && IsValueChar(s[0]) then 1 + ValueRun(s[1..]) else 0
  }

  const CONTENT_TYPE: Bytes := "content-type"
  const CHUNK_COUNT: Bytes := "chunk-count"
  const CHUNK_ID: Bytes := "chunk-id"

  predicate IsName(name: Bytes) { name == CONTENT_TYPE || name == CHUNK_COUNT || name == CHUNK_ID }

  function NameAt(s: Bytes): (r: Option<Bytes>)
    ensures r.Some? ==> IsName(r.value) && |r.value| <= |s|
  {
    if StartsWith(s, CONTENT_TYPE) then Some(CONTENT_TYPE)
    else if StartsWith(s, CHUNK_COUNT) then Some(CHUNK_COUNT)
    else if StartsWith(s, CHUNK_ID) then Some(CHUNK_ID)
    else None
  }

  datatype Header = Header(name: Bytes, value: Bytes, rest: Bytes)

  /** The match of the supported-headers pattern at the start of `s`. The pattern's pieces use disjoint character
      classes, so the greedy reading is the only one. */
  function MatchHeader(s: Bytes): (h: Option<Header>)
    ensures h.Some? ==> |h.value.rest| < |s|
  {
    var s1 := SkipSpace(s);
    var name := NameAt(s1);
    if name.None? then None
    else
      var s2 := SkipSpace(s1[|name.value|..]);
      if s2 == [] || s2[0] != ':' then None
      else
        var s3 := SkipSpace(s2[1..]);
        var n := ValueRun(s3);
        var s4 := SkipSpace(s3[n..]);
        if n == 0 || s4 == [] || s4[0] != ';' then None
        else Some(Header(name.value, s3[..n], s4[1..]))
  }

  type Headers = map<Bytes, Bytes>

  datatype Extracted = Extracted(headers: Headers, rest: Bytes)

  function ExtractHeaders(headers: Headers, s: Bytes): (x: Extracted)
    ensures |x.rest| <= |s| && headers.Keys <= x.headers.Keys
    ensures MatchHeader(s).None? <==> |x.rest| == |s|
    ensures MatchHeader(s).None? ==> x == Extracted(headers, s)
    decreases |s|
  {
    var h := MatchHeader(s);
    if h.None? then Extracted(headers, s)
    else ExtractHeaders(headers[h.value.name := h.value.value], h.value.rest)
  }

  /** `_extract_supported_headers`. */
  method ExtractSupportedHeaders(message: Bytes) returns (headers: Headers, rest: Bytes)
    ensures Extracted(headers, rest) == ExtractHeaders(map[], message)
    ensures MatchHeader(rest).None?
  {
    headers, rest := map[], message;
    var m := MatchHeader(rest);
    while m.Some?
      invariant m == MatchHeader(rest)
      invariant ExtractHeaders(headers, rest) == ExtractHeaders(map[], message)
      decreases |rest|
    {
      headers := headers[m.value.name := m.value.value];
      rest := m.value.rest;
      m := MatchHeader(rest);
    }
  }

  function Printed(name: Bytes, value: Bytes): Bytes { name + ":" + value + ";" }

  predicate IsValue(v: Bytes) { v != [] && forall k :: 0 <= k < |v| ==> IsValueChar(v[k]) }

  lemma {:induction false} ValueRunIs(v: Bytes, rest: Bytes)
    requires (forall k :: 0 <= k < |v| ==> IsValueChar(v[k])) && (rest != [] ==> !IsValueChar(rest[0]))
    ensures ValueRun(v + rest) == |v|
  {
    if v == [] {
      assert v + rest == rest;
    } else {
      assert (v + rest)[1..] == v[1..] + rest;
      ValueRunIs(v[1..], rest);
    }
  }

  lemma NameAtFront(name: Bytes, rest: Bytes)
    requires IsName(name)
    ensures NameAt(name + rest) == Some(name) && SkipSpace(name + rest) == name + rest
  {
    var s := name + rest;
    assert s[..|name|] == name && s[0] == 'c';
    if name != CONTENT_TYPE {
      assert s[1] == name[1] == 'h' && CONTENT_TYPE[1] == 'o';
      if name == CHUNK_ID { assert s[6] == name[6] == 'i' && CHUNK_COUNT[6] == 'c'; }
    }
  }

  lemma NoSpace(s: Bytes)
    requires s != [] && !IsSpace(s[0])
    ensures SkipSpace(s) == s
  {
  }

  lemma ValueAtFront(value: Bytes, rest: Bytes)
    requires IsValue(value)
    ensures
      var s := value + (";" + rest);
      SkipSpace(s) == s && ValueRun(s) == |value| && s[..|value|] == value && SkipSpace(s[|value|..]) == ";" + rest
  {
    var s := value + (";" + rest);
    assert s[0] == value[0] && IsValueChar(value[0]);
    ValueRunIs(value, ";" + rest);
    assert s[|value|..] == ";" + rest;
  }

  /** The receiver's pattern reads back any header the sender can print, and no more. */
  lemma PrintedHeaderMatches(name: Bytes, value: Bytes, rest: Bytes)
    requires IsName(name) && IsValue(value)
    ensures MatchHeader(Printed(name, value) + rest) == Some(Header(name, value, rest))
  {
    hide NameAt, SkipSpace, ValueRun, IsName;
    var s := Printed(name, value) + rest;
    var tail := ":" + (value + (";" + rest));
    assert s == name + tail;
    NameAtFront(name, tail);
    assert s[|name|..] == tail;
    NoSpace(tail);
    assert tail[1..] == value + (";" + rest);
    ValueAtFront(value, rest);
    assert (";" + rest)[1..] == rest;
  }

  // ------------------------------------------------------------------ numbers in headers

  /** Python's `int` on a header value: an optional minus sign, then digits with single underscores between. */
  function IntValue(v: Bytes): Option<int> {
    if v != [] && v[0] == '-' then
      var n := Unsigned(v[1..]);
      if n.Some? then Some(0 - n.value) else None
    else
      var n := Unsigned(v);
      if n.Some? then Some(n.value) else None
  }

  function Unsigned(v: Bytes): Option<nat> {
    var n := |v|;
    if n == 0 || !IsDigit(v[n - 1]) then None
    else
      var d := (v[n - 1] - '0') as nat;
      if n == 1 then Some(d)
      else
        var front := Unsigned(if v[n - 2] == '_' then v[..n - 2] else v[..n - 1]);
        if front.Some? then Some(10 * front.value + d) else None
  }

  lemma {:induction false} UnsignedOfDigits(v: Bytes)
    requires v != [] && AllDigits(v)
    ensures Unsigned(v) == Some(DecimalValue(v))
  {
    var n := |v|;
    assert IsDigit(v[n - 1]);
    if n > 1 {
      assert IsDigit(v[n - 2]);
      UnsignedOfDigits(v[..n - 1]);
    } else {
      assert v[..0] == [];
    }
  }

  lemma PrintedNumberReads(n: nat)
    ensures IntValue(Decimal(n)) == Some(n) && IsValue(Decimal(n))
  {
    var v := Decimal(n);
    assert IsDigit(v[0]);
    UnsignedOfDigits(v);
    DecimalRoundTrip(n);
    forall k | 0 <= k < |v| ensures IsValueChar(v[k]) { assert IsDigit(v[k]); }
  }
}
