/** UTF-8 as section 4 of RFC 3629 defines it, and the one cut the syslog handler makes in it. */
module Utf8 {
  import opened ByteText

  /** A Unicode scalar value: a code point that is not a surrogate. */
  type CodePoint = c: int | 0 <= c < 0xD800 || 0xE000 <= c < 0x110000
  type Text = seq<CodePoint>

  /** Six bits to a byte after the first; `b`, `a` and `e` are what is left of `c` after dropping 6, 12 and 18 bits. */
  function EncodeChar(c: CodePoint): (s: Bytes)
    ensures 1 <= |s| <= 4
  {
    var b := c / 0x40;
    var a := b / 0x40;
    var e := a / 0x40;
    if c < 0x80 then [c as char]
    else if c < 0x800 then [(0xC0 + b) as char, (0x80 + c % 0x40) as char]
    else if c < 0x10000 then [(0xE0 + a) as char, (0x80 + b % 0x40) as char, (0x80 + c % 0x40) as char]
    else [(0xF0 + e) as char, (0x80 + a % 0x40) as char, (0x80 + b % 0x40) as char, (0x80 + c % 0x40) as char]
  }

  function Encode(t: Text): Bytes {
    if t == [] then [] else EncodeChar(t[0]) + Encode(t[1..])
  }

  predicate In(c: char, lo: int, hi: int) { lo <= c as int <= hi }

  predicate Tails(s: Bytes, from: nat, to: nat)
    requires to <= |s|
  {
    forall k :: from <= k < to ==> In(s[k], 0x80, 0xBF)
  }

  /** Length of the well-formed character at the head of `s`, or 0 when there is none (which covers a character
      that `s` ends in the middle of). */
  function Lead(s: Bytes): (n: nat)
    ensures n <= 4 && n <= |s|
  {
    if |s| >= 1 && In(s[0], 0x00, 0x7F) then 1
    else if |s| >= 2 && In(s[0], 0xC2, 0xDF) && Tails(s, 1, 2) then 2
    else if |s| >= 3 && In(s[0], 0xE0, 0xEF) && Tails(s, 1, 3)
            && (s[0] as int == 0xE0 ==> s[1] as int >= 0xA0)
            && (s[0] as int == 0xED ==> s[1] as int <= 0x9F) then 3
    else if |s| >= 4 && In(s[0], 0xF0, 0xF4) && Tails(s, 1, 4)
            && (s[0] as int == 0xF0 ==> s[1] as int >= 0x90)
            && (s[0] as int == 0xF4 ==> s[1] as int <= 0x8F) then 4
    else 0
  }

  /** Where a strict decoder stops: the start of the first ill-formed character, or the end of the string. */
  function ErrorStart(s: Bytes): (e: nat)
    ensures e <= |s|
    decreases |s|
  {
    var n := Lead(s);
    if n == 0 then 0 else n + ErrorStart(s[n..])
  }

  predicate Valid(s: Bytes) { ErrorStart(s) == |s| }

  /** What a strict decoder reads at the head of `s`. */
  function DecodeChar(s: Bytes): (c: CodePoint)
    requires Lead(s) > 0
  {
    var n := Lead(s);
    if n == 1 then s[0] as int
    else if n == 2 then (s[0] as int - 0xC0) * 0x40 + (s[1] as int - 0x80)
    else if n == 3 then (s[0] as int - 0xE0) * 0x1000 + (s[1] as int - 0x80) * 0x40 + (s[2] as int - 0x80)
    else (s[0] as int - 0xF0) * 0x40000 + (s[1] as int - 0x80) * 0x1000 + (s[2] as int - 0x80) * 0x40
         + (s[3] as int - 0x80)
  }

  function Decode(s: Bytes): Text
    requires Valid(s)
    decreases |s|
  {
    if s == [] then [] else [DecodeChar(s)] + Decode(s[Lead(s)..])
  }

  /** The head character of `a` is read the same whatever follows it. */
  lemma LeadOfConcat(a: Bytes, b: Bytes)
    requires Lead(a) > 0
    ensures Lead(a + b) == Lead(a) && DecodeChar(a + b) == DecodeChar(a)
  {
    assert forall k :: 0 <= k < |a| ==> (a + b)[k] == a[k];
  }

  lemma EncodeCharLead(c: CodePoint)
    ensures Lead(EncodeChar(c)) == |EncodeChar(c)| && DecodeChar(EncodeChar(c)) == c
  {
    if c < 0x80 {
      assert EncodeChar(c)[0] as int == c;
    } else if c < 0x800 {
      assert EncodeChar(c)[0] as int == 0xC0 + c / 0x40 && EncodeChar(c)[1] as int == 0x80 + c % 0x40;
    } else {
      EncodeLongCharLead(c);
    }
  }

  lemma EncodeLongCharLead(c: CodePoint)
    requires c >= 0x800
    ensures Lead(EncodeChar(c)) == |EncodeChar(c)| && DecodeChar(EncodeChar(c)) == c
  {
    hide Lead, DecodeChar;
    var s := EncodeChar(c);
    var b := c / 0x40;
    var a := b / 0x40;
    var e := a / 0x40;
    if c < 0x10000 {
      assert s[0] as int == 0xE0 + a && s[1] as int == 0x80 + b % 0x40 && s[2] as int == 0x80 + c % 0x40;
      ThreeBytes(s, a, b % 0x40, c % 0x40);
    } else {
      assert s[0] as int == 0xF0 + e && s[1] as int == 0x80 + a % 0x40;
      assert s[2] as int == 0x80 + b % 0x40 && s[3] as int == 0x80 + c % 0x40;
      FourBytes(s, e, a % 0x40, b % 0x40, c % 0x40);
    }
  }

  lemma ThreeBytes(s: Bytes, a: nat, b: nat, c: nat)
    requires |s| == 3 && s[0] as int == 0xE0 + a && s[1] as int == 0x80 + b && s[2] as int == 0x80 + c
    requires a < 0x10 && b < 0x40 && c < 0x40 && (a == 0 ==> b >= 0x20) && (a == 0xD ==> b < 0x20)
    ensures Lead(s) == 3 && DecodeChar(s) == (a * 0x40 + b) * 0x40 + c
  {
  }

  lemma FourBytes(s: Bytes, e: nat, a: nat, b: nat, c: nat)
    requires |s| == 4 && s[0] as int == 0xF0 + e && s[1] as int == 0x80 + a
    requires s[2] as int == 0x80 + b && s[3] as int == 0x80 + c
    requires e < 5 && a < 0x40 && b < 0x40 && c < 0x40 && (e == 0 ==> a >= 0x10) && (e == 4 ==> a < 0x10)
    ensures Lead(s) == 4 && DecodeChar(s) == ((e * 0x40 + a) * 0x40 + b) * 0x40 + c
  {
  }

  /** Encoding is well formed and decoding undoes it. */
  lemma {:induction false} EncodeRoundTrip(t: Text)
    ensures Valid(Encode(t)) && Decode(Encode(t)) == t
  {
    if t != [] {
      EncodeCharLead(t[0]);
      LeadOfConcat(EncodeChar(t[0]), Encode(t[1..]));
      EncodeRoundTrip(t[1..]);
      assert Encode(t)[|EncodeChar(t[0])|..] == Encode(t[1..]);
    }
  }

  lemma DivMod(a: nat, b: nat)
    requires b < 0x40
    ensures (a * 0x40 + b) / 0x40 == a && (a * 0x40 + b) % 0x40 == b
  {
  }

  lemma DecodedCharEncodes(s: Bytes)
    requires Lead(s) > 0
    ensures EncodeChar(DecodeChar(s)) == s[..Lead(s)]
  {
    var n, c := Lead(s), DecodeChar(s);
    if n == 2 {
      DivMod(s[0] as int - 0xC0, s[1] as int - 0x80);
    } else if n == 3 {
      var a, b := s[0] as int - 0xE0, s[1] as int - 0x80;
      assert c == (a * 0x40 + b) * 0x40 + (s[2] as int - 0x80);
      DivMod(a * 0x40 + b, s[2] as int - 0x80);
      DivMod(a, b);
    } else if n == 4 {
      var e, a, b := s[0] as int - 0xF0, s[1] as int - 0x80, s[2] as int - 0x80;
      assert c == ((e * 0x40 + a) * 0x40 + b) * 0x40 + (s[3] as int - 0x80);
      DivMod((e * 0x40 + a) * 0x40 + b, s[3] as int - 0x80);
      DivMod(e * 0x40 + a, b);
      DivMod(e, a);
    }
  }

  /** What a strict decoder accepts is just what encoding prints. */
  lemma {:induction false} DecodeRoundTrip(s: Bytes)
    requires Valid(s)
    ensures Encode(Decode(s)) == s
    decreases |s|
  {
    hide Lead, EncodeChar, DecodeChar;
    if s != [] {
      DecodedCharEncodes(s);
      DecodeRoundTrip(s[Lead(s)..]);
      assert Decode(s)[1..] == Decode(s[Lead(s)..]);
    }
  }

  /** Whether a character ends at a cut depends only on the bytes before the cut. */
  lemma LeadOfPrefix(s: Bytes, k: nat)
    requires k <= |s| && Lead(s) > 0
    ensures Lead(s[..k]) == if Lead(s) <= k then Lead(s) else 0
  {
  }

  /** A strict decoder run on a prefix of valid text stops at the last character boundary of that prefix. */
  lemma {:induction false} ErrorStartOfPrefix(s: Bytes, k: nat)
    requires Valid(s) && k <= |s|
    ensures
      var e := ErrorStart(s[..k]);
      && e <= k < e + 4
      && Valid(s[..e]) && Valid(s[e..])
      && (Valid(s[..k]) <==> e == k)
      && (s != [] ==> (e > 0 <==> Lead(s) <= k))
    decreases |s|
  {
    hide Lead;
    if s != [] {
      var n := Lead(s);
      LeadOfPrefix(s, k);
      if n <= k {
        assert s[..k][n..] == s[n..][..k - n];
        ErrorStartOfPrefix(s[n..], k - n);
        var e := ErrorStart(s[n..][..k - n]);
        LeadOfPrefix(s, n + e);
        assert s[..n + e][n..] == s[n..n + e] == s[n..][..e];
        assert s[n + e..] == s[n..][e..];
      } else {
        assert s[..0] == [] && s[0..] == s;
      }
    } else {
      assert s[..k] == s;
    }
  }

  /** Any character boundary of a prefix is at or before the place where the decoder stops. */
  lemma {:induction false} BoundaryAtMostErrorStart(s: Bytes, k: nat, j: nat)
    requires Valid(s) && j <= k <= |s| && Valid(s[..j])
    ensures j <= ErrorStart(s[..k])
    decreases |s|
  {
    hide Lead;
    if j > 0 {
      var n := Lead(s);
      LeadOfPrefix(s, k);
      LeadOfPrefix(s, j);
      assert s[..k][n..] == s[n..][..k - n];
      assert s[..j][n..] == s[n..][..j - n];
      BoundaryAtMostErrorStart(s[n..], k - n, j - n);
    }
  }

  lemma {:induction false} ValidConcat(a: Bytes, b: Bytes)
    requires Valid(a) && Valid(b)
    ensures Valid(a + b) && Decode(a + b) == Decode(a) + Decode(b)
    decreases |a|
  {
    hide Lead;
    if a == [] {
      assert a + b == b;
    } else {
      var n := Lead(a);
      LeadOfConcat(a, b);
      assert (a + b)[n..] == a[n..] + b;
      ValidConcat(a[n..], b);
    }
  }

  /** `s[:k]` for any integer `k`. */
  function Head(s: Bytes, k: int): Bytes {
    if k < 0 then (if |s| + k < 0 then [] else s[..|s| + k]) else if k > |s| then s else s[..k]
  }

  /** `s[k:]` for any integer `k`. */
  function Rest(s: Bytes, k: int): Bytes {
    if k < 0 then (if |s| + k < 0 then s else s[|s| + k..]) else if k > |s| then [] else s[k..]
  }

  datatype Slice = Slice(sliced: Bytes, remaining: Bytes)

  /** `_cleanly_slice_encoded_string`, for any limit: a negative one counts from the end, as Python slices do. */
  function CleanlySlice(s: Bytes, limit: int): (r: Slice)
    ensures r.sliced + r.remaining == s
  {
    var sliced, remaining := Head(s, limit), Rest(s, limit);
    if Valid(sliced) then Slice(sliced, remaining)
    else
      var e := ErrorStart(sliced);
      Slice(sliced[..e], sliced[e..] + remaining)
  }

  /** The slice of valid text is its longest prefix of whole characters within the limit, and it is empty exactly
      when the first character does not fit. */
  lemma CleanlySliceLongest(s: Bytes, limit: nat)
    requires Valid(s)
    ensures
      var r := CleanlySlice(s, limit);
      && |r.sliced| <= limit && Valid(r.sliced) && Valid(r.remaining)
      && (forall j :: 0 <= j <= |s| && j <= limit && Valid(s[..j]) ==> j <= |r.sliced|)
      && (s != [] ==> (r.sliced != [] <==> Lead(s) <= limit))
  {
    hide Lead;
    var k := if limit > |s| then |s| else limit;
    assert Head(s, limit) == s[..k] && Rest(s, limit) == s[k..];
    ErrorStartOfPrefix(s, k);
    var e := ErrorStart(s[..k]);
    assert s[..k][..e] == s[..e] && s[..k][e..] + s[k..] == s[e..];
    forall j | 0 <= j <= |s| && j <= limit && Valid(s[..j])
      ensures j <= e
    {
      BoundaryAtMostErrorStart(s, k, j);
    }
  }

  /** With a negative limit the end of the string is what stays behind, so something always stays behind. */
  lemma CleanlySliceNegative(s: Bytes, limit: int)
    requires Valid(s) && limit < 0
    ensures
      var r := CleanlySlice(s, limit);
      && Valid(r.sliced) && Valid(r.remaining)
      && (s != [] ==> r.remaining != [])
      && |r.sliced| == if |s| + limit < 0 then 0 else ErrorStart(s[..|s| + limit])
  {
    hide Lead;
    if |s| + limit >= 0 {
      var k := |s| + limit;
      ErrorStartOfPrefix(s, k);
      var e := ErrorStart(s[..k]);
      assert s[..k][..e] == s[..e] && s[..k][e..] + s[k..] == s[e..];
    }
  }
}
