/** `encodeURIComponent` and `decodeURIComponent` as section 19.2.6 of
    ECMA-262 defines them, on strings of Unicode scalar values: the download
    route decodes its `url` query parameter with the second and writes the
    filename into `Content-Disposition` with the first (server.js). */
module UriComponent {
  import opened Wrappers

  /** Kept as they are by `encodeURIComponent`: letters, digits and
      `- _ . ! ~ * ' ( )`. */
  predicate IsUnreserved(c: char)
  {
    || 'a' <= c <= 'z' || 'A' <= c <= 'Z' || '0' <= c <= '9'
    || c == '-' || c == '_' || c == '.' || c == '!' || c == '~' || c == '*'
    || c == '\'' || c == '(' || c == ')'
  }

  const HexDigits: string := "0123456789ABCDEF"

  /** The value of one hexadecimal digit, in either case. */
  function HexValue(c: char): (r: Option<nat>)
    ensures r.Some? ==> r.value < 16
  {
    if '0' <= c <= '9' then Some(c as int - '0' as int)
    else if 'A' <= c <= 'F' then Some(c as int - 'A' as int + 10)
    else if 'a' <= c <= 'f' then Some(c as int - 'a' as int + 10)
    else None
  }

  /** Reading a digit back gives the value it was written for. */
  lemma HexDigitValue(d: nat)
    requires d < 16
    ensures HexValue(HexDigits[d]) == Some(d)
  {
    if d < 10 {
      assert HexDigits[d] == ('0' as int + d) as char;
    } else {
      assert HexDigits[d] == ('A' as int + d - 10) as char;
    }
  }

  /** `%XY` with upper-case digits, for one byte. */
  function Escape(b: nat): (r: string)
    requires b < 256
    ensures |r| == 3 && r[0] == '%' && r[1] in HexDigits && r[2] in HexDigits
  {
    ['%', HexDigits[b / 16], HexDigits[b % 16]]
  }

  function EscapeAll(bs: seq<nat>): (r: string)
    requires forall k :: 0 <= k < |bs| ==> bs[k] < 256
    ensures |r| == 3 * |bs|
  {
    if bs == [] then [] else Escape(bs[0]) + EscapeAll(bs[1..])
  }

  /** The UTF-8 encoding of a scalar value, one to four bytes. */
  function Utf8(c: char): (bs: seq<nat>)
    ensures 1 <= |bs| <= 4
    ensures forall k :: 0 <= k < |bs| ==> bs[k] < 256
    ensures |bs| == 1 <==> c as int < 0x80
  {
    var cp := c as int;
    if cp < 0x80 then [cp]
    else if cp < 0x800 then [0xC0 + cp / 64, 0x80 + cp % 64]
    else if cp < 0x10000 then [0xE0 + cp / 4096, 0x80 + (cp / 64) % 64, 0x80 + cp % 64]
    else [0xF0 + cp / 262144, 0x80 + (cp / 4096) % 64, 0x80 + (cp / 64) % 64, 0x80 + cp % 64]
  }

  function EncodeChar(c: char): (r: string)
    ensures IsUnreserved(c) ==> r == [c]
    ensures !IsUnreserved(c) ==> |r| >= 3 && r[0] == '%'
  {
    if IsUnreserved(c) then [c] else EscapeAll(Utf8(c))
  }

  /** `encodeURIComponent`: unreserved characters stay, every other character
      becomes the `%XY` escapes of its UTF-8 bytes. */
  function EncodeComponent(s: string): (r: string)
    ensures |r| >= |s|
    ensures forall k :: 0 <= k < |r| ==> IsUnreserved(r[k]) || r[k] == '%' || r[k] in HexDigits
    decreases |s|
  {
    if s == [] then []
    else
      var head := EncodeChar(s[0]);
      assert forall k :: 0 <= k < |head| ==> IsUnreserved(head[k]) || head[k] == '%' || head[k] in HexDigits
      by {
        if !IsUnreserved(s[0]) {
          EscapeAllAlphabet(Utf8(s[0]));
        }
      }
      head + EncodeComponent(s[1..])
  }

  lemma {:induction false} EscapeAllAlphabet(bs: seq<nat>)
    requires forall k :: 0 <= k < |bs| ==> bs[k] < 256
    ensures forall k :: 0 <= k < |EscapeAll(bs)| ==> EscapeAll(bs)[k] == '%' || EscapeAll(bs)[k] in HexDigits
    decreases |bs|
  {
    if bs != [] {
      EscapeAllAlphabet(bs[1..]);
      var r := EscapeAll(bs);
      assert r == Escape(bs[0]) + EscapeAll(bs[1..]);
      forall k | 3 <= k < |r|
        ensures r[k] == '%' || r[k] in HexDigits
      {
        assert r[k] == EscapeAll(bs[1..])[k - 3];
      }
    }
  }

  /** The byte written as `%XY` at the front of `s`, if there is one. */
  function EscapedByte(s: string): (r: Option<nat>)
    ensures r.Some? ==> r.value < 256 && 3 <= |s| && s[0] == '%'
  {
    if 3 <= |s| && s[0] == '%' && HexValue(s[1]).Some? && HexValue(s[2]).Some? then
      Some(16 * HexValue(s[1]).value + HexValue(s[2]).value)
    else None
  }

  /** `n` continuation bytes (`10xxxxxx`), each written as `%XY`, at the
      front of `s`. */
  function Continuations(s: string, n: nat): (r: Option<seq<nat>>)
    ensures r.Some? ==> |r.value| == n && 3 * n <= |s|
    ensures r.Some? ==> forall k :: 0 <= k < n ==> 0x80 <= r.value[k] < 0xC0
    decreases n
  {
    if n == 0 then Some([])
    else match EscapedByte(s)
      case None => None
      case Some(b) =>
        if 0x80 <= b < 0xC0 then
          match Continuations(s[3..], n - 1)
          case None => None
          case Some(rest) => Some([b] + rest)
        else None
  }

  /** The code point a lead byte's payload and its continuation bytes spell. */
  function Accumulate(acc: nat, conts: seq<nat>): nat
    requires forall k :: 0 <= k < |conts| ==> 0x80 <= conts[k] < 0xC0
    decreases |conts|
  {
    if conts == [] then acc else Accumulate(acc * 64 + (conts[0] - 0x80), conts[1..])
  }

  /** A code point that is a Unicode scalar value, hence a `char`. */
  predicate IsScalar(cp: int)
  {
    0 <= cp < 0xD800 || 0xE000 <= cp < 0x11_0000
  }

  /** What a lead byte `11..10xxxxx` announces: the length of the sequence,
      its payload bits, and the least code point that needs that length. */
  datatype LeadInfo = LeadInfo(length: nat, payload: nat, least: nat)

  function LeadByte(b: nat): (r: Option<LeadInfo>)
    ensures r.Some? ==> 2 <= r.value.length <= 4
    ensures r.None? <==> b < 0xC0 || b >= 0xF8
  {
    if 0xC0 <= b < 0xE0 then Some(LeadInfo(2, b - 0xC0, 0x80))
    else if 0xE0 <= b < 0xF0 then Some(LeadInfo(3, b - 0xE0, 0x800))
    else if 0xF0 <= b < 0xF8 then Some(LeadInfo(4, b - 0xF0, 0x1_0000))
    else None
  }

  /** One `%XY` escape sequence of `decodeURIComponent`, at the front of `s`:
      the character it spells and how many characters it spans. Stray
      continuation bytes, lead bytes of five or more, truncated or malformed
      sequences, overlong forms and surrogates are `None` (a `URIError`). */
  function DecodeUnit(s: string): (r: Option<(char, nat)>)
    ensures r.Some? ==> 3 <= r.value.1 <= |s|
  {
    match EscapedByte(s)
    case None => None
    case Some(b0) =>
      if b0 < 0x80 then Some((b0 as char, 3))
      else
        match LeadByte(b0)
        case None => None
        case Some(LeadInfo(n, lead, least)) =>
          match Continuations(s[3..], n - 1)
          case None => None
          case Some(conts) =>
            var cp := Accumulate(lead, conts);
            if least <= cp && IsScalar(cp) then Some((cp as char, 3 * n)) else None
  }

  /** `decodeURIComponent`: every escape sequence replaced by the character it
      spells; `None` where the function throws a `URIError`. */
  function DecodeComponent(s: string): (r: Option<string>)
    ensures '%' !in s ==> r == Some(s)
    ensures r.None? ==> '%' in s
    ensures r.Some? ==> |r.value| <= |s|
    decreases |s|
  {
    if s == [] then Some([])
    else if s[0] != '%' then
      match DecodeComponent(s[1..])
      case None => None
      case Some(rest) =>
        assert [s[0]] + s[1..] == s;
        Some([s[0]] + rest)
    else
      match DecodeUnit(s)
      case None => None
      case Some((c, len)) =>
        match DecodeComponent(s[len..])
        case None => None
        case Some(rest) => Some([c] + rest)
  }

  /** `Some(c :: rest)` when decoding the rest succeeds. */
  function Prepend(c: char, r: Option<string>): Option<string>
  {
    match r
    case None => None
    case Some(rest) => Some([c] + rest)
  }

  lemma ReadEscape(b: nat, t: string)
    requires b < 256
    ensures EscapedByte(Escape(b) + t) == Some(b)
  {
    var s := Escape(b) + t;
    var hi, lo := b / 16, b % 16;
    assert s[0] == '%' && s[1] == HexDigits[hi] && s[2] == HexDigits[lo];
    HexDigitValue(hi);
    HexDigitValue(lo);
    assert 16 * hi + lo == b;
  }

  /** Reading continuation bytes back from their escapes, whatever follows. */
  lemma {:induction false} ReadContinuations(bs: seq<nat>, t: string)
    requires forall k :: 0 <= k < |bs| ==> 0x80 <= bs[k] < 0xC0
    ensures Continuations(EscapeAll(bs) + t, |bs|) == Some(bs)
    decreases |bs|
  {
    if bs != [] {
      var rest := bs[1..];
      assert forall k :: 0 <= k < |rest| ==> 0x80 <= rest[k] < 0xC0 by {
        forall k | 0 <= k < |rest| ensures 0x80 <= rest[k] < 0xC0 {
          assert rest[k] == bs[k + 1];
        }
      }
      ReadFirstEscape(bs, t);
      ReadContinuations(rest, t);
      ContinuationsCons(EscapeAll(bs) + t, bs);
    }
  }

  /** One more continuation escape in front of a run already read. */
  lemma ContinuationsCons(s: string, bs: seq<nat>)
    requires bs != [] && 0x80 <= bs[0] < 0xC0 && EscapedByte(s) == Some(bs[0])
    requires 3 <= |s| && Continuations(s[3..], |bs| - 1) == Some(bs[1..])
    ensures Continuations(s, |bs|) == Some(bs)
  {
    assert [bs[0]] + bs[1..] == bs;
  }

  /** The first escape of `EscapeAll(bs)` reads back as the first byte, and
      the rest of the text starts with the escapes of the other bytes. */
  lemma ReadFirstEscape(bs: seq<nat>, t: string)
    requires bs != [] && forall k :: 0 <= k < |bs| ==> bs[k] < 256
    ensures EscapedByte(EscapeAll(bs) + t) == Some(bs[0])
    ensures (EscapeAll(bs) + t)[3..] == EscapeAll(bs[1..]) + t
  {
    var head, tail := Escape(bs[0]), EscapeAll(bs[1..]);
    assert EscapeAll(bs) == head + tail;
    Associative(head, tail, t);
    ReadEscape(bs[0], tail + t);
    assert (head + (tail + t))[3..] == tail + t;
  }

  lemma Associative(a: string, b: string, c: string)
    ensures (a + b) + c == a + (b + c)
  {
  }

  /** Peeling base-64 digits off a code point in two steps or in one. */
  lemma DivChain(x: nat)
    ensures (x / 64) / 64 == x / 4096
    ensures (x / 4096) / 64 == x / 262144
  {
    var q, r := x / 4096, x % 4096;
    assert x == 4096 * q + r;
    assert x / 64 == 64 * q + r / 64;
    var q2, r2 := x / 262144, x % 262144;
    assert x == 262144 * q2 + r2;
    assert x / 4096 == 64 * q2 + r2 / 4096;
  }

  /** The two-byte form: five payload bits in the lead byte, six in the
      continuation byte. */
  lemma Utf8Two(c: char)
    requires 0x80 <= c as int < 0x800
    ensures var bs := Utf8(c);
      && |bs| == 2 && 0xC0 <= bs[0] < 0xE0 && 0x80 <= bs[1] < 0xC0
      && Accumulate(bs[0] - 0xC0, bs[1..]) == c as int
  {
    var cp := c as int;
    var bs := Utf8(c);
    assert Accumulate(bs[0] - 0xC0, bs[1..]) == Accumulate((cp / 64) * 64 + cp % 64, []);
  }

  /** The three-byte form: four payload bits, then two groups of six. */
  lemma Utf8Three(c: char)
    requires 0x800 <= c as int < 0x1_0000
    ensures var bs := Utf8(c);
      && |bs| == 3 && 0xE0 <= bs[0] < 0xF0
      && (forall k :: 1 <= k < 3 ==> 0x80 <= bs[k] < 0xC0)
      && Accumulate(bs[0] - 0xE0, bs[1..]) == c as int
  {
    var cp := c as int;
    DivChain(cp);
    var bs := Utf8(c);
    var a1 := (cp / 4096) * 64 + (cp / 64) % 64;
    assert a1 == cp / 64;
    assert Accumulate(bs[0] - 0xE0, bs[1..]) == Accumulate(a1, bs[2..]);
    assert Accumulate(a1, bs[2..]) == Accumulate(a1 * 64 + cp % 64, []);
  }

  /** The four-byte form: three payload bits, then three groups of six. */
  lemma Utf8Four(c: char)
    requires 0x1_0000 <= c as int
    ensures var bs := Utf8(c);
      && |bs| == 4 && 0xF0 <= bs[0] < 0xF8
      && (forall k :: 1 <= k < 4 ==> 0x80 <= bs[k] < 0xC0)
      && Accumulate(bs[0] - 0xF0, bs[1..]) == c as int
  {
    var cp := c as int;
    DivChain(cp);
    var bs := Utf8(c);
    var a1 := (cp / 262144) * 64 + (cp / 4096) % 64;
    assert a1 == cp / 4096;
    var a2 := a1 * 64 + (cp / 64) % 64;
    assert a2 == cp / 64;
    assert Accumulate(bs[0] - 0xF0, bs[1..]) == Accumulate(a1, bs[2..]);
    assert Accumulate(a1, bs[2..]) == Accumulate(a2, bs[3..]);
    assert Accumulate(a2, bs[3..]) == Accumulate(a2 * 64 + cp % 64, []);
  }

  /** Decoding the escapes of one character's UTF-8 bytes yields that
      character. */
  lemma DecodeUnitOfChar(c: char, t: string)
    ensures var e := EscapeAll(Utf8(c));
      DecodeUnit(e + t) == Some((c, |e|))
  {
    var bs := Utf8(c);
    ReadFirstEscape(bs, t);
    if c as int >= 0x80 {
      DecodeMultiByte(c, t, EscapeAll(bs) + t);
    }
  }

  /** The lead byte of a multi-byte encoding announces its length, and its
      payload with the continuation bytes spells the code point. */
  lemma Utf8Lead(c: char)
    requires c as int >= 0x80
    ensures var bs := Utf8(c);
      && (forall k :: 1 <= k < |bs| ==> 0x80 <= bs[k] < 0xC0)
      && LeadByte(bs[0]).Some?
      && LeadByte(bs[0]).value.length == |bs|
      && LeadByte(bs[0]).value.least <= c as int
      && Accumulate(LeadByte(bs[0]).value.payload, bs[1..]) == c as int
  {
    var cp := c as int;
    if cp < 0x800 {
      Utf8Two(c);
    } else if cp < 0x1_0000 {
      Utf8Three(c);
    } else {
      Utf8Four(c);
    }
  }

  /** `DecodeUnit` on a well-formed multi-byte sequence. */
  lemma DecodeUnitOfSequence(s: string, b0: nat, conts: seq<nat>)
    requires EscapedByte(s) == Some(b0) && b0 >= 0x80 && LeadByte(b0).Some?
    requires Continuations(s[3..], LeadByte(b0).value.length - 1) == Some(conts)
    requires LeadByte(b0).value.least <= Accumulate(LeadByte(b0).value.payload, conts)
    requires IsScalar(Accumulate(LeadByte(b0).value.payload, conts))
    ensures DecodeUnit(s) == Some((Accumulate(LeadByte(b0).value.payload, conts) as char, 3 * LeadByte(b0).value.length))
  {
  }

  lemma DecodeMultiByte(c: char, t: string, s: string)
    requires c as int >= 0x80
    requires s == EscapeAll(Utf8(c)) + t
    requires EscapedByte(s) == Some(Utf8(c)[0])
    ensures DecodeUnit(s) == Some((c, 3 * |Utf8(c)|))
  {
    var bs := Utf8(c);
    Utf8Lead(c);
    ReadFirstEscape(bs, t);
    ReadContinuations(bs[1..], t);
    assert IsScalar(c as int);
    DecodeUnitOfSequence(s, bs[0], bs[1..]);
  }

  /** Decoding undoes the encoding of one character. */
  lemma DecodeEncodedChar(c: char, t: string)
    ensures DecodeComponent(EncodeChar(c) + t) == Prepend(c, DecodeComponent(t))
  {
    var s := EncodeChar(c) + t;
    if IsUnreserved(c) {
      assert s[0] == c && s[1..] == t;
    } else {
      DecodeUnitOfChar(c, t);
      assert s[|EncodeChar(c)|..] == t;
    }
  }

  /** `decodeURIComponent(encodeURIComponent(s))` gives back `s`. */
  lemma {:induction false} DecodeEncode(s: string)
    ensures DecodeComponent(EncodeComponent(s)) == Some(s)
    decreases |s|
  {
    if s != [] {
      DecodeEncode(s[1..]);
      DecodeEncodedChar(s[0], EncodeComponent(s[1..]));
      assert [s[0]] + s[1..] == s;
    }
  }
}
