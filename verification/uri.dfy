/** `encodeURIComponent` (ECMA-262, section 19.2.6, URI handling functions):
    the unreserved characters pass through and every other character becomes
    the `%XX` escapes of its UTF-8 bytes, with upper-case hex digits. */
module Uri {
  import opened Wrappers

  type Byte = b: int | 0 <= b < 256

  /** `uriUnreserved` for `encodeURIComponent`: letters, digits and `-_.!~*'()`. */
  predicate Unreserved(c: char) {
    || ('a' <= c <= 'z') || ('A' <= c <= 'Z') || ('0' <= c <= '9')
    || c == '-' || c == '_' || c == '.' || c == '!' || c == '~'
    || c == '*' || c == '\'' || c == '(' || c == ')'
  }

  predicate IsHexDigit(c: char) {
    ('0' <= c <= '9') || ('A' <= c <= 'F')
  }

  function HexDigit(n: nat): (c: char)
    requires n < 16
    ensures IsHexDigit(c)
  {
    if n < 10 then ('0' as int + n) as char else ('A' as int + n - 10) as char
  }

  function HexValue(c: char): (n: nat)
    requires IsHexDigit(c)
    ensures n < 16
    ensures HexDigit(n) == c
  {
    if c <= '9' then c as int - '0' as int else c as int - 'A' as int + 10
  }

  /** The UTF-8 encoding of one Unicode scalar value. */
  function Utf8(c: char): (bytes: seq<Byte>)
    ensures 1 <= |bytes| <= 4
    ensures c as int < 0x80 ==> bytes == [c as int]
  {
    var cp := c as int;
    if cp < 0x80 then [cp]
    else if cp < 0x800 then [0xC0 + cp / 0x40, 0x80 + cp % 0x40]
    else if cp < 0x1_0000 then
      [0xE0 + cp / 0x1000, 0x80 + (cp / 0x40) % 0x40, 0x80 + cp % 0x40]
    else
      [0xF0 + cp / 0x4_0000, 0x80 + (cp / 0x1000) % 0x40, 0x80 + (cp / 0x40) % 0x40, 0x80 + cp % 0x40]
  }

  function Utf8String(s: string): (bytes: seq<Byte>)
    ensures |bytes| >= |s|
    decreases |s|
  {
    if |s| == 0 then [] else Utf8(s[0]) + Utf8String(s[1..])
  }

  /** `%XX` for one byte. */
  function Escape(b: Byte): (e: string)
    ensures |e| == 3 && e[0] == '%' && IsHexDigit(e[1]) && IsHexDigit(e[2])
  {
    ['%', HexDigit(b / 16), HexDigit(b % 16)]
  }

  function EscapeAll(bytes: seq<Byte>): (e: string)
    ensures |e| == 3 * |bytes|
    decreases |bytes|
  {
    if |bytes| == 0 then [] else Escape(bytes[0]) + EscapeAll(bytes[1..])
  }

  /** The characters an encoding may contain: unreserved ones, `%` and hex digits. */
  predicate Safe(c: char) {
    Unreserved(c) || c == '%'
  }

  /** The encoding of one character. */
  function EncodeChar(c: char): (e: string)
    ensures Unreserved(c) ==> e == [c]
    ensures !Unreserved(c) ==> |e| >= 3 && e[0] == '%' && e == EscapeAll(Utf8(c))
    ensures forall i :: 0 <= i < |e| ==> Safe(e[i])
  {
    if Unreserved(c) then [c] else EscapeSafe(Utf8(c)); EscapeAll(Utf8(c))
  }

  lemma {:induction false} EscapeSafe(bytes: seq<Byte>)
    ensures forall i :: 0 <= i < |EscapeAll(bytes)| ==> Safe(EscapeAll(bytes)[i])
    decreases |bytes|
  {
    if |bytes| > 0 {
      EscapeSafe(bytes[1..]);
      var e := Escape(bytes[0]);
      var rest := EscapeAll(bytes[1..]);
      forall i | 0 <= i < |e + rest|
        ensures Safe((e + rest)[i])
      {
        if i >= 3 {
          assert (e + rest)[i] == rest[i - 3];
        }
      }
    }
  }

  /** `encodeURIComponent(s)`. */
  function Encode(s: string): (e: string)
    ensures forall i :: 0 <= i < |e| ==> Safe(e[i])
    ensures |e| >= |s|
    decreases |s|
  {
    if |s| == 0 then ""
    else
      var head := EncodeChar(s[0]);
      var tail := Encode(s[1..]);
      assert forall i :: |head| <= i < |head + tail| ==> (head + tail)[i] == tail[i - |head|];
      head + tail
  }

  /** A one-character text: an unreserved character passes through, any
      other becomes the `%XX` escapes of its UTF-8 bytes. */
  lemma EncodeSingle(c: char)
    ensures Encode([c]) == (if Unreserved(c) then [c] else EscapeAll(Utf8(c)))
  {
    assert [c][1..] == [];
  }

  /** The encoding works character by character: encoding a concatenation
      concatenates the encodings. */
  lemma {:induction false} EncodeAppend(a: string, b: string)
    ensures Encode(a + b) == Encode(a) + Encode(b)
    decreases |a|
  {
    if |a| == 0 {
      assert a + b == b;
    } else {
      assert (a + b)[0] == a[0] && (a + b)[1..] == a[1..] + b;
      EncodeAppend(a[1..], b);
      assert Encode(a + b) == EncodeChar(a[0]) + (Encode(a[1..]) + Encode(b));
    }
  }

  /** The encoding never holds a character that delimits or ends a query
      parameter, so encoded user text cannot add or alter parameters. */
  lemma EncodeHasNoDelimiters(s: string)
    ensures forall i :: 0 <= i < |Encode(s)| ==>
      Encode(s)[i] !in {'&', '=', '?', '#', ' ', '+', '/'}
  {
  }

  /** Text made only of unreserved characters is left as it is. */
  lemma {:induction false} EncodeUnreserved(s: string)
    requires forall i :: 0 <= i < |s| ==> Unreserved(s[i])
    ensures Encode(s) == s
    decreases |s|
  {
    if |s| > 0 {
      EncodeUnreserved(s[1..]);
      assert s == [s[0]] + s[1..];
    }
  }

  /** Percent-decoding to bytes: `%XX` is one byte, any other ASCII character
      its own code; anything else is malformed. */
  function PercentDecode(e: string): (r: Option<seq<Byte>>)
    decreases |e|
  {
    if |e| == 0 then Some([])
    else if e[0] == '%' then
      if |e| >= 3 && IsHexDigit(e[1]) && IsHexDigit(e[2]) then
        match PercentDecode(e[3..])
        case Some(rest) => Some([HexValue(e[1]) * 16 + HexValue(e[2])] + rest)
        case None => None
      else None
    else if e[0] as int < 0x80 then
      match PercentDecode(e[1..])
      case Some(rest) => Some([e[0] as int] + rest)
      case None => None
    else None
  }

  lemma EscapeDecodes(b: Byte)
    ensures HexValue(HexDigit(b / 16)) * 16 + HexValue(HexDigit(b % 16)) == b
  {
    var hi := HexDigit(b / 16);
    var lo := HexDigit(b % 16);
    assert HexValue(hi) == b / 16 by { HexDigitInjective(HexValue(hi), b / 16); }
    assert HexValue(lo) == b % 16 by { HexDigitInjective(HexValue(lo), b % 16); }
  }

  lemma HexDigitInjective(m: nat, n: nat)
    requires m < 16 && n < 16 && HexDigit(m) == HexDigit(n)
    ensures m == n
  {
  }

  lemma {:induction false} DecodeEscapes(bytes: seq<Byte>, rest: string)
    ensures PercentDecode(EscapeAll(bytes) + rest) ==
      match PercentDecode(rest)
      case Some(r) => Some(bytes + r)
      case None => None
    decreases |bytes|
  {
    if |bytes| > 0 {
      var e := EscapeAll(bytes) + rest;
      var tail := EscapeAll(bytes[1..]) + rest;
      assert e == Escape(bytes[0]) + tail;
      assert e[3..] == tail;
      var x := Escape(bytes[0]);
      assert e[0] == '%' && e[1] == x[1] && e[2] == x[2];
      EscapeDecodes(bytes[0]);
      assert HexValue(e[1]) * 16 + HexValue(e[2]) == bytes[0];
      DecodeEscapes(bytes[1..], rest);
      match PercentDecode(rest) {
        case Some(r) =>
          assert PercentDecode(tail) == Some(bytes[1..] + r);
          assert bytes + r == [bytes[0]] + (bytes[1..] + r);
        case None =>
      }
    } else {
      assert EscapeAll(bytes) + rest == rest;
      match PercentDecode(rest) {
        case Some(r) => assert bytes + r == r;
        case None =>
      }
    }
  }

  /** Percent-decoding an encoding gives back the UTF-8 bytes of the text:
      nothing of the input is lost or reordered. */
  lemma {:induction false} DecodeEncode(s: string)
    ensures PercentDecode(Encode(s)) == Some(Utf8String(s))
    decreases |s|
  {
    if |s| > 0 {
      DecodeEncode(s[1..]);
      var tail := Encode(s[1..]);
      assert Encode(s) == EncodeChar(s[0]) + tail;
      if Unreserved(s[0]) {
        assert (EncodeChar(s[0]) + tail)[1..] == tail;
      } else {
        DecodeEscapes(Utf8(s[0]), tail);
      }
    }
  }

  // ---------------------------------------------------------------------
  // The encoding loses nothing
  // ---------------------------------------------------------------------

  /** How many bytes a UTF-8 sequence takes, read off its lead byte. */
  function SequenceLength(lead: Byte): nat {
    if lead < 0x80 then 1 else if lead < 0xE0 then 2 else if lead < 0xF0 then 3 else 4
  }

  /** The scalar value a UTF-8 sequence of one to four bytes stands for. */
  function DecodeScalar(bytes: seq<Byte>): int
    requires 1 <= |bytes| <= 4
  {
    if |bytes| == 1 then bytes[0] as int
    else if |bytes| == 2 then (bytes[0] as int - 0xC0) * 0x40 + (bytes[1] as int - 0x80)
    else if |bytes| == 3 then
      (bytes[0] as int - 0xE0) * 0x1000 + (bytes[1] as int - 0x80) * 0x40 + (bytes[2] as int - 0x80)
    else
      (bytes[0] as int - 0xF0) * 0x4_0000 + (bytes[1] as int - 0x80) * 0x1000 + (bytes[2] as int - 0x80) * 0x40 + (bytes[3] as int - 0x80)
  }

  /** Every character's UTF-8 sequence announces its own length in its lead
      byte and decodes back to the character. */
  lemma Utf8Decodes(c: char)
    ensures SequenceLength(Utf8(c)[0]) == |Utf8(c)|
    ensures DecodeScalar(Utf8(c)) == c as int
  {
    var cp := c as int;
    if cp >= 0x1_0000 {
      assert cp == (cp / 0x4_0000) * 0x4_0000 + ((cp / 0x1000) % 0x40) * 0x1000 + ((cp / 0x40) % 0x40) * 0x40 + cp % 0x40;
    } else if cp >= 0x800 {
      assert cp == (cp / 0x1000) * 0x1000 + ((cp / 0x40) % 0x40) * 0x40 + cp % 0x40;
    }
  }

  /** Distinct texts have distinct UTF-8 encodings. */
  lemma {:induction false} Utf8StringInjective(s: string, t: string)
    requires Utf8String(s) == Utf8String(t)
    ensures s == t
    decreases |s|
  {
    if |s| > 0 && |t| > 0 {
      var u := Utf8String(s);
      var a, b := Utf8(s[0]), Utf8(t[0]);
      assert u == a + Utf8String(s[1..]) && u == b + Utf8String(t[1..]);
      assert u[0] == a[0] && u[0] == b[0];
      Utf8Decodes(s[0]);
      Utf8Decodes(t[0]);
      assert a == u[..|a|] && b == u[..|b|];
      assert s[0] == t[0];
      assert Utf8String(s[1..]) == u[|a|..] == Utf8String(t[1..]);
      Utf8StringInjective(s[1..], t[1..]);
      assert s == [s[0]] + s[1..] && t == [t[0]] + t[1..];
    }
  }

  /** Distinct search texts give distinct encodings, so the query parameter
      identifies the text the user typed. */
  lemma EncodeInjective(s: string, t: string)
    requires Encode(s) == Encode(t)
    ensures s == t
  {
    DecodeEncode(s);
    DecodeEncode(t);
    Utf8StringInjective(s, t);
  }
}
