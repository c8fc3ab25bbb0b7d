/** `encodeURIComponent`, and the decoding that undoes it. */
module Uri {

  /** The characters `encodeURIComponent` leaves unescaped. */
  predicate Unreserved(c: char) {
    ('A' <= c <= 'Z') || ('a' <= c <= 'z') || ('0' <= c <= '9')
    || c == '-' || c == '_' || c == '.' || c == '!' || c == '~' || c == '*'
    || c == '\'' || c == '(' || c == ')'
  }

  type Byte = b: nat | b < 256

  function HexDigit(d: nat): char
    requires d < 16
  {
    if d < 10 then ('0' as int + d) as char else ('A' as int + d - 10) as char
  }

  /** `%XX` for one byte. */
  function Escape(b: Byte): (r: string)
    ensures |r| == 3 && r[0] == '%'
    ensures forall k :: 0 <= k < |r| ==> r[k] == '%' || Unreserved(r[k])
  {
    ['%', HexDigit(b / 16), HexDigit(b % 16)]
  }

  /** The UTF-8 bytes of one Unicode scalar value. */
  function Utf8(c: char): (bytes: seq<Byte>)
    ensures 1 <= |bytes| <= 4
  {
    var v := c as int;
    if v < 0x80 then [v]
    else if v < 0x800 then [0xC0 + v / 0x40, 0x80 + v % 0x40]
    else if v < 0x10000 then [0xE0 + v / 0x1000, 0x80 + (v / 0x40) % 0x40, 0x80 + v % 0x40]
    else [0xF0 + v / 0x40000, 0x80 + (v / 0x1000) % 0x40, 0x80 + (v / 0x40) % 0x40, 0x80 + v % 0x40]
  }

  function EscapeBytes(bytes: seq<Byte>): (r: string)
    ensures |r| == 3 * |bytes|
    ensures forall k :: 0 <= k < |r| ==> r[k] == '%' || Unreserved(r[k])
  {
    if bytes == [] then [] else Escape(bytes[0]) + EscapeBytes(bytes[1..])
  }

  /** `encodeURIComponent(s)`: unreserved characters are kept, every other
      character becomes the `%XX` escapes of its UTF-8 bytes. */
  function EncodeUriComponent(s: string): (r: string)
    ensures |r| >= |s|
    ensures forall k :: 0 <= k < |r| ==> r[k] == '%' || Unreserved(r[k])
    ensures (forall i :: 0 <= i < |s| ==> Unreserved(s[i])) ==> r == s
  {
    if s == [] then []
    else
      (if Unreserved(s[0]) then [s[0]] else EscapeBytes(Utf8(s[0])))
      + EncodeUriComponent(s[1..])
  }

  // ---------------------------------------------------------------- decoding

  /** The value of a hexadecimal digit, upper or lower case; -1 for any
      other character. */
  function HexValue(c: char): int {
    if '0' <= c <= '9' then c as int - '0' as int
    else if 'A' <= c <= 'F' then c as int - 'A' as int + 10
    else if 'a' <= c <= 'f' then c as int - 'a' as int + 10
    else -1
  }

  lemma HexValueOfDigit(d: nat)
    requires d < 16
    ensures HexValue(HexDigit(d)) == d
  {
  }

  /** The bytes an encoded component stands for: `%XX` is the byte `XX`,
      any other character stands for its own code. */
  function UnescapeBytes(r: string): seq<int>
  {
    if r == [] then []
    else if |r| >= 3 && r[0] == '%' && HexValue(r[1]) >= 0 && HexValue(r[2]) >= 0 then
      [16 * HexValue(r[1]) + HexValue(r[2])] + UnescapeBytes(r[3..])
    else [r[0] as int] + UnescapeBytes(r[1..])
  }

  /** How many bytes the UTF-8 sequence with this first byte has. */
  function SequenceLength(lead: int): nat {
    if lead < 0x80 then 1 else if lead < 0xE0 then 2 else if lead < 0xF0 then 3 else 4
  }

  /** The code point of one UTF-8 sequence. */
  function CodePoint(b: seq<int>): int
    requires 1 <= |b| <= 4
  {
    if |b| == 1 then b[0]
    else if |b| == 2 then (b[0] - 0xC0) * 0x40 + (b[1] - 0x80)
    else if |b| == 3 then (b[0] - 0xE0) * 0x1000 + (b[1] - 0x80) * 0x40 + (b[2] - 0x80)
    else (b[0] - 0xF0) * 0x40000 + (b[1] - 0x80) * 0x1000 + (b[2] - 0x80) * 0x40 + (b[3] - 0x80)
  }

  /** UTF-8 decoding: the first byte of each sequence gives its length; a
      sequence cut short by the end decodes as its first byte. */
  function Utf8Decode(b: seq<int>): seq<int>
  {
    if b == [] then []
    else
      var n := SequenceLength(b[0]);
      if |b| < n then [b[0]] + Utf8Decode(b[1..])
      else [CodePoint(b[..n])] + Utf8Decode(b[n..])
  }

  /** `decodeURIComponent`, as the code points of the decoded text. */
  function DecodeUriComponent(r: string): seq<int> {
    Utf8Decode(UnescapeBytes(r))
  }

  function CodePoints(s: string): (r: seq<int>)
    ensures |r| == |s| && forall i :: 0 <= i < |s| ==> r[i] == s[i] as int
  {
    seq(|s|, i requires 0 <= i < |s| => s[i] as int)
  }

  /** The UTF-8 bytes of a whole text. */
  function Utf8Bytes(s: string): seq<int> {
    if s == [] then [] else Utf8(s[0]) + Utf8Bytes(s[1..])
  }

  /** One escape unescapes to its byte. */
  lemma UnescapeOne(b: Byte, tail: string)
    ensures UnescapeBytes(Escape(b) + tail) == [b] + UnescapeBytes(tail)
  {
    var r := Escape(b) + tail;
    HexValueOfDigit(b / 16);
    HexValueOfDigit(b % 16);
    assert r[1] == HexDigit(b / 16) && r[2] == HexDigit(b % 16);
    assert r[3..] == tail;
  }

  lemma {:induction false} UnescapeEscapes(bytes: seq<Byte>, rest: string)
    ensures UnescapeBytes(EscapeBytes(bytes) + rest) == bytes + UnescapeBytes(rest)
  {
    if bytes != [] {
      var b, more := bytes[0], bytes[1..];
      var tail := EscapeBytes(more) + rest;
      var e := EscapeBytes(bytes);
      assert e == Escape(b) + EscapeBytes(more);
      assert e + rest == Escape(b) + tail;
      UnescapeOne(b, tail);
      UnescapeEscapes(more, rest);
      assert bytes == [b] + more;
    } else {
      assert EscapeBytes(bytes) + rest == rest;
    }
  }

  /** Unescaping an encoding gives the UTF-8 bytes of the text. */
  lemma {:induction false} UnescapeEncoding(s: string)
    ensures UnescapeBytes(EncodeUriComponent(s)) == Utf8Bytes(s)
  {
    if s != [] {
      var rest := EncodeUriComponent(s[1..]);
      UnescapeEncoding(s[1..]);
      if Unreserved(s[0]) {
        assert EncodeUriComponent(s) == [s[0]] + rest;
        assert ([s[0]] + rest)[1..] == rest;
      } else {
        UnescapeEscapes(Utf8(s[0]), rest);
      }
    }
  }

  lemma TwoBytes(v: int)
    requires 0x80 <= v < 0x800
    ensures 0xC0 <= 0xC0 + v / 0x40 < 0xE0
    ensures (v / 0x40) * 0x40 + v % 0x40 == v
  {
  }

  lemma ThreeBytes(v: int)
    requires 0x800 <= v < 0x10000
    ensures 0xE0 <= 0xE0 + v / 0x1000 < 0xF0
    ensures (v / 0x1000) * 0x1000 + ((v / 0x40) % 0x40) * 0x40 + v % 0x40 == v
  {
    var q := v / 0x40;
    assert q / 0x40 == v / 0x1000;
    assert q * 0x40 + v % 0x40 == v;
    assert (q / 0x40) * 0x40 + q % 0x40 == q;
  }

  lemma FourBytes(v: int)
    requires 0x10000 <= v < 0x110000
    ensures 0xF0 <= 0xF0 + v / 0x40000
    ensures (v / 0x40000) * 0x40000 + ((v / 0x1000) % 0x40) * 0x1000
      + ((v / 0x40) % 0x40) * 0x40 + v % 0x40 == v
  {
    var q := v / 0x40;
    var q2 := q / 0x40;
    assert q2 == v / 0x1000;
    assert q2 / 0x40 == v / 0x40000;
    assert q * 0x40 + v % 0x40 == v;
    assert q2 * 0x40 + q % 0x40 == q;
    assert (q2 / 0x40) * 0x40 + q2 % 0x40 == q2;
  }

  /** The first byte of a character's UTF-8 gives the length of the
      sequence, and the sequence gives back the code point. */
  lemma Utf8Sequence(c: char)
    ensures SequenceLength(Utf8(c)[0]) == |Utf8(c)|
    ensures CodePoint(Utf8(c)) == c as int
  {
    var v := c as int;
    if v < 0x80 {
    } else if v < 0x800 {
      TwoBytes(v);
    } else if v < 0x10000 {
      ThreeBytes(v);
    } else {
      FourBytes(v);
    }
  }

  /** Decoding the UTF-8 bytes of one character gives its code point. */
  lemma DecodeOne(c: char, rest: seq<int>)
    ensures Utf8Decode(Utf8(c) + rest) == [c as int] + Utf8Decode(rest)
  {
    var b := Utf8(c) + rest;
    var n := |Utf8(c)|;
    Utf8Sequence(c);
    assert b[0] == Utf8(c)[0];
    assert b[..n] == Utf8(c) && b[n..] == rest;
  }

  lemma {:induction false} DecodeBytes(s: string)
    ensures Utf8Decode(Utf8Bytes(s)) == CodePoints(s)
  {
    if s != [] {
      DecodeOne(s[0], Utf8Bytes(s[1..]));
      DecodeBytes(s[1..]);
    }
  }

  /** Decoding an encoded component gives back every character. */
  lemma DecodeEncode(s: string)
    ensures DecodeUriComponent(EncodeUriComponent(s)) == CodePoints(s)
  {
    UnescapeEncoding(s);
    DecodeBytes(s);
  }
}
