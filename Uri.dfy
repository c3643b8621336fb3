/** `encodeURIComponent` and the decoding the server's query-string parser applies to each
    key and value (`+` read as a space, then `decodeURIComponent`, and the text left as it
    was when that fails), with the UTF-8 encoding of code points both rely on. */
module Uri {
  import opened Text

  type Byte = b: int | 0 <= b < 256

  /** The characters `encodeURIComponent` leaves alone. */
  predicate Unreserved(c: char) {
    || ('A' <= c <= 'Z') || ('a' <= c <= 'z') || ('0' <= c <= '9')
    || c == '-' || c == '_' || c == '.' || c == '!' || c == '~' || c == '*' || c == '\'' || c == '(' || c == ')'
  }

  /** An upper-case hexadecimal digit. */
  function HexDigit(d: int): (c: char)
    requires 0 <= d < 16
    ensures Unreserved(c)
  {
    if d < 10 then ('0' as int + d) as char else ('A' as int + d - 10) as char
  }

  /** The value of a hexadecimal digit of either case. */
  function HexValue(c: char): (r: Option<int>)
    ensures r.Some? ==> 0 <= r.value < 16
  {
    if '0' <= c <= '9' then Some(c as int - '0' as int)
    else if 'A' <= c <= 'F' then Some(c as int - 'A' as int + 10)
    else if 'a' <= c <= 'f' then Some(c as int - 'a' as int + 10)
    else None
  }

  lemma HexRoundTrip(d: int)
    requires 0 <= d < 16
    ensures HexValue(HexDigit(d)) == Some(d)
  {
  }

  /** The UTF-8 bytes of a code point: one to four, by the size of the code point. */
  function Utf8(c: char): (r: seq<Byte>)
    ensures 1 <= |r| <= 4
    ensures (|r| == 1) == (c as int < 0x80)
  {
    var cp := c as int;
    if cp < 0x80 then [cp]
    else if cp < 0x800 then [0xC0 + cp / 64, 0x80 + cp % 64]
    else if cp < 0x10000 then [0xE0 + cp / 4096, 0x80 + cp / 64 % 64, 0x80 + cp % 64]
    else [0xF0 + cp / 262144, 0x80 + cp / 4096 % 64, 0x80 + cp / 64 % 64, 0x80 + cp % 64]
  }

  /** `%` and two hexadecimal digits for one byte. */
  function Percent(b: Byte): (r: string)
    ensures |r| == 3 && r[0] == '%'
  {
    ['%', HexDigit(b / 16), HexDigit(b % 16)]
  }

  function PercentAll(bs: seq<Byte>): (r: string)
    ensures |r| == 3 * |bs|
  {
    if bs == [] then [] else Percent(bs[0]) + PercentAll(bs[1..])
  }

  /** One character as `encodeURIComponent` writes it. */
  function EncodeChar(c: char): string {
    if Unreserved(c) then [c] else PercentAll(Utf8(c))
  }

  /** `encodeURIComponent(s)`. Dafny characters are Unicode scalar values, so the lone
      surrogates for which the JavaScript function throws do not arise. */
  function EncodeURIComponent(s: string): string {
    if s == [] then [] else EncodeChar(s[0]) + EncodeURIComponent(s[1..])
  }

  /** The byte written as `%XX` at position `i` of `s`, if one is. */
  function ByteAt(s: string, i: nat): Option<Byte> {
    if i + 3 <= |s| && s[i] == '%' && HexValue(s[i + 1]).Some? && HexValue(s[i + 2]).Some? then
      Some(HexValue(s[i + 1]).value * 16 + HexValue(s[i + 2]).value)
    else None
  }

  /** How many bytes a UTF-8 sequence has, read from its first byte; 0 for a byte that
      cannot start one. */
  function SequenceLength(b: Byte): int {
    if b < 0x80 then 1
    else if 0xC0 <= b < 0xE0 then 2
    else if 0xE0 <= b < 0xF0 then 3
    else if 0xF0 <= b < 0xF8 then 4
    else 0
  }

  predicate Continuation(b: Option<Byte>) {
    b.Some? && 0x80 <= b.value < 0xC0
  }

  /** The code point of the `n`-byte sequence written from the start of `s`, whose first byte
      is `b`; `None` for a bad continuation byte, an overlong form, a surrogate, or a value
      past U+10FFFF. */
  function DecodeSequence(s: string, b: Byte, n: int): Option<char>
    requires 1 <= n <= 4
  {
    if n == 1 then
      Some(b as char)
    else if n == 2 then
      var b2 := ByteAt(s, 3);
      if !Continuation(b2) then None
      else
        var cp := (b - 0xC0) * 64 + (b2.value - 0x80);
        if cp < 0x80 || cp >= 0x800 then None else Some(cp as char)
    else if n == 3 then
      var b2 := ByteAt(s, 3);
      var b3 := ByteAt(s, 6);
      if !Continuation(b2) || !Continuation(b3) then None
      else
        var cp := (b - 0xE0) * 4096 + (b2.value - 0x80) * 64 + (b3.value - 0x80);
        if cp < 0x800 || cp >= 0x10000 || (0xD800 <= cp < 0xE000) then None else Some(cp as char)
    else
      var b2 := ByteAt(s, 3);
      var b3 := ByteAt(s, 6);
      var b4 := ByteAt(s, 9);
      if !Continuation(b2) || !Continuation(b3) || !Continuation(b4) then None
      else
        var cp := (b - 0xF0) * 262144 + (b2.value - 0x80) * 4096 + (b3.value - 0x80) * 64 + (b4.value - 0x80);
        if cp < 0x10000 || cp >= 0x110000 then None else Some(cp as char)
  }

  function Prepend(c: char, rest: Option<string>): Option<string> {
    if rest.None? then None else Some([c] + rest.value)
  }

  /** `decodeURIComponent(s)`; `None` where it throws `URIError`. */
  function DecodeURIComponent(s: string): Option<string>
    decreases |s|
  {
    if s == [] then Some([])
    else if s[0] != '%' then Prepend(s[0], DecodeURIComponent(s[1..]))
    else
      match ByteAt(s, 0)
      case None => None
      case Some(b) =>
        var n := SequenceLength(b);
        if n == 0 || |s| < 3 * n then None
        else
          match DecodeSequence(s, b, n)
          case None => None
          case Some(c) => Prepend(c, DecodeURIComponent(s[3 * n..]))
  }

  /** Every `+` read as a space. */
  function PlusToSpace(s: string): (r: string)
    ensures |r| == |s|
    ensures forall i :: 0 <= i < |s| ==> r[i] == (if s[i] == '+' then ' ' else s[i])
  {
    seq(|s|, i requires 0 <= i < |s| => if s[i] == '+' then ' ' else s[i])
  }

  /** How the query-string parser decodes a key or a value. */
  function QueryDecode(s: string): string {
    var t := PlusToSpace(s);
    match DecodeURIComponent(t)
    case Some(d) => d
    case None => t
  }

  // ----- Properties of the encoding -----

  /** The encoding writes only unreserved characters and `%`: never `&`, `=`, `+`, `,` or
      `#`, so an encoded value stays one value of the query string. */
  lemma {:induction false} EncodedCharacters(s: string)
    ensures forall i :: 0 <= i < |EncodeURIComponent(s)| ==>
              Unreserved(EncodeURIComponent(s)[i]) || EncodeURIComponent(s)[i] == '%'
  {
    if s != [] {
      EncodedCharacters(s[1..]);
      var e := EncodeChar(s[0]);
      if !Unreserved(s[0]) {
        PercentAllCharacters(Utf8(s[0]));
      }
      var r := EncodeURIComponent(s);
      assert r == e + EncodeURIComponent(s[1..]);
      forall i | 0 <= i < |r|
        ensures Unreserved(r[i]) || r[i] == '%'
      {
        if i >= |e| {
          assert r[i] == EncodeURIComponent(s[1..])[i - |e|];
        }
      }
    }
  }

  lemma {:induction false} PercentAllCharacters(bs: seq<Byte>)
    ensures forall i :: 0 <= i < |PercentAll(bs)| ==> Unreserved(PercentAll(bs)[i]) || PercentAll(bs)[i] == '%'
  {
    if bs != [] {
      PercentAllCharacters(bs[1..]);
      var r := PercentAll(bs);
      forall i | 0 <= i < |r|
        ensures Unreserved(r[i]) || r[i] == '%'
      {
        if i >= 3 {
          assert r[i] == PercentAll(bs[1..])[i - 3];
        }
      }
    }
  }

  /** A `%XX` written after other text is found at the same place, moved by that text. */
  lemma ByteAtShift(x: string, y: string, i: nat)
    ensures ByteAt(x + y, |x| + i) == ByteAt(y, i)
  {
    if i + 3 <= |y| {
      assert (x + y)[|x| + i] == y[i] && (x + y)[|x| + i + 1] == y[i + 1] && (x + y)[|x| + i + 2] == y[i + 2];
    }
  }

  lemma PercentReadBack(b: Byte, y: string)
    ensures ByteAt(Percent(b) + y, 0) == Some(b)
  {
    HexRoundTrip(b / 16);
    HexRoundTrip(b % 16);
  }

  /** The `k`-th byte of a percent-encoded run is read back at position `3 * k`. */
  lemma {:induction false} PercentAllReadBack(bs: seq<Byte>, rest: string, k: nat)
    requires k < |bs|
    ensures ByteAt(PercentAll(bs) + rest, 3 * k) == Some(bs[k])
  {
    assert PercentAll(bs) + rest == Percent(bs[0]) + (PercentAll(bs[1..]) + rest);
    if k == 0 {
      PercentReadBack(bs[0], PercentAll(bs[1..]) + rest);
    } else {
      PercentAllReadBack(bs[1..], rest, k - 1);
      ByteAtShift(Percent(bs[0]), PercentAll(bs[1..]) + rest, 3 * (k - 1));
    }
  }

  lemma DecodeTwo(c: char, s: string)
    requires 0x80 <= c as int < 0x800
    requires ByteAt(s, 3) == Some(0x80 + c as int % 64)
    ensures DecodeSequence(s, 0xC0 + c as int / 64, 2) == Some(c)
  {
  }

  /** A code point is its four six-bit groups put back together. */
  lemma SixBitGroups(cp: nat)
    ensures cp / 262144 * 262144 + cp / 4096 % 64 * 4096 + cp / 64 % 64 * 64 + cp % 64 == cp
  {
    var a, b, c, d := cp / 262144, cp / 4096 % 64, cp / 64 % 64, cp % 64;
    assert cp / 4096 == a * 64 + b;
    assert cp / 64 == (a * 64 + b) * 64 + c;
  }

  lemma DecodeThree(c: char, s: string)
    requires 0x800 <= c as int < 0x10000
    requires ByteAt(s, 3) == Some(0x80 + c as int / 64 % 64)
    requires ByteAt(s, 6) == Some(0x80 + c as int % 64)
    ensures DecodeSequence(s, 0xE0 + c as int / 4096, 3) == Some(c)
  {
    var cp := c as int;
    assert cp / 4096 * 4096 + cp / 64 % 64 * 64 + cp % 64 == cp by {
      assert cp / 64 == cp / 4096 * 64 + cp / 64 % 64;
    }
  }

  lemma DecodeFour(c: char, s: string)
    requires 0x10000 <= c as int
    requires ByteAt(s, 3) == Some(0x80 + c as int / 4096 % 64)
    requires ByteAt(s, 6) == Some(0x80 + c as int / 64 % 64)
    requires ByteAt(s, 9) == Some(0x80 + c as int % 64)
    ensures DecodeSequence(s, 0xF0 + c as int / 262144, 4) == Some(c)
  {
    SixBitGroups(c as int);
  }

  /** The bytes of `Utf8(c)`, read back from `s`, decode to `c`. */
  lemma DecodeUtf8(c: char, s: string)
    requires forall k :: 0 <= k < |Utf8(c)| ==> ByteAt(s, 3 * k) == Some(Utf8(c)[k])
    ensures SequenceLength(Utf8(c)[0]) == |Utf8(c)|
    ensures DecodeSequence(s, Utf8(c)[0], |Utf8(c)|) == Some(c)
  {
    var bs := Utf8(c);
    var cp := c as int;
    if cp < 0x80 {
    } else if cp < 0x800 {
      assert ByteAt(s, 3 * 1) == Some(bs[1]);
      DecodeTwo(c, s);
    } else if cp < 0x10000 {
      assert ByteAt(s, 3 * 1) == Some(bs[1]);
      assert ByteAt(s, 3 * 2) == Some(bs[2]);
      DecodeThree(c, s);
    } else {
      assert ByteAt(s, 3 * 1) == Some(bs[1]);
      assert ByteAt(s, 3 * 2) == Some(bs[2]);
      assert ByteAt(s, 3 * 3) == Some(bs[3]);
      DecodeFour(c, s);
    }
  }

  /** Decoding undoes the encoding of one character, whatever follows it. */
  lemma DecodeEncodedChar(c: char, rest: string)
    ensures DecodeURIComponent(EncodeChar(c) + rest) == Prepend(c, DecodeURIComponent(rest))
  {
    var s := EncodeChar(c) + rest;
    if Unreserved(c) {
      assert s[1..] == rest;
    } else {
      var bs := Utf8(c);
      forall k | 0 <= k < |bs|
        ensures ByteAt(s, 3 * k) == Some(bs[k])
      {
        PercentAllReadBack(bs, rest, k);
      }
      DecodeUtf8(c, s);
      assert s[3 * |bs|..] == rest;
    }
  }

  /** `decodeURIComponent(encodeURIComponent(s)) == s`. */
  lemma {:induction false} DecodeEncode(s: string)
    ensures DecodeURIComponent(EncodeURIComponent(s)) == Some(s)
  {
    if s != [] {
      DecodeEncode(s[1..]);
      DecodeEncodedChar(s[0], EncodeURIComponent(s[1..]));
      assert [s[0]] + s[1..] == s;
    }
  }

  /** Text with neither `%` nor `+` comes through the query-string decoding unchanged. */
  lemma {:induction false} PlainDecodes(s: string)
    requires '%' !in s && '+' !in s
    ensures DecodeURIComponent(s) == Some(s)
    ensures QueryDecode(s) == s
  {
    if s != [] {
      PlainDecodes(s[1..]);
      assert [s[0]] + s[1..] == s;
    }
    assert PlusToSpace(s) == s;
  }

  /** The query-string decoding returns an encoded value exactly: the encoding writes no `+`,
      and decoding undoes it. */
  lemma QueryDecodeEncode(s: string)
    ensures QueryDecode(EncodeURIComponent(s)) == s
  {
    EncodedCharacters(s);
    var e := EncodeURIComponent(s);
    assert PlusToSpace(e) == e;
    DecodeEncode(s);
  }
}
