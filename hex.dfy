/**
 * `encodeHexLowerCase`: the base 16 encoding of section 8 of RFC 4648 with
 * the lower-case alphabet, two characters per byte, high nibble first. The
 * decoder is its partner: it accepts exactly the encoder's outputs.
 */
module Hex {
  import opened Wrappers

  type Byte = x: int | 0 <= x < 256

  predicate IsLowerHexDigit(c: char) { '0' <= c <= '9' || 'a' <= c <= 'f' }

  predicate IsLowerHex(s: string) { forall i :: 0 <= i < |s| ==> IsLowerHexDigit(s[i]) }

  /** The character for a nibble. */
  function HexDigit(d: int): (c: char)
    requires 0 <= d < 16
    ensures IsLowerHexDigit(c)
  {
    if d < 10 then (d + '0' as int) as char else (d - 10 + 'a' as int) as char
  }

  /** The nibble for a character, if it is a lower-case hex digit. */
  function NibbleOf(c: char): (r: Option<int>)
    ensures r.Some? <==> IsLowerHexDigit(c)
    ensures r.Some? ==> 0 <= r.value < 16 && HexDigit(r.value) == c
  {
    if '0' <= c <= '9' then Some(c as int - '0' as int)
    else if 'a' <= c <= 'f' then Some(c as int - 'a' as int + 10)
    else None
  }

  lemma NibbleOfHexDigit(d: int)
    requires 0 <= d < 16
    ensures NibbleOf(HexDigit(d)) == Some(d)
  {
  }

  function EncodeHexLowerCase(data: seq<Byte>): (s: string)
    ensures |s| == 2 * |data|
    ensures IsLowerHex(s)
  {
    if data == [] then ""
    else [HexDigit(data[0] / 16), HexDigit(data[0] % 16)] + EncodeHexLowerCase(data[1..])
  }

  /** The byte whose high and low nibbles are `hi` and `lo`. */
  function ByteOf(hi: int, lo: int): (b: Byte)
    requires 0 <= hi < 16 && 0 <= lo < 16
    ensures b / 16 == hi && b % 16 == lo
  {
    16 * hi + lo
  }

  lemma ByteOfNibbles(b: Byte)
    ensures ByteOf(b / 16, b % 16) == b
  {
  }

  function DecodeHexLowerCase(s: string): Option<seq<Byte>>
  {
    if |s| == 0 then Some([])
    else if |s| == 1 || NibbleOf(s[0]).None? || NibbleOf(s[1]).None? then None
    else
      match DecodeHexLowerCase(s[2..])
      case None => None
      case Some(rest) => Some([ByteOf(NibbleOf(s[0]).value, NibbleOf(s[1]).value)] + rest)
  }

  /** Decoding an encoding gives the bytes back. */
  lemma {:induction false} DecodeEncode(data: seq<Byte>)
    ensures DecodeHexLowerCase(EncodeHexLowerCase(data)) == Some(data)
  {
    if data != [] {
      var s := EncodeHexLowerCase(data);
      var hi, lo := data[0] / 16, data[0] % 16;
      assert s[0] == HexDigit(hi) && s[1] == HexDigit(lo);
      assert s[2..] == EncodeHexLowerCase(data[1..]);
      NibbleOfHexDigit(hi);
      NibbleOfHexDigit(lo);
      DecodeEncode(data[1..]);
      ByteOfNibbles(data[0]);
      assert data == [data[0]] + data[1..];
    }
  }

  /** Whatever the decoder accepts is the encoding of what it returns. */
  lemma {:induction false} EncodeDecode(s: string)
    requires DecodeHexLowerCase(s).Some?
    ensures EncodeHexLowerCase(DecodeHexLowerCase(s).value) == s
  {
    if |s| >= 2 {
      var hi, lo := NibbleOf(s[0]).value, NibbleOf(s[1]).value;
      var data := DecodeHexLowerCase(s).value;
      assert data[0] / 16 == hi && data[0] % 16 == lo;
      assert data[1..] == DecodeHexLowerCase(s[2..]).value;
      EncodeDecode(s[2..]);
      assert s == [s[0], s[1]] + s[2..];
    }
  }

  /** The decoder accepts exactly the even-length lower-case hex strings. */
  lemma {:induction false} DecodeAccepts(s: string)
    ensures DecodeHexLowerCase(s).Some? <==> |s| % 2 == 0 && IsLowerHex(s)
  {
    if |s| >= 2 {
      DecodeAccepts(s[2..]);
      LowerHexSplit(s);
      assert |s| % 2 == |s[2..]| % 2;
    } else if |s| == 1 {
      assert !(|s| % 2 == 0);
    }
  }

  lemma LowerHexSplit(s: string)
    requires |s| >= 2
    ensures IsLowerHex(s) <==> IsLowerHexDigit(s[0]) && IsLowerHexDigit(s[1]) && IsLowerHex(s[2..])
  {
    if IsLowerHexDigit(s[0]) && IsLowerHexDigit(s[1]) && IsLowerHex(s[2..]) {
      forall i | 0 <= i < |s| ensures IsLowerHexDigit(s[i]) {
        if i >= 2 { assert s[i] == s[2..][i - 2]; }
      }
    }
  }
}
