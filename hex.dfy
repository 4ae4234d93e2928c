/**
 * Base16 encoding (section 8 of RFC 4648) with the lowercase alphabet, as
 * produced by Node's `Buffer.toString("hex")`: each byte becomes two characters,
 * high nibble first.
 */
module Hex {
  import opened Wrappers

  newtype byte = x: int | 0 <= x < 256

  const Alphabet: string := "0123456789abcdef"

  predicate IsHexChar(c: char) { '0' <= c <= '9' || 'a' <= c <= 'f' }

  function NibbleChar(v: nat): (c: char)
    requires v < 16
    ensures IsHexChar(c) && c == Alphabet[v]
  {
    if v < 10 then ('0' as int + v) as char else ('a' as int + v - 10) as char
  }

  function NibbleValue(c: char): (v: nat)
    requires IsHexChar(c)
    ensures v < 16 && NibbleChar(v) == c
  {
    if '0' <= c <= '9' then c as int - '0' as int else c as int - 'a' as int + 10
  }

  lemma NibbleRoundTrip(v: nat)
    requires v < 16
    ensures NibbleValue(NibbleChar(v)) == v
  {
  }

  /** The lowercase hexadecimal text of `bytes`. */
  function Encode(bytes: seq<byte>): (s: string)
    ensures |s| == 2 * |bytes|
    ensures forall i :: 0 <= i < |s| ==> IsHexChar(s[i])
  {
    if bytes == [] then ""
    else [NibbleChar(bytes[0] as int / 16), NibbleChar(bytes[0] as int % 16)] + Encode(bytes[1..])
  }

  /** Reads hexadecimal text back into bytes; fails on odd length or a character outside the alphabet. */
  function Decode(s: string): (r: Option<seq<byte>>)
    ensures r.Some? ==> 2 * |r.value| == |s|
    decreases |s|
  {
    if s == [] then Some([])
    else if |s| < 2 || !IsHexChar(s[0]) || !IsHexChar(s[1]) then None
    else match Decode(s[2..])
      case None => None
      case Some(rest) => Some([(16 * NibbleValue(s[0]) + NibbleValue(s[1])) as byte] + rest)
  }

  lemma ByteFromNibbles(b: byte)
    ensures 16 * NibbleValue(NibbleChar(b as int / 16)) + NibbleValue(NibbleChar(b as int % 16)) == b as int
  {
    NibbleRoundTrip(b as int / 16);
    NibbleRoundTrip(b as int % 16);
  }

  lemma {:induction false} DecodeStep(s: string, b: byte, rest: seq<byte>)
    requires |s| >= 2 && IsHexChar(s[0]) && IsHexChar(s[1])
    requires 16 * NibbleValue(s[0]) + NibbleValue(s[1]) == b as int
    requires Decode(s[2..]) == Some(rest)
    ensures Decode(s) == Some([b] + rest)
  {
  }

  lemma {:induction false} DecodeEncode(bytes: seq<byte>)
    ensures Decode(Encode(bytes)) == Some(bytes)
  {
    if bytes != [] {
      var s := Encode(bytes);
      var hi, lo := NibbleChar(bytes[0] as int / 16), NibbleChar(bytes[0] as int % 16);
      assert s == [hi, lo] + Encode(bytes[1..]);
      assert s[0] == hi && s[1] == lo && s[2..] == Encode(bytes[1..]);
      DecodeEncode(bytes[1..]);
      ByteFromNibbles(bytes[0]);
      DecodeStep(s, bytes[0], bytes[1..]);
      assert [bytes[0]] + bytes[1..] == bytes;
    }
  }

  /** Distinct byte strings have distinct encodings. */
  lemma EncodeInjective(a: seq<byte>, b: seq<byte>)
    ensures Encode(a) == Encode(b) ==> a == b
  {
    DecodeEncode(a);
    DecodeEncode(b);
  }
}
