/** Byte buffers: big-endian words and the replacement of a byte range. */
module Bytes {
  type byte = x: int | 0 <= x < 0x100
  type uint16 = x: int | 0 <= x < 0x1_0000

  function Word(hi: byte, lo: byte): uint16 {
    hi * 0x100 + lo
  }

  function High(w: uint16): byte {
    w / 0x100
  }

  function Low(w: uint16): byte {
    w % 0x100
  }

  lemma WordBytes(hi: byte, lo: byte, w: uint16)
    ensures Word(hi, lo) == w <==> hi == High(w) && lo == Low(w)
  {}

  /** s with the bytes from lo to hi replaced, which may change its length. */
  function Replace(s: seq<byte>, lo: nat, hi: nat, part: seq<byte>): seq<byte>
    requires lo <= hi <= |s|
  {
    s[..lo] + part + s[hi..]
  }

  lemma ReplaceAt(s: seq<byte>, lo: nat, part: seq<byte>, i: nat)
    requires lo + |part| <= |s| && i < |s|
    ensures |Replace(s, lo, lo + |part|, part)| == |s|
    ensures Replace(s, lo, lo + |part|, part)[i] == if lo <= i < lo + |part| then part[i - lo] else s[i]
  {}
}
