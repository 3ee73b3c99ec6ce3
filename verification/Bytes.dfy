/**
 Octets, little- and big-endian words and big-endian counters, as used by every
 frame format in this project. Octets are `bv8`, so masks, shifts and wrap-around
 are those of the C code.
 */
module Bytes {

  datatype Option<+T> = None | Some(value: T)

  function Low4(v: bv8): bv8 {
    v & 0x0f
  }

  // ---- 16-bit words ----

  function Lo8(v: bv16): bv8 {
    (v & 0xff) as bv8
  }

  function Hi8(v: bv16): bv8 {
    (v >> 8) as bv8
  }

  function Mk16(hi: bv8, lo: bv8): bv16 {
    (lo as bv16) | ((hi as bv16) << 8)
  }

  function Le16(s: seq<bv8>, at: nat): bv16
    requires at + 2 <= |s|
  {
    Mk16(s[at + 1], s[at])
  }

  function PutLe16(v: bv16): seq<bv8> {
    [Lo8(v), Hi8(v)]
  }

  lemma Word16RoundTrip(v: bv16)
    ensures Mk16(Hi8(v), Lo8(v)) == v
  {
  }

  lemma Word16Injective(hi: bv8, lo: bv8)
    ensures Hi8(Mk16(hi, lo)) == hi && Lo8(Mk16(hi, lo)) == lo
  {
  }

  // ---- 32-bit words ----

  function Lo16(v: bv32): bv16 {
    (v & 0xffff) as bv16
  }

  function Hi16(v: bv32): bv16 {
    (v >> 16) as bv16
  }

  function Mk32(b3: bv8, b2: bv8, b1: bv8, b0: bv8): bv32 {
    ((b3 as bv32) << 24) | ((b2 as bv32) << 16) | ((b1 as bv32) << 8) | (b0 as bv32)
  }

  function Le32(s: seq<bv8>, at: nat): bv32
    requires at + 4 <= |s|
  {
    Mk32(s[at + 3], s[at + 2], s[at + 1], s[at])
  }

  function Be32(s: seq<bv8>, at: nat): bv32
    requires at + 4 <= |s|
  {
    Mk32(s[at], s[at + 1], s[at + 2], s[at + 3])
  }

  function PutLe32(v: bv32): seq<bv8> {
    [(v & 0xff) as bv8, ((v >> 8) & 0xff) as bv8, ((v >> 16) & 0xff) as bv8, ((v >> 24) & 0xff) as bv8]
  }

  lemma Le32OfPut(v: bv32)
    ensures Le32(PutLe32(v), 0) == v
  {
  }

  lemma Mk32Injective(a3: bv8, a2: bv8, a1: bv8, a0: bv8, b3: bv8, b2: bv8, b1: bv8, b0: bv8)
    requires Mk32(a3, a2, a1, a0) == Mk32(b3, b2, b1, b0)
    ensures a3 == b3 && a2 == b2 && a1 == b1 && a0 == b0
  {
  }

  lemma PutOfLe32(s: seq<bv8>)
    requires |s| == 4
    ensures PutLe32(Le32(s, 0)) == s
  {
  }

  lemma HalvesDetermineWord(v: bv32, w: bv32)
    requires Lo16(v) == Lo16(w) && Hi16(v) == Hi16(w)
    ensures v == w
  {
  }

  // ---- Order of octets ----

  /** Least significant octet first, when a word is written and when it is read. */
  lemma LittleEndian(b3: bv8, b2: bv8, b1: bv8, b0: bv8)
    ensures PutLe16(Mk16(b1, b0)) == [b0, b1] && PutLe32(Mk32(b3, b2, b1, b0)) == [b0, b1, b2, b3]
    ensures Le16([b0, b1], 0) == (b1 as bv16) * 0x100 + (b0 as bv16)
    ensures Le32([b0, b1, b2, b3], 0) ==
            (b3 as bv32) * 0x1000000 + (b2 as bv32) * 0x10000 + (b1 as bv32) * 0x100 + (b0 as bv32)
  {
    LittleEndian16(b1, b0);
    LittleEndian32(b3, b2, b1, b0);
  }

  lemma LittleEndian16(b1: bv8, b0: bv8)
    ensures Lo8(Mk16(b1, b0)) == b0 && Hi8(Mk16(b1, b0)) == b1
    ensures Mk16(b1, b0) == (b1 as bv16) * 0x100 + (b0 as bv16)
  {
  }

  lemma LittleEndian32(b3: bv8, b2: bv8, b1: bv8, b0: bv8)
    ensures PutLe32(Mk32(b3, b2, b1, b0)) == [b0, b1, b2, b3]
    ensures Mk32(b3, b2, b1, b0) ==
            (b3 as bv32) * 0x1000000 + (b2 as bv32) * 0x10000 + (b1 as bv32) * 0x100 + (b0 as bv32)
  {
  }

  /** A word is read from the octets at its place, whatever is around it. */
  lemma ReadAt(before: seq<bv8>, b3: bv8, b2: bv8, b1: bv8, b0: bv8, after: seq<bv8>)
    ensures
      var s := before + [b0, b1, b2, b3] + after;
      && Le16(s, |before|) == Mk16(b1, b0) && Le32(s, |before|) == Mk32(b3, b2, b1, b0)
      && Be32(s, |before|) == Mk32(b0, b1, b2, b3)
  {
    hide Mk16, Mk32;
  }

  /** Halves of a word. */
  lemma HalvesOf(b3: bv8, b2: bv8, b1: bv8, b0: bv8)
    ensures Hi16(Mk32(b3, b2, b1, b0)) == Mk16(b3, b2) && Lo16(Mk32(b3, b2, b1, b0)) == Mk16(b1, b0)
    ensures Low4(b0) == b0 % 16
  {
  }
}
