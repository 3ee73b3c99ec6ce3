/**
 The Michael message integrity code. `michael_mic` unrolls the header, loops over words
 and treats the last, partial word by cases; the definition here is one fold over the
 padded message.
 */
module Michael {
  import opened Bytes

  function Xor32(a: bv32, b: bv32): bv32 {
    a ^ b
  }

  function Add32(a: bv32, b: bv32): bv32 {
    a + b
  }

  function Rotl17(v: bv32): bv32 {
    (v << 17) | (v >> 15)
  }

  function Rotl3(v: bv32): bv32 {
    (v << 3) | (v >> 29)
  }

  function Rotr2(v: bv32): bv32 {
    (v >> 2) | (v << 30)
  }

  function XSwap(v: bv32): bv32 {
    ((v & 0x00ff00ff) << 8) | ((v & 0xff00ff00) >> 8)
  }

  datatype State = State(l: bv32, r: bv32)

  function Block(s: State): State {
    var r1 := Xor32(s.r, Rotl17(s.l));
    var l1 := Add32(s.l, r1);
    var r2 := Xor32(r1, XSwap(l1));
    var l2 := Add32(l1, r2);
    var r3 := Xor32(r2, Rotl3(l2));
    var l3 := Add32(l2, r3);
    var r4 := Xor32(r3, Rotr2(l3));
    var l4 := Add32(l3, r4);
    State(l4, r4)
  }

  function Absorb(s: State, word: bv32): State {
    Block(State(Xor32(s.l, word), s.r))
  }

  /** The block function folded over the little-endian words of a message. */
  function Fold(s: State, msg: seq<bv8>): State
    requires |msg| % 4 == 0
  {
    if |msg| == 0 then s
    else Absorb(Fold(s, msg[..|msg| - 4]), Le32(msg, |msg| - 4))
  }

  /** The octet 0x5a, then zero octets; n octets are left over in the last word. */
  function Padding(n: nat): (r: seq<bv8>)
    requires n < 4
    ensures |r| == 8 - n
  {
    [0x5a] + seq(7 - n, i => 0)
  }

  /** The octet 0x5a, then 4 to 7 zero octets up to a multiple of four. */
  function Pad(data: seq<bv8>): (r: seq<bv8>)
    ensures |r| % 4 == 0
  {
    data + Padding(|data| % 4)
  }

  function Start(key: seq<bv8>): State
    requires |key| == 8
  {
    State(Le32(key, 0), Le32(key, 4))
  }

  function Octets(s: State): (mic: seq<bv8>)
    ensures |mic| == 8
  {
    PutLe32(s.l) + PutLe32(s.r)
  }

  function Mic(key: seq<bv8>, hdr: seq<bv8>, data: seq<bv8>): (mic: seq<bv8>)
    requires |key| == 8 && |hdr| == 16
    ensures |mic| == 8
  {
    Octets(Fold(Start(key), hdr + Pad(data)))
  }

  // ---- Splitting the fold where michael_mic moves from one part to the next ----

  lemma {:induction false} FoldPrefix(s: State, msg: seq<bv8>, n: nat)
    requires |msg| % 4 == 0 && n % 4 == 0 && n + 4 <= |msg|
    ensures Fold(s, msg[..n + 4]) == Absorb(Fold(s, msg[..n]), Le32(msg, n))
  {
    assert msg[..n + 4][..n] == msg[..n];
    assert Le32(msg[..n + 4], n) == Le32(msg, n);
  }

  lemma AbsorbZero(s: State)
    ensures Absorb(s, 0) == Block(s)
  {
    assert Xor32(s.l, 0) == s.l;
  }

  function Tail1(a: bv8): bv32 {
    (a as bv32) | 0x5a00
  }

  function Tail2(a: bv8, b: bv8): bv32 {
    (a as bv32) | ((b as bv32) << 8) | 0x5a0000
  }

  function Tail3(a: bv8, b: bv8, c: bv8): bv32 {
    (a as bv32) | ((b as bv32) << 8) | ((c as bv32) << 16) | 0x5a000000
  }

  /** What the four-way switch XORs in before the last full block. */
  function TailWord(data: seq<bv8>): bv32 {
    var at := |data| - |data| % 4;
    if |data| % 4 == 0 then 0x5a
    else if |data| % 4 == 1 then Tail1(data[at])
    else if |data| % 4 == 2 then Tail2(data[at], data[at + 1])
    else Tail3(data[at], data[at + 1], data[at + 2])
  }

  lemma TailWordIsPaddedWord(data: seq<bv8>)
    ensures Le32(Pad(data), |data| - |data| % 4) == TailWord(data)
    ensures |Pad(data)| == |data| - |data| % 4 + 8
    ensures Le32(Pad(data), |data| - |data| % 4 + 4) == 0
  {
    hide Mk32, Pad, TailWord;
    var at := |data| - |data| % 4;
    PadOctets(data);
    TailWordOctets(data);
    assert Le32(Pad(data), at) == Mk32(Pad(data)[at + 3], Pad(data)[at + 2], Pad(data)[at + 1], Pad(data)[at]);
    assert Le32(Pad(data), at + 4) == Mk32(0, 0, 0, 0);
    TailWordCases(0, 0, 0);
  }

  /** Octet x of the padded data. */
  function Padded(data: seq<bv8>, x: nat): bv8 {
    if x < |data| then data[x] else if x == |data| then 0x5a else 0
  }

  lemma PadOctets(data: seq<bv8>)
    ensures |Pad(data)| == |data| - |data| % 4 + 8
    ensures forall x | 0 <= x < |Pad(data)| :: Pad(data)[x] == Padded(data, x)
  {
  }

  lemma TailWordOctets(data: seq<bv8>)
    ensures
      var at := |data| - |data| % 4;
      TailWord(data) == Mk32(Padded(data, at + 3), Padded(data, at + 2), Padded(data, at + 1), Padded(data, at))
  {
    hide Mk32, Tail1, Tail2, Tail3;
    var at := |data| - |data| % 4;
    TailWordCases(Padded(data, at), Padded(data, at + 1), Padded(data, at + 2));
  }

  lemma TailWordCases(a: bv8, b: bv8, c: bv8)
    ensures Mk32(0, 0, 0, 0x5a) == 0x5a && Mk32(0, 0, 0, 0) == 0
    ensures Mk32(0, 0, 0x5a, a) == Tail1(a)
    ensures Mk32(0, 0x5a, b, a) == Tail2(a, b)
    ensures Mk32(0x5a, c, b, a) == Tail3(a, b, c)
  {
  }

  lemma WordAfterHeader(hdr: seq<bv8>, rest: seq<bv8>, i: nat)
    requires |hdr| == 16 && i + 4 <= |rest|
    ensures Le32(hdr + rest, 16 + i) == Le32(rest, i)
  {
  }

  lemma {:induction false} FoldTail(s: State, hdr: seq<bv8>, data: seq<bv8>)
    requires |hdr| == 16
    ensures
      var at := |data| - |data| % 4;
      Fold(s, hdr + Pad(data)) == Block(Absorb(Fold(s, hdr + data[..at]), TailWord(data)))
  {
    hide Block, Absorb, TailWord, Le32;
    var at := |data| - |data| % 4;
    var msg := hdr + Pad(data);
    TailWordIsPaddedWord(data);
    assert msg[..16 + at] == hdr + data[..at];
    assert msg[..16 + at + 8] == msg;
    WordAfterHeader(hdr, Pad(data), at);
    WordAfterHeader(hdr, Pad(data), at + 4);
    FoldPrefix(s, msg, 16 + at);
    FoldPrefix(s, msg, 16 + at + 4);
    AbsorbZero(Fold(s, msg[..16 + at + 4]));
  }

  lemma {:induction false} FoldHeader(s: State, hdr: seq<bv8>)
    requires |hdr| == 16
    ensures Fold(s, hdr) == Absorb(Absorb(Absorb(Absorb(s, Le32(hdr, 0)), Le32(hdr, 4)), Le32(hdr, 8)), Le32(hdr, 12))
  {
    hide Mk32, Absorb;
    FoldPrefix(s, hdr, 0);
    FoldPrefix(s, hdr, 4);
    FoldPrefix(s, hdr, 8);
    FoldPrefix(s, hdr, 12);
    assert hdr[..16] == hdr;
  }

  lemma {:induction false} FoldWord(s: State, hdr: seq<bv8>, data: seq<bv8>, i: nat)
    requires |hdr| == 16 && 4 * i + 4 <= |data|
    ensures Fold(s, hdr + data[..4 * i + 4]) == Absorb(Fold(s, hdr + data[..4 * i]), Le32(data, 4 * i))
  {
    hide Mk32, Absorb, Fold;
    var msg := hdr + data[..4 * i + 4];
    FoldPrefix(s, msg, 16 + 4 * i);
    assert msg[..16 + 4 * i] == hdr + data[..4 * i];
    assert msg[..16 + 4 * i + 4] == msg;
    assert Le32(msg, 16 + 4 * i) == Le32(data, 4 * i);
  }

  // ---- michael_mic ----

  method LastWord(data: seq<bv8>) returns (w: bv32)
    ensures w == TailWord(data)
  {
    var i, last := |data| / 4, |data| % 4;
    assert 4 * i == |data| - last;
    if last == 0 {
      w := 0x5a;
    } else if last == 1 {
      w := (data[4 * i] as bv32) | 0x5a00;
    } else if last == 2 {
      w := (data[4 * i] as bv32) | ((data[4 * i + 1] as bv32) << 8) | 0x5a0000;
    } else {
      w := (data[4 * i] as bv32) | ((data[4 * i + 1] as bv32) << 8) | ((data[4 * i + 2] as bv32) << 16) | 0x5a000000;
    }
  }

  method AbsorbHeader(start: State, hdr: seq<bv8>) returns (s: State)
    requires |hdr| == 16
    ensures s == Fold(start, hdr)
  {
    s := Absorb(start, Le32(hdr, 0));
    s := Absorb(s, Le32(hdr, 4));
    s := Absorb(s, Le32(hdr, 8));
    s := Absorb(s, Le32(hdr, 12));
    FoldHeader(start, hdr);
  }

  method AbsorbWords(afterHdr: State, ghost start: State, ghost hdr: seq<bv8>, data: seq<bv8>) returns (s: State)
    requires |hdr| == 16 && afterHdr == Fold(start, hdr)
    ensures s == Fold(start, hdr + data[..|data| - |data| % 4])
  {
    assert hdr + data[..0] == hdr;
    var blocks := |data| / 4;
    s := afterHdr;
    for i := 0 to blocks
      invariant s == Fold(start, hdr + data[..4 * i])
    {
      FoldWord(start, hdr, data, i);
      s := Absorb(s, Le32(data, 4 * i));
    }
  }

  method MichaelMic(key: seq<bv8>, hdr: seq<bv8>, data: seq<bv8>) returns (mic: seq<bv8>)
    requires |key| == 8 && |hdr| == 16
    ensures mic == Mic(key, hdr, data)
  {
    var s := AbsorbHeader(Start(key), hdr);
    s := AbsorbWords(s, Start(key), hdr, data);
    var w := LastWord(data);
    FoldTail(Start(key), hdr, data);
    s := Absorb(s, w);
    s := Block(s);
    mic := Octets(s);
  }

  // ---- The code is a permutation of the key, for every message ----

  predicate Same32(a: bv32, b: bv32) {
    a == b
  }

  lemma SameSum32(a: bv32, b: bv32, c: bv32)
    requires Same32(a + c, b + c)
    ensures a == b
  {
  }

  lemma EqualIsSame32(a: bv32, b: bv32)
    requires a == b
    ensures Same32(a, b)
  {
  }

  lemma Add32Cancels(a: bv32, b: bv32, c: bv32)
    requires Add32(a, c) == Add32(b, c)
    ensures a == b
  {
    hide Same32;
    EqualIsSame32(Add32(a, c), Add32(b, c));
    SameSum32(a, b, c);
  }

  lemma Xor32Cancels(a: bv32, b: bv32, c: bv32)
    requires Xor32(a, c) == Xor32(b, c)
    ensures a == b
  {
  }

  /** One of the four half rounds of a block: r ^= rot(l); l += r. */
  function HalfRound(rot: bv32 -> bv32, s: State): State {
    var r := Xor32(s.r, rot(s.l));
    State(Add32(s.l, r), r)
  }

  lemma HalfRoundInjective(rot: bv32 -> bv32, s: State, t: State)
    requires HalfRound(rot, s) == HalfRound(rot, t)
    ensures s == t
  {
    var u := HalfRound(rot, s);
    assert u.r == Xor32(s.r, rot(s.l)) == Xor32(t.r, rot(t.l));
    Add32Cancels(s.l, t.l, u.r);
    Xor32Cancels(s.r, t.r, rot(s.l));
  }

  lemma BlockInjective(s: State, t: State)
    requires Block(s) == Block(t)
    ensures s == t
  {
    var s1, t1 := HalfRound(Rotl17, s), HalfRound(Rotl17, t);
    var s2, t2 := HalfRound(XSwap, s1), HalfRound(XSwap, t1);
    var s3, t3 := HalfRound(Rotl3, s2), HalfRound(Rotl3, t2);
    assert Block(s) == HalfRound(Rotr2, s3) && Block(t) == HalfRound(Rotr2, t3);
    HalfRoundInjective(Rotr2, s3, t3);
    HalfRoundInjective(Rotl3, s2, t2);
    HalfRoundInjective(XSwap, s1, t1);
    HalfRoundInjective(Rotl17, s, t);
  }

  lemma {:induction false} FoldInjective(s: State, t: State, msg: seq<bv8>)
    requires |msg| % 4 == 0 && Fold(s, msg) == Fold(t, msg)
    ensures s == t
  {
    if |msg| > 0 {
      var n := |msg| - 4;
      var u, v, w := Fold(s, msg[..n]), Fold(t, msg[..n]), Le32(msg, n);
      BlockInjective(State(Xor32(u.l, w), u.r), State(Xor32(v.l, w), v.r));
      Xor32Cancels(u.l, v.l, w);
      FoldInjective(s, t, msg[..n]);
    }
  }

  lemma AbsorbInjective(s: State, t: State, v: bv32, w: bv32)
    requires Absorb(s, v) == Absorb(t, w)
    ensures v == w ==> s == t
    ensures s == t ==> v == w
  {
    hide Block;
    BlockInjective(State(Xor32(s.l, v), s.r), State(Xor32(t.l, w), t.r));
    if v == w {
      Xor32Cancels(s.l, t.l, v);
    }
    if s == t {
      XorWithSame(s.l, v, w);
    }
  }

  lemma XorWithSame(a: bv32, v: bv32, w: bv32)
    requires Xor32(a, v) == Xor32(a, w)
    ensures v == w
  {
  }

  /** Messages that differ in a single word never give the same state. */
  lemma {:induction false} FoldDeterminesWord(s: State, msg: seq<bv8>, msg': seq<bv8>, n: nat)
    requires |msg| == |msg'| && |msg| % 4 == 0 && n % 4 == 0 && n + 4 <= |msg|
    requires msg[..n] == msg'[..n] && msg[n + 4..] == msg'[n + 4..]
    requires Fold(s, msg) == Fold(s, msg')
    ensures Le32(msg, n) == Le32(msg', n)
  {
    hide Absorb, Mk32;
    var k := |msg| - 4;
    AbsorbInjective(Fold(s, msg[..k]), Fold(s, msg'[..k]), Le32(msg, k), Le32(msg', k));
    if n < k {
      LastWordAfter(msg, msg', n);
      FoldDeterminesWord(s, msg[..k], msg'[..k], n);
    }
  }

  lemma LastWordAfter(msg: seq<bv8>, msg': seq<bv8>, n: nat)
    requires |msg| == |msg'| && n + 8 <= |msg| && msg[..n] == msg'[..n] && msg[n + 4..] == msg'[n + 4..]
    ensures
      var k := |msg| - 4;
      && Le32(msg, k) == Le32(msg', k)
      && msg[..k][..n] == msg'[..k][..n] && msg[..k][n + 4..] == msg'[..k][n + 4..]
      && Le32(msg[..k], n) == Le32(msg, n) && Le32(msg'[..k], n) == Le32(msg', n)
  {
    hide Mk32;
    var k := |msg| - 4;
    assert forall x | n + 4 <= x < |msg| :: msg[x] == msg[n + 4..][x - n - 4] == msg'[n + 4..][x - n - 4] == msg'[x];
    assert msg[..k][..n] == msg[..n] && msg'[..k][..n] == msg'[..n];
  }

  /** Pseudo headers that differ in their last word, that is, in the priority, never give the same code. */
  lemma MicDeterminesPriority(key: seq<bv8>, hdr: seq<bv8>, hdr': seq<bv8>, data: seq<bv8>)
    requires |key| == 8 && |hdr| == |hdr'| == 16 && hdr[..12] == hdr'[..12] && hdr[13..] == hdr'[13..]
    requires Mic(key, hdr, data) == Mic(key, hdr', data)
    ensures hdr == hdr'
  {
    hide Fold, Mk32, Pad;
    var rest := Pad(data);
    var msg, msg' := hdr + rest, hdr' + rest;
    OctetsInjective(Fold(Start(key), msg), Fold(Start(key), msg'));
    assert msg[..12] == hdr[..12] && msg'[..12] == hdr'[..12];
    assert msg[16..] == rest && msg'[16..] == rest;
    FoldDeterminesWord(Start(key), msg, msg', 12);
    Mk32Injective(hdr[15], hdr[14], hdr[13], hdr[12], hdr'[15], hdr'[14], hdr'[13], hdr'[12]);
    assert hdr == hdr[..12] + [hdr[12]] + hdr[13..] && hdr' == hdr'[..12] + [hdr'[12]] + hdr'[13..];
  }

  /** Two different Michael keys never give the same code on the same message. */
  lemma MicDeterminesKey(key: seq<bv8>, key': seq<bv8>, hdr: seq<bv8>, data: seq<bv8>)
    requires |key| == 8 && |key'| == 8 && |hdr| == 16
    requires Mic(key, hdr, data) == Mic(key', hdr, data)
    ensures key == key'
  {
    var s, t := Fold(Start(key), hdr + Pad(data)), Fold(Start(key'), hdr + Pad(data));
    OctetsInjective(s, t);
    FoldInjective(Start(key), Start(key'), hdr + Pad(data));
    KeyWordsDetermineKey(key, key');
  }

  lemma OctetsInjective(s: State, t: State)
    requires Octets(s) == Octets(t)
    ensures s == t
  {
    assert PutLe32(s.l) == Octets(s)[..4] == PutLe32(t.l);
    assert PutLe32(s.r) == Octets(s)[4..] == PutLe32(t.r);
    Le32OfPut(s.l);
    Le32OfPut(t.l);
    Le32OfPut(s.r);
    Le32OfPut(t.r);
  }

  lemma KeyWordsDetermineKey(key: seq<bv8>, key': seq<bv8>)
    requires |key| == 8 && |key'| == 8 && Start(key) == Start(key')
    ensures key == key'
  {
    Mk32Injective(key[3], key[2], key[1], key[0], key'[3], key'[2], key'[1], key'[0]);
    Mk32Injective(key[7], key[6], key[5], key[4], key'[7], key'[6], key'[5], key'[4]);
  }
}
