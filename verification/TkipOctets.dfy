/**
 TKIP on octets: which octets of the temporal key, the transmitter address and the packet number go
 into each word of the key mixing, what Michael computes from its words, which octets of a frame
 make the pseudo header, and how a protected frame is laid out.
 */
module TkipOctets {
  import opened Bytes
  import opened FrameOctets
  import opened Ieee80211
  import opened Michael
  import opened Tkip
  import opened TkipMixing
  import Rc4
  import Wep

  // ---- Words ----

  /** The word of a low and a high octet. */
  function Word2(lo: bv8, hi: bv8): bv16 {
    (hi as bv16) * 0x100 + (lo as bv16)
  }

  lemma WordIsSum(lo: bv8, hi: bv8)
    ensures Mk16(hi, lo) == Word2(lo, hi)
  {
  }

  lemma WordAt(s: seq<bv8>, at: nat)
    requires at + 2 <= |s|
    ensures Le16(s, at) == Word2(s[at], s[at + 1])
  {
    hide Mk16, Word2;
    WordIsSum(s[at], s[at + 1]);
  }

  /** The operations on words, and a round number as one. */
  lemma WordOperations(a: bv16, b: bv16)
    ensures Add16(a, b) == a + b && Xor16(a, b) == a ^ b
  {
  }

  lemma RoundNumber(i: nat)
    requires i < 8
    ensures Word(i) == if i == 0 then 0 else if i == 1 then 1 else if i == 2 then 2 else if i == 3 then 3
                       else if i == 4 then 4 else if i == 5 then 5 else if i == 6 then 6 else 7
  {
  }

  // ---- Phase 1 ----

  /** One addition of the mixing: a + S(b ^ word). */
  function Plus(sub: Substitution, a: bv16, b: bv16, lo: bv8, hi: bv8): bv16 {
    Add16(a, sub(Xor16(b, Word2(lo, hi))))
  }

  /**
   Round i: key octets j and j+1, then those 4, 8 and 12 further on, then j and j+1 again, where j is
   0 in even and 2 in odd rounds.
   */
  ghost predicate IsRound(sub: Substitution, tk: Key16, i: nat, w: seq<bv16>, r: seq<bv16>)
    requires |w| == |r| == 5 && i < 8
  {
    var j := if i % 2 == 0 then 0 else 2;
    && r[0] == Plus(sub, w[0], w[4], tk[j], tk[j + 1])
    && r[1] == Plus(sub, w[1], r[0], tk[j + 4], tk[j + 5])
    && r[2] == Plus(sub, w[2], r[1], tk[j + 8], tk[j + 9])
    && r[3] == Plus(sub, w[3], r[2], tk[j + 12], tk[j + 13])
    && r[4] == Add16(w[4], Add16(sub(Xor16(r[3], Word2(tk[j], tk[j + 1]))), Word(i)))
  }

  /** Later steps keep the words before them, earlier ones those from them on. */
  lemma {:induction false} ChainKeeps<W>(add: (W, W) -> W, f: (nat, W) -> W, w: seq<W>, m: nat, k: nat)
    requires m <= k <= |w|
    ensures forall x | 0 <= x < m :: Chain(add, f, w, k)[x] == Chain(add, f, w, m)[x]
    ensures forall x | k <= x < |w| :: Chain(add, f, w, k)[x] == w[x]
  {
    if k > 0 {
      ChainKeeps(add, f, w, if m < k then m else k - 1, k - 1);
    }
  }

  /** A word of the chain is the old one plus the term of its source, which is old for word 0 and new for the others. */
  lemma {:induction false} ChainWord<W>(add: (W, W) -> W, f: (nat, W) -> W, w: seq<W>, x: nat)
    requires x < |w| && |w| >= 2
    ensures
      var r := Chain(add, f, w, |w|);
      r[x] == add(w[x], f(x, if x == 0 then w[|w| - 1] else r[x - 1]))
  {
    ChainKeeps(add, f, w, x, |w|);
    ChainKeeps(add, f, w, x + 1, |w|);
    ChainKeeps(add, f, w, x, x);
    assert Chain(add, f, w, x + 1)[x] == add(Chain(add, f, w, x)[x], f(x, Chain(add, f, w, x)[Source(x, |w|)]));
  }

  lemma {:induction false} RoundOnOctets(sub: Substitution, tk: Key16, i: nat, w: seq<bv16>)
    requires |w| == 5 && i < 8
    ensures IsRound(sub, tk, i, w, Chain(Add16, Phase1Term(sub, Phase1Keys(tk, i), i), w, 5))
  {
    hide Chain, Mk16, Word2, Add16, Xor16, Word;
    var j: nat := if i % 2 == 0 then 0 else 2;
    var f := Phase1Term(sub, Phase1Keys(tk, i), i);
    ChainWord(Add16, f, w, 0);
    ChainWord(Add16, f, w, 1);
    ChainWord(Add16, f, w, 2);
    ChainWord(Add16, f, w, 3);
    ChainWord(Add16, f, w, 4);
    WordAt(tk, j);
    WordAt(tk, j + 4);
    WordAt(tk, j + 8);
    WordAt(tk, j + 12);
  }

  /** The five words that phase 1 starts from: the high TSC, then the transmitter address. */
  ghost predicate IsInitial(ta: seq<bv8>, iv32: bv32, w: seq<bv16>)
    requires |ta| == 6
  {
    && |w| == 5
    && w[0] == (iv32 & 0xffff) as bv16 && w[1] == (iv32 >> 16) as bv16
    && w[2] == Word2(ta[0], ta[1]) && w[3] == Word2(ta[2], ta[3]) && w[4] == Word2(ta[4], ta[5])
  }

  lemma InitialOnOctets(ta: seq<bv8>, iv32: bv32)
    requires |ta| == 6
    ensures IsInitial(ta, iv32, Initial(ta, iv32))
  {
    hide Mk16, Word2;
    WordIsSum(ta[0], ta[1]);
    WordIsSum(ta[2], ta[3]);
    WordIsSum(ta[4], ta[5]);
  }

  /** Eight rounds, one after the other, on those words. */
  lemma {:induction false} Phase1IsEightRounds(sub: Substitution, tk: Key16, ta: seq<bv8>, iv32: bv32)
    returns (trace: seq<seq<bv16>>)
    requires |ta| == 6
    ensures |trace| == 9 && forall i | 0 <= i < 9 :: |trace[i]| == 5
    ensures IsInitial(ta, iv32, trace[0])
    ensures forall i | 0 <= i < 8 :: IsRound(sub, tk, i, trace[i], trace[i + 1])
    ensures Phase1(sub, tk, ta, iv32) == trace[8]
  {
    hide IsRound, Phase1Term, Phase1Keys, Chain;
    var w := Initial(ta, iv32);
    InitialOnOctets(ta, iv32);
    trace := [w];
    for i := 0 to 8
      invariant |trace| == i + 1 && forall k | 0 <= k <= i :: |trace[k]| == 5 && trace[k] == Rounds(sub, tk, w, k)
      invariant trace[0] == w && forall k | 0 <= k < i :: IsRound(sub, tk, k, trace[k], trace[k + 1])
    {
      RoundOnOctets(sub, tk, i, trace[i]);
      trace := trace + [Rounds(sub, tk, w, i + 1)];
    }
  }

  // ---- Phase 2 ----

  /** Bit b goes one place down, and bit 0 to the top. */
  lemma RotationOfBit(v: bv16, b: bv16)
    requires b < 16
    ensures (RotR1(v) >> ((b + 15) & 15)) & 1 == (v >> b) & 1
  {
  }

  function Half(v: bv16): bv16 {
    v >> 1
  }

  /** Every octet of the temporal key goes into one of the words: 0 to 11 here, 12 to 15 in the rotations. */
  ghost predicate IsSboxPass(sub: Substitution, tk: Key16, w: seq<bv16>, r: seq<bv16>)
    requires |w| == |r| == 6
  {
    && r[0] == Plus(sub, w[0], w[5], tk[0], tk[1])
    && r[1] == Plus(sub, w[1], r[0], tk[2], tk[3])
    && r[2] == Plus(sub, w[2], r[1], tk[4], tk[5])
    && r[3] == Plus(sub, w[3], r[2], tk[6], tk[7])
    && r[4] == Plus(sub, w[4], r[3], tk[8], tk[9])
    && r[5] == Plus(sub, w[5], r[4], tk[10], tk[11])
  }

  ghost predicate IsRotatePass(tk: Key16, w: seq<bv16>, r: seq<bv16>)
    requires |w| == |r| == 6
  {
    && r[0] == Add16(w[0], RotR1(Xor16(w[5], Word2(tk[12], tk[13]))))
    && r[1] == Add16(w[1], RotR1(Xor16(r[0], Word2(tk[14], tk[15]))))
    && r[2] == Add16(w[2], RotR1(r[1]))
    && r[3] == Add16(w[3], RotR1(r[2]))
    && r[4] == Add16(w[4], RotR1(r[3]))
    && r[5] == Add16(w[5], RotR1(r[4]))
  }

  lemma {:induction false} SboxWord(sub: Substitution, tk: Key16, w: seq<bv16>, k: nat, lo: nat, hi: nat)
    requires |w| == 6 && k < 6 && lo == 2 * k && hi == lo + 1
    ensures
      var r := Chain(Add16, SboxTerm(sub, tk), w, 6);
      r[k] == Plus(sub, w[k], if k == 0 then w[5] else r[k - 1], tk[lo], tk[hi])
  {
    hide Chain, Mk16, Word2, Add16, Xor16;
    ChainWord(Add16, SboxTerm(sub, tk), w, k);
    WordAt(tk, lo);
  }

  lemma {:induction false} SboxPassOnOctets(sub: Substitution, tk: Key16, w: seq<bv16>)
    requires |w| == 6
    ensures IsSboxPass(sub, tk, w, Chain(Add16, SboxTerm(sub, tk), w, 6))
  {
    hide Chain, Plus;
    SboxWord(sub, tk, w, 0, 0, 1);
    SboxWord(sub, tk, w, 1, 2, 3);
    SboxWord(sub, tk, w, 2, 4, 5);
    SboxWord(sub, tk, w, 3, 6, 7);
    SboxWord(sub, tk, w, 4, 8, 9);
    SboxWord(sub, tk, w, 5, 10, 11);
  }

  lemma {:induction false} RotatePassOnOctets(tk: Key16, w: seq<bv16>)
    requires |w| == 6
    ensures IsRotatePass(tk, w, Chain(Add16, RotateTerm(tk), w, 6))
  {
    hide Chain, Mk16, Word2, RotR1, Add16, Xor16;
    var r := Chain(Add16, RotateTerm(tk), w, 6);
    var f := RotateTerm(tk);
    ChainWord(Add16, f, w, 0);
    ChainWord(Add16, f, w, 1);
    ChainWord(Add16, f, w, 2);
    ChainWord(Add16, f, w, 3);
    ChainWord(Add16, f, w, 4);
    ChainWord(Add16, f, w, 5);
    WordAt(tk, 12);
    WordAt(tk, 14);
  }

  /** The low TSC is added to the last word of phase 1, behind its five words. */
  ghost predicate IsBroughtIn(ttak: seq<bv16>, iv16: bv16, w: seq<bv16>) {
    && |ttak| == 5 && |w| == 6
    && w[0] == ttak[0] && w[1] == ttak[1] && w[2] == ttak[2] && w[3] == ttak[3] && w[4] == ttak[4]
    && w[5] == Add16(iv16, ttak[4])
  }

  /** Low octet of octet pair k. */
  function LowOctet(v: bv16): bv8 {
    (v & 0x00ff) as bv8
  }

  function HighOctet(v: bv16): bv8 {
    (v / 0x100) as bv8
  }

  /** High octet with bit 5 set and bit 7 cleared. */
  function MarkedOctet(v: bv16): bv8 {
    (HighOctet(v) & 0x5f) + 0x20
  }

  /** The RC4 key: the three IV octets, one octet of word 5 with key octets 0 and 1, then the six words. */
  ghost predicate IsSeed(tk: Key16, ppk: seq<bv16>, iv16: bv16, seed: seq<bv8>)
    requires |ppk| == 6
  {
    && |seed| == 16
    && seed[0] == HighOctet(iv16) && seed[2] == LowOctet(iv16)
    && seed[1] == MarkedOctet(iv16)
    && seed[3] == LowOctet(Half(Xor16(ppk[5], Word2(tk[0], tk[1]))))
    && forall k | 0 <= k < 6 :: seed[4 + 2 * k] == LowOctet(ppk[k]) && seed[5 + 2 * k] == HighOctet(ppk[k])
  }

  lemma OctetsOfWord(v: bv16)
    ensures Lo8(v) == LowOctet(v) && Hi8(v) == HighOctet(v)
    ensures (Hi8(v) | 0x20) & 0x7f == MarkedOctet(v)
    ensures v >> 1 == Half(v)
  {
  }

  lemma SeedHead(tk: Key16, ppk: seq<bv16>, iv16: bv16)
    requires |ppk| == 6
    ensures
      var s := WepSeed(tk, ppk, iv16);
      && s[0] == HighOctet(iv16) && s[1] == MarkedOctet(iv16) && s[2] == LowOctet(iv16)
      && s[3] == LowOctet(Half(Xor16(ppk[5], Word2(tk[0], tk[1]))))
  {
    hide Lo8, Hi8, LowOctet, HighOctet, MarkedOctet, Half, Mk16, Word2;
    OctetsOfWord(iv16);
    WordAt(tk, 0);
    OctetsOfWord(Xor16(ppk[5], Le16(tk, 0)));
    OctetsOfWord(Half(Xor16(ppk[5], Le16(tk, 0))));
  }

  lemma SeedTail(tk: Key16, ppk: seq<bv16>, iv16: bv16, k: nat)
    requires |ppk| == 6 && k < 6
    ensures
      var s := WepSeed(tk, ppk, iv16);
      s[4 + 2 * k] == LowOctet(ppk[k]) && s[5 + 2 * k] == HighOctet(ppk[k])
  {
    hide Lo8, Hi8, LowOctet, HighOctet;
    OctetsOfWord(ppk[k]);
  }

  lemma SeedOnOctets(tk: Key16, ppk: seq<bv16>, iv16: bv16)
    requires |ppk| == 6
    ensures IsSeed(tk, ppk, iv16, WepSeed(tk, ppk, iv16))
  {
    hide WepSeed, LowOctet, HighOctet, MarkedOctet, Half, Word2, Xor16;
    SeedHead(tk, ppk, iv16);
    forall k | 0 <= k < 6
      ensures
        var s := WepSeed(tk, ppk, iv16);
        s[4 + 2 * k] == LowOctet(ppk[k]) && s[5 + 2 * k] == HighOctet(ppk[k])
    {
      SeedTail(tk, ppk, iv16, k);
    }
  }

  /** Phase 2: the TSC brought in, both passes, and the seed. */
  lemma {:induction false} Phase2IsTwoPasses(sub: Substitution, tk: Key16, ttak: seq<bv16>, iv16: bv16)
    returns (w: seq<bv16>, x: seq<bv16>, y: seq<bv16>)
    requires |ttak| == 5
    ensures |w| == |x| == |y| == 6
    ensures IsBroughtIn(ttak, iv16, w) && IsSboxPass(sub, tk, w, x) && IsRotatePass(tk, x, y)
    ensures IsSeed(tk, y, iv16, Phase2(sub, tk, ttak, iv16))
  {
    hide Chain, WepSeed, IsSboxPass, IsRotatePass, IsSeed;
    w := BringInTsc(ttak, iv16);
    SboxPassOnOctets(sub, tk, w);
    x := Chain(Add16, SboxTerm(sub, tk), w, 6);
    RotatePassOnOctets(tk, x);
    y := Chain(Add16, RotateTerm(tk), x, 6);
    SeedOnOctets(tk, y, iv16);
  }

  /** The packet key is phase 2 of phase 1. */
  lemma PacketKeyIsBothPhases(sub: Substitution, tk: Key16, ta: seq<bv8>, iv32: bv32, iv16: bv16)
    requires |ta| == 6
    ensures PacketKey(sub, tk, ta, iv32, iv16) == Phase2(sub, tk, Phase1(sub, tk, ta, iv32), iv16)
  {
  }

  /** The S-box table, its entry for the high octet with its octets exchanged. */
  lemma TableOnOctets(box: Sbox, lo: bv8, hi: bv8)
    ensures
      var t := box[hi as int];
      TableSubstitution(box)(Word2(lo, hi)) == box[lo as int] ^ Word2(HighOctet(t), LowOctet(t))
  {
    hide Lo8, Hi8, LowOctet, HighOctet, Word2, Mk16;
    var v := Word2(lo, hi);
    WordIsSum(lo, hi);
    Word16Injective(hi, lo);
    ExchangedOctets(box[hi as int]);
  }

  lemma ExchangedOctets(t: bv16)
    ensures (t << 8) | (t >> 8) == Word2(HighOctet(t), LowOctet(t))
  {
  }

  // ---- Michael ----

  /** Bit b goes to place b + 17, b + 3 or b - 2, going round. */
  lemma RotationsOfBit(v: bv32, b: bv32)
    requires b < 32
    ensures (Rotl17(v) >> ((b + 17) & 31)) & 1 == (v >> b) & 1
    ensures (Rotl3(v) >> ((b + 3) & 31)) & 1 == (v >> b) & 1
    ensures (Rotr2(v) >> ((b + 30) & 31)) & 1 == (v >> b) & 1
  {
  }

  /** The octets of each half are exchanged. */
  lemma XSwapOnOctets(b3: bv8, b2: bv8, b1: bv8, b0: bv8)
    ensures XSwap(Mk32(b3, b2, b1, b0)) == Mk32(b2, b3, b0, b1)
  {
  }

  lemma Word4IsSum(b3: bv8, b2: bv8, b1: bv8, b0: bv8)
    ensures Mk32(b3, b2, b1, b0) ==
            (b3 as bv32) * 0x1000000 + (b2 as bv32) * 0x10000 + (b1 as bv32) * 0x100 + (b0 as bv32)
  {
  }

  lemma WideOperations(a: bv32, b: bv32)
    ensures Add32(a, b) == a + b && Xor32(a, b) == a ^ b
  {
  }

  /** Four half rounds: rotated left by 17, swapped, rotated left by 3, rotated right by 2. */
  lemma BlockOf(l: bv32, r: bv32)
    ensures
      var r1 := Xor32(r, Rotl17(l));
      var l1 := Add32(l, r1);
      var r2 := Xor32(r1, XSwap(l1));
      var l2 := Add32(l1, r2);
      var r3 := Xor32(r2, Rotl3(l2));
      var l3 := Add32(l2, r3);
      var r4 := Xor32(r3, Rotr2(l3));
      Block(State(l, r)) == State(Add32(l3, r4), r4)
  {
    hide Add32, Xor32, Rotl17, Rotl3, Rotr2, XSwap;
  }

  const NO_KEY: seq<bv8> := [0, 0, 0, 0, 0, 0, 0, 0]
  const FIRST_CODE: seq<bv8> := [0x82, 0x92, 0x5c, 0x1c, 0xa1, 0xd1, 0x30, 0xb8]

  /** Known codes, without a pseudo header: of nothing under a zero key, and of "M" under the result. */
  lemma {:induction false} KnownCodes()
    ensures Octets(Fold(Start(NO_KEY), Pad([]))) == FIRST_CODE
    ensures Octets(Fold(Start(FIRST_CODE), Pad([0x4d]))) == [0x43, 0x47, 0x21, 0xca, 0x40, 0x63, 0x9b, 0x3f]
  {
    KnownWords();
    KnownBlocks();
    KnownOctets();
    hide Mk32, Fold, Absorb, Start, Octets, TailWord;
    CodeOfTwoWords(NO_KEY, []);
    CodeOfTwoWords(FIRST_CODE, [0x4d]);
  }

  lemma {:induction false} CodeOfTwoWords(key: seq<bv8>, data: seq<bv8>)
    requires |key| == 8 && |data| < 4
    ensures Fold(Start(key), Pad(data)) == Absorb(Absorb(Start(key), TailWord(data)), 0)
  {
    TailWordIsPaddedWord(data);
    hide Mk32, Absorb, Start, TailWord, Pad;
    var msg := Pad(data);
    FoldPrefix(Start(key), msg, 0);
    FoldPrefix(Start(key), msg, 4);
    assert msg[..8] == msg && msg[..0] == [];
  }

  lemma KnownWords()
    ensures Start(NO_KEY) == State(0, 0) && Start(FIRST_CODE) == State(0x1c5c9282, 0xb830d1a1)
    ensures TailWord([]) == 0x5a && TailWord([0x4d]) == 0x5a4d
  {
  }

  lemma KnownOctets()
    ensures Octets(State(0x1c5c9282, 0xb830d1a1)) == FIRST_CODE
    ensures Octets(State(0xca214743, 0x3f9b6340)) == [0x43, 0x47, 0x21, 0xca, 0x40, 0x63, 0x9b, 0x3f]
  {
  }

  lemma KnownBlocks()
    ensures Absorb(State(0, 0), 0x5a) == State(0xc000134d, 0xeaa1301e)
    ensures Absorb(State(0xc000134d, 0xeaa1301e), 0) == State(0x1c5c9282, 0xb830d1a1)
    ensures Absorb(State(0x1c5c9282, 0xb830d1a1), 0x5a4d) == State(0xa556433e, 0xd6ec7884)
    ensures Absorb(State(0xa556433e, 0xd6ec7884), 0) == State(0xca214743, 0x3f9b6340)
  {
  }

  // ---- Pseudo header and framing ----

  /**
   Destination, source, priority and three zeros, for each combination of To DS (octet 1 bit 0) and
   From DS (bit 1). The QoS Control field follows the addresses, three or four of them.
   */
  lemma PseudoHeaderOnOctets(f: Frame)
    requires HoldsHeader(f)
    ensures
      var h, to, from := PseudoHeader(f), ToDsBit(f), FromDsBit(f);
      && (QosBits(f) ==> |f| >= QosAt(f) + 2) && (to && from ==> |f| >= 30)
      && h[0..6] == (if to then f[16..22] else f[4..10])
      && h[6..12] == (if to && from then f[24..30] else if from then f[16..22] else f[10..16])
      && h[12] == (if QosBits(f) then f[QosAt(f)] & 0x0f else 0)
      && h[13..] == [0, 0, 0]
  {
    hide Has, FcType, FcSubtype, Mk16, IsQosData;
    FlagsOnOctets(f);
    FieldsOnOctets(f);
    var h := PseudoHeader(f);
    assert h == DestinationAddress(f) + SourceAddress(f) + [Priority(f), 0, 0, 0];
    assert h[0..6] == DestinationAddress(f) && h[6..12] == SourceAddress(f) && h[13..] == [0, 0, 0];
  }

  /** Octets 16 to 23 of the key for frames from the DS, 24 to 31 for the others. */
  lemma MicKeyOnOctets(tk: TkipKey, f: Frame)
    ensures MicKey(tk, FrameControl(f)) == if FromDsBit(f) then tk[16..24] else tk[24..32]
  {
    hide Has, Mk16;
    FlagsOnOctets(f);
  }

  /** The code: of pseudo header and payload, under that key. */
  lemma CodeIs(tk: TkipKey, f: Frame, payload: seq<bv8>)
    requires HoldsHeader(f)
    ensures
      Code(tk, f, payload) ==
      Octets(Fold(Start(if FromDsBit(f) then tk[16..24] else tk[24..32]), PseudoHeader(f) + Pad(payload)))
  {
    hide Octets, Fold, Start, Pad, PseudoHeader, FromDsBit;
    MicKeyOnOctets(tk, f);
  }

  lemma IvKeyIdBits(keyId: bv8)
    ensures (keyId << 6) | 0x20 == (keyId & 0x03) * 0x40 + 0x20
  {
  }

  /**
   A protected frame: the header, then TSC1, the second octet of the RC4 key, TSC0, the key id with
   the extended IV bit, and TSC2 to TSC5; then payload, code and CRC, least significant octet first,
   under RC4 with the key of temporal key octets 0 to 15, the transmitter in octets 10 to 15, and the
   packet number.
   */
  lemma EncryptedOnOctets(p: Primitives, tk: TkipKey, frame: Frame, hdrlen: nat, pn: seq<bv8>, keyId: bv8)
    requires HoldsHeader(frame) && 24 <= hdrlen <= |frame| && |pn| == 6
    ensures
      var sent, payload := Encrypted(p, tk, frame, hdrlen, pn, keyId), frame[hdrlen..];
      var key := PacketKey(p.sub, tk[0..16], frame[10..16], Mk32(pn[0], pn[1], pn[2], pn[3]), Word2(pn[5], pn[4]));
      var body := payload + Code(tk, frame, payload);
      && sent[..hdrlen] == frame[..hdrlen]
      && sent[hdrlen..hdrlen + 8] ==
         [pn[4], key[1], pn[5], (keyId & 0x03) * 0x40 + 0x20, pn[3], pn[2], pn[1], pn[0]]
      && sent[hdrlen + 8..] == Rc4.Crypt(key, body + PutLe32(p.crc(body)))
  {
    hide Rc4.Crypt, Code, PacketKey, Mk32, Mk16, Word2, Hi8, Lo8;
    var sent := Encrypted(p, tk, frame, hdrlen, pn, keyId);
    WordIsSum(pn[5], pn[4]);
    Word16Injective(pn[4], pn[5]);
    PacketCarriesIv(p, tk, frame, pn, keyId);
    IvKeyIdBits(keyId);
    var key := KeyOf(p, tk, frame, Be32(pn, 0), Iv16(pn));
    var iv := IvHeader(key, pn, keyId);
    PacketKeyCarriesIv(p.sub, tk[..16], Addr2(frame), Be32(pn, 0), Iv16(pn));
    assert tk[..16] == tk[0..16];
    assert sent[..hdrlen] == frame[..hdrlen];
    assert sent[hdrlen..hdrlen + 8] == iv;
    assert sent[hdrlen + 8..] == Rc4.Crypt(key, Protected(p, tk, frame, frame[hdrlen..]));
  }
}
