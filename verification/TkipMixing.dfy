/**
 TKIP per-packet key mixing. Both phases are injective for a fixed temporal key, whatever
 the S-box, so a transmitter never derives the same RC4 key from two packet numbers and no
 two transmitters ever share one.
 */
module TkipMixing {
  import opened Bytes

  /** S-box with 256 entries. */
  type Sbox = s: seq<bv16> | |s| == 256 witness seq(256, i => 0)

  type Key16 = s: seq<bv8> | |s| == 16 witness seq(16, i => 0)

  function Lookup(box: Sbox, v: bv16): bv16 {
    var t := box[Hi8(v) as int];
    box[Lo8(v) as int] ^ ((t << 8) | (t >> 8))
  }

  /** The mixing below is proved for every substitution of 16-bit words, in particular for each table lookup. */
  type Substitution = bv16 -> bv16

  function TableSubstitution(box: Sbox): Substitution {
    v => Lookup(box, v)
  }

  function RotR1(v: bv16): bv16 {
    (v >> 1) | (v << 15)
  }

  function Word(i: nat): bv16
    requires i < 0x1_0000
  {
    i as bv16
  }

  function Add16(a: bv16, b: bv16): bv16 {
    a + b
  }

  function Xor16(a: bv16, b: bv16): bv16 {
    a ^ b
  }

  // ---- Chained addition: the shape shared by a phase 1 round and both phase 2 passes ----

  /** Word that word k is mixed with: the one before it, and the last one for word 0. */
  function Source(k: nat, n: nat): nat
    requires k < n
  {
    if k == 0 then n - 1 else k - 1
  }

  /** Words 0 to k-1 of w have each had f of their source word added, in order. */
  function Chain<W>(add: (W, W) -> W, f: (nat, W) -> W, w: seq<W>, k: nat): (r: seq<W>)
    requires k <= |w|
    ensures |r| == |w|
  {
    if k == 0 then w
    else
      var v := Chain(add, f, w, k - 1);
      v[k - 1 := add(v[k - 1], f(k - 1, v[Source(k - 1, |w|)]))]
  }

  ghost predicate Cancels<W(!new)>(add: (W, W) -> W) {
    forall a, b, c :: add(a, c) == add(b, c) ==> a == b
  }

  /** Each step reads a word it does not change, so chained addition can be undone last step first. */
  lemma {:induction false} ChainInjective<W(!new)>(add: (W, W) -> W, f: (nat, W) -> W, w: seq<W>, w': seq<W>, k: nat)
    requires Cancels(add) && |w| == |w'| >= 2 && k <= |w|
    requires Chain(add, f, w, k) == Chain(add, f, w', k)
    ensures w == w'
  {
    if k > 0 {
      var v, v' := Chain(add, f, w, k - 1), Chain(add, f, w', k - 1);
      var u, u' := Chain(add, f, w, k), Chain(add, f, w', k);
      var s := Source(k - 1, |w|);
      assert u[s] == v[s] && u'[s] == v'[s];
      assert u[k - 1] == add(v[k - 1], f(k - 1, v[s])) && u'[k - 1] == add(v'[k - 1], f(k - 1, v'[s]));
      forall x | 0 <= x < |w|
        ensures v[x] == v'[x]
      {
        assert x != k - 1 ==> u[x] == v[x] && u'[x] == v'[x];
      }
      ChainInjective(add, f, w, w', k - 1);
    }
  }

  lemma Add16Cancels()
    ensures Cancels(Add16)
  {
    forall a, b, c | Add16(a, c) == Add16(b, c)
      ensures a == b
    {
      SumCancels(a, b, c);
    }
  }

  predicate Same16(a: bv16, b: bv16) {
    a == b
  }

  lemma SameSum16(a: bv16, b: bv16, c: bv16)
    requires Same16(a + c, b + c)
    ensures a == b
  {
  }

  lemma EqualIsSame16(a: bv16, b: bv16)
    requires a == b
    ensures Same16(a, b)
  {
  }

  lemma SumCancels(a: bv16, b: bv16, c: bv16)
    requires Add16(a, c) == Add16(b, c)
    ensures a == b
  {
    hide Same16;
    EqualIsSame16(Add16(a, c), Add16(b, c));
    SameSum16(a, b, c);
  }

  // ---- Phase 1 ----

  function Initial(ta: seq<bv8>, iv32: bv32): (w: seq<bv16>)
    requires |ta| == 6
    ensures |w| == 5
  {
    [Lo16(iv32), Hi16(iv32), Mk16(ta[1], ta[0]), Mk16(ta[3], ta[2]), Mk16(ta[5], ta[4])]
  }

  /** Round i mixes key octet pairs 0, 4, 8, 12, 0 into words 0 to 4, or the next pairs in odd rounds. */
  function Phase1Keys(tk: Key16, i: nat): (keys: seq<bv16>)
    ensures |keys| == 5
  {
    var j := 2 * (i % 2);
    [Le16(tk, 0 + j), Le16(tk, 4 + j), Le16(tk, 8 + j), Le16(tk, 12 + j), Le16(tk, 0 + j)]
  }

  function Phase1Term(sub: Substitution, keys: seq<bv16>, i: nat): (nat, bv16) -> bv16
    requires i < 8 && |keys| == 5
  {
    (k: nat, x: bv16) =>
      if k < 4 then sub(Xor16(x, keys[k])) else Add16(sub(Xor16(x, keys[4])), Word(i))
  }

  function Rounds(sub: Substitution, tk: Key16, w: seq<bv16>, n: nat): (r: seq<bv16>)
    requires n <= 8 && |w| == 5
    ensures |r| == 5
  {
    if n == 0 then w else Chain(Add16, Phase1Term(sub, Phase1Keys(tk, n - 1), n - 1), Rounds(sub, tk, w, n - 1), 5)
  }

  function Phase1(sub: Substitution, tk: Key16, ta: seq<bv8>, iv32: bv32): (ttak: seq<bv16>)
    requires |ta| == 6
    ensures |ttak| == 5
  {
    Rounds(sub, tk, Initial(ta, iv32), 8)
  }

  method MixRound(sub: Substitution, ttak: array<bv16>, tk: Key16, i: nat)
    requires ttak.Length == 5 && i < 8
    modifies ttak
    ensures ttak[..] == Chain(Add16, Phase1Term(sub, Phase1Keys(tk, i), i), old(ttak[..]), 5)
  {
    var keys := Phase1Keys(tk, i);
    ghost var f, w := Phase1Term(sub, keys, i), ttak[..];
    ttak[0] := Add16(ttak[0], sub(Xor16(ttak[4], keys[0])));
    assert ttak[..] == Chain(Add16, f, w, 1);
    ttak[1] := Add16(ttak[1], sub(Xor16(ttak[0], keys[1])));
    assert ttak[..] == Chain(Add16, f, w, 2);
    ttak[2] := Add16(ttak[2], sub(Xor16(ttak[1], keys[2])));
    assert ttak[..] == Chain(Add16, f, w, 3);
    ttak[3] := Add16(ttak[3], sub(Xor16(ttak[2], keys[3])));
    assert ttak[..] == Chain(Add16, f, w, 4);
    ttak[4] := Add16(ttak[4], Add16(sub(Xor16(ttak[3], keys[4])), Word(i)));
    assert ttak[..] == Chain(Add16, f, w, 5);
  }

  method MixPhase1(sub: Substitution, ttak: array<bv16>, tk: Key16, ta: seq<bv8>, iv32: bv32)
    requires ttak.Length == 5 && |ta| == 6
    modifies ttak
    ensures ttak[..] == Phase1(sub, tk, ta, iv32)
  {
    ttak[0] := Lo16(iv32);
    ttak[1] := Hi16(iv32);
    ttak[2] := Mk16(ta[1], ta[0]);
    ttak[3] := Mk16(ta[3], ta[2]);
    ttak[4] := Mk16(ta[5], ta[4]);
    assert ttak[..] == Initial(ta, iv32);
    for i := 0 to 8
      invariant ttak[..] == Rounds(sub, tk, Initial(ta, iv32), i)
    {
      MixRound(sub, ttak, tk, i);
    }
  }

  lemma {:induction false} RoundsInjective(sub: Substitution, tk: Key16, w: seq<bv16>, w': seq<bv16>, n: nat)
    requires n <= 8 && |w| == |w'| == 5
    requires Rounds(sub, tk, w, n) == Rounds(sub, tk, w', n)
    ensures w == w'
  {
    if n > 0 {
      Add16Cancels();
      ChainInjective(Add16, Phase1Term(sub, Phase1Keys(tk, n - 1), n - 1),
                     Rounds(sub, tk, w, n - 1), Rounds(sub, tk, w', n - 1), 5);
      RoundsInjective(sub, tk, w, w', n - 1);
    }
  }

  lemma AddressInjective(ta: seq<bv8>, ta': seq<bv8>)
    requires |ta| == 6 && |ta'| == 6
    requires Mk16(ta[1], ta[0]) == Mk16(ta'[1], ta'[0])
    requires Mk16(ta[3], ta[2]) == Mk16(ta'[3], ta'[2])
    requires Mk16(ta[5], ta[4]) == Mk16(ta'[5], ta'[4])
    ensures ta == ta'
  {
    Word16Injective(ta[1], ta[0]);
    Word16Injective(ta'[1], ta'[0]);
    Word16Injective(ta[3], ta[2]);
    Word16Injective(ta'[3], ta'[2]);
    Word16Injective(ta[5], ta[4]);
    Word16Injective(ta'[5], ta'[4]);
  }

  lemma InitialInjective(ta: seq<bv8>, iv32: bv32, ta': seq<bv8>, iv32': bv32)
    requires |ta| == 6 && |ta'| == 6
    requires Initial(ta, iv32) == Initial(ta', iv32')
    ensures ta == ta' && iv32 == iv32'
  {
    var w, w' := Initial(ta, iv32), Initial(ta', iv32');
    assert w[0] == w'[0] && w[1] == w'[1] && w[2] == w'[2] && w[3] == w'[3] && w[4] == w'[4];
    HalvesDetermineWord(iv32, iv32');
    AddressInjective(ta, ta');
  }

  /** All 80 bits of transmitter address and high TSC survive phase 1. */
  lemma Phase1Injective(sub: Substitution, tk: Key16, ta: seq<bv8>, iv32: bv32, ta': seq<bv8>, iv32': bv32)
    requires |ta| == 6 && |ta'| == 6
    requires Phase1(sub, tk, ta, iv32) == Phase1(sub, tk, ta', iv32')
    ensures ta == ta' && iv32 == iv32'
  {
    RoundsInjective(sub, tk, Initial(ta, iv32), Initial(ta', iv32'), 8);
    InitialInjective(ta, iv32, ta', iv32');
  }

  // ---- Phase 2 ----

  function BringInTsc(ttak: seq<bv16>, iv16: bv16): (ppk: seq<bv16>)
    requires |ttak| == 5
    ensures |ppk| == 6
  {
    ttak + [Add16(iv16, ttak[4])]
  }

  function SboxTerm(sub: Substitution, tk: Key16): (nat, bv16) -> bv16 {
    (k: nat, x: bv16) => sub(Xor16(x, Le16(tk, 2 * (k % 6))))
  }

  function RotateTerm(tk: Key16): (nat, bv16) -> bv16 {
    (k: nat, x: bv16) => RotR1(if k < 2 then Xor16(x, Le16(tk, 12 + 2 * k)) else x)
  }

  function Mixed(sub: Substitution, tk: Key16, ttak: seq<bv16>, iv16: bv16): (ppk: seq<bv16>)
    requires |ttak| == 5
    ensures |ppk| == 6
  {
    Chain(Add16, RotateTerm(tk), Chain(Add16, SboxTerm(sub, tk), BringInTsc(ttak, iv16), 6), 6)
  }

  /** The transmitted IV octets, one octet of PPK5 and the key, then the 96 mixed bits. */
  function WepSeed(tk: Key16, ppk: seq<bv16>, iv16: bv16): (seed: seq<bv8>)
    requires |ppk| == 6
    ensures |seed| == 16
  {
    [Hi8(iv16), (Hi8(iv16) | 0x20) & 0x7f, Lo8(iv16), Lo8((ppk[5] ^ Le16(tk, 0)) >> 1)]
    + seq(12, x requires 0 <= x < 12 => if x % 2 == 0 then Lo8(ppk[x / 2]) else Hi8(ppk[x / 2]))
  }

  function Phase2(sub: Substitution, tk: Key16, ttak: seq<bv16>, iv16: bv16): (seed: seq<bv8>)
    requires |ttak| == 5
    ensures |seed| == 16
  {
    WepSeed(tk, Mixed(sub, tk, ttak, iv16), iv16)
  }

  method SboxPass(sub: Substitution, tk: Key16, ppk: array<bv16>)
    requires ppk.Length == 6
    modifies ppk
    ensures ppk[..] == Chain(Add16, SboxTerm(sub, tk), old(ppk[..]), 6)
  {
    ghost var f, w := SboxTerm(sub, tk), ppk[..];
    ppk[0] := Add16(ppk[0], sub(Xor16(ppk[5], Le16(tk, 0))));
    assert ppk[..] == Chain(Add16, f, w, 1);
    ppk[1] := Add16(ppk[1], sub(Xor16(ppk[0], Le16(tk, 2))));
    assert ppk[..] == Chain(Add16, f, w, 2);
    ppk[2] := Add16(ppk[2], sub(Xor16(ppk[1], Le16(tk, 4))));
    assert ppk[..] == Chain(Add16, f, w, 3);
    ppk[3] := Add16(ppk[3], sub(Xor16(ppk[2], Le16(tk, 6))));
    assert ppk[..] == Chain(Add16, f, w, 4);
    ppk[4] := Add16(ppk[4], sub(Xor16(ppk[3], Le16(tk, 8))));
    assert ppk[..] == Chain(Add16, f, w, 5);
    ppk[5] := Add16(ppk[5], sub(Xor16(ppk[4], Le16(tk, 10))));
    assert ppk[..] == Chain(Add16, f, w, 6);
  }

  method RotatePass(tk: Key16, ppk: array<bv16>)
    requires ppk.Length == 6
    modifies ppk
    ensures ppk[..] == Chain(Add16, RotateTerm(tk), old(ppk[..]), 6)
  {
    ghost var f, w := RotateTerm(tk), ppk[..];
    ppk[0] := Add16(ppk[0], RotR1(Xor16(ppk[5], Le16(tk, 12))));
    assert ppk[..] == Chain(Add16, f, w, 1);
    ppk[1] := Add16(ppk[1], RotR1(Xor16(ppk[0], Le16(tk, 14))));
    assert ppk[..] == Chain(Add16, f, w, 2);
    ppk[2] := Add16(ppk[2], RotR1(ppk[1]));
    assert ppk[..] == Chain(Add16, f, w, 3);
    ppk[3] := Add16(ppk[3], RotR1(ppk[2]));
    assert ppk[..] == Chain(Add16, f, w, 4);
    ppk[4] := Add16(ppk[4], RotR1(ppk[3]));
    assert ppk[..] == Chain(Add16, f, w, 5);
    ppk[5] := Add16(ppk[5], RotR1(ppk[4]));
    assert ppk[..] == Chain(Add16, f, w, 6);
  }

  method MixPhase2(sub: Substitution, seed: array<bv8>, tk: Key16, ttak: array<bv16>, iv16: bv16)
    requires seed.Length == 16 && ttak.Length == 5
    modifies seed
    ensures seed[..] == Phase2(sub, tk, ttak[..], iv16)
  {
    hide Chain, WepSeed;
    var ppk := new bv16[6];
    ppk[0], ppk[1], ppk[2], ppk[3], ppk[4] := ttak[0], ttak[1], ttak[2], ttak[3], ttak[4];
    ppk[5] := Add16(iv16, ttak[4]);
    assert ppk[..] == BringInTsc(ttak[..], iv16);
    SboxPass(sub, tk, ppk);
    RotatePass(tk, ppk);
    PutSeed(seed, tk, ppk[..], iv16);
  }

  method PutSeed(seed: array<bv8>, tk: Key16, ppk: seq<bv16>, iv16: bv16)
    requires seed.Length == 16 && |ppk| == 6
    modifies seed
    ensures seed[..] == WepSeed(tk, ppk, iv16)
  {
    seed[0], seed[1], seed[2] := Hi8(iv16), (Hi8(iv16) | 0x20) & 0x7f, Lo8(iv16);
    seed[3] := Lo8((ppk[5] ^ Le16(tk, 0)) >> 1);
    for k := 0 to 6
      invariant forall x | 0 <= x < 4 + 2 * k :: seed[x] == WepSeed(tk, ppk, iv16)[x]
    {
      seed[4 + 2 * k], seed[5 + 2 * k] := Lo8(ppk[k]), Hi8(ppk[k]);
    }
  }

  lemma SeedCarriesMixedBits(tk: Key16, ppk: seq<bv16>, iv16: bv16, ppk': seq<bv16>, iv16': bv16)
    requires |ppk| == 6 && |ppk'| == 6
    requires WepSeed(tk, ppk, iv16)[4..] == WepSeed(tk, ppk', iv16')[4..]
    ensures ppk == ppk'
  {
    var s, s' := WepSeed(tk, ppk, iv16)[4..], WepSeed(tk, ppk', iv16')[4..];
    forall k: nat | k < 6
      ensures ppk[k] == ppk'[k]
    {
      assert s[2 * k] == Lo8(ppk[k]) && s[2 * k + 1] == Hi8(ppk[k]);
      assert s'[2 * k] == Lo8(ppk'[k]) && s'[2 * k + 1] == Hi8(ppk'[k]);
      Word16RoundTrip(ppk[k]);
      Word16RoundTrip(ppk'[k]);
    }
  }

  lemma MixedInjective(sub: Substitution, tk: Key16, t: seq<bv16>, iv16: bv16, t': seq<bv16>, iv16': bv16)
    requires |t| == 5 && |t'| == 5
    requires Mixed(sub, tk, t, iv16) == Mixed(sub, tk, t', iv16')
    ensures t == t' && iv16 == iv16'
  {
    var p, p' := BringInTsc(t, iv16), BringInTsc(t', iv16');
    Add16Cancels();
    ChainInjective(Add16, RotateTerm(tk),
                   Chain(Add16, SboxTerm(sub, tk), p, 6), Chain(Add16, SboxTerm(sub, tk), p', 6), 6);
    ChainInjective(Add16, SboxTerm(sub, tk), p, p', 6);
    assert t == p[..5] && t' == p'[..5];
    assert Add16(iv16, t[4]) == p[5] && Add16(iv16', t[4]) == p'[5];
    SumCancels(iv16, iv16', t[4]);
  }

  // ---- The per-packet key ----

  function PacketKey(sub: Substitution, tk: Key16, ta: seq<bv8>, iv32: bv32, iv16: bv16): (seed: seq<bv8>)
    requires |ta| == 6
    ensures |seed| == 16
  {
    Phase2(sub, tk, Phase1(sub, tk, ta, iv32), iv16)
  }

  lemma PacketKeyCarriesIv(sub: Substitution, tk: Key16, ta: seq<bv8>, iv32: bv32, iv16: bv16)
    requires |ta| == 6
    ensures PacketKey(sub, tk, ta, iv32, iv16)[0] == Hi8(iv16)
    ensures PacketKey(sub, tk, ta, iv32, iv16)[2] == Lo8(iv16)
  {
  }

  /**
   Distinct (transmitter address, 48-bit TSC) pairs have per-packet keys that already
   differ in octets 4 to 15, for every temporal key and every S-box.
   */
  lemma PacketKeyInjective(sub: Substitution, tk: Key16, ta: seq<bv8>, iv32: bv32, iv16: bv16,
                           ta': seq<bv8>, iv32': bv32, iv16': bv16)
    requires |ta| == 6 && |ta'| == 6
    requires PacketKey(sub, tk, ta, iv32, iv16)[4..] == PacketKey(sub, tk, ta', iv32', iv16')[4..]
    ensures ta == ta' && iv32 == iv32' && iv16 == iv16'
  {
    var t, t' := Phase1(sub, tk, ta, iv32), Phase1(sub, tk, ta', iv32');
    SeedCarriesMixedBits(tk, Mixed(sub, tk, t, iv16), iv16, Mixed(sub, tk, t', iv16'), iv16');
    MixedInjective(sub, tk, t, iv16, t', iv16');
    Phase1Injective(sub, tk, ta, iv32, ta', iv32');
  }
}
