/**
 What the handshake tracker does learn: which key every message 2, 3 and 4 of a run makes current or
 tentative, and which group keys an announcement stores. Stated on the frames of the run, the keys
 configured and the primitives, with the bits and octets written out.
 */
module EapolKeys {
  import opened Bytes
  import opened Eapol

  // ---- Key Information ----

  /** The bits that tell the messages apart: masks 0x2fc8, 0x2cc8 and 0x2e88 leave out what is not looked at. */
  lemma MessageByBits(f: Frame)
    ensures
      var i := f.keyInfo;
      var ok := f.wellFormed && i & 0x0004 == 0;
      && (MessageOf(f) == M1 <==> ok && i & 0x2fc8 == 0x0088)
      && (MessageOf(f) == M2 <==> ok && i & 0x2cc8 == 0x0008 && i & 0x0300 != 0 && f.keyData != [])
      && (MessageOf(f) == M3 <==> ok && i & 0x2cc8 == 0x00c8 && i & 0x0300 != 0)
      && (MessageOf(f) == M4 <==> ok && i & 0x2cc8 == 0x0008 && i & 0x0300 != 0 && f.keyData == [])
      && (MessageOf(f) == G1 <==> ok && i & 0x2e88 == 0x0280)
      && (MessageOf(f) == G2 <==> ok && i & 0x2e88 == 0x0200)
  {
    InfoBits(f.keyInfo);
  }

  lemma InfoBits(i: bv16)
    ensures i & TYPE_MASK > 3 <==> i & 0x0004 != 0
    ensures i & 0x2fc8 == 0x0088 <==> Bit(i, KEY_TYPE) && Bit(i, ACK) && !Bit(i, INSTALL)
                                       && !Bit(i, MIC) && !Bit(i, SECURE)
                                       && !Bit(i, ERROR) && !Bit(i, REQUEST) && !Bit(i, SMK_MESSAGE)
    ensures i & 0x2cc8 == 0x0008 <==> Bit(i, KEY_TYPE) && !Bit(i, ACK) && !Bit(i, INSTALL)
                                       && !Bit(i, ERROR) && !Bit(i, REQUEST) && !Bit(i, SMK_MESSAGE)
    ensures i & 0x2cc8 == 0x00c8 <==> Bit(i, KEY_TYPE) && Bit(i, ACK) && Bit(i, INSTALL)
                                       && !Bit(i, ERROR) && !Bit(i, REQUEST) && !Bit(i, SMK_MESSAGE)
    ensures i & 0x2e88 == 0x0280 <==> !Bit(i, KEY_TYPE) && Bit(i, ACK) && Bit(i, SECURE)
                                       && !Bit(i, ERROR) && !Bit(i, REQUEST) && !Bit(i, SMK_MESSAGE)
    ensures i & 0x2e88 == 0x0200 <==> !Bit(i, KEY_TYPE) && !Bit(i, ACK) && Bit(i, SECURE)
                                       && !Bit(i, ERROR) && !Bit(i, REQUEST) && !Bit(i, SMK_MESSAGE)
    ensures i & 0x0300 != 0 <==> Bit(i, MIC) || Bit(i, SECURE)
  {
  }

  // ---- The nonces of a run ----

  const NO_NONCE: Octets :=
    [0, 0, 0, 0, 0, 0, 0, 0, 0, 0, 0, 0, 0, 0, 0, 0, 0, 0, 0, 0, 0, 0, 0, 0, 0, 0, 0, 0, 0, 0, 0, 0]

  /** ANonce of the last message 1 or 3 among the first n events; zeros when there is none. */
  ghost function LastANonce(es: seq<Event>, n: nat): Octets
    requires n <= |es|
  {
    if n == 0 then NO_NONCE
    else if MessageOf(es[n - 1].frame) == M1 || MessageOf(es[n - 1].frame) == M3 then es[n - 1].frame.nonce
    else LastANonce(es, n - 1)
  }

  /** SNonce of the last message 2. */
  ghost function LastSNonce(es: seq<Event>, n: nat): Octets
    requires n <= |es|
  {
    if n == 0 then NO_NONCE
    else if MessageOf(es[n - 1].frame) == M2 then es[n - 1].frame.nonce
    else LastSNonce(es, n - 1)
  }

  lemma StepKeepsNonces(env: Env, rsn: bool, s: State, f: Frame)
    ensures
      var p, q, m := s.pair, Step(env, rsn, s, f).pair, MessageOf(f);
      && q.anonce == (if m == M1 || m == M3 then f.nonce else p.anonce)
      && q.snonce == (if m == M2 then f.nonce else p.snonce)
  {
    hide Derived, LearnedKdes, Verifies, MessageOf;
    DerivedKeys(env, s.pair.(snonce := f.nonce), f);
    DerivedKeys(env, s.pair.(anonce := f.nonce), f);
  }

  /** The tracker holds the nonces sent last. */
  lemma {:induction false} NoncesAreThoseSentLast(keyMgmt: nat, es: seq<Event>, n: nat)
    requires n <= |es|
    ensures At(keyMgmt, es, n).pair.anonce == LastANonce(es, n)
    ensures At(keyMgmt, es, n).pair.snonce == LastSNonce(es, n)
  {
    hide Step, MessageOf;
    if n > 0 {
      NoncesAreThoseSentLast(keyMgmt, es, n - 1);
      StepKeepsNonces(es[n - 1].env, es[n - 1].rsn, At(keyMgmt, es, n - 1), es[n - 1].frame);
    }
  }

  /** At first there is no key, pairwise or group, and every counter is zero. */
  lemma {:induction false} StartsWithoutKeys(keyMgmt: nat, es: seq<Event>)
    ensures
      var s := At(keyMgmt, es, 0);
      && !s.pair.ptkSet && !s.pair.tptkSet && s.pair.keyMgmt == keyMgmt && ZeroedTables(s.pair)
      && s.group.gtk == map[] && s.group.igtk == map[] && s.group.rsc == map[] && s.group.ipn == map[]
  {
  }

  // ---- Learning a pairwise key ----

  /** Key management at event n, which the MIC and the derivation depend on. */
  ghost function KeyMgmtAt(keyMgmt: nat, es: seq<Event>, n: nat): nat
    requires n <= |es|
  {
    At(keyMgmt, es, n).pair.keyMgmt
  }

  /** Message 2, or message 3 with another ANonce than the one before: the frames that learn a pairwise key. */
  ghost predicate TriesKeys(es: seq<Event>, n: nat)
    requires n < |es|
  {
    var m := MessageOf(es[n].frame);
    m == M2 || (m == M3 && es[n].frame.nonce != LastANonce(es, n))
  }

  /** The MIC of event n verifies under the key confirmation key; the version is in the low three bits. */
  ghost predicate MicFits(keyMgmt: nat, es: seq<Event>, n: nat, kck: Octets)
    requires n < |es|
  {
    es[n].env.micOk(kck, KeyMgmtAt(keyMgmt, es, n), es[n].frame.keyInfo & 0x0007, es[n].frame.data)
  }

  /** The PTK that a PMK gives for the nonces sent last, this frame's among them. */
  ghost function PtkFrom(keyMgmt: nat, es: seq<Event>, n: nat, pmk: Octets): Option<Ptk>
    requires n < |es|
  {
    es[n].env.derive(pmk, LastANonce(es, n + 1), LastSNonce(es, n + 1), KeyMgmtAt(keyMgmt, es, n))
  }

  ghost predicate PmkFits(keyMgmt: nat, es: seq<Event>, n: nat, pmk: Octets)
    requires n < |es|
  {
    var k := PtkFrom(keyMgmt, es, n, pmk);
    k.Some? && MicFits(keyMgmt, es, n, k.value.kck)
  }

  ghost function Pmks(e: Event): seq<Octets> {
    e.env.bssPmks + e.env.globalPmks
  }

  /** Both tables: a zero packet number for each of 16 TIDs and for management frames. */
  ghost predicate ZeroedTables(p: Pairwise) {
    && |p.rscToDs| == 17 && |p.rscFromDs| == 17
    && forall t | 0 <= t < 17 :: p.rscToDs[t] == [0, 0, 0, 0, 0, 0] && p.rscFromDs[t] == [0, 0, 0, 0, 0, 0]
  }

  /** Neither key nor counters differ. */
  ghost predicate SameKeys(p: Pairwise, q: Pairwise) {
    && q.ptk == p.ptk && q.ptkSet == p.ptkSet && q.tptk == p.tptk && q.tptkSet == p.tptkSet
    && q.rscToDs == p.rscToDs && q.rscFromDs == p.rscFromDs
  }

  /** q has learned k: as its current key with zeroed tables if p had none, else as its tentative key. */
  ghost predicate Learns(p: Pairwise, q: Pairwise, k: Ptk) {
    if p.ptkSet then
      && q.tptkSet && q.tptk == k
      && q.ptkSet && q.ptk == p.ptk && q.rscToDs == p.rscToDs && q.rscFromDs == p.rscFromDs
    else
      && q.ptkSet && q.ptk == k && ZeroedTables(q)
      && q.tptk == p.tptk && q.tptkSet == p.tptkSet
  }

  lemma {:induction false} FirstTriedIs(env: Env, p: Pairwise, f: Frame, pmks: seq<Octets>, i: nat)
    requires i < |pmks| && Tried(env, p, f, pmks[i]).Some?
    requires forall j | 0 <= j < i :: Tried(env, p, f, pmks[j]).None?
    ensures FirstTried(env, p, f, pmks) == Tried(env, p, f, pmks[i])
  {
    hide Tried;
    if i > 0 {
      FirstTriedIs(env, p, f, pmks[1..], i - 1);
    }
  }

  lemma {:induction false} NoneTried(env: Env, p: Pairwise, f: Frame, pmks: seq<Octets>)
    requires forall j | 0 <= j < |pmks| :: Tried(env, p, f, pmks[j]).None?
    ensures FirstTried(env, p, f, pmks).None?
  {
    hide Tried;
    if |pmks| > 0 {
      NoneTried(env, p, f, pmks[1..]);
    }
  }

  ghost predicate PresetFits(env: Env, p: Pairwise, f: Frame, k: Ptk) {
    env.micOk(k.kck, p.keyMgmt, Version(f), f.data)
  }

  lemma {:induction false} LastPresetIs(env: Env, p: Pairwise, f: Frame, ptks: seq<Ptk>, i: nat)
    requires i < |ptks| && PresetFits(env, p, f, ptks[i])
    requires forall j | i < j < |ptks| :: !PresetFits(env, p, f, ptks[j])
    ensures LastPreset(env, p, f, ptks) == Some(ptks[i])
  {
    if i < |ptks| - 1 {
      assert !PresetFits(env, p, f, ptks[|ptks| - 1]);
      LastPresetIs(env, p, f, ptks[..|ptks| - 1], i);
    }
  }

  lemma {:induction false} NoPreset(env: Env, p: Pairwise, f: Frame, ptks: seq<Ptk>)
    requires forall j | 0 <= j < |ptks| :: !PresetFits(env, p, f, ptks[j])
    ensures LastPreset(env, p, f, ptks).None?
  {
    if |ptks| > 0 {
      assert !PresetFits(env, p, f, ptks[|ptks| - 1]);
      NoPreset(env, p, f, ptks[..|ptks| - 1]);
    }
  }

  /** The pairwise state that derivation starts from at event n. */
  ghost function WithNonces(keyMgmt: nat, es: seq<Event>, n: nat): Pairwise
    requires n < |es|
  {
    At(keyMgmt, es, n).pair.(anonce := LastANonce(es, n + 1), snonce := LastSNonce(es, n + 1))
  }

  /** A frame that tries keys ends with those of the derivation. */
  lemma {:induction false} TriesDerivation(keyMgmt: nat, es: seq<Event>, n: nat)
    requires n < |es| && TriesKeys(es, n)
    ensures SameKeys(Derived(es[n].env, WithNonces(keyMgmt, es, n), es[n].frame), At(keyMgmt, es, n + 1).pair)
  {
    hide Derived, LearnedKdes, Verifies, MessageOf;
    NoncesAreThoseSentLast(keyMgmt, es, n);
    NoncesAreThoseSentLast(keyMgmt, es, n + 1);
  }

  lemma TriedIsFit(keyMgmt: nat, es: seq<Event>, n: nat, pmk: Octets)
    requires n < |es|
    ensures
      Tried(es[n].env, WithNonces(keyMgmt, es, n), es[n].frame, pmk) ==
      if PmkFits(keyMgmt, es, n, pmk) then PtkFrom(keyMgmt, es, n, pmk) else None
  {
  }

  lemma LearnedLearns(p: Pairwise, q: Pairwise, k: Ptk)
    requires SameKeys(Learned(p, k), q)
    ensures Learns(p, q, k)
  {
  }

  /**
   Over every run: the PTK from the first PMK that fits, those of the BSS before the global ones, is
   learned from the frame.
   */
  lemma {:induction false} FirstFittingPmkIsLearned(keyMgmt: nat, es: seq<Event>, n: nat, i: nat)
    requires n < |es| && TriesKeys(es, n) && i < |Pmks(es[n])|
    requires PmkFits(keyMgmt, es, n, Pmks(es[n])[i])
    requires forall j | 0 <= j < i :: !PmkFits(keyMgmt, es, n, Pmks(es[n])[j])
    ensures Learns(At(keyMgmt, es, n).pair, At(keyMgmt, es, n + 1).pair, PtkFrom(keyMgmt, es, n, Pmks(es[n])[i]).value)
  {
    hide At, Tried, Learned, Learns, SameKeys;
    var p, pmks := WithNonces(keyMgmt, es, n), Pmks(es[n]);
    forall j | 0 <= j <= i
      ensures Tried(es[n].env, p, es[n].frame, pmks[j]) ==
              if j == i then PtkFrom(keyMgmt, es, n, pmks[j]) else None
    {
      TriedIsFit(keyMgmt, es, n, pmks[j]);
    }
    FirstTriedIs(es[n].env, p, es[n].frame, pmks, i);
    TriesDerivation(keyMgmt, es, n);
    var k := PtkFrom(keyMgmt, es, n, pmks[i]).value;
    LearnedLearns(p, At(keyMgmt, es, n + 1).pair, k);
    SameButNonces(keyMgmt, es, n, k);
  }

  lemma {:induction false} SameButNonces(keyMgmt: nat, es: seq<Event>, n: nat, k: Ptk)
    requires n < |es|
    ensures forall q :: Learns(WithNonces(keyMgmt, es, n), q, k) <==> Learns(At(keyMgmt, es, n).pair, q, k)
    ensures forall q :: SameKeys(WithNonces(keyMgmt, es, n), q) <==> SameKeys(At(keyMgmt, es, n).pair, q)
  {
  }

  /** When no PMK fits and there is no key yet, the last preset key that fits becomes current. */
  lemma {:induction false} LastFittingPresetIsLearned(keyMgmt: nat, es: seq<Event>, n: nat, i: nat)
    requires n < |es| && TriesKeys(es, n) && !At(keyMgmt, es, n).pair.ptkSet
    requires forall j | 0 <= j < |Pmks(es[n])| :: !PmkFits(keyMgmt, es, n, Pmks(es[n])[j])
    requires i < |es[n].env.presetPtks| && MicFits(keyMgmt, es, n, es[n].env.presetPtks[i].kck)
    requires forall j | i < j < |es[n].env.presetPtks| :: !MicFits(keyMgmt, es, n, es[n].env.presetPtks[j].kck)
    ensures Learns(At(keyMgmt, es, n).pair, At(keyMgmt, es, n + 1).pair, es[n].env.presetPtks[i])
  {
    hide At, Tried, Learned, Learns, SameKeys;
    var p, ptks := WithNonces(keyMgmt, es, n), es[n].env.presetPtks;
    NoPmkTried(keyMgmt, es, n);
    forall j | i <= j < |ptks|
      ensures PresetFits(es[n].env, p, es[n].frame, ptks[j]) <==> MicFits(keyMgmt, es, n, ptks[j].kck)
    {
    }
    LastPresetIs(es[n].env, p, es[n].frame, ptks, i);
    TriesDerivation(keyMgmt, es, n);
    LearnedLearns(p, At(keyMgmt, es, n + 1).pair, ptks[i]);
    SameButNonces(keyMgmt, es, n, ptks[i]);
  }

  lemma {:induction false} NoPmkTried(keyMgmt: nat, es: seq<Event>, n: nat)
    requires n < |es|
    requires forall j | 0 <= j < |Pmks(es[n])| :: !PmkFits(keyMgmt, es, n, Pmks(es[n])[j])
    ensures FirstTried(es[n].env, WithNonces(keyMgmt, es, n), es[n].frame, Pmks(es[n])).None?
  {
    hide At, Tried;
    forall j | 0 <= j < |Pmks(es[n])|
      ensures Tried(es[n].env, WithNonces(keyMgmt, es, n), es[n].frame, Pmks(es[n])[j]).None?
    {
      TriedIsFit(keyMgmt, es, n, Pmks(es[n])[j]);
    }
    NoneTried(es[n].env, WithNonces(keyMgmt, es, n), es[n].frame, Pmks(es[n]));
  }

  /** Otherwise no key is learned: no PMK fits, and there is a key already or no preset key fits. */
  lemma {:induction false} NothingFitsNothingLearned(keyMgmt: nat, es: seq<Event>, n: nat)
    requires n < |es| && TriesKeys(es, n)
    requires forall j | 0 <= j < |Pmks(es[n])| :: !PmkFits(keyMgmt, es, n, Pmks(es[n])[j])
    requires At(keyMgmt, es, n).pair.ptkSet ||
             forall j | 0 <= j < |es[n].env.presetPtks| :: !MicFits(keyMgmt, es, n, es[n].env.presetPtks[j].kck)
    ensures SameKeys(At(keyMgmt, es, n).pair, At(keyMgmt, es, n + 1).pair)
  {
    hide At, Tried, Learned, SameKeys;
    var p, ptks := WithNonces(keyMgmt, es, n), es[n].env.presetPtks;
    NoPmkTried(keyMgmt, es, n);
    if !p.ptkSet {
      forall j | 0 <= j < |ptks|
        ensures !PresetFits(es[n].env, p, es[n].frame, ptks[j])
      {
        assert !MicFits(keyMgmt, es, n, ptks[j].kck);
      }
      NoPreset(es[n].env, p, es[n].frame, ptks);
    }
    TriesDerivation(keyMgmt, es, n);
    SameButNonces(keyMgmt, es, n, NO_PTK);
  }

  /** A message 4 that verifies under the tentative key makes it current, and zeroes both tables. */
  lemma {:induction false} Message4Installs(keyMgmt: nat, es: seq<Event>, n: nat)
    requires n < |es| && MessageOf(es[n].frame) == M4
    ensures
      var p, q := At(keyMgmt, es, n).pair, At(keyMgmt, es, n + 1).pair;
      if p.tptkSet && MicFits(keyMgmt, es, n, p.tptk.kck)
      then q.ptkSet && q.ptk == p.tptk && !q.tptkSet && ZeroedTables(q)
      else q == p
  {
    hide MessageOf;
  }

  /** Frames of any other kind leave keys and counters alone. */
  lemma {:induction false} OtherFramesKeepKeys(keyMgmt: nat, es: seq<Event>, n: nat)
    requires n < |es| && !TriesKeys(es, n) && MessageOf(es[n].frame) != M4
    ensures SameKeys(At(keyMgmt, es, n).pair, At(keyMgmt, es, n + 1).pair)
  {
    hide MessageOf, LearnedKdes, Verifies, Derived;
    NoncesAreThoseSentLast(keyMgmt, es, n);
  }

  // ---- Key management and group keys ----

  /** The key a frame of a handshake is checked with: tentative before current. */
  ghost predicate VerifiesUnder(keyMgmt: nat, es: seq<Event>, n: nat, k: Ptk)
    requires n < |es|
  {
    var q := At(keyMgmt, es, n + 1).pair;
    && (q.tptkSet || q.ptkSet) && k == (if q.tptkSet then q.tptk else q.ptk)
    && MicFits(keyMgmt, es, n, k.kck)
  }

  lemma {:induction false} CheckedWithActive(keyMgmt: nat, es: seq<Event>, n: nat, k: Ptk)
    requires n < |es|
    ensures
      VerifiesUnder(keyMgmt, es, n, k) <==>
      && Active(At(keyMgmt, es, n + 1).pair) == Some(k)
      && Verifies(es[n].env, Some(k), KeyMgmtAt(keyMgmt, es, n), es[n].frame)
  {
    hide At;
  }

  lemma OnM2Is(env: Env, p: Pairwise, f: Frame)
    ensures
      var q, r := Derived(env, p.(snonce := f.nonce), f), OnM2(env, p, f);
      && Active(r) == Active(q) && q.keyMgmt == p.keyMgmt
      && r.keyMgmt == if Verifies(env, Active(q), p.keyMgmt, f) && env.keyMgmtFromIe.Some?
                      then env.keyMgmtFromIe.value else p.keyMgmt
  {
    hide Derived, Verifies;
    DerivedKeys(env, p.(snonce := f.nonce), f);
  }

  lemma OnM3Is(env: Env, s: State, f: Frame)
    ensures
      var q, t := PairwiseOnM3(env, s.pair, f), OnM3(env, s, f);
      && t.pair == q && q.keyMgmt == s.pair.keyMgmt
      && (!Verifies(env, Active(q), q.keyMgmt, f) ==> t.group == s.group)
      && (Verifies(env, Active(q), q.keyMgmt, f) ==>
            var buf := KeyDataOf(env, Active(q).value, f);
            t.group == if buf.Some? then LearnedKdes(env, s.group, buf.value, f.rsc) else s.group)
  {
    hide Derived, LearnedKdes;
    DerivedKeys(env, s.pair.(anonce := f.nonce), f);
  }

  /** Key management follows the element of a message 2 whose MIC verifies, and nothing else. */
  lemma {:induction false} KeyMgmtFollowsMessage2(keyMgmt: nat, es: seq<Event>, n: nat)
    requires n < |es|
    ensures
      KeyMgmtAt(keyMgmt, es, n + 1) ==
      if MessageOf(es[n].frame) == M2 && es[n].env.keyMgmtFromIe.Some? && exists k :: VerifiesUnder(keyMgmt, es, n, k)
      then es[n].env.keyMgmtFromIe.value else KeyMgmtAt(keyMgmt, es, n)
  {
    hide MessageOf, OnM2, OnM3, OnM4, Derived, Verifies, VerifiesUnder, Active;
    var s, f, env := At(keyMgmt, es, n), es[n].frame, es[n].env;
    OnM2Is(env, s.pair, f);
    OnM3Is(env, s, f);
    KeepsKeyMgmt(env, s.pair, f);
    var a := Active(At(keyMgmt, es, n + 1).pair);
    forall k
      ensures VerifiesUnder(keyMgmt, es, n, k) <==> a == Some(k) && Verifies(env, Some(k), s.pair.keyMgmt, f)
    {
      CheckedWithActive(keyMgmt, es, n, k);
    }
    NothingVerifies(env, s.pair.keyMgmt, f);
  }

  lemma KeepsKeyMgmt(env: Env, p: Pairwise, f: Frame)
    ensures OnM4(env, p, f).keyMgmt == p.keyMgmt
  {
  }

  lemma NothingVerifies(env: Env, keyMgmt: nat, f: Frame)
    ensures !Verifies(env, None, keyMgmt, f)
  {
  }

  /** The GTK element: key id in the low two bits of octet 0, the key from octet 2, the counter announced reversed. */
  ghost predicate StoresGtk(g: Group, h: Group, kde: Option<Octets>, rsc: Octets)
    requires |rsc| == 8
  {
    if kde.None? || |kde.value| < 2 || |kde.value| > 34 then
      h.gtk == g.gtk && h.rsc == g.rsc && h.gtkIdx == g.gtkIdx && h.staGtk == g.staGtk && h.staGtkIdx == g.staGtkIdx
    else
      exists id: nat | id < 4 && IsLowTwoBits(id, kde.value[0]) ::
        && h.gtk == g.gtk[id := kde.value[2..]]
        && h.rsc == g.rsc[id := [rsc[5], rsc[4], rsc[3], rsc[2], rsc[1], rsc[0]]]
        && h.gtkIdx == id && h.staGtk == kde.value[2..] && h.staGtkIdx == id
  }

  predicate IsLowTwoBits(id: nat, v: bv8) {
    || (id == 0 && v & 0x03 == 0) || (id == 1 && v & 0x03 == 1)
    || (id == 2 && v & 0x03 == 2) || (id == 3 && v & 0x03 == 3)
  }

  /** The IGTK element: key id in octets 0 and 1, packet number reversed in 2 to 7, then a key of 16 or 32 octets. */
  ghost predicate StoresIgtk(g: Group, h: Group, kde: Option<Octets>) {
    if kde.None? || (|kde.value| != 24 && |kde.value| != 40) || kde.value[1] != 0 || kde.value[0] > 5 then
      h.igtk == g.igtk && h.ipn == g.ipn && h.igtkIdx == g.igtkIdx
    else
      var v, id := kde.value, kde.value[0] as nat;
      && h.igtk == g.igtk[id := v[8..]]
      && h.ipn == g.ipn[id := [v[7], v[6], v[5], v[4], v[3], v[2]]]
      && h.igtkIdx == id
  }

  lemma LowTwoBits(v: bv8)
    ensures IsLowTwoBits((v & 0x03) as int, v) && (v & 0x03) as int < 4
  {
  }

  lemma GtkIsStored(g: Group, kde: Option<Octets>, rsc: Octets)
    requires |rsc| == 8
    ensures StoresGtk(g, LearnedGtk(g, kde, rsc), kde, rsc)
    ensures
      var h := LearnedGtk(g, kde, rsc);
      h.igtk == g.igtk && h.ipn == g.ipn && h.igtkIdx == g.igtkIdx
  {
    if kde.Some? && |kde.value| >= 2 {
      LowTwoBits(kde.value[0]);
    }
  }

  lemma SmallWord(lo: bv8, hi: bv8)
    ensures Mk16(hi, lo) as int <= 5 <==> hi == 0 && lo <= 5
    ensures hi == 0 && lo <= 5 ==> Mk16(hi, lo) as int == lo as int
  {
    hide Mk16;
    SmallWordBits(lo, hi);
  }

  lemma SmallWordBits(lo: bv8, hi: bv8)
    ensures Mk16(hi, lo) <= 5 <==> hi == 0 && lo <= 5
    ensures hi == 0 ==> Mk16(hi, lo) == lo as bv16
  {
  }

  lemma IgtkIsStored(g: Group, kde: Option<Octets>)
    ensures StoresIgtk(g, LearnedIgtk(g, kde), kde)
    ensures
      var h := LearnedIgtk(g, kde);
      && h.gtk == g.gtk && h.rsc == g.rsc && h.gtkIdx == g.gtkIdx && h.staGtk == g.staGtk
      && h.staGtkIdx == g.staGtkIdx
  {
    if kde.Some? && |kde.value| >= 2 {
      hide Mk16;
      SmallWord(kde.value[0], kde.value[1]);
    }
  }

  /** The elements of decrypted key data are stored, both of them, if they parse. */
  ghost predicate StoresKdes(env: Env, g: Group, h: Group, buf: Octets, rsc: Octets)
    requires |rsc| == 8
  {
    var k := env.parse(buf);
    if k.None? then h == g else StoresGtk(g, h, k.value.gtk, rsc) && StoresIgtk(g, h, k.value.igtk)
  }

  lemma KdesAreStored(env: Env, g: Group, buf: Octets, rsc: Octets)
    requires |rsc| == 8
    ensures StoresKdes(env, g, LearnedKdes(env, g, buf, rsc), buf, rsc)
  {
    hide LearnedGtk, LearnedIgtk;
    var k := env.parse(buf);
    if k.Some? {
      GtkIsStored(g, k.value.gtk, rsc);
      IgtkIsStored(LearnedGtk(g, k.value.gtk, rsc), k.value.igtk);
    }
  }

  /**
   A message 3 stores the group keys it carries exactly when it verifies under the key it is checked
   with and its key data, decrypted with that key when bit 0x1000 says so, can be read.
   */
  lemma {:induction false} Message3StoresGroupKeys(keyMgmt: nat, es: seq<Event>, n: nat, k: Ptk)
    requires n < |es| && MessageOf(es[n].frame) == M3
    ensures
      var f, g, h := es[n].frame, At(keyMgmt, es, n).group, At(keyMgmt, es, n + 1).group;
      var clear := f.keyInfo & 0x1000 == 0;
      VerifiesUnder(keyMgmt, es, n, k) ==>
        var buf := if clear then Some(f.keyData) else es[n].env.decryptKeyData(k.kek, f.keyInfo & 0x0007, f.data);
        if buf.None? then h == g else StoresKdes(es[n].env, g, h, buf.value, f.rsc)
    ensures (forall k :: !VerifiesUnder(keyMgmt, es, n, k)) ==> At(keyMgmt, es, n + 1).group == At(keyMgmt, es, n).group
  {
    hide MessageOf, OnM3, PairwiseOnM3, LearnedKdes, Verifies, VerifiesUnder, Active, StoresKdes;
    var s, f, env := At(keyMgmt, es, n), es[n].frame, es[n].env;
    OnM3Is(env, s, f);
    NothingVerifies(env, s.pair.keyMgmt, f);
    var a := Active(At(keyMgmt, es, n + 1).pair);
    if a.Some? {
      CheckedWithActive(keyMgmt, es, n, a.value);
    }
    CheckedWithActive(keyMgmt, es, n, k);
    var buf := KeyDataOf(env, k, f);
    if buf.Some? {
      KdesAreStored(env, s.group, buf.value, f.rsc);
    }
  }

  /** Key index of a WPA group message: bits 4 and 5. */
  predicate IsKeyIndex(id: nat, info: bv16) {
    || (id == 0 && info & 0x0030 == 0) || (id == 1 && info & 0x0030 == 0x0010)
    || (id == 2 && info & 0x0030 == 0x0020) || (id == 3 && info & 0x0030 == 0x0030)
  }

  lemma KeyIndexIs(info: bv16)
    ensures IsKeyIndex(KeyIndex(info), info)
  {
  }

  /** What the key data of a group message do: elements in RSN, the bare key in WPA. */
  ghost predicate GroupMessageStores(e: Event, g: Group, h: Group, buf: Octets) {
    if e.rsn then StoresKdes(e.env, g, h, buf, e.frame.rsc)
    else if |buf| != (if e.env.groupTkip then 32 else 16) then h == g
    else
      var rsc := e.frame.rsc;
      exists id: nat | IsKeyIndex(id, e.frame.keyInfo) ::
        h == g.(gtk := g.gtk[id := buf], rsc := g.rsc[id := [rsc[5], rsc[4], rsc[3], rsc[2], rsc[1], rsc[0]]])
  }

  /**
   The first group message stores its key exactly when it verifies under the current key, never the
   tentative one, its key data decrypt, and in RSN bit 0x1000 is set.
   */
  lemma {:induction false} GroupMessageStoresKeys(keyMgmt: nat, es: seq<Event>, n: nat)
    requires n < |es| && MessageOf(es[n].frame) == G1
    ensures
      var p, f, env := At(keyMgmt, es, n).pair, es[n].frame, es[n].env;
      var g, h := At(keyMgmt, es, n).group, At(keyMgmt, es, n + 1).group;
      var buf := env.decryptKeyData(p.ptk.kek, f.keyInfo & 0x0007, f.data);
      if p.ptkSet && MicFits(keyMgmt, es, n, p.ptk.kck) && (es[n].rsn ==> f.keyInfo & 0x1000 != 0) && buf.Some?
      then GroupMessageStores(es[n], g, h, buf.value)
      else h == g
  {
    hide MessageOf, LearnedKdes, StoresKdes, KeyIndex;
    var p, f, env := At(keyMgmt, es, n).pair, es[n].frame, es[n].env;
    var buf := env.decryptKeyData(p.ptk.kek, f.keyInfo & 0x0007, f.data);
    KeyIndexIs(f.keyInfo);
    if buf.Some? {
      KdesAreStored(env, At(keyMgmt, es, n).group, buf.value, f.rsc);
    }
  }

  /** No other frame changes a group key. */
  lemma {:induction false} OtherFramesKeepGroupKeys(keyMgmt: nat, es: seq<Event>, n: nat)
    requires n < |es| && MessageOf(es[n].frame) != M3 && MessageOf(es[n].frame) != G1
    ensures At(keyMgmt, es, n + 1).group == At(keyMgmt, es, n).group
  {
    hide MessageOf, OnM2, OnM4;
  }
}
