/**
 Passive tracking of EAPOL-Key handshakes for one station: the current pairwise key (PTK), the
 tentative one during rekeying (TPTK), the receive counters they reset and the group keys.
 Key derivation, MIC computation, key data decryption and element parsing are given with each
 frame, so every result holds whatever they are.
 */
module Eapol {
  import opened Bytes

  type Octets = seq<bv8>
  type Pn = s: seq<bv8> | |s| == 6 witness [0, 0, 0, 0, 0, 0]

  datatype Ptk = Ptk(kck: Octets, kek: Octets, tk: Octets)

  datatype Kdes = Kdes(gtk: Option<Octets>, igtk: Option<Octets>)

  /** Keys known to the monitor when a frame arrives, and the primitives applied to it. */
  datatype Env = Env(
    bssPmks: seq<Octets>, globalPmks: seq<Octets>, presetPtks: seq<Ptk>,
    derive: (Octets, Octets, Octets, nat) -> Option<Ptk>,
    micOk: (Octets, nat, bv16, Octets) -> bool,
    decryptKeyData: (Octets, bv16, Octets) -> Option<Octets>,
    parse: Octets -> Option<Kdes>,
    groupTkip: bool,
    keyMgmtFromIe: Option<nat>)

  datatype KeyFrame = KeyFrame(
    keyInfo: bv16, nonce: Octets, rsc: Octets, keyData: Octets, data: Octets, wellFormed: bool)

  type Frame = f: KeyFrame | |f.rsc| == 8 witness KeyFrame(0, [], [0, 0, 0, 0, 0, 0, 0, 0], [], [], false)

  // ---- Which handshake message a frame is ----

  const TYPE_MASK: bv16 := 0x0007
  const KEY_TYPE: bv16 := 0x0008
  const INSTALL: bv16 := 0x0040
  const ACK: bv16 := 0x0080
  const MIC: bv16 := 0x0100
  const SECURE: bv16 := 0x0200
  const ERROR: bv16 := 0x0400
  const REQUEST: bv16 := 0x0800
  const ENCR_KEY_DATA: bv16 := 0x1000
  const SMK_MESSAGE: bv16 := 0x2000

  datatype Message = M1 | M2 | M3 | M4 | G1 | G2 | Ignored

  predicate Bit(info: bv16, mask: bv16) {
    info & mask != 0
  }

  function Version(f: Frame): bv16 {
    f.keyInfo & TYPE_MASK
  }

  function KeyIndex(info: bv16): nat {
    ((info & 0x0030) >> 4) as int
  }

  lemma KeyIndexInRange(info: bv16)
    ensures KeyIndex(info) < 4
  {
  }

  /** The dispatch of rx_data_eapol_key. */
  function MessageOf(f: Frame): Message {
    var i := f.keyInfo;
    if !f.wellFormed || Version(f) > 3 || Bit(i, ERROR) || Bit(i, REQUEST) || Bit(i, SMK_MESSAGE) then Ignored
    else if Bit(i, KEY_TYPE) then
      if Bit(i, ACK) && !Bit(i, MIC) && !Bit(i, SECURE) && !Bit(i, INSTALL) then M1
      else if Bit(i, ACK) && Bit(i, INSTALL) && (Bit(i, MIC) || Bit(i, SECURE)) then M3
      else if !Bit(i, ACK) && !Bit(i, INSTALL) && (Bit(i, MIC) || Bit(i, SECURE)) then
        if f.keyData == [] then M4 else M2
      else Ignored
    else if Bit(i, SECURE) then if Bit(i, ACK) then G1 else G2
    else Ignored
  }

  // ---- State ----

  /** Pairwise part of the state of a station. */
  datatype Pairwise = Pairwise(
    anonce: Octets, snonce: Octets, keyMgmt: nat,
    ptk: Ptk, ptkSet: bool, tptk: Ptk, tptkSet: bool,
    rscToDs: seq<Pn>, rscFromDs: seq<Pn>)

  /**
   Group keys by key id, each with the counter it was announced with, and the ids last announced;
   then the station's own copy of the last GTK it was sent, and its id.
   */
  datatype Group = Group(
    gtk: map<nat, Octets>, rsc: map<nat, Pn>, igtk: map<nat, Octets>, ipn: map<nat, Pn>, gtkIdx: nat, igtkIdx: nat,
    staGtk: Octets, staGtkIdx: nat)

  datatype State = State(pair: Pairwise, group: Group)

  const ZERO_NONCE: Octets :=
    [0, 0, 0, 0, 0, 0, 0, 0, 0, 0, 0, 0, 0, 0, 0, 0, 0, 0, 0, 0, 0, 0, 0, 0, 0, 0, 0, 0, 0, 0, 0, 0]

  function ZeroTable(): seq<Pn> {
    seq(17, i => [0, 0, 0, 0, 0, 0])
  }

  function Reversed6(s: Octets, at: nat): Pn
    requires at + 6 <= |s|
  {
    [s[at + 5], s[at + 4], s[at + 3], s[at + 2], s[at + 1], s[at]]
  }

  // ---- Deriving the pairwise key ----

  /** The PTK from one PMK, if the frame's MIC verifies under it. */
  function Tried(env: Env, p: Pairwise, f: Frame, pmk: Octets): Option<Ptk> {
    var k := env.derive(pmk, p.anonce, p.snonce, p.keyMgmt);
    if k.Some? && env.micOk(k.value.kck, p.keyMgmt, Version(f), f.data) then k else None
  }

  function FirstTried(env: Env, p: Pairwise, f: Frame, pmks: seq<Octets>): Option<Ptk> {
    if |pmks| == 0 then None
    else
      var k := Tried(env, p, f, pmks[0]);
      if k.Some? then k else FirstTried(env, p, f, pmks[1..])
  }

  /** Of the preset PTKs that fit, the last one in the list. */
  function LastPreset(env: Env, p: Pairwise, f: Frame, ptks: seq<Ptk>): Option<Ptk> {
    if |ptks| == 0 then None
    else
      var k := ptks[|ptks| - 1];
      if env.micOk(k.kck, p.keyMgmt, Version(f), f.data) then Some(k)
      else LastPreset(env, p, f, ptks[..|ptks| - 1])
  }

  /** First key: current at once, counters zeroed. With a key in use, the new one is only tentative. */
  function Learned(p: Pairwise, k: Ptk): Pairwise {
    if p.ptkSet then p.(tptk := k, tptkSet := true)
    else p.(ptk := k, ptkSet := true, rscToDs := ZeroTable(), rscFromDs := ZeroTable())
  }

  function Derived(env: Env, p: Pairwise, f: Frame): Pairwise {
    var k := FirstTried(env, p, f, env.bssPmks + env.globalPmks);
    if k.Some? then Learned(p, k.value)
    else if p.ptkSet then p
    else
      var s := LastPreset(env, p, f, env.presetPtks);
      if s.Some? then Learned(p, s.value) else p
  }

  /** Key under which EAPOL-Key frames are checked: the tentative one while there is one. */
  function Active(p: Pairwise): Option<Ptk> {
    if p.tptkSet then Some(p.tptk) else if p.ptkSet then Some(p.ptk) else None
  }

  predicate Verifies(env: Env, k: Option<Ptk>, keyMgmt: nat, f: Frame) {
    k.Some? && env.micOk(k.value.kck, keyMgmt, Version(f), f.data)
  }

  // ---- Group keys ----

  function WithGtk(g: Group, id: nat, key: Octets, rsc: Octets): Group
    requires |rsc| == 8
  {
    g.(gtk := g.gtk[id := key], rsc := g.rsc[id := Reversed6(rsc, 0)])
  }

  function LearnedGtk(g: Group, kde: Option<Octets>, rsc: Octets): Group
    requires |rsc| == 8
  {
    if kde.Some? && 2 <= |kde.value| <= 34
    then
      var id, key := (kde.value[0] & 0x03) as int, kde.value[2..];
      WithGtk(g, id, key, rsc).(gtkIdx := id, staGtk := key, staGtkIdx := id)
    else g
  }

  function LearnedIgtk(g: Group, kde: Option<Octets>): Group {
    if kde.Some? && (|kde.value| == 24 || |kde.value| == 40) && Le16(kde.value, 0) as int <= 5 then
      var id := Le16(kde.value, 0) as int;
      g.(igtk := g.igtk[id := kde.value[8..]], ipn := g.ipn[id := Reversed6(kde.value, 2)], igtkIdx := id)
    else g
  }

  function LearnedKdes(env: Env, g: Group, buf: Octets, rsc: Octets): Group
    requires |rsc| == 8
  {
    var k := env.parse(buf);
    if k.None? then g else LearnedIgtk(LearnedGtk(g, k.value.gtk, rsc), k.value.igtk)
  }

  // ---- The messages ----

  function OnM2(env: Env, p: Pairwise, f: Frame): Pairwise {
    var q := Derived(env, p.(snonce := f.nonce), f);
    if Verifies(env, Active(q), q.keyMgmt, f) && env.keyMgmtFromIe.Some? then q.(keyMgmt := env.keyMgmtFromIe.value)
    else q
  }

  function PairwiseOnM3(env: Env, p: Pairwise, f: Frame): Pairwise {
    var q := p.(anonce := f.nonce);
    if p.anonce != f.nonce then Derived(env, q, f) else q
  }

  /** Key data of message 3, decrypted with the active key where it is encrypted. */
  function KeyDataOf(env: Env, k: Ptk, f: Frame): Option<Octets> {
    if Bit(f.keyInfo, ENCR_KEY_DATA) then env.decryptKeyData(k.kek, Version(f), f.data) else Some(f.keyData)
  }

  function OnM3(env: Env, s: State, f: Frame): State {
    var q := PairwiseOnM3(env, s.pair, f);
    if !Verifies(env, Active(q), q.keyMgmt, f) then State(q, s.group)
    else
      var buf := KeyDataOf(env, Active(q).value, f);
      State(q, if buf.Some? then LearnedKdes(env, s.group, buf.value, f.rsc) else s.group)
  }

  function OnM4(env: Env, p: Pairwise, f: Frame): Pairwise {
    if Verifies(env, Active(p), p.keyMgmt, f) && p.tptkSet
    then p.(ptk := p.tptk, ptkSet := true, tptkSet := false, rscToDs := ZeroTable(), rscFromDs := ZeroTable())
    else p
  }

  function OnG1(env: Env, s: State, f: Frame, rsn: bool): Group {
    if !s.pair.ptkSet || !Verifies(env, Some(s.pair.ptk), s.pair.keyMgmt, f) then s.group
    else if rsn && !Bit(f.keyInfo, ENCR_KEY_DATA) then s.group
    else
      var buf := env.decryptKeyData(s.pair.ptk.kek, Version(f), f.data);
      if buf.None? then s.group
      else if rsn then LearnedKdes(env, s.group, buf.value, f.rsc)
      else if |buf.value| == (if env.groupTkip then 32 else 16) then
        WithGtk(s.group, KeyIndex(f.keyInfo), buf.value, f.rsc)
      else s.group
  }

  function Step(env: Env, rsn: bool, s: State, f: Frame): State {
    match MessageOf(f)
    case M1 => s.(pair := s.pair.(anonce := f.nonce))
    case M2 => s.(pair := OnM2(env, s.pair, f))
    case M3 => OnM3(env, s, f)
    case M4 => s.(pair := OnM4(env, s.pair, f))
    case G1 => s.(group := OnG1(env, s, f, rsn))
    case _ => s
  }

  // ---- The handlers ----

  class Station {
    var anonce: Octets
    var snonce: Octets
    var keyMgmt: nat
    var ptk: Ptk
    var ptkSet: bool
    var tptk: Ptk
    var tptkSet: bool
    var rscToDs: seq<Pn>
    var rscFromDs: seq<Pn>
    var group: Group

    function Pair(): Pairwise
      reads this
    {
      Pairwise(anonce, snonce, keyMgmt, ptk, ptkSet, tptk, tptkSet, rscToDs, rscFromDs)
    }

    function View(): State
      reads this
    {
      State(Pair(), group)
    }

    constructor (keyMgmt: nat)
      ensures View() == Fresh(keyMgmt)
    {
      anonce, snonce, this.keyMgmt := ZERO_NONCE, ZERO_NONCE, keyMgmt;
      ptk, ptkSet, tptk, tptkSet := NO_PTK, false, NO_PTK, false;
      rscToDs, rscFromDs := ZeroTable(), ZeroTable();
      group := Group(map[], map[], map[], map[], 0, 0, [], 0);
    }

    method TryPmk(env: Env, f: Frame, pmk: Octets) returns (ok: bool)
      modifies this
      ensures group == old(group)
      ensures ok <==> Tried(env, old(Pair()), f, pmk).Some?
      ensures Pair() == if ok then Learned(old(Pair()), Tried(env, old(Pair()), f, pmk).value) else old(Pair())
    {
      var k := env.derive(pmk, anonce, snonce, keyMgmt);
      if k.None? || !env.micOk(k.value.kck, keyMgmt, Version(f), f.data) {
        return false;
      }
      ok := true;
      if ptkSet {
        tptk := k.value;
        tptkSet := true;
        return;
      }
      ptk := k.value;
      ptkSet := true;
      rscToDs := ZeroTable();
      rscFromDs := ZeroTable();
    }

    method TryPmks(env: Env, f: Frame, pmks: seq<Octets>) returns (ok: bool)
      modifies this
      ensures group == old(group)
      ensures ok <==> FirstTried(env, old(Pair()), f, pmks).Some?
      ensures Pair() == if ok then Learned(old(Pair()), FirstTried(env, old(Pair()), f, pmks).value) else old(Pair())
    {
      for n := 0 to |pmks|
        invariant Pair() == old(Pair()) && group == old(group)
        invariant FirstTried(env, old(Pair()), f, pmks) == FirstTried(env, old(Pair()), f, pmks[n..])
      {
        ok := TryPmk(env, f, pmks[n]);
        if ok {
          return;
        }
        assert pmks[n..][1..] == pmks[n + 1..];
      }
      ok := false;
    }

    method DerivePtk(env: Env, f: Frame)
      modifies this
      ensures group == old(group)
      ensures Pair() == Derived(env, old(Pair()), f)
    {
      FirstTriedConcat(env, Pair(), f, env.bssPmks, env.globalPmks);
      var ok := TryPmks(env, f, env.bssPmks);
      if ok {
        return;
      }
      ok := TryPmks(env, f, env.globalPmks);
      if ok {
        return;
      }
      if !ptkSet {
        UsePreset(env, f);
      }
    }

    /** No early exit: a later preset PTK that fits overrides an earlier one. */
    method UsePreset(env: Env, f: Frame)
      requires !ptkSet
      modifies this
      ensures group == old(group)
      ensures
        var s := LastPreset(env, old(Pair()), f, env.presetPtks);
        Pair() == if s.Some? then Learned(old(Pair()), s.value) else old(Pair())
    {
      ghost var p := Pair();
      assert env.presetPtks[..0] == [];
      for n := 0 to |env.presetPtks|
        invariant group == old(group)
        invariant
          var s := LastPreset(env, p, f, env.presetPtks[..n]);
          Pair() == if s.Some? then Learned(p, s.value) else p
      {
        var k := env.presetPtks[n];
        assert env.presetPtks[..n + 1][..n] == env.presetPtks[..n];
        if env.micOk(k.kck, keyMgmt, Version(f), f.data) {
          ptk := k;
          ptkSet := true;
          rscToDs := ZeroTable();
          rscFromDs := ZeroTable();
        }
      }
      assert env.presetPtks[..|env.presetPtks|] == env.presetPtks;
    }

    method Key2Of4(env: Env, f: Frame)
      modifies this
      ensures group == old(group) && Pair() == OnM2(env, old(Pair()), f)
    {
      snonce := f.nonce;
      DerivePtk(env, f);
      if !ptkSet && !tptkSet {
        return;
      }
      var kck := ptk.kck;
      if tptkSet {
        kck := tptk.kck;
      }
      if !env.micOk(kck, keyMgmt, Version(f), f.data) {
        return;
      }
      if env.keyMgmtFromIe.Some? {
        keyMgmt := env.keyMgmtFromIe.value;
      }
    }

    method Key3Of4(env: Env, f: Frame)
      modifies this
      ensures View() == OnM3(env, old(View()), f)
    {
      var recalc := anonce != f.nonce;
      anonce := f.nonce;
      if recalc {
        DerivePtk(env, f);
      }
      if !ptkSet && !tptkSet {
        return;
      }
      var k := ptk;
      if tptkSet {
        k := tptk;
      }
      if !env.micOk(k.kck, keyMgmt, Version(f), f.data) {
        return;
      }
      var buf := KeyDataOf(env, k, f);
      if buf.None? {
        return;
      }
      LearnKdeKeys(env, buf.value, f.rsc);
    }

    method LearnKdeKeys(env: Env, buf: Octets, rsc: Octets)
      requires |rsc| == 8
      modifies this
      ensures Pair() == old(Pair()) && group == LearnedKdes(env, old(group), buf, rsc)
    {
      var k := env.parse(buf);
      if k.None? {
        return;
      }
      LearnGtk(k.value.gtk, rsc);
      LearnIgtk(k.value.igtk);
    }

    method LearnGtk(kde: Option<Octets>, rsc: Octets)
      requires |rsc| == 8
      modifies this`group
      ensures group == LearnedGtk(old(group), kde, rsc)
    {
      if kde.None? {
        return;
      }
      var gtk := kde.value;
      if |gtk| >= 2 && |gtk| <= 2 + 32 {
        var id := (gtk[0] & 0x03) as int;
        group := group.(gtk := group.gtk[id := gtk[2..]], staGtk := gtk[2..]);
        group := group.(rsc := group.rsc[id := [rsc[5], rsc[4], rsc[3], rsc[2], rsc[1], rsc[0]]]);
        group := group.(gtkIdx := id, staGtkIdx := id);
      }
    }

    method LearnIgtk(kde: Option<Octets>)
      modifies this`group
      ensures group == LearnedIgtk(old(group), kde)
    {
      if kde.None? {
        return;
      }
      var igtk := kde.value;
      if |igtk| == 24 || |igtk| == 40 {
        var id := Le16(igtk, 0) as int;
        if id <= 5 {
          group := group.(igtk := group.igtk[id := igtk[8..]]);
          group := group.(ipn := group.ipn[id := [igtk[7], igtk[6], igtk[5], igtk[4], igtk[3], igtk[2]]]);
          group := group.(igtkIdx := id);
        }
      }
    }

    method Key4Of4(env: Env, f: Frame)
      modifies this
      ensures group == old(group) && Pair() == OnM4(env, old(Pair()), f)
    {
      if !ptkSet && !tptkSet {
        return;
      }
      var kck := ptk.kck;
      if tptkSet {
        kck := tptk.kck;
      }
      if !env.micOk(kck, keyMgmt, Version(f), f.data) {
        return;
      }
      if tptkSet {
        ptk := tptk;
        ptkSet := true;
        tptkSet := false;
        rscToDs := ZeroTable();
        rscFromDs := ZeroTable();
      }
    }

    method Key1Of2(env: Env, f: Frame, rsn: bool)
      modifies this
      ensures Pair() == old(Pair()) && group == OnG1(env, old(View()), f, rsn)
    {
      if !ptkSet || !env.micOk(ptk.kck, keyMgmt, Version(f), f.data) {
        return;
      }
      if rsn && !Bit(f.keyInfo, ENCR_KEY_DATA) {
        return;
      }
      var buf := env.decryptKeyData(ptk.kek, Version(f), f.data);
      if buf.None? {
        return;
      }
      if rsn {
        LearnKdeKeys(env, buf.value, f.rsc);
      } else {
        var klen := if env.groupTkip then 32 else 16;
        if |buf.value| == klen {
          group := WithGtk(group, KeyIndex(f.keyInfo), buf.value, f.rsc);
        }
      }
    }

    method RxEapolKey(env: Env, f: Frame, rsn: bool)
      modifies this
      ensures View() == Step(env, rsn, old(View()), f)
    {
      match MessageOf(f)
      case M1 => anonce := f.nonce;
      case M2 => Key2Of4(env, f);
      case M3 => Key3Of4(env, f);
      case M4 => Key4Of4(env, f);
      case G1 => Key1Of2(env, f, rsn);
      case _ =>
    }
  }

  lemma {:induction false} FirstTriedConcat(env: Env, p: Pairwise, f: Frame, a: seq<Octets>, b: seq<Octets>)
    ensures FirstTried(env, p, f, a + b) ==
            if FirstTried(env, p, f, a).Some? then FirstTried(env, p, f, a) else FirstTried(env, p, f, b)
  {
    if |a| == 0 {
      assert a + b == b;
    } else {
      assert (a + b)[1..] == a[1..] + b;
      FirstTriedConcat(env, p, f, a[1..], b);
    }
  }

  // ---- Runs ----

  const NO_PTK := Ptk([], [], [])

  function Fresh(keyMgmt: nat): State {
    State(Pairwise(ZERO_NONCE, ZERO_NONCE, keyMgmt, NO_PTK, false, NO_PTK, false, ZeroTable(), ZeroTable()),
          Group(map[], map[], map[], map[], 0, 0, [], 0))
  }

  datatype Event = Event(env: Env, rsn: bool, frame: Frame)

  ghost function At(keyMgmt: nat, es: seq<Event>, n: nat): State
    requires n <= |es|
  {
    if n == 0 then Fresh(keyMgmt) else Step(es[n - 1].env, es[n - 1].rsn, At(keyMgmt, es, n - 1), es[n - 1].frame)
  }

  /** Event i is a message 2 or 3 whose MIC verifies under k. */
  ghost predicate Vouched(keyMgmt: nat, es: seq<Event>, i: nat, k: Ptk)
    requires i < |es|
  {
    && (MessageOf(es[i].frame) == M2 || MessageOf(es[i].frame) == M3)
    && es[i].env.micOk(k.kck, At(keyMgmt, es, i).pair.keyMgmt, Version(es[i].frame), es[i].frame.data)
  }

  ghost predicate VouchedBefore(keyMgmt: nat, es: seq<Event>, n: nat, k: Ptk)
    requires n <= |es|
  {
    exists i: nat :: i < n && Vouched(keyMgmt, es, i, k)
  }

  lemma {:induction false} FirstTriedVerifies(env: Env, p: Pairwise, f: Frame, pmks: seq<Octets>)
    ensures
      var k := FirstTried(env, p, f, pmks);
      k.Some? ==> env.micOk(k.value.kck, p.keyMgmt, Version(f), f.data)
  {
    if |pmks| > 0 {
      FirstTriedVerifies(env, p, f, pmks[1..]);
    }
  }

  lemma {:induction false} LastPresetVerifies(env: Env, p: Pairwise, f: Frame, ptks: seq<Ptk>)
    ensures
      var k := LastPreset(env, p, f, ptks);
      k.Some? ==> env.micOk(k.value.kck, p.keyMgmt, Version(f), f.data)
  {
    if |ptks| > 0 {
      LastPresetVerifies(env, p, f, ptks[..|ptks| - 1]);
    }
  }

  /** Derivation changes at most one of the two keys, to one under which the frame verifies. */
  lemma DerivedKeys(env: Env, p: Pairwise, f: Frame)
    ensures
      var q := Derived(env, p, f);
      && q.keyMgmt == p.keyMgmt && q.anonce == p.anonce && q.snonce == p.snonce
      && (q == p || exists k: Ptk :: q == Learned(p, k) && env.micOk(k.kck, p.keyMgmt, Version(f), f.data))
  {
    FirstTriedVerifies(env, p, f, env.bssPmks + env.globalPmks);
    LastPresetVerifies(env, p, f, env.presetPtks);
  }

  /** What one frame may do to the pairwise keys and receive counters. */
  lemma StepOnKeys(env: Env, rsn: bool, s: State, f: Frame)
    ensures
      var p, q := s.pair, Step(env, rsn, s, f).pair;
      var m := MessageOf(f);
      var kept := q.ptk == p.ptk && q.ptkSet == p.ptkSet && q.rscToDs == p.rscToDs && q.rscFromDs == p.rscFromDs;
      var zeroed := q.rscToDs == ZeroTable() && q.rscFromDs == ZeroTable();
      // nothing changes, or
      || (kept && q.tptkSet == p.tptkSet && q.tptk == p.tptk)
      // a first key is installed from a message 2 or 3 that verifies under it, or
      || ((m == M2 || m == M3) && !p.ptkSet && q.ptkSet && zeroed && q.tptkSet == p.tptkSet && q.tptk == p.tptk
          && env.micOk(q.ptk.kck, p.keyMgmt, Version(f), f.data))
      // a tentative key is learned beside the current one, or
      || ((m == M2 || m == M3) && p.ptkSet && kept && q.tptkSet
          && env.micOk(q.tptk.kck, p.keyMgmt, Version(f), f.data))
      // a message 4 that verifies under the tentative key makes it current.
      || (m == M4 && p.tptkSet && q.ptkSet && q.ptk == p.tptk && !q.tptkSet && q.tptk == p.tptk && zeroed
          && env.micOk(p.tptk.kck, p.keyMgmt, Version(f), f.data))
  {
    if MessageOf(f) == M2 {
      DerivedKeys(env, s.pair.(snonce := f.nonce), f);
    } else if MessageOf(f) == M3 {
      DerivedKeys(env, s.pair.(anonce := f.nonce), f);
    }
  }

  /** In every run a tentative key is only ever held beside a current one. */
  lemma {:induction false} TentativeImpliesCurrent(keyMgmt: nat, es: seq<Event>, n: nat)
    requires n <= |es|
    ensures At(keyMgmt, es, n).pair.tptkSet ==> At(keyMgmt, es, n).pair.ptkSet
  {
    if n > 0 {
      TentativeImpliesCurrent(keyMgmt, es, n - 1);
      StepOnKeys(es[n - 1].env, es[n - 1].rsn, At(keyMgmt, es, n - 1), es[n - 1].frame);
    }
  }

  /**
   Once a pairwise key is installed it stays until a message 4 verifies under the tentative key;
   that frame makes the tentative key current and zeroes both receive counter tables.
   */
  lemma ReplacedOnlyByMessage4(keyMgmt: nat, es: seq<Event>, n: nat)
    requires n < |es| && At(keyMgmt, es, n).pair.ptkSet
    ensures At(keyMgmt, es, n + 1).pair.ptkSet
    ensures
      var p, q, e := At(keyMgmt, es, n).pair, At(keyMgmt, es, n + 1).pair, es[n];
      q.ptk != p.ptk ==>
        && MessageOf(e.frame) == M4 && p.tptkSet && q.ptk == p.tptk && !q.tptkSet
        && e.env.micOk(p.tptk.kck, p.keyMgmt, Version(e.frame), e.frame.data)
        && q.rscToDs == ZeroTable() && q.rscFromDs == ZeroTable()
  {
    StepOnKeys(es[n].env, es[n].rsn, At(keyMgmt, es, n), es[n].frame);
  }

  /** Counters are changed by key installation only: if they change, the frame installed a key. */
  lemma CountersResetOnlyWithKey(keyMgmt: nat, es: seq<Event>, n: nat)
    requires n < |es|
    ensures
      var p, q := At(keyMgmt, es, n).pair, At(keyMgmt, es, n + 1).pair;
      (q.rscToDs != p.rscToDs || q.rscFromDs != p.rscFromDs) ==>
        && q.rscToDs == ZeroTable() && q.rscFromDs == ZeroTable()
        && q.ptkSet && (!p.ptkSet || (p.tptkSet && q.ptk == p.tptk))
  {
    StepOnKeys(es[n].env, es[n].rsn, At(keyMgmt, es, n), es[n].frame);
  }

  lemma VouchedStays(keyMgmt: nat, es: seq<Event>, n: nat, k: Ptk)
    requires n < |es|
    ensures VouchedBefore(keyMgmt, es, n + 1, k) <==> VouchedBefore(keyMgmt, es, n, k) || Vouched(keyMgmt, es, n, k)
  {
  }

  /** Every pairwise key ever current or tentative verified the MIC of some message 2 or 3 of the run. */
  lemma {:induction false} InstalledKeysAreVouched(keyMgmt: nat, es: seq<Event>, n: nat)
    requires n <= |es|
    ensures
      var p := At(keyMgmt, es, n).pair;
      && (p.ptkSet ==> VouchedBefore(keyMgmt, es, n, p.ptk))
      && (p.tptkSet ==> VouchedBefore(keyMgmt, es, n, p.tptk))
  {
    if n > 0 {
      InstalledKeysAreVouched(keyMgmt, es, n - 1);
      var p, q := At(keyMgmt, es, n - 1).pair, At(keyMgmt, es, n).pair;
      StepOnKeys(es[n - 1].env, es[n - 1].rsn, At(keyMgmt, es, n - 1), es[n - 1].frame);
      VouchedStays(keyMgmt, es, n - 1, q.ptk);
      VouchedStays(keyMgmt, es, n - 1, q.tptk);
    }
  }

  /** Group keys change only by a frame whose MIC verifies under a pairwise key of the station. */
  lemma GroupKeysNeedMic(env: Env, rsn: bool, s: State, f: Frame)
    requires Step(env, rsn, s, f).group != s.group
    ensures
      var q := Step(env, rsn, s, f).pair;
      || (MessageOf(f) == M3 && Verifies(env, Active(q), q.keyMgmt, f))
      || (MessageOf(f) == G1 && s.pair.ptkSet && Verifies(env, Some(s.pair.ptk), s.pair.keyMgmt, f))
  {
  }

  /** Key ids stay inside the tables: four group keys, six integrity group keys. */
  ghost predicate IdsInRange(g: Group) {
    && (forall id | id in g.gtk :: id < 4) && (forall id | id in g.rsc :: id < 4)
    && (forall id | id in g.igtk :: id < 6) && (forall id | id in g.ipn :: id < 6)
    && g.gtkIdx < 4 && g.igtkIdx < 6 && g.staGtkIdx < 4
    && g.gtk.Keys == g.rsc.Keys && g.igtk.Keys == g.ipn.Keys
  }

  lemma KeyIdBits(v: bv8)
    ensures (v & 0x03) as int < 4
  {
  }

  lemma LearnedGtkInRange(g: Group, kde: Option<Octets>, rsc: Octets)
    requires |rsc| == 8 && IdsInRange(g)
    ensures IdsInRange(LearnedGtk(g, kde, rsc))
  {
    if kde.Some? && |kde.value| > 0 {
      KeyIdBits(kde.value[0]);
    }
  }

  lemma LearnedIgtkInRange(g: Group, kde: Option<Octets>)
    requires IdsInRange(g)
    ensures IdsInRange(LearnedIgtk(g, kde))
  {
  }

  lemma LearnedKdesInRange(env: Env, g: Group, buf: Octets, rsc: Octets)
    requires |rsc| == 8 && IdsInRange(g)
    ensures IdsInRange(LearnedKdes(env, g, buf, rsc))
  {
    hide IdsInRange, LearnedGtk, LearnedIgtk;
    var k := env.parse(buf);
    if k.Some? {
      LearnedGtkInRange(g, k.value.gtk, rsc);
      LearnedIgtkInRange(LearnedGtk(g, k.value.gtk, rsc), k.value.igtk);
    }
  }

  lemma StepInRange(env: Env, rsn: bool, s: State, f: Frame)
    requires IdsInRange(s.group)
    ensures IdsInRange(Step(env, rsn, s, f).group)
  {
    hide IdsInRange, LearnedKdes, WithGtk, PairwiseOnM3, OnM2, OnM4;
    KeyIndexInRange(f.keyInfo);
    var m3 := KeyDataBuffer(env, PairwiseOnM3(env, s.pair, f), f);
    if m3.Some? {
      LearnedKdesInRange(env, s.group, m3.value, f.rsc);
    }
    var g1 := env.decryptKeyData(s.pair.ptk.kek, Version(f), f.data);
    if g1.Some? {
      LearnedKdesInRange(env, s.group, g1.value, f.rsc);
      WithGtkInRange(s.group, KeyIndex(f.keyInfo), g1.value, f.rsc);
    }
  }

  function KeyDataBuffer(env: Env, p: Pairwise, f: Frame): Option<Octets> {
    if Active(p).Some? then KeyDataOf(env, Active(p).value, f) else None
  }

  lemma WithGtkInRange(g: Group, id: nat, key: Octets, rsc: Octets)
    requires |rsc| == 8 && IdsInRange(g) && id < 4
    ensures IdsInRange(WithGtk(g, id, key, rsc))
  {
  }

  lemma {:induction false} GroupTablesStayInRange(keyMgmt: nat, es: seq<Event>, n: nat)
    requires n <= |es|
    ensures IdsInRange(At(keyMgmt, es, n).group)
  {
    hide Step;
    if n > 0 {
      GroupTablesStayInRange(keyMgmt, es, n - 1);
      StepInRange(es[n - 1].env, es[n - 1].rsn, At(keyMgmt, es, n - 1), es[n - 1].frame);
    }
  }
}
