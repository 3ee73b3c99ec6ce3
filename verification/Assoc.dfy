/**
 The three-state association machine of the monitor: which management frames move a station
 between not authenticated, authenticated and associated, over all runs. Header fields, fixed
 fields and the Management MIC element are read from the octets of a frame.
 */
module Assoc {
  import opened Bytes
  import opened Ieee80211
  import Bip

  type Octets = seq<bv8>
  type Addr = s: seq<bv8> | |s| == 6 witness [0, 0, 0, 0, 0, 0]

  datatype StaState = State1 | State2 | State3

  datatype Subtype =
    | AssocReq | AssocResp | ReassocReq | ReassocResp | ProbeResp | Beacon | Disassoc | Auth | Deauth | Action
    | OtherMgmt

  /** What a changed announcement of a BSS says, as `bss_update` parses it. */
  datatype Announced = Announced(rsn: bool, mfpc: bool, cipher: Bip.GroupCipher)

  /**
   A management frame. The fields beside its octets answer what depends on pairwise keys and
   elements: the length after CCMP decryption if that succeeds; for a request, the protection
   capability that the update of the station stores; for a beacon or probe response, what the
   update of the BSS stores if it finds a change.
   */
  datatype Mgmt = Mgmt(
    data: Octets, decryptedLen: Option<nat>, declares: Option<bool>, announces: Option<Announced>)

  /** Frames that hold the three-address header. */
  type Whole = f: Mgmt | |f.data| >= 24 witness Mgmt(seq(24, i => 0), None, None, None)

  function KindOf(fc: bv16): Subtype {
    var t := FcSubtype(fc);
    if t == 0 then AssocReq
    else if t == 1 then AssocResp
    else if t == 2 then ReassocReq
    else if t == 3 then ReassocResp
    else if t == 5 then ProbeResp
    else if t == 8 then Beacon
    else if t == 10 then Disassoc
    else if t == 11 then Auth
    else if t == 12 then Deauth
    else if t == 13 then Action
    else OtherMgmt
  }

  function Kind(f: Whole): Subtype {
    KindOf(FrameControl(f.data))
  }

  predicate IsProtected(f: Whole) {
    Has(FrameControl(f.data), PROTECTED)
  }

  function Da(f: Whole): Addr {
    Addr1(f.data)
  }

  function Sa(f: Whole): Addr {
    Addr2(f.data)
  }

  function Bssid(f: Whole): Addr {
    Addr3(f.data)
  }

  predicate IsGroup(a: Addr) {
    a[0] & 0x01 != 0
  }

  predicate IsRobust(t: Subtype) {
    t.Deauth? || t.Disassoc? || t.Action?
  }

  const CATEGORY_PUBLIC: bv8 := 4

  predicate IsPublicAction(f: Whole) {
    Kind(f) == Action && |f.data| > 24 && f.data[24] == CATEGORY_PUBLIC
  }

  /** Algorithm 0, transaction 2, status 0. */
  predicate OpenAuthSucceeded(f: Whole)
    requires |f.data| >= 30
  {
    Le16(f.data, 24) == 0 && Le16(f.data, 26) == 2 && Le16(f.data, 28) == 0
  }

  predicate AssocSucceeded(f: Whole)
    requires |f.data| >= 30
  {
    Le16(f.data, 26) == 0
  }

  // ---- State: what is known of all stations and BSSes ----

  /** State of a station, and whether it is capable of management frame protection. */
  datatype Sta = Sta(state: StaState, mfpc: bool)

  /** Group management cipher of a BSS, whether it is capable of protection, and its IGTKs by key id. */
  datatype Bss = Bss(cipher: Bip.GroupCipher, mfpc: bool, igtk: map<nat, Octets>)

  type Stations = map<(Addr, Addr), Sta>
  type Bsses = map<Addr, Bss>

  datatype Net = Net(macs: Bip.Macs, sta: Stations, bss: Bsses)

  /** A station or BSS not in its map is as a newly found one. */
  function Find(st: Stations, bssid: Addr, sta: Addr): Sta {
    if (bssid, sta) in st then st[(bssid, sta)] else Sta(State1, false)
  }

  function FindBss(bs: Bsses, bssid: Addr): Bss {
    if bssid in bs then bs[bssid] else Bss(Bip.NoCipher, false, map[])
  }

  function StateOf(n: Net, bssid: Addr, sta: Addr): StaState {
    Find(n.sta, bssid, sta).state
  }

  function MfpcOf(n: Net, bssid: Addr, sta: Addr): bool {
    Find(n.sta, bssid, sta).mfpc
  }

  function Moved(st: Stations, bssid: Addr, sta: Addr, state: StaState): Stations {
    st[(bssid, sta) := Find(st, bssid, sta).(state := state)]
  }

  function WithCapability(st: Stations, bssid: Addr, sta: Addr, mfpc: bool): Stations {
    st[(bssid, sta) := Find(st, bssid, sta).(mfpc := mfpc)]
  }

  // ---- Judging a frame ----

  /** The MMIE is looked for where it ends a frame under the group management cipher of the BSS. */
  predicate MmieFound(cipher: Bip.GroupCipher, data: Octets) {
    var n := Bip.CheckedMicLength(cipher);
    |data| >= 34 + n && data[|data| - (10 + n)] == Bip.EID_MMIE && data[|data| - (9 + n)] == if n == 8 then 16 else 24
  }

  predicate ReservedSet(keyId: bv16) {
    keyId & 0xf000 != 0
  }

  function WithoutReserved(keyId: bv16): bv16 {
    keyId & 0x0fff
  }

  function Number(v: bv16): nat {
    v as int
  }

  function MmieKeyId(cipher: Bip.GroupCipher, data: Octets): nat
    requires MmieFound(cipher, data)
  {
    Number(WithoutReserved(Le16(data, |data| - (8 + Bip.CheckedMicLength(cipher)))))
  }

  /** How the check of a group-addressed robust frame ends. */
  datatype Outcome = Exempt | NotRequired | Missing | UnexpectedKeyId | NoIgtk | Verified | Forged

  function BipOutcome(n: Net, f: Whole): Outcome {
    var bss := FindBss(n.bss, Bssid(f));
    if (Kind(f) == Action && |f.data| < 25) || IsPublicAction(f) || IsGroup(Bssid(f)) then Exempt
    else if !MmieFound(bss.cipher, f.data) then if bss.mfpc then Missing else NotRequired
    else
      var id := MmieKeyId(bss.cipher, f.data);
      if id < 4 || id > 5 then UnexpectedKeyId
      else if id !in bss.igtk then NoIgtk
      else if Bip.MmieMicValid(n.macs, bss.cipher, bss.igtk[id], f.data) then Verified
      else Forged
  }

  predicate BipPasses(n: Net, f: Whole) {
    BipOutcome(n, f) != Missing && BipOutcome(n, f) != Forged
  }

  /** The station a frame is about: its destination when the AP sent it, else its source. */
  function Peer(f: Whole): Addr {
    if Sa(f) == Bssid(f) then Da(f) else Sa(f)
  }

  /** An unprotected robust frame is refused once protection is negotiated and the station associated. */
  predicate UnprotectedRefused(n: Net, f: Whole) {
    var sta := if Da(f) == Bssid(f) then Sa(f) else Da(f);
    && !IsPublicAction(f) && !IsGroup(Bssid(f)) && !IsGroup(sta)
    && MfpcOf(n, Bssid(f), sta) && (StateOf(n, Bssid(f), sta) == State3 || Kind(f) == Action)
  }

  /** `valid` as rx_mgmt computes it. */
  predicate Judged(n: Net, f: Whole) {
    if !IsRobust(Kind(f)) then true
    else if IsGroup(Da(f)) then BipPasses(n, f)
    else if IsProtected(f) then f.decryptedLen.Some?
    else !UnprotectedRefused(n, f)
  }

  /** Length seen by the handlers: that of the decrypted frame when it was decrypted. */
  function SeenLen(f: Whole): nat {
    if IsRobust(Kind(f)) && !IsGroup(Da(f)) && IsProtected(f) && f.decryptedLen.Some? then f.decryptedLen.value
    else |f.data|
  }

  // ---- One event ----

  /**
   What the monitor sees: a management frame, message 2 of the handshake of a station with the
   capability that the update stores if the message makes one, and an IGTK in a decrypted message.
   */
  datatype Event =
    | Received(f: Mgmt)
    | Message2(ap: Addr, sta: Addr, sent: Option<bool>)
    | IgtkSent(ap: Addr, id: nat, key: Octets)

  function AllDeauthenticated(st: Stations, bssid: Addr): Stations {
    map k | k in st :: if k.0 == bssid then st[k].(state := State1) else st[k]
  }

  function AllDisassociated(st: Stations, bssid: Addr): Stations {
    map k | k in st :: if k.0 == bssid && st[k].state == State3 then st[k].(state := State2) else st[k]
  }

  function Associated(st: Stations, f: Whole): Stations {
    if IsGroup(Da(f)) || |f.data| < 30 || !AssocSucceeded(f) then st else Moved(st, Bssid(f), Da(f), State3)
  }

  /** A request that holds its fixed fields and parses sets the capability, in any state and without protection. */
  function Declared(st: Stations, f: Whole, shortest: nat): Stations {
    if IsGroup(Sa(f)) || |f.data| < shortest || f.declares.None? then st
    else WithCapability(st, Bssid(f), Sa(f), f.declares.value)
  }

  /** Stations after a management frame. */
  function Handled(n: Net, f: Whole): Stations {
    var st := n.sta;
    if IsGroup(Bssid(f)) then st
    else
      match Kind(f)
      case Auth =>
        if IsGroup(Peer(f)) || |f.data| < 30 then st
        else if OpenAuthSucceeded(f) && StateOf(n, Bssid(f), Peer(f)) == State1
        then Moved(st, Bssid(f), Peer(f), State2)
        else st
      case AssocReq => Declared(st, f, 28)
      case ReassocReq => Declared(st, f, 34)
      case AssocResp => Associated(st, f)
      case ReassocResp => Associated(st, f)
      case Deauth =>
        if SeenLen(f) < 26 || !Judged(n, f) then st
        else if IsGroup(Peer(f)) then if Da(f)[0] == 0xff then AllDeauthenticated(st, Bssid(f)) else st
        else Moved(st, Bssid(f), Peer(f), State1)
      case Disassoc =>
        if SeenLen(f) < 26 || !Judged(n, f) then st
        else if IsGroup(Peer(f)) then if Da(f)[0] == 0xff then AllDisassociated(st, Bssid(f)) else st
        else if StateOf(n, Bssid(f), Peer(f)) == State3 then Moved(st, Bssid(f), Peer(f), State2)
        else st
      case _ => st
  }

  /** BSSes after a management frame; without RSN and protection there is no group management cipher. */
  function Announces(bs: Bsses, f: Whole): Bsses {
    if (Kind(f) == Beacon || Kind(f) == ProbeResp) && |f.data| >= 36 && !IsGroup(Bssid(f)) && f.announces.Some? then
      var a := f.announces.value;
      var cipher := if a.rsn && a.mfpc then a.cipher else Bip.NoCipher;
      bs[Bssid(f) := FindBss(bs, Bssid(f)).(cipher := cipher, mfpc := a.mfpc)]
    else bs
  }

  function Step(n: Net, e: Event): Net {
    match e
    case Received(f) =>
      if |f.data| < 24 then n else Net(n.macs, Handled(n, f), Announces(n.bss, f))
    case Message2(ap, sta, sent) =>
      if IsGroup(ap) || IsGroup(sta) || sent.None? then n
      else n.(sta := WithCapability(n.sta, ap, sta, sent.value))
    case IgtkSent(ap, id, key) =>
      if IsGroup(ap) || id > 5 || (|key| != 16 && |key| != 32) then n
      else n.(bss := n.bss[ap := FindBss(n.bss, ap).(igtk := FindBss(n.bss, ap).igtk[id := key])])
  }

  // ---- The monitor ----

  class Monitor {
    const macs: Bip.Macs
    var sta: Stations
    var bss: Bsses

    constructor (macs: Bip.Macs)
      ensures State() == Net(macs, map[], map[])
    {
      this.macs := macs;
      sta, bss := map[], map[];
    }

    ghost function State(): Net
      reads this
    {
      Net(macs, sta, bss)
    }

    method DeauthAllStas(bssid: Addr)
      modifies `sta
      ensures sta == AllDeauthenticated(old(sta), bssid)
    {
      var rest := sta.Keys;
      while rest != {}
        invariant rest <= sta.Keys == old(sta).Keys
        invariant forall k | k in sta ::
                    sta[k] == if k in rest then old(sta)[k] else AllDeauthenticated(old(sta), bssid)[k]
        decreases rest
      {
        var k :| k in rest;
        if k.0 == bssid && sta[k].state != State1 {
          sta := sta[k := sta[k].(state := State1)];
        }
        rest := rest - {k};
      }
    }

    method DisassocAllStas(bssid: Addr)
      modifies `sta
      ensures sta == AllDisassociated(old(sta), bssid)
    {
      var rest := sta.Keys;
      while rest != {}
        invariant rest <= sta.Keys == old(sta).Keys
        invariant forall k | k in sta ::
                    sta[k] == if k in rest then old(sta)[k] else AllDisassociated(old(sta), bssid)[k]
        decreases rest
      {
        var k :| k in rest;
        if k.0 == bssid && sta[k].state == State3 {
          sta := sta[k := sta[k].(state := State2)];
        }
        rest := rest - {k};
      }
    }

    /** check_bip: 0 is true, -1 is false. */
    method CheckBip(f: Whole) returns (ok: bool)
      requires Kind(f) == Deauth || Kind(f) == Disassoc || Kind(f) == Action
      ensures ok <==> BipPasses(State(), f)
    {
      hide Number, ReservedSet, WithoutReserved, KindOf, Le16, IsGroup, Bip.MmieMicValid;
      if Kind(f) == Action {
        if |f.data| < 24 + 1 {
          return true;
        }
        if f.data[24] == CATEGORY_PUBLIC {
          return true;
        }
      }
      if IsGroup(Bssid(f)) {
        return true;
      }
      var b := FindBss(bss, Bssid(f));
      var data, len := f.data, |f.data|;
      var micLen := if b.cipher == Bip.Cmac128 then 8 else 16;
      if len < 24 + 10 + micLen || data[len - (10 + micLen)] != Bip.EID_MMIE
         || data[len - (10 + micLen - 1)] != (if micLen == 8 then 16 else 24) {
        return !b.mfpc;
      }
      var keyId := Le16(data, len - (8 + micLen));
      if ReservedSet(keyId) {
        keyId := WithoutReserved(keyId);
      } else {
        NothingReserved(keyId);
      }
      var id := Number(keyId);
      if id < 4 || id > 5 {
        return true;
      }
      if id !in b.igtk {
        return true;
      }
      ok := Bip.CheckMmieMic(macs, b.cipher, b.igtk[id], data);
    }

    method RxMgmtDeauth(f: Whole, len: nat, valid: bool)
      requires Kind(f) == Deauth && len == SeenLen(f) && valid == Judged(State(), f)
      modifies `sta
      ensures sta == Handled(old(State()), f)
    {
      if IsGroup(Bssid(f)) {
        return;
      }
      var peer := Peer(f);
      if len < 24 + 2 {
        return;
      }
      if IsGroup(peer) {
        if valid && Da(f)[0] == 0xff {
          DeauthAllStas(Bssid(f));
        }
        return;
      }
      if !valid {
        return;
      }
      sta := Moved(sta, Bssid(f), peer, State1);
    }

    method RxMgmtDisassoc(f: Whole, len: nat, valid: bool)
      requires Kind(f) == Disassoc && len == SeenLen(f) && valid == Judged(State(), f)
      modifies `sta
      ensures sta == Handled(old(State()), f)
    {
      if IsGroup(Bssid(f)) {
        return;
      }
      var peer := Peer(f);
      if len < 24 + 2 {
        return;
      }
      if IsGroup(peer) {
        if valid && Da(f)[0] == 0xff {
          DisassocAllStas(Bssid(f));
        }
        return;
      }
      if !valid {
        return;
      }
      if Find(sta, Bssid(f), peer).state == State3 {
        sta := Moved(sta, Bssid(f), peer, State2);
      }
    }

    /** check_mgmt_ccmp: 0 is true, -1 is false. */
    method CheckMgmtCcmp(f: Whole) returns (ok: bool)
      ensures ok <==> !UnprotectedRefused(State(), f)
    {
      if Kind(f) == Action && |f.data| > 24 && f.data[24] == CATEGORY_PUBLIC {
        return true;
      }
      var peer := if Da(f) == Bssid(f) then Sa(f) else Da(f);
      if IsGroup(Bssid(f)) || IsGroup(peer) {
        return true;
      }
      var s := Find(sta, Bssid(f), peer);
      ok := !(s.mfpc && (s.state == State3 || Kind(f) == Action));
    }

    method RxMgmt(f: Mgmt) returns (valid: bool)
      modifies `sta, `bss
      ensures State() == Step(old(State()), Received(f))
      ensures |f.data| >= 24 ==> valid == Judged(old(State()), f)
    {
      hide BipPasses, UnprotectedRefused, AllDeauthenticated, AllDisassociated, Moved, Find, KindOf;
      valid := true;
      if |f.data| < 24 {
        return;
      }
      var len := |f.data|;
      if IsGroup(Da(f)) && IsRobust(Kind(f)) {
        valid := CheckBip(f);
      }
      if IsProtected(f) && !IsGroup(Da(f)) && IsRobust(Kind(f)) {
        if f.decryptedLen.Some? {
          len := f.decryptedLen.value;
        } else {
          valid := false;
        }
      }
      if !IsProtected(f) && !IsGroup(Da(f)) && IsRobust(Kind(f)) {
        valid := CheckMgmtCcmp(f);
      }
      match Kind(f)
      case Beacon => RxMgmtBeacon(f);
      case ProbeResp => RxMgmtBeacon(f);
      case Auth => RxMgmtAuth(f);
      case AssocReq => RxAssocReq(f);
      case ReassocReq => RxAssocReq(f);
      case AssocResp => RxAssocResp(f);
      case ReassocResp => RxAssocResp(f);
      case Deauth => RxMgmtDeauth(f, len, valid);
      case Disassoc => RxMgmtDisassoc(f, len, valid);
      case _ =>
    }

    /** Beacon and Probe Response, whose elements start at the same offset. */
    method RxMgmtBeacon(f: Whole)
      requires Kind(f) == Beacon || Kind(f) == ProbeResp
      modifies `bss
      ensures bss == Announces(old(bss), f)
    {
      if |f.data| < 24 + 12 || IsGroup(Bssid(f)) || f.announces.None? {
        return;
      }
      var a, b := f.announces.value, FindBss(bss, Bssid(f));
      b := b.(mfpc := a.mfpc, cipher := a.cipher);
      if !a.rsn || !a.mfpc {
        b := b.(cipher := Bip.NoCipher);
      }
      bss := bss[Bssid(f) := b];
    }

    method RxMgmtAuth(f: Whole)
      requires Kind(f) == Auth
      modifies `sta
      ensures sta == Handled(old(State()), f)
    {
      var peer := Peer(f);
      if IsGroup(Bssid(f)) || IsGroup(peer) || |f.data| < 24 + 6 {
        return;
      }
      var alg, trans, status := Le16(f.data, 24), Le16(f.data, 26), Le16(f.data, 28);
      if alg == 0 && trans == 2 && status == 0 {
        if Find(sta, Bssid(f), peer).state == State1 {
          sta := Moved(sta, Bssid(f), peer, State2);
        }
      }
    }

    method RxAssocResp(f: Whole)
      requires Kind(f) == AssocResp || Kind(f) == ReassocResp
      modifies `sta
      ensures sta == Handled(old(State()), f)
    {
      if IsGroup(Bssid(f)) || IsGroup(Da(f)) || |f.data| < 24 + 6 || Le16(f.data, 26) != 0 {
        return;
      }
      sta := Moved(sta, Bssid(f), Da(f), State3);
    }

    method RxAssocReq(f: Whole)
      requires Kind(f) == AssocReq || Kind(f) == ReassocReq
      modifies `sta
      ensures sta == Handled(old(State()), f)
    {
      if IsGroup(Bssid(f)) || IsGroup(Sa(f)) || |f.data| < 24 + 4 {
        return;
      }
      if Kind(f) == ReassocReq && |f.data| < 24 + 4 + 6 {
        return;
      }
      if f.declares.Some? {
        sta := WithCapability(sta, Bssid(f), Sa(f), f.declares.value);
      }
    }

    /** The update of the station by message 2 of its handshake. */
    method RxEapolKey2Of4(ap: Addr, addr: Addr, sent: Option<bool>)
      modifies `sta
      ensures State() == Step(old(State()), Message2(ap, addr, sent))
    {
      if IsGroup(ap) || IsGroup(addr) {
        return;
      }
      if sent.Some? {
        sta := WithCapability(sta, ap, addr, sent.value);
      }
    }

    /** The IGTK part of learn_kde_keys. */
    method LearnIgtk(ap: Addr, id: nat, key: Octets)
      modifies `bss
      ensures State() == Step(old(State()), IgtkSent(ap, id, key))
    {
      if IsGroup(ap) {
        return;
      }
      if (|key| == 16 || |key| == 32) && id <= 5 {
        var b := FindBss(bss, ap);
        bss := bss[ap := b.(igtk := b.igtk[id := key])];
      }
    }
  }

  lemma NothingReserved(keyId: bv16)
    requires !ReservedSet(keyId)
    ensures WithoutReserved(keyId) == keyId
  {
  }

  // ---- What a run says about one station ----

  /** What is known after n events of a run, starting from nothing. */
  ghost function At(m: Bip.Macs, es: seq<Event>, n: nat): Net
    requires n <= |es|
  {
    if n == 0 then Net(m, map[], map[]) else Step(At(m, es, n - 1), es[n - 1])
  }

  predicate IsFrame(e: Event) {
    e.Received? && |e.f.data| >= 24
  }

  /** A successful (re)association response of the BSS to the station. */
  predicate Associates(e: Event, bssid: Addr, sta: Addr) {
    && IsFrame(e) && (Kind(e.f) == AssocResp || Kind(e.f) == ReassocResp)
    && Bssid(e.f) == bssid && !IsGroup(bssid) && Da(e.f) == sta && !IsGroup(sta)
    && |e.f.data| >= 30 && AssocSucceeded(e.f)
  }

  /** The second, successful frame of open system authentication between BSS and station. */
  predicate Authenticates(e: Event, bssid: Addr, sta: Addr) {
    && IsFrame(e) && Kind(e.f) == Auth
    && Bssid(e.f) == bssid && !IsGroup(bssid) && Peer(e.f) == sta && !IsGroup(sta)
    && |e.f.data| >= 30 && OpenAuthSucceeded(e.f)
  }

  /** Concerns the station: sent to or by it, or to a destination starting 0xff in its BSS. */
  predicate Covers(f: Whole, bssid: Addr, sta: Addr) {
    && SeenLen(f) >= 26 && Bssid(f) == bssid && !IsGroup(bssid)
    && (if IsGroup(Peer(f)) then Da(f)[0] == 0xff else Peer(f) == sta)
  }

  predicate Deauths(n: Net, e: Event, bssid: Addr, sta: Addr) {
    IsFrame(e) && Kind(e.f) == Deauth && Covers(e.f, bssid, sta) && Judged(n, e.f)
  }

  predicate Disassocs(n: Net, e: Event, bssid: Addr, sta: Addr) {
    IsFrame(e) && Kind(e.f) == Disassoc && Covers(e.f, bssid, sta) && Judged(n, e.f)
  }

  /** Event n is a valid deauthentication, or disassociation, covering the station. */
  ghost predicate DeauthAt(m: Bip.Macs, es: seq<Event>, n: nat, bssid: Addr, sta: Addr)
    requires n < |es|
  {
    Deauths(At(m, es, n), es[n], bssid, sta)
  }

  ghost predicate DisassocAt(m: Bip.Macs, es: seq<Event>, n: nat, bssid: Addr, sta: Addr)
    requires n < |es|
  {
    Disassocs(At(m, es, n), es[n], bssid, sta)
  }

  /** Some successful (re)association response is later than every valid deauth and disassoc. */
  ghost predicate AssociatedSince(m: Bip.Macs, es: seq<Event>, n: nat, bssid: Addr, sta: Addr)
    requires n <= |es|
  {
    exists i: nat | i < n :: Associates(es[i], bssid, sta)
      && forall j: nat | i < j < n :: !DeauthAt(m, es, j, bssid, sta) && !DisassocAt(m, es, j, bssid, sta)
  }

  /** Some successful authentication or (re)association response is later than every valid deauth. */
  ghost predicate AuthenticatedSince(m: Bip.Macs, es: seq<Event>, n: nat, bssid: Addr, sta: Addr)
    requires n <= |es|
  {
    exists i: nat | i < n :: (Authenticates(es[i], bssid, sta) || Associates(es[i], bssid, sta))
      && forall j: nat | i < j < n :: !DeauthAt(m, es, j, bssid, sta)
  }

  /** Effect of one event on one station. */
  lemma StepOnStation(n: Net, e: Event, bssid: Addr, sta: Addr)
    ensures
      var was, now := StateOf(n, bssid, sta), StateOf(Step(n, e), bssid, sta);
      if Associates(e, bssid, sta) then now == State3
      else if Authenticates(e, bssid, sta) then now == (if was == State1 then State2 else was)
      else if Deauths(n, e, bssid, sta) then now == State1
      else if Disassocs(n, e, bssid, sta) then now == (if was == State3 then State2 else was)
      else now == was
  {
    hide Judged, SeenLen, IsGroup, KindOf, Addr1, Addr2, Addr3, Le16;
    hide Find, Moved, AllDeauthenticated, AllDisassociated;
    match e
    case Received(f) =>
      if |f.data| >= 24 {
        MovedOnStation(n.sta, Bssid(f), Peer(f), State1, bssid, sta);
        MovedOnStation(n.sta, Bssid(f), Peer(f), State2, bssid, sta);
        MovedOnStation(n.sta, Bssid(f), Da(f), State3, bssid, sta);
        BroadcastOnStation(n.sta, Bssid(f), bssid, sta);
        if f.declares.Some? {
          DeclaredOnStation(n.sta, Bssid(f), Sa(f), f.declares.value, bssid, sta);
        }
      }
    case Message2(ap, addr, sent) =>
      if sent.Some? {
        DeclaredOnStation(n.sta, ap, addr, sent.value, bssid, sta);
      }
    case IgtkSent(_, _, _) =>
  }

  lemma MovedOnStation(st: Stations, b: Addr, s: Addr, state: StaState, bssid: Addr, sta: Addr)
    ensures Find(Moved(st, b, s, state), bssid, sta) ==
            if b == bssid && s == sta then Find(st, bssid, sta).(state := state) else Find(st, bssid, sta)
  {
  }

  lemma DeclaredOnStation(st: Stations, b: Addr, s: Addr, mfpc: bool, bssid: Addr, sta: Addr)
    ensures Find(WithCapability(st, b, s, mfpc), bssid, sta) ==
            if b == bssid && s == sta then Find(st, bssid, sta).(mfpc := mfpc) else Find(st, bssid, sta)
  {
  }

  lemma BroadcastOnStation(st: Stations, b: Addr, bssid: Addr, sta: Addr)
    ensures Find(AllDeauthenticated(st, b), bssid, sta) ==
            if b == bssid then Find(st, bssid, sta).(state := State1) else Find(st, bssid, sta)
    ensures Find(AllDisassociated(st, b), bssid, sta) ==
            if b == bssid && Find(st, bssid, sta).state == State3 then Find(st, bssid, sta).(state := State2)
            else Find(st, bssid, sta)
  {
  }

  lemma ExtendAssociated(m: Bip.Macs, es: seq<Event>, n: nat, bssid: Addr, sta: Addr)
    requires n < |es|
    ensures AssociatedSince(m, es, n + 1, bssid, sta) <==>
            || Associates(es[n], bssid, sta)
            || (AssociatedSince(m, es, n, bssid, sta)
                && !DeauthAt(m, es, n, bssid, sta) && !DisassocAt(m, es, n, bssid, sta))
  {
    hide Associates, DeauthAt, DisassocAt;
    if AssociatedSince(m, es, n, bssid, sta) && !DeauthAt(m, es, n, bssid, sta) && !DisassocAt(m, es, n, bssid, sta) {
      var i: nat :| i < n && Associates(es[i], bssid, sta)
                    && forall j: nat | i < j < n ::
                         !DeauthAt(m, es, j, bssid, sta) && !DisassocAt(m, es, j, bssid, sta);
      assert i < n + 1 && forall j: nat | i < j < n + 1 ::
          !DeauthAt(m, es, j, bssid, sta) && !DisassocAt(m, es, j, bssid, sta);
    }
  }

  lemma ExtendAuthenticated(m: Bip.Macs, es: seq<Event>, n: nat, bssid: Addr, sta: Addr)
    requires n < |es|
    ensures AuthenticatedSince(m, es, n + 1, bssid, sta) <==>
            || Authenticates(es[n], bssid, sta) || Associates(es[n], bssid, sta)
            || (AuthenticatedSince(m, es, n, bssid, sta) && !DeauthAt(m, es, n, bssid, sta))
  {
    hide Associates, Authenticates, DeauthAt;
    if AuthenticatedSince(m, es, n, bssid, sta) && !DeauthAt(m, es, n, bssid, sta) {
      var i: nat :| i < n && (Authenticates(es[i], bssid, sta) || Associates(es[i], bssid, sta))
                    && forall j: nat | i < j < n :: !DeauthAt(m, es, j, bssid, sta);
      assert i < n + 1 && forall j: nat | i < j < n + 1 :: !DeauthAt(m, es, j, bssid, sta);
    }
  }

  lemma {:induction false} NoHistory(m: Bip.Macs, es: seq<Event>, bssid: Addr, sta: Addr)
    ensures StateOf(At(m, es, 0), bssid, sta) == State1
    ensures !AssociatedSince(m, es, 0, bssid, sta) && !AuthenticatedSince(m, es, 0, bssid, sta)
  {
  }

  /**
   Over every run: a station is in state 3 exactly when a successful (re)association response
   is later than every valid deauth and disassoc covering it, and in state 1 exactly when no
   successful authentication or (re)association response is later than every valid deauth.
   */
  lemma {:induction false} StateIsHistory(m: Bip.Macs, es: seq<Event>, n: nat, bssid: Addr, sta: Addr)
    requires n <= |es|
    ensures StateOf(At(m, es, n), bssid, sta) == State3 <==> AssociatedSince(m, es, n, bssid, sta)
    ensures StateOf(At(m, es, n), bssid, sta) == State1 <==> !AuthenticatedSince(m, es, n, bssid, sta)
  {
    hide AssociatedSince, AuthenticatedSince, Deauths, Disassocs, Associates, Authenticates, Step, StateOf;
    NoHistory(m, es, bssid, sta);
    if n > 0 {
      StateIsHistory(m, es, n - 1, bssid, sta);
      StepOnStation(At(m, es, n - 1), es[n - 1], bssid, sta);
      KindsExclude(At(m, es, n - 1), es[n - 1], bssid, sta);
      ExtendAssociated(m, es, n - 1, bssid, sta);
      ExtendAuthenticated(m, es, n - 1, bssid, sta);
    }
  }

  /** No event is of two of the kinds that StepOnStation tells apart. */
  lemma KindsExclude(n: Net, e: Event, bssid: Addr, sta: Addr)
    ensures !(Associates(e, bssid, sta) && Authenticates(e, bssid, sta))
    ensures !(Deauths(n, e, bssid, sta) && Disassocs(n, e, bssid, sta))
    ensures Associates(e, bssid, sta) || Authenticates(e, bssid, sta) ==>
              !Deauths(n, e, bssid, sta) && !Disassocs(n, e, bssid, sta)
  {
  }

  /** A frame judged invalid changes the state of no station. */
  lemma InvalidChangesNothing(n: Net, f: Whole, bssid: Addr, sta: Addr)
    requires !Judged(n, f)
    ensures StateOf(Step(n, Received(f)), bssid, sta) == StateOf(n, bssid, sta)
  {
    hide BipPasses, UnprotectedRefused, KindOf, AllDeauthenticated, AllDisassociated;
  }

  // ---- Management frame protection ----

  /** What the station declares to the BSS: in an (re)association request or in message 2. */
  function Declares(e: Event, bssid: Addr, sta: Addr): Option<bool> {
    match e
    case Received(f) =>
      if |f.data| >= 28 && Bssid(f) == bssid && !IsGroup(bssid) && Sa(f) == sta && !IsGroup(sta)
         && (Kind(f) == AssocReq || (Kind(f) == ReassocReq && |f.data| >= 34))
      then f.declares else None
    case Message2(ap, addr, sent) =>
      if ap == bssid && !IsGroup(bssid) && addr == sta && !IsGroup(sta) then sent else None
    case IgtkSent(_, _, _) => None
  }

  lemma StepOnCapability(n: Net, e: Event, bssid: Addr, sta: Addr)
    ensures
      MfpcOf(Step(n, e), bssid, sta) ==
      if Declares(e, bssid, sta).Some? then Declares(e, bssid, sta).value else MfpcOf(n, bssid, sta)
  {
    hide Judged, SeenLen, IsGroup, KindOf, Addr1, Addr2, Addr3, Le16;
  }

  lemma {:induction false} NothingDeclared(m: Bip.Macs, es: seq<Event>, bssid: Addr, sta: Addr)
    ensures !MfpcOf(At(m, es, 0), bssid, sta)
  {
  }

  /** Over every run a station counts as capable exactly when it said so when it last declared anything. */
  lemma {:induction false} CapabilityIsLastDeclared(m: Bip.Macs, es: seq<Event>, n: nat, bssid: Addr, sta: Addr)
    requires n <= |es|
    ensures MfpcOf(At(m, es, n), bssid, sta) <==>
            exists i: nat | i < n :: Declares(es[i], bssid, sta) == Some(true)
              && forall j: nat | i < j < n :: Declares(es[j], bssid, sta).None?
  {
    hide Step, MfpcOf, Declares;
    NothingDeclared(m, es, bssid, sta);
    if n > 0 {
      CapabilityIsLastDeclared(m, es, n - 1, bssid, sta);
      StepOnCapability(At(m, es, n - 1), es[n - 1], bssid, sta);
      if MfpcOf(At(m, es, n), bssid, sta) && Declares(es[n - 1], bssid, sta).None? {
        var i: nat :| i < n - 1 && Declares(es[i], bssid, sta) == Some(true)
                      && forall j: nat | i < j < n - 1 :: Declares(es[j], bssid, sta).None?;
        assert forall j: nat | i < j < n :: Declares(es[j], bssid, sta).None?;
      }
    }
  }

  /** A key vouches for the frame: its MIC was verified under an IGTK, or it was decrypted with a PTK. */
  predicate Vouched(n: Net, f: Whole) {
    if IsGroup(Da(f)) then BipOutcome(n, f) == Verified else IsProtected(f) && f.decryptedLen.Some?
  }

  /**
   The check of a group-addressed frame passes without looking at a MIC: there is no MMIE and the
   BSS is not known to be capable, or the MMIE names a key id other than 4 and 5, or an IGTK that
   is not known.
   */
  predicate SkipsBip(n: Net, f: Whole) {
    var bss := FindBss(n.bss, Bssid(f));
    if !MmieFound(bss.cipher, f.data) then !bss.mfpc
    else
      var id := MmieKeyId(bss.cipher, f.data);
      (id != 4 && id != 5) || id !in bss.igtk
  }

  /**
   Sent as if from the station to a third one: the protection check looks at the receiver, but
   the station that is moved is the sender.
   */
  predicate SkipsCcmp(n: Net, f: Whole, bssid: Addr, sta: Addr) {
    && !IsProtected(f) && Sa(f) == sta && Sa(f) != bssid && Da(f) != bssid
    && !(MfpcOf(n, bssid, Da(f)) && StateOf(n, bssid, Da(f)) == State3)
  }

  /** A deauthentication or disassociation covering the station that no check looks at. */
  predicate SlipsThrough(n: Net, f: Whole, bssid: Addr, sta: Addr) {
    && (Kind(f) == Deauth || Kind(f) == Disassoc) && Covers(f, bssid, sta)
    && if IsGroup(Da(f)) then SkipsBip(n, f) else SkipsCcmp(n, f, bssid, sta)
  }

  lemma BipPassesIff(n: Net, f: Whole)
    requires (Kind(f) == Deauth || Kind(f) == Disassoc) && !IsGroup(Bssid(f))
    ensures BipPasses(n, f) <==> BipOutcome(n, f) == Verified || SkipsBip(n, f)
    ensures !(BipOutcome(n, f) == Verified && SkipsBip(n, f))
  {
    hide MmieFound, MmieKeyId, KindOf;
  }

  /**
   Every frame for which no key vouches, unicast or group-addressed, protected or not: it takes a
   capable, associated station out of state 3 exactly when it slips through.
   */
  lemma UnvouchedDisconnectsIff(n: Net, f: Whole, bssid: Addr, sta: Addr)
    requires StateOf(n, bssid, sta) == State3 && MfpcOf(n, bssid, sta) && !IsGroup(sta)
    requires !Vouched(n, f)
    ensures StateOf(Step(n, Received(f)), bssid, sta) != State3 <==> SlipsThrough(n, f, bssid, sta)
  {
    CutsIff(n, f, bssid, sta);
  }

  /** A deauthentication or disassociation covering the station that a key vouches for, or that slips through. */
  predicate Cuts(n: Net, e: Event, bssid: Addr, sta: Addr) {
    && IsFrame(e)
    && (Kind(e.f) == Deauth || Kind(e.f) == Disassoc) && Covers(e.f, bssid, sta)
    && (Vouched(n, e.f) || SlipsThrough(n, e.f, bssid, sta))
  }

  lemma CutsIff(n: Net, f: Whole, bssid: Addr, sta: Addr)
    requires StateOf(n, bssid, sta) == State3 && MfpcOf(n, bssid, sta) && !IsGroup(sta)
    ensures StateOf(Step(n, Received(f)), bssid, sta) != State3 <==> Cuts(n, Received(f), bssid, sta)
  {
    hide Step, StateOf, MfpcOf, BipPasses, BipOutcome, SkipsBip, KindOf;
    StepOnStation(n, Received(f), bssid, sta);
    if (Kind(f) == Deauth || Kind(f) == Disassoc) && Covers(f, bssid, sta) {
      BipPassesIff(n, f);
    }
  }

  /** Events that are no management frames leave every station in its state. */
  lemma OtherEventsMoveNothing(n: Net, e: Event, bssid: Addr, sta: Addr)
    requires !IsFrame(e)
    ensures StateOf(Step(n, e), bssid, sta) == StateOf(n, bssid, sta) && !Cuts(n, e, bssid, sta)
  {
  }

  /** Associated at every point from k to n. */
  ghost predicate StaysAssociated(m: Bip.Macs, es: seq<Event>, k: nat, n: nat, bssid: Addr, sta: Addr)
    requires n <= |es|
  {
    forall x: nat | k <= x <= n :: StateOf(At(m, es, x), bssid, sta) == State3
  }

  /**
   Over every stretch of a run in which a capable, associated station does not withdraw its
   capability: it stays associated exactly when no deauthentication or disassociation covering it
   is vouched for by a key or slips through.
   */
  lemma {:induction false} StaysAssociatedIff(m: Bip.Macs, es: seq<Event>, k: nat, n: nat, bssid: Addr, sta: Addr)
    requires k <= n <= |es| && !IsGroup(sta)
    requires StateOf(At(m, es, k), bssid, sta) == State3 && MfpcOf(At(m, es, k), bssid, sta)
    requires forall i: nat | k <= i < n :: Declares(es[i], bssid, sta) != Some(false)
    ensures MfpcOf(At(m, es, n), bssid, sta)
    ensures StaysAssociated(m, es, k, n, bssid, sta) <==>
            forall i: nat | k <= i < n :: !Cuts(At(m, es, i), es[i], bssid, sta)
  {
    hide Step, StateOf, MfpcOf, Declares, Cuts;
    if k < n {
      StaysAssociatedIff(m, es, k, n - 1, bssid, sta);
      StepOnCapability(At(m, es, n - 1), es[n - 1], bssid, sta);
      assert StaysAssociated(m, es, k, n, bssid, sta) <==>
             StaysAssociated(m, es, k, n - 1, bssid, sta) && StateOf(At(m, es, n), bssid, sta) == State3;
      if StateOf(At(m, es, n - 1), bssid, sta) == State3 {
        if IsFrame(es[n - 1]) {
          CutsIff(At(m, es, n - 1), es[n - 1].f, bssid, sta);
        } else {
          OtherEventsMoveNothing(At(m, es, n - 1), es[n - 1], bssid, sta);
        }
      }
    }
  }

  /**
   An unprotected unicast frame takes a capable, associated station out of state 3 exactly when
   it gets past the check.
   */
  lemma UnprotectedDisconnectsIff(n: Net, f: Whole, bssid: Addr, sta: Addr)
    requires StateOf(n, bssid, sta) == State3 && MfpcOf(n, bssid, sta) && !IsGroup(sta) && !IsGroup(bssid)
    requires !IsProtected(f) && !IsGroup(Da(f))
    ensures StateOf(Step(n, Received(f)), bssid, sta) != State3 <==>
            && (Kind(f) == Deauth || Kind(f) == Disassoc) && |f.data| >= 26
            && Bssid(f) == bssid && SkipsCcmp(n, f, bssid, sta)
  {
    hide Step, KindOf, Addr1, Addr2, Addr3;
    CutsIff(n, f, bssid, sta);
  }

  // ---- Runs in which a capable station is disconnected without authentication ----

  const AP: Addr := [2, 0, 0, 0, 0, 1]
  const VICTIM: Addr := [2, 0, 0, 0, 0, 2]
  const OTHER: Addr := [2, 0, 0, 0, 0, 3]
  const BROADCAST: Addr := [0xff, 0xff, 0xff, 0xff, 0xff, 0xff]

  /** Octets of an unprotected frame in the BSS of the AP. */
  function Built(subtype: bv8, da: Addr, sa: Addr, body: Octets): Octets {
    [subtype << 4, 0, 0, 0] + da + sa + AP + [0, 0] + body
  }

  lemma BuiltFields(subtype: bv8, da: Addr, sa: Addr, body: Octets)
    requires subtype < 16
    ensures
      var d := Built(subtype, da, sa, body);
      && |d| == 24 + |body| && Addr1(d) == da && Addr2(d) == sa && Addr3(d) == AP && d[24..] == body
      && FcSubtype(FrameControl(d)) == subtype as bv16 && !Has(FrameControl(d), PROTECTED)
  {
    var d := Built(subtype, da, sa, body);
    assert d[4..10] == da && d[10..16] == sa && d[16..22] == AP && d[24..] == body;
    ShiftedSubtype(subtype);
  }

  lemma ShiftedSubtype(subtype: bv8)
    requires subtype < 16
    ensures FcSubtype(Mk16(0, subtype << 4)) == subtype as bv16 && !Has(Mk16(0, subtype << 4), PROTECTED)
  {
  }

  const SIX_ZEROS: Octets := [0, 0, 0, 0, 0, 0]

  function Plain(subtype: bv8, da: Addr, sa: Addr, declares: Option<bool>): Event {
    Received(Mgmt(Built(subtype, da, sa, SIX_ZEROS), None, declares, None))
  }

  function Request(mfpc: bool): Event {
    Plain(0, AP, VICTIM, Some(mfpc))
  }

  /** The station associates, declaring itself capable. */
  function Join(): seq<Event> {
    [Request(true), Plain(1, VICTIM, AP, None)]
  }

  lemma RequestDeclares(n: Net, mfpc: bool)
    ensures Step(n, Request(mfpc)) == n.(sta := WithCapability(n.sta, AP, VICTIM, mfpc))
  {
    BuiltFields(0, AP, VICTIM, SIX_ZEROS);
  }

  lemma JoinAssociates(n: Net)
    ensures Step(Step(n, Join()[0]), Join()[1]) == n.(sta := n.sta[(AP, VICTIM) := Sta(State3, true)])
  {
    hide Judged, BipOutcome;
    RequestDeclares(n, true);
    BuiltFields(1, VICTIM, AP, SIX_ZEROS);
    var d := Built(1, VICTIM, AP, SIX_ZEROS);
    assert d[26] == d[24..][2] && d[27] == d[24..][3];
  }

  /** The first n events of a run decide what is known after them, and the next one is a step. */
  lemma {:induction false} AtUnfolds(m: Bip.Macs, es: seq<Event>)
    ensures At(m, es, 0) == Net(m, map[], map[])
    ensures forall k | 0 <= k < |es| :: At(m, es, k + 1) == Step(At(m, es, k), es[k])
  {
  }

  /** A capable station associates; a deauthentication in its name to a third address disconnects it. */
  lemma {:induction false} DeauthToThirdPartyDisconnects(m: Bip.Macs) returns (es: seq<Event>)
    ensures |es| == 3 && IsFrame(es[2]) && !IsProtected(es[2].f) && !IsGroup(Da(es[2].f))
    ensures StateOf(At(m, es, 2), AP, VICTIM) == State3 && MfpcOf(At(m, es, 2), AP, VICTIM)
    ensures StateOf(At(m, es, 3), AP, VICTIM) != State3
  {
    hide Step, KindOf;
    es := Join() + [Plain(12, OTHER, VICTIM, None)];
    AtUnfolds(m, es);
    JoinAssociates(At(m, es, 0));
    BuiltFields(12, OTHER, VICTIM, SIX_ZEROS);
    DeauthIs12(es[2].f);
    UnprotectedDisconnectsIff(At(m, es, 2), es[2].f, AP, VICTIM);
  }

  lemma DeauthIs12(f: Whole)
    requires FcSubtype(FrameControl(f.data)) == 12
    ensures Kind(f) == Deauth
  {
  }

  /** A request in its name that declares no capability makes the next unprotected deauthentication valid. */
  lemma {:induction false} RequestWithdrawsProtection(m: Bip.Macs) returns (es: seq<Event>)
    ensures |es| == 4 && forall i | 0 <= i < 4 :: IsFrame(es[i]) && !IsProtected(es[i].f)
    ensures IsFrame(es[3])
    ensures StateOf(At(m, es, 2), AP, VICTIM) == State3 && MfpcOf(At(m, es, 2), AP, VICTIM)
    ensures StateOf(At(m, es, 3), AP, VICTIM) == State3
    ensures Da(es[3].f) == AP && Sa(es[3].f) == VICTIM && StateOf(At(m, es, 4), AP, VICTIM) == State1
  {
    hide Step, KindOf;
    es := Join() + [Request(false), Plain(12, AP, VICTIM, None)];
    AtUnfolds(m, es);
    JoinAssociates(At(m, es, 0));
    RequestDeclares(At(m, es, 2), false);
    BuiltFields(0, AP, VICTIM, SIX_ZEROS);
    BuiltFields(1, VICTIM, AP, SIX_ZEROS);
    BuiltFields(12, AP, VICTIM, SIX_ZEROS);
    DeauthIs12(es[3].f);
    StepOnStation(At(m, es, 3), es[3], AP, VICTIM);
  }

  // ---- A run in which nobody looks at the MIC of a broadcast deauthentication ----

  /** The AP announces RSN with protection and AES-128-CMAC. */
  function Announcing(): Event {
    Received(Mgmt(Built(8, BROADCAST, AP, SIX_ZEROS + SIX_ZEROS), None, None, Some(Announced(true, true, Bip.Cmac128))))
  }

  /** A reason code, then an MMIE with this key id, IPN and MIC. */
  function WithMmie(keyId: bv16, ipn: Octets, mic: Octets): Octets
    requires |ipn| == 6 && |mic| == 8
  {
    [7, 0] + Bip.ElementHead(8, keyId, ipn) + mic
  }

  function BroadcastDeauth(keyId: bv16, ipn: Octets, mic: Octets): Mgmt
    requires |ipn| == 6 && |mic| == 8
  {
    Mgmt(Built(12, BROADCAST, AP, WithMmie(keyId, ipn, mic)), None, None, None)
  }

  lemma AnnouncingSets(n: Net)
    requires n.bss == map[]
    ensures Step(n, Announcing()) == n.(bss := map[AP := Bss(Bip.Cmac128, true, map[])])
  {
    BuiltFields(8, BROADCAST, AP, SIX_ZEROS + SIX_ZEROS);
  }

  lemma MmieOfBuilt(keyId: bv16, ipn: Octets, mic: Octets)
    requires |ipn| == 6 && |mic| == 8
    ensures
      var d := BroadcastDeauth(keyId, ipn, mic).data;
      |d| == 44 && MmieFound(Bip.Cmac128, d) && MmieKeyId(Bip.Cmac128, d) == Number(WithoutReserved(keyId))
  {
    var body := WithMmie(keyId, ipn, mic);
    BuiltFields(12, BROADCAST, AP, body);
    var d := BroadcastDeauth(keyId, ipn, mic).data;
    assert d[26] == body[2] && d[27] == body[3] && d[28] == body[4] && d[29] == body[5] by {
      assert forall k | 0 <= k < 20 :: d[24..][k] == d[24 + k];
    }
    Word16RoundTrip(keyId);
  }

  /**
   The BSS is capable and its IGTK 4 is known, and a capable station associates. A broadcast
   deauthentication whose MMIE names key id 6, whatever its MIC, takes the station to state 1.
   */
  lemma {:induction false} UnexpectedKeyIdDisconnects(m: Bip.Macs, key: Octets, ipn: Octets, mic: Octets)
    returns (es: seq<Event>)
    requires |key| == 16 && |ipn| == 6 && |mic| == 8
    ensures |es| == 5 && es[1] == IgtkSent(AP, 4, key) && es[4] == Received(BroadcastDeauth(6, ipn, mic))
    ensures FindBss(At(m, es, 4).bss, AP) == Bss(Bip.Cmac128, true, map[4 := key])
    ensures StateOf(At(m, es, 4), AP, VICTIM) == State3 && MfpcOf(At(m, es, 4), AP, VICTIM)
    ensures |es[4].f.data| == 44 && !Vouched(At(m, es, 4), es[4].f)
    ensures StateOf(At(m, es, 5), AP, VICTIM) == State1
  {
    hide Step, Kind, Judged, Vouched, Covers, BroadcastDeauth, StateOf, MfpcOf, FindBss, Announcing;
    var last := Received(BroadcastDeauth(6, ipn, mic));
    es := [Announcing(), IgtkSent(AP, 4, key), Join()[0], Join()[1], last];
    AtUnfolds(m, es);
    AnnouncingSets(At(m, es, 0));
    IgtkIsStored(At(m, es, 1), key);
    JoinAssociates(At(m, es, 2));
    var st: Stations := map[(AP, VICTIM) := Sta(State3, true)];
    var n := Net(m, st, map[AP := Bss(Bip.Cmac128, true, map[4 := key])]);
    assert At(m, es, 4) == n;
    JoinedFacts(n, key);
    BroadcastSkips(n, key, ipn, mic);
    StepOnStation(n, last, AP, VICTIM);
    KindsExclude(n, last, AP, VICTIM);
  }

  lemma JoinedFacts(n: Net, key: Octets)
    requires n.sta == map[(AP, VICTIM) := Sta(State3, true)]
    requires n.bss == map[AP := Bss(Bip.Cmac128, true, map[4 := key])]
    ensures StateOf(n, AP, VICTIM) == State3 && MfpcOf(n, AP, VICTIM)
    ensures FindBss(n.bss, AP) == Bss(Bip.Cmac128, true, map[4 := key])
  {
  }

  lemma IgtkIsStored(n: Net, key: Octets)
    requires |key| == 16 && n.bss == map[AP := Bss(Bip.Cmac128, true, map[])]
    ensures Step(n, IgtkSent(AP, 4, key)) == n.(bss := map[AP := Bss(Bip.Cmac128, true, map[4 := key])])
  {
  }

  lemma BroadcastSkips(n: Net, key: Octets, ipn: Octets, mic: Octets)
    requires |ipn| == 6 && |mic| == 8 && n.bss == map[AP := Bss(Bip.Cmac128, true, map[4 := key])]
    ensures
      var f := BroadcastDeauth(6, ipn, mic);
      |f.data| == 44 && Deauths(n, Received(f), AP, VICTIM) && !Vouched(n, f)
  {
    hide MmieFound, MmieKeyId, KindOf;
    var f := BroadcastDeauth(6, ipn, mic);
    BuiltFields(12, BROADCAST, AP, WithMmie(6, ipn, mic));
    MmieOfBuilt(6, ipn, mic);
    DeauthIs12(f);
    assert Number(WithoutReserved(6)) == 6;
  }
}
