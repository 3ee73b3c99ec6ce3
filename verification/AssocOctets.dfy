/**
 The association machine on the octets of its frames: which octets make a frame an association
 response, an authentication, a disconnection or a declaration, and what the BIP check looks at.
 */
module AssocOctets {
  import opened Bytes
  import opened Ieee80211
  import opened Assoc
  import Bip

  // ---- Kinds of frames: the upper half of octet 0 ----

  lemma SubtypeBits(lo: bv8, hi: bv8)
    ensures
      var t := FcSubtype(Mk16(hi, lo));
      && (t == 0 <==> lo & 0xf0 == 0x00) && (t == 1 <==> lo & 0xf0 == 0x10) && (t == 2 <==> lo & 0xf0 == 0x20)
      && (t == 3 <==> lo & 0xf0 == 0x30) && (t == 5 <==> lo & 0xf0 == 0x50) && (t == 8 <==> lo & 0xf0 == 0x80)
      && (t == 10 <==> lo & 0xf0 == 0xa0) && (t == 11 <==> lo & 0xf0 == 0xb0) && (t == 12 <==> lo & 0xf0 == 0xc0)
      && (t == 13 <==> lo & 0xf0 == 0xd0)
    ensures Has(Mk16(hi, lo), PROTECTED) <==> hi & 0x40 != 0
  {
  }

  function Upper(v: bv8): bv8 {
    v & 0xf0
  }

  lemma KindByOctet(f: Whole)
    ensures
      var k := Kind(f);
      && (k == AssocReq <==> Upper(f.data[0]) == 0x00) && (k == AssocResp <==> Upper(f.data[0]) == 0x10)
      && (k == ReassocReq <==> Upper(f.data[0]) == 0x20) && (k == ReassocResp <==> Upper(f.data[0]) == 0x30)
      && (k == ProbeResp <==> Upper(f.data[0]) == 0x50) && (k == Beacon <==> Upper(f.data[0]) == 0x80)
      && (k == Disassoc <==> Upper(f.data[0]) == 0xa0) && (k == Auth <==> Upper(f.data[0]) == 0xb0)
      && (k == Deauth <==> Upper(f.data[0]) == 0xc0) && (k == Action <==> Upper(f.data[0]) == 0xd0)
    ensures IsProtected(f) <==> f.data[1] & 0x40 != 0
  {
    hide FcSubtype, Has;
    SubtypeBits(f.data[0], f.data[1]);
  }

  predicate Unicast(a: Octets)
    requires |a| == 6
  {
    a[0] & 0x01 == 0
  }

  lemma ZeroWord(lo: bv8, hi: bv8)
    ensures Mk16(hi, lo) == 0 <==> lo == 0 && hi == 0
    ensures Mk16(hi, lo) == 2 <==> lo == 2 && hi == 0
  {
  }

  // ---- The events of a run on octets ----

  /** Octet 0 is 0x1x or 0x3x, the receiver is the station, and the status in octets 26 and 27 is zero. */
  predicate AssociatesOnOctets(d: Octets, bssid: Addr, sta: Addr) {
    && |d| >= 30 && (Upper(d[0]) == 0x10 || Upper(d[0]) == 0x30)
    && d[16..22] == bssid && Unicast(bssid) && d[4..10] == sta && Unicast(sta)
    && d[26..28] == [0, 0]
  }

  /** The other end of a frame with the AP: the receiver if the transmitter is the AP, else the transmitter. */
  function OtherEnd(d: Octets): Octets
    requires |d| >= 24
  {
    if d[10..16] == d[16..22] then d[4..10] else d[10..16]
  }

  /** Octet 0 is 0xbx; algorithm 0, transaction 2 and status 0 in octets 24 to 29. */
  predicate AuthenticatesOnOctets(d: Octets, bssid: Addr, sta: Addr) {
    && |d| >= 30 && Upper(d[0]) == 0xb0
    && d[16..22] == bssid && Unicast(bssid) && OtherEnd(d) == sta && Unicast(sta)
    && d[24..30] == [0, 0, 2, 0, 0, 0]
  }

  lemma AssociatesIff(f: Whole, bssid: Addr, sta: Addr)
    ensures Associates(Received(f), bssid, sta) <==> AssociatesOnOctets(f.data, bssid, sta)
  {
    hide KindOf, Upper, Mk16;
    KindByOctet(f);
    if |f.data| >= 30 {
      ZeroWord(f.data[26], f.data[27]);
      assert f.data[26..28] == [f.data[26], f.data[27]];
    }
  }

  lemma AuthenticatesIff(f: Whole, bssid: Addr, sta: Addr)
    ensures Authenticates(Received(f), bssid, sta) <==> AuthenticatesOnOctets(f.data, bssid, sta)
  {
    hide KindOf, Upper, Mk16;
    KindByOctet(f);
    if |f.data| >= 30 {
      var d := f.data;
      ZeroWord(d[24], d[25]);
      ZeroWord(d[26], d[27]);
      ZeroWord(d[28], d[29]);
      assert d[24..30] == [d[24], d[25], d[26], d[27], d[28], d[29]];
    }
  }

  // ---- What check_bip finds in the octets ----

  /** The element that ends the frame: identifier 76, its length, key id, IPN, and a MIC of n octets. */
  predicate EndsInMmie(d: Octets, n: nat)
    requires n == 8 || n == 16
  {
    |d| >= 34 + n && d[|d| - n - 10] == 76 && d[|d| - n - 9] == if n == 8 then 16 else 24
  }

  /** The key id in the element is id; the upper four bits are ignored. */
  predicate NamesKey(d: Octets, n: nat, id: nat)
    requires |d| >= 34 + n && id <= 5
  {
    d[|d| - n - 7] & 0x0f == 0 && d[|d| - n - 8] == (if id == 4 then 4 else 5) && id >= 4
  }

  /** Group-addressed: no MIC is looked at, or it verifies under the IGTK named. */
  ghost predicate PassesBipOnOctets(n: Net, f: Whole) {
    var d := f.data;
    var bss := FindBss(n.bss, d[16..22]);
    var len: nat := if bss.cipher == Bip.Cmac128 then 8 else 16;
    if Upper(d[0]) == 0xd0 && (|d| == 24 || d[24] == 4) then true
    else if !Unicast(d[16..22]) then true
    else if !EndsInMmie(d, len) then !bss.mfpc
    else
      forall id: nat | 4 <= id <= 5 && NamesKey(d, len, id) && id in bss.igtk ::
        Bip.MmieMicValid(n.macs, bss.cipher, bss.igtk[id], d)
  }

  lemma KeyIdBits(lo: bv8, hi: bv8)
    ensures WithoutReserved(Mk16(hi, lo)) == 4 <==> hi & 0x0f == 0 && lo == 4
    ensures WithoutReserved(Mk16(hi, lo)) == 5 <==> hi & 0x0f == 0 && lo == 5
  {
  }

  lemma NumberIs(v: bv16)
    ensures (Number(v) == 4 <==> v == 4) && (Number(v) == 5 <==> v == 5)
  {
  }

  lemma KeyIdOnOctets(cipher: Bip.GroupCipher, d: Octets, id: nat)
    requires MmieFound(cipher, d) && 4 <= id <= 5
    ensures MmieKeyId(cipher, d) == id <==> NamesKey(d, Bip.CheckedMicLength(cipher), id)
  {
    hide WithoutReserved, Number, Mk16;
    var n := Bip.CheckedMicLength(cipher);
    var lo, hi := d[|d| - n - 8], d[|d| - n - 7];
    assert Le16(d, |d| - (8 + n)) == Mk16(hi, lo);
    KeyIdBits(lo, hi);
    NumberIs(WithoutReserved(Mk16(hi, lo)));
  }

  lemma PassesBipIff(n: Net, f: Whole)
    requires Kind(f) == Deauth || Kind(f) == Disassoc || Kind(f) == Action
    ensures BipPasses(n, f) <==> PassesBipOnOctets(n, f)
  {
    hide KindOf, Upper, MmieKeyId, NamesKey, Bip.MmieMicValid;
    KindByOctet(f);
    var bss := FindBss(n.bss, Bssid(f));
    if MmieFound(bss.cipher, f.data) {
      KeyIdOnOctets(bss.cipher, f.data, 4);
      KeyIdOnOctets(bss.cipher, f.data, 5);
    }
  }

  // ---- Validity on octets ----

  /** Not refused by the check of unprotected frames: octet 24 is the category of an Action frame. */
  predicate PassesPlainOnOctets(n: Net, f: Whole) {
    var d := f.data;
    var bssid, sta := d[16..22], if d[4..10] == d[16..22] then d[10..16] else d[4..10];
    var action := Upper(d[0]) == 0xd0;
    || (action && |d| > 24 && d[24] == 4)
    || !Unicast(bssid) || !Unicast(sta)
    || !Find(n.sta, bssid, sta).mfpc
    || (Find(n.sta, bssid, sta).state != State3 && !action)
  }

  /** Octet 4 says group-addressed, bit 0x40 of octet 1 protected. */
  ghost predicate ValidOnOctets(n: Net, f: Whole) {
    if f.data[4] & 0x01 != 0 then PassesBipOnOctets(n, f)
    else if f.data[1] & 0x40 != 0 then f.decryptedLen.Some?
    else PassesPlainOnOctets(n, f)
  }

  lemma JudgedIff(n: Net, f: Whole)
    ensures
      if Upper(f.data[0]) == 0xa0 || Upper(f.data[0]) == 0xc0 || Upper(f.data[0]) == 0xd0
      then Judged(n, f) <==> ValidOnOctets(n, f) else Judged(n, f)
  {
    hide KindOf, Upper, BipPasses, PassesBipOnOctets;
    KindByOctet(f);
    if IsRobust(Kind(f)) {
      PassesBipIff(n, f);
    }
  }

  /** Disconnects: addressed to or by the station, or to a receiver starting 0xff, with a reason code, and valid. */
  ghost predicate DisconnectsOnOctets(n: Net, f: Whole, bssid: Addr, sta: Addr) {
    var d := f.data;
    var len := if d[4] & 0x01 == 0 && d[1] & 0x40 != 0 && f.decryptedLen.Some? then f.decryptedLen.value else |d|;
    && len >= 26 && d[16..22] == bssid && Unicast(bssid)
    && (if Unicast(OtherEnd(d)) then OtherEnd(d) == sta else d[4] == 0xff)
    && ValidOnOctets(n, f)
  }

  lemma DisconnectsIff(n: Net, f: Whole, bssid: Addr, sta: Addr)
    ensures Deauths(n, Received(f), bssid, sta) <==> Upper(f.data[0]) == 0xc0 && DisconnectsOnOctets(n, f, bssid, sta)
    ensures Disassocs(n, Received(f), bssid, sta) <==> Upper(f.data[0]) == 0xa0 && DisconnectsOnOctets(n, f, bssid, sta)
  {
    hide KindOf, Upper, Judged, ValidOnOctets;
    KindByOctet(f);
    JudgedIff(n, f);
  }

  /**
   The effect of every frame on every station, on octets: (re)association responses, authentication,
   deauthentication and disassociation, and nothing else, move it.
   */
  lemma StateOnOctets(n: Net, f: Whole, bssid: Addr, sta: Addr)
    ensures
      var was, now := StateOf(n, bssid, sta), StateOf(Step(n, Received(f)), bssid, sta);
      var t := Upper(f.data[0]);
      now ==
      if t == 0x10 || t == 0x30 then if AssociatesOnOctets(f.data, bssid, sta) then State3 else was
      else if t == 0xb0 then if AuthenticatesOnOctets(f.data, bssid, sta) && was == State1 then State2 else was
      else if t == 0xc0 then if DisconnectsOnOctets(n, f, bssid, sta) then State1 else was
      else if t == 0xa0 then if DisconnectsOnOctets(n, f, bssid, sta) && was == State3 then State2 else was
      else was
  {
    hide Step, StateOf, Associates, Authenticates, Deauths, Disassocs, DisconnectsOnOctets, Upper, KindOf;
    StepOnStation(n, Received(f), bssid, sta);
    AssociatesIff(f, bssid, sta);
    AuthenticatesIff(f, bssid, sta);
    DisconnectsIff(n, f, bssid, sta);
  }

  /** Whatever the capability field, the AID and the elements are, the status alone decides. */
  lemma StatusDecides(n: Net, f: Whole)
    requires |f.data| >= 30 && (f.data[0] == 0x10 || f.data[0] == 0x30)
    requires f.data[4] & 0x01 == 0 && f.data[16] & 0x01 == 0
    ensures
      StateOf(Step(n, Received(f)), f.data[16..22], f.data[4..10]) ==
      if f.data[26] == 0 && f.data[27] == 0 then State3 else StateOf(n, f.data[16..22], f.data[4..10])
  {
    hide Step, StateOf;
    StateOnOctets(n, f, f.data[16..22], f.data[4..10]);
    assert f.data[26..28] == [f.data[26], f.data[27]];
  }

  // ---- Capabilities and keys ----

  /** Requests 0x0x from 28 and 0x2x from 34 octets on declare for their transmitter, and nothing else does. */
  lemma CapabilityOnOctets(n: Net, f: Whole, bssid: Addr, sta: Addr)
    ensures
      var d := f.data;
      MfpcOf(Step(n, Received(f)), bssid, sta) ==
      if ((Upper(d[0]) == 0x00 && |d| >= 28) || (Upper(d[0]) == 0x20 && |d| >= 34)) && f.declares.Some?
         && d[16..22] == bssid && Unicast(bssid) && d[10..16] == sta && Unicast(sta)
      then f.declares.value else MfpcOf(n, bssid, sta)
  {
    hide Step, MfpcOf, KindOf, Upper;
    KindByOctet(f);
    StepOnCapability(n, Received(f), bssid, sta);
  }

  /** Beacons 0x8x and probe responses 0x5x from 36 octets on change their BSS, and keep its keys. */
  lemma BssOnOctets(n: Net, f: Whole, bssid: Addr)
    ensures
      var d, was, now := f.data, FindBss(n.bss, bssid), FindBss(Step(n, Received(f)).bss, bssid);
      && now.igtk == was.igtk
      && if (Upper(d[0]) == 0x80 || Upper(d[0]) == 0x50) && |d| >= 36 && f.announces.Some?
            && d[16..22] == bssid && Unicast(bssid)
         then
           && now.mfpc == f.announces.value.mfpc
           && now.cipher == (if f.announces.value.rsn && now.mfpc then f.announces.value.cipher else Bip.NoCipher)
         else now == was
  {
    hide KindOf, Upper, Handled;
    KindByOctet(f);
  }

  /** Message 2 declares for its station, and an IGTK becomes known in its BSS; neither does anything else. */
  lemma OtherEventsStore(n: Net, e: Event, ap: Addr, sta: Addr)
    requires !e.Received?
    ensures
      var m := Step(n, e);
      && StateOf(m, ap, sta) == StateOf(n, ap, sta)
      && (MfpcOf(m, ap, sta) ==
          if e.Message2? && e.ap == ap && e.sta == sta && Unicast(ap) && Unicast(sta) && e.sent.Some?
          then e.sent.value else MfpcOf(n, ap, sta))
      && (FindBss(m.bss, ap) ==
          if e.IgtkSent? && e.ap == ap && Unicast(ap) && e.id <= 5 && |e.key| in {16, 32}
          then FindBss(n.bss, ap).(igtk := FindBss(n.bss, ap).igtk[e.id := e.key]) else FindBss(n.bss, ap))
  {
  }
}
