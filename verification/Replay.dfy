/**
 Replay detection for received protected frames: the receive counter that
 `rx_data_bss_prot` and `rx_data_bss_prot_group` compare with, and when they store the new
 packet number. Whether a frame decrypts is left open: each frame carries the answer.
 */
module Replay {
  import opened Bytes
  import opened Ieee80211
  import opened PacketNumber

  type Octets = seq<bv8>
  type Pn = s: seq<bv8> | |s| == 6 witness seq(6, i => 0)

  const ZERO: Pn := [0, 0, 0, 0, 0, 0]

  type Addr = s: seq<bv8> | |s| == 6 witness seq(6, i => 0)

  /** A station of a BSS, and a TDLS link between two of them. */
  datatype StaId = StaId(bssid: Addr, addr: Addr)
  datatype LinkId = LinkId(bssid: Addr, init: Addr, resp: Addr)

  /** Receive counters: of a station per direction, of a TDLS link per side, of a group key of a BSS. */
  datatype Slot =
    | ToDs(sta: StaId, tid: nat)
    | FromDs(sta: StaId, tid: nat)
    | ByInitiator(link: LinkId, tid: nat)
    | ByResponder(link: LinkId, tid: nat)
    | GroupKey(bssid: Addr, keyId: nat)

  datatype Cipher = Tkip | Ccmp | Wep40 | OtherCipher

  /**
   A protected data frame with the cipher of its station and whether some key decrypts it. Two
   answers depend on what is known when it arrives: which address of a four-address frame is taken
   for the station (the transmitter, or else the receiver), and for a direct frame whether there is
   a TDLS link, and if so whether its transmitter set it up.
   */
  datatype DataFrame = DataFrame(
    hdr: Frame, qos: Option<bv8>, body: Octets, cipher: Cipher,
    staTransmits: bool, byTransmitter: Option<bool>, decrypts: bool, junk: Pn)

  datatype GroupFrame = GroupFrame(
    hdr: Frame, body: Octets, cipher: Cipher, keyKnown: bool, decrypts: bool, junk: Pn)

  /**
   What the monitor can see: protected unicast and group data, protected unicast management,
   a newly installed pairwise key and a group key installed with its receive counter.
   */
  datatype Event =
    | Unicast(f: DataFrame)
    | Multicast(g: GroupFrame)
    | Management(hdr: Frame, pn: Pn, mgmtDecrypts: bool)
    | PtkInstalled(owner: StaId)
    | GtkInstalled(ap: Addr, id: nat, rsc: Pn)

  // ---- Choices made for a frame ----

  function TidOf(f: DataFrame): nat {
    if f.qos.Some? then Low4(f.qos.value) as int else 0
  }

  /** The station whose key and counters are used: the one behind an AP, or the transmitter of a direct frame. */
  function StationOf(f: DataFrame): StaId {
    var fc, a1, a2 := FrameControl(f.hdr), Addr1(f.hdr), Addr2(f.hdr);
    if FourAddresses(fc) then if f.staTransmits then StaId(a1, a2) else StaId(a2, a1)
    else if Has(fc, TO_DS) then StaId(a1, a2)
    else if Has(fc, FROM_DS) then StaId(a2, a1)
    else StaId(Addr3(f.hdr), a2)
  }

  function LinkOf(f: DataFrame): Option<LinkId> {
    var fc, a1, a2 := FrameControl(f.hdr), Addr1(f.hdr), Addr2(f.hdr);
    if Has(fc, TO_DS) || Has(fc, FROM_DS) || f.byTransmitter.None? then None
    else if f.byTransmitter.value then Some(LinkId(Addr3(f.hdr), a2, a1))
    else Some(LinkId(Addr3(f.hdr), a1, a2))
  }

  function SlotOf(f: DataFrame): Slot {
    var fc, a2, tid := FrameControl(f.hdr), Addr2(f.hdr), TidOf(f);
    var sta, link := StationOf(f), LinkOf(f);
    if link.Some? then if a2 == link.value.init then ByInitiator(link.value, tid) else ByResponder(link.value, tid)
    else if FourAddresses(fc) then if sta.addr == a2 then ToDs(sta, tid) else FromDs(sta, tid)
    else if Has(fc, TO_DS) then ToDs(sta, tid)
    else FromDs(sta, tid)
  }

  function GroupSlotOf(g: GroupFrame): Slot
    requires |g.body| >= 4
  {
    GroupKey(Addr2(g.hdr), KeyIdOf(g))
  }

  /** TKIP and CCMP frames must say that they have an extended IV. */
  predicate ExtIvMissing(cipher: Cipher, body: Octets)
    requires |body| >= 4
  {
    (cipher == Tkip || cipher == Ccmp) && body[3] & 0x20 == 0
  }

  function ExtractPn(tkip: bool, body: Octets): Pn
    requires |body| >= 8
  {
    if tkip then TkipPn(body) else CcmpPn(body)
  }

  function PnOf(f: DataFrame): Pn
    requires |f.body| >= 8
  {
    ExtractPn(LinkOf(f).None? && f.cipher == Tkip, f.body)
  }

  function GroupPnOf(g: GroupFrame): Pn
    requires |g.body| >= 8
  {
    ExtractPn(g.cipher == Tkip, g.body)
  }

  function KeyIdBits(v: bv8): bv8 {
    v >> 6
  }

  function KeyIdOf(g: GroupFrame): nat
    requires |g.body| >= 4
  {
    KeyIdBits(g.body[3]) as int
  }

  /** The frame reaches decryption and is decrypted; a body too short for an IV never is. */
  predicate Decrypted(f: DataFrame) {
    |f.body| >= 8 && !ExtIvMissing(f.cipher, f.body) && f.decrypts
  }

  predicate GroupDecrypted(g: GroupFrame) {
    |g.body| >= 8 && !ExtIvMissing(g.cipher, g.body) && (g.keyKnown || g.cipher == Wep40) && g.decrypts
  }

  /** Management frames count under index 16 of their station, in the direction of the AP or from it. */
  function ManagementSlotOf(hdr: Frame): Slot {
    if Addr1(hdr) == Addr3(hdr) then ToDs(StaId(Addr3(hdr), Addr2(hdr)), 16)
    else FromDs(StaId(Addr3(hdr), Addr1(hdr)), 16)
  }

  // ---- Counters and steps ----

  type Counters = map<Slot, Pn>

  function Rsc(cs: Counters, s: Slot): Pn {
    if s in cs then cs[s] else ZERO
  }

  predicate IsStationSlot(s: Slot) {
    s.ToDs? || s.FromDs?
  }

  /** In one of the two tables of the station. */
  predicate BelongsTo(s: Slot, sta: StaId) {
    IsStationSlot(s) && s.sta == sta
  }

  /** Store the number of a decrypted frame unless it was a replay; WEP stores whatever was in the variable. */
  function Stored(cs: Counters, s: Slot, wep: bool, pn: Pn, junk: Pn): Counters {
    if wep then cs[s := junk]
    else if Compare(pn, Rsc(cs, s)) <= 0 then cs
    else cs[s := pn]
  }

  /** Both tables of the station zeroed. */
  function WithoutStation(cs: Counters, sta: StaId): Counters {
    map s | s in cs && !BelongsTo(s, sta) :: cs[s]
  }

  function Step(cs: Counters, e: Event): Counters {
    match e
    case Unicast(f) =>
      if Decrypted(f) then Stored(cs, SlotOf(f), f.cipher == Wep40, PnOf(f), f.junk) else cs
    case Multicast(g) =>
      if GroupDecrypted(g) then Stored(cs, GroupSlotOf(g), g.cipher == Wep40, GroupPnOf(g), g.junk) else cs
    case Management(hdr, pn, ok) => if ok then cs[ManagementSlotOf(hdr) := pn] else cs
    case PtkInstalled(sta) => WithoutStation(cs, sta)
    case GtkInstalled(ap, id, rsc) => cs[GroupKey(ap, id) := rsc]
  }

  class Tracker {
    var rsc: Counters

    constructor ()
      ensures rsc == map[]
    {
      rsc := map[];
    }

    /** Station or link, then its counter for the direction and TID. */
    method Choose(f: DataFrame) returns (slot: Slot)
      ensures slot == SlotOf(f)
    {
      var fc, a1, a2, a3 := FrameControl(f.hdr), Addr1(f.hdr), Addr2(f.hdr), Addr3(f.hdr);
      var sta: StaId;
      var link: Option<LinkId> := None;
      if Has(fc, TO_DS) && Has(fc, FROM_DS) {
        sta := if f.staTransmits then StaId(a1, a2) else StaId(a2, a1);
      } else if Has(fc, TO_DS) {
        sta := StaId(a1, a2);
      } else if Has(fc, FROM_DS) {
        sta := StaId(a2, a1);
      } else {
        sta := StaId(a3, a2);
        if f.byTransmitter.Some? {
          link := Some(if f.byTransmitter.value then LinkId(a3, a2, a1) else LinkId(a3, a1, a2));
        }
      }
      var tid := if f.qos.Some? then Low4(f.qos.value) as int else 0;
      if link.Some? {
        slot := if a2 == link.value.init then ByInitiator(link.value, tid) else ByResponder(link.value, tid);
      } else if Has(fc, TO_DS) && Has(fc, FROM_DS) {
        slot := if sta.addr == a2 then ToDs(sta, tid) else FromDs(sta, tid);
      } else if Has(fc, TO_DS) {
        slot := ToDs(sta, tid);
      } else {
        slot := FromDs(sta, tid);
      }
    }

    method RxDataProt(f: DataFrame) returns (accepted: bool)
      modifies this
      ensures rsc == Step(old(rsc), Unicast(f))
      ensures accepted <==> Accepts(old(rsc), Unicast(f))
    {
      accepted := false;
      if |f.body| < 4 {
        return;
      }
      if (f.cipher == Tkip || f.cipher == Ccmp) && f.body[3] & 0x20 == 0 {
        return;
      }
      var slot := Choose(f);
      var pn := f.junk;
      var replay := false;
      if |f.body| < 8 {
        return;
      }
      if LinkOf(f).None? && f.cipher == Tkip {
        pn := TkipPn(f.body);
      } else if f.cipher != Wep40 {
        pn := CcmpPn(f.body);
      }
      if f.cipher != Wep40 {
        replay := Compare(pn, Rsc(rsc, slot)) <= 0;
      }
      if f.decrypts && !replay {
        rsc := rsc[slot := pn];
        accepted := f.cipher != Wep40;
      }
    }

    method RxDataProtGroup(g: GroupFrame) returns (accepted: bool)
      modifies this
      ensures rsc == Step(old(rsc), Multicast(g))
      ensures accepted <==> Accepts(old(rsc), Multicast(g))
    {
      accepted := false;
      if |g.body| < 4 {
        return;
      }
      if (g.cipher == Tkip || g.cipher == Ccmp) && g.body[3] & 0x20 == 0 {
        return;
      }
      var slot := GroupSlotOf(g);
      if (!g.keyKnown && g.cipher != Wep40) || |g.body| < 8 {
        return;
      }
      var pn := g.junk;
      var replay := false;
      if g.cipher == Tkip {
        pn := TkipPn(g.body);
      } else if g.cipher != Wep40 {
        pn := CcmpPn(g.body);
      }
      if g.cipher != Wep40 {
        replay := Compare(pn, Rsc(rsc, slot)) <= 0;
      }
      if g.decrypts && !replay {
        rsc := rsc[slot := pn];
        accepted := g.cipher != Wep40;
      }
    }
  }

  // ---- Acceptance over runs ----

  /** A data frame with a packet number, that is, not WEP, which decrypts. */
  predicate Counts(e: Event) {
    || (e.Unicast? && Decrypted(e.f) && e.f.cipher != Wep40)
    || (e.Multicast? && GroupDecrypted(e.g) && e.g.cipher != Wep40)
  }

  function EventSlot(e: Event): Slot
    requires Counts(e)
  {
    if e.Unicast? then SlotOf(e.f) else GroupSlotOf(e.g)
  }

  function EventPn(e: Event): Pn
    requires Counts(e)
  {
    if e.Unicast? then PnOf(e.f) else GroupPnOf(e.g)
  }

  /** Decrypted and not flagged as a replay. */
  predicate Accepts(cs: Counters, e: Event) {
    Counts(e) && Compare(EventPn(e), Rsc(cs, EventSlot(e))) > 0
  }

  /** The counters before event n of a run. */
  ghost function At(cs: Counters, es: seq<Event>, n: nat): Counters
    requires n <= |es|
  {
    if n == 0 then cs else Step(At(cs, es, n - 1), es[n - 1])
  }

  ghost predicate AcceptedAt(cs: Counters, es: seq<Event>, n: nat, s: Slot)
    requires n < |es|
  {
    Accepts(At(cs, es, n), es[n]) && EventSlot(es[n]) == s
  }

  /**
   Something other than accepting a data frame sets counter s: a new pairwise key of its station, a
   group key with its id, or a decrypted WEP frame.
   */
  predicate Disturbs(e: Event, s: Slot) {
    match e
    case Unicast(f) => f.cipher == Wep40 && Decrypted(f) && s == SlotOf(f)
    case Multicast(g) => g.cipher == Wep40 && GroupDecrypted(g) && s == GroupSlotOf(g)
    case Management(_, _, _) => false
    case PtkInstalled(sta) => BelongsTo(s, sta)
    case GtkInstalled(ap, id, _) => s == GroupKey(ap, id)
  }

  /** A counter of data frames: index 16 belongs to management frames. */
  predicate IsDataSlot(s: Slot) {
    s.GroupKey? || s.tid <= 15
  }

  lemma TidInRange(f: DataFrame)
    ensures TidOf(f) <= 15
  {
    if f.qos.Some? {
      Low4InRange(f.qos.value);
    }
  }

  lemma Low4InRange(v: bv8)
    ensures Low4(v) as int <= 15
  {
  }

  lemma DataSlots(e: Event)
    requires Counts(e)
    ensures IsDataSlot(EventSlot(e))
  {
    if e.Unicast? {
      TidInRange(e.f);
    }
  }

  /** An undisturbed counter changes only by accepting, and then only upwards. */
  lemma StepRaisesOnly(cs: Counters, e: Event, s: Slot)
    requires IsDataSlot(s) && !Disturbs(e, s)
    ensures if Accepts(cs, e) && EventSlot(e) == s
            then Rsc(Step(cs, e), s) == EventPn(e) && Value(Rsc(cs, s)) < Value(EventPn(e))
            else Rsc(Step(cs, e), s) == Rsc(cs, s)
  {
    if Counts(e) {
      CompareIsNumericOrder(EventPn(e), Rsc(cs, EventSlot(e)));
    }
  }

  lemma {:induction false} CounterNeverFalls(cs: Counters, es: seq<Event>, s: Slot, i: nat, j: nat)
    requires i <= j <= |es| && IsDataSlot(s)
    requires forall k | i <= k < j :: !Disturbs(es[k], s)
    ensures Value(Rsc(At(cs, es, i), s)) <= Value(Rsc(At(cs, es, j), s))
  {
    hide Step, Value, Rsc, EventPn, Disturbs;
    if i < j {
      CounterNeverFalls(cs, es, s, i, j - 1);
      StepRaisesOnly(At(cs, es, j - 1), es[j - 1], s);
    }
  }

  /**
   Between two disturbances of a counter the packet numbers of accepted frames strictly
   increase, so no number is accepted twice.
   */
  lemma AcceptedStrictlyIncrease(cs: Counters, es: seq<Event>, s: Slot, i: nat, j: nat)
    requires i < j < |es| && AcceptedAt(cs, es, i, s) && AcceptedAt(cs, es, j, s)
    requires forall k | i <= k < j :: !Disturbs(es[k], s)
    ensures Value(EventPn(es[i])) < Value(EventPn(es[j]))
  {
    DataSlots(es[i]);
    StepRaisesOnly(At(cs, es, i), es[i], s);
    CounterNeverFalls(cs, es, s, i + 1, j);
    CompareIsNumericOrder(EventPn(es[j]), Rsc(At(cs, es, j), s));
  }

  /** After a key installation at event k, every accepted number has stayed at or below the counter. */
  lemma {:induction false} CounterIsLargestAccepted(cs: Counters, es: seq<Event>, s: Slot, k: nat, n: nat)
    requires k <= n <= |es| && IsDataSlot(s)
    requires forall x | k <= x < n :: !Disturbs(es[x], s)
    ensures forall x | k <= x < n && AcceptedAt(cs, es, x, s) :: Value(EventPn(es[x])) <= Value(Rsc(At(cs, es, n), s))
    ensures Rsc(At(cs, es, n), s) == Rsc(At(cs, es, k), s)
            || exists x | k <= x < n && AcceptedAt(cs, es, x, s) :: EventPn(es[x]) == Rsc(At(cs, es, n), s)
  {
    hide Step, Value, Rsc, EventPn, Disturbs;
    if k < n {
      CounterIsLargestAccepted(cs, es, s, k, n - 1);
      StepRaisesOnly(At(cs, es, n - 1), es[n - 1], s);
      if AcceptedAt(cs, es, n - 1, s) {
        assert EventPn(es[n - 1]) == Rsc(At(cs, es, n), s);
      } else {
        assert Rsc(At(cs, es, n), s) == Rsc(At(cs, es, n - 1), s);
      }
    }
  }

  /**
   Exactly which frames are flagged: a decrypted data frame at n is accepted if and only if its
   number exceeds the counter set at the last disturbance and every number accepted since.
   */
  lemma {:induction false} AcceptedIffLargest(cs: Counters, es: seq<Event>, k: nat, n: nat)
    requires k <= n < |es| && Counts(es[n])
    requires forall x | k <= x < n :: !Disturbs(es[x], EventSlot(es[n]))
    ensures Accepts(At(cs, es, n), es[n]) <==>
            && Value(Rsc(At(cs, es, k), EventSlot(es[n]))) < Value(EventPn(es[n]))
            && forall x | k <= x < n && AcceptedAt(cs, es, x, EventSlot(es[n])) ::
                 Value(EventPn(es[x])) < Value(EventPn(es[n]))
  {
    var s := EventSlot(es[n]);
    DataSlots(es[n]);
    CounterIsLargestAccepted(cs, es, s, k, n);
    CounterNeverFalls(cs, es, s, k, n);
    CompareIsNumericOrder(EventPn(es[n]), Rsc(At(cs, es, n), s));
  }

  /** A frame of one station to its AP does not count against the frames of another to the same AP. */
  lemma StationsCountApart(cs: Counters, f: DataFrame, g: DataFrame)
    requires Has(FrameControl(f.hdr), TO_DS) && !Has(FrameControl(f.hdr), FROM_DS)
    requires Has(FrameControl(g.hdr), TO_DS) && !Has(FrameControl(g.hdr), FROM_DS)
    requires Addr1(f.hdr) == Addr1(g.hdr) && Addr2(f.hdr) != Addr2(g.hdr)
    ensures Accepts(Step(cs, Unicast(f)), Unicast(g)) <==> Accepts(cs, Unicast(g))
  {
    hide Compare, Has, FrameControl, Addr1, Addr2, TidOf, ExtIvMissing, PnOf;
    assert SlotOf(f).sta != SlotOf(g).sta;
  }

  // ---- Management frames: stored even when the replay test fails ----

  /** The counter of management frames of a station in one direction. */
  predicate IsManagementSlot(s: Slot) {
    IsStationSlot(s) && s.tid == 16
  }

  /** A decrypted management frame that counts here. */
  predicate Renumbers(e: Event, s: Slot) {
    e.Management? && e.mgmtDecrypts && ManagementSlotOf(e.hdr) == s
  }

  /** A new pairwise key of the station the counter belongs to. */
  predicate Resets(e: Event, s: Slot) {
    e.PtkInstalled? && BelongsTo(s, e.owner)
  }

  lemma StepOnManagement(cs: Counters, e: Event, s: Slot)
    requires IsManagementSlot(s) && !Resets(e, s)
    ensures Rsc(Step(cs, e), s) == if Renumbers(e, s) then e.pn else Rsc(cs, s)
  {
    if e.Unicast? {
      TidInRange(e.f);
    }
  }

  /**
   The counter falls exactly when a frame is decrypted whose number compares as smaller: one that
   the test noted as a replay.
   */
  lemma ManagementFallsIff(cs: Counters, e: Event, s: Slot)
    requires IsManagementSlot(s) && !Resets(e, s)
    ensures Value(Rsc(Step(cs, e), s)) < Value(Rsc(cs, s)) <==>
            Renumbers(e, s) && Compare(e.pn, Rsc(cs, s)) < 0
  {
    hide Step, Value, Compare, Rsc, ManagementSlotOf;
    StepOnManagement(cs, e, s);
    if Renumbers(e, s) {
      CompareIsNumericOrder(e.pn, Rsc(cs, s));
    }
  }

  /** Numbers of the decrypted management frames among events m to n, after the number the counter starts from. */
  ghost function Numbers(start: Pn, es: seq<Event>, m: nat, n: nat, s: Slot): (r: seq<Pn>)
    requires m <= n <= |es|
    ensures |r| > 0
    decreases n
  {
    if n == m then [start]
    else Numbers(start, es, m, n - 1, s) + (if Renumbers(es[n - 1], s) then [es[n - 1].pn] else [])
  }

  ghost predicate NeverDecreases(s: seq<Pn>) {
    forall i | 0 < i < |s| :: Value(s[i - 1]) <= Value(s[i])
  }

  ghost predicate ManagementNeverFalls(cs: Counters, es: seq<Event>, m: nat, n: nat, s: Slot)
    requires n <= |es|
  {
    forall k | m <= k < n :: Value(Rsc(At(cs, es, k), s)) <= Value(Rsc(At(cs, es, k + 1), s))
  }

  /**
   Over every stretch of a run without a new pairwise key of the station: the counter is the number
   of the last management frame decrypted there, and it never falls exactly when those numbers
   never decrease.
   */
  lemma {:induction false} ManagementCounterIsLastNumber(cs: Counters, es: seq<Event>, m: nat, n: nat, s: Slot)
    requires m <= n <= |es| && IsManagementSlot(s) && forall k | m <= k < n :: !Resets(es[k], s)
    ensures
      var numbers := Numbers(Rsc(At(cs, es, m), s), es, m, n, s);
      && Rsc(At(cs, es, n), s) == numbers[|numbers| - 1]
      && (ManagementNeverFalls(cs, es, m, n, s) <==> NeverDecreases(numbers))
    decreases n
  {
    hide Step, Value, Rsc, ManagementSlotOf, ManagementNeverFalls, NeverDecreases, IsManagementSlot, Resets;
    var start := Rsc(At(cs, es, m), s);
    if m == n {
      NothingFalls(cs, es, m, start, s);
    } else {
      ManagementCounterIsLastNumber(cs, es, m, n - 1, s);
      StepOnManagement(At(cs, es, n - 1), es[n - 1], s);
      ExtendNeverFalls(cs, es, m, n, s);
      if Renumbers(es[n - 1], s) {
        AppendedNeverDecreases(Numbers(start, es, m, n - 1, s), es[n - 1].pn);
      } else {
        assert Numbers(start, es, m, n, s) == Numbers(start, es, m, n - 1, s);
      }
    }
  }

  lemma NothingFalls(cs: Counters, es: seq<Event>, m: nat, start: Pn, s: Slot)
    requires m <= |es|
    ensures ManagementNeverFalls(cs, es, m, m, s) && NeverDecreases([start])
  {
  }

  lemma ExtendNeverFalls(cs: Counters, es: seq<Event>, m: nat, n: nat, s: Slot)
    requires m < n <= |es|
    ensures
      ManagementNeverFalls(cs, es, m, n, s) <==>
      && ManagementNeverFalls(cs, es, m, n - 1, s)
      && Value(Rsc(At(cs, es, n - 1), s)) <= Value(Rsc(At(cs, es, n), s))
  {
    hide Value, Rsc, At;
  }

  lemma {:induction false} AppendedNeverDecreases(s: seq<Pn>, x: Pn)
    requires |s| > 0
    ensures NeverDecreases(s + [x]) <==> NeverDecreases(s) && Value(s[|s| - 1]) <= Value(x)
  {
    hide Value;
    var t := s + [x];
    assert t[|s|] == x && t[|s| - 1] == s[|s| - 1];
    assert forall i | 0 <= i < |s| :: t[i] == s[i];
    if NeverDecreases(t) {
      forall i | 0 < i < |s|
        ensures Value(s[i - 1]) <= Value(s[i])
      {
        assert Value(t[i - 1]) <= Value(t[i]);
      }
    }
  }

  /** Such a run exists for every station and direction and every two numbers. */
  lemma {:induction false} ManagementCounterCanFall(cs: Counters, hdr: Frame, low: Pn, high: Pn)
    requires Value(low) < Value(high)
    ensures
      var es, s := [Management(hdr, high, true), Management(hdr, low, true)], ManagementSlotOf(hdr);
      Value(Rsc(At(cs, es, 2), s)) < Value(Rsc(At(cs, es, 1), s))
  {
    hide ManagementSlotOf;
    var es := [Management(hdr, high, true), Management(hdr, low, true)];
    assert At(cs, es, 1) == Step(At(cs, es, 0), es[0]);
    assert At(cs, es, 2) == Step(At(cs, es, 1), es[1]);
  }
}
