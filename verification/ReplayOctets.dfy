/**
 Replay detection on the octets of its frames: which frames share a receive counter and which never
 do, where the packet number is read, and what key installations do to the counters.
 */
module ReplayOctets {
  import opened Bytes
  import opened Ieee80211
  import opened FrameOctets
  import opened PacketNumber
  import opened Replay

  // ---- The counter of a frame ----

  /** Priority of a frame: the low four bits of its QoS Control field, or 0. */
  function Nibble(f: DataFrame): bv8 {
    match f.qos
    case None => 0
    case Some(v) => v & 0x0f
  }

  lemma TidIsNibble(f: DataFrame)
    ensures TidOf(f) == Nibble(f) as int
  {
  }

  lemma OctetsDiffer(a: bv8, b: bv8)
    ensures a as int == b as int <==> a == b
  {
  }

  /** Station behind the AP: A1 is the AP in a frame to the DS, A2 in one from it, and A3 in neither. */
  lemma CounterOnOctets(f: DataFrame)
    ensures
      var a1, a2, a3 := f.hdr[4..10], f.hdr[10..16], f.hdr[16..22];
      var to, from, tid := ToDsBit(f.hdr), FromDsBit(f.hdr), Nibble(f) as int;
      SlotOf(f) ==
      if to && !from then ToDs(StaId(a1, a2), tid)
      else if from && !to then FromDs(StaId(a2, a1), tid)
      else if to && from then
        if f.staTransmits || a1 == a2 then ToDs(if f.staTransmits then StaId(a1, a2) else StaId(a2, a1), tid)
        else FromDs(StaId(a2, a1), tid)
      else if f.byTransmitter == Some(true) || (f.byTransmitter == Some(false) && a1 == a2) then
        ByInitiator(if f.byTransmitter.value then LinkId(a3, a2, a1) else LinkId(a3, a1, a2), tid)
      else if f.byTransmitter == Some(false) then ByResponder(LinkId(a3, a1, a2), tid)
      else FromDs(StaId(a3, a2), tid)
  {
    hide Has, FrameControl, Nibble, TidOf;
    TidIsNibble(f);
    FlagsOnOctets(f.hdr);
    FieldsOnOctets(f.hdr);
  }

  lemma CounterHasNibble(f: DataFrame)
    ensures !SlotOf(f).GroupKey? && SlotOf(f).tid == Nibble(f) as int
  {
    hide Nibble, SlotOf, ToDsBit, FromDsBit;
    CounterOnOctets(f);
  }

  lemma OtherCounterOtherFrame(cs: Counters, f: DataFrame, g: DataFrame)
    requires SlotOf(f) != SlotOf(g)
    ensures Accepts(Step(cs, Unicast(f)), Unicast(g)) <==> Accepts(cs, Unicast(g))
  {
    hide Compare, SlotOf, PnOf, ExtIvMissing;
  }

  /** Frames whose priorities differ are judged independently, whatever else they have in common. */
  lemma PrioritiesCountApart(cs: Counters, f: DataFrame, g: DataFrame)
    requires Nibble(f) != Nibble(g)
    ensures Accepts(Step(cs, Unicast(f)), Unicast(g)) <==> Accepts(cs, Unicast(g))
  {
    hide Accepts, Step, Nibble, SlotOf;
    CounterHasNibble(f);
    CounterHasNibble(g);
    OctetsDiffer(Nibble(f), Nibble(g));
    OtherCounterOtherFrame(cs, f, g);
  }

  /** So are a frame to the AP and a frame from it, whoever the station is. */
  lemma DirectionsCountApart(cs: Counters, f: DataFrame, g: DataFrame)
    requires ToDsBit(f.hdr) && !FromDsBit(f.hdr) && FromDsBit(g.hdr) && !ToDsBit(g.hdr)
    ensures Accepts(Step(cs, Unicast(f)), Unicast(g)) <==> Accepts(cs, Unicast(g))
    ensures Accepts(Step(cs, Unicast(g)), Unicast(f)) <==> Accepts(cs, Unicast(f))
  {
    hide Accepts, Step, Nibble;
    CounterOnOctets(f);
    CounterOnOctets(g);
    OtherCounterOtherFrame(cs, f, g);
    OtherCounterOtherFrame(cs, g, f);
  }

  /** The two sides of a TDLS link, and a link and the path over the AP, are judged independently. */
  lemma LinkSidesCountApart(cs: Counters, f: DataFrame, g: DataFrame)
    requires !ToDsBit(f.hdr) && !FromDsBit(f.hdr) && f.byTransmitter.Some?
    requires f.hdr[4..10] != f.hdr[10..16]
    requires g.byTransmitter.None? || ToDsBit(g.hdr) || FromDsBit(g.hdr) ||
             (g.hdr[4..10] == f.hdr[10..16] && g.hdr[10..16] == f.hdr[4..10])
    ensures Accepts(Step(cs, Unicast(f)), Unicast(g)) <==> Accepts(cs, Unicast(g))
  {
    hide Accepts, Step, Nibble;
    CounterOnOctets(f);
    CounterOnOctets(g);
    OtherCounterOtherFrame(cs, f, g);
  }

  /** So are the frames of two stations of an AP, in either direction. */
  lemma OtherStationsCountApart(cs: Counters, f: DataFrame, g: DataFrame)
    requires ToDsBit(f.hdr) != FromDsBit(f.hdr)
    requires ToDsBit(g.hdr) == ToDsBit(f.hdr) && FromDsBit(g.hdr) == FromDsBit(f.hdr)
    requires f.hdr[4..10] != g.hdr[4..10] || f.hdr[10..16] != g.hdr[10..16]
    ensures Accepts(Step(cs, Unicast(f)), Unicast(g)) <==> Accepts(cs, Unicast(g))
  {
    hide Accepts, Step, Nibble;
    CounterOnOctets(f);
    CounterOnOctets(g);
    OtherCounterOtherFrame(cs, f, g);
  }

  /** Same path: the same addresses, DS bits, answers about station and link, and priority. */
  predicate SamePath(f: DataFrame, g: DataFrame) {
    && f.hdr[4..10] == g.hdr[4..10] && f.hdr[10..16] == g.hdr[10..16] && f.hdr[16..22] == g.hdr[16..22]
    && ToDsBit(f.hdr) == ToDsBit(g.hdr) && FromDsBit(f.hdr) == FromDsBit(g.hdr)
    && f.staTransmits == g.staTransmits && f.byTransmitter == g.byTransmitter
    && Nibble(f) == Nibble(g)
  }

  // ---- The packet number ----

  /** TKIP puts TSC1 and TSC0 into octets 0 and 2, everything else, and TDLS whatever its cipher, into 1 and 0. */
  lemma NumberOnOctets(f: DataFrame)
    requires |f.body| >= 8
    ensures
      var b := f.body;
      var link := !ToDsBit(f.hdr) && !FromDsBit(f.hdr) && f.byTransmitter.Some?;
      PnOf(f) == [b[7], b[6], b[5], b[4]] + (if f.cipher == Tkip && !link then [b[0], b[2]] else [b[1], b[0]])
  {
    hide Has, FrameControl;
    FlagsOnOctets(f.hdr);
  }

  /** A frame counts when it decrypts, has an IV of 8 octets, marked 0x20 for TKIP and CCMP, and is not WEP. */
  lemma CountsOnOctets(f: DataFrame)
    ensures Counts(Unicast(f)) <==>
            && f.decrypts && f.cipher != Wep40 && |f.body| >= 8
            && (f.cipher == Tkip || f.cipher == Ccmp ==> f.body[3] & 0x20 != 0)
  {
  }

  /** On the same path, a frame that was accepted makes every frame with the same or a smaller number a replay. */
  lemma NumberOnlyOnce(cs: Counters, f: DataFrame, g: DataFrame)
    requires SamePath(f, g) && Accepts(cs, Unicast(f)) && |g.body| >= 8
    requires Value(PnOf(g)) <= Value(PnOf(f))
    ensures !Accepts(Step(cs, Unicast(f)), Unicast(g))
  {
    hide Compare, Value, PnOf, ExtIvMissing, SlotOf, ToDsBit, FromDsBit, Nibble;
    CounterOnOctets(f);
    CounterOnOctets(g);
    CompareIsNumericOrder(PnOf(g), PnOf(f));
  }

  /** And a larger one is accepted, if it counts at all. */
  lemma LargerNumberAccepted(cs: Counters, f: DataFrame, g: DataFrame)
    requires SamePath(f, g) && Accepts(cs, Unicast(f)) && Counts(Unicast(g))
    requires Value(PnOf(g)) > Value(PnOf(f))
    ensures Accepts(Step(cs, Unicast(f)), Unicast(g))
  {
    hide Compare, Value, PnOf, ExtIvMissing, SlotOf, ToDsBit, FromDsBit, Nibble;
    CounterOnOctets(f);
    CounterOnOctets(g);
    CompareIsNumericOrder(PnOf(g), PnOf(f));
  }

  lemma SamePathSameCounter(f: DataFrame, g: DataFrame)
    requires SamePath(f, g)
    ensures SlotOf(f) == SlotOf(g)
  {
    hide ToDsBit, FromDsBit, Nibble, SlotOf;
    CounterOnOctets(f);
    CounterOnOctets(g);
  }

  /** Over every run: on one path the numbers of accepted frames strictly increase until their counter is reset. */
  lemma {:induction false} SamePathIncreases(cs: Counters, es: seq<Event>, i: nat, j: nat)
    requires i < j < |es| && es[i].Unicast? && es[j].Unicast? && SamePath(es[i].f, es[j].f)
    requires Accepts(At(cs, es, i), es[i]) && Accepts(At(cs, es, j), es[j])
    requires forall k | i <= k < j :: !Disturbs(es[k], SlotOf(es[i].f))
    ensures Value(PnOf(es[i].f)) < Value(PnOf(es[j].f))
  {
    hide SamePath, SlotOf, PnOf, Value, Disturbs, At;
    SamePathSameCounter(es[i].f, es[j].f);
    AcceptedStrictlyIncrease(cs, es, SlotOf(es[i].f), i, j);
  }

  // ---- Group frames ----

  lemma TopBits(v: bv8)
    ensures KeyIdBits(v) == v / 0x40 && KeyIdBits(v) as int < 4
  {
  }

  /** BSS in A2, key id in the top two bits of IV octet 3, and the packet number as above. */
  lemma GroupOnOctets(g: GroupFrame)
    requires |g.body| >= 8
    ensures
      var b := g.body;
      && GroupSlotOf(g) == GroupKey(g.hdr[10..16], (b[3] / 0x40) as int)
      && GroupPnOf(g) == [b[7], b[6], b[5], b[4]] + (if g.cipher == Tkip then [b[0], b[2]] else [b[1], b[0]])
      && (Counts(Multicast(g)) <==>
          && g.decrypts && g.keyKnown && g.cipher != Wep40
          && (g.cipher == Tkip || g.cipher == Ccmp ==> b[3] & 0x20 != 0))
  {
    TopBits(g.body[3]);
  }

  /** Group frames of other BSSes or key ids are judged independently. */
  lemma GroupKeysCountApart(cs: Counters, f: GroupFrame, g: GroupFrame)
    requires |f.body| >= 8 && |g.body| >= 8
    requires f.hdr[10..16] != g.hdr[10..16] || f.body[3] / 0x40 != g.body[3] / 0x40
    ensures Accepts(Step(cs, Multicast(f)), Multicast(g)) <==> Accepts(cs, Multicast(g))
  {
    GroupOnOctets(f);
    GroupOnOctets(g);
    OctetsDiffer(f.body[3] / 0x40, g.body[3] / 0x40);
    OtherGroupKey(cs, f, g);
  }

  lemma OtherGroupKey(cs: Counters, f: GroupFrame, g: GroupFrame)
    requires |f.body| >= 4 && |g.body| >= 4 && GroupSlotOf(f) != GroupSlotOf(g)
    ensures Accepts(Step(cs, Multicast(f)), Multicast(g)) <==> Accepts(cs, Multicast(g))
  {
    hide Compare, GroupSlotOf, GroupPnOf, ExtIvMissing;
  }

  // ---- Management frames and key installations ----

  /** Index 16 of the station: the transmitter to the AP if A1 is the BSSID, else the receiver. */
  lemma ManagementOnOctets(hdr: Frame)
    ensures
      ManagementSlotOf(hdr) ==
      if hdr[4..10] == hdr[16..22] then ToDs(StaId(hdr[16..22], hdr[10..16]), 16)
      else FromDs(StaId(hdr[16..22], hdr[4..10]), 16)
  {
  }

  /** A new pairwise key zeroes every counter of its station, of both directions and every index, and no other. */
  lemma PairwiseKeyResets(cs: Counters, sta: StaId, s: Slot)
    ensures
      Rsc(Step(cs, PtkInstalled(sta)), s) ==
      if (s.ToDs? || s.FromDs?) && s.sta == sta then [0, 0, 0, 0, 0, 0] else Rsc(cs, s)
  {
  }

  /** A group key sets the counter of its BSS and id to the number announced, and no other. */
  lemma GroupKeySets(cs: Counters, ap: Addr, id: nat, rsc: Pn, s: Slot)
    ensures Rsc(Step(cs, GtkInstalled(ap, id, rsc)), s) == if s == GroupKey(ap, id) then rsc else Rsc(cs, s)
  {
  }

  /** A decrypted WEP frame stores whatever was in the variable for the packet number. */
  lemma WepStoresJunk(cs: Counters, f: DataFrame)
    requires f.cipher == Wep40 && f.decrypts && |f.body| >= 8
    ensures !Accepts(cs, Unicast(f)) && Rsc(Step(cs, Unicast(f)), SlotOf(f)) == f.junk
  {
    hide SlotOf;
  }
}
