/**
 Injection on the octets of the frame: key, packet counter, header length and cipher for every kind
 of frame, and the number that is used.
 */
module InjectOctets {
  import opened Bytes
  import opened Ieee80211
  import opened FrameOctets
  import opened PacketNumber
  import opened Inject
  import Aead

  predicate IsDirectFrame(f: Frame) {
    DataBits(f) && !ToDsBit(f) && !FromDsBit(f)
  }

  /** Index of the counter: 16 for management, the low four bits of the QoS Control field, or 0. */
  function Index(f: Frame): nat
    requires HoldsHeader(f)
  {
    FieldsOnOctets(f);
    if MgmtBits(f) then 16 else if QosBits(f) then (f[QosAt(f)] & 0x0f) as int else 0
  }

  /** Addresses and QoS Control field of data frames count as header; other frames have 24 octets of it. */
  function HeaderSize(f: Frame): nat {
    if DataBits(f) then QosAt(f) + (if QosBits(f) then 2 else 0) else 24
  }

  lemma IndexIs(f: Frame)
    requires HoldsHeader(f)
    ensures TidOf(f) == Index(f) && HeaderLengthUsed(f) == HeaderSize(f)
  {
    hide FcType, IsQosData, Has, FrameControl, DataBits, MgmtBits, QosBits;
    FlagsOnOctets(f);
    FieldsOnOctets(f);
  }

  lemma KindIs(f: Frame)
    ensures IsDirect(FrameControl(f)) <==> IsDirectFrame(f)
    ensures FcType(FrameControl(f)) == TYPE_MGMT <==> MgmtBits(f)
    ensures FourAddresses(FrameControl(f)) <==> ToDsBit(f) && FromDsBit(f)
    ensures IsDirectFrame(f) ==> !MgmtBits(f)
  {
    hide FcType, Has, FrameControl;
    FlagsOnOctets(f);
  }

  /** The key asked for, or one that is wrong on purpose. */
  function Chosen(r: Request, key: Key): Key {
    match r.incorrectKey
    case true => Dummy
    case false => key
  }

  /** Without a station: management frames under the current IGTK, others under the current GTK, if there is one. */
  lemma GroupFrames(net: Network, r: Request)
    requires net.Valid() && Acceptable(net, r) && r.sta.None? && !IsDirectFrame(r.frame)
    ensures
      RouteOf(net, r) ==
      if MgmtBits(r.frame) then
        if net.igtkSet then ViaBip(Integrity(net.igtkIdx), Chosen(r, Igtk(net.igtkIdx))) else Refused
      else if !net.gtkSet then Refused
      else Via(Group(net.gtkIdx), Chosen(r, Gtk(net.gtkIdx)), QosAt(r.frame), net.groupTkip)
  {
    hide FcType, Has, FrameControl, IsDirect, DataBits, MgmtBits;
    KindIs(r.frame);
  }

  /** What a frame for station i is sent with: its key, and the counter of the direction that A2 says. */
  function ForStation(net: Network, r: Request, i: nat): Route
    requires i < |net.stations| && HoldsHeader(r.frame)
  {
    if !net.stations[i].ptkSet then Refused
    else
      var counter := if r.frame[10..16] == net.bssid then FromDs(i, Index(r.frame)) else ToDs(i, Index(r.frame));
      Via(counter, Chosen(r, Ptk(i)), HeaderSize(r.frame), net.stations[i].tkip)
  }

  /** With a station, and for anything but a direct data frame. */
  lemma StationFrames(net: Network, r: Request)
    requires net.Valid() && Acceptable(net, r) && r.sta.Some? && !IsDirectFrame(r.frame)
    ensures RouteOf(net, r) == ForStation(net, r, r.sta.value)
  {
    hide FcType, Has, FrameControl, IsDirect, HeaderLengthUsed, TidOf, HeaderSize, Index, IsDirectFrame;
    KindIs(r.frame);
    IndexIs(r.frame);
  }

  /** The first station of the list with that address. */
  ghost predicate IsStation(net: Network, addr: Octets, i: nat) {
    && i < |net.stations| && net.stations[i].addr == addr
    && forall k | 0 <= k < i :: net.stations[k].addr != addr
  }

  ghost predicate Joins(l: Link, a: nat, b: nat) {
    (l.init == a && l.resp == b) || (l.init == b && l.resp == a)
  }

  /** The first link between them. */
  ghost predicate IsLink(net: Network, a: nat, b: nat, j: nat) {
    && j < |net.links| && Joins(net.links[j], a, b)
    && forall k | 0 <= k < j :: !Joins(net.links[k], a, b)
  }

  lemma {:induction false} FirstStation(stations: seq<Station>, addr: Addr, from: nat, i: nat)
    requires from <= i < |stations| && stations[i].addr == addr
    requires forall k | from <= k < i :: stations[k].addr != addr
    ensures FindStation(stations, addr, from) == Some(i)
    decreases i - from
  {
    if from < i {
      FirstStation(stations, addr, from + 1, i);
    }
  }

  lemma {:induction false} NoStation(stations: seq<Station>, addr: Addr, from: nat)
    requires from <= |stations| && forall k | from <= k < |stations| :: stations[k].addr != addr
    ensures FindStation(stations, addr, from).None?
    decreases |stations| - from
  {
    if from < |stations| {
      NoStation(stations, addr, from + 1);
    }
  }

  lemma {:induction false} FirstLink(links: seq<Link>, a: nat, b: nat, from: nat, j: nat)
    requires from <= j < |links| && Joins(links[j], a, b)
    requires forall k | from <= k < j :: !Joins(links[k], a, b)
    ensures FindLink(links, a, b, from) == Some(j)
    decreases j - from
  {
    if from < j {
      assert !Joins(links[from], a, b);
      FirstLink(links, a, b, from + 1, j);
    }
  }

  lemma {:induction false} NoLink(links: seq<Link>, a: nat, b: nat, from: nat)
    requires from <= |links| && forall k | from <= k < |links| :: !Joins(links[k], a, b)
    ensures FindLink(links, a, b, from).None?
    decreases |links| - from
  {
    if from < |links| {
      assert !Joins(links[from], a, b);
      NoLink(links, a, b, from + 1);
    }
  }

  /** A direct frame of another BSS, or whose transmitter or receiver is unknown, is refused. */
  lemma StrangersAreRefused(net: Network, r: Request)
    requires net.Valid() && Acceptable(net, r) && IsDirectFrame(r.frame)
    requires || r.frame[16..22] != net.bssid
             || (forall k | 0 <= k < |net.stations| :: net.stations[k].addr != r.frame[10..16])
             || (forall k | 0 <= k < |net.stations| :: net.stations[k].addr != r.frame[4..10])
    ensures RouteOf(net, r).Refused?
  {
    hide FcType, Has, FrameControl, IsDirect, IsDirectFrame;
    KindIs(r.frame);
    if forall k | 0 <= k < |net.stations| :: net.stations[k].addr != r.frame[10..16] {
      NoStation(net.stations, r.frame[10..16], 0);
    }
    if forall k | 0 <= k < |net.stations| :: net.stations[k].addr != r.frame[4..10] {
      NoStation(net.stations, r.frame[4..10], 0);
    }
  }

  /** Between two stations with a link: the key of the link, and the counter of the side that transmits, never TKIP. */
  lemma LinkFrames(net: Network, r: Request, a: nat, b: nat, j: nat)
    requires net.Valid() && Acceptable(net, r) && IsDirectFrame(r.frame) && r.frame[16..22] == net.bssid
    requires IsStation(net, r.frame[10..16], a) && IsStation(net, r.frame[4..10], b) && IsLink(net, a, b, j)
    ensures
      net.links[j].init < |net.stations| &&
      var initiates := r.frame[10..16] == net.stations[net.links[j].init].addr;
      RouteOf(net, r) ==
      Via(if initiates then ByInitiator(j, Index(r.frame)) else ByResponder(j, Index(r.frame)),
          Chosen(r, Tpk(j)), HeaderSize(r.frame), false)
  {
    hide FcType, Has, FrameControl, IsDirect, IsDirectFrame, HeaderLengthUsed, TidOf, HeaderSize, Index;
    KindIs(r.frame);
    IndexIs(r.frame);
    FirstStation(net.stations, r.frame[10..16], 0, a);
    FirstStation(net.stations, r.frame[4..10], 0, b);
    FirstLink(net.links, a, b, 0, j);
  }

  /** Without a link: as a frame for the transmitter. */
  lemma DirectFrames(net: Network, r: Request, a: nat, b: nat)
    requires net.Valid() && Acceptable(net, r) && IsDirectFrame(r.frame) && r.frame[16..22] == net.bssid
    requires IsStation(net, r.frame[10..16], a) && IsStation(net, r.frame[4..10], b)
    requires forall k | 0 <= k < |net.links| :: !Joins(net.links[k], a, b)
    ensures RouteOf(net, r) == ForStation(net, r, a)
  {
    hide FcType, Has, FrameControl, IsDirect, IsDirectFrame, HeaderLengthUsed, TidOf, HeaderSize, Index;
    KindIs(r.frame);
    IndexIs(r.frame);
    FirstStation(net.stations, r.frame[10..16], 0, a);
    FirstStation(net.stations, r.frame[4..10], 0, b);
    NoLink(net.links, a, b, 0);
  }

  /** The number used is the next one of its counter, from zero, modulo 2^48; no other counter changes. */
  lemma UsesNextNumber(cs: Counters, c: Counter, d: Counter)
    ensures
      var u := Advanced(cs, Some(c));
      && Value(Current(u, c)) == (Value(Current(cs, c)) + 1) % 0x1_0000_0000_0000
      && (d != c ==> Current(u, d) == Current(cs, d))
      && Current(map[], d) == [0, 0, 0, 0, 0, 0]
  {
    hide Value, Incremented;
    IncrementedValue(Current(cs, c));
    ValueBound(Current(cs, c));
    CycleIsPow256();
  }
}
