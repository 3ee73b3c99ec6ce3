/**
 Injection of protected frames: which packet counter and which key `wlantest_inject_prot`
 and `wlantest_inject_prot_bc` pick for a frame, and why no CCMP nonce is ever used twice
 under one key.
 */
module Inject {
  import opened Bytes
  import opened Ieee80211
  import opened PacketNumber
  import Aead
  import Bip
  import TkipMixing

  type Octets = seq<bv8>
  type Addr = s: seq<bv8> | |s| == 6 witness seq(6, i => 0)
  type Pn = s: seq<bv8> | |s| == 6 witness seq(6, i => 0)

  datatype Station = Station(addr: Addr, ptkSet: bool, tkip: bool)

  /** A TDLS link between two stations, given by their positions in the station list. */
  datatype Link = Link(init: nat, resp: nat)

  datatype Network = Network(
    bssid: Addr, stations: seq<Station>, links: seq<Link>,
    gtkIdx: nat, gtkSet: bool, groupTkip: bool, igtkIdx: nat, igtkSet: bool)
  {
    ghost predicate Valid() {
      forall l | l in links :: l.init < |stations| && l.resp < |stations|
    }
  }

  /**
   The packet counters: per station, direction and TID; per link, side and TID; per group key and
   integrity group key.
   */
  datatype Counter =
    | ToDs(sta: nat, tid: nat)
    | FromDs(sta: nat, tid: nat)
    | ByInitiator(link: nat, tid: nat)
    | ByResponder(link: nat, tid: nat)
    | Group(idx: nat)
    | Integrity(idx: nat)

  datatype Key = Ptk(sta: nat) | Tpk(link: nat) | Gtk(idx: nat) | Igtk(idx: nat) | Dummy

  datatype Request = Request(sta: Option<nat>, frame: Frame, incorrectKey: bool)

  /** Outcome of choosing key and counter: nothing sent, BIP instead, or encryption. */
  datatype Route =
    | Refused
    | ViaBip(counter: Counter, key: Key)
    | Via(counter: Counter, key: Key, hdrlen: nat, tkip: bool)

  // ---- Lookups ----

  function FindStation(stations: seq<Station>, addr: Addr, from: nat): Option<nat>
    requires from <= |stations|
    decreases |stations| - from
  {
    if from == |stations| then None
    else if stations[from].addr == addr then Some(from)
    else FindStation(stations, addr, from + 1)
  }

  function FindLink(links: seq<Link>, a: nat, b: nat, from: nat): (r: Option<nat>)
    requires from <= |links|
    ensures r.Some? ==> r.value < |links|
    decreases |links| - from
  {
    if from == |links| then None
    else if links[from] == Link(a, b) || links[from] == Link(b, a) then Some(from)
    else FindLink(links, a, b, from + 1)
  }

  predicate IsDirect(fc: bv16) {
    FcType(fc) == TYPE_DATA && !Has(fc, TO_DS) && !Has(fc, FROM_DS)
  }

  predicate Acceptable(net: Network, r: Request) {
    && HoldsHeader(r.frame)
    && (r.sta.Some? ==> r.sta.value < |net.stations|)
  }

  // ---- Choice of counter and key ----

  /** Counter index: 16 for management, the QoS priority, and 0 for anything else. */
  function TidOf(f: Frame): nat
    requires HoldsHeader(f)
  {
    var fc := FrameControl(f);
    if FcType(fc) == TYPE_MGMT then 16
    else if IsQosData(fc) then Aead.Tid(f) as int
    else 0
  }

  function HeaderLengthUsed(f: Frame): nat
    requires HoldsHeader(f)
  {
    if FcType(FrameControl(f)) == TYPE_DATA then HeaderLength(FrameControl(f)) else 24
  }

  function Keyed(r: Request, key: Key): Key {
    if r.incorrectKey then Dummy else key
  }

  function GroupRoute(net: Network, r: Request): Route {
    if FcType(FrameControl(r.frame)) == TYPE_MGMT then
      if net.igtkSet then ViaBip(Integrity(net.igtkIdx), Keyed(r, Igtk(net.igtkIdx))) else Refused
    else if !net.gtkSet then Refused
    else
      var hdrlen := if FourAddresses(FrameControl(r.frame)) then 30 else 24;
      Via(Group(net.gtkIdx), Keyed(r, Gtk(net.gtkIdx)), hdrlen, net.groupTkip)
  }

  function StationRoute(net: Network, r: Request, sta: nat): Route
    requires Acceptable(net, r) && sta < |net.stations|
  {
    if !net.stations[sta].ptkSet then Refused
    else
      var counter := if Addr2(r.frame) == net.bssid then FromDs(sta, TidOf(r.frame)) else ToDs(sta, TidOf(r.frame));
      Via(counter, Keyed(r, Ptk(sta)), HeaderLengthUsed(r.frame), net.stations[sta].tkip)
  }

  function LinkRoute(net: Network, r: Request, link: nat): Route
    requires Acceptable(net, r) && link < |net.links| && net.links[link].init < |net.stations|
  {
    var counter := if Addr2(r.frame) == net.stations[net.links[link].init].addr
                   then ByInitiator(link, TidOf(r.frame)) else ByResponder(link, TidOf(r.frame));
    Via(counter, Keyed(r, Tpk(link)), HeaderLengthUsed(r.frame), false)
  }

  lemma {:induction false} FoundInRange(stations: seq<Station>, addr: Addr, from: nat)
    requires from <= |stations|
    ensures FindStation(stations, addr, from).Some? ==> FindStation(stations, addr, from).value < |stations|
    decreases |stations| - from
  {
    if from < |stations| && stations[from].addr != addr {
      FoundInRange(stations, addr, from + 1);
    }
  }

  function RouteOf(net: Network, r: Request): Route
    requires net.Valid() && Acceptable(net, r)
  {
    if IsDirect(FrameControl(r.frame)) then
      if Addr3(r.frame) != net.bssid then Refused
      else
        var a, b := FindStation(net.stations, Addr2(r.frame), 0), FindStation(net.stations, Addr1(r.frame), 0);
        if a.None? || b.None? then Refused
        else
          FoundInRange(net.stations, Addr2(r.frame), 0);
          var link := FindLink(net.links, a.value, b.value, 0);
          if link.Some? then LinkRoute(net, r, link.value) else StationRoute(net, r, a.value)
    else if r.sta.None? then GroupRoute(net, r)
    else StationRoute(net, r, r.sta.value)
  }

  // ---- The injector ----

  type Counters = map<Counter, Pn>

  function Current(cs: Counters, c: Counter): Pn {
    if c in cs then cs[c] else Bip.Zeros(6)
  }

  /** Counter that a request uses up a number of, if any. */
  function Touched(net: Network, r: Request): Option<Counter>
    requires net.Valid() && Acceptable(net, r)
  {
    var route := RouteOf(net, r);
    if route.Refused? then None else Some(route.counter)
  }

  function Advanced(cs: Counters, touched: Option<Counter>): Counters {
    if touched.None? then cs else cs[touched.value := Incremented(Current(cs, touched.value))]
  }

  class Injector {
    const net: Network
    var counters: Counters

    constructor (net: Network)
      ensures this.net == net && counters == map[]
    {
      this.net := net;
      counters := map[];
    }

    method StationNamed(addr: Addr) returns (i: Option<nat>)
      ensures i == FindStation(net.stations, addr, 0)
    {
      for k := 0 to |net.stations|
        invariant FindStation(net.stations, addr, 0) == FindStation(net.stations, addr, k)
      {
        if net.stations[k].addr == addr {
          return Some(k);
        }
      }
      i := None;
    }

    method LinkBetween(a: nat, b: nat) returns (i: Option<nat>)
      ensures i == FindLink(net.links, a, b, 0)
    {
      for k := 0 to |net.links|
        invariant FindLink(net.links, a, b, 0) == FindLink(net.links, a, b, k)
      {
        var l := net.links[k];
        if (l.init == a && l.resp == b) || (l.init == b && l.resp == a) {
          return Some(k);
        }
      }
      i := None;
    }

    method Increment(c: Counter) returns (pn: Pn)
      modifies this`counters
      ensures counters == Advanced(old(counters), Some(c)) && pn == Current(counters, c)
    {
      var n := new bv8[6];
      var was := Current(counters, c);
      forall i | 0 <= i < 6 {
        n[i] := was[i];
      }
      assert n[..] == was;
      IncByteArray(n);
      pn := n[..];
      counters := counters[c := pn];
    }

    method InjectBip(r: Request) returns (route: Route, pn: Option<Pn>)
      requires Acceptable(net, r) && FcType(FrameControl(r.frame)) == TYPE_MGMT
      modifies this`counters
      ensures route == GroupRoute(net, r) && Sent(old(counters), route, pn)
    {
      route, pn := Refused, None;
      if net.igtkSet {
        var ipn := Increment(Integrity(net.igtkIdx));
        var key := if r.incorrectKey then Dummy else Igtk(net.igtkIdx);
        route, pn := ViaBip(Integrity(net.igtkIdx), key), Some(ipn);
      }
    }

    method InjectProtBc(r: Request) returns (route: Route, pn: Option<Pn>)
      requires Acceptable(net, r) && FcType(FrameControl(r.frame)) != TYPE_MGMT
      modifies this`counters
      ensures route == GroupRoute(net, r) && Sent(old(counters), route, pn)
    {
      var hdrlen := 24;
      var fc := FrameControl(r.frame);
      route, pn := Refused, None;
      if !net.gtkSet {
        return;
      }
      if Has(fc, TO_DS) && Has(fc, FROM_DS) {
        hdrlen := hdrlen + 6;
      }
      var n := Increment(Group(net.gtkIdx));
      var key := if r.incorrectKey then Dummy else Gtk(net.gtkIdx);
      route, pn := Via(Group(net.gtkIdx), key, hdrlen, net.groupTkip), Some(n);
    }

    /** What was incremented is the counter of the route, and its new value is the number used. */
    predicate Sent(before: Counters, route: Route, pn: Option<Pn>)
      reads this
    {
      && counters == Advanced(before, if route.Refused? then None else Some(route.counter))
      && (pn.Some? <==> !route.Refused?)
      && (pn.Some? ==> pn.value == Current(counters, route.counter))
    }

    /** Chooses route and packet number; the increment happens before the frame is built. */
    method Inject(r: Request) returns (route: Route, pn: Option<Pn>)
      requires net.Valid() && Acceptable(net, r)
      modifies this`counters
      ensures route == RouteOf(net, r) && Sent(old(counters), route, pn)
    {
      var f := r.frame;
      var fc, sta, tdls := FrameControl(f), r.sta, None;
      route, pn := Refused, None;
      if FcType(fc) == TYPE_DATA && !Has(fc, TO_DS) && !Has(fc, FROM_DS) {
        if Addr3(f) != net.bssid {
          return;
        }
        sta := StationNamed(Addr2(f));
        var sta2 := StationNamed(Addr1(f));
        if sta.None? || sta2.None? {
          return;
        }
        FoundInRange(net.stations, Addr2(f), 0);
        tdls := LinkBetween(sta.value, sta2.value);
      }
      if tdls.None? && sta.None? {
        if FcType(fc) == TYPE_MGMT {
          route, pn := InjectBip(r);
        } else {
          route, pn := InjectProtBc(r);
        }
        return;
      }
      if tdls.None? && !net.stations[sta.value].ptkSet {
        return;
      }
      var tid, hdrlen := TidAndLength(f);
      var counter, key, tkip := ToDs(0, 0), Dummy, false;
      if tdls.Some? {
        var l := net.links[tdls.value];
        counter := if Addr2(f) == net.stations[l.init].addr then ByInitiator(tdls.value, tid)
                   else ByResponder(tdls.value, tid);
        key := Tpk(tdls.value);
      } else {
        counter := if Addr2(f) == net.bssid then FromDs(sta.value, tid) else ToDs(sta.value, tid);
        key, tkip := Ptk(sta.value), net.stations[sta.value].tkip;
      }
      if r.incorrectKey {
        key := Dummy;
      }
      var n := Increment(counter);
      route, pn := Via(counter, key, hdrlen, tkip), Some(n);
    }
  }

  method TidAndLength(f: Frame) returns (tid: nat, hdrlen: nat)
    requires HoldsHeader(f)
    ensures tid == TidOf(f) && hdrlen == HeaderLengthUsed(f)
  {
    tid, hdrlen := 0, 24;
    var fc := FrameControl(f);
    if FcType(fc) == TYPE_MGMT {
      tid := 16;
    } else if FcType(fc) == TYPE_DATA {
      if Has(fc, TO_DS) && Has(fc, FROM_DS) {
        hdrlen := hdrlen + 6;
      }
      if FcSubtype(fc) & 0x08 != 0 {
        tid := Low4(f[hdrlen]) as int;
        hdrlen := hdrlen + 2;
      }
    }
  }

  // ---- Runs ----

  ghost predicate AllAcceptable(net: Network, reqs: seq<Request>) {
    net.Valid() && forall r | r in reqs :: Acceptable(net, r)
  }

  /** The counters a run touches, request by request. */
  ghost function Trace(net: Network, reqs: seq<Request>): (t: seq<Option<Counter>>)
    requires AllAcceptable(net, reqs)
    ensures |t| == |reqs|
  {
    seq(|reqs|, n requires 0 <= n < |reqs| => assert reqs[n] in reqs; Touched(net, reqs[n]))
  }

  /** Counters after the first n requests. */
  ghost function At(cs: Counters, trace: seq<Option<Counter>>, n: nat): Counters
    requires n <= |trace|
  {
    if n == 0 then cs else Advanced(At(cs, trace, n - 1), trace[n - 1])
  }

  /** How many of the first n requests used counter c. */
  ghost function Uses(trace: seq<Option<Counter>>, c: Counter, n: nat): nat
    requires n <= |trace|
  {
    if n == 0 then 0 else Uses(trace, c, n - 1) + (if trace[n - 1] == Some(c) then 1 else 0)
  }

  ghost predicate Encrypts(net: Network, r: Request, tkip: bool)
    requires net.Valid() && Acceptable(net, r)
  {
    var route := RouteOf(net, r);
    route.Via? && route.key != Dummy && route.tkip == tkip
  }

  ghost function PnAt(net: Network, cs: Counters, reqs: seq<Request>, n: nat): Pn
    requires AllAcceptable(net, reqs) && n < |reqs| && !RouteOf(net, reqs[n]).Refused?
  {
    Current(At(cs, Trace(net, reqs), n + 1), RouteOf(net, reqs[n]).counter)
  }

  /** Nonce that `ccmp_encrypt` builds for request n, whatever key id goes into the IV header. */
  ghost function NonceAt(net: Network, cs: Counters, reqs: seq<Request>, n: nat, keyId: bv8): Octets
    requires AllAcceptable(net, reqs) && n < |reqs| && RouteOf(net, reqs[n]).Via?
  {
    var route := RouteOf(net, reqs[n]);
    RouteHeaderFits(net, reqs[n]);
    var head := Aead.Head(Aead.Ccmp, reqs[n].frame, route.hdrlen, PnAt(net, cs, reqs, n), keyId);
    Aead.Nonce(Aead.Ccmp, head, head[route.hdrlen..])
  }

  lemma RouteHeaderFits(net: Network, r: Request)
    requires net.Valid() && Acceptable(net, r) && RouteOf(net, r).Via?
    ensures 24 <= RouteOf(net, r).hdrlen <= |r.frame|
  {
  }

  lemma {:induction false} CounterCountsUses(cs: Counters, trace: seq<Option<Counter>>, c: Counter, n: nat)
    requires n <= |trace|
    ensures Current(At(cs, trace, n), c) == IncrementedTimes(Current(cs, c), Uses(trace, c, n))
  {
    hide Incremented;
    if n > 0 {
      CounterCountsUses(cs, trace, c, n - 1);
    }
  }

  lemma {:induction false} UsesMonotone(trace: seq<Option<Counter>>, c: Counter, m: nat, n: nat)
    requires m <= n <= |trace|
    ensures Uses(trace, c, m) <= Uses(trace, c, n)
  {
    if m < n {
      UsesMonotone(trace, c, m, n - 1);
    }
  }

  /** One counter never shows the same packet number twice within 2^48 uses. */
  lemma FreshPerCounter(cs: Counters, trace: seq<Option<Counter>>, c: Counter, i: nat, j: nat)
    requires i < j < |trace| && trace[i] == trace[j] == Some(c)
    requires Uses(trace, c, |trace|) <= CYCLE
    ensures Current(At(cs, trace, i + 1), c) != Current(At(cs, trace, j + 1), c)
  {
    hide At, Current, IncrementedTimes;
    CounterCountsUses(cs, trace, c, i + 1);
    CounterCountsUses(cs, trace, c, j + 1);
    UsesMonotone(trace, c, i + 1, j);
    UsesMonotone(trace, c, j + 1, |trace|);
    RepeatsOnlyAfterCycle(Current(cs, c), Uses(trace, c, i + 1), Uses(trace, c, j + 1));
  }

  // ---- The nonce says which counter was used ----

  lemma ProtectedBitChangesNoLayout(fc: bv16)
    ensures
      var p := Aead.SetBits(fc, PROTECTED);
      && FcType(p) == FcType(fc) && FcSubtype(p) == FcSubtype(fc)
      && Has(p, TO_DS) == Has(fc, TO_DS) && Has(p, FROM_DS) == Has(fc, FROM_DS)
  {
  }

  lemma HeadOctets(f: Frame, hdrlen: nat, pn: Pn, keyId: bv8)
    requires 24 <= hdrlen <= |f|
    ensures
      var head := Aead.Head(Aead.Ccmp, f, hdrlen, pn, keyId);
      && head[hdrlen..] == Aead.IvHeader(pn, keyId)
      && head[0] == f[0] && head[1] == Aead.WithProtected(f[1])
      && forall x | 2 <= x < hdrlen :: head[x] == f[x]
  {
  }

  /** What `ccmp_aad_nonce` reads is unchanged in the header about to be sent. */
  lemma HeadKeepsLayout(f: Frame, hdrlen: nat, pn: Pn, keyId: bv8)
    requires 24 <= hdrlen <= |f|
    ensures
      var fc, gc := FrameControl(f), FrameControl(Aead.Head(Aead.Ccmp, f, hdrlen, pn, keyId));
      FcType(gc) == FcType(fc) && IsQosData(gc) == IsQosData(fc) && QosOffset(gc) == QosOffset(fc)
  {
    HeadOctets(f, hdrlen, pn, keyId);
    Aead.ProtectedBitIsInOctet1(f[0], f[1]);
    ProtectedBitChangesNoLayout(FrameControl(f));
  }

  /** The nonce is the frame's own flags and transmitter, then the packet number. */
  lemma NonceOfHead(f: Frame, hdrlen: nat, pn: Pn, keyId: bv8)
    requires HoldsHeader(f) && 24 <= hdrlen <= |f|
    ensures
      var head := Aead.Head(Aead.Ccmp, f, hdrlen, pn, keyId);
      var nonce := Aead.Nonce(Aead.Ccmp, head, head[hdrlen..]);
      && |nonce| == 13 && nonce[1..7] == Addr2(f) && nonce[7..] == pn
      && (hdrlen >= HeaderLengthUsed(f) ==> nonce[0] == Aead.NonceFlags(f))
  {
    HeadOctets(f, hdrlen, pn, keyId);
    HeadKeepsLayout(f, hdrlen, pn, keyId);
    assert Addr2(Aead.Head(Aead.Ccmp, f, hdrlen, pn, keyId)) == Addr2(f);
    Aead.IvHeaderCarriesPn(pn, keyId);
  }

  /** Flags value 0x10 stands for counter index 16, every other value for itself. */
  lemma FlagsAreTid(f: Frame)
    requires HoldsHeader(f)
    ensures TidOf(f) == Aead.NonceFlags(f) as int
  {
  }

  /** Under one real key, equal transmitters and nonce flags mean the same counter. */
  lemma SameCounter(net: Network, r: Request, s: Request)
    requires net.Valid() && Acceptable(net, r) && Acceptable(net, s)
    requires Encrypts(net, r, false) && Encrypts(net, s, false)
    requires RouteOf(net, r).key == RouteOf(net, s).key
    requires Addr2(r.frame) == Addr2(s.frame)
    requires RouteOf(net, r).key.Gtk? || TidOf(r.frame) == TidOf(s.frame)
    ensures RouteOf(net, r).counter == RouteOf(net, s).counter
  {
  }

  lemma StationKeyUsesWholeHeader(net: Network, r: Request)
    requires net.Valid() && Acceptable(net, r) && RouteOf(net, r).Via? && !RouteOf(net, r).key.Gtk?
    requires RouteOf(net, r).key != Dummy
    ensures RouteOf(net, r).hdrlen == HeaderLengthUsed(r.frame)
  {
  }

  /**
   In any run of injections under fixed keys with at most 2^48 frames per counter, no two
   CCMP frames under the same real key are built with the same nonce.
   */
  lemma {:induction false} NoNonceReuse(net: Network, cs: Counters, reqs: seq<Request>, i: nat, j: nat,
                                        keyId: bv8, keyId': bv8)
    requires AllAcceptable(net, reqs) && i < j < |reqs|
    requires Encrypts(net, reqs[i], false) && Encrypts(net, reqs[j], false)
    requires RouteOf(net, reqs[i]).key == RouteOf(net, reqs[j]).key
    requires Uses(Trace(net, reqs), RouteOf(net, reqs[i]).counter, |reqs|) <= CYCLE
    ensures NonceAt(net, cs, reqs, i, keyId) != NonceAt(net, cs, reqs, j, keyId')
  {
    var r, s := reqs[i], reqs[j];
    RouteHeaderFits(net, r);
    RouteHeaderFits(net, s);
    NonceOfHead(r.frame, RouteOf(net, r).hdrlen, PnAt(net, cs, reqs, i), keyId);
    NonceOfHead(s.frame, RouteOf(net, s).hdrlen, PnAt(net, cs, reqs, j), keyId');
    if NonceAt(net, cs, reqs, i, keyId) == NonceAt(net, cs, reqs, j, keyId') {
      if !RouteOf(net, r).key.Gtk? {
        StationKeyUsesWholeHeader(net, r);
        StationKeyUsesWholeHeader(net, s);
        FlagsAreTid(r.frame);
        FlagsAreTid(s.frame);
      }
      SameCounter(net, r, s);
      FreshPerCounter(cs, Trace(net, reqs), RouteOf(net, r).counter, i, j);
    }
  }

  /** Nor do two BIP frames under the same real key carry the same packet number. */
  lemma {:induction false} NoIpnReuse(net: Network, cs: Counters, reqs: seq<Request>, i: nat, j: nat)
    requires AllAcceptable(net, reqs) && i < j < |reqs|
    requires RouteOf(net, reqs[i]).ViaBip? && RouteOf(net, reqs[j]).ViaBip?
    requires Uses(Trace(net, reqs), RouteOf(net, reqs[i]).counter, |reqs|) <= CYCLE
    ensures PnAt(net, cs, reqs, i) != PnAt(net, cs, reqs, j)
  {
    FreshPerCounter(cs, Trace(net, reqs), RouteOf(net, reqs[i]).counter, i, j);
  }

  // ---- TKIP: the packet key does not say which counter was used ----

  /** RC4 key that `tkip_encrypt` mixes for a transmitter and packet number. */
  function Seed(sub: TkipMixing.Substitution, tk: TkipMixing.Key16, ta: Addr, pn: Pn): seq<bv8> {
    TkipMixing.PacketKey(sub, tk, ta, Be32(pn, 0), Mk16(pn[4], pn[5]))
  }

  lemma SeedNamesTransmitterAndNumber(sub: TkipMixing.Substitution, tk: TkipMixing.Key16, ta: Addr, pn: Pn,
                                      ta': Addr, pn': Pn)
    ensures Seed(sub, tk, ta, pn) == Seed(sub, tk, ta', pn') <==> ta == ta' && pn == pn'
  {
    hide TkipMixing.PacketKey;
    if Seed(sub, tk, ta, pn) == Seed(sub, tk, ta', pn') {
      TkipMixing.PacketKeyInjective(sub, tk, ta, Be32(pn, 0), Mk16(pn[4], pn[5]),
                                    ta', Be32(pn', 0), Mk16(pn'[4], pn'[5]));
      Mk32Injective(pn[0], pn[1], pn[2], pn[3], pn'[0], pn'[1], pn'[2], pn'[3]);
      Mk16Parts(pn[4], pn[5], pn'[4], pn'[5]);
      assert pn == pn[..] && pn' == pn'[..];
    }
  }

  lemma Mk16Parts(a1: bv8, a0: bv8, b1: bv8, b0: bv8)
    requires Mk16(a1, a0) == Mk16(b1, b0)
    ensures a1 == b1 && a0 == b0
  {
    Word16Injective(a1, a0);
    Word16Injective(b1, b0);
  }

  ghost function SeedAt(
    sub: TkipMixing.Substitution, tk: TkipMixing.Key16, net: Network, cs: Counters, reqs: seq<Request>, n: nat)
    : seq<bv8>
    requires AllAcceptable(net, reqs) && n < |reqs| && RouteOf(net, reqs[n]).Via?
  {
    Seed(sub, tk, Addr2(reqs[n].frame), PnAt(net, cs, reqs, n))
  }

  /** Place in its 48-bit cycle of the number that request n uses. */
  ghost function Place(net: Network, cs: Counters, reqs: seq<Request>, n: nat): nat
    requires AllAcceptable(net, reqs) && n < |reqs| && RouteOf(net, reqs[n]).Via?
  {
    var c := RouteOf(net, reqs[n]).counter;
    (Value(Current(cs, c)) + Uses(Trace(net, reqs), c, n + 1)) % CYCLE
  }

  /**
   Two TKIP frames of a run under one key get the same RC4 key exactly when they have the same
   transmitter and their counters, which may be those of different TIDs, are at the same place.
   */
  lemma SeedRepeatsIff(sub: TkipMixing.Substitution, tk: TkipMixing.Key16, net: Network, cs: Counters,
                       reqs: seq<Request>, i: nat, j: nat)
    requires AllAcceptable(net, reqs) && i < j < |reqs| && RouteOf(net, reqs[i]).Via? && RouteOf(net, reqs[j]).Via?
    ensures SeedAt(sub, tk, net, cs, reqs, i) == SeedAt(sub, tk, net, cs, reqs, j) <==>
            Addr2(reqs[i].frame) == Addr2(reqs[j].frame) && Place(net, cs, reqs, i) == Place(net, cs, reqs, j)
  {
    hide RouteOf, Seed, Value, Trace, Uses, At;
    NumberIsPlace(net, cs, reqs, i);
    NumberIsPlace(net, cs, reqs, j);
    if Place(net, cs, reqs, i) == Place(net, cs, reqs, j) {
      ValueInjective(PnAt(net, cs, reqs, i), PnAt(net, cs, reqs, j));
    }
    SeedNamesTransmitterAndNumber(sub, tk, Addr2(reqs[i].frame), PnAt(net, cs, reqs, i),
                                  Addr2(reqs[j].frame), PnAt(net, cs, reqs, j));
  }

  /**
   From zeroed counters, the k-th TKIP frames that a transmitter sends on two TIDs get the same
   RC4 key, for every k.
   */
  lemma {:induction false} TidsShareSeeds(sub: TkipMixing.Substitution, tk: TkipMixing.Key16, net: Network,
                                          reqs: seq<Request>, i: nat, j: nat)
    requires AllAcceptable(net, reqs) && i < j < |reqs| && Encrypts(net, reqs[i], true) && Encrypts(net, reqs[j], true)
    requires Addr2(reqs[i].frame) == Addr2(reqs[j].frame) && TidOf(reqs[i].frame) != TidOf(reqs[j].frame)
    requires Uses(Trace(net, reqs), RouteOf(net, reqs[i]).counter, i + 1) ==
             Uses(Trace(net, reqs), RouteOf(net, reqs[j]).counter, j + 1)
    ensures SeedAt(sub, tk, net, map[], reqs, i) == SeedAt(sub, tk, net, map[], reqs, j)
  {
    hide RouteOf, SeedAt, Value, Trace, Uses, At;
    SeedRepeatsIff(sub, tk, net, map[], reqs, i, j);
  }

  const AP: Addr := [2, 0, 0, 0, 0, 1]
  const STATION: Addr := [2, 0, 0, 0, 0, 2]

  /** QoS data frame of the station to the AP. */
  function QosFrame(tid: bv8): Octets {
    [0x88, 0x01, 0, 0] + AP + STATION + AP + [0, 0, tid, 0]
  }

  /**
   A run of two such frames, on TID 0 and on TID 1, that repeats its RC4 key whatever the S-box
   and the temporal key are.
   */
  lemma TwoTidsRepeatSeed() returns (net: Network, reqs: seq<Request>)
    ensures AllAcceptable(net, reqs) && |reqs| == 2 && Encrypts(net, reqs[0], true) && Encrypts(net, reqs[1], true)
    ensures RouteOf(net, reqs[0]).key == RouteOf(net, reqs[1]).key
    ensures TidOf(reqs[0].frame) == 0 && TidOf(reqs[1].frame) == 1
    ensures forall sub, tk :: SeedAt(sub, tk, net, map[], reqs, 0) == SeedAt(sub, tk, net, map[], reqs, 1)
  {
    net := Network(AP, [Station(STATION, true, true)], [], 0, false, false, 0, false);
    reqs := [Request(Some(0), QosFrame(0), false), Request(Some(0), QosFrame(1), false)];
    QosFrameIs(0);
    QosFrameIs(1);
    var t := Trace(net, reqs);
    assert RouteOf(net, reqs[0]).counter == ToDs(0, 0) && RouteOf(net, reqs[1]).counter == ToDs(0, 1);
    assert t[0] == Some(ToDs(0, 0)) && t[1] == Some(ToDs(0, 1));
    UsesOfTwo(t, ToDs(0, 0));
    UsesOfTwo(t, ToDs(0, 1));
    forall sub, tk
      ensures SeedAt(sub, tk, net, map[], reqs, 0) == SeedAt(sub, tk, net, map[], reqs, 1)
    {
      TidsShareSeeds(sub, tk, net, reqs, 0, 1);
    }
  }

  lemma {:induction false} UsesOfTwo(t: seq<Option<Counter>>, c: Counter)
    requires |t| == 2
    ensures Uses(t, c, 1) == if t[0] == Some(c) then 1 else 0
    ensures Uses(t, c, 2) == Uses(t, c, 1) + if t[1] == Some(c) then 1 else 0
  {
    assert Uses(t, c, 0) == 0;
  }

  lemma QosFrameIs(tid: bv8)
    ensures
      var f := QosFrame(tid);
      var fc := FrameControl(f);
      && |f| == 26 && f[24] == tid && Addr2(f) == STATION && Addr3(f) == AP
      && FcType(fc) == TYPE_DATA && IsQosData(fc) && Has(fc, TO_DS) && !Has(fc, FROM_DS) && HoldsHeader(f)
  {
    assert FrameControl(QosFrame(tid)) == 0x0188;
  }

  lemma NumberIsPlace(net: Network, cs: Counters, reqs: seq<Request>, n: nat)
    requires AllAcceptable(net, reqs) && n < |reqs| && RouteOf(net, reqs[n]).Via?
    ensures Value(PnAt(net, cs, reqs, n)) == Place(net, cs, reqs, n)
  {
    hide RouteOf, Value, Trace, Uses, At;
    var c := RouteOf(net, reqs[n]).counter;
    CounterCountsUses(cs, Trace(net, reqs), c, n + 1);
    IncrementedTimesValue(Current(cs, c), Uses(Trace(net, reqs), c, n + 1));
  }
}
