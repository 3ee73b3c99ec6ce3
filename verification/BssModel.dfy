/**
 The BSS table as values: entries in memory by address, the two lists and the per-scan array
 as sequences of addresses. Each function is one operation of the table.
 */
module BssModel {
  import opened Bytes
  import opened BssTime

  type Octets = seq<bv8>
  type Addr = seq<bv8>
  type Ptr = nat

  const WRAP: nat := 0x1_0000_0000

  const ZERO_ADDR: Addr := [0, 0, 0, 0, 0, 0]

  /** Measured part of a scan result, copied as a whole. Bit 5 of the flags says "associated". */
  datatype Radio = Radio(
    flags: bv32, freq: int, beaconInt: nat, caps: nat, qual: int, noise: int, level: int, tsf: nat,
    throughput: nat, snr: int)

  predicate Associated(r: Radio) {
    r.flags & 0x20 != 0
  }

  datatype Ies = Ies(ie: Octets, beaconIe: Octets, hasP2p: bool)

  function Size(i: Ies): nat {
    |i.ie| + |i.beaconIe|
  }

  datatype Entry = Entry(
    id: nat, missCount: nat, updateIdx: nat, bssid: Addr, ssid: Octets,
    radio: Radio, lastUpdate: Time, ies: Ies)

  /** A scan result, with the SSID and mesh id elements found in it. */
  datatype ScanRes = ScanRes(bssid: Addr, radio: Radio, age: nat, ssid: Option<Octets>, mesh: Option<Octets>, ies: Ies)

  datatype Key = Key(bssid: Addr, ssid: Octets)

  function KeyOf(e: Entry): Key {
    Key(e.bssid, e.ssid)
  }

  /** What the configuration and the interface say while an operation runs. */
  datatype Config = Config(
    networks: seq<Octets>, wps: Entry -> bool, accepts: Addr -> bool, expiration: nat,
    ignoreOld: bool, trigger: Time, p2pInterface: bool)

  datatype ScanInfo = ScanInfo(aborted: bool, freqs: seq<int>, ssids: seq<Octets>)

  /** Where the allocator puts a grown entry. */
  datatype Realloc = Failed | InPlace | Moved(to: Ptr)

  datatype Table = Table(
    mem: map<Ptr, Entry>, bss: seq<Ptr>, byId: seq<Ptr>, lastScan: seq<Ptr>, scanSize: nat,
    num: int, nextId: nat, updateIdx: nat, maxCount: int,
    current: Option<Ptr>, connect: Option<Ptr>, ownBssid: Addr, pendingBssid: Addr)

  // ---- Sequences of addresses ----

  function IndexFrom(s: seq<Ptr>, p: Ptr, from: nat): (k: nat)
    requires from <= |s|
    ensures from <= k <= |s| && (k < |s| ==> s[k] == p)
    ensures forall x | from <= x < k :: s[x] != p
    decreases |s| - from
  {
    if from == |s| || s[from] == p then from else IndexFrom(s, p, from + 1)
  }

  function IndexOf(s: seq<Ptr>, p: Ptr): (k: nat)
    ensures k <= |s| && (k < |s| ==> s[k] == p)
    ensures forall x | 0 <= x < k :: s[x] != p
  {
    IndexFrom(s, p, 0)
  }

  function Without(s: seq<Ptr>, p: Ptr): seq<Ptr> {
    var k := IndexOf(s, p);
    if k < |s| then s[..k] + s[k + 1..] else s
  }

  function Replaced(s: seq<Ptr>, p: Ptr, q: Ptr): (r: seq<Ptr>)
    ensures |r| == |s|
  {
    var k := IndexOf(s, p);
    if k < |s| then s[k := q] else s
  }

  function Redirected(o: Option<Ptr>, p: Ptr, q: Ptr): Option<Ptr> {
    if o == Some(p) then Some(q) else o
  }

  // ---- Predicates on entries ----

  predicate Known(cfg: Config, e: Entry) {
    exists n | n in cfg.networks :: n != [] && n == e.ssid
  }

  predicate Evictable(cfg: Config, e: Entry) {
    !Known(cfg, e) && !cfg.wps(e)
  }

  /** In use: the current BSS, or the one being connected to, if it has the current SSID. */
  predicate InUse(t: Table, p: Ptr)
    requires p in t.mem
  {
    var e := t.mem[p];
    if t.current == Some(p) then true
    else if t.current.Some? && t.current.value in t.mem && t.mem[t.current.value].ssid != e.ssid then false
    else e.bssid != ZERO_ADDR && (e.bssid == t.ownBssid || e.bssid == t.pendingBssid)
  }

  /** Covered by the frequencies and SSIDs of the scan; an empty list covers everything. */
  predicate Included(e: Entry, info: Option<ScanInfo>) {
    info.None? ||
    (var i := info.value;
     && (i.freqs == [] || e.radio.freq in i.freqs)
     && (i.ssids == [] || exists s | s in i.ssids :: s == [] || s == e.ssid))
  }

  // ---- Removal ----

  function Removed(t: Table, p: Ptr): Table {
    t.(lastScan := Without(t.lastScan, p),
       connect := if t.connect == Some(p) then None else t.connect,
       bss := Without(t.bss, p),
       byId := Without(t.byId, p),
       num := t.num - 1,
       mem := t.mem - {p})
  }

  // ---- Lookup ----

  /** First entry of the list with that key. */
  function Search(t: Table, s: seq<Ptr>, k: Key): Option<Ptr> {
    if |s| == 0 then None
    else if s[0] in t.mem && KeyOf(t.mem[s[0]]) == k then Some(s[0])
    else Search(t, s[1..], k)
  }

  function Get(cfg: Config, t: Table, k: Key): Option<Ptr> {
    if !cfg.accepts(k.bssid) then None else Search(t, t.bss, k)
  }

  // ---- Adding, with eviction ----

  function FirstEvictable(cfg: Config, t: Table, s: seq<Ptr>): Option<Ptr> {
    if |s| == 0 then None
    else if s[0] in t.mem && Evictable(cfg, t.mem[s[0]]) then Some(s[0])
    else FirstEvictable(cfg, t, s[1..])
  }

  function FirstIdle(t: Table, s: seq<Ptr>): Option<Ptr> {
    if |s| == 0 then None
    else if s[0] in t.mem && !InUse(t, s[0]) then Some(s[0])
    else FirstIdle(t, s[1..])
  }

  function Victim(cfg: Config, t: Table): Option<Ptr> {
    var v := FirstEvictable(cfg, t, t.bss);
    if v.Some? then v else FirstIdle(t, t.bss)
  }

  /** Room for one more entry: evict one, or raise the limit when there is nothing to evict. */
  function MadeRoom(cfg: Config, t: Table): Table {
    if t.num + 1 <= t.maxCount then t
    else
      var v := Victim(cfg, t);
      if v.Some? then Removed(t, v.value) else t.(maxCount := t.num + 1)
  }

  function NewEntry(t: Table, ssid: Octets, res: ScanRes, fetch: Time): Entry {
    Entry(t.nextId, 0, t.updateIdx, res.bssid, ssid, res.radio, UpdateTime(fetch, res.age), res.ies)
  }

  function Linked(t: Table, p: Ptr, e: Entry): Table {
    t.(mem := t.mem[p := e], bss := t.bss + [p], byId := t.byId + [p], num := t.num + 1)
  }

  function Added(cfg: Config, t: Table, ssid: Octets, res: ScanRes, fetch: Time, alloc: Ptr): Table {
    Linked(MadeRoom(cfg, t.(nextId := (t.nextId + 1) % WRAP)), alloc, NewEntry(t, ssid, res, fetch))
  }

  // ---- Updating ----

  /** A second result for the BSS in the same round is dropped unless it looks more current. */
  predicate Ignored(t: Table, e: Entry, res: ScanRes, fetch: Time) {
    && e.updateIdx == t.updateIdx
    && (Associated(e.radio) || (!Associated(res.radio) && !Before(e.lastUpdate, UpdateTime(fetch, res.age))))
  }

  function Refreshed(t: Table, e: Entry, res: ScanRes, fetch: Time): Entry {
    e.(missCount := 0, updateIdx := t.updateIdx, radio := res.radio, bssid := res.bssid,
       lastUpdate := UpdateTime(fetch, res.age))
  }

  /** The elements are replaced unless that would lose P2P information. */
  predicate KeepsIes(e: Entry, res: ScanRes) {
    e.ies.hasP2p && !res.ies.hasP2p
  }

  /** Address of the entry afterwards: it moves only when it grows and the allocator says so. */
  function NewHome(e: Entry, p: Ptr, res: ScanRes, realloc: Realloc): Ptr {
    if !KeepsIes(e, res) && Size(e.ies) < Size(res.ies) && realloc.Moved? then realloc.to else p
  }

  function NewIes(e: Entry, res: ScanRes, realloc: Realloc): Ies {
    if KeepsIes(e, res) || (Size(e.ies) < Size(res.ies) && realloc.Failed?) then e.ies else res.ies
  }

  function Updated(t: Table, p: Ptr, res: ScanRes, fetch: Time, realloc: Realloc): Table
    requires p in t.mem
  {
    var e := t.mem[p];
    if Ignored(t, e, res, fetch) then t
    else
      var q := NewHome(e, p, res, realloc);
      var f := Refreshed(t, e, res, fetch).(ies := NewIes(e, res, realloc));
      t.(mem := (t.mem - {p})[q := f],
         bss := Without(t.bss, p) + [q],
         byId := Replaced(t.byId, p, q),
         lastScan := Replaced(t.lastScan, p, q),
         current := Redirected(t.current, p, q),
         connect := Redirected(t.connect, p, q))
  }

  function HomeAfter(t: Table, p: Ptr, res: ScanRes, fetch: Time, realloc: Realloc): Ptr
    requires p in t.mem
  {
    if Ignored(t, t.mem[p], res, fetch) then p else NewHome(t.mem[p], p, res, realloc)
  }

  // ---- A round of scan results ----

  function Started(t: Table): Table {
    t.(updateIdx := (t.updateIdx + 1) % WRAP, lastScan := [])
  }

  const WILDCARD: Octets := [0x44, 0x49, 0x52, 0x45, 0x43, 0x54, 0x2d]  // "DIRECT-"

  /** SSID under which a result is stored, or None when it is skipped. */
  function StoredSsid(cfg: Config, res: ScanRes, fetch: Time): Option<Octets> {
    if cfg.ignoreOld && Before(UpdateTime(fetch, res.age), cfg.trigger) then None
    else if res.ssid.None? || |res.ssid.value| > 32 then None
    else if !res.ies.hasP2p && cfg.p2pInterface then None
    else if res.ies.hasP2p && res.ssid.value == WILDCARD then None
    else if res.mesh.Some? && |res.mesh.value| <= 32 then res.mesh
    else res.ssid
  }

  /** The array grows from nothing to 32 places, and doubles after that. */
  function Grown(used: nat, size: nat): nat {
    if used < size then size else if size == 0 then 32 else size * 2
  }

  function Listed(t: Table, p: Ptr): Table {
    t.(lastScan := t.lastScan + [p], scanSize := Grown(|t.lastScan|, t.scanSize))
  }

  function AfterScanRes(cfg: Config, t: Table, res: ScanRes, fetch: Time, alloc: Ptr, realloc: Realloc): Table {
    var ssid := StoredSsid(cfg, res, fetch);
    if ssid.None? then t
    else
      var p := Get(cfg, t, Key(res.bssid, ssid.value));
      if p.None? then Listed(Added(cfg, t, ssid.value, res, fetch, alloc), alloc)
      else if p.value !in t.mem then t
      else
        var u := Updated(t, p.value, res, fetch, realloc);
        var q := HomeAfter(t, p.value, res, fetch, realloc);
        if q in u.lastScan then u else Listed(u, q)
  }

  // ---- Expiry and flushing ----

  function ExpiredOne(cfg: Config, info: Option<ScanInfo>, t: Table, p: Ptr): Table {
    if p !in t.mem || InUse(t, p) || !Included(t.mem[p], info) then t
    else
      var e := if t.mem[p].updateIdx < t.updateIdx then t.mem[p].(missCount := t.mem[p].missCount + 1) else t.mem[p];
      var u := t.(mem := t.mem[p := e]);
      if e.missCount >= cfg.expiration then Removed(u, p) else u
  }

  function Expired(cfg: Config, info: Option<ScanInfo>, t: Table, todo: seq<Ptr>): Table
    decreases |todo|
  {
    if |todo| == 0 then t else Expired(cfg, info, ExpiredOne(cfg, info, t, todo[0]), todo[1..])
  }

  function Ended(cfg: Config, t: Table, info: Option<ScanInfo>, newScan: bool): Table {
    if (info.Some? && info.value.aborted) || !newScan then t else Expired(cfg, info, t, t.bss)
  }

  /** Stops at the first entry that is neither in use nor older than the limit. */
  function FlushedOld(t: Table, limit: Time, todo: seq<Ptr>): Table
    decreases |todo|
  {
    if |todo| == 0 then t
    else if todo[0] !in t.mem || InUse(t, todo[0]) then FlushedOld(t, limit, todo[1..])
    else if Before(t.mem[todo[0]].lastUpdate, limit) then FlushedOld(Removed(t, todo[0]), limit, todo[1..])
    else t
  }

  function FlushedByAge(t: Table, now: Time, age: int): Table {
    FlushedOld(t, now.(sec := now.sec - age), t.bss)
  }

  function Flushed(t: Table, todo: seq<Ptr>): Table
    decreases |todo|
  {
    if |todo| == 0 then t
    else if todo[0] !in t.mem || InUse(t, todo[0]) then Flushed(t, todo[1..])
    else Flushed(Removed(t, todo[0]), todo[1..])
  }

  // ---- Operations ----

  datatype Op =
    | Start
    | Result(cfg: Config, res: ScanRes, fetch: Time, alloc: Ptr, realloc: Realloc)
    | End(cfg: Config, info: Option<ScanInfo>, newScan: bool)
    | FlushByAge(now: Time, age: int)
    | FlushAll
    | Remove(p: Ptr)
    | Connect(current: Option<Ptr>, connect: Option<Ptr>, own: Addr, pending: Addr)

  /** The allocator hands out unused addresses, and callers name live entries. */
  predicate OpOk(t: Table, op: Op) {
    match op
    case Result(_, _, _, alloc, realloc) => alloc !in t.mem && (realloc.Moved? ==> realloc.to !in t.mem)
    case Remove(p) => p in t.mem
    case Connect(current, connect, _, _) =>
      (current.Some? ==> current.value in t.mem) && (connect.Some? ==> connect.value in t.mem)
    case _ => true
  }

  function Step(t: Table, op: Op): Table {
    match op
    case Start => Started(t)
    case Result(cfg, res, fetch, alloc, realloc) => AfterScanRes(cfg, t, res, fetch, alloc, realloc)
    case End(cfg, info, newScan) => Ended(cfg, t, info, newScan)
    case FlushByAge(now, age) => FlushedByAge(t, now, age)
    case FlushAll => Flushed(t, t.bss)
    case Remove(p) => Removed(t, p)
    case Connect(c, w, own, pending) => t.(current := c, connect := w, ownBssid := own, pendingBssid := pending)
  }

  function Empty(maxCount: int): Table {
    Table(map[], [], [], [], 0, 0, 0, 0, maxCount, None, None, ZERO_ADDR, ZERO_ADDR)
  }
}
