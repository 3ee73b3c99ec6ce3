/**
 What the operations of the BSS table leave behind, field by field: which results are skipped and
 under which name the others are stored, the whole entry that a result writes, where it goes in
 the lists and the scan array, which entries are in use, and what a flush leaves.
 */
module BssEntries {
  import opened Bytes
  import opened BssTime
  import opened BssModel
  import opened BssInvariant
  import opened BssHistory
  import opened BssRuns

  // ---- Which results are stored, and under which name ----

  const DIRECT: Octets := [68, 73, 82, 69, 67, 84, 45]

  /** Older than the scan, without or with too long an SSID, or not what the interface is for. */
  predicate Skips(op: Op)
    requires op.Result?
  {
    || (op.cfg.ignoreOld && Before(UpdateTime(op.fetch, op.res.age), op.cfg.trigger))
    || op.res.ssid.None? || |op.res.ssid.value| > 32
    || (op.cfg.p2pInterface && !op.res.ies.hasP2p)
    || (op.res.ies.hasP2p && op.res.ssid.value == DIRECT)
  }

  /** A mesh id of at most 32 octets takes the place of the SSID. */
  function Name(op: Op): Octets
    requires op.Result? && !Skips(op)
  {
    match op.res.mesh
    case None => op.res.ssid.value
    case Some(m) => if |m| > 32 then op.res.ssid.value else m
  }

  lemma StoredUnderName(op: Op)
    requires op.Result?
    ensures StoredSsid(op.cfg, op.res, op.fetch) == if Skips(op) then None else Some(Name(op))
  {
    hide Before;
  }

  /** On normal times, "older" is a comparison of microseconds. */
  lemma OlderThanScan(op: Op)
    requires op.Result? && op.cfg.ignoreOld && Normal(op.fetch) && Normal(op.cfg.trigger)
    requires Micros(op.fetch) - 1000 * op.res.age < Micros(op.cfg.trigger)
    ensures Skips(op)
  {
    BeforeIsNumeric(UpdateTime(op.fetch, op.res.age), op.cfg.trigger);
  }

  lemma SkippedChangesNothing(t: Table, op: Op)
    requires op.Result? && Skips(op)
    ensures Step(t, op) == t
  {
    hide Skips, StoredSsid;
    StoredUnderName(op);
  }

  // ---- Which entry a result is for ----

  /** Entry i of the list has the BSSID of the result and the name it is stored under. */
  predicate IsFor(t: Table, op: Op, i: nat)
    requires op.Result? && !Skips(op) && i < |t.bss|
  {
    t.bss[i] in t.mem && t.mem[t.bss[i]].bssid == op.res.bssid && t.mem[t.bss[i]].ssid == Name(op)
  }

  lemma {:induction false} SearchFirst(t: Table, s: seq<Ptr>, k: Key, i: nat)
    requires i < |s| && s[i] in t.mem && KeyOf(t.mem[s[i]]) == k
    requires forall j | 0 <= j < i :: !(s[j] in t.mem && KeyOf(t.mem[s[j]]) == k)
    ensures Search(t, s, k) == Some(s[i])
  {
    if i > 0 {
      SearchFirst(t, s[1..], k, i - 1);
    }
  }

  /** The first of the list that the filter allows is found. */
  lemma FoundFirst(t: Table, op: Op, i: nat)
    requires op.Result? && !Skips(op) && op.cfg.accepts(op.res.bssid)
    requires i < |t.bss| && IsFor(t, op, i) && forall j | 0 <= j < i :: !IsFor(t, op, j)
    ensures Get(op.cfg, t, Key(op.res.bssid, Name(op))) == Some(t.bss[i])
  {
    var k := Key(op.res.bssid, Name(op));
    forall j | 0 <= j < i
      ensures !(t.bss[j] in t.mem && KeyOf(t.mem[t.bss[j]]) == k)
    {
      assert !IsFor(t, op, j);
    }
    SearchFirst(t, t.bss, k, i);
  }

  lemma FoundNone(t: Table, op: Op)
    requires op.Result? && !Skips(op)
    requires op.cfg.accepts(op.res.bssid) ==> forall i | 0 <= i < |t.bss| :: !IsFor(t, op, i)
    ensures Get(op.cfg, t, Key(op.res.bssid, Name(op))).None?
  {
    var k := Key(op.res.bssid, Name(op));
    SearchIs(t, t.bss, k);
    if op.cfg.accepts(op.res.bssid) {
      forall p | p in t.bss && p in t.mem
        ensures KeyOf(t.mem[p]) != k
      {
        var i :| 0 <= i < |t.bss| && t.bss[i] == p;
        assert !IsFor(t, op, i);
      }
    }
  }

  // ---- The entry that a result writes ----

  /** A result for a new BSS: the next id, no misses, this round, and everything else as reported. */
  function NewlyWritten(t: Table, op: Op): Entry
    requires op.Result? && !Skips(op)
  {
    Entry(t.nextId, 0, t.updateIdx, op.res.bssid, Name(op), op.res.radio, UpdateTime(op.fetch, op.res.age), op.res.ies)
  }

  lemma MadeRoomKeeps(cfg: Config, t: Table)
    requires Inv(t)
    ensures
      var u, evicts := MadeRoom(cfg, t), t.num >= t.maxCount && Victim(cfg, t).Some?;
      && (forall p :: p in u.mem <==> p in t.mem && !(evicts && Victim(cfg, t) == Some(p)))
      && (forall p | p in u.mem :: u.mem[p] == t.mem[p])
      && (forall p :: p in u.lastScan <==> p in t.lastScan && !(evicts && Victim(cfg, t) == Some(p)))
      && u.scanSize == t.scanSize
  {
    hide Victim, Without;
    if Victim(cfg, t).Some? {
      WithoutFacts(t.lastScan, Victim(cfg, t).value);
    }
  }

  lemma VictimIgnoresIds(cfg: Config, t: Table, next: nat)
    ensures Victim(cfg, t.(nextId := next)) == Victim(cfg, t)
  {
    hide FirstEvictable, FirstIdle;
    FirstEvictableIgnoresIds(cfg, t, next, t.bss);
    FirstIdleIgnoresIds(t, next, t.bss);
  }

  lemma {:induction false} FirstIdleIgnoresIds(t: Table, next: nat, s: seq<Ptr>)
    ensures FirstIdle(t.(nextId := next), s) == FirstIdle(t, s)
  {
    hide InUse;
    if |s| > 0 {
      if s[0] in t.mem {
        InUseIgnoresIds(t, next, s[0]);
      }
      FirstIdleIgnoresIds(t, next, s[1..]);
    }
  }

  /**
   A result for which the filter finds no entry adds one, last in both lists and in the scan array.
   Of the others only the victim goes, and that only from a full table.
   */
  lemma ResultAdds(t: Table, op: Op)
    requires Inv(t) && OpOk(t, op) && op.Result? && !Skips(op)
    requires op.cfg.accepts(op.res.bssid) ==> forall i | 0 <= i < |t.bss| :: !IsFor(t, op, i)
    ensures
      var u := Step(t, op);
      var evicts := t.num >= t.maxCount && Victim(op.cfg, t).Some?;
      && op.alloc in u.mem && u.mem[op.alloc] == NewlyWritten(t, op)
      && u.nextId == (t.nextId + 1) % 0x1_0000_0000
      && (forall p | p != op.alloc :: p in u.mem <==> p in t.mem && !(evicts && Victim(op.cfg, t) == Some(p)))
      && (forall p | p in u.mem && p != op.alloc :: u.mem[p] == t.mem[p])
      && |u.bss| > 0 && u.bss[|u.bss| - 1] == op.alloc
      && |u.byId| > 0 && u.byId[|u.byId| - 1] == op.alloc
      && |u.lastScan| > 0 && u.lastScan[|u.lastScan| - 1] == op.alloc
      && (forall p :: p in u.lastScan <==>
            p == op.alloc || (p in t.lastScan && !(evicts && Victim(op.cfg, t) == Some(p))))
  {
    hide Inv, Skips, StoredSsid, Get, Added, Victim;
    StoredUnderName(op);
    FoundNone(t, op);
    AddedFromRoom(t, op);
    RoomForNext(op.cfg, t);
  }

  lemma AddedFromRoom(t: Table, op: Op)
    requires op.Result? && !Skips(op)
    ensures
      var m := MadeRoom(op.cfg, t.(nextId := (t.nextId + 1) % WRAP));
      var a := Added(op.cfg, t, Name(op), op.res, op.fetch, op.alloc);
      && a.mem == m.mem[op.alloc := NewlyWritten(t, op)] && a.nextId == m.nextId
      && a.bss == m.bss + [op.alloc] && a.byId == m.byId + [op.alloc] && a.lastScan == m.lastScan
  {
    hide MadeRoom, Skips;
  }

  lemma RoomForNext(cfg: Config, t: Table)
    requires Inv(t)
    ensures
      var u, evicts := MadeRoom(cfg, t.(nextId := (t.nextId + 1) % WRAP)), t.num >= t.maxCount && Victim(cfg, t).Some?;
      && u.nextId == (t.nextId + 1) % 0x1_0000_0000
      && (forall p :: p in u.mem <==> p in t.mem && !(evicts && Victim(cfg, t) == Some(p)))
      && (forall p | p in u.mem :: u.mem[p] == t.mem[p])
      && (forall p :: p in u.lastScan <==> p in t.lastScan && !(evicts && Victim(cfg, t) == Some(p)))
  {
    hide Inv, MadeRoom, Victim;
    var next := (t.nextId + 1) % WRAP;
    NextIdIsNoStructure(t, next);
    VictimIgnoresIds(cfg, t, next);
    MadeRoomKeeps(cfg, t.(nextId := next));
    MadeRoomKeepsNextId(cfg, t.(nextId := next));
  }

  /** Two results in one round: the entry stays if it is associated, or neither is and it is not older. */
  predicate StaysAsItIs(t: Table, e: Entry, op: Op)
    requires op.Result?
  {
    && e.updateIdx == t.updateIdx
    && (e.radio.flags & 0x20 != 0
        || (op.res.radio.flags & 0x20 == 0 && !Before(e.lastUpdate, UpdateTime(op.fetch, op.res.age))))
  }

  /** The elements it is left with, and whether it has to grow for them. */
  predicate KeepsP2p(e: Entry, op: Op)
    requires op.Result?
  {
    e.ies.hasP2p && !op.res.ies.hasP2p
  }

  predicate HasToGrow(e: Entry, op: Op)
    requires op.Result?
  {
    !KeepsP2p(e, op) && |op.res.ies.ie| + |op.res.ies.beaconIe| > |e.ies.ie| + |e.ies.beaconIe|
  }

  /** Id and SSID stay, and everything else is as reported in this round. */
  function Rewritten(t: Table, e: Entry, op: Op): Entry
    requires op.Result?
  {
    var kept := KeepsP2p(e, op) || (HasToGrow(e, op) && op.realloc.Failed?);
    Entry(e.id, 0, t.updateIdx, op.res.bssid, e.ssid, op.res.radio, UpdateTime(op.fetch, op.res.age),
          if kept then e.ies else op.res.ies)
  }

  function NewAddress(e: Entry, p: Ptr, op: Op): Ptr
    requires op.Result?
  {
    match op.realloc
    case Moved(to) => if HasToGrow(e, op) then to else p
    case _ => p
  }

  function Renamed(x: Ptr, p: Ptr, q: Ptr): Ptr {
    if x == p then q else x
  }

  lemma ReplacedAt(s: seq<Ptr>, p: Ptr, q: Ptr)
    requires NoDup(s)
    ensures |Replaced(s, p, q)| == |s| && forall x | 0 <= x < |s| :: Replaced(s, p, q)[x] == Renamed(s[x], p, q)
  {
  }

  lemma WithoutAt(s: seq<Ptr>, i: nat)
    requires NoDup(s) && i < |s|
    ensures Without(s, s[i]) == s[..i] + s[i + 1..]
  {
    assert IndexOf(s, s[i]) == i;
  }

  ghost predicate SamePlaces(s: seq<Ptr>, r: seq<Ptr>, p: Ptr, q: Ptr) {
    |r| == |s| && forall x | 0 <= x < |s| :: r[x] == Renamed(s[x], p, q)
  }

  /** A result for an entry that stays as it is: only the scan array may change. */
  lemma ResultStays(t: Table, op: Op, i: nat)
    requires Inv(t) && OpOk(t, op) && op.Result? && !Skips(op) && op.cfg.accepts(op.res.bssid)
    requires i < |t.bss| && IsFor(t, op, i) && forall j | 0 <= j < i :: !IsFor(t, op, j)
    requires StaysAsItIs(t, t.mem[t.bss[i]], op)
    ensures
      var u := Step(t, op);
      u == t.(lastScan := u.lastScan, scanSize := u.scanSize) && IsListed(t.lastScan, u.lastScan, t.bss[i])
  {
    hide Inv, Skips, StoredSsid, Get, Before;
    StoredUnderName(op);
    FoundFirst(t, op, i);
  }

  /** The scan array holds p once more if it did not hold it. */
  ghost predicate IsListed(s: seq<Ptr>, r: seq<Ptr>, p: Ptr) {
    r == if p in s then s else s + [p]
  }

  /**
   A result for any other entry rewrites it, moves it to the end of the list, keeps its place by id,
   and redirects every pointer to it.
   */
  lemma ResultRewrites(t: Table, op: Op, i: nat)
    requires Inv(t) && OpOk(t, op) && op.Result? && !Skips(op) && op.cfg.accepts(op.res.bssid)
    requires i < |t.bss| && IsFor(t, op, i) && forall j | 0 <= j < i :: !IsFor(t, op, j)
    requires !StaysAsItIs(t, t.mem[t.bss[i]], op)
    ensures
      var p, u := t.bss[i], Step(t, op);
      var e := t.mem[p];
      var q := NewAddress(e, p, op);
      && u.mem == (t.mem - {p})[q := Rewritten(t, e, op)]
      && u.bss == t.bss[..i] + t.bss[i + 1..] + [q]
      && SamePlaces(t.byId, u.byId, p, q)
      && (exists r :: SamePlaces(t.lastScan, r, p, q) && IsListed(r, u.lastScan, q))
      && u.current == (if t.current == Some(p) then Some(q) else t.current)
      && u.connect == (if t.connect == Some(p) then Some(q) else t.connect)
      && u.num == t.num && u.nextId == t.nextId && u.updateIdx == t.updateIdx && u.maxCount == t.maxCount
      && u.ownBssid == t.ownBssid && u.pendingBssid == t.pendingBssid
  {
    hide Skips, StoredSsid, Get, Before, Without, Replaced;
    StoredUnderName(op);
    FoundFirst(t, op, i);
    var p := t.bss[i];
    var q := NewHome(t.mem[p], p, op.res, op.realloc);
    WithoutAt(t.bss, i);
    ReplacedAt(t.byId, p, q);
    ReplacedAt(t.lastScan, p, q);
    assert SamePlaces(t.lastScan, Replaced(t.lastScan, p, q), p, q);
  }

  /** The scan array has room for what it holds: none at first, then 32 places, doubled when full. */
  lemma ScanArrayGrows(t: Table, p: Ptr)
    ensures
      var u := Listed(t, p);
      u.lastScan == t.lastScan + [p] &&
      u.scanSize == if |t.lastScan| < t.scanSize then t.scanSize
                    else if t.scanSize == 0 then 32 else t.scanSize + t.scanSize
  {
  }

  /** A round begins with the next index and an empty scan array. */
  lemma StartBegins(t: Table)
    ensures Step(t, Start) == t.(lastScan := [], updateIdx := (t.updateIdx + 1) % 0x1_0000_0000)
  {
  }

  lemma ConnectSets(t: Table, c: Option<Ptr>, w: Option<Ptr>, own: Addr, pending: Addr)
    ensures
      var u := Step(t, Connect(c, w, own, pending));
      && u.current == c && u.connect == w && u.ownBssid == own && u.pendingBssid == pending
      && u.mem == t.mem && u.bss == t.bss && u.byId == t.byId && u.lastScan == t.lastScan && u.num == t.num
      && u.updateIdx == t.updateIdx && u.nextId == t.nextId && u.maxCount == t.maxCount && u.scanSize == t.scanSize
  {
  }

  // ---- Which entries are in use, evictable and covered ----

  /**
   In use: the current BSS; or an entry with the BSSID of the interface or the pending one, which is
   not all zero, if it has the SSID of the current BSS or there is no current BSS.
   */
  lemma InUseIff(t: Table, p: Ptr)
    requires p in t.mem && (t.current.Some? ==> t.current.value in t.mem)
    ensures
      var e := t.mem[p];
      InUse(t, p) <==>
      || (t.current.Some? && t.current.value == p)
      || (e.bssid != [0, 0, 0, 0, 0, 0] && e.bssid in {t.ownBssid, t.pendingBssid}
          && (t.current.Some? ==> t.mem[t.current.value].ssid == e.ssid))
  {
  }

  /** Evictable: no configured network has its SSID, and it is no WPS candidate. */
  lemma EvictableIff(cfg: Config, e: Entry)
    ensures Evictable(cfg, e) <==> !cfg.wps(e) && (|e.ssid| == 0 || e.ssid !in cfg.networks)
  {
  }

  /** Covered by a scan: its frequency and its SSID, or the wildcard, were scanned, or everything was. */
  lemma IncludedIff(e: Entry, info: Option<ScanInfo>)
    ensures
      Included(e, info) <==>
      (info.Some? ==>
         && (|info.value.freqs| > 0 ==> exists i :: 0 <= i < |info.value.freqs| && info.value.freqs[i] == e.radio.freq)
         && (|info.value.ssids| > 0 ==>
               exists i :: 0 <= i < |info.value.ssids|
                 && (info.value.ssids[i] == e.ssid || |info.value.ssids[i]| == 0)))
  {
    if info.Some? && |info.value.ssids| > 0 {
      var ssids := info.value.ssids;
      if i :| 0 <= i < |ssids| && (ssids[i] == e.ssid || |ssids[i]| == 0) {
        assert ssids[i] in ssids;
      }
      if s :| s in ssids && (s == [] || s == e.ssid) {
        var i :| 0 <= i < |ssids| && ssids[i] == s;
      }
    }
  }

  // ---- Flushing everything ----

  lemma {:induction false} FlushedLeaves(t: Table, todo: seq<Ptr>, p: Ptr)
    requires NoDup(todo) && (forall q | q in todo :: q in t.mem) && p in t.mem
    ensures p in Flushed(t, todo).mem <==> InUse(t, p) || p !in todo
    decreases |todo|
  {
    hide InUse, Removed;
    if |todo| > 0 {
      var h, tl := todo[0], todo[1..];
      assert h in todo && h !in tl && forall q | q in tl :: q in todo;
      if InUse(t, h) {
        FlushedLeaves(t, tl, p);
      } else {
        var r := Removed(t, h);
        RemovedMem(t, h);
        FlushedOnly(r, tl);
        if p != h {
          RemovingIdleKeepsInUse(t, h, p);
          FlushedLeaves(r, tl, p);
        }
      }
    }
  }

  /** A flush leaves exactly the entries in use. */
  lemma FlushLeavesInUse(t: Table, p: Ptr)
    requires Inv(t)
    ensures p in Step(t, FlushAll).mem <==> p in t.mem && InUse(t, p)
  {
    hide InUse, Flushed;
    FlushedOnly(t, t.bss);
    if p in t.mem {
      FlushedLeaves(t, t.bss, p);
    }
  }
}
