/**
 What every run of BSS table operations keeps: both lists hold exactly the live entries, the
 scan array and the pending connection refer to live entries only, keys are unique and ids
 increase along the id list.
 */
module BssInvariant {
  import opened Bytes
  import opened BssTime
  import opened BssModel

  ghost predicate NoDup(s: seq<Ptr>) {
    forall i, j | 0 <= i < j < |s| :: s[i] != s[j]
  }

  ghost predicate HoldsExactly(s: seq<Ptr>, mem: map<Ptr, Entry>) {
    NoDup(s) && forall p :: p in s <==> p in mem
  }

  /** The lists agree with memory and with each other, and no other pointer into the table dangles. */
  ghost predicate Inv(t: Table) {
    && HoldsExactly(t.bss, t.mem) && HoldsExactly(t.byId, t.mem)
    && t.num == |t.mem|
    && NoDup(t.lastScan) && (forall p | p in t.lastScan :: p in t.mem)
    && |t.lastScan| <= t.scanSize
    && (t.connect.Some? ==> t.connect.value in t.mem)
  }

  /** At most one entry per BSSID and SSID. */
  ghost predicate KeysUnique(t: Table) {
    forall p, q | p in t.mem && q in t.mem && KeyOf(t.mem[p]) == KeyOf(t.mem[q]) :: p == q
  }

  /** Ids increase along the id list and are below the next one to be given. */
  ghost predicate IdsIncrease(t: Table) {
    && (forall i, j | 0 <= i < j < |t.byId| && t.byId[i] in t.mem && t.byId[j] in t.mem ::
          t.mem[t.byId[i]].id < t.mem[t.byId[j]].id)
    && (forall p | p in t.mem :: t.mem[p].id < t.nextId)
  }

  // ---- Removing and replacing in a sequence without duplicates ----

  lemma WithoutFacts(s: seq<Ptr>, p: Ptr)
    requires NoDup(s)
    ensures NoDup(Without(s, p))
    ensures forall x :: x in Without(s, p) <==> x in s && x != p
    ensures |Without(s, p)| == if p in s then |s| - 1 else |s|
  {
    var k := IndexOf(s, p);
    if k < |s| {
      forall x | x in s && x != p
        ensures x in Without(s, p)
      {
        var i :| 0 <= i < |s| && s[i] == x;
        assert Without(s, p)[if i < k then i else i - 1] == x;
      }
    }
  }

  lemma GapIndex(s: seq<Ptr>, k: nat, i: nat)
    requires k < |s| && i + 1 < |s|
    ensures (s[..k] + s[k + 1..])[i] == s[if i < k then i else i + 1]
  {
  }

  /** Positions in the shortened sequence keep their order. */
  lemma WithoutKeepsOrder(s: seq<Ptr>, p: Ptr, i: nat, j: nat) returns (i': nat, j': nat)
    requires i < j < |Without(s, p)|
    ensures i' < j' < |s| && s[i'] == Without(s, p)[i] && s[j'] == Without(s, p)[j]
  {
    var k := IndexOf(s, p);
    i' := if i < k then i else i + 1;
    j' := if j < k then j else j + 1;
    if k < |s| {
      GapIndex(s, k, i);
      GapIndex(s, k, j);
    }
  }

  lemma ReplacedFacts(s: seq<Ptr>, p: Ptr, q: Ptr)
    requires NoDup(s) && (q == p || q !in s)
    ensures NoDup(Replaced(s, p, q))
    ensures forall x :: x in Replaced(s, p, q) <==> (x in s && x != p) || (x == q && p in s)
  {
    var k := IndexOf(s, p);
    if k < |s| {
      forall x | x in s && x != p
        ensures x in Replaced(s, p, q)
      {
        var i :| 0 <= i < |s| && s[i] == x;
        assert Replaced(s, p, q)[i] == x;
      }
      assert Replaced(s, p, q)[k] == q;
    }
  }

  // ---- Removal ----

  lemma RemovedLists(t: Table, p: Ptr)
    requires Inv(t) && p in t.mem
    ensures Inv(Removed(t, p))
  {
    hide Without, NoDup;
    WithoutFacts(t.bss, p);
    WithoutFacts(t.byId, p);
    WithoutFacts(t.lastScan, p);
    MinusOne(t.mem, p);
  }

  lemma MinusOne(mem: map<Ptr, Entry>, p: Ptr)
    requires p in mem
    ensures |mem - {p}| == |mem| - 1
  {
    assert mem.Keys == (mem - {p}).Keys + {p};
  }

  lemma RemovedKeys(t: Table, p: Ptr)
    requires KeysUnique(t)
    ensures KeysUnique(Removed(t, p))
  {
  }

  lemma RemovedIds(t: Table, p: Ptr)
    requires IdsIncrease(t)
    ensures IdsIncrease(Removed(t, p))
  {
    var u := Removed(t, p);
    forall i, j | 0 <= i < j < |u.byId| && u.byId[i] in u.mem && u.byId[j] in u.mem
      ensures u.mem[u.byId[i]].id < u.mem[u.byId[j]].id
    {
      var i', j' := WithoutKeepsOrder(t.byId, p, i, j);
    }
  }

  lemma RemovedInv(t: Table, p: Ptr)
    requires Inv(t) && p in t.mem
    ensures Inv(Removed(t, p))
    ensures KeysUnique(t) ==> KeysUnique(Removed(t, p))
    ensures IdsIncrease(t) ==> IdsIncrease(Removed(t, p))
  {
    hide Inv, KeysUnique, IdsIncrease, Removed;
    RemovedLists(t, p);
    if KeysUnique(t) {
      RemovedKeys(t, p);
    }
    if IdsIncrease(t) {
      RemovedIds(t, p);
    }
  }

  // ---- Addition ----

  lemma {:induction false} FirstEvictableIs(cfg: Config, t: Table, s: seq<Ptr>)
    ensures
      var v := FirstEvictable(cfg, t, s);
      if v.Some? then v.value in s && v.value in t.mem && Evictable(cfg, t.mem[v.value])
      else forall p | p in s && p in t.mem :: !Evictable(cfg, t.mem[p])
  {
    if |s| > 0 {
      FirstEvictableIs(cfg, t, s[1..]);
    }
  }

  lemma {:induction false} FirstIdleIs(t: Table, s: seq<Ptr>)
    ensures
      var v := FirstIdle(t, s);
      if v.Some? then v.value in s && v.value in t.mem && !InUse(t, v.value)
      else forall p | p in s && p in t.mem :: InUse(t, p)
  {
    hide InUse;
    if |s| > 0 {
      FirstIdleIs(t, s[1..]);
    }
  }

  lemma VictimIsLive(cfg: Config, t: Table)
    ensures Victim(cfg, t).Some? ==> Victim(cfg, t).value in t.mem
  {
    hide FirstEvictable, FirstIdle, InUse, Evictable;
    FirstEvictableIs(cfg, t, t.bss);
    FirstIdleIs(t, t.bss);
  }

  lemma MadeRoomInv(cfg: Config, t: Table)
    requires Inv(t)
    ensures Inv(MadeRoom(cfg, t))
    ensures KeysUnique(t) ==> KeysUnique(MadeRoom(cfg, t))
    ensures IdsIncrease(t) ==> IdsIncrease(MadeRoom(cfg, t))
  {
    hide KeysUnique, IdsIncrease, Removed, Victim;
    VictimIsLive(cfg, t);
    var v := Victim(cfg, t);
    if t.num + 1 <= t.maxCount {
    } else if v.Some? {
      RemovedInv(t, v.value);
    } else {
      LimitIsNoStructure(t, t.num + 1);
    }
  }

  lemma LimitIsNoStructure(t: Table, limit: int)
    ensures KeysUnique(t) ==> KeysUnique(t.(maxCount := limit))
    ensures IdsIncrease(t) ==> IdsIncrease(t.(maxCount := limit))
  {
  }

  /** Making room changes no entry that stays. */
  lemma MadeRoomOnlyRemoves(cfg: Config, t: Table)
    ensures forall p | p in MadeRoom(cfg, t).mem :: p in t.mem && MadeRoom(cfg, t).mem[p] == t.mem[p]
  {
    hide Victim;
  }

  lemma LinkedInv(t: Table, p: Ptr, e: Entry)
    requires Inv(t) && p !in t.mem
    ensures Inv(Linked(t, p, e))
  {
    var u := Linked(t, p, e);
    assert u.mem.Keys == t.mem.Keys + {p};
    AppendedFacts(t.bss, p);
    AppendedFacts(t.byId, p);
  }

  lemma AppendedFacts(s: seq<Ptr>, p: Ptr)
    requires NoDup(s) && p !in s
    ensures NoDup(s + [p]) && forall x :: x in s + [p] <==> x in s || x == p
  {
  }

  lemma LinkedKeys(t: Table, p: Ptr, e: Entry)
    requires KeysUnique(t) && forall q | q in t.mem :: KeyOf(t.mem[q]) != KeyOf(e)
    ensures KeysUnique(Linked(t, p, e))
  {
  }

  lemma LinkedIds(t: Table, p: Ptr, e: Entry)
    requires IdsIncrease(t) && p !in t.mem && p !in t.byId
    requires (forall q | q in t.mem :: t.mem[q].id < e.id) && e.id < t.nextId
    ensures IdsIncrease(Linked(t, p, e))
  {
    var u := Linked(t, p, e);
    forall i, j | 0 <= i < j < |u.byId| && u.byId[i] in u.mem && u.byId[j] in u.mem
      ensures u.mem[u.byId[i]].id < u.mem[u.byId[j]].id
    {
      assert u.byId[i] == t.byId[i];
      assert j < |t.byId| ==> u.byId[j] == t.byId[j];
    }
  }

  lemma NextIdIsNoStructure(t: Table, next: nat)
    ensures Inv(t) ==> Inv(t.(nextId := next))
    ensures KeysUnique(t) ==> KeysUnique(t.(nextId := next))
    ensures IdsIncrease(t) && t.nextId <= next ==> IdsIncrease(t.(nextId := next))
  {
  }

  lemma AddedInv(cfg: Config, t: Table, ssid: Octets, res: ScanRes, fetch: Time, alloc: Ptr)
    requires Inv(t) && alloc !in t.mem
    ensures Inv(Added(cfg, t, ssid, res, fetch, alloc))
    ensures alloc in Added(cfg, t, ssid, res, fetch, alloc).mem
    ensures alloc !in Added(cfg, t, ssid, res, fetch, alloc).lastScan
  {
    hide MadeRoom, Inv;
    var t1 := t.(nextId := (t.nextId + 1) % WRAP);
    NextIdIsNoStructure(t, (t.nextId + 1) % WRAP);
    MadeRoomInv(cfg, t1);
    MadeRoomOnlyRemoves(cfg, t1);
    LinkedInv(MadeRoom(cfg, t1), alloc, NewEntry(t, ssid, res, fetch));
    NothingDangles(MadeRoom(cfg, t1), alloc);
  }

  lemma NothingDangles(t: Table, p: Ptr)
    requires Inv(t) && p !in t.mem
    ensures p !in t.lastScan && p !in t.bss && p !in t.byId
  {
  }

  lemma AddedKeys(cfg: Config, t: Table, ssid: Octets, res: ScanRes, fetch: Time, alloc: Ptr)
    requires Inv(t) && KeysUnique(t) && forall q | q in t.mem :: KeyOf(t.mem[q]) != Key(res.bssid, ssid)
    ensures KeysUnique(Added(cfg, t, ssid, res, fetch, alloc))
  {
    hide MadeRoom, KeysUnique, Inv;
    var t1 := t.(nextId := (t.nextId + 1) % WRAP);
    NextIdIsNoStructure(t, (t.nextId + 1) % WRAP);
    MadeRoomInv(cfg, t1);
    MadeRoomOnlyRemoves(cfg, t1);
    LinkedKeys(MadeRoom(cfg, t1), alloc, NewEntry(t, ssid, res, fetch));
  }

  lemma AddedIds(cfg: Config, t: Table, ssid: Octets, res: ScanRes, fetch: Time, alloc: Ptr)
    requires Inv(t) && IdsIncrease(t) && t.nextId + 1 < WRAP && alloc !in t.mem
    ensures IdsIncrease(Added(cfg, t, ssid, res, fetch, alloc))
  {
    hide MadeRoom, Inv, IdsIncrease;
    var t1 := t.(nextId := t.nextId + 1);
    NextIdIsNoStructure(t, t.nextId + 1);
    MadeRoomInv(cfg, t1);
    MadeRoomOnlyRemoves(cfg, t1);
    MadeRoomKeepsNextId(cfg, t1);
    NothingDangles(MadeRoom(cfg, t1), alloc);
    IdsBelowNext(t);
    LinkedIds(MadeRoom(cfg, t1), alloc, NewEntry(t, ssid, res, fetch));
  }

  lemma IdsBelowNext(t: Table)
    requires IdsIncrease(t)
    ensures forall p | p in t.mem :: t.mem[p].id < t.nextId
  {
  }

  lemma MadeRoomKeepsNextId(cfg: Config, t: Table)
    ensures MadeRoom(cfg, t).nextId == t.nextId && MadeRoom(cfg, t).updateIdx == t.updateIdx
  {
    hide Victim;
  }

  // ---- Update, possibly moving the entry ----

  function Moved(mem: map<Ptr, Entry>, p: Ptr, q: Ptr, f: Entry): map<Ptr, Entry> {
    (mem - {p})[q := f]
  }

  lemma MovedSize(mem: map<Ptr, Entry>, p: Ptr, q: Ptr, f: Entry)
    requires p in mem && (q == p || q !in mem)
    ensures |Moved(mem, p, q, f)| == |mem|
    ensures forall x :: x in Moved(mem, p, q, f) <==> (x in mem && x != p) || x == q
  {
    assert Moved(mem, p, q, f).Keys == mem.Keys - {p} + {q};
    assert mem.Keys == mem.Keys - {p} + {p};
  }

  lemma MovedLists(bss: seq<Ptr>, mem: map<Ptr, Entry>, p: Ptr, q: Ptr, f: Entry)
    requires HoldsExactly(bss, mem) && p in mem && (q == p || q !in mem)
    ensures HoldsExactly(Without(bss, p) + [q], Moved(mem, p, q, f))
    ensures HoldsExactly(Replaced(bss, p, q), Moved(mem, p, q, f))
  {
    hide Without, Replaced, Moved;
    MovedSize(mem, p, q, f);
    WithoutFacts(bss, p);
    AppendedFacts(Without(bss, p), q);
    ReplacedFacts(bss, p, q);
  }

  lemma UpdatedInv(t: Table, p: Ptr, res: ScanRes, fetch: Time, realloc: Realloc)
    requires Inv(t) && p in t.mem && (realloc.Moved? ==> realloc.to !in t.mem)
    ensures Inv(Updated(t, p, res, fetch, realloc))
    ensures HomeAfter(t, p, res, fetch, realloc) in Updated(t, p, res, fetch, realloc).mem
  {
    hide Ignored, Without, Replaced, NewIes, Refreshed, HoldsExactly;
    if !Ignored(t, t.mem[p], res, fetch) {
      var q := NewHome(t.mem[p], p, res, realloc);
      var f := Refreshed(t, t.mem[p], res, fetch).(ies := NewIes(t.mem[p], res, realloc));
      MovedSize(t.mem, p, q, f);
      MovedLists(t.bss, t.mem, p, q, f);
      MovedLists(t.byId, t.mem, p, q, f);
      ReplacedFacts(t.lastScan, p, q);
    }
  }

  lemma UpdatedKeys(t: Table, p: Ptr, res: ScanRes, fetch: Time, realloc: Realloc)
    requires KeysUnique(t) && p in t.mem && res.bssid == t.mem[p].bssid && (realloc.Moved? ==> realloc.to !in t.mem)
    ensures KeysUnique(Updated(t, p, res, fetch, realloc))
  {
    hide Ignored, Without, Replaced, NewIes;
  }

  lemma UpdatedIds(t: Table, p: Ptr, res: ScanRes, fetch: Time, realloc: Realloc)
    requires Inv(t) && IdsIncrease(t) && p in t.mem && (realloc.Moved? ==> realloc.to !in t.mem)
    ensures IdsIncrease(Updated(t, p, res, fetch, realloc))
  {
    hide Ignored, Without, NewIes;
    var u := Updated(t, p, res, fetch, realloc);
    if !Ignored(t, t.mem[p], res, fetch) {
      forall i, j | 0 <= i < j < |u.byId| && u.byId[i] in u.mem && u.byId[j] in u.mem
        ensures u.mem[u.byId[i]].id < u.mem[u.byId[j]].id
      {
        MovedEntryKeepsId(t, p, res, fetch, realloc, i);
        MovedEntryKeepsId(t, p, res, fetch, realloc, j);
      }
    }
  }

  /** Position i of the id list still shows the same id, whether or not its entry moved. */
  lemma MovedEntryKeepsId(t: Table, p: Ptr, res: ScanRes, fetch: Time, realloc: Realloc, i: nat)
    requires Inv(t) && p in t.mem && i < |t.byId| && (realloc.Moved? ==> realloc.to !in t.mem)
    ensures
      var u := Updated(t, p, res, fetch, realloc);
      && |u.byId| == |t.byId| && t.byId[i] in t.mem && u.byId[i] in u.mem
      && u.mem[u.byId[i]].id == t.mem[t.byId[i]].id
  {
    hide Ignored, Without, NewIes;
    assert t.byId[i] in t.byId;
    var k := IndexOf(t.byId, p);
    assert p in t.byId;
  }

  lemma ListedInv(t: Table, p: Ptr)
    requires Inv(t) && p in t.mem && p !in t.lastScan
    ensures Inv(Listed(t, p))
  {
    AppendedFacts(t.lastScan, p);
  }

  lemma ListedIsNoStructure(t: Table, p: Ptr)
    ensures KeysUnique(t) ==> KeysUnique(Listed(t, p))
    ensures IdsIncrease(t) ==> IdsIncrease(Listed(t, p))
  {
  }

  lemma {:induction false} SearchIs(t: Table, s: seq<Ptr>, k: Key)
    ensures
      var p := Search(t, s, k);
      if p.Some? then p.value in s && p.value in t.mem && KeyOf(t.mem[p.value]) == k
      else forall q | q in s && q in t.mem :: KeyOf(t.mem[q]) != k
  {
    if |s| > 0 {
      SearchIs(t, s[1..], k);
    }
  }

  /** The lookup finds the entry with the key, if the filter lets it look. */
  lemma GetIs(cfg: Config, t: Table, k: Key)
    requires Inv(t)
    ensures
      var p := Get(cfg, t, k);
      && (p.Some? ==> p.value in t.mem && KeyOf(t.mem[p.value]) == k)
      && (p.None? && cfg.accepts(k.bssid) ==> forall q | q in t.mem :: KeyOf(t.mem[q]) != k)
  {
    SearchIs(t, t.bss, k);
  }

  lemma ScanResInv(cfg: Config, t: Table, res: ScanRes, fetch: Time, alloc: Ptr, realloc: Realloc)
    requires Inv(t) && alloc !in t.mem && (realloc.Moved? ==> realloc.to !in t.mem)
    ensures Inv(AfterScanRes(cfg, t, res, fetch, alloc, realloc))
  {
    hide Inv, Added, Updated, HomeAfter, Listed, StoredSsid, Get;
    var ssid := StoredSsid(cfg, res, fetch);
    if ssid.Some? {
      var k := Key(res.bssid, ssid.value);
      GetIs(cfg, t, k);
      var p := Get(cfg, t, k);
      if p.None? {
        AddedInv(cfg, t, ssid.value, res, fetch, alloc);
        ListedInv(Added(cfg, t, ssid.value, res, fetch, alloc), alloc);
      } else {
        UpdatedInv(t, p.value, res, fetch, realloc);
        var u, q := Updated(t, p.value, res, fetch, realloc), HomeAfter(t, p.value, res, fetch, realloc);
        if q !in u.lastScan {
          ListedInv(u, q);
        }
      }
    }
  }

  lemma ScanResKeys(cfg: Config, t: Table, res: ScanRes, fetch: Time, alloc: Ptr, realloc: Realloc)
    requires Inv(t) && KeysUnique(t) && (realloc.Moved? ==> realloc.to !in t.mem) && cfg.accepts(res.bssid)
    ensures KeysUnique(AfterScanRes(cfg, t, res, fetch, alloc, realloc))
  {
    hide Inv, KeysUnique, Added, Updated, HomeAfter, Listed, StoredSsid, Get;
    var ssid := StoredSsid(cfg, res, fetch);
    if ssid.Some? {
      var k := Key(res.bssid, ssid.value);
      GetIs(cfg, t, k);
      var p := Get(cfg, t, k);
      if p.None? {
        AddedKeys(cfg, t, ssid.value, res, fetch, alloc);
        ListedIsNoStructure(Added(cfg, t, ssid.value, res, fetch, alloc), alloc);
      } else {
        UpdatedKeys(t, p.value, res, fetch, realloc);
        ListedIsNoStructure(Updated(t, p.value, res, fetch, realloc), HomeAfter(t, p.value, res, fetch, realloc));
      }
    }
  }

  lemma ScanResIds(cfg: Config, t: Table, res: ScanRes, fetch: Time, alloc: Ptr, realloc: Realloc)
    requires Inv(t) && IdsIncrease(t) && t.nextId + 1 < WRAP
    requires alloc !in t.mem && (realloc.Moved? ==> realloc.to !in t.mem)
    ensures IdsIncrease(AfterScanRes(cfg, t, res, fetch, alloc, realloc))
  {
    hide Inv, IdsIncrease, Added, Updated, HomeAfter, Listed, StoredSsid, Get;
    var ssid := StoredSsid(cfg, res, fetch);
    if ssid.Some? {
      var k := Key(res.bssid, ssid.value);
      GetIs(cfg, t, k);
      var p := Get(cfg, t, k);
      if p.None? {
        AddedIds(cfg, t, ssid.value, res, fetch, alloc);
        ListedIsNoStructure(Added(cfg, t, ssid.value, res, fetch, alloc), alloc);
      } else {
        UpdatedIds(t, p.value, res, fetch, realloc);
        ListedIsNoStructure(Updated(t, p.value, res, fetch, realloc), HomeAfter(t, p.value, res, fetch, realloc));
      }
    }
  }

  // ---- Expiry and flushing ----

  function WithMisses(t: Table, p: Ptr, misses: nat): Table
    requires p in t.mem
  {
    t.(mem := t.mem[p := t.mem[p].(missCount := misses)])
  }

  lemma MissCountIsNoStructure(t: Table, p: Ptr, misses: nat)
    requires p in t.mem
    ensures Inv(t) ==> Inv(WithMisses(t, p, misses))
    ensures KeysUnique(t) ==> KeysUnique(WithMisses(t, p, misses))
    ensures IdsIncrease(t) ==> IdsIncrease(WithMisses(t, p, misses))
  {
    MissCountLists(t, p, misses);
    MissCountKeys(t, p, misses);
    MissCountIds(t, p, misses);
  }

  lemma MissCountLists(t: Table, p: Ptr, misses: nat)
    requires p in t.mem
    ensures Inv(t) ==> Inv(WithMisses(t, p, misses))
  {
    assert WithMisses(t, p, misses).mem.Keys == t.mem.Keys;
  }

  lemma MissCountKeys(t: Table, p: Ptr, misses: nat)
    requires p in t.mem
    ensures KeysUnique(t) ==> KeysUnique(WithMisses(t, p, misses))
  {
  }

  lemma MissCountIds(t: Table, p: Ptr, misses: nat)
    requires p in t.mem
    ensures IdsIncrease(t) ==> IdsIncrease(WithMisses(t, p, misses))
  {
  }

  /** Expiry of one entry: counted, then removed if counted out. */
  lemma ExpiredOneIs(cfg: Config, info: Option<ScanInfo>, t: Table, p: Ptr)
    requires p in t.mem && !InUse(t, p) && Included(t.mem[p], info)
    ensures
      var m := t.mem[p].missCount + (if t.mem[p].updateIdx < t.updateIdx then 1 else 0);
      ExpiredOne(cfg, info, t, p) ==
        if m >= cfg.expiration then Removed(WithMisses(t, p, m), p) else WithMisses(t, p, m)
  {
    hide InUse, Included, Removed;
  }

  lemma ExpiredOneInv(cfg: Config, info: Option<ScanInfo>, t: Table, p: Ptr)
    requires Inv(t)
    ensures Inv(ExpiredOne(cfg, info, t, p))
    ensures KeysUnique(t) ==> KeysUnique(ExpiredOne(cfg, info, t, p))
    ensures IdsIncrease(t) ==> IdsIncrease(ExpiredOne(cfg, info, t, p))
  {
    hide Inv, KeysUnique, IdsIncrease, InUse, Included, Removed;
    if p in t.mem && !InUse(t, p) && Included(t.mem[p], info) {
      var m := t.mem[p].missCount + (if t.mem[p].updateIdx < t.updateIdx then 1 else 0);
      ExpiredOneIs(cfg, info, t, p);
      MissCountIsNoStructure(t, p, m);
      RemovedInv(WithMisses(t, p, m), p);
    }
  }

  lemma {:induction false} ExpiredInv(cfg: Config, info: Option<ScanInfo>, t: Table, todo: seq<Ptr>)
    requires Inv(t)
    ensures Inv(Expired(cfg, info, t, todo))
    ensures KeysUnique(t) ==> KeysUnique(Expired(cfg, info, t, todo))
    ensures IdsIncrease(t) ==> IdsIncrease(Expired(cfg, info, t, todo))
    decreases |todo|
  {
    hide Inv, KeysUnique, IdsIncrease, ExpiredOne;
    if |todo| > 0 {
      ExpiredOneInv(cfg, info, t, todo[0]);
      ExpiredInv(cfg, info, ExpiredOne(cfg, info, t, todo[0]), todo[1..]);
    }
  }

  lemma {:induction false} FlushedOldInv(t: Table, limit: Time, todo: seq<Ptr>)
    requires Inv(t)
    ensures Inv(FlushedOld(t, limit, todo))
    ensures KeysUnique(t) ==> KeysUnique(FlushedOld(t, limit, todo))
    ensures IdsIncrease(t) ==> IdsIncrease(FlushedOld(t, limit, todo))
    decreases |todo|
  {
    hide Inv, KeysUnique, IdsIncrease, InUse, Removed, Before;
    if |todo| > 0 {
      FlushedOldInv(t, limit, todo[1..]);
      if todo[0] in t.mem {
        RemovedInv(t, todo[0]);
        FlushedOldInv(Removed(t, todo[0]), limit, todo[1..]);
      }
    }
  }

  lemma {:induction false} FlushedInv(t: Table, todo: seq<Ptr>)
    requires Inv(t)
    ensures Inv(Flushed(t, todo))
    ensures KeysUnique(t) ==> KeysUnique(Flushed(t, todo))
    ensures IdsIncrease(t) ==> IdsIncrease(Flushed(t, todo))
    decreases |todo|
  {
    hide Inv, KeysUnique, IdsIncrease, InUse, Removed;
    if |todo| > 0 {
      FlushedInv(t, todo[1..]);
      if todo[0] in t.mem {
        RemovedInv(t, todo[0]);
        FlushedInv(Removed(t, todo[0]), todo[1..]);
      }
    }
  }

  // ---- Every operation, every run ----

  lemma StartedInv(t: Table)
    ensures Inv(t) ==> Inv(Started(t))
    ensures KeysUnique(t) ==> KeysUnique(Started(t))
    ensures IdsIncrease(t) ==> IdsIncrease(Started(t))
  {
  }

  lemma ConnectInv(t: Table, c: Option<Ptr>, w: Option<Ptr>, own: Addr, pending: Addr)
    requires w.Some? ==> w.value in t.mem
    ensures
      var u := t.(current := c, connect := w, ownBssid := own, pendingBssid := pending);
      (Inv(t) ==> Inv(u)) && (KeysUnique(t) ==> KeysUnique(u)) && (IdsIncrease(t) ==> IdsIncrease(u))
  {
  }

  /** One operation keeps the structure; keys stay unique where the filter accepts the result, ids unless they wrap. */
  lemma StepInv(t: Table, op: Op)
    requires Inv(t) && OpOk(t, op)
    ensures Inv(Step(t, op))
    ensures KeysUnique(t) && (op.Result? ==> op.cfg.accepts(op.res.bssid)) ==> KeysUnique(Step(t, op))
    ensures IdsIncrease(t) && (op.Result? ==> t.nextId + 1 < WRAP) ==> IdsIncrease(Step(t, op))
  {
    hide Inv, KeysUnique, IdsIncrease, AfterScanRes, Expired, FlushedOld, Flushed, Removed;
    match op
    case Start => StartedInv(t);
    case Result(cfg, res, fetch, alloc, realloc) =>
      ScanResInv(cfg, t, res, fetch, alloc, realloc);
      if KeysUnique(t) && cfg.accepts(res.bssid) {
        ScanResKeys(cfg, t, res, fetch, alloc, realloc);
      }
      if IdsIncrease(t) && t.nextId + 1 < WRAP {
        ScanResIds(cfg, t, res, fetch, alloc, realloc);
      }
    case End(cfg, info, newScan) => ExpiredInv(cfg, info, t, t.bss);
    case FlushByAge(now, age) => FlushedOldInv(t, now.(sec := now.sec - age), t.bss);
    case FlushAll => FlushedInv(t, t.bss);
    case Remove(p) => RemovedInv(t, p);
    case Connect(c, w, own, pending) => ConnectInv(t, c, w, own, pending);
  }

  lemma EmptyInv(maxCount: int)
    ensures Inv(Empty(maxCount)) && KeysUnique(Empty(maxCount)) && IdsIncrease(Empty(maxCount))
  {
  }

  ghost function At(maxCount: int, ops: seq<Op>, n: nat): Table
    requires n <= |ops|
  {
    if n == 0 then Empty(maxCount) else Step(At(maxCount, ops, n - 1), ops[n - 1])
  }

  /** Every operation of the run is called as it may be. */
  ghost predicate RunOk(maxCount: int, ops: seq<Op>) {
    forall n | 0 <= n < |ops| :: OpOk(At(maxCount, ops, n), ops[n])
  }

  /** Over every run the lists and the pointers into them are consistent. */
  lemma {:induction false} RunInv(maxCount: int, ops: seq<Op>, n: nat)
    requires RunOk(maxCount, ops) && n <= |ops|
    ensures Inv(At(maxCount, ops, n))
  {
    hide Inv, KeysUnique, IdsIncrease, Step, OpOk, Empty;
    EmptyInv(maxCount);
    if n > 0 {
      RunInv(maxCount, ops, n - 1);
      StepInv(At(maxCount, ops, n - 1), ops[n - 1]);
    }
  }

  /** Over every run in which the filter accepts each result, no two entries share BSSID and SSID. */
  lemma {:induction false} RunKeysUnique(maxCount: int, ops: seq<Op>, n: nat)
    requires RunOk(maxCount, ops) && n <= |ops|
    requires forall i | 0 <= i < n && ops[i].Result? :: ops[i].cfg.accepts(ops[i].res.bssid)
    ensures KeysUnique(At(maxCount, ops, n))
  {
    hide Inv, KeysUnique, IdsIncrease, Step, OpOk, Empty;
    EmptyInv(maxCount);
    if n > 0 {
      RunInv(maxCount, ops, n - 1);
      RunKeysUnique(maxCount, ops, n - 1);
      StepInv(At(maxCount, ops, n - 1), ops[n - 1]);
    }
  }

  ghost function Results(ops: seq<Op>, n: nat): nat
    requires n <= |ops|
  {
    if n == 0 then 0 else Results(ops, n - 1) + (if ops[n - 1].Result? then 1 else 0)
  }

  /** Removing entries gives no id away, and a result takes at most one. */
  lemma {:induction false} ExpiredKeepsNextId(cfg: Config, info: Option<ScanInfo>, t: Table, todo: seq<Ptr>)
    ensures Expired(cfg, info, t, todo).nextId == t.nextId
    decreases |todo|
  {
    if |todo| > 0 {
      ExpiredKeepsNextId(cfg, info, ExpiredOne(cfg, info, t, todo[0]), todo[1..]);
    }
  }

  lemma {:induction false} FlushKeepsNextId(t: Table, limit: Time, todo: seq<Ptr>)
    ensures FlushedOld(t, limit, todo).nextId == t.nextId && Flushed(t, todo).nextId == t.nextId
    decreases |todo|
  {
    if |todo| > 0 {
      FlushKeepsNextId(t, limit, todo[1..]);
      FlushKeepsNextId(Removed(t, todo[0]), limit, todo[1..]);
    }
  }

  lemma NextIdStep(t: Table, op: Op)
    ensures Step(t, op).nextId == t.nextId || (op.Result? && Step(t, op).nextId == (t.nextId + 1) % WRAP)
  {
    match op
    case End(cfg, info, newScan) => ExpiredKeepsNextId(cfg, info, t, t.bss);
    case FlushByAge(now, age) => FlushKeepsNextId(t, now.(sec := now.sec - age), t.bss);
    case FlushAll => FlushKeepsNextId(t, Time(0, 0), t.bss);
    case _ =>
  }

  lemma {:induction false} NextIdBound(maxCount: int, ops: seq<Op>, n: nat)
    requires n <= |ops| && Results(ops, n) < WRAP
    ensures At(maxCount, ops, n).nextId <= Results(ops, n)
  {
    if n > 0 {
      hide Inv, KeysUnique, IdsIncrease, Step, OpOk;
      NextIdBound(maxCount, ops, n - 1);
      NextIdStep(At(maxCount, ops, n - 1), ops[n - 1]);
    }
  }

  /** Over every run with fewer than 2^32 results, ids increase along the id list. */
  lemma {:induction false} RunIdsIncrease(maxCount: int, ops: seq<Op>, n: nat)
    requires RunOk(maxCount, ops) && n <= |ops| && Results(ops, n) < WRAP
    ensures IdsIncrease(At(maxCount, ops, n))
  {
    hide Inv, KeysUnique, IdsIncrease, Step, OpOk, Empty;
    EmptyInv(maxCount);
    if n > 0 {
      RunInv(maxCount, ops, n - 1);
      RunIdsIncrease(maxCount, ops, n - 1);
      NextIdBound(maxCount, ops, n - 1);
      StepInv(At(maxCount, ops, n - 1), ops[n - 1]);
    }
  }
}
