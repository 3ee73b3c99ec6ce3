/**
 The BSS table itself: its operations change memory, the two lists, the scan array and the
 counters step by step, and are proved to do what the functions of BssModel say.
 */
module BssTable {
  import opened Bytes
  import opened BssTime
  import opened BssModel
  import opened BssInvariant

  method FindIndex(s: seq<Ptr>, p: Ptr) returns (k: nat)
    ensures k == IndexOf(s, p)
  {
    k := 0;
    while k < |s|
      invariant 0 <= k <= |s|
      invariant IndexFrom(s, p, 0) == IndexFrom(s, p, k)
    {
      if s[k] == p {
        return;
      }
      k := k + 1;
    }
  }

  /** Closes the gap that an address leaves, as memmove and dl_list_del do. */
  method Unlink(s: seq<Ptr>, p: Ptr) returns (r: seq<Ptr>)
    ensures r == Without(s, p)
  {
    var k := FindIndex(s, p);
    r := if k < |s| then s[..k] + s[k + 1..] else s;
  }

  class BssTable {
    var mem: map<Ptr, Entry>
    var bss: seq<Ptr>
    var byId: seq<Ptr>
    var lastScan: seq<Ptr>
    var scanSize: nat
    var num: int
    var nextId: nat
    var updateIdx: nat
    var maxCount: int
    var current: Option<Ptr>
    var connect: Option<Ptr>
    var ownBssid: Addr
    var pendingBssid: Addr

    function View(): Table
      reads this
    {
      Table(mem, bss, byId, lastScan, scanSize, num, nextId, updateIdx, maxCount, current, connect, ownBssid,
            pendingBssid)
    }

    constructor (maxCount: int)
      ensures View() == Empty(maxCount) && Inv(View())
    {
      mem, bss, byId, lastScan, scanSize := map[], [], [], [], 0;
      num, nextId, updateIdx, this.maxCount := 0, 0, 0, maxCount;
      current, connect, ownBssid, pendingBssid := None, None, ZERO_ADDR, ZERO_ADDR;
    }

    // ---- Lookups ----

    method Get(cfg: Config, k: Key) returns (r: Option<Ptr>)
      ensures r == BssModel.Get(cfg, View(), k)
    {
      if !cfg.accepts(k.bssid) {
        return None;
      }
      for i := 0 to |bss|
        invariant Search(View(), bss, k) == Search(View(), bss[i..], k)
      {
        if bss[i] in mem && KeyOf(mem[bss[i]]) == k {
          return Some(bss[i]);
        }
      }
      r := None;
    }

    /** The entry with the smallest id in the range, or None when no id is in it. */
    method GetIdRange(lo: nat, hi: nat) returns (r: Option<Ptr>)
      requires Inv(View()) && IdsIncrease(View())
      ensures r.None? <==> forall p | p in mem :: !(lo <= mem[p].id <= hi)
      ensures r.Some? ==> r.value in mem && lo <= mem[r.value].id <= hi
      ensures r.Some? ==> forall p | p in mem && lo <= mem[p].id <= hi :: mem[r.value].id <= mem[p].id
    {
      hide NoDup;
      for i := 0 to |byId|
        invariant forall x | 0 <= x < i :: byId[x] in mem && !(lo <= mem[byId[x]].id <= hi)
      {
        assert byId[i] in byId;
        if lo <= mem[byId[i]].id <= hi {
          r := Some(byId[i]);
          forall p | p in mem && lo <= mem[p].id <= hi
            ensures mem[byId[i]].id <= mem[p].id
          {
            assert p in byId;
            var x :| 0 <= x < |byId| && byId[x] == p;
          }
          return;
        }
      }
      r := None;
      forall p | p in mem
        ensures !(lo <= mem[p].id <= hi)
      {
        assert p in byId;
      }
    }

    /** The entry with that id, or None. */
    method GetId(id: nat) returns (r: Option<Ptr>)
      requires Inv(View())
      ensures r.None? <==> forall p | p in mem :: mem[p].id != id
      ensures r.Some? ==> r.value in mem && mem[r.value].id == id
    {
      for i := 0 to |bss|
        invariant forall x | 0 <= x < i :: bss[x] in mem && mem[bss[x]].id != id
      {
        assert bss[i] in bss;
        if mem[bss[i]].id == id {
          return Some(bss[i]);
        }
      }
      r := None;
      forall p | p in mem
        ensures mem[p].id != id
      {
        assert p in bss;
      }
    }

    /** Of the entries with that BSSID, one that no other was updated after. */
    method GetBssidLatest(cfg: Config, bssid: Addr) returns (r: Option<Ptr>)
      requires Inv(View()) && forall p | p in mem :: Normal(mem[p].lastUpdate)
      ensures r.None? <==> !cfg.accepts(bssid) || forall p | p in mem :: mem[p].bssid != bssid
      ensures r.Some? ==> r.value in mem && mem[r.value].bssid == bssid
      ensures r.Some? ==> forall p | p in mem && mem[p].bssid == bssid ::
                Micros(mem[p].lastUpdate) <= Micros(mem[r.value].lastUpdate)
    {
      r := None;
      if !cfg.accepts(bssid) {
        return;
      }
      var i := |bss|;
      while i > 0
        invariant 0 <= i <= |bss|
        invariant r.Some? ==> r.value in mem && mem[r.value].bssid == bssid
        invariant forall x | i <= x < |bss| :: bss[x] in mem
        invariant forall x | i <= x < |bss| && mem[bss[x]].bssid == bssid ::
                    r.Some? && Micros(mem[bss[x]].lastUpdate) <= Micros(mem[r.value].lastUpdate)
      {
        i := i - 1;
        assert bss[i] in bss;
        var e := mem[bss[i]];
        if e.bssid == bssid && (r.None? || Before(mem[r.value].lastUpdate, e.lastUpdate)) {
          r := Some(bss[i]);
        }
      }
      forall p | p in mem && mem[p].bssid == bssid
        ensures r.Some? && Micros(mem[p].lastUpdate) <= Micros(mem[r.value].lastUpdate)
      {
        assert p in bss;
        var x :| 0 <= x < |bss| && bss[x] == p;
      }
    }

    // ---- Removal and eviction ----

    method Remove(p: Ptr)
      requires Inv(View()) && p in mem
      modifies this
      ensures View() == Removed(old(View()), p) && Inv(View())
    {
      hide Inv, Without, KeysUnique, IdsIncrease;
      RemovedInv(View(), p);
      lastScan := Unlink(lastScan, p);
      if connect == Some(p) {
        connect := None;
      }
      bss := Unlink(bss, p);
      byId := Unlink(byId, p);
      num, mem := num - 1, mem - {p};
      assert View() == Removed(old(View()), p);
    }

    method RemoveOldestUnknown(cfg: Config) returns (ok: bool)
      requires Inv(View())
      modifies this
      ensures Inv(View())
      ensures
        var v := FirstEvictable(cfg, old(View()), old(bss));
        ok == v.Some? && View() == if ok then Removed(old(View()), v.value) else old(View())
    {
      for i := 0 to |bss|
        invariant View() == old(View())
        invariant FirstEvictable(cfg, View(), bss) == FirstEvictable(cfg, View(), bss[i..])
      {
        if bss[i] in mem && Evictable(cfg, mem[bss[i]]) {
          Remove(bss[i]);
          return true;
        }
      }
      ok := false;
    }

    method RemoveOldest(cfg: Config) returns (ok: bool)
      requires Inv(View())
      modifies this
      ensures Inv(View())
      ensures
        var v := Victim(cfg, old(View()));
        ok == v.Some? && View() == if ok then Removed(old(View()), v.value) else old(View())
    {
      ok := RemoveOldestUnknown(cfg);
      if ok {
        return;
      }
      for i := 0 to |bss|
        invariant View() == old(View())
        invariant FirstIdle(View(), bss) == FirstIdle(View(), bss[i..])
      {
        if bss[i] in mem && !InUse(View(), bss[i]) {
          Remove(bss[i]);
          return true;
        }
      }
    }

    // ---- Adding and updating ----

    method MakeRoom(cfg: Config)
      requires Inv(View())
      modifies this
      ensures View() == MadeRoom(cfg, old(View()))
    {
      hide Inv, Victim, Removed;
      if num + 1 > maxCount {
        var ok := RemoveOldest(cfg);
        if !ok {
          maxCount := num + 1;
        }
      }
    }

    method Add(cfg: Config, ssid: Octets, res: ScanRes, fetch: Time, alloc: Ptr)
      requires Inv(View()) && alloc !in mem
      modifies this
      ensures View() == Added(cfg, old(View()), ssid, res, fetch, alloc)
    {
      hide Inv, KeysUnique, IdsIncrease, MadeRoom, Linked;
      NextIdIsNoStructure(View(), (nextId + 1) % WRAP);
      MadeRoomOnlyRemoves(cfg, View().(nextId := (nextId + 1) % WRAP));
      var time := CalculateUpdateTime(fetch, res.age);
      var e := Entry(nextId, 0, updateIdx, res.bssid, ssid, res.radio, time, res.ies);
      nextId := (nextId + 1) % WRAP;
      MakeRoom(cfg);
      Link(alloc, e);
    }

    method Link(p: Ptr, e: Entry)
      modifies this
      ensures View() == Linked(old(View()), p, e)
    {
      mem := mem[p := e];
      bss := bss + [p];
      byId := byId + [p];
      num := num + 1;
    }

    method Update(p: Ptr, res: ScanRes, fetch: Time, realloc: Realloc) returns (q: Ptr)
      requires Inv(View()) && p in mem && (realloc.Moved? ==> realloc.to !in mem)
      modifies this
      ensures View() == Updated(old(View()), p, res, fetch, realloc)
      ensures q == HomeAfter(old(View()), p, res, fetch, realloc)
    {
      hide Inv, Without, Replaced, Refreshed, NewIes, NewHome;
      var e := mem[p];
      if e.updateIdx == updateIdx {
        var time := CalculateUpdateTime(fetch, res.age);
        if Associated(e.radio) || (!Associated(res.radio) && !Before(e.lastUpdate, time)) {
          return p;
        }
      }
      q := Refresh(p, res, fetch, realloc);
    }

    /** Takes the result over into the entry and moves it to the end of the list. */
    method Refresh(p: Ptr, res: ScanRes, fetch: Time, realloc: Realloc) returns (q: Ptr)
      requires p in mem && (realloc.Moved? ==> realloc.to !in mem)
      modifies this`mem, this`bss, this`byId, this`lastScan, this`current, this`connect
      ensures q == NewHome(old(mem[p]), p, res, realloc)
      ensures mem == (old(mem) - {p})
                     [q := Refreshed(old(View()), old(mem[p]), res, fetch).(ies := NewIes(old(mem[p]), res, realloc))]
      ensures bss == Without(old(bss), p) + [q]
      ensures byId == Replaced(old(byId), p, q) && lastScan == Replaced(old(lastScan), p, q)
      ensures current == Redirected(old(current), p, q) && connect == Redirected(old(connect), p, q)
    {
      hide Without, Replaced;
      q := p;
      var time := CalculateUpdateTime(fetch, res.age);
      var e := mem[p].(missCount := 0, updateIdx := updateIdx, radio := res.radio, bssid := res.bssid,
                       lastUpdate := time);
      bss := Unlink(bss, p);
      if e.ies.hasP2p && !res.ies.hasP2p {
        mem := mem[p := e];
      } else if Size(e.ies) >= Size(res.ies) {
        mem := mem[p := e.(ies := res.ies)];
      } else {
        q := Grow(p, e, res.ies, realloc);
      }
      bss := bss + [q];
      ReplacedBySelf(old(byId), p);
      ReplacedBySelf(old(lastScan), p);
    }

    /** Reallocation: a moved entry is put back at its place in the id list and every pointer to it is redirected. */
    method Grow(p: Ptr, e: Entry, ies: Ies, realloc: Realloc) returns (q: Ptr)
      requires p in mem && (realloc.Moved? ==> realloc.to !in mem)
      modifies this`mem, this`byId, this`lastScan, this`current, this`connect
      ensures q == if realloc.Moved? then realloc.to else p
      ensures mem == (old(mem) - {p})[q := if realloc.Failed? then e else e.(ies := ies)]
      ensures byId == Replaced(old(byId), p, q) && lastScan == Replaced(old(lastScan), p, q)
      ensures current == Redirected(old(current), p, q) && connect == Redirected(old(connect), p, q)
    {
      q := p;
      var prev := FindIndex(byId, p);
      if realloc.Failed? {
        mem := mem[p := e];
      } else {
        if realloc.Moved? {
          q := realloc.to;
        }
        var i := FindIndex(lastScan, p);
        if i < |lastScan| {
          lastScan := lastScan[i := q];
        }
        if current == Some(p) {
          current := Some(q);
        }
        if connect == Some(p) {
          connect := Some(q);
        }
        mem := (mem - {p})[q := e.(ies := ies)];
      }
      if prev < |byId| {
        byId := byId[..prev] + [q] + byId[prev + 1..];
      }
      ReplacedBySelf(old(lastScan), p);
    }

    // ---- Rounds ----

    method UpdateStart()
      modifies this
      ensures View() == Started(old(View())) && (old(Inv(View())) ==> Inv(View()))
    {
      StartedInv(View());
      updateIdx := (updateIdx + 1) % WRAP;
      lastScan := [];
    }

    method List(p: Ptr)
      modifies this
      ensures View() == Listed(old(View()), p)
    {
      if |lastScan| >= scanSize {
        if scanSize == 0 {
          scanSize := 32;
        } else {
          scanSize := scanSize * 2;
        }
      }
      lastScan := lastScan + [p];
    }

    method UpdateScanRes(cfg: Config, res: ScanRes, fetch: Time, alloc: Ptr, realloc: Realloc)
      requires Inv(View()) && alloc !in mem && (realloc.Moved? ==> realloc.to !in mem)
      modifies this
      ensures View() == AfterScanRes(cfg, old(View()), res, fetch, alloc, realloc) && Inv(View())
    {
      hide Inv, StoredSsid, Added, Updated, Listed, HomeAfter;
      ScanResInv(cfg, View(), res, fetch, alloc, realloc);
      var ssid := StoredSsid(cfg, res, fetch);
      if ssid.None? {
        return;
      }
      var p := Get(cfg, Key(res.bssid, ssid.value));
      if p.None? {
        Add(cfg, ssid.value, res, fetch, alloc);
        List(alloc);
      } else {
        GetIs(cfg, View(), Key(res.bssid, ssid.value));
        var q := Update(p.value, res, fetch, realloc);
        if q !in lastScan {
          List(q);
        }
      }
    }

    method UpdateEnd(cfg: Config, info: Option<ScanInfo>, newScan: bool)
      requires Inv(View())
      modifies this
      ensures View() == Ended(cfg, old(View()), info, newScan) && Inv(View())
    {
      if (info.Some? && info.value.aborted) || !newScan {
        return;
      }
      var todo := bss;
      for i := 0 to |todo|
        invariant Inv(View())
        invariant Expired(cfg, info, old(View()), todo) == Expired(cfg, info, View(), todo[i..])
      {
        assert todo[i..][0] == todo[i] && todo[i..][1..] == todo[i + 1..];
        ExpireOne(cfg, info, todo[i]);
      }
    }

    method ExpireOne(cfg: Config, info: Option<ScanInfo>, p: Ptr)
      requires Inv(View())
      modifies this
      ensures Inv(View()) && View() == ExpiredOne(cfg, info, old(View()), p)
    {
      hide Inv, InUse, Included, Removed;
      ExpiredOneInv(cfg, info, View(), p);
      if p !in mem || InUse(View(), p) || !Included(mem[p], info) {
        return;
      }
      ExpiredOneIs(cfg, info, View(), p);
      ghost var t := View();
      var misses := mem[p].missCount;
      if mem[p].updateIdx < updateIdx {
        misses := misses + 1;
      }
      MissCountIsNoStructure(t, p, misses);
      mem := mem[p := mem[p].(missCount := misses)];
      assert View() == WithMisses(t, p, misses);
      if mem[p].missCount >= cfg.expiration {
        Remove(p);
      }
    }

    method FlushByAge(now: Time, age: int)
      requires Inv(View())
      modifies this
      ensures View() == FlushedByAge(old(View()), now, age) && Inv(View())
    {
      hide Inv, InUse, Removed, Before;
      if bss == [] {
        return;
      }
      var limit := now.(sec := now.sec - age);
      var todo := bss;
      for i := 0 to |todo|
        invariant Inv(View())
        invariant FlushedOld(old(View()), limit, todo) == FlushedOld(View(), limit, todo[i..])
      {
        assert todo[i..][0] == todo[i] && todo[i..][1..] == todo[i + 1..];
        if todo[i] in mem && !InUse(View(), todo[i]) {
          if Before(mem[todo[i]].lastUpdate, limit) {
            Remove(todo[i]);
          } else {
            return;
          }
        }
      }
    }

    method Flush()
      requires Inv(View())
      modifies this
      ensures View() == Flushed(old(View()), old(bss)) && Inv(View())
    {
      hide Inv, InUse, Removed;
      var todo := bss;
      for i := 0 to |todo|
        invariant Inv(View())
        invariant Flushed(old(View()), todo) == Flushed(View(), todo[i..])
      {
        assert todo[i..][0] == todo[i] && todo[i..][1..] == todo[i + 1..];
        if todo[i] in mem && !InUse(View(), todo[i]) {
          Remove(todo[i]);
        }
      }
    }
  }

  lemma ReplacedBySelf(s: seq<Ptr>, p: Ptr)
    ensures Replaced(s, p, p) == s
  {
  }
}
