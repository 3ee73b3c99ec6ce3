/**
 What the BSS table remembers of a run: the list is in the order in which its entries were last
 written, each entry holds the result that last wrote it, and miss counts count missed scans.
 */
module BssHistory {
  import opened Bytes
  import opened BssTime
  import opened BssModel
  import opened BssInvariant

  // ---- Order of the list ----

  ghost predicate Precedes(s: seq<Ptr>, a: Ptr, b: Ptr) {
    exists i, j :: 0 <= i < j < |s| && s[i] == a && s[j] == b
  }

  ghost predicate KeepsOrder(s: seq<Ptr>, r: seq<Ptr>) {
    forall a, b | Precedes(r, a, b) :: Precedes(s, a, b)
  }

  lemma WithoutOrder(s: seq<Ptr>, p: Ptr)
    ensures KeepsOrder(s, Without(s, p))
  {
    forall a, b | Precedes(Without(s, p), a, b)
      ensures Precedes(s, a, b)
    {
      hide Without;
      var i, j :| 0 <= i < j < |Without(s, p)| && Without(s, p)[i] == a && Without(s, p)[j] == b;
      var i', j' := WithoutKeepsOrder(s, p, i, j);
    }
  }

  lemma AppendedOrder(s: seq<Ptr>, q: Ptr, a: Ptr, b: Ptr)
    requires q !in s && Precedes(s + [q], a, b)
    ensures a != q && (b == q || Precedes(s, a, b))
  {
    var i, j :| 0 <= i < j < |s + [q]| && (s + [q])[i] == a && (s + [q])[j] == b;
    assert s[i] == a;
  }

  // ---- Operations that only take entries away ----

  /** The rest of the table is as it was: no entry changed, order and counters kept. */
  ghost predicate OnlyRemoves(t: Table, u: Table) {
    && (forall p | p in u.mem :: p in t.mem && u.mem[p] == t.mem[p])
    && KeepsOrder(t.bss, u.bss)
    && u.updateIdx == t.updateIdx && u.num <= t.num
    && u.current == t.current && u.ownBssid == t.ownBssid && u.pendingBssid == t.pendingBssid
  }

  lemma RemovedOnly(t: Table, p: Ptr)
    ensures OnlyRemoves(t, Removed(t, p)) && Removed(t, p).maxCount == t.maxCount
  {
    hide Without;
    WithoutOrder(t.bss, p);
  }

  lemma OnlyRemovesTrans(t: Table, u: Table, v: Table)
    requires OnlyRemoves(t, u) && OnlyRemoves(u, v)
    ensures OnlyRemoves(t, v)
  {
    hide Precedes;
  }

  /** The current BSS is in use, so taking away an idle entry leaves every other as much in use as before. */
  lemma RemovingIdleKeepsInUse(t: Table, p: Ptr, q: Ptr)
    requires p in t.mem && q in t.mem && p != q && !InUse(t, p)
    ensures InUse(Removed(t, p), q) == InUse(t, q)
  {
  }

  // ---- Flushing by age ----

  ghost predicate Idle(t: Table, p: Ptr) {
    p in t.mem && !InUse(t, p)
  }

  ghost predicate Stale(t: Table, limit: Time, p: Ptr) {
    p in t.mem && Before(t.mem[p].lastUpdate, limit)
  }

  /** Idle and stale, with no idle entry before it that is not stale. */
  ghost predicate Swept(t: Table, limit: Time, s: seq<Ptr>, p: Ptr) {
    Idle(t, p) && Stale(t, limit, p) &&
    exists k :: 0 <= k < |s| && s[k] == p && forall i | 0 <= i < k :: Idle(t, s[i]) ==> Stale(t, limit, s[i])
  }

  lemma {:induction false} FlushedOldOnly(t: Table, limit: Time, todo: seq<Ptr>)
    ensures OnlyRemoves(t, FlushedOld(t, limit, todo)) && FlushedOld(t, limit, todo).maxCount == t.maxCount
    decreases |todo|
  {
    hide Removed, InUse, Before;
    if |todo| > 0 {
      FlushedOldOnly(t, limit, todo[1..]);
      RemovedOnly(t, todo[0]);
      FlushedOldOnly(Removed(t, todo[0]), limit, todo[1..]);
      OnlyRemovesTrans(t, Removed(t, todo[0]), FlushedOld(Removed(t, todo[0]), limit, todo[1..]));
    }
  }

  lemma SweptTail(t: Table, limit: Time, s: seq<Ptr>, p: Ptr)
    requires |s| > 0 && s[0] != p && (Idle(t, s[0]) ==> Stale(t, limit, s[0]))
    ensures Swept(t, limit, s, p) <==> Swept(t, limit, s[1..], p)
  {
    hide Idle, Stale;
    if Idle(t, p) && Stale(t, limit, p) {
      if Swept(t, limit, s[1..], p) {
        var k :| 0 <= k < |s[1..]| && s[1..][k] == p
                 && forall i | 0 <= i < k :: Idle(t, s[1..][i]) ==> Stale(t, limit, s[1..][i]);
        forall i | 0 <= i < k + 1
          ensures Idle(t, s[i]) ==> Stale(t, limit, s[i])
        {
          assert i > 0 ==> s[i] == s[1..][i - 1];
        }
        assert s[k + 1] == p;
      }
      if Swept(t, limit, s, p) {
        var k :| 0 <= k < |s| && s[k] == p && forall i | 0 <= i < k :: Idle(t, s[i]) ==> Stale(t, limit, s[i]);
        assert s[1..][k - 1] == p;
      }
    }
  }

  /** Taking an idle entry away changes nothing for the others. */
  lemma SweptAfterRemoval(t: Table, limit: Time, h: Ptr, s: seq<Ptr>, p: Ptr)
    requires Idle(t, h) && h !in s && h != p && (forall q | q in s :: q in t.mem) && p in t.mem
    ensures Swept(Removed(t, h), limit, s, p) <==> Swept(t, limit, s, p)
  {
    hide InUse, Before;
    forall q | q in t.mem && q != h
      ensures Idle(Removed(t, h), q) == Idle(t, q) && Stale(Removed(t, h), limit, q) == Stale(t, limit, q)
    {
      RemovingIdleKeepsInUse(t, h, q);
    }
    hide Idle, Stale, Removed;
    assert forall i | 0 <= i < |s| :: s[i] in s;
  }

  lemma {:induction false} FlushedOldSweeps(t: Table, limit: Time, todo: seq<Ptr>, p: Ptr)
    requires NoDup(todo) && (forall q | q in todo :: q in t.mem) && p in t.mem
    ensures p in FlushedOld(t, limit, todo).mem <==> !Swept(t, limit, todo, p)
    decreases |todo|
  {
    hide InUse, Before, Removed;
    if |todo| > 0 {
      var h, tl := todo[0], todo[1..];
      assert h in todo && h !in tl;
      assert forall q | q in tl :: q in todo;
      var r := Removed(t, h);
      if InUse(t, h) {
        FlushedOldSweeps(t, limit, tl, p);
        if p != h {
          SweptTail(t, limit, todo, p);
        }
      } else if Before(t.mem[h].lastUpdate, limit) {
        RemovedMem(t, h);
        FlushedOldOnly(r, limit, tl);
        if p != h {
          FlushedOldSweeps(r, limit, tl, p);
          SweptAfterRemoval(t, limit, h, tl, p);
          SweptTail(t, limit, todo, p);
        }
      }
    }
  }

  lemma RemovedMem(t: Table, p: Ptr)
    ensures forall q :: q in Removed(t, p).mem <==> q in t.mem && q != p
  {
  }

  /** Every idle entry in front of a stale idle one is stale too. */
  ghost predicate StaleFirst(t: Table, limit: Time) {
    forall i, j | 0 <= i < j < |t.bss| && Idle(t, t.bss[i]) && Idle(t, t.bss[j]) && Stale(t, limit, t.bss[j]) ::
      Stale(t, limit, t.bss[i])
  }

  /** What a sweep over the whole table would leave. */
  ghost predicate IsFullSweep(t: Table, limit: Time, u: Table) {
    forall p :: p in u.mem <==> p in t.mem && !(Idle(t, p) && Stale(t, limit, p))
  }

  /** Stopping at the first fresh idle entry loses nothing exactly when the stale ones come first. */
  lemma FlushByAgeExact(t: Table, now: Time, age: int)
    requires Inv(t)
    ensures
      var limit := now.(sec := now.sec - age);
      IsFullSweep(t, limit, FlushedByAge(t, now, age)) <==> StaleFirst(t, limit)
  {
    hide Idle, Stale, FlushedOld, OnlyRemoves;
    var limit := now.(sec := now.sec - age);
    var u := FlushedByAge(t, now, age);
    FlushedOldOnly(t, limit, t.bss);
    OnlyRemovesMem(t, u);
    forall p | p in t.mem
      ensures p in u.mem <==> !Swept(t, limit, t.bss, p)
    {
      FlushedOldSweeps(t, limit, t.bss, p);
    }
    if StaleFirst(t, limit) {
      forall p | p in t.mem && Idle(t, p) && Stale(t, limit, p)
        ensures Swept(t, limit, t.bss, p)
      {
        var k :| 0 <= k < |t.bss| && t.bss[k] == p;
      }
    }
    if IsFullSweep(t, limit, u) {
      forall i, j | 0 <= i < j < |t.bss| && Idle(t, t.bss[i]) && Idle(t, t.bss[j]) && Stale(t, limit, t.bss[j])
        ensures Stale(t, limit, t.bss[i])
      {
        assert t.bss[j] in t.bss;
        assert Swept(t, limit, t.bss, t.bss[j]);
      }
    }
  }

  lemma OnlyRemovesMem(t: Table, u: Table)
    requires OnlyRemoves(t, u)
    ensures forall p | p in u.mem :: p in t.mem && u.mem[p] == t.mem[p]
  {
  }

  /** The list is sorted by the time of the last update. */
  ghost predicate SortedByUpdate(t: Table) {
    forall i, j | 0 <= i < j < |t.bss| && t.bss[i] in t.mem && t.bss[j] in t.mem ::
      Micros(t.mem[t.bss[i]].lastUpdate) <= Micros(t.mem[t.bss[j]].lastUpdate)
  }

  ghost predicate NormalTimes(t: Table) {
    forall p | p in t.mem :: Normal(t.mem[p].lastUpdate)
  }

  /** On a sorted table, flushing by age is the full sweep. */
  lemma SortedFlushIsFull(t: Table, now: Time, age: int)
    requires Inv(t) && SortedByUpdate(t) && NormalTimes(t) && Normal(now)
    ensures IsFullSweep(t, now.(sec := now.sec - age), FlushedByAge(t, now, age))
  {
    hide FlushedByAge, InUse, IsFullSweep, Micros, Before;
    var limit := now.(sec := now.sec - age);
    assert StaleFirst(t, limit) by {
      forall i, j | 0 <= i < j < |t.bss| && Idle(t, t.bss[i]) && Idle(t, t.bss[j]) && Stale(t, limit, t.bss[j])
        ensures Stale(t, limit, t.bss[i])
      {
        BeforeIsNumeric(t.mem[t.bss[i]].lastUpdate, limit);
        BeforeIsNumeric(t.mem[t.bss[j]].lastUpdate, limit);
      }
    }
    FlushByAgeExact(t, now, age);
  }

  // ---- Who was written last ----

  /** Address of the entry that an operation adds or refreshes. */
  function Touched(t: Table, op: Op): Option<Ptr> {
    if !op.Result? then None
    else
      var ssid := StoredSsid(op.cfg, op.res, op.fetch);
      if ssid.None? then None
      else
        var p := Get(op.cfg, t, Key(op.res.bssid, ssid.value));
        if p.None? then Some(op.alloc)
        else if p.value !in t.mem || Ignored(t, t.mem[p.value], op.res, op.fetch) then None
        else Some(NewHome(t.mem[p.value], p.value, op.res, op.realloc))
  }

  /** Key under which an operation stores a scan result, if it stores one. */
  function SightedKey(op: Op): Option<Key> {
    if !op.Result? then None
    else
      var ssid := StoredSsid(op.cfg, op.res, op.fetch);
      if ssid.None? then None else Some(Key(op.res.bssid, ssid.value))
  }

  /**
   Information elements of an entry once it is written: those of the result, unless the old ones
   have P2P and the new ones do not, or the new ones are longer and there is no memory for them.
   */
  ghost function ElementsTold(t: Table, op: Op): Ies
    requires op.Result? && SightedKey(op).Some?
  {
    var p, told := Get(op.cfg, t, SightedKey(op).value), op.res.ies;
    if p.None? || p.value !in t.mem then told
    else
      var was := t.mem[p.value].ies;
      if was.hasP2p && !told.hasP2p then was
      else if |told.ie| + |told.beaconIe| > |was.ie| + |was.beaconIe| && op.realloc.Failed? then was
      else told
  }

  /** The entry holds what the result said, and counts as seen in this round. */
  ghost predicate Holds(t: Table, e: Entry, op: Op)
    requires op.Result?
  {
    && SightedKey(op) == Some(KeyOf(e))
    && e.radio == op.res.radio && e.lastUpdate == UpdateTime(op.fetch, op.res.age)
    && e.updateIdx == t.updateIdx && e.missCount == 0
    && e.ies == ElementsTold(t, op)
  }

  /** The written entry is last, the others are in the order they were in. */
  ghost predicate OrderAfter(s: seq<Ptr>, r: seq<Ptr>, w: Option<Ptr>) {
    forall a: Ptr, b: Ptr | Precedes(r, a, b) :: w != Some(a) && (w == Some(b) || Precedes(s, a, b))
  }

  /** One operation other than the end of a round: only the touched entry is new. */
  ghost predicate Writes(t: Table, op: Op, w: Option<Ptr>, u: Table) {
    && (w.Some? ==> op.Result? && w.value in u.mem && Holds(t, u.mem[w.value], op))
    && (forall p | p in u.mem :: w == Some(p) || (p in t.mem && u.mem[p] == t.mem[p]))
    && OrderAfter(t.bss, u.bss, w)
    && (op.Start? || u.updateIdx == t.updateIdx)
  }

  lemma MadeRoomOnly(cfg: Config, t: Table)
    ensures OnlyRemoves(t, MadeRoom(cfg, t))
  {
    hide Victim, Removed, KeepsOrder;
    KeepsItself(t);
    if Victim(cfg, t).Some? {
      RemovedOnly(t, Victim(cfg, t).value);
    } else {
      KeepsItself(t.(maxCount := t.num + 1));
    }
  }

  lemma KeepsItself(t: Table)
    ensures KeepsOrder(t.bss, t.bss)
  {
  }

  lemma AppendedOrderAfter(s: seq<Ptr>, r: seq<Ptr>, q: Ptr)
    requires KeepsOrder(s, r) && q !in r
    ensures OrderAfter(s, r + [q], Some(q))
  {
    hide Precedes;
    forall a: Ptr, b: Ptr | Precedes(r + [q], a, b)
      ensures a != q && (b == q || Precedes(s, a, b))
    {
      AppendedOrder(r, q, a, b);
    }
  }

  lemma AddedWrites(t: Table, op: Op, ssid: Octets)
    requires Inv(t) && op.Result? && op.alloc !in t.mem && StoredSsid(op.cfg, op.res, op.fetch) == Some(ssid)
    requires Get(op.cfg, t, Key(op.res.bssid, ssid)).None?
    ensures Writes(t, op, Some(op.alloc), Added(op.cfg, t, ssid, op.res, op.fetch, op.alloc))
  {
    hide MadeRoom, KeepsOrder, OrderAfter, Inv, StoredSsid, Get;
    var t1 := t.(nextId := (t.nextId + 1) % WRAP);
    NextIdIsNoStructure(t, t1.nextId);
    MadeRoomOnly(op.cfg, t1);
    MadeRoomInv(op.cfg, t1);
    NothingDangles(MadeRoom(op.cfg, t1), op.alloc);
    AppendedOrderAfter(t.bss, MadeRoom(op.cfg, t1).bss, op.alloc);
  }

  lemma UpdatedWrites(t: Table, op: Op, p: Ptr)
    requires Inv(t) && op.Result? && OpOk(t, op) && p in t.mem && !Ignored(t, t.mem[p], op.res, op.fetch)
    requires SightedKey(op) == Some(KeyOf(t.mem[p])) && Get(op.cfg, t, SightedKey(op).value) == Some(p)
    ensures Writes(t, op, Some(NewHome(t.mem[p], p, op.res, op.realloc)), Updated(t, p, op.res, op.fetch, op.realloc))
  {
    hide OrderAfter, KeepsOrder, Without, Replaced, Ignored, StoredSsid, Get;
    var q := NewHome(t.mem[p], p, op.res, op.realloc);
    WithoutFacts(t.bss, p);
    WithoutOrder(t.bss, p);
    AppendedOrderAfter(t.bss, Without(t.bss, p), q);
  }

  lemma SameWrites(t: Table, op: Op, u: Table)
    requires u.mem == t.mem && u.bss == t.bss && (op.Start? || u.updateIdx == t.updateIdx)
    ensures Writes(t, op, None, u)
  {
  }

  lemma RemovesWrites(t: Table, op: Op, u: Table)
    requires OnlyRemoves(t, u)
    ensures Writes(t, op, None, u)
  {
  }

  lemma ListedWrites(t: Table, op: Op, w: Option<Ptr>, u: Table, q: Ptr)
    requires Writes(t, op, w, u)
    ensures Writes(t, op, w, Listed(u, q))
  {
  }

  lemma ResultWrites(t: Table, op: Op)
    requires Inv(t) && OpOk(t, op) && op.Result?
    ensures Writes(t, op, Touched(t, op), Step(t, op))
  {
    hide Inv, StoredSsid, Get, Added, Updated, Listed, Writes, Ignored, NewHome;
    var ssid := StoredSsid(op.cfg, op.res, op.fetch);
    SameWrites(t, op, t);
    if ssid.Some? {
      var k := Key(op.res.bssid, ssid.value);
      var p := Get(op.cfg, t, k);
      GetIs(op.cfg, t, k);
      if p.None? {
        AddedWrites(t, op, ssid.value);
        ListedWrites(t, op, Some(op.alloc), Added(op.cfg, t, ssid.value, op.res, op.fetch, op.alloc), op.alloc);
      } else if Ignored(t, t.mem[p.value], op.res, op.fetch) {
        IgnoredIsSame(t, p.value, op);
        ListedWrites(t, op, None, t, p.value);
      } else {
        UpdatedWrites(t, op, p.value);
        var q := NewHome(t.mem[p.value], p.value, op.res, op.realloc);
        ListedWrites(t, op, Some(q), Updated(t, p.value, op.res, op.fetch, op.realloc), q);
      }
    }
  }

  lemma IgnoredIsSame(t: Table, p: Ptr, op: Op)
    requires op.Result? && p in t.mem && Ignored(t, t.mem[p], op.res, op.fetch)
    ensures Updated(t, p, op.res, op.fetch, op.realloc) == t && HomeAfter(t, p, op.res, op.fetch, op.realloc) == p
  {
    hide Ignored;
  }

  lemma {:induction false} FlushedOnly(t: Table, todo: seq<Ptr>)
    ensures OnlyRemoves(t, Flushed(t, todo)) && Flushed(t, todo).maxCount == t.maxCount
    decreases |todo|
  {
    hide Removed, InUse;
    if |todo| > 0 {
      FlushedOnly(t, todo[1..]);
      RemovedOnly(t, todo[0]);
      FlushedOnly(Removed(t, todo[0]), todo[1..]);
      OnlyRemovesTrans(t, Removed(t, todo[0]), Flushed(Removed(t, todo[0]), todo[1..]));
    }
  }

  lemma StepWrites(t: Table, op: Op)
    requires Inv(t) && OpOk(t, op) && !op.End?
    ensures Writes(t, op, Touched(t, op), Step(t, op))
  {
    hide Inv, Writes, FlushedOld, Flushed, Removed, Get, AfterScanRes;
    match op
    case Result(_, _, _, _, _) => ResultWrites(t, op);
    case FlushByAge(now, age) =>
      FlushedOldOnly(t, now.(sec := now.sec - age), t.bss);
      RemovesWrites(t, op, Step(t, op));
    case FlushAll =>
      FlushedOnly(t, t.bss);
      RemovesWrites(t, op, Step(t, op));
    case Remove(p) =>
      RemovedOnly(t, p);
      RemovesWrites(t, op, Step(t, op));
    case Connect(_, _, _, _) => SameWrites(t, op, Step(t, op));
    case Start => SameWrites(t, op, Step(t, op));
    case End(_, _, _) =>
  }

  // ---- The end of a round ----

  /** The scan covered the idle entry, so it may count a miss or expire. */
  ghost predicate Considered(t: Table, info: Option<ScanInfo>, p: Ptr) {
    Idle(t, p) && Included(t.mem[p], info)
  }

  ghost predicate MissedBy(t: Table, info: Option<ScanInfo>, p: Ptr) {
    Considered(t, info, p) && t.mem[p].updateIdx < t.updateIdx
  }

  ghost function MissesAfter(t: Table, info: Option<ScanInfo>, p: Ptr): nat
    requires p in t.mem
  {
    t.mem[p].missCount + (if MissedBy(t, info, p) then 1 else 0)
  }

  ghost predicate Expires(cfg: Config, t: Table, info: Option<ScanInfo>, p: Ptr)
    requires p in t.mem
  {
    Considered(t, info, p) && MissesAfter(t, info, p) >= cfg.expiration
  }

  /** The entry is gone if its time is up, and otherwise differs in its miss count only. */
  ghost predicate Aged(cfg: Config, t: Table, info: Option<ScanInfo>, u: Table, p: Ptr)
    requires p in t.mem
  {
    && (p in u.mem <==> !Expires(cfg, t, info, p))
    && (p in u.mem ==> u.mem[p] == t.mem[p].(missCount := MissesAfter(t, info, p)))
  }

  /** Entry q, and whether it is in use, are the same in both tables. */
  ghost predicate SameFor(t: Table, u: Table, q: Ptr)
    requires q in t.mem
  {
    q in u.mem && u.mem[q] == t.mem[q] && InUse(u, q) == InUse(t, q) && u.updateIdx == t.updateIdx
  }

  lemma WithMissesSame(t: Table, p: Ptr, misses: nat, q: Ptr)
    requires p in t.mem && q in t.mem
    ensures InUse(WithMisses(t, p, misses), q) == InUse(t, q)
    ensures p != q ==> SameFor(t, WithMisses(t, p, misses), q)
  {
  }

  lemma ExpiredOneOthers(cfg: Config, info: Option<ScanInfo>, t: Table, p: Ptr, q: Ptr)
    requires p in t.mem && q in t.mem && p != q
    ensures SameFor(t, ExpiredOne(cfg, info, t, p), q)
  {
    hide InUse, Included, ExpiredOne, Removed;
    if InUse(t, p) || !Included(t.mem[p], info) {
      ExpiredOneSkips(cfg, info, t, p);
    } else {
      var m := t.mem[p].missCount + (if t.mem[p].updateIdx < t.updateIdx then 1 else 0);
      ExpiredOneIs(cfg, info, t, p);
      WithMissesSame(t, p, m, q);
      WithMissesSame(t, p, m, p);
      RemovingIdleKeepsInUse(WithMisses(t, p, m), p, q);
      RemovedOnly(WithMisses(t, p, m), p);
      RemovedMem(WithMisses(t, p, m), p);
    }
  }

  lemma ExpiredOneSkips(cfg: Config, info: Option<ScanInfo>, t: Table, p: Ptr)
    requires p !in t.mem || InUse(t, p) || !Included(t.mem[p], info)
    ensures ExpiredOne(cfg, info, t, p) == t
  {
  }

  lemma ExpiredOneAges(cfg: Config, info: Option<ScanInfo>, t: Table, p: Ptr)
    requires p in t.mem
    ensures Aged(cfg, t, info, ExpiredOne(cfg, info, t, p), p)
  {
    hide InUse, Included, ExpiredOne, Removed;
    if InUse(t, p) || !Included(t.mem[p], info) {
      ExpiredOneSkips(cfg, info, t, p);
    } else {
      var m := t.mem[p].missCount + (if t.mem[p].updateIdx < t.updateIdx then 1 else 0);
      ExpiredOneIs(cfg, info, t, p);
      RemovedMem(WithMisses(t, p, m), p);
    }
  }

  lemma {:induction false} ExpiredElsewhere(cfg: Config, info: Option<ScanInfo>, t: Table, todo: seq<Ptr>, p: Ptr)
    requires p !in todo
    ensures p in Expired(cfg, info, t, todo).mem <==> p in t.mem
    ensures p in t.mem ==> Expired(cfg, info, t, todo).mem[p] == t.mem[p]
    decreases |todo|
  {
    hide ExpiredOne, InUse;
    if |todo| > 0 {
      var h := todo[0];
      assert h in todo;
      OneMemFrame(cfg, info, t, h, p);
      ExpiredElsewhere(cfg, info, ExpiredOne(cfg, info, t, h), todo[1..], p);
    }
  }

  lemma OneMemFrame(cfg: Config, info: Option<ScanInfo>, t: Table, h: Ptr, p: Ptr)
    requires h != p
    ensures p in ExpiredOne(cfg, info, t, h).mem <==> p in t.mem
    ensures p in t.mem ==> ExpiredOne(cfg, info, t, h).mem[p] == t.mem[p]
  {
    hide InUse, Included, Without;
  }

  lemma AgedFor(cfg: Config, info: Option<ScanInfo>, t: Table, t': Table, u: Table, p: Ptr)
    requires p in t.mem && SameFor(t, t', p) && Aged(cfg, t', info, u, p)
    ensures Aged(cfg, t, info, u, p)
  {
    hide InUse, Included;
  }

  /** At the end of a round every entry ages by the table as it was when the round ended. */
  lemma {:induction false} ExpiredAges(cfg: Config, info: Option<ScanInfo>, t: Table, todo: seq<Ptr>, p: Ptr)
    requires NoDup(todo) && (forall q | q in todo :: q in t.mem) && p in todo
    ensures Aged(cfg, t, info, Expired(cfg, info, t, todo), p)
    decreases |todo|
  {
    hide ExpiredOne, InUse, Included, Expires, MissesAfter;
    var h, tl := todo[0], todo[1..];
    assert h in todo && h !in tl;
    assert forall q | q in tl :: q in todo;
    var t' := ExpiredOne(cfg, info, t, h);
    if p == h {
      ExpiredOneAges(cfg, info, t, h);
      ExpiredElsewhere(cfg, info, t', tl, h);
    } else {
      forall q | q in tl
        ensures q in t'.mem
      {
        OneMemFrame(cfg, info, t, h, q);
      }
      ExpiredAges(cfg, info, t', tl, p);
      ExpiredOneOthers(cfg, info, t, h, p);
      AgedFor(cfg, info, t, t', Expired(cfg, info, t', tl), p);
    }
  }

  /** Nothing else about the table changes: no entry appears, the order stays. */
  ghost predicate AgesOnly(t: Table, u: Table) {
    && (forall p | p in u.mem :: p in t.mem)
    && KeepsOrder(t.bss, u.bss)
    && u.updateIdx == t.updateIdx && u.num <= t.num && u.maxCount == t.maxCount && u.current == t.current
  }

  lemma ExpiredOneOnly(cfg: Config, info: Option<ScanInfo>, t: Table, p: Ptr)
    ensures AgesOnly(t, ExpiredOne(cfg, info, t, p))
  {
    hide InUse, Included, Without, KeepsOrder;
    KeepsItself(t);
    WithoutOrder(t.bss, p);
  }

  lemma AgesOnlyTrans(t: Table, u: Table, v: Table)
    requires AgesOnly(t, u) && AgesOnly(u, v)
    ensures AgesOnly(t, v)
  {
    hide Precedes;
  }

  lemma {:induction false} ExpiredOnly(cfg: Config, info: Option<ScanInfo>, t: Table, todo: seq<Ptr>)
    ensures AgesOnly(t, Expired(cfg, info, t, todo))
    decreases |todo|
  {
    hide ExpiredOne;
    KeepsItself(t);
    if |todo| > 0 {
      var t' := ExpiredOne(cfg, info, t, todo[0]);
      ExpiredOneOnly(cfg, info, t, todo[0]);
      ExpiredOnly(cfg, info, t', todo[1..]);
      AgesOnlyTrans(t, t', Expired(cfg, info, t', todo[1..]));
    }
  }

  /** The round ends with a new scan that was not aborted. */
  predicate Completes(op: Op) {
    op.End? && op.newScan && !(op.info.Some? && op.info.value.aborted)
  }

  lemma EndAges(t: Table, op: Op, p: Ptr)
    requires Inv(t) && p in t.mem && op.End?
    ensures
      if Completes(op) then Aged(op.cfg, t, op.info, Step(t, op), p) else Step(t, op) == t
  {
    hide Expired, Aged;
    if Completes(op) {
      ExpiredAges(op.cfg, op.info, t, t.bss, p);
    }
  }

  lemma EndOnly(t: Table, op: Op)
    requires op.End?
    ensures AgesOnly(t, Step(t, op))
  {
    hide Expired;
    KeepsItself(t);
    ExpiredOnly(op.cfg, op.info, t, t.bss);
  }
}
