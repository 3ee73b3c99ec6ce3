/**
 What holds over every run of BSS table operations: the list is in the order of last writing,
 eviction takes the least recently written entry, miss counts count missed scans, and a round
 keeps the best of several results for one BSS.
 */
module BssRuns {
  import opened Bytes
  import opened BssTime
  import opened BssModel
  import opened BssInvariant
  import opened BssHistory

  // ---- When an entry was last written ----

  /** One more than the number of the last operation among the first n to write the entry; 0 if none did. */
  ghost function Stamp(maxCount: int, ops: seq<Op>, n: nat, p: Ptr): (s: nat)
    requires n <= |ops|
    ensures s <= n
  {
    if n == 0 then 0
    else if Touched(At(maxCount, ops, n - 1), ops[n - 1]) == Some(p) then n
    else Stamp(maxCount, ops, n - 1, p)
  }

  lemma StepOrder(t: Table, op: Op)
    requires Inv(t) && OpOk(t, op)
    ensures OrderAfter(t.bss, Step(t, op).bss, Touched(t, op))
  {
    hide Inv, Step, OpOk, OrderAfter, Precedes, Holds;
    if op.End? {
      EndOnly(t, op);
      KeptIsOrderAfter(t.bss, Step(t, op).bss);
    } else {
      StepWrites(t, op);
    }
  }

  lemma KeptIsOrderAfter(s: seq<Ptr>, r: seq<Ptr>)
    requires KeepsOrder(s, r)
    ensures OrderAfter(s, r, None)
  {
  }

  /** The list is in the order in which its entries were last written. */
  lemma {:induction false} ListIsInWritingOrder(maxCount: int, ops: seq<Op>, n: nat, a: Ptr, b: Ptr)
    requires RunOk(maxCount, ops) && n <= |ops| && Precedes(At(maxCount, ops, n).bss, a, b)
    ensures Stamp(maxCount, ops, n, a) < Stamp(maxCount, ops, n, b)
  {
    hide Inv, Step, OpOk, Precedes, Touched;
    if n == 0 {
      NothingPrecedes(maxCount, a, b);
    } else {
      var t := At(maxCount, ops, n - 1);
      RunInv(maxCount, ops, n - 1);
      StepOrder(t, ops[n - 1]);
      if Touched(t, ops[n - 1]) != Some(b) {
        ListIsInWritingOrder(maxCount, ops, n - 1, a, b);
      }
    }
  }

  lemma NothingPrecedes(maxCount: int, a: Ptr, b: Ptr)
    ensures !Precedes(Empty(maxCount).bss, a, b)
  {
  }

  /** Everything about an entry but its miss count, which is all that the end of a round changes. */
  ghost predicate SameSighting(e: Entry, f: Entry) {
    && e.radio == f.radio && e.lastUpdate == f.lastUpdate && KeyOf(e) == KeyOf(f) && e.updateIdx == f.updateIdx
    && e.ies == f.ies && e.id == f.id
  }

  /** An entry after an operation was written by it, or shows the same sighting as before. */
  lemma StepEntries(t: Table, op: Op, p: Ptr)
    requires Inv(t) && OpOk(t, op) && p in Step(t, op).mem
    ensures
      var e := Step(t, op).mem[p];
      if Touched(t, op) == Some(p) then op.Result? && Holds(t, e, op)
      else p in t.mem && SameSighting(e, t.mem[p]) && (!op.End? ==> e == t.mem[p])
  {
    hide Inv, Step, OpOk, OrderAfter, Holds, MissesAfter, Expires;
    if op.End? {
      EndOnly(t, op);
      EndAges(t, op, p);
    } else {
      StepWrites(t, op);
    }
  }

  /** Each entry shows the sighting of the operation that last wrote it, and the elements it was left with. */
  lemma {:induction false} EntryIsLastWritten(maxCount: int, ops: seq<Op>, n: nat, p: Ptr)
    requires RunOk(maxCount, ops) && n <= |ops| && p in At(maxCount, ops, n).mem
    ensures
      var s := Stamp(maxCount, ops, n, p);
      && s > 0 && ops[s - 1].Result?
      && SightedKey(ops[s - 1]) == Some(KeyOf(At(maxCount, ops, n).mem[p]))
      && At(maxCount, ops, n).mem[p].radio == ops[s - 1].res.radio
      && At(maxCount, ops, n).mem[p].lastUpdate == UpdateTime(ops[s - 1].fetch, ops[s - 1].res.age)
      && At(maxCount, ops, n).mem[p].ies == ElementsTold(At(maxCount, ops, s - 1), ops[s - 1])
  {
    hide Inv, Step, OpOk, Touched, SightedKey, ElementsTold;
    if n > 0 {
      var t := At(maxCount, ops, n - 1);
      RunInv(maxCount, ops, n - 1);
      StepEntries(t, ops[n - 1], p);
      if Touched(t, ops[n - 1]) != Some(p) {
        EntryIsLastWritten(maxCount, ops, n - 1, p);
      }
    }
  }

  /** Results come in the order of their update times. */
  ghost predicate Chronological(ops: seq<Op>) {
    forall i, j | 0 <= i < j < |ops| && ops[i].Result? && ops[j].Result? ::
      Micros(UpdateTime(ops[i].fetch, ops[i].res.age)) <= Micros(UpdateTime(ops[j].fetch, ops[j].res.age))
  }

  /** Over every run with results in order, the list is sorted by the time of the last update. */
  lemma {:induction false} RunIsSorted(maxCount: int, ops: seq<Op>, n: nat)
    requires RunOk(maxCount, ops) && Chronological(ops) && n <= |ops|
    ensures SortedByUpdate(At(maxCount, ops, n))
  {
    hide Step, OpOk, RunOk, Stamp, UpdateTime, Micros, Inv;
    var t := At(maxCount, ops, n);
    forall i, j | 0 <= i < j < |t.bss| && t.bss[i] in t.mem && t.bss[j] in t.mem
      ensures Micros(t.mem[t.bss[i]].lastUpdate) <= Micros(t.mem[t.bss[j]].lastUpdate)
    {
      ListIsInWritingOrder(maxCount, ops, n, t.bss[i], t.bss[j]);
      EntryIsLastWritten(maxCount, ops, n, t.bss[i]);
      EntryIsLastWritten(maxCount, ops, n, t.bss[j]);
    }
  }

  /** On such a run, a flush by age that stops at the first fresh entry is a full sweep. */
  lemma {:induction false} RunFlushIsFull(maxCount: int, ops: seq<Op>, n: nat, now: Time, age: int)
    requires RunOk(maxCount, ops) && Chronological(ops) && n <= |ops| && Normal(now)
    requires forall i | 0 <= i < n && ops[i].Result? :: Normal(ops[i].fetch)
    ensures
      var t := At(maxCount, ops, n);
      IsFullSweep(t, now.(sec := now.sec - age), FlushedByAge(t, now, age))
  {
    hide Step, OpOk, RunOk, IsFullSweep, Stamp, FlushedByAge, SortedByUpdate, Chronological, Inv;
    var t := At(maxCount, ops, n);
    RunInv(maxCount, ops, n);
    RunIsSorted(maxCount, ops, n);
    forall p | p in t.mem
      ensures Normal(t.mem[p].lastUpdate)
    {
      EntryIsLastWritten(maxCount, ops, n, p);
    }
    SortedFlushIsFull(t, now, age);
  }

  // ---- Eviction ----

  lemma {:induction false} FirstEvictableFirst(cfg: Config, t: Table, s: seq<Ptr>, k: nat)
    requires k < |s| && s[k] in t.mem && Evictable(cfg, t.mem[s[k]])
    ensures FirstEvictable(cfg, t, s) == Some(s[k]) || exists i | 0 <= i < k :: FirstEvictable(cfg, t, s) == Some(s[i])
  {
    hide Evictable;
    if !(s[0] in t.mem && Evictable(cfg, t.mem[s[0]])) {
      FirstEvictableFirst(cfg, t, s[1..], k - 1);
      var v := FirstEvictable(cfg, t, s[1..]);
      if v != Some(s[k]) {
        var i :| 0 <= i < k - 1 && v == Some(s[1..][i]);
        assert v == Some(s[i + 1]);
      }
    }
  }

  lemma {:induction false} FirstIdleFirst(t: Table, s: seq<Ptr>, k: nat)
    requires k < |s| && s[k] in t.mem && !InUse(t, s[k])
    ensures FirstIdle(t, s) == Some(s[k]) || exists i | 0 <= i < k :: FirstIdle(t, s) == Some(s[i])
  {
    hide InUse;
    if !(s[0] in t.mem && !InUse(t, s[0])) {
      FirstIdleFirst(t, s[1..], k - 1);
      var v := FirstIdle(t, s[1..]);
      if v != Some(s[k]) {
        var i :| 0 <= i < k - 1 && v == Some(s[1..][i]);
        assert v == Some(s[i + 1]);
      }
    }
  }

  ghost predicate SomeEvictable(cfg: Config, t: Table) {
    exists p :: p in t.mem && Evictable(cfg, t.mem[p])
  }

  /** May be evicted: neither configured nor a WPS candidate, or, when there is no such entry, idle. */
  ghost predicate Candidate(cfg: Config, t: Table, p: Ptr) {
    p in t.mem && (if SomeEvictable(cfg, t) then Evictable(cfg, t.mem[p]) else !InUse(t, p))
  }

  lemma VictimIsFirstCandidate(cfg: Config, t: Table, p: Ptr)
    requires Inv(t) && Candidate(cfg, t, p)
    ensures Victim(cfg, t).Some? && Candidate(cfg, t, Victim(cfg, t).value)
    ensures Victim(cfg, t) == Some(p) || Precedes(t.bss, Victim(cfg, t).value, p)
  {
    hide InUse, Evictable, FirstEvictable, FirstIdle;
    assert p in t.bss;
    var k :| 0 <= k < |t.bss| && t.bss[k] == p;
    FirstEvictableIs(cfg, t, t.bss);
    FirstIdleIs(t, t.bss);
    if SomeEvictable(cfg, t) {
      var q :| q in t.mem && Evictable(cfg, t.mem[q]);
      assert q in t.bss;
      FirstEvictableFirst(cfg, t, t.bss, k);
    } else {
      FirstIdleFirst(t, t.bss, k);
    }
  }

  /** The victim is the candidate that was written least recently; there is none exactly when there is no candidate. */
  lemma {:induction false} VictimIsLeastRecent(maxCount: int, ops: seq<Op>, n: nat, cfg: Config)
    requires RunOk(maxCount, ops) && n <= |ops|
    ensures
      var t := At(maxCount, ops, n);
      var v := Victim(cfg, t);
      if v.None? then forall p | p in t.mem :: !Evictable(cfg, t.mem[p]) && InUse(t, p)
      else Candidate(cfg, t, v.value) &&
           forall p | p in t.mem && Candidate(cfg, t, p) && p != v.value ::
             Stamp(maxCount, ops, n, v.value) < Stamp(maxCount, ops, n, p)
  {
    hide Step, OpOk, RunOk, InUse, Evictable, Victim, Inv, Stamp, Precedes, At;
    var t := At(maxCount, ops, n);
    var v := Victim(cfg, t);
    RunInv(maxCount, ops, n);
    forall p | p in t.mem && Candidate(cfg, t, p) && v != Some(p)
      ensures v.Some? && Stamp(maxCount, ops, n, v.value) < Stamp(maxCount, ops, n, p)
    {
      VictimIsFirstCandidate(cfg, t, p);
      ListIsInWritingOrder(maxCount, ops, n, v.value, p);
    }
    if v.Some? {
      SomeVictimIsCandidate(cfg, t);
    } else {
      NoVictimIffAllNeeded(cfg, t);
    }
  }

  lemma SomeVictimIsCandidate(cfg: Config, t: Table)
    requires Inv(t) && Victim(cfg, t).Some?
    ensures Candidate(cfg, t, Victim(cfg, t).value)
  {
    hide InUse, Evictable, FirstEvictable, FirstIdle;
    FirstEvictableIs(cfg, t, t.bss);
    FirstIdleIs(t, t.bss);
    assert forall p | p in t.mem :: p in t.bss;
  }

  // ---- The limit on the number of entries ----

  lemma UpdatedKeepsCount(t: Table, p: Ptr, res: ScanRes, fetch: Time, realloc: Realloc)
    requires p in t.mem
    ensures Updated(t, p, res, fetch, realloc).num == t.num && Updated(t, p, res, fetch, realloc).maxCount == t.maxCount
  {
    hide Ignored, Without, Replaced, NewIes;
  }

  /** Every entry is in use, and is configured or a WPS candidate. */
  ghost predicate AllNeeded(cfg: Config, t: Table) {
    forall p | p in t.mem :: !Evictable(cfg, t.mem[p]) && InUse(t, p)
  }

  lemma AllNeededIgnoresIds(cfg: Config, t: Table, next: nat)
    ensures AllNeeded(cfg, t.(nextId := next)) == AllNeeded(cfg, t)
  {
    hide InUse, Evictable;
    forall p | p in t.mem
      ensures InUse(t.(nextId := next), p) == InUse(t, p)
    {
      InUseIgnoresIds(t, next, p);
    }
  }

  lemma InUseIgnoresIds(t: Table, next: nat, p: Ptr)
    requires p in t.mem
    ensures InUse(t.(nextId := next), p) == InUse(t, p)
  {
  }

  lemma NoVictimIffAllNeeded(cfg: Config, t: Table)
    requires Inv(t)
    ensures Victim(cfg, t).None? <==> AllNeeded(cfg, t)
  {
    hide InUse, Evictable, FirstEvictable, FirstIdle;
    FirstEvictableIs(cfg, t, t.bss);
    FirstIdleIs(t, t.bss);
    assert forall p | p in t.mem :: p in t.bss;
  }

  lemma AddedCount(cfg: Config, t: Table, ssid: Octets, res: ScanRes, fetch: Time, alloc: Ptr)
    requires Inv(t) && t.num <= t.maxCount
    ensures
      var u := Added(cfg, t, ssid, res, fetch, alloc);
      if t.num < t.maxCount then u.num == t.num + 1 && u.maxCount == t.maxCount
      else if AllNeeded(cfg, t) then u.num == t.num + 1 && u.maxCount == t.maxCount + 1
      else u.num == t.num && u.maxCount == t.maxCount
  {
    hide Inv, AllNeeded, Victim, Without;
    var t1 := t.(nextId := (t.nextId + 1) % WRAP);
    NextIdIsNoStructure(t, t1.nextId);
    AllNeededIgnoresIds(cfg, t, t1.nextId);
    NoVictimIffAllNeeded(cfg, t1);
  }

  /**
   No operation takes the table over its limit; the limit is raised, by one, only to add an entry
   to a stuck table.
   */
  lemma StepCapacity(t: Table, op: Op)
    requires Inv(t) && OpOk(t, op) && t.num <= t.maxCount
    ensures Step(t, op).num <= Step(t, op).maxCount
    ensures Step(t, op).maxCount == t.maxCount ||
            (op.Result? && t.num == t.maxCount && AllNeeded(op.cfg, t) &&
             Step(t, op).maxCount == t.maxCount + 1 && Step(t, op).num == t.num + 1)
  {
    hide Inv, AllNeeded, StoredSsid, Get, Added, Updated, Expired, Flushed, FlushedOld, Removed, KeepsOrder;
    match op
    case Result(cfg, res, fetch, alloc, realloc) =>
      var ssid := StoredSsid(cfg, res, fetch);
      if ssid.Some? {
        AddedCount(cfg, t, ssid.value, res, fetch, alloc);
        var p := Get(cfg, t, Key(res.bssid, ssid.value));
        GetIs(cfg, t, Key(res.bssid, ssid.value));
        if p.Some? {
          UpdatedKeepsCount(t, p.value, res, fetch, realloc);
        }
      }
    case End(_, _, _) => EndOnly(t, op);
    case FlushByAge(now, age) => FlushedOldOnly(t, now.(sec := now.sec - age), t.bss);
    case FlushAll => FlushedOnly(t, t.bss);
    case Remove(p) => RemovedOnly(t, p);
    case _ =>
  }

  /** Over every run the table stays within its limit. */
  lemma {:induction false} RunStaysWithinLimit(maxCount: int, ops: seq<Op>, n: nat)
    requires RunOk(maxCount, ops) && n <= |ops| && 0 <= maxCount
    ensures At(maxCount, ops, n).num <= At(maxCount, ops, n).maxCount
  {
    hide Inv, Step, OpOk, AllNeeded;
    if n > 0 {
      RunInv(maxCount, ops, n - 1);
      RunStaysWithinLimit(maxCount, ops, n - 1);
      StepCapacity(At(maxCount, ops, n - 1), ops[n - 1]);
    }
  }

  // ---- The current BSS ----

  lemma {:induction false} FlushKeepsCurrent(t: Table, limit: Time, todo: seq<Ptr>)
    requires t.current.Some? && t.current.value in t.mem
    ensures t.current.value in Flushed(t, todo).mem && t.current.value in FlushedOld(t, limit, todo).mem
    decreases |todo|
  {
    hide Without, Before;
    if |todo| > 0 {
      FlushKeepsCurrent(t, limit, todo[1..]);
      if todo[0] != t.current.value {
        FlushKeepsCurrent(Removed(t, todo[0]), limit, todo[1..]);
      }
    }
  }

  /** A result for a new BSS evicts the current one: the table is full and it is the first evictable entry. */
  ghost predicate EvictsCurrent(t: Table, op: Op) {
    && op.Result? && SightedKey(op).Some? && Get(op.cfg, t, SightedKey(op).value).None?
    && t.num + 1 > t.maxCount && t.current.Some? && FirstEvictable(op.cfg, t, t.bss) == t.current
  }

  lemma {:induction false} AddedCurrent(t: Table, op: Op, ssid: Octets)
    requires Inv(t) && op.Result? && op.alloc !in t.mem && t.current.Some? && t.current.value in t.mem
    ensures
      var u := Added(op.cfg, t, ssid, op.res, op.fetch, op.alloc);
      && u.current == t.current
      && (t.current.value !in u.mem <==> t.num + 1 > t.maxCount && FirstEvictable(op.cfg, t, t.bss) == t.current)
  {
    hide Inv, Without, Evictable, InUse;
    var t1 := t.(nextId := (t.nextId + 1) % WRAP);
    FirstEvictableIgnoresIds(op.cfg, t, t1.nextId, t.bss);
    FirstEvictableIs(op.cfg, t1, t1.bss);
    FirstIdleIs(t1, t1.bss);
    CurrentIsInUse(t1);
  }

  lemma CurrentIsInUse(t: Table)
    requires t.current.Some? && t.current.value in t.mem
    ensures InUse(t, t.current.value)
  {
  }

  lemma {:induction false} FirstEvictableIgnoresIds(cfg: Config, t: Table, next: nat, s: seq<Ptr>)
    ensures FirstEvictable(cfg, t.(nextId := next), s) == FirstEvictable(cfg, t, s)
  {
    hide Evictable;
    if |s| > 0 {
      FirstEvictableIgnoresIds(cfg, t, next, s[1..]);
    }
  }

  lemma UpdatedCurrent(t: Table, op: Op, p: Ptr)
    requires op.Result? && p in t.mem && t.current.Some? && t.current.value in t.mem
    ensures
      var u := Updated(t, p, op.res, op.fetch, op.realloc);
      u.current.Some? && u.current.value in u.mem
  {
    hide Ignored, Without, Replaced, NewIes, NewHome;
  }

  /**
   The pointer to the current BSS dangles only after an explicit removal or an eviction, and these
   do make it dangle.
   */
  lemma CurrentDanglesIff(t: Table, op: Op)
    requires Inv(t) && OpOk(t, op) && !op.Connect? && t.current.Some? && t.current.value in t.mem
    ensures
      var u := Step(t, op);
      u.current.Some? && (u.current.value !in u.mem <==> op == Remove(t.current.value) || EvictsCurrent(t, op))
  {
    hide Inv, InUse, Expired, Flushed, FlushedOld, FirstEvictable, Added, Updated, Get, StoredSsid;
    hide Aged, Without, KeepsOrder;
    match op
    case Result(cfg, res, fetch, alloc, realloc) =>
      var ssid := StoredSsid(cfg, res, fetch);
      if ssid.Some? {
        var p := Get(cfg, t, Key(res.bssid, ssid.value));
        GetIs(cfg, t, Key(res.bssid, ssid.value));
        AddedCurrent(t, op, ssid.value);
        if p.Some? {
          UpdatedCurrent(t, op, p.value);
        }
      }
    case End(_, _, _) =>
      EndOnly(t, op);
      EndKeepsCurrent(t, op);
    case FlushByAge(now, age) =>
      FlushedOldOnly(t, now.(sec := now.sec - age), t.bss);
      FlushKeepsCurrent(t, now.(sec := now.sec - age), t.bss);
    case FlushAll =>
      FlushedOnly(t, t.bss);
      FlushKeepsCurrent(t, Time(0, 0), t.bss);
    case _ =>
  }

  lemma EndKeepsCurrent(t: Table, op: Op)
    requires Inv(t) && op.End? && t.current.Some? && t.current.value in t.mem
    ensures t.current.value in Step(t, op).mem
  {
    hide Inv, InUse, Step;
    CurrentIsInUse(t);
    EndAges(t, op, t.current.value);
  }

  // ---- Missed scans ----

  /** Address of the entry that a scan result is for, whether it is taken over or ignored. */
  function Sighted(t: Table, op: Op): Option<Ptr> {
    if Touched(t, op).Some? || SightedKey(op).None? then Touched(t, op)
    else Get(op.cfg, t, SightedKey(op).value)
  }

  /** Number of the last sighting among the first n operations, counted from 1; 0 if there is none. */
  ghost function LastSighting(maxCount: int, ops: seq<Op>, n: nat, p: Ptr): (s: nat)
    requires n <= |ops|
    ensures s <= n
  {
    if n == 0 then 0
    else if Sighted(At(maxCount, ops, n - 1), ops[n - 1]) == Some(p) then n
    else LastSighting(maxCount, ops, n - 1, p)
  }

  ghost function Starts(ops: seq<Op>, n: nat): nat
    requires n <= |ops|
  {
    if n == 0 then 0 else Starts(ops, n - 1) + (if ops[n - 1].Start? then 1 else 0)
  }

  /**
   A completed scan covers the idle entry, and its round, or one before it, began after the entry
   was last sighted.
   */
  ghost predicate Misses(maxCount: int, ops: seq<Op>, m: nat, p: Ptr)
    requires m < |ops|
  {
    && Completes(ops[m]) && Considered(At(maxCount, ops, m), ops[m].info, p)
    && Starts(ops, LastSighting(maxCount, ops, m, p)) < Starts(ops, m)
  }

  /** Number of completed scans among operations lo to n that covered the idle entry and did not show it. */
  ghost function MissCount(maxCount: int, ops: seq<Op>, lo: nat, n: nat, p: Ptr): nat
    requires lo <= n <= |ops|
    decreases n
  {
    if n == lo then 0
    else MissCount(maxCount, ops, lo, n - 1, p) + (if Misses(maxCount, ops, n - 1, p) then 1 else 0)
  }

  /** No entry is from a later round, and entries seen in this round have no misses. */
  ghost predicate RoundInv(t: Table) {
    forall p | p in t.mem ::
      t.mem[p].updateIdx <= t.updateIdx && (t.mem[p].updateIdx == t.updateIdx ==> t.mem[p].missCount == 0)
  }

  lemma StepRound(t: Table, op: Op)
    requires Inv(t) && OpOk(t, op)
    ensures Step(t, op).updateIdx == if op.Start? then (t.updateIdx + 1) % WRAP else t.updateIdx
    ensures RoundInv(t) && (op.Start? ==> t.updateIdx + 1 < WRAP) ==> RoundInv(Step(t, op))
  {
    hide Inv, Step, Touched, SightedKey, OrderAfter, KeepsOrder, Included, InUse;
    if op.End? {
      EndOnly(t, op);
      forall p | p in Step(t, op).mem && RoundInv(t)
        ensures
          var e := Step(t, op).mem[p];
          e.updateIdx <= t.updateIdx && (e.updateIdx == t.updateIdx ==> e.missCount == 0)
      {
        EndAges(t, op, p);
      }
    } else {
      StepWrites(t, op);
      StartIs(t, op);
    }
  }

  lemma StartIs(t: Table, op: Op)
    ensures op.Start? ==> Step(t, op) == Started(t)
  {
  }

  /** Over every run with fewer than 2^32 rounds, an entry seen in the current round has miss count 0. */
  lemma {:induction false} RunRoundInv(maxCount: int, ops: seq<Op>, n: nat)
    requires RunOk(maxCount, ops) && n <= |ops| && Starts(ops, n) < WRAP
    ensures RoundInv(At(maxCount, ops, n)) && At(maxCount, ops, n).updateIdx == Starts(ops, n)
  {
    hide Inv, Step, OpOk;
    if n > 0 {
      RunInv(maxCount, ops, n - 1);
      RunRoundInv(maxCount, ops, n - 1);
      StepRound(At(maxCount, ops, n - 1), ops[n - 1]);
    }
  }

  /** A result that is ignored is for an entry already seen in this round. */
  lemma IgnoredSighting(t: Table, op: Op, p: Ptr)
    requires Inv(t) && Sighted(t, op) == Some(p) && Touched(t, op) != Some(p)
    ensures p in t.mem && t.mem[p].updateIdx == t.updateIdx && op.Result?
  {
    hide Inv, StoredSsid, Get;
    GetIs(op.cfg, t, SightedKey(op).value);
  }

  /** Over every run the round index of an entry is the number of rounds begun up to its last sighting. */
  lemma {:induction false} RoundOfEntryIsHistory(maxCount: int, ops: seq<Op>, n: nat, p: Ptr)
    requires RunOk(maxCount, ops) && n <= |ops| && Starts(ops, n) < WRAP && p in At(maxCount, ops, n).mem
    ensures At(maxCount, ops, n).mem[p].updateIdx == Starts(ops, LastSighting(maxCount, ops, n, p))
  {
    hide Inv, Step, OpOk, Touched, SightedKey, Sighted, RoundInv;
    if n > 0 {
      var t, op := At(maxCount, ops, n - 1), ops[n - 1];
      RunInv(maxCount, ops, n - 1);
      RunRoundInv(maxCount, ops, n - 1);
      StepEntries(t, op, p);
      if Touched(t, op) == Some(p) {
        TouchedIsSighted(t, op);
      } else if Sighted(t, op) == Some(p) {
        IgnoredSighting(t, op, p);
      } else {
        RoundOfEntryIsHistory(maxCount, ops, n - 1, p);
      }
    }
  }

  /** At the end of a round, what the code reads off the entry is what the run says. */
  lemma {:induction false} MissIsHistory(maxCount: int, ops: seq<Op>, n: nat, p: Ptr)
    requires RunOk(maxCount, ops) && n < |ops| && Starts(ops, n) < WRAP && p in At(maxCount, ops, n).mem
    ensures Completes(ops[n]) && MissedBy(At(maxCount, ops, n), ops[n].info, p) <==> Misses(maxCount, ops, n, p)
  {
    hide Inv, At, OpOk, Considered, RoundInv, LastSighting, Starts;
    RoundOfEntryIsHistory(maxCount, ops, n, p);
    RunRoundInv(maxCount, ops, n);
  }

  /** Over every run, the miss count of an entry is the number of scans that missed it since it was last sighted. */
  lemma {:induction false} MissCountIsMisses(maxCount: int, ops: seq<Op>, n: nat, p: Ptr)
    requires RunOk(maxCount, ops) && n <= |ops| && Starts(ops, n) < WRAP && p in At(maxCount, ops, n).mem
    ensures
      At(maxCount, ops, n).mem[p].missCount ==
      MissCount(maxCount, ops, LastSighting(maxCount, ops, n, p), n, p)
  {
    hide Inv, Step, OpOk, Touched, SightedKey, Sighted, MissedBy, Misses;
    if n > 0 {
      var t, op := At(maxCount, ops, n - 1), ops[n - 1];
      RunInv(maxCount, ops, n - 1);
      RunRoundInv(maxCount, ops, n - 1);
      StepEntries(t, op, p);
      if Touched(t, op) == Some(p) {
        TouchedIsSighted(t, op);
      } else if Sighted(t, op) == Some(p) {
        IgnoredSighting(t, op, p);
      } else {
        MissCountIsMisses(maxCount, ops, n - 1, p);
        MissIsHistory(maxCount, ops, n - 1, p);
        if op.End? {
          EndAges(t, op, p);
        }
      }
    }
  }

  lemma TouchedIsSighted(t: Table, op: Op)
    ensures Touched(t, op).Some? ==> Sighted(t, op) == Touched(t, op)
  {
    hide Touched;
  }

  /** The expiry count is the same whenever a round ends. */
  ghost predicate FixedExpiry(ops: seq<Op>, expiry: nat) {
    forall i | 0 <= i < |ops| && ops[i].End? :: ops[i].cfg.expiration == expiry
  }

  lemma {:induction false} MissesStayBelowExpiry(maxCount: int, ops: seq<Op>, n: nat, p: Ptr, expiry: nat)
    requires RunOk(maxCount, ops) && n <= |ops| && FixedExpiry(ops, expiry) && expiry >= 1
    requires p in At(maxCount, ops, n).mem
    ensures At(maxCount, ops, n).mem[p].missCount < expiry
  {
    hide Inv, Step, OpOk, Touched, SightedKey, Considered;
    if n > 0 {
      var t, op := At(maxCount, ops, n - 1), ops[n - 1];
      RunInv(maxCount, ops, n - 1);
      StepEntries(t, op, p);
      if Touched(t, op) != Some(p) {
        MissesStayBelowExpiry(maxCount, ops, n - 1, p, expiry);
        if op.End? {
          EndAges(t, op, p);
        }
      }
    }
  }

  /**
   A completed scan removes an entry exactly when it misses it and that is the last miss allowed
   since its last sighting.
   */
  lemma ExpiresAtLastMiss(maxCount: int, ops: seq<Op>, n: nat, p: Ptr, expiry: nat)
    requires RunOk(maxCount, ops) && n < |ops| && Starts(ops, n) < WRAP && Completes(ops[n])
    requires FixedExpiry(ops, expiry) && expiry >= 1 && p in At(maxCount, ops, n).mem
    ensures
      p !in At(maxCount, ops, n + 1).mem <==>
      Misses(maxCount, ops, n, p) && MissCount(maxCount, ops, LastSighting(maxCount, ops, n, p), n, p) + 1 == expiry
  {
    hide Inv, Step, OpOk, Considered, LastSighting, MissCount, Misses;
    RunInv(maxCount, ops, n);
    MissCountIsMisses(maxCount, ops, n, p);
    MissIsHistory(maxCount, ops, n, p);
    MissesStayBelowExpiry(maxCount, ops, n, p, expiry);
    EndAges(At(maxCount, ops, n), ops[n], p);
    assert At(maxCount, ops, n + 1) == Step(At(maxCount, ops, n), ops[n]);
  }

  // ---- Several results for one BSS in a round ----

  ghost function Find(t: Table, k: Key): Option<Ptr> {
    Search(t, t.bss, k)
  }

  lemma FindIs(t: Table, k: Key, p: Ptr)
    requires Inv(t) && KeysUnique(t)
    ensures Find(t, k) == Some(p) <==> p in t.mem && KeyOf(t.mem[p]) == k
  {
    SearchIs(t, t.bss, k);
  }

  datatype Seen = Seen(radio: Radio, time: Time)

  ghost predicate Shows(e: Entry, x: Seen) {
    e.radio == x.radio && e.lastUpdate == x.time
  }

  ghost function SeenIn(op: Op): Seen
    requires op.Result?
  {
    Seen(op.res.radio, UpdateTime(op.fetch, op.res.age))
  }

  /** What the results among operations lo to n said about the BSS, in order. */
  ghost function Sightings(ops: seq<Op>, lo: nat, n: nat, k: Key): seq<Seen>
    requires lo <= n <= |ops|
    decreases n
  {
    if n == lo then []
    else if SightedKey(ops[n - 1]) == Some(k) then Sightings(ops, lo, n - 1, k) + [SeenIn(ops[n - 1])]
    else Sightings(ops, lo, n - 1, k)
  }

  /** The first associated one, or, when there is none, the first with the greatest update time. */
  ghost predicate IsBest(xs: seq<Seen>, b: nat) {
    b < |xs| &&
    if exists i | 0 <= i < |xs| :: Associated(xs[i].radio)
    then Associated(xs[b].radio) && forall i | 0 <= i < b :: !Associated(xs[i].radio)
    else
      && (forall i | 0 <= i < |xs| :: !Before(xs[b].time, xs[i].time))
      && (forall i | 0 <= i < b :: Before(xs[i].time, xs[b].time))
  }

  ghost predicate Better(x: Seen, y: Seen) {
    !Associated(y.radio) && (Associated(x.radio) || Before(y.time, x.time))
  }

  lemma BestGrows(xs: seq<Seen>, b: nat, x: Seen)
    requires IsBest(xs, b)
    ensures IsBest(xs + [x], if Better(x, xs[b]) then |xs| else b)
  {
    hide Associated;
    var ys := xs + [x];
    assert ys[|xs|] == x;
    assert forall i | 0 <= i < |xs| :: ys[i] == xs[i];
  }

  /**
   A result for the BSS is taken over if its entry is from an earlier round or it is better, and
   otherwise ignored.
   */
  lemma SightingStep(t: Table, op: Op, k: Key)
    requires Inv(t) && KeysUnique(t) && OpOk(t, op) && SightedKey(op) == Some(k) && op.cfg.accepts(k.bssid)
    requires Inv(Step(t, op)) && KeysUnique(Step(t, op))
    ensures
      var p, q := Find(t, k), Find(Step(t, op), k);
      && q.Some? && q.value in Step(t, op).mem
      && (p.Some? ==> p.value in t.mem)
      && var e := Step(t, op).mem[q.value];
         e.updateIdx == t.updateIdx &&
         if p.Some? && t.mem[p.value].updateIdx == t.updateIdx &&
            !Better(SeenIn(op), Seen(t.mem[p.value].radio, t.mem[p.value].lastUpdate))
         then e == t.mem[p.value] else Shows(e, SeenIn(op))
  {
    hide Inv, KeysUnique, Step, Get, Search, StoredSsid, Associated, Before, OrderAfter, NewHome;
    var w := Touched(t, op);
    StepWrites(t, op);
    FindOrNone(t, k);
    GetIsFind(op.cfg, t, k);
    if w.Some? {
      FindIs(Step(t, op), k, w.value);
    } else {
      var p := Find(t, k);
      FindIs(t, k, p.value);
      IgnoredStep(t, op, p.value);
      FindIs(Step(t, op), k, p.value);
    }
  }

  lemma GetIsFind(cfg: Config, t: Table, k: Key)
    ensures cfg.accepts(k.bssid) ==> Get(cfg, t, k) == Find(t, k)
  {
  }

  lemma FindOrNone(t: Table, k: Key)
    requires Inv(t)
    ensures
      var p := Find(t, k);
      if p.Some? then p.value in t.mem && KeyOf(t.mem[p.value]) == k else forall q | q in t.mem :: KeyOf(t.mem[q]) != k
  {
    SearchIs(t, t.bss, k);
  }

  lemma IgnoredStep(t: Table, op: Op, p: Ptr)
    requires op.Result? && SightedKey(op).Some? && p in t.mem
    requires Get(op.cfg, t, SightedKey(op).value) == Some(p) && Ignored(t, t.mem[p], op.res, op.fetch)
    ensures Step(t, op).mem == t.mem
  {
    hide Get, StoredSsid, Ignored;
    IgnoredIsSame(t, p, op);
  }

  /** Other operations show the entry of a BSS as it was, if they leave it in the table. */
  lemma OtherStep(t: Table, op: Op, k: Key)
    requires Inv(t) && KeysUnique(t) && OpOk(t, op) && SightedKey(op) != Some(k)
    requires Inv(Step(t, op)) && KeysUnique(Step(t, op))
    ensures
      var p, q := Find(t, k), Find(Step(t, op), k);
      q.Some? ==>
        && p.Some? && p.value in t.mem && q.value in Step(t, op).mem
        && SameSighting(Step(t, op).mem[q.value], t.mem[p.value])
  {
    hide Inv, KeysUnique, Step, Search, Touched, SightedKey;
    var q := Find(Step(t, op), k);
    FindOrNone(Step(t, op), k);
    if q.Some? {
      StepEntries(t, op, q.value);
      FindIs(t, k, q.value);
    }
  }

  ghost predicate Accepted(ops: seq<Op>) {
    forall i | 0 <= i < |ops| && ops[i].Result? :: ops[i].cfg.accepts(ops[i].res.bssid)
  }

  ghost predicate InTable(maxCount: int, ops: seq<Op>, n: nat, k: Key)
    requires n <= |ops|
  {
    Find(At(maxCount, ops, n), k).Some?
  }

  /** Once seen in the round, the BSS stays in the table. */
  ghost predicate NotEvicted(maxCount: int, ops: seq<Op>, lo: nat, n: nat, k: Key)
    requires lo <= n <= |ops|
  {
    forall m | lo <= m <= n :: Sightings(ops, lo, m, k) != [] ==> InTable(maxCount, ops, m, k)
  }

  /** Operation lo - 1 starts a round, and no round starts before operation n. */
  ghost predicate OneRound(ops: seq<Op>, lo: nat, n: nat) {
    && 0 < lo <= n <= |ops| && ops[lo - 1].Start?
    && forall i | lo <= i < n :: !ops[i].Start?
  }

  /** In a round, an entry is from an earlier round until its BSS is seen, and then shows the best sighting. */
  ghost predicate ShowsBest(t: Table, k: Key, xs: seq<Seen>) {
    var p := Find(t, k);
    && (xs != [] ==> p.Some?)
    && (p.Some? ==>
          && p.value in t.mem
          && if xs == [] then t.mem[p.value].updateIdx < t.updateIdx
             else
               && t.mem[p.value].updateIdx == t.updateIdx
               && exists b | 0 <= b < |xs| :: IsBest(xs, b) && Shows(t.mem[p.value], xs[b]))
  }

  lemma RoundStart(t: Table, op: Op, k: Key)
    requires Inv(t) && RoundInv(t) && op.Start? && t.updateIdx + 1 < WRAP
    ensures ShowsBest(Step(t, op), k, [])
  {
    var u := Step(t, op);
    StartedInv(t);
    FindOrNone(u, k);
  }

  lemma RoundStep(t: Table, op: Op, k: Key, xs: seq<Seen>)
    requires Inv(t) && KeysUnique(t) && OpOk(t, op) && !op.Start? && (op.Result? ==> op.cfg.accepts(op.res.bssid))
    requires Inv(Step(t, op)) && KeysUnique(Step(t, op)) && ShowsBest(t, k, xs)
    requires xs != [] ==> Find(Step(t, op), k).Some?
    ensures ShowsBest(Step(t, op), k, if SightedKey(op) == Some(k) then xs + [SeenIn(op)] else xs)
  {
    hide Inv, KeysUnique, Step, Find, Associated, Before, IsBest, StoredSsid, RoundInv;
    StepRound(t, op);
    if SightedKey(op) == Some(k) {
      SightingStep(t, op, k);
      if xs == [] {
        BestOfOne(SeenIn(op));
        assert (xs + [SeenIn(op)]) == [SeenIn(op)];
      } else {
        var p := Find(t, k);
        var b :| 0 <= b < |xs| && IsBest(xs, b) && Shows(t.mem[p.value], xs[b]);
        BestGrows(xs, b, SeenIn(op));
      }
    } else {
      OtherStep(t, op, k);
    }
  }

  lemma BestOfOne(x: Seen)
    ensures IsBest([x], 0)
  {
  }

  lemma AcceptedStep(maxCount: int, ops: seq<Op>, n: nat)
    requires RunOk(maxCount, ops) && Accepted(ops) && n < |ops|
    ensures
      var t, u := At(maxCount, ops, n), At(maxCount, ops, n + 1);
      u == Step(t, ops[n]) && OpOk(t, ops[n]) && Inv(t) && Inv(u) && KeysUnique(t) && KeysUnique(u)
  {
    hide Inv, KeysUnique, Step, OpOk;
    RunInv(maxCount, ops, n);
    RunInv(maxCount, ops, n + 1);
    RunKeysUnique(maxCount, ops, n);
    RunKeysUnique(maxCount, ops, n + 1);
  }

  /**
   Within a round of any run, the entry of a BSS that was seen and not evicted shows the first
   associated result, or else the first of those with the greatest update time.
   */
  lemma {:induction false} RoundKeepsBest(maxCount: int, ops: seq<Op>, lo: nat, n: nat, k: Key)
    requires OneRound(ops, lo, n) && RunOk(maxCount, ops) && Accepted(ops) && Starts(ops, n) < WRAP
    requires NotEvicted(maxCount, ops, lo, n, k)
    ensures ShowsBest(At(maxCount, ops, n), k, Sightings(ops, lo, n, k))
    decreases n
  {
    hide Inv, KeysUnique, Step, OpOk, ShowsBest, SightedKey, SeenIn, RoundInv, Find, RunOk, At;
    var t, op := At(maxCount, ops, n - 1), ops[n - 1];
    AcceptedStep(maxCount, ops, n - 1);
    if n == lo {
      RunRoundInv(maxCount, ops, n - 1);
      RoundStart(t, op, k);
    } else {
      assert Sightings(ops, lo, n - 1, k) != [] ==> Sightings(ops, lo, n, k) != [];
      assert Sightings(ops, lo, n, k) != [] ==> InTable(maxCount, ops, n, k);
      RoundKeepsBest(maxCount, ops, lo, n - 1, k);
      RoundStep(t, op, k, Sightings(ops, lo, n - 1, k));
    }
  }
}
