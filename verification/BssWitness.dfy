/** Concrete runs of the BSS table in which a property that one might expect fails. */
module BssWitness {
  import opened Bytes
  import opened BssTime
  import opened BssModel
  import opened BssInvariant
  import opened BssHistory
  import opened BssRuns

  const AP1: Addr := [2, 0, 0, 0, 0, 1]
  const AP2: Addr := [2, 0, 0, 0, 0, 2]

  const IDLE: Radio := Radio(0, 2412, 0, 0, 0, 0, 0, 0, 0, 0)

  /** No network is configured, nothing is a WPS candidate and every address is accepted. */
  function Bare(): Config {
    Config([], e => false, a => true, 2, false, Time(0, 0), false)
  }

  function Heard(bssid: Addr, age: nat): ScanRes {
    ScanRes(bssid, IDLE, age, Some([1]), None, Ies([], [], false))
  }

  function Report(bssid: Addr, age: nat, alloc: Ptr): Op {
    Result(Bare(), Heard(bssid, age), Time(100, 0), alloc, InPlace)
  }

  function Stored(id: nat, bssid: Addr, time: Time): Entry {
    Entry(id, 0, 1, bssid, [1], IDLE, time, Ies([], [], false))
  }

  /** While there is room, a result for a new BSS is put last in both lists and in the scan array. */
  lemma NewBss(t: Table, bssid: Addr, age: nat, alloc: Ptr)
    requires Find(t, Key(bssid, [1])).None? && t.num + 1 <= t.maxCount
    ensures
      var e := Entry(t.nextId, 0, t.updateIdx, bssid, [1], IDLE, UpdateTime(Time(100, 0), age), Ies([], [], false));
      Step(t, Report(bssid, age, alloc)) == Listed(Linked(t.(nextId := (t.nextId + 1) % WRAP), alloc, e), alloc)
  {
    hide Search, UpdateTime, Before;
    assert StoredSsid(Bare(), Heard(bssid, age), Time(100, 0)) == Some([1]);
  }

  lemma FetchedAt(seconds: nat)
    ensures UpdateTime(Time(100, 0), seconds * 1000) == Time(100 - seconds, 0)
  {
  }

  // ---- Eviction of the current BSS ----

  function OneEntry(maxCount: int, current: Option<Ptr>): Table {
    Table(map[7 := Stored(0, AP1, Time(100, 0))], [7], [7], [7], 32, 1, 1, 1, maxCount, current, None,
          ZERO_ADDR, ZERO_ADDR)
  }

  lemma FirstResult(maxCount: int)
    requires maxCount >= 1
    ensures Step(Started(Empty(maxCount)), Report(AP1, 0, 7)) == OneEntry(maxCount, None)
  {
    hide Step, Report, UpdateTime;
    var t := Started(Empty(maxCount));
    FetchedAt(0);
    NewBss(t, AP1, 0, 7);
    assert t.mem[7 := Stored(0, AP1, Time(100, 0))] == map[7 := Stored(0, AP1, Time(100, 0))];
    assert t.bss + [7] == [7] && t.byId + [7] == [7] && t.lastScan + [7] == [7];
  }

  lemma SecondResult()
    ensures
      var t := OneEntry(1, Some(7));
      var u := Step(t, Report(AP2, 0, 8));
      7 in t.mem && InUse(t, 7) && u.current == Some(7) && 7 !in u.mem
  {
    var t, op := OneEntry(1, Some(7)), Report(AP2, 0, 8);
    OnlyEntryIsFirst();
    FullTable();
    hide OneEntry, Step, Report;
    CurrentDanglesIff(t, op);
    CurrentIsInUse(t);
  }

  lemma OnlyEntryIsFirst()
    ensures FirstEvictable(Bare(), OneEntry(1, Some(7)), [7]) == Some(7)
  {
  }

  /**
   A result for the other BSS is new to the table, which is full and whose first evictable entry
   is the current one.
   */
  lemma FullTable()
    ensures
      var t, op := OneEntry(1, Some(7)), Report(AP2, 0, 8);
      && Inv(t) && OpOk(t, op) && t.current == Some(7) && 7 in t.mem && EvictsCurrent(t, op)
  {
    var t := OneEntry(1, Some(7));
    OnlyEntryIsFirst();
    assert t.mem.Keys == {7};
    assert SightedKey(Report(AP2, 0, 8)) == Some(Key(AP2, [1]));
    assert Search(t, [7], Key(AP2, [1])) == Search(t, [7][1..], Key(AP2, [1])) == None;
  }

  lemma OneEntryHolds(maxCount: int, current: Option<Ptr>, p: Ptr)
    ensures p in OneEntry(maxCount, current).mem <==> p == 7
  {
  }

  /** With room for one entry: the BSS found first is connected to, and the next one found evicts it. */
  lemma EvictionTakesCurrent() returns (ops: seq<Op>)
    ensures |ops| == 4 && RunOk(1, ops)
    ensures At(1, ops, 3).current == Some(7) && 7 in At(1, ops, 3).mem && InUse(At(1, ops, 3), 7)
    ensures At(1, ops, 4).current == Some(7) && 7 !in At(1, ops, 4).mem
  {
    hide InUse, AfterScanRes;
    ops := [Start, Report(AP1, 0, 7), Connect(Some(7), None, ZERO_ADDR, ZERO_ADDR), Report(AP2, 0, 8)];
    FirstResult(1);
    SecondResult();
    assert At(1, ops, 1) == Started(Empty(1)) by {
      assert At(1, ops, 0) == Empty(1);
    }
    assert At(1, ops, 2) == OneEntry(1, None);
    assert At(1, ops, 3) == OneEntry(1, Some(7));
    forall n | 0 <= n < |ops|
      ensures OpOk(At(1, ops, n), ops[n])
    {
      if n == 1 {
        assert 7 !in Started(Empty(1)).mem;
      } else if n == 2 {
        OneEntryHolds(1, None, 7);
      } else if n == 3 {
        OneEntryHolds(1, Some(7), 8);
      }
    }
  }

  // ---- The early stop of the flush by age ----

  /** The entry written last is the older one. */
  function TwoEntries(): Table {
    Table(map[7 := Stored(0, AP1, Time(100, 0))][8 := Stored(1, AP2, Time(40, 0))],
          [7, 8], [7, 8], [7, 8], 32, 2, 2, 1, 9, None, None, ZERO_ADDR, ZERO_ADDR)
  }

  lemma NotFound()
    ensures Find(OneEntry(9, None), Key(AP2, [1])).None?
  {
  }

  lemma OlderResult()
    ensures Step(OneEntry(9, None), Report(AP2, 60000, 8)) == TwoEntries()
  {
    hide Step, Report, UpdateTime;
    var t := OneEntry(9, None);
    NotFound();
    FetchedAt(60);
    NewBss(t, AP2, 60000, 8);
    assert t.bss + [8] == [7, 8] && t.byId + [8] == [7, 8] && t.lastScan + [8] == [7, 8];
  }

  lemma FlushStopsAtOnce()
    ensures FlushedByAge(TwoEntries(), Time(100, 0), 50) == TwoEntries()
    ensures Idle(TwoEntries(), 8) && Stale(TwoEntries(), Time(50, 0), 8)
  {
  }

  /**
   A result that is fetched with one seen earlier but is a minute older is behind it in the list,
   and the flush does not reach it.
   */
  lemma FlushLeavesStaleEntry() returns (ops: seq<Op>)
    ensures |ops| == 4 && RunOk(9, ops) && ops[3] == FlushByAge(Time(100, 0), 50)
    ensures Idle(At(9, ops, 3), 8) && Stale(At(9, ops, 3), Time(50, 0), 8) && 8 in At(9, ops, 4).mem
    ensures !IsFullSweep(At(9, ops, 3), Time(50, 0), At(9, ops, 4))
  {
    hide InUse, AfterScanRes, FlushedByAge;
    ops := [Start, Report(AP1, 0, 7), Report(AP2, 60000, 8), FlushByAge(Time(100, 0), 50)];
    FirstResult(9);
    OlderResult();
    FlushStopsAtOnce();
    assert At(9, ops, 1) == Started(Empty(9)) by {
      assert At(9, ops, 0) == Empty(9);
    }
    assert At(9, ops, 2) == OneEntry(9, None);
    assert At(9, ops, 3) == TwoEntries();
    assert At(9, ops, 4) == TwoEntries();
    forall n | 0 <= n < |ops|
      ensures OpOk(At(9, ops, n), ops[n])
    {
      if n == 1 {
        assert 7 !in Started(Empty(9)).mem;
      } else if n == 2 {
        OneEntryHolds(9, None, 8);
      }
    }
  }
}
