/**
 GSM triplets of the HLR/AuC gateway: a list searched cyclically from a cursor that moves
 past each triplet it hands out.
 */
module Triplets {
  import opened Arith
  import opened Bytes

  datatype Triplet = Triplet(imsi: string, kc: seq<bv8>, sres: seq<bv8>, rand: seq<bv8>)

  const MAX_CHALLENGES := 3

  // ---- Specification: positions of an IMSI, and the cyclic search ----

  /** Positions below n that hold a triplet for the IMSI, in list order. */
  ghost function Matches(db: seq<Triplet>, imsi: string, n: nat): seq<nat>
    requires n <= |db|
  {
    if n == 0 then []
    else Matches(db, imsi, n - 1) + (if db[n - 1].imsi == imsi then [n - 1] else [])
  }

  lemma {:induction false} MatchesAreTheIndices(db: seq<Triplet>, imsi: string, n: nat)
    requires n <= |db|
    ensures forall x: nat :: x in Matches(db, imsi, n) <==> x < n && db[x].imsi == imsi
    ensures forall k, l | 0 <= k < l < |Matches(db, imsi, n)| :: Matches(db, imsi, n)[k] < Matches(db, imsi, n)[l]
    ensures forall k | 0 <= k < |Matches(db, imsi, n)| :: Matches(db, imsi, n)[k] < n
  {
    if n > 0 {
      MatchesAreTheIndices(db, imsi, n - 1);
    }
  }

  lemma {:induction false} MatchesPrefix(db: seq<Triplet>, imsi: string, m: nat, n: nat)
    requires m <= n <= |db|
    ensures Matches(db, imsi, m) <= Matches(db, imsi, n)
  {
    if m < n {
      MatchesPrefix(db, imsi, m, n - 1);
    }
  }

  /** First position from `from` on that holds a triplet for the IMSI, or the end of the list. */
  function FirstFrom(db: seq<Triplet>, imsi: string, from: nat): (r: nat)
    requires from <= |db|
    ensures from <= r <= |db|
    decreases |db| - from
  {
    if from == |db| || db[from].imsi == imsi then from else FirstFrom(db, imsi, from + 1)
  }

  lemma {:induction false} FirstFromIsFirst(db: seq<Triplet>, imsi: string, from: nat)
    requires from <= |db|
    ensures
      var r := FirstFrom(db, imsi, from);
      && (r < |db| ==> db[r].imsi == imsi)
      && forall x | from <= x < r :: db[x].imsi != imsi
    decreases |db| - from
  {
    if from < |db| && db[from].imsi != imsi {
      FirstFromIsFirst(db, imsi, from + 1);
    }
  }

  /** The cyclic search from the cursor: on to the end, then from the start. */
  function Found(db: seq<Triplet>, imsi: string, pos: nat): Option<nat>
    requires pos <= |db|
  {
    var a, b := FirstFrom(db, imsi, pos), FirstFrom(db, imsi, 0);
    if a < |db| then Some(a) else if b < pos then Some(b) else None
  }

  ghost predicate Has(db: seq<Triplet>, imsi: string) {
    exists x: nat :: x < |db| && db[x].imsi == imsi
  }

  /** NULL exactly when the IMSI has no triplet, wherever the cursor is. */
  lemma FoundUnlessAbsent(db: seq<Triplet>, imsi: string, pos: nat)
    requires pos <= |db|
    ensures Found(db, imsi, pos).Some? <==> Has(db, imsi)
    ensures Found(db, imsi, pos).Some? ==>
              Found(db, imsi, pos).value < |db| && db[Found(db, imsi, pos).value].imsi == imsi
  {
    FirstFromIsFirst(db, imsi, pos);
    FirstFromIsFirst(db, imsi, 0);
    if Has(db, imsi) {
      var x: nat :| x < |db| && db[x].imsi == imsi;
      assert FirstFrom(db, imsi, 0) <= x;
      assert x >= pos ==> FirstFrom(db, imsi, pos) <= x;
    }
  }

  // ---- The database ----

  class Database {
    const db: seq<Triplet>
    var pos: nat  // cursor; |db| stands for the null pointer at the end of the list

    ghost predicate Valid()
      reads this
    {
      pos <= |db|
    }

    /** Reading the file leaves the cursor null. */
    constructor (db: seq<Triplet>)
      ensures Valid() && this.db == db && pos == |db|
    {
      this.db := db;
      pos := |db|;
    }

    method GetGsmTriplet(imsi: string) returns (r: Option<nat>)
      requires Valid()
      modifies this
      ensures Valid() && r == Found(db, imsi, old(pos))
      ensures pos == if r.Some? then r.value + 1 else old(pos)
      ensures r.Some? ==> r.value < |db| && db[r.value].imsi == imsi
    {
      var g := pos;
      while g < |db|
        invariant pos <= g <= |db| && pos == old(pos)
        invariant FirstFrom(db, imsi, pos) == FirstFrom(db, imsi, g)
      {
        if db[g].imsi == imsi {
          pos := g + 1;
          return Some(g);
        }
        g := g + 1;
      }
      g := 0;
      while g < |db| && g != pos
        invariant 0 <= g <= pos <= |db| && pos == old(pos)
        invariant FirstFrom(db, imsi, 0) == FirstFrom(db, imsi, g)
        invariant FirstFrom(db, imsi, pos) == |db|
      {
        if db[g].imsi == imsi {
          pos := g + 1;
          return Some(g);
        }
        g := g + 1;
      }
      r := None;
    }

    /** The triplet loop of SIM-REQ-AUTH: as many triplets as asked for, or none at all. */
    method SimReqAuth(imsi: string, asked: Option<int>) returns (sent: seq<nat>)
      requires Valid()
      modifies this
      ensures Valid()
      ensures sent == Served(db, imsi, old(pos), |sent|)
      ensures if Has(db, imsi) then |sent| == MaxChallenges(asked) && pos == CursorAfter(db, imsi, old(pos), |sent|)
              else sent == [] && pos == old(pos)
    {
      var maxChal := MaxChallenges(asked);
      sent := [];
      while |sent| < maxChal
        invariant Valid() && |sent| <= maxChal
        invariant sent == Served(db, imsi, old(pos), |sent|)
        invariant pos == CursorAfter(db, imsi, old(pos), |sent|)
        invariant |sent| > 0 ==> Has(db, imsi)
        decreases maxChal - |sent|
      {
        ghost var n := |sent|;
        FoundUnlessAbsent(db, imsi, pos);
        ServedExtends(db, imsi, old(pos), n);
        var g := GetGsmTriplet(imsi);
        if g.None? {
          break;
        }
        sent := sent + [g.value];
      }
    }
  }

  /** A count outside 1..3, or none given, means three. */
  function MaxChallenges(asked: Option<int>): (n: nat)
    ensures 1 <= n <= MAX_CHALLENGES
  {
    if asked.Some? && 1 <= asked.value <= MAX_CHALLENGES then asked.value else MAX_CHALLENGES
  }

  lemma CountAskedIsServed(asked: Option<int>)
    ensures MaxChallenges(asked) == if asked == Some(1) then 1 else if asked == Some(2) then 2 else 3
  {
  }

  // ---- Consecutive requests for one IMSI ----

  function CursorAfter(db: seq<Triplet>, imsi: string, pos: nat, n: nat): (p: nat)
    requires pos <= |db|
    ensures p <= |db|
  {
    if n == 0 then pos
    else
      var p := CursorAfter(db, imsi, pos, n - 1);
      var f := Found(db, imsi, p);
      if f.Some? then f.value + 1 else p
  }

  /** Positions handed out by the first n of consecutive requests, as far as they are answered. */
  function Served(db: seq<Triplet>, imsi: string, pos: nat, n: nat): seq<nat>
    requires pos <= |db|
  {
    if n == 0 then []
    else
      var f := Found(db, imsi, CursorAfter(db, imsi, pos, n - 1));
      Served(db, imsi, pos, n - 1) + (if f.Some? then [f.value] else [])
  }

  lemma ServedExtends(db: seq<Triplet>, imsi: string, pos: nat, n: nat)
    requires pos <= |db|
    ensures
      var f := Found(db, imsi, CursorAfter(db, imsi, pos, n));
      f.Some? ==> Served(db, imsi, pos, n + 1) == Served(db, imsi, pos, n) + [f.value]
                  && CursorAfter(db, imsi, pos, n + 1) == f.value + 1
  {
  }

  /** How many matching positions lie before the cursor. */
  ghost function Rank(db: seq<Triplet>, imsi: string, pos: nat): nat
    requires pos <= |db|
  {
    |Matches(db, imsi, pos)|
  }

  /** The search returns the match at the cursor's rank, cyclically, and moves the cursor one rank on. */
  lemma {:induction false} FoundIsNextMatch(db: seq<Triplet>, imsi: string, pos: nat)
    requires pos <= |db| && |Matches(db, imsi, |db|)| > 0
    ensures
      var ms := Matches(db, imsi, |db|);
      var k := if Rank(db, imsi, pos) < |ms| then Rank(db, imsi, pos) else 0;
      && Found(db, imsi, pos) == Some(ms[k]) && ms[k] < |db|
      && Rank(db, imsi, ms[k] + 1) == k + 1
  {
    hide Matches, FirstFrom;
    RankOfFirst(db, imsi, pos);
    if FirstFrom(db, imsi, pos) == |db| {
      RankOfFirst(db, imsi, 0);
      NoneBelowZero(db, imsi);
      FirstFromIsFirst(db, imsi, pos);
      FirstFromIsFirst(db, imsi, 0);
    }
  }

  lemma {:induction false} NoneBelowZero(db: seq<Triplet>, imsi: string)
    ensures Matches(db, imsi, 0) == []
  {
  }

  /** The first match from a position on has that position's rank, and the next position one more. */
  lemma RankOfFirst(db: seq<Triplet>, imsi: string, pos: nat)
    requires pos <= |db|
    ensures
      var a := FirstFrom(db, imsi, pos);
      var ms := Matches(db, imsi, |db|);
      if a < |db| then
        && Rank(db, imsi, pos) < |ms| && ms[Rank(db, imsi, pos)] == a
        && Rank(db, imsi, a + 1) == Rank(db, imsi, pos) + 1
      else Matches(db, imsi, pos) == ms
  {
    var a := FirstFrom(db, imsi, pos);
    FirstFromIsFirst(db, imsi, pos);
    NoMatchBetween(db, imsi, pos, a);
    if a < |db| {
      MatchesPrefix(db, imsi, a + 1, |db|);
    }
  }

  lemma {:induction false} NoMatchBetween(db: seq<Triplet>, imsi: string, m: nat, n: nat)
    requires m <= n <= |db| && forall x | m <= x < n :: db[x].imsi != imsi
    ensures Matches(db, imsi, m) == Matches(db, imsi, n)
  {
    if m < n {
      NoMatchBetween(db, imsi, m, n - 1);
    }
  }

  /** A rank, where one past the last match means the first again. */
  function Wrapped(r: nat, m: nat): nat {
    if r < m then r else 0
  }

  /** n requests move the cursor n ranks on, cyclically. */
  lemma {:induction false} CursorCyclic(db: seq<Triplet>, imsi: string, pos: nat, n: nat)
    requires pos <= |db| && |Matches(db, imsi, |db|)| > 0
    ensures
      var m := |Matches(db, imsi, |db|)|;
      Wrapped(Rank(db, imsi, CursorAfter(db, imsi, pos, n)), m) == Residue(Rank(db, imsi, pos) + n, m)
  {
    var m := |Matches(db, imsi, |db|)|;
    if n == 0 {
      MatchesPrefix(db, imsi, pos, |db|);
    } else {
      CursorCyclic(db, imsi, pos, n - 1);
      FoundIsNextMatch(db, imsi, CursorAfter(db, imsi, pos, n - 1));
      ResidueStep(Rank(db, imsi, pos) + n - 1, m);
    }
  }

  /** The match k ranks on from the cursor, cyclically. */
  ghost function CyclicMatch(db: seq<Triplet>, imsi: string, pos: nat, k: nat): nat
    requires pos <= |db| && |Matches(db, imsi, |db|)| > 0
  {
    var ms := Matches(db, imsi, |db|);
    ms[Residue(Rank(db, imsi, pos) + k, |ms|)]
  }

  lemma NextServed(db: seq<Triplet>, imsi: string, pos: nat, n: nat)
    requires pos <= |db| && |Matches(db, imsi, |db|)| > 0
    ensures Served(db, imsi, pos, n + 1) == Served(db, imsi, pos, n) + [CyclicMatch(db, imsi, pos, n)]
  {
    CursorCyclic(db, imsi, pos, n);
    FoundIsNextMatch(db, imsi, CursorAfter(db, imsi, pos, n));
  }

  ghost function CyclicMatches(db: seq<Triplet>, imsi: string, pos: nat, n: nat): (r: seq<nat>)
    requires pos <= |db| && |Matches(db, imsi, |db|)| > 0
    ensures |r| == n
  {
    seq(n, k requires 0 <= k < n => CyclicMatch(db, imsi, pos, k))
  }

  /** The k-th of n consecutive requests gets the match k ranks further on, cyclically. */
  lemma {:induction false} ServedCyclically(db: seq<Triplet>, imsi: string, pos: nat, n: nat)
    requires pos <= |db| && |Matches(db, imsi, |db|)| > 0
    ensures Served(db, imsi, pos, n) == CyclicMatches(db, imsi, pos, n)
  {
    if n > 0 {
      ServedCyclically(db, imsi, pos, n - 1);
      NextServed(db, imsi, pos, n - 1);
    }
  }

  /** As many consecutive requests as the IMSI has triplets return each of them exactly once. */
  lemma {:induction false} EachTripletOnce(db: seq<Triplet>, imsi: string, pos: nat)
    requires pos <= |db|
    ensures
      var m := |Matches(db, imsi, |db|)|;
      var s := Served(db, imsi, pos, m);
      && |s| == m
      && (forall k, l | 0 <= k < l < m :: s[k] != s[l])
      && (forall x: nat :: x in s <==> x < |db| && db[x].imsi == imsi)
  {
    var ms := Matches(db, imsi, |db|);
    var m := |ms|;
    MatchesAreTheIndices(db, imsi, |db|);
    if m > 0 {
      ServedDistinct(db, imsi, pos);
      forall x: nat | x < |db| && db[x].imsi == imsi
        ensures x in Served(db, imsi, pos, m)
      {
        var i :| 0 <= i < m && ms[i] == x;
        ServedHits(db, imsi, pos, i);
      }
    }
  }

  lemma {:induction false} ServedDistinct(db: seq<Triplet>, imsi: string, pos: nat)
    requires pos <= |db| && |Matches(db, imsi, |db|)| > 0
    ensures
      var m := |Matches(db, imsi, |db|)|;
      var s := Served(db, imsi, pos, m);
      && |s| == m
      && (forall k | 0 <= k < m :: s[k] in Matches(db, imsi, |db|))
      && (forall k, l | 0 <= k < l < m :: s[k] != s[l])
  {
    var ms := Matches(db, imsi, |db|);
    var r := Rank(db, imsi, pos);
    var s := Served(db, imsi, pos, |ms|);
    MatchesAreTheIndices(db, imsi, |db|);
    ServedCyclically(db, imsi, pos, |ms|);
    forall k, l | 0 <= k < l < |ms|
      ensures s[k] != s[l]
    {
      ResidueAdd(r + k, l - k, |ms|);
    }
  }

  lemma {:induction false} ServedHits(db: seq<Triplet>, imsi: string, pos: nat, i: nat)
    requires pos <= |db| && i < |Matches(db, imsi, |db|)|
    ensures Matches(db, imsi, |db|)[i] in Served(db, imsi, pos, |Matches(db, imsi, |db|)|)
  {
    var ms := Matches(db, imsi, |db|);
    var r := Rank(db, imsi, pos);
    ServedCyclically(db, imsi, pos, |ms|);
    var b := Residue(r, |ms|);
    var k := if b <= i then i - b else i - b + |ms|;
    ResidueAdd(r, k, |ms|);
    assert Served(db, imsi, pos, |ms|)[k] == ms[i];
  }
}
