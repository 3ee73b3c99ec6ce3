/**
 Packet numbers as big-endian octet arrays: the value they stand for, their order under
 memcmp and their increment in place.
 */
module PacketNumber {

  function Pow256(n: nat): (r: nat)
    ensures r > 0
  {
    if n == 0 then 1 else Pow256(n - 1) * 256
  }

  /** The number a big-endian octet array stands for. */
  function Value(s: seq<bv8>): nat {
    if |s| == 0 then 0 else Value(s[..|s| - 1]) * 256 + s[|s| - 1] as int
  }

  /** Most significant octet first. */
  lemma {:induction false} ValueOfOctets(a: bv8, b: bv8, c: bv8)
    ensures Value([]) == 0 && Value([a]) == a as int && Value([a, b]) == 256 * (a as int) + b as int
    ensures Value([a, b, c]) == 0x1_0000 * (a as int) + 256 * (b as int) + c as int
  {
    LastOctetCounts([a], [], a);
    LastOctetCounts([a, b], [a], b);
    LastOctetCounts([a, b, c], [a, b], c);
  }

  lemma {:induction false} ValueBound(s: seq<bv8>)
    ensures Value(s) < Pow256(|s|)
  {
    if |s| > 0 {
      ValueBound(s[..|s| - 1]);
    }
  }

  lemma OctetValueInjective(a: bv8, b: bv8)
    requires a as int == b as int
    ensures a == b
  {
  }

  lemma {:induction false} ValueInjective(a: seq<bv8>, b: seq<bv8>)
    requires |a| == |b| && Value(a) == Value(b)
    ensures a == b
  {
    if |a| > 0 {
      var n := |a| - 1;
      assert a[n] as int == b[n] as int && Value(a[..n]) == Value(b[..n]);
      OctetValueInjective(a[n], b[n]);
      ValueInjective(a[..n], b[..n]);
      assert a == a[..n] + [a[n]] && b == b[..n] + [b[n]];
    }
  }

  // ---- Packet numbers in the IV header of a frame ----

  /** TKIP: TSC2 to TSC5 in octets 4 to 7, TSC1 and TSC0 in octets 0 and 2. */
  function TkipPn(iv: seq<bv8>): (pn: seq<bv8>)
    requires |iv| >= 8
    ensures |pn| == 6
  {
    [iv[7], iv[6], iv[5], iv[4], iv[0], iv[2]]
  }

  /** CCMP and GCMP: PN2 to PN5 in octets 4 to 7, PN1 and PN0 in octets 1 and 0. */
  function CcmpPn(iv: seq<bv8>): (pn: seq<bv8>)
    requires |iv| >= 8
    ensures |pn| == 6
  {
    [iv[7], iv[6], iv[5], iv[4], iv[1], iv[0]]
  }

  // ---- memcmp ----

  /** Sign of memcmp: decided by the first octet that differs. */
  function Compare(a: seq<bv8>, b: seq<bv8>): int
    requires |a| == |b|
  {
    if |a| == 0 then 0
    else if (a[0] as int) < (b[0] as int) then -1
    else if (b[0] as int) < (a[0] as int) then 1
    else Compare(a[1..], b[1..])
  }

  lemma {:induction false} CompareByLastOctet(a: seq<bv8>, b: seq<bv8>)
    requires |a| == |b| > 0
    ensures
      var n := |a| - 1;
      Compare(a, b) == if Compare(a[..n], b[..n]) != 0 then Compare(a[..n], b[..n])
                       else if (a[n] as int) < (b[n] as int) then -1
                       else if (b[n] as int) < (a[n] as int) then 1 else 0
  {
    var n := |a| - 1;
    if n == 0 {
      assert a[..0] == [] && b[..0] == [] && a[1..] == [] && b[1..] == [];
    } else {
      assert a[1..][..n - 1] == a[..n][1..] && b[1..][..n - 1] == b[..n][1..];
      CompareByLastOctet(a[1..], b[1..]);
    }
  }

  /** The octet-wise comparison of equally long arrays is the order of the numbers they stand for. */
  lemma {:induction false} CompareIsNumericOrder(a: seq<bv8>, b: seq<bv8>)
    requires |a| == |b|
    ensures Compare(a, b) < 0 <==> Value(a) < Value(b)
    ensures Compare(a, b) == 0 <==> Value(a) == Value(b)
  {
    if |a| > 0 {
      hide Value, Compare;
      var n := |a| - 1;
      assert a == a[..n] + [a[n]] && b == b[..n] + [b[n]];
      CompareByLastOctet(a, b);
      CompareIsNumericOrder(a[..n], b[..n]);
      LastOctetCounts(a, a[..n], a[n]);
      LastOctetCounts(b, b[..n], b[n]);
      LastDigitBreaksTies(Value(a[..n]), a[n] as int, Value(b[..n]), b[n] as int);
    }
  }

  lemma LastDigitBreaksTies(x: nat, u: nat, y: nat, v: nat)
    requires u < 256 && v < 256
    ensures x * 256 + u < y * 256 + v <==> x < y || (x == y && u < v)
    ensures x * 256 + u == y * 256 + v <==> x == y && u == v
  {
  }

  // ---- inc_byte_array ----

  /** Ripple-carry increment, most significant octet first. */
  function Incremented(s: seq<bv8>): (r: seq<bv8>)
    ensures |r| == |s|
  {
    if |s| == 0 then []
    else if s[|s| - 1] == 0xff then Incremented(s[..|s| - 1]) + [0]
    else s[..|s| - 1] + [s[|s| - 1] + 1]
  }

  lemma OctetIncrement(b: bv8)
    requires b != 0xff
    ensures (b + 1) as int == b as int + 1
    ensures b + 1 != 0
  {
  }

  lemma LastOctetWraps(b: bv8)
    requires b == 0xff
    ensures b + 1 == 0 && b as int == 255
  {
  }

  lemma {:induction false} LastOctetCounts(s: seq<bv8>, t: seq<bv8>, last: bv8)
    requires |s| > 0 && s == t + [last]
    ensures Value(s) == Value(t) * 256 + last as int
  {
    assert s[..|s| - 1] == t;
  }

  lemma CarryReachesEnd(v: nat, p: nat)
    ensures v * 256 + 255 + 1 == p * 256 <==> v + 1 == p
  {
  }

  lemma CarryStaysInside(v: nat, p: nat, octet: nat)
    requires v < p && octet + 1 < 256
    ensures v * 256 + octet + 1 != p * 256
  {
  }

  lemma Pow256Step(n: nat)
    ensures Pow256(n + 1) == Pow256(n) * 256
  {
  }

  lemma LastSplit(s: seq<bv8>)
    requires |s| > 0
    ensures s == s[..|s| - 1] + [s[|s| - 1]]
  {
  }

  lemma {:induction false} NoCarryFrom(s: seq<bv8>, up: bv8)
    requires |s| > 0 && Incremented(s) == s[..|s| - 1] + [up] && up as int == s[|s| - 1] as int + 1
    ensures Value(Incremented(s)) == Value(s) + 1 && Value(s) + 1 != Pow256(|s|)
  {
    hide Value, Pow256, Incremented;
    var n := |s| - 1;
    var last := s[n];
    Pow256Step(n);
    LastSplit(s);
    ValueBound(s[..n]);
    LastOctetCounts(s, s[..n], last);
    LastOctetCounts(Incremented(s), s[..n], up);
    OctetBound(up);
    OneMore(Value(s[..n]), Pow256(n), last as int, up as int, Value(s), Value(Incremented(s)), Pow256(|s|));
  }

  lemma OctetBound(b: bv8)
    ensures b as int < 256
  {
  }

  lemma OneMore(head: nat, p: nat, last: nat, up: nat, x: nat, y: nat, q: nat)
    requires head < p && up == last + 1 < 256 && x == head * 256 + last && y == head * 256 + up && q == p * 256
    ensures y == x + 1 && x + 1 != q
  {
    CarryStaysInside(head, p, last);
  }

  lemma {:induction false} NoCarryValue(s: seq<bv8>)
    requires |s| > 0 && s[|s| - 1] != 0xff
    ensures Value(Incremented(s)) == Value(s) + 1 && Value(s) + 1 != Pow256(|s|)
  {
    hide Value, Pow256, Incremented;
    var last := s[|s| - 1];
    OctetIncrement(last);
    CarryStops(s, last + 1);
    NoCarryFrom(s, last + 1);
  }

  lemma CarryValue(s: seq<bv8>)
    requires |s| > 0 && s[|s| - 1] == 0xff
    ensures
      var n := |s| - 1;
      && Value(s) == Value(s[..n]) * 256 + 255 && Pow256(|s|) == Pow256(n) * 256
      && Value(Incremented(s)) == Value(Incremented(s[..n])) * 256
  {
    hide Value, Pow256, Incremented;
    var n := |s| - 1;
    Pow256Step(n);
    LastSplit(s);
    LastOctetWraps(s[n]);
    CarryGoesOn(s, 0);
    LastOctetCounts(s, s[..n], s[n]);
    LastOctetCounts(Incremented(s), Incremented(s[..n]), 0);
  }

  /** The increment adds one, and wraps to zero from the largest number of that length. */
  lemma {:induction false} IncrementedValue(s: seq<bv8>)
    ensures Value(Incremented(s)) == if Value(s) + 1 == Pow256(|s|) then 0 else Value(s) + 1
  {
    if |s| > 0 {
      hide Value, Pow256, Incremented;
      var n := |s| - 1;
      if s[n] == 0xff {
        IncrementedValue(s[..n]);
        CarryValue(s);
        CarryReachesEnd(Value(s[..n]), Pow256(n));
      } else {
        NoCarryValue(s);
      }
    }
  }

  method IncByteArray(counter: array<bv8>)
    modifies counter
    ensures counter[..] == Incremented(old(counter[..]))
  {
    ghost var was := counter[..];
    var pos := counter.Length - 1;
    assert was[..pos + 1] == was;
    while pos >= 0
      invariant -1 <= pos < counter.Length
      invariant counter[..pos + 1] == was[..pos + 1]
      invariant Incremented(was) == Incremented(was[..pos + 1]) + counter[pos + 1..]
    {
      ghost var before := counter[..];
      ghost var head := was[..pos + 1];
      assert head[..pos] == was[..pos];
      counter[pos] := counter[pos] + 1;
      assert counter[pos + 1..] == before[pos + 1..];
      assert counter[..pos] == was[..pos];
      if counter[pos] != 0 {
        CarryStops(head, counter[pos]);
        assert counter[..] == counter[..pos] + [counter[pos]] + counter[pos + 1..];
        return;
      }
      CarryGoesOn(head, counter[pos]);
      assert counter[pos..] == [counter[pos]] + counter[pos + 1..];
      pos := pos - 1;
    }
  }

  lemma {:induction false} CarryStops(s: seq<bv8>, last: bv8)
    requires |s| > 0 && last == s[|s| - 1] + 1 && last != 0
    ensures Incremented(s) == s[..|s| - 1] + [last]
  {
  }

  lemma {:induction false} CarryGoesOn(s: seq<bv8>, last: bv8)
    requires |s| > 0 && last == s[|s| - 1] + 1 && last == 0
    ensures Incremented(s) == Incremented(s[..|s| - 1]) + [last]
  {
  }

  // ---- Many increments ----

  function IncrementedTimes(s: seq<bv8>, n: nat): (r: seq<bv8>)
    ensures |r| == |s|
  {
    if n == 0 then s else Incremented(IncrementedTimes(s, n - 1))
  }

  /** 2^48, the number of packet numbers. */
  const CYCLE: nat := 0x1_0000_0000_0000

  lemma CycleIsPow256()
    ensures Pow256(6) == CYCLE
  {
    assert Pow256(2) == 0x1_0000;
    assert Pow256(4) == 0x1_0000_0000;
  }

  lemma {:induction false} IncrementedTimesValue(s: seq<bv8>, n: nat)
    requires |s| == 6
    ensures Value(IncrementedTimes(s, n)) == (Value(s) + n) % CYCLE
  {
    CycleIsPow256();
    if n == 0 {
      ValueBound(s);
    } else {
      IncrementedTimesValue(s, n - 1);
      IncrementedValue(IncrementedTimes(s, n - 1));
      WrapIsMod(Value(s) + n - 1);
    }
  }

  lemma WrapIsMod(x: nat)
    ensures (x + 1) % CYCLE == if x % CYCLE + 1 == CYCLE then 0 else x % CYCLE + 1
  {
  }

  lemma SameResidue(x: nat, d: nat)
    ensures x % CYCLE == (x + d) % CYCLE <==> d % CYCLE == 0
  {
  }

  /** Two of the values a 48-bit counter runs through are equal exactly when whole cycles lie between them. */
  lemma {:induction false} RepeatsOnlyAfterCycle(s: seq<bv8>, m: nat, n: nat)
    requires |s| == 6 && m <= n
    ensures IncrementedTimes(s, m) == IncrementedTimes(s, n) <==> (n - m) % CYCLE == 0
  {
    hide Value, IncrementedTimes;
    IncrementedTimesValue(s, m);
    IncrementedTimesValue(s, n);
    SameResidue(Value(s) + m, n - m);
    if Value(IncrementedTimes(s, m)) == Value(IncrementedTimes(s, n)) {
      ValueInjective(IncrementedTimes(s, m), IncrementedTimes(s, n));
    }
  }
}
