/**
 AKA sequence numbers of the HLR/AuC gateway: SQN = SEQ || IND in 48 bits, with IND in the
 low `indLen` bits. `inc_sqn` increments both parts by one.
 */
module Sqn {
  import opened Arith
  import opened Bits
  import opened Bytes
  import opened PacketNumber

  type Octets6 = s: seq<bv8> | |s| == 6 witness [0, 0, 0, 0, 0, 0]

  lemma Pow2Of48()
    ensures Pow2(48) == CYCLE
  {
    assert Pow2(8) == 256;
    Pow2Product(8, 8);
    Pow2Product(16, 16);
    Pow2Product(32, 16);
  }

  // ---- Octets ----

  /** The octet with value v. */
  function Octet(v: nat): (b: bv8)
    requires v < 256
    ensures b as int == v
  {
    if v == 0 then 0 else Successor(Octet(v - 1), v - 1)
  }

  function Successor(b: bv8, v: nat): (c: bv8)
    requires b as int == v < 255
    ensures c as int == v + 1
  {
    assert b != 0xff by {
      if b == 0xff {
        LastOctetWraps(b);
      }
    }
    OctetIncrement(b);
    b + 1
  }

  /** The n-octet big-endian encoding of v; higher bits are dropped. */
  function Encode(v: nat, n: nat): (s: seq<bv8>)
    ensures |s| == n
  {
    if n == 0 then [] else Encode(v / 256, n - 1) + [Octet(v % 256)]
  }

  lemma {:induction false} EncodeValue(v: nat, n: nat)
    requires v < Pow256(n)
    ensures Value(Encode(v, n)) == v
  {
    if n > 0 {
      EncodeValue(v / 256, n - 1);
      LastOctetCounts(Encode(v, n), Encode(v / 256, n - 1), Octet(v % 256));
    }
  }

  // ---- inc_sqn on the two parts ----

  function Seq(v: nat, ind: nat): nat
    requires ind > 0
  {
    v / ind
  }

  function Ind(v: nat, ind: nat): nat
    requires ind > 0
  {
    v % ind
  }

  /** SQN number after one increment, for IND taking `ind` values; what exceeds 48 bits is lost when stored. */
  function Next(v: nat, ind: nat): (r: nat)
    requires ind > 0
    ensures r < CYCLE
  {
    ((v / ind + 1) * ind + (v + 1) % ind) % CYCLE
  }

  /** The numbers that WPA_GET_BE32 and WPA_GET_BE16 read, put together. */
  lemma {:induction false} SqnFromWords(sqn: Octets6)
    ensures Or(Shl(Value(sqn[..4]), 16), Value(sqn[4..])) == Value(sqn)
  {
    hide Or, Shl;
    ValueBound(sqn[..4]);
    ValueBound(sqn[4..]);
    Pow2Of16();
    ValueOfJoined(sqn);
    ShlIsProduct(Value(sqn[..4]), 16);
    OrIsSum(Value(sqn[..4]), 16, Value(sqn[4..]));
  }

  lemma {:induction false} ValueOfJoined(sqn: Octets6)
    ensures Value(sqn) == Value(sqn[..4]) * 0x1_0000 + Value(sqn[4..])
  {
    var a, b := sqn[4], sqn[5];
    LastOctetCounts(sqn, sqn[..5], b);
    LastOctetCounts(sqn[..5], sqn[..4], a);
    LastOctetCounts(sqn[4..], [a], b);
    LastOctetCounts([a], [], a);
    assert sqn[..5] == sqn[..4] + [a] && sqn[4..] == [a] + [b];
  }

  /** The six octets that WPA_PUT_BE32 and WPA_PUT_BE16 write hold the low 48 bits. */
  lemma {:induction false} WordsOfSqn(val: nat)
    requires val < U64
    ensures Value(Encode(Shr(val, 16) % 0x1_0000_0000, 4) + Encode(And(val, 0xffff), 2)) == val % CYCLE
  {
    hide Shr, And, Encode, Value, Pow2, Pow256;
    Pow2Of16();
    ShrIsDivision(val, 16);
    MaskIsRemainder(val, 16);
    var hi, lo := val / 0x1_0000 % 0x1_0000_0000, val % 0x1_0000;
    EncodeValue(hi, 4);
    EncodeValue(lo, 2);
    var s := Encode(hi, 4) + Encode(lo, 2);
    assert s[..4] == Encode(hi, 4) && s[4..] == Encode(lo, 2);
    ValueOfJoined(s);
    assert val % CYCLE == hi * 0x1_0000 + lo;
  }

  lemma Pow2Of16()
    ensures Pow2(16) == 0x1_0000 && Pow256(2) == 0x1_0000 && Pow256(4) == 0x1_0000_0000
  {
    assert Pow2(8) == 256;
    Pow2Product(8, 8);
  }

  /** The shifts, the mask and the `|` on the 64-bit value add one to either part. */
  lemma {:induction false} IncrementByBits(val: nat, indLen: nat)
    requires val < CYCLE && indLen <= 30
    ensures
      var p := Shl(1, indLen);
      p > 0 &&
      var r := Or(Shl(Shr(val, indLen) + 1, indLen), And(val + 1, p - 1));
      r < U64 && r % CYCLE == Next(val, Pow2(indLen))
  {
    hide Shr, Shl, And, Or, Pow2;
    var p := Pow2(indLen);
    SmallPow2(indLen);
    ShlIsProduct(1, indLen);
    ShrIsDivision(val, indLen);
    MaskIsRemainder(val + 1, indLen);
    RoundedUp(val, p);
    ShlIsProduct(val / p + 1, indLen);
    OrIsSum(val / p + 1, indLen, (val + 1) % p);
  }

  lemma {:induction false} SmallPow2(k: nat)
    requires k <= 30
    ensures 1 * Pow2(k) <= 0x1_0000_0000
    decreases 30 - k
  {
    if k < 30 {
      SmallPow2(k + 1);
    } else {
      assert Pow2(10) == 1024;
      Pow2Product(10, 10);
      Pow2Product(20, 10);
    }
  }

  lemma RoundedUp(val: nat, p: nat)
    requires 0 < p <= 0x1_0000_0000 && val < CYCLE
    ensures (val / p + 1) * p <= CYCLE + 0x1_0000_0000
  {
    assert val == val / p * p + val % p;
    assert (val / p + 1) * p == val / p * p + p;
  }

  method IncSqn(sqn: array<bv8>, indLen: nat)
    requires sqn.Length == 6 && indLen <= 30
    modifies sqn
    ensures Value(sqn[..]) == Next(Value(old(sqn[..])), Pow2(indLen))
    ensures Seq(Value(sqn[..]), Pow2(indLen)) == (Seq(Value(old(sqn[..])), Pow2(indLen)) + 1) % Pow2(48 - indLen)
    ensures Ind(Value(sqn[..]), Pow2(indLen)) == (Ind(Value(old(sqn[..])), Pow2(indLen)) + 1) % Pow2(indLen)
  {
    hide Pow2, Value, Encode, Pow256, Or, And, Shl, Shr, Next, Seq, Ind;
    ghost var was := Value(sqn[..]);
    SqnFromWords(sqn[..]);
    SqnBound(sqn[..]);
    IncrementByBits(was, indLen);
    FieldsOfNext(was, indLen);
    assert sqn[..][..4] == sqn[..4] && sqn[..][4..] == sqn[4..];
    var val := Or(Shl(Value(sqn[..4]), 16), Value(sqn[4..]));
    var sq := Shr(val, indLen) + 1;
    var ind := And(val + 1, Shl(1, indLen) - 1);
    val := Or(Shl(sq, indLen), ind);
    WordsOfSqn(val);
    var out := Encode(Shr(val, 16) % 0x1_0000_0000, 4) + Encode(And(val, 0xffff), 2);
    forall k | 0 <= k < 6 {
      sqn[k] := out[k];
    }
    assert sqn[..] == out;
  }

  lemma {:induction false} SqnBound(sqn: Octets6)
    ensures Value(sqn) < CYCLE
  {
    ValueBound(sqn);
    CycleIsPow256();
  }

  /** SEQ || IND. */
  function Joined(s: nat, i: nat, p: nat): nat {
    s * p + i
  }

  lemma JoinedInRange(s: nat, i: nat, p: nat, q: nat)
    requires 0 < p && i < p && s < q && p * q == CYCLE
    ensures Joined(s, i, p) < CYCLE
  {
    assert (q - 1 - s) * p >= 0;
    assert (q - 1 - s) * p == q * p - p - s * p;
  }

  lemma NextByParts(s: nat, i: nat, p: nat, q: nat)
    requires 0 < p && i < p && s < q && p * q == CYCLE
    ensures
      var s', i' := if s + 1 == q then 0 else s + 1, if i + 1 == p then 0 else i + 1;
      Next(Joined(s, i, p), p) == Joined(s', i', p) && i' < p && s' < q
  {
    var v := s * p + i;
    DivModUnique(v, p, s, i);
    ModStep(v, p);
    var i' := if i + 1 == p then 0 else i + 1;
    assert Next(v, p) == Joined(s + 1, i', p) % CYCLE;
    WrapJoined(s + 1, i', p, q);
  }

  lemma WrapJoined(s: nat, i: nat, p: nat, q: nat)
    requires i < p && s <= q && p * q == CYCLE
    ensures Joined(s, i, p) % CYCLE == Joined(if s == q then 0 else s, i, p)
  {
    if s == q {
      JoinedInRange(0, i, p, q);
    } else {
      JoinedInRange(s, i, p, q);
    }
  }

  // ---- n increments ----

  function After(v: nat, ind: nat, n: nat): nat
    requires ind > 0
  {
    if n == 0 then v else Next(After(v, ind, n - 1), ind)
  }

  lemma Ranges(indLen: nat)
    requires indLen <= 30
    ensures Pow2(indLen) * Pow2(48 - indLen) == CYCLE
  {
    Pow2Product(indLen, 48 - indLen);
    Pow2Of48();
  }

  /** Every 48-bit number has a SEQ and an IND part. */
  lemma Parts(v: nat, p: nat, q: nat)
    requires p > 0 && p * q == CYCLE && v < CYCLE
    ensures v == Joined(Seq(v, p), Ind(v, p), p) && Ind(v, p) < p && Seq(v, p) < q
  {
    var s := v / p;
    assert s >= q ==> (s - q) * p >= 0;
    assert s * p == q * p + (s - q) * p;
  }

  /** n increments give SEQ + n modulo 2^(48-len) and IND + n modulo 2^len. */
  lemma {:induction false} AfterByParts(s: nat, i: nat, indLen: nat, n: nat)
    requires indLen <= 30 && i < Pow2(indLen) && s < Pow2(48 - indLen)
    ensures
      var p, q := Pow2(indLen), Pow2(48 - indLen);
      After(Joined(s, i, p), p, n) == Joined((s + n) % q, (i + n) % p, p)
  {
    hide Pow2, Joined, After;
    AfterByResidues(s, i, indLen, n);
    ResidueIsRemainder(s + n, Pow2(48 - indLen));
    ResidueIsRemainder(i + n, Pow2(indLen));
  }

  lemma {:induction false} AfterByResidues(s: nat, i: nat, indLen: nat, n: nat)
    requires indLen <= 30 && i < Pow2(indLen) && s < Pow2(48 - indLen)
    ensures
      var p, q := Pow2(indLen), Pow2(48 - indLen);
      After(Joined(s, i, p), p, n) == Joined(Residue(s + n, q), Residue(i + n, p), p)
  {
    var p, q := Pow2(indLen), Pow2(48 - indLen);
    if n > 0 {
      AfterByResidues(s, i, indLen, n - 1);
      Ranges(indLen);
      NextByParts(Residue(s + n - 1, q), Residue(i + n - 1, p), p, q);
      ResidueStep(s + n - 1, q);
      ResidueStep(i + n - 1, p);
    }
  }

  lemma {:induction false} AfterSteps(v: nat, indLen: nat, n: nat)
    requires v < CYCLE && indLen <= 30
    ensures
      var p, q := Pow2(indLen), Pow2(48 - indLen);
      && Seq(After(v, p, n), p) == Residue(Seq(v, p) + n, q)
      && Ind(After(v, p, n), p) == Residue(Ind(v, p) + n, p)
  {
    var p, q := Pow2(indLen), Pow2(48 - indLen);
    Ranges(indLen);
    Parts(v, p, q);
    var s, i := Seq(v, p), Ind(v, p);
    AfterByResidues(s, i, indLen, n);
    DivModUnique(After(v, p, n), p, Residue(s + n, q), Residue(i + n, p));
  }

  lemma FieldsOfNext(v: nat, indLen: nat)
    requires v < CYCLE && indLen <= 30
    ensures Seq(Next(v, Pow2(indLen)), Pow2(indLen)) == (Seq(v, Pow2(indLen)) + 1) % Pow2(48 - indLen)
    ensures Ind(Next(v, Pow2(indLen)), Pow2(indLen)) == (Ind(v, Pow2(indLen)) + 1) % Pow2(indLen)
  {
    hide Pow2, Next, Seq, Ind;
    var p, q := Pow2(indLen), Pow2(48 - indLen);
    AfterSteps(v, indLen, 1);
    assert After(v, p, 1) == Next(After(v, p, 0), p) == Next(v, p);
    ResidueIsRemainder(Seq(v, p) + 1, q);
    ResidueIsRemainder(Ind(v, p) + 1, p);
  }

  lemma LargerSeqIsLarger(s: nat, i: nat, t: nat, j: nat, p: nat)
    requires s < t && i < p
    ensures Joined(s, i, p) < Joined(t, j, p)
  {
    assert (t - s - 1) * p >= 0;
    assert t * p == s * p + p + (t - s - 1) * p;
  }

  /** Until SEQ wraps, later sequence numbers are strictly larger. */
  lemma {:induction false} StrictlyIncreasing(v: nat, indLen: nat, m: nat, n: nat)
    requires v < CYCLE && indLen <= 30 && m < n
    requires Seq(v, Pow2(indLen)) + n < Pow2(48 - indLen)
    ensures After(v, Pow2(indLen), m) < After(v, Pow2(indLen), n)
  {
    var p, q := Pow2(indLen), Pow2(48 - indLen);
    Ranges(indLen);
    Parts(v, p, q);
    var s, i := Seq(v, p), Ind(v, p);
    AfterByResidues(s, i, indLen, m);
    AfterByResidues(s, i, indLen, n);
    LargerSeqIsLarger(s + m, Residue(i + m, p), s + n, Residue(i + n, p), p);
  }

  function IndAfter(v: nat, indLen: nat, n: nat): nat {
    Ind(After(v, Pow2(indLen), n), Pow2(indLen))
  }

  /** Any 2^len consecutive sequence numbers take every IND value, and take none twice. */
  lemma {:induction false} VisitsEachIndOnce(v: nat, indLen: nat, start: nat, target: nat)
    requires v < CYCLE && indLen <= 30 && target < Pow2(indLen)
    ensures exists k: nat :: start <= k < start + Pow2(indLen) && IndAfter(v, indLen, k) == target
    ensures forall k: nat, l: nat | start <= k < l < start + Pow2(indLen) ::
              IndAfter(v, indLen, k) != IndAfter(v, indLen, l)
  {
    hide Ind, Seq, After, Pow2, Residue;
    var p := Pow2(indLen);
    var base := Ind(v, p) + start;
    var r := Residue(base, p);
    var d := if r <= target then target - r else target - r + p;
    ResidueAdd(base, d, p);
    AfterSteps(v, indLen, start + d);
    assert IndAfter(v, indLen, start + d) == target;
    forall k: nat, l: nat | start <= k < l < start + p
      ensures IndAfter(v, indLen, k) != IndAfter(v, indLen, l)
    {
      IndsDiffer(v, indLen, k, l);
    }
  }

  lemma {:induction false} IndsDiffer(v: nat, indLen: nat, k: nat, l: nat)
    requires v < CYCLE && indLen <= 30 && k < l < k + Pow2(indLen)
    ensures IndAfter(v, indLen, k) != IndAfter(v, indLen, l)
  {
    hide Ind, Seq, After, Pow2, Residue;
    var p := Pow2(indLen);
    AfterSteps(v, indLen, k);
    AfterSteps(v, indLen, l);
    ResidueAdd(Ind(v, p) + k, l - k, p);
  }

  // ---- Runs of requests for one subscriber ----

  datatype Request = Authenticate | Resynchronise(sqn: Octets6)

  /** SQN of a subscriber after the first n requests; v is what it starts from. */
  ghost function SqnAt(v: nat, rs: seq<Request>, ind: nat, n: nat): nat
    requires ind > 0 && n <= |rs|
  {
    if n == 0 then v
    else if rs[n - 1].Authenticate? then Next(SqnAt(v, rs, ind, n - 1), ind)
    else Value(rs[n - 1].sqn)
  }

  lemma {:induction false} SqnInRange(v: nat, rs: seq<Request>, ind: nat, n: nat)
    requires ind > 0 && n <= |rs| && v < CYCLE
    ensures SqnAt(v, rs, ind, n) < CYCLE
  {
    hide Next, Value;
    if n > 0 && rs[n - 1].Resynchronise? {
      ValueBound(rs[n - 1].sqn);
      CycleIsPow256();
    }
  }

  lemma {:induction false} SqnSinceResync(v: nat, rs: seq<Request>, ind: nat, m: nat, n: nat)
    requires ind > 0 && m <= n <= |rs| && forall k | m <= k < n :: rs[k].Authenticate?
    ensures SqnAt(v, rs, ind, n) == After(SqnAt(v, rs, ind, m), ind, n - m)
  {
    hide Next, Value;
    if m < n {
      SqnSinceResync(v, rs, ind, m, n - 1);
    }
  }

  /**
   Over every run, authentications between two re-synchronisations use strictly increasing numbers
   until SEQ wraps.
   */
  lemma {:induction false} IncreasingBetweenResyncs(v: nat, rs: seq<Request>, indLen: nat, m: nat, i: nat, j: nat)
    requires v < CYCLE && indLen <= 30 && m <= i < j <= |rs| && forall k | m <= k < j :: rs[k].Authenticate?
    requires Seq(SqnAt(v, rs, Pow2(indLen), m), Pow2(indLen)) + (j - m) < Pow2(48 - indLen)
    ensures SqnAt(v, rs, Pow2(indLen), i) < SqnAt(v, rs, Pow2(indLen), j)
  {
    hide Pow2, Next, Seq, SqnAt, After;
    SqnInRange(v, rs, Pow2(indLen), m);
    SqnSinceResync(v, rs, Pow2(indLen), m, i);
    SqnSinceResync(v, rs, Pow2(indLen), m, j);
    StrictlyIncreasing(SqnAt(v, rs, Pow2(indLen), m), indLen, i - m, j - m);
  }

  // ---- The gateway's subscribers ----

  /** SQN of every Milenage subscriber, by IMSI. */
  class Subscribers {
    const indLen: nat
    var sqn: map<string, Octets6>

    constructor (indLen: nat, sqn: map<string, Octets6>)
      requires indLen <= 30
      ensures this.indLen == indLen && this.sqn == sqn
    {
      this.indLen := indLen;
      this.sqn := sqn;
    }

    /** AKA-REQ-AUTH: uses the next sequence number; an unknown IMSI fails and changes nothing. */
    method AkaReqAuth(imsi: string) returns (used: Option<Octets6>)
      requires indLen <= 30
      modifies this
      ensures used.None? <==> imsi !in old(sqn)
      ensures used.None? ==> sqn == old(sqn)
      ensures used.Some? ==> sqn == old(sqn)[imsi := used.value]
                             && Value(used.value) == Next(Value(old(sqn)[imsi]), Pow2(indLen))
    {
      if imsi !in sqn {
        return None;
      }
      var a := new bv8[6];
      var was := sqn[imsi];
      forall i | 0 <= i < 6 {
        a[i] := was[i];
      }
      assert a[..] == was;
      IncSqn(a, indLen);
      sqn := sqn[imsi := a[..]];
      used := Some(a[..]);
    }

    /** AKA-AUTS: `resync` is the SQN recovered from AUTS when its MAC-S is right. */
    method AkaAuts(imsi: string, resync: Option<Octets6>) returns (ok: bool)
      modifies this
      ensures ok <==> imsi in old(sqn)
      ensures sqn == if ok && resync.Some? then old(sqn)[imsi := resync.value] else old(sqn)
    {
      ok := imsi in sqn;
      if ok && resync.Some? {
        sqn := sqn[imsi := resync.value];
      }
    }
  }
}
