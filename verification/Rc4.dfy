/**
 RC4 as `wep_crypt` computes it.
 The state S is a sequence of naturals below 256; only the keystream octet is turned
 into a `bv8`, where it is XORed into the buffer.
 */
module Rc4 {

  // ---- Specification ----

  /** S is a permutation of 0..255. */
  ghost predicate IsPermutation(s: seq<nat>) {
    && IsState(s)
    && (forall x, y | 0 <= x < y < 256 :: s[x] != s[y])
  }

  ghost function Swap(s: seq<nat>, a: nat, b: nat): (r: seq<nat>)
    requires a < |s| && b < |s|
    ensures |r| == |s|
  {
    s[a := s[b]][b := s[a]]
  }

  /** 256 octet values. */
  ghost predicate IsState(s: seq<nat>) {
    |s| == 256 && forall x | 0 <= x < 256 :: s[x] < 256
  }

  datatype Schedule = Schedule(s: seq<nat>, j: nat)

  /** Where the next swap goes: the octet of the state and the octet of the key are added in. */
  function MixedIn(j: nat, octet: nat, key: bv8): (r: nat)
    ensures r < 256
  {
    (j + octet + key as int) % 256
  }

  /** The first n swaps of RC4 key setup for a key of any length: octet i % |key| is mixed in at step i. */
  ghost function KeySchedule(key: seq<bv8>, n: nat): (r: Schedule)
    requires |key| > 0 && n <= 256
    ensures IsState(r.s) && r.j < 256
  {
    if n == 0 then Schedule(seq(256, i => i), 0)
    else
      var p := KeySchedule(key, n - 1);
      var j := MixedIn(p.j, p.s[n - 1], key[(n - 1) % |key|]);
      Schedule(Swap(p.s, n - 1, j), j)
  }

  datatype Generator = Generator(s: seq<nat>, i: nat, j: nat)

  ghost predicate IsGenerator(g: Generator) {
    IsState(g.s) && g.i < 256 && g.j < 256
  }

  ghost function Next(g: Generator): (r: Generator)
    requires IsGenerator(g)
    ensures IsGenerator(r)
  {
    var i := (g.i + 1) % 256;
    var j := (g.j + g.s[i]) % 256;
    Generator(Swap(g.s, i, j), i, j)
  }

  ghost function Output(g: Generator): bv8
    requires IsGenerator(g)
  {
    g.s[(g.s[g.i] + g.s[g.j]) % 256] as bv8
  }

  /** The generator after n output octets. */
  ghost function After(key: seq<bv8>, n: nat): (g: Generator)
    requires |key| > 0
    ensures IsGenerator(g)
  {
    if n == 0 then Generator(KeySchedule(key, 256).s, 0, 0) else Next(After(key, n - 1))
  }

  ghost function KeystreamOctet(key: seq<bv8>, n: nat): bv8
    requires |key| > 0
  {
    Output(After(key, n + 1))
  }

  ghost function Crypt(key: seq<bv8>, buf: seq<bv8>): (r: seq<bv8>)
    requires |key| > 0
    ensures |r| == |buf|
  {
    seq(|buf|, k requires 0 <= k < |buf| => buf[k] ^ KeystreamOctet(key, k))
  }

  // ---- One step at a time ----

  /** The sum of up to three octets without its carries. */
  lemma MixedInIs(j: nat, octet: nat, key: bv8)
    requires j < 256 && octet < 256
    ensures
      var t := j + octet + key as int;
      MixedIn(j, octet, key) == if t >= 512 then t - 512 else if t >= 256 then t - 256 else t
  {
  }

  /** S starts as 0 to 255. Step n adds S[n] and the key octet to j, and swaps places n and j. */
  lemma {:induction false} ScheduleByStep(key: seq<bv8>, n: nat)
    requires |key| > 0 && n < 256
    ensures KeySchedule(key, 0).j == 0 && forall x | 0 <= x < 256 :: KeySchedule(key, 0).s[x] == x
    ensures
      var p, q := KeySchedule(key, n), KeySchedule(key, n + 1);
      && q.j == MixedIn(p.j, p.s[n], key[n % |key|])
      && q.s[n] == p.s[q.j] && q.s[q.j] == p.s[n]
      && forall x | 0 <= x < 256 && x != n && x != q.j :: q.s[x] == p.s[x]
  {
  }

  /** i is one more and j grows by S[i]; the two places are swapped. */
  lemma NextByStep(g: Generator)
    requires IsGenerator(g)
    ensures
      var h := Next(g);
      && h.i == (if g.i == 255 then 0 else g.i + 1)
      && h.j == MixedIn(g.j, g.s[h.i], 0)
      && h.s[h.i] == g.s[h.j] && h.s[h.j] == g.s[h.i]
      && forall x | 0 <= x < 256 && x != h.i && x != h.j :: h.s[x] == g.s[x]
  {
  }

  /** The sum of the octets swapped is looked up. */
  lemma OutputIsLookup(g: Generator)
    requires IsGenerator(g)
    ensures Output(g) == g.s[MixedIn(g.s[g.i], g.s[g.j], 0)] as bv8
  {
  }

  /** Output octet n is that of step n + 1 from the state after key setup. */
  lemma {:induction false} OutputByStep(key: seq<bv8>, n: nat)
    requires |key| > 0
    ensures After(key, 0) == Generator(KeySchedule(key, 256).s, 0, 0)
    ensures After(key, n + 1) == Next(After(key, n)) && KeystreamOctet(key, n) == Output(After(key, n + 1))
  {
    hide KeySchedule, Next, Output;
  }

  /** Octet k of the buffer is XORed with output octet k. */
  lemma CryptXors(key: seq<bv8>, buf: seq<bv8>, k: nat)
    requires |key| > 0 && k < |buf|
    ensures |Crypt(key, buf)| == |buf| && Crypt(key, buf)[k] == buf[k] ^ KeystreamOctet(key, k)
  {
  }

  // ---- Properties ----

  lemma {:induction false} KeyScheduleIsPermutation(key: seq<bv8>, n: nat)
    requires |key| > 0 && n <= 256
    ensures IsPermutation(KeySchedule(key, n).s)
  {
    if n > 0 {
      KeyScheduleIsPermutation(key, n - 1);
    }
  }

  /** S stays a permutation of 0..255 through key setup and any amount of output. */
  lemma {:induction false} StateIsPermutation(key: seq<bv8>, n: nat)
    requires |key| > 0
    ensures IsPermutation(After(key, n).s)
  {
    if n == 0 {
      KeyScheduleIsPermutation(key, 256);
    } else {
      StateIsPermutation(key, n - 1);
    }
  }

  lemma XorTwice(a: bv8, b: bv8)
    ensures (a ^ b) ^ b == a
  {
  }

  /** RC4 is its own inverse on every buffer. */
  lemma CryptInvolution(key: seq<bv8>, buf: seq<bv8>)
    requires |key| > 0
    ensures Crypt(key, Crypt(key, buf)) == buf
  {
    forall k | 0 <= k < |buf|
      ensures Crypt(key, Crypt(key, buf))[k] == buf[k]
    {
      XorTwice(buf[k], KeystreamOctet(key, k));
    }
  }

  /** A permutation of 0..255 takes every value, so no octet is ever lost from S. */
  lemma PermutationIsOnto(s: seq<nat>, v: nat)
    requires IsPermutation(s) && v < 256
    ensures v in s
  {
    hide Below;
    BelowCount(256);
    if v !in s {
      InjectionIntoFewer(s, 256, Below(256) - {v});
    }
  }

  ghost function Below(n: nat): (r: set<nat>)
    ensures forall w: nat :: w in r <==> w < n
  {
    if n == 0 then {} else Below(n - 1) + {n - 1}
  }

  lemma {:induction false} BelowCount(n: nat)
    ensures |Below(n)| == n
  {
    if n > 0 {
      BelowCount(n - 1);
    }
  }

  lemma {:induction false} InjectionIntoFewer(s: seq<nat>, n: nat, range: set<nat>)
    requires n <= |s|
    requires forall x | 0 <= x < n :: s[x] in range
    requires forall x, y | 0 <= x < y < n :: s[x] != s[y]
    ensures n <= |range|
  {
    if n > 0 {
      InjectionIntoFewer(s, n - 1, range - {s[n - 1]});
    }
  }

  // ---- wep_crypt ----

  method SwapOctets(s: array<nat>, a: nat, b: nat)
    requires a < s.Length && b < s.Length
    modifies s
    ensures s[..] == Swap(old(s[..]), a, b)
  {
    s[a], s[b] := s[b], s[a];
  }

  lemma ScheduleStep(key: seq<bv8>, i: nat, s: seq<nat>, j: nat)
    requires |key| == 16 && i < 256 && Schedule(s, j) == KeySchedule(key, i)
    ensures
      var j' := MixedIn(j, s[i], key[i % 16]);
      |s| == 256 && KeySchedule(key, i + 1) == Schedule(Swap(s, i, j'), j')
  {
  }

  method SetUpState(key: seq<bv8>) returns (s: array<nat>)
    requires |key| == 16
    ensures fresh(s) && s[..] == KeySchedule(key, 256).s
  {
    s := new nat[256](i => i);
    var j: nat := 0;
    assert Schedule(s[..], j) == KeySchedule(key, 0);
    hide KeySchedule, Swap, MixedIn;
    for i := 0 to 256
      invariant Schedule(s[..], j) == KeySchedule(key, i)
    {
      ScheduleStep(key, i, s[..], j);
      j := MixedIn(j, s[i], key[i % 16]);
      SwapOctets(s, i, j);
    }
  }

  method NextOctet(s: array<nat>, i: nat, j: nat) returns (i': nat, j': nat, octet: bv8)
    requires IsGenerator(Generator(s[..], i, j))
    modifies s
    ensures Generator(s[..], i', j') == Next(old(Generator(s[..], i, j)))
    ensures octet == Output(Generator(s[..], i', j'))
  {
    i' := (i + 1) % 256;
    j' := (j + s[i']) % 256;
    SwapOctets(s, i', j');
    octet := s[(s[i'] + s[j']) % 256] as bv8;
  }

  /** The buffer when its first k octets have been processed. */
  ghost function Partial(key: seq<bv8>, buf: seq<bv8>, k: nat): (r: seq<bv8>)
    requires |key| > 0 && k <= |buf|
    ensures |r| == |buf|
  {
    Crypt(key, buf[..k]) + buf[k..]
  }

  lemma PartialStep(key: seq<bv8>, buf: seq<bv8>, k: nat)
    requires |key| > 0 && k < |buf|
    ensures Partial(key, buf, k)[k] == buf[k]
    ensures Partial(key, buf, k + 1) == Partial(key, buf, k)[k := buf[k] ^ KeystreamOctet(key, k)]
  {
  }

  method WepCrypt(key: seq<bv8>, buf: array<bv8>)
    requires |key| == 16
    modifies buf
    ensures buf[..] == Crypt(key, old(buf[..]))
  {
    ghost var was := buf[..];
    var s := SetUpState(key);
    var i: nat, j: nat := 0, 0;
    for k := 0 to buf.Length
      invariant Generator(s[..], i, j) == After(key, k)
      invariant buf[..] == Partial(key, was, k)
    {
      var octet;
      i, j, octet := NextOctet(s, i, j);
      PartialStep(key, was, k);
      buf[k] := buf[k] ^ octet;
    }
    assert was[..|was|] == was;
  }
}
