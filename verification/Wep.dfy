/**
 Trial decryption of WEP frames: `try_wep` stretches IV || key to 16 octets and checks
 the ICV, `wep_decrypt` takes the first configured key that fits.
 */
module Wep {
  import opened Arith
  import opened Bytes
  import opened Rc4

  type Crc = seq<bv8> -> bv32

  ghost function Expanded(key: seq<bv8>): (k: seq<bv8>)
    requires |key| > 0
    ensures |k| == 16
  {
    seq(16, i requires 0 <= i < 16 => key[i % |key|])
  }

  method ExpandKey(key: seq<bv8>) returns (k: array<bv8>)
    requires |key| > 0
    ensures fresh(k) && k[..] == Expanded(key)
  {
    k := new bv8[16];
    var j: nat := 0;
    for i := 0 to 16
      invariant j == i % |key|
      invariant forall x | 0 <= x < i :: k[x] == key[x % |key|]
    {
      k[i] := key[j];
      j := j + 1;
      if j >= |key| {
        j := 0;
      }
      ModStep(i, |key|);
    }
  }

  // ---- The stretched key drives RC4 exactly as the key itself would, when its length divides 16 ----

  lemma ModOfMod(i: nat, n: nat)
    requires 0 < n && 16 % n == 0
    ensures (i % 16) % n == i % n
  {
    var c := 16 / n;
    assert 16 == c * n;
    var a, b := i / 16, (i % 16) / n;
    assert i == a * 16 + i % 16;
    assert i % 16 == b * n + (i % 16) % n;
    assert a * 16 == (a * c) * n by { assert a * (c * n) == (a * c) * n; }
    assert i == (a * c + b) * n + (i % 16) % n;
    DivModUnique(i, n, a * c + b, (i % 16) % n);
  }

  lemma {:induction false} SameSchedule(key: seq<bv8>, n: nat)
    requires 0 < |key| && 16 % |key| == 0 && n <= 256
    ensures KeySchedule(Expanded(key), n) == KeySchedule(key, n)
  {
    if n > 0 {
      SameSchedule(key, n - 1);
      ModOfMod(n - 1, |key|);
      assert Expanded(key)[(n - 1) % 16] == key[(n - 1) % |key|];
    }
  }

  ghost predicate SchedulesAgree(key: seq<bv8>)
    requires |key| > 0
  {
    forall m: nat | m <= 256 :: KeySchedule(Expanded(key), m) == KeySchedule(key, m)
  }

  /** All zero, except for the octet that a direct schedule would use at step 16. */
  function Telltale(n: nat): (key: seq<bv8>)
    requires 0 < n
    ensures |key| == n
  {
    seq(n, i => if i == 16 % n then 1 else 0)
  }

  lemma MixedInDiffers(j: nat, octet: nat)
    ensures MixedIn(j, octet, 0) != MixedIn(j, octet, 1)
  {
  }

  /** At step 16 the stretched key starts over, and a key whose length does not divide 16 does not. */
  lemma TelltaleDiffers(n: nat)
    requires 0 < n && 16 % n != 0
    ensures !SchedulesAgree(Telltale(n))
  {
    var key := Telltale(n);
    var k := Expanded(key);
    if SchedulesAgree(key) {
      var p, d := KeySchedule(k, 16), KeySchedule(key, 16);
      assert k[16 % |k|] == 0 && key[16 % n] == 1;
      assert KeySchedule(k, 17).j == MixedIn(p.j, p.s[16], 0);
      assert KeySchedule(key, 17).j == MixedIn(d.j, d.s[16], 1);
      MixedInDiffers(p.j, p.s[16]);
    }
  }

  /** Stretching is RC4 keyed directly, for every key of a length, exactly when the length divides 16. */
  lemma StretchingFitsExactlyDivisors(n: nat)
    requires 0 < n
    ensures (forall key: seq<bv8> | |key| == n :: SchedulesAgree(key)) <==> 16 % n == 0
  {
    if 16 % n == 0 {
      forall key: seq<bv8> | |key| == n
        ensures SchedulesAgree(key)
      {
        forall m: nat | m <= 256
          ensures KeySchedule(Expanded(key), m) == KeySchedule(key, m)
        {
          SameSchedule(key, m);
        }
      }
    } else {
      TelltaleDiffers(n);
      assert |Telltale(n)| == n;
    }
  }

  lemma {:induction false} SameGenerator(key: seq<bv8>, n: nat)
    requires 0 < |key| && 16 % |key| == 0
    ensures After(Expanded(key), n) == After(key, n)
  {
    if n == 0 {
      SameSchedule(key, 256);
    } else {
      SameGenerator(key, n - 1);
    }
  }

  lemma SameStream(key: seq<bv8>, buf: seq<bv8>)
    requires 0 < |key| && 16 % |key| == 0
    ensures Crypt(Expanded(key), buf) == Crypt(key, buf)
  {
    forall k | 0 <= k < |buf|
      ensures Crypt(Expanded(key), buf)[k] == Crypt(key, buf)[k]
    {
      SameGenerator(key, k + 1);
      assert KeystreamOctet(Expanded(key), k) == KeystreamOctet(key, k);
    }
  }

  // ---- try_wep and wep_decrypt ----

  ghost predicate IcvFits(crc: Crc, key: seq<bv8>, data: seq<bv8>)
    requires |key| > 0 && |data| >= 4
  {
    var plain := Crypt(Expanded(key), data);
    crc(plain[..|data| - 4]) == Le32(plain, |data| - 4)
  }

  method Copy(src: seq<bv8>, dst: array<bv8>)
    requires dst.Length == |src|
    modifies dst
    ensures dst[..] == src
  {
    forall i | 0 <= i < |src| {
      dst[i] := src[i];
    }
  }

  method TryWep(crc: Crc, key: seq<bv8>, data: seq<bv8>, plain: array<bv8>) returns (ok: bool)
    requires |key| > 0 && |data| >= 4 && plain.Length == |data|
    modifies plain
    ensures plain[..] == Crypt(Expanded(key), data)
    ensures ok <==> IcvFits(crc, key, data)
  {
    var k := ExpandKey(key);
    Copy(data, plain);
    WepCrypt(k[..], plain);
    var out := plain[..];
    ok := crc(out[..|data| - 4]) == Le32(out, |data| - 4);
  }

  /** RC4 key of a frame: the 3 IV octets it carries, then the configured key. */
  function FrameKey(data: seq<bv8>, key: seq<bv8>): seq<bv8>
    requires |data| >= 3
  {
    data[..3] + key
  }

  ghost predicate Fits(crc: Crc, key: seq<bv8>, data: seq<bv8>)
    requires |data| >= 8
  {
    IcvFits(crc, FrameKey(data, key), data[4..])
  }

  ghost function PlainUnder(key: seq<bv8>, data: seq<bv8>): seq<bv8>
    requires |data| >= 8
  {
    Crypt(Expanded(FrameKey(data, key)), data[4..])[..|data| - 8]
  }

  /** First configured key under which the ICV fits, in list order; None when there is none. */
  ghost function Decrypted(crc: Crc, keys: seq<seq<bv8>>, data: seq<bv8>): Option<seq<bv8>> {
    if |keys| == 0 || |data| < 8 then None
    else if Fits(crc, keys[0], data) then Some(PlainUnder(keys[0], data))
    else Decrypted(crc, keys[1..], data)
  }

  method WepDecrypt(crc: Crc, keys: seq<seq<bv8>>, data: seq<bv8>) returns (r: Option<seq<bv8>>)
    ensures r == Decrypted(crc, keys, data)
  {
    if |keys| == 0 || |data| < 4 + 4 {
      return None;
    }
    var plain := new bv8[|data| - 4];
    var n := 0;
    while n < |keys|
      invariant 0 <= n <= |keys|
      invariant Decrypted(crc, keys, data) == Decrypted(crc, keys[n..], data)
    {
      var found := TryWep(crc, FrameKey(data, keys[n]), data[4..], plain);
      if found {
        return Some(plain[..|data| - 8]);
      }
      assert keys[n..][1..] == keys[n + 1..];
      n := n + 1;
    }
    r := None;
  }

  /** The key octets over and over, 16 in all. */
  lemma ExpandedOctets(key: seq<bv8>, i: nat)
    requires |key| > 0 && i < 16
    ensures Expanded(key)[i] == key[i % |key|]
  {
  }

  /** RC4 under IV || key of what follows the key id octet. */
  ghost function Uncovered(key: seq<bv8>, data: seq<bv8>): (r: seq<bv8>)
    requires |data| >= 8
    ensures |r| == |data| - 4
  {
    Crypt(Expanded(data[0..3] + key), data[4..])
  }

  /** The last four octets uncovered are the CRC of those before them, least significant first. */
  ghost predicate IcvMatches(crc: Crc, key: seq<bv8>, data: seq<bv8>)
    requires |data| >= 8
  {
    var p := Uncovered(key, data);
    p[|p| - 4..] == PutLe32(crc(p[..|p| - 4]))
  }

  lemma FitsIff(crc: Crc, key: seq<bv8>, data: seq<bv8>)
    requires |data| >= 8
    ensures Fits(crc, key, data) <==> IcvMatches(crc, key, data)
    ensures PlainUnder(key, data) == Uncovered(key, data)[..|data| - 8]
  {
    hide Crypt, Expanded, Mk32, PutLe32;
    var p := Uncovered(key, data);
    var tail := p[|p| - 4..];
    assert data[0..3] == data[..3];
    assert Le32(p, |p| - 4) == Le32(tail, 0);
    PutOfLe32(tail);
    Le32OfPut(crc(p[..|p| - 4]));
  }

  /** Every frame: the first configured key that matches decides, and without one there is no plaintext. */
  lemma {:induction false} DecryptedIff(crc: Crc, keys: seq<seq<bv8>>, data: seq<bv8>)
    ensures |data| < 8 ==> Decrypted(crc, keys, data).None?
    ensures |data| >= 8 && (forall m | 0 <= m < |keys| :: !IcvMatches(crc, keys[m], data)) ==>
              Decrypted(crc, keys, data).None?
    ensures forall n | 0 <= n < |keys| && |data| >= 8 && IcvMatches(crc, keys[n], data)
                       && (forall m | 0 <= m < n :: !IcvMatches(crc, keys[m], data)) ::
              Decrypted(crc, keys, data) == Some(Uncovered(keys[n], data)[..|data| - 8])
  {
    hide Fits, PlainUnder, IcvMatches, Uncovered, Decrypted;
    if |data| < 8 {
      ShortIsNone(crc, keys, data);
    } else {
      forall m | 0 <= m < |keys|
        ensures Fits(crc, keys[m], data) <==> IcvMatches(crc, keys[m], data)
        ensures PlainUnder(keys[m], data) == Uncovered(keys[m], data)[..|data| - 8]
      {
        FitsIff(crc, keys[m], data);
      }
      if forall m | 0 <= m < |keys| :: !IcvMatches(crc, keys[m], data) {
        NoneFits(crc, keys, data);
      }
      forall n | 0 <= n < |keys| && IcvMatches(crc, keys[n], data)
                 && (forall m | 0 <= m < n :: !IcvMatches(crc, keys[m], data))
        ensures Decrypted(crc, keys, data) == Some(Uncovered(keys[n], data)[..|data| - 8])
      {
        FirstFit(crc, keys, n, data);
      }
    }
  }

  lemma {:induction false} ShortIsNone(crc: Crc, keys: seq<seq<bv8>>, data: seq<bv8>)
    requires |data| < 8
    ensures Decrypted(crc, keys, data).None?
  {
  }

  lemma {:induction false} NoneFits(crc: Crc, keys: seq<seq<bv8>>, data: seq<bv8>)
    requires |data| >= 8 && forall m | 0 <= m < |keys| :: !Fits(crc, keys[m], data)
    ensures Decrypted(crc, keys, data).None?
  {
    hide Fits, PlainUnder;
    if |keys| > 0 {
      NoneFits(crc, keys[1..], data);
    }
  }

  /** What a WEP station sends: IV, key id octet, then RC4 of payload || ICV keyed directly by IV || key. */
  ghost function Sent(crc: Crc, iv: seq<bv8>, keyId: bv8, key: seq<bv8>, payload: seq<bv8>): (r: seq<bv8>)
    requires |iv| == 3
    ensures |r| == |payload| + 8
  {
    iv + [keyId] + Crypt(iv + key, payload + PutLe32(crc(payload)))
  }

  /** A frame sent under a 40- or 104-bit key fits that key, and decrypts to its payload. */
  lemma SentFrameFits(crc: Crc, iv: seq<bv8>, keyId: bv8, key: seq<bv8>, payload: seq<bv8>)
    requires |iv| == 3 && (|key| == 5 || |key| == 13)
    ensures Fits(crc, key, Sent(crc, iv, keyId, key, payload))
    ensures PlainUnder(key, Sent(crc, iv, keyId, key, payload)) == payload
  {
    var data := Sent(crc, iv, keyId, key, payload);
    var body := payload + PutLe32(crc(payload));
    assert FrameKey(data, key) == iv + key;
    assert data[4..] == Crypt(iv + key, body);
    SameStream(iv + key, data[4..]);
    CryptInvolution(iv + key, body);
    assert body[..|payload|] == payload;
    assert body[|payload|..] == PutLe32(crc(payload));
    Le32OfPut(crc(payload));
    assert Le32(body, |payload|) == Le32(body[|payload|..], 0);
  }

  lemma {:induction false} FirstFit(crc: Crc, keys: seq<seq<bv8>>, n: nat, data: seq<bv8>)
    requires n < |keys| && |data| >= 8
    requires forall m | 0 <= m < n :: !Fits(crc, keys[m], data)
    requires Fits(crc, keys[n], data)
    ensures Decrypted(crc, keys, data) == Some(PlainUnder(keys[n], data))
  {
    hide Fits, PlainUnder;
    if n > 0 {
      FirstFit(crc, keys[1..], n - 1, data);
    }
  }

  /**
   Every frame sent under the n-th configured key is decrypted to its payload,
   unless an earlier key also fits its ICV by accident.
   */
  lemma {:induction false} SentFrameIsDecrypted(crc: Crc, keys: seq<seq<bv8>>, n: nat, iv: seq<bv8>, keyId: bv8,
                                                payload: seq<bv8>)
    requires n < |keys| && |iv| == 3 && (|keys[n]| == 5 || |keys[n]| == 13)
    requires forall m | 0 <= m < n :: !Fits(crc, keys[m], Sent(crc, iv, keyId, keys[n], payload))
    ensures Decrypted(crc, keys, Sent(crc, iv, keyId, keys[n], payload)) == Some(payload)
  {
    SentFrameFits(crc, iv, keyId, keys[n], payload);
    FirstFit(crc, keys, n, Sent(crc, iv, keyId, keys[n], payload));
  }
}
