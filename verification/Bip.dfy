/**
 BIP: group-addressed management frames with a Management MIC element. `bip_protect` and
 `bip_gmac_protect` append it, `check_mmie_mic` verifies it.
 */
module Bip {
  import opened Bytes
  import opened Ieee80211

  type Octets = seq<bv8>
  type Mac = s: seq<bv8> | |s| == 16 witness seq(16, i => 0)

  /** CMAC with a 128-bit and with a 256-bit key, and GMAC; each may report failure. */
  datatype Macs = Macs(
    cmac128: (Octets, Octets) -> Option<Mac>,
    cmac256: (Octets, Octets) -> Option<Mac>,
    gmac: (Octets, Octets, Octets) -> Option<Mac>)

  datatype GroupCipher = NoCipher | Cmac128 | Cmac256 | Gmac128 | Gmac256 | Other

  const EID_MMIE: bv8 := 76

  function Zeros(n: nat): (z: Octets)
    ensures |z| == n
  {
    seq(n, i => 0)
  }

  function MaskedFc(fc: bv16): bv16 {
    fc & !(RETRY | PWR_MGT | MORE_DATA)
  }

  /** FC (masked), A1, A2 and A3, then the frame body. */
  function Authenticated(f: Frame, body: Octets): Octets {
    PutLe16(MaskedFc(FrameControl(f))) + f[4..22] + body
  }

  /** Element up to the MIC: identifier, length, key id and IPN, least significant octet first. */
  function ElementHead(micLen: nat, keyId: bv16, ipn: Octets): (e: Octets)
    requires |ipn| == 6 && (micLen == 8 || micLen == 16)
    ensures |e| == 10
  {
    [EID_MMIE, if micLen == 16 then 24 else 16] + PutLe16(keyId) + ipn
  }

  /** GMAC nonce: A2 and the IPN, most significant octet first. */
  function GmacNonce(f: Frame, ipn: Octets): Octets
    requires |ipn| == 6
  {
    Addr2(f) + [ipn[5], ipn[4], ipn[3], ipn[2], ipn[1], ipn[0]]
  }

  // ---- Protection ----

  function MicLength(igtkLen: nat): nat {
    if igtkLen == 32 then 16 else 8
  }

  function Unsigned(frame: Frame, micLen: nat, keyId: bv16, ipn: Octets): Octets
    requires |ipn| == 6 && (micLen == 8 || micLen == 16)
  {
    frame + ElementHead(micLen, keyId, ipn)
  }

  function ToBeSigned(frame: Frame, micLen: nat, keyId: bv16, ipn: Octets): Octets
    requires |ipn| == 6 && (micLen == 8 || micLen == 16)
  {
    Authenticated(frame, Unsigned(frame, micLen, keyId, ipn)[24..] + Zeros(micLen))
  }

  function Protected(m: Macs, igtk: Octets, frame: Frame, ipn: Octets, keyId: bv16): Option<Octets>
    requires |ipn| == 6
  {
    var n := MicLength(|igtk|);
    var mic := m.cmac128(igtk, ToBeSigned(frame, n, keyId, ipn));
    if mic.None? then None else Some(Unsigned(frame, n, keyId, ipn) + mic.value[..n])
  }

  method BipProtect(m: Macs, igtk: Octets, frame: Frame, ipn: Octets, keyId: bv16) returns (r: Option<Octets>)
    requires |ipn| == 6
    ensures r == Protected(m, igtk, frame, ipn, keyId)
  {
    var prot := frame;
    prot := prot + [EID_MMIE, if |igtk| == 32 then 24 else 16];
    prot := prot + PutLe16(keyId);
    prot := prot + ipn;
    var micLen := if |igtk| == 32 then 16 else 8;
    assert prot == Unsigned(frame, micLen, keyId, ipn);
    var buf := PutLe16(MaskedFc(FrameControl(frame)));
    buf := buf + frame[4..22];
    buf := buf + (prot[24..] + Zeros(micLen));
    var mic := m.cmac128(igtk, buf);
    if mic.None? {
      return None;
    }
    r := Some(prot + mic.value[..micLen]);
  }

  function GmacProtected(m: Macs, igtk: Octets, frame: Frame, ipn: Octets, keyId: bv16): Option<Octets>
    requires |ipn| == 6
  {
    var mic := m.gmac(igtk, GmacNonce(frame, ipn), ToBeSigned(frame, 16, keyId, ipn));
    if mic.None? then None else Some(Unsigned(frame, 16, keyId, ipn) + mic.value)
  }

  method BipGmacProtect(m: Macs, igtk: Octets, frame: Frame, ipn: Octets, keyId: bv16) returns (r: Option<Octets>)
    requires |ipn| == 6
    ensures r == GmacProtected(m, igtk, frame, ipn, keyId)
  {
    var prot := frame;
    prot := prot + [EID_MMIE, 24];
    prot := prot + PutLe16(keyId);
    prot := prot + ipn;
    assert prot == Unsigned(frame, 16, keyId, ipn);
    var buf := PutLe16(MaskedFc(FrameControl(frame)));
    buf := buf + frame[4..22];
    buf := buf + (prot[24..] + Zeros(16));
    var nonce := Addr2(frame);
    nonce := nonce + [ipn[5], ipn[4], ipn[3], ipn[2], ipn[1], ipn[0]];
    var mic := m.gmac(igtk, nonce, buf);
    if mic.None? {
      return None;
    }
    r := Some(prot + mic.value);
  }

  // ---- Verification ----

  function Computed(m: Macs, cipher: GroupCipher, igtk: Octets, f: Frame, nonceIpn: Octets, buf: Octets): Option<Mac>
    requires |nonceIpn| == 6
  {
    match cipher
    case Cmac128 => m.cmac128(igtk, buf)
    case Cmac256 => m.cmac256(igtk, buf)
    case Gmac128 => m.gmac(igtk, GmacNonce(f, nonceIpn), buf)
    case Gmac256 => m.gmac(igtk, GmacNonce(f, nonceIpn), buf)
    case _ => None
  }

  function CheckedMicLength(cipher: GroupCipher): nat {
    if cipher == Cmac128 then 8 else 16
  }

  predicate MmieMicValid(m: Macs, cipher: GroupCipher, igtk: Octets, data: Octets) {
    var n := CheckedMicLength(cipher);
    if cipher == NoCipher || |igtk| < 16 || |data| < 24 + n then false
    else
      var at := |data| - n;
      var mic := Computed(m, cipher, igtk, data, data[at - 6..at], Authenticated(data, data[24..at] + Zeros(n)));
      mic.Some? && data[at..] == mic.value[..n]
  }

  method CheckMmieMic(m: Macs, cipher: GroupCipher, igtk: Octets, data: Octets) returns (ok: bool)
    ensures ok <==> MmieMicValid(m, cipher, igtk, data)
  {
    if cipher == NoCipher || |igtk| < 16 {
      return false;
    }
    var micLen := if cipher == Cmac128 then 8 else 16;
    if |data| < 24 || |data| - 24 < micLen {
      return false;
    }
    var at := |data| - micLen;
    var buf := PutLe16(MaskedFc(FrameControl(data)));
    buf := buf + data[4..22];
    buf := buf + (data[24..at] + Zeros(micLen));
    var mic: Option<Mac> := None;
    if cipher == Cmac128 {
      mic := m.cmac128(igtk, buf);
    } else if cipher == Cmac256 {
      mic := m.cmac256(igtk, buf);
    } else if cipher == Gmac128 || cipher == Gmac256 {
      var ipn := data[at - 6..at];
      var nonce := Addr2(data) + [ipn[5], ipn[4], ipn[3], ipn[2], ipn[1], ipn[0]];
      mic := m.gmac(igtk, nonce, buf);
    }
    if mic.None? {
      return false;
    }
    ok := data[at..] == mic.value[..micLen];
  }

  // ---- What is protected verifies ----

  /** The verifier rebuilds the octets that were signed, and finds the IPN where it was put. */
  lemma RebuildsSignedOctets(frame: Frame, n: nat, keyId: bv16, ipn: Octets, mic: Octets)
    requires |ipn| == 6 && (n == 8 || n == 16) && |mic| == n
    ensures
      var data := Unsigned(frame, n, keyId, ipn) + mic;
      var at := |data| - n;
      && at >= 34
      && Authenticated(data, data[24..at] + Zeros(n)) == ToBeSigned(frame, n, keyId, ipn)
      && data[at..] == mic
      && data[at - 6..at] == ipn
      && Addr2(data) == Addr2(frame)
  {
    var u := Unsigned(frame, n, keyId, ipn);
    var data := u + mic;
    var at := |data| - n;
    assert data[..at] == u;
    assert data[24..at] == u[24..];
    assert u[|u| - 6..] == ipn;
    assert data[4..22] == frame[4..22];
    assert data[0] == frame[0] && data[1] == frame[1];
  }

  /** A frame protected with a 16-octet IGTK passes verification under AES-128-CMAC. */
  lemma CmacProtectedVerifies(m: Macs, igtk: Octets, frame: Frame, ipn: Octets, keyId: bv16)
    requires |ipn| == 6 && |igtk| == 16 && Protected(m, igtk, frame, ipn, keyId).Some?
    ensures MmieMicValid(m, Cmac128, igtk, Protected(m, igtk, frame, ipn, keyId).value)
  {
    var mic := m.cmac128(igtk, ToBeSigned(frame, 8, keyId, ipn)).value;
    RebuildsSignedOctets(frame, 8, keyId, ipn, mic[..8]);
  }

  /** A frame protected with GMAC passes verification under either GMAC cipher. */
  lemma GmacProtectedVerifies(m: Macs, igtk: Octets, frame: Frame, ipn: Octets, keyId: bv16, cipher: GroupCipher)
    requires |ipn| == 6 && |igtk| >= 16 && GmacProtected(m, igtk, frame, ipn, keyId).Some?
    requires cipher == Gmac128 || cipher == Gmac256
    ensures MmieMicValid(m, cipher, igtk, GmacProtected(m, igtk, frame, ipn, keyId).value)
  {
    var mic := m.gmac(igtk, GmacNonce(frame, ipn), ToBeSigned(frame, 16, keyId, ipn)).value;
    RebuildsSignedOctets(frame, 16, keyId, ipn, mic);
    assert mic[..16] == mic;
  }

  /**
   A frame protected with a 32-octet IGTK passes verification under AES-256-CMAC exactly when the
   two CMACs agree on what was signed, since it was signed with the 128-bit one.
   */
  lemma LongKeyVerifiesIff(m: Macs, igtk: Octets, frame: Frame, ipn: Octets, keyId: bv16)
    requires |ipn| == 6 && |igtk| == 32 && Protected(m, igtk, frame, ipn, keyId).Some?
    ensures
      var signed := ToBeSigned(frame, 16, keyId, ipn);
      MmieMicValid(m, Cmac256, igtk, Protected(m, igtk, frame, ipn, keyId).value) <==>
      m.cmac256(igtk, signed) == m.cmac128(igtk, signed)
  {
    var mic := m.cmac128(igtk, ToBeSigned(frame, 16, keyId, ipn)).value;
    RebuildsSignedOctets(frame, 16, keyId, ipn, mic);
    assert mic[..16] == mic;
    var other := m.cmac256(igtk, ToBeSigned(frame, 16, keyId, ipn));
    if other.Some? {
      assert other.value[..16] == other.value;
    }
  }

  /** CMAC cipher with keys of this length. */
  function CipherOf(igtk: Octets): GroupCipher {
    if |igtk| == 32 then Cmac256 else Cmac128
  }

  function ConstantMac(v: bv8): Mac {
    seq(16, i => v)
  }

  /** CMAC implementations under which the two key lengths give different codes. */
  function Disagreeing(): Macs {
    Macs((k, b) => Some(ConstantMac(1)), (k, b) => Some(ConstantMac(2)), (k, n, b) => None)
  }

  /**
   `bip_protect` signs with AES-128-CMAC whatever the key length, so its output verifies under
   the CMAC cipher of that length, whatever the MACs are, exactly when the IGTK has 16 octets.
   */
  lemma ProtectedVerifiesIffShortKey(igtk: Octets)
    requires |igtk| == 16 || |igtk| == 32
    ensures
      (forall m: Macs, frame: Frame, ipn: Octets, keyId: bv16 |
         |ipn| == 6 && Protected(m, igtk, frame, ipn, keyId).Some? ::
         MmieMicValid(m, CipherOf(igtk), igtk, Protected(m, igtk, frame, ipn, keyId).value))
      <==> |igtk| == 16
  {
    if |igtk| == 16 {
      forall m: Macs, frame: Frame, ipn: Octets, keyId: bv16 |
        |ipn| == 6 && Protected(m, igtk, frame, ipn, keyId).Some?
        ensures MmieMicValid(m, CipherOf(igtk), igtk, Protected(m, igtk, frame, ipn, keyId).value)
      {
        CmacProtectedVerifies(m, igtk, frame, ipn, keyId);
      }
    } else {
      var m, frame, ipn, keyId := Disagreeing(), Zeros(24), Zeros(6), 4;
      RebuildsSignedOctets(frame, 16, keyId, ipn, ConstantMac(1));
      var data := Protected(m, igtk, frame, ipn, keyId).value;
      assert data == Unsigned(frame, 16, keyId, ipn) + ConstantMac(1) by {
        assert ConstantMac(1)[..16] == ConstantMac(1);
      }
      assert ConstantMac(1)[0] != ConstantMac(2)[..16][0];
      assert !MmieMicValid(m, Cmac256, igtk, data);
    }
  }
}
