/**
 CCMP, GCMP and BIP on octets: the additional data, the nonces and the layout of protected frames,
 octet by octet.
 */
module AeadOctets {
  import opened Bytes
  import opened Ieee80211
  import opened FrameOctets
  import opened Aead
  import Bip

  /** Without subtype bits 4 to 6; without Retry, PwrMgt and MoreData; without Order; with Protected. */
  function NoSubtype(lo: bv8): bv8 {
    lo & 0x8f
  }

  function NoMutable(hi: bv8): bv8 {
    hi & 0xc7
  }

  function NoOrder(hi: bv8): bv8 {
    hi & 0x7f
  }

  function AsProtected(hi: bv8): bv8 {
    hi | 0x40
  }

  lemma ClearSubtype(lo: bv8, hi: bv8)
    ensures Clear(Mk16(hi, lo), 0x0070) == Mk16(hi, NoSubtype(lo))
  {
  }

  lemma ClearOrder(lo: bv8, hi: bv8)
    ensures Mk16(NoOrder(hi), lo) == Clear(Mk16(hi, lo), ORDER)
  {
  }

  lemma ClearMutable(lo: bv8, hi: bv8)
    ensures Clear(Mk16(hi, lo), RETRY | PWR_MGT | MORE_DATA) == Mk16(NoMutable(hi), lo)
  {
  }

  lemma SetProtected(lo: bv8, hi: bv8)
    ensures SetBits(Mk16(hi, lo), PROTECTED) == Mk16(AsProtected(hi), lo)
  {
    ProtectedBitIsInOctet1(lo, hi);
  }

  /** Octet 0 of the AAD: the subtype is masked in data frames. */
  function FirstMasked(f: Frame): bv8 {
    if DataBits(f) then NoSubtype(f[0]) else f[0]
  }

  /** Octet 1: Retry, PwrMgt and MoreData are masked, Order in QoS data too; CCMP sets Protected. */
  function SecondMasked(suite: Suite, f: Frame): bv8 {
    var kept := NoMutable(if QosBits(f) then NoOrder(f[1]) else f[1]);
    if suite.Gcmp? then kept else AsProtected(kept)
  }

  lemma QosIsData(f: Frame)
    ensures QosBits(f) ==> DataBits(f)
  {
  }

  lemma MaskedOnOctets(suite: Suite, f: Frame)
    ensures MaskedFc(suite, FrameControl(f)) == Mk16(SecondMasked(suite, f), FirstMasked(f))
  {
    hide Mk16, Clear, SetBits, FcType, IsQosData, Has, DataBits, QosBits;
    hide NoSubtype, NoMutable, NoOrder, AsProtected;
    FlagsOnOctets(f);
    QosIsData(f);
    var hi := if QosBits(f) then NoOrder(f[1]) else f[1];
    ClearSubtype(f[0], f[1]);
    ClearOrder(NoSubtype(f[0]), f[1]);
    ClearMutable(FirstMasked(f), hi);
    SetProtected(FirstMasked(f), NoMutable(hi));
  }

  lemma WordOctets(hi: bv8, lo: bv8)
    ensures PutLe16(Mk16(hi, lo)) == [lo, hi]
  {
    Word16Injective(hi, lo);
  }

  lemma FrontOfAad(suite: Suite, f: Frame)
    ensures
      PutLe16(MaskedFc(suite, FrameControl(f))) + f[4..22] + [Low4(f[22]), 0] ==
      [FirstMasked(f), SecondMasked(suite, f)] + f[4..10] + f[10..16] + f[16..22] + [f[22] & 0x0f, 0]
  {
    hide Mk16, FirstMasked, SecondMasked, MaskedFc, FrameControl, PutLe16;
    MaskedOnOctets(suite, f);
    WordOctets(SecondMasked(suite, f), FirstMasked(f));
    assert f[4..22] == f[4..10] + f[10..16] + f[16..22];
  }

  /**
   The AAD: masked Frame Control, A1 to A3, the fragment number, A4 if both DS bits are set, and the
   priority if there is a QoS Control field.
   */
  lemma AadOnOctets(suite: Suite, f: Frame)
    requires HoldsHeader(f)
    ensures ToDsBit(f) && FromDsBit(f) ==> |f| >= 30
    ensures QosBits(f) ==> |f| >= QosAt(f) + 2
    ensures
      Aad(suite, f) ==
      [FirstMasked(f), SecondMasked(suite, f)] + f[4..10] + f[10..16] + f[16..22] + [f[22] & 0x0f, 0]
      + (if ToDsBit(f) && FromDsBit(f) then f[24..30] else [])
      + (if QosBits(f) then [f[QosAt(f)] & 0x0f, 0] else [])
  {
    hide Mk16, FirstMasked, SecondMasked, MaskedFc, IsQosData, Has, QosBits, PutLe16;
    FlagsOnOctets(f);
    FieldsOnOctets(f);
    FrontOfAad(suite, f);
  }

  /**
   CCMP: priority, or 0x10 for management, then A2 and the packet number; GCMP: the latter two. The
   packet number is read from IV octets 7 down to 4, then 1 and 0.
   */
  lemma NonceOnOctets(suite: Suite, f: Frame, iv: Octets)
    requires HoldsHeader(f) && |iv| >= 8
    ensures QosBits(f) ==> |f| >= QosAt(f) + 2
    ensures
      var flags := if QosBits(f) then f[QosAt(f)] & 0x0f else if MgmtBits(f) then 0x10 else 0;
      Nonce(suite, f, iv) ==
      (if suite == Gcmp then [] else [flags]) + f[10..16] + [iv[7], iv[6], iv[5], iv[4], iv[1], iv[0]]
  {
    hide Mk16, IsQosData, Has, FcType, QosBits, MgmtBits;
    FlagsOnOctets(f);
    FieldsOnOctets(f);
  }

  lemma IvKeyIdBits(keyId: bv8)
    ensures 0x20 | (keyId << 6) == (keyId & 0x03) * 0x40 + 0x20
  {
  }

  /**
   A protected frame: the header, with the Protected bit set for CCMP; PN0, PN1, a zero, the key id
   with the extended IV bit, and PN2 to PN5; then what the cipher makes of the payload, and its
   authentication field of 8 octets for CCMP and 16 for the others.
   */
  lemma EncryptedOnOctets(c: Cipher, suite: Suite, tk: Octets, frame: Octets, hdrlen: nat, pn: Octets, keyId: bv8)
    requires 24 <= hdrlen <= |frame| && |pn| == 6
    ensures
      var h := if suite == Gcmp then frame[..hdrlen] else frame[..hdrlen][1 := frame[1] | 0x40];
      var iv := [pn[5], pn[4], 0, (keyId & 0x03) * 0x40 + 0x20, pn[3], pn[2], pn[1], pn[0]];
      var m := if suite == Ccmp then 8 else 16;
      HoldsHeader(h + iv) &&
      var s := c.seal(tk, Nonce(suite, h + iv, iv), m, frame[hdrlen..], Aad(suite, h + iv));
      Encrypted(c, suite, tk, frame, hdrlen, pn, keyId) ==
      if s.None? then None else Some(h + iv + s.value.crypt + s.value.auth)
  {
    hide Nonce, Aad;
    IvKeyIdBits(keyId);
    var head := Head(suite, frame, hdrlen, pn, keyId);
    var h := if suite == Gcmp then frame[..hdrlen] else frame[..hdrlen][1 := frame[1] | 0x40];
    var iv := [pn[5], pn[4], 0, (keyId & 0x03) * 0x40 + 0x20, pn[3], pn[2], pn[1], pn[0]];
    assert head == h + iv && head[hdrlen..] == iv;
  }

  /** Received: IV, then the ciphertext, then the authentication field. */
  lemma DecryptedOnOctets(c: Cipher, suite: Suite, tk: Octets, hdr: Frame, data: Octets)
    requires HoldsHeader(hdr)
    ensures
      var m := if suite == Ccmp then 8 else 16;
      Decrypted(c, suite, tk, hdr, data) ==
      if |data| < m + 8 then None
      else c.open(tk, Nonce(suite, hdr, data), m, Sealed(data[8..|data| - m], data[|data| - m..]), Aad(suite, hdr))
  {
    hide Nonce, Aad;
  }

  // ---- BIP ----

  lemma BipMaskBits(lo: bv8, hi: bv8)
    ensures Bip.MaskedFc(Mk16(hi, lo)) == Mk16(hi & 0xc7, lo)
  {
  }

  /** Signed: Frame Control without Retry, PwrMgt and MoreData, the three addresses, and the body. */
  lemma AuthenticatedOnOctets(f: Frame, body: Octets)
    ensures Bip.Authenticated(f, body) == [f[0], f[1] & 0xc7] + f[4..10] + f[10..16] + f[16..22] + body
  {
    hide Mk16, Bip.MaskedFc;
    BipMaskBits(f[0], f[1]);
    WordOctets(f[1] & 0xc7, f[0]);
    assert f[4..22] == f[4..10] + f[10..16] + f[16..22];
  }

  /** The element: 76, its length, the key id and packet number, and the code. */
  lemma BipProtectedOnOctets(m: Bip.Macs, igtk: Octets, frame: Frame, ipn: Octets, lo: bv8, hi: bv8)
    requires |ipn| == 6
    ensures
      var long := |igtk| == 32;
      var n := if long then 16 else 8;
      var unsigned: Frame := frame + [76, if long then 24 else 16, lo, hi] + ipn;
      var mic := m.cmac128(igtk, Bip.Authenticated(frame, unsigned[24..] + Bip.Zeros(n)));
      Bip.Protected(m, igtk, frame, ipn, Mk16(hi, lo)) ==
      if mic.None? then None else Some(unsigned + mic.value[..n])
  {
    hide Mk16, Bip.Authenticated;
    WordOctets(hi, lo);
    var n := if |igtk| == 32 then 16 else 8;
    assert Bip.Unsigned(frame, n, Mk16(hi, lo), ipn) ==
           frame + [76, if |igtk| == 32 then 24 else 16, lo, hi] + ipn;
  }

  /** The GMAC nonce is A2 and the packet number, most significant octet first; the code has 16 octets. */
  lemma GmacProtectedOnOctets(m: Bip.Macs, igtk: Octets, frame: Frame, ipn: Octets, lo: bv8, hi: bv8)
    requires |ipn| == 6
    ensures
      var unsigned: Frame := frame + [76, 24, lo, hi] + ipn;
      var nonce := frame[10..16] + [ipn[5], ipn[4], ipn[3], ipn[2], ipn[1], ipn[0]];
      var mic := m.gmac(igtk, nonce, Bip.Authenticated(frame, unsigned[24..] + Bip.Zeros(16)));
      Bip.GmacProtected(m, igtk, frame, ipn, Mk16(hi, lo)) == if mic.None? then None else Some(unsigned + mic.value)
  {
    hide Mk16, Bip.Authenticated;
    WordOctets(hi, lo);
    assert Bip.Unsigned(frame, 16, Mk16(hi, lo), ipn) == frame + [76, 24, lo, hi] + ipn;
  }

  /** Verified: the last 8 or 16 octets against the MAC of the cipher over the frame with zeros in their place. */
  lemma MmieValidOnOctets(m: Bip.Macs, cipher: Bip.GroupCipher, igtk: Octets, d: Octets)
    ensures
      var n := if cipher == Bip.Cmac128 then 8 else 16;
      if |igtk| < 16 || |d| < 24 + n || cipher == Bip.NoCipher || cipher == Bip.Other then
        !Bip.MmieMicValid(m, cipher, igtk, d)
      else
        var at := |d| - n;
        var buf := Bip.Authenticated(d, d[24..at] + Bip.Zeros(n));
        var nonce := d[10..16] + [d[at - 1], d[at - 2], d[at - 3], d[at - 4], d[at - 5], d[at - 6]];
        var mac := if cipher == Bip.Cmac128 then m.cmac128(igtk, buf)
                   else if cipher == Bip.Cmac256 then m.cmac256(igtk, buf)
                   else m.gmac(igtk, nonce, buf);
        Bip.MmieMicValid(m, cipher, igtk, d) <==> mac.Some? && d[at..] == mac.value[..n]
  {
    hide Bip.Authenticated;
    var n := Bip.CheckedMicLength(cipher);
    if |d| >= 24 + n {
      var at := |d| - n;
      var ipn := d[at - 6..at];
      assert ipn[5] == d[at - 1] && ipn[4] == d[at - 2] && ipn[3] == d[at - 3];
      assert ipn[2] == d[at - 4] && ipn[1] == d[at - 5] && ipn[0] == d[at - 6];
    }
  }

  lemma ZerosAreZero(n: nat)
    ensures |Bip.Zeros(n)| == n && forall x | 0 <= x < n :: Bip.Zeros(n)[x] == 0
  {
  }
}
