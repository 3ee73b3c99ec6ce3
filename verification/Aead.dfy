/**
 CCMP, CCMP-256 and GCMP framing: the IV header with its packet number, the additional
 authenticated data and the nonce around an AEAD cipher. The cipher itself is a pair of
 functions of which only "opening undoes sealing" is assumed.
 */
module Aead {
  import opened Bytes
  import opened Ieee80211
  import opened PacketNumber

  type Octets = seq<bv8>

  datatype Sealed = Sealed(crypt: Octets, auth: Octets)

  /** Arguments in order: key, nonce, length of the authentication field, message, additional data. */
  datatype Cipher = Cipher(
    seal: (Octets, Octets, nat, Octets, Octets) -> Option<Sealed>,
    open: (Octets, Octets, nat, Sealed, Octets) -> Option<Octets>)

  ghost predicate Lawful(c: Cipher) {
    forall key, nonce, m, plain, aad ::
      var r := c.seal(key, nonce, m, plain, aad);
      r.Some? ==> |r.value.crypt| == |plain| && |r.value.auth| == m
                  && c.open(key, nonce, m, r.value, aad) == Some(plain)
  }

  /** The length of a GCMP key is that of the key given. */
  datatype Suite = Ccmp | Ccmp256 | Gcmp {
    function MicLength(): nat {
      if Ccmp? then 8 else 16
    }
  }

  // ---- Additional data and nonce ----

  function Clear(fc: bv16, mask: bv16): bv16 {
    fc & !mask
  }

  function SetBits(fc: bv16, mask: bv16): bv16 {
    fc | mask
  }

  /** Frame Control as it is authenticated: what retransmission or power saving may change is cleared. */
  function MaskedFc(suite: Suite, fc: bv16): bv16 {
    var fc1 := if FcType(fc) == TYPE_DATA then Clear(fc, 0x0070) else fc;
    var fc2 := if IsQosData(fc) then Clear(fc1, ORDER) else fc1;
    var fc3 := Clear(fc2, RETRY | PWR_MGT | MORE_DATA);
    if suite.Gcmp? then fc3 else SetBits(fc3, PROTECTED)
  }

  function Tid(f: Frame): bv8
    requires HoldsHeader(f) && IsQosData(FrameControl(f))
  {
    Low4(f[QosOffset(FrameControl(f))])
  }

  function Aad(suite: Suite, f: Frame): Octets
    requires HoldsHeader(f)
  {
    var fc := FrameControl(f);
    PutLe16(MaskedFc(suite, fc)) + f[4..22] + [Low4(f[22]), 0]
    + (if FourAddresses(fc) then f[24..30] else [])
    + (if IsQosData(fc) then [Tid(f), 0] else [])
  }

  /** Priority of a QoS data frame, or the management flag. */
  function NonceFlags(f: Frame): bv8
    requires HoldsHeader(f)
  {
    var fc := FrameControl(f);
    if IsQosData(fc) then Tid(f) else if FcType(fc) == TYPE_MGMT then 0x10 else 0
  }

  function Nonce(suite: Suite, f: Frame, iv: Octets): Octets
    requires HoldsHeader(f) && |iv| >= 8
  {
    (if suite.Gcmp? then [] else [NonceFlags(f)]) + Addr2(f) + CcmpPn(iv)
  }

  method AadNonce(suite: Suite, f: Frame, iv: Octets) returns (aad: Octets, nonce: Octets)
    requires HoldsHeader(f) && |iv| >= 8
    ensures aad == Aad(suite, f) && nonce == Nonce(suite, f, iv)
  {
    var flags: bv8 := 0;
    var fc := FrameControl(f);
    var addr4, qos := FourAddresses(fc), false;
    var masked := fc;
    if FcType(fc) == TYPE_DATA {
      masked := Clear(masked, 0x0070);
      if IsQosData(fc) {
        qos := true;
        masked := Clear(masked, ORDER);
        flags := Low4(f[if addr4 then 30 else 24]);
      }
    } else if FcType(fc) == TYPE_MGMT {
      flags := 0x10;
    }
    masked := Clear(masked, RETRY | PWR_MGT | MORE_DATA);
    if !suite.Gcmp? {
      masked := SetBits(masked, PROTECTED);
    }
    aad := PutLe16(masked);
    aad := aad + f[4..22];
    aad := aad + [Low4(f[22]), 0];
    if addr4 {
      aad := aad + f[24..30];
    }
    if qos {
      aad := aad + [Low4(f[if addr4 then 30 else 24]), 0];
    }
    nonce := if suite.Gcmp? then [] else [flags];
    nonce := nonce + Addr2(f);
    nonce := nonce + [iv[7], iv[6], iv[5], iv[4], iv[1], iv[0]];
  }

  // ---- Encryption and decryption ----

  function IvHeader(pn: Octets, keyId: bv8): (iv: Octets)
    requires |pn| == 6
    ensures |iv| == 8
  {
    [pn[5], pn[4], 0, 0x20 | (keyId << 6), pn[3], pn[2], pn[1], pn[0]]
  }

  function WithProtected(hi: bv8): bv8 {
    hi | 0x40
  }

  /** Header as sent: CCMP sets the Protected bit, GCMP leaves the Frame Control field alone. */
  function SentHeader(suite: Suite, hdr: Octets): (r: Octets)
    requires |hdr| >= 24
    ensures |r| == |hdr|
  {
    if suite.Gcmp? then hdr else hdr[1 := WithProtected(hdr[1])]
  }

  lemma ProtectedBitIsInOctet1(lo: bv8, hi: bv8)
    ensures Mk16(WithProtected(hi), lo) == SetBits(Mk16(hi, lo), PROTECTED)
  {
  }

  /** Sent header and IV: at least 32 octets, so always enough for the AAD. */
  function Head(suite: Suite, frame: Octets, hdrlen: nat, pn: Octets, keyId: bv8): (r: Octets)
    requires 24 <= hdrlen <= |frame| && |pn| == 6
    ensures |r| == hdrlen + 8 && HoldsHeader(r)
  {
    SentHeader(suite, frame[..hdrlen]) + IvHeader(pn, keyId)
  }

  function Encrypted(
    c: Cipher, suite: Suite, tk: Octets, frame: Octets, hdrlen: nat, pn: Octets, keyId: bv8): Option<Octets>
    requires |pn| == 6
  {
    if |frame| < hdrlen || hdrlen < 24 then None
    else
      var head := Head(suite, frame, hdrlen, pn, keyId);
      var r := c.seal(tk, Nonce(suite, head, head[hdrlen..]), suite.MicLength(), frame[hdrlen..], Aad(suite, head));
      if r.None? then None else Some(head + r.value.crypt + r.value.auth)
  }

  method Encrypt(c: Cipher, suite: Suite, tk: Octets, frame: Octets, hdrlen: nat, pn: Octets, keyId: bv8)
    returns (r: Option<Octets>)
    requires |pn| == 6
    ensures r == Encrypted(c, suite, tk, frame, hdrlen, pn, keyId)
  {
    if |frame| < hdrlen || hdrlen < 24 {
      return None;
    }
    var crypt := frame[..hdrlen];
    if !suite.Gcmp? {
      crypt := crypt[1 := WithProtected(crypt[1])];
    }
    crypt := crypt + [pn[5], pn[4], 0x00, 0x20 | (keyId << 6)];
    crypt := crypt + [pn[3], pn[2], pn[1], pn[0]];
    assert crypt == Head(suite, frame, hdrlen, pn, keyId);
    var aad, nonce := AadNonce(suite, crypt, crypt[hdrlen..]);
    var s := c.seal(tk, nonce, suite.MicLength(), frame[hdrlen..], aad);
    if s.None? {
      return None;
    }
    r := Some(crypt + s.value.crypt + s.value.auth);
  }

  function Decrypted(c: Cipher, suite: Suite, tk: Octets, hdr: Frame, data: Octets): Option<Octets>
    requires HoldsHeader(hdr)
  {
    if |data| < 8 + suite.MicLength() then None
    else
      var mlen := |data| - 8 - suite.MicLength();
      var sealed := Sealed(data[8..8 + mlen], data[8 + mlen..]);
      c.open(tk, Nonce(suite, hdr, data), suite.MicLength(), sealed, Aad(suite, hdr))
  }

  method Decrypt(c: Cipher, suite: Suite, tk: Octets, hdr: Frame, data: Octets) returns (r: Option<Octets>)
    requires HoldsHeader(hdr)
    ensures r == Decrypted(c, suite, tk, hdr, data)
  {
    if |data| < 8 + suite.MicLength() {
      return None;
    }
    var mlen := |data| - 8 - suite.MicLength();
    var aad, nonce := AadNonce(suite, hdr, data);
    r := c.open(tk, nonce, suite.MicLength(), Sealed(data[8..8 + mlen], data[8 + mlen..]), aad);
  }

  // ---- Properties ----

  /** AAD and nonce are read from the first 32 octets at most. */
  lemma HeaderOfPrefix(suite: Suite, f: Frame, g: Frame, iv: Octets)
    requires |f| >= 32 && |g| >= 32 && f[..32] == g[..32] && |iv| >= 8
    ensures Aad(suite, f) == Aad(suite, g)
    ensures Nonce(suite, f, iv) == Nonce(suite, g, iv)
  {
    forall x | 0 <= x < 32
      ensures f[x] == g[x]
    {
      assert f[..32][x] == g[..32][x];
    }
    assert f[4..22] == g[4..22] && f[24..30] == g[24..30];
  }

  lemma NonceOfIv(suite: Suite, f: Frame, iv: Octets, data: Octets)
    requires HoldsHeader(f) && |iv| >= 8 && |data| >= 8 && forall x | 0 <= x < 8 :: data[x] == iv[x]
    ensures Nonce(suite, f, data) == Nonce(suite, f, iv)
  {
  }

  /** The packet number read from the IV header is the one put there. */
  lemma IvHeaderCarriesPn(pn: Octets, keyId: bv8)
    requires |pn| == 6
    ensures CcmpPn(IvHeader(pn, keyId)) == pn
  {
  }

  /**
   Round trip: every frame that is encrypted at all decrypts to its payload under the same
   suite and key, for every header length from 24 up and every payload, and shows its PN.
   */
  lemma RoundTrip(c: Cipher, suite: Suite, tk: Octets, frame: Octets, hdrlen: nat, pn: Octets, keyId: bv8)
    requires Lawful(c) && |pn| == 6 && Encrypted(c, suite, tk, frame, hdrlen, pn, keyId).Some?
    ensures
      var sent := Encrypted(c, suite, tk, frame, hdrlen, pn, keyId).value;
      && |sent| >= 32
      && Decrypted(c, suite, tk, sent, sent[hdrlen..]) == Some(frame[hdrlen..])
      && CcmpPn(sent[hdrlen..]) == pn
  {
    hide Aad, Nonce;
    var sent := Encrypted(c, suite, tk, frame, hdrlen, pn, keyId).value;
    var head := Head(suite, frame, hdrlen, pn, keyId);
    var data := sent[hdrlen..];
    var iv := head[hdrlen..];
    var s := c.seal(tk, Nonce(suite, head, iv), suite.MicLength(), frame[hdrlen..], Aad(suite, head)).value;
    var mlen := |frame| - hdrlen;
    assert sent == head + (s.crypt + s.auth);
    assert sent[..32] == head[..32];
    assert data == iv + (s.crypt + s.auth);
    assert forall x | 0 <= x < 8 :: data[x] == iv[x];
    assert data[8..8 + mlen] == s.crypt && data[8 + mlen..] == s.auth;
    HeaderOfPrefix(suite, sent, head, iv);
    NonceOfIv(suite, sent, iv, data);
    assert iv == IvHeader(pn, keyId);
    IvHeaderCarriesPn(pn, keyId);
    assert CcmpPn(data) == CcmpPn(iv);
  }

  /** What the AAD of two frames being equal amounts to, field by field. */
  ghost predicate SameAuthenticatedFields(suite: Suite, f: Frame, g: Frame)
    requires HoldsHeader(f) && HoldsHeader(g)
  {
    var fc, gc := FrameControl(f), FrameControl(g);
    && MaskedFc(suite, fc) == MaskedFc(suite, gc)
    && f[4..22] == g[4..22]
    && Low4(f[22]) == Low4(g[22])
    && (FourAddresses(fc) ==> f[24..30] == g[24..30])
    && IsQosData(fc) == IsQosData(gc)
    && (IsQosData(fc) ==> Tid(f) == Tid(g))
  }

  /** Masking keeps what says how the rest of the header is laid out. */
  lemma MaskKeepsLayout(suite: Suite, fc: bv16)
    ensures Has(MaskedFc(suite, fc), TO_DS) == Has(fc, TO_DS)
    ensures Has(MaskedFc(suite, fc), FROM_DS) == Has(fc, FROM_DS)
    ensures FcType(MaskedFc(suite, fc)) == FcType(fc)
    ensures IsQosData(MaskedFc(suite, fc)) == IsQosData(fc)
  {
  }

  lemma SameMaskSameLayout(suite: Suite, fc: bv16, gc: bv16)
    requires MaskedFc(suite, fc) == MaskedFc(suite, gc)
    ensures FourAddresses(fc) == FourAddresses(gc) && FcType(fc) == FcType(gc) && IsQosData(fc) == IsQosData(gc)
  {
    MaskKeepsLayout(suite, fc);
    MaskKeepsLayout(suite, gc);
  }

  lemma AadDeterminesLayout(suite: Suite, f: Frame, g: Frame)
    requires HoldsHeader(f) && HoldsHeader(g) && Aad(suite, f) == Aad(suite, g)
    ensures MaskedFc(suite, FrameControl(f)) == MaskedFc(suite, FrameControl(g))
    ensures FourAddresses(FrameControl(f)) == FourAddresses(FrameControl(g))
    ensures IsQosData(FrameControl(f)) == IsQosData(FrameControl(g))
  {
    var mf, mg := MaskedFc(suite, FrameControl(f)), MaskedFc(suite, FrameControl(g));
    var a, b := Aad(suite, f), Aad(suite, g);
    assert a[0] == Lo8(mf) && a[1] == Hi8(mf) && b[0] == Lo8(mg) && b[1] == Hi8(mg);
    Word16RoundTrip(mf);
    Word16RoundTrip(mg);
    SameMaskSameLayout(suite, FrameControl(f), FrameControl(g));
  }

  lemma AadDeterminesFields(suite: Suite, f: Frame, g: Frame)
    requires HoldsHeader(f) && HoldsHeader(g) && Aad(suite, f) == Aad(suite, g)
    ensures SameAuthenticatedFields(suite, f, g)
  {
    AadDeterminesLayout(suite, f, g);
    var a, b := Aad(suite, f), Aad(suite, g);
    assert f[4..22] == a[2..20] && g[4..22] == b[2..20];
    assert Low4(f[22]) == a[20] && Low4(g[22]) == b[20];
    if FourAddresses(FrameControl(f)) {
      assert f[24..30] == a[22..28] && g[24..30] == b[22..28];
    }
    if IsQosData(FrameControl(f)) {
      assert Tid(f) == a[|a| - 2] && Tid(g) == b[|b| - 2];
    }
  }

  /**
   The AAD authenticates exactly those fields: it is the same for two frames if and only
   if all of them are.
   */
  lemma AadIsExactlyTheseFields(suite: Suite, f: Frame, g: Frame)
    requires HoldsHeader(f) && HoldsHeader(g)
    ensures Aad(suite, f) == Aad(suite, g) <==> SameAuthenticatedFields(suite, f, g)
  {
    if Aad(suite, f) == Aad(suite, g) {
      AadDeterminesFields(suite, f, g);
    } else if SameAuthenticatedFields(suite, f, g) {
      SameMaskSameLayout(suite, FrameControl(f), FrameControl(g));
    }
  }

  /** g is f after retransmission: Retry, PwrMgt, MoreData, Duration and the sequence number may differ. */
  ghost predicate SameUpToMutableBits(f: Frame, g: Frame) {
    && |f| == |g|
    && (forall x | 0 <= x < |f| && x !in [1, 2, 3, 22, 23] :: f[x] == g[x])
    && f[1] & 0xc7 == g[1] & 0xc7
    && Low4(f[22]) == Low4(g[22])
  }

  lemma ClearTwice(x: bv16, y: bv16, a: bv16, m: bv16)
    requires Clear(x, m) == Clear(y, m)
    ensures Clear(Clear(x, a), m) == Clear(Clear(y, a), m)
  {
    ClearCommutes(x, a, m);
    ClearCommutes(y, a, m);
  }

  lemma ClearCommutes(x: bv16, a: bv16, m: bv16)
    ensures Clear(Clear(x, a), m) == Clear(Clear(x, m), a)
  {
  }

  lemma OctetsUpToMutableBits(lo: bv8, hi: bv8, hi': bv8)
    requires hi & 0xc7 == hi' & 0xc7
    ensures Clear(Mk16(hi, lo), RETRY | PWR_MGT | MORE_DATA) == Clear(Mk16(hi', lo), RETRY | PWR_MGT | MORE_DATA)
    ensures FcType(Mk16(hi, lo)) == FcType(Mk16(hi', lo)) && FcSubtype(Mk16(hi, lo)) == FcSubtype(Mk16(hi', lo))
  {
  }

  lemma MaskIgnoresMutableBits(suite: Suite, lo: bv8, hi: bv8, hi': bv8)
    requires hi & 0xc7 == hi' & 0xc7
    ensures MaskedFc(suite, Mk16(hi, lo)) == MaskedFc(suite, Mk16(hi', lo))
  {
    var x, y, m := Mk16(hi, lo), Mk16(hi', lo), RETRY | PWR_MGT | MORE_DATA;
    OctetsUpToMutableBits(lo, hi, hi');
    ClearTwice(x, y, 0x0070, m);
    ClearTwice(Clear(x, 0x0070), Clear(y, 0x0070), ORDER, m);
  }

  /** AAD and nonce do not change when Retry, PwrMgt, MoreData or the sequence number does. */
  lemma MutableBitsAreNotAuthenticated(suite: Suite, f: Frame, g: Frame, iv: Octets)
    requires HoldsHeader(f) && SameUpToMutableBits(f, g) && |iv| >= 8
    ensures HoldsHeader(g) && Aad(suite, f) == Aad(suite, g) && Nonce(suite, f, iv) == Nonce(suite, g, iv)
  {
    MaskIgnoresMutableBits(suite, f[0], f[1], g[1]);
    SameMaskSameLayout(suite, FrameControl(f), FrameControl(g));
    assert f[4..22] == g[4..22] && Addr2(f) == Addr2(g);
    assert FourAddresses(FrameControl(f)) ==> f[24..30] == g[24..30];
    AadIsExactlyTheseFields(suite, f, g);
  }
}
