/**
 TKIP frame protection: Michael, key mixing and RC4 put together. Decryption accepts
 exactly the frames that encryption under the same key and packet number produces, and
 returns their payload.
 */
module Tkip {
  import opened Bytes
  import opened Ieee80211
  import opened Michael
  import opened PacketNumber
  import opened Rc4
  import opened TkipMixing
  import Wep

  /** CRC-32 and the S-box, on which nothing here depends. */
  datatype Primitives = Primitives(crc: Wep.Crc, sub: Substitution)

  /** Temporal key, then the Michael keys of the AP and of the station. */
  type TkipKey = s: seq<bv8> | |s| == 32 witness seq(32, i => 0)

  function MicKey(tk: TkipKey, fc: bv16): (k: seq<bv8>)
    ensures |k| == 8
  {
    if Has(fc, FROM_DS) then tk[16..24] else tk[24..32]
  }

  // ---- michael_mic_hdr ----

  function DestinationAddress(f: Frame): (a: seq<bv8>)
    ensures |a| == 6
  {
    if Has(FrameControl(f), TO_DS) then Addr3(f) else Addr1(f)
  }

  function SourceAddress(f: Frame): (a: seq<bv8>)
    requires HoldsHeader(f)
    ensures |a| == 6
  {
    var fc := FrameControl(f);
    if !Has(fc, FROM_DS) then Addr2(f)
    else if !Has(fc, TO_DS) then Addr3(f)
    else f[24..30]
  }

  function Priority(f: Frame): bv8
    requires HoldsHeader(f)
  {
    var fc := FrameControl(f);
    if IsQosData(fc) then Low4(f[QosOffset(fc)]) else 0
  }

  /** Michael pseudo header: DA, SA, priority and three reserved octets. */
  function PseudoHeader(f: Frame): (h: seq<bv8>)
    requires HoldsHeader(f)
    ensures |h| == 16
  {
    DestinationAddress(f) + SourceAddress(f) + [Priority(f), 0, 0, 0]
  }

  method MichaelMicHdr(f: Frame) returns (hdr: seq<bv8>)
    requires HoldsHeader(f)
    ensures hdr == PseudoHeader(f)
  {
    var hdrlen := 24;
    var fc := FrameControl(f);
    var da, sa;
    if Has(fc, TO_DS) && !Has(fc, FROM_DS) {
      da, sa := Addr3(f), Addr2(f);
    } else if !Has(fc, TO_DS) && Has(fc, FROM_DS) {
      da, sa := Addr1(f), Addr3(f);
    } else if FourAddresses(fc) {
      da, sa := Addr3(f), f[24..30];
      hdrlen := hdrlen + 6;
    } else {
      da, sa := Addr1(f), Addr2(f);
    }
    var priority: bv8 := 0;
    if IsQosData(fc) {
      priority := Low4(f[hdrlen]);
    }
    hdr := da + sa + [priority, 0, 0, 0];
  }

  /** Frame Control and transmitter lie in the first 24 octets. */
  lemma HeaderOfPrefix(f: Frame, g: Frame, n: nat)
    requires HoldsHeader(f) && 24 <= n <= |f| && |f| <= |g| && f[..n] == g[..n]
    ensures HoldsHeader(g) && Addr2(f) == Addr2(g) && FrameControl(f) == FrameControl(g)
  {
    assert forall x | 0 <= x < n :: f[x] == f[..n][x] == g[x];
  }

  /** All of the pseudo header but the priority is read from the octets before the QoS Control field. */
  lemma PseudoHeaderOfPrefix(f: Frame, g: Frame, n: nat)
    requires HoldsHeader(f) && QosOffset(FrameControl(f)) <= n <= |f| && |f| <= |g|
    requires f[..n] == g[..n]
    ensures HoldsHeader(g) && FrameControl(f) == FrameControl(g)
    ensures PseudoHeader(f)[..12] == PseudoHeader(g)[..12] && PseudoHeader(f)[13..] == PseudoHeader(g)[13..]
    ensures PseudoHeader(f) == PseudoHeader(g) <==> Priority(f) == Priority(g)
    ensures QosOffset(FrameControl(f)) < n ==> Priority(f) == Priority(g)
  {
    forall x | 0 <= x < n
      ensures f[x] == g[x]
    {
      assert f[..n][x] == g[..n][x];
    }
    assert f[4..10] == g[4..10] && f[10..16] == g[10..16] && f[16..22] == g[16..22];
    assert FourAddresses(FrameControl(f)) ==> f[24..30] == g[24..30];
    assert PseudoHeader(f)[..12] == DestinationAddress(f) + SourceAddress(f);
    assert PseudoHeader(g)[..12] == DestinationAddress(g) + SourceAddress(g);
    assert PseudoHeader(f)[12] == Priority(f) && PseudoHeader(g)[12] == Priority(g);
  }

  // ---- Encryption and decryption ----

  function Iv16(pn: seq<bv8>): bv16
    requires |pn| == 6
  {
    Mk16(pn[4], pn[5])
  }

  /** RC4 key of the packet numbered pn by the transmitter of f. */
  function KeyOf(p: Primitives, tk: TkipKey, f: Frame, iv32: bv32, iv16: bv16): (k: seq<bv8>)
    ensures |k| == 16
  {
    PacketKey(p.sub, tk[..16], Addr2(f), iv32, iv16)
  }

  function Code(tk: TkipKey, f: Frame, payload: seq<bv8>): (mic: seq<bv8>)
    requires HoldsHeader(f)
    ensures |mic| == 8
  {
    Mic(MicKey(tk, FrameControl(f)), PseudoHeader(f), payload)
  }

  /** Payload, MIC and ICV: what RC4 is applied to. */
  ghost function Protected(p: Primitives, tk: TkipKey, f: Frame, payload: seq<bv8>): (r: seq<bv8>)
    requires HoldsHeader(f)
    ensures |r| == |payload| + 12
  {
    var body := payload + Code(tk, f, payload);
    body + PutLe32(p.crc(body))
  }

  function IvHeader(key: seq<bv8>, pn: seq<bv8>, keyId: bv8): (h: seq<bv8>)
    requires |key| == 16 && |pn| == 6
    ensures |h| == 8
  {
    key[..3] + [(keyId << 6) | 0x20, pn[3], pn[2], pn[1], pn[0]]
  }

  ghost function Encrypted(
    p: Primitives, tk: TkipKey, frame: Frame, hdrlen: nat, pn: seq<bv8>, keyId: bv8): (r: seq<bv8>)
    requires HoldsHeader(frame) && hdrlen <= |frame| && |pn| == 6
    ensures |r| == |frame| + 20
  {
    var key := KeyOf(p, tk, frame, Be32(pn, 0), Iv16(pn));
    frame[..hdrlen] + IvHeader(key, pn, keyId) + Crypt(key, Protected(p, tk, frame, frame[hdrlen..]))
  }

  method TkipEncrypt(p: Primitives, tk: TkipKey, frame: seq<bv8>, hdrlen: nat, pn: seq<bv8>, keyId: bv8)
    returns (r: Option<seq<bv8>>)
    requires |pn| == 6
    requires |frame| >= 24 ==> HoldsHeader(frame)
    ensures r.Some? <==> |frame| >= 24 && |frame| >= hdrlen
    ensures r.Some? ==> r.value == Encrypted(p, tk, frame, hdrlen, pn, keyId)
  {
    if |frame| < 24 || |frame| < hdrlen {
      return None;
    }
    var michaelHdr := MichaelMicHdr(frame);
    var payload := frame[hdrlen..];
    var mic := MichaelMic(MicKey(tk, FrameControl(frame)), michaelHdr, payload);
    var rc4key := MixKey(p, tk[..16], Addr2(frame), Be32(pn, 0), Iv16(pn));

    var crypt := frame[..hdrlen];
    crypt := crypt + IvHeader(rc4key, pn, keyId);
    var body := payload + mic;
    var rest := Rc4Pass(rc4key, body + PutLe32(p.crc(body)));
    r := Some(crypt + rest);
  }

  method MixKey(p: Primitives, tk: Key16, ta: seq<bv8>, iv32: bv32, iv16: bv16) returns (key: seq<bv8>)
    requires |ta| == 6
    ensures key == PacketKey(p.sub, tk, ta, iv32, iv16)
  {
    var ttak := new bv16[5];
    MixPhase1(p.sub, ttak, tk, ta, iv32);
    var rc4key := new bv8[16];
    MixPhase2(p.sub, rc4key, tk, ttak, iv16);
    key := rc4key[..];
  }

  method Rc4Pass(key: seq<bv8>, data: seq<bv8>) returns (r: seq<bv8>)
    requires |key| == 16
    ensures r == Crypt(key, data)
  {
    var buf := new bv8[|data|];
    Wep.Copy(data, buf);
    WepCrypt(key, buf);
    r := buf[..];
  }

  function RxIv16(data: seq<bv8>): bv16
    requires |data| >= 8
  {
    Mk16(data[0], data[2])
  }

  ghost function Plain(p: Primitives, tk: TkipKey, hdr: Frame, data: seq<bv8>): (r: seq<bv8>)
    requires |data| >= 8
    ensures |r| == |data| - 8
  {
    Crypt(KeyOf(p, tk, hdr, Le32(data, 4), RxIv16(data)), data[8..])
  }

  ghost function Decrypted(p: Primitives, tk: TkipKey, hdr: Frame, data: seq<bv8>): Option<seq<bv8>>
    requires HoldsHeader(hdr)
  {
    if |data| < 12 then None
    else
      var plain := Plain(p, tk, hdr, data);
      var n := |plain| - 4;
      if p.crc(plain[..n]) != Le32(plain, n) || n < 8 then None
      else if Code(tk, hdr, plain[..n - 8]) != plain[n - 8..n] then None
      else Some(plain[..n - 8])
  }

  method TkipDecrypt(p: Primitives, tk: TkipKey, hdr: Frame, data: seq<bv8>) returns (r: Option<seq<bv8>>)
    requires HoldsHeader(hdr)
    ensures r == Decrypted(p, tk, hdr, data)
  {
    if |data| < 8 + 4 {
      return None;
    }
    var rc4key := MixKey(p, tk[..16], Addr2(hdr), Le32(data, 4), RxIv16(data));
    var plain := Rc4Pass(rc4key, data[8..]);
    var plainLen := |plain| - 4;
    if p.crc(plain[..plainLen]) != Le32(plain, plainLen) {
      return None;
    }
    if plainLen < 8 {
      return None;
    }
    var michaelHdr := MichaelMicHdr(hdr);
    var mic := MichaelMic(MicKey(tk, FrameControl(hdr)), michaelHdr, plain[..plainLen - 8]);
    if mic != plain[plainLen - 8..plainLen] {
      return None;
    }
    r := Some(plain[..plainLen - 8]);
  }

  // ---- Properties ----

  /** MIC and ICV comparison of `tkip_decrypt`, on the octets RC4 has uncovered. */
  ghost predicate Accepts(p: Primitives, tk: TkipKey, hdr: Frame, plain: seq<bv8>)
    requires HoldsHeader(hdr) && |plain| >= 12
  {
    var n := |plain| - 4;
    && p.crc(plain[..n]) == Le32(plain, n)
    && Code(tk, hdr, plain[..n - 8]) == plain[n - 8..n]
  }

  lemma ProtectedIsAccepted(p: Primitives, tk: TkipKey, hdr: Frame, payload: seq<bv8>)
    requires HoldsHeader(hdr)
    ensures Accepts(p, tk, hdr, Protected(p, tk, hdr, payload))
    ensures Protected(p, tk, hdr, payload)[..|payload|] == payload
  {
    var good := Protected(p, tk, hdr, payload);
    var n := |payload| + 8;
    assert good[..|payload|] == payload;
    assert good[|payload|..n] == Code(tk, hdr, payload);
    assert good[..n] == payload + Code(tk, hdr, payload);
    PutLe32At(good, n, p.crc(good[..n]));
  }

  lemma AcceptedIsProtected(p: Primitives, tk: TkipKey, hdr: Frame, plain: seq<bv8>)
    requires HoldsHeader(hdr) && |plain| >= 12 && Accepts(p, tk, hdr, plain)
    ensures plain == Protected(p, tk, hdr, plain[..|plain| - 12])
  {
    var n := |plain| - 4;
    assert plain[..n] == plain[..n - 8] + plain[n - 8..n];
    PutOfLe32(plain[n..]);
    assert Le32(plain[n..], 0) == Le32(plain, n);
    assert plain == plain[..n] + plain[n..];
  }

  /** Decryption gives a payload exactly when RC4 uncovers that payload, its MIC and its ICV, and nothing else. */
  lemma DecryptsExactlyProtected(p: Primitives, tk: TkipKey, hdr: Frame, data: seq<bv8>, payload: seq<bv8>)
    requires HoldsHeader(hdr)
    ensures Decrypted(p, tk, hdr, data) == Some(payload) <==>
            |data| >= 8 && Plain(p, tk, hdr, data) == Protected(p, tk, hdr, payload)
  {
    hide Plain, Code, Le32;
    if |data| >= 20 {
      var plain := Plain(p, tk, hdr, data);
      if Accepts(p, tk, hdr, plain) {
        AcceptedIsProtected(p, tk, hdr, plain);
      }
      ProtectedIsAccepted(p, tk, hdr, payload);
    }
  }

  /** Under two headers the same octets are protected exactly when the codes agree. */
  lemma SameProtectionIff(p: Primitives, tk: TkipKey, f: Frame, g: Frame, payload: seq<bv8>)
    requires HoldsHeader(f) && HoldsHeader(g)
    ensures Protected(p, tk, f, payload) == Protected(p, tk, g, payload) <==>
            Code(tk, f, payload) == Code(tk, g, payload)
  {
    hide Code;
    var n := |payload|;
    assert Protected(p, tk, f, payload)[n..n + 8] == Code(tk, f, payload);
    assert Protected(p, tk, g, payload)[n..n + 8] == Code(tk, g, payload);
  }

  /** Two headers that differ in the priority at most have one code exactly when it is the same. */
  lemma SameCodeIff(tk: TkipKey, f: Frame, g: Frame, payload: seq<bv8>)
    requires HoldsHeader(f) && HoldsHeader(g) && FrameControl(f) == FrameControl(g)
    requires PseudoHeader(f)[..12] == PseudoHeader(g)[..12] && PseudoHeader(f)[13..] == PseudoHeader(g)[13..]
    ensures Code(tk, f, payload) == Code(tk, g, payload) <==> PseudoHeader(f) == PseudoHeader(g)
  {
    hide PseudoHeader, Mic;
    if Code(tk, f, payload) == Code(tk, g, payload) {
      MicDeterminesPriority(MicKey(tk, FrameControl(f)), PseudoHeader(f), PseudoHeader(g), payload);
    }
  }

  lemma PutLe32At(s: seq<bv8>, n: nat, v: bv32)
    requires |s| == n + 4 && s[n..] == PutLe32(v)
    ensures Le32(s, n) == v
  {
    Le32OfPut(v);
    assert Le32(s, n) == Le32(s[n..], 0);
  }

  /** The transmitted IV octets carry the packet number. */
  lemma IvHeaderCarriesPn(key: seq<bv8>, pn: seq<bv8>, keyId: bv8)
    requires |key| == 16 && |pn| == 6
    requires key[0] == Hi8(Iv16(pn)) && key[2] == Lo8(Iv16(pn))
    ensures
      var h := IvHeader(key, pn, keyId);
      TkipPn(h) == pn && RxIv16(h) == Iv16(pn) && Le32(h, 4) == Be32(pn, 0)
  {
    Word16Injective(pn[4], pn[5]);
  }

  lemma PacketCarriesIv(p: Primitives, tk: TkipKey, frame: Frame, pn: seq<bv8>, keyId: bv8)
    requires |pn| == 6
    ensures
      var h := IvHeader(KeyOf(p, tk, frame, Be32(pn, 0), Iv16(pn)), pn, keyId);
      TkipPn(h) == pn && RxIv16(h) == Iv16(pn) && Le32(h, 4) == Be32(pn, 0) && h[0] == pn[4]
  {
    hide PacketKey;
    PacketKeyCarriesIv(p.sub, tk[..16], Addr2(frame), Be32(pn, 0), Iv16(pn));
    IvHeaderCarriesPn(KeyOf(p, tk, frame, Be32(pn, 0), Iv16(pn)), pn, keyId);
    Word16Injective(pn[4], pn[5]);
  }

  /**
   The priority that the receiver reads is the one sent: there is none, it lies in the header, or
   the IV repeats it.
   */
  predicate PriorityArrives(frame: Frame, hdrlen: nat, pn: seq<bv8>)
    requires hdrlen <= |frame| && HoldsHeader(frame) && |pn| == 6
  {
    var fc := FrameControl(frame);
    !IsQosData(fc) || QosOffset(fc) < hdrlen || Low4(frame[QosOffset(fc)]) == Low4(pn[4])
  }

  /**
   For every key, packet number, payload and header length: the packet number read from the frame is
   the one sent, and decryption gives back the payload exactly when the Michael code of the header
   sent is that of the header given. With all addresses in front of the IV that is when the priority
   arrives, so always when hdrlen covers the header.
   */
  lemma RoundTrip(p: Primitives, tk: TkipKey, frame: Frame, hdrlen: nat, pn: seq<bv8>, keyId: bv8)
    requires HoldsHeader(frame) && 24 <= hdrlen <= |frame| && |pn| == 6
    ensures
      var sent, payload := Encrypted(p, tk, frame, hdrlen, pn, keyId), frame[hdrlen..];
      && HoldsHeader(sent)
      && TkipPn(sent[hdrlen..]) == pn
      && (Decrypted(p, tk, sent, sent[hdrlen..]) == Some(payload) <==>
            Code(tk, sent, payload) == Code(tk, frame, payload))
      && (QosOffset(FrameControl(frame)) <= hdrlen ==>
            (Code(tk, sent, payload) == Code(tk, frame, payload) <==> PriorityArrives(frame, hdrlen, pn)))
    ensures HeaderLength(FrameControl(frame)) <= hdrlen ==> PriorityArrives(frame, hdrlen, pn)
  {
    hide Decrypted, Crypt, Code, Protected, PseudoHeader, IvHeader, TkipPn;
    var sent: Frame := Encrypted(p, tk, frame, hdrlen, pn, keyId);
    var key := KeyOf(p, tk, frame, Be32(pn, 0), Iv16(pn));
    var h := IvHeader(key, pn, keyId);
    var good := Protected(p, tk, frame, frame[hdrlen..]);
    var data := sent[hdrlen..];
    assert sent[..hdrlen] == frame[..hdrlen];
    HeaderOfPrefix(frame, sent, hdrlen);
    SameProtectionIff(p, tk, frame, sent, frame[hdrlen..]);
    PacketCarriesIv(p, tk, frame, pn, keyId);
    assert data == h + Crypt(key, good);
    assert data[8..] == Crypt(key, good);
    assert forall x | 0 <= x < 8 :: data[x] == h[x];
    FirstEight(data, h);
    CryptInvolution(key, good);
    DecryptsExactlyProtected(p, tk, sent, data, frame[hdrlen..]);
    if QosOffset(FrameControl(frame)) <= hdrlen {
      PseudoHeaderOfPrefix(frame, sent, hdrlen);
      SameCodeIff(tk, frame, sent, frame[hdrlen..]);
      assert sent[hdrlen] == h[0];
    }
  }

  lemma FirstEight(data: seq<bv8>, h: seq<bv8>)
    requires |data| >= 8 && |h| == 8 && forall x | 0 <= x < 8 :: data[x] == h[x]
    ensures TkipPn(data) == TkipPn(h) && RxIv16(data) == RxIv16(h) && Le32(data, 4) == Le32(h, 4)
  {
    hide Mk32;
  }
}
