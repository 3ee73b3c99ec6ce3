/**
 IEEE 802.11 MAC header fields, read out of a frame's octets as the C structures lay
 them out. Addresses are six-octet slices.
 */
module Ieee80211 {
  import opened Bytes

  const TO_DS: bv16 := 0x0100
  const FROM_DS: bv16 := 0x0200
  const RETRY: bv16 := 0x0800
  const PWR_MGT: bv16 := 0x1000
  const MORE_DATA: bv16 := 0x2000
  const PROTECTED: bv16 := 0x4000
  const ORDER: bv16 := 0x8000

  const TYPE_MGMT: bv16 := 0
  const TYPE_DATA: bv16 := 2

  type Frame = s: seq<bv8> | |s| >= 24 witness seq(24, i => 0)

  function Has(fc: bv16, mask: bv16): bool {
    fc & mask != 0
  }

  function FcType(fc: bv16): bv16 {
    (fc & 0x000c) >> 2
  }

  function FcSubtype(fc: bv16): bv16 {
    (fc & 0x00f0) >> 4
  }

  function FrameControl(f: Frame): bv16 {
    Le16(f, 0)
  }

  function Addr1(f: Frame): (a: seq<bv8>)
    ensures |a| == 6
  {
    f[4..10]
  }

  function Addr2(f: Frame): (a: seq<bv8>)
    ensures |a| == 6
  {
    f[10..16]
  }

  function Addr3(f: Frame): (a: seq<bv8>)
    ensures |a| == 6
  {
    f[16..22]
  }

  predicate FourAddresses(fc: bv16) {
    Has(fc, TO_DS) && Has(fc, FROM_DS)
  }

  predicate IsQosData(fc: bv16) {
    FcType(fc) == TYPE_DATA && FcSubtype(fc) & 0x08 != 0
  }

  /** Offset of the QoS Control field, where there is one. */
  function QosOffset(fc: bv16): nat {
    if FourAddresses(fc) then 30 else 24
  }

  /** Number of octets the header occupies according to its Frame Control field. */
  function HeaderLength(fc: bv16): (n: nat)
    ensures 24 <= n <= 32
  {
    QosOffset(fc) + (if IsQosData(fc) then 2 else 0)
  }

  /** A frame that holds all of its own header. */
  predicate HoldsHeader(f: Frame) {
    |f| >= HeaderLength(FrameControl(f))
  }
}
