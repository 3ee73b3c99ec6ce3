/** The header of a frame on octets: which bits of octets 0 and 1 say what, and where its fields lie. */
module FrameOctets {
  import opened Bytes
  import opened Ieee80211

  /** Data frames with the QoS subtype bit. */
  predicate QosBits(f: Frame) {
    f[0] & 0x8c == 0x88
  }

  predicate DataBits(f: Frame) {
    f[0] & 0x0c == 0x08
  }

  predicate MgmtBits(f: Frame) {
    f[0] & 0x0c == 0
  }

  predicate ToDsBit(f: Frame) {
    f[1] & 0x01 != 0
  }

  predicate FromDsBit(f: Frame) {
    f[1] & 0x02 != 0
  }

  lemma FlagBits(lo: bv8, hi: bv8)
    ensures Has(Mk16(hi, lo), TO_DS) <==> hi & 0x01 != 0
    ensures Has(Mk16(hi, lo), FROM_DS) <==> hi & 0x02 != 0
    ensures Has(Mk16(hi, lo), PROTECTED) <==> hi & 0x40 != 0
    ensures FcType(Mk16(hi, lo)) == 2 <==> lo & 0x0c == 0x08
    ensures FcType(Mk16(hi, lo)) == 0 <==> lo & 0x0c == 0
    ensures FcType(Mk16(hi, lo)) == 2 && FcSubtype(Mk16(hi, lo)) & 0x08 != 0 <==> lo & 0x8c == 0x88
  {
  }

  /** The Frame Control field is read from octets 0 and 1 alone. */
  lemma FlagsOnOctets(f: Frame)
    ensures Has(FrameControl(f), TO_DS) <==> ToDsBit(f)
    ensures Has(FrameControl(f), FROM_DS) <==> FromDsBit(f)
    ensures IsQosData(FrameControl(f)) <==> QosBits(f)
    ensures FcType(FrameControl(f)) == TYPE_DATA <==> DataBits(f)
    ensures FcType(FrameControl(f)) == TYPE_MGMT <==> MgmtBits(f)
    ensures Has(FrameControl(f), PROTECTED) <==> f[1] & 0x40 != 0
  {
    hide Has, FcType, FcSubtype, Mk16;
    FlagBits(f[0], f[1]);
  }

  /** Where the QoS Control field lies if there is one: behind three addresses or four. */
  function QosAt(f: Frame): nat {
    if ToDsBit(f) && FromDsBit(f) then 30 else 24
  }

  lemma FieldsOnOctets(f: Frame)
    ensures Addr1(f) == f[4..10] && Addr2(f) == f[10..16] && Addr3(f) == f[16..22]
    ensures HoldsHeader(f) <==> |f| >= QosAt(f) + (if QosBits(f) then 2 else 0)
    ensures QosOffset(FrameControl(f)) == QosAt(f)
  {
    hide Has, FcType, FcSubtype, Mk16, IsQosData;
    FlagsOnOctets(f);
  }
}
