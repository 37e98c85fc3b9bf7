/**
 * The two layouts of an NCM Transfer Block (sections 3.2 and 3.3 of the USB CDC NCM 1.0
 * specification) and the parameters the driver works with.
 */
module NcmFormat {
  /** NTB16 and NTB32 differ in the width of their index and length fields and in the offsets that follow from it. */
  datatype Format = Ntb16 | Ntb32 {
    /** Width of an index or length field. */
    function Width(): nat { if Ntb16? then 2 else 4 }

    /** sizeof(struct usb_cdc_ncm_nth16) and its 32-bit counterpart. */
    function NthLen(): nat { if Ntb16? then 12 else 16 }

    /** wBlockLength or dwBlockLength in the header. */
    function BlockLengthAt(): nat { 8 }

    /** wNdpIndex or dwNdpIndex in the header. */
    function NdpIndexAt(): nat { if Ntb16? then 10 else 12 }

    /** The fixed part of a datagram table. */
    function NdpLen(): nat { if Ntb16? then 8 else 16 }

    /** wNextNdpIndex or dwNextNdpIndex in a table. */
    function NextAt(): nat { if Ntb16? then 6 else 8 }

    /** The size of `n` table entries; each entry is an index field followed by a length field. */
    function Entries(n: nat): nat { if Ntb16? then 4 * n else 8 * n }

    /** The least wLength a table may announce. */
    function NdpLengthMin(): nat { if Ntb16? then 0x10 else 0x20 }

    /** "NCMH" or "ncmh". */
    function NthSign(): nat { if Ntb16? then 0x484D_434E else 0x686D_636E }

    /** "NCM0" or "ncm0": datagrams that carry no CRC. */
    function NoCrcSign(): nat { if Ntb16? then 0x304D_434E else 0x306D_636E }

    /** How large an NTB may be so that every index fits its field (tx_max is at most 65536 and one pad byte). */
    predicate Addressable(size: nat) { if Ntb16? then size <= 0x1_0001 else size < 0x8000_0000 }
  }

  const ETH_HLEN: nat := 14

  /**
   * How the room test for a new table is read: as the comparison of integers it is meant to be,
   * or as the C expression, whose difference wraps in 32 bits and then in the 64 bits of size_t.
   */
  datatype RoomReading = Integer | SizeT

  /**
   * What is fixed while the driver runs: the device's parameters after they were sanitised, and
   * the constants of headers that are not part of this model.
   */
  datatype Cfg = Cfg(
    fmt: Format,
    room: RoomReading,
    toEnd: bool,            // CDC_NCM_FLAG_NDP_TO_END
    sendZlp: bool,          // FLAG_SEND_ZLP
    maxDatagrams: nat,      // tx_max_datagrams
    modulus: nat,           // tx_modulus
    remainder: nat,         // tx_remainder
    ndpModulus: nat,        // tx_ndp_modulus
    maxPacket: nat,         // dev->maxpacket
    maxDatagramSize: nat,   // max_datagram_size
    ntbOutMaxSize: nat,     // dwNtbOutMaxSize
    dptMax: nat,            // CDC_NCM_DPT_DATAGRAMS_MAX
    minOut: nat,            // USB_CDC_NCM_NTB_MIN_OUT_SIZE
    maxTx: nat,             // CDC_NCM_NTB_MAX_SIZE_TX
    minTxPktFloor: nat,     // CDC_NCM_MIN_TX_PKT
    pendingCnt: nat,        // CDC_NCM_TIMER_PENDING_CNT
    restartCnt: nat         // CDC_NCM_RESTART_TIMER_DATAGRAM_CNT
  ) {
    /** max_ndp_size: room for every datagram and the null entry that ends the table. */
    function MaxNdp(): nat { fmt.NdpLen() + fmt.Entries(maxDatagrams + 1) }

    /** delayed_ndp_size: what must stay free for a table that is appended when the NTB goes out. */
    function EndReserve(): nat {
      if toEnd then
        MaxNdp() + (if ndpModulus > modulus + remainder then ndpModulus else modulus + remainder) - 1
      else
        0
    }

    /** Nothing is divided by zero. */
    predicate Usable() {
      modulus > 0 && ndpModulus > 0 && maxPacket > 0
    }

    /** All that order, losses and timing depend on; the room test may be read either way. */
    predicate Workable() {
      Usable() && dptMax > 0
    }

    /** The parameters make sense for the arithmetic; max_ndp_size is kept in 16 bits. */
    predicate Valid() {
      && Workable()
      && room.Integer?
      && MaxNdp() < 0x1_0000
      && fmt.NthLen() <= minOut <= maxTx
      && fmt.Addressable(maxTx + 1)
    }
  }
}
