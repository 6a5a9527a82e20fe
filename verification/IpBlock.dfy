/** The XDP address filter (cmake-build-debug/IpBlock.bpf.c). */
module IpBlock {
  import opened Frames

  /** `struct ip_block` */
  datatype Entry = Entry(ip: bv32, mask: bv32)

  /** A key of the map: an address as it lies in memory. */
  datatype Address = Address(word: bv32)

  type BlockMap = map<Address, Entry>

  const MAX_ENTRIES: nat := 1024
  const ETH_P_IP: bv16 := 0x0800

  function Filter(frame: Frame, blockMap: BlockMap): Verdict {
    if |frame| < ETH_HLEN then XdpDrop
    else if Load16(frame, 12) != Ntohs(ETH_P_IP) then XdpPass
    else if |frame| < ETH_HLEN + IP_HLEN then XdpDrop
    else
      var ip := Load32(frame, ETH_HLEN + 12);
      if Address(ip) in blockMap && ip & blockMap[Address(ip)].mask == blockMap[Address(ip)].ip then XdpDrop
      else XdpPass
  }

  /** An IPv4 frame long enough for the filter to read its source address. */
  predicate HasSource(frame: Frame) {
    |frame| >= ETH_HLEN + IP_HLEN && Load16(frame, 12) == Ntohs(ETH_P_IP)
  }

  function Source(frame: Frame): Address
    requires HasSource(frame)
  {
    Address(Load32(frame, ETH_HLEN + 12))
  }

  /** Frames dropped whatever the list holds: too short for Ethernet, or IPv4 and too short for its header. */
  predicate Truncated(frame: Frame) {
    |frame| < ETH_HLEN || (|frame| < ETH_HLEN + IP_HLEN && Load16(frame, 12) == Ntohs(ETH_P_IP))
  }

  /** Every entry matches its own key exactly. */
  predicate ExactEntries(blockMap: BlockMap) {
    forall key :: key in blockMap ==> blockMap[key] == Entry(key.word, 0xFFFF_FFFF)
  }

  lemma FullMask(ip: bv32)
    ensures ip & 0xFFFF_FFFF == ip
  {
  }

  /** With exact entries, the filter drops exactly the truncated frames and those whose source is listed. */
  lemma FilterIsMembership(frame: Frame, blockMap: BlockMap)
    requires ExactEntries(blockMap)
    ensures Filter(frame, blockMap) == XdpDrop
       <==> Truncated(frame) || (HasSource(frame) && Source(frame) in blockMap)
  {
    if HasSource(frame) {
      FullMask(Source(frame).word);
    }
  }

  /** The filter told from the bytes: it drops a frame if it is shorter than 14 bytes, or if it has 08 00 as its
      ethertype and is shorter than 34 or has its bytes 26 to 29 on the list. */
  lemma FilterOnBytes(frame: Frame, blockMap: BlockMap)
    requires ExactEntries(blockMap)
    ensures Filter(frame, blockMap) == XdpDrop
       <==> || |frame| < 14
            || (&& frame[12] == 0x08 && frame[13] == 0x00
                && (|| |frame| < 34
                    || exists key :: key in blockMap && Memory32(key.word) == frame[26..30]))
  {
    FilterIsMembership(frame, blockMap);
    if |frame| >= 14 {
      TypeBytes(frame[12], frame[13]);
    }
    if HasSource(frame) {
      SourceBytes(frame);
    }
  }

  lemma TypeBytes(first: bv8, second: bv8)
    ensures Join16(first, second) == Ntohs(ETH_P_IP) <==> first == 0x08 && second == 0x00
  {
  }

  lemma BytesOfWord(b0: bv8, b1: bv8, b2: bv8, b3: bv8)
    ensures Memory32(Join32(b0, b1, b2, b3)) == [b0, b1, b2, b3]
  {
  }

  lemma SourceBytes(frame: Frame)
    requires HasSource(frame)
    ensures forall key: Address :: Memory32(key.word) == frame[26..30] <==> key == Source(frame)
  {
    var bytes := [frame[26], frame[27], frame[28], frame[29]];
    assert frame[26..30] == bytes;
    BytesOfWord(frame[26], frame[27], frame[28], frame[29]);
    forall key: Address ensures Memory32(key.word) == bytes <==> key == Source(frame) {
      AddressRoundTrip(key.word);
      assert Memory32(key.word) == bytes ==>
          Byte(key.word, 0) == bytes[0] && Byte(key.word, 1) == bytes[1] && Byte(key.word, 2) == bytes[2]
          && Byte(key.word, 3) == bytes[3];
    }
  }

  /** On frames built field by field the source the filter reads is the one put in. */
  lemma SourceRecovered(e: Ethernet, h: IPv4, t: Tcp)
    requires h.Valid() && |Encode(e, h, t)| < 0x1_0000_0000 && e.etherType == 0x0800
    ensures HasSource(Encode(e, h, t)) && Source(Encode(e, h, t)) == Address(h.saddr)
  {
    FrameLayout(e, h, t);
    var f := Encode(e, h, t);
    var typeBytes, addressBytes := f[12..14], f[26..30];
    assert f[12] == typeBytes[0] && f[13] == typeBytes[1];
    assert f[26] == addressBytes[0] && f[27] == addressBytes[1] && f[28] == addressBytes[2] && f[29] == addressBytes[3];
    PortRoundTrip(ETH_P_IP);
    EtherTypeBytes();
    AddressRoundTrip(h.saddr);
  }

  lemma EtherTypeBytes()
    ensures Join16(High(ETH_P_IP), Low(ETH_P_IP)) == Ntohs(ETH_P_IP)
  {
  }
}
