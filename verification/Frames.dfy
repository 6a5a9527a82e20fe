/** Packets as the XDP programs see them: raw bytes, read with the bounds checks the programs make.
    The host is little-endian, so a multi-byte load puts the first byte on the wire lowest. */
module Frames {
  /** `struct xdp_md` holds both ends of the packet in 32-bit fields, so a frame is shorter than 2^32 bytes. */
  type Frame = f: seq<bv8> | |f| < 0x1_0000_0000 witness []

  datatype Verdict = XdpPass | XdpDrop

  const ETH_HLEN: nat := 14   // sizeof(struct ethhdr)
  const IP_HLEN: nat := 20    // sizeof(struct iphdr)
  const TCP_HLEN: nat := 20   // sizeof(struct tcphdr)
  const PROXY_PORT: bv16 := 9090

  /** The 16-bit value whose bytes in memory are `first`, `second`. */
  function Join16(first: bv8, second: bv8): bv16 {
    (first as bv16) | ((second as bv16) << 8)
  }

  function Join32(b0: bv8, b1: bv8, b2: bv8, b3: bv8): bv32 {
    (b0 as bv32) | ((b1 as bv32) << 8) | ((b2 as bv32) << 16) | ((b3 as bv32) << 24)
  }

  function Load16(f: seq<bv8>, offset: nat): bv16
    requires offset + 2 <= |f|
  {
    Join16(f[offset], f[offset + 1])
  }

  function Load32(f: seq<bv8>, offset: nat): bv32
    requires offset + 4 <= |f|
  {
    Join32(f[offset], f[offset + 1], f[offset + 2], f[offset + 3])
  }

  /** bpf_ntohs and bpf_htons: both swap the two bytes on a little-endian host. */
  function Ntohs(x: bv16): bv16 {
    (x << 8) | (x >> 8)
  }

  /** The destination port, or 0 for a frame too short to hold the three fixed-size headers.
      The program looks at neither the ethertype, nor the protocol, nor the IP header length. */
  function GetPacketDestPort(frame: Frame): bv16 {
    if |frame| < ETH_HLEN then 0
    else if |frame| < ETH_HLEN + IP_HLEN then 0
    else if |frame| < ETH_HLEN + IP_HLEN + TCP_HLEN then 0
    else Ntohs(Load16(frame, ETH_HLEN + IP_HLEN + 2))
  }

  /** Traffic the limiters act on. */
  predicate ForProxy(frame: Frame) {
    GetPacketDestPort(frame) == PROXY_PORT
  }

  // ------------------------------------------------------------------------------------------
  // Frames built field by field, to say what the parsers must recover.
  // ------------------------------------------------------------------------------------------

  type Bytes6 = b: seq<bv8> | |b| == 6 witness [0, 0, 0, 0, 0, 0]

  datatype Ethernet = Ethernet(destination: Bytes6, source: Bytes6, etherType: bv16)

  /** Section 3.1 of RFC 791. `options` is what the header length field counts beyond five words. */
  datatype IPv4 = IPv4(
    tos: bv8, totalLength: bv16, id: bv16, fragment: bv16, ttl: bv8, protocol: bv8, checksum: bv16,
    saddr: bv32, daddr: bv32, options: seq<bv8>)
  {
    predicate Valid() {
      |options| <= 40 && |options| % 4 == 0
    }
  }

  /** Section 3.1 of RFC 9293, with options and data together in `rest`. */
  datatype Tcp = Tcp(
    source: bv16, destination: bv16, sequence: bv32, acknowledgement: bv32, control: bv16, window: bv16,
    checksum: bv16, urgent: bv16, rest: seq<bv8>)

  function High(x: bv16): bv8 {
    (x >> 8) as bv8
  }

  function Low(x: bv16): bv8 {
    (x & 0xFF) as bv8
  }

  /** A 16-bit field in network byte order. */
  function Wire16(x: bv16): (r: seq<bv8>)
    ensures |r| == 2
  {
    [High(x), Low(x)]
  }

  function Byte(x: bv32, i: nat): bv8
    requires i < 4
  {
    if i == 0 then (x & 0xFF) as bv8 else if i == 1 then ((x >> 8) & 0xFF) as bv8
    else if i == 2 then ((x >> 16) & 0xFF) as bv8 else (x >> 24) as bv8
  }

  /** A 32-bit field in network byte order. */
  function Wire32(x: bv32): (r: seq<bv8>)
    ensures |r| == 4
  {
    [Byte(x, 3), Byte(x, 2), Byte(x, 1), Byte(x, 0)]
  }

  /** A 32-bit field held in memory order, as `saddr` and `ipSrc` are. */
  function Memory32(x: bv32): (r: seq<bv8>)
    ensures |r| == 4
  {
    [Byte(x, 0), Byte(x, 1), Byte(x, 2), Byte(x, 3)]
  }

  /** Version 4 and the header length in words. */
  function VersionAndLength(optionBytes: nat): bv8
    requires optionBytes <= 40
  {
    (0x45 + optionBytes / 4) as bv8
  }

  function EncodeEthernet(e: Ethernet): (r: seq<bv8>)
    ensures |r| == ETH_HLEN
    ensures r[12..14] == Wire16(e.etherType)
  {
    e.destination + e.source + Wire16(e.etherType)
  }

  function EncodeIPv4(h: IPv4): (r: seq<bv8>)
    requires h.Valid()
    ensures |r| == IP_HLEN + |h.options|
    ensures r[12..16] == Memory32(h.saddr) && r[20..] == h.options
  {
    [VersionAndLength(|h.options|), h.tos] + Wire16(h.totalLength) + Wire16(h.id) + Wire16(h.fragment)
    + [h.ttl, h.protocol] + Wire16(h.checksum) + Memory32(h.saddr) + Memory32(h.daddr) + h.options
  }

  function EncodeTcp(t: Tcp): (r: seq<bv8>)
    ensures |r| == TCP_HLEN + |t.rest|
    ensures r[2..4] == Wire16(t.destination)
  {
    Wire16(t.source) + Wire16(t.destination) + Wire32(t.sequence) + Wire32(t.acknowledgement)
    + Wire16(t.control) + Wire16(t.window) + Wire16(t.checksum) + Wire16(t.urgent) + t.rest
  }

  function Encode(e: Ethernet, h: IPv4, t: Tcp): seq<bv8>
    requires h.Valid()
  {
    EncodeEthernet(e) + EncodeIPv4(h) + EncodeTcp(t)
  }

  /** Byte order round trips: a port written in network order is what ntohs of the host load returns, and no
      other two bytes give it; an address stored in memory order is what the host load returns. */
  lemma PortRoundTrip(port: bv16)
    ensures Ntohs(Join16(High(port), Low(port))) == port
  {
  }

  lemma PortBytesUnique(high: bv8, low: bv8)
    ensures High(Ntohs(Join16(high, low))) == high && Low(Ntohs(Join16(high, low))) == low
  {
  }

  lemma PortOfBytes(high: bv8, low: bv8, port: bv16)
    ensures Ntohs(Join16(high, low)) == port <==> [high, low] == Wire16(port)
  {
    PortRoundTrip(port);
    PortBytesUnique(high, low);
  }

  lemma AddressRoundTrip(x: bv32)
    ensures Join32(Byte(x, 0), Byte(x, 1), Byte(x, 2), Byte(x, 3)) == x
  {
  }

  lemma Slices(ether: seq<bv8>, ip: seq<bv8>, tcp: seq<bv8>)
    requires |ether| == ETH_HLEN && |ip| >= IP_HLEN && |tcp| >= TCP_HLEN
    ensures var f := ether + ip + tcp;
            && f[12..14] == ether[12..14] && f[26..30] == ip[12..16]
            && (|ip| == IP_HLEN ==> f[36..38] == tcp[2..4])
            && (|ip| >= IP_HLEN + 4 ==> f[36..38] == ip[20..][2..4])
  {
    var f := ether + ip + tcp;
    if |ip| >= IP_HLEN + 4 {
      assert f[36..38] == ip[22..24] == ip[20..][2..4];
    }
  }

  /** Where the parsers look: the source address is the built one, and the port bytes belong to the TCP header
      only when the IP header has no options. */
  lemma FrameLayout(e: Ethernet, h: IPv4, t: Tcp)
    requires h.Valid()
    ensures var f := Encode(e, h, t);
            && |f| == 54 + |h.options| + |t.rest|
            && f[12..14] == Wire16(e.etherType)
            && f[26..30] == Memory32(h.saddr)
            && f[36..38] == if h.options == [] then Wire16(t.destination) else h.options[2..4]
  {
    Slices(EncodeEthernet(e), EncodeIPv4(h), EncodeTcp(t));
  }

  /** On every well-formed TCP frame the parsed port is the built one exactly when the IP header carries no
      options, or the options hold the port's two bytes where the TCP header was expected. */
  lemma DestPortRecovered(e: Ethernet, h: IPv4, t: Tcp)
    requires h.Valid() && |Encode(e, h, t)| < 0x1_0000_0000
    ensures GetPacketDestPort(Encode(e, h, t)) == t.destination
       <==> h.options == [] || h.options[2..4] == Wire16(t.destination)
  {
    FrameLayout(e, h, t);
    var f := Encode(e, h, t);
    var window := f[36..38];
    assert f[36] == window[0] && f[37] == window[1];
    assert window == [f[36], f[37]];
    PortOfBytes(f[36], f[37], t.destination);
  }

  /** The failing family is inhabited: with one word of no-operation options the port is misread. */
  lemma OptionsHideThePort(e: Ethernet, h: IPv4, t: Tcp)
    requires h.options == [1, 1, 1, 1] && t.destination == PROXY_PORT
    requires |t.rest| < 1000
    ensures h.Valid() && |Encode(e, h, t)| < 0x1_0000_0000
    ensures !ForProxy(Encode(e, h, t))
  {
    FrameLayout(e, h, t);
    DestPortRecovered(e, h, t);
    assert h.options[2..4][0] == 1;
    assert Wire16(PROXY_PORT)[0] == 0x23;
  }

  /** Whatever the bytes, a frame under 54 bytes has port 0 and is never proxy traffic. */
  lemma ShortFramesHaveNoPort(frame: Frame)
    ensures |frame| < 54 ==> GetPacketDestPort(frame) == 0
    ensures ForProxy(frame) ==> |frame| >= 54
  {
  }
}
