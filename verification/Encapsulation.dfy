/** Tunnelled and raw packets: what `anlf_xdp_main` and `anlf_tc_egress` (bpf/anlf.c:422-453,
    578-617) count for an inner packet and for the same packet inside Ethernet, IPv4, UDP, GTP-U. */
module Encapsulation {
  import opened Gtpu
  import opened PacketPath
  import opened Wrappers

  ghost predicate IsOuter(eth: seq<byte>, ip: seq<byte>, udp: seq<byte>) {
    && |eth| == 14 && eth[12] == 8 && eth[13] == 0
    && |ip| == 20 && ip[9] == 17
    && |udp| == 8 && (FromTo2152(udp[0], udp[1]) || FromTo2152(udp[2], udp[3]))
  }

  /** A port as it is sent. */
  predicate FromTo2152(hi: byte, lo: byte) { hi == 8 && lo == 104 }

  ghost function Wrapped(eth: seq<byte>, ip: seq<byte>, udp: seq<byte>, g: seq<byte>): seq<byte> {
    eth + (ip + (udp + g))
  }

  lemma WrappedParts(eth: seq<byte>, ip: seq<byte>, udp: seq<byte>, g: seq<byte>)
    requires IsOuter(eth, ip, udp)
    ensures var f := Wrapped(eth, ip, udp, g);
            && LooksEthernet(f) && |f| >= 42 && f[23] == UDP
            && f[14..][9] == UDP && f[14..][20..] == f[34..] == udp + g && f[14..][28..] == f[34..][8..] == g
            && IsGtpu(f[34..])
  {
    var f := Wrapped(eth, ip, udp, g);
    assert f[12] == eth[12] && f[13] == eth[13];
    assert f[14..] == ip + (udp + g);
    assert f[34..] == udp + g;
    assert f[23] == f[14..][9] == ip[9];
    forall i | 0 <= i < 8 ensures (udp + g)[i] == udp[i] {
    }
  }

  /** A header followed by its payload: the parser stops at the payload, or gives up when there are
      more than six extensions. */
  lemma TunnelledUplink(eth: seq<byte>, ip: seq<byte>, udp: seq<byte>, h: Header, pkt: seq<byte>)
    requires IsOuter(eth, ip, udp) && Encodable(h, pkt)
    ensures SeenIngress(Wrapped(eth, ip, udp, Encode(h, pkt) + pkt))
         == if |h.exts| <= 6 then SeenInner(pkt) else None
  {
    var g := Encode(h, pkt) + pkt;
    WrappedParts(eth, ip, udp, g);
    EncodedIsLocated(h, pkt);
    assert g[|Encode(h, pkt)|..] == pkt;
  }

  /** Nothing else in an Ethernet frame with IPv4 in it is counted: not another protocol, nor UDP between
      other ports, nor a frame cut short. */
  lemma OtherFramesAreIgnored(frame: seq<byte>)
    requires |frame| >= 14 && frame[12] == 8 && frame[13] == 0
    requires !(|frame| >= 42 && frame[23] == 17
               && (FromTo2152(frame[34], frame[35]) || FromTo2152(frame[36], frame[37])))
    ensures SeenIngress(frame) == None
  {
  }

  /** And nothing but IPv4 from 10.60/16 among raw packets. */
  lemma OtherPacketsAreIgnored(pkt: seq<byte>)
    requires !(|pkt| >= 14 && pkt[12] == 8 && pkt[13] == 0)
    ensures SeenIngress(pkt).Some? <==> |pkt| >= 20 && pkt[0] / 16 == 4 && pkt[12] == 10 && pkt[13] == 60
  {
  }

  /** Nor, on the way down, anything but packets to 10.60/16; raw UDP only as a tunnel. */
  lemma OtherSentPacketsAreIgnored(pkt: seq<byte>)
    requires !(|pkt| >= 14 && pkt[12] == 8 && pkt[13] == 0)
    ensures !(|pkt| >= 20 && pkt[0] / 16 == 4) ==> SentEgress(pkt) == None
    ensures |pkt| >= 20 && pkt[9] != 17 && !(pkt[16] == 10 && pkt[17] == 60) ==> SentEgress(pkt) == None
    ensures (|pkt| >= 20 && pkt[9] == 17
             && !(|pkt| >= 28 && (FromTo2152(pkt[20], pkt[21]) || FromTo2152(pkt[22], pkt[23])))) ==> SentEgress(pkt) == None
  {
  }

  /** A packet with a source in 10.60/16 is never taken for an Ethernet frame: bytes 12 and 13 are
      its first two source bytes. */
  lemma UplinkIsNotEthernet(pkt: seq<byte>)
    requires SeenInner(pkt).Some?
    ensures !LooksEthernet(pkt) && SeenIngress(pkt) == SeenInner(pkt)
  {
  }

  /** Encapsulation transparency: with at most six extension headers a tunnelled packet changes
      every map, and sends the same TLS event, as the raw packet does; with more it changes nothing. */
  lemma EncapsulationIsTransparent(m: Maps, eth: seq<byte>, ip: seq<byte>, udp: seq<byte>, h: Header, pkt: seq<byte>)
    requires IsOuter(eth, ip, udp) && Encodable(h, pkt) && !LooksEthernet(pkt)
    ensures UplinkIf(m, SeenIngress(Wrapped(eth, ip, udp, Encode(h, pkt) + pkt)))
         == if |h.exts| <= 6 then UplinkIf(m, SeenIngress(pkt)) else m
  {
    TunnelledUplink(eth, ip, udp, h, pkt);
  }

  /** For any GTP-U bytes at all, padded or not and whatever length they declare: what lies behind the
      located header is what is counted. */
  lemma CountedIsLocated(eth: seq<byte>, ip: seq<byte>, udp: seq<byte>, g: seq<byte>)
    requires IsOuter(eth, ip, udp) && 0 <= Inner(g)
    ensures Inner(g) <= |g| && SeenIngress(Wrapped(eth, ip, udp, g)) == SeenInner(g[Inner(g)..])
  {
    WrappedParts(eth, ip, udp, g);
    InnerBounds(g);
  }

  /** On the way down the same holds for tunnelled packets. */
  lemma TunnelledDownlink(eth: seq<byte>, ip: seq<byte>, udp: seq<byte>, h: Header, pkt: seq<byte>)
    requires IsOuter(eth, ip, udp) && Encodable(h, pkt)
    ensures SentEgress(Wrapped(eth, ip, udp, Encode(h, pkt) + pkt))
         == if |h.exts| <= 6 then SentInner(pkt) else None
  {
    var g := Encode(h, pkt) + pkt;
    WrappedParts(eth, ip, udp, g);
    EncodedIsLocated(h, pkt);
    assert g[|Encode(h, pkt)|..] == pkt;
    assert (udp + g)[8..] == g;
  }

  /** The part of a packet that makes the egress program take another path than the one for raw
      inner packets: UDP is only looked at as a tunnel, and a source in 8.0/16 looks like an
      Ethernet type. */
  predicate Misread(pkt: seq<byte>)
    requires |pkt| >= 20
  {
    pkt[9] == UDP || (LooksEthernet(pkt) && (|pkt| < 34 || pkt[23] == UDP))
  }

  lemma SentUdpIsShorter(udp: seq<byte>)
    requires SentUdp(udp).Some?
    ensures SentUdp(udp).value.len < |udp|
  {
    InnerBounds(udp[8..]);
  }

  /** A raw downlink packet for a UE is counted as itself exactly when it is not misread; so raw
      UDP never is. */
  lemma RawDownlinkExactly(pkt: seq<byte>)
    requires SentInner(pkt).Some?
    ensures SentEgress(pkt) == SentInner(pkt) <==> !Misread(pkt)
    ensures pkt[9] == UDP && !LooksEthernet(pkt) && !IsGtpu(pkt[20..]) ==> SentEgress(pkt) == None
  {
    if Misread(pkt) && SentEgress(pkt).Some? {
      if LooksEthernet(pkt) && pkt[23] == UDP {
        SentUdpIsShorter(pkt[34..]);
      } else {
        SentUdpIsShorter(pkt[20..]);
      }
    }
  }

  /** So the two directions differ: a tunnelled UDP packet to a UE is counted, the raw one is not. */
  lemma DownlinkIsNotTransparent(m: Maps, eth: seq<byte>, ip: seq<byte>, udp: seq<byte>, h: Header, pkt: seq<byte>)
    requires IsOuter(eth, ip, udp) && Encodable(h, pkt) && |h.exts| <= 6
    requires SentInner(pkt).Some? && pkt[9] == UDP && !LooksEthernet(pkt) && !IsGtpu(pkt[20..])
    ensures DownlinkIf(m, SentEgress(pkt)) == m
    ensures DownlinkIf(m, SentEgress(Wrapped(eth, ip, udp, Encode(h, pkt) + pkt)))
         == Downlink(m, SentInner(pkt).value)
  {
    RawDownlinkExactly(pkt);
    TunnelledDownlink(eth, ip, udp, h, pkt);
  }
}
