/** One decoded packet row and its normalisation (services/forensic-engine/main.py:191-224,
    264-307): which rows are dropped, which only move the capture's time bounds,
    and the typed packet the session fold consumes. */
module Records {
  import opened Options
  import opened Text
  import opened Numbers
  import opened Flow

  /** One row of the dissector's output, one optional text per requested
      field (`None` when the column or the value is missing). The timestamp is
      already parsed. */
  datatype Row = Row(
    frameNumber: Option<string>,
    timeEpoch: Option<real>,
    frameLen: Option<string>,
    ipSrc: Option<string>,
    ipDst: Option<string>,
    ipv6Src: Option<string>,
    ipv6Dst: Option<string>,
    tcpSrcPort: Option<string>,
    tcpDstPort: Option<string>,
    udpSrcPort: Option<string>,
    udpDstPort: Option<string>,
    protocols: Option<string>,
    dnsQueryName: Option<string>,
    httpMethod: Option<string>,
    httpHost: Option<string>,
    httpUri: Option<string>,
    tlsServerName: Option<string>)

  /** Python truthiness of an optional text. */
  predicate Truthy(v: Option<string>) {
    v.Some? && v.value != ""
  }

  /** `(v or "").strip()`. */
  function FieldText(v: Option<string>): (r: string)
    ensures r == [] <==> v.None? || Blank(v.value)
    ensures Tight(r)
  {
    Strip(v.GetOr(""))
  }

  /** `(v4 or v6 or "").strip()`: the IPv4 column when it is non-empty, else the
      IPv6 column, then stripped. A whitespace-only IPv4 text wins the choice
      and strips to "". */
  function AddressText(v4: Option<string>, v6: Option<string>): (r: string)
    ensures Truthy(v4) ==> r == Strip(v4.value)
    ensures !Truthy(v4) ==> r == FieldText(v6)
  {
    Strip(if Truthy(v4) then v4.value else if Truthy(v6) then v6.value else "")
  }

  /** A row that survived normalisation: frame number and timestamp present,
      both addresses non-empty. */
  datatype Packet = Packet(
    frame: int,
    ts: real,
    frameLen: Option<int>,
    srcIp: string,
    dstIp: string,
    ports: Ports,
    chain: string,
    dnsQuery: string,
    httpMethod: string,
    httpHost: string,
    httpUri: string,
    sni: string)

  /** What the fold does with a row: nothing beyond counting it, only the
      capture's time bounds, or the full session update. */
  datatype Disposition =
    | Unstamped
    | Unaddressed(frame: int, ts: real)
    | Accepted(packet: Packet)

  /** The drop rules: a row without a frame number or timestamp is only
      counted; a row without both addresses moves only the time bounds. */
  function Classify(row: Row): (d: Disposition)
    ensures d.Unstamped? <==> SafeInt(row.frameNumber).None? || row.timeEpoch.None?
    ensures d.Unaddressed? <==>
              && SafeInt(row.frameNumber).Some? && row.timeEpoch.Some?
              && (AddressText(row.ipSrc, row.ipv6Src) == "" || AddressText(row.ipDst, row.ipv6Dst) == "")
    ensures !d.Unstamped? ==> StampOf(d) == (SafeInt(row.frameNumber).value, row.timeEpoch.value)
    ensures d.Accepted? ==> d.packet.srcIp != "" && d.packet.dstIp != ""
    ensures d.Accepted? ==> d.packet.frameLen == SafeInt(row.frameLen)
    ensures d.Accepted? ==>
              && d.packet.srcIp == AddressText(row.ipSrc, row.ipv6Src)
              && d.packet.dstIp == AddressText(row.ipDst, row.ipv6Dst)
    ensures d.Accepted? ==>
              d.packet.ports == SelectTransport(SafeInt(row.tcpSrcPort), SafeInt(row.tcpDstPort),
                                                SafeInt(row.udpSrcPort), SafeInt(row.udpDstPort))
    ensures d.Accepted? ==>
              && d.packet.chain == FieldText(row.protocols)
              && d.packet.dnsQuery == FieldText(row.dnsQueryName)
              && d.packet.httpMethod == FieldText(row.httpMethod)
              && d.packet.httpHost == FieldText(row.httpHost)
              && d.packet.httpUri == FieldText(row.httpUri)
              && d.packet.sni == FieldText(row.tlsServerName)
  {
    var frameNo := SafeInt(row.frameNumber);
    var ts := row.timeEpoch;
    if frameNo.None? || ts.None? then Unstamped
    else
      var srcIp := AddressText(row.ipSrc, row.ipv6Src);
      var dstIp := AddressText(row.ipDst, row.ipv6Dst);
      if srcIp == "" || dstIp == "" then Unaddressed(frameNo.value, ts.value)
      else
        var ports := SelectTransport(SafeInt(row.tcpSrcPort), SafeInt(row.tcpDstPort),
                                     SafeInt(row.udpSrcPort), SafeInt(row.udpDstPort));
        Accepted(Packet(
          frameNo.value, ts.value, SafeInt(row.frameLen), srcIp, dstIp, ports,
          FieldText(row.protocols), FieldText(row.dnsQueryName),
          FieldText(row.httpMethod), FieldText(row.httpHost), FieldText(row.httpUri),
          FieldText(row.tlsServerName)))
  }

  /** Frame number and timestamp of a row that has both. */
  function StampOf(d: Disposition): (int, real)
    requires !d.Unstamped?
  {
    match d
    case Unaddressed(f, t) => (f, t)
    case Accepted(p) => (p.frame, p.ts)
  }

  /** The flow key of an accepted packet. */
  function KeyOf(p: Packet): FlowKey {
    FlowKeyOf(p.srcIp, p.dstIp, p.ports)
  }

  /** The session key text of an accepted packet. */
  function KeyTextOf(p: Packet): string {
    KeyText(KeyOf(p))
  }

  /** The same row with source and destination columns swapped. */
  function Reversed(row: Row): Row {
    row.(ipSrc := row.ipDst, ipDst := row.ipSrc, ipv6Src := row.ipv6Dst, ipv6Dst := row.ipv6Src,
         tcpSrcPort := row.tcpDstPort, tcpDstPort := row.tcpSrcPort,
         udpSrcPort := row.udpDstPort, udpDstPort := row.udpSrcPort)
  }

  /** A row and its reversal fall in the same session: both are accepted or
      neither is, and accepted ones share the session key text. */
  lemma ReversedRowSameSession(row: Row)
    ensures Classify(row).Accepted? <==> Classify(Reversed(row)).Accepted?
    ensures Classify(row).Accepted? ==>
              KeyTextOf(Classify(row).packet) == KeyTextOf(Classify(Reversed(row)).packet)
  {
    var rev := Reversed(row);
    assert AddressText(rev.ipSrc, rev.ipv6Src) == AddressText(row.ipDst, row.ipv6Dst);
    assert AddressText(rev.ipDst, rev.ipv6Dst) == AddressText(row.ipSrc, row.ipv6Src);
    if Classify(row).Accepted? {
      var p := Classify(row).packet;
      var q := Classify(rev).packet;
      assert q.srcIp == p.dstIp && q.dstIp == p.srcIp;
      FlowKeySymmetric(SafeInt(row.tcpSrcPort), SafeInt(row.tcpDstPort),
                       SafeInt(row.udpSrcPort), SafeInt(row.udpDstPort), p.srcIp, p.dstIp);
    }
  }

  // Observation rules (main.py:268-320).

  /** A DNS observation needs a non-empty query name. */
  predicate HasDns(p: Packet) {
    p.dnsQuery != ""
  }

  /** An HTTP observation needs a method and a host or a URI. */
  predicate HasHttp(p: Packet) {
    p.httpMethod != "" && (p.httpHost != "" || p.httpUri != "")
  }

  /** A TLS observation needs a non-empty server name. */
  predicate HasSni(p: Packet) {
    p.sni != ""
  }

  /** How many observations (and timeline events) one packet produces. */
  function ObservationCount(p: Packet): nat {
    (if HasDns(p) then 1 else 0) + (if HasHttp(p) then 1 else 0) + (if HasSni(p) then 1 else 0)
  }
}
