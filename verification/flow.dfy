/** Flow identity: transport selection, the direction-independent ordering of
    the two endpoints, and the session key text whose digest is the session id
    (services/forensic-engine/main.py:84-106, 213-228). */
module Flow {
  import opened Options
  import opened Text
  import opened Numbers

  datatype Transport = Tcp | Udp | Other

  /** The transport label as it appears in the session key and the artifact. */
  function TransportText(t: Transport): string {
    match t
    case Tcp => "tcp"
    case Udp => "udp"
    case Other => "other"
  }

  /** One side of a conversation: an address and, for tcp/udp, a port. */
  datatype Endpoint = Endpoint(ip: string, port: Option<int>)

  /** The transport and the two endpoint ports chosen for one packet. */
  datatype Ports = Ports(transport: Transport, src: Option<int>, dst: Option<int>)

  /** Transport selection: tcp when a tcp port is present, else udp when a udp
      port is present, else "other" with no ports at all. */
  function SelectTransport(tcpSrc: Option<int>, tcpDst: Option<int>, udpSrc: Option<int>, udpDst: Option<int>): (r: Ports)
    ensures r.transport == Tcp <==> tcpSrc.Some? || tcpDst.Some?
    ensures r.transport == Udp <==> tcpSrc.None? && tcpDst.None? && (udpSrc.Some? || udpDst.Some?)
    ensures r.transport == Other <==> tcpSrc.None? && tcpDst.None? && udpSrc.None? && udpDst.None?
    ensures r.transport == Tcp ==> r.src == tcpSrc && r.dst == tcpDst
    ensures r.transport == Udp ==> r.src == udpSrc && r.dst == udpDst
    ensures r.transport == Other ==> r.src.None? && r.dst.None?
  {
    if tcpSrc.Some? || tcpDst.Some? then Ports(Tcp, tcpSrc, tcpDst)
    else if udpSrc.Some? || udpDst.Some? then Ports(Udp, udpSrc, udpDst)
    else Ports(Other, None, None)
  }

  /** Seeing the packet from the other side swaps the ports and keeps the
      transport. */
  lemma SelectTransportReversed(tcpSrc: Option<int>, tcpDst: Option<int>, udpSrc: Option<int>, udpDst: Option<int>)
    ensures var r := SelectTransport(tcpSrc, tcpDst, udpSrc, udpDst);
            SelectTransport(tcpDst, tcpSrc, udpDst, udpSrc) == Ports(r.transport, r.dst, r.src)
  {
  }

  // ---------------------------------------------------------------------------
  // The order of endpoints as the source writes it.

  /** `_canonical_endpoint`: the comparison key `(ip, port)`, an absent port
      encoded as -1. */
  function CanonicalEndpoint(e: Endpoint): (string, int) {
    (e.ip, if e.port.None? then -1 else e.port.value)
  }

  /** Python's `<=` on `(str, int)` tuples. */
  predicate TupleLe(x: (string, int), y: (string, int)) {
    StrLt(x.0, y.0) || (x.0 == y.0 && x.1 <= y.1)
  }

  /** `_canonical_pair` exactly as written: keep the stated direction when the
      source's comparison key is not greater than the destination's. */
  function CanonicalPairAsWritten(src: Endpoint, dst: Endpoint): (r: (Endpoint, Endpoint))
    ensures TupleLe(CanonicalEndpoint(r.0), CanonicalEndpoint(r.1))
    ensures multiset{r.0, r.1} == multiset{src, dst}
  {
    StrTrichotomy(src.ip, dst.ip);
    if TupleLe(CanonicalEndpoint(src), CanonicalEndpoint(dst)) then (src, dst) else (dst, src)
  }

  /** The as-written pair is not direction-independent: an endpoint with port
      -1 and the same address with no port compare equal, so each direction
      keeps its own order. */
  lemma CanonicalPairAsWrittenNotSymmetric(ip: string)
    ensures var absent := Endpoint(ip, None);
            var minusOne := Endpoint(ip, Some(-1));
            CanonicalPairAsWritten(absent, minusOne) != CanonicalPairAsWritten(minusOne, absent)
  {
    StrLtIrreflexive(ip);
  }

  // ---------------------------------------------------------------------------
  // The corrected order: ties on the -1 encoding put the absent port first.

  /** Endpoint order: by address, then by the source's port encoding, then an
      absent port before a present one. A total order on endpoints. */
  predicate EndpointLe(x: Endpoint, y: Endpoint) {
    var ex := CanonicalEndpoint(x);
    var ey := CanonicalEndpoint(y);
    || StrLt(ex.0, ey.0)
    || (ex.0 == ey.0 && ex.1 < ey.1)
    || (ex == ey && (x.port.None? || y.port.Some?))
  }

  lemma EndpointLeTotal(x: Endpoint, y: Endpoint)
    ensures EndpointLe(x, y) || EndpointLe(y, x)
  {
    StrTrichotomy(x.ip, y.ip);
  }

  lemma EndpointLeAntisymmetric(x: Endpoint, y: Endpoint)
    requires EndpointLe(x, y) && EndpointLe(y, x)
    ensures x == y
  {
    StrTrichotomy(x.ip, y.ip);
  }

  /** `_canonical_pair` with the tie broken: the pair is ordered and holds
      exactly the two given endpoints. */
  function CanonicalPair(src: Endpoint, dst: Endpoint): (r: (Endpoint, Endpoint))
    ensures EndpointLe(r.0, r.1)
    ensures multiset{r.0, r.1} == multiset{src, dst}
  {
    EndpointLeTotal(src, dst);
    if EndpointLe(src, dst) then (src, dst) else (dst, src)
  }

  /** Flow-key symmetry: both directions of a conversation get the same pair. */
  lemma CanonicalPairSymmetric(src: Endpoint, dst: Endpoint)
    ensures CanonicalPair(src, dst) == CanonicalPair(dst, src)
  {
    if EndpointLe(src, dst) && EndpointLe(dst, src) {
      EndpointLeAntisymmetric(src, dst);
    }
  }

  /** The correction changes nothing unless a port is -1. */
  lemma CanonicalPairAgreesWithSource(src: Endpoint, dst: Endpoint)
    requires src.port != Some(-1) && dst.port != Some(-1)
    ensures CanonicalPair(src, dst) == CanonicalPairAsWritten(src, dst)
  {
    StrTrichotomy(src.ip, dst.ip);
  }

  // ---------------------------------------------------------------------------
  // The session key.

  /** The canonical identity of a conversation. */
  datatype FlowKey = FlowKey(transport: Transport, a: Endpoint, b: Endpoint)

  /** Transport selection followed by canonicalisation of the two endpoints. */
  function FlowKeyOf(srcIp: string, dstIp: string, ports: Ports): FlowKey {
    var pair := CanonicalPair(Endpoint(srcIp, ports.src), Endpoint(dstIp, ports.dst));
    FlowKey(ports.transport, pair.0, pair.1)
  }

  /** A port as Python's f-string renders `Optional[int]`. */
  function PortText(p: Option<int>): string {
    match p
    case None => "None"
    case Some(n) => IntText(n)
  }

  /** The session key text `"{transport}:{a.ip}:{a.port}->{b.ip}:{b.port}"`. */
  function KeyText(k: FlowKey): string {
    TransportText(k.transport) + ":" + k.a.ip + ":" + PortText(k.a.port)
      + "->" + k.b.ip + ":" + PortText(k.b.port)
  }

  /** Both directions of one conversation share the flow key, hence the key
      text and the session id derived from it. */
  lemma FlowKeySymmetric(tcpSrc: Option<int>, tcpDst: Option<int>, udpSrc: Option<int>, udpDst: Option<int>,
                         srcIp: string, dstIp: string)
    ensures var forward := FlowKeyOf(srcIp, dstIp, SelectTransport(tcpSrc, tcpDst, udpSrc, udpDst));
            var backward := FlowKeyOf(dstIp, srcIp, SelectTransport(tcpDst, tcpSrc, udpDst, udpSrc));
            forward == backward && KeyText(forward) == KeyText(backward)
  {
    var r := SelectTransport(tcpSrc, tcpDst, udpSrc, udpDst);
    SelectTransportReversed(tcpSrc, tcpDst, udpSrc, udpDst);
    CanonicalPairSymmetric(Endpoint(srcIp, r.src), Endpoint(dstIp, r.dst));
  }
}
