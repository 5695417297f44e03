/** Sessions, observations and timeline events, and the per-packet update of
    one session (services/forensic-engine/main.py:109-115, 230-320). */
module Sessions {
  import opened Options
  import opened Flow
  import opened Records

  datatype DnsQuery = DnsQuery(name: string, ts: real, evidenceFrame: int)

  /** An HTTP request; an empty host or URI is recorded as absent. */
  datatype HttpRequest = HttpRequest(verb: string, host: Option<string>, uri: Option<string>, ts: real, evidenceFrame: int)

  datatype TlsSni = TlsSni(serverName: string, ts: real, evidenceFrame: int)

  /** First and last frame numbers and a capped sample of frame numbers. */
  datatype Evidence = Evidence(firstFrame: int, lastFrame: int, sampleFrames: seq<int>)

  datatype Observations = Observations(dnsQueries: seq<DnsQuery>, httpRequests: seq<HttpRequest>, tlsSni: seq<TlsSni>)

  /** One conversation as aggregated during the pass. */
  datatype Session = Session(
    id: string,
    transport: Transport,
    a: Endpoint,
    b: Endpoint,
    firstTs: real,
    lastTs: real,
    packetCount: nat,
    byteCount: int,
    protocolChains: map<string, nat>,
    evidence: Evidence,
    observations: Observations)

  datatype EventKind = DnsQueryEvent | HttpRequestEvent | TlsSniEvent

  /** The kind as the artifact spells it. */
  function KindText(k: EventKind): string {
    match k
    case DnsQueryEvent => "dns_query"
    case HttpRequestEvent => "http_request"
    case TlsSniEvent => "tls_sni"
  }

  /** Each kind has its own spelling, so an event's kind can be read back from
      the artifact. */
  lemma KindTextInjective(k: EventKind, l: EventKind)
    ensures KindText(k) == KindText(l) <==> k == l
  {
  }

  datatype TimelineEvent = TimelineEvent(ts: real, sessionId: string, kind: EventKind, summary: string, evidenceFrame: int)

  /** The number of sample frames kept for a session of `n` packets. */
  function SampleSize(cap: int, n: nat): (k: nat)
    ensures k <= n
    ensures cap >= 0 ==> k <= cap
    ensures k < n ==> k == cap || (cap < 0 && k == 0)
    ensures cap < 0 ==> k == 0
  {
    if cap < 0 then 0 else if cap < n then cap else n
  }

  /** What holds of every session the fold builds. */
  predicate WellFormed(s: Session, cap: int) {
    && s.firstTs <= s.lastTs
    && s.evidence.firstFrame <= s.evidence.lastFrame
    && |s.evidence.sampleFrames| <= SampleSize(cap, s.packetCount)
    && forall i :: 0 <= i < |s.evidence.sampleFrames| ==>
         s.evidence.firstFrame <= s.evidence.sampleFrames[i] <= s.evidence.lastFrame
  }

  /** The total number of observations a session holds. */
  function ObservationTotal(s: Session): nat {
    |s.observations.dnsQueries| + |s.observations.httpRequests| + |s.observations.tlsSni|
  }

  /** A fresh session for key `k`, opened by a packet at `ts` with frame
      number `frame`, before that packet is counted. */
  function Open(id: string, k: FlowKey, ts: real, frame: int): (r: Session)
    ensures forall cap :: WellFormed(r, cap)
    ensures (r.id, r.transport, r.a, r.b) == (id, k.transport, k.a, k.b)
    ensures r.packetCount == 0 && ObservationTotal(r) == 0
  {
    Session(id, k.transport, k.a, k.b, ts, ts, 0, 0, map[],
            Evidence(frame, frame, []), Observations([], [], []))
  }

  /** Python's `m.get(c, 0)`. */
  function CountOf(m: map<string, nat>, c: string): nat {
    if c in m then m[c] else 0
  }

  /** The histogram after one more occurrence of label `c` (an empty label is
      not counted). */
  function Tally(m: map<string, nat>, c: string): (r: map<string, nat>)
    ensures c != "" ==> r.Keys == m.Keys + {c} && r[c] == CountOf(m, c) + 1
    ensures forall d :: d in m && d != c ==> d in r && r[d] == m[d]
    ensures c == "" ==> r == m
  {
    if c != "" then m[c := CountOf(m, c) + 1] else m
  }

  /** Counters, time and frame bounds, the evidence sample and the protocol
      histogram after one more packet (main.py:255-266). */
  function Count(s: Session, p: Packet, cap: int): (r: Session)
    ensures WellFormed(s, cap) ==> WellFormed(r, cap)
    ensures r.firstTs <= p.ts <= r.lastTs
    ensures r.firstTs <= s.firstTs && (r.firstTs == s.firstTs || r.firstTs == p.ts)
    ensures s.lastTs <= r.lastTs && (r.lastTs == s.lastTs || r.lastTs == p.ts)
    ensures r.evidence.firstFrame <= p.frame <= r.evidence.lastFrame
    ensures r.evidence.firstFrame <= s.evidence.firstFrame
            && (r.evidence.firstFrame == s.evidence.firstFrame || r.evidence.firstFrame == p.frame)
    ensures s.evidence.lastFrame <= r.evidence.lastFrame
            && (r.evidence.lastFrame == s.evidence.lastFrame || r.evidence.lastFrame == p.frame)
    ensures r.protocolChains == Tally(s.protocolChains, p.chain)
    ensures r.packetCount == s.packetCount + 1
    ensures r.byteCount == s.byteCount + p.frameLen.GetOr(0)
    ensures |s.evidence.sampleFrames| < cap ==> r.evidence.sampleFrames == s.evidence.sampleFrames + [p.frame]
    ensures |s.evidence.sampleFrames| >= cap ==> r.evidence.sampleFrames == s.evidence.sampleFrames
    ensures (r.id, r.transport, r.a, r.b, r.observations) == (s.id, s.transport, s.a, s.b, s.observations)
  {
    var sample := s.evidence.sampleFrames;
    s.(packetCount := s.packetCount + 1,
       byteCount := s.byteCount + p.frameLen.GetOr(0),
       firstTs := if p.ts < s.firstTs then p.ts else s.firstTs,
       lastTs := if p.ts > s.lastTs then p.ts else s.lastTs,
       evidence := Evidence(
         if p.frame < s.evidence.firstFrame then p.frame else s.evidence.firstFrame,
         if p.frame > s.evidence.lastFrame then p.frame else s.evidence.lastFrame,
         if |sample| < cap then sample + [p.frame] else sample),
       protocolChains := Tally(s.protocolChains, p.chain))
  }

  // Observations of one packet and the timeline events they emit.

  function DnsOf(p: Packet): seq<DnsQuery> {
    if HasDns(p) then [DnsQuery(p.dnsQuery, p.ts, p.frame)] else []
  }

  function HttpOf(p: Packet): seq<HttpRequest> {
    if HasHttp(p) then
      [HttpRequest(p.httpMethod, if p.httpHost != "" then Some(p.httpHost) else None,
                   if p.httpUri != "" then Some(p.httpUri) else None, p.ts, p.frame)]
    else []
  }

  function SniOf(p: Packet): seq<TlsSni> {
    if HasSni(p) then [TlsSni(p.sni, p.ts, p.frame)] else []
  }

  /** The timeline event a DNS observation emits. */
  function DnsEvent(q: DnsQuery, id: string): TimelineEvent {
    TimelineEvent(q.ts, id, DnsQueryEvent, "DNS query: " + q.name, q.evidenceFrame)
  }

  /** The timeline event an HTTP observation emits; absent host or URI render
      as nothing. */
  function HttpEvent(h: HttpRequest, id: string): TimelineEvent {
    TimelineEvent(h.ts, id, HttpRequestEvent,
                  "HTTP request: " + h.verb + " " + h.host.GetOr("") + h.uri.GetOr(""),
                  h.evidenceFrame)
  }

  /** The timeline event a TLS observation emits. */
  function SniEvent(t: TlsSni, id: string): TimelineEvent {
    TimelineEvent(t.ts, id, TlsSniEvent, "TLS SNI: " + t.serverName, t.evidenceFrame)
  }

  /** The timeline events a packet emits under session id `id`: one per
      observation, in DNS, HTTP, TLS order, each carrying the packet's
      timestamp and frame number. */
  function Emit(p: Packet, id: string): (events: seq<TimelineEvent>)
    ensures |events| == ObservationCount(p)
    ensures forall i :: 0 <= i < |events| ==>
              events[i].ts == p.ts && events[i].sessionId == id && events[i].evidenceFrame == p.frame
  {
    (if HasDns(p) then [DnsEvent(DnsOf(p)[0], id)] else [])
    + (if HasHttp(p) then [HttpEvent(HttpOf(p)[0], id)] else [])
    + (if HasSni(p) then [SniEvent(SniOf(p)[0], id)] else [])
  }

  /** Records the packet's observations on the session and returns the events
      they emit (main.py:268-320). Nothing but the observation lists changes. */
  function Observe(s: Session, p: Packet, id: string): (r: (Session, seq<TimelineEvent>))
    ensures r.1 == Emit(p, id)
    ensures ObservationTotal(r.0) == ObservationTotal(s) + |r.1|
    ensures r.0.observations.dnsQueries == s.observations.dnsQueries + DnsOf(p)
    ensures r.0.observations.httpRequests == s.observations.httpRequests + HttpOf(p)
    ensures r.0.observations.tlsSni == s.observations.tlsSni + SniOf(p)
    ensures r.0.(observations := s.observations) == s
  {
    var o := s.observations;
    (s.(observations := Observations(o.dnsQueries + DnsOf(p), o.httpRequests + HttpOf(p), o.tlsSni + SniOf(p))),
     Emit(p, id))
  }

  /** The whole per-packet update of the packet's session. */
  function Update(s: Session, p: Packet, cap: int, id: string): (r: (Session, seq<TimelineEvent>))
    ensures WellFormed(s, cap) ==> WellFormed(r.0, cap)
    ensures (r.0.id, r.0.transport, r.0.a, r.0.b) == (s.id, s.transport, s.a, s.b)
    ensures r.0.packetCount == s.packetCount + 1
    ensures r.0.(observations := s.observations) == Count(s, p, cap)
    ensures ObservationTotal(r.0) == ObservationTotal(s) + |r.1|
    ensures r.1 == Emit(p, id)
  {
    Observe(Count(s, p, cap), p, id)
  }

  /** Observation/event pairing: a DNS observation is recorded iff the query
      name is non-empty, an HTTP one iff the method is non-empty and the host
      or URI is, a TLS one iff the server name is; each emits exactly one
      event carrying its own timestamp, evidence frame and the session id. */
  lemma ObservationsPairWithEvents(s: Session, p: Packet, id: string)
    ensures var (s', events) := Observe(s, p, id);
            var o := s.observations;
            var o' := s'.observations;
            && (|o'.dnsQueries| == |o.dnsQueries| + 1 <==> p.dnsQuery != "")
            && (|o'.httpRequests| == |o.httpRequests| + 1 <==> p.httpMethod != "" && (p.httpHost != "" || p.httpUri != ""))
            && (|o'.tlsSni| == |o.tlsSni| + 1 <==> p.sni != "")
            && events ==
                 (if |o'.dnsQueries| > |o.dnsQueries| then [DnsEvent(o'.dnsQueries[|o.dnsQueries|], id)] else [])
                 + (if |o'.httpRequests| > |o.httpRequests| then [HttpEvent(o'.httpRequests[|o.httpRequests|], id)] else [])
                 + (if |o'.tlsSni| > |o.tlsSni| then [SniEvent(o'.tlsSni[|o.tlsSni|], id)] else [])
  {
  }
}
