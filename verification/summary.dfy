/** A session described all at once from the packets it received, in arrival
    order: an independent reference definition of what the per-packet updates
    of services/forensic-engine/main.py:230-320 accumulate. */
module Summary {
  import opened Records
  import opened Sessions

  // Least and greatest elements.

  function Least(xs: seq<real>): (m: real)
    requires |xs| > 0
    ensures m in xs
    ensures forall i :: 0 <= i < |xs| ==> m <= xs[i]
  {
    if |xs| == 1 then xs[0]
    else
      var m := Least(xs[..|xs| - 1]);
      assert xs[..|xs| - 1][0] == xs[0];
      if xs[|xs| - 1] < m then xs[|xs| - 1] else m
  }

  function Greatest(xs: seq<real>): (m: real)
    requires |xs| > 0
    ensures m in xs
    ensures forall i :: 0 <= i < |xs| ==> xs[i] <= m
  {
    if |xs| == 1 then xs[0]
    else
      var m := Greatest(xs[..|xs| - 1]);
      assert xs[..|xs| - 1][0] == xs[0];
      if xs[|xs| - 1] > m then xs[|xs| - 1] else m
  }

  function LeastInt(xs: seq<int>): (m: int)
    requires |xs| > 0
    ensures m in xs
    ensures forall i :: 0 <= i < |xs| ==> m <= xs[i]
  {
    if |xs| == 1 then xs[0]
    else
      var m := LeastInt(xs[..|xs| - 1]);
      assert xs[..|xs| - 1][0] == xs[0];
      if xs[|xs| - 1] < m then xs[|xs| - 1] else m
  }

  function GreatestInt(xs: seq<int>): (m: int)
    requires |xs| > 0
    ensures m in xs
    ensures forall i :: 0 <= i < |xs| ==> xs[i] <= m
  {
    if |xs| == 1 then xs[0]
    else
      var m := GreatestInt(xs[..|xs| - 1]);
      assert xs[..|xs| - 1][0] == xs[0];
      if xs[|xs| - 1] > m then xs[|xs| - 1] else m
  }

  // Projections of a packet list.

  function Times(ps: seq<Packet>): (r: seq<real>)
    ensures |r| == |ps| && forall i :: 0 <= i < |ps| ==> r[i] == ps[i].ts
  {
    seq(|ps|, i requires 0 <= i < |ps| => ps[i].ts)
  }

  function Frames(ps: seq<Packet>): (r: seq<int>)
    ensures |r| == |ps| && forall i :: 0 <= i < |ps| ==> r[i] == ps[i].frame
  {
    seq(|ps|, i requires 0 <= i < |ps| => ps[i].frame)
  }

  function Chains(ps: seq<Packet>): (r: seq<string>)
    ensures |r| == |ps| && forall i :: 0 <= i < |ps| ==> r[i] == ps[i].chain
  {
    seq(|ps|, i requires 0 <= i < |ps| => ps[i].chain)
  }

  /** The byte total: frame lengths, an absent length counting 0. */
  function TotalBytes(ps: seq<Packet>): int {
    if |ps| == 0 then 0 else TotalBytes(ps[..|ps| - 1]) + ps[|ps| - 1].frameLen.GetOr(0)
  }

  /** For every non-empty label in `labels`, how often it occurs. */
  function Tallies(labels: multiset<string>): map<string, nat> {
    map c | c in labels && c != "" :: labels[c]
  }

  /** For every non-empty protocol chain label, how many packets carry it. */
  function Histogram(ps: seq<Packet>): map<string, nat> {
    Tallies(multiset(Chains(ps)))
  }

  function DnsQueries(ps: seq<Packet>): seq<DnsQuery> {
    if |ps| == 0 then [] else DnsQueries(ps[..|ps| - 1]) + DnsOf(ps[|ps| - 1])
  }

  function HttpRequests(ps: seq<Packet>): seq<HttpRequest> {
    if |ps| == 0 then [] else HttpRequests(ps[..|ps| - 1]) + HttpOf(ps[|ps| - 1])
  }

  function TlsSnis(ps: seq<Packet>): seq<TlsSni> {
    if |ps| == 0 then [] else TlsSnis(ps[..|ps| - 1]) + SniOf(ps[|ps| - 1])
  }

  /** The session whose key text is `t` after receiving `ps`: identity from
      the first packet, counts, byte total, time and frame bounds, the first
      `cap` frame numbers, the chain histogram and the observations. */
  function Summarize(t: string, ps: seq<Packet>, cap: int, digest: string -> string): Session
    requires |ps| > 0
  {
    var k := KeyOf(ps[0]);
    Session(
      digest(t), k.transport, k.a, k.b,
      Least(Times(ps)), Greatest(Times(ps)),
      |ps|, TotalBytes(ps), Histogram(ps),
      Evidence(LeastInt(Frames(ps)), GreatestInt(Frames(ps)), Frames(ps)[..SampleSize(cap, |ps|)]),
      Observations(DnsQueries(ps), HttpRequests(ps), TlsSnis(ps)))
  }

  /** Every summary satisfies the fold's invariant, and its sample is exactly
      the first min(cap, n) frame numbers in arrival order. */
  lemma SummarizeWellFormed(t: string, ps: seq<Packet>, cap: int, digest: string -> string)
    requires |ps| > 0
    ensures var s := Summarize(t, ps, cap, digest);
            && WellFormed(s, cap)
            && s.packetCount == |ps|
            && |s.evidence.sampleFrames| == SampleSize(cap, |ps|)
            && (forall i :: 0 <= i < |s.evidence.sampleFrames| ==> s.evidence.sampleFrames[i] == ps[i].frame)
            && (forall i :: 0 <= i < |ps| ==> s.firstTs <= ps[i].ts <= s.lastTs)
  {
    var s := Summarize(t, ps, cap, digest);
    var fs := Frames(ps);
    forall i | 0 <= i < |s.evidence.sampleFrames|
      ensures s.evidence.firstFrame <= s.evidence.sampleFrames[i] <= s.evidence.lastFrame
    {
      assert s.evidence.sampleFrames[i] == fs[i];
    }
    assert Times(ps)[0] == ps[0].ts;
  }

  // Appending one packet to the summary is one per-packet update.

  lemma LeastSnoc(xs: seq<real>, x: real)
    requires |xs| > 0
    ensures Least(xs + [x]) == if x < Least(xs) then x else Least(xs)
    ensures Greatest(xs + [x]) == if x > Greatest(xs) then x else Greatest(xs)
  {
    assert (xs + [x])[..|xs|] == xs;
  }

  lemma LeastIntSnoc(xs: seq<int>, x: int)
    requires |xs| > 0
    ensures LeastInt(xs + [x]) == if x < LeastInt(xs) then x else LeastInt(xs)
    ensures GreatestInt(xs + [x]) == if x > GreatestInt(xs) then x else GreatestInt(xs)
  {
    assert (xs + [x])[..|xs|] == xs;
  }

  lemma TalliesAdd(labels: multiset<string>, c: string)
    ensures Tallies(labels + multiset{c}) == Tally(Tallies(labels), c)
  {
    var h := Tallies(labels);
    var h' := Tallies(labels + multiset{c});
    if c != "" {
      assert h'.Keys == h.Keys + {c};
      forall d | d in h' ensures h'[d] == Tally(h, c)[d] {
      }
    } else {
      assert h'.Keys == h.Keys;
    }
  }

  lemma HistogramSnoc(ps: seq<Packet>, p: Packet)
    ensures Histogram(ps + [p]) == Tally(Histogram(ps), p.chain)
  {
    assert Chains(ps + [p]) == Chains(ps) + [p.chain];
    assert multiset(Chains(ps + [p])) == multiset(Chains(ps)) + multiset{p.chain};
    TalliesAdd(multiset(Chains(ps)), p.chain);
  }

  lemma SampleSnoc(ps: seq<Packet>, p: Packet, cap: int)
    ensures var sample := Frames(ps)[..SampleSize(cap, |ps|)];
            Frames(ps + [p])[..SampleSize(cap, |ps| + 1)]
              == if |sample| < cap then sample + [p.frame] else sample
  {
    assert Frames(ps + [p]) == Frames(ps) + [p.frame];
  }

  lemma SnocBounds(t: string, ps: seq<Packet>, p: Packet, cap: int, digest: string -> string)
    requires |ps| > 0
    ensures var u := Update(Summarize(t, ps, cap, digest), p, cap, digest(t)).0;
            var s' := Summarize(t, ps + [p], cap, digest);
            && u.firstTs == s'.firstTs && u.lastTs == s'.lastTs
            && u.evidence == s'.evidence
  {
    var ps' := ps + [p];
    assert Times(ps') == Times(ps) + [p.ts];
    assert Frames(ps') == Frames(ps) + [p.frame];
    LeastSnoc(Times(ps), p.ts);
    LeastIntSnoc(Frames(ps), p.frame);
    SampleSnoc(ps, p, cap);
  }

  lemma SnocCounts(t: string, ps: seq<Packet>, p: Packet, cap: int, digest: string -> string)
    requires |ps| > 0
    ensures var u := Update(Summarize(t, ps, cap, digest), p, cap, digest(t)).0;
            var s' := Summarize(t, ps + [p], cap, digest);
            && u.packetCount == s'.packetCount && u.byteCount == s'.byteCount
            && u.protocolChains == s'.protocolChains
  {
    assert (ps + [p])[..|ps|] == ps;
    HistogramSnoc(ps, p);
  }

  lemma SnocObservations(t: string, ps: seq<Packet>, p: Packet, cap: int, digest: string -> string)
    requires |ps| > 0
    ensures var u := Update(Summarize(t, ps, cap, digest), p, cap, digest(t)).0;
            u.observations == Summarize(t, ps + [p], cap, digest).observations
  {
    assert (ps + [p])[..|ps|] == ps;
  }

  /** Folding one more packet into the summary of `ps` gives the summary of
      `ps + [p]`. */
  lemma SummarizeSnoc(t: string, ps: seq<Packet>, p: Packet, cap: int, digest: string -> string)
    requires |ps| > 0
    ensures Update(Summarize(t, ps, cap, digest), p, cap, digest(t)).0 == Summarize(t, ps + [p], cap, digest)
  {
    assert (ps + [p])[0] == ps[0];
    SnocBounds(t, ps, p, cap, digest);
    SnocCounts(t, ps, p, cap, digest);
    SnocObservations(t, ps, p, cap, digest);
  }

  /** The first packet of a key: the identity, bounds and evidence of the
      opened session. */
  lemma OneBounds(t: string, p: Packet, cap: int, digest: string -> string)
    ensures var u := Update(Open(digest(t), KeyOf(p), p.ts, p.frame), p, cap, digest(t)).0;
            var s' := Summarize(t, [p], cap, digest);
            && u.id == s'.id && u.transport == s'.transport && u.a == s'.a && u.b == s'.b
            && u.firstTs == s'.firstTs && u.lastTs == s'.lastTs
            && u.evidence.firstFrame == s'.evidence.firstFrame
            && u.evidence.lastFrame == s'.evidence.lastFrame
            && u.evidence.sampleFrames == s'.evidence.sampleFrames
  {
    var ps: seq<Packet> := [p];
    assert Frames(ps) == [p.frame];
  }

  /** The first packet of a key: the counted fields of the opened session. */
  lemma OneCounts(t: string, p: Packet, cap: int, digest: string -> string)
    ensures var u := Update(Open(digest(t), KeyOf(p), p.ts, p.frame), p, cap, digest(t)).0;
            var s' := Summarize(t, [p], cap, digest);
            u.packetCount == s'.packetCount && u.byteCount == s'.byteCount && u.protocolChains == s'.protocolChains
  {
    var ps: seq<Packet> := [p];
    assert ps[..0] == [];
    assert Chains(ps) == [] + [p.chain];
    TalliesAdd(multiset{}, p.chain);
    assert multiset(Chains(ps)) == multiset{} + multiset{p.chain};
    assert Tallies(multiset{}) == map[];
    assert TotalBytes(ps) == TotalBytes([]) + p.frameLen.GetOr(0);
  }

  /** The first packet of a key: the observations of the opened session. */
  lemma OneObservations(t: string, p: Packet, cap: int, digest: string -> string)
    ensures Update(Open(digest(t), KeyOf(p), p.ts, p.frame), p, cap, digest(t)).0.observations
              == Summarize(t, [p], cap, digest).observations
  {
    var ps: seq<Packet> := [p];
    assert ps[..0] == [];
    assert DnsQueries(ps) == DnsQueries([]) + DnsOf(p);
    assert HttpRequests(ps) == HttpRequests([]) + HttpOf(p);
    assert TlsSnis(ps) == TlsSnis([]) + SniOf(p);
  }

  /** The first packet of a key opens the session and is counted into it. */
  lemma SummarizeOne(t: string, p: Packet, cap: int, digest: string -> string)
    ensures Update(Open(digest(t), KeyOf(p), p.ts, p.frame), p, cap, digest(t)).0 == Summarize(t, [p], cap, digest)
  {
    OneBounds(t, p, cap, digest);
    OneCounts(t, p, cap, digest);
    OneObservations(t, p, cap, digest);
  }
}
