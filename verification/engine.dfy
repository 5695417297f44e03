/** The single pass over the dissector's rows (services/forensic-engine/main.py:187-320):
    a left fold of `Ingest` that counts rows, tracks the capture's time
    bounds, keeps one session per key text and collects timeline events. */
module Engine {
  import opened Options
  import opened Numbers
  import opened Flow
  import opened Records
  import opened Sessions
  import opened Summary
  import opened Seqs

  /** The fold's state: rows seen, the capture's time bounds, the sessions by
      key text, the key texts in order of first appearance (the order of the
      source's dict), and the events in emission order. */
  datatype State = State(
    packetsAnalyzed: nat,
    firstTs: Option<real>,
    lastTs: Option<real>,
    sessions: map<string, Session>,
    order: seq<string>,
    events: seq<TimelineEvent>)

  const Initial: State := State(0, None, None, map[], [], [])

  /** `ts if lo is None else min(lo, ts)`. */
  function Lower(lo: Option<real>, ts: real): (r: real)
    ensures r <= ts && (lo.Some? ==> r <= lo.value)
    ensures r == ts || (lo.Some? && r == lo.value)
  {
    if lo.None? then ts else if ts < lo.value then ts else lo.value
  }

  /** `ts if hi is None else max(hi, ts)`. */
  function Upper(hi: Option<real>, ts: real): (r: real)
    ensures ts <= r && (hi.Some? ==> hi.value <= r)
    ensures r == ts || (hi.Some? && r == hi.value)
  {
    if hi.None? then ts else if ts > hi.value then ts else hi.value
  }

  /** The capture's time bounds after a stamped row. */
  function Stamp(st: State, ts: real): State {
    st.(firstTs := Some(Lower(st.firstTs, ts)), lastTs := Some(Upper(st.lastTs, ts)))
  }

  /** Find or open the packet's session, update it, and append the events it
      emits (main.py:226-320). */
  function Correlate(st: State, p: Packet, cap: int, digest: string -> string): (r: State)
    ensures r.sessions.Keys == st.sessions.Keys + {KeyTextOf(p)}
    ensures KeyTextOf(p) in st.sessions ==> r.order == st.order
    ensures KeyTextOf(p) !in st.sessions ==> r.order == st.order + [KeyTextOf(p)]
    ensures r.events == st.events + Emit(p, digest(KeyTextOf(p)))
  {
    var t := KeyTextOf(p);
    var id := digest(t);
    var s := if t in st.sessions then st.sessions[t] else Open(id, KeyOf(p), p.ts, p.frame);
    var u := Update(s, p, cap, id);
    st.(sessions := st.sessions[t := u.0],
        order := if t in st.sessions then st.order else st.order + [t],
        events := st.events + u.1)
  }

  /** One iteration of the row loop, on the row's normalisation. */
  function Ingest(st: State, d: Disposition, cap: int, digest: string -> string): (r: State)
    ensures r.packetsAnalyzed == st.packetsAnalyzed + 1
    ensures !d.Accepted? ==> (r.sessions, r.order, r.events) == (st.sessions, st.order, st.events)
  {
    var counted := st.(packetsAnalyzed := st.packetsAnalyzed + 1);
    match d
    case Unstamped => counted
    case Unaddressed(_, ts) => Stamp(counted, ts)
    case Accepted(p) => Correlate(Stamp(counted, p.ts), p, cap, digest)
  }

  /** The rows' normalisations, in order. */
  function Classified(rows: seq<Row>): seq<Disposition> {
    seq(|rows|, i requires 0 <= i < |rows| => Classify(rows[i]))
  }

  /** The whole loop over the normalised rows `ds`, with `cap` the sample size
      per session and `digest` the session id of a key text. */
  function Run(ds: seq<Disposition>, cap: int, digest: string -> string): (r: State)
    ensures r.packetsAnalyzed == |ds|
  {
    if |ds| == 0 then Initial
    else Ingest(Run(ds[..|ds| - 1], cap, digest), ds[|ds| - 1], cap, digest)
  }

  // ---------------------------------------------------------------------------
  // Reference views of the input.

  /** The accepted packets whose key text is `t`, in arrival order. */
  function RecordsOf(ds: seq<Disposition>, t: string): seq<Packet> {
    if |ds| == 0 then []
    else
      var d := ds[|ds| - 1];
      RecordsOf(ds[..|ds| - 1], t) + (if d.Accepted? && KeyTextOf(d.packet) == t then [d.packet] else [])
  }

  /** All accepted packets, in arrival order. */
  function AcceptedPackets(ds: seq<Disposition>): seq<Packet> {
    if |ds| == 0 then []
    else
      var d := ds[|ds| - 1];
      AcceptedPackets(ds[..|ds| - 1]) + (if d.Accepted? then [d.packet] else [])
  }

  /** The key texts of the accepted packets, in arrival order. */
  function KeyTexts(ds: seq<Disposition>): seq<string> {
    if |ds| == 0 then []
    else
      var d := ds[|ds| - 1];
      KeyTexts(ds[..|ds| - 1]) + (if d.Accepted? then [KeyTextOf(d.packet)] else [])
  }

  /** The timestamps of the rows that carry a frame number and a timestamp. */
  function StampedTimes(ds: seq<Disposition>): seq<real> {
    if |ds| == 0 then []
    else
      var d := ds[|ds| - 1];
      StampedTimes(ds[..|ds| - 1]) + (if d.Unstamped? then [] else [StampOf(d).1])
  }

  /** The events every accepted packet emits, in arrival order, each under the
      id of its own key text. */
  function EmittedEvents(ds: seq<Disposition>, digest: string -> string): seq<TimelineEvent> {
    if |ds| == 0 then []
    else
      var d := ds[|ds| - 1];
      EmittedEvents(ds[..|ds| - 1], digest)
        + (if d.Accepted? then Emit(d.packet, digest(KeyTextOf(d.packet))) else [])
  }

  // ---------------------------------------------------------------------------
  // One row at a time.

  /** A row lacking a usable frame number or a timestamp is counted and
      changes nothing else. */
  lemma IngestUnstamped(st: State, row: Row, cap: int, digest: string -> string)
    requires SafeInt(row.frameNumber).None? || row.timeEpoch.None?
    ensures Ingest(st, Classify(row), cap, digest) == st.(packetsAnalyzed := st.packetsAnalyzed + 1)
  {
  }

  /** A stamped row without both addresses is counted and widens the capture's
      time bounds to its timestamp, but touches no session and emits no
      event. */
  lemma IngestUnaddressed(st: State, row: Row, cap: int, digest: string -> string)
    requires SafeInt(row.frameNumber).Some? && row.timeEpoch.Some?
    requires AddressText(row.ipSrc, row.ipv6Src) == "" || AddressText(row.ipDst, row.ipv6Dst) == ""
    ensures var st' := Ingest(st, Classify(row), cap, digest);
            var ts := row.timeEpoch.value;
            && st'.packetsAnalyzed == st.packetsAnalyzed + 1
            && (st'.sessions, st'.order, st'.events) == (st.sessions, st.order, st.events)
            && st'.firstTs.Some? && st'.firstTs.value <= ts
            && st'.lastTs.Some? && ts <= st'.lastTs.value
  {
  }

  /** What holds of the fold's state after any prefix of the input. */
  predicate Consistent(st: State, cap: int, digest: string -> string) {
    && Distinct(st.order)
    && (forall t :: t in st.order ==> t in st.sessions)
    && (forall t :: t in st.sessions ==> t in st.order)
    && (forall t :: t in st.sessions ==> st.sessions[t].id == digest(t) && WellFormed(st.sessions[t], cap))
  }

  /** The session update keeps `order` listing each stored key text once. */
  lemma CorrelateOrder(st: State, p: Packet, cap: int, digest: string -> string)
    requires Distinct(st.order)
    requires forall t :: t in st.order ==> t in st.sessions
    requires forall t :: t in st.sessions ==> t in st.order
    ensures var st' := Correlate(st, p, cap, digest);
            && Distinct(st'.order)
            && (forall t :: t in st'.order ==> t in st'.sessions)
            && (forall t :: t in st'.sessions ==> t in st'.order)
  {
    var t := KeyTextOf(p);
    var st' := Correlate(st, p, cap, digest);
    assert st'.sessions.Keys == st.sessions.Keys + {t};
    if t in st.sessions {
      assert st'.order == st.order;
    } else {
      assert st'.order == st.order + [t];
      assert t !in st.order;
    }
  }

  /** The session update keeps every session's id and invariant. */
  lemma CorrelateSessions(st: State, p: Packet, cap: int, digest: string -> string)
    requires forall t :: t in st.sessions ==> st.sessions[t].id == digest(t) && WellFormed(st.sessions[t], cap)
    ensures var st' := Correlate(st, p, cap, digest);
            forall t :: t in st'.sessions ==> st'.sessions[t].id == digest(t) && WellFormed(st'.sessions[t], cap)
  {
    var t := KeyTextOf(p);
    var s := if t in st.sessions then st.sessions[t] else Open(digest(t), KeyOf(p), p.ts, p.frame);
    assert WellFormed(s, cap) && s.id == digest(t);
    var u := Update(s, p, cap, digest(t)).0;
    var m := Correlate(st, p, cap, digest).sessions;
    assert m == st.sessions[t := u];
    forall t' | t' in m
      ensures m[t'].id == digest(t') && WellFormed(m[t'], cap)
    {
      if t' != t {
        assert m[t'] == st.sessions[t'];
      }
    }
  }

  /** The session update keeps the fold's state consistent. */
  lemma CorrelateConsistent(st: State, p: Packet, cap: int, digest: string -> string)
    requires Consistent(st, cap, digest)
    ensures Consistent(Correlate(st, p, cap, digest), cap, digest)
  {
    CorrelateOrder(st, p, cap, digest);
    CorrelateSessions(st, p, cap, digest);
  }

  /** The session update of one accepted packet: exactly the packet's session
      changes, its count grows by one and its byte total by the frame length,
      and the events it emits are appended. */
  lemma CorrelateUpdatesOneSession(st: State, p: Packet, cap: int, digest: string -> string)
    ensures var st' := Correlate(st, p, cap, digest);
            var t := KeyTextOf(p);
            && (st'.packetsAnalyzed, st'.firstTs, st'.lastTs) == (st.packetsAnalyzed, st.firstTs, st.lastTs)
            && st'.sessions.Keys == st.sessions.Keys + {t}
            && (forall u :: u in st.sessions && u != t ==> st'.sessions[u] == st.sessions[u])
            && st'.sessions[t].packetCount == (if t in st.sessions then st.sessions[t].packetCount else 0) + 1
            && st'.sessions[t].byteCount == (if t in st.sessions then st.sessions[t].byteCount else 0) + p.frameLen.GetOr(0)
            && st'.events == st.events + Emit(p, digest(t))
  {
  }

  /** Per-ingest update of an accepted row (its normalisation `d`): the row is counted, the time
      bounds widen to its timestamp, and the session update above applies. */
  lemma IngestAccepted(st: State, d: Disposition, cap: int, digest: string -> string)
    requires d.Accepted?
    ensures var p := d.packet;
            var stamped := Stamp(st.(packetsAnalyzed := st.packetsAnalyzed + 1), p.ts);
            && Ingest(st, d, cap, digest) == Correlate(stamped, p, cap, digest)
            && stamped.sessions == st.sessions && stamped.order == st.order && stamped.events == st.events
            && stamped.firstTs.Some? && stamped.firstTs.value <= p.ts
            && stamped.lastTs.Some? && p.ts <= stamped.lastTs.value
  {
  }

  /** The invariant only looks at the sessions and their order. */
  lemma ConsistentFrame(st: State, st': State, cap: int, digest: string -> string)
    requires Consistent(st, cap, digest)
    requires st'.sessions == st.sessions && st'.order == st.order
    ensures Consistent(st', cap, digest)
  {
  }

  // ---------------------------------------------------------------------------
  // The whole pass.

  /** The fold's invariant holds after every prefix, and every row is
      counted. */
  lemma {:induction false} RunConsistent(ds: seq<Disposition>, cap: int, digest: string -> string)
    ensures Consistent(Run(ds, cap, digest), cap, digest)
    ensures Run(ds, cap, digest).packetsAnalyzed == |ds|
  {
    if |ds| > 0 {
      var pre := ds[..|ds| - 1];
      var d := ds[|ds| - 1];
      RunConsistent(pre, cap, digest);
      var st := Run(pre, cap, digest);
      if d.Accepted? {
        var p := d.packet;
        var stamped := Stamp(st.(packetsAnalyzed := st.packetsAnalyzed + 1), p.ts);
        IngestAccepted(st, d, cap, digest);
        ConsistentFrame(st, stamped, cap, digest);
        CorrelateConsistent(stamped, p, cap, digest);
      }
    }
  }

  /** The stored key texts are listed in the order their first packet
      arrived, each once: the insertion order of the session dictionary. */
  lemma {:induction false} RunOrder(ds: seq<Disposition>, cap: int, digest: string -> string)
    ensures Run(ds, cap, digest).order == FirstOccurrences(KeyTexts(ds))
  {
    if |ds| > 0 {
      var pre := ds[..|ds| - 1];
      var d := ds[|ds| - 1];
      RunOrder(pre, cap, digest);
      RunConsistent(pre, cap, digest);
      var st := Run(pre, cap, digest);
      if d.Accepted? {
        var t := KeyTextOf(d.packet);
        IngestAccepted(st, d, cap, digest);
        var keys := KeyTexts(ds);
        assert keys == KeyTexts(pre) + [t];
        assert keys[..|keys| - 1] == KeyTexts(pre);
        assert t in st.sessions <==> t in KeyTexts(pre);
      } else {
        assert KeyTexts(ds) == KeyTexts(pre);
      }
    }
  }

  /** Each key text `t` has a session in `m` iff some accepted packet of
      `rows` carries it, and that session is the summary of those packets. */
  ghost predicate Summarizes(m: map<string, Session>, ds: seq<Disposition>, cap: int, digest: string -> string) {
    forall t :: SummarizesKey(m, ds, t, cap, digest)
  }

  ghost predicate SummarizesKey(m: map<string, Session>, ds: seq<Disposition>, t: string, cap: int, digest: string -> string) {
    && (t in m <==> |RecordsOf(ds, t)| > 0)
    && (t in m ==> m[t] == Summarize(t, RecordsOf(ds, t), cap, digest))
  }

  /** Every packet of a key text's record list carries that key text. */
  lemma {:induction false} RecordsOfKeyText(ds: seq<Disposition>, t: string)
    ensures forall i :: 0 <= i < |RecordsOf(ds, t)| ==> KeyTextOf(RecordsOf(ds, t)[i]) == t
  {
    if |ds| > 0 {
      RecordsOfKeyText(ds[..|ds| - 1], t);
    }
  }

  lemma RecordsOfSnoc(pre: seq<Disposition>, d: Disposition, t: string)
    ensures RecordsOf(pre + [d], t) == RecordsOf(pre, t) + (if d.Accepted? && KeyTextOf(d.packet) == t then [d.packet] else [])
  {
    assert (pre + [d])[..|pre|] == pre;
  }

  lemma SummarizesKeyTransfer(m: map<string, Session>, m': map<string, Session>, ds: seq<Disposition>, ds': seq<Disposition>,
                               t: string, cap: int, digest: string -> string)
    requires SummarizesKey(m, ds, t, cap, digest)
    requires RecordsOf(ds', t) == RecordsOf(ds, t)
    requires (t in m' <==> t in m) && (t in m ==> m'[t] == m[t])
    ensures SummarizesKey(m', ds', t, cap, digest)
  {
  }

  /** A row that is not accepted leaves every session and every key's packet
      list as it was. */
  lemma SummarizesSkip(m: map<string, Session>, pre: seq<Disposition>, d: Disposition, cap: int, digest: string -> string)
    requires Summarizes(m, pre, cap, digest)
    requires !d.Accepted?
    ensures Summarizes(m, pre + [d], cap, digest)
  {
    forall t
      ensures SummarizesKey(m, pre + [d], t, cap, digest)
    {
      RecordsOfSnoc(pre, d, t);
      SummarizesKeyTransfer(m, m, pre, pre + [d], t, cap, digest);
    }
  }

  /** Replacing the session of `t0` by the summary of its extended packet list
      keeps every session summarised. */
  lemma SummarizesExtend(m: map<string, Session>, pre: seq<Disposition>, d: Disposition, cap: int, digest: string -> string)
    requires Summarizes(m, pre, cap, digest)
    requires d.Accepted?
    ensures var p := d.packet;
            var t0 := KeyTextOf(p);
            var m' := m[t0 := Summarize(t0, RecordsOf(pre, t0) + [p], cap, digest)];
            Summarizes(m', pre + [d], cap, digest)
  {
    var p := d.packet;
    var t0 := KeyTextOf(p);
    var m' := m[t0 := Summarize(t0, RecordsOf(pre, t0) + [p], cap, digest)];
    forall t
      ensures SummarizesKey(m', pre + [d], t, cap, digest)
    {
      RecordsOfSnoc(pre, d, t);
      if t != t0 {
        SummarizesKeyTransfer(m, m', pre, pre + [d], t, cap, digest);
      }
    }
  }

  /** The session the update of an accepted packet leaves behind is the
      summary of its key's packet list with the packet appended. */
  lemma CorrelateSummarizes(st: State, pre: seq<Disposition>, p: Packet, cap: int, digest: string -> string)
    requires Summarizes(st.sessions, pre, cap, digest)
    ensures var t0 := KeyTextOf(p);
            Correlate(st, p, cap, digest).sessions
              == st.sessions[t0 := Summarize(t0, RecordsOf(pre, t0) + [p], cap, digest)]
  {
    var t0 := KeyTextOf(p);
    var rs := RecordsOf(pre, t0);
    assert SummarizesKey(st.sessions, pre, t0, cap, digest);
    if t0 in st.sessions {
      var s := st.sessions[t0];
      assert Correlate(st, p, cap, digest).sessions == st.sessions[t0 := Update(s, p, cap, digest(t0)).0];
      assert |rs| > 0 && s == Summarize(t0, rs, cap, digest);
      SummarizeSnoc(t0, rs, p, cap, digest);
    } else {
      var s := Open(digest(t0), KeyOf(p), p.ts, p.frame);
      assert Correlate(st, p, cap, digest).sessions == st.sessions[t0 := Update(s, p, cap, digest(t0)).0];
      assert rs == [];
      assert rs + [p] == [p];
      SummarizeOne(t0, p, cap, digest);
    }
  }

  lemma SummarizesStep(st: State, pre: seq<Disposition>, d: Disposition, cap: int, digest: string -> string)
    requires Summarizes(st.sessions, pre, cap, digest)
    ensures Summarizes(Ingest(st, d, cap, digest).sessions, pre + [d], cap, digest)
  {
    if d.Accepted? {
      var p := d.packet;
      var stamped := Stamp(st.(packetsAnalyzed := st.packetsAnalyzed + 1), p.ts);
      IngestAccepted(st, d, cap, digest);
      CorrelateSummarizes(stamped, pre, p, cap, digest);
      SummarizesExtend(st.sessions, pre, d, cap, digest);
    } else {
      assert Ingest(st, d, cap, digest).sessions == st.sessions;
      SummarizesSkip(st.sessions, pre, d, cap, digest);
    }
  }

  /** Every session is the summary of exactly the accepted packets that carry
      its key text, in arrival order; a key text has a session iff some
      accepted packet carries it. */
  lemma {:induction false} RunMatchesSummary(ds: seq<Disposition>, cap: int, digest: string -> string)
    ensures forall t :: t in Run(ds, cap, digest).sessions <==> |RecordsOf(ds, t)| > 0
    ensures forall t :: t in Run(ds, cap, digest).sessions ==>
              Run(ds, cap, digest).sessions[t] == Summarize(t, RecordsOf(ds, t), cap, digest)
  {
    RunSummarizes(ds, cap, digest);
    forall t
      ensures t in Run(ds, cap, digest).sessions <==> |RecordsOf(ds, t)| > 0
      ensures t in Run(ds, cap, digest).sessions ==>
                Run(ds, cap, digest).sessions[t] == Summarize(t, RecordsOf(ds, t), cap, digest)
    {
      assert SummarizesKey(Run(ds, cap, digest).sessions, ds, t, cap, digest);
    }
  }

  lemma {:induction false} RunSummarizes(ds: seq<Disposition>, cap: int, digest: string -> string)
    ensures Summarizes(Run(ds, cap, digest).sessions, ds, cap, digest)
  {
    if |ds| > 0 {
      var pre := ds[..|ds| - 1];
      assert ds == pre + [ds[|ds| - 1]];
      RunSummarizes(pre, cap, digest);
      SummarizesStep(Run(pre, cap, digest), pre, ds[|ds| - 1], cap, digest);
    }
  }

  /** The events of the pass are exactly those every accepted packet emits,
      in arrival order. */
  lemma {:induction false} RunEvents(ds: seq<Disposition>, cap: int, digest: string -> string)
    ensures Run(ds, cap, digest).events == EmittedEvents(ds, digest)
  {
    if |ds| > 0 {
      var pre := ds[..|ds| - 1];
      var d := ds[|ds| - 1];
      RunEvents(pre, cap, digest);
      var st := Run(pre, cap, digest);
      if d.Accepted? {
        CorrelateUpdatesOneSession(Stamp(st.(packetsAnalyzed := st.packetsAnalyzed + 1), d.packet.ts), d.packet, cap, digest);
      }
    }
  }

  /** `lo` and `hi` are the least and greatest of `times`, or both absent
      when there are none. */
  predicate BoundsOf(lo: Option<real>, hi: Option<real>, times: seq<real>) {
    && (lo.Some? <==> |times| > 0)
    && (hi.Some? <==> |times| > 0)
    && (|times| > 0 ==> lo.value == Least(times) && hi.value == Greatest(times))
  }

  lemma BoundsOfSnoc(lo: Option<real>, hi: Option<real>, times: seq<real>, ts: real)
    requires BoundsOf(lo, hi, times)
    ensures BoundsOf(Some(Lower(lo, ts)), Some(Upper(hi, ts)), times + [ts])
  {
    if |times| > 0 {
      LeastSnoc(times, ts);
    } else {
      assert times + [ts] == [ts];
    }
  }

  lemma IngestBounds(st: State, d: Disposition, cap: int, digest: string -> string)
    ensures var st' := Ingest(st, d, cap, digest);
            && (d.Unstamped? ==> st'.firstTs == st.firstTs && st'.lastTs == st.lastTs)
            && (!d.Unstamped? ==> st'.firstTs == Some(Lower(st.firstTs, StampOf(d).1))
                                  && st'.lastTs == Some(Upper(st.lastTs, StampOf(d).1)))
  {
    if d.Accepted? {
      CorrelateUpdatesOneSession(Stamp(st.(packetsAnalyzed := st.packetsAnalyzed + 1), d.packet.ts), d.packet, cap, digest);
    }
  }

  /** The capture's time bounds are the least and greatest timestamp of the
      rows that carry a frame number and a timestamp, whether or not their
      addresses are present; absent when there is no such row. */
  lemma {:induction false} RunTimeBounds(ds: seq<Disposition>, cap: int, digest: string -> string)
    ensures var st := Run(ds, cap, digest);
            BoundsOf(st.firstTs, st.lastTs, StampedTimes(ds))
  {
    if |ds| > 0 {
      var pre := ds[..|ds| - 1];
      var d := ds[|ds| - 1];
      RunTimeBounds(pre, cap, digest);
      var st := Run(pre, cap, digest);
      IngestBounds(st, d, cap, digest);
      if !d.Unstamped? {
        BoundsOfSnoc(st.firstTs, st.lastTs, StampedTimes(pre), StampOf(d).1);
        assert StampedTimes(ds) == StampedTimes(pre) + [StampOf(d).1];
      } else {
        assert StampedTimes(ds) == StampedTimes(pre);
      }
    }
  }

  // ---------------------------------------------------------------------------
  // Conservation.

  /** The sum of `f` over the sessions of `keys`. */
  function SumOf(keys: seq<string>, m: map<string, Session>, f: Session -> int): int {
    if |keys| == 0 then 0
    else SumOf(keys[..|keys| - 1], m, f) + (if keys[|keys| - 1] in m then f(m[keys[|keys| - 1]]) else 0)
  }

  function PacketsOf(s: Session): int {
    s.packetCount
  }

  function ObservationsOf(s: Session): int {
    ObservationTotal(s)
  }

  lemma {:induction false} SumOfOverride(keys: seq<string>, m: map<string, Session>, t: string, s: Session, f: Session -> int)
    requires Distinct(keys)
    ensures SumOf(keys, m[t := s], f)
              == SumOf(keys, m, f) + (if t in keys then f(s) - (if t in m then f(m[t]) else 0) else 0)
  {
    if |keys| > 0 {
      var pre := keys[..|keys| - 1];
      assert Distinct(pre);
      SumOfOverride(pre, m, t, s, f);
      assert t in keys <==> t in pre || t == keys[|keys| - 1];
      assert keys[|keys| - 1] == t ==> t !in pre;
    }
  }

  lemma SumOfSnoc(keys: seq<string>, k: string, m: map<string, Session>, f: Session -> int)
    ensures SumOf(keys + [k], m, f) == SumOf(keys, m, f) + (if k in m then f(m[k]) else 0)
  {
    assert (keys + [k])[..|keys|] == keys;
  }

  /** One accepted packet adds one to the sessions' packet total and as many
      observations as events it emits. */
  lemma CorrelateTotals(st: State, p: Packet, cap: int, digest: string -> string)
    requires Consistent(st, cap, digest)
    ensures var st' := Correlate(st, p, cap, digest);
            && SumOf(st'.order, st'.sessions, PacketsOf) == SumOf(st.order, st.sessions, PacketsOf) + 1
            && SumOf(st'.order, st'.sessions, ObservationsOf)
                 == SumOf(st.order, st.sessions, ObservationsOf) + |Emit(p, digest(KeyTextOf(p)))|
  {
    var t := KeyTextOf(p);
    var st' := Correlate(st, p, cap, digest);
    var old0 := if t in st.sessions then st.sessions[t] else Open(digest(t), KeyOf(p), p.ts, p.frame);
    var new0 := Update(old0, p, cap, digest(t)).0;
    assert st'.sessions == st.sessions[t := new0];
    SumOfOverride(st.order, st.sessions, t, new0, PacketsOf);
    SumOfOverride(st.order, st.sessions, t, new0, ObservationsOf);
    if t !in st.sessions {
      assert st'.order == st.order + [t];
      SumOfSnoc(st.order, t, st'.sessions, PacketsOf);
      SumOfSnoc(st.order, t, st'.sessions, ObservationsOf);
    }
  }

  /** One iteration adds one to the sessions' packet total iff the row is
      accepted, and as many observations as events it appends. */
  lemma IngestTotals(st: State, d: Disposition, cap: int, digest: string -> string)
    requires Consistent(st, cap, digest)
    ensures var st' := Ingest(st, d, cap, digest);
            && SumOf(st'.order, st'.sessions, PacketsOf)
                 == SumOf(st.order, st.sessions, PacketsOf) + (if d.Accepted? then 1 else 0)
            && SumOf(st'.order, st'.sessions, ObservationsOf) - |st'.events|
                 == SumOf(st.order, st.sessions, ObservationsOf) - |st.events|
  {
    if d.Accepted? {
      var p := d.packet;
      var stamped := Stamp(st.(packetsAnalyzed := st.packetsAnalyzed + 1), p.ts);
      IngestAccepted(st, d, cap, digest);
      ConsistentFrame(st, stamped, cap, digest);
      CorrelateTotals(stamped, p, cap, digest);
      assert Correlate(stamped, p, cap, digest).events == st.events + Emit(p, digest(KeyTextOf(p)));
    }
  }

  /** Conservation: the sessions' packet counts add up to the accepted rows,
      and the timeline holds exactly one event per observation recorded on
      any session. */
  lemma {:induction false} RunTotals(ds: seq<Disposition>, cap: int, digest: string -> string)
    ensures var st := Run(ds, cap, digest);
            && SumOf(st.order, st.sessions, PacketsOf) == |AcceptedPackets(ds)|
            && SumOf(st.order, st.sessions, ObservationsOf) == |st.events|
  {
    if |ds| > 0 {
      var pre := ds[..|ds| - 1];
      RunTotals(pre, cap, digest);
      RunConsistent(pre, cap, digest);
      IngestTotals(Run(pre, cap, digest), ds[|ds| - 1], cap, digest);
    }
  }
}
