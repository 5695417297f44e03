/** The analysis artifact assembled after the pass
    (services/forensic-engine/main.py:327-373): finished sessions ordered by
    first timestamp then id, and the timeline ordered by timestamp, ties kept
    in emission order. */
module Artifact {
  import opened Options
  import opened Flow
  import opened Sessions
  import opened Records
  import opened Summary
  import opened Engine
  import opened Rules
  import opened Sorting
  import opened Seqs

  const SchemaVersion: nat := 1

  /** The parts of the artifact the pass determines. */
  datatype Report = Report(
    schemaVersion: nat,
    packetsAnalyzed: nat,
    firstTs: Option<real>,
    lastTs: Option<real>,
    sessions: seq<FinalSession>,
    timeline: seq<TimelineEvent>)

  /** Sessions are ordered by `(first_ts, id)`. */
  function SessionKey(f: FinalSession): SortKey {
    SortKey(f.session.firstTs, f.session.id)
  }

  /** Timeline events are ordered by timestamp alone. */
  function EventKey(e: TimelineEvent): SortKey {
    SortKey(e.ts, "")
  }

  /** The finished sessions in the order their keys first appeared. */
  function Finished(st: State): seq<FinalSession>
    requires forall t :: t in st.order ==> t in st.sessions
  {
    seq(|st.order|, i requires 0 <= i < |st.order| => Finalize(st.sessions[st.order[i]]))
  }

  /** The finished sessions of the pass over `ds`, in the order their key
      texts first appeared. */
  function Appearance(ds: seq<Disposition>, cap: int, digest: string -> string): seq<FinalSession> {
    RunConsistent(ds, cap, digest);
    Finished(Run(ds, cap, digest))
  }

  /** The finished sessions of the pass over `ds`, in artifact order. */
  function Reported(ds: seq<Disposition>, cap: int, digest: string -> string): seq<FinalSession> {
    RunConsistent(ds, cap, digest);
    SortBy(Finished(Run(ds, cap, digest)), SessionKey)
  }

  /** The whole analysis of the decoded rows, with at most `cap` sample frames
      per session and `digest` deriving a session id from its key text. */
  function Analyze(rows: seq<Row>, cap: int, digest: string -> string): (r: Report)
    ensures r.schemaVersion == 1 && r.packetsAnalyzed == |rows|
    ensures BoundsOf(r.firstTs, r.lastTs, StampedTimes(Classified(rows)))
    ensures Sorted(r.sessions, SessionKey)
    ensures |r.sessions| == |Run(Classified(rows), cap, digest).order|
    ensures forall k :: WithKey(r.sessions, SessionKey, k) == WithKey(Appearance(Classified(rows), cap, digest), SessionKey, k)
    ensures forall f :: f in r.sessions ==>
              && WellFormed(f.session, cap)
              && f.durationSeconds >= 0.0
    ensures Sorted(r.timeline, EventKey)
    ensures multiset(r.timeline) == multiset(EmittedEvents(Classified(rows), digest))
    ensures forall k :: WithKey(r.timeline, EventKey, k) == WithKey(EmittedEvents(Classified(rows), digest), EventKey, k)
  {
    var ds := Classified(rows);
    var st := Run(ds, cap, digest);
    RunConsistent(ds, cap, digest);
    RunEvents(ds, cap, digest);
    RunTimeBounds(ds, cap, digest);
    FinishedWellFormed(st, cap, digest);
    Report(SchemaVersion, st.packetsAnalyzed, st.firstTs, st.lastTs,
           Reported(ds, cap, digest), SortBy(st.events, EventKey))
  }

  /** The sessions in appearance order are the finished summaries of the
      accepted key texts, taken in the order each first arrived. */
  lemma AppearanceIsFirstOccurrences(ds: seq<Disposition>, cap: int, digest: string -> string)
    ensures var keys := FirstOccurrences(KeyTexts(ds));
            && |Appearance(ds, cap, digest)| == |keys|
            && forall i :: 0 <= i < |keys| ==>
                 && |RecordsOf(ds, keys[i])| > 0
                 && Appearance(ds, cap, digest)[i] == Finalize(Summarize(keys[i], RecordsOf(ds, keys[i]), cap, digest))
  {
    var st := Run(ds, cap, digest);
    RunConsistent(ds, cap, digest);
    RunOrder(ds, cap, digest);
    RunMatchesSummary(ds, cap, digest);
    var keys := FirstOccurrences(KeyTexts(ds));
    forall i | 0 <= i < |keys|
      ensures |RecordsOf(ds, keys[i])| > 0
      ensures Appearance(ds, cap, digest)[i] == Finalize(Summarize(keys[i], RecordsOf(ds, keys[i]), cap, digest))
    {
      assert keys[i] == st.order[i] && keys[i] in st.sessions;
    }
  }

  /** Every finished session of a consistent state keeps the fold's invariant
      and so has a non-negative duration. */
  lemma FinishedWellFormed(st: State, cap: int, digest: string -> string)
    requires Consistent(st, cap, digest)
    ensures forall f :: f in SortBy(Finished(st), SessionKey) ==>
              WellFormed(f.session, cap) && f.durationSeconds >= 0.0
  {
    var finished := Finished(st);
    SortByElements(finished, SessionKey);
    forall f | f in SortBy(finished, SessionKey)
      ensures WellFormed(f.session, cap) && f.durationSeconds >= 0.0
    {
      var i :| 0 <= i < |finished| && finished[i] == f;
      var t := st.order[i];
      assert t in st.sessions && WellFormed(st.sessions[t], cap);
      assert f == Finalize(st.sessions[t]);
    }
  }

  /** The key text a session's endpoints spell. */
  function SessionKeyText(s: Session): string {
    KeyText(FlowKey(s.transport, s.a, s.b))
  }

  /** A summary of a key text's records spells that key text. */
  lemma SummarySpellsKey(ds: seq<Disposition>, t: string, cap: int, digest: string -> string)
    requires |RecordsOf(ds, t)| > 0
    ensures SessionKeyText(Summarize(t, RecordsOf(ds, t), cap, digest)) == t
  {
    RecordsOfKeyText(ds, t);
    assert KeyTextOf(RecordsOf(ds, t)[0]) == t;
  }

  /** Finished sessions spell the key texts of `order`, position by position,
      so they are all different. */
  lemma FinishedSpellsOrder(st: State)
    requires Distinct(st.order)
    requires forall t :: t in st.order ==> t in st.sessions
    requires forall t :: t in st.sessions ==> SessionKeyText(st.sessions[t]) == t
    ensures forall i :: 0 <= i < |Finished(st)| ==> SessionKeyText(Finished(st)[i].session) == st.order[i]
    ensures Distinct(Finished(st))
  {
    var finished := Finished(st);
    assert forall i :: 0 <= i < |finished| ==> SessionKeyText(finished[i].session) == st.order[i];
    forall i, j | 0 <= i < j < |finished| ensures finished[i] != finished[j] {
      assert SessionKeyText(finished[i].session) != SessionKeyText(finished[j].session);
    }
  }

  /** Every finished, sorted session is the finished session stored under the
      key text it spells. */
  lemma ReportedAreStored(st: State)
    requires forall t :: t in st.order ==> t in st.sessions
    requires forall t :: t in st.sessions ==> SessionKeyText(st.sessions[t]) == t
    ensures forall f :: f in SortBy(Finished(st), SessionKey) ==>
              SessionKeyText(f.session) in st.sessions
              && f == Finalize(st.sessions[SessionKeyText(f.session)])
  {
    var finished := Finished(st);
    SortByElements(finished, SessionKey);
    forall f | f in SortBy(finished, SessionKey)
      ensures SessionKeyText(f.session) in st.sessions && f == Finalize(st.sessions[SessionKeyText(f.session)])
    {
      var i :| 0 <= i < |finished| && finished[i] == f;
      var t := st.order[i];
      assert t in st.sessions;
      assert f == Finalize(st.sessions[t]);
      assert SessionKeyText(f.session) == t;
    }
  }

  /** Every stored session is reported. */
  lemma StoredAreReported(st: State)
    requires forall t :: t in st.order ==> t in st.sessions
    requires forall t :: t in st.sessions ==> t in st.order
    ensures forall t :: t in st.sessions ==> Finalize(st.sessions[t]) in SortBy(Finished(st), SessionKey)
  {
    var finished := Finished(st);
    SortByElements(finished, SessionKey);
    forall t | t in st.sessions
      ensures Finalize(st.sessions[t]) in SortBy(finished, SessionKey)
    {
      var i :| 0 <= i < |st.order| && st.order[i] == t;
      assert finished[i] in finished;
    }
  }

  /** No two reported sessions spell the same key text. */
  lemma ReportedOnce(st: State)
    requires Distinct(st.order)
    requires forall t :: t in st.order ==> t in st.sessions
    requires forall t :: t in st.sessions ==> SessionKeyText(st.sessions[t]) == t
    ensures var ss := SortBy(Finished(st), SessionKey);
            forall i, j :: 0 <= i < j < |ss| ==> SessionKeyText(ss[i].session) != SessionKeyText(ss[j].session)
  {
    var ss := SortBy(Finished(st), SessionKey);
    FinishedSpellsOrder(st);
    PermutationKeepsDistinct(Finished(st), ss);
    ReportedAreStored(st);
    forall i, j | 0 <= i < j < |ss|
      ensures SessionKeyText(ss[i].session) != SessionKeyText(ss[j].session)
    {
      assert ss[i] in ss && ss[j] in ss;
    }
  }

  /** Every session the pass stores spells the key text it is stored under. */
  lemma RunSpellsKeys(ds: seq<Disposition>, cap: int, digest: string -> string)
    ensures forall t :: t in Run(ds, cap, digest).sessions ==> SessionKeyText(Run(ds, cap, digest).sessions[t]) == t
  {
    RunMatchesSummary(ds, cap, digest);
    forall t | t in Run(ds, cap, digest).sessions
      ensures SessionKeyText(Run(ds, cap, digest).sessions[t]) == t
    {
      SummarySpellsKey(ds, t, cap, digest);
    }
  }

  /** Each reported session is the finished summary of the records of the key
      text it spells, and that key text has records. */
  lemma ReportedAreSummaries(ds: seq<Disposition>, cap: int, digest: string -> string)
    ensures forall f :: f in Reported(ds, cap, digest) ==>
              var t := SessionKeyText(f.session);
              && |RecordsOf(ds, t)| > 0
              && f == Finalize(Summarize(t, RecordsOf(ds, t), cap, digest))
  {
    var st := Run(ds, cap, digest);
    RunConsistent(ds, cap, digest);
    RunSpellsKeys(ds, cap, digest);
    ReportedAreStored(st);
    RunMatchesSummary(ds, cap, digest);
  }

  /** Each key text with records has its finished summary reported. */
  lemma SummariesAreReported(ds: seq<Disposition>, cap: int, digest: string -> string)
    ensures forall t :: |RecordsOf(ds, t)| > 0 ==>
              Finalize(Summarize(t, RecordsOf(ds, t), cap, digest)) in Reported(ds, cap, digest)
  {
    var st := Run(ds, cap, digest);
    RunConsistent(ds, cap, digest);
    StoredAreReported(st);
    RunMatchesSummary(ds, cap, digest);
  }

  /** No key text is reported twice. */
  lemma RunReportedOnce(ds: seq<Disposition>, cap: int, digest: string -> string)
    ensures var ss := Reported(ds, cap, digest);
            forall i, j :: 0 <= i < j < |ss| ==> SessionKeyText(ss[i].session) != SessionKeyText(ss[j].session)
  {
    var st := Run(ds, cap, digest);
    RunConsistent(ds, cap, digest);
    RunSpellsKeys(ds, cap, digest);
    assert Reported(ds, cap, digest) == SortBy(Finished(st), SessionKey);
    ReportedOnce(st);
  }

  /** The reported sessions are exactly the finished summaries of the key
      texts some accepted packet carries, one per key text. */
  lemma AnalyzeSessions(rows: seq<Row>, cap: int, digest: string -> string)
    ensures var r := Analyze(rows, cap, digest);
            && (forall f :: f in r.sessions ==>
                  var t := SessionKeyText(f.session);
                  && |RecordsOf(Classified(rows), t)| > 0
                  && f == Finalize(Summarize(t, RecordsOf(Classified(rows), t), cap, digest)))
            && (forall t :: |RecordsOf(Classified(rows), t)| > 0 ==>
                  Finalize(Summarize(t, RecordsOf(Classified(rows), t), cap, digest)) in r.sessions)
            && (forall i, j :: 0 <= i < j < |r.sessions| ==>
                  SessionKeyText(r.sessions[i].session) != SessionKeyText(r.sessions[j].session))
  {
    var ds := Classified(rows);
    ReportedAreSummaries(ds, cap, digest);
    SummariesAreReported(ds, cap, digest);
    RunReportedOnce(ds, cap, digest);
  }
}
