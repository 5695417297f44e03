# Forensic engine: flow correlation and timeline, in Dafny

This project models the core of `analyze_pcap` in the forensic engine
(`services/forensic-engine/main.py`). The engine reads one row of dissector
fields per captured frame and groups the frames into bidirectional sessions.
It collects DNS, HTTP and TLS observations on each session and emits a
timeline event for each observation. It then applies fixed threshold rules
to every session and writes an artifact whose sessions are ordered by
`(first_ts, id)` and whose timeline is ordered by timestamp.

The model is purely functional:

- `Text` and `Numbers` model `str.strip()`, Python's string order, `_safe_int`
  and `str(int)`.
- `Flow` models transport selection, `_canonical_endpoint` /
  `_canonical_pair` and the session key text.
- `Records` models the row and its normalisation into a `Disposition`: the
  row is only counted, or it only moves the capture's time bounds, or it is
  an accepted packet.
- `Sessions` models one session and its per-packet update (counters,
  bounds, evidence sample, protocol histogram, observations and the events
  they emit).
- `Summary` is an independent reference definition: what a session is,
  described all at once from the list of its packets.
- `Engine` models the row loop as a left fold (`Run`) and relates it to the
  reference definition.
- `Rules` models the rule pass.
- `Sorting` is Python's stable `sorted` for the two key shapes used.
- `Artifact` assembles the report.

The SHA-1 session id is the parameter `digest: string -> string`, applied to
the key text. The sample size `sample_frames_per_session` is the parameter
`cap`.

## Model

| member | source | states |
|---|---|---|
| Text.Strip | services/forensic-engine/main.py:63 | The result has no leading or trailing whitespace (Python's `isspace` set), is no longer than the input, and is empty exactly when the input is all whitespace |
| Text.StripPadded | services/forensic-engine/main.py:63 | Stripping whitespace padding from around a text with no outer whitespace returns that text |
| Numbers.SafeInt | services/forensic-engine/main.py:60-69 | A missing value and a blank value read as absent; any other text reads as the stripped form parsed as Python's `int()` does without its digit limit (see Left out), with absent standing for a ValueError |
| Numbers.ParseInt | services/forensic-engine/main.py:66-69 | Python's `int()` on stripped text, without the 4300-digit limit of newer CPython (see Left out): an optional sign, then digits with single underscores between digits; anything else is absent. It has no contract of its own: Numbers.IntText states that it reads back every rendered integer |
| Numbers.IntText | services/forensic-engine/main.py:227 | The decimal rendering of an integer (a port in the key text) has no outer whitespace and parses back to the same integer |
| Numbers.SafeIntReadsIntText | services/forensic-engine/main.py:60-69 | Round trip: `_safe_int` reads any rendered integer back, whatever whitespace surrounds it |
| Flow.SelectTransport | services/forensic-engine/main.py:213-224 | The transport is tcp iff a tcp port is present, udp iff no tcp port and some udp port is present, and other iff no port is present; the ports are those of the chosen transport, and other has none |
| Flow.SelectTransportReversed | services/forensic-engine/main.py:208-224 | Swapping source and destination columns keeps the transport and swaps the two ports |
| Flow.CanonicalPairAsWritten | services/forensic-engine/main.py:84-106 | The pair as the source orders it: its comparison keys are in tuple order and it holds exactly the two given endpoints |
| Flow.CanonicalPairAsWrittenNotSymmetric | services/forensic-engine/main.py:84-106 | With the same address, an absent port and port -1 compare equal, so the two directions produce different pairs |
| Flow.CanonicalPair | services/forensic-engine/main.py:90-106 | The corrected pair is in endpoint order and holds exactly the two given endpoints |
| Flow.CanonicalPairSymmetric | services/forensic-engine/main.py:90-106 | Flow-key symmetry: both directions of a conversation give the same corrected pair |
| Flow.CanonicalPairAgreesWithSource | services/forensic-engine/main.py:84-106 | When no port is -1, the corrected pair equals the pair as written |
| Flow.KeyText | services/forensic-engine/main.py:227 | The key text `transport:a.ip:a.port->b.ip:b.port`, with an absent port rendered as `None`. It has no contract of its own: Flow.FlowKeySymmetric states that both directions give the same key text, and Artifact.SummarySpellsKey that a session spells its key text back |
| Flow.FlowKeySymmetric | services/forensic-engine/main.py:208-228 | A packet and its reverse get the same flow key and the same key text, hence the same session id |
| Records.FieldText | services/forensic-engine/main.py:264 | `(v or "").strip()` has no outer whitespace, and is empty exactly when the column is missing or all whitespace |
| Records.AddressText | services/forensic-engine/main.py:203-204 | The IPv4 column wins whenever it is non-empty, even if it is only whitespace; otherwise the IPv6 column is used; either way the result is stripped |
| Records.Classify | services/forensic-engine/main.py:191-224 | Drop rules: a row without a frame number or a timestamp is only counted; a stamped row missing either address only stamps. Otherwise the row is accepted with its frame number, timestamp and frame length. Its addresses are the non-empty address texts of its columns, and its ports are the transport selection over its four port columns. Its protocol chain, DNS name, HTTP method, host and URI, and TLS server name are the stripped texts of their columns |
| Records.ReversedRowSameSession | services/forensic-engine/main.py:203-228 | A row and the same row with source and destination swapped are both accepted or both not, and accepted ones share the session key text |
| Sessions.SampleSize | services/forensic-engine/main.py:261-262 | The sample keeps at most `cap` frames and at most one per packet, stops short of the packet count only at the cap, and is empty for a negative cap |
| Sessions.Tally | services/forensic-engine/main.py:264-266 | A non-empty protocol chain raises its own count by one, or opens it at one, and leaves the other counts alone; an empty chain changes nothing |
| Sessions.Open | services/forensic-engine/main.py:231-253 | A fresh session carries the key's id, transport and endpoints, has counted no packet, holds no observation, and is well formed for every cap |
| Sessions.Count | services/forensic-engine/main.py:255-266 | After one packet, the count grows by one and the bytes by the frame length (0 if absent). Each time and frame bound becomes the old bound or the packet's value, whichever is further out, so it is the min or max of the two. The sample gains the frame iff it is below the cap, and the protocol histogram is tallied with the chain. The invariant is kept, and identity and observations are unchanged |
| Sessions.Emit | services/forensic-engine/main.py:268-320 | A packet emits one event per observation it carries, each with the packet's timestamp, frame number and the session id |
| Sessions.KindTextInjective | services/forensic-engine/main.py:277-316 | The event kinds are spelled `dns_query`, `http_request` and `tls_sni`, and no two kinds share a spelling |
| Sessions.Observe | services/forensic-engine/main.py:268-320 | Each observation list gains exactly that packet's observation, the observation total grows by the number of events emitted, and nothing else in the session changes |
| Sessions.Update | services/forensic-engine/main.py:255-320 | The whole per-packet update is the count above (bytes, bounds, sample, histogram) plus the packet's observations. It keeps the invariant and the session's identity, counts one packet, and adds as many observations as events it emits |
| Sessions.ObservationsPairWithEvents | services/forensic-engine/main.py:268-320 | A DNS observation is recorded iff the query name is non-empty; an HTTP one iff the method is non-empty and the host or URI is; a TLS one iff the server name is; the events are exactly those observations, in DNS, HTTP, TLS order |
| Summary.SummarizeWellFormed | services/forensic-engine/main.py:255-262 | The summary of a non-empty packet list keeps the invariant, counts every packet, spans every timestamp, and its sample is exactly the first min(cap, n) frame numbers in arrival order |
| Summary.SummarizeSnoc | services/forensic-engine/main.py:230-320 | Applying the per-packet update to the summary of a packet list gives the summary of the list with that packet appended |
| Summary.SummarizeOne | services/forensic-engine/main.py:230-266 | Opening a session on its first packet and updating it gives the summary of that one packet |
| Engine.Lower | services/forensic-engine/main.py:200 | The new lower time bound is the timestamp or the old bound, whichever is not greater |
| Engine.Upper | services/forensic-engine/main.py:201 | The new upper time bound is the timestamp or the old bound, whichever is not smaller |
| Engine.Correlate | services/forensic-engine/main.py:226-320 | The packet's key text joins the stored keys, and joins the end of the key order exactly when it was not stored yet; the packet's events are appended; Engine.CorrelateUpdatesOneSession adds that only that session changes |
| Engine.Ingest | services/forensic-engine/main.py:191-206 | Every row is counted, and a row that is not accepted leaves sessions, order and events alone |
| Engine.Run | services/forensic-engine/main.py:187-320 | The fold counts every row; Engine.RunMatchesSummary, Engine.RunEvents, Engine.RunTimeBounds and Engine.RunTotals state the rest |
| Engine.IngestUnstamped | services/forensic-engine/main.py:191-198 | A row without a usable frame number or timestamp is counted and changes nothing else |
| Engine.IngestUnaddressed | services/forensic-engine/main.py:191-206 | A stamped row without both addresses is counted and widens the time bounds to its timestamp, but touches no session and emits no event |
| Engine.IngestAccepted | services/forensic-engine/main.py:191-226 | An accepted row is counted and widens the time bounds, then goes through the session update with sessions and events as they were |
| Engine.CorrelateUpdatesOneSession | services/forensic-engine/main.py:226-320 | The session update changes only the packet's session, adding one packet and its frame length, and appends exactly that packet's events |
| Engine.CorrelateConsistent | services/forensic-engine/main.py:226-253 | The session update keeps each stored key text listed exactly once, lists no other, and keeps every session well formed under the id `digest(key text)` |
| Engine.RunConsistent | services/forensic-engine/main.py:187-253 | After any number of rows, every row is counted, the order lists every stored key text exactly once, and every session is well formed |
| Seqs.FirstOccurrences | services/forensic-engine/main.py:230-253 | The key order of a dictionary filled in turn: no element twice, and exactly the elements of the input |
| Engine.RunOrder | services/forensic-engine/main.py:226-253 | The key order of the finished pass is the accepted packets' key texts, each once, in the order each first arrived: the insertion order of the session dictionary |
| Engine.RunMatchesSummary | services/forensic-engine/main.py:191-320 | A key text has a session iff some accepted packet carries it, and that session is the summary of exactly those packets in arrival order |
| Engine.RunEvents | services/forensic-engine/main.py:268-320 | The events are exactly those each accepted packet emits, in arrival order, each under its own session's id |
| Engine.RunTimeBounds | services/forensic-engine/main.py:187-201 | The capture's first and last timestamps are the least and greatest timestamp of the stamped rows, addressed or not, and are absent iff there is none |
| Engine.RunTotals | services/forensic-engine/main.py:255-320 | Conservation: the sessions' packet counts sum to the number of accepted rows, and their observations number exactly the events |
| Rules.Flags | services/forensic-engine/main.py:327-340 | Each flag is present iff its inclusive threshold is met (1000 packets, 60 seconds, 10 MiB, transport other), and the flags are in rule order |
| Rules.InRuleOrderUnique | services/forensic-engine/main.py:330-338 | Two flag lists in rule order with the same members are equal, so the membership conditions and the order determine the list |
| Rules.FlagTextInjective | services/forensic-engine/main.py:332-338 | The flags are spelled `many_packets`, `long_duration`, `large_bytes` and `non_tcp_udp`, and no two flags share a spelling |
| Rules.Finalize | services/forensic-engine/main.py:327-340 | The finished session keeps the session, its duration is last_ts minus first_ts (non-negative when its bounds are ordered), it flags a long duration iff that duration is at least 60 seconds, and its flags are those of Rules.Flags |
| Sorting.SortBy | services/forensic-engine/main.py:342 | The result is sorted by key, a permutation of the input, and stable: for every key, the elements with that key keep their input order |
| Sorting.SortByIsTheStableSort | services/forensic-engine/main.py:361 | Any sorted arrangement that keeps the input order within every key equals the result of the sort |
| Artifact.Analyze | services/forensic-engine/main.py:342-361 | Schema 1; every row counted; capture bounds are the least and greatest stamped timestamp; one session per stored key text, sorted by (first_ts, id), each well formed with a non-negative duration, and sessions that tie on (first_ts, id) keep the first-arrival order of their key texts, as the stable sort of the dictionary's values does; the timeline is the emitted events sorted stably by timestamp |
| Artifact.AppearanceIsFirstOccurrences | services/forensic-engine/main.py:327-340 | The finished sessions, before sorting, are the finished summaries of the accepted key texts in first-arrival order, one per key text |
| Artifact.AnalyzeSessions | services/forensic-engine/main.py:327-361 | The reported sessions are exactly the finished summaries of the key texts some accepted packet carries, each key text reported once |
| Artifact.ReportedAreSummaries | services/forensic-engine/main.py:327-361 | Each reported session is the finished summary of the records of the key text it spells |
| Artifact.SummariesAreReported | services/forensic-engine/main.py:327-361 | Each key text with records has its finished summary among the reported sessions |

## Left out

- Running the dissector (`tshark`, its path, version and command line, `max_packets`), reading its output, and the error raised on a non-zero exit. The model starts from the rows: each column is missing or a text.
- CSV parsing. `row.get` of a missing column is a `None` field.
- `_safe_float` and floating point. `frame.time_epoch` is an already parsed `real`, so float rounding of `duration` and NaN comparisons are not modelled.
- SHA-1 of the key text, which becomes the parameter `digest`. The SHA-256 of the file, `generated_at`, the file path and size fields, and the tooling block are also left out, because they come from hashing, the clock and the file system.
- JSON encoding and the CLI. The protocol histogram is a map, so its key insertion order is not modelled.
- Flow.FlowKeyOf: the fold keys sessions with the corrected `Flow.CanonicalPair`, not the pair as written (see Findings). So Flow.FlowKeySymmetric, Records.ReversedRowSameSession and the Engine and Artifact rows describe the corrected fold. It differs from main.py only when a port parses to -1 (for example "-1", "-01" or "-0_1").
- Numbers.ParseInt: Python's `int()` also accepts non-ASCII Unicode decimal digits; the model accepts ASCII digits only.
- Numbers.ParseInt: CPython 3.11 and later (and the 3.7.14, 3.8.14, 3.9.14 and 3.10.7 security releases) reject a decimal text of more than 4300 digits (`sys.get_int_max_str_digits()`, underscores not counted) with a ValueError, so `_safe_int` returns None and such a frame number only counts the row. The model reads digit runs of any length, as older Pythons do, because the limit depends on the interpreter version and its settings. Numbers.IntText and Numbers.SafeIntReadsIntText likewise render and read back integers of any size, whereas newer CPython's `str(n)` raises past 4300 digits.
- `SortKey`: the session id is compared by code point, as Python compares `str`. The model does not check that ids are hex digests.

## Findings

| source | as written | input that shows it | evidently intended | confidence | as-written member | corrected member |
|---|---|---|---|---|---|---|
| services/forensic-engine/main.py:84-106 | An absent port is encoded as -1 before the tuple comparison, so `(ip, None)` and `(ip, -1)` compare equal and each direction keeps its own order | Two packets between the same address, one with ports (None, -1) and one with (-1, None): the key texts `tcp:ip:None->ip:-1` and `tcp:ip:-1->ip:None` differ | Both directions of a conversation produce the same pair and hence one session | not executed; low, since a dissector never prints port -1 | Flow.CanonicalPairAsWrittenNotSymmetric | Flow.CanonicalPairSymmetric |

The corrected order breaks the tie by putting the absent port first.
`Flow.CanonicalPairAgreesWithSource` shows that it differs from the code as
written only when a port is -1. The rest of the model uses the corrected
`Flow.CanonicalPair`.
