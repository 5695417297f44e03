/** The rule pass over finished sessions (services/forensic-engine/main.py:327-340):
    duration and fixed, inclusive threshold flags. */
module Rules {
  import opened Flow
  import opened Sessions

  datatype RuleFlag = ManyPackets | LongDuration | LargeBytes | NonTcpUdp

  /** The flag as the artifact spells it. */
  function FlagText(f: RuleFlag): string {
    match f
    case ManyPackets => "many_packets"
    case LongDuration => "long_duration"
    case LargeBytes => "large_bytes"
    case NonTcpUdp => "non_tcp_udp"
  }

  /** Each flag has its own spelling, so the artifact's flag list determines
      the flags. */
  lemma FlagTextInjective(f: RuleFlag, g: RuleFlag)
    ensures FlagText(f) == FlagText(g) <==> f == g
  {
  }

  /** The position of each rule in the order the rules are checked. */
  function Rank(f: RuleFlag): nat {
    match f
    case ManyPackets => 0
    case LongDuration => 1
    case LargeBytes => 2
    case NonTcpUdp => 3
  }

  const ManyPacketsThreshold: nat := 1000
  const LongDurationSeconds: real := 60.0
  const LargeBytesThreshold: int := 10 * 1024 * 1024

  /** A session's span in seconds. */
  function Duration(s: Session): real {
    s.lastTs - s.firstTs
  }

  /** Flags listed in strictly increasing rule order (so without repeats). */
  predicate InRuleOrder(r: seq<RuleFlag>) {
    forall i, j :: 0 <= i < j < |r| ==> Rank(r[i]) < Rank(r[j])
  }

  /** The rules in the order they are checked. */
  const AllRules: seq<RuleFlag> := [ManyPackets, LongDuration, LargeBytes, NonTcpUdp]

  /** Whether a rule's threshold is met; every threshold is inclusive. */
  predicate Fires(s: Session, f: RuleFlag) {
    match f
    case ManyPackets => s.packetCount >= ManyPacketsThreshold
    case LongDuration => Duration(s) >= LongDurationSeconds
    case LargeBytes => s.byteCount >= LargeBytesThreshold
    case NonTcpUdp => s.transport == Other
  }

  /** The rules of `rules` that fire on `s`, checked in turn. */
  function Select(rules: seq<RuleFlag>, s: Session): seq<RuleFlag> {
    if |rules| == 0 then []
    else (if Fires(s, rules[0]) then [rules[0]] else []) + Select(rules[1..], s)
  }

  lemma {:induction false} SelectElements(rules: seq<RuleFlag>, s: Session)
    ensures forall f :: f in Select(rules, s) <==> f in rules && Fires(s, f)
  {
    if |rules| > 0 {
      SelectElements(rules[1..], s);
      assert rules == [rules[0]] + rules[1..];
    }
  }

  lemma {:induction false} SelectInRuleOrder(rules: seq<RuleFlag>, s: Session)
    requires InRuleOrder(rules)
    ensures InRuleOrder(Select(rules, s))
  {
    if |rules| > 0 {
      var rest := Select(rules[1..], s);
      SelectInRuleOrder(rules[1..], s);
      SelectElements(rules[1..], s);
      forall j | 0 <= j < |rest| ensures Rank(rules[0]) < Rank(rest[j]) {
        assert rest[j] in rules[1..];
        var m :| 0 <= m < |rules[1..]| && rules[1..][m] == rest[j];
        assert rules[m + 1] == rest[j];
      }
    }
  }

  /** Each rule independently, every threshold inclusive, in rule order. */
  function Flags(s: Session): (r: seq<RuleFlag>)
    ensures ManyPackets in r <==> s.packetCount >= 1000
    ensures LongDuration in r <==> s.lastTs - s.firstTs >= 60.0
    ensures LargeBytes in r <==> s.byteCount >= 10_485_760
    ensures NonTcpUdp in r <==> s.transport == Other
    ensures InRuleOrder(r)
  {
    SelectElements(AllRules, s);
    SelectInRuleOrder(AllRules, s);
    Select(AllRules, s)
  }

  /** Two ordered lists with the same members and the same head have the
      same members after it. */
  lemma SameTailMembers(r1: seq<RuleFlag>, r2: seq<RuleFlag>)
    requires InRuleOrder(r1) && InRuleOrder(r2)
    requires forall f :: f in r1 <==> f in r2
    requires |r1| > 0 && |r2| > 0 && r1[0] == r2[0]
    ensures forall f :: f in r1[1..] <==> f in r2[1..]
  {
    forall f
      ensures f in r1[1..] ==> f in r2[1..]
      ensures f in r2[1..] ==> f in r1[1..]
    {
      if f in r1[1..] {
        var i :| 0 <= i < |r1[1..]| && r1[1..][i] == f;
        assert Rank(r1[0]) < Rank(r1[i + 1]);
        assert f in r2;
        var j :| 0 <= j < |r2| && r2[j] == f;
        assert j != 0;
        assert r2[1..][j - 1] == f;
      }
      if f in r2[1..] {
        var i :| 0 <= i < |r2[1..]| && r2[1..][i] == f;
        assert Rank(r2[0]) < Rank(r2[i + 1]);
        assert f in r1;
        var j :| 0 <= j < |r1| && r1[j] == f;
        assert j != 0;
        assert r1[1..][j - 1] == f;
      }
    }
  }

  /** A flag list is determined by which flags it holds once it is in rule
      order: so the membership conditions and the order above fix `Flags`
      completely. */
  lemma {:induction false} InRuleOrderUnique(r1: seq<RuleFlag>, r2: seq<RuleFlag>)
    requires InRuleOrder(r1) && InRuleOrder(r2)
    requires forall f :: f in r1 <==> f in r2
    ensures r1 == r2
  {
    if |r1| > 0 {
      assert r1[0] in r2;
    }
    if |r2| > 0 {
      assert r2[0] in r1;
    }
    if |r1| > 0 {
      assert Rank(r2[0]) <= Rank(r1[0]) by {
        var j :| 0 <= j < |r2| && r2[j] == r1[0];
      }
      assert Rank(r1[0]) <= Rank(r2[0]) by {
        var j :| 0 <= j < |r1| && r1[j] == r2[0];
      }
      assert r1[0] == r2[0];
      SameTailMembers(r1, r2);
      InRuleOrderUnique(r1[1..], r2[1..]);
      assert r1 == [r1[0]] + r1[1..] && r2 == [r2[0]] + r2[1..];
    }
  }

  /** A finished session: the aggregate with its duration and flags. */
  datatype FinalSession = FinalSession(session: Session, durationSeconds: real, ruleFlags: seq<RuleFlag>)

  /** The rule pass on one session; a session whose bounds are ordered (every
      session the fold builds) has a non-negative duration. */
  function Finalize(s: Session): (r: FinalSession)
    ensures r.session == s
    ensures r.durationSeconds == s.lastTs - s.firstTs
    ensures s.firstTs <= s.lastTs ==> r.durationSeconds >= 0.0
    ensures LongDuration in r.ruleFlags <==> r.durationSeconds >= 60.0
    ensures r.ruleFlags == Flags(s)
  {
    FinalSession(s, Duration(s), Flags(s))
  }
}
