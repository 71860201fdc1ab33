// What silences an alert, said without keys: the last verdict about the same indicator,
// for the alert's client or for all clients (feedback.go).
module FeedbackMeaning {
  import opened Basics
  import opened Text
  import opened Events
  import opened Feedback
  import FeedbackRestart

  /** Lower-casing and trimming bring in no separator. */
  lemma NormalPlain(s: string)
    requires '|' !in s
    ensures '|' !in Normal(s)
  {
    var a, b := TrimParts(s);
    var t := TrimSpace(s);
    ToLowerAt(t);
    forall i | 0 <= i < |t|
      ensures ToLower(t)[i] != '|'
    {
      assert s[|a| + i] == t[i];
      assert t[i] in s;
    }
  }

  /** Two pairs share a key exactly when indicator and client agree up to case and outer blanks. */
  lemma KeyIff(ioc: string, ip: string, ioc': string, ip': string)
    requires '|' !in ip && '|' !in ip'
    ensures Key(ioc, ip) == Key(ioc', ip') <==> SameWords(ioc, ioc') && SameWords(ip, ip')
  {
    NormalIff(ioc, ioc');
    NormalIff(ip, ip');
    NormalPlain(ip);
    NormalPlain(ip');
    if Key(ioc, ip) == Key(ioc', ip') {
      assert Key(ioc, ip) == Normal(ioc) + ['|'] + Normal(ip);
      assert Key(ioc', ip') == Normal(ioc') + ['|'] + Normal(ip');
      LastSeparator(Normal(ioc), Normal(ip), Normal(ioc'), Normal(ip'), '|');
    }
  }

  /** Verdict i is the last one about the indicator and the client. */
  ghost predicate LastAbout(log: seq<Verdict>, ioc: string, ip: string, i: int) {
    && 0 <= i < |log| && SameWords(log[i].matchedIoC, ioc) && SameWords(log[i].clientIP, ip)
    && forall j :: i < j < |log| ==> !(SameWords(log[j].matchedIoC, ioc) && SameWords(log[j].clientIP, ip))
  }

  /** The last verdict about the indicator and the client is a false positive, and not older than `ttl`. */
  ghost predicate Forgiven(log: seq<Verdict>, ioc: string, ip: string, ttl: int, now: int) {
    exists i :: LastAbout(log, ioc, ip, i) && log[i].verdict == "false_positive" && now <= log[i].timestamp + ttl
  }

  predicate PlainClients(log: seq<Verdict>) {
    forall i :: 0 <= i < |log| ==> '|' !in log[i].clientIP
  }

  lemma LastAboutKey(log: seq<Verdict>, ioc: string, ip: string, i: nat)
    requires PlainClients(log) && '|' !in ip && i < |log|
    ensures LastAbout(log, ioc, ip, i)
       <==> KeyOf(log[i]) == Key(ioc, ip) && forall j :: i < j < |log| ==> KeyOf(log[j]) != Key(ioc, ip)
  {
    forall j | 0 <= j < |log|
      ensures KeyOf(log[j]) == Key(ioc, ip)
         <==> SameWords(log[j].matchedIoC, ioc) && SameWords(log[j].clientIP, ip)
    {
      KeyIff(log[j].matchedIoC, log[j].clientIP, ioc, ip);
    }
  }

  lemma {:induction false} LastForIndex(log: seq<Verdict>, k: string) returns (i: nat)
    requires LastFor(log, k).Some?
    ensures i < |log| && LastFor(log, k) == Some(log[i]) && KeyOf(log[i]) == k
    ensures forall j :: i < j < |log| ==> KeyOf(log[j]) != k
  {
    var n := |log| - 1;
    if KeyOf(log[n]) == k {
      i := n;
    } else {
      i := LastForIndex(log[..n], k);
      forall j | i < j < |log|
        ensures KeyOf(log[j]) != k
      {
        assert j < n ==> log[..n][j] == log[j];
      }
    }
  }

  /** The log silences a key exactly when the last verdict about it says so. */
  lemma ForgivenIff(log: seq<Verdict>, ioc: string, ip: string, ttl: int, now: int)
    requires PlainClients(log) && '|' !in ip
    ensures LogSilences(ttl, log, Key(ioc, ip), now) <==> Forgiven(log, ioc, ip, ttl, now)
  {
    var k := Key(ioc, ip);
    if LastFor(log, k).Some? {
      var i := LastForIndex(log, k);
      LastAboutKey(log, ioc, ip, i);
    }
    if Forgiven(log, ioc, ip, ttl, now) {
      var i :| LastAbout(log, ioc, ip, i) && log[i].verdict == "false_positive" && now <= log[i].timestamp + ttl;
      LastAboutKey(log, ioc, ip, i);
      FeedbackRestart.LastForIsLast(log, i, k);
    }
  }

  /** Under every interleaving of records and sweeps, an alert is suppressed exactly when the last accepted
      verdict about its indicator, for its client or for no client in particular, is a false positive no older
      than the lifetime; indicators and clients are compared up to case and outer blanks. */
  lemma SuppressedMeans(o: Options, run: seq<Timed>, a: Alert, now: int)
    requires ClockMonotone(run) && forall i :: 0 <= i < |run| ==> run[i].at <= now
    requires PlainClients(Run(o, run).log) && '|' !in a.clientIP
    ensures var st := Run(o, run);
            SilencesAlert(o.ttl, st.suppressions, a, now)
            <==> || Forgiven(st.log, a.matchedIoC, a.clientIP, o.ttl, now)
                 || Forgiven(st.log, a.matchedIoC, "", o.ttl, now)
  {
    SuppressedRefinesLog(o, run, a, now);
    ForgivenIff(Run(o, run).log, a.matchedIoC, a.clientIP, o.ttl, now);
    ForgivenIff(Run(o, run).log, a.matchedIoC, "", o.ttl, now);
  }

  /** What the log gains: a verdict enters it, stamped with the time if it had none, exactly when it names an
      indicator, an analyst and one of the two verdicts, and, for a new suppression, there is room. */
  lemma RecordedIff(o: Options, st: State, v: Verdict, at: int)
    ensures var st' := Recorded(o, st, v, at);
            if v.matchedIoC != "" && v.analyst != "" && v.verdict in {"false_positive", "confirmed"}
               && (v.verdict == "false_positive" ==> KeyOf(v) in st.suppressions || |st.suppressions| < o.cap)
            then st'.log == st.log + [v.(timestamp := if v.timestamp == 0 then at else v.timestamp)]
            else st' == st
  {
  }
}
