/** The metrics of etcd mode over whole runs, by the events themselves, whatever they report. */
module EtcdMetrics {
  import opened Types
  import opened Keys
  import opened Etcd
  import opened StorerEtcd
  import opened EtcdRuns
  import opened Metrics
  import opened Handlers
  import opened EtcdMode
  import MetricsRuns

  /** The reports since `start` in order, with the names they were posted under. */
  function Reports(es: seq<Event>, start: nat): seq<(string, AgentSpec)> {
    if |es| <= start then []
    else
      var e := es[|es| - 1];
      Reports(es[..|es| - 1], start) + if e.act.Report? then [(e.act.name, Returned(e))] else []
  }

  /** A report is taken as posted, with the time of its arrival; an undecodable one as an empty one. */
  lemma ReturnedIsReport(e: Event)
    requires e.act.Report?
    ensures e.act.body.Ok? ==> IsReportOf(Returned(e), e.act.body.value, e.at)
    ensures e.act.body.Err? ==> Returned(e) == AgentSpec(0, "", "", 0, 0, 0, None, [], None)
  {
  }

  lemma {:induction false} OpsHandleReports(t0: Tree, ttl: Duration, es: seq<Event>, start: nat)
    ensures MetricsRuns.Handles(Ops(t0, ttl, es, start)) == Reports(es, start)
  {
    if |es| > start {
      var init := es[..|es| - 1];
      OpsHandleReports(t0, ttl, init, start);
      var ops := Ops(t0, ttl, es, start);
      assert ops[..|ops| - 1] == Ops(t0, ttl, init, start);
    }
  }

  /**
   * Over every run, by the events: each name's entry has the pod and the label of the last POST for
   * it; each label's report counter is the number of POSTs whose report has it, all of them
   * together are the POSTs, and the error counters together are the errors charged; the gauges
   * show the last probes posted.
   */
  lemma RunAccounts(t0: Tree, ttl: Duration, es: seq<Event>, start: nat)
    ensures MetricsRuns.Accounts(MetricsAfter(t0, ttl, es, start), Reports(es, start))
  {
    MetricsRunOps(t0, ttl, es, start);
    OpsHandleReports(t0, ttl, es, start);
    MetricsRuns.RunAccounts(Ops(t0, ttl, es, start));
  }

  predicate Posts(e: Event, name: string) {
    e.act.Report? && e.act.name == name
  }

  /** The last POST under a name since `start`, whatever its body. */
  function LastPost(es: seq<Event>, start: nat, name: string): (r: Option<nat>)
    ensures r.Some? ==> start <= r.value < |es| && Posts(es[r.value], name)
    ensures r.Some? ==> forall j :: r.value < j < |es| ==> !Posts(es[j], name)
    ensures r.None? ==> forall j :: start <= j < |es| ==> !Posts(es[j], name)
  {
    if |es| <= start then None
    else if Posts(es[|es| - 1], name) then Some(|es| - 1)
    else LastPost(es[..|es| - 1], start, name)
  }

  /** By the history of reports, getAgents does not return the pod. */
  ghost predicate Unheard(es: seq<Event>, ttl: Duration, now: Time, pod: string) {
    forall uptime: nat :: !OpenFor(es, ttl, now, pod, uptime)
  }

  /** Round `j`, after event `i`, lists the name while no pod of that name is heard of. */
  ghost predicate MissesAt(es: seq<Event>, ttl: Duration, name: string, i: nat, j: nat) {
    i < j < |es| && Lists(es[j], name) && Unheard(es[..j], ttl, es[j].at, name)
  }

  ghost predicate Missed(es: seq<Event>, ttl: Duration, name: string, i: nat) {
    exists j: nat :: MissesAt(es, ttl, name, i, j)
  }

  lemma MissedNext(init: seq<Event>, e: Event, ttl: Duration, name: string, i: nat)
    requires i < |init|
    ensures Missed(init + [e], ttl, name, i) <==>
      Missed(init, ttl, name, i) || (Lists(e, name) && Unheard(init, ttl, e.at, name))
  {
    var es := init + [e];
    assert es[..|init|] == init && es[|init|] == e;
    if j: nat :| MissesAt(init, ttl, name, i, j) {
      assert es[..j] == init[..j];
      assert MissesAt(es, ttl, name, i, j);
    }
    if j: nat :| MissesAt(es, ttl, name, i, j) {
      if j < |init| {
        assert es[..j] == init[..j];
        assert MissesAt(init, ttl, name, i, j);
      }
    }
    if Lists(e, name) && Unheard(init, ttl, e.at, name) {
      assert MissesAt(es, ttl, name, i, |init|);
    }
  }

  /** A name's errors, given the last POST under it. */
  ghost predicate StreakShows(s: State, es: seq<Event>, ttl: Duration, name: string, last: Option<nat>) {
    && (name in s.entries <==> last.Some?)
    && (last.Some? ==> Streak(s, name) == if Missed(es, ttl, name, last.value) then 1 else 0)
  }

  lemma StreakAfterReport(s: State, init: seq<Event>, start: nat, e: Event, ttl: Duration, name: string)
    requires StreakShows(s, init, ttl, name, LastPost(init, start, name)) && e.act.Report? && start <= |init|
    ensures StreakShows(
      Handled(s, e.act.name, Returned(e)), init + [e], ttl, name, LastPost(init + [e], start, name))
  {
    var es, last := init + [e], LastPost(init, start, name);
    assert es[..|init|] == init;
    if last.Some? {
      MissedNext(init, e, ttl, name, last.value);
    }
  }

  lemma StreakAfterRound(
      s: State, init: seq<Event>, start: nat, e: Event, ttl: Duration, name: string, absent: seq<string>)
    requires StreakShows(s, init, ttl, name, LastPost(init, start, name)) && e.act.Tick? && start <= |init|
    requires name in absent <==> Lists(e, name) && Unheard(init, ttl, e.at, name)
    ensures StreakShows(ChargeAbsent(s, absent), init + [e], ttl, name, LastPost(init + [e], start, name))
  {
    var es, last := init + [e], LastPost(init, start, name);
    assert es[..|init|] == init;
    ChargeAllAt(s, NewlyAbsent(s, absent), name);
    if last.Some? {
      MissedNext(init, e, ttl, name, last.value);
    }
  }

  /**
   * Over every run, for every name and arbitrary uptimes: since the last POST under a name, there is
   * one error if some round listed the name while no pod of that name was heard of, and none
   * otherwise; a name that no POST came under has none.
   */
  lemma {:induction false} StreaksAreMisses(t0: Tree, ttl: Duration, es: seq<Event>, start: nat, name: string)
    requires OnlyFiles(t0) && Chronological(es)
    ensures StreakShows(MetricsAfter(t0, ttl, es, start), es, ttl, name, LastPost(es, start, name))
  {
    if |es| > start {
      var n := |es| - 1;
      var init, e := es[..n], es[n];
      assert init + [e] == es;
      var s := MetricsAfter(t0, ttl, init, start);
      StreaksAreMisses(t0, ttl, init, start, name);
      match e.act {
        case Report(_, _) => StreakAfterReport(s, init, start, e, ttl, name);
        case Tick(pods) =>
          var tree := Expire(TreeAfter(t0, ttl, init), e.at);
          TreeIsHistory(t0, ttl, init, e.at, name);
          SilentIffNoneOpen(tree, init, ttl, e.at, name);
          StreakAfterRound(s, init, start, e, ttl, name, if pods.Ok? then AbsentPods(tree, pods.value) else []);
      }
    }
  }

  /** The errors in the gaps after POSTs under a name that a later POST under it has ended. */
  ghost function EndedErrors(t0: Tree, ttl: Duration, es: seq<Event>, start: nat, name: string): nat {
    if |es| <= start then 0
    else
      var init := es[..|es| - 1];
      EndedErrors(t0, ttl, init, start, name)
      + if Posts(es[|es| - 1], name) then Streak(MetricsAfter(t0, ttl, init, start), name) else 0
  }

  /** Over every run, the errors charged to a name are those of its gaps, the open one included. */
  lemma {:induction false} ChargedAreGapErrors(t0: Tree, ttl: Duration, es: seq<Event>, start: nat, name: string)
    ensures Charged(MetricsAfter(t0, ttl, es, start), name) ==
      EndedErrors(t0, ttl, es, start, name) + Streak(MetricsAfter(t0, ttl, es, start), name)
  {
    if |es| > start {
      var init, e := es[..|es| - 1], es[|es| - 1];
      var s := MetricsAfter(t0, ttl, init, start);
      ChargedAreGapErrors(t0, ttl, init, start, name);
      if e.act.Tick? {
        ChargeAllAt(s, NewlyAbsent(s, OpOf(TreeAfter(t0, ttl, es), e).absent), name);
      }
    }
  }

  /** The same for the gaps after reports with a label, under whatever name. */
  ghost function EndedErrorsUnder(t0: Tree, ttl: Duration, es: seq<Event>, start: nat, agentLabel: string): nat {
    if |es| <= start then 0
    else
      var init, e := es[..|es| - 1], es[|es| - 1];
      EndedErrorsUnder(t0, ttl, init, start, agentLabel)
      + if e.act.Report? then
          MetricsRuns.StreakUnder(MetricsAfter(t0, ttl, init, start), e.act.name, agentLabel)
        else 0
  }

  lemma {:induction false} EndedErrorsOfOps(
      t0: Tree, ttl: Duration, es: seq<Event>, start: nat, agentLabel: string)
    ensures EndedErrorsUnder(t0, ttl, es, start, agentLabel) ==
      MetricsRuns.EndedErrorsUnder(Ops(t0, ttl, es, start), agentLabel)
  {
    if |es| > start {
      var init := es[..|es| - 1];
      EndedErrorsOfOps(t0, ttl, init, start, agentLabel);
      MetricsRunOps(t0, ttl, init, start);
      var ops := Ops(t0, ttl, es, start);
      assert ops[..|ops| - 1] == Ops(t0, ttl, init, start);
    }
  }

  /** Each label's error counter is the errors in the gaps after reports with that label. */
  lemma ErrorsAreGapErrors(t0: Tree, ttl: Duration, es: seq<Event>, start: nat, agentLabel: string)
    ensures MetricsRuns.Errors(MetricsAfter(t0, ttl, es, start), agentLabel) ==
      EndedErrorsUnder(t0, ttl, es, start, agentLabel)
      + MetricsRuns.OpenErrorsUnder(MetricsAfter(t0, ttl, es, start), agentLabel)
  {
    MetricsRunOps(t0, ttl, es, start);
    EndedErrorsOfOps(t0, ttl, es, start, agentLabel);
    MetricsRuns.ErrorsAreGapErrors(Ops(t0, ttl, es, start), agentLabel);
  }
}
