/** The metrics of Kubernetes mode over whole runs, by the events themselves. */
module K8sMetrics {
  import opened Types
  import opened KubeApi
  import opened StorerK8s
  import opened Metrics
  import opened Handlers
  import opened K8sMode
  import MetricsRuns

  /** The reports of a run in order, with the names they were posted under. */
  function Reports(es: seq<Event>): seq<(string, AgentSpec)> {
    if es == [] then []
    else
      var e := es[|es| - 1];
      Reports(es[..|es| - 1]) + if e.act.Report? then [(e.act.name, Returned(e))] else []
  }

  /** A report is taken as posted, with the time of its arrival; an undecodable one as an empty one. */
  lemma ReturnedIsReport(e: Event)
    requires e.act.Report?
    ensures e.act.body.Ok? ==> IsReportOf(Returned(e), e.act.body.value, e.at)
    ensures e.act.body.Err? ==> Returned(e) == AgentSpec(0, "", "", 0, 0, 0, None, [], None)
  {
  }

  /** The operations on the metrics table that a run amounts to. */
  function Ops(s0: map<string, AgentSpec>, es: seq<Event>): seq<MetricsRuns.Op> {
    if es == [] then []
    else
      var init, e := es[..|es| - 1], es[|es| - 1];
      Ops(s0, init) + match e.act
        case Report(name, _, _) => [MetricsRuns.Handle(name, Returned(e))]
        case Request(_) => []
        case Tick => [MetricsRuns.LateRound(After(s0, init).cache, e.at)]
  }

  lemma {:induction false} MetricsRunOps(s0: map<string, AgentSpec>, es: seq<Event>)
    ensures MetricsRuns.Run(Ops(s0, es)) == After(s0, es).metrics
    ensures MetricsRuns.Handles(Ops(s0, es)) == Reports(es)
  {
    if es != [] {
      var init := es[..|es| - 1];
      MetricsRunOps(s0, init);
      var ops := Ops(s0, es);
      if es[|es| - 1].act.Request? {
        assert ops == Ops(s0, init);
      } else {
        assert ops[..|ops| - 1] == Ops(s0, init);
      }
    }
  }

  /**
   * Over every run, by the events: each name's entry has the pod and the label of the last POST for
   * it; each label's report counter is the number of POSTs whose report has it, all of them
   * together are the POSTs, and the error counters together are the errors charged; the gauges
   * show the last probes posted.
   */
  lemma RunAccounts(s0: map<string, AgentSpec>, es: seq<Event>)
    ensures MetricsRuns.Accounts(After(s0, es).metrics, Reports(es))
  {
    MetricsRunOps(s0, es);
    MetricsRuns.RunAccounts(Ops(s0, es));
  }

  /** The errors in the gaps after POSTs for a name that a later POST for it has ended. */
  function EndedErrors(s0: map<string, AgentSpec>, es: seq<Event>, name: string): nat {
    if es == [] then 0
    else
      var init := es[..|es| - 1];
      EndedErrors(s0, init, name) + if Posts(es[|es| - 1], name) then ErrorsOf(s0, init, name) else 0
  }

  /**
   * Over every run, the errors charged to a name are those of its gaps, the open one included: each
   * gap counts what stood when it ended, which only rounds with the agent watched have added to.
   */
  lemma {:induction false} ChargedAreGapErrors(s0: map<string, AgentSpec>, es: seq<Event>, name: string)
    ensures Charged(After(s0, es).metrics, name) == EndedErrors(s0, es, name) + ErrorsOf(s0, es, name)
  {
    if es != [] {
      var init, e := es[..|es| - 1], es[|es| - 1];
      var s := After(s0, init);
      ChargedAreGapErrors(s0, init, name);
      if e.act.Tick? {
        ChargeAllAt(s.metrics, LateNames(s.metrics, s.cache, e.at), name);
      }
    }
  }

  /** The same for the gaps after reports with a label, under whatever name. */
  function EndedErrorsUnder(s0: map<string, AgentSpec>, es: seq<Event>, agentLabel: string): nat {
    if es == [] then 0
    else
      var init, e := es[..|es| - 1], es[|es| - 1];
      EndedErrorsUnder(s0, init, agentLabel)
      + if e.act.Report? then MetricsRuns.StreakUnder(After(s0, init).metrics, e.act.name, agentLabel) else 0
  }

  lemma {:induction false} EndedErrorsOfOps(s0: map<string, AgentSpec>, es: seq<Event>, agentLabel: string)
    ensures EndedErrorsUnder(s0, es, agentLabel) == MetricsRuns.EndedErrorsUnder(Ops(s0, es), agentLabel)
  {
    if es != [] {
      var init := es[..|es| - 1];
      EndedErrorsOfOps(s0, init, agentLabel);
      MetricsRunOps(s0, init);
      var ops := Ops(s0, es);
      if es[|es| - 1].act.Request? {
        assert ops == Ops(s0, init);
      } else {
        assert ops[..|ops| - 1] == Ops(s0, init);
      }
    }
  }

  /** Each label's error counter is the errors in the gaps after reports with that label. */
  lemma ErrorsAreGapErrors(s0: map<string, AgentSpec>, es: seq<Event>, agentLabel: string)
    ensures MetricsRuns.Errors(After(s0, es).metrics, agentLabel) ==
      EndedErrorsUnder(s0, es, agentLabel) + MetricsRuns.OpenErrorsUnder(After(s0, es).metrics, agentLabel)
  {
    MetricsRunOps(s0, es);
    EndedErrorsOfOps(s0, es, agentLabel);
    MetricsRuns.ErrorsAreGapErrors(Ops(s0, es), agentLabel);
  }
}
