/** The server in etcd mode: store, metrics and handler together, over whole runs. */
module EtcdMode {
  import opened Types
  import opened Keys
  import opened Etcd
  import opened StorerEtcd
  import opened EtcdRuns
  import opened Metrics
  import opened Handlers
  import MetricsRuns

  /** What the store hands back for a report. */
  function Returned(e: Event): AgentSpec
    requires e.act.Report?
  {
    if e.act.body.Ok? then SpecAt(e) else EMPTY_SPEC
  }

  /** What an event does to the metrics table, given the tree as the event leaves it. */
  ghost function OpOf(tree: Tree, e: Event): MetricsRuns.Op {
    match e.act
    case Report(name, _) => MetricsRuns.Handle(name, Returned(e))
    case Tick(pods) => MetricsRuns.AbsentRound(if pods.Ok? then AbsentPods(tree, pods.value) else [])
  }

  /**
   * The metrics table after a run of which the current server process has served the events
   * from `start` on; the tree outlives a restart, the table does not.
   */
  ghost function MetricsAfter(t0: Tree, ttl: Duration, es: seq<Event>, start: nat): State {
    if |es| <= start then NO_METRICS
    else MetricsRuns.Step(
      MetricsAfter(t0, ttl, es[..|es| - 1], start), OpOf(TreeAfter(t0, ttl, es), es[|es| - 1]))
  }

  // ----- The server does what the run says -----

  class Server {
    const store: EtcdAgentStorage
    const handler: Handler

    ghost predicate Valid()
      reads store.etcd, handler.metrics, handler.metrics.registry
    {
      && store.etcd.Valid() && handler.Valid()
      && SoundTree(store.etcd.tree)
      && forall p :: p in store.etcd.tree ==> IsSegment(p)
    }

    constructor (store: EtcdAgentStorage, handler: Handler)
      requires store.etcd.Valid() && handler.Valid()
      requires SoundTree(store.etcd.tree) && forall p :: p in store.etcd.tree ==> IsSegment(p)
      ensures Valid() && this.store == store && this.handler == handler
    {
      this.store, this.handler := store, handler;
    }

    /** One event, at its time: the report handler or a round of the metrics loop. */
    method Serve(e: Event)
      requires Valid() && store.etcd.now <= e.at
      requires e.act.Report? && e.act.body.Ok? ==> IsSegment(e.act.body.value.podName)
      modifies store.etcd, handler.metrics, handler.metrics.registry
      modifies handler.metrics.registry.ownCounters, handler.metrics.registry.ownVectors
      ensures Valid() && store.etcd.now == e.at
      ensures store.etcd.tree == TreeStep(old(store.etcd.tree), store.reportTTL, e)
      ensures handler.Abstract() == MetricsRuns.Step(old(handler.Abstract()), OpOf(store.etcd.tree, e))
    {
      store.etcd.Advance(e.at);
      ExpireKeepsSound(old(store.etcd.tree), e.at);
      match e.act {
        case Report(name, body) => UpdateAgents(e, name, body);
        case Tick(pods) => Collect(pods);
      }
    }

    method UpdateAgents(ghost e: Event, agentName: string, body: Result<AgentSpec>)
      requires Valid() && e == Event(store.etcd.now, Report(agentName, body))
      requires body.Ok? ==> IsSegment(body.value.podName)
      modifies store.etcd`tree, handler.metrics, handler.metrics.registry
      modifies handler.metrics.registry.ownCounters, handler.metrics.registry.ownVectors
      ensures Valid()
      ensures store.etcd.tree ==
        if body.Ok? then ReportTree(old(store.etcd.tree), e.at, store.reportTTL, SpecAt(e)) else old(store.etcd.tree)
      ensures handler.Abstract() == Handled(old(handler.Abstract()), agentName, Returned(e))
    {
      ghost var s := handler.Abstract();
      var agentData, _ := store.UpdateAgents(body);
      assert handler.Abstract() == s;
      if body.Ok? {
        ReportKeepsSound(old(store.etcd.tree), e.at, store.reportTTL, agentData);
      }
      handler.Record(agentName, agentData);
    }

    method Collect(pods: Result<seq<string>>)
      requires Valid()
      modifies handler.metrics, handler.metrics.registry.ownCounters
      ensures Valid()
      ensures handler.Abstract() == ChargeAbsent(old(handler.Abstract()),
        if pods.Ok? then AbsentPods(store.etcd.tree, pods.value) else [])
    {
      var absent := store.CheckAgents(pods);
      var names: seq<string> := [];
      if absent.Ok? {
        names := absent.value;
      }
      handler.CollectAbsent(names);
    }

    /** OK exactly when the pods could be listed and none of them is silent. */
    method ConnectivityCheck(pods: Result<seq<string>>) returns (answer: Answer)
      requires Valid()
      ensures answer.status == STATUS_OK <==>
        pods.Ok? && forall p :: p in pods.value ==> !Silent(store.etcd.tree, p)
      ensures answer.status == STATUS_INTERNAL_SERVER_ERROR <==> pods.Err?
      ensures pods.Ok? ==> answer.absent == AbsentPods(store.etcd.tree, pods.value) && answer.outdated == []
    {
      var absent := store.CheckAgents(pods);
      var check: Result<(seq<string>, seq<string>)> := Err;
      if absent.Ok? {
        check := Ok((absent.value, []));
      }
      answer := Handlers.ConnectivityCheck(check);
      if pods.Ok? && absent.value != [] {
        assert absent.value[0] in absent.value;
      }
    }
  }

  lemma ExpireKeepsSound(tree: Tree, now: Time)
    requires SoundTree(tree)
    ensures SoundTree(Expire(tree, now))
  {
    var after := Expire(tree, now);
    forall p, k | p in after && k in Leaves(after[p]) ensures Decode.Complete(Leaves(after[p])[k].doc) {
      assert k in Leaves(tree[p]);
    }
  }

  lemma ReportKeepsSound(tree: Tree, now: Time, ttl: Duration, spec: AgentSpec)
    requires SoundTree(tree)
    ensures SoundTree(ReportTree(tree, now, ttl, spec))
  {
    var after := ReportTree(tree, now, ttl, spec);
    forall p, k | p in after && k in Leaves(after[p]) ensures Decode.Complete(Leaves(after[p])[k].doc) {
      if p in tree && k in Leaves(tree[p]) {
        assert Leaves(after[p])[k] == Leaves(tree[p])[k];
      }
    }
  }

  // ----- End to end -----

  /** A round of the metrics loop that sees the pod on the list. */
  predicate Lists(e: Event, pod: string) {
    e.act.Tick? && e.act.pods.Ok? && pod in e.act.pods.value
  }

  /** Round `j` falls into the gap after report `i`, at least a TTL into it. */
  ghost predicate Notices(es: seq<Event>, ttl: Duration, pod: string, i: nat, j: nat) {
    && i < j < |es| && Lists(es[j], pod) && es[i].at + ttl <= es[j].at
    && forall k :: i < k < j ==> !ReportsOn(es[k], pod)
  }

  /** The reports since `start` whose gap, closed by now or still open, was noticed. */
  ghost function Overdue(es: seq<Event>, start: nat, ttl: Duration, pod: string): set<nat> {
    set i: nat | start <= i < |es| && ReportsOn(es[i], pod) && exists j: nat :: Notices(es, ttl, pod, i, j)
  }

  /** The last report of a pod, if it came since `start`. */
  function LastSince(es: seq<Event>, start: nat, pod: string): (r: Option<nat>)
    ensures r.Some? <==> LastReport(es, pod).Some? && start <= LastReport(es, pod).value
    ensures r.Some? ==> r == LastReport(es, pod)
  {
    var last := LastReport(es, pod);
    if last.Some? && start <= last.value then last else None
  }

  /** Since `start`, reports posted under the name are the pod's own, and there are no others. */
  predicate OwnName(es: seq<Event>, start: nat, pod: string) {
    forall i :: start <= i < |es| && es[i].act.Report? ==> (es[i].act.name == pod <==> ReportsOn(es[i], pod))
  }

  lemma OverdueUnchanged(init: seq<Event>, start: nat, e: Event, ttl: Duration, pod: string)
    requires !Lists(e, pod)
    ensures Overdue(init + [e], start, ttl, pod) == Overdue(init, start, ttl, pod)
  {
    var es := init + [e];
    forall i: nat ensures i in Overdue(es, start, ttl, pod) <==> i in Overdue(init, start, ttl, pod) {
      if i in Overdue(es, start, ttl, pod) {
        var j: nat :| Notices(es, ttl, pod, i, j);
        assert j < |init|;
        assert forall k :: i < k < j ==> es[k] == init[k];
        assert Notices(init, ttl, pod, i, j);
      }
      if i in Overdue(init, start, ttl, pod) {
        var j: nat :| Notices(init, ttl, pod, i, j);
        assert forall k :: i < k < j ==> es[k] == init[k];
        assert Notices(es, ttl, pod, i, j);
      }
    }
  }

  lemma OverdueNoticed(init: seq<Event>, start: nat, e: Event, ttl: Duration, pod: string)
    requires Lists(e, pod)
    ensures var last := LastSince(init, start, pod);
      Overdue(init + [e], start, ttl, pod) ==
      Overdue(init, start, ttl, pod) + if last.Some? && init[last.value].at + ttl <= e.at then {last.value} else {}
  {
    var es, last, n := init + [e], LastSince(init, start, pod), |init|;
    forall i: nat
      ensures i in Overdue(es, start, ttl, pod) <==>
        i in Overdue(init, start, ttl, pod) || (last == Some(i) && init[i].at + ttl <= e.at)
    {
      if i in Overdue(es, start, ttl, pod) {
        var j: nat :| Notices(es, ttl, pod, i, j);
        assert forall k :: i < k < j ==> es[k] == init[k];
        if j < n {
          assert Notices(init, ttl, pod, i, j);
        } else {
          assert ReportsOn(init[i], pod) && LastReport(init, pod).Some?;
          assert LastReport(init, pod).value == i;
        }
      }
      if i in Overdue(init, start, ttl, pod) {
        var j: nat :| Notices(init, ttl, pod, i, j);
        assert forall k :: i < k < j ==> es[k] == init[k];
        assert Notices(es, ttl, pod, i, j);
      }
      if last == Some(i) && init[i].at + ttl <= e.at {
        assert forall k :: i < k < n ==> es[k] == init[k];
        assert Notices(es, ttl, pod, i, n);
      }
    }
  }

  /** What the metrics table knows of a pod, given its last report and its overdue reports. */
  ghost predicate Tracks(s: State, pod: string, last: Option<nat>, overdue: set<nat>) {
    && (pod in s.entries <==> last.Some?)
    && (pod in s.entries ==> s.entries[pod].errorsFromLastReport == if last.value in overdue then 1 else 0)
    && Charged(s, pod) == |overdue|
  }

  ghost predicate TracksRun(s: State, es: seq<Event>, start: nat, ttl: Duration, pod: string) {
    Tracks(s, pod, LastSince(es, start, pod), Overdue(es, start, ttl, pod))
  }

  lemma TracksReport(s: State, init: seq<Event>, start: nat, e: Event, ttl: Duration, pod: string)
    requires TracksRun(s, init, start, ttl, pod) && e.act.Report? && start <= |init|
    requires e.act.name == pod <==> ReportsOn(e, pod)
    ensures TracksRun(Handled(s, e.act.name, Returned(e)), init + [e], start, ttl, pod)
  {
    var es := init + [e];
    assert es[..|init|] == init;
    OverdueUnchanged(init, start, e, ttl, pod);
    if ReportsOn(e, pod) {
      assert LastSince(es, start, pod) == Some(|init|);
      assert |init| !in Overdue(es, start, ttl, pod);
    }
  }

  /** A round that lists the pod makes its last report overdue if that is a TTL old. */
  lemma OverdueAfterRound(init: seq<Event>, start: nat, e: Event, ttl: Duration, pod: string)
    requires e.act.Tick?
    ensures var es, last := init + [e], LastSince(init, start, pod);
      var noticed := Lists(e, pod) && last.Some? && init[last.value].at + ttl <= e.at;
      && LastSince(es, start, pod) == last
      && Overdue(es, start, ttl, pod) == Overdue(init, start, ttl, pod) + if noticed then {last.value} else {}
  {
    assert (init + [e])[..|init|] == init;
    if Lists(e, pod) {
      OverdueNoticed(init, start, e, ttl, pod);
    } else {
      OverdueUnchanged(init, start, e, ttl, pod);
    }
  }

  lemma TracksRound(s: State, pod: string, last: Option<nat>, overdue: set<nat>, absent: seq<string>, noticed: bool)
    requires Tracks(s, pod, last, overdue)
    requires last.Some? ==> (noticed <==> pod in absent)
    ensures Tracks(ChargeAbsent(s, absent), pod, last, overdue + if noticed && last.Some? then {last.value} else {})
  {
    ChargeAllAt(s, NewlyAbsent(s, absent), pod);
    if noticed && last.Some? && last.value in overdue {
      assert overdue + {last.value} == overdue;
    }
  }

  lemma TracksTick(t0: Tree, ttl: Duration, s: State, init: seq<Event>, start: nat, e: Event, pod: string)
    requires OnlyFiles(t0) && Chronological(init) && Reaches(init, e.at) && Increasing(init, pod)
    requires e.act.Tick? && TracksRun(s, init, start, ttl, pod)
    ensures TracksRun(
      MetricsRuns.Step(s, OpOf(Expire(TreeAfter(t0, ttl, init), e.at), e)), init + [e], start, ttl, pod)
  {
    var last := LastSince(init, start, pod);
    var noticed := Lists(e, pod) && last.Some? && init[last.value].at + ttl <= e.at;
    LastRecordIsHighest(t0, ttl, init, e.at, pod);
    var absent := OpOf(Expire(TreeAfter(t0, ttl, init), e.at), e).absent;
    TracksRound(s, pod, last, Overdue(init, start, ttl, pod), absent, noticed);
    OverdueAfterRound(init, start, e, ttl, pod);
  }

  lemma {:induction false} MetricsTrackPod(t0: Tree, ttl: Duration, es: seq<Event>, start: nat, pod: string)
    requires OnlyFiles(t0) && Chronological(es) && OwnName(es, start, pod) && Increasing(es, pod)
    ensures TracksRun(MetricsAfter(t0, ttl, es, start), es, start, ttl, pod)
  {
    if |es| <= start {
      assert Overdue(es, start, ttl, pod) == {};
    } else {
      var n := |es| - 1;
      var init, e := es[..n], es[n];
      assert init + [e] == es;
      MetricsTrackPod(t0, ttl, init, start, pod);
      if e.act.Report? {
        TracksReport(MetricsAfter(t0, ttl, init, start), init, start, e, ttl, pod);
      } else {
        TracksTick(t0, ttl, MetricsAfter(t0, ttl, init, start), init, start, e, pod);
      }
    }
  }

  /**
   * End to end: over every run, the errors a server process counted against a pod are the pod's
   * reports to it whose gap was noticed, the open gap included: those after which some round
   * lists the pod, at least a TTL later and before the next report. What happened before the
   * process started may still be in the tree, and other pods may do what they like.
   */
  lemma ErrorsAreNoticedGaps(t0: Tree, ttl: Duration, es: seq<Event>, start: nat, pod: string)
    requires OnlyFiles(t0) && Chronological(es) && OwnName(es, start, pod) && Increasing(es, pod)
    ensures Charged(MetricsAfter(t0, ttl, es, start), pod) == |Overdue(es, start, ttl, pod)|
  {
    MetricsTrackPod(t0, ttl, es, start, pod);
  }

  /** The operations on the metrics table that a run amounts to. */
  ghost function Ops(t0: Tree, ttl: Duration, es: seq<Event>, start: nat): seq<MetricsRuns.Op> {
    if |es| <= start then []
    else Ops(t0, ttl, es[..|es| - 1], start) + [OpOf(TreeAfter(t0, ttl, es), es[|es| - 1])]
  }

  lemma {:induction false} MetricsRunOps(t0: Tree, ttl: Duration, es: seq<Event>, start: nat)
    ensures MetricsRuns.Run(Ops(t0, ttl, es, start)) == MetricsAfter(t0, ttl, es, start)
  {
    if |es| > start {
      var n := |es| - 1;
      MetricsRunOps(t0, ttl, es[..n], start);
      var ops := Ops(t0, ttl, es, start);
      assert ops[..|ops| - 1] == Ops(t0, ttl, es[..n], start);
    }
  }

  /** Since `start` the label is this pod's alone: all its reports carry it and no other does. */
  predicate OwnLabel(es: seq<Event>, start: nat, pod: string, agentLabel: string) {
    forall i :: start <= i < |es| && es[i].act.Report? ==>
      (es[i].act.name == pod <==> Label(Returned(es[i])) == agentLabel)
  }

  lemma {:induction false} OwnLabelMeansSoleBearer(
      t0: Tree, ttl: Duration, es: seq<Event>, start: nat, pod: string, agentLabel: string)
    requires OwnLabel(es, start, pod, agentLabel)
    ensures MetricsRuns.SoleBearer(Ops(t0, ttl, es, start), pod, agentLabel)
  {
    if |es| > start {
      OwnLabelMeansSoleBearer(t0, ttl, es[..|es| - 1], start, pod, agentLabel);
    }
  }

  /** Then the exported counter `ncagent_error_count_total` counts exactly those gaps. */
  lemma ErrorCounterIsNoticedGaps(
      t0: Tree, ttl: Duration, es: seq<Event>, start: nat, pod: string, agentLabel: string)
    requires OnlyFiles(t0) && Chronological(es) && OwnName(es, start, pod) && Increasing(es, pod)
    requires OwnLabel(es, start, pod, agentLabel)
    ensures MetricsRuns.Errors(MetricsAfter(t0, ttl, es, start), agentLabel) == |Overdue(es, start, ttl, pod)|
  {
    ErrorsAreNoticedGaps(t0, ttl, es, start, pod);
    MetricsRunOps(t0, ttl, es, start);
    OwnLabelMeansSoleBearer(t0, ttl, es, start, pod, agentLabel);
    MetricsRuns.SoleBearerOwnsCounter(Ops(t0, ttl, es, start), pod, agentLabel);
  }

  /** The pod's last report is younger than the TTL. */
  predicate ReportedLately(es: seq<Event>, ttl: Duration, now: Time, pod: string) {
    Young(es, ttl, now, LastReport(es, pod))
  }

  lemma AbsentAreLate(tree: Tree, es: seq<Event>, ttl: Duration, now: Time, pods: seq<string>)
    requires forall p :: p in pods ==> (Silent(tree, p) <==> !ReportedLately(es, ttl, now, p))
    ensures AbsentPods(tree, pods) == Select(pods, set p | p in pods && !ReportedLately(es, ttl, now, p))
  {
    var late := set p | p in pods && !ReportedLately(es, ttl, now, p);
    assert late == set p | p in pods && Silent(tree, p);
    assert AbsentPods(tree, pods) == Select(pods, late);
  }

  /**
   * After any run, the absent pods are, in order, the listed ones whose last report is not young;
   * so the check answers OK exactly when every listed pod reported within the TTL.
   */
  lemma CheckPassesIffAllReported(t0: Tree, ttl: Duration, es: seq<Event>, now: Time, pods: seq<string>)
    requires OnlyFiles(t0) && Chronological(es) && Reaches(es, now)
    requires forall p :: p in pods ==> Increasing(es, p)
    ensures AbsentPods(Expire(TreeAfter(t0, ttl, es), now), pods) ==
      Select(pods, set p | p in pods && !ReportedLately(es, ttl, now, p))
    ensures AbsentPods(Expire(TreeAfter(t0, ttl, es), now), pods) == [] <==>
      forall p :: p in pods ==> ReportedLately(es, ttl, now, p)
  {
    var tree := Expire(TreeAfter(t0, ttl, es), now);
    forall p | p in pods ensures Silent(tree, p) <==> !ReportedLately(es, ttl, now, p) {
      LastRecordIsHighest(t0, ttl, es, now, p);
    }
    AbsentAreLate(tree, es, ttl, now, pods);
    if AbsentPods(tree, pods) != [] {
      var p := AbsentPods(tree, pods)[0];
      assert p in AbsentPods(tree, pods);
    }
  }

  /** With arbitrary uptimes, the absent pods are the listed ones without an open window. */
  lemma AbsentHaveNoneOpen(t0: Tree, ttl: Duration, es: seq<Event>, now: Time, pods: seq<string>)
    requires OnlyFiles(t0) && Chronological(es) && Reaches(es, now)
    ensures AbsentPods(Expire(TreeAfter(t0, ttl, es), now), pods) ==
      Select(pods, set p | p in pods && forall uptime: nat :: !OpenFor(es, ttl, now, p, uptime))
  {
    var tree := Expire(TreeAfter(t0, ttl, es), now);
    forall p ensures Silent(tree, p) <==> forall uptime: nat :: !OpenFor(es, ttl, now, p, uptime) {
      TreeIsHistory(t0, ttl, es, now, p);
      SilentIffNoneOpen(tree, es, ttl, now, p);
    }
    assert (set p | p in pods && Silent(tree, p)) ==
      set p | p in pods && forall uptime: nat :: !OpenFor(es, ttl, now, p, uptime);
  }
}
