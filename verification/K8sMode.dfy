/** The server in Kubernetes mode: store, cache, metrics and handler together, over whole runs. */
module K8sMode {
  import opened Types
  import opened Arithmetic
  import opened KubeApi
  import opened StorerK8s
  import opened Metrics
  import opened Handlers

  /** A POST to an agent's URL, any request that cleans the cache first, or a round of the metrics loop. */
  datatype Act =
    | Report(name: string, body: Result<AgentSpec>, pods: PodList)
    | Request(pods: PodList)
    | Tick

  /** `calls` is how the calls to the API server came off, where the event makes any. */
  datatype Event = Event(at: Time, act: Act, calls: Calls)

  datatype Snapshot = Snapshot(store: map<string, AgentSpec>, cache: Cache, metrics: State)

  function Returned(e: Event): AgentSpec
    requires e.act.Report?
  {
    if e.act.body.Ok? then Stamped(e.act.body.value, e.at) else EMPTY_SPEC
  }

  function Step(s: Snapshot, e: Event): Snapshot {
    match e.act
    case Report(name, body, pods) =>
      var spec := Returned(e);
      var metrics := Handled(s.metrics, name, spec);
      if body.Err? then s.(metrics := metrics)
      else Snapshot(
        if Writes(name in s.store, e.calls) then s.store[name := spec] else s.store,
        Remembered(s.cache, name in s.store, name, spec, pods, e.calls),
        metrics)
    case Request(pods) => s.(cache := Cleaned(s.cache, pods))
    case Tick => s.(metrics := ChargeLate(s.metrics, s.cache, e.at))
  }

  /** A run of one server process, which starts with the stored agents that earlier ones left. */
  function After(s0: map<string, AgentSpec>, es: seq<Event>): Snapshot {
    if es == [] then Snapshot(s0, map[], NO_METRICS) else Step(After(s0, es[..|es| - 1]), es[|es| - 1])
  }

  function SpecsOf(store: Store): map<string, AgentSpec> {
    map n | n in store :: store[n].spec
  }

  // ----- The server does what the run says -----

  class Server {
    const store: K8sAgentStorage
    const handler: Handler

    ghost predicate Valid()
      reads handler.metrics, handler.metrics.registry
    {
      handler.Valid()
    }

    ghost function Abstract(): Snapshot
      requires Valid()
      reads store, store.client, handler.metrics, handler.metrics.registry
      reads handler.metrics.registry.ownCounters, handler.metrics.registry.ownVectors
    {
      Snapshot(SpecsOf(store.client.store), store.ncAgentCache, handler.Abstract())
    }

    constructor (store: K8sAgentStorage, handler: Handler)
      requires handler.Valid()
      ensures Valid() && this.store == store && this.handler == handler
    {
      this.store, this.handler := store, handler;
    }

    /** One event; the API server may be up or down, and `calls` is how its calls came off. */
    method Serve(at: Time, act: Act) returns (ghost calls: Calls)
      requires Valid()
      modifies store, store.client`store, store.client`next, store.client`writes
      modifies handler.metrics, handler.metrics.registry, handler.metrics.registry.ownCounters
      modifies handler.metrics.registry.ownVectors
      ensures Valid() && Abstract() == Step(old(Abstract()), Event(at, act, calls))
      ensures store.client.up ==> calls == ANSWERED
    {
      calls := ANSWERED;
      match act {
        case Report(name, body, pods) => calls := UpdateAgents(name, body, pods, at);
        case Request(pods) => var _ := store.CleanCacheOnDemand(pods);
        case Tick => handler.CollectLate(store.ncAgentCache, at);
      }
    }

    method UpdateAgents(name: string, body: Result<AgentSpec>, pods: PodList, now: Time) returns (ghost calls: Calls)
      requires Valid()
      modifies store, store.client`store, store.client`next, store.client`writes
      modifies handler.metrics, handler.metrics.registry, handler.metrics.registry.ownCounters
      modifies handler.metrics.registry.ownVectors
      ensures Valid()
      ensures var next := Step(old(Abstract()), Event(now, Report(name, body, pods), calls));
        && SpecsOf(store.client.store) == next.store && store.ncAgentCache == next.cache
        && handler.Abstract() == next.metrics
      ensures store.client.up ==> calls == ANSWERED
    {
      ghost var s := Abstract();
      var agentData, outcome := StoreReport(name, body, pods, now);
      calls := outcome;
      assert handler.Abstract() == s.metrics;
      handler.Record(name, agentData);
    }

    /** The store's half of a report. */
    method StoreReport(name: string, body: Result<AgentSpec>, pods: PodList, now: Time)
      returns (agentData: AgentSpec, ghost calls: Calls)
      modifies store, store.client`store, store.client`next, store.client`writes
      ensures agentData == Returned(Event(now, Report(name, body, pods), calls))
      ensures var known := name in SpecsOf(old(store.client.store));
        SpecsOf(store.client.store) ==
          if body.Ok? && Writes(known, calls) then SpecsOf(old(store.client.store))[name := agentData]
          else SpecsOf(old(store.client.store))
      ensures var known := name in SpecsOf(old(store.client.store));
        store.ncAgentCache ==
          if body.Ok? then Remembered(old(store.ncAgentCache), known, name, agentData, pods, calls)
          else old(store.ncAgentCache)
      ensures store.client.up ==> calls == ANSWERED
    {
      var returned, _, outcome := store.UpdateAgents(name, body, now, pods);
      agentData, calls := returned, outcome;
    }

    /**
     * The connectivity check after the cleaning that goes before it; each lists the pods anew. A
     * cleaning that cannot list them has fixed the status when the check begins. Else, with calls
     * answered, it is OK exactly when every listed pod has a report no older than two intervals.
     */
    method ConnectivityCheck(cleaning: PodList, pods: PodList, now: Time) returns (answer: Answer)
      modifies store`ncAgentCache
      ensures store.ncAgentCache == Cleaned(old(store.ncAgentCache), cleaning)
      ensures cleaning.ListError? || pods.ListError? ==> answer.status == STATUS_INTERNAL_SERVER_ERROR
      ensures !cleaning.ListError? && pods.NoClient? ==> answer.status == STATUS_OK
      ensures !pods.Listed? ==> answer.absent == [] && answer.outdated == []
      ensures !cleaning.ListError? && pods.Listed? && store.client.up ==>
        (answer.status == STATUS_OK <==>
          forall p :: p in pods.names ==> Classify(Lookup(store.client.store, p), now) == Fresh)
      ensures pods.Listed? && answer.status == STATUS_OK ==>
        forall p :: p in pods.names ==> Classify(Lookup(store.client.store, p), now) == Fresh
      ensures pods.Listed? && store.client.up ==>
        && answer.absent == Select(pods.names, set p | p in pods.names && p !in store.client.store)
        && answer.outdated == Select(pods.names, set p | p in pods.names && p in store.client.store
             && now - store.client.store[p].spec.lastUpdated > 2 * store.client.store[p].spec.reportInterval * SECOND)
      ensures !cleaning.ListError? && pods.Listed? && store.client.up ==>
        answer.status == if answer.absent == [] && answer.outdated == [] then STATUS_OK else STATUS_BAD_REQUEST
    {
      var failed := store.CleanCacheOnDemand(cleaning);
      var check, answers := store.CheckAgents(pods, now);
      answer := Handlers.ConnectivityCheck(check);
      if pods.Listed? && check.Ok? {
        NoneSelectedIffFresh(pods.names, Classes(answers, now));
        forall i | 0 <= i < |answers|
          ensures Classes(answers, now)[i] == Classify(Lookup(store.client.store, pods.names[i]), now)
        {
        }
      }
      if failed {
        answer := answer.(status := STATUS_INTERNAL_SERVER_ERROR);
      }
    }
  }

  lemma NoneSelectedIffFresh(pods: seq<string>, classes: seq<Class>)
    requires |classes| == |pods| && Broken !in classes
    ensures
      && StorerK8s.At(pods, Positions(classes, Absent)) == []
      && StorerK8s.At(pods, Positions(classes, Outdated)) == [] <==>
      forall i :: 0 <= i < |classes| ==> classes[i] == Fresh
  {
    NoPositions(classes, Absent);
    NoPositions(classes, Outdated);
    assert |StorerK8s.At(pods, Positions(classes, Absent))| == |Positions(classes, Absent)|;
    assert |StorerK8s.At(pods, Positions(classes, Outdated))| == |Positions(classes, Outdated)|;
    if Absent !in classes && Outdated !in classes {
      forall i | 0 <= i < |classes| ensures classes[i] == Fresh {
        assert classes[i] in classes;
      }
    }
  }

  // ----- The cache against the store, over runs in which any call may fail -----

  predicate Posts(e: Event, name: string) {
    e.act.Report? && e.act.name == name
  }

  /** A report the server could decode, for this name. */
  predicate Delivers(e: Event, name: string) {
    Posts(e, name) && e.act.body.Ok?
  }

  function LastDelivery(es: seq<Event>, name: string): (r: Option<nat>)
    ensures r.None? ==> forall i :: 0 <= i < |es| ==> !Delivers(es[i], name)
    ensures r.Some? ==>
      && r.value < |es| && Delivers(es[r.value], name)
      && forall i :: r.value < i < |es| ==> !Delivers(es[i], name)
  {
    if es == [] then None
    else if Delivers(es[|es| - 1], name) then Some(|es| - 1)
    else LastDelivery(es[..|es| - 1], name)
  }

  /** The last report of a name that got into the store, whether or not the server was told. */
  function LastStored(s0: map<string, AgentSpec>, es: seq<Event>, name: string): (r: Option<nat>)
    ensures r.Some? ==> r.value < |es| && Delivers(es[r.value], name)
  {
    if es == [] then None
    else
      var n := |es| - 1;
      var before := LastStored(s0, es[..n], name);
      var calls := es[n].calls;
      if Delivers(es[n], name) && (calls.got || name in s0 || before.Some?) && !calls.write.Dropped? then Some(n)
      else before
  }

  /** The name is in the store after these events. */
  predicate Known(s0: map<string, AgentSpec>, es: seq<Event>, name: string) {
    name in s0 || LastStored(s0, es, name).Some?
  }

  /** The server was told that the report at `i` is stored. */
  predicate Landed(s0: map<string, AgentSpec>, es: seq<Event>, i: nat)
    requires i < |es| && es[i].act.Report?
  {
    (es[i].calls.got || Known(s0, es[..i], es[i].act.name)) && es[i].calls.write.Answered?
  }

  /** The pod list an event cleans the cache against: a request's, or that of a report found to be new. */
  function CleansWith(s0: map<string, AgentSpec>, es: seq<Event>, j: nat): PodList
    requires j < |es|
  {
    match es[j].act
    case Request(pods) => pods
    case Report(name, body, pods) =>
      if body.Ok? && es[j].calls.got && !Known(s0, es[..j], name) then pods else NoClient
    case Tick => NoClient
  }

  predicate Drops(s0: map<string, AgentSpec>, es: seq<Event>, j: nat, name: string)
    requires j < |es|
  {
    CleansWith(s0, es, j).Listed? && name !in CleansWith(s0, es, j).names
  }

  /** The name has a cache entry: that of its last report, unless a later cleaning dropped it. */
  ghost predicate Cached(s0: map<string, AgentSpec>, es: seq<Event>, name: string) {
    var last := LastDelivery(es, name);
    last.Some? && forall j :: last.value < j < |es| ==> !Drops(s0, es, j, name)
  }

  lemma CachedNext(s0: map<string, AgentSpec>, init: seq<Event>, e: Event, name: string)
    ensures var es := init + [e];
      Cached(s0, es, name) <==> Delivers(e, name) || (Cached(s0, init, name) && !Drops(s0, es, |init|, name))
  {
    var es := init + [e];
    assert es[..|init|] == init;
    forall j: nat | j < |init| ensures Drops(s0, es, j, name) == Drops(s0, init, j, name) {
      assert es[..j] == init[..j];
    }
    if !Delivers(e, name) && Cached(s0, es, name) {
      var last := LastDelivery(init, name).value;
      forall j | last < j < |init| ensures !Drops(s0, init, j, name) {
        assert !Drops(s0, es, j, name);
      }
      assert !Drops(s0, es, |init|, name);
    }
  }

  /** What the history says of a name's stored record. */
  predicate StoreMatches(s: Snapshot, s0: map<string, AgentSpec>, es: seq<Event>, name: string) {
    var stored := LastStored(s0, es, name);
    && (name in s.store <==> Known(s0, es, name))
    && (name in s.store ==>
          if stored.Some? then IsReportOf(s.store[name], es[stored.value].act.body.value, es[stored.value].at)
          else s.store[name] == s0[name])
  }

  /** And of its cache entry. */
  ghost predicate CacheMatches(s: Snapshot, s0: map<string, AgentSpec>, es: seq<Event>, name: string) {
    var last := LastDelivery(es, name);
    && (name in s.cache <==> Cached(s0, es, name))
    && (name in s.cache ==>
          if Landed(s0, es, last.value) then
            IsReportOf(s.cache[name], es[last.value].act.body.value, es[last.value].at)
          else s.cache[name] == EMPTY_SPEC)
    && (last.Some? && Landed(s0, es, last.value) ==> LastStored(s0, es, name) == last)
  }

  lemma LastStoredNext(s0: map<string, AgentSpec>, init: seq<Event>, e: Event, name: string)
    ensures LastStored(s0, init + [e], name) ==
      if Delivers(e, name) && (e.calls.got || Known(s0, init, name)) && !e.calls.write.Dropped? then Some(|init|)
      else LastStored(s0, init, name)
    ensures LastDelivery(init + [e], name) == if Delivers(e, name) then Some(|init|) else LastDelivery(init, name)
  {
    assert (init + [e])[..|init|] == init;
  }

  lemma StoreMatchesNext(s: Snapshot, s0: map<string, AgentSpec>, init: seq<Event>, e: Event, name: string)
    requires StoreMatches(s, s0, init, name)
    ensures StoreMatches(Step(s, e), s0, init + [e], name)
  {
    LastStoredNext(s0, init, e, name);
  }

  lemma CacheMatchesNext(s: Snapshot, s0: map<string, AgentSpec>, init: seq<Event>, e: Event, name: string)
    requires CacheMatches(s, s0, init, name)
    requires e.act.Report? ==> (e.act.name in s.store <==> Known(s0, init, e.act.name))
    ensures CacheMatches(Step(s, e), s0, init + [e], name)
  {
    var es := init + [e];
    assert es[..|init|] == init;
    LastStoredNext(s0, init, e, name);
    CachedNext(s0, init, e, name);
    var last := LastDelivery(init, name);
    if last.Some? {
      assert es[..last.value] == init[..last.value];
    }
  }

  /**
   * Over every run, whatever calls fail: the store holds each name's last report that got there,
   * as it was posted and with the time of its arrival, or what it held at the start for want of
   * one; the cache has an entry for exactly the names that have reported and that no cleaning
   * since then has dropped, and it is the last report if the server was told that it is stored,
   * and the empty spec otherwise.
   */
  lemma {:induction false} CacheAndStoreAreHistory(s0: map<string, AgentSpec>, es: seq<Event>, name: string)
    ensures StoreMatches(After(s0, es), s0, es, name) && CacheMatches(After(s0, es), s0, es, name)
  {
    if es != [] {
      var n := |es| - 1;
      var init, e := es[..n], es[n];
      assert init + [e] == es;
      CacheAndStoreAreHistory(s0, init, name);
      if e.act.Report? {
        CacheAndStoreAreHistory(s0, init, e.act.name);
      }
      StoreMatchesNext(After(s0, init), s0, init, e, name);
      CacheMatchesNext(After(s0, init), s0, init, e, name);
    }
  }

  lemma {:induction false} AnsweredReportsLand(s0: map<string, AgentSpec>, es: seq<Event>, name: string)
    requires forall i :: 0 <= i < |es| ==> es[i].calls == ANSWERED
    ensures LastStored(s0, es, name) == LastDelivery(es, name)
  {
    if es != [] {
      AnsweredReportsLand(s0, es[..|es| - 1], name);
    }
  }

  /**
   * A cached spec that is not the mark of a failed call is what the store holds. With every call
   * answered, the store holds each last report, and the cache the same for every name it has.
   */
  lemma CacheAgreesWithStore(s0: map<string, AgentSpec>, es: seq<Event>, name: string)
    ensures var s := After(s0, es);
      name in s.cache && s.cache[name] != EMPTY_SPEC ==> name in s.store && s.cache[name] == s.store[name]
    ensures (forall i :: 0 <= i < |es| ==> es[i].calls == ANSWERED) ==>
      var s, last := After(s0, es), LastDelivery(es, name);
      && (name in s.store <==> last.Some? || name in s0)
      && (name in s.store ==>
            if last.Some? then IsReportOf(s.store[name], es[last.value].act.body.value, es[last.value].at)
            else s.store[name] == s0[name])
      && (name in s.cache <==> Cached(s0, es, name))
      && (name in s.cache ==> name in s.store && s.cache[name] == s.store[name])
  {
    CacheAndStoreAreHistory(s0, es, name);
    if forall i :: 0 <= i < |es| ==> es[i].calls == ANSWERED {
      AnsweredReportsLand(s0, es, name);
    }
  }

  // ----- The errors of a cached agent in closed form -----

  /** The rounds since the last POST for a name, whether or not it could be decoded. */
  function TicksSince(es: seq<Event>, name: string): seq<Time> {
    if es == [] then []
    else
      var e := es[|es| - 1];
      if Posts(e, name) then []
      else TicksSince(es[..|es| - 1], name) + if e.act.Tick? then [e.at] else []
  }

  predicate Chronological(es: seq<Event>) {
    forall i, j :: 0 <= i < j < |es| ==> es[i].at <= es[j].at
  }

  /** The errors an agent is due at time `t`: whole intervals since its report, less one. */
  function Due(t: Time, updated: Time, interval: Duration): nat {
    var intervals := (t - updated) / interval;
    if intervals > 1 then intervals - 1 else 0
  }

  /** `e` is the least of |ticks| and, for each round j, the errors due then plus the rounds after it. */
  predicate ClosedForm(e: int, ticks: seq<Time>, updated: Time, interval: Duration) {
    var n := |ticks|;
    && 0 <= e <= n
    && (forall j :: 0 <= j < n ==> e <= Due(ticks[j], updated, interval) + (n - 1 - j))
    && (e == n || exists j :: 0 <= j < n && e == Due(ticks[j], updated, interval) + (n - 1 - j))
  }

  predicate Ascending(ticks: seq<Time>, from: Time, to: Time) {
    && from <= to
    && (forall j :: 0 <= j < |ticks| ==> from <= ticks[j] <= to)
    && (forall i, j :: 0 <= i < j < |ticks| ==> ticks[i] <= ticks[j])
  }

  lemma DueMonotone(t: Time, t': Time, updated: Time, interval: Duration)
    requires t <= t'
    ensures Due(t, updated, interval) <= Due(t', updated, interval)
  {
    DivMonotone(t - updated, t' - updated, interval);
  }

  /** One more round charges the agent if it owes more than it was charged. */
  lemma ClosedFormNext(e: int, ticks: seq<Time>, updated: Time, interval: Duration, t: Time)
    requires ClosedForm(e, ticks, updated, interval) && Ascending(ticks, updated, t)
    ensures ClosedForm(if Due(t, updated, interval) > e then e + 1 else e, ticks + [t], updated, interval)
  {
    var n, all := |ticks|, ticks + [t];
    assert forall j :: 0 <= j < n ==> all[j] == ticks[j];
    assert all[n] == t;
    if n > 0 {
      DueMonotone(ticks[n - 1], t, updated, interval);
      assert e <= Due(ticks[n - 1], updated, interval) + (n - 1 - (n - 1));
    }
    if Due(t, updated, interval) > e && e != n {
      var j :| 0 <= j < n && e == Due(ticks[j], updated, interval) + (n - 1 - j);
      assert e + 1 == Due(all[j], updated, interval) + (n - j);
    }
    if Due(t, updated, interval) <= e {
      assert e == Due(all[n], updated, interval) + (n - n);
    }
  }

  lemma LateIffDue(spec: AgentSpec, now: Time, errors: int)
    requires spec.reportInterval > 0 && spec.lastUpdated <= now && errors >= 0
    ensures Intervals(spec, now) > errors + 1 <==> Due(now, spec.lastUpdated, spec.reportInterval * SECOND) > errors
  {
  }

  /** An event that is no POST for the name charges it at most, and only in a round. */
  lemma OtherEvents(s: Snapshot, e: Event, name: string)
    requires !Posts(e, name) && name in s.metrics.entries && name in Step(s, e).cache
    ensures name in s.cache && Step(s, e).cache[name] == s.cache[name]
    ensures name in Step(s, e).metrics.entries
    ensures Step(s, e).metrics.entries[name].errorsFromLastReport ==
      s.metrics.entries[name].errorsFromLastReport
      + if e.act.Tick? && Late(s.metrics, s.cache, e.at, name) then 1 else 0
  {
  }

  /** The rounds since the last POST account for the agent's errors. */
  ghost predicate Accounted(s: Snapshot, name: string, ticks: seq<Time>, now: Time, spec: AgentSpec)
    requires spec.reportInterval > 0
  {
    && name in s.metrics.entries
    && ClosedForm(s.metrics.entries[name].errorsFromLastReport, ticks, spec.lastUpdated, spec.reportInterval * SECOND)
    && Ascending(ticks, spec.lastUpdated, now)
  }

  lemma AccountedNext(s: Snapshot, e: Event, name: string, ticks: seq<Time>, now: Time)
    requires name in s.cache && s.cache[name].reportInterval > 0 && now <= e.at
    requires Accounted(s, name, ticks, now, s.cache[name])
    requires !Posts(e, name) && name in Step(s, e).cache
    ensures Accounted(Step(s, e), name, ticks + if e.act.Tick? then [e.at] else [], e.at, s.cache[name])
  {
    var spec, errors := s.cache[name], s.metrics.entries[name].errorsFromLastReport;
    OtherEvents(s, e, name);
    if e.act.Tick? {
      LateIffDue(spec, e.at, errors);
      ClosedFormNext(errors, ticks, spec.lastUpdated, spec.reportInterval * SECOND, e.at);
    } else {
      assert ticks + [] == ticks;
    }
  }

  /** A cached name was cached before, unless the event delivers its report. */
  lemma StillCached(s: Snapshot, e: Event, name: string)
    requires !Delivers(e, name) && name in Step(s, e).cache
    ensures name in s.cache && Step(s, e).cache[name] == s.cache[name]
  {
  }

  /** A POST for the name starts the account anew, with the report it delivers or the old one. */
  lemma AccountedAnew(s: Snapshot, e: Event, name: string)
    requires Posts(e, name) && name in Step(s, e).cache && Step(s, e).cache[name].reportInterval > 0
    requires !Delivers(e, name) ==> Step(s, e).cache[name].lastUpdated <= e.at
    ensures Accounted(Step(s, e), name, [], e.at, Step(s, e).cache[name])
  {
  }

  lemma {:induction false} ErrorsAccounted(s0: map<string, AgentSpec>, es: seq<Event>, name: string)
    requires Chronological(es) && name in After(s0, es).cache && After(s0, es).cache[name].reportInterval > 0
    ensures Accounted(After(s0, es), name, TicksSince(es, name), es[|es| - 1].at, After(s0, es).cache[name])
  {
    var n := |es| - 1;
    var init, e := es[..n], es[n];
    var s := After(s0, init);
    assert After(s0, es) == Step(s, e);
    if !Delivers(e, name) {
      StillCached(s, e, name);
      ErrorsAccounted(s0, init, name);
    }
    if Posts(e, name) {
      AccountedAnew(s, e, name);
    } else {
      AccountedNext(s, e, name, TicksSince(init, name), init[n - 1].at);
    }
  }

  /** The last report of a name. */
  function LastReport(es: seq<Event>, name: string): AgentSpec
    requires LastDelivery(es, name).Some?
  {
    es[LastDelivery(es, name).value].act.body.value
  }

  /** When it arrived. */
  function ArrivedAt(es: seq<Event>, name: string): Time
    requires LastDelivery(es, name).Some?
  {
    es[LastDelivery(es, name).value].at
  }

  /**
   * The metrics loop watches an agent: its last report, with a positive interval, was confirmed
   * to be stored and has not been dropped from the cache since.
   */
  ghost predicate Watched(s0: map<string, AgentSpec>, es: seq<Event>, name: string) {
    Cached(s0, es, name) && Landed(s0, es, LastDelivery(es, name).value) && LastReport(es, name).reportInterval > 0
  }

  /** The agent's errors after a run. */
  function ErrorsOf(s0: map<string, AgentSpec>, es: seq<Event>, name: string): nat {
    Streak(After(s0, es).metrics, name)
  }

  /**
   * Over every run, while an agent is watched, its errors after n rounds since the last POST for
   * it are the least of n and of the errors due at any of these rounds plus the rounds after that
   * one: never more than one a round, never more than are due since the report arrived.
   */
  lemma ErrorsInClosedForm(s0: map<string, AgentSpec>, es: seq<Event>, name: string)
    requires Chronological(es) && Watched(s0, es, name)
    ensures ClosedForm(ErrorsOf(s0, es, name), TicksSince(es, name),
      ArrivedAt(es, name), LastReport(es, name).reportInterval * SECOND)
  {
    CacheAndStoreAreHistory(s0, es, name);
    ErrorsAccounted(s0, es, name);
  }

  /** The rounds come at most one interval apart, the first within one interval of the report. */
  predicate Frequent(ticks: seq<Time>, updated: Time, interval: Duration) {
    && (|ticks| > 0 ==> ticks[0] <= updated + interval)
    && forall j :: 0 < j < |ticks| ==> ticks[j] <= ticks[j - 1] + interval
  }

  lemma DueStep(t: Time, t': Time, updated: Time, interval: Duration)
    requires t' <= t + interval
    ensures Due(t', updated, interval) <= Due(t, updated, interval) + 1
  {
    var a := t - updated;
    DivMonotone(t' - updated, a + interval, interval);
    DivNext(a, interval);
  }

  lemma {:induction false} DueSteps(ticks: seq<Time>, updated: Time, interval: Duration, i: nat, j: nat)
    requires Frequent(ticks, updated, interval) && i <= j < |ticks|
    ensures Due(ticks[j], updated, interval) <= Due(ticks[i], updated, interval) + (j - i)
  {
    if i < j {
      DueSteps(ticks, updated, interval, i, j - 1);
      DueStep(ticks[j - 1], ticks[j], updated, interval);
    }
  }

  /** The count is exact just when what is due has never outrun the rounds. */
  lemma ExactIffDueKeptUp(e: int, ticks: seq<Time>, updated: Time, interval: Duration)
    requires ClosedForm(e, ticks, updated, interval) && ticks != []
    ensures var n := |ticks|;
      var due := Due(ticks[n - 1], updated, interval);
      e == due <==> due <= n && forall j :: 0 <= j < n ==> due <= Due(ticks[j], updated, interval) + (n - 1 - j)
  {
    var n := |ticks|;
    assert e <= Due(ticks[n - 1], updated, interval) + (n - 1 - (n - 1));
  }

  lemma FrequentKeepsUp(ticks: seq<Time>, updated: Time, interval: Duration)
    requires Frequent(ticks, updated, interval) && ticks != []
    ensures var n := |ticks|;
      var due := Due(ticks[n - 1], updated, interval);
      due <= n && forall j :: 0 <= j < n ==> due <= Due(ticks[j], updated, interval) + (n - 1 - j)
  {
    var n := |ticks|;
    DivMonotone(ticks[0] - updated, interval, interval);
    DivNext(0, interval);
    DueSteps(ticks, updated, interval, 0, n - 1);
    forall j | 0 <= j < n
      ensures Due(ticks[n - 1], updated, interval) <= Due(ticks[j], updated, interval) + (n - 1 - j)
    {
      DueSteps(ticks, updated, interval, j, n - 1);
    }
  }

  /**
   * With frequent rounds the count is exact: after every round, a watched agent's errors are the
   * whole intervals since its report arrived, less one.
   */
  lemma FrequentRoundsCountExactly(s0: map<string, AgentSpec>, es: seq<Event>, name: string)
    requires Chronological(es) && Watched(s0, es, name) && es[|es| - 1].act.Tick?
    requires Frequent(TicksSince(es, name), ArrivedAt(es, name), LastReport(es, name).reportInterval * SECOND)
    ensures ErrorsOf(s0, es, name) ==
      Due(es[|es| - 1].at, ArrivedAt(es, name), LastReport(es, name).reportInterval * SECOND)
  {
    var ticks, at, interval := TicksSince(es, name), ArrivedAt(es, name), LastReport(es, name).reportInterval * SECOND;
    ErrorsInClosedForm(s0, es, name);
    assert ticks[|ticks| - 1] == es[|es| - 1].at;
    FrequentKeepsUp(ticks, at, interval);
    ExactIffDueKeptUp(ErrorsOf(s0, es, name), ticks, at, interval);
  }

  lemma ChargedIffDue(e: int, ticks: seq<Time>, updated: Time, interval: Duration)
    requires ClosedForm(e, ticks, updated, interval) && ticks != []
    ensures e >= 1 <==> Due(ticks[|ticks| - 1], updated, interval) >= 1
  {
    var n := |ticks|;
    assert e <= Due(ticks[n - 1], updated, interval) + (n - 1 - (n - 1));
    if e != n {
      var j :| 0 <= j < n && e == Due(ticks[j], updated, interval) + (n - 1 - j);
      assert j < n - 1 || ticks[j] == ticks[n - 1];
    }
  }

  /**
   * The two detectors of silence agree up to the instant, whatever calls failed before: after a
   * round, a watched agent has errors exactly when its report arrived two intervals ago or more.
   * The store has that report, and the check calls it outdated if it arrived earlier than that.
   */
  lemma DetectorsAgree(s0: map<string, AgentSpec>, es: seq<Event>, name: string)
    requires Chronological(es) && Watched(s0, es, name) && es[|es| - 1].act.Tick?
    ensures name in After(s0, es).store
    ensures IsReportOf(After(s0, es).store[name], LastReport(es, name), ArrivedAt(es, name))
    ensures ErrorsOf(s0, es, name) >= 1 <==>
      es[|es| - 1].at - ArrivedAt(es, name) >= 2 * LastReport(es, name).reportInterval * SECOND
  {
    CacheAndStoreAreHistory(s0, es, name);
    ErrorsInClosedForm(s0, es, name);
    var now, ticks, interval := es[|es| - 1].at, TicksSince(es, name), LastReport(es, name).reportInterval * SECOND;
    assert ticks[|ticks| - 1] == now;
    ChargedIffDue(ErrorsOf(s0, es, name), ticks, ArrivedAt(es, name), interval);
    AtLeastTwo(now - ArrivedAt(es, name), interval);
  }

  // ----- Agents that are never charged -----

  lemma NeverLate(s: Snapshot, name: string, now: Time)
    requires name in s.cache && s.cache[name].reportInterval <= 0
    requires s.cache[name].reportInterval < 0 ==> s.cache[name].lastUpdated <= now
    ensures !Late(s.metrics, s.cache, now, name)
  {
  }

  lemma {:induction false} NoInterval(s0: map<string, AgentSpec>, es: seq<Event>, name: string)
    requires Chronological(es) && name in After(s0, es).cache && After(s0, es).cache[name].reportInterval <= 0
    ensures name in After(s0, es).metrics.entries && ErrorsOf(s0, es, name) == 0
    ensures After(s0, es).cache[name].reportInterval < 0 ==> After(s0, es).cache[name].lastUpdated <= es[|es| - 1].at
  {
    var n := |es| - 1;
    var init, e := es[..n], es[n];
    var s := After(s0, init);
    assert After(s0, es) == Step(s, e);
    if !Delivers(e, name) {
      StillCached(s, e, name);
      NoInterval(s0, init, name);
      if !Posts(e, name) {
        OtherEvents(s, e, name);
        NeverLate(s, name, e.at);
      }
    }
  }

  /**
   * Over every run, an agent that is cached but not watched has no errors: one that reports no
   * positive interval, and one whose last report was not confirmed to be stored.
   */
  lemma NeverCharged(s0: map<string, AgentSpec>, es: seq<Event>, name: string)
    requires Chronological(es) && Cached(s0, es, name) && !Watched(s0, es, name)
    ensures name in After(s0, es).metrics.entries && ErrorsOf(s0, es, name) == 0
  {
    CacheAndStoreAreHistory(s0, es, name);
    NoInterval(s0, es, name);
  }

  lemma {:induction false} CachedHasEntry(s0: map<string, AgentSpec>, es: seq<Event>, name: string)
    requires name in After(s0, es).cache
    ensures name in After(s0, es).metrics.entries
  {
    var n := |es| - 1;
    if !Posts(es[n], name) {
      CachedHasEntry(s0, es[..n], name);
    }
  }

  /** At this time, more whole intervals have gone by since the report than it has errors, and one. */
  ghost predicate Owed(s0: map<string, AgentSpec>, es: seq<Event>, name: string, now: Time) {
    && Watched(s0, es, name)
    && (now - ArrivedAt(es, name)) / (LastReport(es, name).reportInterval * SECOND) > ErrorsOf(s0, es, name) + 1
  }

  lemma LateIffOwed(s0: map<string, AgentSpec>, es: seq<Event>, name: string, now: Time)
    requires Chronological(es) && forall i :: 0 <= i < |es| ==> es[i].at <= now
    ensures Late(After(s0, es).metrics, After(s0, es).cache, now, name) <==> Owed(s0, es, name, now)
  {
    CacheAndStoreAreHistory(s0, es, name);
    var s := After(s0, es);
    if name in s.cache {
      CachedHasEntry(s0, es, name);
      if s.cache[name].reportInterval <= 0 {
        NeverLate(s, name, now);
      }
    }
  }

  /**
   * What a round of the metrics loop does to a name, whichever it is: it charges one error exactly
   * if the agent is watched and owed one, and leaves it alone otherwise. In particular a name that
   * is not in the cache is never charged.
   */
  lemma RoundCharges(s0: map<string, AgentSpec>, es: seq<Event>, e: Event, name: string)
    requires Chronological(es + [e]) && e.act.Tick?
    ensures var s, t, charge := After(s0, es), After(s0, es + [e]), if Owed(s0, es, name, e.at) then 1 else 0;
      && t.store == s.store && t.cache == s.cache
      && (name in t.metrics.entries <==> name in s.metrics.entries)
      && Streak(t.metrics, name) == Streak(s.metrics, name) + charge
      && Charged(t.metrics, name) == Charged(s.metrics, name) + charge
  {
    var s, all := After(s0, es), es + [e];
    assert all[..|es|] == es && all[|es|] == e;
    assert Chronological(es) by {
      assert forall i :: 0 <= i < |es| ==> all[i] == es[i];
    }
    forall i | 0 <= i < |es| ensures es[i].at <= e.at {
      assert all[i].at <= all[|es|].at;
    }
    LateIffOwed(s0, es, name, e.at);
    ChargeAllAt(s.metrics, LateNames(s.metrics, s.cache, e.at), name);
  }

  // ----- The check against the history -----

  /** When the stored record of a name arrived. */
  function RecordedAt(s0: map<string, AgentSpec>, es: seq<Event>, name: string): Time
    requires Known(s0, es, name)
  {
    var stored := LastStored(s0, es, name);
    if stored.Some? then es[stored.value].at else s0[name].lastUpdated
  }

  function RecordedInterval(s0: map<string, AgentSpec>, es: seq<Event>, name: string): int
    requires Known(s0, es, name)
  {
    var stored := LastStored(s0, es, name);
    if stored.Some? then es[stored.value].act.body.value.reportInterval else s0[name].reportInterval
  }

  /**
   * After any run, the absent pods are, in order, the listed ones of which no report ever got into
   * the store; the outdated those whose last such report arrived more than two intervals ago.
   */
  lemma CheckByHistory(s0: map<string, AgentSpec>, es: seq<Event>, store: Store, now: Time, pods: seq<string>)
    requires SpecsOf(store) == After(s0, es).store
    ensures Select(pods, set p | p in pods && p !in store) == Select(pods, set p | p in pods && !Known(s0, es, p))
    ensures Select(pods, set p | p in pods && p in store
              && now - store[p].spec.lastUpdated > 2 * store[p].spec.reportInterval * SECOND) ==
            Select(pods, set p | p in pods && Known(s0, es, p)
              && now - RecordedAt(s0, es, p) > 2 * RecordedInterval(s0, es, p) * SECOND)
  {
    forall p
      ensures p in store <==> Known(s0, es, p)
      ensures p in store ==> store[p].spec.lastUpdated == RecordedAt(s0, es, p)
      ensures p in store ==> store[p].spec.reportInterval == RecordedInterval(s0, es, p)
    {
      CacheAndStoreAreHistory(s0, es, p);
      assert p in store ==> SpecsOf(store)[p] == store[p].spec;
    }
    assert (set p | p in pods && p !in store) == set p | p in pods && !Known(s0, es, p);
    assert (set p | p in pods && p in store
              && now - store[p].spec.lastUpdated > 2 * store[p].spec.reportInterval * SECOND) ==
           set p | p in pods && Known(s0, es, p)
              && now - RecordedAt(s0, es, p) > 2 * RecordedInterval(s0, es, p) * SECOND;
  }

  /**
   * Exactly when the detectors agree on a cached agent whose stored record has a positive
   * interval: the server was told that its last report is stored, or the record is younger than
   * two intervals.
   */
  lemma DetectorsAgreeIff(s0: map<string, AgentSpec>, es: seq<Event>, name: string)
    requires Chronological(es) && es != [] && es[|es| - 1].act.Tick?
    requires Cached(s0, es, name) && Known(s0, es, name) && RecordedInterval(s0, es, name) > 0
    ensures var silent := es[|es| - 1].at - RecordedAt(s0, es, name) >= 2 * RecordedInterval(s0, es, name) * SECOND;
      (ErrorsOf(s0, es, name) >= 1 <==> silent) <==> Landed(s0, es, LastDelivery(es, name).value) || !silent
  {
    CacheAndStoreAreHistory(s0, es, name);
    if Landed(s0, es, LastDelivery(es, name).value) {
      DetectorsAgree(s0, es, name);
    } else {
      NeverCharged(s0, es, name);
    }
  }

  /**
   * An agent whose report reaches the server, but not the store: it has no errors after a later
   * round, however long ago the stored report arrived.
   */
  lemma FailedWriteHidesSilence(
      name: string, stored: AgentSpec, spec: AgentSpec, pods: PodList, t: Time, now: Time)
    requires t <= now && now - stored.lastUpdated > 2 * stored.reportInterval * SECOND
    ensures var s0, es := map[name := stored],
        [Event(t, Report(name, Ok(spec), pods), Calls(true, Dropped)), Event(now, Tick, ANSWERED)];
      && name in After(s0, es).metrics.entries && ErrorsOf(s0, es, name) == 0
      && name in After(s0, es).store && After(s0, es).store[name] == stored
  {
    var s0, e := map[name := stored], Event(t, Report(name, Ok(spec), pods), Calls(true, Dropped));
    var es := [e, Event(now, Tick, ANSWERED)];
    assert es[..1] == [e] && [e][..0] == [];
    assert After(s0, [e]) == Step(After(s0, []), e);
    NoInterval(s0, es, name);
  }
}
