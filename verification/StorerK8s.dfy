/** The Kubernetes report store and its in-memory cache. */
module StorerK8s {
  import opened Types
  import opened KubeApi

  type Cache = map<string, AgentSpec>

  /** What is left of the cache after cleaning against the pod list. */
  function Cleaned(cache: Cache, pods: PodList): Cache {
    if pods.Listed? then map n | n in cache && n in pods.names :: cache[n] else cache
  }

  // ----- A report -----

  /** How the calls of a report came off: whether the get was answered, and what became of the write. */
  datatype Calls = Calls(got: bool, write: Fate)

  const ANSWERED := Calls(true, Answered)

  /** The report gets into the store; a handler whose get failed only tries to update. */
  predicate Writes(known: bool, calls: Calls) {
    (calls.got || known) && !calls.write.Dropped?
  }

  /** The server is told that it did. */
  predicate Confirms(known: bool, calls: Calls) {
    Writes(known, calls) && calls.write.Answered?
  }

  /** The cache after a report for a name that was in the store, or was not. */
  function Remembered(
      cache: Cache, known: bool, name: string, spec: AgentSpec, pods: PodList, calls: Calls): Cache
  {
    var kept := if calls.got && !known then Cleaned(cache, pods) else cache;
    kept[name := if Confirms(known, calls) then spec else EMPTY_SPEC]
  }

  // ----- Classification of the listed pods -----

  datatype Class = Absent | Outdated | Fresh | Broken

  function Classify(r: GetResult, now: Time): Class {
    match r
    case NotFound => Absent
    case Failed => Broken
    case Found(agent) =>
      if now - agent.spec.lastUpdated > agent.spec.reportInterval * 2 * SECOND then Outdated else Fresh
  }

  function Classes(answers: seq<GetResult>, now: Time): seq<Class> {
    seq(|answers|, i requires 0 <= i < |answers| => Classify(answers[i], now))
  }

  /** The positions of one class, in order. */
  function Positions(classes: seq<Class>, which: Class): (r: seq<nat>)
    ensures forall i :: 0 <= i < |r| ==> r[i] < |classes| && classes[r[i]] == which
  {
    if classes == [] then []
    else
      var n := |classes| - 1;
      Positions(classes[..n], which) + if classes[n] == which then [n] else []
  }

  /** The pods at some positions. */
  function At(pods: seq<string>, positions: seq<nat>): seq<string>
    requires forall i :: 0 <= i < |positions| ==> positions[i] < |pods|
  {
    seq(|positions|, i requires 0 <= i < |positions| => pods[positions[i]])
  }

  lemma {:induction false} PositionsAscend(classes: seq<Class>, which: Class)
    ensures forall i, j :: 0 <= i < j < |Positions(classes, which)| ==>
      Positions(classes, which)[i] < Positions(classes, which)[j]
    ensures forall k: nat :: k < |classes| && classes[k] == which ==> k in Positions(classes, which)
  {
    if classes != [] {
      var n := |classes| - 1;
      PositionsAscend(classes[..n], which);
      var init, all := Positions(classes[..n], which), Positions(classes, which);
      forall k: nat | k < |classes| && classes[k] == which ensures k in all {
        if k < n {
          assert classes[..n][k] == which && k in init;
        } else {
          assert all == init + [n] && all[|init|] == n;
        }
      }
    }
  }

  lemma NoPositions(classes: seq<Class>, which: Class)
    ensures Positions(classes, which) == [] <==> which !in classes
  {
    PositionsAscend(classes, which);
    var positions := Positions(classes, which);
    if positions != [] {
      assert classes[positions[0]] == which;
    }
  }

  /**
   * The absent, the outdated and the fresh pods are order-preserving subsequences of the pod
   * list that together make it up, position by position, names that repeat included.
   */
  lemma {:induction false} ClassesPartitionPods(pods: seq<string>, classes: seq<Class>)
    requires |classes| == |pods| && Broken !in classes
    ensures multiset(At(pods, Positions(classes, Absent))) + multiset(At(pods, Positions(classes, Outdated)))
            + multiset(At(pods, Positions(classes, Fresh))) == multiset(pods)
    ensures |Positions(classes, Absent)| + |Positions(classes, Outdated)| + |Positions(classes, Fresh)| == |pods|
  {
    if pods != [] {
      var n := |pods| - 1;
      ClassesPartitionPods(pods[..n], classes[..n]);
      assert pods == pods[..n] + [pods[n]];
      AtNext(pods, classes, Absent);
      AtNext(pods, classes, Outdated);
      AtNext(pods, classes, Fresh);
      assert classes[n] in classes;
    }
  }

  lemma AtNext(pods: seq<string>, classes: seq<Class>, which: Class)
    requires |classes| == |pods| > 0
    ensures var n := |pods| - 1;
      At(pods, Positions(classes, which)) ==
      At(pods[..n], Positions(classes[..n], which)) + if classes[n] == which then [pods[n]] else []
    ensures multiset(At(pods, Positions(classes, which))) ==
      multiset(At(pods[..|pods| - 1], Positions(classes[..|pods| - 1], which)))
      + if classes[|pods| - 1] == which then multiset{pods[|pods| - 1]} else multiset{}
  {
  }

  /** The pods at the positions of a class, where the class is a matter of the name. */
  lemma {:induction false} SelectsClass(pods: seq<string>, classes: seq<Class>, which: Class, keep: set<string>)
    requires |classes| == |pods|
    requires forall i :: 0 <= i < |pods| ==> (classes[i] == which <==> pods[i] in keep)
    ensures At(pods, Positions(classes, which)) == Select(pods, keep)
  {
    if pods != [] {
      var n := |pods| - 1;
      SelectsClass(pods[..n], classes[..n], which, keep);
      AtNext(pods, classes, which);
    }
  }

  lemma SelectionNext(pods: seq<string>, answers: seq<GetResult>, agent: GetResult, now: Time, which: Class)
    requires |answers| < |pods|
    ensures At(pods, Positions(Classes(answers + [agent], now), which)) ==
      At(pods, Positions(Classes(answers, now), which))
      + if Classify(agent, now) == which then [pods[|answers|]] else []
  {
    var all := Classes(answers + [agent], now);
    assert all[..|answers|] == Classes(answers, now);
  }

  /** The absent and the outdated pods, by what is stored. */
  lemma SelectedByStore(pods: seq<string>, store: Store, answers: seq<GetResult>, now: Time)
    requires |answers| == |pods| && forall i :: 0 <= i < |pods| ==> answers[i] == Lookup(store, pods[i])
    ensures At(pods, Positions(Classes(answers, now), Absent)) ==
      Select(pods, set p | p in pods && p !in store)
    ensures At(pods, Positions(Classes(answers, now), Outdated)) ==
      Select(pods, set p | p in pods && p in store
        && now - store[p].spec.lastUpdated > 2 * store[p].spec.reportInterval * SECOND)
  {
    SelectsClass(pods, Classes(answers, now), Absent, set p | p in pods && p !in store);
    SelectsClass(pods, Classes(answers, now), Outdated, set p | p in pods && p in store
      && now - store[p].spec.lastUpdated > 2 * store[p].spec.reportInterval * SECOND);
  }

  // ----- The store -----

  class K8sAgentStorage {
    const client: AgentsClient
    var ncAgentCache: Cache

    constructor (client: AgentsClient)
      ensures this.client == client && ncAgentCache == map[]
    {
      this.client, ncAgentCache := client, map[];
    }

    /**
     * Keeps exactly the cached names that are listed pods, with their values. `failed` is the
     * error it answers to a request whose pods it cannot list.
     */
    method CleanCacheOnDemand(pods: PodList) returns (failed: bool)
      modifies `ncAgentCache
      ensures ncAgentCache == Cleaned(old(ncAgentCache), pods)
      ensures failed <==> pods.ListError?
    {
      failed := pods.ListError?;
      if pods.Listed? {
        var podMap: set<string> := {};
        for i := 0 to |pods.names|
          invariant podMap == set n | n in pods.names[..i]
        {
          podMap := podMap + {pods.names[i]};
        }
        assert pods.names[..|pods.names|] == pods.names;
        var toRemove: seq<string> := [];
        var todo := ncAgentCache.Keys;
        while todo != {}
          invariant todo <= ncAgentCache.Keys
          invariant forall n :: n in toRemove <==> n in ncAgentCache.Keys - todo && n !in podMap
        {
          var agentName :| agentName in todo;
          todo := todo - {agentName};
          if agentName !in podMap {
            toRemove := toRemove + [agentName];
          }
        }
        for i := 0 to |toRemove|
          invariant ncAgentCache == map n | n in old(ncAgentCache) && n !in toRemove[..i] :: old(ncAgentCache)[n]
        {
          ncAgentCache := ncAgentCache - {toRemove[i]};
        }
        assert toRemove[..|toRemove|] == toRemove;
      }
    }

    /**
     * Get, then create or update, then cache what the server answered. `calls` is how the calls
     * came off, which settles store and cache: with every call answered both end up with the
     * report; an update that fails leaves the empty spec in the cache. An update names the version
     * that the get returned.
     */
    method UpdateAgents(agentName: string, body: Result<AgentSpec>, now: Time, pods: PodList)
      returns (agentData: AgentSpec, err: bool, ghost calls: Calls)
      modifies this, client`store, client`next, client`writes
      ensures err == body.Err?
      ensures body.Err? ==>
        agentData == EMPTY_SPEC && ncAgentCache == old(ncAgentCache) && client.store == old(client.store)
      ensures body.Ok? ==> agentData == Stamped(body.value, now) && IsReportOf(agentData, body.value, now)
      ensures client.up ==> calls == ANSWERED
      ensures body.Ok? ==> var known := agentName in old(client.store);
        client.writes == old(client.writes) + [
          if calls.got && !known then CreateCall(agentName, agentData)
          else UpdateCall(agentName, agentData,
            if calls.got then Some(old(client.store)[agentName].version) else None)]
      ensures body.Ok? ==>
        ncAgentCache == Remembered(old(ncAgentCache), agentName in old(client.store), agentName, agentData, pods, calls)
      ensures body.Ok? && Writes(agentName in old(client.store), calls) ==>
        && agentName in client.store && client.store[agentName].spec == agentData
        && client.store == old(client.store)[agentName := client.store[agentName]]
      ensures body.Ok? && !Writes(agentName in old(client.store), calls) ==> client.store == old(client.store)
    {
      calls := ANSWERED;
      if body.Err? {
        return EMPTY_SPEC, true, calls;
      }
      agentData := body.value.(lastUpdated := now);
      var curAgent := client.Get(agentName);
      var agent: Option<AgentSpec>;
      ghost var before := client.store;
      if curAgent.NotFound? {
        var _ := CleanCacheOnDemand(pods);
        agent := client.Create(agentName, agentData);
      } else {
        var version := if curAgent.Found? then Some(curAgent.agent.version) else None;
        agent := client.Update(agentName, agentData, version);
      }
      calls := Calls(!curAgent.Failed?,
        if agent.Some? then Answered else if client.store == before then Dropped else AnswerLost);
      ncAgentCache := ncAgentCache[agentName := if agent.Some? then agent.value else EMPTY_SPEC];
      err := false;
    }

    /**
     * Asks for every listed pod's agent, in order, until a call fails. `answers` is what the
     * calls returned. The absent are the listed pods that are not stored, the outdated those
     * whose record is older than two of its intervals.
     */
    method CheckAgents(pods: PodList, now: Time)
      returns (r: Result<(seq<string>, seq<string>)>, ghost answers: seq<GetResult>)
      ensures pods.NoClient? ==> r == Ok(([], []))
      ensures pods.ListError? ==> r.Err?
      ensures pods.Listed? ==>
        && |answers| <= |pods.names|
        && (forall i :: 0 <= i < |answers| ==>
              answers[i] == Lookup(client.store, pods.names[i]) || (!client.up && answers[i].Failed?))
        && (forall i :: 0 <= i < |answers| - 1 ==> !answers[i].Failed?)
        && (r.Err? ==> answers != [] && answers[|answers| - 1].Failed?)
        && (r.Ok? ==> |answers| == |pods.names| && forall i :: 0 <= i < |answers| ==> !answers[i].Failed?)
        && (r.Ok? ==> r.value == (At(pods.names, Positions(Classes(answers, now), Absent)),
                                  At(pods.names, Positions(Classes(answers, now), Outdated))))
      ensures pods.Listed? && r.Ok? ==>
        && r.value.0 == Select(pods.names, set p | p in pods.names && p !in client.store)
        && r.value.1 == Select(pods.names, set p | p in pods.names && p in client.store
             && now - client.store[p].spec.lastUpdated > 2 * client.store[p].spec.reportInterval * SECOND)
      ensures pods.Listed? && client.up ==> r.Ok?
    {
      answers := [];
      if pods.NoClient? {
        return Ok(([], [])), answers;
      }
      var absent: seq<string>, outdated: seq<string> := [], [];
      if pods.ListError? {
        return Err, answers;
      }
      for i := 0 to |pods.names|
        invariant |answers| == i
        invariant forall k :: 0 <= k < i ==> answers[k] == Lookup(client.store, pods.names[k]) && !answers[k].Failed?
        invariant absent == At(pods.names, Positions(Classes(answers, now), Absent))
        invariant outdated == At(pods.names, Positions(Classes(answers, now), Outdated))
      {
        var agentName := pods.names[i];
        var agent := client.Get(agentName);
        SelectionNext(pods.names, answers, agent, now, Absent);
        SelectionNext(pods.names, answers, agent, now, Outdated);
        answers := answers + [agent];
        if agent.NotFound? {
          absent := absent + [agentName];
          continue;
        }
        if agent.Failed? {
          return Err, answers;
        }
        if now - agent.agent.spec.lastUpdated > agent.agent.spec.reportInterval * 2 * SECOND {
          outdated := outdated + [agentName];
        }
      }
      r := Ok((absent, outdated));
      SelectedByStore(pods.names, client.store, answers, now);
    }
  }
}
