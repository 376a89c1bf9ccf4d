/** Where the cache and the store of overlapping handlers part, and exactly when. */
module K8sOvertaking {
  import opened Types
  import opened KubeApi
  import opened StorerK8s
  import opened K8sInterleaved

  /** The handler stands between its write to the store and its write to the cache. */
  predicate Pending(w: World, id: nat, name: string) {
    id in w.workers && w.workers[id].name == name && w.workers[id].pc.AtCache?
  }

  ghost predicate Awaited(w: World, name: string) {
    exists id :: Pending(w, id, name)
  }

  /** The pending handlers of a name whose object another handler now replaces. */
  function OvertakenBy(w: World, step: Step): set<nat> {
    if IsWrite(w, step) && TakesEffect(w, step.id, step.fate) then
      set id | id in w.workers && Pending(w, id, w.workers[step.id].name)
    else {}
  }

  /** All handlers overtaken in the course of a run. */
  function Overtaken(w: World, steps: seq<Step>): set<nat> {
    if steps == [] then {}
    else
      var init := steps[..|steps| - 1];
      Overtaken(w, init) + OvertakenBy(Run(w, init), steps[|steps| - 1])
  }

  ghost predicate Carries(w: World, id: nat, name: string, spec: AgentSpec) {
    && id in w.workers && HasWritten(w.workers[id])
    && w.workers[id].name == name && w.workers[id].spec == spec
  }

  /** An object written since the start is its last writer's. */
  ghost predicate ObjectKnown(w: World, name: string) {
    name in w.writer ==> name in w.store && Carries(w, w.writer[name], name, w.store[name].spec)
  }

  /** An answer is the handler's own report, and still in the store unless the handler was overtaken. */
  ghost predicate AnswerKnown(w: World, overtaken: set<nat>, id: nat)
    requires id in w.workers
  {
    var me := w.workers[id];
    me.pc.AtCache? && me.pc.answer != EMPTY_SPEC ==>
      me.pc.answer == me.spec && me.name in w.writer && (w.writer[me.name] == id <==> id !in overtaken)
  }

  /** A cached spec is its last writer's, and so is the object, unless that handler was overtaken. */
  ghost predicate EntryKnown(w: World, overtaken: set<nat>, name: string) {
    name in w.cache && w.cache[name] != EMPTY_SPEC ==>
      && name in w.writer && name in w.cacher
      && Carries(w, w.cacher[name], name, w.cache[name]) && w.workers[w.cacher[name]].pc.Finished?
      && (Awaited(w, name) || (w.writer[name] == w.cacher[name] <==> w.cacher[name] !in overtaken))
  }

  ghost predicate Known(w: World, overtaken: set<nat>) {
    && (forall n :: n in w.writer ==> ObjectKnown(w, n))
    && (forall n :: n in w.cache ==> EntryKnown(w, overtaken, n))
    && (forall id :: id in w.workers ==> AnswerKnown(w, overtaken, id))
    && (forall id :: id in overtaken ==> id in w.workers && HasWritten(w.workers[id]))
  }

  lemma EntryKnownAfterWrite(w: World, step: Step, w': World, overtaken: set<nat>, n: string)
    requires Known(w, overtaken) && IsWrite(w, step) && WriteEffect(w, w', step.id, step.fate)
    ensures EntryKnown(w', overtaken + OvertakenBy(w, step), n)
  {
    var me := w.workers[step.id];
    assert Pending(w', step.id, me.name);
    if n in w.cache {
      assert EntryKnown(w, overtaken, n);
      if n != me.name && Awaited(w, n) {
        var id :| Pending(w, id, n);
        assert Pending(w', id, n);
      }
    }
  }

  lemma WriteIsKnown(w: World, step: Step, w': World, overtaken: set<nat>)
    requires Known(w, overtaken) && IsWrite(w, step) && WriteEffect(w, w', step.id, step.fate)
    ensures Known(w', overtaken + OvertakenBy(w, step))
  {
    var me, all := w.workers[step.id], overtaken + OvertakenBy(w, step);
    forall n | n in w'.cache ensures EntryKnown(w', all, n) {
      EntryKnownAfterWrite(w, step, w', overtaken, n);
    }
    forall id | id in w'.workers ensures AnswerKnown(w', all, id) {
      AnswerKnownAfterWrite(w, step, w', overtaken, id);
    }
    forall n | n in w'.writer ensures ObjectKnown(w', n) {
      assert n != me.name ==> ObjectKnown(w, n);
    }
  }

  lemma AnswerKnownAfterWrite(w: World, step: Step, w': World, overtaken: set<nat>, id: nat)
    requires Known(w, overtaken) && IsWrite(w, step) && WriteEffect(w, w', step.id, step.fate)
    requires id in w'.workers
    ensures AnswerKnown(w', overtaken + OvertakenBy(w, step), id)
  {
    if id != step.id {
      assert AnswerKnown(w, overtaken, id);
    }
  }

  /** A handler writes its answer to the cache. */
  predicate IsCaching(w: World, step: Step, name: string) {
    step.Go? && Pending(w, step.id, name)
  }

  lemma CachedAnswerIsKnown(w: World, step: Step, w': World, overtaken: set<nat>, n: string)
    requires Known(w, overtaken) && QuietEffect(w, w', step) && IsCaching(w, step, n)
    ensures EntryKnown(w', overtaken, n)
  {
    assert AnswerKnown(w, overtaken, step.id);
  }

  lemma OtherEntriesStayKnown(w: World, step: Step, w': World, overtaken: set<nat>, n: string)
    requires Known(w, overtaken) && QuietEffect(w, w', step) && !IsCaching(w, step, n)
    ensures EntryKnown(w', overtaken, n)
  {
    if n in w'.cache && w'.cache[n] != EMPTY_SPEC {
      assert n in w.cache && w.cache[n] == w'.cache[n] && EntryKnown(w, overtaken, n);
      if id :| Pending(w, id, n) {
        assert Pending(w', id, n);
      }
    }
  }

  lemma QuietStepIsKnown(w: World, step: Step, w': World, overtaken: set<nat>)
    requires Known(w, overtaken) && QuietEffect(w, w', step)
    ensures Known(w', overtaken)
  {
    forall n | n in w'.cache ensures EntryKnown(w', overtaken, n) {
      if IsCaching(w, step, n) {
        CachedAnswerIsKnown(w, step, w', overtaken, n);
      } else {
        OtherEntriesStayKnown(w, step, w', overtaken, n);
      }
    }
    forall id | id in w'.workers ensures AnswerKnown(w', overtaken, id) {
      assert id in w.workers ==> AnswerKnown(w, overtaken, id);
    }
    forall n | n in w'.writer ensures ObjectKnown(w', n) {
      assert ObjectKnown(w, n);
    }
  }

  lemma {:induction false} RunIsKnown(w0: World, steps: seq<Step>)
    requires Begins(w0)
    ensures Known(Run(w0, steps), Overtaken(w0, steps))
  {
    if steps != [] {
      var init, step := steps[..|steps| - 1], steps[|steps| - 1];
      var w := Run(w0, init);
      RunIsKnown(w0, init);
      if IsWrite(w, step) {
        WriteHasEffect(w, step);
        WriteIsKnown(w, step, Next(w, step), Overtaken(w0, init));
      } else {
        QuietStepHasEffect(w, step);
        QuietStepIsKnown(w, step, Next(w, step), Overtaken(w0, init));
      }
    }
  }

  /**
   * Exactly when the cache lags: once no handler of a name is pending, a cached spec that is not
   * the mark of a failed call comes from the handler that wrote the store last exactly if that
   * handler was not overtaken while it was pending. If it was overtaken, store and cache carry
   * the reports of two handlers, and are equal just if those are.
   */
  lemma LastWriterCachedIffNotOvertaken(w0: World, steps: seq<Step>, name: string)
    requires Begins(w0) && !Awaited(Run(w0, steps), name)
    requires name in Run(w0, steps).cache && Run(w0, steps).cache[name] != EMPTY_SPEC
    ensures var w := Run(w0, steps);
      && name in w.store && name in w.writer && name in w.cacher
      && w.writer[name] in w.workers && w.cacher[name] in w.workers
      && w.workers[w.writer[name]].name == name && w.workers[w.cacher[name]].name == name
      && (w.writer[name] == w.cacher[name] <==> w.cacher[name] !in Overtaken(w0, steps))
      && (w.cache[name] == w.store[name].spec <==>
            || w.cacher[name] !in Overtaken(w0, steps)
            || w.workers[w.writer[name]].spec == w.workers[w.cacher[name]].spec)
  {
    RunIsKnown(w0, steps);
    var w := Run(w0, steps);
    assert ObjectKnown(w, name) && EntryKnown(w, Overtaken(w0, steps), name);
  }

  /** No two handlers of the name carry the same report: reports are stamped as they arrive. */
  ghost predicate ReportsDiffer(w: World, name: string) {
    forall id, id' :: id in w.workers && id' in w.workers && id != id' ==>
      w.workers[id].name == w.workers[id'].name == name ==> w.workers[id].spec != w.workers[id'].spec
  }

  /** Where reports differ, cache and store agree exactly if the handler that cached was not overtaken. */
  lemma CacheAgreesIffNotOvertaken(w0: World, steps: seq<Step>, name: string)
    requires Begins(w0) && !Awaited(Run(w0, steps), name) && ReportsDiffer(Run(w0, steps), name)
    requires name in Run(w0, steps).cache && Run(w0, steps).cache[name] != EMPTY_SPEC
    ensures var w := Run(w0, steps);
      && name in w.store && name in w.cacher
      && (w.cache[name] == w.store[name].spec <==> w.cacher[name] !in Overtaken(w0, steps))
  {
    LastWriterCachedIffNotOvertaken(w0, steps, name);
  }

  /** So if no write to a name ever overtakes a pending handler, cache and store agree on it. */
  lemma CacheAgreesIfNobodyIsOvertaken(w0: World, steps: seq<Step>, name: string)
    requires Begins(w0) && !Awaited(Run(w0, steps), name)
    requires name in Run(w0, steps).cache && Run(w0, steps).cache[name] != EMPTY_SPEC
    requires forall id :: id in Overtaken(w0, steps) && id in Run(w0, steps).workers ==>
      Run(w0, steps).workers[id].name != name
    ensures var w := Run(w0, steps);
      name in w.store && w.cache[name] == w.store[name].spec
  {
    RunIsKnown(w0, steps);
    LastWriterCachedIffNotOvertaken(w0, steps, name);
  }

  /** A write over a pending handler's report makes the cache lag with that handler's next step. */
  lemma OvertakingMakesCacheLag(w: World, step: Step, id: nat, fate: Fate, pods: PodList)
    requires id in OvertakenBy(w, step)
    ensures var w', name := Next(Next(w, step), Go(id, fate, pods)), w.workers[id].name;
      && name in w'.cache && name in w'.store
      && (w'.cache[name] == w'.store[name].spec <==> w.workers[id].pc.answer == w.workers[step.id].spec)
  {
    WriteHasEffect(w, step);
  }

  /** The first handler of an agent that is not stored yet comes as far as its cache write. */
  function FirstPending(w0: World, name: string, older: AgentSpec, newer: AgentSpec): World {
    var go := Go(0, Answered, NoClient);
    var w1 := Next(Next(w0, Arrive(0, name, older)), Arrive(1, name, newer));
    Next(Next(Next(w1, go), go), go)
  }

  /** The second makes all its calls. */
  function SecondDone(w: World): World {
    var go := Go(1, Answered, NoClient);
    Next(Next(Next(w, go), go), go)
  }

  lemma FirstIsPending(w0: World, name: string, older: AgentSpec, newer: AgentSpec)
    requires Begins(w0) && name !in w0.store
    ensures var w := FirstPending(w0, name, older, newer);
      && w.workers == map[0 := Worker(name, older, AtCache(older)), 1 := Worker(name, newer, AtGet)]
      && name in w.store
  {
  }

  lemma SecondIsDone(w: World, name: string, older: AgentSpec, newer: AgentSpec)
    requires w.workers == map[0 := Worker(name, older, AtCache(older)), 1 := Worker(name, newer, AtGet)]
    requires name in w.store
    ensures var w' := SecondDone(w);
      && w'.workers == map[0 := Worker(name, older, AtCache(older)), 1 := Worker(name, newer, Finished)]
      && name in w'.store && w'.store[name].spec == newer
  {
    var go := Go(1, Answered, NoClient);
    var read := w.store[name];
    var w1 := Next(w, go);
    assert w1.workers[1] == Worker(name, newer, AtUpdate(Some(read))) && w1.store == w.store;
    var w2 := Next(w1, go);
    assert w2.workers[1] == Worker(name, newer, AtCache(newer)) && w2.store[name].spec == newer;
  }

  lemma FirstIsDone(w: World, name: string, older: AgentSpec, newer: AgentSpec)
    requires w.workers == map[0 := Worker(name, older, AtCache(older)), 1 := Worker(name, newer, Finished)]
    ensures var w' := Next(w, Go(0, Answered, NoClient));
      && w'.store == w.store && name in w'.cache && w'.cache[name] == older
      && forall id :: id in w'.workers ==> w'.workers[id].pc.Finished?
  {
  }

  /** Two handlers write store and cache in opposite orders. */
  function Race(w0: World, name: string, older: AgentSpec, newer: AgentSpec): World {
    Next(SecondDone(FirstPending(w0, name, older, newer)), Go(0, Answered, NoClient))
  }

  /** Then the cache goes on showing the older report, although every call was answered. */
  lemma CacheCanLagBehindStore(w0: World, name: string, older: AgentSpec, newer: AgentSpec)
    requires Begins(w0) && name !in w0.store
    ensures var end := Race(w0, name, older, newer);
      && name in end.cache && end.cache[name] == older
      && name in end.store && end.store[name].spec == newer
      && forall id :: id in end.workers ==> end.workers[id].pc.Finished?
  {
    FirstIsPending(w0, name, older, newer);
    var w := FirstPending(w0, name, older, newer);
    SecondIsDone(w, name, older, newer);
    FirstIsDone(SecondDone(w), name, older, newer);
  }
}
