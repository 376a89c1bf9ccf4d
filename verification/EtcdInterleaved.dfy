/**
 * Report handlers that overlap: the mutex of the store is declared and never taken, so the get,
 * delete, set-directory and set-record calls of different handlers interleave freely, with
 * time passing, calls lost, and other clients of etcd putting plain keys in the way.
 */
module EtcdInterleaved {
  import opened Types
  import opened Keys
  import opened Decode
  import opened Etcd
  import opened StorerEtcd

  /** Where a handler stands: the etcd call it makes next. */
  datatype Pc = AtGet | AtDelete | AtSetDir(update: bool) | AtSetRecord | Finished

  /** A handler; `dirAt` and `recordAt` are the times its own sets succeeded. */
  datatype Worker = Worker(spec: AgentSpec, pc: Pc, dirAt: Option<Time>, recordAt: Option<Time>)

  datatype World = World(now: Time, tree: Tree, workers: map<nat, Worker>)

  /** A call is answered, never arrives, or takes effect with its answer lost. */
  datatype Fate = Answered | Dropped | AnswerLost

  datatype Step =
    | Wait(d: nat)
    | Arrive(id: nat, spec: AgentSpec)
    | Call(id: nat, fate: Fate)
    | PutFile(name: string, doc: Doc, expiry: Expiry)

  function KeyOf(w: Worker): string {
    Decimal(w.spec.uptime)
  }

  /** Any unexpected error of the first get ends the process. */
  function Halt(workers: map<nat, Worker>): map<nat, Worker> {
    map id | id in workers :: workers[id].(pc := Finished)
  }

  function AfterGet(kind: Kind): Pc {
    match kind
    case NoKey => AtSetDir(false)
    case PlainKey => AtDelete
    case Directory => AtSetDir(true)
  }

  function CallStep(w: World, ttl: Duration, id: nat, fate: Fate): World
    requires id in w.workers
  {
    var me := w.workers[id];
    match me.pc
    case AtGet =>
      if fate.Answered? then w.(workers := w.workers[id := me.(pc := AfterGet(Lookup(w.tree, me.spec.podName)))])
      else w.(workers := Halt(w.workers))
    case AtDelete =>
      var (tree, ok) := if fate.Dropped? then (w.tree, false) else DeleteFile(w.tree, me.spec.podName);
      var next := if ok && fate.Answered? then AtSetDir(false) else AtSetRecord;
      World(w.now, tree, w.workers[id := me.(pc := next)])
    case AtSetDir(update) =>
      var (tree, ok) := if fate.Dropped? then (w.tree, false)
        else SetDir(w.tree, w.now, me.spec.podName, if update then MustExist else MustNotExist, update, ttl);
      World(w.now, tree, w.workers[id := me.(pc := AtSetRecord, dirAt := if ok then Some(w.now) else None)])
    case AtSetRecord =>
      var (tree, ok) := if fate.Dropped? then (w.tree, false)
        else CreateLeaf(w.tree, w.now, me.spec.podName, KeyOf(me), Marshal(me.spec), ttl);
      World(w.now, tree, w.workers[id := me.(pc := Finished, recordAt := if ok then Some(w.now) else None)])
    case Finished => w
  }

  function Next(w: World, ttl: Duration, step: Step): World {
    match step
    case Wait(d) => World(w.now + d, Expire(w.tree, w.now + d), w.workers)
    case Arrive(id, spec) =>
      if id in w.workers then w
      else w.(workers := w.workers[id := Worker(Stamped(spec, w.now), AtGet, None, None)])
    case Call(id, fate) => if id in w.workers then CallStep(w, ttl, id, fate) else w
    case PutFile(name, doc, expiry) =>
      if (name in w.tree && w.tree[name].Dir?) || !Live(expiry, w.now) then w
      else w.(tree := w.tree[name := File(doc, expiry)])
  }

  function Run(w: World, ttl: Duration, steps: seq<Step>): World {
    if steps == [] then w
    else Next(Run(w, ttl, steps[..|steps| - 1]), ttl, steps[|steps| - 1])
  }

  // ----- Safe repair -----

  /**
   * What a call may do to a pod: a directory stays one and keeps every record as it is, and its
   * TTL can only be set anew; a directory that comes up has a full TTL, or none.
   */
  ghost predicate Grows(tree: Tree, tree': Tree, now: Time, ttl: Duration, pod: string) {
    && (pod in tree && tree[pod].Dir? ==>
          && pod in tree' && tree'[pod].Dir?
          && tree'[pod].expiry in {tree[pod].expiry, At(now + ttl)}
          && forall k :: k in tree[pod].leaves ==>
               k in tree'[pod].leaves && tree'[pod].leaves[k] == tree[pod].leaves[k])
    && (!(pod in tree && tree[pod].Dir?) && pod in tree' && tree'[pod].Dir? ==>
          tree'[pod].expiry in {Never, At(now + ttl)})
  }

  /**
   * In every state, whatever a handler believes it saw, no call of any handler or client removes
   * a directory or a record: also not the delete of one that saw a plain key.
   */
  lemma RepairIsSafe(w: World, ttl: Duration, step: Step, pod: string)
    requires !step.Wait?
    ensures Next(w, ttl, step).now == w.now
    ensures Grows(w.tree, Next(w, ttl, step).tree, w.now, ttl, pod)
  {
  }

  /** No directory is due to live longer than one TTL from now, unless it has none. */
  ghost predicate Bounded(w: World, ttl: Duration) {
    forall p :: p in w.tree && w.tree[p].Dir? && w.tree[p].expiry.At? ==> w.tree[p].expiry.time <= w.now + ttl
  }

  predicate NoEarlier(before: Expiry, after: Expiry)
    requires before.At?
  {
    after.At? && before.time <= after.time
  }

  /**
   * From one moment to a later one, a directory that is due to live past the later one is still
   * there, its expiry has not moved earlier, and its live records are unchanged.
   */
  ghost predicate Keeps(w: World, w': World, pod: string) {
    pod in w.tree && w.tree[pod].Dir? && w.tree[pod].expiry.At? && w'.now < w.tree[pod].expiry.time ==>
      && pod in w'.tree && w'.tree[pod].Dir?
      && NoEarlier(w.tree[pod].expiry, w'.tree[pod].expiry)
      && forall k :: k in w.tree[pod].leaves && Live(w.tree[pod].leaves[k].expiry, w'.now) ==>
           k in w'.tree[pod].leaves && w'.tree[pod].leaves[k] == w.tree[pod].leaves[k]
  }

  lemma NextBounded(w: World, ttl: Duration, step: Step)
    requires Bounded(w, ttl)
    ensures Bounded(Next(w, ttl, step), ttl) && w.now <= Next(w, ttl, step).now
  {
    var w' := Next(w, ttl, step);
    forall p | p in w'.tree && w'.tree[p].Dir? && w'.tree[p].expiry.At?
      ensures w'.tree[p].expiry.time <= w'.now + ttl
    {
      if !step.Wait? {
        RepairIsSafe(w, ttl, step, p);
      }
    }
  }

  lemma KeepsFurther(w: World, w1: World, ttl: Duration, step: Step, pod: string)
    requires Bounded(w1, ttl) && Keeps(w, w1, pod)
    ensures Keeps(w, Next(w1, ttl, step), pod)
  {
    if !step.Wait? {
      RepairIsSafe(w1, ttl, step, pod);
    }
  }

  /** Over every interleaving, a live directory's finite expiry never moves earlier. */
  lemma {:induction false} DirectoriesLiveOn(w: World, ttl: Duration, steps: seq<Step>, pod: string)
    requires Bounded(w, ttl)
    ensures Bounded(Run(w, ttl, steps), ttl) && w.now <= Run(w, ttl, steps).now
    ensures Keeps(w, Run(w, ttl, steps), pod)
  {
    if steps != [] {
      var n := |steps| - 1;
      DirectoriesLiveOn(w, ttl, steps[..n], pod);
      NextBounded(Run(w, ttl, steps[..n]), ttl, steps[n]);
      KeepsFurther(w, Run(w, ttl, steps[..n]), ttl, steps[n], pod);
    }
  }

  // ----- What the sets do -----

  /** A directory set takes effect, and is noted, exactly if it arrives and finds what it expects. */
  lemma SetDirectoryTakesEffect(w: World, ttl: Duration, id: nat, fate: Fate)
    requires id in w.workers && w.workers[id].pc.AtSetDir?
    ensures var me, after := w.workers[id], CallStep(w, ttl, id, fate);
      var pod := me.spec.podName;
      var effective := !fate.Dropped? && (me.pc.update <==> pod in w.tree);
      && after.now == w.now
      && after.workers ==
           w.workers[id := Worker(me.spec, AtSetRecord, if effective then Some(w.now) else None, me.recordAt)]
      && after.tree ==
           if !effective then w.tree
           else if me.pc.update then w.tree[pod := w.tree[pod].(expiry := At(w.now + ttl))]
           else w.tree[pod := Dir(At(w.now + ttl), map[])]
  {
  }

  /** So does a record set, if it arrives, the uptime is free, and no plain key is in the way. */
  lemma SetRecordTakesEffect(w: World, ttl: Duration, id: nat, fate: Fate)
    requires id in w.workers && w.workers[id].pc.AtSetRecord?
    ensures var me, after := w.workers[id], CallStep(w, ttl, id, fate);
      var pod, key, leaf := me.spec.podName, KeyOf(me), Leaf(Marshal(me.spec), At(w.now + ttl));
      var effective := !fate.Dropped? && key !in LeavesAt(w.tree, pod) && (pod in w.tree ==> w.tree[pod].Dir?);
      && after.now == w.now
      && after.workers == w.workers[id := Worker(me.spec, Finished, me.dirAt, if effective then Some(w.now) else None)]
      && after.tree ==
           if !effective then w.tree
           else w.tree[pod :=
             Dir(if pod in w.tree then w.tree[pod].expiry else Never, LeavesAt(w.tree, pod)[key := leaf])]
  {
  }

  // ----- Calls that fail -----

  lemma {:induction false} FinishedStays(w: World, ttl: Duration, steps: seq<Step>, id: nat)
    requires id in w.workers && w.workers[id].pc.Finished?
    ensures id in Run(w, ttl, steps).workers && Run(w, ttl, steps).workers[id] == w.workers[id]
  {
    if steps != [] {
      FinishedStays(w, ttl, steps[..|steps| - 1], id);
    }
  }

  /** A first get that fails ends the process: no handler there is makes another call, ever. */
  lemma FailedGetEndsAll(w: World, ttl: Duration, id: nat, fate: Fate, steps: seq<Step>, other: nat)
    requires id in w.workers && w.workers[id].pc.AtGet? && !fate.Answered? && other in w.workers
    ensures CallStep(w, ttl, id, fate).tree == w.tree
    ensures var after := Run(CallStep(w, ttl, id, fate), ttl, steps);
      other in after.workers && after.workers[other] == w.workers[other].(pc := Finished)
  {
    FinishedStays(CallStep(w, ttl, id, fate), ttl, steps, other);
  }

  /** The handler is past its directory set, without having made one that took effect. */
  predicate NoDirectorySet(w: World, id: nat) {
    id in w.workers && w.workers[id].dirAt.None? && w.workers[id].pc in {AtSetRecord, Finished}
  }

  lemma {:induction false} NoDirectorySetStays(w: World, ttl: Duration, steps: seq<Step>, id: nat)
    requires NoDirectorySet(w, id)
    ensures NoDirectorySet(Run(w, ttl, steps), id)
  {
    if steps != [] {
      NoDirectorySetStays(w, ttl, steps[..|steps| - 1], id);
    }
  }

  /**
   * A handler that saw a plain key goes on to make a directory exactly if its delete is answered
   * and found a plain key; otherwise it goes straight to its record and never makes one.
   */
  lemma DirectoryOnlyAfterDelete(w: World, ttl: Duration, id: nat, fate: Fate)
    requires id in w.workers && w.workers[id].pc.AtDelete? && w.workers[id].dirAt.None?
    ensures var me, after := w.workers[id], CallStep(w, ttl, id, fate);
      if fate.Answered? && me.spec.podName in w.tree && w.tree[me.spec.podName].File?
      then after.workers[id].pc == AtSetDir(false) && me.spec.podName !in after.tree
      else after.workers[id].pc == AtSetRecord
           && forall steps :: NoDirectorySet(Run(after, ttl, steps), id)
  {
    var after := CallStep(w, ttl, id, fate);
    if after.workers[id].pc == AtSetRecord {
      forall steps ensures NoDirectorySet(Run(after, ttl, steps), id) {
        NoDirectorySetStays(after, ttl, steps, id);
      }
    }
  }

  // ----- A report that renewed its directory is kept -----

  ghost predicate HasRecord(tree: Tree, pod: string, key: string, leaf: Leaf) {
    pod in tree && tree[pod].Dir? && key in tree[pod].leaves && tree[pod].leaves[key] == leaf
  }

  /** The record the handler set, with the expiry it was given, is there. */
  ghost predicate HasOwnRecord(w: World, ttl: Duration, id: nat)
    requires id in w.workers && w.workers[id].recordAt.Some?
  {
    var me := w.workers[id];
    HasRecord(w.tree, me.spec.podName, KeyOf(me), Leaf(Marshal(me.spec), At(me.recordAt.value + ttl)))
  }

  /**
   * What a handler may count on. Its directory set at t1 keeps the directory, while there is one,
   * until t1 + TTL; its record set at t2 is then there until t1 + TTL and gone at t2 + TTL.
   */
  ghost predicate Promise(w: World, ttl: Duration, id: nat)
    requires id in w.workers
  {
    var me := w.workers[id];
    var pod := me.spec.podName;
    && (me.recordAt.Some? ==> me.pc.Finished? && me.recordAt.value <= w.now)
    && (me.dirAt.Some? ==>
          && me.pc in {AtSetRecord, Finished} && me.dirAt.value <= w.now
          && (pod in w.tree && w.tree[pod].Dir? && w.tree[pod].expiry.At? ==>
                me.dirAt.value + ttl <= w.tree[pod].expiry.time)
          && (me.recordAt.Some? ==> me.dirAt.value <= me.recordAt.value)
          && (me.recordAt.Some? && w.now < me.dirAt.value + ttl ==> HasOwnRecord(w, ttl, id)))
    && (me.recordAt.Some? && me.recordAt.value + ttl <= w.now ==> !HasOwnRecord(w, ttl, id))
  }

  lemma PromiseWaits(w: World, ttl: Duration, d: nat, id: nat)
    requires id in w.workers && Promise(w, ttl, id)
    ensures Promise(Next(w, ttl, Wait(d)), ttl, id)
  {
  }

  /** A step that is not this handler's own call leaves its promise standing. */
  lemma PromiseStands(w: World, ttl: Duration, step: Step, id: nat)
    requires id in w.workers && Promise(w, ttl, id)
    requires !step.Wait? && !(step.Call? && step.id == id)
    ensures id in Next(w, ttl, step).workers && Promise(Next(w, ttl, step), ttl, id)
  {
    RepairIsSafe(w, ttl, step, w.workers[id].spec.podName);
    var w', me := Next(w, ttl, step), w.workers[id];
    assert w'.workers[id].(pc := me.pc) == me && w'.workers[id].pc in {me.pc, Finished};
    if me.recordAt.Some? && me.recordAt.value + ttl <= w.now {
      OldRecordsStayGone(w, ttl, step, me);
    }
  }

  /** No call creates a record that has expired already. */
  lemma OldRecordsStayGone(w: World, ttl: Duration, step: Step, me: Worker)
    requires !step.Wait? && me.recordAt.Some? && me.recordAt.value + ttl <= w.now
    requires var leaf := Leaf(Marshal(me.spec), At(me.recordAt.value + ttl));
      !HasRecord(w.tree, me.spec.podName, KeyOf(me), leaf)
    ensures var leaf := Leaf(Marshal(me.spec), At(me.recordAt.value + ttl));
      !HasRecord(Next(w, ttl, step).tree, me.spec.podName, KeyOf(me), leaf)
  {
  }

  lemma PromiseCalls(w: World, ttl: Duration, id: nat, fate: Fate)
    requires id in w.workers && Promise(w, ttl, id)
    ensures Promise(CallStep(w, ttl, id, fate), ttl, id)
  {
    RepairIsSafe(w, ttl, Call(id, fate), w.workers[id].spec.podName);
  }

  /**
   * In every interleaving, from any state of the tree: if a handler's directory set takes effect
   * at t1 and its record set at t2, its record is there from t2 until t1 + TTL at least, and gone
   * at t2 + TTL, whatever other handlers and clients do.
   */
  lemma {:induction false} RenewedReportsAreKept(w: World, ttl: Duration, steps: seq<Step>, id: nat)
    requires w.workers == map[]
    ensures id in Run(w, ttl, steps).workers ==> Promise(Run(w, ttl, steps), ttl, id)
  {
    if steps != [] {
      var n := |steps| - 1;
      var before, step := Run(w, ttl, steps[..n]), steps[n];
      RenewedReportsAreKept(w, ttl, steps[..n], id);
      if id in before.workers {
        if step.Wait? {
          PromiseWaits(before, ttl, step.d, id);
        } else if step.Call? && step.id == id {
          PromiseCalls(before, ttl, id, step.fate);
        } else {
          PromiseStands(before, ttl, step, id);
        }
      }
    }
  }

  /** The promise spelled out for a handler that has made both sets. */
  lemma RecordIsPresentThenGone(w: World, ttl: Duration, steps: seq<Step>, id: nat, t1: Time, t2: Time)
    requires w.workers == map[] && id in Run(w, ttl, steps).workers
    requires Run(w, ttl, steps).workers[id].dirAt == Some(t1)
    requires Run(w, ttl, steps).workers[id].recordAt == Some(t2)
    ensures t1 <= t2 <= Run(w, ttl, steps).now
    ensures Run(w, ttl, steps).now < t1 + ttl ==> HasOwnRecord(Run(w, ttl, steps), ttl, id)
    ensures t2 + ttl <= Run(w, ttl, steps).now ==> !HasOwnRecord(Run(w, ttl, steps), ttl, id)
  {
    RenewedReportsAreKept(w, ttl, steps, id);
    assert Promise(Run(w, ttl, steps), ttl, id);
  }

  lemma NextIsSound(w: World, ttl: Duration, step: Step)
    requires SoundTree(w.tree)
    ensures SoundTree(Next(w, ttl, step).tree)
  {
    var tree := Next(w, ttl, step).tree;
    forall p, k | p in tree && k in Leaves(tree[p]) ensures Complete(Leaves(tree[p])[k].doc) {
      if p in w.tree && k in Leaves(w.tree[p]) {
        assert Leaves(tree[p])[k] == Leaves(w.tree[p])[k];
      }
    }
  }

  lemma {:induction false} RunIsSound(w: World, ttl: Duration, steps: seq<Step>)
    requires SoundTree(w.tree)
    ensures SoundTree(Run(w, ttl, steps).tree)
  {
    if steps != [] {
      RunIsSound(w, ttl, steps[..|steps| - 1]);
      NextIsSound(Run(w, ttl, steps[..|steps| - 1]), ttl, steps[|steps| - 1]);
    }
  }

  /**
   * So whatever the handlers do to each other, getAgents returns the pod of a report with both
   * sets made until t1 + TTL, with an uptime no smaller than the report's.
   */
  lemma RenewedReportsAreReturned(
      w: World, ttl: Duration, steps: seq<Step>, id: nat, t1: Time, t2: Time, listing: seq<Listed>)
    requires w.workers == map[] && SoundTree(w.tree) && id in Run(w, ttl, steps).workers
    requires Run(w, ttl, steps).workers[id].dirAt == Some(t1)
    requires Run(w, ttl, steps).workers[id].recordAt == Some(t2)
    requires Run(w, ttl, steps).workers[id].spec.uptime > 0 && Run(w, ttl, steps).now < t1 + ttl
    requires IsListing(listing, Run(w, ttl, steps).tree)
    ensures var spec, agents := Run(w, ttl, steps).workers[id].spec, ScanNodes(listing).agents;
      spec.podName in agents && spec.uptime <= agents[spec.podName].plain.uptime
  {
    var end := Run(w, ttl, steps);
    var spec, key := end.workers[id].spec, KeyOf(end.workers[id]);
    RecordIsPresentThenGone(w, ttl, steps, id, t1, t2);
    RunIsSound(w, ttl, steps);
    MarshalKeepsScalars(spec);
    assert key in LeavesAt(end.tree, spec.podName);
    GetAgentsByTree(end.tree, listing, spec.podName);
  }

  // ----- Exactly how long an accepted report is kept -----

  /** The record is there, under a directory that is due to live until `t`. */
  ghost predicate Safe(w: World, pod: string, key: string, leaf: Leaf, t: Time) {
    HasRecord(w.tree, pod, key, leaf) && (w.tree[pod].expiry.Never? || t <= w.tree[pod].expiry.time)
  }

  lemma {:induction false} SafeStays(
      w: World, ttl: Duration, steps: seq<Step>, pod: string, key: string, leaf: Leaf, t: Time)
    requires Safe(w, pod, key, leaf, t) && leaf.expiry.At? && t <= leaf.expiry.time && t <= w.now + ttl
    requires Run(w, ttl, steps).now < t
    ensures w.now <= Run(w, ttl, steps).now && Safe(Run(w, ttl, steps), pod, key, leaf, t)
  {
    if steps != [] {
      var before, step := Run(w, ttl, steps[..|steps| - 1]), steps[|steps| - 1];
      SafeStays(w, ttl, steps[..|steps| - 1], pod, key, leaf, t);
      if !step.Wait? {
        RepairIsSafe(before, ttl, step, pod);
      }
    }
  }

  /** Whatever the steps from here, the record is there as long as the clock is before `t`. */
  ghost predicate KeptUntil(w: World, ttl: Duration, pod: string, key: string, leaf: Leaf, t: Time) {
    forall steps :: Run(w, ttl, steps).now < t ==> HasRecord(Run(w, ttl, steps).tree, pod, key, leaf)
  }

  /** A record is safe in every interleaving exactly as long as its directory is due to live by now. */
  lemma KeptIffDirectoryLives(w: World, ttl: Duration, pod: string, key: string, leaf: Leaf, t: Time)
    requires HasRecord(w.tree, pod, key, leaf) && Live(w.tree[pod].expiry, w.now)
    requires leaf.expiry.At? && w.now < t <= leaf.expiry.time <= w.now + ttl
    ensures KeptUntil(w, ttl, pod, key, leaf, t) <==> w.tree[pod].expiry.Never? || t <= w.tree[pod].expiry.time
  {
    if Safe(w, pod, key, leaf, t) {
      forall steps | Run(w, ttl, steps).now < t ensures HasRecord(Run(w, ttl, steps).tree, pod, key, leaf) {
        SafeStays(w, ttl, steps, pod, key, leaf, t);
      }
    } else {
      var wait := [Wait(w.tree[pod].expiry.time - w.now)];
      assert wait[..0] == [] && Run(w, ttl, wait) == Next(w, ttl, wait[0]);
      assert pod !in Run(w, ttl, wait).tree;
    }
  }

  /** Nothing expired is visible. */
  predicate AllLive(w: World) {
    forall p :: p in w.tree ==> Live(w.tree[p].expiry, w.now)
  }

  lemma {:induction false} RunIsLive(w: World, ttl: Duration, steps: seq<Step>)
    requires AllLive(w)
    ensures AllLive(Run(w, ttl, steps))
  {
    if steps != [] {
      RunIsLive(w, ttl, steps[..|steps| - 1]);
      NextIsLive(Run(w, ttl, steps[..|steps| - 1]), ttl, steps[|steps| - 1]);
    }
  }

  lemma NextIsLive(w: World, ttl: Duration, step: Step)
    requires AllLive(w)
    ensures AllLive(Next(w, ttl, step))
  {
  }

  /**
   * Exactly how long a handler may count on its report, at any point of any interleaving, by what
   * its record set finds: for the full TTL if there is no directory or one without a TTL, and
   * else until the directory expires as things stand. A directory set of its own is one way to
   * have that a TTL away, not the only one.
   */
  lemma AcceptedReportIsKeptIff(w0: World, ttl: Duration, steps: seq<Step>, id: nat, fate: Fate, t: Time)
    requires AllLive(w0)
    requires id in Run(w0, ttl, steps).workers && Run(w0, ttl, steps).workers[id].pc.AtSetRecord?
    requires CallStep(Run(w0, ttl, steps), ttl, id, fate).workers[id].recordAt.Some?
    requires var w := Run(w0, ttl, steps);
      w.now < t <= w.now + ttl
    ensures var w := Run(w0, ttl, steps);
      var me, w' := w.workers[id], CallStep(w, ttl, id, fate);
      var pod := me.spec.podName;
      KeptUntil(w', ttl, pod, KeyOf(me), Leaf(Marshal(me.spec), At(w.now + ttl)), t) <==>
      pod !in w.tree || w.tree[pod].expiry.Never? || t <= w.tree[pod].expiry.time
  {
    var w := Run(w0, ttl, steps);
    var me, w' := w.workers[id], CallStep(w, ttl, id, fate);
    RunIsLive(w0, ttl, steps);
    KeptIffDirectoryLives(w', ttl, me.spec.podName, KeyOf(me), Leaf(Marshal(me.spec), At(w.now + ttl)), t);
  }

  // ----- Without interference, and where interference shows -----

  /** The world after `n` answered calls of one handler in a row. */
  function Alone(w: World, ttl: Duration, id: nat, n: nat): World {
    if n == 0 then w else Next(Alone(w, ttl, id, n - 1), ttl, Call(id, Answered))
  }

  lemma AloneRecords(w: World, ttl: Duration, id: nat)
    requires id in w.workers && w.workers[id].pc.AtSetRecord?
    requires IsDirectory(w.tree, w.workers[id].spec.podName)
    requires w.tree[w.workers[id].spec.podName].expiry == At(w.now + ttl)
    ensures Next(w, ttl, Call(id, Answered)).tree == ReportTree(w.tree, w.now, ttl, w.workers[id].spec)
  {
  }

  predicate IsDirectory(tree: Tree, pod: string) {
    pod in tree && tree[pod].Dir?
  }

  /** The calls before the record set leave a directory with a full TTL and the records it had. */
  lemma AloneRenews(w: World, ttl: Duration, id: nat)
    requires id in w.workers && w.workers[id].pc.AtGet?
    ensures var pod := w.workers[id].spec.podName;
      var n := if pod in w.tree && w.tree[pod].File? then 3 else 2;
      var w' := Alone(w, ttl, id, n);
      && w'.now == w.now && id in w'.workers && w'.workers.Keys == w.workers.Keys
      && w'.workers[id].pc.AtSetRecord? && w'.workers[id].spec == w.workers[id].spec
      && w'.tree == w.tree[pod := Dir(At(w.now + ttl), LeavesAt(w.tree, pod))]
  {
    var c := Call(id, Answered);
    var w1 := Next(w, ttl, c);
    var w2 := Next(w1, ttl, c);
    assert w1 == Alone(w, ttl, id, 1) && w2 == Alone(w, ttl, id, 2);
    assert Next(w2, ttl, c) == Alone(w, ttl, id, 3);
  }

  /** Undisturbed, a handler's calls make the report that the store promises. */
  lemma UndisturbedCallsMakeReport(w: World, ttl: Duration, id: nat, spec: AgentSpec)
    requires id !in w.workers
    ensures Alone(Next(w, ttl, Arrive(id, spec)), ttl, id, 4).tree ==
      ReportTree(w.tree, w.now, ttl, Stamped(spec, w.now))
  {
    var w1 := Next(w, ttl, Arrive(id, spec));
    AloneRenews(w1, ttl, id);
    if spec.podName in w.tree && w.tree[spec.podName].File? {
      AloneRecords(Alone(w1, ttl, id, 3), ttl, id);
    } else {
      AloneRecords(Alone(w1, ttl, id, 2), ttl, id);
      assert Alone(w1, ttl, id, 3).workers[id].pc.Finished?;
    }
  }

  ghost predicate Permanent(tree: Tree, pod: string) {
    pod in tree && tree[pod].Dir? && tree[pod].expiry.Never?
  }

  /** A record set reaches etcd while there is nothing under the pod's name: the parent is made on the way. */
  predicate MakesPermanent(w: World, step: Step, pod: string) {
    && step.Call? && !step.fate.Dropped? && step.id in w.workers
    && w.workers[step.id].pc.AtSetRecord? && w.workers[step.id].spec.podName == pod
    && pod !in w.tree
  }

  /** The update of a directory that its handler saw reaches etcd. */
  predicate Renews(w: World, step: Step, pod: string) {
    && step.Call? && !step.fate.Dropped? && step.id in w.workers
    && w.workers[step.id].pc == AtSetDir(true) && w.workers[step.id].spec.podName == pod
  }

  lemma PermanentNext(w: World, ttl: Duration, step: Step, pod: string)
    ensures Permanent(Next(w, ttl, step).tree, pod) <==>
      MakesPermanent(w, step, pod) || (Permanent(w.tree, pod) && !Renews(w, step, pod))
  {
  }

  /** Step `i` makes the pod's directory permanent, and none after it gives it a TTL again. */
  ghost predicate StaysPermanentFrom(w: World, ttl: Duration, steps: seq<Step>, pod: string, i: nat) {
    && i < |steps| && MakesPermanent(Run(w, ttl, steps[..i]), steps[i], pod)
    && forall j :: i < j < |steps| ==> !Renews(Run(w, ttl, steps[..j]), steps[j], pod)
  }

  lemma StaysPermanentLonger(w: World, ttl: Duration, init: seq<Step>, step: Step, pod: string, i: nat)
    requires i < |init|
    ensures StaysPermanentFrom(w, ttl, init + [step], pod, i) <==>
      StaysPermanentFrom(w, ttl, init, pod, i) && !Renews(Run(w, ttl, init), step, pod)
  {
    var steps, n := init + [step], |init|;
    assert forall j :: 0 <= j < n ==> steps[..j] == init[..j] && steps[j] == init[j];
    assert steps[..n] == init && steps[n] == step;
  }

  /**
   * Over every interleaving, a directory is without a TTL exactly when some record set found
   * nothing under the pod's name, and no update of the directory has reached etcd since.
   */
  lemma {:induction false} PermanentIff(w: World, ttl: Duration, steps: seq<Step>, pod: string)
    requires !Permanent(w.tree, pod)
    ensures Permanent(Run(w, ttl, steps).tree, pod) <==> exists i: nat :: StaysPermanentFrom(w, ttl, steps, pod, i)
  {
    if steps != [] {
      var n := |steps| - 1;
      var init, step := steps[..n], steps[n];
      assert steps == init + [step];
      PermanentIff(w, ttl, init, pod);
      PermanentNext(Run(w, ttl, init), ttl, step, pod);
      forall i: nat | i < n
        ensures StaysPermanentFrom(w, ttl, steps, pod, i) <==>
          StaysPermanentFrom(w, ttl, init, pod, i) && !Renews(Run(w, ttl, init), step, pod)
      {
        StaysPermanentLonger(w, ttl, init, step, pod, i);
      }
      assert StaysPermanentFrom(w, ttl, steps, pod, n) <==> MakesPermanent(Run(w, ttl, init), step, pod);
    }
  }

  /**
   * One agent, whose reports never overlap: its second get sees the directory of its first
   * report, which expires before the directory is set; then the record set makes one without a TTL.
   */
  function SlowReport(ttl: Duration, first: AgentSpec, second: AgentSpec): World {
    var w1 := Alone(Next(World(0, map[], map[]), ttl, Arrive(0, first)), ttl, 0, 3);
    var w2 := Next(Next(w1, ttl, Wait(ttl - 1)), ttl, Arrive(1, second));
    var w3 := Next(Next(w2, ttl, Call(1, Answered)), ttl, Wait(1));
    Next(Next(w3, ttl, Call(1, Answered)), ttl, Call(1, Answered))
  }

  /** So a directory can be left without a TTL with every call answered and no two handlers at once. */
  lemma SlowReportMakesPermanent(ttl: Duration, first: AgentSpec, second: AgentSpec)
    requires first.podName == second.podName
    ensures var end := SlowReport(ttl, first, second);
      && Permanent(end.tree, first.podName)
      && forall id :: id in end.workers ==> end.workers[id].pc.Finished?
  {
    var pod := first.podName;
    var w0 := Next(World(0, map[], map[]), ttl, Arrive(0, first));
    AloneRenews(w0, ttl, 0);
    var w1 := Alone(w0, ttl, 0, 3);
    assert w1.workers[0].pc.Finished? && w1.workers.Keys == {0};
    assert pod in w1.tree && w1.tree[pod].Dir? && w1.tree[pod].expiry == At(ttl);
    var w2 := Next(Next(w1, ttl, Wait(ttl - 1)), ttl, Arrive(1, second));
    var w3 := Next(Next(w2, ttl, Call(1, Answered)), ttl, Wait(1));
    assert w3.workers[1].pc == AtSetDir(true) && pod !in w3.tree;
    var w4 := Next(w3, ttl, Call(1, Answered));
    assert w4.workers[1].pc == AtSetRecord && pod !in w4.tree;
  }

  /**
   * Two handlers find nothing; the second makes the directory; just before that expires, the
   * first fails to make it again and sets its record all the same; then the directory expires.
   */
  function Race(ttl: Duration, first: AgentSpec, second: AgentSpec): World {
    var w1 := Next(World(0, map[], map[]), ttl, Arrive(0, first));
    var w2 := Next(w1, ttl, Arrive(1, second));
    var w3 := Next(w2, ttl, Call(0, Answered));
    var w4 := Next(w3, ttl, Call(1, Answered));
    var w5 := Next(w4, ttl, Call(1, Answered));
    var w6 := Next(w5, ttl, Wait(ttl - 1));
    var w7 := Next(w6, ttl, Call(0, Answered));
    var w8 := Next(w7, ttl, Call(0, Answered));
    Next(w8, ttl, Wait(1))
  }

  /** Where the directory is about to expire, an accepted report can be lost the moment after. */
  lemma UnrenewedReportMayVanish(ttl: Duration, first: AgentSpec, second: AgentSpec)
    requires first.podName == second.podName
    ensures var end := Race(ttl, first, second);
      && 0 in end.workers && end.workers[0].dirAt == None && end.workers[0].recordAt == Some(end.now - 1)
      && first.podName !in end.tree
  {
    var pod := first.podName;
    var w2 := Next(Next(World(0, map[], map[]), ttl, Arrive(0, first)), ttl, Arrive(1, second));
    var w4 := Next(Next(w2, ttl, Call(0, Answered)), ttl, Call(1, Answered));
    assert w4.workers[0].pc == AtSetDir(false) && w4.workers[1].pc == AtSetDir(false);
    var w5 := Next(w4, ttl, Call(1, Answered));
    assert w5.tree == map[pod := Dir(At(ttl), map[])];
    var w6 := Next(w5, ttl, Wait(ttl - 1));
    assert pod in w6.tree && w6.tree[pod] == Dir(At(ttl), map[]);
    var w7 := Next(w6, ttl, Call(0, Answered));
    assert w7.workers[0].pc == AtSetRecord && w7.workers[0].dirAt == None;
    var w8 := Next(w7, ttl, Call(0, Answered));
    assert w8.workers[0].recordAt == Some(ttl - 1);
    assert pod in w8.tree && w8.tree[pod].expiry == At(ttl);
  }
}
