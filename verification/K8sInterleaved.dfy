/**
 * Report handlers of the Kubernetes store that overlap: get, clean, create or update, and the
 * cache write are separate steps, and any call can fail with or without having taken effect.
 */
module K8sInterleaved {
  import opened Types
  import opened KubeApi
  import opened StorerK8s

  /** Where a handler stands. `read` is the object its get returned. */
  datatype Pc =
    | AtGet
    | AtClean
    | AtCreate
    | AtUpdate(read: Option<Agent>)
    | AtCache(answer: AgentSpec)
    | Finished

  datatype Worker = Worker(name: string, spec: AgentSpec, pc: Pc)

  /**
   * The last three are history: every object the store held, and the handlers that wrote a
   * name's object and a name's cache entry last.
   */
  datatype World = World(
    store: Store,
    next: nat,
    cache: Cache,
    workers: map<nat, Worker>,
    held: set<(string, Agent)>,
    writer: map<string, nat>,
    cacher: map<string, nat>)

  /** A server process starts: its cache is empty, and the store is as earlier ones left it. */
  predicate Begins(w: World) {
    && w.cache == map[] && w.workers == map[] && w.writer == map[] && w.cacher == map[]
    && w.held == (set n | n in w.store :: (n, w.store[n]))
    && forall n :: n in w.store ==> w.store[n].version < w.next
  }

  datatype Step =
    | Arrive(id: nat, name: string, spec: AgentSpec)
    | Go(id: nat, fate: Fate, pods: PodList)
    | Clean(pods: PodList)

  /** The handler moves on. */
  function Goto(w: World, id: nat, pc: Pc): World
    requires id in w.workers
  {
    w.(workers := w.workers[id := w.workers[id].(pc := pc)])
  }

  /** The result of a create or update that a handler makes; an error comes with the empty spec. */
  function Write(w: World, id: nat, outcome: (Store, bool), fate: Fate): World
    requires id in w.workers
  {
    var me := w.workers[id];
    var takesEffect := outcome.1 && !fate.Dropped?;
    var after := if takesEffect then
        w.(store := outcome.0, next := w.next + 1,
           held := w.held + {(me.name, Agent(me.spec, w.next))}, writer := w.writer[me.name := id])
      else w;
    Goto(after, id, AtCache(if takesEffect && fate.Answered? then me.spec else EMPTY_SPEC))
  }

  /** What a handler does after its get: `read` is the object it goes on to update. */
  function AfterGet(found: GetResult): Pc {
    match found
    case NotFound => AtClean
    case Found(agent) => AtUpdate(Some(agent))
    case Failed => AtUpdate(None)
  }

  function GoStep(w: World, id: nat, fate: Fate, pods: PodList): World
    requires id in w.workers
  {
    var me := w.workers[id];
    match me.pc
    case AtGet => Goto(w, id, AfterGet(if fate.Answered? then Lookup(w.store, me.name) else Failed))
    case AtClean => Goto(w.(cache := Cleaned(w.cache, pods)), id, AtCreate)
    case AtCreate => Write(w, id, Created(w.store, w.next, me.name, me.spec), fate)
    case AtUpdate(read) =>
      var version := if read.Some? then Some(read.value.version) else None;
      Write(w, id, Updated(w.store, w.next, me.name, me.spec, version), fate)
    case AtCache(answer) =>
      Goto(w.(cache := w.cache[me.name := answer], cacher := w.cacher[me.name := id]), id, Finished)
    case Finished => w
  }

  function Next(w: World, step: Step): World {
    match step
    case Arrive(id, name, spec) =>
      if id in w.workers then w else w.(workers := w.workers[id := Worker(name, spec, AtGet)])
    case Go(id, fate, pods) => if id in w.workers then GoStep(w, id, fate, pods) else w
    case Clean(pods) => w.(cache := Cleaned(w.cache, pods))
  }

  function Run(w: World, steps: seq<Step>): World {
    if steps == [] then w else Next(Run(w, steps[..|steps| - 1]), steps[|steps| - 1])
  }

  // ----- What a step does -----

  predicate IsWrite(w: World, step: Step) {
    step.Go? && step.id in w.workers && (w.workers[step.id].pc.AtCreate? || w.workers[step.id].pc.AtUpdate?)
  }

  /** The write of handler `id` changes the store: read off before the call. */
  predicate TakesEffect(w: World, id: nat, fate: Fate)
    requires id in w.workers
  {
    var me := w.workers[id];
    && !fate.Dropped?
    && match me.pc
       case AtCreate => me.name !in w.store
       case AtUpdate(read) =>
         me.name in w.store && (read.Some? ==> w.store[me.name].version == read.value.version)
       case _ => false
  }

  /** What a write by handler `id` changes: its own place, and at most its name's object. */
  ghost predicate WriteEffect(w: World, w': World, id: nat, fate: Fate)
    requires id in w.workers
  {
    var me := w.workers[id];
    && w'.cache == w.cache && w'.cacher == w.cacher
    && w'.workers.Keys == w.workers.Keys
    && (forall other :: other in w.workers && other != id ==> w'.workers[other] == w.workers[other])
    && w'.workers[id] in {me.(pc := AtCache(EMPTY_SPEC)), me.(pc := AtCache(me.spec))}
    && if TakesEffect(w, id, fate) then
         && w'.store == w.store[me.name := Agent(me.spec, w.next)] && w'.next == w.next + 1
         && w'.held == w.held + {(me.name, Agent(me.spec, w.next))} && w'.writer == w.writer[me.name := id]
       else
         && w'.store == w.store && w'.next == w.next && w'.held == w.held && w'.writer == w.writer
         && w'.workers[id].pc.answer == EMPTY_SPEC
  }

  /** What any other step does to the cache: a cleaning, or a handler's own entry. */
  ghost predicate CacheEffect(w: World, w': World, step: Step) {
    if step.Go? && step.id in w.workers && w.workers[step.id].pc.AtCache? then
      var me := w.workers[step.id];
      && w'.cache == w.cache[me.name := me.pc.answer] && w'.cacher == w.cacher[me.name := step.id]
      && w'.workers == w.workers[step.id := me.(pc := Finished)]
    else (forall n :: n in w'.cache ==> n in w.cache && w'.cache[n] == w.cache[n]) && w'.cacher == w.cacher
  }

  /** The handler has made its write. */
  predicate HasWritten(me: Worker) {
    me.pc.AtCache? || me.pc.Finished?
  }

  /** What it does to the handlers: one may arrive or move on, and never to a cache write. */
  ghost predicate WorkersEffect(w: World, w': World, step: Step) {
    && (forall id :: id in w.workers ==>
          && id in w'.workers && w'.workers[id].name == w.workers[id].name && w'.workers[id].spec == w.workers[id].spec
          && (HasWritten(w.workers[id]) ==>
                w'.workers[id] == w.workers[id] || (step.Go? && step.id == id && w'.workers[id].pc.Finished?)))
    && (forall id :: id in w'.workers ==>
          || (id in w.workers && w'.workers[id] == w.workers[id])
          || Moved(w, w'.workers[id]))
  }

  predicate Moved(w: World, me: Worker) {
    !me.pc.AtCache? && (me.pc.AtUpdate? && me.pc.read.Some? ==> Lookup(w.store, me.name) == Found(me.pc.read.value))
  }

  ghost predicate QuietEffect(w: World, w': World, step: Step) {
    && w'.store == w.store && w'.next == w.next && w'.held == w.held && w'.writer == w.writer
    && CacheEffect(w, w', step) && WorkersEffect(w, w', step)
  }

  lemma WriteHasEffect(w: World, step: Step)
    requires IsWrite(w, step)
    ensures WriteEffect(w, Next(w, step), step.id, step.fate)
  {
  }

  lemma GotoHasEffect(w: World, w1: World, id: nat, pc: Pc, step: Step)
    requires id in w.workers && w1.workers == w.workers && Moved(w, w.workers[id].(pc := pc))
    requires w1.store == w.store && w1.next == w.next && w1.held == w.held && w1.writer == w.writer
    requires step.Go? && step.id == id && (HasWritten(w.workers[id]) ==> pc.Finished?)
    requires CacheEffect(w, Goto(w1, id, pc), step)
    ensures QuietEffect(w, Goto(w1, id, pc), step)
  {
  }

  lemma QuietGoHasEffect(w: World, step: Step)
    requires step.Go? && step.id in w.workers && !IsWrite(w, step)
    ensures QuietEffect(w, Next(w, step), step)
  {
    var id, me := step.id, w.workers[step.id];
    match me.pc {
      case AtGet =>
        GotoHasEffect(w, w, id, AfterGet(if step.fate.Answered? then Lookup(w.store, me.name) else Failed), step);
      case AtClean => GotoHasEffect(w, w.(cache := Cleaned(w.cache, step.pods)), id, AtCreate, step);
      case AtCache(answer) =>
        GotoHasEffect(
          w, w.(cache := w.cache[me.name := answer], cacher := w.cacher[me.name := id]), id, Finished, step);
      case Finished =>
    }
  }

  lemma QuietStepHasEffect(w: World, step: Step)
    requires !IsWrite(w, step)
    ensures QuietEffect(w, Next(w, step), step)
  {
    if step.Go? && step.id in w.workers {
      QuietGoHasEffect(w, step);
    }
  }

  // ----- Where cached specs come from -----

  /** The store held this spec under this name at some time. */
  ghost predicate WasHeld(w: World, name: string, spec: AgentSpec) {
    exists v :: (name, Agent(spec, v)) in w.held
  }

  ghost predicate WorkerSound(w: World, me: Worker) {
    match me.pc
    case AtUpdate(read) => read.Some? ==> (me.name, read.value) in w.held
    case AtCache(answer) => answer == EMPTY_SPEC || WasHeld(w, me.name, answer)
    case _ => true
  }

  /** Versions are used once, and caches and handlers know only what the store held. */
  ghost predicate Sound(w: World) {
    && (forall n, a :: (n, a) in w.held ==> a.version < w.next)
    && (forall n, a, a' :: (n, a) in w.held && (n, a') in w.held && a.version == a'.version ==> a == a')
    && (forall n :: n in w.store ==> (n, w.store[n]) in w.held)
    && (forall n :: n in w.cache ==> w.cache[n] == EMPTY_SPEC || WasHeld(w, n, w.cache[n]))
    && (forall id :: id in w.workers ==> WorkerSound(w, w.workers[id]))
  }

  lemma HeldStays(w: World, w': World)
    requires w.held <= w'.held
    ensures forall n, spec :: WasHeld(w, n, spec) ==> WasHeld(w', n, spec)
    ensures forall id :: id in w.workers && WorkerSound(w, w.workers[id]) ==> WorkerSound(w', w.workers[id])
  {
    forall n, spec | WasHeld(w, n, spec) ensures WasHeld(w', n, spec) {
      var v :| (n, Agent(spec, v)) in w.held;
      assert (n, Agent(spec, v)) in w'.held;
    }
  }

  lemma WriteIsSound(w: World, w': World, id: nat, fate: Fate)
    requires Sound(w) && id in w.workers && WriteEffect(w, w', id, fate)
    ensures Sound(w')
  {
    var me := w.workers[id];
    HeldStays(w, w');
    if w'.next != w.next {
      assert (me.name, Agent(me.spec, w.next)) in w'.held;
      assert WasHeld(w', me.name, me.spec);
    }
    forall other | other in w'.workers ensures WorkerSound(w', w'.workers[other]) {
      if other != id { assert w'.workers[other] == w.workers[other]; }
    }
  }

  lemma QuietStepIsSound(w: World, w': World, step: Step)
    requires Sound(w) && QuietEffect(w, w', step)
    ensures Sound(w')
  {
    HeldStays(w, w');
    if step.Go? && step.id in w.workers {
      assert WorkerSound(w, w.workers[step.id]);
    }
  }

  lemma NextIsSound(w: World, step: Step)
    requires Sound(w)
    ensures Sound(Next(w, step))
  {
    if IsWrite(w, step) {
      WriteHasEffect(w, step);
      WriteIsSound(w, Next(w, step), step.id, step.fate);
    } else {
      QuietStepHasEffect(w, step);
      QuietStepIsSound(w, Next(w, step), step);
    }
  }

  /**
   * In every interleaving with any calls failing, over whatever store the process found, a cached
   * spec is one that the store held under that name at some time, or the empty spec that a failed
   * write leaves behind.
   */
  lemma {:induction false} CachedSpecsWereHeld(w0: World, steps: seq<Step>, name: string)
    requires Begins(w0)
    ensures Sound(Run(w0, steps))
    ensures var w := Run(w0, steps);
      name in w.cache ==> w.cache[name] == EMPTY_SPEC || WasHeld(w, name, w.cache[name])
  {
    if steps != [] {
      CachedSpecsWereHeld(w0, steps[..|steps| - 1], name);
      NextIsSound(Run(w0, steps[..|steps| - 1]), steps[|steps| - 1]);
    }
  }

  // ----- What a handler may overwrite -----

  /**
   * A step changes an object only by a handler's write to its own name. If the handler's get
   * found nothing, nothing was there; if its get succeeded, what it overwrites is what it read;
   * only a handler whose get failed overwrites blindly.
   */
  lemma NoReadIsOverwrittenUnseen(w0: World, steps: seq<Step>, step: Step, name: string)
    requires Begins(w0)
    requires var w := Run(w0, steps);
      Lookup(Next(w, step).store, name) != Lookup(w.store, name)
    ensures var w := Run(w0, steps);
      && step.Go? && step.id in w.workers && w.workers[step.id].name == name
      && var me := w.workers[step.id];
         && Lookup(Next(w, step).store, name) == Found(Agent(me.spec, w.next))
         && (me.pc.AtCreate? || me.pc.AtUpdate?)
         && (me.pc.AtCreate? ==> name !in w.store)
         && (me.pc.AtUpdate? ==> name in w.store && (me.pc.read.Some? ==> w.store[name] == me.pc.read.value))
  {
    CachedSpecsWereHeld(w0, steps, name);
    OnlyReadIsOverwritten(Run(w0, steps), step, name);
  }

  lemma OnlyReadIsOverwritten(w: World, step: Step, name: string)
    requires Sound(w) && Lookup(Next(w, step).store, name) != Lookup(w.store, name)
    ensures IsWrite(w, step) && w.workers[step.id].name == name
    ensures var me := w.workers[step.id];
      && Lookup(Next(w, step).store, name) == Found(Agent(me.spec, w.next))
      && (me.pc.AtCreate? ==> name !in w.store)
      && (me.pc.AtUpdate? ==> name in w.store && (me.pc.read.Some? ==> w.store[name] == me.pc.read.value))
  {
    if IsWrite(w, step) {
      WriteHasEffect(w, step);
      assert WorkerSound(w, w.workers[step.id]);
    } else {
      QuietStepHasEffect(w, step);
    }
  }

  /** The cleaning before a request keeps exactly the cached names that are listed. */
  lemma CleaningKeepsListed(w: World, pods: PodList)
    ensures Next(w, Clean(pods)) == w.(cache :=
      if pods.Listed? then map n | n in w.cache && n in pods.names :: w.cache[n] else w.cache)
  {
  }

  // ----- Without interference -----

  /** All calls of one handler in a row, with the fates of its get and of its write. */
  function Alone(w: World, id: nat, got: bool, write: Fate, pods: PodList): World
    requires id in w.workers
  {
    var w1 := Next(w, Go(id, if got then Answered else Dropped, pods));
    var w2 := if w1.workers[id].pc.AtClean? then Next(w1, Go(id, Answered, pods)) else w1;
    Next(Next(w2, Go(id, write, pods)), Go(id, Answered, pods))
  }

  /** The calls up to the write: what it is asked to create, or to update at which version. */
  lemma AloneComesToWrite(w: World, id: nat, got: bool, pods: PodList)
    requires id in w.workers && w.workers[id].pc.AtGet?
    ensures var me := w.workers[id];
      var w1 := Next(w, Go(id, if got then Answered else Dropped, pods));
      var w2 := if w1.workers[id].pc.AtClean? then Next(w1, Go(id, Answered, pods)) else w1;
      && w2.store == w.store && w2.next == w.next
      && w2.workers == w.workers[id := me.(pc :=
           if !got then AtUpdate(None) else if me.name in w.store then AtUpdate(Some(w.store[me.name])) else AtCreate)]
      && w2.cache ==
           if got && me.name !in w.store && pods.Listed? then map n | n in w.cache && n in pods.names :: w.cache[n]
           else w.cache
  {
  }

  /** The write and what is cached of it. */
  lemma AloneWrites(w: World, id: nat, write: Fate, pods: PodList)
    requires id in w.workers
    requires w.workers[id].pc == AtUpdate(None)
      || (w.workers[id].pc == AtCreate && w.workers[id].name !in w.store)
      || (w.workers[id].name in w.store && w.workers[id].pc == AtUpdate(Some(w.store[w.workers[id].name])))
    ensures var me := w.workers[id];
      var stored := (me.pc != AtUpdate(None) || me.name in w.store) && !write.Dropped?;
      var w' := Next(Next(w, Go(id, write, pods)), Go(id, Answered, pods));
      && id in w'.workers && w'.workers[id].pc.Finished?
      && w'.store == (if stored then w.store[me.name := Agent(me.spec, w.next)] else w.store)
      && w'.cache == w.cache[me.name := if stored && write.Answered? then me.spec else EMPTY_SPEC]
  {
  }

  /** Undisturbed, a handler's calls do to store and cache what a report does. */
  lemma UndisturbedCallsMakeReport(
      w: World, id: nat, name: string, spec: AgentSpec, got: bool, write: Fate, pods: PodList)
    requires id !in w.workers
    ensures var w' := Alone(Next(w, Arrive(id, name, spec)), id, got, write, pods);
      var known := name in w.store;
      var stored := (got || known) && !write.Dropped?;
      && id in w'.workers && w'.workers[id].pc.Finished?
      && w'.store == (if stored then w.store[name := Agent(spec, w.next)] else w.store)
      && w'.cache == (if got && !known && pods.Listed? then map n | n in w.cache && n in pods.names :: w.cache[n]
                      else w.cache)[name := if stored && write.Answered? then spec else EMPTY_SPEC]
  {
    var w0 := Next(w, Arrive(id, name, spec));
    AloneComesToWrite(w0, id, got, pods);
    var w1 := Next(w0, Go(id, if got then Answered else Dropped, pods));
    var w2 := if w1.workers[id].pc.AtClean? then Next(w1, Go(id, Answered, pods)) else w1;
    AloneWrites(w2, id, write, pods);
  }
}
