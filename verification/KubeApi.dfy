/**
 * The part of the Kubernetes API server the store relies on, an assumption written out: agents
 * are objects with a resource version that every write makes anew, and an update that names a
 * version succeeds only on that version.
 */
module KubeApi {
  import opened Types

  datatype Agent = Agent(spec: AgentSpec, version: nat)

  type Store = map<string, Agent>

  datatype GetResult = Found(agent: Agent) | NotFound | Failed

  function Lookup(store: Store, name: string): GetResult {
    if name in store then Found(store[name]) else NotFound
  }

  /** Create makes a new object; it refuses a name that is taken. */
  function Created(store: Store, next: nat, name: string, spec: AgentSpec): (Store, bool) {
    if name in store then (store, false) else (store[name := Agent(spec, next)], true)
  }

  /** Update replaces an object; without a version it replaces whatever is there. */
  function Updated(store: Store, next: nat, name: string, spec: AgentSpec, version: Option<nat>): (Store, bool) {
    if name !in store || (version.Some? && store[name].version != version.value) then (store, false)
    else (store[name := Agent(spec, next)], true)
  }

  /** A call is answered, fails without effect, or takes effect with its answer lost. */
  datatype Fate = Answered | Dropped | AnswerLost

  /** The answer of listing the agents' pods; a server without a client for it cannot list. */
  datatype PodList = NoClient | Listed(names: seq<string>) | ListError

  /** A write as the client asks for it. */
  datatype WriteCall =
    | CreateCall(name: string, spec: AgentSpec)
    | UpdateCall(name: string, spec: AgentSpec, version: Option<nat>)

  /**
   * The clientset. While `up` does not hold, any call may fail, before or after it took effect.
   * `writes` is history.
   */
  class AgentsClient {
    var store: Store
    var next: nat
    var up: bool
    ghost var writes: seq<WriteCall>

    /** A client that comes upon a store with these agents; the next version is `next`. */
    constructor (store: Store, next: nat)
      ensures this.store == store && this.next == next && up
    {
      this.store, this.next, up, writes := store, next, true, [];
    }

    method Get(name: string) returns (r: GetResult)
      ensures r == Lookup(store, name) || (!up && r.Failed?)
    {
      r := Lookup(store, name);
      var answered: bool := *;
      if !up && !answered {
        r := Failed;
      }
    }

    /** The object's spec as the server answers it, or nothing on an error. */
    method Create(name: string, spec: AgentSpec) returns (r: Option<AgentSpec>)
      modifies `store, `next, `writes
      ensures writes == old(writes) + [CreateCall(name, spec)]
      ensures r.Some? ==> r.value == spec && (store, true) == Created(old(store), old(next), name, spec)
      ensures store in {old(store), Created(old(store), old(next), name, spec).0}
      ensures r.None? ==> !up || name in old(store)
    {
      var (after, ok) := Created(store, next, name, spec);
      writes := writes + [CreateCall(name, spec)];
      r := Write(after, ok, spec);
    }

    method Update(name: string, spec: AgentSpec, version: Option<nat>) returns (r: Option<AgentSpec>)
      modifies `store, `next, `writes
      ensures writes == old(writes) + [UpdateCall(name, spec, version)]
      ensures r.Some? ==> r.value == spec && (store, true) == Updated(old(store), old(next), name, spec, version)
      ensures store in {old(store), Updated(old(store), old(next), name, spec, version).0}
      ensures r.None? ==> !up || !Updated(old(store), old(next), name, spec, version).1
    {
      var (after, ok) := Updated(store, next, name, spec, version);
      writes := writes + [UpdateCall(name, spec, version)];
      r := Write(after, ok, spec);
    }

    /** A write that the server would accept or not, over a connection that may fail either way. */
    method Write(after: Store, ok: bool, spec: AgentSpec) returns (r: Option<AgentSpec>)
      modifies `store, `next
      ensures store in {old(store), after}
      ensures r.Some? ==> ok && r.value == spec && store == after
      ensures r.None? ==> !up || !ok
    {
      var reached: bool, answered: bool := *, *;
      r := None;
      if ok && (up || reached) {
        store, next := after, next + 1;
        if up || answered {
          r := Some(spec);
        }
      }
    }
  }
}
