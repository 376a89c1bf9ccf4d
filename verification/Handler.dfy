/** The HTTP handler and the metrics loop, over either store. */
module Handlers {
  import opened Types
  import opened Metrics

  /** Names with no error counted since their last report. */
  predicate Clean(s: State, name: string) {
    name in s.entries && s.entries[name].errorsFromLastReport == 0
  }

  /** Etcd mode charges an absent name once until it reports again. */
  function NewlyAbsent(s: State, absent: seq<string>): set<string> {
    set n | n in absent && Clean(s, n)
  }

  /** A name charged in this round is no longer clean, so a second listing is not charged. */
  lemma NextAbsent(s: State, absent: seq<string>, i: nat)
    requires i < |absent|
    ensures NewlyAbsent(s, absent[..i + 1]) ==
            NewlyAbsent(s, absent[..i]) + if Clean(s, absent[i]) then {absent[i]} else {}
    ensures Clean(ChargeAll(s, NewlyAbsent(s, absent[..i])), absent[i]) <==>
            Clean(s, absent[i]) && absent[i] !in NewlyAbsent(s, absent[..i])
  {
    assert absent[..i + 1] == absent[..i] + [absent[i]];
  }

  function ChargeAbsent(s: State, absent: seq<string>): State {
    ChargeAll(s, NewlyAbsent(s, absent))
  }

  /** What converting an infinite quotient to an integer yields on amd64. */
  const NOT_AN_INT := -0x8000_0000_0000_0000

  function Abs(a: int): nat {
    if a < 0 then -a else a
  }

  /** Go's conversion of a quotient to an integer drops the fraction, toward zero. */
  function Truncated(a: int, b: int): int
    requires b != 0
  {
    if (a < 0) == (b < 0) then Abs(a) / Abs(b) else -(Abs(a) / Abs(b))
  }

  /** Whole report intervals since `lastUpdated`. */
  function Intervals(spec: AgentSpec, now: Time): int {
    if spec.reportInterval == 0 then NOT_AN_INT
    else Truncated(now - spec.lastUpdated, spec.reportInterval * SECOND)
  }

  predicate Late(s: State, cache: map<string, AgentSpec>, now: Time, name: string) {
    && name in cache && name in s.entries
    && Intervals(cache[name], now) > s.entries[name].errorsFromLastReport + 1
  }

  /** The late names among `names`. */
  function LateAmong(s: State, cache: map<string, AgentSpec>, now: Time, names: set<string>): set<string> {
    set n | n in names && Late(s, cache, now, n)
  }

  function LateNames(s: State, cache: map<string, AgentSpec>, now: Time): set<string> {
    LateAmong(s, cache, now, cache.Keys)
  }

  lemma NextLate(s: State, cache: map<string, AgentSpec>, now: Time, names: set<string>, name: string)
    requires name !in names
    ensures LateAmong(s, cache, now, names + {name}) ==
            LateAmong(s, cache, now, names) + if Late(s, cache, now, name) then {name} else {}
  {
  }

  /** Kubernetes mode charges a name while its errors lag behind the intervals gone by. */
  function ChargeLate(s: State, cache: map<string, AgentSpec>, now: Time): State {
    ChargeAll(s, LateNames(s, cache, now))
  }

  /** The answer to a connectivity check: status code and payload. */
  datatype Answer = Answer(status: nat, absent: seq<string>, outdated: seq<string>)

  const STATUS_OK: nat := 200
  const STATUS_BAD_REQUEST: nat := 400
  const STATUS_INTERNAL_SERVER_ERROR: nat := 500

  method ConnectivityCheck(check: Result<(seq<string>, seq<string>)>) returns (answer: Answer)
    ensures answer.status == STATUS_INTERNAL_SERVER_ERROR <==> check.Err?
    ensures answer.status == STATUS_OK <==> check == Ok(([], []))
    ensures answer.status in {STATUS_OK, STATUS_BAD_REQUEST, STATUS_INTERNAL_SERVER_ERROR}
    ensures (answer.absent, answer.outdated) == if check.Ok? then check.value else ([], [])
  {
    answer := Answer(STATUS_OK, [], []);
    if check.Err? {
      return answer.(status := STATUS_INTERNAL_SERVER_ERROR);
    }
    var (absent, outdated) := check.value;
    if |absent| != 0 || |outdated| != 0 {
      answer := Answer(STATUS_BAD_REQUEST, absent, outdated);
    }
  }

  class Handler {
    const metrics: NcAgentMetrics

    ghost predicate Valid()
      reads metrics, metrics.registry
    {
      metrics.Valid()
    }

    ghost function Abstract(): State
      requires Valid()
      reads metrics, metrics.registry, metrics.registry.ownCounters, metrics.registry.ownVectors
    {
      metrics.Abstract()
    }

    constructor (metrics: NcAgentMetrics)
      requires metrics.Valid()
      ensures Valid() && this.metrics == metrics
    {
      this.metrics := metrics;
    }

    /** The metrics half of UpdateAgents, whatever the store returned. */
    method Record(agentName: string, agentData: AgentSpec)
      requires Valid()
      modifies metrics, metrics.registry, metrics.registry.ownCounters, metrics.registry.ownVectors
      ensures Valid()
      ensures Abstract() == Handled(old(Abstract()), agentName, agentData)
      ensures fresh(metrics.registry.ownCounters - old(metrics.registry.ownCounters))
      ensures fresh(metrics.registry.ownVectors - old(metrics.registry.ownVectors))
    {
      ghost var s := Abstract();
      var am := metrics.NewAgentMetrics(agentData);
      metrics.Put(agentName, am, metrics.charged);
      metrics.UpdateAgentBaseMetrics(agentName, true, false);
      HandledInSteps(s, agentName, agentData, Abstract());
      metrics.UpdateAgentProbeMetrics(agentData, metrics.entries[agentName]);
    }

    /** One round of the metrics loop in etcd mode. */
    method CollectAbsent(absent: seq<string>)
      requires Valid()
      modifies metrics, metrics.registry.ownCounters
      ensures Valid()
      ensures Abstract() == ChargeAbsent(old(Abstract()), absent)
    {
      ghost var s := Abstract();
      ghost var charged: set<string> := {};
      ChargeNobody(s);
      for i := 0 to |absent|
        invariant Valid()
        invariant charged == NewlyAbsent(s, absent[..i])
        invariant Abstract() == ChargeAll(s, charged)
      {
        var name := absent[i];
        NextAbsent(s, absent, i);
        if name in metrics.entries && metrics.entries[name].errorsFromLastReport == 0 {
          charged := ChargeOne(s, charged, name);
        }
      }
      assert absent[..|absent|] == absent;
    }

    /** One round of the metrics loop in Kubernetes mode; the cache is visited in any order. */
    method CollectLate(agentsData: map<string, AgentSpec>, now: Time)
      requires Valid()
      modifies metrics, metrics.registry.ownCounters
      ensures Valid()
      ensures Abstract() == ChargeLate(old(Abstract()), agentsData, now)
    {
      ghost var s := Abstract();
      ghost var charged: set<string> := {};
      ChargeNobody(s);
      var todo := agentsData.Keys;
      while todo != {}
        invariant Valid()
        invariant todo <= agentsData.Keys
        invariant charged == LateAmong(s, agentsData, now, agentsData.Keys - todo)
        invariant Abstract() == ChargeAll(s, charged)
      {
        var name :| name in todo;
        NextLate(s, agentsData, now, agentsData.Keys - todo, name);
        assert agentsData.Keys - (todo - {name}) == agentsData.Keys - todo + {name};
        assert name in metrics.entries ==> EntryOf(metrics.entries[name]) == s.entries[name];
        todo := todo - {name};
        if name in metrics.entries {
          var deltaInIntervals := Intervals(agentsData[name], now);
          if deltaInIntervals > metrics.entries[name].errorsFromLastReport + 1 {
            charged := ChargeOne(s, charged, name);
          }
        }
      }
      assert agentsData.Keys - todo == agentsData.Keys;
    }

    /** One more error, in a round that has charged `charged` so far. */
    method ChargeOne(ghost s: State, ghost charged: set<string>, name: string) returns (ghost charged': set<string>)
      requires Valid() && name in metrics.entries && name !in charged
      requires charged <= s.entries.Keys && Abstract() == ChargeAll(s, charged)
      modifies metrics, metrics.registry.ownCounters
      ensures Valid() && charged' == charged + {name}
      ensures charged' <= s.entries.Keys && Abstract() == ChargeAll(s, charged')
    {
      assert Abstract().entries.Keys == metrics.entries.Keys == s.entries.Keys;
      ChargeOneMore(s, charged, name);
      metrics.UpdateAgentBaseMetrics(name, false, true);
      charged' := charged + {name};
    }
  }
}
