/**
 * Prometheus collectors, the process-wide registry that hands back an existing collector, and
 * the server's table of per-agent metrics.
 */
module Metrics {
  import opened Types

  datatype Family = ErrorTotal | ReportTotal

  /** What the registry tells counters apart by: the metric's name and its constant label. */
  datatype Desc = Desc(family: Family, agent: string)

  datatype Gauge =
    | ConnectionResult | HTTPCode | Total | ContentTransfer
    | TCPConnection | DNSLookup | Connect | ServerProcessing

  const GAUGES: seq<Gauge> :=
    [ConnectionResult, HTTPCode, Total, ContentTransfer, TCPConnection, DNSLookup, Connect, ServerProcessing]

  function Position(g: Gauge): (i: nat)
    ensures i < |GAUGES| && GAUGES[i] == g
  {
    match g
    case ConnectionResult => 0
    case HTTPCode => 1
    case Total => 2
    case ContentTransfer => 3
    case TCPConnection => 4
    case DNSLookup => 5
    case Connect => 6
    case ServerProcessing => 7
  }

  function Reading(g: Gauge, probe: ProbeResult): int {
    match g
    case ConnectionResult => probe.connectionResult
    case HTTPCode => probe.httpCode
    case Total => probe.total
    case ContentTransfer => probe.contentTransfer
    case TCPConnection => probe.tcpConnection
    case DNSLookup => probe.dnsLookup
    case Connect => probe.connect
    case ServerProcessing => probe.serverProcessing
  }

  predicate Contains(s: string, part: string) {
    exists i :: 0 <= i <= |s| && StartsAt(s, part, i)
  }

  predicate StartsAt(s: string, part: string, i: nat)
    requires i <= |s|
  {
    part <= s[i..]
  }

  /** The value of the "agent" label: node name and network flavour. */
  function Label(spec: AgentSpec): string {
    spec.nodeName + "-" + (if Contains(spec.podName, "hostnet") then "host_network" else "private_network")
  }

  /** The pod's name has "hostnet" in it. */
  ghost predicate OnHostNetwork(spec: AgentSpec) {
    exists u, v :: spec.podName == u + "hostnet" + v
  }

  lemma ContainsIff(s: string, part: string)
    ensures Contains(s, part) <==> exists u, v :: s == u + part + v
  {
    if i :| 0 <= i <= |s| && StartsAt(s, part, i) {
      assert s == s[..i] + part + s[i + |part|..];
    }
    if u, v :| s == u + part + v {
      assert s[|u|..] == part + v;
      assert StartsAt(s, part, |u|);
    }
  }

  /** The label in full. */
  lemma LabelSays(spec: AgentSpec)
    ensures OnHostNetwork(spec) ==> Label(spec) == spec.nodeName + "-host_network"
    ensures !OnHostNetwork(spec) ==> Label(spec) == spec.nodeName + "-private_network"
  {
    ContainsIff(spec.podName, "hostnet");
  }

  lemma SuffixesDiffer(a: string, b: string)
    ensures a + "-host_network" != b + "-private_network"
  {
    var s, t := a + "-host_network", b + "-private_network";
    assert s[|s| - 9] == 't';
    assert t[|t| - 9] == 'e';
  }

  /** Agents share a label exactly if they are on one node and both, or neither, on its host network. */
  lemma LabelsEqualIff(a: AgentSpec, b: AgentSpec)
    ensures Label(a) == Label(b) <==> a.nodeName == b.nodeName && (OnHostNetwork(a) <==> OnHostNetwork(b))
  {
    LabelSays(a);
    LabelSays(b);
    SuffixesDiffer(a.nodeName, b.nodeName);
    SuffixesDiffer(b.nodeName, a.nodeName);
    var m, n := a.nodeName, b.nodeName;
    assert (m + "-host_network")[..|m|] == m && (n + "-host_network")[..|n|] == n;
    assert (m + "-private_network")[..|m|] == m && (n + "-private_network")[..|n|] == n;
  }

  // ----- The state as values -----

  datatype Entry = Entry(podName: string, agentLabel: string, errorsFromLastReport: nat)

  /** The label values of a gauge: agent and URL. */
  type Cell = (string, string)

  /** `charged` is history: how many errors were ever counted against a name. */
  datatype State = State(
    entries: map<string, Entry>,
    counters: map<Desc, nat>,
    gauges: map<Gauge, map<Cell, int>>,
    charged: map<string, nat>)

  const NO_METRICS := State(map[], map[], map[], map[])

  function CountOf<K>(counts: map<K, nat>, key: K): nat {
    if key in counts then counts[key] else 0
  }

  function Value(s: State, d: Desc): nat {
    CountOf(s.counters, d)
  }

  function Charged(s: State, name: string): nat {
    CountOf(s.charged, name)
  }

  /** Errors counted since the last report. */
  function Streak(s: State, name: string): nat {
    if name in s.entries then s.entries[name].errorsFromLastReport else 0
  }

  function CellsOf(s: State, g: Gauge): map<Cell, int> {
    if g in s.gauges then s.gauges[g] else map[]
  }

  /** A counter that is not there yet is added at zero; one that is there keeps its value. */
  function Registered(counters: map<Desc, nat>, d: Desc): map<Desc, nat> {
    if d in counters then counters else counters[d := 0]
  }

  function RegisteredVec(gauges: map<Gauge, map<Cell, int>>, g: Gauge): map<Gauge, map<Cell, int>> {
    if g in gauges then gauges else gauges[g := map[]]
  }

  function SetProbe(cells: map<Cell, int>, g: Gauge, agentLabel: string, probe: ProbeResult): map<Cell, int> {
    cells[(agentLabel, probe.url) := Reading(g, probe)]
  }

  /** One probe written to the first `n` gauges. */
  function SetFirst(readings: map<Gauge, map<Cell, int>>, n: nat, agentLabel: string, probe: ProbeResult)
      : map<Gauge, map<Cell, int>>
  {
    map g | g in readings :: if Position(g) < n then SetProbe(readings[g], g, agentLabel, probe) else readings[g]
  }

  lemma SetOneMore(readings: map<Gauge, map<Cell, int>>, n: nat, agentLabel: string, probe: ProbeResult)
    requires n < |GAUGES| && GAUGES[n] in readings
    ensures var before, g := SetFirst(readings, n, agentLabel, probe), GAUGES[n];
      && before[g] == readings[g]
      && before[g := SetProbe(before[g], g, agentLabel, probe)] == SetFirst(readings, n + 1, agentLabel, probe)
  {
    assert Position(GAUGES[n]) == n;
    assert forall g: Gauge :: Position(g) == n ==> g == GAUGES[n];
  }

  function SetProbes(cells: map<Cell, int>, g: Gauge, agentLabel: string, probes: seq<ProbeResult>): map<Cell, int> {
    if probes == [] then cells
    else
      var n := |probes| - 1;
      SetProbe(SetProbes(cells, g, agentLabel, probes[..n]), g, agentLabel, probes[n])
  }

  function Worse(entry: Entry): Entry {
    entry.(errorsFromLastReport := entry.errorsFromLastReport + 1)
  }

  function Bump<K>(counts: map<K, nat>, key: K): map<K, nat> {
    counts[key := CountOf(counts, key) + 1]
  }

  /** The table after a report for `name` whose returned spec is `spec`. */
  function Handled(s: State, name: string, spec: AgentSpec): State {
    var agentLabel := Label(spec);
    var registered := Registered(Registered(s.counters, Desc(ErrorTotal, agentLabel)), Desc(ReportTotal, agentLabel));
    State(
      s.entries[name := Entry(spec.podName, agentLabel, 0)],
      Bump(registered, Desc(ReportTotal, agentLabel)),
      map g: Gauge :: SetProbes(CellsOf(s, g), g, agentLabel, spec.networkProbes),
      s.charged)
  }

  /** The four calls that handle a report, put together. */
  lemma HandledInSteps(s: State, name: string, spec: AgentSpec, t: State)
    requires t == CountReport(
      State(s.entries[name := Entry(spec.podName, Label(spec), 0)],
            Registered(Registered(s.counters, Desc(ErrorTotal, Label(spec))), Desc(ReportTotal, Label(spec))),
            map g: Gauge :: if g in s.gauges then s.gauges[g] else map[],
            s.charged), name)
    ensures Handled(s, name, spec) ==
      t.(gauges := map g: Gauge :: SetProbes(t.gauges[g], g, Label(spec), spec.networkProbes))
  {
    assert Handled(s, name, spec).entries == t.entries;
  }

  /** One error counted against `name`. */
  function Charge(s: State, name: string): State
    requires name in s.entries
  {
    var entry := s.entries[name];
    var d := Desc(ErrorTotal, entry.agentLabel);
    State(
      s.entries[name := Worse(entry)],
      Bump(s.counters, d),
      s.gauges,
      Bump(s.charged, name))
  }

  /** The names of `names` whose error counter is `d`. */
  function Bearers(entries: map<string, Entry>, names: set<string>, d: Desc): set<string> {
    set n | n in names && n in entries && Desc(ErrorTotal, entries[n].agentLabel) == d
  }

  function WorseAll(entries: map<string, Entry>, names: set<string>): map<string, Entry> {
    map n | n in entries :: if n in names then Worse(entries[n]) else entries[n]
  }

  function BumpErrors(entries: map<string, Entry>, counters: map<Desc, nat>, names: set<string>): map<Desc, nat>
    requires names <= entries.Keys
  {
    map d | d in counters.Keys + (set n | n in names :: Desc(ErrorTotal, entries[n].agentLabel)) ::
      CountOf(counters, d) + |Bearers(entries, names, d)|
  }

  function BumpAll(counts: map<string, nat>, names: set<string>): map<string, nat> {
    map n | n in counts.Keys + names :: CountOf(counts, n) + if n in names then 1 else 0
  }

  /** One error counted against each of `names`; the order does not matter. */
  function ChargeAll(s: State, names: set<string>): State
    requires names <= s.entries.Keys
  {
    State(WorseAll(s.entries, names), BumpErrors(s.entries, s.counters, names), s.gauges, BumpAll(s.charged, names))
  }

  /** What a round does to one name. */
  lemma ChargeAllAt(s: State, names: set<string>, name: string)
    requires names <= s.entries.Keys
    ensures name in ChargeAll(s, names).entries <==> name in s.entries
    ensures name in s.entries ==>
      ChargeAll(s, names).entries[name] == if name in names then Worse(s.entries[name]) else s.entries[name]
    ensures Charged(ChargeAll(s, names), name) == Charged(s, name) + if name in names then 1 else 0
  {
  }

  lemma BumpNobodysErrors(entries: map<string, Entry>, counters: map<Desc, nat>)
    ensures BumpErrors(entries, counters, {}) == counters
  {
    assert forall d :: Bearers(entries, {}, d) == {};
  }

  lemma ChargeNobody(s: State)
    ensures ChargeAll(s, {}) == s
  {
    BumpNobodysErrors(s.entries, s.counters);
    assert WorseAll(s.entries, {}) == s.entries;
    assert BumpAll(s.charged, {}) == s.charged;
  }

  lemma BearersOneMore(entries: map<string, Entry>, names: set<string>, name: string, d: Desc)
    requires name in entries && name !in names
    ensures |Bearers(entries, names + {name}, d)| ==
            |Bearers(entries, names, d)| + if d == Desc(ErrorTotal, entries[name].agentLabel) then 1 else 0
  {
    if d == Desc(ErrorTotal, entries[name].agentLabel) {
      assert Bearers(entries, names + {name}, d) == Bearers(entries, names, d) + {name};
    } else {
      assert Bearers(entries, names + {name}, d) == Bearers(entries, names, d);
    }
  }

  lemma BumpErrorsOneMore(entries: map<string, Entry>, counters: map<Desc, nat>, names: set<string>, name: string)
    requires names <= entries.Keys && name in entries && name !in names
    ensures Bump(BumpErrors(entries, counters, names), Desc(ErrorTotal, entries[name].agentLabel)) ==
            BumpErrors(entries, counters, names + {name})
  {
    var own := Desc(ErrorTotal, entries[name].agentLabel);
    var some, all := BumpErrors(entries, counters, names), BumpErrors(entries, counters, names + {name});
    assert all.Keys == Bump(some, own).Keys;
    forall d | d in all ensures all[d] == Bump(some, own)[d] {
      BearersOneMore(entries, names, name, d);
      if d !in some {
        assert Bearers(entries, names, d) == {};
      }
    }
  }

  lemma WorseOneMore(entries: map<string, Entry>, names: set<string>, name: string)
    requires name in entries && name !in names
    ensures WorseAll(entries, names)[name := Worse(entries[name])] == WorseAll(entries, names + {name})
  {
  }

  lemma BumpOneMore(counts: map<string, nat>, names: set<string>, name: string)
    requires name !in names
    ensures Bump(BumpAll(counts, names), name) == BumpAll(counts, names + {name})
  {
    assert Bump(BumpAll(counts, names), name).Keys == BumpAll(counts, names + {name}).Keys;
  }

  lemma ChargeOneMore(s: State, names: set<string>, name: string)
    requires names <= s.entries.Keys && name in s.entries && name !in names
    ensures Charge(ChargeAll(s, names), name) == ChargeAll(s, names + {name})
  {
    BumpErrorsOneMore(s.entries, s.counters, names, name);
    WorseOneMore(s.entries, names, name);
    BumpOneMore(s.charged, names, name);
  }

  /** One report counted for `name`, whose streak of errors ends. */
  function CountReport(s: State, name: string): State
    requires name in s.entries
  {
    var entry := s.entries[name];
    var d := Desc(ReportTotal, entry.agentLabel);
    s.(entries := s.entries[name := entry.(errorsFromLastReport := 0)],
       counters := Bump(s.counters, d))
  }

  // ----- The collectors -----

  class Counter {
    const desc: Desc
    var value: nat

    constructor (desc: Desc)
      ensures this.desc == desc && value == 0
    {
      this.desc, value := desc, 0;
    }

    method Inc()
      modifies this
      ensures value == old(value) + 1
    {
      value := value + 1;
    }
  }

  class GaugeVec {
    const gauge: Gauge
    var cells: map<Cell, int>

    constructor (gauge: Gauge)
      ensures this.gauge == gauge && cells == map[]
    {
      this.gauge, cells := gauge, map[];
    }

    method Set(agent: string, url: string, v: int)
      modifies this
      ensures cells == old(cells)[(agent, url) := v]
    {
      cells := cells[(agent, url) := v];
    }
  }

  /** The default registerer of the process. */
  class Registry {
    var counters: map<Desc, Counter>
    var vectors: map<Gauge, GaugeVec>
    ghost var ownCounters: set<Counter>
    ghost var ownVectors: set<GaugeVec>

    ghost predicate Valid()
      reads this
    {
      && (forall d :: d in counters ==> counters[d].desc == d && counters[d] in ownCounters)
      && (forall g :: g in vectors ==> vectors[g].gauge == g && vectors[g] in ownVectors)
    }

    /** `c` is the registered counter of its description. */
    ghost predicate Owns(c: Counter)
      reads this
    {
      c.desc in counters && counters[c.desc] == c
    }

    ghost function Counts(): map<Desc, nat>
      requires Valid()
      reads this, ownCounters
    {
      map d | d in counters :: counters[d].value
    }

    ghost function Readings(): map<Gauge, map<Cell, int>>
      requires Valid()
      reads this, ownVectors
    {
      map g | g in vectors :: vectors[g].cells
    }

    constructor ()
      ensures Valid() && counters == map[] && vectors == map[] && ownCounters == {} && ownVectors == {}
    {
      counters, vectors, ownCounters, ownVectors := map[], map[], {}, {};
    }

    method TryRegisterCounter(m: Counter) returns (registered: Counter, ok: bool)
      requires Valid() && m.value == 0
      modifies `counters, `ownCounters
      ensures Valid() && old(ownCounters) <= ownCounters <= old(ownCounters) + {m}
      ensures ok == (m.desc !in old(counters))
      ensures counters == if ok then old(counters)[m.desc := m] else old(counters)
      ensures registered.desc == m.desc && Owns(registered)
      ensures Counts() == Registered(old(Counts()), m.desc) && Readings() == old(Readings())
    {
      if m.desc in counters {
        return counters[m.desc], false;
      }
      counters := counters[m.desc := m];
      ownCounters := ownCounters + {m};
      return m, true;
    }

    method TryRegisterGaugeVec(m: GaugeVec) returns (registered: GaugeVec, ok: bool)
      requires Valid() && m.cells == map[]
      modifies `vectors, `ownVectors
      ensures Valid() && old(ownVectors) <= ownVectors <= old(ownVectors) + {m}
      ensures ok == (m.gauge !in old(vectors))
      ensures vectors == if ok then old(vectors)[m.gauge := m] else old(vectors)
      ensures m.gauge in vectors && registered == vectors[m.gauge]
      ensures Readings() == RegisteredVec(old(Readings()), m.gauge) && Counts() == old(Counts())
    {
      if m.gauge in vectors {
        return vectors[m.gauge], false;
      }
      vectors := vectors[m.gauge := m];
      ownVectors := ownVectors + {m};
      return m, true;
    }

    /** One increment shows in the registry under the counter's own description and nowhere else. */
    method Inc(c: Counter)
      requires Valid() && Owns(c)
      modifies c
      ensures Counts() == Bump(old(Counts()), c.desc)
      ensures Readings() == old(Readings())
    {
      c.Inc();
    }

    /** One probe is written to one gauge of the registry. */
    method Set(v: GaugeVec, agentLabel: string, probe: ProbeResult)
      requires Valid() && v.gauge in vectors && vectors[v.gauge] == v
      modifies v
      ensures Readings() ==
        old(Readings())[v.gauge := SetProbe(old(Readings())[v.gauge], v.gauge, agentLabel, probe)]
      ensures Counts() == old(Counts())
    {
      v.Set(agentLabel, probe.url, Reading(v.gauge, probe));
    }

    /** One probe is written to all eight gauges. */
    method SetAll(gauges: map<Gauge, GaugeVec>, agentLabel: string, probe: ProbeResult)
      requires Valid() && gauges == vectors && forall g: Gauge :: g in vectors
      modifies ownVectors
      ensures Readings() == SetFirst(old(Readings()), |GAUGES|, agentLabel, probe)
    {
      for i := 0 to |GAUGES|
        invariant Readings() == SetFirst(old(Readings()), i, agentLabel, probe)
      {
        SetOneMore(old(Readings()), i, agentLabel, probe);
        Set(gauges[GAUGES[i]], agentLabel, probe);
      }
    }

    /** Builds a counter, and keeps the registered one if there is one. */
    method NewCounter(desc: Desc) returns (c: Counter)
      requires Valid()
      modifies `counters, `ownCounters
      ensures Valid() && old(ownCounters) <= ownCounters && fresh(ownCounters - old(ownCounters))
      ensures c.desc == desc && Owns(c)
      ensures forall d :: d in old(counters) ==> d in counters && counters[d] == old(counters)[d]
      ensures Counts() == Registered(old(Counts()), desc) && Readings() == old(Readings())
    {
      c := new Counter(desc);
      var existing, ok := TryRegisterCounter(c);
      if !ok {
        c := existing;
      }
    }

    method NewGaugeVec(gauge: Gauge) returns (v: GaugeVec)
      requires Valid()
      modifies `vectors, `ownVectors
      ensures Valid() && old(ownVectors) <= ownVectors && fresh(ownVectors - old(ownVectors))
      ensures gauge in vectors && vectors == old(vectors)[gauge := v]
      ensures gauge in old(vectors) ==> vectors == old(vectors)
      ensures Readings() == RegisteredVec(old(Readings()), gauge) && Counts() == old(Counts())
    {
      v := new GaugeVec(gauge);
      var existing, ok := TryRegisterGaugeVec(v);
      if !ok {
        v := existing;
      }
    }

    /** Builds the eight gauges, and keeps the registered ones. */
    method NewGaugeVecs() returns (gauges: map<Gauge, GaugeVec>)
      requires Valid()
      modifies `vectors, `ownVectors
      ensures Valid() && old(ownVectors) <= ownVectors && fresh(ownVectors - old(ownVectors))
      ensures gauges == vectors && forall g: Gauge :: g in vectors
      ensures (forall g: Gauge :: g in old(vectors)) ==> vectors == old(vectors)
      ensures Readings() == map g: Gauge :: if g in old(Readings()) then old(Readings())[g] else map[]
      ensures Counts() == old(Counts())
    {
      gauges := map[];
      for i := 0 to |GAUGES|
        invariant Valid() && old(ownVectors) <= ownVectors && fresh(ownVectors - old(ownVectors))
        invariant forall j :: 0 <= j < i ==> GAUGES[j] in gauges
        invariant forall g :: g in gauges ==> g in vectors && gauges[g] == vectors[g]
        invariant forall g :: g in old(vectors) ==> g in vectors && vectors[g] == old(vectors)[g]
        invariant Readings() == map g | g in vectors :: if g in old(Readings()) then old(Readings())[g] else map[]
        invariant Counts() == old(Counts())
      {
        var vec := NewGaugeVec(GAUGES[i]);
        gauges := gauges[GAUGES[i] := vec];
      }
      forall g: Gauge ensures g in gauges {
        assert GAUGES[Position(g)] == g;
      }
    }

    /** All the collectors of one agent label, new or found. */
    method Collectors(agent: string) returns (errorCount: Counter, reportCount: Counter, gauges: map<Gauge, GaugeVec>)
      requires Valid()
      modifies this
      ensures Valid()
      ensures errorCount.desc == Desc(ErrorTotal, agent) && Owns(errorCount)
      ensures reportCount.desc == Desc(ReportTotal, agent) && Owns(reportCount)
      ensures gauges == vectors && forall g: Gauge :: g in vectors
      ensures forall d :: d in old(counters) ==> d in counters && counters[d] == old(counters)[d]
      ensures (forall g: Gauge :: g in old(vectors)) ==> vectors == old(vectors)
      ensures old(ownCounters) <= ownCounters && fresh(ownCounters - old(ownCounters))
      ensures old(ownVectors) <= ownVectors && fresh(ownVectors - old(ownVectors))
      ensures Counts() == Registered(Registered(old(Counts()), Desc(ErrorTotal, agent)), Desc(ReportTotal, agent))
      ensures Readings() == map g: Gauge :: if g in old(Readings()) then old(Readings())[g] else map[]
    {
      errorCount := NewCounter(Desc(ErrorTotal, agent));
      reportCount := NewCounter(Desc(ReportTotal, agent));
      gauges := NewGaugeVecs();
    }
  }

  datatype AgentMetrics = AgentMetrics(
    podName: string,
    errorsFromLastReport: nat,
    errorCount: Counter,
    reportCount: Counter,
    gauges: map<Gauge, GaugeVec>)

  function EntryOf(am: AgentMetrics): Entry {
    Entry(am.podName, am.errorCount.desc.agent, am.errorsFromLastReport)
  }

  function EntriesOf(entries: map<string, AgentMetrics>): map<string, Entry> {
    map name | name in entries :: EntryOf(entries[name])
  }

  lemma EntriesUpdate(entries: map<string, AgentMetrics>, name: string, am: AgentMetrics)
    ensures EntriesOf(entries[name := am]) == EntriesOf(entries)[name := EntryOf(am)]
  {
  }

  /** The table of the HTTP handler. */
  class NcAgentMetrics {
    const registry: Registry
    var entries: map<string, AgentMetrics>
    ghost var charged: map<string, nat>

    /** The entry's collectors are the registered ones for its label. */
    ghost predicate Bound(am: AgentMetrics)
      reads registry
    {
      && registry.Owns(am.errorCount) && am.errorCount.desc.family == ErrorTotal
      && registry.Owns(am.reportCount) && am.reportCount.desc == Desc(ReportTotal, am.errorCount.desc.agent)
      && am.gauges == registry.vectors && forall g: Gauge :: g in am.gauges
    }

    ghost predicate Valid()
      reads this, registry
    {
      registry.Valid() && forall name :: name in entries ==> Bound(entries[name])
    }

    ghost function Abstract(): State
      requires Valid()
      reads this, registry, registry.ownCounters, registry.ownVectors
    {
      State(EntriesOf(entries), registry.Counts(), registry.Readings(), charged)
    }

    constructor (registry: Registry)
      requires registry.Valid()
      ensures Valid() && this.registry == registry && entries == map[] && charged == map[]
    {
      this.registry, entries, charged := registry, map[], map[];
    }

    /**
     * Fresh collectors are built on every call, but the entry ends up with the registered ones:
     * no registered collector is replaced or reset.
     */
    method NewAgentMetrics(ai: AgentSpec) returns (am: AgentMetrics)
      requires Valid()
      modifies registry
      ensures Valid() && Bound(am) && EntryOf(am) == Entry(ai.podName, Label(ai), 0)
      ensures old(registry.ownCounters) <= registry.ownCounters
      ensures fresh(registry.ownCounters - old(registry.ownCounters))
      ensures old(registry.ownVectors) <= registry.ownVectors && fresh(registry.ownVectors - old(registry.ownVectors))
      ensures registry.Counts() ==
        Registered(Registered(old(registry.Counts()), Desc(ErrorTotal, Label(ai))), Desc(ReportTotal, Label(ai)))
      ensures registry.Readings() ==
        map g: Gauge :: if g in old(registry.Readings()) then old(registry.Readings())[g] else map[]
    {
      var errorCount, reportCount, gauges := registry.Collectors(Label(ai));
      am := AgentMetrics(ai.podName, 0, errorCount, reportCount, gauges);
    }

    method UpdateAgentProbeMetrics(ai: AgentSpec, am: AgentMetrics)
      requires Valid() && Bound(am)
      modifies registry.ownVectors
      ensures Valid()
      ensures registry.Readings() ==
        map g: Gauge :: SetProbes(old(registry.Readings())[g], g, Label(ai), ai.networkProbes)
      ensures registry.Counts() == old(registry.Counts())
    {
      var probes := ai.networkProbes;
      for i := 0 to |probes|
        invariant registry.Readings() ==
          map g: Gauge :: SetProbes(old(registry.Readings())[g], g, Label(ai), probes[..i])
      {
        assert probes[..i + 1][..i] == probes[..i];
        registry.SetAll(am.gauges, Label(ai), probes[i]);
        assert forall g: Gauge :: Position(g) < |GAUGES|;
      }
      assert probes[..|probes|] == probes;
    }

    method UpdateAgentBaseMetrics(name: string, report: bool, error: bool)
      requires Valid() && name in entries
      modifies this, registry.ownCounters
      ensures Valid() && entries.Keys == old(entries.Keys)
      ensures var counted := if report then CountReport(old(Abstract()), name) else old(Abstract());
        Abstract() == if error then Charge(counted, name) else counted
    {
      if report {
        CountOneReport(name);
      }
      if error {
        CountOneError(name);
      }
    }

    method CountOneReport(name: string)
      requires Valid() && name in entries
      modifies this, registry.ownCounters
      ensures Valid() && entries.Keys == old(entries.Keys)
      ensures Abstract() == CountReport(old(Abstract()), name)
    {
      var agent := entries[name];
      ghost var s := Abstract();
      assert s.entries[name] == EntryOf(agent);
      registry.Inc(agent.reportCount);
      assert Abstract() == s.(counters := registry.Counts());
      Put(name, agent.(errorsFromLastReport := 0), charged);
    }

    method CountOneError(name: string)
      requires Valid() && name in entries
      modifies this, registry.ownCounters
      ensures Valid() && entries.Keys == old(entries.Keys)
      ensures Abstract() == Charge(old(Abstract()), name)
    {
      var agent := entries[name];
      ghost var s := Abstract();
      assert s.entries[name] == EntryOf(agent);
      registry.Inc(agent.errorCount);
      assert Abstract() == s.(counters := registry.Counts());
      agent := agent.(errorsFromLastReport := agent.errorsFromLastReport + 1);
      assert EntryOf(agent) == Worse(s.entries[name]);
      Put(name, agent, Bump(charged, name));
    }

    /** Writes an entry back to the table. */
    method Put(name: string, am: AgentMetrics, ghost charged': map<string, nat>)
      requires Valid() && Bound(am)
      modifies this
      ensures Valid() && entries == old(entries)[name := am]
      ensures Abstract() ==
        old(Abstract()).(entries := old(Abstract()).entries[name := EntryOf(am)], charged := charged')
    {
      EntriesUpdate(entries, name, am);
      entries := entries[name := am];
      charged := charged';
    }
  }
}
