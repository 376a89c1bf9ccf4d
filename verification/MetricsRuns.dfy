/** The metrics table over whole runs, in either mode and with anything in the reports. */
module MetricsRuns {
  import opened Types
  import opened Metrics
  import opened Handlers

  /** A handled report with the spec the store returned, or a round of the metrics loop. */
  datatype Op =
    | Handle(name: string, spec: AgentSpec)
    | AbsentRound(absent: seq<string>)
    | LateRound(cache: map<string, AgentSpec>, now: Time)

  function Step(s: State, op: Op): State {
    match op
    case Handle(name, spec) => Handled(s, name, spec)
    case AbsentRound(absent) => ChargeAbsent(s, absent)
    case LateRound(cache, now) => ChargeLate(s, cache, now)
  }

  function Run(ops: seq<Op>): State {
    if ops == [] then NO_METRICS else Step(Run(ops[..|ops| - 1]), ops[|ops| - 1])
  }

  // ----- Conservation -----

  /** The handled reports in order, each with the name it was posted under. */
  function Handles(ops: seq<Op>): seq<(string, AgentSpec)> {
    if ops == [] then []
    else
      var op := ops[|ops| - 1];
      Handles(ops[..|ops| - 1]) + if op.Handle? then [(op.name, op.spec)] else []
  }

  /** How many of these reports have the label. */
  function WithLabel(posts: seq<(string, AgentSpec)>, agentLabel: string): nat {
    if posts == [] then 0
    else
      var (_, spec) := posts[|posts| - 1];
      WithLabel(posts[..|posts| - 1], agentLabel) + if Label(spec) == agentLabel then 1 else 0
  }

  function Family(counters: map<Desc, nat>, family: Metrics.Family): map<Desc, nat> {
    map d | d in counters && d.family == family :: counters[d]
  }

  ghost function Sum<K>(counts: map<K, nat>): nat
    decreases |counts|
  {
    if counts == map[] then 0
    else
      var k :| k in counts;
      counts[k] + Sum(counts - {k})
  }

  lemma {:induction false} SumWithout<K>(counts: map<K, nat>, k: K)
    requires k in counts
    ensures Sum(counts) == counts[k] + Sum(counts - {k})
    decreases |counts|
  {
    var first :| first in counts && Sum(counts) == counts[first] + Sum(counts - {first});
    if first != k {
      SumWithout(counts - {first}, k);
      SumWithout(counts - {k}, first);
      assert counts - {first} - {k} == counts - {k} - {first};
    }
  }

  lemma SumBump<K>(counts: map<K, nat>, k: K)
    ensures Sum(Bump(counts, k)) == Sum(counts) + 1
  {
    SumWithout(Bump(counts, k), k);
    assert Bump(counts, k) - {k} == counts - {k};
    if k in counts {
      SumWithout(counts, k);
    } else {
      assert counts - {k} == counts;
    }
  }

  lemma SumRegistered(counters: map<Desc, nat>, d: Desc, family: Metrics.Family)
    ensures Sum(Family(Registered(counters, d), family)) == Sum(Family(counters, family))
  {
    var before, after := Family(counters, family), Family(Registered(counters, d), family);
    if d in after && d !in before {
      SumWithout(after, d);
      assert after - {d} == before;
    } else {
      assert after == before;
    }
  }

  lemma SumFamilyBump(counters: map<Desc, nat>, d: Desc, family: Metrics.Family)
    ensures Sum(Family(Bump(counters, d), family)) ==
      Sum(Family(counters, family)) + if d.family == family then 1 else 0
  {
    if d.family == family {
      assert Family(Bump(counters, d), family) == Bump(Family(counters, family), d);
      SumBump(Family(counters, family), d);
    } else {
      assert Family(Bump(counters, d), family) == Family(counters, family);
    }
  }

  /** All counters of a family together. */
  ghost function TotalCount(s: State, family: Metrics.Family): nat {
    Sum(Family(s.counters, family))
  }

  /** The errors counted against all names together. */
  ghost function TotalCharged(s: State): nat {
    Sum(s.charged)
  }

  lemma SumHandled(s: State, name: string, spec: AgentSpec, family: Metrics.Family)
    ensures TotalCount(Handled(s, name, spec), family) ==
            TotalCount(s, family) + if family == ReportTotal then 1 else 0
  {
    var e, r := Desc(ErrorTotal, Label(spec)), Desc(ReportTotal, Label(spec));
    SumRegistered(s.counters, e, family);
    SumRegistered(Registered(s.counters, e), r, family);
    SumFamilyBump(Registered(Registered(s.counters, e), r), r, family);
  }

  lemma SumCharge(s: State, name: string)
    requires name in s.entries
    ensures TotalCount(Charge(s, name), ErrorTotal) == TotalCount(s, ErrorTotal) + 1
    ensures TotalCount(Charge(s, name), ReportTotal) == TotalCount(s, ReportTotal)
    ensures TotalCharged(Charge(s, name)) == TotalCharged(s) + 1
  {
    var d := Desc(ErrorTotal, s.entries[name].agentLabel);
    SumFamilyBump(s.counters, d, ErrorTotal);
    SumFamilyBump(s.counters, d, ReportTotal);
    SumBump(s.charged, name);
  }

  /** A round adds to the error counters what it adds to the names' own counts. */
  lemma {:induction false} SumCharged(s: State, names: set<string>)
    requires names <= s.entries.Keys
    ensures TotalCount(ChargeAll(s, names), ErrorTotal) == TotalCount(s, ErrorTotal) + |names|
    ensures TotalCount(ChargeAll(s, names), ReportTotal) == TotalCount(s, ReportTotal)
    ensures TotalCharged(ChargeAll(s, names)) == TotalCharged(s) + |names|
    decreases |names|
  {
    if names == {} {
      ChargeNobody(s);
    } else {
      var name :| name in names;
      var rest := names - {name};
      assert rest + {name} == names;
      SumCharged(s, rest);
      SumCharge(ChargeAll(s, rest), name);
      ChargeOneMore(s, rest, name);
    }
  }

  ghost predicate Conserved(s: State, posts: seq<(string, AgentSpec)>) {
    && (forall l :: Value(s, Desc(ReportTotal, l)) == WithLabel(posts, l))
    && TotalCount(s, ReportTotal) == |posts|
    && TotalCount(s, ErrorTotal) == TotalCharged(s)
  }

  /**
   * No increment is lost although every report builds its counters anew: each label's report
   * counter is the number of handled reports with that label, together they are all the calls,
   * and the error counters together are the errors counted against names.
   */
  lemma {:induction false} CountersAreConserved(ops: seq<Op>)
    ensures Conserved(Run(ops), Handles(ops))
  {
    if ops == [] {
      NothingIsConserved();
    } else {
      var init, op := ops[..|ops| - 1], ops[|ops| - 1];
      CountersAreConserved(init);
      ConservedNext(Run(init), Handles(init), op);
    }
  }

  lemma NothingIsConserved()
    ensures Conserved(NO_METRICS, [])
  {
    assert Family(NO_METRICS.counters, ReportTotal) == map[] && Family(NO_METRICS.counters, ErrorTotal) == map[];
  }

  lemma ConservedNext(s: State, posts: seq<(string, AgentSpec)>, op: Op)
    requires Conserved(s, posts)
    ensures Conserved(Step(s, op), posts + if op.Handle? then [(op.name, op.spec)] else [])
  {
    match op {
      case Handle(name, spec) => ConservedAfterReport(s, posts, name, spec);
      case AbsentRound(absent) =>
        assert posts + [] == posts;
        ConservedAfterCharges(s, posts, NewlyAbsent(s, absent));
      case LateRound(cache, now) =>
        assert posts + [] == posts;
        ConservedAfterCharges(s, posts, LateNames(s, cache, now));
    }
  }

  lemma ConservedAfterReport(s: State, posts: seq<(string, AgentSpec)>, name: string, spec: AgentSpec)
    requires Conserved(s, posts)
    ensures Conserved(Handled(s, name, spec), posts + [(name, spec)])
  {
    var t, all := Handled(s, name, spec), posts + [(name, spec)];
    SumHandled(s, name, spec, ReportTotal);
    SumHandled(s, name, spec, ErrorTotal);
    HandledCounts(s, name, spec);
    assert all[..|posts|] == posts;
    forall l ensures Value(t, Desc(ReportTotal, l)) == WithLabel(all, l) {
      assert Value(s, Desc(ReportTotal, l)) == WithLabel(posts, l);
    }
  }

  lemma ConservedAfterCharges(s: State, posts: seq<(string, AgentSpec)>, names: set<string>)
    requires Conserved(s, posts) && names <= s.entries.Keys
    ensures Conserved(ChargeAll(s, names), posts)
  {
    SumCharged(s, names);
    ChargesCountNoReports(s, names);
  }

  lemma HandledCounts(s: State, name: string, spec: AgentSpec)
    ensures forall l :: Value(Handled(s, name, spec), Desc(ReportTotal, l)) ==
                        Value(s, Desc(ReportTotal, l)) + (if Label(spec) == l then 1 else 0)
  {
  }

  lemma ChargesCountNoReports(s: State, names: set<string>)
    requires names <= s.entries.Keys
    ensures forall l :: Value(ChargeAll(s, names), Desc(ReportTotal, l)) == Value(s, Desc(ReportTotal, l))
  {
    assert forall l :: Bearers(s.entries, names, Desc(ReportTotal, l)) == {};
  }

  /** Both counters of a label are there once a report had it, and no others are. */
  ghost predicate CountersExist(s: State, posts: seq<(string, AgentSpec)>) {
    && (forall n :: n in s.entries ==> WithLabel(posts, s.entries[n].agentLabel) > 0)
    && (forall d: Desc :: d in s.counters <==> WithLabel(posts, d.agent) > 0)
  }

  lemma CountersExistAfterReport(s: State, posts: seq<(string, AgentSpec)>, name: string, spec: AgentSpec)
    requires CountersExist(s, posts)
    ensures CountersExist(Handled(s, name, spec), posts + [(name, spec)])
  {
    var t, all := Handled(s, name, spec), posts + [(name, spec)];
    assert all[..|posts|] == posts;
    assert t.counters.Keys == s.counters.Keys + {Desc(ErrorTotal, Label(spec)), Desc(ReportTotal, Label(spec))};
    forall d: Desc ensures d in t.counters <==> WithLabel(all, d.agent) > 0 {
      assert d in s.counters <==> WithLabel(posts, d.agent) > 0;
      match d.family {
        case ErrorTotal =>
        case ReportTotal =>
      }
    }
  }

  lemma CountersExistAfterCharges(s: State, posts: seq<(string, AgentSpec)>, names: set<string>)
    requires CountersExist(s, posts) && names <= s.entries.Keys
    ensures CountersExist(ChargeAll(s, names), posts)
  {
    assert ChargeAll(s, names).counters.Keys == s.counters.Keys;
  }

  lemma {:induction false} CountersExistAfterRun(ops: seq<Op>)
    ensures CountersExist(Run(ops), Handles(ops))
  {
    if ops != [] {
      var init, op := ops[..|ops| - 1], ops[|ops| - 1];
      CountersExistAfterRun(init);
      match op {
        case Handle(name, spec) => CountersExistAfterReport(Run(init), Handles(init), name, spec);
        case AbsentRound(absent) =>
          assert Handles(ops) == Handles(init);
          CountersExistAfterCharges(Run(init), Handles(init), NewlyAbsent(Run(init), absent));
        case LateRound(cache, now) =>
          assert Handles(ops) == Handles(init);
          CountersExistAfterCharges(Run(init), Handles(init), LateNames(Run(init), cache, now));
      }
    }
  }

  // ----- The outage budget of etcd mode -----

  function Errors(s: State, agentLabel: string): nat {
    Value(s, Desc(ErrorTotal, agentLabel))
  }

  /** The names that carry the label and may still be charged once. */
  function Chargeable(s: State, agentLabel: string): set<string> {
    set n | n in s.entries && s.entries[n].agentLabel == agentLabel && s.entries[n].errorsFromLastReport == 0
  }

  ghost predicate WithinBudget(s: State) {
    && (forall n :: n in s.entries ==> s.entries[n].errorsFromLastReport in {0, 1})
    && (forall l :: Errors(s, l) + |Chargeable(s, l)| <= Value(s, Desc(ReportTotal, l)))
  }

  lemma ChargeableHandled(s: State, name: string, spec: AgentSpec, agentLabel: string)
    ensures |Chargeable(Handled(s, name, spec), agentLabel)| <=
            |Chargeable(s, agentLabel)| + if agentLabel == Label(spec) then 1 else 0
  {
    var before, after := Chargeable(s, agentLabel), Chargeable(Handled(s, name, spec), agentLabel);
    if agentLabel == Label(spec) {
      assert after <= before + {name};
      SubsetSize(after, before + {name});
    } else {
      assert after <= before;
      SubsetSize(after, before);
    }
  }

  lemma BudgetHandled(s: State, name: string, spec: AgentSpec)
    requires WithinBudget(s)
    ensures WithinBudget(Handled(s, name, spec))
  {
    var t := Handled(s, name, spec);
    forall l ensures Errors(t, l) + |Chargeable(t, l)| <= Value(t, Desc(ReportTotal, l)) {
      assert Errors(s, l) + |Chargeable(s, l)| <= Value(s, Desc(ReportTotal, l));
      ChargeableHandled(s, name, spec, l);
    }
  }

  lemma {:induction false} SubsetSize<T>(a: set<T>, b: set<T>)
    requires a <= b
    ensures |a| <= |b|
  {
    assert b == a + (b - a);
  }

  /** A label loses as many chargeable names as its counter gains errors. */
  lemma BudgetChargedLabel(s: State, names: set<string>, agentLabel: string)
    requires names <= s.entries.Keys && forall n :: n in names ==> Clean(s, n)
    ensures var t := ChargeAll(s, names);
      && Errors(t, agentLabel) + |Chargeable(t, agentLabel)| == Errors(s, agentLabel) + |Chargeable(s, agentLabel)|
      && Value(t, Desc(ReportTotal, agentLabel)) == Value(s, Desc(ReportTotal, agentLabel))
  {
    var charged := Bearers(s.entries, names, Desc(ErrorTotal, agentLabel));
    var before, after := Chargeable(s, agentLabel), Chargeable(ChargeAll(s, names), agentLabel);
    assert charged <= before;
    assert after == before - charged;
    assert Bearers(s.entries, names, Desc(ReportTotal, agentLabel)) == {};
  }

  lemma BudgetCharged(s: State, names: set<string>)
    requires WithinBudget(s) && names <= s.entries.Keys
    requires forall n :: n in names ==> Clean(s, n)
    ensures WithinBudget(ChargeAll(s, names))
  {
    forall l
      ensures Errors(ChargeAll(s, names), l) + |Chargeable(ChargeAll(s, names), l)| <=
              Value(ChargeAll(s, names), Desc(ReportTotal, l))
    {
      BudgetChargedLabel(s, names, l);
      assert Errors(s, l) + |Chargeable(s, l)| <= Value(s, Desc(ReportTotal, l));
    }
  }

  /**
   * Over every run of etcd mode, whatever the pod list and the reports: a label's errors plus
   * the names under it that may yet be charged never exceed its reports, because only a report
   * makes a name chargeable, and only once.
   */
  lemma {:induction false} OutageBudget(ops: seq<Op>)
    requires forall i :: 0 <= i < |ops| ==> !ops[i].LateRound?
    ensures WithinBudget(Run(ops))
  {
    if ops == [] {
      assert forall l :: Chargeable(NO_METRICS, l) == {};
    } else {
      var init, op := ops[..|ops| - 1], ops[|ops| - 1];
      OutageBudget(init);
      match op {
        case Handle(name, spec) => BudgetHandled(Run(init), name, spec);
        case AbsentRound(absent) => BudgetCharged(Run(init), NewlyAbsent(Run(init), absent));
      }
    }
  }

  // ----- A label with one bearer -----

  /** The name reports under this label only, and nobody else does. */
  predicate SoleBearer(ops: seq<Op>, name: string, agentLabel: string) {
    forall i :: 0 <= i < |ops| && ops[i].Handle? ==> (ops[i].name == name <==> Label(ops[i].spec) == agentLabel)
  }

  ghost predicate Owned(s: State, name: string, agentLabel: string) {
    && (forall n :: n in s.entries ==> (n == name <==> s.entries[n].agentLabel == agentLabel))
    && Errors(s, agentLabel) == Charged(s, name)
  }

  lemma OwnedAfterCharges(s: State, names: set<string>, name: string, agentLabel: string)
    requires Owned(s, name, agentLabel) && names <= s.entries.Keys
    ensures Owned(ChargeAll(s, names), name, agentLabel)
  {
    var bearers := Bearers(s.entries, names, Desc(ErrorTotal, agentLabel));
    if name in names {
      assert bearers == {name};
    } else {
      assert bearers == {};
    }
  }

  lemma OwnedAfterReport(s: State, other: string, spec: AgentSpec, name: string, agentLabel: string)
    requires Owned(s, name, agentLabel) && (other == name <==> Label(spec) == agentLabel)
    ensures Owned(Handled(s, other, spec), name, agentLabel)
  {
  }

  /** Then the label's error counter is the number of errors counted against the name. */
  lemma {:induction false} SoleBearerOwnsCounter(ops: seq<Op>, name: string, agentLabel: string)
    requires SoleBearer(ops, name, agentLabel)
    ensures Owned(Run(ops), name, agentLabel)
  {
    if ops != [] {
      var init, op := ops[..|ops| - 1], ops[|ops| - 1];
      SoleBearerOwnsCounter(init, name, agentLabel);
      match op {
        case Handle(other, spec) => OwnedAfterReport(Run(init), other, spec, name, agentLabel);
        case AbsentRound(absent) => OwnedAfterCharges(Run(init), NewlyAbsent(Run(init), absent), name, agentLabel);
        case LateRound(cache, now) => OwnedAfterCharges(Run(init), LateNames(Run(init), cache, now), name, agentLabel);
      }
    }
  }

  // ----- Probe gauges -----

  /** Probes in the order they were reported, each with the label of its report. */
  function Tagged(agentLabel: string, probes: seq<ProbeResult>): seq<(string, ProbeResult)> {
    seq(|probes|, i requires 0 <= i < |probes| => (agentLabel, probes[i]))
  }

  function ProbeHistory(posts: seq<(string, AgentSpec)>): seq<(string, ProbeResult)> {
    if posts == [] then []
    else
      var (_, spec) := posts[|posts| - 1];
      ProbeHistory(posts[..|posts| - 1]) + Tagged(Label(spec), spec.networkProbes)
  }

  /** The last probe with that label and URL. */
  ghost predicate IsLast(history: seq<(string, ProbeResult)>, cell: Cell, i: nat) {
    && i < |history| && history[i].0 == cell.0 && history[i].1.url == cell.1
    && forall j :: i < j < |history| ==> !(history[j].0 == cell.0 && history[j].1.url == cell.1)
  }

  ghost predicate Shows(cells: map<Cell, int>, g: Gauge, history: seq<(string, ProbeResult)>) {
    && (forall cell :: cell in cells ==> exists i: nat :: IsLast(history, cell, i))
    && (forall cell, i: nat :: IsLast(history, cell, i) ==> cell in cells && cells[cell] == Reading(g, history[i].1))
  }

  lemma ShowsNext(
      cells: map<Cell, int>, g: Gauge, history: seq<(string, ProbeResult)>, agentLabel: string, probe: ProbeResult)
    requires Shows(cells, g, history)
    ensures Shows(SetProbe(cells, g, agentLabel, probe), g, history + [(agentLabel, probe)])
  {
    var n := |history|;
    var after, all := SetProbe(cells, g, agentLabel, probe), history + [(agentLabel, probe)];
    assert IsLast(all, (agentLabel, probe.url), n);
    forall cell | cell in after ensures exists i: nat :: IsLast(all, cell, i) {
      if cell != (agentLabel, probe.url) {
        var i: nat :| IsLast(history, cell, i);
        assert IsLast(all, cell, i);
      }
    }
    forall cell, i: nat | IsLast(all, cell, i) ensures cell in after && after[cell] == Reading(g, all[i].1) {
      if cell == (agentLabel, probe.url) {
        assert i == n;
      } else {
        assert i < n;
        forall j | i < j < n ensures !(history[j].0 == cell.0 && history[j].1.url == cell.1) {
          assert all[j] == history[j];
        }
        assert IsLast(history, cell, i);
      }
    }
  }

  lemma {:induction false} ShowsAll(
      cells: map<Cell, int>, g: Gauge, history: seq<(string, ProbeResult)>,
      agentLabel: string, probes: seq<ProbeResult>)
    requires Shows(cells, g, history)
    ensures Shows(SetProbes(cells, g, agentLabel, probes), g, history + Tagged(agentLabel, probes))
  {
    if probes == [] {
      assert history + Tagged(agentLabel, probes) == history;
    } else {
      var n := |probes| - 1;
      ShowsAll(cells, g, history, agentLabel, probes[..n]);
      var shown := SetProbes(cells, g, agentLabel, probes[..n]);
      ShowsNext(shown, g, history + Tagged(agentLabel, probes[..n]), agentLabel, probes[n]);
      assert history + Tagged(agentLabel, probes) ==
        history + Tagged(agentLabel, probes[..n]) + [(agentLabel, probes[n])];
    }
  }

  lemma {:induction false} GaugeShowsLastProbes(ops: seq<Op>, g: Gauge)
    ensures Shows(CellsOf(Run(ops), g), g, ProbeHistory(Handles(ops)))
  {
    if ops != [] {
      var init, op := ops[..|ops| - 1], ops[|ops| - 1];
      GaugeShowsLastProbes(init, g);
      if op.Handle? {
        ShowsAll(CellsOf(Run(init), g), g, ProbeHistory(Handles(init)), Label(op.spec), op.spec.networkProbes);
        assert Handles(ops)[..|Handles(init)|] == Handles(init);
      } else {
        assert Handles(ops) == Handles(init);
      }
    }
  }

  /** The value is that of the probe's field that the gauge is for. */
  predicate IsFieldFor(g: Gauge, probe: ProbeResult, v: int) {
    match g
    case ConnectionResult => v == probe.connectionResult
    case HTTPCode => v == probe.httpCode
    case Total => v == probe.total
    case ContentTransfer => v == probe.contentTransfer
    case TCPConnection => v == probe.tcpConnection
    case DNSLookup => v == probe.dnsLookup
    case Connect => v == probe.connect
    case ServerProcessing => v == probe.serverProcessing
  }

  /** All eight gauges have the cell, with the probe's fields in it. */
  predicate CellShows(s: State, cell: Cell, probe: ProbeResult) {
    forall g: Gauge :: cell in CellsOf(s, g) && IsFieldFor(g, probe, CellsOf(s, g)[cell])
  }

  /** The gauges show, for every label and URL in the history and no other, the last such probe. */
  ghost predicate GaugesShow(s: State, history: seq<(string, ProbeResult)>) {
    && (forall g: Gauge, cell :: cell in CellsOf(s, g) ==> exists i: nat :: IsLast(history, cell, i))
    && (forall cell, i: nat :: IsLast(history, cell, i) ==> CellShows(s, cell, history[i].1))
  }

  ghost predicate AllShow(s: State, history: seq<(string, ProbeResult)>) {
    forall g: Gauge :: Shows(CellsOf(s, g), g, history)
  }

  lemma CellIsShown(s: State, history: seq<(string, ProbeResult)>, cell: Cell, i: nat)
    requires IsLast(history, cell, i) && AllShow(s, history)
    ensures CellShows(s, cell, history[i].1)
  {
    forall g: Gauge ensures cell in CellsOf(s, g) && IsFieldFor(g, history[i].1, CellsOf(s, g)[cell]) {
      assert Shows(CellsOf(s, g), g, history);
    }
  }

  /** Rebuilding an agent's entry resets nothing: the gauges show the last probes of all reports. */
  lemma GaugesShowLastProbes(ops: seq<Op>)
    ensures GaugesShow(Run(ops), ProbeHistory(Handles(ops)))
  {
    forall g: Gauge ensures Shows(CellsOf(Run(ops), g), g, ProbeHistory(Handles(ops))) {
      GaugeShowsLastProbes(ops, g);
    }
    AllGaugesShow(Run(ops), ProbeHistory(Handles(ops)));
  }

  lemma AllGaugesShow(s: State, history: seq<(string, ProbeResult)>)
    requires AllShow(s, history)
    ensures GaugesShow(s, history)
  {
    forall g: Gauge, cell | cell in CellsOf(s, g) ensures exists i: nat :: IsLast(history, cell, i) {
      assert Shows(CellsOf(s, g), g, history);
    }
    forall cell, i: nat | IsLast(history, cell, i) ensures CellShows(s, cell, history[i].1) {
      CellIsShown(s, history, cell, i);
    }
  }

  /** The eight gauges have one set of label values. */
  lemma GaugesShareCells(ops: seq<Op>, g: Gauge, h: Gauge)
    ensures CellsOf(Run(ops), g).Keys == CellsOf(Run(ops), h).Keys
  {
    GaugeShowsLastProbes(ops, g);
    GaugeShowsLastProbes(ops, h);
  }

  // ----- Errors, gap by gap -----

  /** The errors in the gaps of a name's reports that a later report has ended. */
  function EndedErrors(ops: seq<Op>, name: string): nat {
    if ops == [] then 0
    else
      var init, op := ops[..|ops| - 1], ops[|ops| - 1];
      EndedErrors(init, name) + if op.Handle? && op.name == name then Streak(Run(init), name) else 0
  }

  /** The same for the gaps after reports with a label, under whatever name. */
  function EndedErrorsUnder(ops: seq<Op>, agentLabel: string): nat {
    if ops == [] then 0
    else
      var init, op := ops[..|ops| - 1], ops[|ops| - 1];
      EndedErrorsUnder(init, agentLabel) + if op.Handle? then StreakUnder(Run(init), op.name, agentLabel) else 0
  }

  function StreakUnder(s: State, name: string, agentLabel: string): nat {
    if name in s.entries && s.entries[name].agentLabel == agentLabel then Streak(s, name) else 0
  }

  /** The errors in the open gaps of the names with a label. */
  ghost function OpenErrorsUnder(s: State, agentLabel: string): nat {
    Sum(Streaks(s, agentLabel))
  }

  function Streaks(s: State, agentLabel: string): map<string, nat> {
    map n | n in s.entries && s.entries[n].agentLabel == agentLabel :: Streak(s, n)
  }

  /** The errors ever counted against a name are those of its ended gaps and of the open one. */
  lemma {:induction false} ChargedAreGapErrors(ops: seq<Op>, name: string)
    ensures Charged(Run(ops), name) == EndedErrors(ops, name) + Streak(Run(ops), name)
  {
    if ops != [] {
      var init, op := ops[..|ops| - 1], ops[|ops| - 1];
      ChargedAreGapErrors(init, name);
      match op {
        case Handle(_, _) =>
        case AbsentRound(absent) => ChargeAllAt(Run(init), NewlyAbsent(Run(init), absent), name);
        case LateRound(cache, now) => ChargeAllAt(Run(init), LateNames(Run(init), cache, now), name);
      }
    }
  }

  lemma OpenErrorsAfterReport(s: State, name: string, spec: AgentSpec, agentLabel: string)
    ensures OpenErrorsUnder(Handled(s, name, spec), agentLabel) + StreakUnder(s, name, agentLabel) ==
            OpenErrorsUnder(s, agentLabel)
  {
    var before, after := Streaks(s, agentLabel), Streaks(Handled(s, name, spec), agentLabel);
    if name in before {
      SumWithout(before, name);
    }
    if name in after {
      SumWithout(after, name);
    }
    assert before - {name} == after - {name};
    assert name !in before ==> before - {name} == before;
    assert name !in after ==> after - {name} == after;
  }

  lemma OpenErrorsAfterCharge(s: State, name: string, agentLabel: string)
    requires name in s.entries
    ensures OpenErrorsUnder(Charge(s, name), agentLabel) - OpenErrorsUnder(s, agentLabel) ==
            Errors(Charge(s, name), agentLabel) - Errors(s, agentLabel)
  {
    var before, after := Streaks(s, agentLabel), Streaks(Charge(s, name), agentLabel);
    if s.entries[name].agentLabel == agentLabel {
      assert after == Bump(before, name);
      SumBump(before, name);
    } else {
      assert after == before;
    }
  }

  lemma {:induction false} OpenErrorsAfterCharges(s: State, names: set<string>, agentLabel: string)
    requires names <= s.entries.Keys
    ensures OpenErrorsUnder(ChargeAll(s, names), agentLabel) - OpenErrorsUnder(s, agentLabel) ==
            Errors(ChargeAll(s, names), agentLabel) - Errors(s, agentLabel)
    decreases |names|
  {
    if names == {} {
      ChargeNobody(s);
    } else {
      var name :| name in names;
      var rest := names - {name};
      assert rest + {name} == names;
      OpenErrorsAfterCharges(s, rest, agentLabel);
      OpenErrorsAfterCharge(ChargeAll(s, rest), name, agentLabel);
      ChargeOneMore(s, rest, name);
    }
  }

  /**
   * Each label's error counter is, exactly, the errors in the gaps after reports with that label:
   * the ended gaps and the open ones. No error goes to another label, also when names share one
   * or a name changes it.
   */
  lemma {:induction false} ErrorsAreGapErrors(ops: seq<Op>, agentLabel: string)
    ensures Errors(Run(ops), agentLabel) ==
      EndedErrorsUnder(ops, agentLabel) + OpenErrorsUnder(Run(ops), agentLabel)
  {
    if ops == [] {
      assert Streaks(NO_METRICS, agentLabel) == map[];
    } else {
      var init, op := ops[..|ops| - 1], ops[|ops| - 1];
      ErrorsAreGapErrors(init, agentLabel);
      match op {
        case Handle(name, spec) => OpenErrorsAfterReport(Run(init), name, spec, agentLabel);
        case AbsentRound(absent) =>
          OpenErrorsAfterCharges(Run(init), NewlyAbsent(Run(init), absent), agentLabel);
        case LateRound(cache, now) =>
          OpenErrorsAfterCharges(Run(init), LateNames(Run(init), cache, now), agentLabel);
      }
    }
  }

  // ----- All of it, by the reports -----

  /** The last report posted under a name. */
  function LastUnder(posts: seq<(string, AgentSpec)>, name: string): Option<AgentSpec> {
    if posts == [] then None
    else if posts[|posts| - 1].0 == name then Some(posts[|posts| - 1].1)
    else LastUnder(posts[..|posts| - 1], name)
  }

  /** A name is known once a report came under it, with the pod and the label of the last. */
  ghost predicate EntryShows(s: State, name: string, last: Option<AgentSpec>) {
    && (name in s.entries <==> last.Some?)
    && (last.Some? ==>
          s.entries[name].podName == last.value.podName && s.entries[name].agentLabel == Label(last.value))
  }

  lemma {:induction false} EntriesShowLastReports(ops: seq<Op>, name: string)
    ensures EntryShows(Run(ops), name, LastUnder(Handles(ops), name))
  {
    if ops != [] {
      var init, op := ops[..|ops| - 1], ops[|ops| - 1];
      EntriesShowLastReports(init, name);
      if op.Handle? {
        assert Handles(ops)[..|Handles(init)|] == Handles(init);
      } else {
        assert Handles(ops) == Handles(init);
      }
    }
  }

  /** Table, report counters and gauges are what these reports make them. */
  ghost predicate Accounts(s: State, posts: seq<(string, AgentSpec)>) {
    && (forall name :: EntryShows(s, name, LastUnder(posts, name)))
    && CountersExist(s, posts) && Conserved(s, posts)
    && GaugesShow(s, ProbeHistory(posts))
  }

  lemma RunAccounts(ops: seq<Op>)
    ensures Accounts(Run(ops), Handles(ops))
  {
    forall name ensures EntryShows(Run(ops), name, LastUnder(Handles(ops), name)) {
      EntriesShowLastReports(ops, name);
    }
    CountersExistAfterRun(ops);
    CountersAreConserved(ops);
    GaugesShowLastProbes(ops);
  }
}
