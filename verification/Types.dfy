/** Values shared by the stores, the metrics and the HTTP handler. */
module Types {

  datatype Option<+T> = None | Some(value: T)

  /** A call that yields a value or an error; what the error says is not modelled. */
  datatype Result<+T> = Ok(value: T) | Err

  /** Times and durations are integer nanoseconds on one clock. */
  type Time = int

  type Duration = d: int | 0 < d witness 1

  const SECOND: Duration := 1_000_000_000

  /** The two map-valued fields of a report: host name to addresses. */
  type Hosts = map<string, seq<string>>

  datatype ProbeResult = ProbeResult(
    url: string,
    connectionResult: int,
    httpCode: int,
    total: int,
    contentTransfer: int,
    tcpConnection: int,
    dnsLookup: int,
    connect: int,
    serverProcessing: int)

  /** A report. `None` in a map field is Go's nil map. */
  datatype AgentSpec = AgentSpec(
    reportInterval: int,
    nodeName: string,
    podName: string,
    hostDate: Time,
    uptime: nat,
    lastUpdated: Time,
    lookupHost: Option<Hosts>,
    networkProbes: seq<ProbeResult>,
    ips: Option<Hosts>)

  /** The zero value of a report. */
  const EMPTY_SPEC := AgentSpec(0, "", "", 0, 0, 0, None, [], None)

  /** The scalar fields of a report; the fields Go holds by reference are blanked. */
  function Scalars(spec: AgentSpec): AgentSpec {
    spec.(lookupHost := None, networkProbes := [], ips := None)
  }

  /** The report as the server stores it: stamped with the time of its arrival. */
  function Stamped(spec: AgentSpec, now: Time): AgentSpec {
    spec.(lastUpdated := now)
  }

  /** The scalar fields of `r` are those of the report as it was posted, with the time it arrived. */
  predicate HasScalarsOf(r: AgentSpec, posted: AgentSpec, at: Time) {
    && r.reportInterval == posted.reportInterval && r.nodeName == posted.nodeName && r.podName == posted.podName
    && r.hostDate == posted.hostDate && r.uptime == posted.uptime && r.lastUpdated == at
  }

  /** So are all its fields. */
  predicate IsReportOf(r: AgentSpec, posted: AgentSpec, at: Time) {
    && HasScalarsOf(r, posted, at)
    && r.lookupHost == posted.lookupHost && r.networkProbes == posted.networkProbes && r.ips == posted.ips
  }

  /** The elements of `s` that are in `keep`, in order, as loops that append to a slice build them. */
  function Select(s: seq<string>, keep: set<string>): (r: seq<string>)
    ensures forall x :: x in r <==> x in s && x in keep
  {
    if s == [] then [] else
    var rest := Select(s[..|s| - 1], keep);
    if s[|s| - 1] in keep then rest + [s[|s| - 1]] else rest
  }

  lemma SelectNext(s: seq<string>, keep: set<string>, i: nat)
    requires i < |s|
    ensures Select(s[..i + 1], keep) == Select(s[..i], keep) + if s[i] in keep then [s[i]] else []
  {
    assert s[..i + 1][..i] == s[..i];
  }
}
