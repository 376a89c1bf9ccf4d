/** JSON decoding into a target that is reused, seen as overwriting the fields a document holds. */
module Decode {
  import opened Types

  /**
   * What a stored value does to the variable it is decoded into: the fields it carries
   * (`Some(None)` is a JSON null) and whether the decoder reports success. A malformed text
   * carries no field; one with a field of the wrong type may carry others and still fail.
   */
  datatype Doc = Doc(
    ok: bool,
    reportInterval: Option<int>,
    nodeName: Option<string>,
    podName: Option<string>,
    hostDate: Option<Time>,
    uptime: Option<nat>,
    lastUpdated: Option<Time>,
    lookupHost: Option<Option<Hosts>>,
    ips: Option<Option<Hosts>>)

  /** The empty text, which is not valid JSON. */
  const EMPTY_DOC := Doc(false, None, None, None, None, None, None, None, None)

  /** The text the server stores for a report: every field is present. */
  function Marshal(spec: AgentSpec): Doc {
    Doc(true, Some(spec.reportInterval), Some(spec.nodeName), Some(spec.podName), Some(spec.hostDate),
        Some(spec.uptime), Some(spec.lastUpdated), Some(spec.lookupHost), Some(spec.ips))
  }

  predicate Complete(doc: Doc) {
    && doc.ok
    && doc.reportInterval.Some? && doc.nodeName.Some? && doc.podName.Some?
    && doc.hostDate.Some? && doc.uptime.Some? && doc.lastUpdated.Some?
    && doc.lookupHost.Some? && doc.ips.Some?
  }

  /** The scalar fields of a complete document. */
  function ScalarsOf(doc: Doc): AgentSpec
    requires Complete(doc)
  {
    AgentSpec(doc.reportInterval.value, doc.nodeName.value, doc.podName.value, doc.hostDate.value,
              doc.uptime.value, doc.lastUpdated.value, None, [], None)
  }

  /**
   * A Go struct variable that is decoded into again and again. Its map fields are references
   * into `Cells`, because copying the struct copies the reference and not the map.
   */
  datatype Target = Target(plain: AgentSpec, lookupHost: Option<nat>, ips: Option<nat>)

  /** The maps the decoder has allocated so far, one arena for each map field. */
  datatype Cells = Cells(lookupHost: seq<Hosts>, ips: seq<Hosts>)

  const ZERO_TARGET := Target(EMPTY_SPEC, None, None)
  const NO_CELLS := Cells([], [])

  predicate Points(ref: Option<nat>, cells: seq<Hosts>) {
    ref.Some? ==> ref.value < |cells|
  }

  predicate ValidTarget(t: Target, cells: Cells) {
    Points(t.lookupHost, cells.lookupHost) && Points(t.ips, cells.ips)
  }

  function Either<T>(field: Option<T>, current: T): T {
    if field.Some? then field.value else current
  }

  function Overwrite(doc: Doc, plain: AgentSpec): AgentSpec {
    plain.(reportInterval := Either(doc.reportInterval, plain.reportInterval),
           nodeName := Either(doc.nodeName, plain.nodeName),
           podName := Either(doc.podName, plain.podName),
           hostDate := Either(doc.hostDate, plain.hostDate),
           uptime := Either(doc.uptime, plain.uptime),
           lastUpdated := Either(doc.lastUpdated, plain.lastUpdated))
  }

  /**
   * Decoding a map field: null drops the reference, an object is merged into the map the
   * variable already refers to, and a new map is made only when there is none.
   */
  function DecodeHosts(field: Option<Option<Hosts>>, ref: Option<nat>, cells: seq<Hosts>)
      : (r: (Option<nat>, seq<Hosts>))
    requires Points(ref, cells)
    ensures Points(r.0, r.1)
    ensures |cells| <= |r.1|
  {
    match field
    case None => (ref, cells)
    case Some(None) => (None, cells)
    case Some(Some(hosts)) =>
      if ref.None? then (Some(|cells|), cells + [hosts])
      else (ref, cells[ref.value := cells[ref.value] + hosts])
  }

  /** One `json.Unmarshal` into `target`. */
  function Unmarshal(doc: Doc, target: Target, cells: Cells): (r: (Target, Cells))
    requires ValidTarget(target, cells)
    ensures ValidTarget(r.0, r.1)
    ensures |cells.lookupHost| <= |r.1.lookupHost| && |cells.ips| <= |r.1.ips|
  {
    var (lookupRef, lookupCells) := DecodeHosts(doc.lookupHost, target.lookupHost, cells.lookupHost);
    var (ipsRef, ipsCells) := DecodeHosts(doc.ips, target.ips, cells.ips);
    (Target(Overwrite(doc, target.plain), lookupRef, ipsRef), Cells(lookupCells, ipsCells))
  }

  /** A complete document leaves nothing of the target's former scalar fields. */
  lemma CompleteOverwrites(doc: Doc, plain: AgentSpec)
    requires Complete(doc) && plain == Scalars(plain)
    ensures Overwrite(doc, plain) == ScalarsOf(doc)
  {
  }

  lemma MarshalKeepsScalars(spec: AgentSpec)
    ensures Complete(Marshal(spec))
    ensures ScalarsOf(Marshal(spec)) == Scalars(spec)
  {
  }

  /** A field that a document carries is taken over, and one that it lacks is left as it was. */
  lemma FieldByField(doc: Doc, target: Target, cells: Cells)
    requires ValidTarget(target, cells)
    ensures var before, after := target.plain, Unmarshal(doc, target, cells).0.plain;
      && after.reportInterval == Either(doc.reportInterval, before.reportInterval)
      && after.nodeName == Either(doc.nodeName, before.nodeName)
      && after.podName == Either(doc.podName, before.podName)
      && after.hostDate == Either(doc.hostDate, before.hostDate)
      && after.uptime == Either(doc.uptime, before.uptime)
      && after.lastUpdated == Either(doc.lastUpdated, before.lastUpdated)
  {
  }

  /** The variable shows these hosts, or no map. */
  predicate ShowsHosts(ref: Option<nat>, cells: seq<Hosts>, hosts: Option<Hosts>) {
    match hosts
    case None => ref.None?
    case Some(h) => ref.Some? && ref.value < |cells| && cells[ref.value] == h
  }

  /** Decoded into a fresh variable, what the server stores gives the report back, field by field. */
  lemma StoredReportRoundTrips(spec: AgentSpec)
    ensures var (t, cells) := Unmarshal(Marshal(spec), ZERO_TARGET, NO_CELLS);
      && HasScalarsOf(t.plain, spec, spec.lastUpdated)
      && ShowsHosts(t.lookupHost, cells.lookupHost, spec.lookupHost)
      && ShowsHosts(t.ips, cells.ips, spec.ips)
  {
  }
}
