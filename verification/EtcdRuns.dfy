/** The etcd tree over whole runs: two layers of TTL against the history of reports. */
module EtcdRuns {
  import opened Types
  import opened Keys
  import opened Decode
  import opened Etcd
  import opened StorerEtcd

  /** What reaches the server: a POST to an agent's URL, or a round of the metrics loop. */
  datatype Act =
    | Report(name: string, body: Result<AgentSpec>)
    | Tick(pods: Result<seq<string>>)

  datatype Event = Event(at: Time, act: Act)

  predicate Chronological(es: seq<Event>) {
    forall i, j :: 0 <= i < j < |es| ==> es[i].at <= es[j].at
  }

  /** `now` is no earlier than any event. */
  predicate Reaches(es: seq<Event>, now: Time) {
    forall i :: 0 <= i < |es| ==> es[i].at <= now
  }

  predicate ReportsOn(e: Event, pod: string) {
    e.act.Report? && e.act.body.Ok? && e.act.body.value.podName == pod
  }

  predicate ReportsKey(e: Event, pod: string, key: string) {
    ReportsOn(e, pod) && Decimal(e.act.body.value.uptime) == key
  }

  /** The record a report carries. */
  function SpecAt(e: Event): AgentSpec
    requires e.act.Report? && e.act.body.Ok?
  {
    Stamped(e.act.body.value, e.at)
  }

  function TreeStep(tree: Tree, ttl: Duration, e: Event): Tree {
    var visible := Expire(tree, e.at);
    if e.act.Report? && e.act.body.Ok? then ReportTree(visible, e.at, ttl, SpecAt(e)) else visible
  }

  function TreeAfter(t0: Tree, ttl: Duration, es: seq<Event>): Tree {
    if es == [] then t0 else TreeStep(TreeAfter(t0, ttl, es[..|es| - 1]), ttl, es[|es| - 1])
  }

  // ----- The history, without trees -----

  /** The index of the last report of a pod. */
  function LastReport(es: seq<Event>, pod: string): (r: Option<nat>)
    ensures r.None? ==> forall i :: 0 <= i < |es| ==> !ReportsOn(es[i], pod)
    ensures r.Some? ==>
      && r.value < |es| && ReportsOn(es[r.value], pod)
      && forall i :: r.value < i < |es| ==> !ReportsOn(es[i], pod)
  {
    if es == [] then None
    else if ReportsOn(es[|es| - 1], pod) then Some(|es| - 1)
    else LastReport(es[..|es| - 1], pod)
  }

  /**
   * The index of the last report under a key that opened a window: a report is dropped when
   * the one that opened the current window is younger than the TTL.
   */
  function LastAccepted(es: seq<Event>, ttl: Duration, pod: string, key: string): (r: Option<nat>)
    ensures r.Some? ==> r.value < |es| && ReportsKey(es[r.value], pod, key)
  {
    if es == [] then None
    else
      var n := |es| - 1;
      var open := LastAccepted(es[..n], ttl, pod, key);
      if ReportsKey(es[n], pod, key) && (open.None? || es[open.value].at + ttl <= es[n].at) then Some(n) else open
  }

  /** The report at `i` opened a window. */
  predicate Accepted(es: seq<Event>, ttl: Duration, i: nat)
    requires i < |es|
  {
    && es[i].act.Report? && es[i].act.body.Ok?
    && var spec := es[i].act.body.value;
       LastAccepted(es[..i + 1], ttl, spec.podName, Decimal(spec.uptime)) == Some(i)
  }

  predicate Young(es: seq<Event>, ttl: Duration, now: Time, i: Option<nat>)
    requires i.Some? ==> i.value < |es|
  {
    i.Some? && now < es[i.value].at + ttl
  }

  // ----- The tree is the history -----

  predicate IsDir(tree: Tree, pod: string) {
    pod in tree && tree[pod].Dir?
  }

  predicate LeafMatches(leaves: map<string, Leaf>, es: seq<Event>, ttl: Duration, now: Time, pod: string, key: string) {
    var i := LastAccepted(es, ttl, pod, key);
    if Young(es, ttl, now, i) then
      && key in leaves
      && leaves[key] == Leaf(Marshal(SpecAt(es[i.value])), At(es[i.value].at + ttl))
    else key !in leaves
  }

  /**
   * The pod has a directory exactly while its last report is young, and under it exactly the
   * reports that opened a window that is still young.
   */
  ghost predicate PodMatches(tree: Tree, es: seq<Event>, ttl: Duration, now: Time, pod: string) {
    var last := LastReport(es, pod);
    && (IsDir(tree, pod) <==> Young(es, ttl, now, last))
    && (IsDir(tree, pod) ==>
          && tree[pod].expiry == At(es[last.value].at + ttl)
          && forall key :: LeafMatches(tree[pod].leaves, es, ttl, now, pod, key))
  }

  /** No directory has been made before the run; plain keys may be in the way. */
  predicate OnlyFiles(tree: Tree) {
    forall p :: p in tree ==> tree[p].File?
  }

  lemma {:induction false} AcceptedBeforeLast(es: seq<Event>, ttl: Duration, pod: string, key: string)
    requires Chronological(es)
    requires LastAccepted(es, ttl, pod, key).Some?
    ensures LastReport(es, pod).Some?
    ensures es[LastAccepted(es, ttl, pod, key).value].at <= es[LastReport(es, pod).value].at
  {
    var i := LastAccepted(es, ttl, pod, key).value;
    assert ReportsOn(es[i], pod);
    var last := LastReport(es, pod).value;
    assert i <= last;
  }

  lemma Ageing(tree: Tree, es: seq<Event>, ttl: Duration, t: Time, now: Time, pod: string)
    requires Chronological(es) && t <= now
    requires PodMatches(tree, es, ttl, t, pod)
    ensures PodMatches(Expire(tree, now), es, ttl, now, pod)
  {
    if IsDir(Expire(tree, now), pod) {
      forall key ensures LeafMatches(Expire(tree, now)[pod].leaves, es, ttl, now, pod, key) {
        assert LeafMatches(tree[pod].leaves, es, ttl, t, pod, key);
      }
    }
  }

  /** In the pod's own directory, a key is taken exactly while its window is open. */
  lemma KeyTakenIffOpen(tree: Tree, es: seq<Event>, ttl: Duration, now: Time, pod: string, key: string)
    requires Chronological(es) && PodMatches(tree, es, ttl, now, pod)
    ensures key in LeavesAt(tree, pod) <==> Young(es, ttl, now, LastAccepted(es, ttl, pod, key))
    ensures key in LeavesAt(tree, pod) ==>
      var i := LastAccepted(es, ttl, pod, key).value;
      LeavesAt(tree, pod)[key] == Leaf(Marshal(SpecAt(es[i])), At(es[i].at + ttl))
  {
    if LastAccepted(es, ttl, pod, key).Some? {
      AcceptedBeforeLast(es, ttl, pod, key);
    }
    if IsDir(tree, pod) {
      assert LeafMatches(tree[pod].leaves, es, ttl, now, pod, key);
    }
  }

  /** A report moves the window of its key on exactly if there is no young one. */
  lemma LastAcceptedNext(es: seq<Event>, e: Event, ttl: Duration, pod: string, key: string)
    ensures LastAccepted(es + [e], ttl, pod, key) ==
      if ReportsKey(e, pod, key) && !Young(es, ttl, e.at, LastAccepted(es, ttl, pod, key)) then Some(|es|)
      else LastAccepted(es, ttl, pod, key)
  {
    assert (es + [e])[..|es|] == es;
  }

  lemma OwnReportMatches(tree: Tree, es: seq<Event>, e: Event, ttl: Duration, pod: string, key: string)
    requires Chronological(es) && PodMatches(tree, es, ttl, e.at, pod) && ReportsOn(e, pod)
    ensures LeafMatches(ReportTree(tree, e.at, ttl, SpecAt(e))[pod].leaves, es + [e], ttl, e.at, pod, key)
  {
    KeyTakenIffOpen(tree, es, ttl, e.at, pod, key);
    LastAcceptedNext(es, e, ttl, pod, key);
  }

  lemma ReportMatches(tree: Tree, es: seq<Event>, e: Event, ttl: Duration, pod: string)
    requires Chronological(es)
    requires PodMatches(tree, es, ttl, e.at, pod)
    requires e.act.Report? && e.act.body.Ok?
    ensures PodMatches(ReportTree(tree, e.at, ttl, SpecAt(e)), es + [e], ttl, e.at, pod)
  {
    var all := es + [e];
    var after := ReportTree(tree, e.at, ttl, SpecAt(e));
    if e.act.body.value.podName == pod {
      assert LastReport(all, pod) == Some(|es|);
      forall key ensures LeafMatches(after[pod].leaves, all, ttl, e.at, pod, key) {
        OwnReportMatches(tree, es, e, ttl, pod, key);
      }
    } else {
      OthersMatch(tree, after, es, e, ttl, pod);
    }
  }

  lemma OthersMatch(tree: Tree, after: Tree, es: seq<Event>, e: Event, ttl: Duration, pod: string)
    requires PodMatches(tree, es, ttl, e.at, pod)
    requires !ReportsOn(e, pod)
    requires IsDir(tree, pod) == IsDir(after, pod)
    requires IsDir(tree, pod) ==> after[pod] == tree[pod]
    ensures PodMatches(after, es + [e], ttl, e.at, pod)
  {
    var all := es + [e];
    assert all[..|es|] == es;
    assert LastReport(all, pod) == LastReport(es, pod);
    if IsDir(tree, pod) {
      forall key ensures LeafMatches(after[pod].leaves, all, ttl, e.at, pod, key) {
        assert LeafMatches(tree[pod].leaves, es, ttl, e.at, pod, key);
        assert LastAccepted(all, ttl, pod, key) == LastAccepted(es, ttl, pod, key);
      }
    }
  }

  /**
   * After any run of reports and clock advances, duplicates and repeated uptimes included, the
   * tree holds what the history says: this is what a directory and a record with a TTL each add up to.
   */
  lemma {:induction false} TreeIsHistory(t0: Tree, ttl: Duration, es: seq<Event>, now: Time, pod: string)
    requires OnlyFiles(t0) && Chronological(es) && Reaches(es, now)
    ensures PodMatches(Expire(TreeAfter(t0, ttl, es), now), es, ttl, now, pod)
  {
    if es != [] {
      var n := |es| - 1;
      var init, e := es[..n], es[n];
      TreeIsHistory(t0, ttl, init, e.at, pod);
      var visible := Expire(TreeAfter(t0, ttl, init), e.at);
      assert init + [e] == es;
      if e.act.Report? && e.act.body.Ok? {
        ReportMatches(visible, init, e, ttl, pod);
      } else {
        OthersMatch(visible, visible, init, e, ttl, pod);
      }
      Ageing(TreeAfter(t0, ttl, es), es, ttl, e.at, now, pod);
    }
  }

  // ----- Repeated uptimes -----

  lemma {:induction false} WindowsMoveOn(es: seq<Event>, ttl: Duration, i: nat, n: nat)
    requires i < n <= |es| && Accepted(es, ttl, i)
    ensures var spec := es[i].act.body.value;
      var open := LastAccepted(es[..n], ttl, spec.podName, Decimal(spec.uptime));
      open.Some? && i <= open.value
  {
    if i + 1 < n {
      WindowsMoveOn(es, ttl, i, n - 1);
      assert es[..n][..n - 1] == es[..n - 1];
    }
  }

  /** Accepted reports under one key are at least a TTL apart. */
  lemma AcceptedReportsAreApart(es: seq<Event>, ttl: Duration, i: nat, j: nat)
    requires Chronological(es) && i < j < |es|
    requires Accepted(es, ttl, i) && Accepted(es, ttl, j)
    requires es[i].act.body.value.podName == es[j].act.body.value.podName
    requires es[i].act.body.value.uptime == es[j].act.body.value.uptime
    ensures es[i].at + ttl <= es[j].at
  {
    WindowsMoveOn(es, ttl, i, j);
    assert es[..j + 1][..j] == es[..j];
  }

  lemma AcceptedUnfolds(es: seq<Event>, ttl: Duration, i: nat)
    requires i < |es| && es[i].act.Report? && es[i].act.body.Ok?
    ensures var spec := es[i].act.body.value;
      var open := LastAccepted(es[..i], ttl, spec.podName, Decimal(spec.uptime));
      Accepted(es, ttl, i) <==> !Young(es[..i], ttl, es[i].at, open)
  {
    assert es[..i + 1][..i] == es[..i];
  }

  /** A report is accepted exactly when its record is not in the tree as it arrives. */
  lemma AcceptedIffCreated(t0: Tree, ttl: Duration, es: seq<Event>, i: nat)
    requires OnlyFiles(t0) && Chronological(es) && i < |es|
    requires es[i].act.Report? && es[i].act.body.Ok?
    ensures var spec := es[i].act.body.value;
      Accepted(es, ttl, i) <==>
      Decimal(spec.uptime) !in LeavesAt(Expire(TreeAfter(t0, ttl, es[..i]), es[i].at), spec.podName)
  {
    var pod, key := es[i].act.body.value.podName, Decimal(es[i].act.body.value.uptime);
    var init, now := es[..i], es[i].at;
    TreeIsHistory(t0, ttl, init, now, pod);
    KeyTakenIffOpen(Expire(TreeAfter(t0, ttl, init), now), init, ttl, now, pod, key);
    AcceptedUnfolds(es, ttl, i);
  }

  /**
   * A live record is the first of its window: of the reports under its key within one TTL, only
   * the one that opened the window is kept, while the directory lives on from the last of all.
   */
  lemma LiveRecordOpensItsWindow(t0: Tree, ttl: Duration, es: seq<Event>, now: Time, pod: string, key: string)
    returns (first: nat)
    requires OnlyFiles(t0) && Chronological(es) && Reaches(es, now)
    requires key in LeavesAt(Expire(TreeAfter(t0, ttl, es), now), pod)
    ensures first < |es| && ReportsKey(es[first], pod, key) && Accepted(es, ttl, first)
    ensures now < es[first].at + ttl
    ensures forall j :: first < j < |es| && ReportsKey(es[j], pod, key) ==> !Accepted(es, ttl, j)
    ensures LeavesAt(Expire(TreeAfter(t0, ttl, es), now), pod)[key] ==
            Leaf(Marshal(SpecAt(es[first])), At(es[first].at + ttl))
    ensures LastReport(es, pod).Some? &&
      Expire(TreeAfter(t0, ttl, es), now)[pod].expiry == At(es[LastReport(es, pod).value].at + ttl)
  {
    TreeIsHistory(t0, ttl, es, now, pod);
    var tree := Expire(TreeAfter(t0, ttl, es), now);
    assert LeafMatches(tree[pod].leaves, es, ttl, now, pod, key);
    first := LastAccepted(es, ttl, pod, key).value;
    LastAcceptedIsAccepted(es, ttl, pod, key);
    assert es[..|es|] == es;
    forall j | first < j < |es| && ReportsKey(es[j], pod, key) ensures !Accepted(es, ttl, j) {
      if Accepted(es, ttl, j) {
        WindowsMoveOn(es, ttl, j, |es|);
      }
    }
  }

  lemma {:induction false} LastAcceptedIsAccepted(es: seq<Event>, ttl: Duration, pod: string, key: string)
    requires LastAccepted(es, ttl, pod, key).Some?
    ensures Accepted(es, ttl, LastAccepted(es, ttl, pod, key).value)
  {
    var n := |es| - 1;
    var i := LastAccepted(es, ttl, pod, key).value;
    if i == n {
      assert es[..n + 1] == es;
    } else {
      LastAcceptedIsAccepted(es[..n], ttl, pod, key);
      assert es[..n][..i + 1] == es[..i + 1];
    }
  }

  // ----- Refinement of the map from pod to last report -----

  /** An agent's uptimes are positive and strictly increase. */
  ghost predicate Increasing(es: seq<Event>, pod: string) {
    && (forall i :: 0 <= i < |es| && ReportsOn(es[i], pod) ==> 0 < es[i].act.body.value.uptime)
    && (forall i, j :: 0 <= i < j < |es| && ReportsOn(es[i], pod) && ReportsOn(es[j], pod) ==>
          es[i].act.body.value.uptime < es[j].act.body.value.uptime)
  }

  lemma {:induction false} FreshKeyIsAccepted(es: seq<Event>, ttl: Duration, pod: string, key: string, i: nat)
    requires i < |es| && ReportsKey(es[i], pod, key)
    requires forall j :: 0 <= j < |es| && ReportsKey(es[j], pod, key) ==> j == i
    ensures LastAccepted(es, ttl, pod, key) == Some(i)
  {
    var n := |es| - 1;
    if i < n {
      FreshKeyIsAccepted(es[..n], ttl, pod, key, i);
    }
  }

  lemma TreeIsSound(t0: Tree, ttl: Duration, es: seq<Event>, now: Time)
    requires OnlyFiles(t0) && Chronological(es) && Reaches(es, now)
    ensures SoundTree(Expire(TreeAfter(t0, ttl, es), now))
  {
    var tree := Expire(TreeAfter(t0, ttl, es), now);
    forall p, k | p in tree && k in Leaves(tree[p]) ensures Complete(Leaves(tree[p])[k].doc) {
      TreeIsHistory(t0, ttl, es, now, p);
      assert LeafMatches(tree[p].leaves, es, ttl, now, p, k);
    }
  }

  /** And it sits under its own uptime, so that no listing order matters to the answer. */
  lemma TreeIsKeyed(t0: Tree, ttl: Duration, es: seq<Event>, now: Time)
    requires OnlyFiles(t0) && Chronological(es) && Reaches(es, now)
    ensures KeyedByUptime(Expire(TreeAfter(t0, ttl, es), now))
  {
    var tree := Expire(TreeAfter(t0, ttl, es), now);
    forall p, k | p in tree && k in Leaves(tree[p]) && Complete(Leaves(tree[p])[k].doc)
      ensures k == Decimal(ScalarsOf(Leaves(tree[p])[k].doc).uptime)
    {
      TreeIsHistory(t0, ttl, es, now, p);
      assert LeafMatches(tree[p].leaves, es, ttl, now, p, k);
    }
  }

  lemma LastRecordIsHighest(t0: Tree, ttl: Duration, es: seq<Event>, now: Time, pod: string)
    requires OnlyFiles(t0) && Chronological(es) && Reaches(es, now) && Increasing(es, pod)
    ensures var tree, last := Expire(TreeAfter(t0, ttl, es), now), LastReport(es, pod);
      && (Silent(tree, pod) <==> !Young(es, ttl, now, last))
      && (Young(es, ttl, now, last) ==>
            forall plain :: HighestLeaf(tree, pod, plain) ==> plain == Scalars(SpecAt(es[last.value])))
  {
    var tree, last := Expire(TreeAfter(t0, ttl, es), now), LastReport(es, pod);
    TreeIsHistory(t0, ttl, es, now, pod);
    if Young(es, ttl, now, last) {
      var top := es[last.value].act.body.value.uptime;
      var key := Decimal(top);
      forall j | 0 <= j < |es| && ReportsKey(es[j], pod, key) ensures j == last.value {
        DecimalInjective(es[j].act.body.value.uptime, top);
      }
      FreshKeyIsAccepted(es, ttl, pod, key, last.value);
      assert LeafMatches(tree[pod].leaves, es, ttl, now, pod, key);
      assert key in LeavesAt(tree, pod) && ScalarsOf(LeavesAt(tree, pod)[key].doc).uptime == top;
      forall k | k in LeavesAt(tree, pod)
        ensures Complete(LeavesAt(tree, pod)[k].doc)
        ensures ScalarsOf(LeavesAt(tree, pod)[k].doc).uptime <= top
        ensures ScalarsOf(LeavesAt(tree, pod)[k].doc).uptime == top ==> k == key
      {
        assert LeafMatches(tree[pod].leaves, es, ttl, now, pod, k);
      }
    }
  }

  /**
   * Refinement: after any run, the scalar part of getAgents is the simple map from pod to its
   * last report, restricted to the pods whose last report is younger than the TTL: the fields as
   * they were posted, and the time of arrival.
   */
  lemma GetAgentsRefinesLastReport(
      t0: Tree, ttl: Duration, es: seq<Event>, now: Time, pod: string, listing: seq<Listed>)
    requires OnlyFiles(t0) && Chronological(es) && Reaches(es, now) && Increasing(es, pod)
    requires IsListing(listing, Expire(TreeAfter(t0, ttl, es), now))
    ensures var agents, last := ScanNodes(listing).agents, LastReport(es, pod);
      && (pod in agents <==> Young(es, ttl, now, last))
      && (pod in agents ==>
            && agents[pod].plain == Scalars(SpecAt(es[last.value]))
            && HasScalarsOf(agents[pod].plain, es[last.value].act.body.value, es[last.value].at))
  {
    TreeIsSound(t0, ttl, es, now);
    GetAgentsByTree(Expire(TreeAfter(t0, ttl, es), now), listing, pod);
    LastRecordIsHighest(t0, ttl, es, now, pod);
  }

  // ----- Uptimes that do not increase -----

  /** A window of the pod for this positive uptime is open. */
  predicate OpenFor(es: seq<Event>, ttl: Duration, now: Time, pod: string, uptime: nat) {
    0 < uptime && Young(es, ttl, now, LastAccepted(es, ttl, pod, Decimal(uptime)))
  }

  /** The record under a key is the report that opened its window, with the uptime the key prints. */
  lemma RecordOpensWindow(tree: Tree, es: seq<Event>, ttl: Duration, now: Time, pod: string, uptime: nat)
    requires Chronological(es) && PodMatches(tree, es, ttl, now, pod)
    ensures var leaves, key, i := LeavesAt(tree, pod), Decimal(uptime), LastAccepted(es, ttl, pod, Decimal(uptime));
      && (key in leaves <==> Young(es, ttl, now, i))
      && (key in leaves ==>
            && Complete(leaves[key].doc)
            && ScalarsOf(leaves[key].doc) == Scalars(SpecAt(es[i.value]))
            && ScalarsOf(leaves[key].doc).uptime == uptime)
  {
    KeyTakenIffOpen(tree, es, ttl, now, pod, Decimal(uptime));
    var i := LastAccepted(es, ttl, pod, Decimal(uptime));
    if i.Some? {
      DecimalInjective(es[i.value].act.body.value.uptime, uptime);
    }
  }

  lemma KeyPrintsUptime(tree: Tree, es: seq<Event>, ttl: Duration, now: Time, pod: string, key: string)
    requires Chronological(es) && PodMatches(tree, es, ttl, now, pod) && key in LeavesAt(tree, pod)
    ensures Complete(LeavesAt(tree, pod)[key].doc)
    ensures key == Decimal(ScalarsOf(LeavesAt(tree, pod)[key].doc).uptime)
  {
    KeyTakenIffOpen(tree, es, ttl, now, pod, key);
  }

  lemma SilentIffNoneOpen(tree: Tree, es: seq<Event>, ttl: Duration, now: Time, pod: string)
    requires Chronological(es) && PodMatches(tree, es, ttl, now, pod)
    ensures !Silent(tree, pod) <==> exists uptime: nat :: OpenFor(es, ttl, now, pod, uptime)
  {
    var leaves := LeavesAt(tree, pod);
    if uptime: nat :| OpenFor(es, ttl, now, pod, uptime) {
      RecordOpensWindow(tree, es, ttl, now, pod, uptime);
      assert Decimal(uptime) in leaves;
    }
    if !Silent(tree, pod) {
      var k :| k in leaves && Complete(leaves[k].doc) && ScalarsOf(leaves[k].doc).uptime != 0;
      KeyPrintsUptime(tree, es, ttl, now, pod, k);
      var uptime := ScalarsOf(leaves[k].doc).uptime;
      RecordOpensWindow(tree, es, ttl, now, pod, uptime);
      assert OpenFor(es, ttl, now, pod, uptime);
    }
  }

  /** The report that opened the window of the highest positive uptime, among the open ones. */
  ghost predicate HighestOpen(es: seq<Event>, ttl: Duration, now: Time, pod: string, plain: AgentSpec) {
    && OpenFor(es, ttl, now, pod, plain.uptime)
    && (forall uptime: nat :: OpenFor(es, ttl, now, pod, uptime) ==> uptime <= plain.uptime)
    && var e := es[LastAccepted(es, ttl, pod, Decimal(plain.uptime)).value];
       plain == Scalars(SpecAt(e)) && HasScalarsOf(plain, e.act.body.value, e.at)
  }

  lemma HighestLeafIsOpen(tree: Tree, es: seq<Event>, ttl: Duration, now: Time, pod: string, plain: AgentSpec)
    requires Chronological(es) && PodMatches(tree, es, ttl, now, pod)
    requires HighestLeaf(tree, pod, plain) && !Silent(tree, pod)
    ensures HighestOpen(es, ttl, now, pod, plain)
  {
    var leaves := LeavesAt(tree, pod);
    forall uptime: nat | OpenFor(es, ttl, now, pod, uptime) ensures uptime <= plain.uptime {
      RecordOpensWindow(tree, es, ttl, now, pod, uptime);
      assert Decimal(uptime) in leaves;
    }
    SilentIffNoneOpen(tree, es, ttl, now, pod);
    var k :| k in leaves && Complete(leaves[k].doc) && ScalarsOf(leaves[k].doc) == plain;
    KeyPrintsUptime(tree, es, ttl, now, pod, k);
    RecordOpensWindow(tree, es, ttl, now, pod, plain.uptime);
  }

  /**
   * With arbitrary uptimes: after any run, getAgents returns a pod exactly if one of its windows
   * for a positive uptime is open, and then the report that opened the one of the highest uptime.
   */
  lemma GetAgentsReturnsHighestOpen(
      t0: Tree, ttl: Duration, es: seq<Event>, now: Time, pod: string, listing: seq<Listed>)
    requires OnlyFiles(t0) && Chronological(es) && Reaches(es, now)
    requires IsListing(listing, Expire(TreeAfter(t0, ttl, es), now))
    ensures var agents := ScanNodes(listing).agents;
      && (pod in agents <==> exists uptime: nat :: OpenFor(es, ttl, now, pod, uptime))
      && (pod in agents ==> HighestOpen(es, ttl, now, pod, agents[pod].plain))
  {
    var tree := Expire(TreeAfter(t0, ttl, es), now);
    TreeIsHistory(t0, ttl, es, now, pod);
    TreeIsSound(t0, ttl, es, now);
    GetAgentsByTree(tree, listing, pod);
    SilentIffNoneOpen(tree, es, ttl, now, pod);
    if pod in ScanNodes(listing).agents {
      HighestLeafIsOpen(tree, es, ttl, now, pod, ScanNodes(listing).agents[pod].plain);
    }
  }

  /** So a pod that repeats its uptime can be absent although its last report is a nanosecond old. */
  lemma RepeatedUptimeIsDropped(ttl: Duration, name: string, spec: AgentSpec)
    requires 1 < ttl
    ensures var e0, e1 := Event(0, Report(name, Ok(spec))), Event(ttl - 1, Report(name, Ok(spec)));
      && Young([e0, e1], ttl, ttl, LastReport([e0, e1], spec.podName))
      && Silent(Expire(TreeAfter(map[], ttl, [e0, e1]), ttl), spec.podName)
  {
    var pod, key := spec.podName, Decimal(spec.uptime);
    var e0, e1 := Event(0, Report(name, Ok(spec))), Event(ttl - 1, Report(name, Ok(spec)));
    var es, tree := [e0, e1], Expire(TreeAfter(map[], ttl, [e0, e1]), ttl);
    assert es[..1] == [e0] && [e0][..0] == [];
    TreeIsHistory(map[], ttl, es, ttl, pod);
    assert LastAccepted([e0], ttl, pod, key) == Some(0);
    forall k ensures k !in LeavesAt(tree, pod) {
      KeyTakenIffOpen(tree, es, ttl, ttl, pod, k);
    }
  }
}
