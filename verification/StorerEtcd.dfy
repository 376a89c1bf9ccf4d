/** The etcd report store. */
module StorerEtcd {
  import opened Types
  import opened Keys
  import opened Decode
  import opened Etcd

  function LeavesAt(tree: Tree, name: string): map<string, Leaf> {
    if name in tree then Leaves(tree[name]) else map[]
  }

  /**
   * What one undisturbed report does to the tree: the pod's directory is there and lives for
   * another TTL, its records are kept, and the report is added unless its uptime is taken.
   */
  function ReportTree(tree: Tree, now: Time, ttl: Duration, spec: AgentSpec): Tree {
    var key := Decimal(spec.uptime);
    var leaves := LeavesAt(tree, spec.podName);
    var grown := if key in leaves then leaves else leaves[key := Leaf(Marshal(spec), At(now + ttl))];
    tree[spec.podName := Dir(At(now + ttl), grown)]
  }

  // ----- The fold of getAgents -----

  /** The variables of the loops, the maps they refer to, and the result built so far. */
  datatype Scan = Scan(last: Target, max: Target, cells: Cells, agents: map<string, Target>)

  predicate ValidScan(s: Scan) {
    && ValidTarget(s.last, s.cells) && ValidTarget(s.max, s.cells)
    && forall p :: p in s.agents ==> ValidTarget(s.agents[p], s.cells)
  }

  const SCAN_START := Scan(ZERO_TARGET, ZERO_TARGET, NO_CELLS, map[])

  function ScanDoc(s: Scan, doc: Doc): (r: Scan)
    requires ValidScan(s)
    ensures ValidScan(r) && r.agents == s.agents
  {
    var (last, cells) := Unmarshal(doc, s.last, s.cells);
    if doc.ok && last.plain.uptime > s.max.plain.uptime then Scan(last, last, cells, s.agents)
    else Scan(last, s.max, cells, s.agents)
  }

  function ScanDocs(s: Scan, entries: seq<(string, Doc)>): (r: Scan)
    requires ValidScan(s)
    ensures ValidScan(r) && r.agents == s.agents
  {
    if entries == [] then s
    else ScanDoc(ScanDocs(s, entries[..|entries| - 1]), entries[|entries| - 1].1)
  }

  function ResetMax(s: Scan): Scan {
    s.(max := s.max.(plain := s.max.plain.(uptime := 0)))
  }

  function ScanNode(s: Scan, node: Listed): (r: Scan)
    requires ValidScan(s)
    ensures ValidScan(r)
  {
    var s1 := ScanDocs(ResetMax(s), node.entries);
    if s1.max.plain.uptime > 0 then s1.(agents := s1.agents[node.name := s1.max]) else s1
  }

  function ScanNodes(nodes: seq<Listed>): (r: Scan)
    ensures ValidScan(r)
  {
    if nodes == [] then SCAN_START
    else ScanNode(ScanNodes(nodes[..|nodes| - 1]), nodes[|nodes| - 1])
  }

  lemma ScanDocsNext(s: Scan, entries: seq<(string, Doc)>, j: nat)
    requires ValidScan(s) && j < |entries|
    ensures ScanDocs(s, entries[..j + 1]) == ScanDoc(ScanDocs(s, entries[..j]), entries[j].1)
  {
    assert entries[..j + 1][..j] == entries[..j];
  }

  lemma ScanNodesNext(nodes: seq<Listed>, i: nat)
    requires i < |nodes|
    ensures ScanNodes(nodes[..i + 1]) == ScanNode(ScanNodes(nodes[..i]), nodes[i])
  {
    assert nodes[..i + 1][..i] == nodes[..i];
  }

  // ----- What the fold finds -----

  /** Every record under a pod decodes completely or not at all, as far as success goes. */
  predicate Sound(entries: seq<(string, Doc)>) {
    forall i :: 0 <= i < |entries| && entries[i].1.ok ==> Complete(entries[i].1)
  }

  /** `plain` holds the highest uptime among the decodable records, or no record has a positive one. */
  ghost predicate Highest(entries: seq<(string, Doc)>, plain: AgentSpec) {
    && (forall i :: 0 <= i < |entries| && entries[i].1.ok && Complete(entries[i].1) ==>
          ScalarsOf(entries[i].1).uptime <= plain.uptime)
    && (plain.uptime > 0 ==>
          exists i :: 0 <= i < |entries| && Complete(entries[i].1) && ScalarsOf(entries[i].1) == plain)
  }

  ghost predicate Flat(s: Scan) {
    s.last.plain == Scalars(s.last.plain) && s.max.plain == Scalars(s.max.plain)
  }

  lemma {:induction false} ScanDocsFindsHighest(s: Scan, entries: seq<(string, Doc)>)
    requires ValidScan(s) && Flat(s) && s.max.plain.uptime == 0 && Sound(entries)
    ensures Flat(ScanDocs(s, entries))
    ensures Highest(entries, ScanDocs(s, entries).max.plain)
  {
    if entries != [] {
      var n := |entries| - 1;
      var init, doc := entries[..n], entries[n].1;
      assert Sound(init) by {
        forall i | 0 <= i < n && init[i].1.ok ensures Complete(init[i].1) { assert init[i] == entries[i]; }
      }
      ScanDocsFindsHighest(s, init);
      var before, after := ScanDocs(s, init), ScanDocs(s, entries);
      if doc.ok {
        CompleteOverwrites(doc, before.last.plain);
      }
      forall i | 0 <= i < |entries| && entries[i].1.ok && Complete(entries[i].1)
        ensures ScalarsOf(entries[i].1).uptime <= after.max.plain.uptime
      {
        if i < n { assert init[i] == entries[i]; }
      }
      if after.max.plain.uptime > 0 {
        if after.max.plain == before.max.plain {
          var i :| 0 <= i < |init| && Complete(init[i].1) && ScalarsOf(init[i].1) == before.max.plain;
          assert entries[i] == init[i];
        } else {
          assert Complete(entries[n].1) && ScalarsOf(entries[n].1) == after.max.plain;
        }
      }
    }
  }

  ghost predicate SoundListing(nodes: seq<Listed>) {
    forall i :: 0 <= i < |nodes| ==> Sound(nodes[i].entries)
  }

  ghost predicate Reports(entries: seq<(string, Doc)>) {
    exists i :: 0 <= i < |entries| && Complete(entries[i].1) && ScalarsOf(entries[i].1).uptime > 0
  }

  /** `agents` has the directory's highest record, or does not have it for want of one. */
  ghost predicate Found(node: Listed, agents: map<string, Target>) {
    && (node.name in agents <==> Reports(node.entries))
    && (node.name in agents ==>
          agents[node.name].plain.uptime > 0 && Highest(node.entries, agents[node.name].plain))
  }

  ghost predicate FindsHighest(nodes: seq<Listed>, agents: map<string, Target>) {
    && (forall i :: 0 <= i < |nodes| ==> Found(nodes[i], agents))
    && (forall p :: p in agents ==> exists i :: 0 <= i < |nodes| && nodes[i].name == p)
  }

  lemma ScanNodeFindsHighest(s: Scan, node: Listed)
    requires ValidScan(s) && Flat(s) && Sound(node.entries)
    ensures Flat(ScanNode(s, node))
    ensures ScanNode(s, node).agents.Keys == s.agents.Keys + if Reports(node.entries) then {node.name} else {}
    ensures forall p :: p in s.agents && p != node.name ==> ScanNode(s, node).agents[p] == s.agents[p]
    ensures node.name !in s.agents ==> Found(node, ScanNode(s, node).agents)
  {
    ScanDocsFindsHighest(ResetMax(s), node.entries);
    var max := ScanDocs(ResetMax(s), node.entries).max;
    if max.plain.uptime > 0 {
      assert Reports(node.entries);
    }
  }

  lemma FindsOneMore(init: seq<Listed>, node: Listed, before: map<string, Target>, after: map<string, Target>)
    requires FindsHighest(init, before)
    requires forall i :: 0 <= i < |init| ==> init[i].name != node.name
    requires after.Keys == before.Keys + if Reports(node.entries) then {node.name} else {}
    requires forall p :: p in before && p != node.name ==> after[p] == before[p]
    requires Found(node, after)
    ensures FindsHighest(init + [node], after)
  {
    var nodes := init + [node];
    forall i | 0 <= i < |nodes| ensures Found(nodes[i], after) {
      if i < |init| {
        assert Found(init[i], before);
        assert nodes[i] == init[i] && nodes[i].name != node.name;
        assert nodes[i].name in after <==> nodes[i].name in before;
      }
    }
    forall p | p in after ensures exists i :: 0 <= i < |nodes| && nodes[i].name == p {
      if p == node.name {
        assert nodes[|init|].name == p;
      } else {
        var i :| 0 <= i < |init| && init[i].name == p;
        assert nodes[i].name == p;
      }
    }
  }

  /**
   * Whatever the order of the listing and whatever failed decodes leave in the reused variable,
   * the fold returns a directory exactly when it holds a decodable record with positive uptime,
   * and then with the scalar fields of its highest record.
   */
  lemma {:induction false} ScanFindsHighest(nodes: seq<Listed>)
    requires SoundListing(nodes)
    requires forall i, j :: 0 <= i < j < |nodes| ==> nodes[i].name != nodes[j].name
    ensures Flat(ScanNodes(nodes))
    ensures FindsHighest(nodes, ScanNodes(nodes).agents)
  {
    if nodes != [] {
      var n := |nodes| - 1;
      var init, node := nodes[..n], nodes[n];
      assert forall i :: 0 <= i < n ==> init[i] == nodes[i];
      ScanFindsHighest(init);
      ScanNodeFindsHighest(ScanNodes(init), node);
      FindsOneMore(init, node, ScanNodes(init).agents, ScanNodes(nodes).agents);
      assert nodes == init + [node];
    }
  }

  // ----- What the tree settles -----

  /** Every record in the tree is complete, as the server writes them. */
  ghost predicate SoundTree(tree: Tree) {
    forall p, k :: p in tree && k in Leaves(tree[p]) ==> Complete(Leaves(tree[p])[k].doc)
  }

  /** getAgents does not return the pod. */
  ghost predicate Silent(tree: Tree, pod: string) {
    forall k :: k in LeavesAt(tree, pod) ==>
      Complete(LeavesAt(tree, pod)[k].doc) ==> ScalarsOf(LeavesAt(tree, pod)[k].doc).uptime == 0
  }

  /** `plain` is the highest record under the pod. */
  ghost predicate HighestLeaf(tree: Tree, pod: string, plain: AgentSpec) {
    && (exists k :: k in LeavesAt(tree, pod) && Complete(LeavesAt(tree, pod)[k].doc)
                    && ScalarsOf(LeavesAt(tree, pod)[k].doc) == plain)
    && (forall k :: k in LeavesAt(tree, pod) && Complete(LeavesAt(tree, pod)[k].doc) ==>
          ScalarsOf(LeavesAt(tree, pod)[k].doc).uptime <= plain.uptime)
  }

  lemma EnumerationHighest(entries: seq<(string, Doc)>, tree: Tree, pod: string, plain: AgentSpec)
    requires Enumerates(entries, LeavesAt(tree, pod)) && Sound(entries)
    requires plain.uptime > 0 && Highest(entries, plain)
    ensures HighestLeaf(tree, pod, plain)
  {
    var leaves := LeavesAt(tree, pod);
    var i :| 0 <= i < |entries| && Complete(entries[i].1) && ScalarsOf(entries[i].1) == plain;
    assert entries[i].0 in leaves;
    forall k | k in leaves && Complete(leaves[k].doc) ensures ScalarsOf(leaves[k].doc).uptime <= plain.uptime {
      var j :| 0 <= j < |entries| && entries[j].0 == k;
      assert entries[j].1 == leaves[k].doc;
    }
  }

  lemma EnumerationReports(entries: seq<(string, Doc)>, tree: Tree, pod: string)
    requires Enumerates(entries, LeavesAt(tree, pod))
    ensures Reports(entries) <==> !Silent(tree, pod)
  {
    var leaves := LeavesAt(tree, pod);
    if !Silent(tree, pod) {
      var k :| k in leaves && Complete(leaves[k].doc) && ScalarsOf(leaves[k].doc).uptime != 0;
      var j :| 0 <= j < |entries| && entries[j].0 == k;
      assert Complete(entries[j].1) && ScalarsOf(entries[j].1).uptime > 0;
    }
    if Reports(entries) {
      var i :| 0 <= i < |entries| && Complete(entries[i].1) && ScalarsOf(entries[i].1).uptime > 0;
      assert entries[i].0 in leaves;
    }
  }

  /** The answer of getAgents is settled by the tree, whatever order etcd lists it in. */
  lemma GetAgentsByTree(tree: Tree, listing: seq<Listed>, pod: string)
    requires SoundTree(tree) && IsListing(listing, tree)
    ensures pod in ScanNodes(listing).agents <==> !Silent(tree, pod)
    ensures pod in ScanNodes(listing).agents ==> HighestLeaf(tree, pod, ScanNodes(listing).agents[pod].plain)
  {
    forall i | 0 <= i < |listing| ensures Sound(listing[i].entries) {
      var entries, p := listing[i].entries, listing[i].name;
      forall j | 0 <= j < |entries| && entries[j].1.ok ensures Complete(entries[j].1) {
        assert p in tree && entries[j].0 in Leaves(tree[p]);
      }
    }
    ScanFindsHighest(listing);
    if pod in tree {
      var i :| 0 <= i < |listing| && listing[i].name == pod;
      assert Found(listing[i], ScanNodes(listing).agents);
      EnumerationReports(listing[i].entries, tree, pod);
      if !Silent(tree, pod) {
        EnumerationHighest(listing[i].entries, tree, pod, ScanNodes(listing).agents[pod].plain);
      }
    }
  }

  /** Records sit under their own uptime, as the server writes them. */
  ghost predicate KeyedByUptime(tree: Tree) {
    forall p, k :: p in tree && k in Leaves(tree[p]) && Complete(Leaves(tree[p])[k].doc) ==>
      k == Decimal(ScalarsOf(Leaves(tree[p])[k].doc).uptime)
  }

  lemma HighestLeafIsUnique(tree: Tree, pod: string, plain: AgentSpec, plain': AgentSpec)
    requires KeyedByUptime(tree) && HighestLeaf(tree, pod, plain) && HighestLeaf(tree, pod, plain')
    ensures plain == plain'
  {
    var leaves := LeavesAt(tree, pod);
    var k :| k in leaves && Complete(leaves[k].doc) && ScalarsOf(leaves[k].doc) == plain;
    var k' :| k' in leaves && Complete(leaves[k'].doc) && ScalarsOf(leaves[k'].doc) == plain';
    assert pod in tree && leaves == Leaves(tree[pod]);
    assert plain.uptime == plain'.uptime;
    assert k == Decimal(plain.uptime) && k' == Decimal(plain'.uptime);
  }

  /** Two listings of one such tree, in any two orders, give the same scalar fields. */
  lemma ListingOrderDoesNotMatter(tree: Tree, listing: seq<Listed>, listing': seq<Listed>, pod: string)
    requires SoundTree(tree) && KeyedByUptime(tree)
    requires IsListing(listing, tree) && IsListing(listing', tree)
    ensures pod in ScanNodes(listing).agents <==> pod in ScanNodes(listing').agents
    ensures pod in ScanNodes(listing).agents ==>
      ScanNodes(listing).agents[pod].plain == ScanNodes(listing').agents[pod].plain
  {
    GetAgentsByTree(tree, listing, pod);
    GetAgentsByTree(tree, listing', pod);
    if pod in ScanNodes(listing).agents {
      HighestLeafIsUnique(tree, pod, ScanNodes(listing).agents[pod].plain, ScanNodes(listing').agents[pod].plain);
    }
  }

  /** What getAgents must return for a tree of records as the server writes them. */
  ghost predicate ReadsTree(agents: map<string, Target>, tree: Tree) {
    && (forall p :: p in agents <==> !Silent(tree, p))
    && (forall p :: p in agents ==> HighestLeaf(tree, p, agents[p].plain))
  }

  lemma ListingReadsTree(listing: seq<Listed>, tree: Tree)
    requires SoundTree(tree) && IsListing(listing, tree)
    ensures ReadsTree(ScanNodes(listing).agents, tree)
  {
    forall p
      ensures p in ScanNodes(listing).agents <==> !Silent(tree, p)
      ensures p in ScanNodes(listing).agents ==> HighestLeaf(tree, p, ScanNodes(listing).agents[p].plain)
    {
      GetAgentsByTree(tree, listing, p);
    }
  }

  /** The pods of the list that getAgents does not return. */
  ghost function AbsentPods(tree: Tree, pods: seq<string>): seq<string> {
    Select(pods, set p | p in pods && Silent(tree, p))
  }

  lemma UnreadAreSilent(agents: map<string, Target>, tree: Tree, pods: seq<string>)
    requires ReadsTree(agents, tree)
    ensures Select(pods, set p | p in pods && p !in agents) == AbsentPods(tree, pods)
  {
    assert (set p | p in pods && p !in agents) == set p | p in pods && Silent(tree, p);
  }

  // ----- The store -----

  class EtcdAgentStorage {
    const etcd: KeysAPI
    const etcdTree: string
    const reportTTL: Duration

    constructor (etcd: KeysAPI, etcdTree: string, reportTTL: Duration)
      ensures this.etcd == etcd && this.etcdTree == etcdTree && this.reportTTL == reportTTL
    {
      this.etcd, this.etcdTree, this.reportTTL := etcd, etcdTree, reportTTL;
    }

    /** Creates the directory, or gives an existing key another TTL; an error is only logged. */
    method CreateOrUpdateAgentTree(name: string, update: bool)
      requires etcd.Valid()
      modifies etcd`tree
      ensures etcd.Valid()
      ensures update && name in old(etcd.tree) ==>
        etcd.tree == old(etcd.tree)[name := old(etcd.tree)[name].(expiry := At(etcd.now + reportTTL))]
      ensures !update && name !in old(etcd.tree) ==>
        etcd.tree == old(etcd.tree)[name := Dir(At(etcd.now + reportTTL), map[])]
      ensures update != (name in old(etcd.tree)) ==> etcd.tree == old(etcd.tree)
    {
      var prevExists, refresh;
      if update {
        prevExists := MustExist;
        refresh := true;
      } else {
        prevExists := MustNotExist;
        refresh := false;
      }
      var _ := etcd.Set(name, prevExists, refresh, reportTTL);
    }

    /** Whatever was under the name, afterwards there is a directory that lives for one TTL. */
    method CheckOrCreateAgentTree(name: string)
      requires etcd.Valid()
      modifies etcd`tree
      ensures etcd.Valid()
      ensures etcd.tree == old(etcd.tree)[name := Dir(At(etcd.now + reportTTL), LeavesAt(old(etcd.tree), name))]
    {
      var found := etcd.Get(name);
      if found.PlainKey? {
        var ok := etcd.Delete(name);
        if ok {
          CreateOrUpdateAgentTree(name, false);
        }
      } else if found.Directory? {
        CreateOrUpdateAgentTree(name, true);
      } else {
        CreateOrUpdateAgentTree(name, false);
      }
    }

    method UpdateAgents(body: Result<AgentSpec>) returns (agentData: AgentSpec, err: bool)
      requires etcd.Valid()
      requires body.Ok? ==> IsSegment(body.value.podName)
      modifies etcd`tree
      ensures etcd.Valid()
      ensures err == body.Err?
      ensures body.Err? ==> agentData == EMPTY_SPEC && etcd.tree == old(etcd.tree)
      ensures body.Ok? ==>
        && agentData == Stamped(body.value, etcd.now) && IsReportOf(agentData, body.value, etcd.now)
        && etcd.tree == ReportTree(old(etcd.tree), etcd.now, reportTTL, agentData)
    {
      if body.Err? {
        return EMPTY_SPEC, true;
      }
      agentData := body.value.(lastUpdated := etcd.now);
      CheckOrCreateAgentTree(agentData.podName);
      var _ := etcd.Create(agentData.podName, Decimal(agentData.uptime), Marshal(agentData), reportTTL);
      err := false;
    }

    /**
     * The records of every pod, folded in the order of some listing. On a tree of complete
     * records it returns exactly the pods with a positive uptime on record, each with the scalar
     * fields of its highest record.
     */
    method GetAgents() returns (agentsData: map<string, Target>, cells: Cells)
      requires forall p :: p in etcd.tree ==> IsSegment(p)
      ensures exists listing ::
        && IsListing(listing, etcd.tree)
        && agentsData == ScanNodes(listing).agents && cells == ScanNodes(listing).cells
      ensures SoundTree(etcd.tree) ==> ReadsTree(agentsData, etcd.tree)
    {
      agentsData, cells := map[], NO_CELLS;
      var maxAgentSpec, lastAgentSpec := ZERO_TARGET, ZERO_TARGET;
      var nodes := etcd.List();
      var i := 0;
      while i < |nodes|
        invariant 0 <= i <= |nodes|
        invariant Scan(lastAgentSpec, maxAgentSpec, cells, agentsData) == ScanNodes(nodes[..i])
      {
        var node := nodes[i];
        var nname := DirectoryName(node);
        maxAgentSpec := maxAgentSpec.(plain := maxAgentSpec.plain.(uptime := 0));
        maxAgentSpec, lastAgentSpec, cells := HighestRecord(
          Scan(lastAgentSpec, maxAgentSpec, cells, agentsData), node.entries);
        ScanNodesNext(nodes, i);
        if maxAgentSpec.plain.uptime > 0 {
          agentsData := agentsData[nname := maxAgentSpec];
        }
        i := i + 1;
      }
      assert nodes[..i] == nodes;
      if SoundTree(etcd.tree) {
        ListingReadsTree(nodes, etcd.tree);
      }
    }

    /** The inner loop, over the records of one pod. */
    static method HighestRecord(start: Scan, entries: seq<(string, Doc)>)
      returns (maxAgentSpec: Target, lastAgentSpec: Target, cells: Cells)
      requires ValidScan(start)
      ensures Scan(lastAgentSpec, maxAgentSpec, cells, start.agents) == ScanDocs(start, entries)
    {
      maxAgentSpec, lastAgentSpec, cells := start.max, start.last, start.cells;
      var j := 0;
      while j < |entries|
        invariant 0 <= j <= |entries|
        invariant Scan(lastAgentSpec, maxAgentSpec, cells, start.agents) == ScanDocs(start, entries[..j])
      {
        ScanDocsNext(start, entries, j);
        var doc := entries[j].1;
        var (last, grown) := Unmarshal(doc, lastAgentSpec, cells);
        lastAgentSpec, cells := last, grown;
        j := j + 1;
        if !doc.ok {
          continue;
        }
        if lastAgentSpec.plain.uptime > maxAgentSpec.plain.uptime {
          maxAgentSpec := lastAgentSpec;
        }
      }
      assert entries[..j] == entries;
    }

    /** The pod's name, cut from the key of its directory. */
    method DirectoryName(node: Listed) returns (nname: string)
      requires IsSegment(node.name)
      ensures nname == node.name
    {
      var npath := Split("/" + AgentTreeRoot(etcdTree, node.name));
      nname := npath[|npath| - 1];
      DirectoryKeyNamesPod("/" + etcdTree, node.name);
      assert "/" + AgentTreeRoot(etcdTree, node.name) == AgentTreeRoot("/" + etcdTree, node.name);
    }

    /**
     * The listed pods that getAgents does not return, in order: on a tree of complete records,
     * those without a positive uptime on record.
     */
    method CheckAgents(pods: Result<seq<string>>) returns (absent: Result<seq<string>>)
      requires forall p :: p in etcd.tree ==> IsSegment(p)
      ensures absent.Ok? == pods.Ok?
      ensures pods.Ok? ==> exists listing ::
        && IsListing(listing, etcd.tree)
        && absent.value == Select(pods.value, set p | p in pods.value && p !in ScanNodes(listing).agents)
      ensures pods.Ok? && SoundTree(etcd.tree) ==> absent.value == AbsentPods(etcd.tree, pods.value)
    {
      var agents, _ := GetAgents();
      if pods.Err? {
        return Err;
      }
      var missing := Missing(pods.value, agents);
      if SoundTree(etcd.tree) {
        UnreadAreSilent(agents, etcd.tree, pods.value);
      }
      absent := Ok(missing);
    }

    /** The loop over the pod list. */
    static method Missing(pods: seq<string>, agents: map<string, Target>) returns (absent: seq<string>)
      ensures absent == Select(pods, set p | p in pods && p !in agents)
    {
      ghost var silent := set p | p in pods && p !in agents;
      absent := [];
      var i := 0;
      while i < |pods|
        invariant 0 <= i <= |pods|
        invariant absent == Select(pods[..i], silent)
      {
        var agentName := pods[i];
        SelectNext(pods, silent, i);
        if agentName !in agents {
          absent := absent + [agentName];
        }
        i := i + 1;
      }
      assert pods[..i] == pods;
    }
  }
}
