/**
 * The map fields of what getAgents returns. All records are decoded into one variable, and Go
 * decodes an object into the map that is already there, so returned entries share maps.
 */
module SharedHosts {
  import opened Types
  import opened Decode
  import opened Etcd
  import opened StorerEtcd

  /** What a document holds for one map field: nothing, a null, or an object. */
  type Field = Option<Option<Hosts>>

  predicate HasMap(f: Field) {
    f.Some? && f.value.Some?
  }

  predicate IsNull(f: Field) {
    f == Some(None)
  }

  /** The reference and the maps after decoding the field again and again into one variable. */
  function RunHosts(fs: seq<Field>): (r: (Option<nat>, seq<Hosts>))
    ensures Points(r.0, r.1)
  {
    if fs == [] then (None, [])
    else
      var (ref, cells) := RunHosts(fs[..|fs| - 1]);
      DecodeHosts(fs[|fs| - 1], ref, cells)
  }

  /** The reference a copy made right after document `k` takes along. */
  function RefAt(fs: seq<Field>, k: nat): Option<nat>
    requires k < |fs|
  {
    RunHosts(fs[..k + 1]).0
  }

  /** No null comes strictly between `i` and `j`. */
  predicate Unbroken(fs: seq<Field>, i: nat, j: nat)
    requires j <= |fs|
  {
    forall n :: i < n < j ==> !IsNull(fs[n])
  }

  /** Two records with a map and no null between them. */
  predicate Together(fs: seq<Field>, i: nat, j: nat)
    requires i < |fs| && j < |fs|
  {
    HasMap(fs[i]) && HasMap(fs[j]) && if i <= j then Unbroken(fs, i, j) else Unbroken(fs, j, i)
  }

  /** Of the records together with `k`, `j` is the last that names the host. */
  ghost predicate LastHolder(fs: seq<Field>, k: nat, host: string, j: nat)
    requires k < |fs|
  {
    && j < |fs| && Together(fs, k, j) && host in fs[j].value.value
    && forall i: nat :: j < i < |fs| && Together(fs, k, i) ==> host !in fs[i].value.value
  }

  /** The cell holds, for each host, what its last holder says. */
  ghost predicate Holds(cell: Hosts, fs: seq<Field>, k: nat)
    requires k < |fs|
  {
    && (forall host :: host in cell ==> exists j: nat :: LastHolder(fs, k, host, j))
    && (forall host, j: nat :: LastHolder(fs, k, host, j) ==> host in cell && cell[host] == fs[j].value.value[host])
  }

  /** While no null has come after `k`, the variable still refers to its map; after one, never again. */
  lemma {:induction false} RefFollows(fs: seq<Field>, k: nat)
    requires k < |fs| && HasMap(fs[k])
    ensures var (ref, cells) := RunHosts(fs);
      && (ref.Some? ==> ref.value == |cells| - 1)
      && RefAt(fs, k).Some? && RefAt(fs, k).value < |cells|
      && (Unbroken(fs, k, |fs|) <==> ref == RefAt(fs, k))
  {
    RefIsLast(fs);
    var n := |fs| - 1;
    if k == n {
      assert fs[..n + 1] == fs;
    } else {
      RefFollows(fs[..n], k);
      RefIsLast(fs[..n]);
      assert fs[..n][..k + 1] == fs[..k + 1];
      assert Unbroken(fs, k, |fs|) <==> Unbroken(fs[..n], k, n) && !IsNull(fs[n]);
    }
  }

  lemma {:induction false} RefIsLast(fs: seq<Field>)
    ensures var (ref, cells) := RunHosts(fs);
      ref.Some? ==> ref.value == |cells| - 1 && exists k: nat :: k < |fs| && HasMap(fs[k]) && Unbroken(fs, k, |fs|)
  {
    if fs != [] {
      var n := |fs| - 1;
      RefIsLast(fs[..n]);
      var (ref, _) := RunHosts(fs);
      if ref.Some? {
        if HasMap(fs[n]) {
          assert Unbroken(fs, n, |fs|);
        } else {
          var k: nat :| k < n && HasMap(fs[..n][k]) && Unbroken(fs[..n], k, n);
          assert Unbroken(fs, k, |fs|);
        }
      }
    }
  }

  lemma HoldsUnchanged(cell: Hosts, init: seq<Field>, f: Field, k: nat)
    requires k < |init| && Holds(cell, init, k)
    requires HasMap(f) ==> !Unbroken(init, k, |init|)
    ensures Holds(cell, init + [f], k)
  {
    var fs := init + [f];
    forall j: nat, host ensures LastHolder(fs, k, host, j) <==> LastHolder(init, k, host, j) {
      SameTogether(init, f, k);
    }
    forall host | host in cell ensures exists j: nat :: LastHolder(fs, k, host, j) {
      var j: nat :| LastHolder(init, k, host, j);
      assert LastHolder(fs, k, host, j);
    }
  }

  lemma SameTogether(init: seq<Field>, f: Field, k: nat)
    requires k < |init|
    ensures forall j: nat :: j < |init| ==> (Together(init + [f], k, j) <==> Together(init, k, j))
    ensures Together(init + [f], k, |init|) <==> HasMap(init[k]) && HasMap(f) && Unbroken(init, k, |init|)
  {
    var fs := init + [f];
    forall j: nat | j < |init| ensures Together(fs, k, j) <==> Together(init, k, j) {
      SameUnbroken(init, f, if k <= j then k else j, if k <= j then j else k);
    }
    SameUnbroken(init, f, k, |init|);
  }

  lemma SameUnbroken(init: seq<Field>, f: Field, i: nat, j: nat)
    requires j <= |init|
    ensures Unbroken(init + [f], i, j) <==> Unbroken(init, i, j)
  {
    assert forall n :: i < n < j ==> (init + [f])[n] == init[n];
  }

  lemma HoldsMerged(cell: Hosts, init: seq<Field>, hosts: Hosts, k: nat)
    requires k < |init| && HasMap(init[k]) && Holds(cell, init, k) && Unbroken(init, k, |init|)
    ensures Holds(cell + hosts, init + [Some(Some(hosts))], k)
  {
    var f: Field := Some(Some(hosts));
    var fs, n := init + [f], |init|;
    SameTogether(init, f, k);
    forall host | host in hosts ensures LastHolder(fs, k, host, n) {
    }
    forall host, j: nat | host !in hosts ensures LastHolder(fs, k, host, j) <==> LastHolder(init, k, host, j) {
    }
    forall host | host in cell + hosts ensures exists j: nat :: LastHolder(fs, k, host, j) {
      if host in hosts {
        assert LastHolder(fs, k, host, n);
      } else {
        var j: nat :| LastHolder(init, k, host, j);
        assert LastHolder(fs, k, host, j);
      }
    }
    forall host, j: nat | LastHolder(fs, k, host, j)
      ensures host in cell + hosts && (cell + hosts)[host] == fs[j].value.value[host]
    {
      if host in hosts {
        assert LastHolder(fs, k, host, n) && j == n;
      } else {
        assert LastHolder(init, k, host, j);
      }
    }
  }

  /** Records that are together see the same map. */
  lemma HoldsForOther(cell: Hosts, fs: seq<Field>, k: nat, k': nat)
    requires k < |fs| && k' < |fs| && Holds(cell, fs, k) && Together(fs, k, k')
    ensures Holds(cell, fs, k')
  {
    forall j: nat | j < |fs| ensures Together(fs, k, j) <==> Together(fs, k', j) {
      if Together(fs, k', j) {
        TogetherTransitive(fs, k, k', j);
      }
      if Together(fs, k, j) {
        TogetherTransitive(fs, k', k, j);
      }
    }
    forall host, j: nat ensures LastHolder(fs, k, host, j) <==> LastHolder(fs, k', host, j) {
    }
    forall host | host in cell ensures exists j: nat :: LastHolder(fs, k', host, j) {
      var j: nat :| LastHolder(fs, k, host, j);
      assert LastHolder(fs, k', host, j);
    }
  }

  lemma TogetherTransitive(fs: seq<Field>, a: nat, b: nat, c: nat)
    requires a < |fs| && b < |fs| && c < |fs|
    requires Together(fs, a, b) && Together(fs, b, c)
    ensures Together(fs, a, c)
  {
    var lo, hi := if a <= c then a else c, if a <= c then c else a;
    forall n | lo < n < hi ensures !IsNull(fs[n]) {
      if n == b {
        assert HasMap(fs[b]);
      }
    }
  }

  /**
   * What a copy made after document `k` shows in the end: every host of every record decoded
   * before or since without a null between, with the addresses of the last of them to name it.
   */
  lemma {:induction false} CopiesShareMaps(fs: seq<Field>, k: nat)
    requires k < |fs| && HasMap(fs[k])
    ensures RefAt(fs, k).Some? && RefAt(fs, k).value < |RunHosts(fs).1|
    ensures Holds(RunHosts(fs).1[RefAt(fs, k).value], fs, k)
  {
    RefFollows(fs, k);
    var n := |fs| - 1;
    var init, f := fs[..n], fs[n];
    var (ref, cells) := RunHosts(init);
    assert fs == init + [f];
    if k < n {
      CopiesShareMaps(init, k);
      RefFollows(init, k);
      assert init[..k + 1] == fs[..k + 1];
      var cell := cells[RefAt(fs, k).value];
      if HasMap(f) && Unbroken(init, k, n) {
        HoldsMerged(cell, init, f.value.value, k);
      } else {
        HoldsUnchanged(cell, init, f, k);
      }
    } else {
      assert fs[..n + 1] == fs;
      if ref.Some? {
        RefIsLast(init);
        var other: nat :| other < n && HasMap(init[other]) && Unbroken(init, other, n);
        CopiesShareMaps(init, other);
        RefFollows(init, other);
        HoldsMerged(cells[ref.value], init, f.value.value, other);
        SameTogether(init, f, other);
        HoldsForOther(cells[ref.value] + f.value.value, fs, other, n);
      } else {
        AloneHolds(init, f.value.value);
      }
    }
  }

  lemma NobodyBefore(init: seq<Field>, f: Field, j: nat)
    requires RunHosts(init).0.None? && HasMap(f) && j < |init|
    ensures !Together(init + [f], |init|, j)
  {
    if HasMap(init[j]) {
      RefFollows(init, j);
      SameUnbroken(init, f, j, |init|);
    }
  }

  lemma AloneHolds(init: seq<Field>, hosts: Hosts)
    requires RunHosts(init).0.None?
    ensures Holds(hosts, init + [Some(Some(hosts))], |init|)
  {
    var f: Field := Some(Some(hosts));
    var fs, n := init + [f], |init|;
    forall j: nat | j < n ensures !Together(fs, n, j) {
      NobodyBefore(init, f, j);
    }
    assert Together(fs, n, n);
    forall host | host in hosts ensures LastHolder(fs, n, host, n) {
    }
    forall host, j: nat | LastHolder(fs, n, host, j) ensures host in hosts && hosts[host] == fs[j].value.value[host] {
      assert j == n;
    }
  }

  // ----- The entries of getAgents -----

  datatype MapField = LookupHost | Ips

  function FieldOf(doc: Doc, m: MapField): Field {
    if m.LookupHost? then doc.lookupHost else doc.ips
  }

  function RefOf(t: Target, m: MapField): Option<nat> {
    if m.LookupHost? then t.lookupHost else t.ips
  }

  function MapsOf(cells: Cells, m: MapField): seq<Hosts> {
    if m.LookupHost? then cells.lookupHost else cells.ips
  }

  function Fields(docs: seq<Doc>, m: MapField): seq<Field> {
    seq(|docs|, i requires 0 <= i < |docs| => FieldOf(docs[i], m))
  }

  /** The reused variable after decoding these documents. */
  function LastAfter(docs: seq<Doc>): (r: (Target, Cells))
    ensures ValidTarget(r.0, r.1)
  {
    if docs == [] then (ZERO_TARGET, NO_CELLS)
    else
      var (t, cells) := LastAfter(docs[..|docs| - 1]);
      Unmarshal(docs[|docs| - 1], t, cells)
  }

  lemma {:induction false} LastAfterRunsHosts(docs: seq<Doc>, m: MapField)
    ensures (RefOf(LastAfter(docs).0, m), MapsOf(LastAfter(docs).1, m)) == RunHosts(Fields(docs, m))
  {
    if docs != [] {
      var n := |docs| - 1;
      LastAfterRunsHosts(docs[..n], m);
      assert Fields(docs, m)[..n] == Fields(docs[..n], m);
    }
  }

  lemma LastAfterSnoc(docs: seq<Doc>, doc: Doc)
    ensures LastAfter(docs + [doc]) == Unmarshal(doc, LastAfter(docs).0, LastAfter(docs).1)
  {
    assert (docs + [doc])[..|docs|] == docs;
  }

  function Docs(entries: seq<(string, Doc)>): seq<Doc> {
    seq(|entries|, i requires 0 <= i < |entries| => entries[i].1)
  }

  /** All documents of a listing in the order they are decoded. */
  function Decoded(nodes: seq<Listed>): seq<Doc> {
    if nodes == [] then [] else Decoded(nodes[..|nodes| - 1]) + Docs(nodes[|nodes| - 1].entries)
  }

  /** `t` is a copy of the variable made right after document `k`. */
  predicate Copied(t: Target, docs: seq<Doc>, k: nat) {
    k < |docs| && docs[k].ok && t == LastAfter(docs[..k + 1]).0
  }

  lemma CopiedLonger(t: Target, docs: seq<Doc>, more: seq<Doc>, k: nat)
    requires Copied(t, docs, k)
    ensures Copied(t, docs + more, k)
  {
    assert (docs + more)[..k + 1] == docs[..k + 1];
  }

  lemma CopiedNow(docs: seq<Doc>, doc: Doc)
    requires doc.ok
    ensures Copied(LastAfter(docs + [doc]).0, docs + [doc], |docs|)
  {
    var all := docs + [doc];
    assert all[..|docs| + 1] == all;
  }

  lemma ScanDocIs(s: Scan, doc: Doc)
    requires ValidScan(s)
    ensures ScanDoc(s, doc).last == Unmarshal(doc, s.last, s.cells).0
    ensures ScanDoc(s, doc).cells == Unmarshal(doc, s.last, s.cells).1
    ensures ScanDoc(s, doc).max == s.max || (doc.ok && ScanDoc(s, doc).max == ScanDoc(s, doc).last)
  {
  }

  lemma ScanDocDecodes(s: Scan, docs: seq<Doc>, doc: Doc)
    requires ValidScan(s) && s.last == LastAfter(docs).0 && s.cells == LastAfter(docs).1
    ensures ScanDoc(s, doc).last == LastAfter(docs + [doc]).0
    ensures ScanDoc(s, doc).cells == LastAfter(docs + [doc]).1
  {
    LastAfterSnoc(docs, doc);
    ScanDocIs(s, doc);
  }

  /** After one more document, `max` is what it was or a copy made just now. */
  lemma ScanDocCopies(s: Scan, docs: seq<Doc>, doc: Doc)
    requires ValidScan(s) && s.last == LastAfter(docs).0 && s.cells == LastAfter(docs).1
    requires ScanDoc(s, doc).max != s.max
    ensures Copied(ScanDoc(s, doc).max, docs + [doc], |docs|)
  {
    ScanDocIs(s, doc);
    ScanDocDecodes(s, docs, doc);
    CopiedNow(docs, doc);
  }

  lemma {:induction false} ScanDocsCopies(s: Scan, docs: seq<Doc>, entries: seq<(string, Doc)>)
    requires ValidScan(s) && s.last == LastAfter(docs).0 && s.cells == LastAfter(docs).1 && s.max.plain.uptime == 0
    ensures var r, all := ScanDocs(s, entries), docs + Docs(entries);
      && r.last == LastAfter(all).0 && r.cells == LastAfter(all).1
      && (r.max.plain.uptime > 0 ==> exists k: nat :: |docs| <= k && Copied(r.max, all, k))
  {
    if entries == [] {
      assert docs + Docs(entries) == docs;
    } else {
      var n := |entries| - 1;
      var init, doc := entries[..n], entries[n].1;
      ScanDocsCopies(s, docs, init);
      var some, all := docs + Docs(init), docs + Docs(entries);
      assert all == some + [doc];
      ScanDocDecodes(ScanDocs(s, init), some, doc);
      var before, after := ScanDocs(s, init).max, ScanDocs(s, entries).max;
      if after != before {
        ScanDocCopies(ScanDocs(s, init), some, doc);
        assert Copied(after, all, |some|);
      } else if after.plain.uptime > 0 {
        var k: nat :| |docs| <= k && Copied(before, some, k);
        CopiedLonger(before, some, [doc], k);
      }
    }
  }

  /** Document `k` is among the entries of node `i`. */
  predicate EntryOf(nodes: seq<Listed>, i: nat, k: nat)
    requires i < |nodes|
  {
    |Decoded(nodes[..i])| <= k < |Decoded(nodes[..i + 1])|
  }

  /** Document `k` is a record of the pod. */
  ghost predicate RecordOf(nodes: seq<Listed>, pod: string, k: nat) {
    exists i: nat :: i < |nodes| && nodes[i].name == pod && EntryOf(nodes, i, k)
  }

  ghost predicate CopiesOwn(agents: map<string, Target>, nodes: seq<Listed>) {
    forall p :: p in agents ==> exists k: nat :: RecordOf(nodes, p, k) && Copied(agents[p], Decoded(nodes), k)
  }

  lemma RecordOfLonger(nodes: seq<Listed>, n: nat, pod: string, k: nat)
    requires n == |nodes| - 1 && RecordOf(nodes[..n], pod, k)
    ensures RecordOf(nodes, pod, k)
  {
    var i: nat :| i < n && nodes[..n][i].name == pod && EntryOf(nodes[..n], i, k);
    assert nodes[..n][..i] == nodes[..i] && nodes[..n][..i + 1] == nodes[..i + 1];
    assert nodes[i].name == pod && EntryOf(nodes, i, k);
  }

  lemma LastNodeCopies(nodes: seq<Listed>, n: nat, t: Target, k: nat)
    requires n == |nodes| - 1 && |Decoded(nodes[..n])| <= k
    requires Copied(t, Decoded(nodes[..n]) + Docs(nodes[n].entries), k)
    ensures RecordOf(nodes, nodes[n].name, k) && Copied(t, Decoded(nodes), k)
  {
    assert nodes[..n + 1] == nodes;
    assert EntryOf(nodes, n, k);
  }

  lemma CopiedInMoreNodes(nodes: seq<Listed>, n: nat, t: Target, k: nat)
    requires n == |nodes| - 1 && Copied(t, Decoded(nodes[..n]), k)
    ensures Copied(t, Decoded(nodes), k)
  {
    CopiedLonger(t, Decoded(nodes[..n]), Docs(nodes[n].entries), k);
  }

  /** One more node: its own entry is a copy made in its records, the others are as they were. */
  lemma ScanNodeCopies(nodes: seq<Listed>, n: nat, p: string)
    requires n == |nodes| - 1 && p in ScanNodes(nodes).agents
    requires ScanNodes(nodes[..n]).last == LastAfter(Decoded(nodes[..n])).0
    requires ScanNodes(nodes[..n]).cells == LastAfter(Decoded(nodes[..n])).1
    requires CopiesOwn(ScanNodes(nodes[..n]).agents, nodes[..n])
    ensures exists k: nat :: RecordOf(nodes, p, k) && Copied(ScanNodes(nodes).agents[p], Decoded(nodes), k)
  {
    var node, docs := nodes[n], Decoded(nodes[..n]);
    var s := ResetMax(ScanNodes(nodes[..n]));
    ScanDocsCopies(s, docs, node.entries);
    var max := ScanDocs(s, node.entries).max;
    if p == node.name && max.plain.uptime > 0 {
      var k: nat :| |docs| <= k && Copied(max, docs + Docs(node.entries), k);
      LastNodeCopies(nodes, n, max, k);
    } else {
      var t := ScanNodes(nodes[..n]).agents[p];
      var k: nat :| RecordOf(nodes[..n], p, k) && Copied(t, docs, k);
      RecordOfLonger(nodes, n, p, k);
      CopiedInMoreNodes(nodes, n, t, k);
    }
  }

  lemma {:induction false} ScanNodesCopies(nodes: seq<Listed>)
    ensures ScanNodes(nodes).last == LastAfter(Decoded(nodes)).0
    ensures ScanNodes(nodes).cells == LastAfter(Decoded(nodes)).1
    ensures CopiesOwn(ScanNodes(nodes).agents, nodes)
  {
    if nodes != [] {
      var n := |nodes| - 1;
      ScanNodesCopies(nodes[..n]);
      ScanDocsCopies(ResetMax(ScanNodes(nodes[..n])), Decoded(nodes[..n]), nodes[n].entries);
      forall p | p in ScanNodes(nodes).agents
        ensures exists k: nat :: RecordOf(nodes, p, k) && Copied(ScanNodes(nodes).agents[p], Decoded(nodes), k)
      {
        ScanNodeCopies(nodes, n, p);
      }
    }
  }

  lemma {:induction false} SomeLastHolder(fs: seq<Field>, k: nat, host: string, j: nat)
    requires k < |fs| && j < |fs| && Together(fs, k, j) && host in fs[j].value.value
    ensures exists i: nat :: LastHolder(fs, k, host, i)
    decreases |fs| - j
  {
    if i: nat :| j < i < |fs| && Together(fs, k, i) && host in fs[i].value.value {
      SomeLastHolder(fs, k, host, i);
    } else {
      assert LastHolder(fs, k, host, j);
    }
  }

  /** Nothing decoded into the same map, before or since, says anything `own` does not. */
  ghost predicate Undisturbed(own: Hosts, fs: seq<Field>, k: nat)
    requires k < |fs|
  {
    forall host, j: nat :: LastHolder(fs, k, host, j) ==> host in own && own[host] == fs[j].value.value[host]
  }

  lemma OwnIffUndisturbed(cell: Hosts, fs: seq<Field>, k: nat)
    requires k < |fs| && HasMap(fs[k]) && Holds(cell, fs, k)
    ensures cell == fs[k].value.value <==> Undisturbed(fs[k].value.value, fs, k)
  {
    var own := fs[k].value.value;
    forall host | host in own ensures host in cell {
      SomeLastHolder(fs, k, host, k);
      var j: nat :| LastHolder(fs, k, host, j);
      assert host in cell;
    }
    if Undisturbed(own, fs, k) {
      forall host | host in cell ensures host in own && own[host] == cell[host] {
        var j: nat :| LastHolder(fs, k, host, j);
        assert cell[host] == fs[j].value.value[host];
      }
    }
  }

  /**
   * The maps in a returned entry are not the pod's own: they hold what all records of any pod
   * say that were decoded without a null between, the last one winning. They equal the maps of
   * the record the entry was made from exactly when none of those says anything else. Where that
   * record has a null, the entry has no map.
   */
  lemma ReturnedMapsAreShared(nodes: seq<Listed>, pod: string, m: MapField) returns (k: nat)
    requires pod in ScanNodes(nodes).agents
    ensures RecordOf(nodes, pod, k) && Copied(ScanNodes(nodes).agents[pod], Decoded(nodes), k)
    ensures var entry, fs := ScanNodes(nodes).agents[pod], Fields(Decoded(nodes), m);
      var maps := MapsOf(ScanNodes(nodes).cells, m);
      && (IsNull(fs[k]) ==> RefOf(entry, m).None?)
      && (HasMap(fs[k]) ==>
        && RefOf(entry, m).Some? && RefOf(entry, m).value < |maps|
        && Holds(maps[RefOf(entry, m).value], fs, k)
        && (maps[RefOf(entry, m).value] == fs[k].value.value <==> Undisturbed(fs[k].value.value, fs, k)))
  {
    ScanNodesCopies(nodes);
    k :| RecordOf(nodes, pod, k) && Copied(ScanNodes(nodes).agents[pod], Decoded(nodes), k);
    CopyShows(Decoded(nodes), ScanNodes(nodes).agents[pod], k, m);
  }

  lemma CopyShows(docs: seq<Doc>, t: Target, k: nat, m: MapField)
    requires Copied(t, docs, k)
    ensures var fs, maps := Fields(docs, m), MapsOf(LastAfter(docs).1, m);
      && (IsNull(fs[k]) ==> RefOf(t, m).None?)
      && (HasMap(fs[k]) ==>
        && RefOf(t, m).Some? && RefOf(t, m).value < |maps|
        && Holds(maps[RefOf(t, m).value], fs, k)
        && (maps[RefOf(t, m).value] == fs[k].value.value <==> Undisturbed(fs[k].value.value, fs, k)))
  {
    var fs := Fields(docs, m);
    LastAfterRunsHosts(docs, m);
    LastAfterRunsHosts(docs[..k + 1], m);
    assert Fields(docs[..k + 1], m) == fs[..k + 1];
    if HasMap(fs[k]) {
      CopiesShareMaps(fs, k);
      OwnIffUndisturbed(RunHosts(fs).1[RefAt(fs, k).value], fs, k);
    }
  }

  /** Of two pods with one complete record each, the first is shown with the hosts of the second. */
  lemma HostsLeakBetweenPods(nodes: seq<Listed>, first: AgentSpec, second: AgentSpec, host: string)
    requires first.uptime > 0 && first.lookupHost.Some? && second.lookupHost.Some?
    requires host !in first.lookupHost.value && host in second.lookupHost.value
    requires nodes == [Listed("a", [("1", Marshal(first))]), Listed("b", [("1", Marshal(second))])]
    ensures var s := ScanNodes(nodes);
      && "a" in s.agents && s.agents["a"].lookupHost.Some? && s.agents["a"].lookupHost.value < |s.cells.lookupHost|
      && host in s.cells.lookupHost[s.agents["a"].lookupHost.value]
  {
    assert Complete(nodes[0].entries[0].1) && Complete(nodes[1].entries[0].1);
    ScanFindsHighest(nodes);
    assert Reports(nodes[0].entries) && Found(nodes[0], ScanNodes(nodes).agents);
    HostsLeakFrom(nodes, first, second, host);
  }

  lemma HostsLeakFrom(nodes: seq<Listed>, first: AgentSpec, second: AgentSpec, host: string)
    requires "a" in ScanNodes(nodes).agents
    requires first.lookupHost.Some? && second.lookupHost.Some? && host in second.lookupHost.value
    requires nodes == [Listed("a", [("1", Marshal(first))]), Listed("b", [("1", Marshal(second))])]
    ensures var s := ScanNodes(nodes);
      && s.agents["a"].lookupHost.Some? && s.agents["a"].lookupHost.value < |s.cells.lookupHost|
      && host in s.cells.lookupHost[s.agents["a"].lookupHost.value]
  {
    var docs := Decoded(nodes);
    assert nodes[..2] == nodes && nodes[..2][..1] == nodes[..1] && nodes[..1][..0] == [];
    assert docs == [Marshal(first), Marshal(second)] by {
      assert Decoded(nodes[..1]) == [Marshal(first)];
    }
    var fs := Fields(docs, LookupHost);
    var k := ReturnedMapsAreShared(nodes, "a", LookupHost);
    assert Together(fs, k, 1) && LastHolder(fs, k, host, 1);
  }
}
