# Netchecker server: when is an agent silent?

Agents on every node of a cluster post reports to the server. The server keeps them, in etcd or in
the Kubernetes API server, and decides from what it kept which agents have gone silent: for the
connectivity check, and for the error counters it exports to Prometheus. This project models that
decision in Dafny and proves what it amounts to over whole runs of reports, passing time, metric
rounds and overlapping handlers.

`dafny verify dfyconfig.toml` checks everything.

| file | what it models |
|---|---|
| `Types.dfy`, `Arithmetic.dfy` | reports, time, order-preserving selection; floor division |
| `Keys.dfy` | the key names of the report tree and their splitting |
| `Decode.dfy` | JSON decoding into a variable that is reused |
| `Etcd.dfy` | assumed semantics of etcd v2, as functions on a tree and a class around them |
| `StorerEtcd.dfy` | the etcd store: the report protocol, the fold of getAgents, the absent pods |
| `EtcdRuns.dfy` | the tree of directories and records with TTLs against the history of reports |
| `SharedHosts.dfy` | which maps the entries returned by getAgents share |
| `EtcdInterleaved.dfy` | overlapping handlers of the etcd store, call by call |
| `Metrics.dfy` | collectors, the process-wide registry, the table of agents (heap objects, and their state as values) |
| `Handler.dfy` | the handler's metrics half, both rounds of the metrics loop, the check's answer |
| `MetricsRuns.dfy` | the metrics table over any run |
| `EtcdMode.dfy`, `EtcdMetrics.dfy` | store, metrics and handler in etcd mode, end to end; the metrics by the events of a run |
| `KubeApi.dfy` | assumed semantics of the Kubernetes API server |
| `StorerK8s.dfy` | the Kubernetes store and its cache |
| `K8sMode.dfy`, `K8sMetrics.dfy` | store, cache, metrics and handler in Kubernetes mode, end to end; the metrics by the events of a run |
| `K8sInterleaved.dfy` | overlapping handlers of the Kubernetes store, call by call |
| `K8sOvertaking.dfy` | exactly when their interleavings leave the cache behind the store |

Objects that the server updates in place are classes (`KeysAPI`, `EtcdAgentStorage`, `Counter`,
`GaugeVec`, `Registry`, `NcAgentMetrics`, `Handler`, `AgentsClient`, `K8sAgentStorage`, the two
`Server`s). Their methods keep the source's loops and are proved to take the state to what a
function says; a run folds these functions over timed events, and the theorems are about runs.

## What comes out

Etcd mode:

- The tree with its two layers of TTL is the history: a pod has a directory exactly while its last
  report is younger than the TTL, and under it exactly the reports that opened a window that is
  still open (`EtcdRuns.TreeIsHistory`). With uptimes that increase, the scalar part of getAgents is
  the map from pod to last report, restricted to the young ones (`EtcdRuns.GetAgentsRefinesLastReport`).
- The errors counted against a pod are exactly its noticed gaps (`EtcdMode.ErrorsAreNoticedGaps`),
  and so is the exported counter when the label is the pod's own (`EtcdMode.ErrorCounterIsNoticedGaps`),
  also when an earlier server process left its tree behind.
- With arbitrary uptimes the answer of getAgents is settled by the windows that are open: a pod that repeats an
  uptime can be absent right after a report (`EtcdRuns.GetAgentsReturnsHighestOpen`,
  `EtcdRuns.RepeatedUptimeIsDropped`).
- The mutex of the store is declared and never taken. Whatever the handlers' calls do to each other,
  no repair deletes a directory or a record (`EtcdInterleaved.RepairIsSafe`), and a report whose own
  directory set took effect is there, and returned, for a TTL from then
  (`EtcdInterleaved.RenewedReportsAreKept`, `EtcdInterleaved.RenewedReportsAreReturned`). Without
  that set it can vanish at once (`EtcdInterleaved.UnrenewedReportMayVanish`): an accepted report is
  safe exactly as long as the directory it is put in is due to live at that moment
  (`EtcdInterleaved.AcceptedReportIsKeptIff`).
- A report that is slow enough leaves a directory without a TTL behind, with no other handler about
  (`EtcdInterleaved.SlowReportMakesPermanent`); over runs, a record set that finds
  nothing under the pod's name is the only way to get one, and only an update of it ends it (`EtcdInterleaved.PermanentIff`).
- The map-valued fields that getAgents returns are not the pod's own: entries share maps. The
  exact contents, and exactly when they are the pod's own all the same, are in
  `SharedHosts.ReturnedMapsAreShared`; `SharedHosts.HostsLeakBetweenPods` is a two-pod instance.

Kubernetes mode:

- The metrics loop watches an agent while its last report, with a positive interval, is confirmed to
  be stored and still cached. The errors of a watched agent have a closed form in the times of the
  rounds and of the report's arrival, exact when the rounds are frequent
  (`K8sMode.ErrorsInClosedForm`, `K8sMode.FrequentRoundsCountExactly`), and its two detectors of
  silence differ at one instant only (`K8sMode.DetectorsAgree`). A round charges watched agents that
  are owed an error, and nobody else (`K8sMode.RoundCharges`). All this holds over runs in which any
  call to the API server may fail.
- After a failed write the cache holds the empty spec, and the agent is not charged again until it
  reports, however long ago its stored report arrived (`K8sMode.NeverCharged`,
  `K8sMode.FailedWriteHidesSilence`). So for a stored record with a positive interval the detectors
  agree exactly if the server was told that the last report is stored, or the record is younger than
  two intervals (`K8sMode.DetectorsAgreeIff`).
- The absent and the outdated pods of a check are settled by the history of reports
  (`K8sMode.CheckByHistory`).
- Sequentially what is cached, unless it is the mark of a failed write, is what is stored
  (`K8sMode.CacheAgreesWithStore`). With overlapping handlers the cache can be left with an older
  report (`K8sOvertaking.CacheCanLagBehindStore`): where the reports of a name differ, exactly when
  another handler's write took effect between the two writes of the handler that cached it
  (`K8sOvertaking.CacheAgreesIffNotOvertaken`).

Both modes: no counter increment is lost although every report builds fresh collectors. Over every
run, table, report counters and gauges are what its POSTs make them, and each error is counted under
its name and the label of the report whose gap it falls into (`K8sMetrics.RunAccounts`,
`K8sMetrics.ChargedAreGapErrors`, `K8sMetrics.ErrorsAreGapErrors`, and the same in `EtcdMetrics`). In
etcd mode each gap has at most one error, exactly if some round missed the pod
(`EtcdMetrics.StreaksAreMisses`), so errors stay within a budget that only reports extend
(`MetricsRuns.OutageBudget`).

Where the documentation and the code differ, the model follows the code. `doc/metrics.md` says the
error counter goes up when an agent has not reported for two of its intervals; in etcd mode it goes
up once per gap, by the TTL, and never again until the next report. `README.md` of the repository
says an agent that has not reported is listed as absent and one that is late as outdated; in etcd
mode both are absent.

## Assumptions

- etcd: exact expiry on one clock that both the server and etcd read; an expired directory takes
  its records along; a refresh changes the TTL only; a delete that is not for a directory fails on
  one; setting a nested key makes a missing parent without a TTL; a listing may come in any order.
- Kubernetes: every write gives an object a new version; an update that names a version fails on
  any other; an update that names none may replace what is there, or fail, as servers that refuse
  such an update make it: the handler makes one only after a failed get, and any call may then fail.
- Each function of the metrics code and each single map, etcd or API operation is one step.
- Time, intervals and ages are integer nanoseconds; the quotient of the metrics loop is exact. A
  cached interval of zero gives an infinite quotient, whose conversion is taken as on amd64.

## Model

| member | source | states |
|---|---|---|
| Keys.JoinSplit | pkg/utils/storer_etcd.go:233 | joining the segments gives the path back, for every path |
| Keys.RecordKeySegments | pkg/utils/storer_etcd.go:120-126 | a record key consists of the root, "agents", the pod and the uptime, segment by segment |
| Keys.DirectoryKeyNamesPod | pkg/utils/storer_etcd.go:233-234 | the last segment of a pod's directory key is the pod's name, for every tree root |
| Keys.DecimalInjective | pkg/utils/storer_etcd.go:124-126 | no two uptimes print alike |
| Keys.DecimalDenotes | pkg/utils/storer_etcd.go:125 | an uptime prints as decimal digits that denote it, without a leading zero |
| Keys.RecordKeyInjective | pkg/utils/storer_etcd.go:120-126 | no two pairs of pod and uptime share a record key |
| Decode.CompleteOverwrites | pkg/utils/storer_etcd.go:238 | a complete record leaves nothing of the variable's former scalar fields |
| Decode.MarshalKeepsScalars | pkg/utils/storer_etcd.go:196 | what the server stores is complete and decodes to the report's scalar fields |
| Decode.StoredReportRoundTrips | pkg/utils/storer_etcd.go:196 | what the server stores decodes, into a fresh variable, to the report's scalar fields and both its maps |
| Decode.FieldByField | pkg/utils/storer_etcd.go:238 | decoding takes over the scalar fields a document carries and leaves the others as they were |
| StorerEtcd.EtcdAgentStorage.CreateOrUpdateAgentTree | pkg/utils/storer_etcd.go:128-154 | an update renews the TTL of what is there and nothing else; a create makes an empty directory only where nothing is |
| StorerEtcd.EtcdAgentStorage.CheckOrCreateAgentTree | pkg/utils/storer_etcd.go:156-174 | whatever was under the name, undisturbed there is afterwards a directory with a full TTL and the records it had |
| StorerEtcd.EtcdAgentStorage.UpdateAgents | pkg/utils/storer_etcd.go:176-209 | a decoded report is returned as posted with the time of its arrival, renews the directory and adds its record unless the uptime is taken; a failed decode changes nothing |
| StorerEtcd.EtcdAgentStorage.HighestRecord | pkg/utils/storer_etcd.go:235-245 | the inner loop is the fold over one pod's records, failed decodes and reused variables included |
| StorerEtcd.EtcdAgentStorage.GetAgents | pkg/utils/storer_etcd.go:211-252 | the nested loop is the fold over some listing of the tree; where records are complete, exactly the pods with a positive uptime on record come back, with their highest record's scalar fields |
| StorerEtcd.EtcdAgentStorage.CheckAgents | pkg/utils/storer_etcd.go:272-290 | fails exactly if the pods cannot be listed; the absent are the listed pods, in order, that getAgents does not return: where records are complete, those with no positive uptime on record |
| StorerEtcd.ScanFindsHighest | pkg/utils/storer_etcd.go:211-252 | a pod is returned exactly if a decodable record of it has a positive uptime, with the scalar fields of its highest record |
| StorerEtcd.GetAgentsByTree | pkg/utils/storer_etcd.go:211-252 | the answer is settled by the tree alone |
| StorerEtcd.ListingOrderDoesNotMatter | pkg/utils/storer_etcd.go:225-250 | two listings of one tree, in any orders, give the same pods and scalar fields |
| EtcdRuns.TreeIsHistory | pkg/utils/storer_etcd.go:128-209 | after any run, directories and records are exactly what the history of reports says, with their expiries |
| EtcdRuns.AcceptedReportsAreApart | pkg/utils/storer_etcd.go:197-201 | accepted reports for one pod and uptime are at least a TTL apart |
| EtcdRuns.AcceptedIffCreated | pkg/utils/storer_etcd.go:197-206 | a report opens a window exactly if its record is not in the tree as it arrives |
| EtcdRuns.LiveRecordOpensItsWindow | pkg/utils/storer_etcd.go:165-167 | a live record is the first of its window, while later duplicates only extend the directory's life |
| EtcdRuns.TreeIsSound | pkg/utils/storer_etcd.go:196-201 | after any run, every record in the tree is complete |
| EtcdRuns.TreeIsKeyed | pkg/utils/storer_etcd.go:120-126 | after any run, every record sits under the print of its own uptime |
| EtcdRuns.LastRecordIsHighest | pkg/utils/storer_etcd.go:242-247 | with increasing uptimes a pod is silent exactly when its last report is a TTL old, and otherwise that report is its highest record |
| EtcdRuns.GetAgentsRefinesLastReport | pkg/utils/storer_etcd.go:211-252 | the scalar part of getAgents is the map from pod to last report younger than the TTL, after any run, as posted and with the time of arrival |
| EtcdRuns.GetAgentsReturnsHighestOpen | pkg/utils/storer_etcd.go:211-252 | with arbitrary uptimes, a pod is returned exactly if a window of it for a positive uptime is open, with the report that opened the highest |
| EtcdRuns.RepeatedUptimeIsDropped | pkg/utils/storer_etcd.go:197-206 | a run after which a pod is silent though its last report is a nanosecond old |
| SharedHosts.CopiesShareMaps | pkg/utils/storer_etcd.go:238-243 | a copy of the variable ends up showing every host decoded before or since without a null between, the last record winning |
| SharedHosts.ReturnedMapsAreShared | pkg/utils/storer_etcd.go:211-252 | the contents of the maps in every returned entry, exactly when they are those of its own record, and no map where that record has a null |
| SharedHosts.HostsLeakBetweenPods | pkg/utils/storer_etcd.go:211-252 | an instance: one pod is returned with another pod's hosts |
| EtcdInterleaved.RepairIsSafe | pkg/utils/storer_etcd.go:157-170 | no call of any handler, in any state, removes a directory or a record or sets a TTL other than a full one |
| EtcdInterleaved.SetDirectoryTakesEffect | pkg/utils/storer_etcd.go:128-154 | what a directory set does to tree and handler, in every state and with every fate |
| EtcdInterleaved.SetRecordTakesEffect | pkg/utils/storer_etcd.go:197-206 | the same for a record set |
| EtcdInterleaved.DirectoryOnlyAfterDelete | pkg/utils/storer_etcd.go:158-164 | a handler that saw a plain key makes a directory only after a delete that is answered and removed it, and otherwise never |
| EtcdInterleaved.FailedGetEndsAll | pkg/utils/storer_etcd.go:171-173 | after a first get that fails, no handler of the process makes another call |
| EtcdInterleaved.DirectoriesLiveOn | pkg/utils/storer_etcd.go:143-148 | over every interleaving a live directory's finite expiry never moves earlier and its live records stay as they are |
| EtcdInterleaved.RenewedReportsAreKept | pkg/utils/storer_etcd.go:156-206 | what a handler may count on once its directory set took effect, over every interleaving |
| EtcdInterleaved.RecordIsPresentThenGone | pkg/utils/storer_etcd.go:156-206 | directory set at t1, record set at t2: present until t1 + TTL, gone at t2 + TTL |
| EtcdInterleaved.RenewedReportsAreReturned | pkg/utils/storer_etcd.go:211-252 | over every interleaving, until t1 + TTL getAgents returns the pod, with an uptime no smaller than the report's |
| EtcdInterleaved.KeptIffDirectoryLives | pkg/utils/storer_etcd.go:156-206 | a record is there until t whatever the calls to come, exactly if its directory has no TTL or is due to live until t |
| EtcdInterleaved.AcceptedReportIsKeptIff | pkg/utils/storer_etcd.go:197-206 | at any point of any interleaving, exactly how long an accepted report is safe, by what is under the pod's name as its record is set |
| EtcdInterleaved.UndisturbedCallsMakeReport | pkg/utils/storer_etcd.go:156-206 | run alone, a handler's calls make the report that the store promises |
| EtcdInterleaved.PermanentIff | pkg/utils/storer_etcd.go:197-201 | over every interleaving, a directory is without a TTL exactly if some record set found nothing under the pod's name and no update of the directory reached etcd since |
| EtcdInterleaved.SlowReportMakesPermanent | pkg/utils/storer_etcd.go:156-206 | a run with every call answered and no two handlers at once that ends in such a directory |
| EtcdInterleaved.UnrenewedReportMayVanish | pkg/utils/storer_etcd.go:156-206 | an interleaving in which an accepted report is gone a nanosecond later |
| Metrics.Registry.TryRegisterCounter | pkg/utils/metrics.go:144-156 | the registered counter is handed back if there is one; no value changes |
| Metrics.Registry.TryRegisterGaugeVec | pkg/utils/metrics.go:160-171 | the same for gauges |
| Metrics.LabelSays | pkg/utils/metrics.go:34-45 | the label in full: node name and "host_network" if the pod's name contains "hostnet", "private_network" if not |
| Metrics.LabelsEqualIff | pkg/utils/metrics.go:34-52 | two agents share their collectors exactly if they are on one node and both, or neither, on its host network |
| Metrics.NcAgentMetrics.NewAgentMetrics | pkg/utils/metrics.go:29-140 | the new entry refers to the registered collectors of its label, and no entry or value is disturbed |
| Metrics.NcAgentMetrics.UpdateAgentBaseMetrics | pkg/utils/metrics.go:175-186 | a report counts once under the entry's label and ends its errors; an error counts once under it and adds one |
| Metrics.NcAgentMetrics.UpdateAgentProbeMetrics | pkg/utils/metrics.go:189-207 | all eight gauges take the probes in order, and no counter changes |
| Metrics.ChargeOneMore | pkg/utils/handler.go:138-146 | errors counted one name at a time add up to the round's result, in any order |
| Handlers.Handler.Record | pkg/utils/handler.go:81-83 | the three metrics calls of a report put together |
| Handlers.NextAbsent | pkg/utils/handler.go:154-160 | a name listed twice in a round is charged once |
| Handlers.Handler.CollectAbsent | pkg/utils/handler.go:147-161 | the etcd round charges exactly the absent names that are known and uncharged since their last report |
| Handlers.Handler.CollectLate | pkg/utils/handler.go:136-146 | the Kubernetes round charges exactly the late names of the cache, in whatever order it visits them |
| Handlers.ConnectivityCheck | pkg/utils/handler.go:86-123 | the status is 500 exactly on a failed check, 200 exactly on one that finds nobody, and 400 otherwise with both lists |
| MetricsRuns.CountersAreConserved | pkg/utils/metrics.go:29-186 | each label's report counter is the number of handled reports with that label, all together are the calls, and errors are those counted against names |
| MetricsRuns.CountersExistAfterRun | pkg/utils/metrics.go:29-139 | both counters of a label are exported from its first report on, and no others |
| MetricsRuns.ErrorsAreGapErrors | pkg/utils/metrics.go:181-184 | each label's error counter is exactly the errors in the gaps after reports with that label, in either mode |
| MetricsRuns.OutageBudget | pkg/utils/handler.go:154-158 | in etcd mode a label's errors plus its chargeable names never exceed its reports, and errors since a report are 0 or 1 |
| MetricsRuns.SoleBearerOwnsCounter | pkg/utils/metrics.go:34-52 | with a label of its own, a name's errors are the label's counter |
| MetricsRuns.GaugesShowLastProbes | pkg/utils/metrics.go:189-207 | the eight gauges show the fields of the last probe of each label and URL in the whole history, and nothing else |
| MetricsRuns.GaugesShareCells | pkg/utils/metrics.go:197-206 | the eight gauges have one set of label values |
| EtcdMode.Server.Serve | pkg/utils/handler.go:73-84 | in etcd mode, a report or a round takes tree and metrics to what the run says |
| EtcdMode.Server.ConnectivityCheck | pkg/utils/handler.go:95-114 | in etcd mode the answer is OK exactly if the pods could be listed and none is silent |
| EtcdMode.ErrorsAreNoticedGaps | pkg/utils/handler.go:147-159 | over every run, the errors a server process counted against a pod are its reports to it whose gap some round noticed, at least a TTL in, whatever an earlier process left in the tree |
| EtcdMode.ErrorCounterIsNoticedGaps | pkg/utils/metrics.go:41-46 | the exported error counter of a pod's own label is that number |
| EtcdMode.CheckPassesIffAllReported | pkg/utils/storer_etcd.go:272-290 | after any run the absent are, in order, the listed pods whose last report is not younger than the TTL, so nobody is exactly if all reported |
| EtcdMode.AbsentHaveNoneOpen | pkg/utils/storer_etcd.go:272-290 | with arbitrary uptimes, they are the listed pods without an open window |
| EtcdMetrics.RunAccounts | pkg/utils/handler.go:73-84 | over every run, entries, report counters and gauges are those of the POSTs served, by URL name and by label |
| EtcdMetrics.StreaksAreMisses | pkg/utils/handler.go:147-159 | over every run, any name has one error since its last POST if a round listed it while no pod of that name was heard of, and none otherwise |
| EtcdMetrics.ChargedAreGapErrors | pkg/utils/handler.go:154-158 | over every run, the errors charged to a name are those of its gaps |
| EtcdMetrics.ErrorsAreGapErrors | pkg/utils/metrics.go:181-184 | over every run, each label's error counter is the errors in the gaps after reports with it |
| StorerK8s.K8sAgentStorage.CleanCacheOnDemand | pkg/utils/storer_k8s.go:222-255 | keeps exactly the cached names that are listed pods, with their values |
| StorerK8s.K8sAgentStorage.UpdateAgents | pkg/utils/storer_k8s.go:93-139 | the report is returned as posted with the time of its arrival; the write asked for, with the version read; store and cache exactly, by how the calls came off |
| StorerK8s.K8sAgentStorage.CheckAgents | pkg/utils/storer_k8s.go:174-206 | fails exactly at the first failed lookup; otherwise the absent are, in order, the listed pods that are not stored, the outdated those whose record is older than two of its intervals |
| StorerK8s.PositionsAscend | pkg/utils/storer_k8s.go:186-203 | the selected positions ascend and miss none of their class |
| StorerK8s.ClassesPartitionPods | pkg/utils/storer_k8s.go:186-203 | absent, outdated and fresh pods make up the pod list, repeated names included |
| K8sMode.Server.Serve | pkg/utils/handler.go:73-84 | in Kubernetes mode, a report, a request or a round takes store, cache and metrics to what the run says, with the API server up or down |
| K8sMode.Server.ConnectivityCheck | pkg/utils/handler.go:86-131 | status and both lists of the answer in Kubernetes mode, by the stored records and their ages; a failed listing of the pods, the cleaning's included, makes it 500 |
| K8sMode.CacheAndStoreAreHistory | pkg/utils/storer_k8s.go:93-139 | over every run, whatever calls fail and whatever was stored at the start, store and cache hold the reports that the history says, as posted and with the times of arrival |
| K8sMode.CacheAgreesWithStore | pkg/utils/storer_k8s.go:93-139 | a cached spec other than the empty one is what the store holds; with every call answered the store holds each last report, and the cache the same for exactly the names not dropped since |
| K8sMode.ErrorsInClosedForm | pkg/utils/handler.go:136-145 | over every run, a watched agent's errors are the least of the rounds since its last POST and of what was due at each, by the report's arrival, plus the rounds after it |
| K8sMode.RoundCharges | pkg/utils/handler.go:136-146 | what a round does to any name after any run: one error exactly if the agent is watched and owed one, and nothing else; a name that is not cached is never charged |
| K8sMode.ExactIffDueKeptUp | pkg/utils/handler.go:140-143 | the count is exact just when what is due never outran the rounds |
| K8sMode.FrequentRoundsCountExactly | pkg/utils/handler.go:135-144 | with rounds at most an interval apart, errors are the whole intervals since the report arrived, less one |
| K8sMode.DetectorsAgree | pkg/utils/storer_k8s.go:199-202 | after a round a watched agent has errors exactly if its report arrived two intervals ago or more; the store has that report |
| K8sMode.NeverCharged | pkg/utils/handler.go:138-143 | over every run, an agent that is cached but not watched, as after a failed write, has no errors |
| K8sMode.CheckByHistory | pkg/utils/storer_k8s.go:174-206 | after any run the absent are the listed pods of which no report ever got stored, the outdated those whose last such report arrived more than two intervals ago |
| K8sMode.DetectorsAgreeIff | pkg/utils/storer_k8s.go:132-136 | for a stored record with a positive interval the detectors agree exactly if the server was told that the last report is stored, or the record is younger than two intervals |
| K8sMode.FailedWriteHidesSilence | pkg/utils/storer_k8s.go:132-136 | a run with one failed write: no errors, however long ago the stored report arrived |
| K8sMetrics.RunAccounts | pkg/utils/handler.go:73-84 | over every run, entries, report counters and gauges are those of the POSTs served, by URL name and by label |
| K8sMetrics.ChargedAreGapErrors | pkg/utils/handler.go:140-143 | over every run, the errors charged to a name are those of its gaps |
| K8sMetrics.ErrorsAreGapErrors | pkg/utils/metrics.go:181-184 | over every run, each label's error counter is the errors in the gaps after reports with it |
| K8sInterleaved.CachedSpecsWereHeld | pkg/utils/storer_k8s.go:107-136 | with overlapping handlers, failing calls and any store at the start, a cached spec is one the store held under that name, or the empty spec |
| K8sInterleaved.NoReadIsOverwrittenUnseen | pkg/utils/storer_k8s.go:122-130 | a handler whose get succeeded overwrites only the very object it read |
| K8sInterleaved.UndisturbedCallsMakeReport | pkg/utils/storer_k8s.go:93-139 | run alone, with whatever fates, a handler's calls do to store and cache what a report does |
| K8sOvertaking.LastWriterCachedIffNotOvertaken | pkg/utils/storer_k8s.go:122-136 | once no handler of a name stands between its two writes, the handler that cached the entry is the one that wrote the store last exactly if no write took effect while it stood there; otherwise the two agree just if both carry one report |
| K8sOvertaking.CacheAgreesIffNotOvertaken | pkg/utils/storer_k8s.go:122-136 | where the reports of a name differ, cache and store then agree exactly if no write took effect while the handler that cached the entry stood there |
| K8sOvertaking.CacheAgreesIfNobodyIsOvertaken | pkg/utils/storer_k8s.go:128-136 | if no write to a name takes effect while another handler of it stands there, cache and store agree |
| K8sOvertaking.OvertakingMakesCacheLag | pkg/utils/storer_k8s.go:128-136 | after a write that does, the next step of the overtaken handler leaves the two equal exactly if the reports are |
| K8sOvertaking.CacheCanLagBehindStore | pkg/utils/storer_k8s.go:128-136 | an interleaving, every call answered, that ends with the older of two reports in the cache and the newer in the store |

## Left out

- GetAgents: the list of network probes in a returned entry; Go also decodes it in place, and what
  entries then share depends on how the runtime grows a slice.
- UpdateAgents: pod names that are not one visible path segment ("", ".", "..", with a slash or a
  leading underscore); no Kubernetes pod name is one. etcd would read them as other keys, or hide
  the key from listings.
- Serve: the same pod names, in etcd mode.
- A report TTL of zero or less, with which etcd would keep every key for good.
- Documents in the tree that lack fields, which only another client of etcd could put there: the
  fold is modelled on them, but what it finds is stated for complete or undecodable ones.
- The number of pods in the success message, which comes from a separate read of the cache.
- Connection failures in the sequential runs of etcd mode; the interleaved runs have them.
- HTTP routing, middleware, logging, flags, TLS and client setup: no state worth proving.
- The listing requests of single agents and of the whole store, which only pass on what is stored.
- Reading and decoding request bodies: a report arrives decoded, or as an error.
