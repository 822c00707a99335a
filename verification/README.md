# Verified model of the edge appliance's stateful cores

A Dafny model of the parts of the appliance that keep state across calls or share it between
processes, with proofs of what they guarantee over whole runs. Each program that updates things in
place is a class or a method with a loop; its contract ties the new state to a function on values,
and the theorems are about runs of those functions.

| files | what they model |
|---|---|
| `vpn_model`, `vpn_services`, `vpn_protocol`, `vpn_requests`, `vpn_theorems` | console and VPN supervisor sharing `desired.json` and the profile files: one transition system with console requests, reconcile passes, child exits, supervisor restarts and the clock |
| `goose_key`, `collector`, `collector_spec` | the baseline collector as a windowed index, and its specification as comprehensions over the packet trace |
| `drift`, `drift_window`, `lifecycle`, `baseline_end_to_end` | drift against the active policy, approval, rollback and the twenty-deep history, and the composition of all of it with the collector |
| `xdp_model`, `xdp_theorems`, `xdp_session` | AF_XDP frame ownership: fill ring, kernel, RX ring and user hand, under every interleaving of `recv` with the kernel |
| `agent_upload`, `agent_theorems`, `agent_sends` | the edge agent's offline buffer, flush loop and upload loop under arbitrary failures |
| `wifi_terse`, `wifi_priority`, `wifi_bands`, `sorting`, `text` | the nmcli terse parser, recency promotion with pruning, and the pinned priority band |
| `utf8`, `events_tail`, `events_merge`, `events_recent` | UTF-8 decoding with replacement, the JSONL tail reader on arbitrary bytes, and the merge of several event files |
| `port_scan` | the per-source port-scan window, pruned on query |

Time is `real`: readings are compared, added and subtracted, and the back-off is doubled. Failures of
foreign calls (file writes, `Popen`, MQTT and HTTP, `nmcli`, `mmap`) are inputs of the step that makes
the call. MAC addresses in a packet trace are taken as lower case and free of `|`, which is what makes
the joined publisher key identify its parts (`GooseKey.JoinedInjective`).

## Where the code differs from what is said about it

- The supervisor's header promises capped backoff, and `BACKOFF_MAX` is 60. The code clears `backoff`
  after every attempt, so a retry waits 3 s, or 6 s when a failed launch follows an exit back-off; the
  doubling never goes further (`VpnTheorems.RetryDelays`).
- A comment says a new epoch reconnects. With auto-reconnect off, an exit that the supervisor has not
  yet collected is charged to the epoch that is current when it looks, so a fresh connect can be given
  up without a single launch. `VpnTheorems.ConnectServedIff` gives the exact condition,
  `VpnTheorems.SwallowedConnect` a run.
- The give-up latch is kept in memory only. `VpnTheorems.RelaunchIff`: with auto-reconnect off, an
  epoch already launched or given up is attempted again if and only if a supervisor restart is followed
  by a pass; `VpnTheorems.RestartForgetsLatch` is such a run.
- The edge agent compares `str(payload.get("event_id"))`, so an event without an id is compared as
  "None". `AgentTheorems.MissingIdStaysIff`: it survives a delivery if and only if the delivered event
  is not named "None"; `AgentTheorems.MissingIdCanBeDropped` is a run that drops one.
- The port-scan list is pruned with the window of the query at hand, so after a query with a short
  window a longer one can miss ports. `PortScan.PrunedAgrees` and `PortScan.QueryExactIff` say exactly
  when list and answer are those of the full history; `PortScan.LongerWindowMisses` gives the failing
  inputs.
- Pinned APs are meant to outrank all others always. A profile made or changed outside the console
  may carry any priority, and keeps it until the next promoting connect; and when the listing command
  fails, `set_wifi_priority` answers 200 and, if it can write the file, empties the pinned list while
  the profiles keep their pinned priorities, against the documented fall back to the recency band.
  `WifiBands.PinnedOutrank` holds from a promoting connect on until either happens.
  `WifiBands.OutranksIff` and `WifiBands.OutsideOutranksIff` give the exact conditions, and
  `WifiBands.FallBackIff` the one for the fall back; `WifiBands.ForeignProfileOutranks` and
  `WifiBands.FailedListingStrands` give the failing inputs.
- `xdp_cap_open` succeeds only when the fill ring takes every frame at once, so with the default of
  4096 frames a ring of 2048 slots is not enough (`XdpTheorems.DefaultsNeedRoom`). The ring size is
  libxdp's constant, which is not part of this model; it stays a parameter.

## Model

| member | source | states |
|---|---|---|
| `VpnServices.Console.Connect` | services/edge-console/src/vpn_service.py:252-299 | every refusal (403, 400, 404, 500) leaves the desired state alone; success writes a new epoch with the requested choices, and a failed credential write may leave the file behind |
| `VpnServices.Console.Disconnect` | services/edge-console/src/vpn_service.py:325-339 | success clears `connect`, keeps the profile name, takes a new epoch |
| `VpnServices.Console.SetAutoReconnect` | services/edge-console/src/vpn_service.py:302-322 | changes only `auto_reconnect`; the epoch stays |
| `VpnServices.Console.SaveProfile` | services/edge-console/src/vpn_service.py:174-203 | adds the profile file; a failed write may or may not leave it there |
| `VpnServices.Console.DeleteProfile` | services/edge-console/src/vpn_service.py:206-223 | 409 for the profile of a wanted connection, otherwise removes profile, then credentials, each of which can fail |
| `VpnRequests.ConnectStores` | services/edge-console/src/vpn_service.py:252-299 | accepted exactly when enabled, the name good, the profile there, the credentials not malformed and both writes done; then desired.json holds exactly the requested profile, gateway and reconnect choices under the next epoch, otherwise it is untouched |
| `VpnRequests.ConnectTouchesOnly` | services/edge-console/src/vpn_service.py:280-290 | a connect never touches a profile, and of the credential files at most its own |
| `VpnRequests.DisconnectStores` | services/edge-console/src/vpn_service.py:325-339 | accepted exactly when enabled and written; then `connect` is off, the name stays, every choice is reset, under the next epoch |
| `VpnRequests.ToggleStores` | services/edge-console/src/vpn_service.py:302-322 | the flag takes the requested value and nothing else moves, not even the epoch |
| `VpnRequests.SaveStores` | services/edge-console/src/vpn_service.py:174-203 | an accepted profile exists afterwards; only a failing write of an acceptable one may leave a file |
| `VpnRequests.DeleteStores` | services/edge-console/src/vpn_service.py:206-223 | a deleted profile is gone with its credentials, and without them exactly when only their removal fails; the one a wanted connection names never is |
| `VpnRequests.RefusalStatus` | services/edge-console/src/vpn_service.py:174-339 | which refusal gets 400, 403, 404 or 409 |
| `VpnServices.Supervisor.StopProc` | services/vpn-client/supervisor.py:296-314 | no child, no active profile and epoch; back-off state untouched |
| `VpnServices.Supervisor.BumpBackoff` | services/vpn-client/supervisor.py:316-318 | doubling from the base, capped, with the retry time moved by the new delay |
| `VpnServices.Supervisor.Start` | services/vpn-client/supervisor.py:269-288 | success records profile and epoch and starts a child with the argv choices of the desired state; a failed `Popen` leaves no child and backs off |
| `VpnServices.Supervisor.RestartIfDue` | services/vpn-client/supervisor.py:440-462 | collects an exited child (latch or back off), then starts if neither latched nor early |
| `VpnServices.Supervisor.ReconcileOnce` | services/vpn-client/supervisor.py:399-462 | one pass of the loop equals the pass on values that all run theorems are about |
| `VpnRequests.BackoffDoubles` | services/vpn-client/supervisor.py:316-318 | the next delay doubles the last, between 3 and 60 s |
| `VpnRequests.LaunchChoices` | services/vpn-client/supervisor.py:220-267 | a child is started for the profile with the desired gateway and reconnection choices, and with credentials exactly when they are desired and there |
| `VpnRequests.PassAttemptsIff` | services/vpn-client/supervisor.py:399-462 | a pass attempts a launch exactly when a connection is wanted and the child is of another epoch, or missing and due, or exited with its delay over; the attempt succeeds exactly when `Popen` does |
| `VpnRequests.PassLeaves` | services/vpn-client/supervisor.py:399-462 | a pass leaves the child it launched, or the same running child if its epoch is current, or neither child nor active profile |
| `VpnRequests.PassBackoff` | services/vpn-client/supervisor.py:414-462 | what a pass leaves of the back-off: cleared by an attempt and by a pass without a wanted connection, 3 s after collecting an exit, otherwise as it was |
| `VpnProtocol.ConsoleKeepsInv` | services/edge-console/src/vpn_service.py:174-339 | every console request, accepted or refused, keeps the cross-process invariant: a wanted profile exists, epochs never overtake the desired one |
| `VpnProtocol.ReconcileKeepsInv` | services/vpn-client/supervisor.py:399-462 | so does every reconcile pass |
| `VpnProtocol.RunKeepsInv` | services/vpn-client/supervisor.py:399-462 | the invariant holds in every world of every interleaved run |
| `VpnProtocol.TargetIsWanted` | services/vpn-client/supervisor.py:399-411 | in a good world the pass finds exactly the wanted profile |
| `VpnTheorems.PassAgrees` | services/vpn-client/supervisor.py:399-462 | after any pass of any run the missing-profile branch was not taken, and a live child exists only under `connect`, with the current profile, gateway and credential choices |
| `VpnTheorems.SameEpochAgrees` | services/vpn-client/supervisor.py:424-438 | between passes a child of the current epoch still matches the desired state |
| `VpnTheorems.ChildOfLaunch` | services/vpn-client/supervisor.py:220-288 | in any run a child carries exactly the choices, auto-reconnect among them, and the epoch desired at the pass that launched it, with no launch since; so the flag lags exactly when the desired one has changed since that pass |
| `VpnTheorems.AutoReconnectLags` | services/edge-console/src/vpn_service.py:302-322 | a run witnessing the lag |
| `VpnTheorems.PassServesEpoch` | services/vpn-client/supervisor.py:424-438 | after any pass of any run a running child is of the desired epoch and was launched by a pass that saw this epoch |
| `VpnTheorems.ConnectRestarts` | services/vpn-client/supervisor.py:424-434 | whatever the reconnect flag: a child that runs after any pass later than an accepted connect was launched after it |
| `VpnTheorems.FirstPassReplaces` | services/vpn-client/supervisor.py:424-438 | the first pass after an accepted connect replaces a running child, whatever its choices, and attempts a missing one that is due |
| `VpnTheorems.AtMostOneLaunch` | services/vpn-client/supervisor.py:440-462 | with auto-reconnect off, one epoch is launched at most once however often the loop runs |
| `VpnTheorems.ServedForGood` | services/vpn-client/supervisor.py:440-462 | an epoch once launched or given up is never attempted again |
| `VpnTheorems.RelaunchIff` | services/vpn-client/supervisor.py:203-217 | across supervisor restarts, with auto-reconnect off: a launched or given-up epoch is attempted again if and only if some restart is followed by a pass |
| `VpnTheorems.AttemptsAreSpaced` | services/vpn-client/supervisor.py:440-462 | with auto-reconnect on, n attempts of a stretch span at least 3(n-1) seconds |
| `VpnTheorems.AttemptsAreSpacedAcross` | services/vpn-client/supervisor.py:203-217 | with r supervisor restarts among them, n attempts span at least 3(n-1-r) seconds |
| `VpnTheorems.RetryDelays` | services/vpn-client/supervisor.py:316-318 | every retry delay a pass sets: 3 s, 6 s or none, never more |
| `VpnTheorems.DisconnectHolds` | services/vpn-client/supervisor.py:414-423 | one pass under `connect` false leaves no child, and none appears while it stays false |
| `VpnTheorems.Converges` | services/vpn-client/supervisor.py:399-462 | under a stable wanted connection that launches and stays up, a matching child runs from the first pass at or after the retry time (at most 6 s on), and the supervisor no longer changes |
| `VpnTheorems.ConvergesAfterRestart` | services/vpn-client/supervisor.py:399-462 | after a supervisor restart the same holds from the first pass on, with nothing to wait for |
| `VpnTheorems.ConnectServedIff` | services/vpn-client/supervisor.py:424-462 | an accepted connect with auto-reconnect off is attempted if and only if the previous child had not exited when the first pass looked |
| `VpnTheorems.ConnectServedOn` | services/vpn-client/supervisor.py:424-462 | with auto-reconnect on every accepted connect is attempted, at the latest by a pass at or after the retry time that the first pass leaves |
| `VpnTheorems.SwallowedConnect` | services/vpn-client/supervisor.py:424-456 | a run in which an accepted connect is never launched |
| `VpnTheorems.RestartForgetsLatch` | services/vpn-client/supervisor.py:203-217 | a run witnessing the relaunching side of that condition |
| `GooseKey.JoinedInjective` | services/edge-console/src/baseline_service.py:211-212 | joined keys are equal exactly when MAC, appid and control block are, if no MAC holds the separator |
| `GooseKey.DecimalInjective` | services/edge-console/src/baseline_service.py:211-212 | distinct appids render differently |
| `GooseKey.LowerIgnoresCase` | services/edge-console/src/baseline_service.py:211-212 | lowering identifies texts exactly when they differ at most in the case of letters |
| `Collector.BaselineCollector.FeedEndpoints` | services/packet-sensor/src/baseline/collector.py:126-136 | adds the addresses present to the MAC, IP and MAC-to-IP tables and stamps the pair when both IPs are present |
| `Collector.BaselineCollector.FeedGoose` | services/packet-sensor/src/baseline/collector.py:138-160 | the publisher's record after one more frame; every other record untouched |
| `Collector.BaselineCollector.FeedMms` | services/packet-sensor/src/baseline/collector.py:162-181 | the IED's record after one more PDU, by the port-102 end; other traffic ignored |
| `Collector.BaselineCollector.FeedModbus` | services/packet-sensor/src/baseline/collector.py:183-198 | the server's record after one more request, by the port-502 end |
| `Collector.BaselineCollector.GoosePublishers` | services/packet-sensor/src/baseline/collector.py:205-223 | lists exactly the fresh publisher records, each once, sorted by appid and MAC |
| `Collector.BaselineCollector.MmsIeds` | services/packet-sensor/src/baseline/collector.py:225-239 | lists exactly the fresh IEDs with their fresh clients, each once, sorted by address |
| `Collector.BaselineCollector.ModbusServers` | services/packet-sensor/src/baseline/collector.py:241-253 | lists exactly the fresh servers, each once, sorted by address |
| `Collector.BaselineCollector.ToCandidate` | services/packet-sensor/src/baseline/collector.py:297-338 | the sorted snapshot, the fresh pairs and the MAC table for the cutoff; no window and a zero window mean no cutoff |
| `CollectorSpec.LastSeenIsLatest` | services/packet-sensor/src/baseline/collector.py:126-198 | the index remembers, for every subject, the time of its latest mention in the trace |
| `CollectorSpec.FreshIffSeen` | services/packet-sensor/src/baseline/collector.py:201-203 | fresh in the index if and only if mentioned since the cutoff |
| `CollectorSpec.WindowIs` | services/packet-sensor/src/baseline/collector.py:311-313 | the window takes in what is at most that many seconds old; none, or one of zero, takes in everything |
| `CollectorSpec.PublishersReported` | services/packet-sensor/src/baseline/collector.py:205-223 | a publisher is reported if and only if the trace mentions it since the cutoff |
| `CollectorSpec.PublisherEntry` | services/packet-sensor/src/baseline/collector.py:205-223 | every field of a reported publisher over the whole trace: its own address and ids, frame count, first revision, first name, whether any frame was real |
| `CollectorSpec.PublishersInOrder` | services/packet-sensor/src/baseline/collector.py:208 | reported publishers come by appid, then by the text of the MAC |
| `CollectorSpec.IedsReported` | services/packet-sensor/src/baseline/collector.py:225-239 | the same for IEDs and their clients, the IED being the end at port 102 (the receiver if both are); a fresh client always has a fresh IED |
| `CollectorSpec.IedEntry` | services/packet-sensor/src/baseline/collector.py:225-239 | a reported IED carries its address and its read and write counts over the whole trace |
| `CollectorSpec.ServersAndPairsReported` | services/packet-sensor/src/baseline/collector.py:241-256 | the same for Modbus servers, the end at port 502, and communication pairs |
| `CollectorSpec.ServerEntry` | services/packet-sensor/src/baseline/collector.py:241-253 | a reported server carries its address and every unit, function code and client ever seen, none of them swapped |
| `CollectorSpec.AddressesSeen` | services/packet-sensor/src/baseline/collector.py:126-136 | the MAC and IP sets hold every address ever seen |
| `CollectorSpec.MacTableIsLatest` | services/packet-sensor/src/baseline/collector.py:129-133 | the MAC table holds the latest source address seen with each MAC |
| `CollectorSpec.RecordIsSummary` | services/packet-sensor/src/baseline/collector.py:138-160 | a publisher record holds total, test and production frame counts, the first conf_rev, the first nonempty go_id and the extreme state numbers of the whole trace |
| `CollectorSpec.ProductionIffSomeRealFrame` | services/packet-sensor/src/baseline/collector.py:209-210 | reported as production if and only if some frame was not a test frame |
| `CollectorSpec.IedCounts` | services/packet-sensor/src/baseline/collector.py:175-180 | read and write counts cover the whole trace, whatever the window |
| `CollectorSpec.ModbusIsCumulative` | services/packet-sensor/src/baseline/collector.py:191-198 | units, function codes and clients of a server are never aged out |
| `Drift.ComputeDrift` | services/edge-console/src/baseline_service.py:215-267 | the loops compute added, removed and changed of the two keyed tables, and whether there is anything active and live at all |
| `Drift.DriftKeyIdentifies` | services/edge-console/src/baseline_service.py:211-212 | two publishers share a key exactly when appid and control block agree and the MACs differ at most in case |
| `Drift.ChangedPublishers` | services/edge-console/src/baseline_service.py:225-236 | exactly the common publishers with a differing flag, or a differing revision that is present live |
| `Drift.PublisherChangeShows` | services/edge-console/src/baseline_service.py:225-236 | a change shows the active value and then the live one of exactly the attributes that differ |
| `Drift.ChangedClients` | services/edge-console/src/baseline_service.py:242-251 | exactly the common IEDs whose client sets differ, with both differences |
| `Drift.SummaryCounts` | services/edge-console/src/baseline_service.py:253-258 | the summary counts every publisher and IED that is only live, only active or changed |
| `Drift.TotalZeroIffAgree` | services/edge-console/src/baseline_service.py:253-258 | total drift is 0 exactly when key sets, production flags, non-null live revisions and client sets agree |
| `Drift.KeysSplit` | services/edge-console/src/baseline_service.py:221-251 | live keys split into added and common, active keys into removed and common, and changes concern common keys only |
| `Drift.IndexOfListing` | services/edge-console/src/baseline_service.py:221-222 | keying a listing gives back the table it lists |
| `Drift.IndexByLast` | services/edge-console/src/baseline_service.py:221-222 | of several entries with one key the last one counts |
| `DriftWindow.TablesOfSnapshot` | services/edge-console/src/baseline_service.py:221-239 | a live snapshot's dictionaries are the collector's own fresh records |
| `DriftWindow.PublisherDrift` | services/edge-console/src/baseline_service.py:221-236 | against a snapshot approved earlier, drift reports exactly the publishers that entered and left the window; conf_rev never changes and production only turns on |
| `DriftWindow.ClientDrift` | services/edge-console/src/baseline_service.py:238-251 | the same for IEDs and, under an IED present both times, for clients |
| `DriftWindow.ConfRevIsStable` | services/packet-sensor/src/baseline/collector.py:138-149 | a publisher's reported revision does not change as the trace grows |
| `DriftWindow.NoWindowNoRemoval` | services/packet-sensor/src/baseline/collector.py:311-313 | without a window nothing is ever reported removed |
| `Lifecycle.BaselineService.ApplyIec61850` | services/edge-console/src/baseline_service.py:335-355 | replaces the two lists and the version, keeps everything else in the policy |
| `Lifecycle.BaselineService.RecordHistory` | services/edge-console/src/baseline_service.py:358-375 | puts the new active version in front, deactivates the others, keeps twenty |
| `Lifecycle.BaselineService.Approve` | services/edge-console/src/baseline_service.py:378-389 | 404 without a candidate, 422 for an empty one, otherwise adopted and recorded |
| `Lifecycle.BaselineService.AcceptDrift` | services/edge-console/src/baseline_service.py:392-400 | 404 without live observations, otherwise adopted and recorded |
| `Lifecycle.BaselineService.RollbackTo` | services/edge-console/src/baseline_service.py:403-415 | finds the first version of that name, 404 or 422 or adopts its snapshot |
| `Lifecycle.HistoryMirrorsLog` | services/edge-console/src/baseline_service.py:358-415 | over any run the history is the last twenty applied requests, newest first |
| `Lifecycle.HistoryKeepsTwenty` | services/edge-console/src/baseline_service.py:358-375 | version i is the i-th latest applied request under its stamp, for the latest twenty |
| `Lifecycle.LogIsComplete` | services/edge-console/src/baseline_service.py:378-415 | that log holds every applied request once, in order, with the lists then in force |
| `Lifecycle.ApprovalAdopts` | services/edge-console/src/baseline_service.py:378-389 | in any run an approved candidate's own lists are in force, under the stamp; without one 404, for an empty one 422, and then nothing changes |
| `Lifecycle.DriftApprovalAdopts` | services/edge-console/src/baseline_service.py:392-400 | the same for the live lists, with 404 exactly when both are empty |
| `Lifecycle.PolicyIsHead` | services/edge-console/src/baseline_service.py:335-415 | the lists in force are the head snapshot, only the head is active, at most twenty are kept, thresholds and rules never change |
| `Lifecycle.FirstIsLatest` | services/edge-console/src/baseline_service.py:403-406 | the version a rollback finds is the latest applied request stamped that way |
| `Lifecycle.RollbackRestores` | services/edge-console/src/baseline_service.py:403-415 | rollback to any listed version restores exactly the lists in force right after it was applied, under the new stamp |
| `Lifecycle.RollbackElsewhere` | services/edge-console/src/baseline_service.py:403-411 | any other rollback changes nothing and answers 404; 422 never occurs |
| `Lifecycle.ApprovedDriftIsZero` | services/edge-console/src/baseline_service.py:392-400 | after approving the live block, unchanged live data has total drift 0 |
| `BaselineEndToEnd.DriftSinceApproval` | services/edge-console/src/baseline_service.py:392-400 | until the next applied request, drift against the policy is exactly what entered and left the window since the approved snapshot |
| `BaselineEndToEnd.DriftSinceRollback` | services/edge-console/src/baseline_service.py:403-415 | after rolling back to that approval, whatever came between, the same holds again |
| `XdpSession.Session.PopulateFq` | services/packet-sensor/native/xdp_capture.c:83-98 | all frames are posted at their start addresses, or none when the ring is too small |
| `XdpSession.Open` | services/packet-sensor/native/xdp_capture.c:113-244 | with defaults filled in, a session results exactly when every call before it succeeds and the fill ring takes every frame, and it starts with every chunk in the fill ring |
| `XdpSession.Session.Recv` | services/packet-sensor/native/xdp_capture.c:246-293 | one call is a sequence of the model's steps with the kernel running in between; it returns the head packet, or 0 or -1 with nothing consumed |
| `XdpSession.Session.CopyHead` | services/packet-sensor/native/xdp_capture.c:273-281 | copies the head descriptor's bytes, cut to the buffer |
| `XdpSession.Session.Refill` | services/packet-sensor/native/xdp_capture.c:285-291 | posts the chunk in hand if a slot is granted and counts the frame |
| `XdpTheorems.StepKeepsOwned` | services/packet-sensor/native/xdp_capture.c:246-293 | every step of either side keeps each chunk in exactly one place |
| `XdpTheorems.RefillHasRoom` | services/packet-sensor/native/xdp_capture.c:285-289 | while a chunk is in user hand the reserve cannot fail |
| `XdpTheorems.PostsSameAddress` | services/packet-sensor/native/xdp_capture.c:273-291 | a release and refill take the head off the RX ring and post back the very address the kernel had delivered |
| `XdpTheorems.OpenIffRoom` | services/packet-sensor/native/xdp_capture.c:83-98 | opening succeeds exactly when the fill ring holds all frames, and then ownership holds |
| `XdpTheorems.DefaultsNeedRoom` | services/packet-sensor/native/xdp_capture.c:137-140 | with both defaults opening fails exactly when the fill ring has fewer than 4096 slots, so for one of 2048 |
| `XdpTheorems.EffectiveSizes` | services/packet-sensor/native/xdp_capture.c:137-140 | 2048-byte frames and 4096 of them when no positive size is given |
| `XdpTheorems.EveryChunkOnce` | services/packet-sensor/native/xdp_capture.c:246-293 | in every session and interleaving each chunk is in exactly one of fill ring, kernel, RX ring and user hand: none is lost or duplicated |
| `XdpTheorems.CopyInsideArea` | services/packet-sensor/native/xdp_capture.c:273-281 | the copy stays inside the UMEM area and its length is the smaller of packet and buffer |
| `XdpTheorems.DeliveryLeavesQueued` | services/packet-sensor/native/xdp_capture.c:273-283 | a packet the kernel writes never touches the bytes of a queued one |
| `XdpTheorems.ReturnedInOrder` | services/packet-sensor/native/xdp_capture.c:257-292 | what recv returned is the kernel's packet sequence from its start, in order; `user_rx_frames` counts the completed calls |
| `XdpTheorems.ReaderSeesWholePackets` | services/packet-sensor/src/capture/xdp_reader.py:176-194 | with the reader's buffer size no packet is truncated, for any configured frame size |
| `AgentUpload.EdgeAgent.EnqueueRow` | services/sensel-edge-agent/src/upload/buffer.py:36-54 | appends with a fresh id, then drops the oldest beyond capacity |
| `AgentUpload.EdgeAgent.RemoveByEventId` | services/sensel-edge-agent/src/upload/buffer.py:66-78 | the loop that removes matching rows by row id removes exactly the events whose compared id matches; an empty id removes nothing |
| `AgentUpload.EdgeAgent.FlushBuffer` | services/sensel-edge-agent/src/main.py:92-123 | the loop clears entries in order and stops at the first failing one |
| `AgentUpload.EdgeAgent.UploadPendingEvents` | services/sensel-edge-agent/src/main.py:126-170 | each event is suppressed, delivered and un-buffered, or buffered |
| `AgentUpload.DeleteEventKeeps` | services/sensel-edge-agent/src/upload/buffer.py:66-78 | deletion by event id keeps exactly the other rows |
| `AgentUpload.DeletionKeepsOrder` | services/sensel-edge-agent/src/upload/buffer.py:56-78 | the buffer stays in FIFO order |
| `AgentTheorems.FlushConsumesPrefix` | services/sensel-edge-agent/src/main.py:97-123 | a flush consumes a prefix and leaves exactly the suffix from the first failing entry; the prefix's events were delivered or whitelisted |
| `AgentSends.FlushKeepsIff` | services/sensel-edge-agent/src/main.py:97-123 | a flush keeps a row exactly when it, or one before it, is an event or health report that neither MQTT nor HTTP took and the whitelist did not suppress |
| `AgentSends.FlushIs` | services/sensel-edge-agent/src/main.py:97-123 | it books as delivered exactly the events before the first failing row that MQTT or HTTP acknowledged, in order, and as suppressed exactly those the whitelist named |
| `AgentSends.UploadIs` | services/sensel-edge-agent/src/main.py:126-170 | an upload books every event as produced, exactly the acknowledged ones as delivered and exactly the whitelisted ones as suppressed |
| `AgentSends.FailedIsBuffered` | services/sensel-edge-agent/src/main.py:126-170 | an event that could not be sent is the newest row of the buffer, unless the buffer holds nothing |
| `AgentTheorems.EventsAreConserved` | services/sensel-edge-agent/src/main.py:92-170 | over any run the produced events, counted with repetition, are exactly those recorded as delivered, whitelisted, buffered, trimmed and superseded together, so none is recorded as delivered twice; a superseded one has a delivered event of its id, or of the word None if it has no id |
| `AgentSends.DeliveredWasSent` | services/sensel-edge-agent/src/main.py:92-170 | over any run what is booked as delivered is exactly what MQTT or HTTP acknowledged, in order |
| `AgentTheorems.NoSilentLoss` | services/sensel-edge-agent/src/main.py:92-170 | so every produced event is delivered, whitelisted, buffered, trimmed by capacity, or an event of its id was delivered (for a missing id, one named "None") |
| `AgentTheorems.StaysBufferedIff` | services/sensel-edge-agent/src/upload/buffer.py:66-78 | a buffered event outlives a delivery if and only if its id is not compared equal to the delivered one |
| `AgentTheorems.MissingIdStaysIff` | services/sensel-edge-agent/src/upload/buffer.py:66-78 | in every state a buffered event without an id stays if and only if the delivered event is not named "None" |
| `AgentTheorems.TrimsOnlyWhenFull` | services/sensel-edge-agent/src/upload/buffer.py:36-54 | trimming happens only on insert into a full buffer and takes the oldest row |
| `AgentTheorems.MissingIdCanBeDropped` | services/sensel-edge-agent/src/upload/buffer.py:66-78 | a run witnessing the dropping side |
| `WifiTerse.SplitTerse` | services/edge-console/src/wifi_service.py:76-93 | the loop computes the split the two laws below are about |
| `WifiTerse.SplitUndoesJoin` | services/edge-console/src/wifi_service.py:76-93 | splitting undoes escaping and joining for every nonempty list of fields |
| `WifiTerse.SplitReads` | services/edge-console/src/wifi_service.py:76-93 | for every line: an unescaped colon ends a field, a backslash makes the next character plain, one at the very end is dropped |
| `WifiTerse.TokensOf` | services/edge-console/src/wifi_service.py:76-93 | every line, whoever wrote it, is of that form |
| `WifiTerse.FieldCount` | services/edge-console/src/wifi_service.py:76-93 | every line gives one field more than it has unescaped colons |
| `WifiPriority.WifiService.Connect` | services/edge-console/src/wifi_service.py:447-497 | every refusal before the command (403, 400, 502, 503) changes no profile; a command that is refused (502) or times out (504) may leave one behind; success promotes the new AP and prunes, unless the listing command fails |
| `WifiPriority.ConnectStatusIs` | services/edge-console/src/wifi_service.py:447-497 | the status of every connect: 403, 400, 502, 504 or 200 |
| `WifiPriority.WifiService.PromoteAndPrune` | services/edge-console/src/wifi_service.py:204-245 | the unpinned profiles, active first and then by recency: the first `keep` get descending priorities, the rest are deleted, nothing else changes; a profile whose command fails stays as it was, and a failing listing changes nothing |
| `WifiPriority.KeptPriorities` | services/edge-console/src/wifi_service.py:222-231 | the i-th kept unpinned profile gets priority 100 - i and connects by itself |
| `WifiPriority.WifiService.SetWifiPriority` | services/edge-console/src/wifi_service.py:262-312 | 403, 400 for no list or more than ten names; otherwise the listed names get the pinned band in order, dropped ones fall to 0, and the pinned file follows if it can be written |
| `WifiPriority.CleanOrder` | services/edge-console/src/wifi_service.py:274-282 | keeps acceptable names, stripped, first occurrence only |
| `Text.StripIs` | services/edge-console/src/wifi_service.py:274-282 | stripping takes away white space at both ends and nothing else |
| `WifiPriority.AcceptableIs` | services/edge-console/src/wifi_service.py:274-282 | a name may be pinned exactly when it has 1 to 64 characters and no control character |
| `WifiPriority.CleanedHolds` | services/edge-console/src/wifi_service.py:274-282 | the cleaned list holds exactly the requested names |
| `WifiPriority.CleanedKeepsOrder` | services/edge-console/src/wifi_service.py:274-282 | in the order of their first request |
| `WifiPriority.RequestIsPinned` | services/edge-console/src/wifi_service.py:284-299 | after a successful re-pinning exactly the requested saved names are pinned, in request order, place p with priority 200 - p and connecting by itself |
| `WifiPriority.EarlierRequestOutranks` | services/edge-console/src/wifi_service.py:284-299 | of two requested saved names the one requested first ends with the higher priority |
| `WifiBands.ConnectKeepsBands` | services/edge-console/src/wifi_service.py:204-245 | a promoting connect establishes the bands whatever priorities the unpinned profiles had |
| `WifiBands.CommandKeepsBands` | services/edge-console/src/wifi_service.py:479-497 | a connect command without a promotion, failed or not, keeps them |
| `WifiBands.RepinPins` | services/edge-console/src/wifi_service.py:262-312 | a re-pinning puts the pinned names into their band from any state, whether or not the listing command answers |
| `WifiBands.RepinKeepsBands` | services/edge-console/src/wifi_service.py:262-312 | and keeps the other profiles below it if they were and the listing command answers |
| `WifiBands.BlindRepin` | services/edge-console/src/wifi_service.py:286-311 | with a failing listing it empties the pinned list and changes no profile |
| `WifiBands.FallBackIff` | services/edge-console/src/wifi_service.py:267-269 | the documented fall back: every saved name that leaves the pinned list ends at priority 0 if and only if each was there already, or is listed and its command succeeds |
| `WifiBands.PinnedOutrank` | services/edge-console/src/wifi_service.py:204-312 | in any run of connects, re-pinnings and outside changes, every pinned AP outranks every unpinned one from a promoting connect on, until a re-pinning meets a failing listing or a profile is changed outside |
| `WifiBands.PinnedInOrder` | services/edge-console/src/wifi_service.py:289-299 | in any run pinned APs are saved and their priorities strictly follow the chosen order |
| `WifiBands.OutranksIff` | services/edge-console/src/wifi_service.py:286-311 | from any state with the pinned names in their band and through any re-pinnings, with the listing failing or not: pinned APs outrank all others if and only if nothing is pinned or every unpinned profile was left below the lowest pinned priority by whatever last unpinned it |
| `WifiBands.OutsideOutranksIff` | services/edge-console/src/wifi_service.py:26-33 | a profile added outside breaks the ranking if and only if something is pinned and the profile is not below the lowest pinned one |
| `WifiBands.ForeignProfileOutranks` | services/edge-console/src/wifi_service.py:289-299 | for every foreign priority of 200 or more, a one-step run in which a pinned AP does not outrank it |
| `WifiBands.FailedListingStrands` | services/edge-console/src/wifi_service.py:286-311 | a run from a state with everything in its band, through one failing listing, to a formerly pinned AP level with the pinned one |
| `WifiBands.PinnedNeverDeleted` | services/edge-console/src/wifi_service.py:219-239 | in any run in which only unpinned profiles are touched outside, a saved AP stays saved for as long as it is pinned |
| `WifiBands.KeptCount` | services/edge-console/src/wifi_service.py:221-239 | after a promotion exactly `keep` unpinned APs remain, or all if fewer |
| `WifiBands.ActiveOnTop` | services/edge-console/src/wifi_service.py:220-231 | the active AP, unless pinned, is kept with the top priority |
| `WifiBands.PromotionFollowsRecency` | services/edge-console/src/wifi_service.py:204-239 | between any two unpinned APs, priority follows recency with the active one first, and the deleted one was not used more recently |
| `WifiBands.ConnectKeepsBest` | services/edge-console/src/wifi_service.py:204-245 | a connect leaves at most `keep` unpinned APs, the connected one on top; priority follows recency and no deleted AP was used more recently than a kept one |
| `EventsTail.TailIsExactButOne` | services/edge-console/src/events_index.py:44-56 | for every file, well-formed UTF-8 or not, and every limit the reader returns a suffix of the file's nonblank lines, and misses at most the first line that lies inside the last bytes |
| `EventsTail.TailOfText` | services/edge-console/src/events_index.py:44-56 | a file holding the encoding of a text is read as a suffix of that text's nonblank lines |
| `EventsTail.BreaksAre` | services/edge-console/src/events_index.py:52-56 | a line ends at the ten line boundaries of `str.splitlines` and nowhere else |
| `EventsTail.LinesOfEnded` | services/edge-console/src/events_index.py:52-56 | lines that hold no boundary, each ended by LF or CR LF, read back as themselves |
| `EventsTail.TailOfJsonLines` | services/edge-console/src/events_index.py:44-56 | so a JSON lines file within the limit is read as exactly its nonblank lines, and a longer one as a suffix of them |
| `Utf8.DecodeCut` | services/edge-console/src/events_index.py:50-52 | decoding from any byte of any file gives some replacement characters, fewer than the bytes of the character cut, and then the file's own characters |
| `Utf8.DecodeUndoesEncode` | services/edge-console/src/events_index.py:52 | decoding undoes encoding for every text |
| `Utf8.ExtentIsLongest` | services/edge-console/src/events_index.py:52 | a unit of the decoder is the longest beginning of some character's encoding that is there, and one byte if there is none |
| `Utf8.WholeOrReplaced` | services/edge-console/src/events_index.py:52 | the first unit decodes to the character it encodes, or else to U+FFFD |
| `EventsRecent.ScanRecent` | services/edge-console/src/events_index.py:104-113 | the loop from the last line back, whose limit is looked at only after a line of JSON, is the read the next laws are about |
| `EventsRecent.RecentIs` | services/edge-console/src/events_index.py:104-113 | with a positive limit it reads exactly the last events of the lines, that many at most, newest line first |
| `EventsRecent.ReadMergedFiles` | services/edge-console/src/events_index.py:127-151 | the whole merge, from the bytes of the files |
| `EventsRecent.RecentIsShown` | services/edge-console/src/events_index.py:127-151 | of every file each of the last 200, or three times `limit`, events of its last 256 KiB is shown, or has an id that is shown with an event no older, or `limit` events no older are shown |
| `EventsRecent.ShownWasWritten` | services/edge-console/src/events_index.py:127-151 | and nothing else is shown |
| `EventsMerge.ReadMergedTail` | services/edge-console/src/events_index.py:127-151 | the loops compute the kept part of the newest-first order |
| `EventsMerge.MergeIsRight` | services/edge-console/src/events_index.py:127-151 | at most `limit` events, newest first, no id twice; every omitted candidate repeats a kept id or is no newer than anything kept |
| `EventsMerge.MergeOfFiles` | services/edge-console/src/events_index.py:127-151 | counted over the lists read from the files: kept and omitted events are together all their events, the kept ones newest first; every event of every list is kept, or repeats the id of a kept one no older, or the merge is full of events no older |
| `EventsMerge.CombinedAt` | services/edge-console/src/events_index.py:135-138 | the candidates are the lists read from the files, file after file |
| `EventsMerge.TiesInFileOrder` | services/edge-console/src/events_index.py:139 | events of one time stay in the order of the files and of the lists read from them |
| `EventsMerge.Conserved` | services/edge-console/src/events_index.py:127-151 | kept and omitted events together are exactly the candidates |
| `Sorting.SortIsSorted` | services/edge-console/src/events_index.py:139 | the sort orders any list by any total preorder |
| `Sorting.SortIsStable` | services/edge-console/src/events_index.py:139 | elements that the order does not tell apart keep the order they came in |
| `Sorting.TextLeqIs` | services/packet-sensor/src/baseline/collector.py:208 | the order of texts: a beginning comes first, else the smaller character at the first difference |
| `PortScan.Inventory.RecordPortScanSample` | services/packet-sensor/src/assets/inventory.py:56-59 | appends the sample to its source's list only |
| `PortScan.Inventory.UniquePortsInWindow` | services/packet-sensor/src/assets/inventory.py:61-68 | prunes that source's list and answers from it |
| `PortScan.PrunedAgrees` | services/packet-sensor/src/assets/inventory.py:56-68 | from any cutoff on, a source's pruned list is its full history if and only if no earlier query of that source dropped a recorded sample between the two cutoffs |
| `PortScan.AnswerIs` | services/packet-sensor/src/assets/inventory.py:61-68 | a query answers with exactly the ports named by a sample inside the window that no earlier query of its source pruned |
| `PortScan.QueryExactIff` | services/packet-sensor/src/assets/inventory.py:61-68 | the answer is that of the unpruned history if and only if every port recorded inside the window is named by such a sample |
| `PortScan.QueryIsExact` | services/packet-sensor/src/assets/inventory.py:61-68 | in particular when no earlier query of the same source had a later cutoff |
| `PortScan.QueriesAreExact` | services/packet-sensor/src/assets/inventory.py:56-68 | with one window and time going forward every query is exact |
| `PortScan.LongerWindowMisses` | services/packet-sensor/src/assets/inventory.py:61-68 | for every source, port and pair of windows, a shorter query in between makes the longer one miss a port |

## Left out

- VPN: status file, log scraping, tun discovery and the management socket; file paths, symlinks and
  unreadable JSON; a console request that lands in the middle of a pass (passes and requests are
  atomic); `_stop_proc` is taken to stop the child.
- `Collector.BaselineCollector.GoosePublishers`: leaves out `asset_id`, which numbers the list, the
  constant silence limit, and the order among publishers with the same appid and MAC.
- `Collector.BaselineCollector.MmsIeds`: leaves out `asset_id`; a client list is a set, the source
  lists it sorted.
- `Collector.BaselineCollector.ModbusServers`: units, function codes and clients are sets, the source
  lists them sorted.
- `Collector.BaselineCollector.ToCandidate`: leaves out the document's heading, the statistics block
  (lengths of what it lists and two counters) and the topology computed elsewhere.
- Collector: transport hints. Records are replaced in their dictionary rather than updated through a
  shared reference.
- `Drift.ComputeDrift`: reports keys in sets where the source lists the entries in dictionary order.
- Drift: hand-edited policies with missing keys, and case folding of non-ASCII text.
- Lifecycle: a crash between the policy write and the history write; stamps and candidate documents
  are inputs.
- AF_XDP: libxdp's ring index arithmetic (rings are sequences), unaligned UMEM mode, statistics, and
  tearing a session down.
- Agent: enrichment, reloading the whitelist, a whitelist or MQTT client that raises during an
  upload, and a crash between sending and removing.
- `WifiPriority.WifiService.Connect`: leaves out the never-default routing flag set for a named
  interface, which touches no priority.
- Wi-Fi: duplicate profile names, replies beyond their status, and the network scan, whose duplicate
  handling does not keep the in-use row. The run theorems start from a pinned list that is empty or in
  its band, and take the commands on single profiles and the write of the pinned file to succeed.
- Events: JSON parsing, the 24-hour counter with its early stop, and
  the single-slot cache, whose key ignores path and limit, so cached answers need not equal a scan.
- HTTP routes, sessions, passwords, user interface, packet parsers and detection rules.
