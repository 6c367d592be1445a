# volplugin: a Dafny model of its locks, stores and algorithms

volplugin mounts ceph and NFS volumes for docker on many hosts. The hosts agree on who may use a
volume through *use locks*: one etcd key for each lock type and volume, holding a JSON text that
says who took it and why. Nothing else identifies an owner. This project models that protocol, the
code on top of it, the entity store and the self-contained algorithms, and proves what they keep.

`dafny verify dfyconfig.toml` checks everything.

## How it is laid out

| file | what it models |
|---|---|
| `UseLocks.dfy` | the etcd requests on use locks, publish, publish with TTL, remove (`config/use.go`) |
| `LockDriver.dfy` | retrying acquire and clear, critical sections over several locks (`lock/lock.go`) |
| `Lease.dfy` | the TTL refresher against the clock (`lock/lock.go`) |
| `Cluster.dfy` | the whole protocol as a transition system: any number of jobs, hosts, refreshers, probes, with lost requests, lost replies, deaths, forced removals and lapses |
| `ClusterSafety.dfy` | what every reachable state keeps |
| `ClusterNecessity.dfy` | runs that break the guarantee when any one assumption is dropped |
| `Operations.dfy` | the lock lists of create, remove, copy and maintenance, and what they exclude |
| `HostMounts.dfy` | one host: counter, collection, stop channels, the Mount and Unmount handlers |
| `HandlerRefinement.dfy` | every request of `HostMounts` as a run of `Cluster` |
| `JobSteps.dfy`, `JobRefinement.dfy` | whatever a job of `Cluster` does in any run as a section of `LockDriver` |
| `SectionRuns.dfy` | sections of `LockDriver` among any other clients as runs of `Cluster` |
| `LeaseInCluster.dfy` | the rest of the cluster as the environment of `Lease` |
| `SnapshotLocks.dfy` | the two snapshot locks of one supervisor pass in `Cluster` |
| `TimedCluster.dfy`, `Timers.dfy` | `Cluster` with clocks in its states: waits, refreshing calls, leases that run out |
| `EntityPaths.dfy`, `EntityStore.dfy`, `EntityClient.dfy` | entity paths, the store with its hooks on values, and the objects that carry it out |
| `EntityRaces.dfy` | several clients on one entity store, call by call |
| `Merge.dfy` | the reflective merge of flat options into tagged structs |
| `NfsOptions.dfy`, `TemplateFS.dfy`, `ImageNames.dfy` | text: NFS options, mkfs templates, rbd image names |
| `Migrations.dfy`, `MigrationRunners.dfy` | the migration runner, alone and several over one version key |
| `Snapshots.dfy`, `GlobalUnits.dfy` | snapshot pruning, units of the global settings |
| `Strings.dfy`, `Iteration.dfy`, `Wrappers.dfy` | Go's string functions, map iteration in any order, Option and Result |

What the outside world decides is a parameter: what the network does to each request, what other
clients ask in between, what clocks read, what drivers answer. A specification
function says what each operation does; the methods that work step by step, on objects and arrays, are proved
to do it; the lemmas are about the functions and their runs.

## Main results

- A locked volume is mounted on at most one host in every reachable state *if and only if* mount keys
  are not removed by force, a running refresher's lease does not lapse, a failed mount can be undone,
  the mount path does not fail after a successful mount, and a stopped refresher is done before its
  host's next mount request (`ClusterNecessity.MountExclusionExactly`).
- Bodies of two create, remove, copy or maintenance operations that name a common volume never
  overlap *if and only if* no clock is set back during an acquire and either snapshot keys are not
  removed by force or, mount keys not being removed by force, both operations take the mount lock of
  one volume with contents that nobody else uses (`Operations.OperationsExcludeExactly`).
- A body never runs beside a mount of its volume *if and only if* the assumptions of mount exclusion
  hold, no clock is set back, and no other operation takes a mount lock of the same content, as two
  removals through one apiserver do (`Operations.BodyExcludesMountExactly`).
- `acquire` and `clear` never return nil without success, on any store and under any interference, *if
  and only if* the clock's readings are honest: none is past the timeout and then, a moment later,
  short of it (`LockDriver.SilentExactly`).
- In the cluster with clocks, where leases run out by time alone, a locked volume is mounted on at most
  one host in every reachable state *if and only if* refreshing calls persist until etcd answers, it
  does so within a quarter of the TTL, and the other four assumptions hold
  (`TimedCluster.TimedExclusionExactly`); with such calls every state is one of the cluster without
  clocks in which leases hold (`TimedCluster.TimedIsRuled`).
- The refreshed lease of one lock never lets go of it *if and only if* no refreshing call gives up and
  none takes longer than a quarter of the TTL, but for calls that take no time at all, of which one in
  a row may give up (`Lease.LeaseContinuityExactly`).
- Whatever a job does in any run of the cluster is what the retry loops and removals of
  `ExecuteWithMultiUseLock` do with exactly the other clients' requests of that run in between, and
  with a clock that runs unless one is set back (`JobRefinement.RunTells`,
  `JobRefinement.RunIsSection`); and whatever clocks,
  networks and other clients do, such a run exists (`SectionRuns.SectionRefines`).
- A request on a host panics *if and only if* it is an unmount with nothing left to count down, or a
  first mount that the driver performs while the collection still has the volume, which the log of
  requests decides (`HostMounts.PanicsExactly`). The log and the world's answers also decide which of
  the other four answers a request gets, and what of the volume is there afterwards
  (`HostMounts.AnswersExactly`, `HostMounts.MountedAfter`, `HostMounts.ChannelAfter`).
- A text is cast to a value *if and only if* it spells the value, which is in the field's range
  (`Merge.CastTexts`), and after a merge that succeeds the field holds the cast of its option, unless
  another option brings another value to the same cell (`Merge.MergedHolds`).
- A store step keeps "every volume record has a runtime record" *if and only if* it is not the
  deletion of a present volume's runtime options (`EntityStore.StepKeepsExactly`). However the calls of
  several clients come among each other, every state has it *if and only if* nobody deletes the runtime
  options of a volume that is there or that somebody sets (`EntityRaces.RacesAreGoodExactly`).
- While nobody does so, a valid Set whose own calls are served succeeds *if and only if* the volume could
  not be got at its first call, whatever other clients do since (`EntityRaces.SetWinsExactly`); two Sets
  of one name can both succeed, with every call served, *if and only if* the volume cannot be got at the
  start or somebody deletes it (`EntityRaces.BothSucceedExactly`).
- The order in which options are merged does not matter *if and only if* either all of them can be set
  and those that reach the same cell agree on its value, or some cannot, all of these end the merge
  alike, and every other writes what its cell holds already (`Merge.OrderIrrelevantExactly`).
- With several migration runners over one version key, some run overwrites the recorded version with a
  lower one *if and only if* two runners have something to run, one of them two migrations or more
  (`MigrationRunners.LoweredExactly`); some run meets the fatal check, and some runs a migration twice,
  *if and only if* two runners have something to run (`MigrationRunners.CollidesExactly`,
  `MigrationRunners.RepeatsExactly`). In no run is a migration up to the recorded version left out
  (`MigrationRunners.NoneSkipped`).

## Where the code differs from what is said about it

- `Global.Canonical` is documented as not to be applied twice. Applying it twice is applying it once
  *if and only if* each field's canonical value is zero or at least one unit
  (`GlobalUnits.CanonicalTwiceExactly`), as it is for published values in range
  (`GlobalUnits.CanonicalTwice`) and is not for negative ones (`GlobalUnits.CanonicalTwiceFails`).
- `traverse` is documented to survive bad data. It fires the hook even after a failed read, and the
  hook panics when the runtime options are nil (`EntityStore.CrashExactly`).
- A Set of a volume is meant to be refused when the volume exists. Any failure to read it counts as
  absence, and then it is overwritten: when etcd does not answer, when the policy is named exactly
  `runtime-policies`, or when the client's prefix starts with a slash
  (`EntityStore.SetExistsExactly`, `EntityStore.UnreadIsOverwritten`).
- `RemoveUse` is documented not to fail for a lock that is not there; etcd's key-not-found error is
  returned (`UseLocks.RemoveExactly`), and `clear` retries on it until its timeout
  (`LockDriver.AbsentNeverCleared`).
- When the mount path fails after a mount, the refresher is told to stop before the volume is
  unmounted, so that the lock can be gone while the volume is mounted
  (`ClusterNecessity.FailedPathExposes`).
- `ExecuteWithMultiUseLock` returns with the earlier locks still taken when a later one is refused
  (`LockDriver.SectionHoldsItsLocks`).
- `UpdateSchemaVersion` is there to refuse a version that is not greater. Its check and its write are two
  requests, so that another runner's greater version can be overwritten in between
  (`MigrationRunners.LowerRun`).
- `createSnapshot` tells the refresher of its lock to stop and does not wait, so that a pass can refuse
  its own prune (`SnapshotLocks.RefusesItself`); it does so *if and only if* the refresher has not
  removed the lock by then (`SnapshotLocks.PruneGetsLockExactly`).
- A merge that fails has set the options that came before the failing one in Go's map order
  (`Merge.OrderIrrelevantExactly` says when that can be seen).
- With a clock set back at the wrong moment `acquire` returns nil without the lock
  (`LockDriver.BlockedSlips`), and a critical section goes on without it (`Operations.SlipRun`).

## Model

| member | source | states |
|---|---|---|
| UseLocks.Client.PublishUse | config/use.go:130-147 | create if absent, then for re-entrant types compare-and-swap with equal content, as two separate requests with others' requests and network faults in between; success leaves the content there for good |
| UseLocks.Client.PublishUseWithTTL | config/use.go:151-180 | a negative TTL is refused; otherwise compare-and-swap, then create if the key was missing; success leaves the content there for the whole seconds of the TTL |
| UseLocks.Client.RemoveUse | config/use.go:184-199 | one compare-and-delete, or a plain delete when forced, after which nothing is at the key, whoever had it |
| UseLocks.PublishExactly | config/use.go:130-147 | a publish succeeds iff the key is free or, for a mount lock, holds equal content; success leaves it permanent and moves no other key, failure changes nothing |
| UseLocks.PublishDoneHolds | config/use.go:130-147 | under any interference a publish that reports success has left the caller's permanent content at the key |
| UseLocks.PublishTTLExactly | config/use.go:151-180 | a TTL publish succeeds iff the key is free or holds equal content, for every lock type |
| UseLocks.PublishRemoveRoundTrip | config/use.go:184-199 | removing what was published gives back the store; a removal with other content changes nothing |
| UseLocks.RemoveExactly | config/use.go:182-199 | an unforced removal succeeds iff the key holds the caller's content, reports a missing key iff there is none, and changes nothing when it fails |
| UseLocks.ForcedRemovalExactly | config/use.go:184-199 | a forced removal takes away whatever is at the key, and reports a missing key iff nothing is |
| UseLocks.ContentChangesOnlyThroughAbsence | config/use.go:130-199 | over any run of requests a key that is never absent never changes content |
| LockDriver.Driver.Acquire | lock/lock.go:164-189 | the goto-retry loop does what Retry says, for every script of clock readings and replies; success leaves the caller's content at the key, for good without a TTL, else until the whole seconds of the TTL have passed since the last attempt |
| LockDriver.Driver.Clear | lock/lock.go:149-162 | the same for the removal loop |
| LockDriver.Driver.ExecuteWithMultiUseLock | lock/lock.go:83-102 | acquires in order, gives up at the first refusal without releasing, runs the body, removes every lock whatever the removals say; others' requests come before each acquire, during it, during the body and before each removal |
| LockDriver.SectionHoldsItsLocks | lock/lock.go:83-102 | the body starts and ends with every lock in place for good; if the removals arrive none of its contents is left afterwards, and none of the keys if nobody else came in between; a refused section leaves the locks it had; given that nobody else uses those contents and the clock is honest |
| LockDriver.ReleaseSpares | lock/lock.go:96-101 | whatever becomes of the removals after a section, they touch no key that holds another content |
| LockDriver.AcquireKeepsOthers | lock/lock.go:86-91 | acquiring the next lock keeps those already held |
| LockDriver.TakenIsLeased | lock/lock.go:164-178 | whatever comes in between, an acquire that succeeds has left its own content at the key with the end that its TTL asks for, and none with a negative TTL succeeds |
| LockDriver.FirstTurnExactly | lock/lock.go:164-178 | an undisturbed first attempt succeeds iff the key is free or holds equal content and the lock is re-entrant, which with a TTL every lock type is |
| LockDriver.TimedOutExactly | lock/lock.go:136-147 | a loop ends with an error only once its clock is at or past the timeout, and goes round again only short of it, or for ever at -1 |
| LockDriver.NilMeansDone | lock/lock.go:136-189 | with an honest clock, nil means that the last publish or removal succeeded: the lock is in place, respectively gone |
| LockDriver.ClockRunsIsHonest | lock/lock.go:136-147 | a clock that never goes back is honest for every timeout |
| LockDriver.NeitherExactly | lock/lock.go:136-147 | lockWait returns (false, nil) iff the first reading is at or past the timeout, or the timeout is zero, and the second reading is short of it |
| LockDriver.BlockedSlips | lock/lock.go:149-189 | with a dishonest clock acquire and clear return nil on every store on which they cannot succeed, leaving it alone |
| LockDriver.SilentExactly | lock/lock.go:149-189 | nil without success is impossible, on all stores and under all interference, iff the readings are honest |
| LockDriver.AbsentNeverCleared | lock/lock.go:149-162 | while the key stays absent clear never succeeds: it tries to its timeout, and without one for ever |
| LockDriver.ClockSetBackLies | lock/lock.go:136-147 | an instance of the above: a clock set back between the two readings makes acquire return nil while another host has the lock |
| LockDriver.AttemptsBounded | lock/lock.go:136-189 | for timeout >= 0 at most ceil(timeout/100ms)+1 attempts, and the loop is over by then |
| Lease.AlwaysSafe | lock/lock.go:108-134 | with parameters that a lease survives the lock holds the caller's content in every reachable state and the lease outlives the next refresh that succeeds |
| Lease.SlowCallsLapse | lock/lock.go:108-134 | with slower calls there is a run in which the lease runs out |
| Lease.TwoFailuresLapse | lock/lock.go:126-130 | with two refreshing calls in a row that give up, however quickly, there is a run in which the lease runs out |
| Lease.OneFailureLapses | lock/lock.go:126-130 | so there is with one, if calls take any time |
| Lease.LeaseContinuityExactly | lock/lock.go:108-134 | the lock is never without the caller's content iff no refreshing call gives up and none takes longer than ttl/4, or calls take no time and no two in a row give up |
| ClusterSafety.OnlyReleaseTakesLock | config/use.go:184-199 | no step of anyone, other than a release of the very same content, moves a job's lock |
| ClusterSafety.StrictNext | lock/lock.go:83-102 | with clocks that are not set back and snapshot keys unforced every step keeps: owned strict locks are in place for good and owned by one job only |
| ClusterSafety.UnsharedNext | lock/lock.go:83-102 | with clocks that are not set back every step keeps: owned locks whose content no other job lists and whose key nobody forces are in place for good |
| ClusterSafety.HostsNext | api/handlers.go:207-397 | every step keeps the host invariant: whoever relies on a mount lock has it, and a lease has a running refresher that nobody has stopped |
| ClusterSafety.BodiesNeverOverlap | apiserver/daemon.go:489-514 | with clocks that are not set back and snapshot keys unforced, two jobs that list one strict lock are never both in their bodies, in any interleaving of etcd requests |
| ClusterSafety.BodyHoldsItsLocks | lock/lock.go:83-102 | with clocks that are not set back, a job has in its body every unforced lock that is strict or whose content is its own |
| ClusterSafety.MountedHoldsLock | api/handlers.go:225-397 | while a volume is mounted on a host the mount key holds exactly (volume, host, Mount) |
| ClusterSafety.MountsAreExclusive | api/handlers.go:225-397 | a locked volume is mounted on at most one host |
| ClusterSafety.BodyExcludesMount | apiserver/daemon.go:751-767 | with clocks that are not set back and mounts exclusive, no body whose mount lock is its own runs while the volume is mounted |
| ClusterNecessity.ForceExposes | config/use.go:184-199 | a forced removal leaves a host mounted without a lock |
| ClusterNecessity.LapseExposes | config/use.go:151-180 | a lapsed lease leaves a host mounted without a lock |
| ClusterNecessity.FailedUndoExposes | api/handlers.go:207-222 | a failed unmount after a failed mount leaves a host mounted without a lock |
| ClusterNecessity.FailedPathExposes | api/handlers.go:306-311 | a mount path that fails after the mount lets the stopped refresher remove the lock before the unmount |
| ClusterNecessity.SlowStopExposes | lock/lock.go:119-124 | a refresher that stops late removes, by content, the lock of its host's next mount |
| ClusterNecessity.MountExclusionExactly | api/handlers.go:207-397 | mount exclusion holds in all runs iff all five assumptions hold |
| Operations.OperationsExclude | apiserver/daemon.go:484-514 | with clocks that are not set back and snapshot keys unforced, operations that name a common volume are never in their bodies together |
| Operations.KeysExactly | apiserver/daemon.go:484-514 | the keys an operation takes: the mount key of the volume it changes and the snapshot key of each volume it names |
| Operations.SameContentExactly | apiserver/daemon.go:484-778 | two operations take the same mount lock content iff they are of one kind, on one machine and change one volume |
| Operations.MountLocksKeepApart | apiserver/daemon.go:638-656 | with clocks that are not set back and mount keys unforced, operations with their own mount locks on one volume are never in their bodies together, whatever happens to snapshot keys |
| Operations.SlipRun | lock/lock.go:83-102 | with clocks set back a job enters its body with no lock at all |
| Operations.ThirdLeaves | apiserver/daemon.go:638-656 | a third operation with the same mount lock content comes, goes and takes the lock with it |
| Operations.OperationsExcludeExactly | apiserver/daemon.go:484-514 | two operations with a common volume never overlap iff no clock is set back and snapshot keys are unforced or unforced mount locks of their own keep them apart |
| Operations.SharedLockRun | apiserver/daemon.go:638-656 | two operations with one mount lock content: the first to leave takes the lock away under the second |
| Operations.BodyExcludesMountExactly | apiserver/daemon.go:714-778 | an operation's body never runs beside a mount of its volume iff mounts are exclusive, no clock is set back and no other operation takes the same mount lock content |
| HostMounts.Counter.AddCount | api/internals/mount/count.go:48-55 | the new count is the old one plus the amount, other counts stay |
| HostMounts.Counter.Sub | api/internals/mount/count.go:59-70 | decrements, and panics iff the result is negative |
| HostMounts.Collection.Add | api/internals/mount/mount.go:29-40 | panics iff the volume is there, and then changes nothing |
| HostMounts.Collection.Remove | api/internals/mount/mount.go:43-48 | the volume, and nothing else, is gone |
| HostMounts.API.AddStopChan | api/api.go:127-131 | records the channel; channels in the table stay distinct and unsignalled |
| HostMounts.API.RemoveStopChan | api/api.go:134-141 | signals the recorded channel once, without blocking, and forgets it |
| HostMounts.API.Mount | api/handlers.go:225-314 | the whole state and the response after a mount request, for every answer of locks and drivers; what the responses mean is in the rows below |
| HostMounts.API.Unmount | api/handlers.go:334-397 | the same for an unmount request |
| HostMounts.CounterIsBalance | api/handlers.go:259-291 | after any requests with any answers the counter is mounts counted minus unmounts counted |
| HostMounts.ServeKeepsRest | api/handlers.go:367-388 | a matched request with working drivers keeps: mounted, counted and collected are one, with one refresher each |
| HostMounts.RunsAreAtRest | api/handlers.go:225-397 | the same after any matched requests, none of which panics |
| HostMounts.CollectedIsStale | api/handlers.go:285-291 | whatever the answers, the collection has a volume iff the last first mount or last unmount that reached it was a mount |
| HostMounts.PanicsExactly | api/internals/mount/mount.go:29-40 | whatever the answers, a request panics iff it is counted at a balance of zero or less and is an unmount, or a mount that the driver performs while the collection has the volume |
| HostMounts.AnswersExactly | api/handlers.go:225-397 | in terms of the log of requests and the world's answers, when a request is answered LockFailed, Duplicate, Failed and Done |
| HostMounts.DoneMeans | api/handlers.go:225-397 | a first mount that is Done leaves the volume mounted, collected and with a channel iff it is locked; a last unmount that is Done leaves none of these |
| HostMounts.RefusedChangesNothing | api/handlers.go:253-256 | a request whose lock is refused changes nothing |
| HostMounts.MountedAfter | api/handlers.go:259-388 | when a volume is mounted after a request, whatever the answers |
| HostMounts.ChannelAfter | api/handlers.go:286-388 | when it has a recorded channel |
| HostMounts.OneRefresherEach | api/handlers.go:316-331 | whatever the answers, a volume with a channel is locked, collected and has exactly one refresher that has not been told to stop, and any other has none |
| HostMounts.PanicFreeExactly | api/internals/mount/count.go:59-70 | with working drivers no request panics iff the unmounts are matched |
| HostMounts.FailedRefreshPanicsLater | api/handlers.go:316-331 | a failing publish of the refresher followed by a failing unmount makes the next mount panic |
| HandlerRefinement.MountRefines | api/handlers.go:225-314 | from any state with the host idle, a run of the cluster serves a mount request with any possible answers, refused publishes and failing mount paths included, and the volume ends as MountSpec says |
| HandlerRefinement.UnmountRefines | api/handlers.go:334-397 | the same for an unmount request |
| HandlerRefinement.HandlerPublishes | api/handlers.go:248-256 | in any state, a handler's one or two requests at a publish, with others' in between, are PublishUse, and it goes on, ends the request or undoes the mount as that answers |
| HandlerRefinement.HandlerClears | api/handlers.go:207-222 | in any state, its requests in clearMount are those of the clear loop, until one succeeds or the loop gives up |
| SectionRuns.SectionRefines | lock/lock.go:83-102 | whatever the clocks, the networks and the other clients do before each step of a job, the cluster has a run in which its section leaves the store and the phase that Execute says with exactly those clients' requests in between |
| JobRefinement.RunTells | lock/lock.go:83-102 | in any run of the cluster, a job is where the retry loops and removals lead it when exactly the other steps' served requests, in order, come in between, for every timeout long enough for the run |
| JobRefinement.RunIsSection | lock/lock.go:83-102 | a job that has finished in any run has been through Execute, and one that is gone with an error was refused as Acquired says, with the run's other requests in between and, if no clock is set back, under a clock that never goes back |
| LeaseInCluster.OutsideKeepsLease | lock/lock.go:108-134 | every step of the rest of the cluster keeps a safe lease safe, if the lease survives its own refreshing calls |
| LeaseInCluster.RefresherPublishes | lock/lock.go:125-129 | the refresher's one or two requests in the cluster do what a publish with a TTL does, with others' requests in between |
| TimedCluster.RuleDerived | lock/lock.go:108-134 | with prompt refreshing calls every step that the clocks allow is one that the rule about leases allows |
| TimedCluster.TimedIsRuled | lock/lock.go:108-134 | every state of the cluster with clocks and prompt refreshing calls is a state of the cluster in which leases hold |
| TimedCluster.TimedMountsAreExclusive | api/handlers.go:207-397 | so a locked volume is mounted on at most one host, under the assumptions that are not about time |
| TimedCluster.PromptNeeded | lock/lock.go:108-134 | with refreshing calls that are slower or give up, two hosts come to have the volume mounted |
| TimedCluster.TimedExclusionExactly | api/handlers.go:207-397 | in the cluster with clocks, mount exclusion holds iff refreshing calls are prompt and the other four assumptions hold |
| EntityPaths.VolumeNamesExactly | db/volume.go:72-101 | SetKey after trimPath of the qualified path recovers a volume's names if the client's prefix does not start with a slash (or is only slashes), and refuses the key otherwise |
| EntityPaths.RuntimeNamesExactly | db/runtime.go:32-72 | the same for runtime options |
| EntityPaths.TrimPathOfKey | db/impl/etcd/client.go:253-255 | what trimPath leaves of a node's key, for every prefix |
| EntityPaths.OwnNamesAgain | db/volume.go:83-86 | handing a volume's names to the runtime options' SetKey fails iff the policy is named like their root |
| EntityPaths.PathsDiffer | db/impl/etcd/client.go:51-53 | different entities have different keys |
| EntityStore.KeysSpelled | db/volume.go:95-101 | the two keys of a volume, spelled out |
| EntityStore.StepKeepsExactly | db/volume.go:103-132 | a step keeps both records well formed and together iff it does not delete a present volume's runtime options |
| EntityStore.RunsAreGood | db/impl/etcd/client.go:91-149 | after any sets and volume deletions, with calls to etcd lost anywhere, every volume record has a runtime record |
| EntityStore.GetExactly | db/impl/etcd/client.go:56-88 | when a volume can be got, and that the result is its record with the latest runtime options rather than the embedded copy |
| EntityStore.GetOutcome | db/impl/etcd/client.go:56-88 | in any store, good or not: a Get that reads its record panics iff it is left without runtime options, else succeeds iff these can be got and the whole is valid, and what it holds then |
| EntityStore.UnreadFails | db/impl/etcd/client.go:56-88 | a Get that finds no record, or none that is JSON, or cannot take the names from its key, fails |
| EntityStore.GetRuntimeOutcome | db/impl/etcd/client.go:56-88 | the same for runtime options, a volume's record under their key included |
| EntityStore.SetKeyExactly | db/volume.go:72-87 | what SetKey of a volume's own key makes of the volume and its runtime options, for every prefix and policy |
| EntityStore.SetExistsExactly | db/volume.go:111-122 | Set answers Exists, leaving the store alone, iff the volume can be got |
| EntityStore.SetVolumeExactly | db/impl/etcd/client.go:91-123 | store, entity and reply of a Set of a valid volume in a good store, for every fate of its four calls, with the two keys and records written out |
| EntityStore.InvalidVolumeFails | db/impl/etcd/client.go:91-94 | an invalid volume is refused and nothing changes |
| EntityStore.SetRuntimeExactly | db/impl/etcd/client.go:91-123 | when runtime options are written, refused or lost |
| EntityStore.UnreadIsOverwritten | db/volume.go:111-122 | a present volume that cannot be read is overwritten |
| EntityStore.SetThenGet | db/impl/etcd/client.go:56-123 | what is set under a new name is got back |
| EntityStore.RuntimeUpdateSeen | db/volume.go:103-109 | new runtime options are seen by the next Get while the volume's record keeps its old copy |
| EntityStore.DeleteLeavesRuntime | db/impl/etcd/client.go:126-149 | deleting a volume leaves its runtime record |
| EntityStore.DeleteVolumeExactly | db/impl/etcd/client.go:126-149 | a deletion fails iff a name or the record is missing or its call is not answered, and removes that one record iff the call arrives |
| EntityStore.DeleteRuntimeOutcome | db/impl/etcd/client.go:126-149 | the same for runtime options |
| EntityRaces.AloneIsSet | db/impl/etcd/client.go:91-123 | the calls of a Set that nobody disturbs do together what SetVolume says |
| EntityRaces.RacesAreGoodExactly | db/volume.go:103-132 | whatever calls come among each other and whichever are lost, every volume record has a runtime record in every state, iff nobody deletes the runtime options of a volume that is there or is set |
| EntityRaces.SetWinsExactly | db/volume.go:111-122 | a Set whose calls are served succeeds iff the volume could not be got at its first call, and reports Exists otherwise, whatever others do since |
| EntityRaces.BothSucceedExactly | db/volume.go:111-122 | two Sets of one name can both succeed iff the volume cannot be got at the start or somebody deletes it |
| EntityStore.CrashExactly | db/impl/etcd/client.go:261-297 | a file brings traverse down iff unmarshalling it leaves the runtime options nil |
| EntityStore.CrashedExactly | db/impl/etcd/client.go:261-297 | the same for a whole tree |
| EntityStore.VisitExactly | db/impl/etcd/client.go:272-296 | in any store, a file under a volume's key is listed iff it is JSON, its names can be taken and the runtime options got, sound or not; and as what |
| EntityStore.LeavesInOrder | db/impl/etcd/client.go:261-270 | the files of a tree are listed in its order, directories aside |
| EntityStore.ListedIsGot | db/impl/etcd/client.go:278-294 | a volume's own file is listed as Get would return it, or skipped when Get would fail |
| EntityStore.ListingIsStored | db/impl/etcd/client.go:261-297 | listing the files of a good store gives its volumes in order with their latest runtime options |
| EntityClient.RuntimeOptions.SetKey | db/runtime.go:32-47 | the object's fields after SetKey are those of the specification |
| EntityClient.Volume.SetKey | db/volume.go:72-87 | the same for a volume and its runtime options, nil included |
| EntityClient.Volume.Copy | db/volume.go:134-147 | an equal volume whose runtime options are its own |
| EntityClient.Client.GetRuntime | db/impl/etcd/client.go:56-88 | Get on runtime options, field by field, with every error path |
| EntityClient.Client.PostGetHook | db/volume.go:103-109 | fetches the runtime options under the volume's names; panics on nil |
| EntityClient.Client.GetVolume | db/impl/etcd/client.go:56-88 | Get on a volume with its post-get hook |
| EntityClient.Client.PreSetHook | db/volume.go:111-122 | refuses what can be read, then writes the runtime record |
| EntityClient.Client.SetVolume | db/impl/etcd/client.go:91-123 | store, entity and reply after Set, for every fate of its four calls |
| EntityClient.Client.SetRuntime | db/impl/etcd/client.go:91-123 | the same for runtime options |
| EntityClient.Client.DeleteVolume | db/impl/etcd/client.go:126-149 | removes the volume's record only |
| EntityClient.Client.Traverse | db/impl/etcd/client.go:261-297 | new entities, in order, for exactly the files of the tree that decode, parse and pass the hook; or a crash iff some file crashes |
| Merge.CastExactly | merge/casts.go:8-62 | a text can be cast to a value of a kind iff the value is in the kind's range (32 bits for plain int and uint) |
| Merge.CastTexts | merge/casts.go:8-62 | which texts are cast to a value: exactly the decimal numerals of it, signs and leading zeros as strconv takes them, the twelve words for bools, and the text itself |
| Merge.NestedIsFlat | merge/merge.go:30-74 | when tags are unique the search through nested structs is a lookup in the flat list of their fields |
| Merge.HitIsTagged | merge/merge.go:58-70 | what setKey sets is a field tagged with the key |
| Merge.FindBasic | merge/merge.go:76-105 | the option of a settable field that ends, through any pointers, in a basic cell puts the cast of its text there, is refused iff the text is not cast, and panics iff it is and the field's type is not the cast's |
| Merge.FindWrites | merge/casts.go:8-62 | so every value of the field's range can be written |
| Merge.FindMisses | merge/merge.go:76-105 | which options are refused whatever their text |
| Merge.SetValueWithType | merge/merge.go:76-105 | one cell or none changes, through pointers, with refusals and reflection's panics; that the cell gets the cast is `Merge.FindBasic` |
| Merge.SetKey | merge/merge.go:30-74 | a hit changes exactly the one cell, anything else changes nothing |
| Merge.Opts | merge/merge.go:14-23 | applies the options in some order up to the first failure; what is then in the cells is in the rows below |
| Merge.SuccessExactly | merge/merge.go:14-23 | all options are set, in whatever order, iff each of them hits |
| Merge.MergedHolds | merge/merge.go:14-23 | after a merge that succeeds, in whatever order, the cell of a field whose option is given holds the cast of that option, unless another option brings another value there |
| Merge.StopsThere | merge/merge.go:14-23 | a merge ends at the first option that is not set, as an error or as a panic, and what came before stays |
| Merge.ApplyIsFinal | merge/merge.go:14-23 | when options agree, the struct after any order is one that is described without an order |
| Merge.OrderOfMisses | merge/merge.go:14-23 | when some option cannot be set, every order ends alike iff all such options end alike and every other writes what its cell holds already |
| Merge.OrderIrrelevantExactly | merge/merge.go:14-23 | every order gives the same status and struct iff all options hit and those that reach the same cell agree, or some miss, all of these end alike and no other changes anything |
| Merge.UnsharedAgree | merge/merge.go:30-74 | without shared cells they always agree |
| NfsOptions.ValidateConvertOptions | storage/backend/nfs/nfs.go:35-66 | the loop builds the map that the parts mean, later ones overriding, or reports the first bad one |
| NfsOptions.ParsePartExactly | storage/backend/nfs/nfs.go:42-63 | a part means an entry iff it is the printed entry with nothing but spaces around it |
| NfsOptions.PartsAccepted | storage/backend/nfs/nfs.go:35-66 | a text is accepted iff each of its parts is |
| NfsOptions.LastPartWins | storage/backend/nfs/nfs.go:55-63 | a key has the value of the last part with that key |
| NfsOptions.MapOptionsToString | storage/backend/nfs/nfs.go:69-80 | prints every option once, in some order; panics iff the map is empty |
| NfsOptions.RoundTrip | storage/backend/nfs/nfs.go:35-80 | for every accepted text and every order, the printed form parses to the same map |
| NfsOptions.AcceptedExactly | storage/backend/nfs/nfs.go:35-66 | which maps are the meaning of some text |
| NfsOptions.MkOpts | storage/backend/nfs/nfs.go:82-168 | when it fails, and that it prints the mapped options after nfsvers=4, addr as spelled and clientaddr as the parsed address is printed |
| NfsOptions.SourceAddress | storage/backend/nfs/nfs.go:96-131 | for a source with a colon: when options are made, and that the address printed is that of the host before it, or of 127.0.0.1 if there is none |
| NfsOptions.OptionAddress | storage/backend/nfs/nfs.go:96-131 | without a colon the address is that of the user's own addr, which must not be blank |
| NfsOptions.MountTextMeans | storage/backend/nfs/nfs.go:82-131 | the printed text parses to version 4 overridden by the options, which are the user's plus the address and never empty |
| TemplateFS.TemplateFSCmd | storage/backend/ceph/util.go:20-46 | the loop that edits the text it scans is a one-pass substitution, and ends |
| TemplateFS.EndsExactly | storage/backend/ceph/util.go:20-46 | the loop ends iff the command has no placeholder or no lone percent sign follows the device's first character |
| TemplateFS.SubstituteJoins | storage/backend/ceph/util.go:20-46 | in a text whose percent signs stand alone each of them becomes the device |
| TemplateFS.DoubledStays | storage/backend/ceph/util.go:20-46 | a doubled one is kept |
| TemplateFS.SubstituteOnce | storage/backend/ceph/util.go:20-46 | no placeholder is left, and templating twice is templating once |
| ImageNames.InternalThenExternal | storage/backend/ceph/ceph.go:94-109 | which names are accepted, and that externalName undoes internalName on them |
| ImageNames.ImagesAreDistinct | storage/backend/ceph/ceph.go:94-109 | distinct accepted volumes have distinct images |
| ImageNames.ExternalThenInternal | storage/backend/ceph/ceph.go:88-90 | internalName undoes externalName iff the image name has a dot and no slash |
| Migrations.Engine.CurrentSchemaVersion | volmigrate/backend/etcd2/etcd2.go:42-58 | zero when there is no version key, else the stored version; the end of the process when it cannot be read |
| Migrations.Engine.UpdateSchemaVersion | volmigrate/backend/etcd2/etcd2.go:109-126 | ends the process when the version cannot be read; fatal iff it can and does not go up; otherwise overwrites what is there by then, unless the write fails |
| Migrations.Registry.RegisterMigration | volmigrate/schema_migrations.go:22-49 | accepts exactly the next version, so versions are 1 to latest |
| Migrations.Run | volmigrate/migration.go:18-32 | the version is updated only after the runner has succeeded |
| Migrations.RunMigrationsUpTo | volmigrate/volmigrate.go:119-151 | the loop does what the specification says with other runners' records before, during and after each check; a call that succeeds has run all that was due at its own reading |
| Migrations.RunOneExactly | volmigrate/migration.go:18-32 | with which verdict one migration of a call ends, and that it leaves the versions that others record before and after the check followed by its own, if it gets there; the last one recorded is what is stored |
| Migrations.RunAllMigrations | volmigrate/volmigrate.go:115-117 | the same up to the latest migration, where a single runner that succeeds ends |
| Migrations.CallBrings | volmigrate/volmigrate.go:119-151 | a single runner's call brings the version to the target, or on failure to some version on the way; it never meets the version check, and ends the process only if a reading of the version fails |
| Migrations.BroughtIs | volmigrate/volmigrate.go:119-151 | bringing the version up stores it and records each version that follows the stored one, from 1 if there is none, once and in order |
| Migrations.FirstRun | volmigrate/volmigrate.go:115-117 | on a store without a version key one undisturbed call runs 1, 2, ..., latest and stores latest |
| Migrations.CallsBring | volmigrate/volmigrate.go:119-151 | after any calls of a single runner with any failures the version has not gone down and each migration passed is recorded once, in order |
| Migrations.Resumes | volmigrate/volmigrate.go:119-151 | a call that succeeds after any failures leaves what one undisturbed call would |
| Migrations.TwoCallsAreOne | volmigrate/volmigrate.go:115-151 | running to a and then to b is running to the greater |
| Migrations.SecondRunnerIsFatal | volmigrate/backend/etcd2/etcd2.go:109-126 | a call that others have overtaken by its first check is stopped there, with that migration run again |
| MigrationRunners.NoneSkipped | volmigrate/volmigrate.go:119-151 | however runners race, the version never falls below the initial one and every migration up to it has been run |
| MigrationRunners.NoneSkippedFromNothing | volmigrate/backend/etcd2/etcd2.go:42-49 | from a store without a version key, every migration from 1 to the stored version has been run in every run |
| MigrationRunners.AllFine | volmigrate/volmigrate.go:119-151 | if all runners succeed, with one goal, the version ends there whatever it has been in between |
| MigrationRunners.FatalIsAnothers | volmigrate/backend/etcd2/etcd2.go:109-126 | a check fails only because of another runner's write |
| MigrationRunners.LowerRun | volmigrate/backend/etcd2/etcd2.go:109-126 | the run in which a runner that has passed its check overwrites the version that another has taken further |
| MigrationRunners.LoweredExactly | volmigrate/backend/etcd2/etcd2.go:109-126 | some run lowers the recorded version iff two runners have something to run, one of them two migrations or more |
| MigrationRunners.CollidesExactly | volmigrate/backend/etcd2/etcd2.go:109-126 | some run meets the fatal check iff two runners have something to run |
| MigrationRunners.RepeatsExactly | volmigrate/volmigrate.go:119-151 | some run has a migration run twice iff two runners have something to run |
| MigrationRunners.RunnerIsCall | volmigrate/volmigrate.go:119-151 | in any run, each runner is where the loop leads it with exactly the other runners' records of that run in between, in order |
| MigrationRunners.EndedIsCall | volmigrate/volmigrate.go:119-151 | so the verdict of a call that has ended is the loop's, and the version is what the loop leaves and others have recorded since |
| Snapshots.Volume.PruneSnapshots | volsupervisor/loop.go:49-104 | removes the oldest entries beyond the number to keep, one by one, skipping failures |
| Snapshots.Volume.CreateThenPrune | volsupervisor/loop.go:172-178 | one pass: a snapshot if the volume is in use, then a prune; that the snapshot is there afterwards is `Snapshots.NewestStays` |
| Snapshots.Volume.Loop | volsupervisor/loop.go:143-183 | any number of passes one after another |
| Snapshots.Volume.Interleave | volsupervisor/loop.go:172-178 | sections of overlapping passes in the order in which they have the snapshot lock |
| Snapshots.NewestStays | volsupervisor/loop.go:106-178 | after a pass in which the volume is used and the snapshot made, its snapshot is the last entry, whatever removals fail |
| Snapshots.NothingNew | volsupervisor/loop.go:172-178 | any other pass leaves nothing that was not there |
| Snapshots.PassIsSections | volsupervisor/loop.go:172-178 | a pass is its two sections with nothing in between |
| Snapshots.SectionsKeepNewest | volsupervisor/loop.go:143-183 | however passes overlap and whatever fails, the newest of those at the start followed by those made, in order, are still there, at the end and in order; exactly those right after a prune whose removals succeed |
| Snapshots.PruneKeepsNewest | volsupervisor/loop.go:93-103 | whatever removals fail, none of the newest is removed; if none fails exactly those are left |
| Snapshots.PruneLeaves | volsupervisor/loop.go:88-103 | a prune leaves, in order, exactly the entries among the newest and those whose removal fails |
| Snapshots.RoundsKeepNewest | volsupervisor/loop.go:172-178 | after any rounds the newest of those at the start followed by those taken in used rounds, in order, are still there, at the end and in order |
| Snapshots.SnapshotWindow | volsupervisor/loop.go:143-183 | the sliding window from the start: the newest are always there, and after a round whose removals do not fail they are all there is iff its prune had its lock or nothing needed to go |
| SnapshotLocks.PruneGetsLockExactly | volsupervisor/loop.go:108-124 | with nobody else at the volume's snapshot key, the prune of a pass gets its lock iff the refresher of its snapshot's lock has removed that by then |
| SnapshotLocks.RefusesItself | volsupervisor/loop.go:172-178 | from any state with a free key, the prune that comes straight after the stop signal is refused and changes nothing |
| GlobalUnits.PublishedUndoesCanonicalExactly | config/global.go:90-117 | Published undoes Canonical iff both fields are within the stated int64 bounds |
| GlobalUnits.CanonicalUndoesPublishedExactly | config/global.go:90-117 | Canonical undoes Published iff the fields are whole units of which fewer than a unit's worth are published |
| GlobalUnits.CanonicalFixedExactly | config/global.go:105-117 | Canonical changes nothing iff each field is zero or at least one unit, overflow in int64 included |
| GlobalUnits.CanonicalTwiceExactly | config/global.go:105-117 | applying Canonical twice is applying it once iff each field is at least one unit, or its product with the unit in int64 is zero or at least one unit |
| GlobalUnits.CanonicalTwice | config/global.go:105-117 | Canonical is idempotent on non-negative values that do not overflow |
| GlobalUnits.CanonicalTwiceFails | config/global.go:105-117 | and is not on a negative field whose product fits, nor on a timeout of 153722868 minutes |
| GlobalUnits.PostedIsShown | config/global.go:53-137 | what is posted is what a reader is shown, the mount path included, what is not set replaced by the defaults |
| GlobalUnits.DefaultsExactly | config/global.go:121-137 | what is not set becomes ten minutes, thirty seconds and /mnt/ceph, and all else stays |

## Left out

- `IsVolumeInUse`'s answer is not modelled as "mounted": a volume locked elsewhere gives a compare failure, so the code decides something else. Its two requests are steps of the cluster.
- `ExecuteWithUseLock`, the single-lock section, is the multi-lock section on one lock without retries.
- Forced removal of volumes and the healing at startup bypass the locks; a forced removal of a key is a step of the cluster that the rules may switch off.
- In `Cluster` a refresher runs without a clock; that its lease does not lapse is a rule there, which `TimedCluster` derives from clocks and drops. In `TimedCluster` only the refreshers of mounts have timers; those of volsupervisor's locks refresh at any time. Clocks agree there: etcd's and every host's are one.
- TimedCluster.TimedExclusionExactly: refreshing calls of all hosts have one TTL and one bound, and either all persist or any may give up; that one failed call can be survived when calls take no time is stated by `Lease` alone.
- HandlerRefinement.MountRefines: is about one request after another on one host; the cluster interleaves the handlers' steps in every way.
- Requests for one volume on one host are taken one at a time; requests of different volumes interleave in the cluster.
- Stopping a refresher and recording its channel are one step each; the goroutine that reads the channel is a step of its own.
- Lease.LeaseContinuityExactly: TTLs are whole seconds, since etcd is sent whole seconds; a TTL below one second is sent as zero, so that its lease is over at once, which `UseLocks.DeadlineOf` has but the refresher's timing is not proved for.
- Cgroups, mount sources, docker's response shapes: not part of the model. Unlocked volumes take no locks and appear in `HostMounts` only.
- `readNetlink`'s scan of the devices is a parameter of `NfsOptions.MkOpts` (found or not); that it gives up on a user's own clientaddr is kept.
- JSON is taken to be lossless; a stored text is one of the two entities' or not JSON at all. A record with fields missing, or of the wrong type, is not modelled, apart from missing or null runtime options.
- Entities whose fields are changed by a read that then fails in unmarshalling are taken to be unchanged.
- etcd's own cleaning of key paths (dots, doubled slashes) and its refusal to put a file below a file are not modelled; names of volumes have neither dots nor slashes, and the prefix is taken as etcd returns it.
- `Volume.Copy` shares the map of driver options with the original although it is called a deep copy; the driver options are part of an immutable value here, so that sharing is not seen.
- `traverse` is modelled for volumes; other entities have no hooks and cannot crash it. Watches, `List` and `ListPrefix` only hand it a tree.
- Texts are sequences of characters; Go's are bytes, which need not be valid UTF-8. The separators are all ASCII.
- A merged field tree that contains itself through pointers is not modelled.
- A number of snapshots to keep of 2^63 or more turns negative in the code's conversion to int and is not modelled.
- Snapshots.SectionsKeepNewest: the snapshot lock is taken to keep the sections of overlapping passes apart; that its lease can run out during a section, whose end then takes away the next section's lock, which has the same content, is not part of that model.
- When volsupervisor takes a snapshot: the loop goes on after a frequency that cannot be parsed, and divides by zero then and for one below a second; only what a pass does is modelled.
- MigrationRunners.LoweredExactly: each runner makes one call, as one process of the command does; that a runner's migration does something to the store besides is not modelled.
- EntityRaces.SetWinsExactly: asks that nobody deletes the runtime options of a volume that is there or is set.
- Snapshots.Volume.PruneSnapshots: snapshot names are taken to be distinct, as the driver's listing gives them.
- TemplateFS.TemplateFSCmd: asks that the loop ends; `TemplateFS.EndsExactly` says for which inputs it does.
- `PublishGlobal` and `WatchGlobal` around the unit conversions, archives, tarballs, the HTTP layer, the command line, the ansible tree.
