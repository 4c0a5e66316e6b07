# Container manager

A Dafny model of the container manager: the guest life cycle, the two worker protocols (repair jobs and
the manager's own mounts), the intrusive lists they are built on, and three self-contained codecs.

Each part exists twice. Classes and methods follow the source statement by statement and change state in
place; their contracts equate the new state with a function of the old one. Lemmas about those functions
state what the system promises, over every run and every behaviour of the surroundings.

- `Host` turns everything outside (liblxc, mount, fork, sockets, the clock) into an arbitrary script of
  answers; a statement for every script is a statement for every behaviour. The clock never runs backwards.
- `MountTable`, `WorkQueue`, `NetIf`, `DelayedMounts`, `Guest`, `Roles` describe the parts of the life
  cycle, `Lifecycle` the state machine over all guests; `GuestSafety`, `LifecycleSafety` and
  `LifecycleProperties` hold the invariant and what follows from it. `GuestOutcomes` and `LifecycleOutcomes` say what
  each operation and event does for a guest, told by the answers of the calls it makes, `LifecycleRuns` what follows from
  that over runs; `LifecycleExamples` are runs; `Container` and `Machine` are the object graph that refines it all.
- `ManagerMount`, `ManagerMountSafety`, `ManagerMountProperties`, `ManagerMountOutcomes` are the mount protocol
  between host and worker thread; `ManagerOperation` is its code.
- `ContainerManager` runs the guests and the manager's own disks side by side, from start-up to the end of the
  event loop; `ManagerMachine` is the object graph that refines it.
- `Ring` refines circular lists to sequences; `DelayedRings` does so for elements that sit on two rings, `RoleRings`
  for the lists of the roles.
- `Uevent`, `CanGateway`, `CmdLine` are the codecs, `CText` the C strings they share, `Options` a datatype.

Some expectations do not hold of the code; each has a concrete input (named first) and an exact condition.

- Elements recovered by the mount worker are never answered, so a job with such an element completes only by
  mistake, and only if it is element 0: `ManagerMountProperties.GivenUpExample`; `ManagerOperation.JobCompletesExactly`.
- An end-of-file is taken for an answer of element 0: `ManagerMountProperties.MistakenForMounted`,
  `RecoveredDiskExit`; `EndOfFileExactly` tells when that is right, `ExitsUnmountedExactly` what it means at the exit.
- A shutdown during a pending launch skips the unmount pass: `ContainerManager.PendingLaunchExit`; `ExitLeaves`.
- An inactive job slot may hold a plugin: `WorkQueue.InactiveWithPluginExample`; `InactivePluginExact`.
- The command-line splitter, whose comment speaks of the first '=', cuts at every one: `CmdLine.TwoEquals`;
  `TakenExactly`.
- A failed read-only bind mount may stay behind: `LifecycleExamples.LeakedMount`; `MountTable.BindExact`, counted
  over runs by `GuestSafety.RootLeaksExactly`.
- During system shutdown a repeated stop request renews the deadline of a guest that drains a worker:
  `LifecycleExamples.DeadlineMoves`; `LifecycleProperties.WorkerDeadlineExactly`.

## Model

| member | source | states |
|---|---|---|
| LifecycleProperties.OneGuestPerRole | src/container-control-exec.c:591-733 | in every state of every execution at most one guest of a role is not disabled, and there is one exactly for the roles that had an active guest at start-up |
| LifecycleProperties.OnlyTakesOver | src/container-control-exec.c:627-658 | a disabled guest comes into service only when another guest of its role goes out of service in the same event, and that one is disabled, without instance and unmounted |
| LifecycleProperties.RepairOnlyUnmounted | src/container-control-exec.c:659-728 | while a repair job runs nothing of the guest is mounted, by its flags and by the mount table, but for one mount per leaked read-only bind mount of its rootfs, in both system states; in run mode the worker status means exactly that a job runs or has ended; a held job has its plugin |
| LifecycleProperties.RunningHasDisks | src/container-control-exec.c:1114-1272 | a running or stopping guest has its rootfs and every non-failover disk mounted; whatever extra disk is flagged is mounted from its configured device, A/B disks and rootfs from the boot side, a failover disk from one of its two, and any other is not mounted; a disabled guest has nothing mounted but the counted leaks of its rootfs |
| LifecycleProperties.ExecutionSame | src/container-control-exec.c:591-849 | no execution changes what a guest was configured with: name, role, timeout, side, devices and kinds of its disks, delayed entries |
| LifecycleProperties.InstanceExactlyWhileLive | src/container-control-exec.c:859-962 | an instance is held exactly while the guest is started, rebooting or shutting down, never a second one; interfaces are assigned only meanwhile |
| LifecycleProperties.DelayedMountsAccounted | src/container-control-exec.c:1402-1506 | while a guest has an instance every delayed entry is pending or was mounted once; the run-time list is the configured list minus the mounted entries, in order |
| LifecycleProperties.DeadlineFixed | src/container-control-exec.c:735-754 | however many events a guest stays stopping for, its deadline stays |
| LifecycleProperties.DeadlineSetOnRequest | src/container-control-exec.c:57-70 | a guest begins to stop only from running, and its deadline lies its own timeout after a clock reading made during that event |
| LifecycleProperties.TimeoutEndsStopping | src/container-control-exec.c:735-754 | the first pass later than the deadline makes a rebooting guest dead and a stopping guest not started; an earlier pass leaves it unchanged |
| LifecycleProperties.StepsKeepActiveRoles | src/container-control-exec.c:591-733 | no run of events changes which roles have an active guest |
| LifecycleProperties.ShutdownEventStops | src/container-control-exec.c:551-577 | the system shutdown event puts every guest into a state allowed during shutdown |
| LifecycleProperties.ShutdownOnlyDrains | src/container-control-exec.c:765-841 | after system shutdown guests are exited, shutting down, draining a worker or disabled, nothing is launched, exited and disabled are final |
| LifecycleProperties.ShutdownDrained | src/container-control-exec.c:820-837 | the first pass later than every stored deadline leaves every guest exited or disabled |
| LifecycleProperties.WorkerDeadlineExactly | src/container-control-exec.c:323-577 | during system shutdown the deadline of a guest that drains a worker is set anew by exactly the shutdown event and the stop commands addressed to it, to its timeout after a clock reading made meanwhile; every other event leaves it |
| LifecycleExamples.DeadlineMoves | src/container-control-exec.c:389-423 | a second shutdown request moves the deadline of a guest that waits for its repair job from 10 to 17 |
| LifecycleProperties.NothingLeftBehind | src/container-control.c:630-643 | cleaning up after any execution, stopped anywhere, leaves no instance, no interface and no mount of a guest, but for one mount per leaked read-only bind mount of its rootfs |
| LifecycleProperties.ExecutionInv | src/container-control-exec.c:591-849 | the joint invariant of records, role lists, disks, queues and instances holds after start-up and after every event |
| LifecycleSafety.StepKeeps | src/container-control-exec.c:591-849 | every event keeps the invariant, and what one event may do to a guest's status, deadline and instance is bounded |
| LifecycleSafety.SwitchKeeps | src/container-control-exec.c:634-658 | handing a role over disables and strips the old guest before the new one is launched, so the role never has two guests in service |
| LifecycleOutcomes.DeadIsLaunched | src/container-control-exec.c:606-625 | behind every event in run mode a dead guest has been launched: it runs exactly when all it needs got mounted and then its creation and its start succeeded, is dead if one of the two failed, and a failed mount queues what RecoverExact says |
| LifecycleOutcomes.RoleHandedOver | src/container-control-exec.c:627-658 | behind every event in run mode a guest that is not started and not its role's active one is disabled, stripped and without instance, and the active one has been launched - and followed up if its own turn comes later in the pass |
| LifecycleOutcomes.JobIsStarted | src/container-control-exec.c:659-702 | behind every event in run mode an active guest that is not started is unmounted and its waiting job runs, or is removed when no thread can be created |
| LifecycleOutcomes.JobIsOver | src/container-control-exec.c:703-728 | behind every event in run mode a guest whose job has completed is dead or not started by the job's flag; one whose job runs waits |
| LifecycleOutcomes.OthersRest | src/container-control-exec.c:601-760 | behind every event in run mode a running guest goes on running and a disabled one that no role comes to stays as it is |
| LifecycleOutcomes.DelayedMountsDue | src/container-control-exec.c:756-760 | behind every event in run mode each pending delayed mount of a running guest is made and off the list exactly when its source exists and the guest takes it |
| LifecycleOutcomes.StopPassOutcome | src/container-control-exec.c:765-841 | behind every event of the system shutdown a guest has exited when its job has completed or its deadline is over, and is left alone until then |
| LifecycleOutcomes.CommandOutcome | src/container-external-interface.c:183-271 | a shutdown or reboot command asks exactly the guests of that name prefix, or the running ones of that role prefix: a running one stops or reboots if liblxc takes the request and is killed if not, one at rest changes by its status alone, all others stay |
| LifecycleOutcomes.CommandAnswered | src/container-external-interface.c:183-271 | such a command is accepted exactly when it reaches a guest |
| LifecycleOutcomes.ShutdownOutcome | src/container-control-exec.c:551-577 | the system shutdown asks every guest, with the outcome per status |
| LifecycleOutcomes.ExitOutcome | src/container-control-exec.c:229-311 | a reported exit makes a running or rebooting guest dead and a stopping one not started, any but a disabled one exited while the system shuts down, and touches no other guest |
| LifecycleOutcomes.NetifOutcome | src/container-control-exec.c:81-222 | when links change a running guest keeps interfaces whose links are listed, loses the others and gets the links of its names that it accepts; other guests stay |
| LifecycleOutcomes.TestOutcome | src/container-external-interface.c:434-524 | the test command queues its job, for the test device, exactly on the first guest of that name, if that is not guest 0, is idle and takes it |
| LifecycleOutcomes.WorkerOutcome | src/container-workqueue.c:350-369 | the end of a worker thread completes the job of its guest with the result, and touches nothing else |
| LifecycleRuns.BootOutcome | src/container-control.c:586-620 | at start-up the active guest of every role is launched and every other one left disabled |
| LifecycleRuns.StaysShutDown | src/container-control-exec.c:323-423 | a guest stopped by a shutdown command in run mode never runs again, whatever happens, until another active guest is chosen or a test job is queued |
| LifecycleRuns.RebootLaunchesAgain | src/container-control-exec.c:229-311 | a rebooting guest is launched again in the pass that its reported exit brings |
| LifecycleRuns.JobBelongs | src/container-control-exec.c:1284-1337 | in every execution a job held for a guest is fsck for one of its fsck disks or mkfs for one of its mkfs disks, on that disk's first device - or, after a test command, the test's |
| GuestSafety.StartSafe | src/container-control-exec.c:900-962 | a launch succeeds exactly when the guest ends up started with all it needs mounted; a failed one leaves no instance |
| GuestOutcomes.StartExact | src/container-control-exec.c:900-962 | a launch ends started exactly when everything needed got mounted and both creation and start succeed, dead if one of these failed, as before if a mount failed; failed starts are counted and forgotten on success |
| GuestOutcomes.MountRootExact | src/container-control-exec.c:1114-1151 | the rootfs is mounted exactly when it was or the calls for its kind succeed; failures are counted |
| GuestOutcomes.MountExtrasExact | src/container-control-exec.c:1162-1272 | extra disks are tried in order up to the first mandatory one that cannot be mounted; those behind it are left alone |
| GuestOutcomes.MountExtraExact | src/container-control-exec.c:1162-1272 | one extra disk is mounted exactly when it was or the calls for its kind succeed, a failover disk having two chances; failures are counted |
| GuestSafety.CleanupSafe | src/container-control-exec.c:1350-1390 | cleaning up releases instance, interfaces, delayed list and every mount, and changes nothing else |
| GuestSafety.RootLeaksExactly | src/container-control-exec.c:1114-1151 | a launch leaves one mount more behind on the rootfs exactly when the bind mount it makes leaks; unmounting leaves exactly those behind |
| LifecycleExamples.LeakedMount | src/cm-utils.c:457-485 | a run in which the remount and the umount that should undo it fail: the rootfs stays mounted with its flag down, also after the final cleanup |
| GuestSafety.RequestShutdownSafe | src/container-control-exec.c:323-423 | a shutdown request keeps the record consistent and sets a deadline only when the guest was running |
| GuestSafety.RequestRebootSafe | src/container-control-exec.c:435-540 | the same for reboot requests, which in shutdown mode turn into shutdown |
| GuestSafety.ExitedSafe | src/container-control-exec.c:229-311 | after a reported exit the record holds no instance and no interface, and a disabled guest stays disabled |
| GuestSafety.IdleActiveSafe | src/container-control-exec.c:659-702 | a worker is started only after everything was unmounted |
| GuestSafety.RecoverSafe | src/container-control-exec.c:1284-1337 | a failed mount schedules at most one repair job, and only into an idle queue |
| GuestOutcomes.RecoverExact | src/container-control-exec.c:1284-1337 | an idle queue gets a job exactly when that of some failed fsck or mkfs disk is taken before a device name is too long, and then that of the first such disk: by its kind, for its first device, with the flag to start the guest again |
| GuestOutcomes.RequestExact | src/container-control-exec.c:323-540 | what a stop request makes of a guest, by its status, the system state and whether liblxc takes it |
| GuestOutcomes.TimeoutExact | src/container-control-exec.c:735-754 | a stopping guest past its deadline is killed, released and dead, not started or exited; any other is left alone |
| GuestOutcomes.IdleActiveExact | src/container-control-exec.c:659-702 | the active guest at rest is unmounted, and its waiting job started, or removed when the thread library answers a negative number |
| Container.ContainerConfig.ContainerStart | src/container-control-exec.c:900-962 | in place, what StartSafe is about: preparation, delayed list, launch, or scheduling of a repair |
| Container.ContainerConfig.ContainerLaunch | src/container-control-exec.c:859-889 | an instance is created and started, or released again with the guest dead |
| Container.ContainerConfig.ContainerTerminate | src/container-control-exec.c:1077-1083 | the instance is given back and interfaces are unassigned |
| Container.ContainerConfig.ContainerCleanup | src/container-control-exec.c:1094-1101 | terminate, drop the delayed list, unmount everything |
| Container.ContainerConfig.ContainerRequestShutdown | src/container-control-exec.c:323-423 | the status, instance, deadline and answer of a shutdown request, per status and system state |
| Container.ContainerConfig.ContainerRequestReboot | src/container-control-exec.c:435-540 | the same for a reboot request |
| Container.ContainerConfig.ContainerExited | src/container-control-exec.c:229-311 | the status a reported exit leads to, per status and system state |
| Container.ContainerConfig.MountRootfs | src/container-control-exec.c:1114-1151 | the rootfs is mounted once, from the boot side, and failures are counted |
| Container.ContainerConfig.MountExtradisks | src/container-control-exec.c:1162-1272 | extra disks are mounted in order until one that is not failover fails |
| Container.ContainerConfig.StartPreprocessRecovery | src/container-control-exec.c:1284-1337 | the first failed fsck or mkfs disk whose job the queue takes gets that job |
| Container.ContainerConfig.CleanupPreprocessBase | src/container-control-exec.c:1350-1390 | mounted disks are unmounted, with the retries the time allows |
| Container.ContainerConfig.SetupDelayedOperation | src/container-control-exec.c:1402-1422 | all configured entries are pending again, none delivered |
| Container.ContainerConfig.DoDelayedOperation | src/container-control-exec.c:1433-1482 | the walk over the pending entries that mounts those that are due and drops them |
| Container.ContainerConfig.NetifUpdateGuest | src/container-control-exec.c:81-159 | the interface assignment of module NetIf, on the record |
| Container.ContainerConfig.IdleActiveGuest | src/container-control-exec.c:659-702 | what an active guest that is not started does in a pass |
| Container.ContainerConfig.TimeoutTest | src/container-control-exec.c:735-754 | a guest past its deadline is killed, terminated and moved on |
| Machine.Containers.constructor | src/container-config.c:326-347 | role lists are bound before anything runs |
| Machine.Containers.AbBootSetup | src/container-control.c:414-458 | every guest's record gets the side the command line tells, and nothing else of it changes |
| Machine.Containers.Handle | src/container-control.c:42-88 | each event does to the guests' object graph exactly one step of the state machine, and keeps the role lists valid |
| Machine.Containers.ExecInternalEvent | src/container-control-exec.c:591-849 | the cyclic pass on the guests - relaunch, switch, workers, timeouts, delayed mounts, or draining - and what it goes on with for the manager's own disks |
| Machine.Containers.RunPass | src/container-control-exec.c:601-760 | the loops of the pass over the guests in run mode, in their order |
| Machine.Containers.StopPass | src/container-control-exec.c:765-841 | the loops of the pass over the guests in shutdown mode; whether all guests were gone |
| Machine.Containers.SwitchContainers | src/container-control-exec.c:634-658 | the not-started guest is disabled and cleaned up, then its role's active guest is enabled and launched |
| Machine.Containers.StopGuests | src/container-external-interface.c:183-271 | every addressed guest gets the request; the command is accepted when one of them takes it |
| Machine.Containers.CommandTest | src/container-external-interface.c:434-524 | the test trigger schedules a repair on one fixed guest, or tries a mount into it while it is started |
| Machine.Containers.StartMachine | src/container-control.c:586-620 | the active guest of every role is launched |
| Machine.Containers.TerminateMachine | src/container-control.c:630-643 | every guest is cleaned up after the event loop |
| Machine.Containers.Execute | src/container-control-exec.c:591-849 | whatever the events, the object graph ends in the state the state machine computes, which satisfies the invariant |
| ContainerManager.ExitExactly | src/container-control-exec.c:765-841 | in whatever execution, once the event loop has ended all guests are exited or disabled without instance, no job of the manager is under way, and each of its disks is mounted exactly when its flag is up - for element 0, while its flag goes back to an end-of-file, exactly when that was right by EndOfFileExactly |
| ContainerManager.ExitsExactly | src/container-control-exec.c:795-818 | the event loop ends exactly at a pass in shutdown mode that finds all guests gone and the manager's operation finished: nothing flagged as mounted or no job to be had, or every open answer in what is read now |
| ContainerManager.ExitLeaves | src/container-control-exec.c:795-818 | which of the manager's disks that pass leaves mounted, told by the flags, the answer read and what was recorded before it |
| ContainerManager.UnmountStarts | src/container-control-exec.c:795-818 | the pass that finds all guests gone and no other job under way starts the unmount job |
| ContainerManager.UnmountedAtExit | src/container-control-exec.c:795-818 | once the unmount job was started, whatever happens, the event loop ends only with every disk of the manager unmounted |
| ContainerManager.BootJobCompletes | src/container-manager.c:126-140 | the mount job of the start-up is over, after its thread's life and a pass for every answer and every element given up, exactly when its first pass kept no element other than element 0 |
| ContainerManager.LoopEnds | src/container-control-exec.c:795-818 | once all guests are gone and the unmount job could be started the event loop does end: after one step of the thread for each element, one for its end and one uninterrupted pass for each answer, with every disk unmounted |
| ContainerManager.NothingLeftBehind | src/container-manager.c:126-150 | wherever the events end, the cleanup after the event loop leaves no instance, no interface and, but for the counted leaks, no mount of a guest |
| ContainerManager.PendingLaunchExit | src/container-control-exec.c:795-818 | a whole run from start-up with one idle guest: shut down while the mount job is pending, the manager leaves with its disk mounted |
| ContainerManager.ExecutionInv | src/container-manager.c:126-146 | guests and the manager's own operation keep their invariants together, from start-up through every event and every step of the worker thread |
| ManagerMachine.Manager.Execute | src/container-manager.c:126-141 | the whole object graph ends in the state the joint state machine computes, which satisfies the joint invariant |
| ManagerMachine.Manager.Run | src/container-manager.c:126-150 | the same followed by the cleanup of every guest, whether or not the event loop was entered |
| ManagerMachine.Manager.Boot | src/container-manager.c:126-140 | guests are launched, then the manager's mount job; without a socket pair the event loop is not entered |
| ManagerMachine.Manager.Handle | src/container-control.c:42-88 | one event and its pass over guests and own disks, or one step of the manager's thread, is one step of the joint state machine |
| ManagerMachine.OwnDisks.TerminateTick | src/container-control-exec.c:795-818 | the unmount job is started, or the job under way followed; the answer says whether the event loop ends |
| ManagerMachine.OwnDisks.Advance | src/container-manager-operations.c:108-407 | one step of the worker thread: an element of a pass, a repair process, the turn to the next pass, or the end |
| Roles.ChangeExact | src/container-external-interface.c:360-407 | accepted exactly when the name is a guest whose role has an active guest, and then that guest is at the head; every list keeps its members; other roles and refused commands change nothing |
| Roles.ChangeKeepsBound | src/container-external-interface.c:360-407 | a change keeps every guest in exactly its own role's list, and the same roles have an active guest |
| Roles.ReorderExact | src/container-external-interface.c:375-400 | one list's reordering is a permutation, never moves a terminator off the head, and succeeds exactly when the guest is listed |
| Roles.BindIsBound | src/container-config.c:39-149 | after binding every guest is in exactly one list, that of its role, once; one terminator per list; role names are distinct |
| Roles.BindShape | src/container-config.c:39-149 | a list is the autoboot guests in reverse order, one terminator, the other guests in order |
| Roles.RolesOrderedByPriority | src/container-config.c:199-218 | with guests sorted by boot priority the role list is ordered by each role's least boot priority |
| Roles.BindOrder | src/container-config.c:39-149 | roles are listed in the order of their first guests |
| Roles.ActiveHasRole | src/container-control-exec.c:973-998 | the active guest of a role exists and is of that role |
| Roles.RoleTable.BindContainers | src/container-config.c:39-149 | the nested loops build the lists BindShape and BindIsBound describe |
| Roles.RoleTable.PlaceContainer | src/container-config.c:60-140 | one guest joins its role's list, or opens a new one with its terminator |
| Roles.RoleTable.GetActiveGuest | src/container-control-exec.c:973-998 | finds the head of the role's list, unless it is the terminator or there is no list |
| Roles.RoleTable.CommandChange | src/container-external-interface.c:360-407 | the look-up of guest and role and the reordering do what ChangeExact promises, with that answer |
| RoleRings.MakeActive | src/container-external-interface.c:375-400 | unlinking and relinking the ring of a role comes to the reordering, keeps the ring closed both ways and its elements, and gives that answer |
| WorkQueue.EveryRunConsistent | src/container-workqueue.c:311-527 | under every interleaving of manager and thread: a held job has its plugin, of the kind and with the arguments it was scheduled with, a job is started at most once, its restart flag reaches the manager exactly once unless the queue is torn down, a thread exists only while started |
| WorkQueue.StepConsistent | src/container-workqueue.c:311-527 | each single action of either side keeps that |
| WorkQueue.StartedKeepsPlugin | src/container-workqueue.c:381-410 | while started the plugin is neither unloaded nor replaced, and only the thread ends the job |
| WorkQueue.InactivePluginExact | src/container-workqueue.c:311-527 | from any slot, an operation leaves a plugin in an inactive slot exactly when a newly loaded plugin refuses its arguments, when it refuses its deletion, or when it was left there before and is not touched |
| WorkQueue.InactiveWithPluginExample | src/container-workqueue.c:498-527 | such a slot exists: set_args fails after loading |
| WorkQueue.SlotOutcome | src/container-workqueue.c:311-527 | when each operation is accepted, and what it leaves, told by the slot and the answers of plugin and thread library |
| WorkQueue.JobRuns | src/container-workqueue.c:311-527 | a job whose calls all succeed: the thread runs the plugin asked for with its arguments, and result and flag reach the manager |
| WorkQueue.Slot.ScheduleJob | src/container-workqueue.c:498-527 | a job is taken only into an inactive slot, with its flag, after loading and arguments succeed |
| WorkQueue.Slot.RunJob | src/container-workqueue.c:381-410 | a scheduled job becomes started, or stays scheduled when thread creation answers a negative number |
| WorkQueue.Slot.CancelJob | src/container-workqueue.c:422-449 | the slot is unchanged; only a started or completed job's plugin is asked |
| WorkQueue.Slot.CleanupJob | src/container-workqueue.c:311-342 | a completed job leaves, its restart flag is reported once, its plugin unloaded |
| WorkQueue.Slot.RemoveJob | src/container-workqueue.c:459-485 | a job that was not started leaves the same way |
| WorkQueue.Slot.DeinitializeSlot | src/container-workqueue.c:596-619 | refused only while started |
| WorkQueue.Slot.ThreadExit | src/container-workqueue.c:350-369 | the thread publishes its result last |
| ManagerMountProperties.EveryTokenOnce | src/container-manager-operations.c:108-666 | in every interleaving each dispatched element is with the worker, given up, or answered and unread, exactly once, and nothing else is; storage is held exactly while some element is dispatched |
| ManagerMountProperties.CompletionTruthful | src/container-manager-operations.c:577-666 | when a poll reports completion nothing is under way and every flag tells whether the disk is mounted; while the flag of element 0 goes back to an end-of-file, its disk is mounted exactly when that was right |
| ManagerMountProperties.CompletesExactly | src/container-manager-operations.c:593-612 | once the worker has ended, polling completes the job exactly when no element other than 0 was given up |
| ManagerMountProperties.EndOfFileExactly | src/container-manager-operations.c:593-612 | an end-of-file is taken for an answer only if an element was given up; it raises the flag of element 0 and touches no other element; the flag is then right exactly when element 0 was given up after its second mount had returned 0, or, if it was not given up, when it was flagged rightly before |
| ManagerMountProperties.GivenUpForever | src/container-manager-operations.c:142-160 | an element other than 0 that was given up blocks completion, launch and terminate for ever |
| ManagerMountProperties.RecoveryAnswersNothing | src/container-manager-operations.c:202-407 | from the end of the first pass on no answer is written and no token leaves the worker |
| ManagerMountProperties.KeptIsLost | src/container-manager-operations.c:382-407 | whatever the host does meanwhile, exactly the elements the first pass kept are never answered |
| ManagerMountProperties.PassPartitions | src/container-manager-operations.c:108-192 | a pass answers each element by exactly one response or keeps it, both in list order |
| ManagerMountProperties.PassTruthful | src/container-manager-operations.c:108-192 | a pass's answers tell what is mounted, and it keeps only file systems to be checked or made whose mount failed |
| ManagerMountOutcomes.PassOutcome | src/container-manager-operations.c:108-192 | in a pass each element's answer, or that it is kept, and its mount point are told by the mount calls from its turn on: a failover element fails exactly when both devices do, a repairable one is kept exactly when its mount fails, an A/B one is answered -1 untouched |
| ManagerMountOutcomes.DispatchOutcome | src/container-manager-operations.c:449-565 | a job is started exactly when none is under way, a socket pair is had and some element is concerned, with exactly the elements concerned, in order |
| ManagerMountOutcomes.PacketOutcome | src/container-manager-operations.c:577-666 | a packet read settles its element: the flag tells the mount, a failed mount is counted, no other element is touched, and storage is given up exactly when none is left open |
| ManagerMountOutcomes.InterruptedOutcome | src/container-manager-operations.c:577-666 | an interrupted or failed read changes nothing |
| ManagerMountProperties.PassIsWork | src/container-manager-operations.c:108-192 | the pass is what the worker's single steps come to |
| ManagerMountProperties.UnmountCompletes | src/container-manager-operations.c:678-794 | whatever happened before, once an unmount job was accepted and has completed, none of the manager's disks is mounted |
| ManagerMountProperties.ExitsUnmountedExactly | src/container-control-exec.c:795-818 | every exit: which disk stays mounted is told by its flag and the answer read last - for element 0, while its flag goes back to an end-of-file, by what EndOfFileExactly says of that |
| ManagerMountProperties.PendingLaunchExit | src/container-control-exec.c:795-818 | a shutdown during a pending launch exits with a disk mounted |
| ManagerMountProperties.MistakenForMounted | src/container-manager-operations.c:593-612 | a disk that never could be mounted is flagged as mounted after an end-of-file |
| ManagerMountProperties.RecoveredDiskExit | src/container-manager-operations.c:593-612 | a disk mounted only after its file system was checked: a shutdown exits with it mounted |
| ManagerMountProperties.GivenUpExample | src/container-manager-operations.c:142-160 | a recovered element 1 is given up, and no later actions end the job |
| ManagerMountSafety.StepKeeps | src/container-manager-operations.c:108-794 | every step of host or worker keeps conservation and truthfulness together |
| ManagerMountSafety.WorkKeeps | src/container-manager-operations.c:108-407 | the worker's steps: first pass, recovery, retake, end |
| ManagerMountSafety.PollKeeps | src/container-manager-operations.c:577-666 | reading an answer, nothing, an error, or end-of-file |
| ManagerMountSafety.DispatchKeeps | src/container-manager-operations.c:449-565 | copying, marking and starting, or refusing |
| ManagerOperation.LifeAnswersFirstPass | src/container-manager-operations.c:382-407 | all a worker ever answers is its first pass's answers; together with what that pass kept they are the whole list, in order |
| ManagerOperation.LifeIsWork | src/container-manager-operations.c:382-407 | the thread's whole code - pass, recovery, second pass, end - comes to the worker's single steps: same answers, same mount table, and the elements whose second mount returned 0 |
| ManagerOperation.JobCompletesExactly | src/container-manager-operations.c:449-666 | a job that was started and is read without interruption completes exactly when its first pass keeps no element other than element 0 |
| ManagerOperation.WorkerThread.MountOperation | src/container-manager-operations.c:108-192 | the list walk with deletion leaves the kept elements, writes the answers, and returns -1 exactly when something was kept |
| ManagerOperation.WorkerThread.Exec | src/container-manager-operations.c:202-374 | elements whose repair process could not be forked are removed unanswered |
| ManagerOperation.WorkerThread.Run | src/container-manager-operations.c:382-407 | the thread's life ends with an empty list and a closed socket |
| ManagerOperation.ManagerHost.DelayedLaunch | src/container-manager-operations.c:449-565 | the elements not mounted are copied, marked and handed to a new worker, unless a job is under way or no socket pair is had |
| ManagerOperation.ManagerHost.DelayedTerminate | src/container-manager-operations.c:678-794 | the same for the mounted elements |
| ManagerOperation.ManagerHost.DelayedPoll | src/container-manager-operations.c:577-666 | at most one packet is taken, the element it names updated, and the job closed when all are answered |
| MountTable.MountOneExact | src/cm-utils.c:401-444 | on a clean mount point either exactly the device is mounted and success reported, or nothing is |
| MountTable.MountOneVisible | src/cm-utils.c:339-386 | whatever was mounted before, success leaves the device visible and at most one mount more |
| MountTable.MountOneOutcome | src/cm-utils.c:401-444 | over whatever is mounted there: success at once, or after detaching a mount in the way, which is tried exactly when the first call is busy and something is mounted |
| MountTable.FailoverExact | src/cm-utils.c:275-323 | the result names the device that is mounted; the second is used exactly when the first failed |
| MountTable.BindExact | src/cm-utils.c:457-485 | a bind mount succeeds exactly when the mount and, if wanted, the read-only remount do; a failed one leaves the mount point as it was except when the remount fails and the clean-up umount is busy |
| MountTable.UnmountExact | src/cm-utils.c:497-542 | the visible mount is gone afterwards, however often umount was busy |
| MountTable.MountDiskFailover | src/cm-utils.c:275-323 | the device loop, with the mount table it leaves |
| MountTable.MountDiskAb | src/cm-utils.c:339-386 | mounts the side asked for; other sides are refused without a call |
| MountTable.MountDiskBind | src/cm-utils.c:457-485 | bind, remount read-only, undo |
| MountTable.UnmountDiskLoop | src/cm-utils.c:497-542 | the retry loop and the lazy unmount |
| NetIf.ReceivedRefinesMap | src/net-util.c:163-203 | each message does to the link list what it does to a map from index to latest name - names on the blacklist nothing - and no index is listed twice |
| LifecycleProperties.LinksRefineMessages | src/net-util.c:163-203 | in every execution the link list is the map all messages so far add up to, with no index twice |
| NetIf.LinkTable.DataCb | src/net-util.c:163-203 | one message removes the index's entry and prepends the new one |
| NetIf.AssignExact | src/container-control-exec.c:81-159 | after an update every assigned index is a listed link's, an earlier assignment stays exactly while its link is listed, a new one goes to a link of that name |
| NetIf.AssignedExactly | src/container-control-exec.c:81-159 | an interface without a link gets one in an update exactly when a listed link of its name is tried and accepted |
| DelayedMounts.DeliverAccounted | src/container-control-exec.c:1433-1482 | a walk mounts each entry at most once and drops only what it mounted or what is not a delayed entry |
| DelayedMounts.DeliverOutcome | src/container-control-exec.c:1433-1482 | the turn of each pending entry comes once in a walk: it is mounted and leaves exactly when its source exists and the guest takes it; an entry of another type just leaves |
| DelayedMounts.RuntimeIsInitialMinusDelivered | src/container-control-exec.c:1402-1506 | the pending list is determined by what was mounted: the configured list without it |
| DelayedRings.DelayedOperation.Setup | src/container-control-exec.c:1402-1422 | re-initialising links that still point into an old ring makes the whole configuration pending, in order |
| DelayedRings.DelayedOperation.Do | src/container-control-exec.c:1433-1482 | deleting from the ring while walking it does what the walk over a list of positions does |
| DelayedRings.DelayedOperation.Cleanup | src/container-control-exec.c:1492-1506 | resetting only the head empties the list |
| Ring.Init | 3rdparty/wpa-supplicant/list.h:22-26 | a node alone is an empty list |
| Ring.Add | 3rdparty/wpa-supplicant/list.h:28-34 | the item comes right behind the given node; the ring stays closed in both directions |
| Ring.AddTail | 3rdparty/wpa-supplicant/list.h:36-39 | the item comes last |
| Ring.Del | 3rdparty/wpa-supplicant/list.h:41-47 | the item is gone, its links are null, the rest keeps its order |
| Ring.Empty | 3rdparty/wpa-supplicant/list.h:49-52 | empty exactly when only the head is on the ring |
| Ring.Len | 3rdparty/wpa-supplicant/list.h:54-61 | the number of elements |
| Ring.ForEachSafe | 3rdparty/wpa-supplicant/list.h:83-87 | deleting the current element while walking visits every element once, in order, and leaves exactly the others, in order |
| Ring.KeepExact | 3rdparty/wpa-supplicant/list.h:83-87 | what such a walk leaves is exactly what was not to be deleted |
| Ring.KeepTwice | 3rdparty/wpa-supplicant/list.h:83-87 | two deleting walks leave what one walk deleting both leaves |
| Uevent.CreateInjectionMessage | src/device-control-dynamic-udev.c:265-335 | succeeds exactly when every device name is under /dev/ and header and parts with their NULs fit into 2047 characters; the used part is then the header and the parts; the last character is never written; a failure leaves the used length alone |
| Uevent.MessageRoundTrip | src/device-control-dynamic-udev.c:265-335 | cutting the used characters at NUL gives back action, path and the properties passed on, in order |
| Uevent.RefusedExact | src/device-control-dynamic-udev.c:239-252 | nothing is passed on exactly when some device name is not under /dev/ |
| Uevent.AllPassedExact | src/device-control-dynamic-udev.c:295-312 | all properties but SEQNUM are passed on, device names without their directory, and nothing else |
| Uevent.Append | src/device-control-dynamic-udev.c:282-325 | a part goes in exactly when it fits with its NUL, behind what is there |
| CanGateway.ListingRoundTrip | 3rdparty/libsocketcangw/libsocketcangw.c:201-301 | any number of written rules closed by a DONE header parse to the same rules in order: interfaces, echo only if wanted, filter with the invert bit cleared |
| CanGateway.PartialListing | 3rdparty/libsocketcangw/libsocketcangw.c:201-301 | a buffer that ends between two messages yields its rules and asks for more |
| CanGateway.ListingBrokenOff | 3rdparty/libsocketcangw/libsocketcangw.c:201-301 | rules followed by an error message or a message of another family: the rules so far and -1 |
| CanGateway.ListingCut | 3rdparty/libsocketcangw/libsocketcangw.c:201-301 | rules followed by a message that is cut or says an impossible length: the rules so far and 0 |
| CanGateway.MessagesRoundTrip | 3rdparty/libsocketcangw/libsocketcangw.c:201-301 | written rules in front of any bytes parse to those rules followed by what the bytes parse to |
| CanGateway.RuleReads | 3rdparty/libsocketcangw/libsocketcangw.c:201-353 | one written message reads back as its rule, whatever follows it |
| CanGateway.ClearInvertExact | 3rdparty/libsocketcangw/libsocketcangw.c:272-280 | only bit 29 of the filter is cleared |
| CanGateway.Request.constructor | 3rdparty/libsocketcangw/libsocketcangw.c:313-326 | an initialised request is a message without attributes |
| CanGateway.Request.AddAttr | 3rdparty/libsocketcangw/libsocketcangw.c:40-56 | an attribute that fits joins the message behind the others, one that does not leaves it alone |
| CanGateway.OperateRuleOptions | 3rdparty/libsocketcangw/libsocketcangw.c:337-353 | echo is raised exactly when the option is set and echo is 1; the filter is added exactly when its option is set |
| CanGateway.RuleRequest | 3rdparty/libsocketcangw/libsocketcangw.c:366-398 | a rule without one of its interfaces is refused, any other becomes its message |
| CanGateway.RequestLayout | 3rdparty/libsocketcangw/libsocketcangw.c:366-398 | where the kernel finds length, kind, flags, both interfaces and the filter in a written request |
| CanGateway.RuleTable.Push | 3rdparty/libsocketcangw/libsocketcangw.c:131-166 | the growing array's contents gain the rule at the end |
| CanGateway.ParseListingData | 3rdparty/libsocketcangw/libsocketcangw.c:201-301 | the pointer walk over the buffer appends the rules the listing holds and returns why it ended |
| CmdLine.CreateArgumentList | src/proc-util.c:125-190 | the elements point, inside the overwritten buffer, to the arguments of the line as it was |
| CmdLine.TakenExactly | src/proc-util.c:151-171 | a word is taken as meant - name, and the text behind the first '=' - exactly when it has at most one '=' |
| CmdLine.TwoEquals | src/proc-util.c:151-171 | "a=b=c" gives a the value c |
| CmdLine.ArgumentsRoundTrip | src/proc-util.c:125-190 | any number of plain arguments written with blanks between are read back in order, whatever follows the end of line |
| CmdLine.WordsRoundTrip | src/proc-util.c:125-190 | any words with blanks between are cut apart in order, whatever they hold and whatever follows the end of line |
| CmdLine.GetValue | src/proc-util.c:281-326 | the first argument of that name that has a value decides: its number, a conversion error, or not found; with ERANGE left in errno the limits of the range are conversion errors |
| CmdLine.AbBootSide | src/container-control.c:414-438 | the buffer of the command line yields the side that SideExact describes, whatever errno was left |
| CmdLine.NamesSideExact | src/proc-util.c:281-326 | a word answers a lookup of the side exactly when it starts with the key and '=' and more follows |
| CmdLine.SideExact | src/container-control.c:414-458 | any command line boots side 1 exactly when its first word that speaks of aglabboot takes the number 1; other words do not matter, and without such a word it is side 0 |

## Left out

- JSON parsing: field-by-field copying; a well-formed configuration is the input, with guests already sorted by boot priority.
- LXC configuration items, cgroups, device nodes, setns children, sockets and sd-event: foreign calls; create, start, stop and mount calls answer from the script.
- The fsck, mkfs and erase plugins: a job runs and returns a result.
- Memory exhaustion and failing clock reads: malloc, strdup and clock_gettime succeed.
- Mount points are distinct and nothing else mounts on them; a lazy unmount succeeds when something is mounted.
- MountTable.UnmountExact: umount of a mounted point succeeds or is busy; another error, after which the source lowers the flag of a disk that stays mounted, is excluded here and in all that rests on it (NothingLeftBehind, UnmountCompletes, UnmountedAtExit).
- The force-reboot command: it kills a foreign process and changes no record; its effect arrives as a guest exit.
- Replies of the external interface other than those to change commands, and the guest-info query: status conversion tables.
- Dynamic device requests to a guest and the rule that picks the guest for a uevent: table lookups.
- Lifecycle.WorkerEnds: the end of a worker thread is one event between manager operations; WorkQueue has the interleaving of its single steps.
- Roles.RoleTable.CommandChange: reorders a sequence of members; RoleRings.MakeActive relinks the ring of one role.
- Machine.Containers.constructor: takes the guests in the order that scanning and sorting the configuration gave; any order is allowed.
- ContainerManager.Step: guests and own disks get their answers and clock readings from two scripts, so no statement compares their times.
- Container.ContainerConfig.DoDelayedOperation: walks a list of positions; DelayedRings.DelayedOperation.Do walks the two rings.
- ManagerMount.Work: writes to the socket succeed, and pthread_create never answers a negative number, so its roll-back is not part of this model; a worker that is not scheduled covers a thread that was not created.
- Adding a started guest to the exit monitor and the notification after a launch: the notification arrives as an interface event.
- ManagerMount.Poll: every answer has full packet size.
- CanGateway.Parse: bytes behind the received data read as zero.
- No statement is made that a dead guest's repair job is ever run or that a guest without repair job is retried: the code does neither in general.
