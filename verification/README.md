# PM_Tiny: a verified model of its supervisor core

PM_Tiny is a process supervisor: a daemon that starts programs in dependency order, restarts and
stops them, keeps their configuration on disk, and talks to a command line client and to the
programs themselves. This project models the parts whose correctness is hardest to see from the
code, and proves what they are for.

- **Saving the configuration** (`SaveDisk`, `SaveTransaction`). The configuration file and the
  environ directory are swapped together under a journal. The file system is a class whose every
  system call may be refused and before whose every step the process may stop for good; a stopped
  process changes nothing more, so a method's promise about the disk holds at every crash point.
  `Logical` is the pair of objects a disk stands for. Every step of a save and of a recovery keeps it,
  except the one that writes the `new_installed` journal and, on a first save whose new objects resist
  deletion, the one that drops the journal of a rollback.
- **Dependencies** (`DependencyGraph`, `CycleSearch`, `GraphBuild`, `ProgramOrder`). Kahn's loop
  over a min-heap yields the lexicographically smallest topological order; if it stalls, the
  depth-first search names a cycle.
- **The startup runtime** (`RuntimeSpec`, `DependencyRuntime`, `BootRuns`, `SupervisedRuns`,
  `DaemonRuns`, `ServerAdd`). `RuntimeSpec` says what each operation does over the whole graph at
  once; the methods of `DependencyRuntime`, with the loops and recursions of the original, are proved
  against it; three kinds of runs are then studied on the specification: boots (everything is
  requested, each start is reported once), supervised runs (programs may be asked for again) and
  daemon runs (any operation on any node, migration and rebuilding included).
- **The wire protocol and the session** (`Bytes`, `ProtocolV3`, `Session`, `FieldCodec`,
  `StartRequest`, `LogFrames`). Framing, the incremental decoder and the bounded send queue compose
  into an end-to-end statement about two sessions joined by a byte stream; the start-request codec
  is a two-sided inverse.
- **The SDK client** (`SdkClient`). Application threads and the worker are interleaved critical
  sections; statements are about all event sequences.
- **Stateful algorithms** (`LogTail`, `RestartPolicy`, `AnsiStripper`, `Lifecycle`, `Termination`).
  A ring buffer, a sliding-window restart limiter, a streaming filter, a timer planner and a
  generation-tagged termination machine, each against a specification over its whole history.

`dafny verify dfyconfig.toml` checks the project.

## Where the code falls short of what one would expect

- **Rolling back a first save.** `restore_backup` (src/daemon/prog_cfg.cpp:146-156) reports success
  for an object that did not exist before the save even if deleting the new one failed, and the
  journal is then dropped. `SaveTransaction.FirstSaveMixesPair` is such a run, with the new
  configuration left beside the old environ directory; `SaveTransaction.Recover` and
  `SaveTransaction.Restarts` say exactly when it happens.
- **Lists in start requests.** The writer admits lists of up to 2^31 - 1 strings, the reader 100000.
  `StartRequest.ReadOfAppend` states exactly which written requests are read back;
  `StartRequest.OneArgumentTooMany` is one that is not.
- **Messages of type 2.** str_to_frames marks continued frames with type 2; a message that itself had
  that type would be merged into the next one. `LogFrames.StreamRestored` is an if-and-only-if. The
  daemon passes types 0 and 1 only (src/daemon/prog.cpp:63, 184, 223 and
  src/daemon/pm_tiny_funcs.cpp:729), so this is a property of the function, not of the running program.
- **Closing the SDK client.** `close` takes the pending flags back, after which flush succeeds
  whatever was sent (`SdkClient.CloseForgets`). `SdkClient.CloseLosesNothingIff` says exactly which
  closed runs lose nothing; flushing before closing is enough (`SdkClient.FlushThenClose`).

## Model

| member | source | states |
|---|---|---|
| `SaveTransaction.SaveThenRestarts` | src/daemon/prog_cfg.cpp:146-388 | Crash atomicity over whole runs: a save that stops or is refused at any step, any number of starts whose recoveries stop anywhere, then a start that completes, leave exactly the new pair if the `new_installed` journal was put in place (the disk keeps a record of that) and exactly the old pair otherwise. The only exception is an object that did not exist before and that the save had installed when it stopped: it stays if and only if it resists deletion, and every possible outcome is listed. An absent environ directory may come back empty because the daemon creates it at start. Without failures the save commits and every start succeeds |
| `SaveTransaction.Restarts` | src/daemon/prog_cfg.cpp:185-228 | Any number of starts. Whether or not one completes, the disk stands for the pair as long as the journal is there; once one has, it is told from the disk as the stopped process left it which objects are those the disk stood for (if and only if, where it is known what resists deletion) and what else can be there |
| `SaveTransaction.Live` | src/daemon/prog_cfg.cpp:256-388 | Saves and starts in any order, each stopping or refused anywhere: the disk always stands for the pair recorded by the last `new_installed` journal, the records are the pairs of the committed saves in order, every successful save is among them, and a successful act has that pair installed. For disks on which both objects exist at the beginning, or only a stop prevents deletions |
| `SaveTransaction.FirstSaveMixesPair` | src/daemon/prog_cfg.cpp:207-222 | The failing input: the disk as a first save leaves it that stopped between its two installing renames, with a new configuration that resists deletion; the next start reports success and leaves new configuration and old environ directory side by side |
| `SaveTransaction.Save` | src/daemon/prog_cfg.cpp:256-388 | Wherever it stops, the disk stands for the new pair if this save put a `new_installed` journal in place, which is recorded with exactly that pair, and for the old pair otherwise. Starting without a journal, that is the case if and only if the save succeeds or leaves such a journal behind; with no journal left, if and only if it succeeds. A successful save whose deletions were not refused leaves no temporary, backup or journal |
| `SaveTransaction.Recover` | src/daemon/prog_cfg.cpp:185-228 | Every stopped or refused recovery keeps the pair the disk stands for. Where it is known what resists deletion, each object of the pair is lost if and only if the journal goes while that object resists and was not there before the save; without stops, success and both outcomes are told exactly from the disk beforehand. A damaged journal is refused without touching anything; a completed recovery leaves no temporary or backup behind |
| `SaveTransaction.DroppingJournal` | src/daemon/prog_cfg.cpp:207-222 | With no backups left, removing the journal keeps the pair if and only if no object that did not exist before the save is still there |
| `SaveTransaction.RollBack` | src/daemon/prog_cfg.cpp:207-227 | The rollback branch: the same equivalences, success exactly unless the new environ directory can neither be deleted nor replaced, and what can be left of an object that should not be there |
| `SaveTransaction.RecoverCommitted` | src/daemon/prog_cfg.cpp:200-206 | The committed branch changes neither installed object, however far it gets |
| `SaveTransaction.FinishRecovery` | src/daemon/prog_cfg.cpp:213-227 | The journal goes only after everything was restored; objects and backups are untouched |
| `SaveTransaction.RestoreCfg` | src/daemon/prog_cfg.cpp:146-156 | restore_backup on the file: what a rollback would yield is the same before and after, at every stop; success consumes the backup |
| `SaveTransaction.RestoreEnv` | src/daemon/prog_cfg.cpp:146-156 | restore_backup on the directory, including deletions that stop half way through the entries |
| `SaveTransaction.Stage` | src/daemon/prog_cfg.cpp:288-345 | Staging never touches the installed pair; on success the temporary file and directory hold exactly the new contents |
| `SaveTransaction.StageEntries` | src/daemon/prog_cfg.cpp:295-319 | The stage directory ends up with exactly the environ files of the programs |
| `SaveTransaction.EnvFilesHold` | src/daemon/prog_cfg.cpp:263-303 | Every program's file holds that program's environment; of two programs of the same name, the later one's |
| `SaveTransaction.EnvFilesOnly` | src/daemon/prog_cfg.cpp:295-296 | The directory holds no other files |
| `SaveTransaction.StageCfg` | src/daemon/prog_cfg.cpp:320-345 | Only the temporary file is written; on success it holds the new configuration |
| `SaveTransaction.Install` | src/daemon/prog_cfg.cpp:346-387 | The swap: before the `new_installed` journal the disk stands for the old pair, afterwards for the new one, wherever it stops; the journal is recorded exactly then; without failures it succeeds |
| `SaveTransaction.SwapIn` | src/daemon/prog_cfg.cpp:351-378 | Everything before the commit keeps the old pair and records no commit; on success the new objects are installed |
| `SaveTransaction.Commit` | src/daemon/prog_cfg.cpp:379-387 | Either nothing has changed or the commit is recorded with what is installed, which stays |
| `SaveTransaction.MoveOldAway` | src/daemon/prog_cfg.cpp:353-363 | After any stop or refusal the old objects can still be restored |
| `SaveTransaction.MoveNewIn` | src/daemon/prog_cfg.cpp:368-377 | Installing, and undoing a failed installation, keep both originals restorable; on success the staged objects are installed |
| `SaveTransaction.CleanUp` | src/daemon/prog_cfg.cpp:382-387 | Removing backups and journal does not change the installed pair |
| `SaveTransaction.Startup` | src/daemon/pm_tiny.cpp:775-786 | Creating an empty environ directory before recovering does not disturb a pending rollback or commit; the equivalence of Recover carries over |
| `SaveDisk.Disk.RemoveFlatDirectory` | src/daemon/prog_cfg.cpp:48-58 | Entry by entry removal that may stop or be refused anywhere: only that directory changes, and what is left of it is part of what it was |
| `SaveDisk.Disk.WriteJournal` | src/daemon/prog_cfg.cpp:79-106 | The journal is the old or the new one, never a torn one, and a commit is recorded exactly when a `new_installed` journal is put in place |
| `GraphBuild.Build` | src/core/dependency_graph.cpp:28-113 | Succeeds if and only if names are non-empty and unique, dependencies known, unique and not the program itself, and no chain of dependencies leads back to its start; then the order is greedy topological; otherwise the first fault in source order is reported, or a cycle that is closed, repeats nothing else and follows real dependencies |
| `GraphBuild.IndexNames` | src/core/dependency_graph.cpp:33-45 | Accepts exactly non-empty distinct names; otherwise reports the first fault |
| `GraphBuild.ResolveDependencies` | src/core/dependency_graph.cpp:47-73 | Accepts exactly well-formed dependency lists, resolves each entry, and builds the reversed edges; otherwise reports the first fault |
| `GraphBuild.ResolveNode` | src/core/dependency_graph.cpp:51-72 | The same for one program |
| `GraphBuild.NameFaultMeans` | src/core/dependency_graph.cpp:34-43 | What the two name error codes say about the configuration |
| `GraphBuild.DependencyFaultMeans` | src/core/dependency_graph.cpp:51-68 | What the three dependency error codes say about the configuration |
| `GraphBuild.Kahn` | src/core/dependency_graph.cpp:75-84 | What is placed is distinct, has its dependencies before it, is the smallest choice at every point, and nothing more could be placed |
| `GraphBuild.Release` | src/core/dependency_graph.cpp:80-83 | Decrementing indegrees keeps the heap equal to the set of available nodes |
| `GraphBuild.GraphUnique` | src/core/dependency_graph.cpp:28-113 | The configurations determine names, edges, reversed edges and order |
| `GraphBuild.NodeCycleNamed` | src/core/dependency_graph.cpp:93-97 | A cycle of nodes is a cycle of the configured names |
| `GraphBuild.NameCycleFound` | src/core/dependency_graph.cpp:85-110 | A cycle of names is a closed walk of nodes |
| `GraphBuild.Find` | src/core/dependency_graph.cpp:115-118 | Finds the node of a name, or nothing if there is none |
| `GraphBuild.Reverse` | src/core/dependency_graph.cpp:120-122 | The list backwards, element by element |
| `GraphBuild.StopsDependentsFirst` | src/daemon/pm_tiny_server.cpp:854-866 | The shutdown order asks every program exactly once, and every dependent before its dependencies |
| `DependencyGraph.GreedyIsSmallest` | src/core/dependency_graph.cpp:75-84 | A greedy topological order is lexicographically at most any other topological order |
| `DependencyGraph.GreedyIsUnique` | src/core/dependency_graph.cpp:75-84 | There is only one such order |
| `DependencyGraph.OrderedIsAcyclic` | src/core/dependency_graph.cpp:85-110 | A graph with a topological order has no closed walk |
| `DependencyGraph.StalledHasNoOrder` | src/core/dependency_graph.cpp:85-110 | A node left over by a stalled loop is in no arrangement that has dependencies first |
| `CycleSearch.FindCycle` | src/core/dependency_graph.cpp:86-107 | Once the loop has stalled the depth-first search always returns a cycle |
| `CycleSearch.Visit` | src/core/dependency_graph.cpp:88-103 | A visit returns a simple cycle of real edges, or finishes the node after everything beneath it |
| `DependencyRuntime.TransitiveDependents` | src/core/dependency_graph.cpp:124-147 | Exactly the nodes that depend on the given one, in topological order |
| `DependencyRuntime.VisitDependents` | src/core/dependency_graph.cpp:131-139 | One step of the breadth-first search keeps the explored region closed up to the queue |
| `DependencyRuntime.RequestDependencies` | src/core/dependency_graph.cpp:157-166 | Marks exactly what is reachable through nodes that are unrequested, failed or blocked, each once |
| `DependencyRuntime.DependenciesReady` | src/core/dependency_graph.cpp:184-189 | True exactly when all direct dependencies are ready |
| `DependencyRuntime.StartableStates` | src/core/dependency_graph.cpp:191-200 | Starting nodes one by one in topological order equals starting all startable nodes at once |
| `DependencyRuntime.BlockDependents` | src/core/dependency_graph.cpp:229-233 | The loop blocks exactly the requested, not ready dependents and reports the newly blocked in topological order |
| `DependencyRuntime.Holders` | src/core/dependency_graph.cpp:271-280 | The recursive search finds only failed nodes reached through blocked ones, and leaves nothing unexplored |
| `DependencyRuntime.DependencyRuntime.Reset` | src/core/dependency_graph.cpp:151-155 | Every node idle and unrequested |
| `DependencyRuntime.DependencyRuntime.CollectStartable` | src/core/dependency_graph.cpp:191-200 | Exactly the requested pending nodes with ready dependencies start, judged on the states before the call, and are emitted in topological order |
| `DependencyRuntime.DependencyRuntime.RequestAll` | src/core/dependency_graph.cpp:168-175 | Everything is requested, idle and blocked nodes wait, and exactly the startable ones are started and emitted in topological order |
| `DependencyRuntime.DependencyRuntime.RequestClosure` | src/core/dependency_graph.cpp:177-182 | Requests exactly what is open beneath the node, in terms of reachability through open nodes; unknown names change nothing |
| `DependencyRuntime.DependencyRuntime.MarkReady` | src/core/dependency_graph.cpp:202-220 | The in-place loop over the dependents computes the recursively specified unblocking; it relies on visiting them in topological order |
| `DependencyRuntime.DependencyRuntime.MarkFailed` | src/core/dependency_graph.cpp:222-235 | Blocks exactly the requested, not ready transitive dependents and reports the newly blocked ones in order |
| `DependencyRuntime.DependencyRuntime.MarkStarting` | src/core/dependency_graph.cpp:237-243 | Changes that one node; unknown names change nothing |
| `DependencyRuntime.DependencyRuntime.MarkIdle` | src/core/dependency_graph.cpp:245-251 | Changes that one node; unknown names change nothing |
| `DependencyRuntime.DependencyRuntime.AllTerminal` | src/core/dependency_graph.cpp:309-315 | True exactly when no requested node is pending or starting |
| `DependencyRuntime.DependencyRuntime.BlockedBy` | src/core/dependency_graph.cpp:266-286 | The failed nodes reached through blocked dependencies only, each once and in id order |
| `DependencyRuntime.DependencyRuntime.TakeSnapshot` | src/core/dependency_graph.cpp:317-325 | Name, state and requested flag of every node |
| `DependencyRuntime.DependencyRuntime.Migrate` | src/core/dependency_graph.cpp:327-336 | Reset, then every entry applied in order |
| `RuntimeSpec.MigratedAt` | src/core/dependency_graph.cpp:327-336 | With distinct names each node takes over its own entry, and is idle without one |
| `RuntimeSpec.ValidIsDag` | src/core/dependency_graph.cpp:75-84 | Every built graph has its dependencies at smaller positions |
| `RuntimeSpec.DependsOnIsWalk` | src/core/dependency_graph.cpp:124-147 | The dependency relation is reachability along edges |
| `RuntimeSpec.OpensIsWalk` | src/core/dependency_graph.cpp:157-166 | What a request reaches is what can be reached through unrequested, failed and blocked nodes |
| `RuntimeSpec.HeldByIsWalk` | src/core/dependency_graph.cpp:271-280 | blocked_by reports the failed nodes at the end of walks through blocked nodes, in any state |
| `RuntimeSpec.LaunchedInOrder` | src/core/dependency_graph.cpp:191-200 | What is emitted together is in topological order |
| `BootRuns.BootConfluence` | src/core/dependency_graph.cpp:168-235 | Two complete boots with the same outcomes per program end in the same state and have heard from the same programs, whatever the order of the reports |
| `BootRuns.BootOutcome` | src/core/dependency_graph.cpp:168-235 | At the end of a boot a node is blocked if and only if a transitive dependency failed; every other node was emitted exactly once and has its own outcome, no blocked node was ever emitted, and there were at most n reports |
| `BootRuns.BootAt` | src/core/dependency_graph.cpp:168-235 | In every state of every boot each node is as told from the set of reports alone; no node reports twice |
| `BootRuns.EmittedExactly` | src/core/dependency_graph.cpp:191-200 | What has been emitted is exactly what has been started, each once |
| `BootRuns.SuccessStep` | src/core/dependency_graph.cpp:202-220 | A report of success in terms of the set of reports |
| `BootRuns.FailureStep` | src/core/dependency_graph.cpp:222-235 | A report of failure in terms of the set of reports |
| `SupervisedRuns.EveryRun` | src/core/dependency_graph.cpp:157-286 | In every state of every run: started nodes stand on ready dependencies; if not everything is at rest, something is starting; at rest a node is blocked if and only if a transitive dependency failed, and blocked_by gives exactly those |
| `SupervisedRuns.EmittedPerPassage` | src/core/dependency_graph.cpp:157-235 | Over every run a program is returned for start exactly as often as it passes into starting |
| `SupervisedRuns.FailedIsRetried` | src/daemon/pm_tiny_server.cpp:318-331 | In every run a failed program that is asked for again is returned for start at once |
| `SupervisedRuns.AskedForHeals` | src/core/dependency_graph.cpp:157-182 | After a program was asked for, neither it nor anything beneath it is idle, failed or blocked |
| `SupervisedRuns.EveryStateSupervised` | src/core/dependency_graph.cpp:157-235 | The invariant behind it holds in every reachable state |
| `SupervisedRuns.Progress` | src/core/dependency_graph.cpp:309-315 | Unless all_terminal, some node is starting |
| `SupervisedRuns.TerminalOutcome` | src/core/dependency_graph.cpp:309-315 | At rest nodes are ready, failed or blocked; blocked if and only if above a failure; all ready if nothing failed |
| `SupervisedRuns.BlockedByAtRest` | src/core/dependency_graph.cpp:266-286 | At rest the set blocked_by reports is the set of failed transitive dependencies |
| `SupervisedRuns.BlockedByIsExact` | src/core/dependency_graph.cpp:266-286 | At rest blocked_by is exactly the failed transitive dependencies |
| `DaemonRuns.EveryRunSettled` | src/core/dependency_graph.cpp:151-259 | In every state of every daemon run, rebuilt and grown graphs included: requested if and only if not idle, no pending node has a failed or blocked dependency, and none has all dependencies ready |
| `DaemonRuns.StepStaysGood` | src/core/dependency_graph.cpp:151-336 | Every operation keeps that invariant |
| `DaemonRuns.ClosureSettled` | src/core/dependency_graph.cpp:177-182 | request_closure keeps it |
| `DaemonRuns.ReadySettled` | src/core/dependency_graph.cpp:202-220 | mark_ready on any node keeps it |
| `DaemonRuns.ReadyLeavesNoneBehind` | src/core/dependency_graph.cpp:207-218 | After mark_ready a requested dependent is still blocked if and only if it was and a dependency still is failed or blocked |
| `DaemonRuns.ClosureEmits` | src/core/dependency_graph.cpp:177-200 | request_closure returns exactly the nodes that were not starting and now are |
| `DaemonRuns.ReadyEmits` | src/core/dependency_graph.cpp:191-220 | mark_ready returns exactly the nodes that were not starting and now are |
| `DaemonRuns.RequestAllEmits` | src/core/dependency_graph.cpp:168-200 | request_all returns exactly the nodes that were not starting and now are |
| `DaemonRuns.AskedForStarts` | src/core/dependency_graph.cpp:157-182 | A failed, idle or blocked node that is asked for with all its dependencies ready is emitted and starts |
| `DaemonRuns.AskedForIsUnderWay` | src/core/dependency_graph.cpp:157-182 | What is asked for, and all it opens, is requested and waiting, starting or ready afterwards |
| `DaemonRuns.AskedForTouches` | src/core/dependency_graph.cpp:157-182 | Nothing that is not beneath the node asked for is touched |
| `DaemonRuns.FailureTouches` | src/core/dependency_graph.cpp:222-235 | Node by node: what is ready, unrequested or not above the failure stays, everything else above it is blocked |
| `DaemonRuns.ReadyTouches` | src/core/dependency_graph.cpp:202-220 | Node by node: only blocked and waiting dependents change, and only towards starting |
| `DaemonRuns.RequestAllTouches` | src/core/dependency_graph.cpp:168-175 | Node by node: idle, blocked and waiting nodes wait or start, failed and other nodes stay |
| `DaemonRuns.FailureSettled` | src/core/dependency_graph.cpp:222-235 | mark_failed on any node keeps it |
| `DaemonRuns.AssignedSettled` | src/core/dependency_graph.cpp:237-251 | mark_starting and mark_idle on any node keep it |
| `DaemonRuns.AdoptSettled` | src/core/dependency_graph.cpp:317-336 | Migrating to a graph with further programs keeps it |
| `DaemonRuns.RequestAllSettled` | src/daemon/pm_tiny_server.cpp:520-521 | request_all directly after reset establishes it |
| `ServerAdd.Server.StartAndAdd` | src/daemon/pm_tiny_server.cpp:269-304 | Transactional: on failure programs, graph, states and requested flags are what they were; on success the program was added and its closure requested. The launches tried are exactly the emitted programs without a process, in order; the call succeeds if and only if the configuration is acceptable and every launch succeeds, and what was launched stays |
| `ServerAdd.Server.Join` | src/daemon/pm_tiny_server.cpp:280-283 | The grown graph keeps every old node and its state; what is returned is what asking for the new program emits |
| `ServerAdd.Server.Leave` | src/daemon/pm_tiny_server.cpp:292-299 | Rebuilding and migrating back restores graph and states |
| `ServerAdd.Server.SpawnAll` | src/daemon/pm_tiny_server.cpp:472-490 | Launches what has no process, in order; each failure is reported to the runtime and recorded |
| `ServerAdd.RoundTrip` | src/core/dependency_graph.cpp:317-336 | A snapshot migrated back restores every state and flag |
| `ServerAdd.GrownByOne` | src/daemon/pm_tiny_server.cpp:271-276 | Adding a program at the end keeps ids and edges of the others |
| `ServerAdd.JoinSettled` | src/daemon/pm_tiny_server.cpp:280-283 | Adding a program keeps the daemon invariant |
| `ProgramOrder.ValidateAndOrder` | src/core/prog_cfg_order.h:12-42 | Accepts exactly valid acyclic configurations; the result is a permutation in which every program follows its dependencies, and the list itself if it was in order already; a refused list is left alone |
| `ProgramOrder.OrderTwice` | src/core/prog_cfg_order.h:12-42 | Ordering is idempotent |
| `ProgramOrder.ValidNameMeans` | src/core/program_name.cpp:7-18 | A name has 1 to 128 ASCII letters, digits, periods, underscores and hyphens and begins with a letter or digit |
| `ProgramOrder.OrderedIsIdentity` | src/core/prog_cfg_order.h:36-39 | If dependencies have smaller numbers the order is 0, 1, 2, ... |
| `ProgramOrder.RearrangedAcceptable` | src/core/prog_cfg_order.h:30-35 | A rearranged acceptable list is acceptable |
| `Bytes.Put32Get32` | src/core/protocol_v3.cpp:20-31 | Reading a written 32-bit number gives it back |
| `Bytes.Get32Put32` | src/core/protocol_v3.cpp:20-31 | Writing a read one gives the bytes back |
| `Bytes.WrittenValue` | src/core/protocol_v3.cpp:17-23 | Numbers are written most significant byte first |
| `Bytes.Get32IsValue` | src/core/protocol_v3.cpp:27-31 | Numbers are read most significant byte first |
| `ProtocolV3.ProtocolEncode` | src/core/protocol_v3.cpp:145-158 | Refuses exactly payloads over 4194304 bytes and all but nine flag combinations |
| `ProtocolV3.DecodeEncoded` | src/core/protocol_v3.cpp:145-181 | An encoded message in front of anything decodes to itself |
| `ProtocolV3.EncodeDecoded` | src/core/protocol_v3.cpp:145-181 | A decoded message encodes to the bytes it was taken from |
| `ProtocolV3.WireLayout` | src/core/protocol_v3.cpp:149-157 | Where magic, version, flags, type, request id, length and payload are on the wire |
| `ProtocolV3.FirstFrame` | src/core/protocol_v3.cpp:163-179 | Which headers are refused, how long the decoder waits, and which field it reads from where |
| `ProtocolV3.DecodeAll` | src/core/protocol_v3.cpp:160-181 | The residual is shorter than 16 bytes + 4 MiB unless a header was refused, and a header is refused exactly when its 16 bytes are there and are bad |
| `ProtocolV3.Conservation` | src/core/protocol_v3.cpp:160-181 | Decoded messages encoded again, followed by the residual, are all bytes fed |
| `ProtocolV3.ChunkIndependence` | src/core/protocol_v3.cpp:160-181 | Splitting a stream anywhere yields the same messages and residual |
| `ProtocolV3.BadStaysBad` | src/core/protocol_v3.cpp:163-170 | A refused header stays refused, with the same messages before it |
| `ProtocolV3.PrefixDecodes` | src/core/protocol_v3.cpp:160-181 | Any prefix of a well-formed stream decodes cleanly to a prefix of the messages, the whole to all of them |
| `ProtocolV3.TakeFrame` | src/core/protocol_v3.cpp:164-179 | One round of the decoder: bad header, incomplete frame, or one message off the front |
| `ProtocolV3.Decoder.Feed` | src/core/protocol_v3.cpp:160-181 | Queue, buffer and exception are those of decoding the carried-over bytes and the new ones at once |
| `ProtocolV3.Decoder.Pop` | src/core/protocol_v3.cpp:183-188 | Takes the first message; refuses on an empty queue |
| `Session.Exchange` | src/core/session.cpp:80-300 | End to end: for every sequence of sends, partial writes, broken pipes, receive chunks, ends of file and read errors, bytes taken plus bytes queued are the accepted encodings, the queue accounting is exact and within 1 MiB, and what the peer has read is a prefix of what it was delivered, which is a prefix of what was accepted, all of it once everything has arrived; the peer is closed by an end of file only |
| `Session.Session.Write` | src/core/session.cpp:119-155 | One pass keeps the sender invariant, only extends what was sent and returns by how much; a closed session sends nothing; with a socket that takes everything it goes on until the queue is empty or the limit per pass is reached; otherwise it makes progress or the socket took nothing |
| `Session.Session.Enqueue` | src/core/session.cpp:238-252 | Accepted exactly if open and within the limit; a refusal closes the session and sends nothing; what the encoder refuses changes nothing; a blocking call returns with an empty queue or a closed session |
| `Session.Session.WriteFrame` | src/core/session.cpp:224-256 | Sends a response to the current request, marked as an error exactly if its status word is not zero; accepted exactly if open and within the limits |
| `Session.Session.WriteCommandFrame` | src/core/session.cpp:258-278 | Sends the command under the given id, or the next free one for 0, which is then used up; thrown, refused and sent each under exactly its condition |
| `Session.Session.WriteStreamFrame` | src/core/session.cpp:280-300 | Sends a piece of a stream with the right flags; thrown, refused and sent each under exactly its condition |
| `Session.Session.Read` | src/core/session.cpp:80-116 | Data, nothing yet, end of file and read errors: what was delivered is always what was received and decodes; the session closes exactly on end of file or a bad header, whose chunk is dropped |
| `Session.Session.TakeDecoded` | src/core/session.cpp:108-108 | Moves all decoded messages over in order |
| `Session.Session.ReadMessage` | src/core/session.cpp:201-212 | Waits as long as there is no message and the session is open, says whether it is still waiting, consumes only what it needs, and hands the application the delivered messages in order, each once |
| `Session.Arrives` | src/core/session.cpp:80-155 | What has arrived of the wire decodes to a prefix of what was accepted |
| `Session.TakeBytes` | src/core/session.cpp:126-137 | A partial write moves bytes from the first frame to the wire and nothing else |
| `Session.EncodeAllAppend` | src/core/session.cpp:238-246 | A message accepted last is encoded last |
| `FieldCodec.InputStream.ReadU32` | src/core/frame_stream.hpp:206-225 | Big-endian accumulation; too short a frame is refused and moves nothing |
| `FieldCodec.InputStream.ReadInt` | src/core/frame_stream.hpp:213-225 | Two's complement |
| `FieldCodec.InputStream.ReadString` | src/core/frame_stream.hpp:255-267 | On failure the guard puts the cursor back before the length |
| `FieldCodec.GetPutAll` | src/core/frame_stream.hpp:97-115 | Any list of fields within the reader's limits is read back, whatever follows it |
| `FieldCodec.PutGetAll` | src/core/frame_stream.hpp:206-267 | Whatever is read, written again, is the bytes it was read from |
| `FieldCodec.IntLayout` | src/core/frame_stream.hpp:97-106 | Two's complement, most significant byte first |
| `FieldCodec.StringLayout` | src/core/frame_stream.hpp:109-115 | Length in front, at most 4 MiB |
| `FieldCodec.ListLayout` | src/core/protocol_v3.cpp:47-52 | Count in front, then the strings in order |
| `FieldCodec.RefusesTooLong` | src/core/protocol_v3.cpp:47-60 | Fields with a list longer than the reader admits are refused, never misread |
| `StartRequest.ReadOfAppend` | src/core/protocol_v3.cpp:190-215 | A written request is read back if and only if the reader's limits and checks admit it, and refused otherwise |
| `StartRequest.ReadIff` | src/core/protocol_v3.cpp:122-142 | Every check of the reader written out: a written request is read back if and only if it passes all of them, and refused otherwise |
| `StartRequest.AcceptedPasses` | src/core/protocol_v3.cpp:122-142 | An accepted create request has passed every one of them |
| `StartRequest.WireOrder` | src/core/protocol_v3.cpp:63-89 | All thirty fields in the order in which they travel |
| `StartRequest.OneArgumentTooMany` | src/core/protocol_v3.cpp:47-60 | A request with 100001 arguments that is written but refused by the reader |
| `StartRequest.AppendOfRead` | src/core/protocol_v3.cpp:190-215 | Every accepted payload is the encoding of the request read from it, and that request satisfies all checks |
| `StartRequest.ConfigReadWritten` | src/core/protocol_v3.cpp:63-118 | A readable configuration is read back field by field |
| `StartRequest.ConfigWrittenRead` | src/core/protocol_v3.cpp:63-118 | A configuration read and written again gives the same bytes |
| `StartRequest.ConfigLimits` | src/core/protocol_v3.cpp:47-60 | A writable configuration is readable exactly if its lists hold at most 100000 items |
| `LogFrames.StreamRestored` | src/cli/pm_funcs.cpp:285-320 | The client shows exactly the messages sent if and only if none has the type that marks a continued frame |
| `LogFrames.CuttingUnseen` | src/core/frame_stream.hpp:119-148 | For every message sequence the cut frames show what the uncut messages would |
| `LogFrames.ContinuedMerges` | src/cli/pm_funcs.cpp:299-307 | A message of the continued type is merged into the next one |
| `LogFrames.FramesShown` | src/cli/pm_funcs.cpp:293-311 | One message, cut and collected again, is shown whole |
| `LogFrames.StrToFrames` | src/core/frame_stream.hpp:119-148 | The frames carry the pieces in order, all but the last marked as continued |
| `LogFrames.FrameTypes` | src/core/frame_stream.hpp:136-145 | Continued frames have type 2 on the wire, the last one the type of the message |
| `LogFrames.PieceSizes` | src/core/frame_stream.hpp:121-135 | Every piece but the last has exactly 2 MiB |
| `LogFrames.Cut` | src/core/frame_stream.hpp:128-135 | The two loops cut the text into full pieces and a rest |
| `LogFrames.ShowLog` | src/cli/pm_funcs.cpp:285-320 | The loop shows what can be read up to the end of the stream, and throws exactly when it meets an unreadable frame before that |
| `LogFrames.WrittenIsParsed` | src/cli/pm_funcs.cpp:297-300 | Frames as str_to_frames writes them are all read back |
| `LogFrames.StreamLog` | src/core/frame_stream.hpp:119-148 | From str_to_frames to the client's loop: no frame is unreadable, and the messages are shown exactly as sent if and only if none has the continued type |
| `SdkClient.FlushCoversAll` | sdk/pm_tiny_sdk.cpp:56-172 | No lost event: when flush reports success without a close, every earlier event was covered by a successful send picked after it was posted |
| `SdkClient.PendingIffStale` | sdk/pm_tiny_sdk.cpp:56-172 | In every run without close: pending if and only if the last successful send captured an older sequence number, captures grow, and sequence - coalesced - [pending] <= sent <= sequence |
| `SdkClient.CapturesIncrease` | sdk/pm_tiny_sdk.cpp:142-152 | Successful captures strictly increase |
| `SdkClient.CountersExact` | sdk/pm_tiny_sdk.cpp:56-72 | In every run, closed or not, sequence, coalesced and sent count exactly the events taken in, those that found one pending, and the successful sends |
| `SdkClient.ReadyGoesFirst` | sdk/pm_tiny_sdk.cpp:127-134 | A tick is only picked while no ready event is pending |
| `SdkClient.CloseForgets` | sdk/pm_tiny_sdk.cpp:103-115 | A run in which flush after close succeeds and an event was lost |
| `SdkClient.CloseLosesNothingIff` | sdk/pm_tiny_sdk.cpp:103-172 | In every run with close no event of a kind is lost if and only if none was pending at the close, or the latest one was just being sent and that send succeeds |
| `SdkClient.FlushThenClose` | sdk/pm_tiny_sdk.cpp:74-115 | A successful flush right before the close means that nothing is lost |
| `SdkClient.NothingLostIffCaptured` | sdk/pm_tiny_sdk.cpp:56-172 | In every run, closed or not, every event taken in is covered by a later-picked successful send if and only if the last successful send captured the latest sequence number |
| `SdkClient.AfterClose` | sdk/pm_tiny_sdk.cpp:103-172 | After close nothing is posted or picked, and at most the send under way comes to its end |
| `SdkClient.SendOfCapture` | sdk/pm_tiny_sdk.cpp:129-152 | The last capture belongs to a successful send and the pick that started it |
| `SdkClient.Client.Post` | sdk/pm_tiny_sdk.cpp:56-72 | Counts, coalesces and answers as the protocol step says |
| `SdkClient.Client.WorkerPick` | sdk/pm_tiny_sdk.cpp:127-134 | Ready events first; the sequence number is captured |
| `SdkClient.Client.WorkerSent` | sdk/pm_tiny_sdk.cpp:142-153 | Pending is taken back only if nothing was posted meanwhile |
| `SdkClient.Client.WorkerFailed` | sdk/pm_tiny_sdk.cpp:156-164 | Nothing but the sending flag changes |
| `SdkClient.Client.Flush` | sdk/pm_tiny_sdk.cpp:74-81 | True exactly if nothing is pending or being sent, or the client is disabled |
| `SdkClient.Client.Stop` | sdk/pm_tiny_sdk.cpp:103-115 | Takes the pending flags back, once |
| `LogTail.BoundedLogTail.Append` | src/core/program_log.cpp:157-176 | The ring holds exactly the last min(total, capacity) bytes of everything appended, capacity 0 included |
| `LogTail.BoundedLogTail.Replace` | src/core/program_log.cpp:161-168 | Data as long as the ring replaces it |
| `LogTail.BoundedLogTail.Wrap` | src/core/program_log.cpp:169-175 | Shorter data displaces exactly the oldest bytes that do not fit |
| `LogTail.BoundedLogTail.Read` | src/core/program_log.cpp:182-191 | That slice of the full history, clamped to what is retained |
| `LogTail.WindowMeans` | src/core/program_log.cpp:182-191 | Character by character: a read in the retained range begins where it was asked to, an earlier one at its start, a later one is empty |
| `LogTail.BoundedLogTail.Snapshot` | src/core/program_log.cpp:178-180 | Exactly the retained tail |
| `LogTail.BoundedLogTail.Clear` | src/core/program_log.cpp:151-155 | The history starts afresh |
| `LogTail.TailOfTail` | src/core/program_log.cpp:157-176 | Splitting an append into pieces cannot be observed |
| `RestartPolicy.Policy.Plan` | src/core/restart_policy.cpp:14-46 | Suppressed exactly when max_attempts or more grants lie within the window, whose number is reported; a grant is recorded with the delay min(max(base, max), base * 2^k); a suppressed call changes neither the failure count nor the unexpired attempts |
| `RestartPolicy.Policy.Decide` | src/core/restart_policy.cpp:20-46 | The same after a possible reset |
| `RestartPolicy.Policy.Prune` | src/core/restart_policy.cpp:20-23 | Forgets exactly what is a window old |
| `RestartPolicy.Policy.Delay` | src/core/restart_policy.cpp:33-38 | The doubling loop computes base * 2^k capped at the maximum |
| `RestartPolicy.BackoffSchedule` | src/core/restart_policy.cpp:33-38 | The first delay is the base, each later one twice as long up to the maximum |
| `RestartPolicy.Policy.Grant` | src/core/restart_policy.cpp:39-45 | Keeps grants k and k + max_attempts at least a window apart |
| `RestartPolicy.Policy.Reset` | src/core/restart_policy.cpp:8-12 | Forgets everything |
| `RestartPolicy.WindowNeverOverfull` | src/core/restart_policy.cpp:20-31 | No half-open window holds more than max_attempts grants |
| `AnsiStripper.FilterPieces` | src/daemon/prog.cpp:161-167 | For every split of a text the pieces, with the carried residual, give the output and residual of one call on the whole |
| `AnsiStripper.TwoPieces` | src/core/string_utils.cpp:31-90 | The same for one cut |
| `AnsiStripper.OutputFilter.RemoveEscapes` | src/daemon/prog.cpp:161-167 | What was handed on and what is held back are those of stripping everything read so far |
| `AnsiStripper.Remove` | src/core/string_utils.cpp:31-90 | The scanning loop computes the character automaton, and terminates |
| `AnsiStripper.NextToken` | src/core/string_utils.cpp:37-87 | One round of the loop decides as the automaton does |
| `AnsiStripper.ParseNumeric` | src/core/string_utils.cpp:9-18 | Skips a number, stopping once it exceeds 108 |
| `AnsiStripper.ShortSequenceVanishes` | src/core/string_utils.cpp:51-53 | `ESC [ number m` leaves no trace |
| `AnsiStripper.LongSequenceVanishes` | src/core/string_utils.cpp:55-69 | `ESC [ number ; number m` leaves no trace |
| `AnsiStripper.DropsOnlySequences` | src/core/string_utils.cpp:38-69 | Every dropped span is exactly `ESC [ number m` or `ESC [ number ; number m` |
| `AnsiStripper.CharacterPasses` | src/core/string_utils.cpp:76-79 | An ordinary character passes |
| `AnsiStripper.LoneEscapePasses` | src/core/string_utils.cpp:76-79 | An escape character that opens nothing passes |
| `AnsiStripper.SpoiltSequencePasses` | src/core/string_utils.cpp:72-74 | A sequence that goes wrong passes together with the character at which it does |
| `AnsiStripper.SpoiltSecondPasses` | src/core/string_utils.cpp:55-74 | So does one that goes wrong after its second number |
| `AnsiStripper.UnfinishedIsHeld` | src/core/string_utils.cpp:39-49 | A sequence that may still be completed is held back |
| `AnsiStripper.UnfinishedSecondIsHeld` | src/core/string_utils.cpp:55-65 | So is one in its second number |
| `AnsiStripper.NumberLimit` | src/core/string_utils.cpp:11-12 | A digit may follow 108 but not 109 |
| `AnsiStripper.PlainTextPasses` | src/core/string_utils.cpp:76-86 | Text without escape characters passes unchanged |
| `AnsiStripper.ScanStable` | src/core/string_utils.cpp:37-87 | A decision once taken does not depend on later text |
| `Lifecycle.PlanTick` | src/core/lifecycle_orchestrator.cpp:23-89 | The plan reports exactly the processes that are too late, in order, and asks for each what its failure action says; restarts and wait are as specified |
| `Lifecycle.Observe` | src/core/lifecycle_orchestrator.cpp:38-73 | One process: at most one report, and its deadline is considered exactly if it is still to be waited for |
| `Lifecycle.TimeoutsExact` | src/core/lifecycle_orchestrator.cpp:56-70 | The reports are exactly the passed timeouts, each once and in process order |
| `Lifecycle.PlanTells` | src/core/lifecycle_orchestrator.cpp:56-70 | The reports in terms of what was observed of each process: whether it is too late, and accept, ignore, restart or reboot |
| `Lifecycle.ReportMeans` | src/core/lifecycle_orchestrator.cpp:8-21 | What one report says, and when there is one |
| `Lifecycle.DeadlineMeans` | src/core/lifecycle_orchestrator.cpp:38-66 | The deadline of a process in terms of what was observed of it |
| `Lifecycle.WaitOtherwise` | src/core/lifecycle_orchestrator.cpp:76-81 | The waits with something to report, busy or draining |
| `Lifecycle.RestartsExact` | src/core/lifecycle_orchestrator.cpp:38-46 | Likewise the restarts that have come due |
| `Lifecycle.OneDeadline` | src/core/lifecycle_orchestrator.cpp:38-66 | No process has two deadlines armed, so reports are disjoint |
| `Lifecycle.WaitExact` | src/core/lifecycle_orchestrator.cpp:76-87 | With nothing to report, neither busy nor draining, the wait is max(1, min(default, earliest deadline - now)), and max(1, default) if none is armed |
| `Lifecycle.NextDueIsEarliest` | src/core/lifecycle_orchestrator.cpp:31-35 | The next due time is the limit or an awaited deadline, and later than none |
| `Lifecycle.NeverOversleeps` | src/core/lifecycle_orchestrator.cpp:76-87 | The wait never passes an armed deadline |
| `Lifecycle.WakesAtDeadline` | src/core/lifecycle_orchestrator.cpp:23-89 | Ticking and sleeping as planned, there is a tick exactly at every armed deadline |
| `Termination.PhasesAdvance` | src/core/termination_job.cpp:5-47 | Over every run of calls for a generation the phase never goes back and the deadline stays as first fixed |
| `Termination.PollKillsOnce` | src/core/termination_job.cpp:33-46 | Poll kills at most once and never before the deadline |
| `Termination.CompletesOnce` | src/core/termination_job.cpp:33-47 | Completion is reported at most once, and every later call does nothing |
| `Termination.AlwaysOwned` | src/core/termination_job.cpp:5-31 | A job under way belongs to the generation of its calls, and one not under way is fresh |
| `Termination.TerminationJob.RequestStop` | src/core/termination_job.cpp:5-12 | The first request of a generation fixes the deadline; repeated ones do nothing |
| `Termination.TerminationJob.ForceStop` | src/core/termination_job.cpp:14-18 | Asks for a kill unless completed or of another generation; transition by transition as the run lemmas use it |
| `Termination.TerminationJob.DrainTree` | src/core/termination_job.cpp:20-31 | Sets the deadline only if none was set for this generation, and does not fall back from a forced kill or completion |
| `Termination.TerminationJob.PollTree` | src/core/termination_job.cpp:33-47 | Completes on an empty tree, kills once after the deadline, ignores other generations |
| `Termination.ManagedProcess.Begin` | src/daemon/prog.h:62-68 | A new generation with a fresh job and an empty call history |
| `Termination.ManagedProcess.ResetFailedStart` | src/daemon/prog.h:70-75 | No process, a fresh job, the same generation |
| `Termination.ManagedProcess.AsyncKill` | src/daemon/prog.cpp:326-330 | A generation is asked to terminate once, which fixes its deadline; its job is always its own |
| `Termination.ManagedProcess.AsyncForceKill` | src/daemon/prog.cpp:281-286 | Kills exactly if termination is under way |
| `Termination.ManagedProcess.MarkDraining` | src/daemon/prog.cpp:294-300 | Takes up draining exactly if no kill was forced and nothing completed, and fixes the deadline if nothing was under way |
| `Termination.ManagedProcess.PollTermination` | src/daemon/prog.cpp:288-292 | Over the life of a generation a poll kills at most once and not before the deadline, completion is reported at most once, and nothing is asked for afterwards |
| `Termination.ManagedProcess.EnqueueAfterTermination` | src/daemon/prog.cpp:322-324 | Queued under the current generation |
| `Termination.ManagedProcess.ExecutePendingTasks` | src/daemon/prog.cpp:310-320 | Runs exactly the entries of the completed generation up to the first that begins a new one, all under that generation, and empties the queue |
| `Termination.OnlyOwnGeneration` | src/daemon/prog.h:85-92 | What runs was queued for that generation, and nothing runs after an entry that begins a new one |
| `Termination.RunnableGrows` | src/daemon/prog.cpp:313-317 | One more entry runs if and only if it is the generation's own and none before it has begun another one |

## Left out

- Power loss: syncs are steps that may fail, not barriers; the disk holds every completed call.
- Journal contents: a journal that does not parse, or whose paths, suffix or state are invalid, is the single value `Damaged`; a valid one is its state and the two flags.
- Save suffixes: a save's temporary and backup names are new; two saves by one process within the same second are not modelled.
- Directories inside the environ directory, file modes and the contents of the YAML files, which are opaque values.
- SaveTransaction.Startup: creating the environ directory may fail and is then ignored, whereas the daemon exits.
- DependencyRuntime.TransitiveDependents: the final std::sort is modelled by its result, a scan in topological order.
- DependencyRuntime.DependencyRuntime.BlockedBy: the final std::sort is modelled by its result, a scan in id order.
- GraphBuild.Kahn: the priority queue is a set from which the least element is taken.
- waiting_for and mark_pending, the latter of which nothing calls, and the texts of error messages.
- ServerAdd.Server.StartAndAdd: does not model the program-level display states that are set beside the runtime states.
- request_start, and the reset-then-mark-ready of rebuild_dependency_graph as a method of its own: it is the sequence Rebuild, NowReady, ... of a daemon run.
- Session.Session.Enqueue: the socket of an open session takes nothing at most a finite number of times; the write notifier and null frames are left out, and a blocking send on a socket of unknown buffer size, which would not return, returns.
- Session.Session.ReadMessage: what arrives while a blocking call waits is a finite list; a call that has used it up says that it is still waiting.
- Delivery on malformed streams: the messages decoded from the same chunk as a bad header are dropped, as the code does, so the end-to-end statement is about well-formed senders.
- StartRequest.ReadOfAppend: the configuration is grouped into sub-records in wire order, and the collected environment, which is not transmitted, is absent.
- LogFrames.ShowLog: stopping on a signal and printf ending a text at a NUL character are left out.
- The SDK's connection handling, retry delays and status report; a failed send may happen at any time and retrying is the next pick.
- Termination.ManagedProcess.ExecutePendingTasks: an entry either begins a new generation or does not; entries that queue further entries while running, which would invalidate the original's own iteration, and the process tree handle are left out.
- RestartPolicy.Policy.Plan: one policy object has one configuration; the clamp to the largest int has no effect for int-valued settings and is left out.
- Overflow of 64-bit totals, times, sequence numbers and generations: integers are mathematical.
- log_sink_health and the rotating log writer, the process list, runtime snapshot, daemon information and start response codecs: the same patterns again.
- fork and exec, signals, process trees, terminals, sockets and the event loop, which appear as arbitrary outcomes only.
- Command line parsing, renderers, YAML parsing and writing, and the Windows side.
