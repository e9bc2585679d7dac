# TPT Vertex: a verified model

TPT Vertex is a browser CAD system: parametric models are edited together through a
conflict-free replicated document, rebuilt by a geometry kernel, analysed by finite
elements, exchanged as STEP files and sliced for printing. This project models the
parts of it whose correctness is hardest to see from the code and proves what they
promise, for all inputs and all runs.

**Collaboration.** `Clocks`, `Crdt`, `Replicas`, `Presences`, `Sessions` and `SyncHubs` follow the
Rust structures as classes; `Convergence` gives documents a meaning as sets of
operations and `Growth` an order in which they only grow; `HistoryLaws` and `RemoteUsers` say what users see in terms of what was
delivered; `Hubs` gives the hub's handlers as functions, `HubLaws` what they answer and how members come by their rights; `Protocol`, `ProtocolInvariant`
and `Collaboration` put any number of sessions, the hub and two message bags into one
state machine whose steps deliver messages in any order, and prove the balance between
a member's document and its room in every reachable state. Operations the hub refuses
are not rolled back by the client, so convergence is stated with exactly them added.

**Parametric models.** `FeatureGraphs` and `FeatureTrees`: depth-first ordering and
evaluation of the feature graph, over arbitrary kernel operations.

**Numerical kernels, over the reals.** `LinearSystems`, `Elimination`, `DenseSolver` (Gaussian
elimination); `Rotations`, `Eigenpairs`, `JacobiSolver` (Jacobi eigenvalues); `Elements`, `Conduction`,
`Energy`, `Dirichlet`, `ThermalAssembler`, `HeatBalance` (steady heat conduction, from mesh to temperatures);
`Kuhn`, `TetMesher`, `MeshFilling`, `Watertightness` (lattice meshing). The program's flat row-major
buffers are two-dimensional arrays here; square roots are a parameter with the property
of a square root.

**Exchange.** `Solids`, `StepImport`, `StepExport`, `StepRoundTrip`: the STEP writer and reader (ISO
10303-21:2002, clause 9) at the level of records. A record is what the reader looks at:
keyword, references, coordinates, and whether `.F.` occurs. Printing nine decimals and
parsing them again is an arbitrary rounding function.

**Slicing and printing.** `Stitching`, `Slicing` (contours), `Cubes` (an example), `Toolpaths` (ordering), `GcodeEmission`,
`GcodeChecks`, `GcodeVerdicts`, `GcodeReports` (emission against the static validator, on token lists);
`HeadReader`, `HeadPaths`, `HeadDrawings`, `Heating` read emitted programs back with readers that know only the lines, and `Beads` follows
the bead height.
Lengths are compared by their squares where the program compares distances; the distance
in extrusion amounts and the four-decimal printing of E are parameters.

Methods mirror the program's loops and updates and are proved against specification
functions; the lemmas say what those functions mean.

Where documentation and code disagree the model follows the code:

- `collab/src/crdt.rs:134` says `apply` returns whether the state changed; one call breaks it (`Convergence.ReportedChange`).
- `tpt-vertex-slicer/src/layers.rs:192-195` says a triangle with one vertex on the plane still yields its segment; it yields none (`Slicing.CutIff`).
- `tpt-vertex-simulation/src/mesh.rs:8` speaks of five tetrahedra per cell; there are six.
- `tpt-vertex-simulation/src/assembly.rs:5-6` calls the fixing of nodes a penalty method; it is an exact elimination (`ThermalAssembler.FixedNodesAreExact`).
- `tpt-vertex-simulation/src/thermal.rs:70-72` calls the elimination exact; with a node listed twice it is so only under a condition (`Dirichlet.RepeatedNodeIff`).
- `tpt-vertex-simulation/src/solve.rs:30` keeps a pivot of exactly 1e-18 that line 62 drops (`Elimination.SolvedDespiteDroppedIff`).
- `tpt-vertex-simulation/src/mesh.rs:88-89` says only nodes inside the solid are retained; every lattice node is.
- `tpt-vertex-slicer/src/gcode.rs:227` calls the bead height the layer's thickness; it is so for the first path of a layer only (`Beads.BeadHeightMeansThicknessIff`).
- `tpt-vertex-slicer/src/gcode.rs:152-154` wants moves to target the right nozzle's offset; a path printed straight on with another tool begins off its start (`HeadDrawings.SecondToolStartsOff`), and degenerate stretches are passed over (`HeadDrawings.DrawnPointToPointIff`).
- `manufacturing/src/step.rs:15-16` mentions tessellation entities; only face loops are read. Reading back also merges corners within 1e-7 (`StepRoundTrip.RoundTrip`).

## Model
| member | source | states |
|---|---|---|
| Clocks.CompareIsTotalOrder | collab/src/clock.rs:62-70 | Stamps compare lexicographically by wall time, lamport counter and replica, and this is a total order: exactly one of less, equal, greater holds, equality is identity, and less is transitive. |
| Clocks.Ticked | collab/src/clock.rs:39-47 | A tick yields a stamp strictly above the clock and never moves the wall time back: it is the clock's or the given one, whichever is later; the replica stays. |
| Clocks.Observed | collab/src/clock.rs:50-53 | Observing lifts the clock above the observed stamp, so the next tick is later than anything observed. |
| Clocks.DominanceIsForever | collab/src/clock.rs:39-53 | Once a clock is above a stamp, every stamp it issues later is above it too, through any list of ticks and observations. |
| Clocks.HybridClock.Tick | collab/src/clock.rs:39-47 | The in-place tick takes the clock to exactly the ticked value and returns it. |
| Clocks.HybridClock.Observe | collab/src/clock.rs:50-53 | The in-place observation takes the clock to exactly the observed value. |
| Crdt.CrdtDoc.Apply | collab/src/crdt.rs:135-217 | One operation in place: tags, removed tags, registers and positions become exactly those of the specification, and the answer is the program's notion of change. |
| Crdt.CrdtDoc.Merge | collab/src/crdt.rs:220-250 | State merge in place, feature by feature in any order: the document becomes the join of the two. |
| Crdt.CrdtDoc.MergeFeature | collab/src/crdt.rs:223-248 | Merging one feature's tag sets and registers gives the join of the two feature states. |
| Crdt.ReplayedAppend | collab/src/crdt.rs:135-217 | Replaying two lists in a row is replaying their concatenation. |
| Convergence.ApplyDenotes | collab/src/crdt.rs:135-217 | If a document denotes a set of operations, applying one more denotes the set with it: every register holds the newest write of the set, every tag set exactly the added and the named tags. |
| Convergence.ReplayDenotes | collab/src/crdt.rs:135-217 | Replaying any list denotes the set of its operations, whatever order and repetition. |
| Convergence.JoinDenotes | collab/src/crdt.rs:220-250 | Merging two documents denotes the union of the operation sets they denote. |
| Convergence.DenotationUnique | collab/src/crdt.rs:56-69 | A set of operations whose newest writes to each slot agree determines the document completely. |
| Convergence.OrderAndRepetitionIrrelevant | collab/src/crdt.rs:135-217 | Two operation sequences with the same set give the same document, in any order and with any repetition, if the newest writes to each slot agree. |
| Convergence.OrderIrrelevantIff | collab/src/crdt.rs:135-217 | That condition is exact: all sequences with the same set of operations give one document iff the newest writes to each slot agree. |
| Convergence.NoTiesIff | collab/src/crdt.rs:48-53 | It holds for whatever part of the operations has been delivered iff writes to the same slot with equal stamps write the same. |
| Convergence.UniqueStampsDecide | collab/src/clock.rs:39-47 | Distinct stamps, which clocks of distinct replicas issue, are enough. |
| Convergence.MergeIsReplayOfBoth | collab/src/crdt.rs:220-250 | Merging two replayed documents equals replaying both histories, in either order, if the newest writes to each slot agree. |
| Convergence.MergeIsASemilattice | collab/src/crdt.rs:220-250 | Merge is associative and idempotent on all documents, and commutes iff the two documents hold no different registers with equal stamps. |
| Convergence.NoTiesNoConflict | collab/src/crdt.rs:220-250 | Documents of operations without such ties hold no such registers. |
| Convergence.ApplyIsMergeWithDelta | collab/src/crdt.rs:135-250 | Applying an operation is merging with the one-operation document, with no hypothesis at all. |
| Convergence.EqualStampsDiverge | collab/src/crdt.rs:48-53 | Register merge is strict, so two writes with the same stamp and different values leave replicas different. |
| Convergence.LiveIffAnAddSurvives | collab/src/crdt.rs:71-79 | A feature is live iff some add of it in the delivered set is named by no remove, also when the remove came first. |
| Convergence.RemoveKillsExactlyWhatItSaw | collab/src/crdt.rs:361-366 | A local remove makes the feature dead, and after any further delivery it is live iff an add the remover had not seen survives. |
| Convergence.ReportedChange | collab/src/crdt.rs:134-217 | The answer of apply equals "the document changed" except exactly for a remove that names no tag of an unknown feature. |
| Convergence.EmptyRemoveGoesUnreported | collab/src/crdt.rs:163-170 | The failing case: such a remove adds an empty entry to the empty document and no change is reported. |
| Snapshots.CompareTextIsTotalOrder | collab/src/crdt.rs:253-268 | Position strings are totally ordered. |
| Snapshots.PrecedesIsTotalOrder | collab/src/crdt.rs:253-268 | History order (position, then key) is total, so ties cannot make two replicas list features differently. |
| Snapshots.HistoryUnique | collab/src/crdt.rs:253-268 | A document has exactly one history: sorted, duplicate-free and listing exactly the live features. |
| Snapshots.OrderedKeys | collab/src/crdt.rs:253-268 | The computed key list is that history. |
| Snapshots.SnapshotsAgree | collab/src/lib.rs:57-74 | Equal operation sets give equal histories and equal snapshots. |
| Snapshots.KindIsLatest | collab/src/crdt.rs:135-170 | The kind shown for a feature is that of its newest add. |
| HistoryLaws.CompareTextIff | collab/src/crdt.rs:253-268 | A position comes first iff it is a proper prefix of the other or has the smaller character where they first differ. |
| HistoryLaws.HistoryByPosition | collab/src/crdt.rs:253-268 | Features are listed by ascending newest position text, those with equal texts by key; a feature shows the text of the newest add or move delivered. |
| HistoryLaws.SnapshotShowsNewest | collab/src/lib.rs:57-74 | Each entry shows a live feature's newest kind and exactly the parameters written, each with the newest value written. |
| Replicas.KeysCollideIff | collab/src/crdt.rs:311-317 | Counting the 64-bit shift, two replicas' keys within their 32-bit blocks coincide iff the ids agree in the low 32 bits and the counters agree. |
| Replicas.ReadBackIff | collab/src/crdt.rs:348-358 | A parameter just set is read back iff the feature is live and the register met is older than the next stamp or equal in value. |
| Replicas.RunGoverns | collab/src/crdt.rs:310-366 | On every run of local calls and receives the clock stays above every register and add tag of the document. |
| Replicas.LocalRunsReadTheirWrites | collab/src/crdt.rs:348-358 | So on such runs a parameter set on a live feature is read back at once. |
| Replicas.LocalAddIsRead | collab/src/crdt.rs:333-345 | A feature just added shows the kind and position given under the next key, and is live unless its tag was removed before it was issued. |
| Replicas.KeysCountAdds | collab/src/crdt.rs:310-366 | On every run only adds take keys, one each. |
| Replicas.SnapshotHidesLocalWrite | collab/src/wasm.rs:135-149 | After merging a snapshot, which bypasses the clock, a fresh replica's write can be lost: a concrete run. |
| Replicas.LocalReplica.constructor | collab/src/crdt.rs:311-317 | A new replica starts with an empty document, a zero clock and the first key of its block. |
| Replicas.LocalReplica.Receive | collab/src/crdt.rs:325-330 | Observes the stamp, applies the operation and reports whether it changed anything. |
| Replicas.LocalReplica.AddFeature | collab/src/crdt.rs:333-345 | Takes the next key and a fresh stamp and applies the add locally. |
| Replicas.LocalReplica.SetParam | collab/src/crdt.rs:348-358 | Stamps the write with a tick and applies it locally. |
| Replicas.LocalReplica.RemoveFeature | collab/src/crdt.rs:361-366 | Names exactly the observed add tags and applies the remove locally. |
| Replicas.LocalReplica.ObservedTags | collab/src/crdt.rs:292-297 | Lists exactly the add tags the document holds for the feature, in some order. |
| Presences.NewestWins | collab/src/presence.rs:42-50 | Whatever the arrival order, a user's record is one of the updates received and none received is newer. |
| Presences.PresenceMap.Update | collab/src/presence.rs:42-50 | Keeps the newer epoch and answers whether the record was taken. |
| Presences.PresenceMap.Remove | collab/src/presence.rs:53-55 | Drops exactly that user and answers whether there was one. |
| Growth.ReplayedGoesUp | collab/src/crdt.rs:135-217 | Every operation leads upwards in an order of documents: tags are kept, and each register stays or becomes strictly newer. |
| Growth.LargerAbsorbs | collab/src/crdt.rs:220-250 | In that order the larger document absorbs the smaller, whichever is merged into the other. |
| Sessions.NeverRemoteToItself | collab/src/wasm.rs:130-163 | Through any messages a session never lists its own replica among the remote users. |
| Sessions.CollabSession.AddFeature | collab/src/wasm.rs:70-74 | Applies locally and queues exactly the operation issued. |
| Sessions.CollabSession.SetParam | collab/src/wasm.rs:77-90 | Applies locally and queues exactly the write issued. |
| Sessions.CollabSession.RemoveFeature | collab/src/wasm.rs:93-96 | Applies locally and queues exactly the remove issued. |
| Sessions.CollabSession.TakePendingOps | collab/src/wasm.rs:100-106 | Empties the queue into one message, or answers none when there is nothing to send. |
| Sessions.CollabSession.PresenceMessage | collab/src/wasm.rs:115-126 | Every presence message carries a new, larger epoch. |
| Sessions.CollabSession.ApplyServerMessage | collab/src/wasm.rs:130-163 | Every kind of inbound message changes document, clock and remote users as specified, and nothing else; the redraw hint is exactly whether a snapshot came, some operation of the batch reported a change, or a presence record was taken or dropped. |
| Sessions.HintIffChange | collab/src/wasm.rs:128-163 | A message other than a welcome or snapshot, which are always redrawn, hints at a redraw iff it changes the document or what is known of other users; for batches without removes that name no tag. |
| RemoteUsers.OneMessage | collab/src/wasm.rs:130-163 | What one message does to another user: the newer record stays, a leaver goes, and nobody else changes. |
| RemoteUsers.ShowsNewestSinceLeft | collab/src/wasm.rs:130-163 | After any messages another user is shown iff a record came and no leave after it, with the newest record since the last leave. |
| Hubs.HandleConsistent | collab/src/server.rs:146-160 | Every message keeps: each routed connection's room exists, so no lookup fails, and replicas in a room are distinct. |
| Hubs.OnlyTargetChanges | collab/src/server.rs:146-328 | A message changes no room other than the one it is routed to. |
| Hubs.RoomIsReplayOfAdmitted | collab/src/server.rs:209-239 | Over every trace a room's document is the replay of exactly the operations received while their sender's level allowed editing. |
| Hubs.RoomOnlyGrows | collab/src/server.rs:209-239 | From any consistent hub, whatever the clients send and with whatever stamps, every later room document absorbs every earlier one. |
| Hubs.JoinOrderlyIff | collab/src/server.rs:183-192 | A join keeps every member routed to the room that lists it iff it is refused or the connection is not a member elsewhere: joining two rooms leaves a stale member. |
| Hubs.SecondRoomKeepsGhost | collab/src/server.rs:171-205 | The failing case: a connection that joins two rooms stays in the member list of the first, even after it has left. |
| Hubs.HandleOrderly | collab/src/server.rs:146-160 | Every message other than such a join keeps the hub orderly. |
| Hubs.RunOrderly | collab/src/server.rs:146-328 | On every trace in which no connection sends two Joins every member is routed to the one room that lists it. |
| Hubs.LateLeaveIsHarmless | collab/src/server.rs:307-328 | However much the hub handled since the superseding join, the late leave of the old connection removes neither the new session nor its presence and tells nobody. |
| Hubs.LateLeaveOverRuns | collab/src/server.rs:171-328 | The same over whole runs from the empty hub, for one Join per connection. |
| HubLaws.OpsLaw | collab/src/server.rs:209-239 | Operations are answered by who speaks: an editor or owner has them replayed and everybody else told once, a viewer gets one refusal and nothing changes. |
| HubLaws.PresenceLaw | collab/src/server.rs:241-262 | A presence record newer than the one held is kept and sent to the others; any other is dropped in silence. |
| HubLaws.SetAccessLaw | collab/src/server.rs:264-292 | Only an owner changes levels, and exactly those of the subject; anybody else gets exactly one refusal and the hub stays as it is. |
| HubLaws.ResyncLaw | collab/src/server.rs:294-305 | The asker alone gets the room's document, and nothing changes. |
| HubLaws.LeaveLaw | collab/src/server.rs:307-328 | Exactly the leaver's route, members and presence record go, and exactly the remaining members are told. |
| HubLaws.JoinLaw | collab/src/server.rs:171-205 | An accepted join replaces the members of that replica by one with the granted subject and level and answers with document and presence; a refused one changes nothing. |
| HubLaws.EveryLevelIsExplained | collab/src/server.rs:171-288 | Over every trace: a member's level is the one granted at its join, or the one set by the latest later change for its subject sent by somebody speaking there as owner at that moment. |
| HubLaws.AdmittedIff | collab/src/server.rs:209-239 | Over every trace: the operations let into a room are exactly those sent by somebody speaking there as editor or owner at that moment. |
| SyncHubs.SyncHub.HandleMessage | collab/src/server.rs:146-160 | Dispatches every message kind; state and replies are those of the specification, with every map lookup proved safe. |
| SyncHubs.SyncHub.DoJoin | collab/src/server.rs:171-207 | A join replaces the replica's previous member, routes the connection and answers with level, document and presence; a refused token changes nothing. |
| SyncHubs.SyncHub.DoOps | collab/src/server.rs:209-239 | Operations of an editing member are applied one by one and sent to everybody else; any other sender is refused with the right reason. |
| SyncHubs.SyncHub.DoPresence | collab/src/server.rs:241-262 | A newer presence is stored and sent to everybody else; a stale one is dropped silently. |
| SyncHubs.SyncHub.DoSetAccess | collab/src/server.rs:264-292 | An owner's change re-levels exactly the members with that subject; anybody else is refused. |
| SyncHubs.SyncHub.DoResync | collab/src/server.rs:294-305 | The room's document, to the asker only. |
| SyncHubs.SyncHub.DoLeave | collab/src/server.rs:307-328 | The connection's route and member go, its presence is removed and the others are told. |
| ProtocolInvariant.StepKeepsInv | collab/src/server.rs:146-328 | Every step of the whole system (edit, flush, connect, request, disconnect, hub turn, delivery in any order) keeps the protocol invariant. |
| Protocol.InitialInv | collab/src/server.rs:126-132 | The empty system satisfies it. |
| Collaboration.RunKeepsInv | collab/src/server.rs:146-328 | So does every reachable state. |
| Collaboration.Balance | collab/src/server.rs:171-305 | For a current member, known operations together with those on their way down are exactly the admitted ones together with its own not yet admitted. |
| Collaboration.EveryStateBalances | collab/src/server.rs:171-305 | In every reachable state the document a current member's session ends up with after handling all messages in flight to it equals the room's document after everything of that member not yet let in, in whatever order either is handled. |
| Collaboration.QuietMembersAgree | collab/src/server.rs:171-305 | Once the queues are empty a current member holds the room's document plus what the hub refused of its own operations; with nothing refused the two are equal. |
| Collaboration.QuietMembersShowTheSame | collab/src/lib.rs:57-74 | Two such members show the same history and hand over the same snapshot. |
| Collaboration.StampsAndKeysAreUnique | collab/src/crdt.rs:310-366 | In every run no two operations carry the same stamp and, within 32-bit ids and blocks, no two adds name the same feature. |
| FeatureGraphs.OrderExcludesDefects | tpt-vertex-kernel/src/feature_tree.rs:196-235 | A graph with a topological order has neither a cycle nor a dangling reference. |
| FeatureGraphs.SameAncestrySameSolid | tpt-vertex-kernel/src/feature_tree.rs:80-133 | Two models that agree on everything a feature depends on give it the same solid. |
| FeatureGraphs.MeaningUnique | tpt-vertex-kernel/src/feature_tree.rs:239-256 | A model has at most one evaluation, so history order and visiting order cannot matter. |
| FeatureGraphs.UpdateIsLocal | tpt-vertex-kernel/src/feature_tree.rs:180-184 | Replacing a feature leaves the solid of every non-descendant unchanged. |
| FeatureGraphs.SolvedIsBuilt | tpt-vertex-kernel/src/feature_tree.rs:80-133 | In every evaluation each solid is the kernel operation of its feature's kind, spelled out, on its own parameters and its parents' solids in order. |
| FeatureGraphs.BooleanMembership | tpt-vertex-kernel/src/feature_tree.rs:100-110 | For every kernel whose booleans obey the set laws: a point is in a union, difference or intersection feature iff it is in either, in the first and not the second, or in both parents' solids. |
| FeatureTrees.FeatureTree.Add | tpt-vertex-kernel/src/feature_tree.rs:159-174 | A fresh id, inserted right after the named feature or at the end; the history stays a duplicate-free list of the features. |
| FeatureTrees.FeatureTree.Update | tpt-vertex-kernel/src/feature_tree.rs:180-184 | Replaces an existing feature and nothing else. |
| FeatureTrees.FeatureTree.Remove | tpt-vertex-kernel/src/feature_tree.rs:186-189 | Removes the feature from map and history; the others keep their order. |
| FeatureTrees.FeatureTree.Visit | tpt-vertex-kernel/src/feature_tree.rs:209-235 | The recursive walk terminates; success extends a parents-first, duplicate-free result; an error names a real cycle or a real dangling reference. |
| FeatureTrees.FeatureTree.TopoOrder | tpt-vertex-kernel/src/feature_tree.rs:196-207 | Succeeds iff every named parent exists and the graph is acyclic; the result is a duplicate-free permutation with parents first, and the history itself when that is already in order. |
| FeatureTrees.FeatureTree.Evaluate | tpt-vertex-kernel/src/feature_tree.rs:239-256 | Fails iff there is a defect; otherwise every solid is its feature's own kernel operation, with its own parameters, on its parents' solids in order, all present, so the default solid is never used. |
| FeatureTrees.WithoutKeepsOrder | tpt-vertex-kernel/src/feature_tree.rs:186-189 | Dropping an id keeps the relative order of all others. |
| LinearSystems.Pivot | tpt-vertex-simulation/src/solve.rs:20-29 | The pivot row is the first of those with the largest magnitude in its column at or below the diagonal. |
| Elimination.SwapKeepsSolutions | tpt-vertex-simulation/src/solve.rs:34-39 | Exchanging two equations keeps the solutions. |
| Elimination.ReductionKeepsSolutions | tpt-vertex-simulation/src/solve.rs:41-51 | Reducing the rows below a non-zero pivot keeps the solutions. |
| Elimination.SolutionIsTheSolution | tpt-vertex-simulation/src/solve.rs:12-65 | With every pivot above 1e-18, and lattice nodes no equation mentions, the result solves the original system, is zero on those nodes and is the only such vector. |
| Elimination.SolvedDespiteDroppedIff | tpt-vertex-simulation/src/solve.rs:30-62 | A pivot of exactly 1e-18 is kept by elimination and dropped by back substitution. For every system whose live pivots are at least 1e-18 there is exactly one solution, and the result is that solution iff it is zero behind every pivot of exactly 1e-18; otherwise the result solves nothing. |
| Elimination.OneUnknownSolvedIff | tpt-vertex-simulation/src/solve.rs:30-62 | With one unknown: solved iff the coefficient exceeds 1e-18 or the load is zero, so the coefficient 1e-18 with any load fails. |
| Elimination.MultiplierAtMostOne | tpt-vertex-simulation/src/solve.rs:42-43 | Partial pivoting keeps every multiplier at magnitude at most one. |
| Elimination.GrowthBound | tpt-vertex-simulation/src/solve.rs:19-52 | After eliminating m columns every entry is at most 2^m times the largest original one. |
| DenseSolver.FindPivot | tpt-vertex-simulation/src/solve.rs:20-29 | The scan returns the specified pivot and its magnitude. |
| DenseSolver.SwapRows | tpt-vertex-simulation/src/solve.rs:34-37 | The entry-by-entry exchange swaps the two rows and nothing else. |
| DenseSolver.ReduceRow | tpt-vertex-simulation/src/solve.rs:47-49 | The in-place subtraction changes exactly that row, from the pivot column on. |
| DenseSolver.EliminateColumn | tpt-vertex-simulation/src/solve.rs:19-52 | One column in place, small pivots and zero factors skipped, is one elimination step. |
| DenseSolver.ForwardEliminate | tpt-vertex-simulation/src/solve.rs:19-52 | The loop over columns is forward elimination. |
| DenseSolver.BackSubstitute | tpt-vertex-simulation/src/solve.rs:55-64 | The backward loop is back substitution, small diagonals giving zero. |
| DenseSolver.SolveDense | tpt-vertex-simulation/src/solve.rs:12-65 | The whole solver: for every set of unmentioned nodes with good pivots elsewhere the result is the one solution that vanishes there. |
| Rotations.TangentAnnihilates | tpt-vertex-simulation/src/modal.rs:166-167 | The tangent the program computes solves the annihilation equation, also when theta is zero. |
| Rotations.RotationRepresents | tpt-vertex-simulation/src/modal.rs:170-191 | After a rotation the working matrix is still symmetric and equals the transposed basis times the input times the basis. |
| Rotations.RotationOrthonormal | tpt-vertex-simulation/src/modal.rs:186-191 | The rotated basis stays orthonormal. |
| Rotations.TraceKept | tpt-vertex-simulation/src/modal.rs:170-185 | A rotation keeps the trace. |
| Rotations.NormKept | tpt-vertex-simulation/src/modal.rs:170-185 | A rotation keeps the Frobenius norm. |
| Rotations.OffDrops | tpt-vertex-simulation/src/modal.rs:170-185 | A rotation lowers the off-diagonal square sum by exactly twice the square of the annihilated entry. |
| Eigenpairs.RotationIntertwines | tpt-vertex-simulation/src/modal.rs:170-191 | A rotation keeps: the input times the basis is the basis times the working matrix. |
| Eigenpairs.ResidualIsOffRow | tpt-vertex-simulation/src/modal.rs:195-206 | The squared residual of a basis column with its diagonal value is exactly the off-diagonal square sum of its row, so at most the off-diagonal square sum left over. |
| JacobiSolver.RotationDiagonalises | tpt-vertex-simulation/src/modal.rs:162-191 | One rotation keeps all invariants of the iteration together and loses exactly that entry. |
| JacobiSolver.ChooseAngle | tpt-vertex-simulation/src/modal.rs:166-169 | The computed cosine, sine and tangent annihilate the entry. |
| JacobiSolver.RotateMatrix | tpt-vertex-simulation/src/modal.rs:170-185 | The in-place update of rows and columns gives the rotated matrix. |
| JacobiSolver.TurnBasis | tpt-vertex-simulation/src/modal.rs:186-191 | The in-place update of the basis turns columns p and q. |
| JacobiSolver.RotatePair | tpt-vertex-simulation/src/modal.rs:162-191 | Negligible entries are skipped and change nothing; otherwise the entry is annihilated and the invariants kept. |
| JacobiSolver.Sweep | tpt-vertex-simulation/src/modal.rs:160-193 | A sweep over all pairs keeps the invariants; when every pair is negligible it changes nothing, and otherwise it lowers the off-diagonal square sum by at least twice the square of the skip threshold. |
| JacobiSolver.OffSum | tpt-vertex-simulation/src/modal.rs:149-156 | The nested loops compute the off-diagonal square sum. |
| JacobiSolver.SortPairs | tpt-vertex-simulation/src/modal.rs:196-206 | The final sort puts the values in ascending order and moves each with its own column. |
| JacobiSolver.JacobiEigen | tpt-vertex-simulation/src/modal.rs:141-207 | The result is an orthonormal basis in which the input reads with the returned values on the diagonal; each returned pair is an eigenpair up to a residual whose square is at most the off-diagonal square sum left over, which is below 1e-20 when the norm test passed; unless every pair is negligible, every sweep made progress. |
| Elements.LinearFieldReproduced | tpt-vertex-simulation/src/element.rs:67-109 | For every tetrahedron whose Jacobian is not negligible, the gradients applied to the corner values of any linear field give exactly its slope. |
| Elements.ShapeGradientsBalanced | tpt-vertex-simulation/src/element.rs:92-107 | The four gradients sum to zero. |
| Elements.InverseRecovers | tpt-vertex-simulation/src/element.rs:116-141 | The rows of the inverse turn derivatives along the three edges back into the gradient. |
| Elements.VolumeIsSixthOfDeterminant | tpt-vertex-simulation/src/element.rs:144-155 | The volume is a sixth of the determinant the inverse divides by. |
| Elements.VolumeSplits | tpt-vertex-simulation/src/element.rs:144-155 | Signed volumes are additive: a point splits a tetrahedron into four whose volumes sum to the whole. |
| Energy.ElementEnergy | tpt-vertex-simulation/src/thermal.rs:57-68 | For any two linear fields an element's form is conductivity times volume times the product of their slopes. |
| Energy.MeshEnergy | tpt-vertex-simulation/src/thermal.rs:57-95 | Over a whole mesh it is conductivity times total volume times the product of the slopes. |
| Conduction.AssembledIsTotal | tpt-vertex-simulation/src/thermal.rs:82-95 | The assembled matrix represents the sum of the element forms: no contribution is lost, doubled or misplaced, also when nodes are shared. |
| Conduction.GramForm | tpt-vertex-simulation/src/thermal.rs:57-68 | An element's form is conductivity times volume times the inner product of the two gradients. |
| Conduction.ConductivityMatrix | tpt-vertex-simulation/src/thermal.rs:57-95 | For every mesh the conductivity matrix is symmetric, its rows sum to zero and, with nonnegative conductivity, it is positive semidefinite. |
| Dirichlet.ReducedSystemMeans | tpt-vertex-simulation/src/thermal.rs:100-117 | For every list of prescriptions, repeated nodes included: exactly which vectors solve the reduced system. |
| Dirichlet.ValueIsLast | tpt-vertex-simulation/src/thermal.rs:113-117 | A node takes the value of its last prescription in the list. |
| Dirichlet.EliminationIsExact | tpt-vertex-simulation/src/thermal.rs:100-117 | With distinct nodes (or zero values) these are the vectors that take the prescribed values and satisfy every free original equation. |
| Dirichlet.RepeatedNodeIff | tpt-vertex-simulation/src/thermal.rs:103-117 | With nodes prescribed repeatedly a free equation survives iff the superseded values times the row's entries sum to zero. |
| Dirichlet.TakenIsContributionAndMore | tpt-vertex-simulation/src/thermal.rs:103-109 | The load pass takes the contribution of the final values and, besides, that of every superseded value. |
| Dirichlet.RepeatedNodeBreaks | tpt-vertex-simulation/src/thermal.rs:100-117 | The failing case: a two-node system with one node prescribed twice. |
| Dirichlet.EliminationKeepsSymmetry | tpt-vertex-simulation/src/thermal.rs:110-117 | Zeroing rows and columns keeps symmetry. |
| ThermalAssembler.ScatterElement | tpt-vertex-simulation/src/thermal.rs:90-94 | The double loop adds the sixteen entries of one element. |
| ThermalAssembler.AssembleElements | tpt-vertex-simulation/src/thermal.rs:82-95 | The element loop assembles the matrix. |
| ThermalAssembler.AddSources | tpt-vertex-simulation/src/thermal.rs:96-98 | Heat sources accumulate at their nodes. |
| ThermalAssembler.ShiftAllLoads | tpt-vertex-simulation/src/thermal.rs:103-109 | The load pass, always with the matrix as it was. |
| ThermalAssembler.PinAll | tpt-vertex-simulation/src/thermal.rs:110-117 | The elimination pass: rows, columns, diagonal and load of every fixed node. |
| ThermalAssembler.AssembleSystem | tpt-vertex-simulation/src/thermal.rs:73-120 | Assembly, sources and elimination in place give the constrained system. |
| ThermalAssembler.UnusedAreDead | tpt-vertex-simulation/src/thermal.rs:82-117 | A node in no tetrahedron, neither heated nor fixed, is mentioned by no equation of the reduced system. |
| ThermalAssembler.LargestEntry | tpt-vertex-simulation/src/assembly.rs:93-96 | The loop finds the largest magnitude, which some entry attains. |
| ThermalAssembler.FixNodes | tpt-vertex-simulation/src/assembly.rs:97-108 | All three unknowns of every fixed node are pinned with one penalty. |
| ThermalAssembler.FixedNodesAreExact | tpt-vertex-simulation/src/assembly.rs:92-108 | Whatever the penalty, and with repeated nodes, the pinned system is solved exactly by the vectors that are zero there and satisfy every free equation. |
| HeatBalance.LoadIsHeat | tpt-vertex-simulation/src/thermal.rs:96-98 | After the sources are added the load at a node is the sum of the heat of exactly the sources listed for it. |
| HeatBalance.SolveSteadyState | tpt-vertex-simulation/src/thermal.rs:123-129 | With distinct fixed nodes and good pivots everywhere but at lattice nodes in no tetrahedron, neither heated nor fixed, the temperatures returned are as prescribed, conduct at every free node exactly the heat put in there, are zero at those unused nodes, and are the only such field. |
| HeatBalance.SolvedIsSteady | tpt-vertex-simulation/src/thermal.rs:123-129 | The same of the solver's result for the assembled system. |
| HeatBalance.NothingIsLost | tpt-vertex-simulation/src/thermal.rs:57-95 | Whatever the temperatures, the heat conducted at all nodes of a mesh sums to zero. |
| HeatBalance.HeatIsConserved | tpt-vertex-simulation/src/thermal.rs:73-129 | In every steady state the heat conducted at the fixed nodes is minus the total heat put in at the free ones. |
| Kuhn.TableIsWalks | tpt-vertex-simulation/src/mesh.rs:174-181 | Each of the six listed tetrahedra walks along the three axes from corner 0 to corner 6. |
| Kuhn.TableHasAllWalks | tpt-vertex-simulation/src/mesh.rs:174-181 | Every order of the three axes is listed. |
| Kuhn.OnlyTwoSides | tpt-vertex-simulation/src/mesh.rs:151-159 | The only two tetrahedra of the infinite lattice that can have a given triangle, named. |
| Kuhn.Conforming | tpt-vertex-simulation/src/mesh.rs:151-159 | Of three lattice tetrahedra with a common triangle two are the same. |
| Kuhn.QuadSplitAlike | tpt-vertex-simulation/src/mesh.rs:153-156 | The quad between two cells is split into the same triangles from both sides. |
| Kuhn.CellCovered | tpt-vertex-simulation/src/mesh.rs:138-141 | No gap: every point of a cell is in one of its six tetrahedra. |
| Kuhn.NoOverlap | tpt-vertex-simulation/src/mesh.rs:138-141 | No overlap: an inner point of a tetrahedron is in no other one of the lattice. |
| Kuhn.WeightsRecover | tpt-vertex-simulation/src/mesh.rs:138-141 | The inequalities used for "in a tetrahedron" are those of its barycentric coordinates. |
| Kuhn.SixthOfCell | tpt-vertex-simulation/src/mesh.rs:197-205 | Each of the six has signed volume plus a sixth of the cell. |
| TetMesher.BuildLattice | tpt-vertex-simulation/src/mesh.rs:109-123 | Every lattice point gets its own number and its own position. |
| TetMesher.MeshCell | tpt-vertex-simulation/src/mesh.rs:190-205 | One cell adds its six tetrahedra, or none when a sixth of a cell is a sliver. |
| TetMesher.Tetrahedralize | tpt-vertex-simulation/src/mesh.rs:183-214 | Exactly six tetrahedra per interior cell; it fails iff there is no interior cell or a sixth of a cell is at most 1e-12. |
| TetMesher.Spacing | tpt-vertex-simulation/src/mesh.rs:96 | The spacing is the requested edge length, or 1e-6 when that is smaller. |
| TetMesher.CentreIsHalfway | tpt-vertex-simulation/src/mesh.rs:125-134 | The point tested for a cell is half a spacing from each of its eight corners along every axis. |
| TetMesher.MeshBox | tpt-vertex-simulation/src/mesh.rs:96-136 | The lattice reaches the far corner of the bounding box and less than one spacing further, the cells kept are exactly those whose centre is in the solid, and the mesh is fit for the assembler. |
| TetMesher.MeshVolume | tpt-vertex-simulation/src/mesh.rs:156-158 | All tetrahedra have the same positive volume and together fill the interior cells. |
| TetMesher.MeshConforming | tpt-vertex-simulation/src/mesh.rs:155-157 | Every triangular face of the finished mesh is in at most two tetrahedra. |
| MeshFilling.MeshFillsCells | tpt-vertex-simulation/src/mesh.rs:134-182 | In space: a point is a convex combination of the corners of some tetrahedron of the mesh iff it is in the cube of some interior cell. |
| MeshFilling.MeshDoesNotOverlap | tpt-vertex-simulation/src/mesh.rs:134-182 | In space: an inner point of a tetrahedron of the mesh is in no other one. |
| MeshFilling.MeshQuadSplitAlike | tpt-vertex-simulation/src/mesh.rs:141-157 | Two neighbouring interior cells of the mesh split the quad between them into the same triangles. |
| MeshFilling.InWalkIff | tpt-vertex-simulation/src/mesh.rs:141-157 | Being a convex combination of the corners in space is what the lattice inequalities say. |
| Watertightness.ValidateWatertight | tpt-vertex-simulation/src/mesh.rs:53-84 | Accepts exactly shells of at least four faces whose every edge is a side exactly twice; a defect reported is real. |
| Watertightness.CountedIffEdgesTwice | tpt-vertex-simulation/src/mesh.rs:62-69 | For shells of triangles that count is the statement that every edge is on exactly two faces, which slicing needs. |
| Solids.Solid.PushDedup | tpt-vertex-kernel/src/geometry/solid.rs:68-75 | Returns the first vertex within 1e-7, or appends the point. |
| Solids.Solid.AddTriangle | tpt-vertex-kernel/src/geometry/solid.rs:61-66 | Adds one face through the merging pool. |
| Solids.NearAlongAxes | tpt-vertex-kernel/src/geometry/solid.rs:68-75 | Merged points differ by less than 1e-7 along each axis, and points that differ by less than that in all are merged. |
| Solids.LoadedPool | tpt-vertex-kernel/src/geometry/solid.rs:61-75 | The pool holds only corners of the triangles and never two within 1e-7 of each other. |
| Solids.LoadedNearby | tpt-vertex-kernel/src/geometry/solid.rs:61-75 | Loading keeps number, order and winding of the triangles and moves no corner by 1e-7 or more. |
| Solids.LoadsExactlyIff | tpt-vertex-kernel/src/geometry/solid.rs:61-75 | Loading recovers the multiset of triangles iff no two different corners are within 1e-7. |
| Solids.NearCornersMerge | tpt-vertex-kernel/src/geometry/solid.rs:61-75 | The failing case: a triangle with two corners 1e-8 apart comes back with these merged. |
| StepExport.CurveOf | manufacturing/src/step.rs:51-73 | One EDGE_CURVE per undirected edge, from the smaller to the larger vertex, written on first use and looked up afterwards. |
| StepExport.WriteFaceLines | manufacturing/src/step.rs:87-103 | The eleven records of a face, each referring to the right earlier ones. |
| StepExport.WriteFace | manufacturing/src/step.rs:75-104 | A face writes its missing curves and then its own records; everything written before stays valid. |
| StepExport.WriteVertices | manufacturing/src/step.rs:42-47 | Every vertex gets its point and its vertex record. |
| StepExport.ExportStep | manufacturing/src/step.rs:31-138 | For every mesh the file is complete and contains nothing else of the listed kinds. |
| StepImport.ResolveLoop | manufacturing/src/step.rs:203-218 | A loop resolves iff every edge does, and gives the start of each edge in order. |
| StepImport.FanTriangulate | manufacturing/src/step.rs:365-373 | The fan is added triangle by triangle. |
| StepImport.ReadFace | manufacturing/src/step.rs:220-240 | A face contributes, for each of its bounds, the fan of the first loop that resolves. |
| StepImport.ImportStep | manufacturing/src/step.rs:144-258 | For every table of records the solid loads exactly the recovered triangles in the order visited, or the right error is returned. |
| StepImport.ImportOrderIrrelevant | manufacturing/src/step.rs:220-258 | Visiting the records in another order gives the same error or success, the same number of faces, and exactness in both or in neither. |
| StepImport.CornersOfLoop | manufacturing/src/step.rs:150-218 | A loop is read iff it has three edges or more and each leads by its records - oriented edge, edge curve, the vertex its direction picks, point - to a position; those positions are its corners, in order. |
| StepImport.FanOfLoop | manufacturing/src/step.rs:365-373 | A loop of n corners gives n - 2 triangles that all share its first corner and whose opposite sides are the loop's other edges in order. |
| StepImport.FanHasLoopAsBoundary | manufacturing/src/step.rs:365-373 | The directed sides of those triangles are the edges of the loop and diagonals that come in opposite pairs. |
| StepImport.BoundFanOfFirst | manufacturing/src/step.rs:227-236 | A bound contributes the fan of the first of its loops that resolves, or nothing if none does. |
| StepImport.HolesAreFilled | manufacturing/src/step.rs:220-240 | Inner bounds are read like outer ones, so a face with a hole comes back with the hole filled. |
| StepRoundTrip.SideRead | manufacturing/src/step.rs:51-73 | Direction flag and canonical direction cancel: an oriented edge is read as starting where the face leaves from. |
| StepRoundTrip.EverythingRecovered | manufacturing/src/step.rs:75-104 | Reading a written file recovers exactly the mesh's triangles, with their winding and multiplicity. |
| StepRoundTrip.RoundTrip | manufacturing/src/step.rs:31-258 | For every mesh, rounding and visiting order: only an empty mesh is refused, no corner moves by 1e-7 or more, and the triangles are exactly the rounded ones iff no two different rounded corners are within 1e-7. |
| StepRoundTrip.SlimTriangleComesBackMerged | manufacturing/src/step.rs:31-258 | The failing case, written and read: a triangle with two corners 1e-8 apart. |
| StepRoundTrip.WriteAndRead | manufacturing/src/step.rs:31-258 | Writer and reader composed keep the number of faces and, when corners are separated, the multiset of triangles. |
| StepRoundTrip.OneCurvePerEdge | manufacturing/src/step.rs:51-73 | EDGE_CURVE records and undirected edges of the mesh correspond one to one. |
| StepRoundTrip.TwoOppositeUses | manufacturing/src/step.rs:81-92 | In a closed, consistently oriented mesh every curve is used by exactly two oriented edges, with opposite flags. |
| Slicing.IntersectTriangle | tpt-vertex-slicer/src/layers.rs:191-235 | Classification and pairwise interpolation in place give the specified segment, whose ends are on edges of the triangle at the height of the plane. |
| Slicing.CutIff | tpt-vertex-slicer/src/layers.rs:191-229 | A triangle yields a segment iff no vertex is within 1e-9 of the plane and vertices lie on both sides; the comment about a vertex on the plane does not hold. |
| Slicing.CornerOnPlaneCutsNothing | tpt-vertex-slicer/src/layers.rs:191-235 | The failing case: one corner on the plane, one above, one below. |
| Slicing.CutsOfFace | tpt-vertex-slicer/src/layers.rs:212-234 | The segment's ends are the crossings of the two edges that cross the plane, each taken from above to below. |
| Slicing.CrossingOnEdge | tpt-vertex-slicer/src/layers.rs:219-229 | The point computed for an edge is strictly inside it at the height of the plane, in all three coordinates. |
| Slicing.SegmentOnTriangle | tpt-vertex-slicer/src/layers.rs:191-235 | Both ends of the segment of any triangle are on edges of it that cross the plane, at its height. |
| Cubes.CubeIsSliceable | tpt-vertex-slicer/src/layers.rs:302-362 | The cube of the slicer's own test at mid height meets what the slicing theorem takes. |
| Slicing.SegmentsMatched | tpt-vertex-slicer/src/layers.rs:176-235 | The two faces at an edge compute the same point, so the segments of a watertight mesh meet in pairs. |
| Slicing.SliceAtZ | tpt-vertex-slicer/src/layers.rs:176-187 | Cutting all triangles and stitching, for every mesh: every contour point is strictly inside an edge of some triangle at the height of the plane. |
| Slicing.SliceMesh | tpt-vertex-slicer/src/layers.rs:176-295 | On a watertight mesh at a clear plane every contour is a simple closed polygon, every segment is a side of exactly one, contours share no point, and every contour point is on an edge of the mesh at that height. |
| Stitching.FindNext | tpt-vertex-slicer/src/layers.rs:263-276 | The first unused segment with an end within the tolerance, and its other end; none means none is near. |
| Stitching.CloseAlongAxes | tpt-vertex-slicer/src/layers.rs:239-276 | Ends are joined only if they differ by at most 1e-6 along each axis, and always if they differ by at most that in all. |
| Stitching.TraceLoop | tpt-vertex-slicer/src/layers.rs:248-289 | One walk over new segments, ending closed or stuck; among matched segments it is a simple closed polygon of at least three sides. |
| Stitching.NeverStuck | tpt-vertex-slicer/src/layers.rs:258-289 | Among matched segments an unfinished walk always finds its next segment. |
| Stitching.NeverCrosses | tpt-vertex-slicer/src/layers.rs:258-289 | It never meets one of its inner points again. |
| Stitching.ClosesAsCycle | tpt-vertex-slicer/src/layers.rs:279-284 | Back at its first point it is a simple closed polygon. |
| Stitching.StitchSegments | tpt-vertex-slicer/src/layers.rs:242-295 | For any segments: each is walked exactly once and outlines of fewer than three points are dropped; matched segments give only simple closed polygons. |
| Stitching.ContoursDisjoint | tpt-vertex-slicer/src/layers.rs:242-295 | Different contours of matched segments have no point in common. |
| Toolpaths.NearestOf | tpt-vertex-slicer/src/path.rs:119-130 | The scan finds the nearest remaining start, the first of those equally near. |
| Toolpaths.PlanLayer | tpt-vertex-slicer/src/path.rs:105-152 | The order starts with the first path and always goes on with the nearest one left; the moves follow it. |
| Toolpaths.PlanPrintsEverything | tpt-vertex-slicer/src/path.rs:105-152 | The plan prints the given paths, each exactly as often as given. |
| Toolpaths.PlanIsContinuous | tpt-vertex-slicer/src/path.rs:133-148 | Every path is reached by printing on, up to 1e-6, or by a travel to its start. |
| Toolpaths.ApartAlongAxes | tpt-vertex-slicer/src/path.rs:133-148 | A travel is made to points more than 1e-6 away along an axis, and none to points less than that away in all. |
| Toolpaths.PlannedTravelsLead | tpt-vertex-slicer/src/path.rs:133-148 | Every travel of a planned layer retracts, hops and leads to the start of the path printed next. |
| GcodeEmission.EmitPath | tpt-vertex-slicer/src/gcode.rs:199-252 | The loop over a path's points is the specified state change. |
| GcodeEmission.EmitPlan | tpt-vertex-slicer/src/gcode.rs:135-255 | The loop over a layer's moves, each knowing the next. |
| GcodeEmission.EmitGcode | tpt-vertex-slicer/src/gcode.rs:79-262 | The whole program: header, layers, footer. |
| GcodeVerdicts.TravelIsFree | tpt-vertex-slicer/src/gcode.rs:146-198 | Retract and unretract cancel. |
| GcodeVerdicts.FinalExtrusion | tpt-vertex-slicer/src/gcode.rs:135-255 | Final E is the sum of the extrusions of all printed stretches. |
| GcodeVerdicts.AcceptedIff | tpt-vertex-slicer/src/gcode_validate.rs:62-141 | The validator, without bounds, accepts an emitted program iff some move of the plans is a retracting travel or prints a path with two consecutive points at least 1e-9 apart, and no retraction goes below zero. |
| GcodeVerdicts.FirstRetractionDecides | tpt-vertex-slicer/src/gcode.rs:160-198 | Because E never falls between retractions, only the first one matters. |
| GcodeVerdicts.PlannedProgramAccepted | tpt-vertex-slicer/src/gcode.rs:135-255 | For every list of planned layers with a path, the first of which takes at least the retraction length of filament: the program is accepted iff anything is extruded, so always when the retraction length is positive. |
| GcodeVerdicts.PlannedStarts | tpt-vertex-slicer/src/path.rs:114-148 | Programs of planned layers only begin layers until they print the first path of the first layer that has one. |
| HeadPaths.RunHead | tpt-vertex-slicer/src/gcode.rs:135-255 | Read back line by line by a reader that knows only the lines, the head is after any moves where the plans say: position, height, tool, fan and all motions so far. |
| HeadPaths.ProgramMotions | tpt-vertex-slicer/src/gcode.rs:79-262 | So the motions of the emitted program are exactly the planned ones: travels to their targets, approaches to starts and the stretches of the paths, each with its tool's offset, feed rate, fan and filament. |
| HeadPaths.VolumeOfStretch | tpt-vertex-slicer/src/gcode.rs:227-239 | The filament fed for a stretch has the volume of its bead, times the flow ratio. |
| HeadDrawings.DrawnAsPlanned | tpt-vertex-slicer/src/gcode.rs:135-255 | For every list of level layers the extruding motions end, in order, exactly where the stretches of the printed paths that are not degenerate end, at their layer's height, shifted by their tool's offset. |
| HeadDrawings.ProgramDrawsPaths | tpt-vertex-slicer/src/gcode.rs:79-262 | The same of the text of the program, for all planned layers. |
| HeadDrawings.DrawnPointToPointIff | tpt-vertex-slicer/src/gcode.rs:226-249 | A path is drawn from each point to the next iff no two consecutive points coincide and the head was at its start. |
| HeadDrawings.BeginsAtStart | tpt-vertex-slicer/src/gcode.rs:216-225 | The head is at a path's start, with its tool's offset, when it was away from it or the step before travels there. |
| HeadDrawings.TravelLeadsToStart | tpt-vertex-slicer/src/gcode.rs:146-198 | In planned layers every travel is made with the tool of the path it leads to, so that path begins at its start. |
| HeadDrawings.SecondToolStartsOff | tpt-vertex-slicer/src/gcode.rs:199-225 | The failing case: a path printed straight on with another tool begins where the first tool was. |
| Beads.BeadHeightIs | tpt-vertex-slicer/src/gcode.rs:227-228 | In every list of level layers only the first move of a layer gets a bead as high as the layer is thick; every other one gets 0.01. |
| Beads.BeadHeightMeansThicknessIff | tpt-vertex-slicer/src/gcode.rs:227-228 | The bead is as high as the layer is thick iff it is the first move of a layer thicker than 0.01, or the layer is exactly that thick. |
| Beads.FilamentOfMove | tpt-vertex-slicer/src/gcode.rs:227-239 | The filament of a path in a program of level layers is that of its length in beads of that height. |
| Heating.HeatedForTool | tpt-vertex-slicer/src/gcode.rs:92-133 | Read back, after any moves the bed is asked to have its temperature and the nozzle that of the tool in use, or the printer's own before any other tool was used. |
| Heating.RightTemperatureIff | tpt-vertex-slicer/src/gcode.rs:125-133 | The nozzle target is the temperature of the tool in use iff another tool was used before or the first tool has the printer's temperature. |
| Heating.EverythingOff | tpt-vertex-slicer/src/gcode.rs:257-262 | After the footer nozzle and bed are off. |
| GcodeChecks.ValidateGcode | tpt-vertex-slicer/src/gcode_validate.rs:62-141 | The line and word loops are the specified check, on every program. |
| GcodeReports.ReportedIff | tpt-vertex-slicer/src/gcode_validate.rs:62-141 | What is reported for any program, said of its lines and words: unsupported commands, coordinates beyond the build volume, extrusion below zero, extrusion with no G28 in an earlier line, and no extrusion at all; nothing else. |
| GcodeReports.OutOfBoundsIff | tpt-vertex-slicer/src/gcode_validate.rs:143-163 | A coordinate is reported iff its line has a word on that axis more than 1e-6 beyond the volume's limit. |
| GcodeChecks.BodyChecked | tpt-vertex-slicer/src/gcode_validate.rs:71-135 | Once homed and absolute, lines of supported commands are reported on exactly for negative extrusion values. |

## Left out
- Floating point: rounding, infinities, NaN and negative zero; all arithmetic is over exact reals, and dividing by zero is excluded where the source would get an infinity.
- Text formats: JSON, WebSocket frames, STEP and G-code text. Names containing `;` or `#` in a STEP file and numbers that do not parse in G-code are not modelled.
- 64-bit counters: clocks and key counters are unbounded in the specifications; the methods require room for one more, and only the 64-bit wrap-around of a replica's first key is modelled. Vertex indices are not limited to 32 bits.
- The list of users in a Welcome message is the map it is collected from; the conversion of keys to floats, the display name and the selection setter are omitted.
- The token tables of `MemoryAuth` are an arbitrary function from room and token to subject and level.
- Member lists filtered by `retain` are functions on sequences; a room holds its document as a value.
- One connection sends one Join: what breaks otherwise is stated exactly by `Hubs.JoinOrderlyIff`, and the protocol's runs exclude it.
- Library sorts are modelled by insertion.
- The convergence rate of Jacobi's method, modal masses and frequencies, and the values of the elastic stiffness matrix with its 12 by 12 scatter loop.
- Thermal stress, buckling, contact, mesh refinement and error estimates.
- `validate_watertight` is modelled on its own and not called by `TetMesher.MeshBox`; the point-in-solid test is an arbitrary predicate of the cell centre.
- The directions of STEP planes, which the reader ignores, and the STEP header.
- StepImport.ImportOrderIrrelevant: where corners nearer than 1e-7 are merged, the merged positions may depend on the order, because the first one met is kept.
- The five lookup tables of the STEP reader are map comprehensions rather than loops.
- Planes through a mesh vertex: contours need not close there, because `Slicing.CutIff` drops the segment.
- Layer schedules, infill, supports, seams, bridging detection and adaptive layers.
- Print-time and filament-mass estimates, and build-volume bounds in the claim about emitted programs.
- Geometry kernel operations (extrusion, booleans, fillets), accounts, versioning, materials, tolerances, drawings and presets.
