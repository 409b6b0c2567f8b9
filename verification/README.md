# Verification of the Boon circuit compiler core

A Dafny model of the parts of the compiler whose correctness is hardest to see from the code, with
proofs of what they are for. Every statement below is a contract that the Dafny verifier proves for
all inputs. `dafny verify dfyconfig.toml` checks the project.

## What is modelled

**Incremental request database.** Projections are sealed into a canonical graph: numbering by
identity, iterative strongly connected components (`TarjanSteps`, `Tarjan`), compressed adjacency and
its reversal by counting sort (`Adjacency`), and digests folded over components (`ConeDigests` is the
reference on an abstract graph, `ConeTheorems` its laws, `CanonicalGraph` and `Sealing` the code). The
request evaluator is a graph object with revisions, tickets, a stack of active computations, captured
dependencies and backdating: `RequestGraph` specifies each operation, `EvaluatorInvariant` proves what
every operation keeps, `EvaluatorGraph` and `TypedTable` are the objects. `RequestTable` adds the
requests of a client; `TableInvariant` and `TableRuns` prove what holds at every point of every run,
and `Incremental`, `IncrementalSteps` and `IncrementalRuns` that what a client reads is what
recomputing everything would give; `IncrementalOrder` derives from it that dependencies have no cycle.
`TableReuse` says at every point of every run which requests are reused, executed or refused, what can be
read, and what undoes a demand.

**Checked type algebra.** `Types` defines types and the replacement of variables; `Substitution`
relates one layer, parent-linked frames and transitive substitution, and `SubstitutionCycles` says when
the latter reaches a fixed point and when it is idempotent; `SubstitutionWalks` and `Erasure` are the
copy-on-change walks; `Assignability`, `VariantOrder`, `Widening` and `WideningShared` cover
assignability, the allocation-free comparator and widening; `AssignabilityMeaning` gives types a meaning
as sets of values, and `WideningLaws` says what widening computes without rebuilding anything;
`ExecutionTemplates` is the search that lists the expressions of a callable.

**Type arena.** `TypeTerms` gives a table of terms its meaning, `TypeArena` its invariants,
`TypeArenaBuilder` the hash-consing builder and `TypeMaterialize` the way back.

**Effect record and replay.** `EffectTranscript` specifies both hosts, `EffectHosts` are the objects,
`EffectExact` says position by position what they accept and record, `EffectReplay` proves the
simulation and `EffectConverse` that nothing else is accepted.

**Checked-image publication.** `CheckedPublication` holds the publication, the ownership plan and the
once-only seal; `PublicationRuns` says what a run of publications amounts to, and `OwnershipDigests` what
the digests pin down.

`Wrappers`, `Sorting`, `Graphs` and `Bytes` hold what these share.

## Reading the contracts

- SHA-256 is an arbitrary function. Where a statement needs an ideal hash, it asks that the messages
  actually hashed do not collide (`CollisionFree`); an injective map into 32 bytes does not exist.
  Likewise output fingerprints must tell apart the finitely many values that a run produces
  (`Distinguishes`).
- A client of the evaluator is any sequence of demands, evaluator steps, cancellations, new revisions
  and removals. The input of a request is a function of revision and key: the source rejects a second
  input once the request is verified in a revision. Evaluators are deterministic functions of their
  input and of what they have read.
- Stack, tickets, indices and captured reads are proved for all such runs. Closure of verified
  requests and acyclicity need that no removal takes away what a kept verified request has read
  (`Detaches`); `EvaluatorInvariant.RemoveInv` shows that this is exactly when one removal keeps them.
  The value theorem needs this only if identities of demanded requests collide (`Identifies`), and
  acyclicity only if identities or output fingerprints do (`IncrementalOrder`).
- One table stands for the tables of all request families: identities include the family name.
- Errors that cannot occur are proved unreachable and do not appear as branches of the methods.
- A recorded run is one in which every call succeeded; the replaying runtime may use any call
  identities, of any type, that are not live at the time.
- Arena statements hold for every digest function, collisions included, as long as calls succeed. An
  address names one node: the model picks, for each shared node, any address at which no other node
  lives.
- A sharing test by address is any Boolean that implies equality.
- Values of types are finite trees; a function is a finite list of results for arguments, and what
  unresolved types stand for is a parameter.
- Names are the bytes of their text. Counts and indices are unbounded unless the source checks them
  or writes them with a fixed width; those widths are modelled.

Code and documentation disagree in one place. Sealing is documented to fail unless every pending
projection receives exactly one local digest (crates/boon_compilation_db/src/lib.rs:880-884), but a
second digest reports an error and replaces the first all the same (lines 900-914), so a caller that
ignores the error can still seal; the model follows the code.

## Model

| member | source | states |
|---|---|---|
| `Tarjan.StronglyConnectedComponents` | crates/boon_compilation_db/src/lib.rs:1355-1433 | for every graph the iterative search succeeds exactly when all targets exist; two nodes share a component iff each reaches the other, members are listed once and ascending, and no edge leads to a larger component number, so none of its internal errors can fire |
| `Tarjan.PushFromActiveUntil` | crates/boon_compilation_db/src/lib.rs:1334-1352 | the component popped off the active stack is the sorted block above and including the root |
| `Tarjan.Conclusion` | crates/boon_compilation_db/src/lib.rs:1355-1433 | when every node is numbered, the recorded components are the classes of mutual reachability, dependencies first |
| `TarjanSteps.TakeNew` | crates/boon_compilation_db/src/lib.rs:1387-1407 | entering an undiscovered node keeps the search invariant |
| `TarjanSteps.TakeOld` | crates/boon_compilation_db/src/lib.rs:1387-1407 | an edge to a discovered node lowers the low link only towards live nodes and keeps the invariant |
| `TarjanSteps.LeaveInner` | crates/boon_compilation_db/src/lib.rs:1410-1416 | leaving a node that is no root hands its low link to its parent and keeps the invariant |
| `TarjanSteps.EmitInv` | crates/boon_compilation_db/src/lib.rs:1410-1424 | emitting the block of a root as a component keeps the invariant |
| `Adjacency.AdjacencyOffsets` | crates/boon_compilation_db/src/lib.rs:1435-1448 | offsets and arena are the compressed form of the rows |
| `Adjacency.ReverseAdjacency` | crates/boon_compilation_db/src/lib.rs:1450-1489 | counting sort succeeds exactly when every target exists, and gives the compressed form of the reversed rows |
| `Adjacency.SourcesMember` | crates/boon_compilation_db/src/lib.rs:1450-1489 | the bucket of a target holds exactly the nodes with an edge to it |
| `Adjacency.SourcesStrict` | crates/boon_compilation_db/src/lib.rs:1450-1489 | for deduplicated rows the sources of a target are strictly ascending |
| `Adjacency.ReverseTwiceCsr` | crates/boon_compilation_db/src/lib.rs:1435-1489 | reversing the compressed form of sorted, deduplicated rows twice gives back the same offsets and arena |
| `Adjacency.CountTargets` | crates/boon_compilation_db/src/lib.rs:1455-1463 | counts each target exactly, and fails exactly when a target is out of range |
| `Adjacency.PlaceRow` | crates/boon_compilation_db/src/lib.rs:1479-1487 | every edge of a row is written to the next free slot of its bucket and to no other slot |
| `Sealing.DenseProjectionGraphBuilder.RegisterPending` | crates/boon_compilation_db/src/lib.rs:885-898 | appends a projection without local digest, within 32 bits |
| `Sealing.DenseProjectionGraphBuilder.SetLocalDigest` | crates/boon_compilation_db/src/lib.rs:900-914 | a second digest is an error and still replaces the first |
| `Sealing.DenseProjectionGraphBuilder.Register` | crates/boon_compilation_db/src/lib.rs:870-878 | registers a projection with its local digest |
| `Sealing.DenseProjectionGraphBuilder.AddDependency` | crates/boon_compilation_db/src/lib.rs:920-937 | adds an edge between registered projections, or nothing |
| `Sealing.Canonicalize` | crates/boon_compilation_db/src/lib.rs:949-972 | numbers projections by ascending identity, or reports a repeated identity or a missing local digest, exactly when there is one |
| `Sealing.Seal` | crates/boon_compilation_db/src/lib.rs:939-1092 | sealing succeeds exactly with a domain, distinct identities and all local digests; components, digests and both adjacency forms are then those of the described graph |
| `Sealing.FoldComponents` | crates/boon_compilation_db/src/lib.rs:995-1050 | folding components in emission order computes the reference digest of every component |
| `Sealing.ComponentsBelow` | crates/boon_compilation_db/src/lib.rs:995-1014 | the components directly below one, by representative; all come earlier, so the dependency-first check never fails |
| `Sealing.OrderDependencies` | crates/boon_compilation_db/src/lib.rs:1004-1014 | direct dependencies of a component, once each, by representative |
| `Sealing.ComponentBytes` | crates/boon_compilation_db/src/lib.rs:1029-1049 | the bytes fed to the hasher are the reference message of the component |
| `Sealing.ImplementationDigest` | crates/boon_compilation_db/src/lib.rs:1206-1230 | the published digest is the reference digest of the identity, or an error for an empty domain or an unknown projection |
| `Sealing.ReverseDependents` | crates/boon_compilation_db/src/lib.rs:1192-1204 | the projections that depend directly on the given one |
| `Sealing.PublishedIsReference` | crates/boon_compilation_db/src/lib.rs:1206-1230 | what a sealed graph publishes depends on the described graph only |
| `Sealing.PublishedCanonical` | crates/boon_compilation_db/src/lib.rs:939-1092 | registration order, edge order and repeated edges change no implementation digest |
| `Sealing.PublishedLocal` | crates/boon_compilation_db/src/lib.rs:939-1092 | nothing outside the dependency cone changes an implementation digest |
| `Sealing.PublishedExact` | crates/boon_compilation_db/src/lib.rs:1206-1230 | without collisions two sealed graphs publish the same digest iff the registrations describe the same condensed cone |
| `Sealing.PublishedSensitive` | crates/boon_compilation_db/src/lib.rs:1206-1230 | without collisions a changed local digest in the cone changes what is published |
| `Sealing.SealsSecondDigest` | crates/boon_compilation_db/src/lib.rs:880-914 | a projection given two local digests seals all the same, with the second: sealing asks for at least one digest, not exactly one |
| `ConeTheorems.Local` | crates/boon_compilation_db/src/lib.rs:995-1050 | graphs that agree on the cone of a projection give it the same digest |
| `ConeTheorems.Exact` | crates/boon_compilation_db/src/lib.rs:995-1050 | without collisions among the hashed messages, two digests are equal iff the condensed cones are equal: the same projections with the same local digests, in the same components, with the same components below each |
| `ConeTheorems.InnerEdgesFree` | crates/boon_compilation_db/src/lib.rs:995-1050 | nothing finer is shown: two graphs with different edges inside a component get the same digest, whatever the hash |
| `ConeTheorems.Sensitive` | crates/boon_compilation_db/src/lib.rs:995-1050 | without collisions, changing any local digest in the cone changes the implementation digest |
| `ConeTheorems.DomainsSeparate` | crates/boon_compilation_db/src/lib.rs:1206-1230 | without a collision, equal implementation digests mean the same domain, the same projection, the same representative and the same component digest |
| `ConeDigests.RepresentativeLeast` | crates/boon_compilation_db/src/lib.rs:986-993 | the representative of a component is its smallest identity |
| `Bytes.BigEndianReads` | crates/boon_compilation_db/src/lib.rs:1491-1503 | a count is written most significant byte first: reading the bytes back gives the count |
| `Bytes.CompareLess` | crates/boon_compilation_db/src/lib.rs:949-972 | one byte string is smaller exactly when it ends or has the smaller byte at the first difference |
| `EvaluatorInvariant.BackdatedReuse` | crates/boon_compilation_db/src/lib.rs:64-92 | after a request is published again, a request that read it before is green iff the result did not change, its input is the same and its other dependencies are unchanged |
| `EvaluatorInvariant.RegisterInv` | crates/boon_compilation_db/src/lib.rs:306-329 | registration keeps the stack, index, memo and identity invariants, and, where they held, closure of verified requests and acyclicity |
| `EvaluatorInvariant.AdvanceInv` | crates/boon_compilation_db/src/lib.rs:237-263 | a new revision settles every active computation, leaves nothing verified and keeps the stack, index, memo and identity invariants, and, where they held, closure of verified requests and acyclicity |
| `EvaluatorInvariant.BeginInv` | crates/boon_compilation_db/src/lib.rs:343-428 | on all of its paths (cycle, reuse, green reuse and execution) begin keeps the stack, index, memo and identity invariants, and, where they held, closure of verified requests and acyclicity |
| `EvaluatorInvariant.AbortInv` | crates/boon_compilation_db/src/lib.rs:559-584 | abort keeps the stack, index, memo and identity invariants, and, where they held, closure of verified requests and acyclicity |
| `EvaluatorInvariant.PublishInv` | crates/boon_compilation_db/src/lib.rs:510-557 | publication, for any ticket, keeps the stack, index, memo and identity invariants, and, where they held, closure of verified requests and acyclicity |
| `EvaluatorInvariant.ReplaceLinked` | crates/boon_compilation_db/src/lib.rs:495-508 | replacing dependencies keeps dependencies and reverse dependents converse |
| `EvaluatorInvariant.ReplaceAcyclic` | crates/boon_compilation_db/src/lib.rs:495-557 | dependencies on verified requests, taken by an unverified one, close no cycle |
| `EvaluatorInvariant.RemoveInv` | crates/boon_compilation_db/src/lib.rs:586-608 | removal always keeps the stack, index, memo and identity invariants, and keeps closure and acyclicity exactly when no kept verified request depends on a removed one |
| `EvaluatorInvariant.NoCycle` | crates/boon_compilation_db/src/lib.rs:495-557 | no chain of stored dependencies leads back to its start |
| `EvaluatorGraph.RequestEvaluatorGraph.constructor` | crates/boon_compilation_db/src/lib.rs:202-212 | a new graph is empty and satisfies the invariant |
| `EvaluatorGraph.RequestEvaluatorGraph.AdvanceTo` | crates/boon_compilation_db/src/lib.rs:237-263 | the loop over active nodes does what the specification of a new revision says, or refuses a revision that is not newer |
| `EvaluatorGraph.RequestEvaluatorGraph.Register` | crates/boon_compilation_db/src/lib.rs:306-329 | the object does what the specification of registration says |
| `EvaluatorGraph.RequestEvaluatorGraph.Begin` | crates/boon_compilation_db/src/lib.rs:343-428 | the object does what the specification of begin says, with the green check as a loop |
| `TableReuse.ReusedExactly` | crates/boon_compilation_db/src/lib.rs:343-428 | at every point of every run, a demand for a known request fails iff it is being computed; it is reused iff it was verified in this revision, or its recorded execution had the present input and everything it read has been verified in this revision and has not changed since; it is executed otherwise |
| `TableReuse.UnknownExactly` | crates/boon_compilation_db/src/lib.rs:658-692 | a demand for an unknown or dropped request fails iff its identity is taken by another request or the graph is full, and is executed otherwise |
| `TableReuse.NothingExecutes` | crates/boon_compilation_db/src/lib.rs:379-408 | in a new revision in which no input changed, demanding verified requests again, dependencies first, executes nothing: every demand is reused, nothing is computed and every value stays |
| `TableReuse.RunTraced` | crates/boon_compilation_db/src/lib.rs:510-557 | at every point of every run, stored inputs and dependencies are those of the recorded execution, and what is verified has the input of the revision |
| `EvaluatorGraph.RequestEvaluatorGraph.Require` | crates/boon_compilation_db/src/lib.rs:466-493 | captures a dependency exactly when it is current and the ticket is live |
| `EvaluatorGraph.RequestEvaluatorGraph.ReplaceDependencies` | crates/boon_compilation_db/src/lib.rs:495-508 | the two loops take the node out of old reverse sets and put it into new ones |
| `EvaluatorGraph.RequestEvaluatorGraph.Publish` | crates/boon_compilation_db/src/lib.rs:510-557 | the object does what the specification of publication says |
| `EvaluatorGraph.RequestEvaluatorGraph.Abort` | crates/boon_compilation_db/src/lib.rs:559-584 | the object does what the specification of abort says |
| `TableReuse.DemandThenCancel` | crates/boon_compilation_db/src/lib.rs:559-584 | a demand that is cancelled changes nothing but the state of its node: failed, or published or vacant according to whether it has a result |
| `TableReuse.DemandThenAdvance` | crates/boon_compilation_db/src/lib.rs:237-263 | a new revision supersedes a demand as if it had not been made |
| `EvaluatorGraph.RequestEvaluatorGraph.RemoveNodes` | crates/boon_compilation_db/src/lib.rs:586-608 | removing nodes one after the other is removing the set; the object stays valid, and ordered exactly when the removal is detached |
| `EvaluatorGraph.RequestEvaluatorGraph.ReverseCone` | crates/boon_compilation_db/src/lib.rs:289-304 | exactly the roots and the requests that depend on one of them through any number of steps |
| `EvaluatorGraph.ChainIsWalk` | crates/boon_compilation_db/src/lib.rs:289-304 | a chain of reverse dependents is a walk along dependencies read backwards |
| `TypedTable.TypedRequestTable.EnsureNode` | crates/boon_compilation_db/src/lib.rs:658-682 | a key gets one node; a fingerprint collision is an error |
| `TypedTable.TypedRequestTable.Begin` | crates/boon_compilation_db/src/lib.rs:684-692 | begins the request of a key |
| `TypedTable.TypedRequestTable.Require` | crates/boon_compilation_db/src/lib.rs:694-713 | gives the value of a current dependency and captures it in the ticket |
| `TypedTable.TypedRequestTable.Publish` | crates/boon_compilation_db/src/lib.rs:715-747 | stores a value when it changed or none was stored; a value without fingerprint fails the computation |
| `TypedTable.TypedRequestTable.CurrentValue` | crates/boon_compilation_db/src/lib.rs:758-776 | the stored value if its request is current, and an error while anything is evaluated |
| `TableReuse.ReadExactly` | crates/boon_compilation_db/src/lib.rs:758-776 | at every point of every run, a value can be read iff nothing is computed and the request was verified in this revision, and it is the stored one |
| `TypedTable.TypedRequestTable.Retain` | crates/boon_compilation_db/src/lib.rs:790-807 | drops requests from table and graph together |
| `TableReuse.RetainExactly` | crates/boon_compilation_db/src/lib.rs:790-807 | dropping requests forgets exactly those and keeps node, value and memo of all others; while something is computed it changes nothing |
| `Incremental.EvaluatesUnique` | crates/boon_compilation_db/src/lib.rs:343-428 | recomputing a request from the inputs of a revision has at most one result |
| `Incremental.CurrentIsFromScratch` | crates/boon_compilation_db/src/lib.rs:758-776 | in a state that satisfies the invariant, the value read as current is the one result of recomputation |
| `IncrementalSteps.GreenRight` | crates/boon_compilation_db/src/lib.rs:379-408 | green reuse is justified: what a green request has read is still what is stored |
| `TableInvariant.RequireCore` | crates/boon_compilation_db/src/lib.rs:694-713 | a live computation can read exactly the current requests |
| `TableInvariant.PublishCore` | crates/boon_compilation_db/src/lib.rs:715-747 | publishing the result of an evaluator succeeds iff the result has a fingerprint |
| `TableInvariant.RetainCore` | crates/boon_compilation_db/src/lib.rs:790-807 | dropping any requests keeps table, graph and live computations in step; the order of the graph survives if no kept verified request has read one of them |
| `TableInvariant.ApplyCore` | crates/boon_compilation_db/src/lib.rs:343-608 | every request of a client keeps the invariant of table, graph and live computations, and only a removal can disturb the order of the graph |
| `TableRuns.After` | crates/boon_compilation_db/src/lib.rs:343-608 | at every point of every run, for every program, any fingerprints and any removals: the stack is the computing nodes, tickets match it, dependencies and dependents are converse, memos are in order, and all that live computations have read is current |
| `TableRuns.RunInvariant` | crates/boon_compilation_db/src/lib.rs:343-608 | if no removal takes away what a kept verified request has read, verified requests are also closed under dependencies and dependencies are acyclic, at every point |
| `TableRuns.RunAcyclic` | crates/boon_compilation_db/src/lib.rs:495-557 | in such runs no chain of stored dependencies leads back to its start |
| `TableRuns.CapturedStaysCurrent` | crates/boon_compilation_db/src/lib.rs:466-493 | in every run, what a live ticket has captured stays current, with the value that was read, until it publishes |
| `TableRuns.LivePublishes` | crates/boon_compilation_db/src/lib.rs:510-557 | in every run, no error of publication is reachable for the ticket on top of the stack |
| `TableRuns.OnlyTopTicket` | crates/boon_compilation_db/src/lib.rs:432-464 | in every run, the graph accepts no ticket but that of the computation on top of the stack |
| `TableRuns.StaleTicket` | crates/boon_compilation_db/src/lib.rs:432-464 | a ticket from before a new revision can never again read, publish or abort |
| `IncrementalSteps.GreenComposes` | crates/boon_compilation_db/src/lib.rs:379-408 | the stored value of a request found green is the result of recomputing it now, and so is all it has read |
| `IncrementalSteps.TopRecomputed` | crates/boon_compilation_db/src/lib.rs:510-557 | what a computation is about to publish is the result of recomputing it |
| `IncrementalSteps.PostsStillRight` | crates/boon_compilation_db/src/lib.rs:531-557 | publishing, with or without backdating, leaves every recorded read right unless it has been superseded |
| `IncrementalSteps.KeptValue` | crates/boon_compilation_db/src/lib.rs:738-746 | with fingerprints that tell values apart, a backdated publication keeps the right value |
| `IncrementalSteps.RetainFaithful` | crates/boon_compilation_db/src/lib.rs:790-807 | dropping any requests leaves every kept current value the recomputed one |
| `IncrementalRuns.IncrementalEqualsFromScratch` | crates/boon_compilation_db/src/lib.rs:343-428 | at every point of every run, whatever mix of reuse, backdating, failure, cancellation, supersession and removal led there, a current value is the one result of recomputing its request from the inputs of the revision; output fingerprints must tell the produced values apart, and either removals are detached or identities tell the demanded requests apart |
| `IncrementalOrder.ReadShallower` | crates/boon_compilation_db/src/lib.rs:466-493 | what an evaluator reads is nested less deep in a recomputation than the evaluator |
| `IncrementalOrder.RunAcyclicWithRemovals` | crates/boon_compilation_db/src/lib.rs:495-608 | where fingerprints do not collide, no chain of stored dependencies leads back to its start at any point of any run, even after what a verified request has read was removed |
| `Substitution.WalkIsLayers` | crates/boon_checked/src/lib.rs:1799-1946 | one walk through parent-linked frames equals substituting layer by layer, for every type, every frames and every bound on their number, cyclic chains included |
| `Substitution.WalkIsFrameByFrame` | crates/boon_checked/src/lib.rs:1788-1797 | on a chain that ends within the frame count the walk is the frame-by-frame substitution from child to root |
| `Substitution.LookupFirst` | crates/boon_checked/src/lib.rs:1728-1734 | a variable is bound to a value iff the first binding of the variable has this value |
| `Substitution.OnceFirst` | crates/boon_checked/src/lib.rs:2007-2012 | one layer makes of a variable the value of its first binding, and leaves a variable without binding |
| `Substitution.WalkFirst` | crates/boon_checked/src/lib.rs:1799-1840 | a walk makes of a variable the value of its first binding in the nearest frame that changes it, substituted through the frames beyond |
| `Substitution.ResolveFirst` | crates/boon_checked/src/lib.rs:2021-2046 | transitively, a variable becomes the value of its first binding, resolved in turn |
| `SubstitutionWalks.WalkFrames` | crates/boon_checked/src/lib.rs:1799-1946 | the copy-on-change walk gives the substituted type, terminates, and reports a change exactly when there is one |
| `SubstitutionWalks.WalkBindings` | crates/boon_checked/src/lib.rs:1809-1837 | the loop over the frames finds what the nearest frame that changes the variable makes of it |
| `SubstitutionWalks.WalkSequence` | crates/boon_checked/src/lib.rs:1948-1969 | a sequence is copied exactly when an element changes |
| `SubstitutionWalks.WalkShape` | crates/boon_checked/src/lib.rs:1971-1998 | fields are copied exactly when one changes |
| `SubstitutionWalks.ApplyFrames` | crates/boon_checked/src/lib.rs:1788-1797 | applies all frames as layers, and frame by frame when the chain fits |
| `SubstitutionWalks.SubstituteInner` | crates/boon_checked/src/lib.rs:2014-2170 | the walk over one environment gives one layer, or transitive substitution, and reports a change exactly when there is one |
| `SubstitutionWalks.SubstituteVariable` | crates/boon_checked/src/lib.rs:2021-2046 | a variable is left, replaced once, or replaced and resolved unless it is being resolved |
| `SubstitutionWalks.ApplyOnce` | crates/boon_checked/src/lib.rs:2007-2012 | one-layer substitution; a variable becomes the value of its first binding |
| `SubstitutionWalks.Apply` | crates/boon_checked/src/lib.rs:2000-2005 | transitive substitution on every environment; a variable becomes the resolved value of its first binding, and without cycles the result is a fixed point of one layer |
| `Substitution.ResolveIsIterate` | crates/boon_checked/src/lib.rs:2014-2170 | without cycles, transitive substitution is one-layer substitution repeated more often than the ranks go |
| `Substitution.ResolveFixed` | crates/boon_checked/src/lib.rs:2014-2170 | without cycles, transitive substitution is what repeated one-layer substitution settles at, and leaves no replaceable variable |
| `SubstitutionCycles.FixedIffAcyclic` | crates/boon_checked/src/lib.rs:2014-2170 | transitive substitution ends in a fixed point of one layer for every type iff the bindings have no cycle |
| `SubstitutionCycles.IdempotentIffBareCycles` | crates/boon_checked/src/lib.rs:2014-2170 | transitive substitution is idempotent for every type iff every cycle of the bindings runs through bare variables only |
| `SubstitutionCycles.SurvivesItself` | crates/boon_checked/src/lib.rs:2014-2170 | a variable on a cycle occurs in what it resolves to |
| `SubstitutionCycles.ResolveOnCycle` | crates/boon_checked/src/lib.rs:2014-2170 | a pair of bindings on which it is not idempotent |
| `Types.ReplaceTwice` | crates/boon_checked/src/lib.rs:2014-2170 | replacing variables twice is replacing them once by the composition |
| `Erasure.EraseVars` | crates/boon_checked/src/lib.rs:419-421 | erasure replaces every variable by Unknown, leaves none, and changes a type exactly when it has one |
| `Erasure.EraseInner` | crates/boon_checked/src/lib.rs:423-491 | the copy-on-change walk returns the erased type, or nothing exactly when erasing changes nothing |
| `Erasure.EraseShape` | crates/boon_checked/src/lib.rs:493-510 | the same for object shapes |
| `Erasure.ErasedChanges` | crates/boon_checked/src/lib.rs:386-417 | the variable test holds exactly when erasure changes the type |
| `Erasure.ErasedIdempotent` | crates/boon_checked/src/lib.rs:419-491 | erasing twice is erasing once, and no variable is left |
| `TypeArenaBuilder.ArtifactTypeModuleBuilder.constructor` | crates/boon_checked/src/type_terms.rs:493-507 | a new builder holds the one term for Unknown |
| `TypeArenaBuilder.ArtifactTypeModuleBuilder.InternKind` | crates/boon_checked/src/type_terms.rs:621-661 | one term per layer, with an erased twin when it contains a variable; earlier terms are not touched; refused, with nothing changed, when a part is missing, the digest belongs to another layer or the table is full, and otherwise only when the erased layer is |
| `TypeArenaBuilder.ArtifactTypeModuleBuilder.KindContainsVariable` | crates/boon_checked/src/type_terms.rs:756-765 | the flag of a layer from the flags of its children |
| `TypeArenaBuilder.ArtifactTypeModuleBuilder.EraseTerm` | crates/boon_checked/src/type_terms.rs:655-659 | interning the erased twin and patching the pointer restores the table invariant |
| `TypeArenaBuilder.ArtifactTypeModuleBuilder.InternType` | crates/boon_checked/src/type_terms.rs:515-614 | an interned type gets a canonical term that means exactly this type; earlier terms keep their meaning; a type is refused only if some layer over the terms is |
| `TypeArena.StuckMeans` | crates/boon_checked/src/type_terms.rs:621-661 | a layer is refused only if the table is full or two different messages have one digest |
| `TypeArenaBuilder.ArtifactTypeModuleBuilder.InternObjectShape` | crates/boon_checked/src/type_terms.rs:728-754 | the same for object shapes, through the address cache |
| `TypeArenaBuilder.ArtifactTypeModuleBuilder.InternShared` | crates/boon_checked/src/type_terms.rs:553-563 | a cached address gives a term that means the node at the address |
| `TypeArenaBuilder.ErasedKindPlain` | crates/boon_checked/src/type_terms.rs:767-847 | the erased layer has no variable and only existing children |
| `TypeTerms.MeaningStable` | crates/boon_checked/src/type_terms.rs:621-661 | adding terms keeps the meaning of earlier ones |
| `TypeArena.CanonicalUnique` | crates/boon_checked/src/type_terms.rs:621-661 | canonical terms that mean the same type are the same term, for any digest function |
| `TypeArena.ErasedMeaning` | crates/boon_checked/src/type_terms.rs:643-660 | the erased twin of any term means the erased type of the term |
| `TypeArena.FlagMeaning` | crates/boon_checked/src/type_terms.rs:756-765 | the stored flag of a canonical term is the variable test of its type |
| `TypeMaterialize.MaterializeType` | crates/boon_checked/src/type_terms.rs:153-156 | materialising gives the meaning of the term, or an error exactly when a tagged variant under it does not refer to an object |
| `TypeMaterialize.MaterializeWithCache` | crates/boon_checked/src/type_terms.rs:165-268 | the same with a cache of materialised types, which stays right |
| `TypeMaterialize.RoundTrip` | crates/boon_checked/src/type_terms.rs:153-268 | whatever was interned is materialised unchanged, however many terms were added since |
| `TypeMaterialize.SameTermIffEqual` | crates/boon_checked/src/type_terms.rs:515-661 | two interned types have the same term iff they are equal |
| `TypeMaterialize.PrecomputedErasure` | crates/boon_checked/src/type_terms.rs:643-660 | the stored twin and flag of an interned type are those of recursive erasure |
| `VariantOrder.DecimalSuffix` | crates/boon_checked/src/lib.rs:4329-4343 | a colon and the decimal digits of any 64-bit count fit the 21-byte buffer from its end |
| `VariantOrder.DecimalReads` | crates/boon_checked/src/lib.rs:4329-4343 | the digits read in base ten give the number, and there is no leading zero |
| `VariantOrder.CompareJoined` | crates/boon_checked/src/lib.rs:4345-4368 | compares the concatenations lexicographically without joining them |
| `VariantOrder.CompareTagged` | crates/boon_checked/src/lib.rs:4313-4327 | is the lexicographic order on the bytes of tag, colon and decimal count |
| `VariantOrder.CompareCanonically` | crates/boon_checked/src/lib.rs:4286-4307 | bare tags before tagged variants, each in its own order |
| `VariantOrder.CompareTies` | crates/boon_checked/src/lib.rs:4286-4327 | ties are exactly equal tags with, for tagged variants, equally many fields |
| `VariantOrder.VariantPreorder` | crates/boon_checked/src/lib.rs:4286-4327 | the order is a total preorder |
| `VariantOrder.CanonicalOrder` | crates/boon_checked/src/lib.rs:4286-4307 | in canonical order bare tags come first, by their bytes, then tagged variants, by their keys |
| `VariantOrder.SortKeyOrder` | crates/boon_checked/src/lib.rs:4313-4327 | keys compare as tags do unless one tag continues the other: then by the next byte and the colon |
| `Sorting.SortStable` | crates/boon_checked/src/lib.rs:4143-4145 | sorting keeps tied elements in their order |
| `Assignability.Transitive` | crates/boon_checked/src/lib.rs:3777-3839 | assignability is transitive, whatever the middle type, wherever the last type expects RenderContract only of objects whose kind is no union: unions on either side, records, variant payloads and contravariant arguments |
| `Assignability.TransitivePlainOrQuiet` | crates/boon_checked/src/lib.rs:3777-3839 | in particular it is transitive between all types that do not mention RenderContract, and between all types in which no kind is a union |
| `Assignability.TransitiveIntoRender` | crates/boon_checked/src/lib.rs:3758-3775 | transitivity into RenderContract holds iff no object that the first type offers has a union for its kind |
| `Assignability.TransitiveVariant` | crates/boon_checked/src/lib.rs:3841-3862 | under the same condition variants compose tag by tag through their payload records |
| `Assignability.RenderContractNotTransitive` | crates/boon_checked/src/lib.rs:3758-3775 | a triple with a union for its kind on which assignability is not transitive |
| `AssignabilityMeaning.Sound` | crates/boon_checked/src/lib.rs:3777-3862 | a value of an assignable type is a value of the expected type, for all types and whatever unresolved types stand for |
| `AssignabilityMeaning.AssignableIsInclusion` | crates/boon_checked/src/lib.rs:3777-3862 | where the right side has no unions, one variant per tag and neither sets, maps nor RenderContract, assignable means exactly that every value of the one type is a value of the other; arguments of functions change sides |
| `AssignabilityMeaning.RenderableIsInclusion` | crates/boon_checked/src/lib.rs:3758-3775 | assignable to RenderContract means exactly: only rendered values, and no union for a kind |
| `AssignabilityMeaning.Invariant` | crates/boon_checked/src/lib.rs:3786-3812 | a union is met by one of its members; sets, maps and unresolved types are met by themselves only |
| `AssignabilityMeaning.ItemsAndLengthsCount` | crates/boon_checked/src/lib.rs:3804-3806 | items of lists and lengths of bytes count |
| `AssignabilityMeaning.FunctionPartsCount` | crates/boon_checked/src/lib.rs:3818-3836 | arguments, flow mode and result of a function count, arguments the other way round |
| `AssignabilityMeaning.PayloadFieldsCount` | crates/boon_checked/src/lib.rs:3841-3862 | every field of an expected payload counts, and a bare tag is no tagged variant |
| `Widening.CompleteStays` | crates/boon_checked/src/lib.rs:4261-4284 | a completely ordered shape that gains no field keeps its order under the general rule |
| `WideningShared.FieldOrder` | crates/boon_checked/src/lib.rs:4261-4277 | the declared orders of both shapes, then the missing fields, without repeats |
| `WideningShared.WidenObjects` | crates/boon_checked/src/lib.rs:4169-4208 | the sharing version gives fields, field order and openness of the naive rebuild |
| `WideningShared.WidenVariants` | crates/boon_checked/src/lib.rs:4077-4146 | the sharing version gives the merged variants in canonical order, with or without a copy |
| `WideningShared.MergeVariant` | crates/boon_checked/src/lib.rs:4079-4136 | one incoming variant: appended, ignored or merged, copied only if needed |
| `WideningShared.WidenTypes` | crates/boon_checked/src/lib.rs:4069-4211 | for any reuse test that implies equality, the sharing version equals the naive rebuild |
| `WideningLaws.WidenCovers` | crates/boon_checked/src/lib.rs:4069-4211 | a widened type covers both sides: field by field, tag by tag, item by item, whatever the left side, if the tags of the right side have one payload each |
| `WideningLaws.WidenLeast` | crates/boon_checked/src/lib.rs:4069-4211 | and it is the least such type: whatever covers both sides, with one payload for each of its tags, covers it |
| `WideningLaws.RepeatedTagLost` | crates/boon_checked/src/lib.rs:4077-4146 | for every list of tags in which a tag has two payloads there are payloads under which what the left side said is lost |
| `WideningLaws.LosslessIffOnePayload` | crates/boon_checked/src/lib.rs:4077-4146 | as far as the tags of the right side decide, widening covers both sides for every left side iff no tag has two payloads |
| `WideningLaws.WidenTags` | crates/boon_checked/src/lib.rs:4077-4146 | the tags of a widened variant set, and those with a payload, are exactly those of both sides |
| `WideningLaws.WidenKinds` | crates/boon_checked/src/lib.rs:4150-4211 | types that say something keep their kind, objects have exactly the fields of both sides and are open iff one is, and different kinds give the open empty object |
| `WideningLaws.WidenNeutral` | crates/boon_checked/src/lib.rs:4069-4151 | widening with a placeholder, with absence or with the missing element gives the other side |
| `WideningLaws.WidenedOrderFirsts` | crates/boon_checked/src/lib.rs:4261-4277 | the order of a widened object names exactly its fields, once each, by where they come first in the two declared orders and then by name |
| `ExecutionTemplates.Derive` | crates/boon_checked/src/lib.rs:2911-3003 | the stack-based search succeeds exactly when every reachable dependency exists; it lists every reachable expression once, the result last, and every dependency before its user unless both lie on a cycle |
| `ExecutionTemplates.EnterInv` | crates/boon_checked/src/lib.rs:2968-3001 | entering an expression keeps the search invariant |
| `ExecutionTemplates.ExitInv` | crates/boon_checked/src/lib.rs:2932-2962 | an exiting entry is always that of the innermost expression, never seen finished, and keeps the invariant |
| `ExecutionTemplates.SkipInv` | crates/boon_checked/src/lib.rs:2963-2969 | an expression that is finished or being visited is skipped |
| `EffectHosts.RecordingHost.RouteTurn` | crates/boon_behavior_harness/src/lib.rs:159-226 | a recorded turn commits calls, counter and event together, or nothing |
| `EffectHosts.RecordingHost.TryCompletion` | crates/boon_behavior_harness/src/lib.rs:345-401 | a completion is recorded by logical call, and a terminal one ends the call |
| `EffectHosts.ReplayingHost.RouteTurn` | crates/boon_behavior_harness/src/lib.rs:227-343 | a replayed turn is accepted exactly when it matches the next recorded route; a refusal changes nothing |
| `EffectExact.ReplayTurnExact` | crates/boon_behavior_harness/src/lib.rs:227-343 | an empty turn passes; any other is accepted iff the next event is a route with the same sequence and source, the same cancelled logical calls, the same credits on the same logical calls, and equally many effects with equal bodies position by position, under fresh calls; the live calls are then known |
| `EffectExact.RecordTurnExact` | crates/boon_behavior_harness/src/lib.rs:159-226 | a turn is recorded iff it cancels and credits live calls only and its calls are fresh; the event is the route of the turn, with consecutive new numbers |
| `EffectHosts.ReplayingHost.TryCompletion` | crates/boon_behavior_harness/src/lib.rs:402-443 | gives the next recorded completion for the live call, or nothing when a route comes first |
| `EffectHosts.ReplayingHost.AssertConsumed` | crates/boon_behavior_harness/src/lib.rs:463-483 | holds exactly when the transcript is read to its end and no call is live |
| `EffectReplay.TurnSimulates` | crates/boon_behavior_harness/src/lib.rs:159-342 | a renamed turn is accepted by replay whenever the turn was recorded |
| `EffectConverse.OnlyRenamingsAccepted` | crates/boon_behavior_harness/src/lib.rs:159-342 | a recorded turn that routed something is replayed by a turn iff that turn is the recorded one renamed |
| `EffectConverse.AcceptedRunIsRenamed` | crates/boon_behavior_harness/src/lib.rs:159-443 | replay accepts a run, reading an event wherever one was recorded, iff it is the recorded run renamed |
| `EffectConverse.LiveIsUnended` | crates/boon_behavior_harness/src/lib.rs:159-401 | at every point of every recorded run the live calls are those that the transcript invokes and does not cancel or terminally complete |
| `EffectConverse.ConsumedWhenAllEnded` | crates/boon_behavior_harness/src/lib.rs:463-483 | a replay is consumed iff every invocation of the transcript was ended in it |
| `EffectReplay.CompletionSimulates` | crates/boon_behavior_harness/src/lib.rs:345-443 | replay reports the recorded completion under the renamed call |
| `EffectReplay.ReplaySimulatesRecord` | crates/boon_behavior_harness/src/lib.rs:159-483 | for every error-free recording and every runtime that emits the same turns under renamed calls: all turns accepted, the same completions, inverse maps throughout, and consumed at the end iff every call was completed or cancelled |
| `CheckedPublication.Publication.AddRows` | crates/boon_checked/src/checked_image_publication.rs:854-873 | adds rows, or changes nothing; nothing is accepted after the freeze |
| `CheckedPublication.Publication.AddDependencyRow` | crates/boon_checked/src/checked_image_publication.rs:877-919 | adds a row and its edges together, or changes nothing |
| `CheckedPublication.Publication.AddRoutedRows` | crates/boon_checked/src/checked_image_publication.rs:934-957 | adds rows and claims an unclaimed route together, or changes nothing |
| `CheckedPublication.Publication.AddRoutedDependencyRow` | crates/boon_checked/src/checked_image_publication.rs:963-1007 | adds a dependency row and claims its route together, or changes nothing |
| `CheckedPublication.PublishDependencyRowOk` | crates/boon_checked/src/checked_image_publication.rs:877-919 | no self edge, no edge out of range, no more dependency rows than rows, and some exactly where there is an edge |
| `PublicationRuns.EdgesExact` | crates/boon_checked/src/checked_image_publication.rs:908-914 | the edges of a dependency row are exactly the targets other than the source, in order and with repeats |
| `PublicationRuns.LedgerHoldsAccepted` | crates/boon_checked/src/checked_image_publication.rs:854-1007 | after any run of publications, rows are the sums of the accepted counts, dependency rows count the accepted rows with another target, relocations are exactly the proper pairs of the accepted calls in order, and the routes are those claimed |
| `PublicationRuns.AcceptedExactly` | crates/boon_checked/src/checked_image_publication.rs:854-1007 | a call is accepted iff its projections and route exist, the route was not claimed by an accepted call and the rows fit 32 bits |
| `PublicationRuns.CompleteExactly` | crates/boon_checked/src/checked_image_publication.rs:460-481 | a publication is complete iff every route was claimed and every projection got a row from an accepted call |
| `CheckedPublication.Expectation.Install` | crates/boon_checked/src/checked_image_publication.rs:348-416 | a plan is accepted once, before the freeze, and exactly when keys, digests, siblings and routes are in order |
| `CheckedPublication.SortedNeighbours` | crates/boon_checked/src/checked_image_publication.rs:363-373 | comparing neighbours after sorting finds exactly the repeated digests |
| `CheckedPublication.KeysDistinct` | crates/boon_checked/src/checked_image_publication.rs:356-363 | in an accepted plan no two projections have the same key |
| `CheckedPublication.OneOwner` | crates/boon_checked/src/checked_image_publication.rs:397-403 | in an accepted plan every routed entity has one owner |
| `CheckedPublication.Expectation.FreezeAgainst` | crates/boon_checked/src/checked_image_publication.rs:423-502 | freezes exactly when the publication is of the same construction and covers the plan; the seal is then that of the plan and never changes |
| `CheckedPublication.Expectation.TakeFrozenTopology` | crates/boon_checked/src/checked_image_publication.rs:583-590 | hands the plan over once, after the freeze |
| `OwnershipDigests.OwnershipMessageInjective` | crates/boon_checked/src/checked_image_publication.rs:209-244 | the hashed bytes determine source, role, every projection digest and every route, ID for ID |
| `OwnershipDigests.RouteMessageExact` | crates/boon_checked/src/checked_image_publication.rs:176-199 | the hashed route bytes determine every entity and the digest of its owner |
| `OwnershipDigests.CheckIsExact` | crates/boon_checked/src/checked_image_publication.rs:614-704 | without a collision of the two ownership messages, a handoff passes exactly when it is the frozen plan |
| `CheckedPublication.NewReceipt` | crates/boon_checked/src/checked_image_publication.rs:667-704 | a receipt exists only for a frozen, consumed plan and a matching handoff; without a collision the handoff is the plan; it names source and role of the handoff and the digests of the seal |

## Left out

- Statistics counters of the evaluator and of the sealed graph, and error message texts beyond their kind.
- Overflow of 64-bit revisions and generations, and checked additions that cannot overflow within the modelled sizes.
- Sealed snapshots with memos (`seal_snapshot`) and the read-only accessors of the sealed graph.
- `TypedTable.TypedRequestTable.Publish`: a refused ticket stays with the model's client, while the source consumes it; refusals are proved unreachable in runs.
- How dependencies of an expression are derived from scopes, statements and calls, and the calls, sources, states and lists attached to a template: `ExecutionTemplates.Derive` takes the dependencies as given.
- The bytes hashed for a type term and for a flow term, the module digest and `flow`: the arena takes the digest as any function of a layer and the digests of its parts.
- `canonical_union_type`: it sorts by debug text and merges payloads in an order-sensitive way, so it has no order-independent specification.
- Commutativity and associativity of widening: mismatched kinds widen to an open empty object, which is itself a placeholder.
- `WideningLaws.WidenCovers`: asks that every tag of the right side has one payload; `WideningLaws.LosslessIffOnePayload` shows that no weaker condition on the tags will do, but some pairs of payloads for one tag happen to lose nothing.
- `AssignabilityMeaning.AssignableIsInclusion`: assignability is less than inclusion for unions on the right, sets and maps, which it compares member by member or by equality (`AssignabilityMeaning.Invariant`).
- The real effect host: it is an arbitrary source of completions that may refuse a turn.
- Concurrent freezing of one pairing: the seal is set by one owner.
- Compiler queries on a plan (`__compiler_projection_for_route` and the definition lookups) and later revalidation of a receipt, which only compare stored digests again.
- Serialization, file formats, parsers, the type checker and the runtimes of the other crates.
- `WideningShared.WidenFields` and the field loops of the substitution walks visit fields in any order, where the source visits them by ascending name; results do not depend on it.
