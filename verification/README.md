# Cirrus CLI: verified models

Dafny models of the parts of Cirrus CLI whose guarantees span several functions, with proofs of
those guarantees. `dafny verify dfyconfig.toml` checks the project.

**Environment expansion** (`Expansion*.dfy`, `Environment.dfy`). Up to ten in-place rounds over a map
whose iteration order is arbitrary, with a textual self-recursion test. A value is a sequence of
literal characters and references; OS variables are a fixed map that wins over the custom one. The
main result says that the rounds compute the unique full substitution for every order. Two findings
delimit it. First, substituted text is read again, so an unbraced name can swallow what ends up
behind it, and then the final value depends on the map order (`UndelimitedDependsOnOrder`). The
hypothesis that rules this out is a certificate: a set of open variables, those whose value may end
in an unbraced reference on the way, such that nothing that means a word character follows an open
reference (`Separated`); `SafeMap` is a form of it that looks at the values only. `GlueExactly` and
`ExpandExactly` say when one reading and one expansion are plain, and `GluedVisit` is the converse
for the first round. Cycles elsewhere do no harm: the result holds for every part of an environment
that refers to nothing outside of it (`ExpansionCycles.dfy`). Second, the self-recursion test compares prefixes, so a chain of names that are prefixes of one
another needs one round per reference (`RoundBoundIsTight`), while prefix-free names double their
reach with every round (`PrefixFreeExpansion`), and no more than that (`DoublingIsSharp`).

**Persistent worker** (`Resources.dfy`, `WorkerProtocol.dfy`, `Worker.dfy`). A state machine over the
steps of the poll loop and the task goroutines, and a class whose methods refine the steps. A task
whose instance cannot be created stays registered for good (`FailedCreationIsForever`). Reservation
for the standby holds for non-negative amounts, and only for those (`FreesExactly`).

**Parser pipeline** (`Graph.dfy`, `Validate.dfy`, `Sorting.dfy`, `Dependencies.dfy`,
`ServiceTasks.dfy`, `Builds.dfy`, `TaskLabels.dfy`, `Configurations.dfy`, `Records.dfy`, `Parser.dfy`,
`Labels.dfy`, `FileTree.dfy`). From task-like records to returned tasks; what `Parse` promises is stated
about the records (`Records.dfy`). Labels repeated within one task can be mistaken for common ones (`RepeatedLabelIsLost`); the
exact conditions are `DifferenceExactly` and `TellsApartExactly`.

**Logs and artifacts** (`Timestamps.dfy`, `LogStream.dfy`, `LogUploader.dfy`, `Artifacts.dfy`).
Timestamp insertion against a byte-wise reference machine, the channel pipeline as a state machine
whose steps the methods of a class take, and the upload-then-commit protocol with retries. Writers
stamp before they take the lock, so with several of them a timestamp can land inside a line
(`OvertakingMisplacesTimestamp`, `ChannelOrderExactly`).

**Placement** (`Placement.dfy`). The architecture and OS gates for Dockerfile builders.

Go maps are Dafny maps whose iteration order is an arbitrary choice; where a result depends on that
choice, it is a ghost result. Calls into code outside the model (RPCs, instance creation and
warm-up, file access, the HTTP client) succeed or fail arbitrarily. Resource amounts are reals.
Blocking operations are modelled at the moment they can proceed, which is what the preconditions of
`LogUploader.Write`, `ReadAvailableChunks` and `Finalize` say.

## Model

| member | source | states |
|---|---|---|
| `ExpansionMeaning.ExpansionIsFullSubstitution` | internal/agent/environment/expand.go:10-39 | for acyclic references with chains no longer than the number of rounds, none of which can run into what the text behind it means, every choice of visiting orders ends in a fully literal map that solves the substitution equations, and no other map solves them |
| `ExpansionMeaning.SafeExpansion` | internal/agent/environment/expand.go:10-39 | the same under a condition that is read off the values without evaluating anything: open references that do not end a value stand before a character that cannot extend a name |
| `ExpansionMeaning.EveryVisitIsPlain` | internal/agent/environment/expand.go:15-26 | under the same hypothesis every visit of every round, after any part of it, expands by plain substitution |
| `ExpansionMeaning.MeaningSolves` | internal/agent/environment/expand.go:61-78 | the substitution equations have a solution, given by recursion on the rank of a variable, independent of any rounds |
| `ExpansionMeaning.SolutionUnique` | internal/agent/environment/expand.go:61-78 | the substitution equations of acyclic references have no other solution |
| `ExpansionMeaning.SubstituteExactly` | internal/agent/environment/expand.go:51-78 | substitution is what becomes of a value symbol by symbol: characters stay, OS variables win, other variables have their final value, unknown names their default or nothing; a solution is defined by these clauses alone |
| `ExpansionMeaning.WordCharExactly` | internal/agent/environment/expand.go:61-63 | the characters of names are the underscore, the digits and the letters |
| `ExpansionMeaning.GlueExactly` | internal/agent/environment/expand.go:61-78 | reading a text again gives the same symbols if and only if no unbraced name stands directly before a word character |
| `ExpansionMeaning.SubstituteApart` | internal/agent/environment/expand.go:51-78 | substituting through a separated map keeps every reference apart from what follows it, although values are copied in front of other text |
| `ExpansionMeaning.SafeIsSeparated` | internal/agent/environment/expand.go:51-78 | the condition on the values alone implies the condition on what they mean |
| `ExpansionMeaning.BracedIsSafe` | internal/agent/environment/expand.go:51-78 | environments without unbraced references meet it |
| `ExpansionMeaning.SpacedIsSafe` | internal/agent/environment/expand.go:51-78 | environments whose references are all set off from what follows meet it |
| `ExpansionMeaning.SubstituteKeepsMeaning` | internal/agent/environment/expand.go:51-78 | substituting through a partly expanded map does not change what a value finally means: the in-place updates are harmless |
| `ExpansionMeaning.LiteralNeverSelfRecursive` | internal/agent/environment/expand.go:18-24 | the textual self-recursion test never rejects a fully expanded value |
| `ExpansionCycles.PartIsFullySubstituted` | internal/agent/environment/expand.go:10-39 | any set of variables that refer to no others, acyclic with short chains and kept apart, comes out as its unique full substitution in every schedule, whatever the other variables are and do, self-references and other cycles included |
| `ExpansionCycles.RoundTracks` | internal/agent/environment/expand.go:15-32 | a round restricted to such a set is the round of the restricted map in the order of its own keys |
| `ExpansionMeaning.RoundSettles` | internal/agent/environment/expand.go:15-32 | one round in any order keeps the meaning and fully expands at least one more rank of variables, whatever visits the self-recursion test skips |
| `ExpansionMeaning.RoundsSettle` | internal/agent/environment/expand.go:13-37 | n rounds expand all variables up to rank n |
| `ExpansionMeaning.LiteralRoundsSolve` | internal/agent/environment/expand.go:10-39 | rounds that end in literals end in the one and only solution |
| `ExpansionBounds.NotSelfRecursive` | internal/agent/environment/expand.go:19-24 | the self-recursion test passes a value none of whose names, in any of the three forms, starts with the key, if unbraced and percent references do not stand before word characters |
| `ExpansionGuard.TestExactly` | internal/agent/environment/expand.go:18-24 | the self-recursion test finds exactly the references, in any of the three forms, whose name starts with the key, if loose references do not stand before word characters |
| `ExpansionGuard.MentionIsFound` | internal/agent/environment/expand.go:18-24 | a reference whose name starts with the key is found in each of the three forms, in any text |
| `ExpansionGuard.SelfReferenceIsSkipped` | internal/agent/environment/expand.go:18-24 | a visit leaves a variable that refers to itself alone |
| `ExpansionGuard.SelfReferenceStays` | internal/agent/environment/expand.go:10-39 | in every run a variable that refers to itself keeps its value |
| `ExpansionGuard.GlueRereads` | internal/agent/environment/expand.go:61-78 | rereading never changes the text, only its division into symbols, and leaves nothing to reread |
| `ExpansionBounds.PassDoubles` | internal/agent/environment/expand.go:15-32 | with prefix-free names, one in-place round doubles the number of ranks every reference spans |
| `ExpansionBounds.RoundsDouble` | internal/agent/environment/expand.go:13-37 | n rounds multiply the span of references by 2^n |
| `ExpansionBounds.PrefixFreeExpansion` | internal/agent/environment/expand.go:10-39 | with prefix-free names, n rounds fully expand every chain of fewer than 2^n references (1023 for ten rounds), in any order |
| `ExpansionSharpness.DoublingIsSharp` | internal/agent/environment/expand.go:10-39 | for every n there is a prefix-free, safe chain of 2^n references that n rounds from its top leave unexpanded: that bound cannot be raised either |
| `ExpansionSharpness.VisitDoubles` | internal/agent/environment/expand.go:15-32 | visited from the top, every variable of such a chain comes to refer exactly twice as far down |
| `ExpansionLimits.RoundBoundIsTight` | internal/agent/environment/expand.go:13-24 | for every n there is an environment with chains of n + 1 references that n rounds do not solve: the bound of the main result cannot be raised |
| `ExpansionLimits.UndelimitedDependsOnOrder` | internal/agent/environment/expand.go:15-32 | for x = $a$b, a = $c, b = d the final value of x depends on the map order, for any variable names and any number of rounds from two on |
| `ExpansionLimits.UndelimitedIsRanked` | internal/agent/environment/expand.go:15-32 | that environment meets every other hypothesis of the main result and has no certificate |
| `ExpansionLimits.GluedVisit` | internal/agent/environment/expand.go:15-26 | conversely, if a name runs into word characters at the start or after some distinct keys were visited, some order of the first round makes a visit that is not a substitution |
| `ExpansionLimits.GluedHasNoCertificate` | internal/agent/environment/expand.go:15-26 | such an environment has no certificate |
| `ExpansionLimits.TwinNeverGlues` | internal/agent/environment/expand.go:15-26 | for k = $a$a, a = $c, c = z no visit of any run glues a name |
| `ExpansionLimits.TwinHasNoCertificate` | internal/agent/environment/expand.go:15-26 | and yet that environment has no certificate, so a certificate is sufficient but not necessary |
| `ExpansionLimits.MeaningDecides` | internal/agent/environment/expand.go:51-78 | an environment that is separated by what its values mean although no look at the values alone shows it |
| `ExpansionLimits.ExpandExactly` | internal/agent/environment/expand.go:61-78 | one expansion is a plain substitution if and only if no unbraced name runs into the text substituted behind it |
| `Expansion.QuietRoundIsStable` | internal/agent/environment/expand.go:15-36 | a round that changed nothing leaves a map that no single visit changes |
| `Expansion.StableIsFixpoint` | internal/agent/environment/expand.go:13-38 | expanding such a map again, in any orders and for any number of rounds, returns it |
| `Expansion.StableUnderRound` | internal/agent/environment/expand.go:15-32 | such a map survives one more round in any order |
| `Environment.StoppingEarly` | internal/agent/environment/expand.go:34-36 | breaking off after a quiet round gives what the full number of rounds would give |
| `Environment.ExpandOnce` | internal/agent/environment/expand.go:15-32 | one in-place pass over the keys in some order; the changed flag is set exactly when the map differs |
| `Environment.ExpandEnvironmentRecursively` | internal/agent/environment/expand.go:10-39 | the result is that of ten full rounds; it is a fixpoint unless the last round still changed something, the input itself if that is a fixpoint, the unique solution on every set of variables that is by itself acyclic with chains of at most ten and kept apart, the whole map in particular, and variables that refer to themselves keep their values |
| `Environment.ExpandableIsSolved` | internal/agent/environment/expand.go:10-39 | ten rounds solve every such part of an environment |
| `Environment.Environment.Merge` | internal/agent/environment/environment.go:43-62 | overlays and expands again: the unique solution of the merged equations on every acyclic part, unchanged when nothing new is merged into a fixpoint; adds exactly the sensitive non-empty values |
| `Environment.Environment.Set` | internal/agent/environment/environment.go:35-41 | sets one variable and masks its value if the name is a well-known sensitive one |
| `Environment.Environment.AddSensitiveValue` | internal/agent/environment/environment.go:68-77 | remembers a value to mask unless it is empty |
| `Environment.Environment.Overlay` | internal/agent/environment/environment.go:48-51 | the overlay of the given map over the old one |
| `Environment.Environment.MaskValues` | internal/agent/environment/environment.go:57-61 | every sensitive merged value is added once, in the iteration order |
| `Environment.WellKnownExactly` | internal/agent/environment/environment.go:83-89 | a name is well-known as sensitive exactly if it has one of the five endings |
| `Environment.SensitiveExactly` | internal/agent/environment/environment.go:57-77 | exactly the non-empty values of sensitive names are masked, or all non-empty ones |
| `Resources.InUseRemove` | internal/worker/task.go:318-329 | the sum over the tasks is independent of the order of summation |
| `Resources.FitsAfterRemoval` | internal/worker/task.go:331-356 | deregistering a task keeps a share that fits fitting |
| `Resources.FreesExactly` | internal/worker/task.go:331-356 | deregistering a task keeps every fitting share fitting if and only if the task asked for no negative amount |
| `Resources.InUseNonNegative` | internal/worker/task.go:318-329 | non-negative tasks use a non-negative amount |
| `WorkerProtocol.RunInvariant` | internal/worker/worker.go:237-388 | every run in every interleaving keeps registration, linear ownership of instances, currency of the standby and isolation, and with non-negative amounts the reservation |
| `WorkerProtocol.InvStep` | internal/worker/worker.go:237-388 | each of the six kinds of step keeps registration, ownership, currency of the standby and isolation |
| `WorkerProtocol.RegisteredStep` | internal/worker/task.go:51-86 | each step keeps: every registered task has exactly one goroutine or failed to get an instance, and no completion was spurious |
| `WorkerProtocol.LinearStep` | internal/worker/task.go:88-170 | each step keeps: every created instance has exactly one holder and is closed at most once |
| `WorkerProtocol.StandbyStep` | internal/worker/task.go:93-106 | each step keeps: a held standby was created from the current parameters, and running tasks have the isolation they asked for |
| `WorkerProtocol.ReservedStep` | internal/worker/worker.go:237-256 | with non-negative amounts each step keeps: the share of a held standby is free |
| `WorkerProtocol.StandbyLeavesExactly` | internal/worker/worker.go:453-466 | a held standby leaves its slot by the start of an unregistered task or an update to other parameters, and by nothing else |
| `WorkerProtocol.StandbyArrivesExactly` | internal/worker/worker.go:237-312 | an empty slot is filled by a new warmed-up instance for the current parameters if these fit, and not otherwise |
| `WorkerProtocol.ParametersExactly` | internal/worker/worker.go:453-466 | the parameters are those of the last update |
| `WorkerProtocol.RegistryExactly` | internal/worker/task.go:51-69 | a task is registered by its start and deregistered by the receipt of its report, and by nothing else |
| `WorkerProtocol.GoroutineExactly` | internal/worker/task.go:71-86 | a task runs from its start, if it gets an instance, to its own end, and reports from there to the receipt |
| `WorkerProtocol.ClosesExactly` | internal/worker/task.go:88-170 | each step closes the instance of the goroutine that ends, a standby given up for nothing or an instance that failed to warm up, and no other |
| `WorkerProtocol.StandbyShareIsFree` | internal/worker/worker.go:237-312 | in every run with non-negative amounts, for each key, what registered tasks use plus the share of a held standby is at most the configured total, and so is the share alone |
| `WorkerProtocol.NegativeAmountBreaksReservation` | internal/worker/worker.go:237-256 | a run in which a task with a negative amount completes and the share of the held standby no longer fits |
| `WorkerProtocol.InstanceHasOneHolder` | internal/worker/task.go:88-170 | in every run, each created instance is in exactly one place (standby slot, one running task, closed) and closed at most once |
| `WorkerProtocol.NoSpuriousCompletion` | internal/worker/task.go:341-356 | in every run the spurious branch is never taken, no task has two goroutines, and registered tasks without one are exactly those whose instance creation failed |
| `WorkerProtocol.StandbyHitMatches` | internal/worker/task.go:93-106 | in every run, a task gets the held standby exactly when its isolation is that of the current parameters, from which the instance was created; otherwise the standby is closed |
| `WorkerProtocol.FailedCreationIsForever` | internal/worker/task.go:71-79 | a task whose instance could not be created stays registered, with its resources, through every later run |
| `WorkerProtocol.ClosedStaysClosed` | internal/worker/task.go:163-170 | no later step undoes a Close |
| `WorkerProtocol.QuiescentClosedAll` | internal/worker/task.go:163-170 | with no running task and no standby, every instance ever created was closed exactly once |
| `Worker.Worker.ResourcesInUse` | internal/worker/task.go:318-329 | the per-key sum over all registered tasks |
| `Worker.Worker.ResourcesNotInUse` | internal/worker/task.go:305-316 | what is left and what is in use add up to the configured total, for every key |
| `Worker.Worker.CanFitResources` | internal/worker/task.go:331-339 | true exactly if every key fits next to what the tasks use |
| `Worker.Worker.RunningTasks` | internal/worker/task.go:294-303 | the registered tasks of one upstream, each once, so that the lists of all upstreams partition the registry |
| `Worker.Worker.GetInstance` | internal/worker/task.go:88-123 | hands out a matching standby, otherwise closes it and creates an instance; the slot is empty afterwards in every case |
| `Worker.Worker.StartTask` | internal/worker/task.go:36-86 | refines the protocol step: ignores duplicates, keeps the registration of a task whose instance could not be created |
| `Worker.Worker.TryCreateStandby` | internal/worker/worker.go:237-312 | refines the protocol step: fills the slot with a new instance exactly if a standby is configured, missing and fitting and nothing fails; closes it on a failed warm-up |
| `Worker.Worker.UpdateStandby` | internal/worker/worker.go:453-466 | refines the protocol step: unchanged parameters leave the standby alone, other ones close it |
| `Worker.Worker.StopTask` | internal/worker/task.go:276-282 | only cancels: registry, standby and instances stay as they are |
| `Worker.Worker.FinishTask` | internal/worker/task.go:163-170 | refines the protocol step of a goroutine that closes its instance and reports |
| `Worker.Worker.CompleteTask` | internal/worker/task.go:343-351 | refines the protocol step of deregistering a reported task |
| `Worker.Worker.RegisterTaskCompletions` | internal/worker/task.go:341-356 | terminates with no report waiting and none spurious, removing tasks only, while goroutines go on finishing |
| `Worker.Worker.FollowUpdate` | internal/worker/worker.go:376-385 | at most one standby update, which a shutdown suppresses |
| `Worker.Worker.ComposeRequest` | internal/worker/worker.go:342-357 | the request is true of the state, and an offered standby fits next to the reported resources if all amounts so far were non-negative |
| `Worker.Worker.PollSingleUpstream` | internal/worker/worker.go:332-388 | the request is true of the state it is sent in, an offered standby fits next to the reported resources if all amounts so far were non-negative, the response is obeyed completely, in order, and nothing else is done, and the outcome is exactly go on, fail or shut down |
| `Worker.Worker.Obey` | internal/worker/worker.go:364-385 | stops, then starts, then at most one standby update, which a shutdown suppresses |
| `Worker.OrdersExactly` | internal/worker/worker.go:364-385 | what a response commands: its stops, then its starts with what it says of each, then the first standby update unless it shuts the worker down |
| `Worker.Worker.PollUpstreams` | internal/worker/worker.go:314-330 | creates the standby first and then obeys the upstreams in order, stopping exactly at the first failure or shutdown |
| `Graph.NoneDoomed` | pkg/parser/validate.go:94-106 | no task leads to a missing ID or a cycle exactly when the graph is closed and acyclic |
| `Graph.SatisfiedNotDoomed` | pkg/parser/validate.go:58-92 | a satisfied task leads neither to a missing ID nor to a cycle |
| `Graph.UnsatisfiedDoomed` | pkg/parser/validate.go:86-88 | once a round satisfies nothing new, every unsatisfied task leads to a missing ID or a cycle |
| `Validate.NewlySatisfied` | pkg/parser/validate.go:60-84 | exactly the unsatisfied tasks all of whose dependencies are satisfied |
| `Validate.DependenciesSatisfied` | pkg/parser/validate.go:72-79 | true exactly if all dependencies are satisfied |
| `Validate.GroundedRound` | pkg/parser/validate.go:86-92 | a round of satisfaction keeps every satisfied task grounded in earlier rounds |
| `Validate.VerdictIsRight` | pkg/parser/validate.go:94-106 | counting satisfied IDs decides distinctness, closedness and acyclicity at once |
| `Validate.ValidateDependenciesDeep` | pkg/parser/validate.go:55-109 | terminates, accepts exactly the lists with distinct IDs whose graph is closed and acyclic, and otherwise lists (for distinct IDs) exactly the tasks that lead to a missing ID or a cycle |
| `Dependencies.NumberedIncreasing` | pkg/parser/parser.go:169-200 | IDs increase strictly and indices count the enabled tasks |
| `Dependencies.NumberedExactly` | pkg/parser/parser.go:169-200 | every enabled record, and no other, becomes a task with the number of its position and the name, alias, dependencies and Dockerfile of the record |
| `Dependencies.DisabledExactly` | pkg/parser/parser.go:192-196 | a name is recorded as disabled exactly if a disabled record goes by it |
| `Dependencies.ResolveMeaning` | pkg/parser/parser.go:437-466 | resolved dependencies are sorted and are exactly the tasks whose name or alias is listed |
| `Dependencies.ResolvedClosed` | pkg/parser/parser.go:430-470 | dropping disabled tasks never leaves a dangling ID |
| `Dependencies.FindMatches` | pkg/parser/parser.go:442-447 | the IDs of all tasks with the name or alias |
| `Dependencies.DependencyIDs` | pkg/parser/parser.go:439-464 | fails exactly when a listed name is neither a task nor disabled |
| `Dependencies.ResolveTask` | pkg/parser/parser.go:437-466 | resolves one task to sorted IDs, or fails exactly when one of its names is unknown |
| `Dependencies.ResolveDependenciesShallow` | pkg/parser/parser.go:430-470 | resolves all tasks or fails exactly when some name is unknown |
| `Records.NamesExactly` | pkg/parser/parser.go:437-462 | all names resolve exactly if each is that of a record, enabled or not, or known as disabled before |
| `Records.DependenciesExactly` | pkg/parser/parser.go:437-466 | a task depends on exactly the enabled records whose name or alias its own record lists |
| `Records.AcyclicExactly` | pkg/parser/validate.go:55-109 | the graph of the tasks is acyclic exactly if the dependencies between records do not go in circles |
| `Records.HashesExactly` | pkg/parser/parser.go:621-626 | all hashes are there exactly if every enabled record with a Dockerfile has one |
| `Records.BuiltReturnsRecords` | pkg/parser/parser.go:264-338 | in a well-formed build the user tasks are exactly the enabled records, each with its name, Dockerfile and image, requiring exactly the records it depends on and the service task of its Dockerfile |
| `ServiceTasks.ImageIsTag` | pkg/parser/parser.go:514-531 | the image a task is told to use is the tag its service task builds and pushes |
| `ServiceTasks.ServicesGrow` | pkg/parser/parser.go:637-647 | a new service task takes the next ID and index, keeping the numbering of service tasks without gaps |
| `ServiceTasks.NeededSnoc` | pkg/parser/parser.go:637-647 | service tasks exist for the hashes seen so far and no others |
| `ServiceTasks.ServicesKeepAcyclic` | pkg/parser/parser.go:637-650 | adding service tasks, and dependencies on them, keeps the graph closed and acyclic |
| `Builds.BuildIsWellFormed` | pkg/parser/parser.go:305-331 | whatever order the service tasks are listed in, the sorted result is a well-formed build |
| `Builds.BuildCarries` | pkg/parser/parser.go:305-331 | sorting leaves the user tasks in front and in order; each is unchanged but for an image and one more dependency |
| `Builds.SortedBuild` | pkg/parser/parser.go:328-331 | service tasks have the highest IDs, so the sorted result is the user tasks followed by the sorted service tasks |
| `Configurations.ResolvedNumbered` | pkg/parser/parser.go:264-280 | resolution keeps the numbering, so the deep check sees distinct and existing IDs |
| `Parser.Parser.ParseTasks` | pkg/parser/parser.go:118-205 | one task for each enabled record, carrying what the record says, and the names of the disabled ones |
| `Parser.Parser.ServiceFor` | pkg/parser/parser.go:637-647 | finds the service task of a hash or makes one with the next numbers |
| `Parser.Parser.RewriteTask` | pkg/parser/parser.go:575-659 | a Dockerfile task gets the service task and the image of its hash, any other task stays |
| `Parser.Parser.CreateServiceTasks` | pkg/parser/parser.go:575-668 | one service task per distinct hash in use; fails exactly when a hash is missing |
| `Parser.Parser.AppendServices` | pkg/parser/parser.go:310-314 | the rewritten user tasks and their service tasks, which sorted make a well-formed build; fails exactly when a hash is missing |
| `Parser.Parser.AddServices` | pkg/parser/parser.go:310-337 | from an acyclic graph of user tasks to a labelled well-formed build; fails exactly when a hash or labels are missing |
| `TaskLabels.AttachLabels` | pkg/parser/parser.go:317-327 | every task gets the labels that tell it from the tasks of the same name; fails exactly when computing some labels fails |
| `TaskLabels.LabelledSorted` | pkg/parser/parser.go:322-332 | labels attached before the final sort are right for the sorted tasks |
| `Parser.ValidateTasks` | pkg/parser/parser.go:295-297 | true exactly if every task is valid |
| `Parser.FindFault` | pkg/parser/parser.go:276-297 | finds a fault exactly if the graph has a cycle or a task is invalid |
| `Parser.Parser.Finish` | pkg/parser/parser.go:276-338 | for resolved tasks: a labelled well-formed build unless the graph has a cycle, a task is invalid, a hash is missing or labels cannot be computed |
| `Parser.Parser.Process` | pkg/parser/parser.go:264-338 | the same for numbered records, unless a name does not resolve |
| `Parser.Parser.Parse` | pkg/parser/parser.go:264-338 | fails if a name is unknown, the dependencies between enabled records go in circles, a hash is missing, a task is invalid or labels cannot be computed, and in no other case; returns a user task for each enabled record, in order, requiring exactly the records it depends on next to its service task, followed by service tasks, with strictly increasing IDs, a closed acyclic graph, shared service tasks exactly for equal hashes, matching images, indices without gaps and each task labelled |
| `Labels.CountIsCommon` | pkg/parser/labels.go:185-203 | without repetitions, the count reaches the number of siblings exactly for common labels |
| `Labels.UniqueIsDifference` | pkg/parser/labels.go:205-226 | the unique labels are the sorted difference of own and common labels |
| `Labels.UniqueTellsApart` | pkg/parser/labels.go:168-228 | two siblings get the same unique labels if and only if they have the same labels |
| `Labels.ShortcutAgrees` | pkg/parser/labels.go:182-184 | the shortcut for a task without siblings agrees with the general formula if and only if the task repeats no label |
| `Labels.UniqueIsOrderFree` | pkg/parser/labels.go:186-224 | neither the order of labels nor that of siblings matters |
| `Labels.UniqueOfIsOrderFree` | pkg/parser/labels.go:174-226 | the order of the tasks matters neither for the labels nor for failing |
| `Labels.UniqueOfExactly` | pkg/parser/labels.go:168-228 | the unique labels of a task are those of its labels that some task of the same name does not have, sorted |
| `TaskLabels.LabelledExactly` | pkg/parser/parser.go:322-327 | a returned task carries exactly those of its labels that some returned task of the same name lacks |
| `Sorting.StringLeExactly` | pkg/parser/labels.go:222-226 | the order of labels: a string comes before those it starts and before those with a greater character at the first difference |
| `Labels.DifferenceExactly` | pkg/parser/labels.go:187-218 | with repeated labels, the result is the difference if and only if counts identify the common labels among the own ones |
| `Labels.TellsApartExactly` | pkg/parser/labels.go:187-226 | with repeated labels, two siblings get the same unique labels if and only if they list every label not counted as common equally often |
| `Labels.RepeatedLabelIsLost` | pkg/parser/labels.go:193-203 | a label listed twice by one of two siblings is taken for a common one |
| `Labels.CountAll` | pkg/parser/labels.go:187-198 | total counts over all siblings, or the error of one of them |
| `Labels.UniqueLabels` | pkg/parser/labels.go:168-228 | the sorted kept labels, the shortcut for one task, and the error cases |
| `Timestamps.NumTimestampsNonNegative` | internal/agent/executor/logs.go:96-105 | the replacement count is never negative, so it never means "all" |
| `Timestamps.ReplaceIsStamp` | internal/agent/executor/logs.go:107-110 | replacing that many newlines is what the byte-wise machine writes for one chunk |
| `Timestamps.ChunkIsStamp` | internal/agent/executor/logs.go:82-111 | one non-empty chunk comes out as the byte-wise machine writes it |
| `Timestamps.EmptyChunk` | internal/agent/executor/logs.go:90-93 | an empty chunk would come out right if and only if nothing is owed or the timestamp is empty |
| `Timestamps.OutputsAreStamped` | internal/agent/executor/logs.go:82-111 | for every split into non-empty chunks, the outputs concatenate to those of the byte-wise machine, each line stamped with the time of the chunk its first byte is in |
| `Timestamps.ChunkingDoesNotMatter` | internal/agent/executor/logs.go:82-111 | with a fixed clock the output is independent of the chunking |
| `Timestamps.UnstampStamp` | internal/agent/executor/logs.go:82-111 | removing the timestamps gives the log back |
| `LogStream.RunInvariant` | internal/agent/executor/logs.go:82-224 | every interleaving conserves the accepted bytes in order, shuts down in order, stores every masked batch and stamps each chunk as the one stamped before asks for |
| `LogStream.StampedLog` | internal/agent/executor/logs.go:82-133 | in every run whose channel order asks for the timestamps that were put, the channel carries the stamped log, and so do the batches once the reader has stopped |
| `LogStream.ChannelOrderExactly` | internal/agent/executor/logs.go:121-131 | writers stamp before they take the lock; a chunk carries the timestamps its place in the channel asks for if and only if its predecessors in both orders agree on ending a line, or its timestamp is empty |
| `LogStream.OvertakingMisplacesTimestamp` | internal/agent/executor/logs.go:121-131 | two writers, one overtaking the other between stamping and sending, put a timestamp inside a line |
| `LogStream.SingleWriterLog` | internal/agent/executor/logs.go:82-195 | with a single writer the accepted chunks are the first ones written, the channel carries their stamped log in every run, and so do the batches once the reader has stopped |
| `LogStream.ChainedStep` | internal/agent/executor/logs.go:82-105 | each step keeps every chunk stamped as its predecessor in stamping order asks for |
| `LogStream.TracedStep` | internal/agent/executor/logs.go:113-131 | each step keeps: whatever is held or was sent was prepared by a writer |
| `LogStream.ConservedStep` | internal/agent/executor/logs.go:113-195 | each step keeps batches, reader and channel together equal to the accepted writes |
| `LogStream.OrderlyStep` | internal/agent/executor/logs.go:124-224 | each step keeps senders off a closed channel and lets the reader finish only on a closed and drained one |
| `LogStream.StoredStep` | internal/agent/executor/logs.go:197-215 | each step keeps the stored output equal to the masked batches, sent or not |
| `LogStream.DeliveredExactly` | internal/agent/executor/logs.go:197-215 | in every run the server has got the masked non-empty batches that were sent, all and in order, and the errors count the others |
| `LogStream.ServerHasStoredOutput` | internal/agent/executor/logs.go:197-215 | if no send failed, the server has got exactly the stored output |
| `LogStream.NothingIsLost` | internal/agent/executor/logs.go:135-195 | when the reader has stopped, the batches are all accepted writes in channel order |
| `LogStream.NoSendOnClosed` | internal/agent/executor/logs.go:124-133 | no interleaving sends on the closed channel |
| `LogStream.RunSizes` | internal/agent/executor/logs.go:170-195 | for chunks up to a limit, every run keeps batches within that limit plus the larger of the limit and one MiB |
| `LogStream.BatchSizeBound` | internal/agent/executor/logs.go:170-195 | with chunks of at most a MiB, no batch exceeds a MiB plus one chunk |
| `LogUploader.LogUploader.WithTimestamps` | internal/agent/executor/logs.go:82-111 | equals the byte-wise machine on non-empty input and owes a timestamp exactly after a final newline |
| `LogUploader.LogUploader.Write` | internal/agent/executor/logs.go:113-133 | takes the three writer steps of the pipeline: stamps one chunk and sends it unless closed or empty, and always reports the original length |
| `LogUploader.LogUploader.Prepare` | internal/agent/executor/logs.go:117-123 | takes the pipeline step of stamping, before the lock |
| `LogUploader.LogUploader.Submit` | internal/agent/executor/logs.go:125-131 | takes the pipeline steps of locking and sending; a closed channel drops the chunk |
| `LogUploader.LogUploader.ReceiveOne` | internal/agent/executor/logs.go:174-186 | takes the pipeline step of receiving one chunk or the news that the channel is closed |
| `LogUploader.LogUploader.SelectOne` | internal/agent/executor/logs.go:179-194 | one turn of the select loop while writers go on: it brings the batch closer to its end and finishes it only for a reason |
| `LogUploader.LogUploader.ReadAvailableChunks` | internal/agent/executor/logs.go:170-195 | takes reader steps of the pipeline while writers go on; the batch is what left the front of the channel, finished only if closed and drained, otherwise the channel is empty or the batch exceeds a MiB |
| `LogUploader.LogUploader.WriteChunk` | internal/agent/executor/logs.go:197-215 | takes the pipeline step: stores the masked batch whether or not it can be sent, and delivers just that if it can; after the last batch, the batches are all accepted writes in order |
| `LogUploader.LogUploader.Finalize` | internal/agent/executor/logs.go:217-224 | closes the channel and returns once the reader has stopped, with everything ever accepted handed on in order; a second call panics, and nothing else does |
| `LogUploader.LogUploader.AwaitReader` | internal/agent/executor/logs.go:135-168 | once the channel is closed the reader terminates, having handed on all accepted writes, whatever writers still try |
| `LogStream.OneFinalizeClosesOnce` | internal/agent/executor/logs.go:217-222 | the channel is closed twice only in runs that finalize twice |
| `Artifacts.UploadableFiles` | internal/agent/executor/artifacts_abstract.go:108-125 | all files of all patterns in order, folders skipped |
| `Artifacts.FilesExactly` | internal/agent/executor/artifacts_abstract.go:108-125 | exactly the paths that are no folders are uploadable, with their relative paths and sizes |
| `Artifacts.FilesInOrder` | internal/agent/executor/artifacts_abstract.go:111-122 | the files keep the order of the patterns |
| `Artifacts.FilesOfInOrder` | internal/agent/executor/artifacts_abstract.go:112-121 | within a pattern they keep the order of its paths |
| `Artifacts.ChunksPartition` | internal/agent/executor/artifacts_https.go:35-51 | the URL requests cover the files exactly once, in order, a hundred at a time and the rest in the last one |
| `Artifacts.NewHTTPSUploader` | internal/agent/executor/artifacts_https.go:27-67 | an uploader comes back only with a URL for every file, each generated for the path it is filed under |
| `Artifacts.AddDescriptors` | internal/agent/executor/artifacts_https.go:53-58 | every file of a request gets a URL generated for its path |
| `Artifacts.HTTPSUploader.Upload` | internal/agent/executor/artifacts_https.go:69-109 | sends a file to a URL generated for its path, unless the request cannot be built, and records it exactly if the server took it |
| `Artifacts.HTTPSUploader.Finish` | internal/agent/executor/artifacts_https.go:111-125 | commits the recorded files |
| `Artifacts.UploadPaths` | internal/agent/executor/artifacts.go:122-149 | puts the files of one pattern in order up to the first failure |
| `Artifacts.UploadArtifacts` | internal/agent/executor/artifacts.go:114-153 | puts the uploadable files in order; the "no upload URL" error is unreachable |
| `Artifacts.Attempt` | internal/agent/executor/artifacts.go:67-84 | requests, puts and commit in that order; success means a commit of all files |
| `Artifacts.UploadArtifactsWithRetries` | internal/agent/executor/artifacts.go:65-112 | no attempt exactly if cancelled beforehand, a second one exactly if the first failed other than as unimplemented and nothing was cancelled; whatever fails, every commit sent lists exactly the uploadable files in order |
| `FileTree.WalkIsLevelOrder` | pkg/parser/dockerfile.go:205-237 | the queue reports level by level |
| `FileTree.WalkCollects` | pkg/parser/dockerfile.go:205-237 | each file at or below the start is reported exactly once |
| `FileTree.VisitsAreFiles` | pkg/parser/dockerfile.go:205-237 | as many visits as files, and a visit for exactly the contents and path of each file below the start, the path being the names on the way joined by slashes |
| `FileTree.Find` | pkg/parser/dockerfile.go:205-237 | terminates; succeeds exactly if everything is readable, with every file once in level order under its own path, and reports a prefix of that otherwise |
| `Placement.RequiresTask` | internal/executor/arch.go:80-87 | true exactly if the ID is required |
| `Placement.TaskArch` | internal/executor/arch.go:27-67 | the architecture a task needs; for a builder the one that all its dependents, at least one, need |
| `Placement.TaskOS` | internal/executor/os.go:30-74 | the OS a task needs; for a builder Windows exactly if all dependents, at least one, are Windows containers |
| `Placement.Skipped` | internal/executor/executor.go:200-217 | skipped exactly if a required architecture or OS is not supported, spelled out for each kind of instance |
| `Placement.SkippedBuilderIsNotNeeded` | internal/executor/executor.go:200-217 | a skipped builder has dependents and each of them is skipped by the same gate |
| `Placement.BuilderArchExactly` | internal/executor/arch.go:39-63 | on any host, a builder is skipped for architecture if and only if it has dependents and all are containers for one architecture the host lacks |
| `Placement.BuilderSkippedByArch` | internal/executor/arch.go:39-63 | on a host with one of the architectures, a builder is skipped for architecture if and only if it has dependents and all are containers so skipped |
| `Placement.BuilderSkippedByOS` | internal/executor/os.go:46-70 | a builder is skipped for OS if and only if it has dependents and all are containers so skipped |
| `Placement.MixedReasonsDoNotSkip` | internal/executor/executor.go:200-217 | a builder with a Linux dependent skipped for architecture and a Windows dependent skipped for OS alone is not skipped, on any host and in any build |

## Left out

- ExpansionMeaning.ExpansionIsFullSubstitution: the certificate is sufficient for whole runs, and no environment that glues a name in its first round has one; it is not necessary (`TwinNeverGlues`): copies of one variable are replaced together, and whether later rounds glue depends on which values the earlier orders left unexpanded.
- ExpansionMeaning.RoundSettles: the certificate of acyclicity is a rank, an upper bound on the longest chain of references from each variable.
- Character-level behaviour of `os.Expand` and of the regular expression: values come as symbols, defaults are plain text, and only the growth of unbraced names is carried over from the text.
- OS variables whose values contain references themselves: the main results take them as literal.
- Unbraced names that start with a digit: `os.Expand` reads `$1a` as the one-character name 1, which the model would read as 1a.
- ExpansionBounds.PrefixFreeExpansion: %name% directly before a word character is excluded, since the closing % and the text behind it can match the self-recursion test.
- ExpandText with its user-first lookup: a single substitution without rounds.
- Worker.Worker.ResourcesNotInUse: does not model an absent resource map, on which the original fails when it writes to it; amounts are real numbers without rounding.
- Worker.Worker.StartTask: the formatting of numeric task IDs is left out, and IDs to stop form one list.
- Worker.Worker.FinishTask: closing the instance and starting to wait on the completion channel are one step.
- Worker contexts, tracing, counters, pre-pulling and standby age: no influence on the state kept here.
- Pause, Resume, Run and the upstream RPCs of the worker: network plumbing around the poll.
- YAML trees, matrix expansion, `only_if` evaluation and field parsers: the model starts from records with an enabled flag.
- Issues for unbalanced `only_if`, clone instructions and the task counter of Parse: easy members around the pipeline.
- Parser.Parser.Parse: which tasks are valid and which labels a task has are parameters; names, scripts and environments of service tasks are not modelled beyond the image tag.
- Computing Dockerfile hashes and the labels of a single task: taken as given per task, with their failures.
- LogUploader.LogUploader.WithTimestamps: concurrent calls are taken as atomic, although the original does not synchronise them.
- Re-creating the log client and uploading the stored output: network plumbing after the loop.
- Secret masking: an arbitrary function on batches.
- Artifact globbing, annotations and the gRPC uploader: file-system and network code.
- Artifacts.UploadArtifactsWithRetries: a context cancelled during an attempt is a failing call of that attempt.
- The gates for Windows-mode Docker daemons and for FreeBSD emulation: they do not concern builders.
