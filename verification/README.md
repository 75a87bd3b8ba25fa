# Verified models of the transaction-assurance research code

The repository holds laboratories around one question: may an agent's action take effect, given a policy, fresh
evidence, an attested state, delegated authority and a measurement? This project models the logic of those
laboratories in Dafny and proves what their tests and documents rely on.

| part | modules | main results |
|---|---|---|
| durable revocation | `RevocationTables`, `ContainerStore`, `DistributedStore`, `StoreSimulation`, `FaultProxy`, `LiveState`, `RaceLaw`, `Races`, `DistributedRaces`, `LiveRaces` | one invariant over every run; when two stores that remember different things agree; lost messages never duplicate an effect; who wins a race, on all three stores |
| JSON | `JsonText`, `JsonGrammar`, `JsonParser`, `JsonSyntax`, `JsonUnique`, `JsonRfc`, `JsonErrors`, `JsonWriter`, `JsonRoundTrip`, `JsonCanonical` | a mutable-offset parser that accepts exactly a declarative, unambiguous grammar, what sets that grammar apart from RFC 8259, a full round trip with the serializer, and the one canonical document the serializer writes |
| model checker | `Permutations` | the in-place generator is complete, sound, counted and restoring |
| authority | `Delegation`, `AuthorityLayer`, `SignedChain`, `SignedPaths`, `Composition` | first-failure localization, three evaluators compared exactly, end-to-end safety of a composed ALLOW |
| encodings and order | `Transcript`, `Measurements`, `StateAppraisal`, `IndependentAppraisal`, `Timestamps`, `Lexicographic`, `Substrings`, `Delimited`, `DeepMerge`, `Hexadecimal` | when a transcript pins its envelope, when two appraisers agree, text order against order in time |
| metrics | `Arithmetic`, `Tensors`, `TensorSymmetry`, `Topsis` | ordering, factorization and symmetry of the tensor means, rank invariance |

How to read the model:

- A transaction is one atomic step: it completes or leaves every table alone. A run is any finite sequence of calls,
  so it covers every interleaving the lock of the database allows. The classes `Store`, `Proxy`, `RevocationState`
  and `Json` update their fields as the source does; each method is proved equal to a function on snapshots
  (`Apply`, `Deliver`, `Answered`, `Execute`, `ValueAt`), and the theorems are about runs of those functions.
- An exception is a value: `Unknown`, `Conflict`, `Missing`, `Threw`, `None`.
- Assumptions stand where they are used: `Binds` and `CollisionFree` for quotes and digests, each asked only of the
  transcripts and envelopes at hand, `Lawful` for the decimal constructor and for roots, `ReadsTimestamps` for the Java
  time parser. Numbers are exact.
- Where a law fails, there is the exact condition and a lemma at a concrete failing input:

| exact condition | concrete input |
|---|---|
| `StoreSimulation.SimulationExact` | `UnguardedRetryDiverges` |
| `DistributedStore.LoggedTwiceExactly` | `DenialsRepeat` |
| `LiveState.LiveRunExactly` | `ReenrollmentDiverges` |
| `JsonRfc.AcceptedIsRfcExactly`, `JsonRoundTrip.DuplicatesExactly` | `ForeignNumberParses`, `ForeignEscapeParses`, `NullThenTrueParses` |
| `Permutations.DifferentExactly` | `TwinsRepeat` |
| `AuthorityLayer.EvaluatorsAgreeExactly` | `FloatReceiptDiverges` |
| `Transcript.TranscriptPinsExactly` | `LabelInFieldHasTwin` |
| `IndependentAppraisal.AppraisersAgreeExactly` | `CapitalsDiverge`, `PaddingDiverges` |
| `Delimited.ProbeExactly` | `PipedItemAdmitsPiece` |
| `Topsis.ScoreExactly` | `ZeroWeightHasNoScore` |

Where the code and its own words differ, the model follows the code:

- The JSON parser calls itself strict. It accepts decimal digits of any script in numbers and in unicode escapes, scans
  an exponent with both signs (which the decimal constructor then refuses), and does not notice a repeated key whose
  earlier value is null. These three are the only departures from RFC 8259 (`JsonRfc.AcceptedIsRfcExactly`).
- The two authority evaluators are presented as two readings of one rule set. One compares receipts with Python's
  equality, the other by canonical text, so 100 and 100.0 divide them (`FloatReceiptDiverges`).
- The live laboratory's `initialize` reactivates a revoked credential without an event; both durable stores refuse it.
- A failed read or unguarded commit in the live laboratory takes a linearization index and logs nothing (`IndexExactly`).

`dafny verify dfyconfig.toml` checks the whole project.

## Model

| member | source | states |
|---|---|---|
| `ContainerStore.Store.Initialize` | masters-thesis-radar/research-factory-v4-2026-07-27/labs/containerized-durable-revocation/container_service.py:130-152 | A credential is created active with sequence 1 and one event; a second initialization is an integrity error that leaves every table as it was |
| `ContainerStore.Store.Status` | masters-thesis-radar/research-factory-v4-2026-07-27/labs/containerized-durable-revocation/container_service.py:154-175 | A read logs one event with the stored status and sequence, or reports an unknown credential and changes nothing |
| `ContainerStore.Store.Revoke` | masters-thesis-radar/research-factory-v4-2026-07-27/labs/containerized-durable-revocation/container_service.py:177-203 | The first revocation moves status and sequence; later ones only log an event |
| `ContainerStore.Store.Commit` | masters-thesis-radar/research-factory-v4-2026-07-27/labs/containerized-durable-revocation/container_service.py:205-268 | Replay by idempotency key alone, otherwise one decision, one event and, when committed, one effect; a failed transaction leaves no trace |
| `ContainerStore.Database.Restore` | masters-thesis-radar/research-factory-v4-2026-07-27/labs/containerized-durable-revocation/container_service.py:205-268 | Rolling back returns every table to its state at the start of the transaction |
| `ContainerStore.Database.InsertEvent` | masters-thesis-radar/research-factory-v4-2026-07-27/labs/containerized-durable-revocation/container_service.py:205-268 | The insert appends one event with the next identifier and touches no other table |
| `ContainerStore.ApplyKeepsInv` | masters-thesis-radar/research-factory-v4-2026-07-27/labs/containerized-durable-revocation/container_service.py:130-268 | Every operation keeps the store invariant: identifiers 1..n, every event lawful for its credential's history, guarded verdict equal to "no earlier revoke in the log", decisions pointing to their own events, effects exactly for the committed decisions |
| `ContainerStore.RunKeepsInv` | masters-thesis-radar/research-factory-v4-2026-07-27/labs/containerized-durable-revocation/container_service.py:130-268 | The invariant holds in every state reachable by any sequence of calls through any instances |
| `ContainerStore.CommitKeepsInv` | masters-thesis-radar/research-factory-v4-2026-07-27/labs/containerized-durable-revocation/container_service.py:205-268 | A commit keeps the invariant, and in a lawful store the primary keys of decisions and effects never conflict |
| `ContainerStore.PriorIsDecision` | masters-thesis-radar/research-factory-v4-2026-07-27/labs/containerized-durable-revocation/container_service.py:214-228 | The replay look-up finds the decision's own event exactly when the key is decided |
| `ContainerStore.AnswerExactly` | masters-thesis-radar/research-factory-v4-2026-07-27/labs/containerized-durable-revocation/container_service.py:130-268 | Every answer is a replay of the key's own event, a refusal that changes nothing, or the one event the call logs, which names the call and the instance that served it |
| `RevocationTables.LogStaysLawful` | masters-thesis-radar/research-factory-v4-2026-07-27/labs/containerized-durable-revocation/container_service.py:130-268 | Appending an event that fits the history of its credential keeps the whole log lawful, and updates what the log says of each credential exactly as the tables do |
| `RevocationTables.RevokedIsKnown` | masters-thesis-radar/research-factory-v4-2026-07-27/labs/containerized-durable-revocation/container_service.py:177-203 | No credential is revoked in the log that was not initialized before |
| `DistributedStore.Store.Initialize` | masters-thesis-radar/research-factory-v4-2026-07-27/labs/distributed-revocation-service/services.py:103-124 | The same creation in the second store |
| `DistributedStore.Store.Status` | masters-thesis-radar/research-factory-v4-2026-07-27/labs/distributed-revocation-service/services.py:126-146 | The same read in the second store |
| `DistributedStore.Store.Revoke` | masters-thesis-radar/research-factory-v4-2026-07-27/labs/distributed-revocation-service/services.py:148-173 | The same revocation in the second store |
| `DistributedStore.Store.Commit` | masters-thesis-radar/research-factory-v4-2026-07-27/labs/distributed-revocation-service/services.py:175-229 | Replay by key only for committed effects; a denial is logged but not remembered |
| `DistributedStore.ApplyKeepsInv` | masters-thesis-radar/research-factory-v4-2026-07-27/labs/distributed-revocation-service/services.py:103-229 | Every operation keeps the second store's invariant: the same laws of the log and the credentials, and effects in one-to-one correspondence with committed events; a commit never conflicts |
| `DistributedStore.RunKeepsInv` | masters-thesis-radar/research-factory-v4-2026-07-27/labs/distributed-revocation-service/services.py:103-229 | The invariant holds after any calls through any processes |
| `DistributedStore.EffectIsUnique` | masters-thesis-radar/research-factory-v4-2026-07-27/labs/distributed-revocation-service/services.py:175-229 | In every run at most one committed event carries a given key |
| `DistributedStore.LoggedTwiceExactly` | masters-thesis-radar/research-factory-v4-2026-07-27/labs/distributed-revocation-service/services.py:175-229 | Two events of a run carry one key if and only if some commit of the key on a known credential came after the key was denied and before it had an effect |
| `DistributedStore.DenialsRepeat` | masters-thesis-radar/research-factory-v4-2026-07-27/labs/distributed-revocation-service/services.py:175-229 | A concrete run on which one key is denied twice |
| `DistributedStore.PriorIsEffect` | masters-thesis-radar/research-factory-v4-2026-07-27/labs/distributed-revocation-service/services.py:181-196 | The replay look-up finds the effect's own event exactly when the key has an effect |
| `DistributedStore.AnswerExactly` | masters-thesis-radar/research-factory-v4-2026-07-27/labs/distributed-revocation-service/services.py:103-229 | The same for the second store and the process that served the call |
| `StoreSimulation.StepExact` | masters-thesis-radar/research-factory-v4-2026-07-27/labs/distributed-revocation-service/services.py:148-229 | From related states the two stores answer one call alike if and only if it is not an unsafe retry of a denied key, and then stay related |
| `StoreSimulation.SimulationExact` | masters-thesis-radar/research-factory-v4-2026-07-27/labs/containerized-durable-revocation/container_service.py:177-268 | On any run the two stores agree at every call if and only if no call is an unsafe retry, and then end with the same credentials and effect keys |
| `StoreSimulation.GuardedRunsAgree` | masters-thesis-radar/research-factory-v4-2026-07-27/labs/distributed-revocation-service/services.py:175-229 | All commits guarded and the key determining the credential is enough for agreement throughout |
| `StoreSimulation.ForgettingOnlyAdds` | masters-thesis-radar/research-factory-v4-2026-07-27/labs/distributed-revocation-service/services.py:103-229 | On every run whatsoever the stores hold the same credentials, and every effect of the store that remembers decisions is an effect of the one that forgets denials |
| `StoreSimulation.DeniedStaysRevoked` | masters-thesis-radar/research-factory-v4-2026-07-27/labs/containerized-durable-revocation/container_service.py:177-268 | Revocation is permanent: the credential of a denied decision is still revoked |
| `StoreSimulation.UnguardedRetryDiverges` | masters-thesis-radar/research-factory-v4-2026-07-27/labs/distributed-revocation-service/services.py:175-229 | A concrete run on which the stores differ: an unguarded retry after a denial takes effect in one store only |
| `FaultProxy.Proxy.Forward` | masters-thesis-radar/research-factory-v4-2026-07-27/labs/containerized-durable-revocation/fault_proxy.py:40-82 | What the client sees and what reaches the store, for each fault; a message dropped before forwarding changes nothing, one dropped after forwarding changes exactly what a delivered one does |
| `FaultProxy.AnsweredExactly` | masters-thesis-radar/research-factory-v4-2026-07-27/labs/containerized-durable-revocation/fault_proxy.py:40-82 | Message i of any run goes unanswered if and only if the proxy drops it; an answered commit is answered with a decision if and only if its key is decided by then, and otherwise with the refusal of its route, unknown or 502 |
| `FaultProxy.StoreServesReached` | masters-thesis-radar/research-factory-v4-2026-07-27/labs/containerized-durable-revocation/fault_proxy.py:40-82 | Over any messages the store serves exactly the calls that reached it: the direct ones, and the commits the proxy did not drop before forwarding |
| `FaultProxy.AtMostOneDecision` | masters-thesis-radar/research-factory-v4-2026-07-27/labs/containerized-durable-revocation/fault_proxy.py:40-82 | However often a key is attempted and however messages are lost, the log holds at most one event and the tables at most one decision and one effect for it |
| `FaultProxy.DecidedExactlyBy` | masters-thesis-radar/research-factory-v4-2026-07-27/labs/containerized-durable-revocation/run_matrix.py:157-316 | A key is decided exactly when some attempt reached the store and found its credential there |
| `FaultProxy.DeliveredAnswersAgree` | masters-thesis-radar/research-factory-v4-2026-07-27/labs/containerized-durable-revocation/run_matrix.py:118-146 | Every delivered answer carries the decision the final log holds, names the instance that served it, and is marked a replay exactly when an earlier attempt reached the store |
| `FaultProxy.OriginIsFirstAttempt` | masters-thesis-radar/research-factory-v4-2026-07-27/labs/containerized-durable-revocation/fault_proxy.py:40-82 | The event on record for a key was logged by the instance of the first attempt that reached the store |
| `FaultProxy.DeliveredOrigin` | masters-thesis-radar/research-factory-v4-2026-07-27/labs/containerized-durable-revocation/run_matrix.py:195-260 | Every delivered answer names that instance as the original one |
| `FaultProxy.AfterGrows` | masters-thesis-radar/research-factory-v4-2026-07-27/labs/containerized-durable-revocation/container_service.py:205-268 | No run of messages loses or rewrites an event, a decision or the effect of a decided key |
| `FaultProxy.KeyedEventIsUnique` | masters-thesis-radar/research-factory-v4-2026-07-27/labs/containerized-durable-revocation/container_service.py:205-268 | In a lawful store at most one event carries a given key |
| `RaceLaw.RaceExact` | masters-thesis-radar/research-factory-v4-2026-07-27/labs/distributed-revocation-service/run_experiment.py:201-398 | On any store with the three laws, any number of reads and any interleaving, for a client that stops on a revoked read or one that does not: a false allow if and only if the client reaches an unguarded commit at which the credential is revoked; never a false deny; acceptance and the oracle characterised likewise; a lost response raises exactly when a guarded commit was denied, and changes nothing else |
| `RaceLaw.ReadsObserve` | masters-thesis-radar/research-factory-v4-2026-07-27/labs/distributed-revocation-service/run_experiment.py:257-327 | The reads stop a client that heeds them exactly when one of them finds the credential revoked, and never another client |
| `RaceLaw.CaseIsRun` | masters-thesis-radar/research-factory-v4-2026-07-27/labs/distributed-revocation-service/run_experiment.py:241-398 | What a case leaves is the run of the others' rounds with one read after each, then the commit when the client reaches it; a stopped client leaves the rounds up to its first revoked read and nothing more |
| `RaceLaw.RaceWithoutRevival` | masters-thesis-radar/research-factory-v4-2026-07-27/labs/distributed-revocation-service/run_experiment.py:201-398 | Where nothing reactivates the credential: the race in terms of who revokes when |
| `RaceLaw.EveryReadCountIsFooled` | masters-thesis-radar/research-factory-v4-2026-07-27/labs/formal-composition-modelcheck/CompositionModelCheck.java:152-205 | On any store with the three laws, for every number of reads some schedule gives an unguarded client of a live credential a false allow |
| `DistributedRaces.ExecuteCase` | masters-thesis-radar/research-factory-v4-2026-07-27/labs/distributed-revocation-service/run_experiment.py:187-398 | The reads, the stop on a revoked answer, the commit, and with a lost response the wait for the durable effect, the restart of the process and the retry, the others acting before every one of these steps, equal to the specified run |
| `DistributedRaces.RaceExact` | masters-thesis-radar/research-factory-v4-2026-07-27/labs/distributed-revocation-service/run_experiment.py:201-398 | The race on the distributed store, with or without a lost response and a restart, whatever the others do between the client's steps while nobody else uses the key |
| `DistributedRaces.CaseIsRun` | masters-thesis-radar/research-factory-v4-2026-07-27/labs/distributed-revocation-service/run_experiment.py:241-398 | The store after the case is the store after its calls, those of the gap and the retry included |
| `DistributedRaces.EffectExactly` | masters-thesis-radar/research-factory-v4-2026-07-27/labs/distributed-revocation-service/run_experiment.py:241-398 | After the case the client's key has an effect if and only if the client reached its commit and, when guarded, found the credential live, with or without a lost response |
| `DistributedRaces.StoppedLogsNothing` | masters-thesis-radar/research-factory-v4-2026-07-27/labs/distributed-revocation-service/run_experiment.py:257-327 | A client stopped by a revoked read leaves no event under a key that had none |
| `DistributedRaces.FreshCommit` | masters-thesis-radar/research-factory-v4-2026-07-27/labs/distributed-revocation-service/services.py:175-229 | A commit of a key without an effect records the live status it found, follows its guard, and is durable exactly when it committed |
| `DistributedRaces.RetryReplays` | masters-thesis-radar/research-factory-v4-2026-07-27/labs/distributed-revocation-service/run_experiment.py:357-368 | After a durable commit, and after any calls of others that do not use the key, a retry through any process answers with the committed event, marked a replay, and changes nothing |
| `DistributedRaces.RunKeepsEffect` | masters-thesis-radar/research-factory-v4-2026-07-27/labs/distributed-revocation-service/services.py:103-229 | No calls of others rewrite an event or touch the effect of a key they do not use |
| `DistributedRaces.LossIsInvisible` | masters-thesis-radar/research-factory-v4-2026-07-27/labs/distributed-revocation-service/run_experiment.py:355-370 | A lossy client learns what a lossless one would, except that it raises when nothing was durably committed |
| `DistributedRaces.EveryReadCountIsFooled` | masters-thesis-radar/research-factory-v4-2026-07-27/labs/distributed-revocation-service/run_experiment.py:241-398 | For every number of reads some schedule gives an unguarded client of the distributed store a false allow, with or without a lost response |
| `LiveRaces.ExecuteCase` | masters-thesis-radar/research-factory-v4-2026-07-27/labs/live-revocation-service/run_live_races.py:202-335 | The same case against the in-memory state, initializations by others included, equal to the specified run |
| `LiveRaces.RaceExact` | masters-thesis-radar/research-factory-v4-2026-07-27/labs/live-revocation-service/run_live_races.py:202-386 | The race on the in-memory state under any requests of others: a false allow if and only if the credential is live at every read and revoked at the unguarded commit; initializing it again revives it |
| `LiveRaces.CaseIsRun` | masters-thesis-radar/research-factory-v4-2026-07-27/labs/live-revocation-service/run_live_races.py:202-335 | The in-memory state after the case is the one after its requests, a stopped client committing nothing |
| `LiveRaces.CommitLoggedExactly` | masters-thesis-radar/research-factory-v4-2026-07-27/labs/live-revocation-service/run_live_races.py:202-335 | Where nobody else commits on the credential, a commit event of it is logged if and only if the client finds it live at every read |
| `LiveRaces.RequestsMoveStatus` | masters-thesis-radar/research-factory-v4-2026-07-27/labs/live-revocation-service/run_live_races.py:50-115 | After any requests a known credential is live exactly when some initialization among them has no revocation after it, or it was live and nobody revoked it |
| `LiveRaces.EveryReadCountIsFooled` | masters-thesis-radar/research-factory-v4-2026-07-27/labs/live-revocation-service/run_live_races.py:202-335 | For every number of reads some schedule gives an unguarded client of the in-memory state a false allow |
| `Races.ExecuteCase` | masters-thesis-radar/research-factory-v4-2026-07-27/labs/containerized-durable-revocation/run_matrix.py:157-192 | The same case against the container store, for the lab's client, which ignores what its reads say, and for the model checker's, which stops on a revoked one; equal to the specified run |
| `Races.RaceExact` | masters-thesis-radar/research-factory-v4-2026-07-27/labs/containerized-durable-revocation/run_matrix.py:118-358 | The race on the container store, nobody else using the key: a client that ignores its reads has a false allow if and only if it is unguarded and the credential is not live at the commit; one that heeds them also needs it live through the last read; no false deny |
| `Races.CaseIsRun` | masters-thesis-radar/research-factory-v4-2026-07-27/labs/containerized-durable-revocation/run_matrix.py:157-358 | The container store after the case is the store after its calls: the others' rounds with one read each, then the commit |
| `Races.EffectExactly` | masters-thesis-radar/research-factory-v4-2026-07-27/labs/containerized-durable-revocation/run_matrix.py:157-358 | After the case the client's key is decided, and on an event, if and only if the client reached its commit, and has an effect if and only if it did and, when guarded, found the credential live |
| `Races.EveryReadCountIsFooled` | masters-thesis-radar/research-factory-v4-2026-07-27/labs/formal-composition-modelcheck/CompositionModelCheck.java:152-205 | For every number of reads some schedule gives an unguarded client of the container store a false allow, from every ready state with a live credential |
| `Races.InitializedIsReady` | masters-thesis-radar/research-factory-v4-2026-07-27/labs/containerized-durable-revocation/run_matrix.py:163-166 | A credential just initialized in an empty store is live and its key undecided |
| `Races.RunMovesStatus` | masters-thesis-radar/research-factory-v4-2026-07-27/labs/formal-composition-modelcheck/CompositionModelCheck.java:152-225 | After any run of other clients' calls the credential is live exactly when it was live and nobody revoked it, and the client's key is still undecided |
| `LiveState.RevocationState.Initialize` | masters-thesis-radar/research-factory-v4-2026-07-27/labs/live-revocation-service/run_live_races.py:50-55 | Initialization overwrites the record, silently, even of a revoked credential |
| `LiveState.RevocationState.ReadStatus` | masters-thesis-radar/research-factory-v4-2026-07-27/labs/live-revocation-service/run_live_races.py:84-87 | A read logs an event; for an unknown credential the index advances all the same |
| `LiveState.RevocationState.Revoke` | masters-thesis-radar/research-factory-v4-2026-07-27/labs/live-revocation-service/run_live_races.py:89-96 | Revocation moves status and sequence once, and fails without a trace for an unknown credential |
| `LiveState.RevocationState.Commit` | masters-thesis-radar/research-factory-v4-2026-07-27/labs/live-revocation-service/run_live_races.py:98-115 | The guarded commit follows the status; the unguarded one always commits |
| `LiveState.RecordExactly` | masters-thesis-radar/research-factory-v4-2026-07-27/labs/live-revocation-service/run_live_races.py:50-96 | A credential is active with sequence 1 exactly when some initialization has no revocation after it, and otherwise revoked with sequence 2 |
| `LiveState.GuardFollowsLastChange` | masters-thesis-radar/research-factory-v4-2026-07-27/labs/live-revocation-service/run_live_races.py:98-106 | A guarded commit succeeds exactly when the credential was initialized and not revoked since |
| `LiveState.IndexExactly` | masters-thesis-radar/research-factory-v4-2026-07-27/labs/live-revocation-service/run_live_races.py:64-82 | Linearization indices grow strictly and skip exactly one number per failed read or unguarded commit |
| `LiveState.AnswerExactly` | masters-thesis-radar/research-factory-v4-2026-07-27/labs/live-revocation-service/run_live_races.py:50-115 | The event in an answer is the one just logged, under the next index; initialization answers nothing, and an unknown credential logs nothing |
| `LiveState.LiveStepExact` | masters-thesis-radar/research-factory-v4-2026-07-27/labs/live-revocation-service/run_live_races.py:50-115 | One step from equal credentials keeps the in-memory and the durable store equal if and only if it does not reactivate a credential, and tells the client the same if and only if it does not initialize twice |
| `LiveState.LiveRunAgrees` | masters-thesis-radar/research-factory-v4-2026-07-27/labs/live-revocation-service/run_live_races.py:50-115 | On any run that initializes no credential twice, the in-memory state ends with the durable store's credentials and tells its clients the same at every request |
| `LiveState.LiveRunExactly` | masters-thesis-radar/research-factory-v4-2026-07-27/labs/live-revocation-service/run_live_races.py:50-115 | On any run the in-memory state tells its clients at every request what the durable store would if and only if no credential is initialized twice |
| `LiveState.ReenrolledIsActiveInMemory` | masters-thesis-radar/research-factory-v4-2026-07-27/labs/live-revocation-service/run_live_races.py:50-55 | A concrete run: initialized, revoked and initialized again, a credential is active in memory and revoked in the durable store |
| `LiveState.ReenrollmentDiverges` | masters-thesis-radar/research-factory-v4-2026-07-27/labs/live-revocation-service/run_live_races.py:50-55 | On that run the two do not tell their clients the same at every request |
| `Permutations.Generate` | masters-thesis-radar/research-factory-v4-2026-07-27/labs/formal-composition-modelcheck/CompositionModelCheck.java:135-150 | The in-place generator restores the array and appends exactly the specified lists, in order |
| `Permutations.SchedulesExactly` | masters-thesis-radar/research-factory-v4-2026-07-27/labs/formal-composition-modelcheck/CompositionModelCheck.java:135-150 | The appended lists are exactly the rearrangements that keep the prefix, (n - index)! of them |
| `Permutations.DifferentExactly` | masters-thesis-radar/research-factory-v4-2026-07-27/labs/formal-composition-modelcheck/CompositionModelCheck.java:135-150 | They are pairwise different if and only if the permuted events are |
| `Permutations.TwinsRepeat` | masters-thesis-radar/research-factory-v4-2026-07-27/labs/formal-composition-modelcheck/CompositionModelCheck.java:135-150 | Two equal events give one list twice |
| `Permutations.Count` | masters-thesis-radar/research-factory-v4-2026-07-27/labs/formal-composition-modelcheck/CompositionModelCheck.java:135-150 | (n - index)! lists are appended |
| `Permutations.Sound` | masters-thesis-radar/research-factory-v4-2026-07-27/labs/formal-composition-modelcheck/CompositionModelCheck.java:135-150 | Every appended list rearranges the input and keeps its prefix |
| `Permutations.Complete` | masters-thesis-radar/research-factory-v4-2026-07-27/labs/formal-composition-modelcheck/CompositionModelCheck.java:135-150 | No rearrangement that keeps the prefix is missing |
| `Permutations.BlockAt` | masters-thesis-radar/research-factory-v4-2026-07-27/labs/formal-composition-modelcheck/CompositionModelCheck.java:135-150 | The lists come in blocks of equal length, one for each position from the index on and in that order, block j being the recursion with that position's event in front |
| `Permutations.FirstIsItself` | masters-thesis-radar/research-factory-v4-2026-07-27/labs/formal-composition-modelcheck/CompositionModelCheck.java:135-150 | The first list is the array as it was found |
| `JsonParser.Json.Parse` | masters-thesis-radar/research-factory-v4-2026-07-27/labs/native-state-transaction-overlay/independent-java/IndependentVerifier.java:922-930 | The parser object returns the grammar's value, or the grammar's error at the grammar's position, and rejects trailing data |
| `JsonParser.Json.ParseValue` | masters-thesis-radar/research-factory-v4-2026-07-27/labs/native-state-transaction-overlay/independent-java/IndependentVerifier.java:938-952 | Dispatch on the next unit, for every remaining text |
| `JsonParser.Json.ParseObject` | masters-thesis-radar/research-factory-v4-2026-07-27/labs/native-state-transaction-overlay/independent-java/IndependentVerifier.java:954-975 | The member loop, with the duplicate test that does not notice an earlier null |
| `JsonParser.Json.ParseArray` | masters-thesis-radar/research-factory-v4-2026-07-27/labs/native-state-transaction-overlay/independent-java/IndependentVerifier.java:977-992 | The item loop |
| `JsonParser.Json.ParseString` | masters-thesis-radar/research-factory-v4-2026-07-27/labs/native-state-transaction-overlay/independent-java/IndependentVerifier.java:994-1027 | The string loop: quotes, escapes, control characters, the end of the text |
| `JsonParser.Json.ParseUnicode` | masters-thesis-radar/research-factory-v4-2026-07-27/labs/native-state-transaction-overlay/independent-java/IndependentVerifier.java:1029-1042 | Four hexadecimal digits, in any script `Character.digit` knows |
| `JsonParser.Json.ParseNumber` | masters-thesis-radar/research-factory-v4-2026-07-27/labs/native-state-transaction-overlay/independent-java/IndependentVerifier.java:1052-1078 | Maximal munch, and the decimal constructor's refusal |
| `JsonParser.Json.ScanLexeme` | masters-thesis-radar/research-factory-v4-2026-07-27/labs/native-state-transaction-overlay/independent-java/IndependentVerifier.java:1052-1078 | The offset after scanning is where the lexeme ends |
| `JsonWriter.Stringify` | masters-thesis-radar/research-factory-v4-2026-07-27/labs/native-state-transaction-overlay/independent-java/IndependentVerifier.java:932-936 | The serializer returns the canonical text of the value |
| `JsonWriter.AppendValue` | masters-thesis-radar/research-factory-v4-2026-07-27/labs/native-state-transaction-overlay/independent-java/IndependentVerifier.java:1123-1164 | The builder grows by exactly the text of the value, keys sorted |
| `JsonWriter.AppendQuoted` | masters-thesis-radar/research-factory-v4-2026-07-27/labs/native-state-transaction-overlay/independent-java/IndependentVerifier.java:1166-1189 | The builder grows by the quoted text, unit by unit |
| `JsonWriter.SortKeys` | masters-thesis-radar/research-factory-v4-2026-07-27/labs/native-state-transaction-overlay/independent-java/IndependentVerifier.java:1132-1136 | The keys come out in ascending UTF-16 order, each once |
| `JsonCanonical.WriteExactly` | masters-thesis-radar/research-factory-v4-2026-07-27/labs/native-state-transaction-overlay/independent-java/IndependentVerifier.java:1123-1189 | A text is the one written for a value if and only if it is the text of a canonical document that means the value: no space, keys ascending, every unit in its shortest spelling, digits lower-case, numbers as their constructor prints them |
| `JsonCanonical.CanonicalIsWritten` | masters-thesis-radar/research-factory-v4-2026-07-27/labs/native-state-transaction-overlay/independent-java/IndependentVerifier.java:1123-1189 | Every canonical document, at any depth and before any tail, is spelled as its meaning is written |
| `JsonCanonical.CanonicalExists` | masters-thesis-radar/research-factory-v4-2026-07-27/labs/native-state-transaction-overlay/independent-java/IndependentVerifier.java:1123-1189 | Every value that can be read back has a canonical document |
| `JsonCanonical.ShortestIsUnitFor` | masters-thesis-radar/research-factory-v4-2026-07-27/labs/native-state-transaction-overlay/independent-java/IndependentVerifier.java:1166-1189 | A code unit has one shortest spelling in a string |
| `JsonCanonical.WriteIsOneLine` | masters-thesis-radar/research-factory-v4-2026-07-27/labs/native-state-transaction-overlay/independent-java/IndependentVerifier.java:777-785 | No written text holds a control character, so a row of a JSONL file is one line |
| `JsonText.ListIsUnique` | masters-thesis-radar/research-factory-v4-2026-07-27/labs/native-state-transaction-overlay/independent-java/IndependentVerifier.java:1132-1136 | A set of keys has one ascending list, so the serializer's output is determined |
| `JsonSyntax.ParseExactly` | masters-thesis-radar/research-factory-v4-2026-07-27/labs/native-state-transaction-overlay/independent-java/IndependentVerifier.java:914-1115 | The parser accepts exactly the well-formed documents of a declarative grammar, space, escapes, numerals and the duplicate rule included, and returns what the document means |
| `JsonSyntax.DocReads` | masters-thesis-radar/research-factory-v4-2026-07-27/labs/native-state-transaction-overlay/independent-java/IndependentVerifier.java:938-1115 | Every well-formed document, before anything that may follow a value, is read as what it means, with exactly its text consumed |
| `JsonSyntax.DocIs` | masters-thesis-radar/research-factory-v4-2026-07-27/labs/native-state-transaction-overlay/independent-java/IndependentVerifier.java:938-1115 | Whatever is read is a well-formed document after some space, and the value returned is its meaning |
| `JsonSyntax.NumeralIs` | masters-thesis-radar/research-factory-v4-2026-07-27/labs/native-state-transaction-overlay/independent-java/IndependentVerifier.java:1052-1089 | Whatever is scanned as a number is a sign, an integer part without a leading zero, a fraction and an exponent |
| `JsonSyntax.MeaningIsUnique` | masters-thesis-radar/research-factory-v4-2026-07-27/labs/native-state-transaction-overlay/independent-java/IndependentVerifier.java:914-1115 | No text has two meanings |
| `JsonRoundTrip.ParseInvertsWrite` | masters-thesis-radar/research-factory-v4-2026-07-27/labs/native-state-transaction-overlay/independent-java/IndependentVerifier.java:914-1190 | For every value with unique keys, any UTF-16 strings and readable decimals: parsing the written text consumes all of it and returns the value |
| `JsonRoundTrip.ValueRoundTrips` | masters-thesis-radar/research-factory-v4-2026-07-27/labs/native-state-transaction-overlay/independent-java/IndependentVerifier.java:938-1164 | The same inside a larger document, before anything that may follow a value |
| `JsonRoundTrip.WriteIsNormalForm` | masters-thesis-radar/research-factory-v4-2026-07-27/labs/native-state-transaction-overlay/independent-java/IndependentVerifier.java:922-936 | Whatever source is accepted, one write gives a text that reads back to the same value and writes as itself |
| `JsonRoundTrip.ValueIsGood` | masters-thesis-radar/research-factory-v4-2026-07-27/labs/native-state-transaction-overlay/independent-java/IndependentVerifier.java:938-1078 | Every value the parser returns is one the round trip covers |
| `JsonRoundTrip.DuplicatesExactly` | masters-thesis-radar/research-factory-v4-2026-07-27/labs/native-state-transaction-overlay/independent-java/IndependentVerifier.java:954-975 | A list of members is rejected as a duplicate if and only if a member with a non-null value is followed by one with the same key; otherwise the last value wins |
| `JsonRoundTrip.LexemeEndsThere` | masters-thesis-radar/research-factory-v4-2026-07-27/labs/native-state-transaction-overlay/independent-java/IndependentVerifier.java:1052-1089 | Maximal munch stops exactly where the lexeme ended, whatever may follow a value |
| `JsonRoundTrip.NumberRoundTrips` | masters-thesis-radar/research-factory-v4-2026-07-27/labs/native-state-transaction-overlay/independent-java/IndependentVerifier.java:1052-1078 | A number lexeme reads back as itself before any terminator |
| `JsonRoundTrip.QuotedRoundTrips` | masters-thesis-radar/research-factory-v4-2026-07-27/labs/native-state-transaction-overlay/independent-java/IndependentVerifier.java:994-1042 | Every text of code units survives quoting and reading, escapes included |
| `JsonUnique.DocumentIsUnique` | masters-thesis-radar/research-factory-v4-2026-07-27/labs/native-state-transaction-overlay/independent-java/IndependentVerifier.java:914-1115 | A text has one document of the grammar, with one space before and after it |
| `JsonUnique.DocSame` | masters-thesis-radar/research-factory-v4-2026-07-27/labs/native-state-transaction-overlay/independent-java/IndependentVerifier.java:938-1115 | A well-formed document and what follows it are determined by their text |
| `JsonRfc.AcceptedIsRfcExactly` | masters-thesis-radar/research-factory-v4-2026-07-27/labs/native-state-transaction-overlay/independent-java/IndependentVerifier.java:914-1115 | An accepted text is RFC 8259 (sections 2, 4, 6 and 7, names unique) if and only if its one document has no digit of another script, no exponent with two signs and no key repeated after a null |
| `JsonRfc.DepartsExactly` | masters-thesis-radar/research-factory-v4-2026-07-27/labs/native-state-transaction-overlay/independent-java/IndependentVerifier.java:938-1115 | The same for every document the parser accepts, at any depth |
| `JsonRfc.RfcIsParsed` | masters-thesis-radar/research-factory-v4-2026-07-27/labs/native-state-transaction-overlay/independent-java/IndependentVerifier.java:914-1115 | Every RFC 8259 text whose numbers the decimal constructor takes is parsed, to what it means |
| `JsonRfc.ForeignNumberParses` | masters-thesis-radar/research-factory-v4-2026-07-27/labs/native-state-transaction-overlay/independent-java/IndependentVerifier.java:1052-1089 | An Arabic-Indic three is parsed as a number and is no RFC 8259 text |
| `JsonRfc.ForeignEscapeParses` | masters-thesis-radar/research-factory-v4-2026-07-27/labs/native-state-transaction-overlay/independent-java/IndependentVerifier.java:1029-1042 | A unicode escape in Arabic-Indic digits is parsed as its letter and is no RFC 8259 text |
| `JsonRfc.NullThenTrueParses` | masters-thesis-radar/research-factory-v4-2026-07-27/labs/native-state-transaction-overlay/independent-java/IndependentVerifier.java:954-975 | An object that repeats a key after a null is parsed, the last value staying, and is no RFC 8259 text |
| `JsonErrors.StringFault` | masters-thesis-radar/research-factory-v4-2026-07-27/labs/native-state-transaction-overlay/independent-java/IndependentVerifier.java:994-1040 | After any well-formed units of a string, an end, a control character, or a broken escape is reported as such, right behind the offending unit |
| `JsonErrors.NothingToRead` | masters-thesis-radar/research-factory-v4-2026-07-27/labs/native-state-transaction-overlay/independent-java/IndependentVerifier.java:938-942 | A text of nothing but space ends where a value is due |
| `JsonErrors.DataBehind` | masters-thesis-radar/research-factory-v4-2026-07-27/labs/native-state-transaction-overlay/independent-java/IndependentVerifier.java:922-930 | Anything behind a document and its space is trailing data, reported where it starts |
| `JsonErrors.NoSeparator` | masters-thesis-radar/research-factory-v4-2026-07-27/labs/native-state-transaction-overlay/independent-java/IndependentVerifier.java:977-992 | Behind the first item of an array anything but a comma or a bracket is reported where it stands |
| `JsonErrors.NoKey` | masters-thesis-radar/research-factory-v4-2026-07-27/labs/native-state-transaction-overlay/independent-java/IndependentVerifier.java:954-975 | Anything but a key behind an opening brace is reported where it stands |
| `JsonErrors.NoColon` | masters-thesis-radar/research-factory-v4-2026-07-27/labs/native-state-transaction-overlay/independent-java/IndependentVerifier.java:954-975 | Anything but a colon behind the first key is reported where it stands |
| `JsonErrors.SameKey` | masters-thesis-radar/research-factory-v4-2026-07-27/labs/native-state-transaction-overlay/independent-java/IndependentVerifier.java:964-968 | A repeated key, its first value not null, is reported behind its second value |
| `JsonErrors.NoLiteral` | masters-thesis-radar/research-factory-v4-2026-07-27/labs/native-state-transaction-overlay/independent-java/IndependentVerifier.java:1044-1050 | A text that starts like a literal and is none is reported at its start |
| `JsonErrors.NoDigit` | masters-thesis-radar/research-factory-v4-2026-07-27/labs/native-state-transaction-overlay/independent-java/IndependentVerifier.java:1080-1089 | A minus without a digit behind it is reported behind the minus |
| `JsonErrors.NoNumber` | masters-thesis-radar/research-factory-v4-2026-07-27/labs/native-state-transaction-overlay/independent-java/IndependentVerifier.java:1073-1077 | A whole lexeme the decimal constructor refuses is reported behind the lexeme |
| `JsonErrors.TokensAreSpelled` | masters-thesis-radar/research-factory-v4-2026-07-27/labs/native-state-transaction-overlay/independent-java/IndependentVerifier.java:938-952 | The literals and structural characters are those of RFC 8259 |
| `JsonErrors.EscapesAre` | masters-thesis-radar/research-factory-v4-2026-07-27/labs/native-state-transaction-overlay/independent-java/IndependentVerifier.java:1002-1018 | The two-character escapes and the units they stand for are those of section 7 of RFC 8259 |
| `JsonErrors.SpacesAre` | masters-thesis-radar/research-factory-v4-2026-07-27/labs/native-state-transaction-overlay/independent-java/IndependentVerifier.java:1091-1101 | The space passed over is that of section 2 of RFC 8259 |
| `Delegation.Evaluate` | masters-thesis-radar/research-factory-v4-2026-07-27/labs/protocol-valid-unauthorized/verify_delegation_paths.py:95-179 | The verdict is the protocol flag's or the least failing stage's, with PASS before it, DENY at it and NOT_EVALUATED after it in the stage list |
| `Delegation.MarkDenied` | masters-thesis-radar/research-factory-v4-2026-07-27/labs/protocol-valid-unauthorized/verify_delegation_paths.py:81-92 | The in-place marking of the stage list |
| `Delegation.TraceExactly` | masters-thesis-radar/research-factory-v4-2026-07-27/labs/protocol-valid-unauthorized/verify_delegation_paths.py:95-179 | A stage is marked passed, denied or not evaluated exactly as the stages up to it pass on their own, and only the denied one carries a gate |
| `Delegation.VerdictIsUnique` | masters-thesis-radar/research-factory-v4-2026-07-27/labs/protocol-valid-unauthorized/verify_delegation_paths.py:95-179 | The specification of the verdict admits one answer |
| `Delegation.DenialIsLocal` | masters-thesis-radar/research-factory-v4-2026-07-27/labs/protocol-valid-unauthorized/verify_delegation_paths.py:114-146 | A denial at an edge depends only on the protocol flag and the edges up to it |
| `Delegation.BuildCase` | masters-thesis-radar/research-factory-v4-2026-07-27/labs/protocol-valid-unauthorized/verify_delegation_paths.py:30-66 | The built case has the expected chain of edges, action and receipt, negative hop counts included |
| `Delegation.BuiltCaseExactly` | masters-thesis-radar/research-factory-v4-2026-07-27/labs/protocol-valid-unauthorized/verify_delegation_paths.py:30-179 | A built case evaluates to ALLOW if and only if its base is sound: allowed role steps, time in the window, delegable when there are two hops, action in scope |
| `Delegation.TwoHops` | masters-thesis-radar/research-factory-v4-2026-07-27/labs/protocol-valid-unauthorized/verify_delegation_paths.py:30-66 | The case built for two hops, written out |
| `Delegation.DecimalReads` | masters-thesis-radar/research-factory-v4-2026-07-27/labs/protocol-valid-unauthorized/verify_delegation_paths.py:30-66 | The number in an identifier reads back as the index, without leading zeros |
| `Delegation.ScopesNarrow` | masters-thesis-radar/research-factory-v4-2026-07-27/labs/protocol-valid-unauthorized/verify_delegation_paths.py:130-146 | Along an allowed path every later scope narrows every earlier one |
| `AuthorityLayer.Appraise` | masters-thesis-radar/research-factory-v4-2026-07-27/companions/mutation-tests/evaluate_mutation_corpus.py:119-201 | The second evaluator's loop equals its specification |
| `AuthorityLayer.EvaluatorsAgreeExactly` | masters-thesis-radar/research-factory-v4-2026-07-27/companions/mutation-tests/evaluate_mutation_corpus.py:119-201 | For any number of edges the two evaluators give the same verdict and rejecting gate, unless the path is allowed and the receipt writes the amount with a different JSON number kind than the action: then and only then they differ |
| `AuthorityLayer.RulingLocalizes` | masters-thesis-radar/research-factory-v4-2026-07-27/companions/mutation-tests/evaluate_mutation_corpus.py:119-201 | A rejection names the edge at which the path evaluator denies, and no edge when that is behind the last one |
| `AuthorityLayer.BrokenEdge` | masters-thesis-radar/research-factory-v4-2026-07-27/companions/mutation-tests/evaluate_mutation_corpus.py:119-201 | A passing edge broken in one field is rejected under the name and number of the rule for that field, and for its index |
| `AuthorityLayer.BrokenGrant` | masters-thesis-radar/research-factory-v4-2026-07-27/companions/mutation-tests/evaluate_mutation_corpus.py:119-201 | The same for every field of the grant |
| `AuthorityLayer.BrokenAction` | masters-thesis-radar/research-factory-v4-2026-07-27/companions/mutation-tests/evaluate_mutation_corpus.py:119-201 | The same for every field of the action, before the receipt is looked at |
| `AuthorityLayer.BrokenReceipt` | masters-thesis-radar/research-factory-v4-2026-07-27/companions/mutation-tests/evaluate_mutation_corpus.py:119-201 | The same for every field of the receipt |
| `AuthorityLayer.FloatReceiptIsRejected` | masters-thesis-radar/research-factory-v4-2026-07-27/companions/mutation-tests/evaluate_mutation_corpus.py:198-200 | Whatever the allowed case, a receipt for 100.0 against an action for 100 is rejected by the second evaluator |
| `AuthorityLayer.FloatReceiptDiverges` | masters-thesis-radar/research-factory-v4-2026-07-27/companions/mutation-tests/evaluate_mutation_corpus.py:198-200 | A concrete case, a direct payment of 100 with a receipt for 100.0, that one evaluator allows and the other rejects |
| `SignedChain.Evaluate` | masters-thesis-radar/research-factory-v4-2026-07-27/companions/native-signed-authority-adapters/verify_fixtures.py:65-154 | The signed evaluator's loop with the running parent digest: it answers with the first failing envelope or terminal check |
| `SignedChain.BrokenEnvelope` | masters-thesis-radar/research-factory-v4-2026-07-27/companions/native-signed-authority-adapters/verify_fixtures.py:65-154 | A passing envelope broken in one field and signed again is rejected under the gate of that field |
| `SignedChain.BrokenGrant` | masters-thesis-radar/research-factory-v4-2026-07-27/companions/native-signed-authority-adapters/verify_fixtures.py:65-154 | The same for every field of the grant |
| `SignedChain.BrokenAction` | masters-thesis-radar/research-factory-v4-2026-07-27/companions/native-signed-authority-adapters/verify_fixtures.py:65-154 | The same for every field of the action, before the receipt is looked at |
| `SignedChain.BrokenReceipt` | masters-thesis-radar/research-factory-v4-2026-07-27/companions/native-signed-authority-adapters/verify_fixtures.py:65-154 | The same for every field of the receipt |
| `SignedChain.LastEnvelopeDeterminesChain` | masters-thesis-radar/research-factory-v4-2026-07-27/companions/native-signed-authority-adapters/verify_fixtures.py:74-123 | Accepted chains with the same last envelope are equal, unless two of their envelopes share a digest or one has the anchor as its digest |
| `SignedChain.ChainsAgreeBackwards` | masters-thesis-radar/research-factory-v4-2026-07-27/companions/native-signed-authority-adapters/verify_fixtures.py:74-123 | Two accepted chains that share an envelope agree, position and content, back to the anchor, unless their digests collide |
| `SignedChain.EnvelopesAreDistinct` | masters-thesis-radar/research-factory-v4-2026-07-27/companions/native-signed-authority-adapters/verify_fixtures.py:74-123 | No accepted chain uses an envelope twice, unless its digests collide |
| `SignedChain.ReceiptDeterminesItem` | masters-thesis-radar/research-factory-v4-2026-07-27/companions/native-signed-authority-adapters/verify_fixtures.py:143-154 | Two accepted items with one receipt are equal, unless the digests of their two chains collide |
| `SignedChain.AcceptedWithoutCollision` | masters-thesis-radar/research-factory-v4-2026-07-27/companions/native-signed-authority-adapters/verify_fixtures.py:65-160 | A concrete accepted chain of two envelopes that meets the hypothesis |
| `SignedChain.CollisionAdmitsTwoChains` | masters-thesis-radar/research-factory-v4-2026-07-27/companions/native-signed-authority-adapters/verify_fixtures.py:65-160 | A concrete collision: one envelope taken once and taken twice are both accepted, with the same last envelope and the same receipt |
| `SignedPaths.SignedAcceptanceExactly` | masters-thesis-radar/research-factory-v4-2026-07-27/companions/native-signed-authority-adapters/verify_fixtures.py:65-154 | The third evaluator accepts if and only if the path evaluator allows the item without its digests, the envelopes are linked, and the receipt is issued by the last delegate over the whole chain with amounts of one JSON kind |
| `Composition.BindExactly` | masters-thesis-radar/research-factory-v4-2026-07-27/labs/composed-transaction-corpus/composition_rule.py:277-362 | Binding succeeds if and only if effect and profile agree with the policy, effect and resource lie in the terminal grant, and the evidence lies in every edge's window |
| `Composition.BrokenBinding` | masters-thesis-radar/research-factory-v4-2026-07-27/labs/composed-transaction-corpus/composition_rule.py:277-362 | Subjects that bind, broken in one place, get the mismatch of that place |
| `Composition.SubjectsExactly` | masters-thesis-radar/research-factory-v4-2026-07-27/labs/composed-transaction-corpus/composition_rule.py:277-362 | The subjects are the policy's and the action's own entries, the last grant's tools and resources in order, and exactly the window all grants share |
| `Composition.SortedIsSorted` | masters-thesis-radar/research-factory-v4-2026-07-27/labs/composed-transaction-corpus/composition_rule.py:277-362 | The lists of the subjects are sorted rearrangements |
| `Composition.WindowIsIntersection` | masters-thesis-radar/research-factory-v4-2026-07-27/labs/composed-transaction-corpus/composition_rule.py:200-228 | The latest start and the earliest end bound a time exactly when every edge's window contains it |
| `Composition.ComposeExactly` | masters-thesis-radar/research-factory-v4-2026-07-27/labs/composed-transaction-corpus/composition_rule.py:403-459 | ALLOW needs every layer and the binding; an empty list of failed layers with a denial means the binding alone refused; the first gate says verified exactly on ALLOW or when a reported authority denial carries that text itself |
| `Composition.DenialHasItsOwnGate` | masters-thesis-radar/research-factory-v4-2026-07-27/labs/protocol-valid-unauthorized/verify_delegation_paths.py:95-179 | The path evaluator never denies under the gate verified |
| `Composition.VerifiedIsAllow` | masters-thesis-radar/research-factory-v4-2026-07-27/labs/composed-transaction-corpus/composition_rule.py:403-459 | With the path evaluator's verdict the first gate says verified exactly on ALLOW |
| `Composition.FirstGateIsOfFirstFailed` | masters-thesis-radar/research-factory-v4-2026-07-27/labs/composed-transaction-corpus/composition_rule.py:370-459 | The first gate is the gate of the head of the list of failed layers; the binding speaks only when that list is empty |
| `Composition.FailedLayersExactly` | masters-thesis-radar/research-factory-v4-2026-07-27/labs/composed-transaction-corpus/composition_rule.py:365-367 | The list of failed layers holds exactly the layers that do not pass |
| `Composition.FailedInOrder` | masters-thesis-radar/research-factory-v4-2026-07-27/labs/composed-transaction-corpus/composition_rule.py:403-459 | The failed layers are listed in evaluation order |
| `Composition.OneFailure` | masters-thesis-radar/research-factory-v4-2026-07-27/labs/composed-transaction-corpus/composition_rule.py:403-459 | One failing layer among passing ones gives its own gate |
| `Composition.OnlyTheJoinRefuses` | masters-thesis-radar/research-factory-v4-2026-07-27/labs/composed-transaction-corpus/composition_rule.py:403-459 | Where every layer passes the binding alone names the gate |
| `Composition.AllowIsSafe` | masters-thesis-radar/research-factory-v4-2026-07-27/labs/composed-transaction-corpus/composition_rule.py:179-230 | End to end: a composed ALLOW with the path evaluator's verdict puts effect and resource in every grant and the root scope, the evidence in every window, and makes effect and profile the required ones |
| `Transcript.TranscriptPinsExactly` | masters-thesis-radar/research-factory-v4-2026-07-27/labs/native-state-transaction-overlay/native_state_adapter.py:69-79 | An envelope shares its transcript with no other if and only if no field contains a neighbouring label |
| `Transcript.TextIsPiped` | masters-thesis-radar/research-factory-v4-2026-07-27/labs/native-state-transaction-overlay/native_state_adapter.py:69-79 | The transcript is the domain and the seven named fields in order, joined by pipes |
| `Transcript.PipeFreeIsPinned` | masters-thesis-radar/research-factory-v4-2026-07-27/labs/native-state-transaction-overlay/native_state_adapter.py:69-79 | Envelopes whose fields contain no pipe are determined by their transcript |
| `Transcript.AmbiguousHasTwin` | masters-thesis-radar/research-factory-v4-2026-07-27/labs/native-state-transaction-overlay/native_state_adapter.py:69-79 | A field with a neighbouring label always has another splitting with the same text |
| `Transcript.TwinsAreAmbiguous` | masters-thesis-radar/research-factory-v4-2026-07-27/labs/native-state-transaction-overlay/native_state_adapter.py:69-79 | Two different splittings of one text put a neighbouring label inside a field |
| `Transcript.LabelInFieldHasTwin` | masters-thesis-radar/research-factory-v4-2026-07-27/labs/native-state-transaction-overlay/native_state_adapter.py:69-79 | A concrete envelope with a label inside a field, and the envelope that shares its transcript |
| `StateAppraisal.Appraise` | masters-thesis-radar/research-factory-v4-2026-07-27/labs/native-state-transaction-overlay/native_state_adapter.py:139-245 | The reasons gathered, in order, and the ladder after them |
| `StateAppraisal.ReasonsExactly` | masters-thesis-radar/research-factory-v4-2026-07-27/labs/native-state-transaction-overlay/native_state_adapter.py:139-245 | The reasons given are exactly those that hold, each once and in order |
| `StateAppraisal.DecodedExactly` | masters-thesis-radar/research-factory-v4-2026-07-27/labs/native-state-transaction-overlay/native_state_adapter.py:139-245 | The four blobs decode exactly when each does, each to its own part |
| `StateAppraisal.QuotePinsEnvelope` | masters-thesis-radar/research-factory-v4-2026-07-27/labs/native-state-transaction-overlay/native_state_adapter.py:139-214 | Behind the same blobs only the quoted envelope escapes a cryptographic failure, unless the qualifying values of the two transcripts collide or one quote checks for both |
| `StateAppraisal.MutationFailsExactly` | masters-thesis-radar/research-factory-v4-2026-07-27/labs/native-state-transaction-overlay/native_state_adapter.py:122-134 | Each of the five field substitutions turns accepted evidence into a cryptographic failure if and only if it changes the envelope, for the two transcripts the same proviso |
| `StateAppraisal.MutationWritesOneField` | masters-thesis-radar/research-factory-v4-2026-07-27/labs/native-state-transaction-overlay/native_state_adapter.py:122-134 | Each mutation writes its own field and no other |
| `IndependentAppraisal.Appraise` | masters-thesis-radar/research-factory-v4-2026-07-27/labs/native-state-transaction-overlay/independent-java/IndependentVerifier.java:405-534 | The Java appraiser's failures, in order, its exception on an undecodable attestation key, and its ladder |
| `IndependentAppraisal.FailuresExactly` | masters-thesis-radar/research-factory-v4-2026-07-27/labs/native-state-transaction-overlay/independent-java/IndependentVerifier.java:405-534 | The failures given are exactly those that hold, each once and in order |
| `IndependentAppraisal.AppraisersAgreeExactly` | masters-thesis-radar/research-factory-v4-2026-07-27/labs/native-state-transaction-overlay/independent-java/IndependentVerifier.java:405-534 | When the Java and the Python appraiser, each with its own decoder, measurement format and output search, give the same result: an if-and-only-if on their inputs |
| `IndependentAppraisal.SameBytesAgreeExactly` | masters-thesis-radar/research-factory-v4-2026-07-27/labs/native-state-transaction-overlay/independent-java/IndependentVerifier.java:405-534 | The same for blobs both decode alike and fixed-width timestamps: they differ exactly where a pin fails, the measurement is not lower case, its value is not on its own line, or both reach a reference the policy lacks, or where only a blank field without an answer kept Python from accepting |
| `IndependentAppraisal.QuotedExactly` | masters-thesis-radar/research-factory-v4-2026-07-27/labs/native-state-transaction-overlay/independent-java/IndependentVerifier.java:448-492 | On the same bytes the Java quote test implies the Python one, and the converse needs exactly lower case and the value on its own line |
| `IndependentAppraisal.CapitalsDiverge` | masters-thesis-radar/research-factory-v4-2026-07-27/labs/native-state-transaction-overlay/independent-java/IndependentVerifier.java:45-46 | A concrete input: a measurement in capitals passes Python and fails Java |
| `IndependentAppraisal.PaddingDiverges` | masters-thesis-radar/research-factory-v4-2026-07-27/labs/native-state-transaction-overlay/independent-java/IndependentVerifier.java:845-847 | A concrete input: a quote without base64 padding, to decoders that differ on that alone, fails Python and passes Java |
| `Measurements.DigestsAgreeExactly` | masters-thesis-radar/research-factory-v4-2026-07-27/labs/native-state-transaction-overlay/native_state_adapter.py:62-66 | The two readings of a measurement find the same digest unless Python reads one in a text that is not all lower case |
| `Measurements.PairedAt` | masters-thesis-radar/research-factory-v4-2026-07-27/labs/native-state-transaction-overlay/independent-java/IndependentVerifier.java:705-711 | Byte i of a digest is made of digits 2i and 2i + 1, the first the higher |
| `Measurements.JavaFindsLess` | masters-thesis-radar/research-factory-v4-2026-07-27/labs/native-state-transaction-overlay/independent-java/IndependentVerifier.java:47-48 | A value found on the line of its PCR is found anywhere |
| `Measurements.OwnLineFoundByBoth` | masters-thesis-radar/research-factory-v4-2026-07-27/labs/native-state-transaction-overlay/native_state_adapter.py:203-204 | The value on the line of its own PCR is found by both, wherever that line stands and however it ends |
| `Measurements.OtherLineFoundByPythonOnly` | masters-thesis-radar/research-factory-v4-2026-07-27/labs/native-state-transaction-overlay/native_state_adapter.py:203-204 | The value on the line of another PCR is found by Python only |
| `Hexadecimal.Hex` | masters-thesis-radar/research-factory-v4-2026-07-27/labs/native-state-transaction-overlay/independent-java/IndependentVerifier.java:865-875 | Two lower-case digits per byte, high nibble first, written through a buffer |
| `Hexadecimal.Unhex` | masters-thesis-radar/research-factory-v4-2026-07-27/labs/native-state-transaction-overlay/independent-java/IndependentVerifier.java:849-863 | One byte per two digits, or the exception for an odd length or a unit that is no digit |
| `Hexadecimal.BytesRoundTrip` | masters-thesis-radar/research-factory-v4-2026-07-27/labs/native-state-transaction-overlay/independent-java/IndependentVerifier.java:849-875 | Every byte string survives being written and read |
| `Hexadecimal.HexIsPositional` | masters-thesis-radar/research-factory-v4-2026-07-27/labs/native-state-transaction-overlay/independent-java/IndependentVerifier.java:865-875 | The written digits as a number in base 16 are the bytes as a number in base 256 |
| `Hexadecimal.CapitalsRead` | masters-thesis-radar/research-factory-v4-2026-07-27/labs/native-state-transaction-overlay/independent-java/IndependentVerifier.java:849-863 | A text in capitals reads as the same bytes |
| `Hexadecimal.TextRoundTripsExactly` | masters-thesis-radar/research-factory-v4-2026-07-27/labs/native-state-transaction-overlay/independent-java/IndependentVerifier.java:849-875 | A text that can be read is written back unchanged if and only if its digits are lower-case ASCII |
| `Hexadecimal.IndexOf` | masters-thesis-radar/research-factory-v4-2026-07-27/labs/native-state-transaction-overlay/independent-java/IndependentVerifier.java:740-751 | The least index at which the needle occurs, or -1 exactly when it occurs nowhere |
| `Timestamps.TextOrderIsTimeOrder` | masters-thesis-radar/research-factory-v4-2026-07-27/labs/composed-transaction-corpus/state_adapter.py:34-38 | Comparing fixed-width UTC timestamps as text is comparing them in time, for every date and time that exists |
| `Timestamps.WrittenOut` | masters-thesis-radar/research-factory-v4-2026-07-27/labs/composed-transaction-corpus/state_adapter.py:34-38 | One timestamp, written out |
| `Timestamps.WindowsAgree` | masters-thesis-radar/research-factory-v4-2026-07-27/labs/native-state-transaction-overlay/independent-java/IndependentVerifier.java:718-729 | The string window test and the instant window test agree on fixed-width timestamps |
| `Timestamps.MissingIssueTimeDiverges` | masters-thesis-radar/research-factory-v4-2026-07-27/labs/composed-transaction-corpus/state_adapter.py:109-115 | A missing issue time, read as the empty text, opens the string window until expiry and never the instant window |
| `Timestamps.NextIsOneSecondLater` | masters-thesis-radar/research-factory-v4-2026-07-27/labs/composed-transaction-corpus/state_adapter.py:34-38 | The instant of the calendar's next second is one more, over month ends, leap days and year ends |
| `Timestamps.PaddedOrder` | masters-thesis-radar/research-factory-v4-2026-07-27/labs/composed-transaction-corpus/state_adapter.py:34-38 | Zero-padded numbers compare as numbers |
| `Delimited.ProbeExactly` | masters-thesis-radar/research-factory-v4-2026-07-27/labs/composed-transaction-corpus/run_sql_oracle.py:41-49 | For any probe and any items, pipes included: the probe is found if and only if its pieces are a contiguous run of the pieces of the items |
| `Delimited.PipeFreeProbeExactly` | masters-thesis-radar/research-factory-v4-2026-07-27/labs/composed-transaction-corpus/run_sql_oracle.py:41-49 | A pipe-free probe is found if and only if it is a piece of some item |
| `Delimited.EncodingIsExact` | masters-thesis-radar/research-factory-v4-2026-07-27/labs/composed-transaction-corpus/run_sql_oracle.py:41-49 | For a pipe-free probe and pipe-free items, empty strings and the empty list included, the probe is found if and only if it is an item |
| `Delimited.PipedItemAdmitsPiece` | masters-thesis-radar/research-factory-v4-2026-07-27/labs/composed-transaction-corpus/run_sql_oracle.py:41-49 | With a pipe inside an item the probe for a part of it succeeds: the hypothesis is needed |
| `Delimited.MemberIsProbed` | masters-thesis-radar/research-factory-v4-2026-07-27/labs/composed-transaction-corpus/run_sql_oracle.py:41-49 | Every item of a nonempty list is found, whatever it contains |
| `DeepMerge.DeepMerge` | masters-thesis-radar/research-factory-v4-2026-07-27/labs/protocol-valid-unauthorized/verify_corpus.py:86-94 | The recursive merge with its loop over the patch equals the specified merge |
| `DeepMerge.MergeSelf` | masters-thesis-radar/research-factory-v4-2026-07-27/labs/protocol-valid-unauthorized/verify_corpus.py:86-94 | A tree merged into itself is unchanged |
| `DeepMerge.MergeTwice` | masters-thesis-radar/research-factory-v4-2026-07-27/labs/protocol-valid-unauthorized/verify_corpus.py:86-94 | Merging the same patch again changes nothing |
| `DeepMerge.UnmentionedIsKept` | masters-thesis-radar/research-factory-v4-2026-07-27/labs/protocol-valid-unauthorized/verify_corpus.py:86-94 | A path the patch does not reach keeps its base value, at any depth |
| `DeepMerge.PatchWins` | masters-thesis-radar/research-factory-v4-2026-07-27/labs/protocol-valid-unauthorized/verify_corpus.py:86-94 | On every path of the patch the merged tree holds what the patch holds there, dictionaries joining dictionaries |
| `DeepMerge.PathsExactly` | masters-thesis-radar/research-factory-v4-2026-07-27/labs/protocol-valid-unauthorized/verify_corpus.py:86-94 | The merged tree has exactly the paths of the patch and those of the base on which the patch is silent |
| `DeepMerge.NoneExactly` | masters-thesis-radar/research-factory-v4-2026-07-27/labs/protocol-valid-unauthorized/verify_corpus.py:86-94 | A patched key holds null exactly when the patch writes null there or is silent over a null |
| `Tensors.TensorMeansAreOrdered` | masters-thesis-radar/research-factory-v3-2026-07-25/labs/safe-metric-metamorphics/run.py:158-166 | Geometric <= arithmetic <= root mean square for all nonempty non-negative vectors |
| `Tensors.ArithmeticFactorizes` | masters-thesis-radar/research-factory-v3-2026-07-25/labs/safe-metric-metamorphics/reference_impl.py:29-32 | The triple loop of arithmetic means equals the mean of the three means, for all nonempty real vectors |
| `Tensors.GeometricFactorizes` | masters-thesis-radar/research-factory-v3-2026-07-25/labs/safe-metric-metamorphics/reference_impl.py:35-39 | The triple loop of geometric means equals the product of the mean cube roots, for all nonempty non-negative vectors |
| `Tensors.LengthTensor` | masters-thesis-radar/research-factory-v3-2026-07-25/labs/safe-metric-metamorphics/reference_impl.py:9-26 | The comprehension produces one value for every triple, the product of the three lengths in all |
| `Tensors.TensorAt` | masters-thesis-radar/research-factory-v3-2026-07-25/labs/safe-metric-metamorphics/reference_impl.py:9-26 | The value of the i-th, j-th and k-th scores stands at the place the nested loops give it |
| `Tensors.RmsSquare` | masters-thesis-radar/research-factory-v3-2026-07-25/labs/safe-metric-metamorphics/reference_impl.py:9-26 | Three times the square of the root mean square is the sum of the three squares |
| `TensorSymmetry.AxesCommute` | masters-thesis-radar/research-factory-v3-2026-07-25/labs/safe-metric-metamorphics/run.py:170-179 | Each of the three tensor means is the same for all six orders of the axes, for all nonempty vectors |
| `TensorSymmetry.OrderWithinAxes` | masters-thesis-radar/research-factory-v3-2026-07-25/labs/safe-metric-metamorphics/run.py:180-189 | Each of the three tensor means is the same for every order of the scores within each axis, for all nonempty vectors |
| `TensorSymmetry.SumsTurn` | masters-thesis-radar/research-factory-v3-2026-07-25/labs/safe-metric-metamorphics/reference_impl.py:9-26 | Two nested sums over two vectors may change places |
| `Topsis.TopsisFixed` | masters-thesis-radar/research-factory-v3-2026-07-25/labs/safe-metric-metamorphics/reference_impl.py:79-93 | One loop scores every row, or reports the exception a short row or a division by zero raises |
| `Topsis.ScoreExactly` | masters-thesis-radar/research-factory-v3-2026-07-25/labs/safe-metric-metamorphics/reference_impl.py:79-93 | A row has a score if and only if it is long enough and some weight is not zero; the score lies in [0,1], 1 exactly at the ideal and 0 exactly at the anti-ideal |
| `Topsis.ScoreDivides` | masters-thesis-radar/research-factory-v3-2026-07-25/labs/safe-metric-metamorphics/reference_impl.py:79-93 | The score is the one s in [0,1] with s squared times the squared distance to the ideal equal to (1 - s) squared times that to the anti-ideal, the distances as sums over the weights |
| `Topsis.LevelRowScores` | masters-thesis-radar/research-factory-v3-2026-07-25/labs/safe-metric-metamorphics/reference_impl.py:79-93 | A row that is x in every weighted place, x in [0,1], scores x |
| `Topsis.ScoresDefined` | masters-thesis-radar/research-factory-v3-2026-07-25/labs/safe-metric-metamorphics/reference_impl.py:79-93 | Scores are returned if and only if every row is long enough and, when there are rows, some weight is not zero |
| `Topsis.ZeroWeightHasNoScore` | masters-thesis-radar/research-factory-v3-2026-07-25/labs/safe-metric-metamorphics/reference_impl.py:79-93 | A concrete division by zero: one alternative under a zero weight |
| `Topsis.RankingIsTheStableSort` | masters-thesis-radar/research-factory-v3-2026-07-25/labs/safe-metric-metamorphics/reference_impl.py:96-98 | The ranking is the one permutation of the indices by falling score with ties in index order |
| `Topsis.RankingOfPrefix` | masters-thesis-radar/research-factory-v3-2026-07-25/labs/safe-metric-metamorphics/run.py:243-257 | The ranking of an extended list, cut to the first indices, is the ranking of the shorter list |
| `Topsis.RowwiseScoresKeepOrder` | masters-thesis-radar/research-factory-v3-2026-07-25/labs/safe-metric-metamorphics/run.py:243-257 | Any scoring that looks at one row at a time keeps the order of the original rows |
| `Topsis.RankInvariance` | masters-thesis-radar/research-factory-v3-2026-07-25/labs/safe-metric-metamorphics/run.py:243-257 | Fixed-reference TOPSIS is rank invariant for any base, weights and appended alternatives, ties included |

## Left out

- HTTP servers and clients, sockets, threads, timeouts, subprocesses and container topology: a call is a step, a lost message is a fault on it.
- SQLite, write-ahead logging and crash recovery: a transaction is atomic, and a restarted instance is another name on the same tables.
- Ed25519, SHA-256, base64 and the TPM quote tool: parameters, with the properties the theorems need stated as hypotheses.
- The signed envelope around every service response and the `server_monotonic_ns` fields: they carry no decision.
- Wall-clock cache expiry: a cache refresh is one more read, at any point of the schedule.
- `BigDecimal`: a function from lexemes to canonical decimal texts that may refuse; its own round trip is the hypothesis `Lawful`.
- Canonical JSON text in the authority evaluators: equality of the records it renders stands for equality of the texts, amounts keeping their number kind; negative zero, NaN, infinities and booleans as amounts are not modelled.
- Missing or ill-typed fields of cases, edges and envelopes: records are total and typed, so the evaluators' type tests have nothing to reject.
- The inside of the two base64 decoders: each appraiser has its own decoder as a parameter, and nothing is assumed about how they relate.
- The twenty-second timeout of the Python appraiser's quote check, and a quote tool that cannot be started: a run returns a code and an output.
- `Instant.parse` on texts outside the fixed-width form: fractions, leap seconds, hour 24, years beyond four digits.
- Floating-point rounding in the tensors and TOPSIS: reals, with roots given by their defining equations.
- `topsis_dynamic`, `diagonal` and the vectorized twins: no rank invariance is claimed for the first, the others are easy members.
- The three mutations that flip a bit of the quote's blobs: they end at the abstract quote tool.
- Lone surrogates in JSON texts: texts are sequences of UTF-16 code units, and `JsonRfc` counts every unit from 0x20 on as a character.
- Bootstrap sampling, quantiles, figures, manifests, corpus builders, freeze and compare scripts: data and file handling.
- The fixed enumerations of the Java model checker (16 masks, 6 schedules): the unbounded statements in `Permutations`, `Races` and `Composition` cover them.
- `first_rejecting_gate` and `ordered_gate_trace` of the corpus verifier: ladders whose order is their only content.
- Single-branch gates of the policy, evidence and measurement layers: they enter `Composition` as results.
- SignedChain.ReceiptDeterminesItem: assumes of the digest, a parameter here, that the two chains at hand do not collide; `LastEnvelopeDeterminesChain` likewise of their envelopes.
- IndependentAppraisal.SameBytesAgreeExactly: covers fixed-width timestamps and blobs both decode alike; `AppraisersAgreeExactly` has neither restriction.
