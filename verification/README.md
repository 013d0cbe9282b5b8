# Object Transaction Service: a verified model

This project models the Object Transaction Service in `ots/src`, a hand-written two-phase-commit
coordinator with its PostgreSQL participant, the `Current` object that keeps one transaction per
thread, the interceptors that carry a transaction along with calls, and the recovery file. It
implements the interfaces of the OMG Transaction Service Specification 1.2.

How it is built:

- **Servants are classes.** `PgResource`, `Coordinator`, `RecoveryFile`, `Current`, the request-info
  objects and the three interceptors have the fields and loops of the source. Each method is proved
  equal to a function on the state it works on, so everything below holds of the classes.
- **One state, one history.** `CoordinatorSpec.Sys` holds the coordinator's fields, the participants
  it talks to, and the history of everything it did: status assignments, messages with their replies
  and the xa commands they caused, and synchronization calls. The environment is a function from
  positions of the history to fates. A message may be delivered, be executed with the reply lost, or
  not be executed, and it may fail with any system error; every theorem is for all environments
  unless it names its own.
- **An independent protocol.** `Protocol` is an automaton that reads a history event by event. It
  knows nothing of loops or lists. `Runs` proves that every run of the coordinator is accepted by
  it and that each step refines a machine with one decision (undecided, commit, abort). `Histories`
  proves what accepted histories guarantee, at every point, also in the middle of an operation.
- **Outcomes.** `Passes` and `Outcomes` say exactly who is contacted, what the list holds afterwards
  and which exception the caller gets. `Forecasts` and `Endings` foretell commit and rollback in
  full from the participants' states and the fate of each message, without following the loops.
  `Waits` says exactly when a busy-wait is entered and `Blocking` how to stay out of it;
  `Notifications` says when synchronization objects are told of the end. `Atomicity`, `Effects`,
  `Assurances`, `Rejections`, `Aborts` and `SafeClients` say what participants end up doing and what
  a client may conclude; `Answers` gives every exception of registration, marking and single commits
  its exact cause.
- **Around it.** `CallTrees` runs any tree of servers through the interceptors, with messages lost
  between servers and on the way to the coordinator; `EndToEnd` joins it with the coordinator;
  `Threads` interleaves any number of threads and transactions; `RecoveryRuns` and `RecoveryIds`
  interleave any number of transactions on the recovery file, and `Journal` joins it to commit.

Some results are about what the code does not do, with the exact condition, and with runs from the
start that reach it (`Pitfalls`, `Doubts`):

- **A lone commit can split.** A commit of a single resource never leaves Active. If it made the
  resource commit, a further resource can still join, and one rollback call then splits the two
  (`Atomicity.LateRegistrationIsTheGap`, an equivalence; `Pitfalls.SplitIsReached`). A client that
  never commits an Active transaction with exactly one resource is safe
  (`SafeClients.AtomicWithoutLoneCommit`).
- **A lone commit can block or hide.** If it made the resource roll back, the next rollback call
  waits for a status that is never assigned (`Waits.RollbackBlocksIff`, `Pitfalls.WaitIsReached`);
  and its normal return can hide the rollback, an xacommit that failed, or that nothing has happened
  at all (`Assurances.SuccessHidesRollbackIff`, `Doubts.LoneSuccessWithoutCommit`). Committed a second
  time, it says that it has rolled back.
- **Preparing is a trap.** A first phase that gets no countable answer leaves the transaction in
  Preparing for good: nothing is ever sent again, prepared participants wait for ever, and both
  commit and rollback return normally (`Pitfalls.PreparingIsForGood`, entered exactly as
  `Pitfalls.PreparingIff` says, reached by `Pitfalls.StallIsReached`).
- **Success can hide missing work.** A participant keeps the status Committing when its xacommit
  fails and then answers a repeated commit normally; and a commit message that is never executed is
  forgiven, so that its participant stays prepared, in doubt, in a transaction that is over. When a
  normal return hides either is said by `Assurances.SuccessHidesMissingIff` and, for a repeated commit,
  by `Assurances.RepeatedSuccessHidesMissingIff`; both are reached (`Pitfalls.HiddenFailureIsReached`,
  `Doubts.DoubtAfterSuccess`). With heuristics reported, the first commit hides nothing
  (`Assurances.ReportedSuccessIsComplete`). Nothing worse can happen: `Effects.CommitLeavesOnlyDoubt`.
- **An abort can leave participants prepared.** The resource that stops the first phase is never sent
  rollback, even if it has prepared and only its answer was lost; read-only voters are not sent
  rollback either. Who stays prepared is said by `Aborts.AbortLeavesPrepared`; `Doubts.DoubtAfterAbort`
  is a run.
- **Nobody answers those in doubt.** A transaction that is over stays as it is
  (`Doubts.NoTransactionIsForGood`), and its answer NoTransaction to `replay_completion` comes after a
  commit and after an abort alike (`Doubts.NoTransactionDecidesNothing`).
- **Rollback can succeed without rolling back.** From Committing and from Preparing it returns normally
  and does nothing, and the thread leaves the transaction (`Aborts.RollbackSuccess`,
  `Threads.RollbackLeavesUnfinished`).
- **The end is not always announced.** after_completion is not called by an empty, single or repeated
  commit, nor by a rollback that raises HeuristicHazard (`Notifications.AfterPassIff`).
- **A failure can go unnoticed.** Interceptors ignore every exception of the messages by which they
  mark a transaction. If those of the server and of the caller are both lost, a failed call leaves no
  mark and the transaction commits (`EndToEnd.FailureCanGoUnnoticed`; the exact condition is
  `EndToEnd.FailureMarks`).
- **A thread can stay in an ended transaction.** A commit or rollback that ends the transaction with
  an exception leaves it in the thread's slot, exactly as `Threads.EndedStaysIff` says; rolling back
  again is refused, and committing again reports success (`Threads.SecondCommitReportsSuccess`,
  `Threads.SuccessAfterRollback`).
- **A caller can die.** A system exception ends a caller that is in no transaction, when the target
  neither requires a transaction nor is internal; and the death of a server is such an exception to
  its own caller (`CallTrees.CallerDiesIff`), so one lost answer can end a whole chain of processes
  (`CallTrees.DeathSpreads`).
- **One phase and two phases** of the same single resource differ for read-only votes
  (`Agreements.OnePhaseAgreement`).
- **Rollback ids collide.** Two rollbacks can share an id in the recovery file, and then one deletes
  the record of the other (`RecoveryIds.RollbackIdsCanCollide`); while nothing has gone wrong, this
  cannot happen exactly if the ids differ (`RecoveryIds.ClosesOwnIffIdsDiffer`).
- **Records are left behind.** A commit that falls back to rollback never takes its own record back,
  so the header never counts down to 0 again (`Journal.RecordIsClosedIff`,
  `Journal.FallbackLeavesRecord`, reached by `Journal.RecordIsLeft`).

Where code and interface disagree, the model follows the code. `rollback` raises HeuristicHazard,
and `commit` and `commit_one_phase` pass on exceptions of resources, outside their throw lists: both
are ordinary outcomes here. A wait for a status that nobody assigns is the outcome `Blocked` for the
caller (`Hung` for the sender of a message). For a reference without a policy the client interceptor
refuses a call, when such calls are to be prevented, outside a transaction instead of within one
(`Interceptors.UnpublishedIsRefusedIff`).

## Model

| member | source | states |
|---|---|---|
| Participants.PgResource.PgPrepare | ots/src/PostgreSQLResource_impl.cpp:77-218 | the vote and the transaction id follow the result of xaprepare; only an Active participant issues it; a rolling-back one waits for ever |
| Participants.PgResource.PgRollback | ots/src/PostgreSQLResource_impl.cpp:220-296 | xarollback is issued from Active and Prepared only; the status stays RollingBack, where a further call waits for ever |
| Participants.PgResource.PgCommit | ots/src/PostgreSQLResource_impl.cpp:298-424 | xacommit is issued from Prepared only; the status stays Committing even if xacommit fails, and a repeated call then returns normally |
| Participants.PgResource.PgCommitOnePhase | ots/src/PostgreSQLResource_impl.cpp:426-468 | prepare, followed by commit, nothing or rollback according to the vote |
| Participants.PgResource.PgSetRecoveryCoordinator | ots/src/PostgreSQLResource_impl.cpp:579-593 | stores the recovery coordinator and changes nothing else |
| Participants.ParticipantIssuesOneVerdict | ots/src/PostgreSQLResource_impl.cpp:92-462 | over any sequence of calls: at most one of xacommit and xarollback, it is the last command, and xacommit directly follows the only xaprepare |
| Participants.VerdictIsFinal | ots/src/PostgreSQLResource_impl.cpp:178-425 | after its verdict a participant issues no command and keeps its status, whatever is called |
| Participants.TransactionIdIsLiveIffCommitVote | ots/src/PostgreSQLResource_impl.cpp:110-157 | in 32-bit arithmetic the stored id is a live one exactly after a commit vote |
| Participants.PrepareFollowsCommands | ots/src/PostgreSQLResource_impl.cpp:92-218 | after any calls, in terms of the commands issued before: a first prepare votes rollback exactly on result -1, read-only exactly on 0 and commit on every other, and stores the unsigned result as the id exactly then; a later one votes rollback, or waits for ever after an xarollback |
| Participants.CommitFollowsCommands | ots/src/PostgreSQLResource_impl.cpp:298-424 | after any calls: xacommit is issued exactly after a lone xaprepare, and each answer of commit with its exact cause |
| Participants.RollbackFollowsCommands | ots/src/PostgreSQLResource_impl.cpp:220-296 | after any calls: xarollback is issued exactly if no verdict was, and only a second one is waited for in vain |
| Participants.OnePhaseFollowsCommands | ots/src/PostgreSQLResource_impl.cpp:426-468 | after any calls: what a one-phase commit passes to the database and how it answers, by the commands before and the two results; one that comes too late rolls a prepared participant back |
| Participants.IdIsKept | ots/src/PostgreSQLResource_impl.cpp:110-157 | the id stored by the first prepare stays, whatever is called |
| Coordinators.Coordinator.constructor | ots/src/CosTransactionsOTS_impl.cpp:1343-1357 | a new coordinator is Active with an empty list |
| Coordinators.Coordinator.FindResource | ots/src/CosTransactionsOTS_impl.cpp:1660-1677 | the search of the list finds the first entry for the resource |
| Coordinators.Coordinator.RegisterResource | ots/src/CosTransactionsOTS_impl.cpp:1646-1760 | equals the specification of registration, in every status |
| Coordinators.Coordinator.EnlistResource | ots/src/CosTransactionsOTS_impl.cpp:1691-1707 | forget, then BeginTrans, for a resource not yet in the list; each failure stops it |
| Coordinators.Coordinator.IntroduceResource | ots/src/CosTransactionsOTS_impl.cpp:1709-1728 | a new recovery coordinator is created, told to the resource and listed |
| Coordinators.Coordinator.RegisterSynchronization | ots/src/CosTransactionsOTS_impl.cpp:2004-2022 | appends while Active, raises Inactive otherwise |
| Coordinators.Coordinator.MarkRollbackOnly | ots/src/CosTransactionsOTS_impl.cpp:2041-2066 | marks an Active transaction, accepts a marked one, refuses all others |
| Coordinators.Coordinator.BeforeAll | ots/src/CosTransactionsOTS_impl.cpp:68-101 | the loop over the synchronization objects before completion |
| Coordinators.Coordinator.AfterAll | ots/src/CosTransactionsOTS_impl.cpp:103-136 | the loop over the synchronization objects after completion |
| Coordinators.Coordinator.PrepareAll | ots/src/CosTransactionsOTS_impl.cpp:2766-2845 | the prepare loop, with lost replies counted as rollback votes |
| Coordinators.Coordinator.ChangeVote | ots/src/CosTransactionsOTS_impl.cpp:4407-4442 | the search-based update of a vote |
| Coordinators.Coordinator.SweepAll | ots/src/CosTransactionsOTS_impl.cpp:3050-3083 | a second-phase loop; the other three are at 3354-3370, 3844-3885 and 4112-4128 |
| Coordinators.Coordinator.RollbackAll | ots/src/CosTransactionsOTS_impl.cpp:3669-4161 | equals the specification of rollback, in every status |
| Coordinators.Coordinator.RollbackAndRaise | ots/src/CosTransactionsOTS_impl.cpp:3283-3296 | rollback inside commit, after which commit raises TRANSACTION_ROLLEDBACK if rollback did not raise itself |
| Coordinators.Coordinator.CommitAllPrepared | ots/src/CosTransactionsOTS_impl.cpp:3042-3260 | the committing half of two-phase commit |
| Coordinators.Coordinator.CommitTheOnlyResource | ots/src/CosTransactionsOTS_impl.cpp:2533-2741 | the one-phase branch of commit |
| Coordinators.Coordinator.CommitInTwoPhases | ots/src/CosTransactionsOTS_impl.cpp:2748-3266 | the two-phase branch of commit |
| Coordinators.Coordinator.CommitAll | ots/src/CosTransactionsOTS_impl.cpp:2330-3404 | equals the specification of commit, in every status |
| Runs.RunsFollowTheProtocol | ots/src/CosTransactionsOTS_impl.cpp:2303-4161 | every run in every environment is accepted by the protocol automaton, each step refining the machine with a single decision unless a resource joined late |
| Runs.StepKeeps | ots/src/CosTransactionsOTS_impl.cpp:1629-4161 | every operation keeps the invariant that ties the fields, the votes and the participants to the history |
| Runs.SweepKeeps | ots/src/CosTransactionsOTS_impl.cpp:3050-3083 | every second-phase loop keeps that invariant and the status |
| Runs.PrepareKeeps | ots/src/CosTransactionsOTS_impl.cpp:2766-2845 | so does the prepare loop; if nobody stops it, everybody was asked and favourable |
| Protocol.StatusMovesForward | ots/src/CosTransactionsOTS_impl.cpp:2041-4161 | over all runs the status only moves up the ranks, Committing and RollingBack never follow one another, NoTransaction is final, and the four other statuses are unreachable |
| Protocol.EffectsFollowDecision | ots/src/CosTransactionsOTS_impl.cpp:2857-3083 | no decision is revised, and participants commit only after a commit decision and roll back only after an abort decision |
| Histories.CommittingIsUnanimous | ots/src/CosTransactionsOTS_impl.cpp:2761-2876 | Committing is reached only with favourable votes of all resources, asked in list order |
| Histories.CommitNeedsUnanimity | ots/src/CosTransactionsOTS_impl.cpp:2761-3083 | a two-phase commit message goes out only if every joined resource was asked exactly once, in order, and answered favourably; then no rollback is ever sent |
| Histories.DoomedNeverCommits | ots/src/CosTransactionsOTS_impl.cpp:3283-3296 | from MarkedRollback or RollingBack on only rollbacks are sent, and no commit was sent before |
| Histories.RecoveryAnswersAreSound | ots/src/CosTransactionsOTS_impl.cpp:4758-4778 | what each answer of replay_completion guarantees; it is the status assigned last; it is refused exactly while there is no decision, except that a single resource's own decision goes unnoticed; what NoTransaction does not say is the next row |
| Doubts.NoTransactionDecidesNothing | ots/src/CosTransactionsOTS_impl.cpp:4758-4778 | the answer NoTransaction does not tell a prepared participant the decision: two runs of the same calls give it to the same participant, one after the other resource has committed, one after it has rolled back |
| Histories.AfterPassIsOne | ots/src/CosTransactionsOTS_impl.cpp:103-136 | per transaction the after_completion calls form at most one pass, in order of registration |
| Histories.AfterPassComesLast | ots/src/CosTransactionsOTS_impl.cpp:3085-3251 | they come after the last message to a resource and report NoTransaction |
| Notifications.AfterPassIff | ots/src/CosTransactionsOTS_impl.cpp:3085-4058 | the operation that ends a transaction calls after_completion on all registered objects in order, or on none, and exactly when it does, from the state before and the fates: not in an empty, single or repeated commit, nor in a rollback in which an answer is lost |
| Growth.RunGrows | ots/src/CosTransactionsOTS_impl.cpp:1629-4161 | no run takes back history, listed resources or recovery coordinators |
| Atomicity.AtomicCommitment | ots/src/CosTransactionsOTS_impl.cpp:2303-4161 | the whole system over all runs with lost requests, lost replies and failing participants: no participant issues xacommit while another issues xarollback, at the end and at every point; an xacommit that fails in the database counts as issued |
| Effects.CommitLeavesOnlyDoubt | ots/src/CosTransactionsOTS_impl.cpp:2761-3083 | in terms of what the databases did, over every calm run: once one participant has issued its xacommit, no other listed one has rolled back; each has carried out its work, or issued an xacommit that failed, or is still prepared because no commit message was executed there |
| Atomicity.LateRegistrationIsTheGap | ots/src/CosTransactionsOTS_impl.cpp:2533-2741 | a further resource may join an Active transaction without risk to atomicity if and only if nobody has committed |
| Atomicity.RollbackSplits | ots/src/CosTransactionsOTS_impl.cpp:3844-3885 | from two resources of which one has committed, one rollback call splits them with everything delivered |
| Pitfalls.SplitIsReached | ots/src/CosTransactionsOTS_impl.cpp:2533-2741 | the run from the start that reaches that state and splits: register, commit, register, roll back |
| SafeClients.AtomicWithoutLoneCommit | ots/src/CosTransactionsOTS_impl.cpp:2513-3266 | a client that never commits an Active transaction with one resource gets atomic commitment |
| Assurances.SuccessMeansNobodyAborted | ots/src/CosTransactionsOTS_impl.cpp:2330-3404 | what a normal return of commit means from any state: with two or more resources, or repeated, that the transaction is over and nobody issued xarollback; from Preparing or NoTransaction nothing; with a single resource see SuccessHidesRollbackIff; for work that is missing see SuccessHidesMissingIff |
| Assurances.CommittedEntriesAreTrue | ots/src/CosTransactionsOTS_impl.cpp:3056-3059 | in every reachable state an entry marked Committed stands for a participant that has issued its xacommit |
| Assurances.ReportedSuccessIsComplete | ots/src/CosTransactionsOTS_impl.cpp:3253-3260 | with heuristics reported, a normal return of the first commit of two or more resources means that every one has issued its xacommit and the database has carried it out |
| Assurances.SuccessHidesMissingIff | ots/src/CosTransactionsOTS_impl.cpp:3062-3083 | when a normal return of the first commit of two or more resources hides that the work of one is missing: exactly if heuristics are off and some commit message is executed without success while its answer is lost (the commit has failed), or is not executed (the participant stays in doubt) |
| Assurances.RepeatedSuccessHidesMissingIff | ots/src/CosTransactionsOTS_impl.cpp:3343-3376 | when that of a repeated commit does: exactly for a participant whose xacommit had failed before, or that voted read-only and was missed by the first pass |
| Pitfalls.HiddenFailureIsReached | ots/src/PostgreSQLResource_impl.cpp:389-398 | a run from the start in which commit reports success, one database has committed and the other has failed to |
| Assurances.SuccessHidesRollbackIff | ots/src/CosTransactionsOTS_impl.cpp:2549-2578 | commit of a single resource, whatever happened to it before: it stays Active; exactly when a normal return hides a rollback, a failed xacommit, or that the work is missing for any reason, also because the message was not executed; and a resource that has committed answers that it has rolled back |
| Answers.LoneForecast | ots/src/CosTransactionsOTS_impl.cpp:2533-2741 | commit of a single resource foretold in full: the outcome, HeuristicHazard exactly if reports are wanted and the answer is lost with OBJECT_NOT_EXIST or COMM_FAILURE, the system exception for any other loss, and otherwise the answer by the results of xaprepare and xacommit; and what the participant has passed to the database |
| Answers.StopAnswer | ots/src/CosTransactionsOTS_impl.cpp:3050-3083 | the only ways in which a message stops a pass, each with its exact cause: a participant that rolls back, has not prepared or fails to commit, or a system exception, in a first pass only one other than the two forgiven |
| Answers.StoppedCommit | ots/src/CosTransactionsOTS_impl.cpp:3050-3083 | a unanimous commit that is stopped by a message stays Committing and raises HeuristicRollback exactly if the database has failed, and the system exception otherwise |
| Rejections.RolledBackCommitsNobody | ots/src/CosTransactionsOTS_impl.cpp:2857-3393 | a commit that raises TRANSACTION_ROLLEDBACK has made nobody commit: who has committed afterwards had before |
| Aborts.AbortLeavesPrepared | ots/src/CosTransactionsOTS_impl.cpp:2824-2869 | which participants stay prepared after a commit that fell back to rollback (3848-3850) and ended: exactly read-only voters before the stopping position, the resource at it if it has prepared, and others whose rollback message was not executed |
| Aborts.RollbackSuccess | ots/src/CosTransactionsOTS_impl.cpp:3669-4161 | what a normal return of rollback means from every status: nothing from Committing and Preparing (4144-4150), where nothing is done; otherwise the transaction is over, each commit voter or never-asked resource has issued xarollback or had committed alone before, and nobody else listed was touched |
| Doubts.NoTransactionIsForGood | ots/src/CosTransactionsOTS_impl.cpp:2346-4161 | NoTransaction is absorbing: whatever is called, nothing is sent and no participant moves |
| Doubts.DoubtAfterSuccess | ots/src/CosTransactionsOTS_impl.cpp:3062-3083 | a run from the start in which commit returns normally, one work is carried out, and the other participant stays prepared for good |
| Doubts.DoubtAfterAbort | ots/src/CosTransactionsOTS_impl.cpp:2824-2869 | a run from the start in which commit raises TRANSACTION_ROLLEDBACK, one participant has rolled back, and the one that stopped the first phase stays prepared for good |
| Doubts.LoneSuccessWithoutCommit | ots/src/CosTransactionsOTS_impl.cpp:2549-2578 | a run from the start in which the commit of a single resource returns normally and no participant has been asked anything |
| Pitfalls.PreparingIsForGood | ots/src/CosTransactionsOTS_impl.cpp:3324-3328 | Preparing between operations is absorbing: nothing is sent or changed, and commit and rollback (4144-4150) return normally |
| Pitfalls.PreparingIff | ots/src/CosTransactionsOTS_impl.cpp:2778-2845 | it is entered exactly by the commit of two or more resources of which one gives no countable answer to prepare before any declines |
| Pitfalls.StallIsReached | ots/src/CosTransactionsOTS_impl.cpp:2778-2845 | a run from the start that enters it and leaves a prepared participant waiting for ever |
| Forecasts.FirstPhaseForecast | ots/src/CosTransactionsOTS_impl.cpp:2766-2845 | how the prepare loop ends, from the participants' states and the fates of the messages alone |
| Endings.CommitForecast | ots/src/CosTransactionsOTS_impl.cpp:2748-3266 | likewise for commit with two or more resources, in each of the three ways the first phase can end: status, exception, and the state of every participant |
| Endings.RollbackForecast | ots/src/CosTransactionsOTS_impl.cpp:3671-4058 | likewise for the first rollback, whatever the votes in the list |
| Endings.RepeatForecast | ots/src/CosTransactionsOTS_impl.cpp:3343-3376 | likewise for a repeated commit or rollback (4100-4134) |
| Passes.SweepReport | ots/src/CosTransactionsOTS_impl.cpp:3844-3885 | whom a pass contacts, in order and once; a vote is settled exactly where the answer was normal; what the heuristics flag and the count of open entries become |
| Outcomes.RetryProgress | ots/src/CosTransactionsOTS_impl.cpp:3343-3376 | a repeated commit or rollback (4100-4134) contacts only unsettled entries, their number drops by one per normal answer, and the transaction is over exactly when none is left |
| Outcomes.RollbackOutcome | ots/src/CosTransactionsOTS_impl.cpp:3671-4058 | a first rollback contacts exactly the commit voters and the never-asked; HeuristicHazard exactly if one of them gave no normal answer |
| Outcomes.PrepareShape | ots/src/CosTransactionsOTS_impl.cpp:2766-2845 | the votes in the list when the prepare loop ends, in each of the three ways it can end |
| Outcomes.AbortShape | ots/src/CosTransactionsOTS_impl.cpp:2767-2869 | favourable before the stopping vote, rolled back at it, never asked after it; then the full rollback pass and the exception of commit |
| Outcomes.CommitReport | ots/src/CosTransactionsOTS_impl.cpp:3042-3260 | when the first commit pass finishes: everybody was sent commit, Committed exactly where the answer was normal, HeuristicHazard exactly if reports are wanted and an entry is not Committed |
| Blocking.NoBlocking | ots/src/CosTransactionsOTS_impl.cpp:3379-3393 | if calls fail only in the two tolerated ways, every operation of a run from the start ends, no wait is entered and the status between operations is Active, MarkedRollback or NoTransaction, as long as no lone resource rolls itself back |
| Blocking.NoBlockingWithoutLoneCommit | ots/src/CosTransactionsOTS_impl.cpp:2778-3874 | the same for every client that never commits an Active transaction with one resource |
| Waits.RollbackBlocksIff | ots/src/PostgreSQLResource_impl.cpp:241-245 | in every environment, rollback is caught in a wait if and only if some message of its pass reaches a participant that is rolling back and no earlier message stops the pass |
| Waits.CommitBlocksIff | ots/src/PostgreSQLResource_impl.cpp:178-196 | commit is caught if and only if the transaction is rolling back (CosTransactionsOTS_impl.cpp:3379-3393), or its one-phase message, a prepare, or a rollback of the pass it falls back to reaches a participant that is rolling back |
| Pitfalls.WaitIsReached | ots/src/PostgreSQLResource_impl.cpp:241-245 | a run from the start that is caught: register one resource, commit, roll back |
| Agreements.RegistrationIsAllOrNothing | ots/src/CosTransactionsOTS_impl.cpp:1691-1728 | a new resource is listed exactly if forget, BeginTrans and set_recoverycoordinator all went through, in this order; otherwise nothing is listed |
| Agreements.RegisteredForGood | ots/src/CosTransactionsOTS_impl.cpp:1657-1677 | re-registering, after any run, changes nothing and returns the same recovery coordinator |
| Answers.RegistrationForecast | ots/src/CosTransactionsOTS_impl.cpp:1646-1763 | registration in every status: TRANSACTION_ROLLEDBACK exactly in a marked transaction, Inactive exactly in one that is being ended or is over, or when BeginTrans says no, the system exception of the first of the three calls that fails, and otherwise the recovery coordinator; a refusal lists nothing |
| Answers.RefusalMeansRollback | ots/src/CosTransactionsOTS_impl.cpp:1734-1745 | a registration refused with TRANSACTION_ROLLEDBACK means that nobody is ever sent commit, whatever is called later |
| Answers.RegistrationIsClosed | ots/src/CosTransactionsOTS_impl.cpp:1734-1763 | once a transaction is not Active nobody ever joins; a refusal changes from TRANSACTION_ROLLEDBACK to Inactive once it is being ended, and never back |
| Answers.RollbackOnlyIff | ots/src/CosTransactionsOTS_impl.cpp:2041-2066 | rollback_only returns normally exactly if the transaction is marked afterwards, and exactly from Active and MarkedRollback; otherwise it raises Inactive and changes nothing |
| Answers.MarkingIsReliable | ots/src/CosTransactionsOTS_impl.cpp:2041-2066 | after its normal return nobody is ever sent commit, whatever is called later, and a commit does not return normally |
| Answers.SyncAcceptedIff | ots/src/CosTransactionsOTS_impl.cpp:2004-2022 | a synchronization object is registered exactly while the transaction is Active, behind those registered before; otherwise Inactive is raised and nothing changes |
| Agreements.SearchIsPosition | ots/src/CosTransactionsOTS_impl.cpp:4412-4432 | in every reachable state the search-based vote update equals updating the position of the calling loop |
| Agreements.EveryResourceIsIntroduced | ots/src/CosTransactionsOTS_impl.cpp:1709-1717 | in every reachable state every listed resource knows its own recovery coordinator, and no two share one |
| Agreements.OnePhaseAnswer | ots/src/PostgreSQLResource_impl.cpp:441-462 | the answer of a one-phase commit in terms of the numbers that are the results of xaprepare and xacommit |
| Agreements.OnePhaseAgreement | ots/src/PostgreSQLResource_impl.cpp:441-462 | when one phase and the two-phase loops on a list of one agree for the caller, and when at the participant, both as equivalences |
| Agreements.BeforePassComesFirst | ots/src/CosTransactionsOTS_impl.cpp:2506 | a commit from Active first visits every registered synchronization object once, in order, and never again |
| RecoveryLog.RecoveryFile.Scan | ots/src/CosTransactionsOTS_impl.cpp:2417-2451 | the scan picks the first free slot or one past the last |
| RecoveryLog.RecoveryFile.BeginCommit | ots/src/CosTransactionsOTS_impl.cpp:2407-2481 | the record before prepare, with its position as id, as long as every record has fitted into its slot |
| RecoveryLog.RecoveryFile.BeginRollback | ots/src/CosTransactionsOTS_impl.cpp:3749-3822 | the record before rollback, with the new count as id, under the same condition |
| RecoveryLog.RecoveryFile.ReplaceFlag | ots/src/CosTransactionsOTS_impl.cpp:2648-2712 | the scan by flag and id replaces the flag of the first match and nothing else |
| RecoveryLog.RecoveryFile.MarkCommitting | ots/src/CosTransactionsOTS_impl.cpp:2939-3011 | flag 1 becomes 2 |
| RecoveryLog.RecoveryFile.Delete | ots/src/CosTransactionsOTS_impl.cpp:3148-3226 | the count drops by one and the flag becomes 0 |
| RecoveryRuns.LogStaysSound | ots/src/CosTransactionsOTS_impl.cpp:2407-4030 | after any interleaving of accesses: the header counts the live records, commit-path ids are distinct and say where the record is, and each is what its transaction believes it to be |
| RecoveryRuns.OwnRecordFound | ots/src/CosTransactionsOTS_impl.cpp:2939-3011 | on the commit path, updates and deletes change only the transaction's own record |
| RecoveryIds.RollbackDeletesOwnIff | ots/src/CosTransactionsOTS_impl.cpp:3954-4020 | in every reachable state a rollback that ends deletes exactly one record with its id, and the one in the slot it wrote to exactly if that slot still holds one and no earlier slot does |
| RecoveryIds.ClosesOwnIffIdsDiffer | ots/src/CosTransactionsOTS_impl.cpp:3954-4020 | while every rollback record is in its place, all rollbacks would delete their own if and only if no two share an id |
| RecoveryIds.NeverSharedNeverLost | ots/src/CosTransactionsOTS_impl.cpp:3754-4020 | in a run in which no two rollbacks ever share an id, every one finds its own record |
| RecoveryIds.RollbackIdsCanCollide | ots/src/CosTransactionsOTS_impl.cpp:3796 | a run in which two rollbacks share an id and one deletes the record of the other |
| Journal.RecordIsClosedIff | ots/src/CosTransactionsOTS_impl.cpp:2351-3249 | exactly which commits of an Active transaction take their record back, from the states of the participants and the fates of the messages alone, and with which flag the others leave it |
| Journal.RollbackRecordIff | ots/src/CosTransactionsOTS_impl.cpp:3740-4030 | a rollback, and the commit of a marked transaction, writes a record of all its resources and takes it back exactly if no message stops its pass; otherwise it stays with flag 3 |
| Journal.FallbackAddsRecord | ots/src/CosTransactionsOTS_impl.cpp:2857-2869 | a commit that falls back to rollback writes exactly two records, the second one as above |
| Journal.OthersWriteNothing | ots/src/CosTransactionsOTS_impl.cpp:2351-2410 | a transaction without resources writes nothing, nor does a call that does not begin to end one, so that a record left by a stopped pass is not taken back by the repetition (3335-3376, 4100-4134) |
| Journal.FallbackLeavesRecord | ots/src/CosTransactionsOTS_impl.cpp:2857-2869 | a commit that falls back to rollback leaves its flag-1 record for good, and the header never counts down to 0 again |
| Journal.RecordIsLeft | ots/src/CosTransactionsOTS_impl.cpp:2857-2869 | a run from the start, with a new file, in which it happens |
| Journal.AbandonedForGood | ots/src/CosTransactionsOTS_impl.cpp:2460-2481 | a commit record that nobody closes survives all later accesses |
| Interceptors.OtsIorInterceptor.EstablishComponents | ots/src/OTSIORInterceptor_impl.cpp:78-118 | every reference publishes the configured policy or FORBIDS |
| Interceptors.OtsServerInterceptor.ReceiveRequestServiceContexts | ots/src/OTSServerInterceptor_impl.cpp:115-206 | the server-side policy check and the slot of the serving thread |
| Interceptors.OtsServerInterceptor.SendReplyOf | ots/src/OTSServerInterceptor_impl.cpp:220-312 | when a reply tells the coordinator to mark the transaction, and what that does if the messages get through or are lost; when it carries its context; and when the assertion fails |
| Interceptors.OtsClientInterceptor.SendRequestOf | ots/src/OTSClientInterceptor_impl.cpp:156-311 | the client-side policy check and the context added to a request |
| Interceptors.OtsClientInterceptor.ReceiveReplyOf | ots/src/OTSClientInterceptor_impl.cpp:321-440 | whose coordinator a failed reply tells, and what that does if the messages get through or are lost; the fallback to the caller's own slot and its assertion |
| Interceptors.RequestGoesOutIff | ots/src/OTSClientInterceptor_impl.cpp:202-296 | a request is turned away with TRANSACTION_REQUIRED exactly if the policy requires a transaction and there is none, with INVALID_TRANSACTION exactly if it forbids one, there is one and the caller does not permit that; otherwise it goes out, with the transaction exactly if the policy is neither FORBIDS nor INTERNAL |
| Interceptors.UnpublishedIsRefusedIff | ots/src/OTSClientInterceptor_impl.cpp:172-199 | a request to a reference without a policy is refused exactly if the caller prevents such calls and is in no transaction |
| Interceptors.FailedReplyIff | ots/src/OTSClientInterceptor_impl.cpp:321-440 | which transaction a failed reply marks at the caller, if any, and exactly when it ends the process, for every reply |
| Interceptors.ReplyLeavesIff | ots/src/OTSServerInterceptor_impl.cpp:220-312 | with which transaction a reply leaves a server, when it marks it, and exactly when it ends the process |
| Interceptors.SidesAgree | ots/src/OTSServerInterceptor_impl.cpp:115-206 | client and server turn the same requests away with the same exceptions when the caller prevents, and a server admits whatever any caller lets through, in the transaction that was sent along |
| Interceptors.DefaultsLetEverythingThrough | ots/src/OTSIORInterceptor_impl.cpp:96-107 | with nothing configured every request goes out, from any thread, without its transaction |
| CallTrees.CallIsMadeIff | ots/src/OTSClientInterceptor_impl.cpp:156-311 | in any tree of calls: a call is made exactly if policies and slot allow it, and otherwise nothing happens; it carries the transaction exactly as the policy says, and the server begins its work in what was carried |
| CallTrees.InvokePropagates | ots/src/OTSClientInterceptor_impl.cpp:205-296 | in any tree of calls a server works in its caller's transaction exactly if its policy is neither FORBIDS nor INTERNAL, and else in none, so a dropped context never reappears; no request let through is rejected; no process that is in a transaction dies |
| CallTrees.MarkedIffSomeCallFails | ots/src/OTSServerInterceptor_impl.cpp:232-294 | a transaction is marked by a tree of calls if and only if some call made within it, at any depth, fails with a system exception or is lost, and the messages of an interceptor that sees it, at the server or at the caller, get through |
| CallTrees.CallerDiesIff | ots/src/OTSClientInterceptor_impl.cpp:386-416 | a call ends the calling process if and only if the caller has no transaction and the tree of calls below kills it: a lost message, a system exception, or a death, at any depth, that is passed up |
| CallTrees.DeathSpreads | ots/src/OTSClientInterceptor_impl.cpp:386-416 | in a chain of calls of any length, one lost answer at its end ends every process and the caller's outside a transaction, and none within one |
| EndToEnd.FailureMarks | ots/src/OTSServerInterceptor_impl.cpp:273-288 | after a call through a tree of registering and failing servers the coordinator is marked exactly if it was, or some call within the transaction failed and an interceptor got through |
| EndToEnd.MarkedIsDoomed | ots/src/CosTransactionsOTS_impl.cpp:3283-3296 | from a marked state on, whatever is called, only rollbacks are sent |
| EndToEnd.MarkedCommitRollsBackAll | ots/src/CosTransactionsOTS_impl.cpp:3283-3296 | the commit of a marked transaction sends rollback to every registered resource, once and in order, and ends in TRANSACTION_ROLLEDBACK exactly if all answered normally, else in HeuristicHazard |
| EndToEnd.MarkedCommitEnds | ots/src/CosTransactionsOTS_impl.cpp:3671-3887 | if calls fail only in the two tolerated ways, that commit always runs to its end |
| EndToEnd.FailureDooms | ots/src/OTSServerInterceptor_impl.cpp:232-294 | for every such failure anywhere in a call tree and every later run: nobody is sent commit, and the originator's commit rolls everybody back |
| EndToEnd.FailureCanGoUnnoticed | ots/src/OTSClientInterceptor_impl.cpp:418-432 | the condition is needed: a server fails, both interceptors fail to get through, and the commit that follows succeeds everywhere |
| Currents.TransactionFactory.Create | ots/src/CosTransactionsOTS_impl.cpp:193-224 | a new control with a new coordinator; the timeout is ignored |
| Currents.Current.BeginNamed | ots/src/CosTransactionsCurrent_impl.cpp:160-209 | the three checks in order, and the new transaction in the thread's slot |
| Currents.Current.Commit | ots/src/CosTransactionsCurrent_impl.cpp:211-251 | the commit of the thread's transaction; the slot is freed only by a normal return |
| Currents.Current.Rollback | ots/src/CosTransactionsCurrent_impl.cpp:254-291 | likewise for rollback |
| Currents.Current.MarkRollbackOnly | ots/src/CosTransactionsCurrent_impl.cpp:294-321 | marks the thread's transaction |
| Currents.Current.Suspend | ots/src/CosTransactionsCurrent_impl.cpp:425-441 | returns the control and empties the slot |
| Currents.Current.Resume | ots/src/CosTransactionsCurrent_impl.cpp:444-467 | a nil control is ignored, any other one replaces the slot |
| Threads.TurnReach | ots/src/CosTransactionsCurrent_impl.cpp:165-460 | one call reaches at most its own thread's slot and the transaction in it |
| Threads.NestedWork | ots/src/CosTransactionsCurrent_impl.cpp:183-460 | suspend, any interleaved work of any threads that does not resume the control, then resume: slot and outer transaction are as before; begin fails before suspend and works after it exactly if there is a factory |
| Threads.BeginIff | ots/src/CosTransactionsCurrent_impl.cpp:171-203 | begin raises BAD_PARAM exactly without a name, else NO_IMPLEMENT exactly without a factory, else SubtransactionsUnavailable exactly with a busy slot; it returns normally exactly with a name, a factory and an empty slot, and then yields a transaction nobody else is in |
| Threads.BeginAfterEnd | ots/src/CosTransactionsCurrent_impl.cpp:183-278 | after commit or rollback a thread can begin again exactly if that call returned normally or had no transaction |
| Threads.SuspendAndResume | ots/src/CosTransactionsCurrent_impl.cpp:425-467 | suspend empties the slot of its thread, resume of a control replaces it whatever was there, resume of nil changes nothing, and no other slot and no transaction is touched |
| Threads.OutsideTransaction | ots/src/CosTransactionsCurrent_impl.cpp:211-321 | a thread without a transaction is told so by every operation on it, and nothing happens |
| Threads.EndedStaysIff | ots/src/CosTransactionsCurrent_impl.cpp:224-278 | an ended transaction stays in the slot exactly if it was marked, its first phase stopped at a rollback vote, a lost commit answer was reported, an answer to the first rollback was lost, or it was over before a rollback |
| Threads.SecondCommitReportsSuccess | ots/src/CosTransactionsCurrent_impl.cpp:224-237 | under exactly that condition rollback is refused, and a second commit reports success, sends nothing and frees the slot |
| Threads.SuccessAfterRollback | ots/src/CosTransactionsCurrent_impl.cpp:224-237 | a run from the start in which it happens |
| Threads.RollbackLeavesUnfinished | ots/src/CosTransactionsCurrent_impl.cpp:254-291 | a thread that rolls back a transaction that is committing or stuck in Preparing is told of success and leaves it, and nothing is sent |
| Threads.EveryTransactionRests | ots/src/CosTransactionsCurrent_impl.cpp:165-460 | under any interleaving of threads every transaction keeps the coordinator's invariant |

## Left out

- CoordinatorSpec.Sweep: the four second-phase loops of commit and rollback are one function with a parameter for whom to contact, what to send and which errors to forgive.
- RecoveryLog.RecoveryFile.BeginCommit: after a record of more than 10 resources, which overwrites what follows its slot, the model promises nothing about the file; the results about runs of the file are for transactions with at most 10.
- RecoveryRuns.LogStaysSound: each access to the file is atomic, and crashes between accesses are not modelled; recovery is compiled out in ots/include/OTSHeader.h:21.
- Threads.Take: every transaction has its own participants, since a participant's status never returns to Active; operations are atomic turns.
- Real threads inside one coordinator: its operations are atomic, and callbacks of synchronization objects do not call the coordinator.
- Exceptions thrown by synchronization objects: the source swallows them.
- External calls of change_resourcevote and direct client calls on participants of a running transaction.
- The catch ladders for the individual CORBA system exceptions: all errors other than OBJECT_NOT_EXIST and COMM_FAILURE are one.
- Reference counting, release and remove.
- Timeouts: the factory ignores them.
- The database behind the participant: only the results of BEGIN, xaprepare and xacommit are seen.
- Resource and ResourceFactory servants other than the PostgreSQL participant: their bodies are not part of this model.
- Encoding and decoding of contexts and components: the codec is assumed to work, and the slot id to be valid.
- Servers that change their own thread's transaction while they serve a call.
- get_status, get_control, set_timeout, setTransactionFactory, get_transaction_name, get_timeout and the coordinator queries: they return or store a field, and nothing is claimed about them.
