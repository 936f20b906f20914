# Verified model of the crowdfunding platform

A Dafny 4.11 model of the platform's hardest parts, with proofs over every run, every log
and every input. `dafny verify dfyconfig.toml` checks all of it.

The platform runs campaigns on a factory contract. A server polls the contract's event log
and folds it into a relational database; creators, contributors and two-admin governance
work on that database and on the contract.

## How the modules fit together

| module | what it models |
|---|---|
| `Common`, `Events` | wallets, options, results; the contract's events and the log records around them |
| `CampaignFactory` | the contract as a state machine: storage, transactions with their guards, emitted events |
| `FactoryStages`, `FactorySolvency`, `FactoryLogs`, `FactoryVoting`, `FactoryControl` | what every run of the contract keeps: milestone order, refund solvency, the order of its log, votes and releases that follow from the log, two wallets behind every governed action |
| `FactoryRoles` | the contract behind its access checks: the admin role, pausing, and who held the role when |
| `FactoryClock`, `FactoryGoals`, `FactoryAcceptance` | voting periods; goals, releases and what decides over a campaign; exactly when calls are accepted |
| `Lifecycle`, `Funding`, `Stages`, `Records` | the four kinds of table the indexer writes, each with its updates and its replay law |
| `Database` | all tables, and what each event does to them (`Apply`, `Fold`) |
| `IndexerService` | the indexer itself: a class with mutable tables, one method per handler, the chunk loop, the `processing` flag; every method is proved to do what `Database` says |
| `Replay`, `ReplayLimits`, `Polling`, `Ticks` | delivering events again, crashes, polling schedules, interleaved timer ticks |
| `ContractReplay` | when the contract's own logs are safe to deliver again |
| `Ledger`, `Independence` | contribution totals over whole logs; campaigns do not interfere |
| `Sequencing`, `CampaignMirror`, `ReleaseMirror`, `ProposalMirror`, `RowContents` | the database as a cache of the contract, for milestones, campaigns, released amounts and proposals; what rows and ballots hold after any log |
| `Oversight`, `BallotView`, `ReclaimView` | what the lists shown to admins and contributors say, against what the contract knows |
| `Deployment` | milestone numbering, the deployment transaction, and the binding of on-chain ids |
| `Governance`, `Acceptance`, `AdminService`, `MilestonesService` | role changes and approvals as a state machine; exactly when its requests succeed; the services as classes proved against it |
| `Forum` | threads, reactions, cursor pagination |
| `Csv`, `Grouping`, `Analytics`, `UsersService` | the report writer with a reader that inverts it; the aggregation loops; reclaim grouping and history |

A class method that changes stored rows is proved equal to a function on tables; the
theorems are about those functions. Database queries with an order are described by what an
answer is (`Listing`, `Answers`, `RepliesTo`, ...), and the order is shown to have one
answer where that matters.

## What the proofs found

- The comment at apps/server/src/blockchain/indexer.service.ts:90-93 says that all handlers
  are idempotent and that a crash in a chunk is therefore safe. On the logs of the contract
  that holds, for links, statuses, flags, milestone rows, contributions, raised totals, votes
  and proposals, if and only if nobody contributes to a campaign again after claiming a
  refund from it (`ContractReplay.ReplaySafeExactly`). It does not hold for `releasedAmount`
  and `submissionCount`, which drift by exactly what crashed deliveries added
  (`Polling.ExactDrift`, `ReleaseMirror.ReleasedDrift`). The code, not the comment, is
  modelled: the transaction callback writes through the outer client, so a crash leaves a
  partly applied chunk.
- Such a return exists: a refund proposed while a campaign is flagged may be approved after
  it was unflagged (`FactoryLogs.ReturnIsReachable`). A second delivery then marks the new
  contribution refunded although nobody claimed it (`FactoryLogs.ReturnIsLost`). A contract
  that refused contributions while refunds are open would rule it out
  (`ContractReplay.GuardedRunsNeverReturn`).
- In the same way a refund may be approved after the campaign reached its goal. The contract
  then pays claims that the list of reclaimable contributions does not show: it leaves out
  exactly the funded and completed campaigns (`ReclaimView.PaidButHidden`,
  `ReclaimView.HiddenIsReachable`).
- The oversight list shows a milestone that needs work exactly while its campaign is live on
  chain. A milestone approved by the last vote of a funded campaign waits for a release
  that the services and the contract accept, but the campaign is completed and the list
  shows nothing of it (`Oversight.ShownWhileLive`, `Oversight.ApprovedWorkHidden`).
- Ballots are kept over all voting rounds while the contract counts each round anew. The
  numbers shown are those of the current round if and only if everybody who ever voted on
  the milestone has voted again (`BallotView.ShownVotesExactly`).
- Contribution rows are unique by transaction hash, so of several contributions inside one
  transaction the indexer counts the first; `raisedAmount` falls short by exactly the others
  (`CampaignMirror.RaisedFollows`).
- The approval binds a true mirror of the contract exactly if no milestone has moved on
  chain before the approval is confirmed (`Sequencing.FreshMirrors`).
- Binding orders milestones by `order` and creation time, unlocking by `order` alone. The
  two agree if and only if no two milestones of a campaign share an `order`
  (`Deployment.QueriesAgree`); campaigns made by the present code never do
  (`Deployment.CreationOrderIsListing`).
- Two admins agreed on an approved campaign if and only if the request that approved it is a
  confirmation (`Governance.ApprovedHadTwo`). One admin suffices by the direct path
  (`Governance.OneAdminSuffices`), and by deploying the campaign, which the indexer then
  links and approves though nobody proposed it (`Governance.IndexerApprovesAlone`).
- An open approval survives a request for changes and a rejection, and can still be
  confirmed (`Governance.ApprovalOutlivesReview`). A confirmation finds the campaign pending
  if and only if the last write of its status since the proposal was the creator's
  resubmission, or there was none (`Governance.ConfirmFindsPending`).
- A login of an on-chain administrator restores the admin role whatever was voted
  (`Governance.RoleIsLastGrant`).

## Model

| member | source | states |
|---|---|---|
| IndexerService.Service.FindNewestDraft | apps/server/src/blockchain/indexer.service.ts:201-204 | the search returns the row created last of those that wait for the content hash, and nothing only if there is none |
| RowContents.LinksNewest | apps/server/src/blockchain/indexer.service.ts:185-217 | indexing a creation links the campaign to that row and nothing else; a linked campaign, or one without a waiting row, leaves the links |
| IndexerService.Service.OnCampaignCreated | apps/server/src/blockchain/indexer.service.ts:185-217 | links the new campaign to that row, unless it is linked already, and touches nothing else |
| IndexerService.Service.OnCampaignApproved | apps/server/src/blockchain/indexer.service.ts:219-226 | activates and approves the row, only if it is pending |
| IndexerService.Service.OnCampaignStatusChanged | apps/server/src/blockchain/indexer.service.ts:229-241 | writes the status for a known number, never over an admin rejection |
| IndexerService.Service.OnStatusChange | apps/server/src/blockchain/indexer.service.ts:270-273 | writes the given status unconditionally |
| IndexerService.Service.OnCampaignCancelled | apps/server/src/blockchain/indexer.service.ts:485-498 | marks the row failed and copies the flag read from the contract |
| IndexerService.Service.OnContributionMade | apps/server/src/blockchain/indexer.service.ts:275-315 | adds a row and its amount once for each transaction hash, for linked campaigns |
| IndexerService.Service.OnRefundClaimed | apps/server/src/blockchain/indexer.service.ts:693-712 | marks all rows of that contributor and campaign refunded, and no others |
| IndexerService.Service.OnMilestoneSubmitted | apps/server/src/blockchain/indexer.service.ts:317-330 | sets status, proof and deadline, and counts the submission |
| IndexerService.Service.OnVotingFinalized | apps/server/src/blockchain/indexer.service.ts:391-398 | sets approved or rejected |
| IndexerService.Service.OnFundsReleased | apps/server/src/blockchain/indexer.service.ts:438-483 | completes the row, adds the amount to its campaign, unlocks the next row if it has not started |
| IndexerService.Service.OnVoteCast | apps/server/src/blockchain/indexer.service.ts:367-389 | keeps the voter's last ballot for the milestone |
| RowContents.LastVoteStored | apps/server/src/blockchain/indexer.service.ts:367-389 | after any log the ballot of a person on a milestone has the choice and the weight of his last vote |
| RowContents.LastSubmissionStored | apps/server/src/blockchain/indexer.service.ts:317-330 | after any log a milestone row has the proof and the deadline of its last submission |
| RowContents.SubmissionsFollow | apps/server/src/blockchain/indexer.service.ts:322-330 | delivered once, a row's submission count is the contract's |
| RowContents.ListedUnlocksNext | apps/server/src/blockchain/indexer.service.ts:469-482 | a released row unlocks the one behind it in its campaign |
| RowContents.UnlistedUnlocksFirst | apps/server/src/blockchain/indexer.service.ts:469-482 | one that the campaign's list lacks unlocks the first |
| IndexerService.Service.OnRefundProposed | apps/server/src/blockchain/indexer.service.ts:500-524 | records the proposal once, for linked campaigns |
| IndexerService.Service.OnRefundApproved | apps/server/src/blockchain/indexer.service.ts:535-551 | sets the reclaim flag and marks the proposal executed by its confirmer, as `ProposalMirror.EntryStep` spells out |
| IndexerService.Service.OnFlagProposed | apps/server/src/blockchain/indexer.service.ts:715-733 | records the flag proposal once |
| IndexerService.Service.OnFlagConfirmed | apps/server/src/blockchain/indexer.service.ts:745-753 | marks the flag proposal executed by its confirmer, as `ProposalMirror.EntryStep` spells out |
| IndexerService.Service.OnReleaseProposed | apps/server/src/blockchain/indexer.service.ts:756-774 | records the release proposal once, for bound milestones |
| IndexerService.Service.OnReleaseConfirmed | apps/server/src/blockchain/indexer.service.ts:792-800 | marks the release proposal executed by its confirmer, as `ProposalMirror.EntryStep` spells out |
| ProposalMirror.EntryStep | apps/server/src/blockchain/indexer.service.ts:500-800 | what one event does to the entry of a proposal: opens it with its row, proposer in lower case, reason and time; or marks it executed with its confirmer |
| ProposalMirror.EntryTold | apps/server/src/blockchain/indexer.service.ts:500-800 | after any log the entry says what the first event that opened it said, and is executed exactly if a later one confirmed it, by the last one's wallet |
| ProposalMirror.NotOpened | apps/server/src/blockchain/indexer.service.ts:500-800 | a proposal that no event opened for a linked campaign or a bound milestone has no entry |
| ProposalMirror.RegistersMirror | apps/server/src/blockchain/indexer.service.ts:500-800 | for every run of the contract each indexed proposal has the contract's proposer and is executed exactly if the contract's is, confirmed by whoever sent the transaction that executed it |
| ProposalMirror.RunAccounts | apps/blockchain/contracts/CampaignFactory.sol:443-1164 | over every run the contract's proposals are those its log opened, each once, and those executed are those its log confirmed |
| IndexerService.Service.HandleEvent | apps/server/src/blockchain/indexer.service.ts:121-183 | every event reaches the one handler that makes its updates |
| IndexerService.Service.DeliverChunk | apps/server/src/blockchain/indexer.service.ts:95-104 | a chunk is the fold of its events in order |
| IndexerService.Service.ProcessEvents | apps/server/src/blockchain/indexer.service.ts:61-119 | the chunk loop ends, applies the range from the cursor to the head (every event of every block, as `Polling.EachLogOnce` says) and moves the cursor to the head; broken off in a chunk, it leaves the chunks before it, the handlers that ran, and the cursor of the last whole chunk |
| IndexerService.Service.Poll | apps/server/src/blockchain/indexer.service.ts:47-57 | does nothing while an earlier poll is at work; otherwise polls, or catches what fails on the way, and gives the flag back in every case |
| Polling.EachLogOnce | apps/server/src/blockchain/indexer.service.ts:88-104 | the range of blocks that a poll reads has each event of each block at its own place, in the order of the chain |
| Polling.PlaceInRange | apps/server/src/blockchain/indexer.service.ts:88-104 | and nothing else |
| Polling.BlockInRange | apps/server/src/blockchain/indexer.service.ts:75-88 | a block stands in every range around it whole, between what comes before and after it |
| Polling.ChunksDoNotShow | apps/server/src/blockchain/indexer.service.ts:75-114 | for every chunk size the chunked poll is one plain fold |
| Polling.EveryScheduleIsOneFold | apps/server/src/blockchain/indexer.service.ts:61-114 | for heads that grow, stall or go back, all polls together are one fold over each event of each block from the start to the cursor, once and in order; the cursor never decreases |
| Polling.RangeAppendOnly | apps/server/src/blockchain/indexer.service.ts:75-88 | blocks that are added later do not change what was read |
| Polling.AlwaysRepairable | apps/server/src/blockchain/indexer.service.ts:90-111 | in every state of a run with crashes anywhere, delivering the blocks behind the cursor gives what one clean pass gives |
| Polling.ReplayConverges | apps/server/src/blockchain/indexer.service.ts:90-111 | once the cursor has passed every block a crash left partly applied, the tables are those of one clean pass |
| Polling.CountersAdd | apps/server/src/blockchain/indexer.service.ts:322-330 | each delivery adds exactly its released amounts and submissions |
| Polling.FaultyPollIsRun | apps/server/src/blockchain/indexer.service.ts:47-111 | a poll that breaks off is a run of whole chunks and one crash, so all that holds of runs with crashes holds after a caught error |
| Polling.ExactDrift | apps/server/src/blockchain/indexer.service.ts:457-467 | after any run the two counters are those of the committed blocks plus exactly the crashed deliveries |
| Ticks.MutualExclusion | apps/server/src/blockchain/indexer.service.ts:47-57 | over every interleaving of ticks, failures and restarts at most one tick is inside, exactly while the flag is up, and the cursor it read is the stored one |
| Ticks.CommitsAreSteps | apps/server/src/blockchain/indexer.service.ts:105-111 | no tick writes a cursor it did not read |
| Ticks.InterleavingsAreRuns | apps/server/src/blockchain/indexer.service.ts:32-34 | every interleaving is a run of single commits and crashes |
| Ticks.InterleavingsRepairable | apps/server/src/blockchain/indexer.service.ts:47-57 | ticks, failures and restarts in any order leave the tables repairable |
| Lifecycle.Idempotent | apps/server/src/blockchain/indexer.service.ts:219-273 | any batch of status updates without the legacy status, delivered twice, leaves a row as once does |
| Lifecycle.LeftPending | apps/server/src/blockchain/indexer.service.ts:219-226 | no event brings a row back to pending, so its approval is final |
| Lifecycle.RejectionStays | apps/server/src/blockchain/indexer.service.ts:229-241 | a row that an admin rejected keeps its status whatever approvals and status changes are indexed; every other row takes an announced status |
| Funding.Conservation | apps/server/src/blockchain/indexer.service.ts:299-314 | raised totals grow by exactly the rows added |
| Funding.RowKeys | apps/server/src/blockchain/indexer.service.ts:299-310 | one row for each delivered hash; a row keeps its data |
| Funding.Idempotent | apps/server/src/blockchain/indexer.service.ts:275-315 | contributions and claims, claims last, are idempotent as a batch |
| Stages.Idempotent | apps/server/src/blockchain/indexer.service.ts:317-483 | milestone updates are idempotent as a batch |
| Records.CastIdempotent | apps/server/src/blockchain/indexer.service.ts:367-389 | votes are idempotent as a batch |
| Records.Idempotent | apps/server/src/blockchain/indexer.service.ts:500-564 | proposals, opened before they are executed, are idempotent as a batch |
| Database.LinksGrow | apps/server/src/blockchain/indexer.service.ts:185-217 | links stay one-to-one and are never lost |
| Replay.Settled | apps/server/src/blockchain/indexer.service.ts:185-315 | with creations first, links that grow during a pass do as well as the final ones |
| Replay.BatchIdempotent | apps/server/src/blockchain/indexer.service.ts:90-93 | a well-ordered batch delivered twice leaves all tables but the two counters as once does |
| Replay.CrashAbsorbed | apps/server/src/blockchain/indexer.service.ts:90-93 | a crash after any number of handlers is absorbed by delivering the chunk again |
| ReplayLimits.PairReplaySafe | apps/server/src/blockchain/indexer.service.ts:90-93 | two events that do not announce the legacy status are safe to replay from all tables if and only if they are not inverted |
| ReplayLimits.PendingDiverges | apps/server/src/blockchain/indexer.service.ts:219-241 | the legacy status would make replay unsafe |
| Ledger.RaisedFollowsRows | apps/server/src/blockchain/indexer.service.ts:275-315 | after any log each raised total has grown by exactly its rows |
| Ledger.OneRowPerHash | apps/server/src/blockchain/indexer.service.ts:298-310 | a hash has a row exactly if it was recorded, and the row keeps its data |
| Ledger.AnyOrder | apps/server/src/blockchain/indexer.service.ts:275-315 | contributions with distinct hashes give the same tables in every order |
| Independence.CampaignIndependent | apps/server/src/blockchain/indexer.service.ts:121-183 | what is kept about one linked campaign after a log is what its own events alone give |
| FactoryStages.OneMilestoneMoves | apps/blockchain/contracts/CampaignFactory.sol:748-1087 | a transaction moves at most one milestone, never out of its final state, and out of the initial one only behind a finished milestone |
| FactoryStages.AlwaysSequential | apps/blockchain/contracts/CampaignFactory.sol:773-789 | in every reachable storage a milestone that has begun has only finished ones before it |
| FactorySolvency.AlwaysSound | apps/blockchain/contracts/CampaignFactory.sol:638-1221 | over every run stakes and claimed stakes make up what was raised, and refunds stay within the claimed stakes' share |
| FactorySolvency.AlwaysSolvent | apps/blockchain/contracts/CampaignFactory.sol:1018-1221 | releases and refunds never exceed what was raised, and refunds never 95% of what the releases left |
| FactorySolvency.RefundsShareThePool | README.md:61-67 | for every list of stakes the floored refunds total at most 95% of the pool, and with all stakes fall short by less than one unit each |
| FactorySolvency.RefundWithinReported | apps/server/src/users/users.service.ts:130-139 | no refund exceeds 95% of its contribution |
| FactoryLogs.Blocks | apps/blockchain/contracts/CampaignFactory.sol:359-1221 | each transaction's events name new ids for what they introduce and known ids for what they refer to |
| FactoryLogs.RunsAreWellOrdered | apps/blockchain/contracts/CampaignFactory.sol:359-1221 | the log of a run is well ordered if and only if nobody contributes again after a refund |
| FactoryLogs.ContractReplayConverges | apps/server/src/blockchain/indexer.service.ts:90-111 | replay converges on every log of the contract without such a return |
| FactoryLogs.ReturnIsReachable | apps/blockchain/contracts/CampaignFactory.sol:1105-1221 | a run in which a contributor claims a refund and contributes again |
| FactoryLogs.ReturnIsLost | apps/server/src/blockchain/indexer.service.ts:693-712 | on such a log, once the campaign is linked, a second delivery marks the new contribution refunded, whatever else its transaction emitted |
| ContractReplay.ReplaySafeExactly | apps/server/src/blockchain/indexer.service.ts:90-93 | for the logs of every run of the contract, as far as they are read, from all tables and after every crash: delivering again is safe if and only if nobody contributes to a campaign again after claiming a refund from it |
| ContractReplay.GuardedRunsNeverReturn | apps/blockchain/contracts/CampaignFactory.sol:638-740 | runs in which no contribution is accepted while refunds are open have no such return |
| FactoryVoting.RunAgrees | apps/blockchain/contracts/CampaignFactory.sol:638-1087 | in every run ballots, rounds, quorum bases and milestone states are those recomputed from the log |
| FactoryVoting.LogExplainsItself | apps/blockchain/contracts/CampaignFactory.sol:748-1087 | in every log: at most three submissions, each after the previous milestone's release; one weighted ballot for each voter and round; votes end as ballots and quorum say; funds are released once, in the milestone's amount, after a passed vote |
| FactoryControl.EveryCallChanges | apps/blockchain/contracts/CampaignFactory.sol:443-1164 | each call opens a fresh proposal, executes the open one of its subject by another wallet, or leaves the proposals alone, and its events say so |
| FactoryControl.LogShowsTwoAdmins | apps/blockchain/contracts/CampaignFactory.sol:443-1164 | in every log each flag, refund approval and release rests on an earlier proposal of the same id and subject by another wallet, and no proposal is executed twice |
| FactoryRoles.ChecksOnlyRemove | apps/blockchain/contracts/CampaignFactory.sol:333-1324 | a run behind role checks and pausing is a run of the contract with the same storage and log |
| FactoryRoles.ActorsHeldRole | apps/blockchain/contracts/CampaignFactory.sol:443-1164 | every proposal and confirmation in a log was made by a wallet that held the admin role at that moment |
| FactoryRoles.LogShowsTwoAdmins | apps/blockchain/contracts/CampaignFactory.sol:443-1164 | in every log behind the checks, whatever was flagged, refunded or released had been proposed before by a different wallet, both held the admin role when they acted, and no proposal was executed twice |
| FactoryRoles.OnlyAllowedSucceeds | apps/blockchain/contracts/CampaignFactory.sol:359-1164 | administration comes from role holders, cancellation from one or from the creator, and nothing is created or contributed while paused |
| FactoryRoles.RoleIsLastChange | apps/blockchain/contracts/CampaignFactory.sol:333-345 | over every run a wallet holds the role exactly if it was given to it last, or it had it and nobody took it |
| FactoryClock.VotesLastAWeek | apps/blockchain/contracts/CampaignFactory.sol:748-970 | after every run a ballot is accepted only less than seven days after the milestone's last submission, its result drawn only seven days after it or later |
| FactoryGoals.AlwaysOnBudget | apps/blockchain/contracts/CampaignFactory.sol:359-1087 | over every run a campaign has withdrawn exactly the amounts of its finished milestones, its goal is the amounts of all, and it is funded or completed only with its goal raised |
| FactoryGoals.DeadlineDecides | apps/blockchain/contracts/CampaignFactory.sol:568-740 | contributions are taken up to the deadline, and the one that reaches the goal funds the campaign; from the deadline on the campaign is funded or cancelled by its goal |
| FactoryGoals.RefundsOpen | apps/blockchain/contracts/CampaignFactory.sol:613-1221 | when refunds may be proposed, a funded campaign be given up, and a claim be paid, and what it pays |
| FactoryGoals.ResultDecides | apps/blockchain/contracts/CampaignFactory.sol:883-970 | a third rejection cancels the campaign and opens its refunds, the last result of a funded one completes it, and no other result changes it |
| FactoryGoals.ReleaseDecides | apps/blockchain/contracts/CampaignFactory.sol:1018-1087 | the release of the last milestone completes the campaign, and no earlier one |
| FactoryGoals.BallotWeighsStake | apps/blockchain/contracts/CampaignFactory.sol:818-870 | a ballot weighs the voter's stake |
| FactoryAcceptance.FlagCallsExactly | apps/blockchain/contracts/CampaignFactory.sol:443-560 | a live campaign is flagged by two wallets, a flagged one becomes active again, and only an active one is cancelled |
| FactoryAcceptance.RefundApprovalExactly | apps/blockchain/contracts/CampaignFactory.sol:1146-1164 | an open refund proposal is approved by another wallet, and then refunds are open |
| FactoryAcceptance.SubmissionExactly | apps/blockchain/contracts/CampaignFactory.sol:748-812 | a submission is accepted exactly from the creator of a live campaign with money, with a proof, at most three times, behind a paid milestone |
| FactoryAcceptance.VotingExactly | apps/blockchain/contracts/CampaignFactory.sol:818-970 | a ballot is accepted exactly once in each round from a contributor of a live campaign within the voting time, a result exactly after it |
| FactoryAcceptance.ReleaseCallsExactly | apps/blockchain/contracts/CampaignFactory.sol:973-1087 | a release is proposed exactly for an approved milestone of a live or completed campaign, and confirmed exactly by another wallet while no refunds are open and the money is there |
| Sequencing.MirrorStep | apps/server/src/blockchain/indexer.service.ts:317-483 | milestone rows that mirror the contract still do after any transaction is indexed |
| Sequencing.AlwaysMirrors | apps/server/src/milestones/milestones.service.ts:40-62 | and after any run of transactions and proof uploads |
| Sequencing.FreshMirrors | apps/server/src/admin/admin.service.ts:624-634 | the approval's statuses mirror the contract if and only if no milestone has moved |
| Sequencing.MirrorFrontier | apps/server/src/blockchain/indexer.service.ts:469-482 | there is a frontier: completed rows, one in work, rows not started |
| Sequencing.SequencedRuns | apps/server/src/admin/admin.service.ts:607-634 | from an approval of an untouched campaign, along everything mined, indexed and uploaded, rows mirror the contract and have a frontier |
| Sequencing.ThreeViewsAgree | apps/server/src/admin/admin.service.ts:350-371 | a row that takes a proof or a release proposal is shown in the oversight list if and only if its campaign is active or funded; a row that is shown takes one of them unless it is being voted on |
| Sequencing.OneActionable | apps/server/src/blockchain/indexer.service.ts:469-482 | of a mirrored campaign at most one row takes a proof or a release proposal |
| Oversight.ShownWhileLive | apps/server/src/admin/admin.service.ts:354-371 | along everything mined, indexed and uploaded, the one row that takes work is shown if and only if its campaign is live on chain |
| Oversight.ApprovedWorkHidden | apps/server/src/admin/admin.service.ts:354-448 | a run of the contract after which a row waits for a release that is accepted, and the list shows nothing |
| CampaignMirror.EveryBlockTells | apps/blockchain/contracts/CampaignFactory.sol:359-1221 | the events of a transaction tell exactly what it did to a campaign's status, flag and raised total |
| CampaignMirror.AlwaysMirrored | apps/server/src/blockchain/indexer.service.ts:219-273 | along every run the row has the contract's status, and a flag between the present and the latest read one |
| CampaignMirror.CacheIsExact | apps/server/src/blockchain/indexer.service.ts:485-498 | when every flag was read by the end of the run, status, approval and flag are exactly the contract's |
| CampaignMirror.CreationStartsCache | apps/server/src/blockchain/indexer.service.ts:185-226 | indexing a creation brings the waiting row to where that starts |
| CampaignMirror.RaisedFollows | apps/server/src/blockchain/indexer.service.ts:275-315 | the row's raised total grows as the contract's, less exactly the contributions with a hash already recorded |
| ReleaseMirror.ReleasedFollows | apps/server/src/blockchain/indexer.service.ts:457-463 | delivered once, the released column grows by exactly what the contract paid the campaign's creator |
| ReleaseMirror.ReleasedDrift | apps/server/src/blockchain/indexer.service.ts:438-467 | after any run with crashes it is that plus exactly what crashed deliveries added again |
| Deployment.CreationOrderIsListing | apps/server/src/campaigns/campaigns.service.ts:199-205 | the order in which a creator lists milestones is the one answer to the ordered query; each row keeps its draft's amount and deadline, unbound, and no other row changes |
| Deployment.ListingUnique | apps/server/src/admin/admin.service.ts:609-613 | the ordered query has one answer when the milestones' keys differ |
| Deployment.QueriesAgree | apps/server/src/blockchain/indexer.service.ts:469-474 | the query by order alone, which unlocking uses, answers with the binding order and nothing else if and only if no two milestones of the campaign have the same order |
| Deployment.GoalIsTotal | apps/client/src/pages/admin/AdminProjectReviewPage.tsx:85-92 | the goal sent is the milestones' total at its worth in the token's decimal places |
| Deployment.SentAtWorth | apps/client/src/pages/admin/AdminProjectReviewPage.tsx:80-99 | every milestone and the goal are sent at their worth in 18 decimal places for ether and 6 for USDC, with the milestone's own deadline or else the campaign's |
| Deployment.WholeTokens | apps/client/src/pages/admin/AdminProjectReviewPage.tsx:82 | so n whole tokens are sent as n times ten to the 18th or to the 6th |
| Deployment.DeploymentAccepted | apps/client/src/pages/admin/AdminProjectReviewPage.tsx:85-99 | the sum check never refuses this caller: past the access checks the contract accepts exactly by count, amounts and deadlines |
| FactoryRoles.DeploymentAccepted | apps/blockchain/contracts/CampaignFactory.sol:359-395 | the contract accepts the page's deployment exactly from an admin, when not paused, with a creator and a content hash, and by count, amounts and deadlines |
| Deployment.FindCampaignId | apps/client/src/pages/admin/AdminProjectReviewPage.tsx:102-110 | the first creation in the receipt, if there is one |
| Deployment.BindExactly | apps/server/src/admin/admin.service.ts:615-634 | the approval succeeds exactly if its ids are free, then binds them in order and nothing else |
| Deployment.DeploymentBinds | apps/client/src/pages/admin/AdminProjectReviewPage.tsx:85-122 | deploying and approving binds rows one to one and in order to on-chain milestones that carry their own amounts at their worth |
| Deployment.DeploymentStartsSequence | apps/server/src/admin/admin.service.ts:607-634 | and, with distinct orders, leaves exactly the state from which sequencing starts |
| Governance.EveryRequestFollows | apps/server/src/admin/admin.service.ts:481-658 | every request moves the live proposal of at most one user or campaign: from none to proposed, to none by another wallet's confirmation or the proposer's cancellation |
| Governance.Balance | apps/server/src/admin/admin.service.ts:481-658 | over all request sequences proposals equal cancellations, confirmations and the one pending |
| Governance.EveryConfirmHasPropose | apps/server/src/admin/admin.service.ts:510-535 | every confirmation ends an earlier live proposal by a different wallet |
| Governance.NeverForOneself | apps/server/src/admin/admin.service.ts:485-487 | nobody proposes a change of his own role |
| Governance.RoleIsLastGrant | apps/server/src/auth/auth.service.ts:69-90 | a role is the one granted last, by a confirmed proposal or an administrator's login, or the initial one |
| Governance.ConfirmGrantsOffer | apps/server/src/admin/admin.service.ts:522-532 | a confirmation grants the role that was proposed |
| Governance.ChangedRoleHadTwo | apps/server/src/admin/admin.service.ts:481-535 | without such logins a changed role was proposed by one wallet, not the user's, and confirmed by another |
| Governance.ApprovedHadTwo | apps/server/src/admin/admin.service.ts:560-639 | a campaign that became approved has one approving request; two wallets had agreed on it by then if and only if that request is a confirmation, and otherwise it is the direct path or the indexer's update |
| Governance.IndexerApprovesAlone | apps/server/src/blockchain/indexer.service.ts:185-226 | from every state the indexed creation of a waiting campaign links and approves it, though no approval is proposed or confirmed |
| Governance.OneAdminSuffices | apps/server/src/admin/admin.service.ts:214-230 | the direct path approves with one request |
| Governance.ApprovalOutlivesReview | apps/server/src/admin/admin.service.ts:591-639 | an open approval can be confirmed after the campaign was sent back or rejected |
| Acceptance.ProposeRoleExactly | apps/server/src/admin/admin.service.ts:481-508 | a role change is accepted exactly for a known user, from another wallet, while none is live for him |
| Acceptance.ConfirmRoleExactly | apps/server/src/admin/admin.service.ts:510-535 | a live role change is confirmed exactly by any wallet but its proposer's, and then the user has the offered role, whichever it is, and nothing else changes |
| Acceptance.CancelRoleExactly | apps/server/src/admin/admin.service.ts:537-547 | it is withdrawn exactly by its proposer |
| Acceptance.OnlyOpenRoles | apps/server/src/admin/admin.service.ts:510-547 | what is not open is neither confirmed nor withdrawn |
| Acceptance.ProposeApprovalExactly | apps/server/src/admin/admin.service.ts:560-589 | an approval is accepted exactly for a pending campaign without a live one |
| Acceptance.ConfirmApprovalExactly | apps/server/src/admin/admin.service.ts:591-639 | it is confirmed exactly by any wallet but its proposer's while the on-chain ids are free; then the campaign is live under its id and its milestones are bound in order |
| Acceptance.CancelApprovalExactly | apps/server/src/admin/admin.service.ts:648-658 | it is withdrawn exactly by its proposer |
| Acceptance.ReviewExactly | apps/server/src/admin/admin.service.ts:214-230 | when a campaign is sent back, resubmitted by its creator, rejected and approved directly, and what then is stored |
| Acceptance.LoginExactly | apps/server/src/auth/auth.service.ts:69-90 | a login makes an administrator of the contract an admin and takes no role away |
| Acceptance.IndexCreationExactly | apps/server/src/blockchain/indexer.service.ts:185-217 | an indexed creation links only a row without an id, under an id nobody has |
| Acceptance.IndexUpdateExactly | apps/server/src/blockchain/indexer.service.ts:219-273 | an indexed update writes the row under its id as the indexer's table does, and no other |
| Acceptance.Refusals | apps/server/src/admin/admin.service.ts:481-658 | what each refusal says |
| Governance.ConfirmFindsPending | apps/server/src/admin/admin.service.ts:591-639 | over every request sequence a confirmation finds the campaign pending if and only if nothing wrote its status since the proposal, or a resubmission did last |
| AdminService.Service.ProposeRoleChange | apps/server/src/admin/admin.service.ts:481-508 | opens one proposal, or refuses an unknown user, the proposer himself, and a user with a pending one, changing nothing |
| AdminService.Service.ConfirmRoleChange | apps/server/src/admin/admin.service.ts:510-535 | executes the proposal and writes the role together, or refuses unknown and executed proposals and the proposer; exactly when is `Acceptance.ConfirmRoleExactly` |
| AdminService.Service.CancelRoleProposal | apps/server/src/admin/admin.service.ts:537-547 | deletes the proposal, for its proposer only and before it is executed |
| AdminService.Service.ProposeApproval | apps/server/src/admin/admin.service.ts:560-589 | opens an approval for a pending campaign without an open one; an executed one makes room |
| AdminService.Service.BindRows | apps/server/src/admin/admin.service.ts:624-634 | the update loop is the specified binding, with its failure |
| AdminService.Service.ConfirmApproval | apps/server/src/admin/admin.service.ts:591-639 | approves, executes and binds together, without a look at the status; nothing changes when an id is taken |
| AdminService.Service.CancelApproval | apps/server/src/admin/admin.service.ts:648-658 | deletes the open approval, for its proposer only |
| AdminService.Service.RequestChanges | apps/server/src/admin/admin.service.ts:771-782 | sends a pending campaign back, and no other |
| AdminService.Service.ResubmitCampaign | apps/server/src/campaigns/campaigns.service.ts:234-243 | makes a campaign that was sent back pending again, for its creator only |
| AdminService.Service.ProposeReleaseFunds | apps/server/src/admin/admin.service.ts:428-448 | accepted exactly for an approved, bound milestone without an open proposal |
| AdminService.Service.CurrentMilestone | apps/server/src/admin/admin.service.ts:359-364 | of one campaign the first milestone in order that is not completed |
| AdminService.Service.GetMilestones | apps/server/src/admin/admin.service.ts:350-371 | the list has of every active or funded campaign its current milestone, of no other campaign anything, and no campaign twice |
| AdminService.CountVotes | apps/server/src/admin/admin.service.ts:377-397 | every listed milestone shows exactly its ballots for and against |
| BallotView.ShownVotesExactly | apps/server/src/admin/admin.service.ts:377-397 | after any log that spells each voter one way, the counts shown are the voters of the contract's current round if and only if everybody who ever voted on the milestone voted in this round |
| MilestonesService.Service.SubmitProof | apps/server/src/milestones/milestones.service.ts:40-60 | accepted exactly from the creator of an ongoing or rejected milestone; writes the proof only |
| Forum.NoTagSurvives | apps/server/src/forum/forum.service.ts:30-33 | tag removal leaves no opening bracket with a closing one behind it, and text without tags as it is |
| Forum.StripsExactly | apps/server/src/forum/forum.service.ts:30-33 | it removes exactly the characters in tags and keeps the others in order |
| Forum.TagsNeverStored | apps/server/src/forum/forum.service.ts:117-191 | over every history no stored message comes to hold a tag |
| Forum.PlainTextStored | apps/server/src/forum/forum.service.ts:143-189 | a successful post or edit with text without tags stores exactly that text |
| Forum.RequestsExactly | apps/server/src/forum/forum.service.ts:117-261 | who may post, edit, delete and react; what each stores, in that one message or reaction and nowhere else; what a refused request is told |
| Forum.DeletedForGood | apps/server/src/forum/forum.service.ts:170-261 | over every history a message deleted by an admin stays empty and takes no edit and no reaction |
| Forum.ThreadsHold | apps/server/src/forum/forum.service.ts:117-237 | over every history replies stay under a top-level message of their forum and no message is lost or moved |
| Forum.ReactionParity | apps/server/src/forum/forum.service.ts:239-261 | a reaction is there exactly by the parity of its toggles |
| Forum.TwiceRestores | apps/server/src/forum/forum.service.ts:239-261 | toggling twice on a live message restores all reactions |
| Forum.ReadIsBeginning | apps/server/src/forum/forum.service.ts:65-74 | the pages read so far are the beginning of the thread of the first fetch |
| Forum.PagesComplete | apps/server/src/forum/forum.service.ts:51-113 | following the cursor to its end gives that thread whole, in order, without gap or repetition, while messages are posted, edited and deleted |
| Forum.PagesEnd | apps/server/src/forum/forum.service.ts:73-113 | it ends after at most one page more than there are messages |
| Forum.ThreadUnique | apps/server/src/forum/forum.service.ts:68 | there is one display order |
| Forum.HistoriesPostLater | apps/server/src/forum/forum.service.ts:143-151 | with a forward clock every history is one that pagination tolerates |
| Forum.GetForum | apps/server/src/forum/forum.service.ts:46-115 | a page lists under each item all its replies, once and in order |
| Forum.Service.CreateMessage | apps/server/src/forum/forum.service.ts:117-151 | adds the message, or refuses a parent from another forum, a reply as parent and a deleted parent |
| Forum.Service.UpdateMessage | apps/server/src/forum/forum.service.ts:170-191 | rewrites the text of a live message, for its author or an admin |
| Forum.Service.DeleteMessage | apps/server/src/forum/forum.service.ts:208-222 | marks the message deleted, for an admin, and keeps its place |
| Forum.Service.ToggleReaction | apps/server/src/forum/forum.service.ts:239-261 | adds or removes the one reaction of a live message; the answer says whether it is there now |
| Csv.RoundTrip | apps/client/src/pages/CreatorStudioPage.tsx:356-359 | a reader after section 2 of RFC 4180 returns the written rows if and only if there are rows and none is empty |
| Csv.ReportReadsBack | apps/client/src/pages/CreatorStudioPage.tsx:347-359 | a report reads back as the six headings and one record for each contribution, with wallet, amount, token, hash, time and Yes or No in this order, and determines the contributions |
| Grouping.AllGroups | apps/client/src/pages/CreatorStudioPage.tsx:83-98 | grouping neither loses nor repeats an amount |
| Grouping.Accumulate | apps/client/src/pages/CreatorStudioPage.tsx:83-98 | the accumulating loop gives each key's total, keys in the order of their first item |
| Analytics.Cumulative | apps/client/src/pages/CreatorStudioPage.tsx:78-82 | each point is the sum of all contributions up to it |
| Analytics.DailyBuckets | apps/client/src/pages/CreatorStudioPage.tsx:84-92 | one bucket for each day with its sum, days ascending |
| Analytics.DayByClock | apps/client/src/pages/CreatorStudioPage.tsx:84-86 | contributions fall on the day that the clock shows, whatever the time of day |
| Analytics.TotalsByWallet | apps/client/src/pages/CreatorStudioPage.tsx:94-99 | one total for each wallet |
| Analytics.TopContributors | apps/client/src/pages/CreatorStudioPage.tsx:100 | at most five, none below a contributor left out |
| Analytics.AggregationsAgree | apps/client/src/pages/CreatorStudioPage.tsx:74-100 | final running total, daily buckets and wallet totals are one number |
| Analytics.RunningMeetsBuckets | apps/client/src/pages/CreatorStudioPage.tsx:78-92 | at a day's last contribution the running total is the sum of all buckets up to that day |
| UsersService.GetReclaimable | apps/server/src/users/users.service.ts:176-190 | one group for each campaign, with its contributions and their sum |
| UsersService.EachInOneGroup | apps/server/src/users/users.service.ts:146-190 | each reclaimable contribution is in exactly one group, its campaign's |
| UsersService.ClaimedCampaignAbsent | apps/server/src/blockchain/indexer.service.ts:693-712 | after an indexed claim the campaign is absent until a new contribution of the claimant is indexed |
| UsersService.GetTransactions | apps/server/src/users/users.service.ts:101-144 | the loop builds the specified history |
| UsersService.HistoryComplete | apps/server/src/users/users.service.ts:118-141 | the history holds every contribution once and in order and reports 95% of the refunded ones |
| UsersService.HistoryByPlace | apps/server/src/users/users.service.ts:118-141 | each contribution has its entry at its place, its own refund of 95% right behind it if it was refunded, and there are no other entries |
| UsersService.ReportedCoversPaid | apps/server/src/users/users.service.ts:130-139 | for every stake made up of any contributions, the contract never pays more for it than the history reports |
| ReclaimView.OwedIsStake | apps/server/src/users/users.service.ts:146-175 | along every run in which contributions come with new transaction hashes and the address is spelled one way, the unrefunded rows of a wallet add up to its stake on chain |
| ReclaimView.ListedExactly | apps/server/src/users/users.service.ts:146-190 | on tables that follow the contract a stake that is left is listed, whole, if and only if refunds are open and the campaign is neither funded nor completed |
| ReclaimView.PaidButHidden | apps/blockchain/contracts/CampaignFactory.sol:1170-1221 | on such tables, of the claims that the contract would pay, exactly those of funded and completed campaigns are not listed |
| ReclaimView.HiddenIsReachable | apps/blockchain/contracts/CampaignFactory.sol:1105-1221 | a run of the contract that ends in such a claim |

## Left out

- Crashes inside a handler: each handler is one atomic step; between the creation of a contribution row and the increment of the total the code gives no guarantee.
- Handler errors, which the chunk loop logs and skips: handlers are taken to succeed; a poll may fail between handlers, while it reads the chain or at the cursor.
- Chain reorganisations: the chain is an append-only list of blocks.
- ReclaimView.OwedIsStake: takes contributions with new hashes only; what a repeated hash does to the totals is `CampaignMirror.RaisedFollows`.
- Reads of the contract inside a handler: one fixed answer is attached to each log, so a handler that runs again reads the same; `CampaignMirror` bounds what late reads of the flag can do.
- Writes to campaign rows by admins between events in `CampaignMirror`: there the rows change by events alone. `Governance` interleaves both kinds of writes, and takes the row that the indexer's search found as part of the request.
- The users table: a user is his lower-cased wallet, which the server keeps unique; the automatic creation of a user by a handler is not modelled.
- Floating point and the two-decimal amount columns: amounts are exact base units; the raised total is kept per campaign row beside the rows.
- The contract's minimum contributions, token transfers, re-entrancy guards, 256-bit overflow and fee withdrawal: they only refuse transactions or move its own fee. The contract is modelled on values, not as a class, and roles other than the admin role do not occur in it.
- FactoryControl.LogShowsTwoAdmins: says that two different wallets acted; that both held the admin role is `FactoryRoles.LogShowsTwoAdmins`.
- Deployment.DeploymentAccepted: takes the access checks as passed; `FactoryRoles.DeploymentAccepted` adds them.
- Several contract calls inside one transaction: a modelled transaction is one call, but logs may share a transaction hash.
- Ties that the database breaks as it likes: equal creation times among waiting drafts are broken by the row key; replies with equal times may come in any order.
- Notifications, audit log, keepers, caches, search filters, request validation, guards, sign-in signatures, IPFS, RPC and rendering.
- Forum author badges, the trimming of white space around stored text, and cursors that a client makes up.
- Sorting in the analytics panel: the sorted list is any chronological permutation; days are numbered from UTC times instead of being cut from the text.
- The paging and the sort by update time of the oversight list.
- Logins: the nonce and signature checks before it are not modelled; an unknown user is refused.
