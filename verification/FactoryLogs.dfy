/** Every run of the contract emits a log that is safe to replay, with one exception, which
    some runs do reach: a contribution by somebody who has already claimed a refund. */
module FactoryLogs {
  import opened Common
  import opened Events
  import opened CampaignFactory
  import Database
  import Replay
  import Polling
  import Funding
  import Ledger

  /** An event with nothing around it; the order conditions look at the event alone. */
  function Bare(e: Event): Log {
    Log(e, 0, 0, Head("", false))
  }

  predicate Carries(logs: seq<Log>, events: seq<Event>) {
    |logs| == |events| && forall i | 0 <= i < |logs| :: logs[i].event == events[i]
  }

  lemma EventsDecide(x: Log, y: Log)
    ensures Replay.Inverted(x, y) <==> Replay.Inverted(Bare(x.event), Bare(y.event))
    ensures Replay.AnnouncesPending(x) <==> Replay.AnnouncesPending(Bare(x.event))
  {
  }

  predicate ClaimBefore(earlier: Event, later: Event) {
    && earlier.RefundClaimed? && later.ContributionMade? && earlier.campaign == later.campaign
    && SameWallet(earlier.contributor, later.contributor)
  }

  /** Nobody contributes to a campaign again after claiming a refund from it. */
  predicate NoReturn(events: seq<Event>) {
    forall i, j | 0 <= i < j < |events| :: !ClaimBefore(events[i], events[j])
  }

  // ---- Identifiers are fresh ----------------------------------------------------------

  predicate KeysWithin<T>(m: map<nat, T>, counter: nat) {
    forall k | k in m :: k <= counter
  }

  /** No identifier in the storage exceeds the counter that hands them out. */
  predicate Counted(f: Factory) {
    && KeysWithin(f.campaigns, f.campaignCounter)
    && KeysWithin(f.refundProposals, f.refundCounter)
    && KeysWithin(f.flagProposals, f.flagCounter)
    && KeysWithin(f.releaseProposals, f.releaseCounter)
  }

  /** What an event says was already there, is there. */
  predicate Past(f: Factory, e: Event) {
    && (Replay.LinkedBy(Bare(e)).Some? ==> Replay.LinkedBy(Bare(e)).value in f.campaigns)
    && (e.RefundApproved? ==> e.proposal <= f.refundCounter)
    && (e.FlagConfirmed? ==> e.proposal <= f.flagCounter)
    && (e.ReleaseConfirmed? ==> e.proposal <= f.releaseCounter)
  }

  /** What an event introduces, was not there. */
  predicate New(f: Factory, e: Event) {
    && !Replay.AnnouncesPending(Bare(e))
    && (e.CampaignCreated? ==> e.campaign !in f.campaigns)
    && (e.RefundProposed? ==> e.proposal > f.refundCounter)
    && (e.FlagProposed? ==> e.proposal > f.flagCounter)
    && (e.ReleaseProposed? ==> e.proposal > f.releaseCounter)
  }

  predicate Grows(f: Factory, g: Factory) {
    && f.campaigns.Keys <= g.campaigns.Keys && f.refundCounter <= g.refundCounter
    && f.flagCounter <= g.flagCounter && f.releaseCounter <= g.releaseCounter
  }

  predicate NoneInverted(events: seq<Event>) {
    forall i, j | 0 <= i < j < |events| :: !Replay.Inverted(Bare(events[i]), Bare(events[j]))
  }

  /** What one transaction's block of events keeps. */
  ghost predicate GoodBlock(f: Factory, o: Outcome) {
    && Counted(o.factory) && Grows(f, o.factory) && NoneInverted(o.events)
    && (forall i | 0 <= i < |o.events| :: New(f, o.events[i]) && Past(o.factory, o.events[i]))
  }

  lemma Blocks(f: Factory, tx: Tx)
    requires Counted(f)
    ensures GoodBlock(f, Exec(f, tx))
  {
    hide GoodBlock;
    match tx.call
    case CreateCampaign(creator, goal, deadline, plans) => CreateBlock(f, creator, goal, deadline, plans, tx);
    case ProposeFlag(c, reason) => ProposeFlagBlock(f, c, reason, tx);
    case ConfirmFlag(c) => ConfirmFlagBlock(f, c, tx);
    case Unflag(c) => StatusBlock(f, c, tx);
    case Cancel(c) => StatusBlock(f, c, tx);
    case CheckDeadline(c) => DeadlineBlock(f, c, tx);
    case Expire(c) => StatusBlock(f, c, tx);
    case Contribute(c, amount) => ContributeBlock(f, c, amount, tx);
    case Submit(m, proof) => SubmitBlock(f, m, proof, tx);
    case VoteOn(m, approve) => VoteBlock(f, m, approve, tx);
    case Finalize(m) => FinalizeBlock(f, m, tx);
    case ProposeRelease(m) => ProposeReleaseBlock(f, m, tx);
    case ConfirmRelease(m) => ConfirmReleaseBlock(f, m, tx);
    case ProposeRefund(c) => ProposeRefundBlock(f, c, tx);
    case ApproveRefund(c) => ApproveRefundBlock(f, c, tx);
    case ClaimRefund(c) => ClaimBlock(f, c, tx);
  }

  lemma CreateBlock(f: Factory, creator: Wallet, goal: nat, deadline: nat, plans: seq<Plan>, tx: Tx)
    requires Counted(f)
    ensures GoodBlock(f, DoCreate(f, creator, goal, deadline, plans, tx))
  {
    var o := DoCreate(f, creator, goal, deadline, plans, tx);
    CreateShape(f, creator, goal, deadline, plans, tx);
    hide CampaignFactory.DoCreate;
    if o.ok {
      assert o.factory.campaigns.Keys == f.campaigns.Keys + {f.campaignCounter + 1};
    }
  }

  lemma CreateShape(f: Factory, creator: Wallet, goal: nat, deadline: nat, plans: seq<Plan>, tx: Tx)
    ensures var o, c := DoCreate(f, creator, goal, deadline, plans, tx), f.campaignCounter + 1;
      if !o.ok then o == Revert(f)
      else
        && c in o.factory.campaigns && o.factory.campaigns == f.campaigns[c := o.factory.campaigns[c]]
        && o.factory.campaignCounter == c
        && o.factory.refundProposals == f.refundProposals && o.factory.refundCounter == f.refundCounter
        && o.factory.flagProposals == f.flagProposals && o.factory.flagCounter == f.flagCounter
        && o.factory.releaseProposals == f.releaseProposals && o.factory.releaseCounter == f.releaseCounter
        && o.factory.releaseProposal == f.releaseProposal
        && o.factory.campaigns[c].flagProposal == 0 && o.factory.campaigns[c].refundProposal == 0
        && o.events == [CampaignCreated(c), CampaignApproved(c), Changed(c, Active)]
  {
    hide CampaignFactory.SumPlans;
  }

  lemma ProposeFlagBlock(f: Factory, c: nat, reason: string, tx: Tx)
    requires Counted(f)
    ensures GoodBlock(f, DoProposeFlag(f, c, reason, tx))
  {
  }

  lemma ConfirmFlagBlock(f: Factory, c: nat, tx: Tx)
    requires Counted(f)
    ensures GoodBlock(f, DoConfirmFlag(f, c, tx))
  {
    ConfirmFlagGrows(f, c, tx);
    hide Grows;
    hide Counted;
  }

  lemma ConfirmFlagGrows(f: Factory, c: nat, tx: Tx)
    requires Counted(f)
    ensures Counted(DoConfirmFlag(f, c, tx).factory) && Grows(f, DoConfirmFlag(f, c, tx).factory)
  {
  }

  lemma StatusBlock(f: Factory, c: nat, tx: Tx)
    requires Counted(f)
    ensures GoodBlock(f, DoUnflag(f, c)) && GoodBlock(f, DoCancel(f, c)) && GoodBlock(f, DoExpire(f, c, tx))
  {
    hide GoodBlock;
    UnflagBlock(f, c);
    CancelBlock(f, c);
    ExpireBlock(f, c, tx);
  }

  /** A change of one campaign row, told by events about that campaign. */
  lemma RowBlock(f: Factory, o: Outcome, c: nat)
    requires Counted(f) && c in f.campaigns && c in o.factory.campaigns && o.factory == Put(f, c, o.factory.campaigns[c])
    requires forall i | 0 <= i < |o.events| ::
      o.events[i].CampaignUnflagged? || o.events[i].CampaignCancelled? || o.events[i].CampaignStatusChanged?
    requires forall i | 0 <= i < |o.events| :: Replay.LinkedBy(Bare(o.events[i])) == Some(c)
    requires forall i | 0 <= i < |o.events| :: !Replay.AnnouncesPending(Bare(o.events[i]))
    ensures GoodBlock(f, o)
  {
    assert o.factory.campaigns.Keys == f.campaigns.Keys;
  }

  lemma RevertBlock(f: Factory)
    requires Counted(f)
    ensures GoodBlock(f, Revert(f))
  {
  }

  lemma UnflagBlock(f: Factory, c: nat)
    requires Counted(f)
    ensures GoodBlock(f, DoUnflag(f, c))
  {
    hide GoodBlock;
    hide Counted;
    RevertBlock(f);
    if DoUnflag(f, c).ok { RowBlock(f, DoUnflag(f, c), c); }
  }

  lemma CancelBlock(f: Factory, c: nat)
    requires Counted(f)
    ensures GoodBlock(f, DoCancel(f, c))
  {
    hide GoodBlock;
    hide Counted;
    RevertBlock(f);
    if DoCancel(f, c).ok { RowBlock(f, DoCancel(f, c), c); }
  }

  lemma ExpireBlock(f: Factory, c: nat, tx: Tx)
    requires Counted(f)
    ensures GoodBlock(f, DoExpire(f, c, tx))
  {
    hide GoodBlock;
    hide Counted;
    RevertBlock(f);
    if DoExpire(f, c, tx).ok { RowBlock(f, DoExpire(f, c, tx), c); }
  }

  lemma DeadlineBlock(f: Factory, c: nat, tx: Tx)
    requires Counted(f)
    ensures GoodBlock(f, DoCheckDeadline(f, c, tx))
  {
    hide GoodBlock;
    hide Counted;
    RevertBlock(f);
    if DoCheckDeadline(f, c, tx).ok { RowBlock(f, DoCheckDeadline(f, c, tx), c); }
  }

  lemma ContributeBlock(f: Factory, c: nat, amount: nat, tx: Tx)
    requires Counted(f)
    ensures GoodBlock(f, DoContribute(f, c, amount, tx))
  {
    ContributeShape(f, c, amount, tx);
    hide CampaignFactory.DoContribute;
  }

  lemma ContributeShape(f: Factory, c: nat, amount: nat, tx: Tx)
    ensures var o := DoContribute(f, c, amount, tx);
      if !o.ok then o == Revert(f)
      else
        && c in f.campaigns && c in o.factory.campaigns
        && o.factory == Put(f, c, o.factory.campaigns[c])
        && var made := ContributionMade(c, tx.sender, amount);
           (o.events == [made] || o.events == [Changed(c, Funded), made])
  {
  }

  lemma SubmitBlock(f: Factory, m: nat, proof: string, tx: Tx)
    requires Counted(f)
    ensures GoodBlock(f, DoSubmit(f, m, proof, tx))
  {
    hide CampaignFactory.PreviousDone;
  }

  lemma VoteBlock(f: Factory, m: nat, approve: bool, tx: Tx)
    requires Counted(f)
    ensures GoodBlock(f, DoVote(f, m, approve, tx))
  {
  }

  lemma FinalizeBlock(f: Factory, m: nat, tx: Tx)
    requires Counted(f)
    ensures GoodBlock(f, DoFinalize(f, m, tx))
  {
    hide CampaignFactory.AllMilestones;
    hide CampaignFactory.Passed;
    FinalizeGrows(f, m, tx);
    hide Grows;
    hide Counted;
  }

  lemma FinalizeGrows(f: Factory, m: nat, tx: Tx)
    requires Counted(f)
    ensures Counted(DoFinalize(f, m, tx).factory) && Grows(f, DoFinalize(f, m, tx).factory)
  {
    hide CampaignFactory.AllMilestones;
    hide CampaignFactory.Passed;
    hide CampaignFactory.Put;
    hide CampaignFactory.PutMilestone;
    hide Counted;
    hide Grows;
    NothingGrows(f);
    if Known(f, m) {
      var milestone := f.milestones[m];
      var row := f.campaigns[milestone.campaign];
      var g := PutMilestone(f, m, milestone.(state := if Passed(milestone) then Approved else Rejected));
      MilestoneGrows(f, m, milestone.(state := if Passed(milestone) then Approved else Rejected));
      RowGrows(f, g, milestone.campaign, row.(status := Cancelled, fundsReclaimed := true));
      RowGrows(f, g, milestone.campaign, row.(status := Completed));
    }
  }

  lemma NothingGrows(f: Factory)
    ensures Grows(f, f)
  {
  }

  lemma MilestoneGrows(f: Factory, m: nat, milestone: Milestone)
    requires Counted(f)
    ensures Counted(PutMilestone(f, m, milestone)) && Grows(f, PutMilestone(f, m, milestone))
  {
  }

  lemma RowGrows(f: Factory, g: Factory, c: nat, row: Campaign)
    requires Counted(g) && Grows(f, g) && c in f.campaigns
    ensures Counted(Put(g, c, row)) && Grows(f, Put(g, c, row))
  {
  }

  lemma ProposeReleaseBlock(f: Factory, m: nat, tx: Tx)
    requires Counted(f)
    ensures GoodBlock(f, DoProposeRelease(f, m, tx))
  {
  }

  lemma ConfirmReleaseBlock(f: Factory, m: nat, tx: Tx)
    requires Counted(f)
    ensures GoodBlock(f, DoConfirmRelease(f, m, tx))
  {
    hide CampaignFactory.AllMilestones;
  }

  lemma ProposeRefundBlock(f: Factory, c: nat, tx: Tx)
    requires Counted(f)
    ensures GoodBlock(f, DoProposeRefund(f, c, tx))
  {
  }

  lemma ApproveRefundBlock(f: Factory, c: nat, tx: Tx)
    requires Counted(f)
    ensures GoodBlock(f, DoApproveRefund(f, c, tx))
  {
  }

  lemma ClaimBlock(f: Factory, c: nat, tx: Tx)
    requires Counted(f)
    ensures GoodBlock(f, DoClaimRefund(f, c, tx))
  {
    hide CampaignFactory.RefundOf;
  }

  // ---- Whole runs ---------------------------------------------------------------------

  /** What a run has told so far, seen from the storage it reached. */
  ghost predicate Told(f: Factory, events: seq<Event>) {
    && Counted(f)
    && (forall i | 0 <= i < |events| :: Past(f, events[i]) && !Replay.AnnouncesPending(Bare(events[i])))
    && (NoReturn(events) ==> NoneInverted(events))
  }

  lemma OldThenNew(f: Factory, x: Event, y: Event)
    requires Past(f, x) && New(f, y) && !ClaimBefore(x, y)
    ensures !Replay.Inverted(Bare(x), Bare(y))
  {
  }

  lemma PastStays(f: Factory, g: Factory, e: Event)
    requires Past(f, e) && Grows(f, g)
    ensures Past(g, e)
  {
  }

  lemma ToldStep(f: Factory, events: seq<Event>, o: Outcome)
    requires Told(f, events) && GoodBlock(f, o)
    ensures Told(o.factory, events + o.events)
  {
    hide Past;
    hide New;
    hide Counted;
    hide Grows;
    hide ClaimBefore;
    hide Replay.Inverted;
    hide Replay.AnnouncesPending;
    var all, n := events + o.events, |events|;
    forall i | 0 <= i < |all|
      ensures Past(o.factory, all[i]) && !Replay.AnnouncesPending(Bare(all[i]))
    {
      if i < n {
        assert all[i] == events[i];
        PastStays(f, o.factory, events[i]);
      } else {
        assert all[i] == o.events[i - n];
        NewNotPending(f, all[i]);
      }
    }
    if NoReturn(all) {
      assert forall i | 0 <= i < n :: events[i] == all[i];
      assert NoReturn(events);
      forall i, j | 0 <= i < j < |all|
        ensures !Replay.Inverted(Bare(all[i]), Bare(all[j]))
      {
        assert !ClaimBefore(all[i], all[j]);
        if j < n {
          assert all[i] == events[i] && all[j] == events[j];
        } else if i < n {
          assert all[i] == events[i] && all[j] == o.events[j - n];
          OldThenNew(f, all[i], all[j]);
        } else {
          assert all[i] == o.events[i - n] && all[j] == o.events[j - n];
        }
      }
    }
  }

  lemma NewNotPending(f: Factory, e: Event)
    requires New(f, e)
    ensures !Replay.AnnouncesPending(Bare(e))
  {
  }

  lemma {:induction false} RunTold(txs: seq<Tx>)
    ensures Told(After(Empty(), txs), Emitted(Empty(), txs))
  {
    hide CampaignFactory.Exec;
    if txs != [] {
      RunTold(Front(txs));
      var f := After(Empty(), Front(txs));
      Blocks(f, Last(txs));
      ToldStep(f, Emitted(Empty(), Front(txs)), Exec(f, Last(txs)));
    }
  }

  lemma ReturnInverts(x: Event, y: Event)
    requires ClaimBefore(x, y)
    ensures Replay.Inverted(Bare(x), Bare(y))
  {
  }

  /** The log of a run of the contract keeps the order that replay needs, unless and only
      unless somebody contributes to a campaign again after claiming a refund from it. */
  lemma RunsAreWellOrdered(txs: seq<Tx>, logs: seq<Log>)
    requires Carries(logs, Emitted(Empty(), txs))
    ensures Replay.WellOrdered(logs) <==> NoReturn(Emitted(Empty(), txs))
  {
    hide Replay.Inverted;
    hide Replay.AnnouncesPending;
    hide ClaimBefore;
    var events := Emitted(Empty(), txs);
    RunTold(txs);
    forall i, j | 0 <= i < j < |logs|
      ensures Replay.Inverted(logs[i], logs[j]) <==> Replay.Inverted(Bare(events[i]), Bare(events[j]))
      ensures ClaimBefore(events[i], events[j]) ==> Replay.Inverted(logs[i], logs[j])
    {
      EventsDecide(logs[i], logs[j]);
      if ClaimBefore(events[i], events[j]) { ReturnInverts(events[i], events[j]); }
    }
    forall i | 0 <= i < |logs|
      ensures !Replay.AnnouncesPending(logs[i])
    {
      EventsDecide(logs[i], logs[i]);
    }
  }

  /** Replay convergence for the logs of the contract itself: no condition on the log is
      left but that nobody contributes again after a refund. */
  lemma ContractReplayConverges(txs: seq<Tx>, blocks: Polling.Blocks, states: seq<Polling.Indexer>, steps: seq<Polling.Step>)
    requires Carries(Polling.Range(blocks, 0, |blocks|), Emitted(Empty(), txs)) && NoReturn(Emitted(Empty(), txs))
    requires Polling.Run(blocks, states, steps)
    requires Database.Valid(states[0].db) && states[0].next <= |blocks|
    requires forall i | 0 <= i < |steps| :: steps[i].end < states[|steps|].next
    ensures states[0].next <= states[|steps|].next <= |blocks|
    ensures Database.Core(states[|steps|].db)
         == Database.Core(Database.Fold(states[0].db, Polling.Range(blocks, states[0].next, states[|steps|].next)))
  {
    RunsAreWellOrdered(txs, Polling.Range(blocks, 0, |blocks|));
    Polling.RangeWellOrdered(blocks, 0, states[0].next, |blocks|);
    Polling.ReplayConverges(blocks, states, steps);
  }

  // ---- The exception is reachable -----------------------------------------------------

  lemma {:induction false} AfterConcat(f: Factory, p: seq<Tx>, q: seq<Tx>)
    ensures After(f, p + q) == After(After(f, p), q)
    ensures Emitted(f, p + q) == Emitted(f, p) + Emitted(After(f, p), q)
  {
    hide CampaignFactory.Exec;
    if q == [] {
      assert p + q == p;
    } else {
      assert Front(p + q) == p + Front(q) && Last(p + q) == Last(q);
      AfterConcat(f, p, Front(q));
    }
  }

  /** The events of a list of transactions, from its k-th one on. */
  lemma RunFrom(f: Factory, txs: seq<Tx>, k: nat)
    requires k <= |txs|
    ensures Emitted(f, txs[k..])
         == if k == |txs| then [] else Exec(f, txs[k]).events + Emitted(Exec(f, txs[k]).factory, txs[k + 1..])
  {
    hide CampaignFactory.Exec;
    if k < |txs| {
      assert txs[k..] == [txs[k]] + txs[k + 1..];
      AfterConcat(f, [txs[k]], txs[k + 1..]);
      assert Front([txs[k]]) == [] && After(f, []) == f && Emitted(f, []) == [];
    }
  }

  lemma RunFromTwo(f: Factory, txs: seq<Tx>, k: nat)
    requires k + 2 <= |txs|
    ensures var g := Exec(f, txs[k]).factory;
      Emitted(f, txs[k..])
      == Exec(f, txs[k]).events + Exec(g, txs[k + 1]).events + Emitted(Exec(g, txs[k + 1]).factory, txs[k + 2..])
  {
    hide CampaignFactory.Exec;
    hide CampaignFactory.Emitted;
    RunFrom(f, txs, k);
    RunFrom(Exec(f, txs[k]).factory, txs, k + 1);
  }

  const CREATION := Tx(CreateCampaign("c", 1_000, 100, [Plan(1_000, 50)]), "c", 0)
  const FIRST_STAKE := Tx(Contribute(1, 100), "u", 1)
  const FLAG := Tx(ProposeFlag(1, ""), "a", 2)
  const FLAG_AGAIN := Tx(ConfirmFlag(1), "b", 3)
  const REFUND := Tx(ProposeRefund(1), "a", 4)
  const UNFLAG := Tx(Unflag(1), "a", 5)
  const REFUND_AGAIN := Tx(ApproveRefund(1), "b", 6)
  const CLAIM := Tx(ClaimRefund(1), "u", 7)
  const SECOND_STAKE := Tx(Contribute(1, 100), "u", 8)

  /** A refund proposed while the campaign was flagged may be approved after it was
      unflagged; the campaign is then active, and so open to contributions. */
  function ReturnRun(): seq<Tx> {
    [CREATION, FIRST_STAKE, FLAG, FLAG_AGAIN, REFUND, UNFLAG, REFUND_AGAIN, CLAIM, SECOND_STAKE]
  }

  /** What the run needs to know of campaign 1 and its proposals between transactions. */
  predicate Stands(f: Factory, status: Status, stake: nat, flags: seq<Proposal>, refunds: seq<Proposal>, reclaimed: bool) {
    && 1 in f.campaigns && f.flagCounter == |flags| <= 1 && f.refundCounter == |refunds| <= 1
    && var c := f.campaigns[1];
       && c.status == status && c.deadline == 100 && c.goal == 1_000
       && Stake(c, "u") == stake && c.withdrawn == 0 && c.fundsReclaimed == reclaimed
       && c.flagProposal == |flags| && c.refundProposal == |refunds|
       && (flags != [] ==> 1 in f.flagProposals && f.flagProposals[1] == flags[0])
       && (refunds != [] ==> 1 in f.refundProposals && f.refundProposals[1] == refunds[0])
       && c.raised == 100
  }

  lemma Opening(f: Factory, g: Factory)
    requires f == Exec(Empty(), CREATION).factory && g == Exec(f, FIRST_STAKE).factory
    ensures Stands(g, Active, 100, [], [], false)
    ensures Exec(Empty(), CREATION).events == [CampaignCreated(1), CampaignApproved(1), Changed(1, Active)]
    ensures Exec(f, FIRST_STAKE).events == [ContributionMade(1, "u", 100)]
  {
    assert Front(CREATION.call.plans) == [];
    assert SumPlans([]) == 0;
    assert SumPlans(CREATION.call.plans) == 1_000;
    hide CampaignFactory.SumPlans;
  }

  lemma Flagging(f: Factory, g: Factory)
    requires Stands(f, Active, 100, [], [], false)
    requires g == Exec(f, FLAG).factory
    ensures Stands(g, Active, 100, [Proposal("a", false)], [], false)
    ensures Stands(Exec(g, FLAG_AGAIN).factory, Flagged, 100, [Proposal("a", true)], [], false)
    ensures Exec(f, FLAG).events == [FlagProposed(1, 1, "a", "")]
    ensures Exec(g, FLAG_AGAIN).events == [FlagConfirmed(1, 1, "b"), CampaignFlagged(1), Changed(1, Flagged)]
  {
  }

  lemma Unflagging(f: Factory, g: Factory)
    requires Stands(f, Flagged, 100, [Proposal("a", true)], [], false)
    requires g == Exec(f, REFUND).factory
    ensures Stands(Exec(g, UNFLAG).factory, Active, 100, [Proposal("a", true)], [Proposal("a", false)], false)
    ensures Exec(f, REFUND).events == [RefundProposed(1, 1, "a")]
    ensures Exec(g, UNFLAG).events == [CampaignUnflagged(1), Changed(1, Active)]
  {
  }

  lemma Claiming(f: Factory, g: Factory)
    requires Stands(f, Active, 100, [Proposal("a", true)], [Proposal("a", false)], false)
    requires g == Exec(f, REFUND_AGAIN).factory
    ensures Stands(Exec(g, CLAIM).factory, Active, 0, [Proposal("a", true)], [Proposal("a", true)], true)
    ensures Exec(f, REFUND_AGAIN).events == [RefundApproved(1, 1, "b")]
    ensures Exec(g, CLAIM).events == [RefundClaimed(1, "u", 95)]
  {
    assert RefundOf(100, 100, 100) == 95;
  }

  lemma Returning(f: Factory)
    requires Stands(f, Active, 0, [Proposal("a", true)], [Proposal("a", true)], true)
    ensures Exec(f, SECOND_STAKE).events == [ContributionMade(1, "u", 100)]
  {
  }

  lemma UntilStaked() returns (f: Factory)
    ensures Stands(f, Active, 100, [], [], false)
    ensures Emitted(Empty(), ReturnRun())
         == [CampaignCreated(1), CampaignApproved(1), CampaignStatusChanged(1, 1), ContributionMade(1, "u", 100)]
            + Emitted(f, ReturnRun()[2..])
  {
    hide Stands;
    hide CampaignFactory.Exec;
    hide CampaignFactory.Emitted;
    var run, f0 := ReturnRun(), Empty();
    assert run[0..] == run && run[0] == CREATION && run[1] == FIRST_STAKE && |run| == 9;
    hide ReturnRun;
    RunFromTwo(f0, run, 0);
    var f1 := Exec(f0, CREATION).factory;
    f := Exec(f1, FIRST_STAKE).factory;
    Opening(f1, f);
  }

  lemma UntilFlagged(f2: Factory) returns (f: Factory)
    requires Stands(f2, Active, 100, [], [], false)
    ensures Stands(f, Flagged, 100, [Proposal("a", true)], [], false)
    ensures Emitted(f2, ReturnRun()[2..])
         == [FlagProposed(1, 1, "a", ""), FlagConfirmed(1, 1, "b"), CampaignFlagged(1), CampaignStatusChanged(1, 5)]
            + Emitted(f, ReturnRun()[4..])
  {
    hide Stands;
    hide CampaignFactory.Exec;
    hide CampaignFactory.Emitted;
    var run := ReturnRun();
    assert run[2] == FLAG && run[3] == FLAG_AGAIN && |run| == 9;
    hide ReturnRun;
    RunFromTwo(f2, run, 2);
    var f3 := Exec(f2, FLAG).factory;
    Flagging(f2, f3);
    f := Exec(f3, FLAG_AGAIN).factory;
  }

  lemma FromFlagged(f4: Factory)
    requires Stands(f4, Flagged, 100, [Proposal("a", true)], [], false)
    ensures Emitted(f4, ReturnRun()[4..]) == [
      RefundProposed(1, 1, "a"),
      CampaignUnflagged(1), CampaignStatusChanged(1, 1),
      RefundApproved(1, 1, "b"),
      RefundClaimed(1, "u", 95),
      ContributionMade(1, "u", 100)]
  {
    hide Stands;
    hide CampaignFactory.Exec;
    hide CampaignFactory.Emitted;
    var run := ReturnRun();
    assert run[4] == REFUND && run[5] == UNFLAG && run[6] == REFUND_AGAIN && run[7] == CLAIM && run[8] == SECOND_STAKE;
    assert |run| == 9;
    hide ReturnRun;
    RunFromTwo(f4, run, 4);
    var f5 := Exec(f4, REFUND).factory;
    Unflagging(f4, f5);
    var f6 := Exec(f5, UNFLAG).factory;
    RunFromTwo(f6, run, 6);
    var f7 := Exec(f6, REFUND_AGAIN).factory;
    Claiming(f6, f7);
    var f8 := Exec(f7, CLAIM).factory;
    RunFrom(f8, run, 8);
    Returning(f8);
    RunFrom(Exec(f8, SECOND_STAKE).factory, run, 9);
  }

  /** Claiming a refund and then contributing again is a run of the contract. */
  lemma ReturnIsReachable()
    ensures Emitted(Empty(), ReturnRun()) == [
      CampaignCreated(1), CampaignApproved(1), CampaignStatusChanged(1, 1),
      ContributionMade(1, "u", 100),
      FlagProposed(1, 1, "a", ""),
      FlagConfirmed(1, 1, "b"), CampaignFlagged(1), CampaignStatusChanged(1, 5),
      RefundProposed(1, 1, "a"),
      CampaignUnflagged(1), CampaignStatusChanged(1, 1),
      RefundApproved(1, 1, "b"),
      RefundClaimed(1, "u", 95),
      ContributionMade(1, "u", 100)]
    ensures !NoReturn(Emitted(Empty(), ReturnRun()))
  {
    hide CampaignFactory.Emitted;
    hide Stands;
    var staked := UntilStaked();
    var flagged := UntilFlagged(staked);
    FromFlagged(flagged);
    var events := Emitted(Empty(), ReturnRun());
    assert events[12] == RefundClaimed(1, "u", 95) && events[13] == ContributionMade(1, "u", 100);
    assert ClaimBefore(events[12], events[13]);
  }

  // ---- What a second delivery then does -----------------------------------------------

  /** Once marked refunded, a row stays so whatever is delivered. */
  lemma {:induction false} RefundedStays(db: Database.Db, logs: seq<Log>, hash: int)
    requires hash in db.book.rows && db.book.rows[hash].refunded
    ensures hash in Database.Fold(db, logs).book.rows && Database.Fold(db, logs).book.rows[hash].refunded
  {
    hide Database.Apply;
    if logs != [] {
      RefundedStays(db, Front(logs), hash);
      RefundedStep(Database.Fold(db, Front(logs)), Last(logs), hash);
    }
  }

  lemma RefundedStep(m: Database.Db, log: Log, hash: int)
    requires hash in m.book.rows && m.book.rows[hash].refunded
    ensures hash in Database.Apply(m, log).book.rows && Database.Apply(m, log).book.rows[hash].refunded
  {
    var ops := Database.FundingOps(m.links, log);
    if ops != [] {
      assert ops == [ops[0]];
      Funding.RunOne(m.book, ops[0]);
    }
  }

  /** In any log that ends with the returning contributor's new contribution, one delivery
      leaves that contribution reclaimable and a second marks it refunded, though nobody
      has claimed it. */
  lemma ReturnIsLost(db: Database.Db, logs: seq<Log>, claim: nat)
    requires claim < |logs| - 1 && ClaimBefore(logs[claim].event, Last(logs).event)
    requires Last(logs).event.campaign in Database.Fold(db, Front(logs)).links
    requires Database.Valid(db)
    requires Last(logs).txHash !in db.book.rows
    requires forall i | 0 <= i < |logs| - 1 && logs[i].event.ContributionMade? :: logs[i].txHash != Last(logs).txHash
    ensures var once, hash := Database.Fold(db, logs), Last(logs).txHash;
      && hash in once.book.rows && !once.book.rows[hash].refunded
      && hash in Database.Fold(once, logs).book.rows && Database.Fold(once, logs).book.rows[hash].refunded
  {
    hide Database.Apply;
    var hash, once, first := Last(logs).txHash, Database.Fold(db, logs), Database.Fold(db, Front(logs));
    NotYet(db, Front(logs), hash);
    Database.LinksGrow(db, Front(logs));
    ContributionWrites(first, Last(logs));
    Database.LinksGrow(first, [Last(logs)]);
    assert Front([Last(logs)]) == [] && Database.Fold(first, [Last(logs)]) == once;
    // the second delivery, up to and including the claim
    var before, rest := logs[..claim], logs[claim + 1..];
    var m := Database.Fold(once, before);
    KeptRow(once, before, hash);
    Database.LinksGrow(once, before);
    ClaimMarks(m, logs[claim], hash);
    assert logs == before + [logs[claim]] + rest;
    Database.FoldConcat(once, before + [logs[claim]], rest);
    assert Front(before + [logs[claim]]) == before;
    RefundedStays(Database.Apply(m, logs[claim]), rest, hash);
  }

  lemma {:induction false} NotYet(db: Database.Db, logs: seq<Log>, hash: int)
    requires hash !in db.book.rows
    requires forall i | 0 <= i < |logs| && logs[i].event.ContributionMade? :: logs[i].txHash != hash
    ensures hash !in Database.Fold(db, logs).book.rows
  {
    hide Database.Apply;
    if logs != [] {
      assert Last(logs) == logs[|logs| - 1];
      NotYet(db, Front(logs), hash);
      Ledger.HashStep(Database.Fold(db, Front(logs)), Last(logs), hash);
    }
  }

  lemma KeptRow(db: Database.Db, logs: seq<Log>, hash: int)
    requires hash in db.book.rows
    ensures Funding.KeepsData(db.book, Database.Fold(db, logs).book, hash)
  {
    Ledger.OneRowPerHash(db, logs, hash);
  }

  lemma ContributionWrites(db: Database.Db, log: Log)
    requires log.event.ContributionMade? && log.event.campaign in db.links && log.txHash !in db.book.rows
    ensures var rows := Database.Apply(db, log).book.rows;
      && log.txHash in rows
      && rows[log.txHash] == Funding.Contribution(
           db.links[log.event.campaign], Lower(log.event.contributor), log.event.amount, false)
  {
    Funding.RunOne(db.book, Database.FundingOps(db.links, log)[0]);
  }

  lemma ClaimMarks(db: Database.Db, log: Log, hash: int)
    requires log.event.RefundClaimed? && log.event.campaign in db.links && hash in db.book.rows
    requires Funding.ClaimedBy(db.book.rows[hash], db.links[log.event.campaign], Lower(log.event.contributor))
    ensures var rows := Database.Apply(db, log).book.rows;
      hash in rows && rows[hash].refunded
  {
    Funding.RunOne(db.book, Database.FundingOps(db.links, log)[0]);
  }
}
