/** Goals and releases: over every run a campaign has withdrawn exactly the amounts of its
    finished milestones, and is funded or completed only with its goal reached. */
module FactoryGoals {
  import opened Common
  import opened CampaignFactory
  import opened Events
  import Deployment
  import FactoryStages

  function AmountOf(f: Factory, m: nat): nat {
    if m in f.milestones then f.milestones[m].amount else 0
  }

  function FinishedOf(f: Factory, m: nat): nat {
    if m in f.milestones && f.milestones[m].state == Done then f.milestones[m].amount else 0
  }

  /** What the listed milestones are to be paid. */
  function Planned(f: Factory, ids: seq<nat>): nat {
    if ids == [] then 0 else Planned(f, Front(ids)) + AmountOf(f, Last(ids))
  }

  /** What those of them that are finished were paid. */
  function Finished(f: Factory, ids: seq<nat>): nat {
    if ids == [] then 0 else Finished(f, Front(ids)) + FinishedOf(f, Last(ids))
  }

  predicate Succeeded(c: Campaign) {
    c.status == Funded || c.status == Completed
  }

  ghost predicate Balanced(f: Factory, c: nat)
    requires c in f.campaigns
  {
    var campaign := f.campaigns[c];
    && campaign.withdrawn == Finished(f, campaign.milestones) && campaign.goal == Planned(f, campaign.milestones)
    && (Succeeded(campaign) ==> campaign.raised >= campaign.goal)
  }

  ghost predicate OnBudget(f: Factory) {
    forall c | c in f.campaigns :: Balanced(f, c)
  }

  // ---- Calls that finish no milestone -------------------------------------------------

  ghost predicate SameAmounts(f: Factory, g: Factory) {
    forall m | m in f.milestones ::
      m in g.milestones && g.milestones[m].amount == f.milestones[m].amount
      && (g.milestones[m].state == Done <==> f.milestones[m].state == Done)
  }

  ghost predicate SameBudgets(f: Factory, g: Factory) {
    forall c | c in f.campaigns :: c in g.campaigns && SameBudget(f.campaigns[c], g.campaigns[c])
  }

  predicate SameBudget(a: Campaign, b: Campaign) {
    && b.milestones == a.milestones && b.goal == a.goal && b.withdrawn == a.withdrawn && b.raised >= a.raised
    && (Succeeded(b) ==> Succeeded(a) || b.raised >= b.goal)
  }

  ghost predicate Steady(f: Factory, g: Factory) {
    SameAmounts(f, g) && SameBudgets(f, g)
  }

  lemma {:induction false} SumsSame(f: Factory, g: Factory, ids: seq<nat>)
    requires SameAmounts(f, g) && forall i | 0 <= i < |ids| :: ids[i] in f.milestones
    ensures Planned(g, ids) == Planned(f, ids) && Finished(g, ids) == Finished(f, ids)
  {
    if ids != [] {
      assert ids[|ids| - 1] in f.milestones;
      SumsSame(f, g, Front(ids));
    }
  }

  lemma SteadyStaysOnBudget(f: Factory, g: Factory)
    requires FactoryStages.Wired(f) && OnBudget(f) && Steady(f, g) && g.campaigns.Keys == f.campaigns.Keys
    ensures OnBudget(g)
  {
    forall c | c in g.campaigns
      ensures Balanced(g, c)
    {
      assert Balanced(f, c) && FactoryStages.ListWired(f, c);
      SumsSame(f, g, f.campaigns[c].milestones);
    }
  }

  lemma RowSteady(f: Factory, g: Factory, c: nat, row: Campaign)
    requires Steady(f, g) && c in f.campaigns && SameBudget(f.campaigns[c], row)
    ensures Steady(f, Put(g, c, row))
  {
  }

  lemma MilestoneSteady(f: Factory, m: nat, milestone: Milestone)
    requires m in f.milestones && milestone.amount == f.milestones[m].amount
    requires milestone.state == Done <==> f.milestones[m].state == Done
    ensures Steady(f, PutMilestone(f, m, milestone)) && Steady(f, f)
  {
  }

  lemma NothingSteady(f: Factory)
    ensures Steady(f, f)
  {
  }

  lemma FlagsSteady(f: Factory, tx: Tx)
    requires tx.call.ProposeFlag? || tx.call.ConfirmFlag? || tx.call.ProposeRefund? || tx.call.ApproveRefund?
    ensures Steady(f, Exec(f, tx).factory)
  {
  }

  lemma StatusesSteady(f: Factory, tx: Tx)
    requires tx.call.Unflag? || tx.call.Cancel? || tx.call.CheckDeadline? || tx.call.Expire?
    ensures Steady(f, Exec(f, tx).factory)
  {
    hide Steady;
    hide Put;
    NothingSteady(f);
    var c := tx.call.campaign;
    if c in f.campaigns {
      var a := f.campaigns[c];
      RowSteady(f, f, c, a.(status := Active));
      RowSteady(f, f, c, a.(status := Cancelled));
      RowSteady(f, f, c, a.(status := Cancelled, fundsReclaimed := true));
      if a.raised >= a.goal { RowSteady(f, f, c, a.(status := Funded)); }
    }
  }

  lemma PaymentsSteady(f: Factory, tx: Tx)
    requires tx.call.Contribute? || tx.call.ClaimRefund? || tx.call.ProposeRelease?
    ensures Steady(f, Exec(f, tx).factory)
  {
    hide Steady;
    if tx.call.Contribute? {
      ContributionSteady(f, tx.call.campaign, tx.call.amount, tx);
    } else if tx.call.ClaimRefund? {
      ClaimSteady(f, tx.call.campaign, tx);
    } else {
      ReleaseProposalSteady(f, tx.call.milestone, tx);
    }
    hide DoContribute;
    hide DoClaimRefund;
    hide DoProposeRelease;
  }

  lemma ContributionSteady(f: Factory, c: nat, amount: nat, tx: Tx)
    ensures Steady(f, DoContribute(f, c, amount, tx).factory)
  {
    hide Steady;
    hide Put;
    NothingSteady(f);
    if c in f.campaigns {
      var a := f.campaigns[c];
      var more := a.(raised := a.raised + amount, stakes := a.stakes[tx.sender := Stake(a, tx.sender) + amount]);
      RowSteady(f, f, c, more);
      if more.raised >= a.goal { RowSteady(f, f, c, more.(status := Funded)); }
    }
  }

  lemma ClaimSteady(f: Factory, c: nat, tx: Tx)
    ensures Steady(f, DoClaimRefund(f, c, tx).factory)
  {
    hide RefundOf;
  }

  lemma ReleaseProposalSteady(f: Factory, m: nat, tx: Tx)
    ensures Steady(f, DoProposeRelease(f, m, tx).factory)
  {
  }

  lemma VotesSteady(f: Factory, tx: Tx)
    requires tx.call.Submit? || tx.call.VoteOn?
    ensures Steady(f, Exec(f, tx).factory)
  {
    hide Steady;
    if tx.call.Submit? {
      SubmissionSteady(f, tx.call.milestone, tx.call.proof, tx);
    } else {
      BallotSteady(f, tx.call.milestone, tx.call.approve, tx);
    }
    hide DoSubmit;
    hide DoVote;
  }

  lemma SubmissionSteady(f: Factory, m: nat, proof: string, tx: Tx)
    ensures Steady(f, DoSubmit(f, m, proof, tx).factory)
  {
    hide PreviousDone;
  }

  lemma BallotSteady(f: Factory, m: nat, approve: bool, tx: Tx)
    ensures Steady(f, DoVote(f, m, approve, tx).factory)
  {
  }

  lemma FinalizeSteady(f: Factory, m: nat, tx: Tx)
    ensures Steady(f, DoFinalize(f, m, tx).factory)
  {
    hide AllMilestones;
    hide Passed;
    hide Put;
    hide PutMilestone;
    hide Steady;
    NothingSteady(f);
    if Known(f, m) && f.milestones[m].state == Voting {
      var milestone := f.milestones[m];
      var c := milestone.campaign;
      var decided := milestone.(state := if Passed(milestone) then Approved else Rejected);
      MilestoneSteady(f, m, decided);
      RowSteady(f, PutMilestone(f, m, decided), c, f.campaigns[c].(status := Cancelled, fundsReclaimed := true));
      if f.campaigns[c].status == Funded {
        RowSteady(f, PutMilestone(f, m, decided), c, f.campaigns[c].(status := Completed));
      }
    }
  }

  // ---- A release ----------------------------------------------------------------------

  /** One milestone is finished and paid to its campaign, which it may complete. */
  ghost predicate PaysOut(f: Factory, g: Factory, m: nat) {
    && Known(f, m) && f.milestones[m].state == Approved
    && var c, milestone := f.milestones[m].campaign, f.milestones[m];
       && c in g.campaigns && g.campaigns == f.campaigns[c := g.campaigns[c]]
       && g.milestones == f.milestones[m := milestone.(state := Done)]
       && var a, b := f.campaigns[c], g.campaigns[c];
          && b == a.(status := b.status, withdrawn := a.withdrawn + milestone.amount)
          && a.withdrawn + milestone.amount <= a.raised
          && (b.status != a.status ==>
                b.status == Completed
                && forall i | 0 <= i < |a.milestones| ::
                     a.milestones[i] in g.milestones && g.milestones[a.milestones[i]].state == Done)
  }

  lemma ReleasePaysOut(f: Factory, m: nat, tx: Tx)
    requires DoConfirmRelease(f, m, tx).ok
    ensures PaysOut(f, DoConfirmRelease(f, m, tx).factory, m)
  {
  }

  lemma {:induction false} OneFinished(f: Factory, g: Factory, ids: seq<nat>, m: nat)
    requires m in f.milestones && f.milestones[m].state != Done
    requires g.milestones == f.milestones[m := f.milestones[m].(state := Done)]
    requires forall i, j | 0 <= i < j < |ids| :: ids[i] != ids[j]
    ensures Planned(g, ids) == Planned(f, ids)
    ensures Finished(g, ids) == Finished(f, ids) + if m in ids then f.milestones[m].amount else 0
  {
    if ids != [] {
      OneFinished(f, g, Front(ids), m);
      assert ids == Front(ids) + [Last(ids)];
      assert forall i | 0 <= i < |ids| - 1 :: Front(ids)[i] == ids[i] != Last(ids);
    }
  }

  lemma {:induction false} AllFinished(f: Factory, ids: seq<nat>)
    requires forall i | 0 <= i < |ids| :: ids[i] in f.milestones && f.milestones[ids[i]].state == Done
    ensures Finished(f, ids) == Planned(f, ids)
  {
    if ids != [] {
      assert ids[|ids| - 1] in f.milestones;
      AllFinished(f, Front(ids));
    }
  }

  lemma OwnMilestone(f: Factory, m: nat, d: nat)
    requires FactoryStages.Wired(f) && Known(f, m) && d in f.campaigns
    ensures m in f.campaigns[d].milestones <==> f.milestones[m].campaign == d
    ensures forall i, j | 0 <= i < j < |f.campaigns[d].milestones| ::
      f.campaigns[d].milestones[i] != f.campaigns[d].milestones[j]
  {
    assert FactoryStages.ListWired(f, d);
    var ids := f.campaigns[d].milestones;
    if m in ids {
      var i :| 0 <= i < |ids| && ids[i] == m;
      assert f.milestones[ids[i]].campaign == d;
    }
  }

  lemma PaidBalance(f: Factory, g: Factory, m: nat, d: nat)
    requires FactoryStages.Wired(f) && PaysOut(f, g, m) && d in f.campaigns && d in g.campaigns && Balanced(f, d)
    ensures Balanced(g, d)
  {
    var ids := f.campaigns[d].milestones;
    OwnMilestone(f, m, d);
    hide FactoryStages.Wired;
    OneFinished(f, g, ids, m);
    if d == f.milestones[m].campaign && g.campaigns[d].status != f.campaigns[d].status {
      AllFinished(g, ids);
    }
    hide Planned;
    hide Finished;
  }

  lemma ReleaseOnBudget(f: Factory, m: nat, tx: Tx)
    requires FactoryStages.Wired(f) && OnBudget(f) && DoConfirmRelease(f, m, tx).ok
    ensures OnBudget(DoConfirmRelease(f, m, tx).factory)
  {
    ReleasePaysOut(f, m, tx);
    hide DoConfirmRelease;
    var g := DoConfirmRelease(f, m, tx).factory;
    assert g.campaigns.Keys == f.campaigns.Keys;
    hide FactoryStages.Wired;
    forall d | d in g.campaigns
      ensures Balanced(g, d)
    {
      assert Balanced(f, d);
      PaidBalance(f, g, m, d);
    }
    hide Balanced;
  }

  // ---- A creation ---------------------------------------------------------------------

  lemma {:induction false} NewSums(f: Factory, plans: seq<Plan>, ids: seq<nat>)
    requires |ids| == |plans|
    requires forall i | 0 <= i < |ids| ::
      ids[i] in f.milestones && f.milestones[ids[i]].amount == plans[i].amount && f.milestones[ids[i]].state == Waiting
    ensures Planned(f, ids) == SumPlans(plans) && Finished(f, ids) == 0
  {
    if ids != [] {
      var n := |ids| - 1;
      assert ids[n] in f.milestones && f.milestones[ids[n]].amount == plans[n].amount;
      NewSums(f, Front(plans), Front(ids));
    }
  }

  lemma CreationShape(f: Factory, tx: Tx)
    requires tx.call.CreateCampaign? && Exec(f, tx).ok && FactoryStages.Wired(f)
    ensures var g, c := Exec(f, tx).factory, f.campaignCounter + 1;
      && g.campaigns.Keys == f.campaigns.Keys + {c} && c !in f.campaigns
      && SameAmounts(f, g) && (forall d | d in f.campaigns :: g.campaigns[d] == f.campaigns[d])
      && g.campaigns[c].withdrawn == 0 && g.campaigns[c].status == Active
      && g.campaigns[c].goal == SumPlans(tx.call.plans) && |g.campaigns[c].milestones| == |tx.call.plans|
      && forall i | 0 <= i < |tx.call.plans| :: g.campaigns[c].milestones[i] == f.milestoneCounter + 1 + i
  {
    hide SumPlans;
    hide FactoryStages.ListWired;
  }

  lemma NewCampaignBalanced(f: Factory, tx: Tx)
    requires tx.call.CreateCampaign? && Exec(f, tx).ok && FactoryStages.Wired(f)
    ensures var g, c := Exec(f, tx).factory, f.campaignCounter + 1; c in g.campaigns && Balanced(g, c)
  {
    hide Exec;
    hide FactoryStages.Wired;
    CreationShape(f, tx);
    hide SameAmounts;
    var g, c := Exec(f, tx).factory, f.campaignCounter + 1;
    var plans, ids := tx.call.plans, g.campaigns[c].milestones;
    forall i | 0 <= i < |ids|
      ensures ids[i] in g.milestones && g.milestones[ids[i]].amount == plans[i].amount
      ensures g.milestones[ids[i]].state == Waiting
    {
      Deployment.NewMilestone(f, tx, i);
    }
    hide Planned;
    hide Finished;
    hide SumPlans;
    NewSums(g, plans, ids);
  }

  lemma OldCampaignBalanced(f: Factory, g: Factory, d: nat)
    requires FactoryStages.Wired(f) && SameAmounts(f, g) && d in f.campaigns && Balanced(f, d)
    requires d in g.campaigns && g.campaigns[d] == f.campaigns[d]
    ensures Balanced(g, d)
  {
    assert FactoryStages.ListWired(f, d);
    SumsSame(f, g, f.campaigns[d].milestones);
  }

  lemma CreationOnBudget(f: Factory, tx: Tx)
    requires FactoryStages.Wired(f) && OnBudget(f) && tx.call.CreateCampaign? && Exec(f, tx).ok
    ensures OnBudget(Exec(f, tx).factory)
  {
    CreationShape(f, tx);
    NewCampaignBalanced(f, tx);
    hide Exec;
    hide Balanced;
    hide SameAmounts;
    hide FactoryStages.Wired;
    var g, c := Exec(f, tx).factory, f.campaignCounter + 1;
    forall d | d in g.campaigns
      ensures Balanced(g, d)
    {
      if d != c {
        assert Balanced(f, d);
        OldCampaignBalanced(f, g, d);
      }
    }
  }

  // ---- Every run ----------------------------------------------------------------------

  lemma BudgetStep(f: Factory, tx: Tx)
    requires FactoryStages.Wired(f) && OnBudget(f)
    ensures OnBudget(Exec(f, tx).factory)
  {
    hide OnBudget;
    hide Steady;
    FactoryStages.RefusedKeeps(f, tx);
    if !Exec(f, tx).ok {
    } else if tx.call.CreateCampaign? {
      CreationOnBudget(f, tx);
    } else if tx.call.ConfirmRelease? {
      ReleaseOnBudget(f, tx.call.milestone, tx);
    } else {
      if tx.call.ProposeFlag? || tx.call.ConfirmFlag? || tx.call.ProposeRefund? || tx.call.ApproveRefund? {
        FlagsSteady(f, tx);
      } else if tx.call.Unflag? || tx.call.Cancel? || tx.call.CheckDeadline? || tx.call.Expire? {
        StatusesSteady(f, tx);
      } else if tx.call.Contribute? || tx.call.ClaimRefund? || tx.call.ProposeRelease? {
        PaymentsSteady(f, tx);
      } else if tx.call.Finalize? {
        FinalizeSteady(f, tx.call.milestone, tx);
      } else {
        VotesSteady(f, tx);
      }
      FactoryStages.OneMilestoneMoves(f, tx);
      SteadyStaysOnBudget(f, Exec(f, tx).factory);
    }
    hide DoCreate;
    hide DoFinalize;
    hide DoConfirmRelease;
  }

  /** Over every run: each campaign has withdrawn exactly what its finished milestones were
      to be paid, its goal is what all of them are to be paid, and it is funded or completed
      only if it has raised its goal. */
  lemma {:induction false} AlwaysOnBudget(txs: seq<Tx>)
    ensures OnBudget(After(Empty(), txs))
  {
    if txs != [] {
      hide Exec;
      AlwaysOnBudget(Front(txs));
      FactoryStages.AlwaysSequential(Empty(), Front(txs));
      BudgetStep(After(Empty(), Front(txs)), Last(txs));
    }
  }

  // ---- What decides over a campaign ---------------------------------------------------

  /** Until its deadline an active campaign takes contributions, and the one that reaches the
      goal makes it funded; from the deadline on it takes none, and whoever asks makes it
      funded if it has reached its goal and cancelled if not. */
  lemma DeadlineDecides(f: Factory, c: nat, amount: nat, tx: Tx)
    requires c in f.campaigns
    ensures var a, o := f.campaigns[c], DoContribute(f, c, amount, tx);
      && (o.ok <==> a.status == Active && tx.now < a.deadline)
      && (o.ok ==>
            && c in o.factory.campaigns && o.factory.campaigns[c].raised == a.raised + amount
            && Stake(o.factory.campaigns[c], tx.sender) == Stake(a, tx.sender) + amount
            && o.factory.campaigns[c].status == if a.raised + amount >= a.goal then Funded else Active)
    ensures var a, o := f.campaigns[c], DoCheckDeadline(f, c, tx);
      && (o.ok <==> a.status == Active && tx.now >= a.deadline)
      && (o.ok ==>
            && c in o.factory.campaigns
            && o.factory.campaigns[c].status == if a.raised >= a.goal then Funded else Cancelled)
  {
    Contributed(f, c, amount, tx);
    Checked(f, c, tx);
    hide DoContribute;
    hide DoCheckDeadline;
  }

  lemma Contributed(f: Factory, c: nat, amount: nat, tx: Tx)
    requires c in f.campaigns
    ensures var a, o := f.campaigns[c], DoContribute(f, c, amount, tx);
      && (o.ok <==> a.status == Active && tx.now < a.deadline)
      && (o.ok ==>
            && c in o.factory.campaigns && o.factory.campaigns[c].raised == a.raised + amount
            && Stake(o.factory.campaigns[c], tx.sender) == Stake(a, tx.sender) + amount
            && o.factory.campaigns[c].status == if a.raised + amount >= a.goal then Funded else Active)
  {
  }

  lemma Checked(f: Factory, c: nat, tx: Tx)
    requires c in f.campaigns
    ensures var a, o := f.campaigns[c], DoCheckDeadline(f, c, tx);
      && (o.ok <==> a.status == Active && tx.now >= a.deadline)
      && (o.ok ==>
            && c in o.factory.campaigns
            && o.factory.campaigns[c].status == if a.raised >= a.goal then Funded else Cancelled)
  {
  }

  /** Money comes back only from a campaign that is over: a refund is proposed for a flagged
      or cancelled one, or an active one past its deadline, with money left; and a funded one
      past its deadline may be given up, which opens its refunds at once. */
  lemma RefundsOpen(f: Factory, c: nat, tx: Tx)
    requires c in f.campaigns
    ensures var a, o := f.campaigns[c], DoProposeRefund(f, c, tx);
      o.ok <==>
        && (a.status == Flagged || a.status == Cancelled || (a.status == Active && tx.now >= a.deadline))
        && a.withdrawn < a.raised && !Open(f.refundProposals, a.refundProposal)
    ensures var a, o := f.campaigns[c], DoExpire(f, c, tx);
      && (o.ok <==> a.status == Funded && tx.now > a.deadline)
      && (o.ok ==>
            c in o.factory.campaigns && o.factory.campaigns[c].status == Cancelled && o.factory.campaigns[c].fundsReclaimed)
    ensures var a, o := f.campaigns[c], DoClaimRefund(f, c, tx);
      o.ok ==>
        && a.fundsReclaimed && Stake(a, tx.sender) > 0 && a.raised > 0 && a.raised >= a.withdrawn
        && c in o.factory.campaigns && Stake(o.factory.campaigns[c], tx.sender) == 0
        && o.events == [RefundClaimed(c, tx.sender, RefundOf(Stake(a, tx.sender), a.raised - a.withdrawn, a.raised))]
        && o.factory.campaigns[c].paid == a.paid + o.events[0].amount
  {
    hide RefundOf;
  }

  /** A ballot weighs the voter's stake. */
  lemma BallotWeighsStake(f: Factory, m: nat, approve: bool, tx: Tx)
    requires DoVote(f, m, approve, tx).ok
    ensures Known(f, m)
    ensures DoVote(f, m, approve, tx).events
         == [VoteCast(m, tx.sender, approve, Stake(f.campaigns[f.milestones[m].campaign], tx.sender))]
  {
  }

  /** Every milestone of the campaign is in one of these states. */
  ghost predicate AllIn(f: Factory, c: nat, states: set<State>)
    requires c in f.campaigns
  {
    forall i | 0 <= i < |f.campaigns[c].milestones| ::
      var m := f.campaigns[c].milestones[i];
      m in f.milestones && f.milestones[m].state in states
  }

  /** A third rejection gives the campaign up and opens its refunds, unless it is flagged or
      cancelled; the last result of a funded campaign completes it, once nothing can be put
      to a vote any more; no other result changes the campaign. */
  lemma ResultDecides(f: Factory, m: nat, tx: Tx)
    requires DoFinalize(f, m, tx).ok
    ensures Known(f, m)
    ensures var g, c, ms := DoFinalize(f, m, tx).factory, f.milestones[m].campaign, f.milestones[m];
      var a := f.campaigns[c];
      && c in g.campaigns && m in g.milestones
      && var b := g.campaigns[c];
         if g.milestones[m].state == Rejected && ms.submissions >= 3 then
           if a.status == Flagged || a.status == Cancelled then b == a
           else b == a.(status := Cancelled, fundsReclaimed := true)
         else
           b == a.(status := b.status)
           && (b.status == Completed && a.status != Completed <==> a.status == Funded && AllEnded(g, c))
           && (b.status != Completed ==> b.status == a.status)
  {
    hide Passed;
  }

  /** Nothing of the campaign can be put to a vote any more. */
  ghost predicate AllEnded(g: Factory, c: nat)
    requires c in g.campaigns
  {
    forall i | 0 <= i < |g.campaigns[c].milestones| ::
      var n := g.campaigns[c].milestones[i];
      n in g.milestones
      && (|| g.milestones[n].state in {Approved, Done}
          || (g.milestones[n].state == Rejected && g.milestones[n].submissions >= 3))
  }

  /** The release of the last milestone completes the campaign, and no earlier one does. */
  lemma ReleaseDecides(f: Factory, m: nat, tx: Tx)
    requires DoConfirmRelease(f, m, tx).ok
    ensures Known(f, m)
    ensures var g, c := DoConfirmRelease(f, m, tx).factory, f.milestones[m].campaign;
      && c in g.campaigns
      && g.campaigns[c].status == (if AllIn(g, c, {Done}) then Completed else f.campaigns[c].status)
  {
  }
}
