/** Milestones are sequential on chain: in every reachable storage each campaign has a
    frontier, with finished milestones before it and untouched ones after it. */
module FactoryStages {
  import opened Common
  import opened Events
  import opened CampaignFactory

  /** Campaigns and milestones refer to each other consistently. */
  ghost predicate Wired(f: Factory) {
    && (forall c | c in f.campaigns :: 1 <= c <= f.campaignCounter)
    && (forall m | m in f.milestones :: 1 <= m <= f.milestoneCounter && f.milestones[m].campaign in f.campaigns)
    && (forall c | c in f.campaigns :: ListWired(f, c))
  }

  ghost predicate ListWired(f: Factory, c: nat)
    requires c in f.campaigns
  {
    var ids := f.campaigns[c].milestones;
    && (forall i | 0 <= i < |ids| :: ids[i] in f.milestones && f.milestones[ids[i]].campaign == c)
    && (forall i, j | 0 <= i < j < |ids| :: ids[i] != ids[j])
    && (forall m | m in f.milestones && f.milestones[m].campaign == c :: m in ids)
  }

  /** A milestone that has left its initial state has only finished ones before it. */
  ghost predicate InOrder(f: Factory, c: nat)
    requires c in f.campaigns && ListWired(f, c)
  {
    var ids := f.campaigns[c].milestones;
    forall i, j | 0 <= i < j < |ids| :: f.milestones[ids[j]].state != Waiting ==> f.milestones[ids[i]].state == Done
  }

  ghost predicate Sequential(f: Factory) {
    Wired(f) && forall c | c in f.campaigns :: InOrder(f, c)
  }

  /** The same campaigns and milestones, listed the same way. */
  ghost predicate SameWiring(f: Factory, g: Factory) {
    && f.campaigns.Keys == g.campaigns.Keys && f.milestones.Keys == g.milestones.Keys
    && f.campaignCounter == g.campaignCounter && f.milestoneCounter == g.milestoneCounter
    && (forall c | c in f.campaigns :: g.campaigns[c].milestones == f.campaigns[c].milestones)
    && (forall m | m in f.milestones :: g.milestones[m].campaign == f.milestones[m].campaign)
  }

  ghost predicate SameStatesBut(f: Factory, g: Factory, m: nat) {
    forall n | n in f.milestones && n in g.milestones && n != m :: g.milestones[n].state == f.milestones[n].state
  }

  lemma WiredCarries(f: Factory, g: Factory)
    requires Wired(f) && SameWiring(f, g)
    ensures Wired(g)
  {
    forall c | c in g.campaigns
      ensures ListWired(g, c)
    {
      assert ListWired(f, c);
    }
  }

  /** The milestone a transaction moves to another state, if it does. */
  function Moved(tx: Tx): nat {
    match tx.call
    case Submit(m, _) => m
    case Finalize(m) => m
    case ConfirmRelease(m) => m
    case _ => 0
  }

  /** A move to another state keeps the order: it starts from a state that is not final,
      and leaves the initial state only behind a finished milestone. */
  ghost predicate LegalMove(f: Factory, g: Factory, m: nat)
    requires Wired(f)
  {
    && SameWiring(f, g) && SameStatesBut(f, g, m)
    && (m in f.milestones && g.milestones[m].state != f.milestones[m].state ==>
          && g.milestones[m].state != Waiting && f.milestones[m].state != Done
          && (f.milestones[m].state == Waiting ==> PreviousDone(f, m)))
  }

  /** No transaction but a creation changes the wiring, and each moves at most one
      milestone, legally. */
  lemma OneMilestoneMoves(f: Factory, tx: Tx)
    requires Wired(f) && !tx.call.CreateCampaign?
    ensures LegalMove(f, Exec(f, tx).factory, Moved(tx))
  {
    match tx.call
    case Submit(m, proof) => SubmitMoves(f, m, proof, tx);
    case Finalize(m) => FinalizeMoves(f, m, tx);
    case ConfirmRelease(m) => ReleaseMoves(f, m, tx);
    case VoteOn(m, approve) => VoteStays(f, m, approve, tx);
    case _ => CampaignCallStays(f, tx);
  }

  /** Storage in which one milestone and the status columns of one campaign differ. */
  ghost predicate OneRowEach(f: Factory, g: Factory, m: nat, c: nat) {
    && c in f.campaigns && c in g.campaigns && m in f.milestones && m in g.milestones
    && g.campaigns == f.campaigns[c := g.campaigns[c]]
    && g.milestones == f.milestones[m := g.milestones[m]]
    && g.campaigns[c].milestones == f.campaigns[c].milestones
    && g.milestones[m].campaign == f.milestones[m].campaign
    && f.campaignCounter == g.campaignCounter && f.milestoneCounter == g.milestoneCounter
  }

  lemma RowsKeepWiring(f: Factory, g: Factory, m: nat, c: nat)
    requires OneRowEach(f, g, m, c)
    ensures SameWiring(f, g) && SameStatesBut(f, g, m)
  {
  }

  lemma SubmitMoves(f: Factory, m: nat, proof: string, tx: Tx)
    requires Wired(f)
    ensures LegalMove(f, DoSubmit(f, m, proof, tx).factory, m)
  {
    NothingMoves(f, m);
    if DoSubmit(f, m, proof, tx).ok {
      SubmitShape(f, m, proof, tx);
      RowsKeepWiring(f, DoSubmit(f, m, proof, tx).factory, m, f.milestones[m].campaign);
    }
    hide DoSubmit;
    hide SameWiring;
    hide SameStatesBut;
    hide Wired;
  }

  lemma SubmitShape(f: Factory, m: nat, proof: string, tx: Tx)
    requires DoSubmit(f, m, proof, tx).ok
    ensures Known(f, m) && DoSubmit(f, m, proof, tx).factory.campaigns == f.campaigns
    ensures var g := DoSubmit(f, m, proof, tx).factory;
      && OneRowEach(f, g, m, f.milestones[m].campaign) && g.milestones[m].state == Voting
      && (f.milestones[m].state == Waiting || f.milestones[m].state == Rejected) && PreviousDone(f, m)
  {
    hide PreviousDone;
  }

  lemma FinalizeShape(f: Factory, m: nat, tx: Tx)
    requires DoFinalize(f, m, tx).ok
    ensures var g := DoFinalize(f, m, tx).factory;
      && OneRowEach(f, g, m, f.milestones[m].campaign)
      && f.milestones[m].state == Voting && (g.milestones[m].state == Approved || g.milestones[m].state == Rejected)
  {
    hide CampaignFactory.AllMilestones;
    hide CampaignFactory.Passed;
  }

  lemma FinalizeMoves(f: Factory, m: nat, tx: Tx)
    requires Wired(f)
    ensures LegalMove(f, DoFinalize(f, m, tx).factory, m)
  {
    NothingMoves(f, m);
    if DoFinalize(f, m, tx).ok {
      FinalizeShape(f, m, tx);
      RowsKeepWiring(f, DoFinalize(f, m, tx).factory, m, f.milestones[m].campaign);
    }
    hide CampaignFactory.AllMilestones;
    hide SameWiring;
    hide SameStatesBut;
    hide Wired;
  }

  lemma ReleaseShape(f: Factory, m: nat, tx: Tx)
    requires DoConfirmRelease(f, m, tx).ok
    ensures var g := DoConfirmRelease(f, m, tx).factory;
      && OneRowEach(f, g, m, f.milestones[m].campaign)
      && f.milestones[m].state == Approved && g.milestones[m].state == Done
  {
    hide CampaignFactory.AllMilestones;
  }

  lemma ReleaseMoves(f: Factory, m: nat, tx: Tx)
    requires Wired(f)
    ensures LegalMove(f, DoConfirmRelease(f, m, tx).factory, m)
  {
    NothingMoves(f, m);
    if DoConfirmRelease(f, m, tx).ok {
      ReleaseShape(f, m, tx);
      RowsKeepWiring(f, DoConfirmRelease(f, m, tx).factory, m, f.milestones[m].campaign);
    }
    hide CampaignFactory.AllMilestones;
    hide SameWiring;
    hide SameStatesBut;
    hide Wired;
  }

  lemma NothingMoves(f: Factory, m: nat)
    requires Wired(f)
    ensures LegalMove(f, f, m)
  {
  }

  lemma VoteStays(f: Factory, m: nat, approve: bool, tx: Tx)
    requires Wired(f)
    ensures LegalMove(f, DoVote(f, m, approve, tx).factory, 0)
  {
    NothingMoves(f, 0);
    if DoVote(f, m, approve, tx).ok {
      VoteShape(f, m, approve, tx);
      RowsKeepWiring(f, DoVote(f, m, approve, tx).factory, m, f.milestones[m].campaign);
    }
    hide DoVote;
    hide SameWiring;
    hide Wired;
  }

  lemma VoteShape(f: Factory, m: nat, approve: bool, tx: Tx)
    requires DoVote(f, m, approve, tx).ok
    ensures Known(f, m) && DoVote(f, m, approve, tx).factory.campaigns == f.campaigns
    ensures var g := DoVote(f, m, approve, tx).factory;
      OneRowEach(f, g, m, f.milestones[m].campaign) && g.milestones[m].state == f.milestones[m].state
  {
  }

  lemma CampaignRowKeeps(f: Factory, g: Factory, c: nat)
    requires Wired(f) && OneCampaign(f, g, c)
    ensures LegalMove(f, g, 0)
  {
  }

  lemma CampaignCallStays(f: Factory, tx: Tx)
    requires Wired(f) && !tx.call.CreateCampaign?
    requires !tx.call.VoteOn? && !tx.call.Submit? && !tx.call.Finalize? && !tx.call.ConfirmRelease?
    ensures LegalMove(f, Exec(f, tx).factory, 0)
  {
    NothingMoves(f, 0);
    RefusedKeeps(f, tx);
    if tx.call.ProposeRelease? {
      ReleaseProposalStays(f, tx.call.milestone, tx);
      hide DoProposeRelease;
    } else {
      hide CampaignFactory.Exec;
      if Exec(f, tx).ok {
        CampaignRow(f, tx);
        CampaignRowKeeps(f, Exec(f, tx).factory, tx.call.campaign);
      }
    }
  }

  lemma RefusedKeeps(f: Factory, tx: Tx)
    ensures !Exec(f, tx).ok ==> Exec(f, tx).factory == f
  {
    hide CampaignFactory.PreviousDone;
    hide CampaignFactory.AllMilestones;
    hide CampaignFactory.Passed;
    hide CampaignFactory.RefundOf;
    hide CampaignFactory.SumPlans;
  }

  lemma ReleaseProposalStays(f: Factory, m: nat, tx: Tx)
    requires Wired(f)
    ensures LegalMove(f, DoProposeRelease(f, m, tx).factory, 0)
  {
    var g := DoProposeRelease(f, m, tx).factory;
    assert g.campaigns == f.campaigns && g.milestones == f.milestones;
  }

  /** Only one campaign row changes, and not its list of milestones. */
  ghost predicate OneCampaign(f: Factory, g: Factory, c: nat) {
    && c in f.campaigns && c in g.campaigns
    && g.campaigns == f.campaigns[c := g.campaigns[c]] && g.milestones == f.milestones
    && g.campaigns[c].milestones == f.campaigns[c].milestones
    && f.campaignCounter == g.campaignCounter && f.milestoneCounter == g.milestoneCounter
  }

  lemma CampaignRow(f: Factory, tx: Tx)
    requires Exec(f, tx).ok && !tx.call.CreateCampaign?
    requires !tx.call.VoteOn? && !tx.call.Submit? && !tx.call.Finalize? && !tx.call.ConfirmRelease?
    requires !tx.call.ProposeRelease?
    ensures OneCampaign(f, Exec(f, tx).factory, tx.call.campaign)
  {
    if tx.call.Contribute? || tx.call.ProposeRefund? || tx.call.ApproveRefund? || tx.call.ClaimRefund? {
      MoneyRow(f, tx);
    } else {
      StatusRow(f, tx);
    }
    hide OneCampaign;
  }

  lemma MoneyRow(f: Factory, tx: Tx)
    requires Exec(f, tx).ok
    requires tx.call.Contribute? || tx.call.ProposeRefund? || tx.call.ApproveRefund? || tx.call.ClaimRefund?
    ensures OneCampaign(f, Exec(f, tx).factory, tx.call.campaign)
  {
    var c := tx.call.campaign;
    hide OneCampaign;
    if tx.call.Contribute? {
      ContributionRow(f, c, tx.call.amount, tx);
    } else if tx.call.ClaimRefund? {
      ClaimRow(f, c, tx);
    } else {
      RefundRow(f, c, tx);
    }
    hide DoContribute;
    hide DoClaimRefund;
    hide DoProposeRefund;
    hide DoApproveRefund;
  }

  lemma ContributionRow(f: Factory, c: nat, amount: nat, tx: Tx)
    requires DoContribute(f, c, amount, tx).ok
    ensures OneCampaign(f, DoContribute(f, c, amount, tx).factory, c)
  {
  }

  lemma ClaimRow(f: Factory, c: nat, tx: Tx)
    requires DoClaimRefund(f, c, tx).ok
    ensures OneCampaign(f, DoClaimRefund(f, c, tx).factory, c)
  {
    hide CampaignFactory.RefundOf;
  }

  lemma RefundRow(f: Factory, c: nat, tx: Tx)
    ensures DoProposeRefund(f, c, tx).ok ==> OneCampaign(f, DoProposeRefund(f, c, tx).factory, c)
    ensures DoApproveRefund(f, c, tx).ok ==> OneCampaign(f, DoApproveRefund(f, c, tx).factory, c)
  {
  }

  lemma StatusRow(f: Factory, tx: Tx)
    requires Exec(f, tx).ok
    requires tx.call.ProposeFlag? || tx.call.ConfirmFlag? || tx.call.Unflag? || tx.call.Cancel?
          || tx.call.CheckDeadline? || tx.call.Expire?
    ensures OneCampaign(f, Exec(f, tx).factory, tx.call.campaign)
  {
    if tx.call.ProposeFlag? || tx.call.ConfirmFlag? {
      FlagRow(f, tx);
    } else {
      EndingRow(f, tx);
    }
    hide CampaignFactory.Exec;
  }

  lemma FlagRow(f: Factory, tx: Tx)
    requires Exec(f, tx).ok && (tx.call.ProposeFlag? || tx.call.ConfirmFlag?)
    ensures OneCampaign(f, Exec(f, tx).factory, tx.call.campaign)
  {
  }

  lemma EndingRow(f: Factory, tx: Tx)
    requires Exec(f, tx).ok && (tx.call.Unflag? || tx.call.Cancel? || tx.call.CheckDeadline? || tx.call.Expire?)
    ensures OneCampaign(f, Exec(f, tx).factory, tx.call.campaign)
  {
    var row, g := f.campaigns[tx.call.campaign], Exec(f, tx).factory;
    var status, reclaimed := g.campaigns[tx.call.campaign].status, g.campaigns[tx.call.campaign].fundsReclaimed;
    assert g == Put(f, tx.call.campaign, row.(status := status, fundsReclaimed := reclaimed));
  }

  lemma OrderStep(f: Factory, g: Factory, m: nat)
    requires Sequential(f) && LegalMove(f, g, m)
    ensures Sequential(g)
  {
    WiredCarries(f, g);
    forall c | c in g.campaigns
      ensures InOrder(g, c)
    {
      var ids := f.campaigns[c].milestones;
      forall i, j | 0 <= i < j < |ids| && g.milestones[ids[j]].state != Waiting
        ensures g.milestones[ids[i]].state == Done
      {
        OrderPair(f, g, m, c, i, j);
      }
    }
  }

  lemma PositionOf(ids: seq<nat>, j: nat)
    requires j < |ids| && forall a, b | 0 <= a < b < |ids| :: ids[a] != ids[b]
    ensures Position(ids, ids[j]) == j
  {
  }

  lemma OrderPair(f: Factory, g: Factory, m: nat, c: nat, i: nat, j: nat)
    requires Sequential(f) && LegalMove(f, g, m) && c in f.campaigns
    requires i < j < |f.campaigns[c].milestones| && f.campaigns[c].milestones[j] in g.milestones
    requires g.milestones[f.campaigns[c].milestones[j]].state != Waiting
    ensures f.campaigns[c].milestones[i] in g.milestones && g.milestones[f.campaigns[c].milestones[i]].state == Done
  {
    ListFacts(f, c, i, j);
    var ids := f.campaigns[c].milestones;
    PositionOf(ids, j);
    MoveFacts(f, g, m, ids[i]);
    MoveFacts(f, g, m, ids[j]);
    hide Sequential;
    hide LegalMove;
    hide CampaignFactory.Position;
    if f.milestones[ids[j]].state == Waiting {
      assert PreviousDone(f, m);
      ListFacts(f, c, if i < j - 1 then i else 0, if i < j - 1 then j - 1 else j);
    }
  }

  lemma ListFacts(f: Factory, c: nat, i: nat, j: nat)
    requires Sequential(f) && c in f.campaigns && i < j < |f.campaigns[c].milestones|
    ensures var ids := f.campaigns[c].milestones;
      && ids[i] in f.milestones && ids[j] in f.milestones && ids[j - 1] in f.milestones && ids[i] != ids[j]
      && f.milestones[ids[j]].campaign == c
      && (f.milestones[ids[j]].state != Waiting ==> f.milestones[ids[i]].state == Done)
      && (forall a, b | 0 <= a < b < |ids| :: ids[a] != ids[b])
  {
    assert InOrder(f, c) && ListWired(f, c);
  }

  lemma MoveFacts(f: Factory, g: Factory, m: nat, n: nat)
    requires Wired(f) && LegalMove(f, g, m) && n in f.milestones
    ensures n in g.milestones
    ensures g.milestones[n].state != f.milestones[n].state ==>
      && n == m && f.milestones[m].state != Done && (f.milestones[m].state == Waiting ==> PreviousDone(f, m))
  {
    hide CampaignFactory.PreviousDone;
  }

  /** What a creation of n milestones adds. */
  ghost predicate Added(f: Factory, g: Factory, n: nat) {
    var c, first := f.campaignCounter + 1, f.milestoneCounter + 1;
    && g.campaigns.Keys == f.campaigns.Keys + {c} && g.campaignCounter == c
    && g.milestoneCounter == f.milestoneCounter + n
    && (forall d | d in f.campaigns && d != c :: g.campaigns[d] == f.campaigns[d])
    && |g.campaigns[c].milestones| == n
    && (forall i | 0 <= i < n :: g.campaigns[c].milestones[i] == first + i)
    && (forall m | m in f.milestones && m < first :: m in g.milestones && g.milestones[m] == f.milestones[m])
    && (forall m: nat | first <= m < first + n ::
          m in g.milestones && g.milestones[m].state == Waiting && g.milestones[m].campaign == c)
    && (forall m | m in g.milestones :: m in f.milestones || first <= m < first + n)
  }

  lemma CreationShape(f: Factory, tx: Tx)
    requires tx.call.CreateCampaign? && Exec(f, tx).ok
    ensures Added(f, Exec(f, tx).factory, |tx.call.plans|)
  {
    hide CampaignFactory.SumPlans;
    var first, n := f.milestoneCounter + 1, |tx.call.plans|;
    var ids := seq(n, i => first + i);
    forall m: nat | first <= m < first + n
      ensures m in ids
    {
      assert ids[m - first] == m;
    }
  }

  lemma CreationKeepsOrder(f: Factory, tx: Tx)
    requires Sequential(f) && tx.call.CreateCampaign?
    ensures Sequential(Exec(f, tx).factory)
  {
    if Exec(f, tx).ok {
      var g, n := Exec(f, tx).factory, |tx.call.plans|;
      CreationShape(f, tx);
      hide CampaignFactory.Exec;
      AddedWired(f, g, n);
      forall d | d in g.campaigns
        ensures InOrder(g, d)
      {
        AddedInOrder(f, g, n, d);
      }
      hide Added;
      hide InOrder;
    }
  }

  lemma AddedLists(f: Factory, g: Factory, n: nat, d: nat)
    requires Sequential(f) && Added(f, g, n) && d in g.campaigns
    ensures ListWired(g, d) && InOrder(g, d)
  {
    var c, first := f.campaignCounter + 1, f.milestoneCounter + 1;
    assert forall m | m in f.milestones :: f.milestones[m].campaign in f.campaigns && f.milestones[m].campaign != c && m < first;
    if d == c {
      NewListWired(g, c, first);
    } else {
      OldListKept(f, g, d, c, first);
    }
  }

  lemma AddedWired(f: Factory, g: Factory, n: nat)
    requires Sequential(f) && Added(f, g, n)
    ensures Wired(g)
  {
    forall d | d in g.campaigns
      ensures ListWired(g, d)
    {
      AddedLists(f, g, n, d);
    }
    hide ListWired;
  }

  lemma AddedInOrder(f: Factory, g: Factory, n: nat, d: nat)
    requires Sequential(f) && Added(f, g, n) && d in g.campaigns && ListWired(g, d)
    ensures InOrder(g, d)
  {
    AddedLists(f, g, n, d);
  }

  lemma NewListWired(g: Factory, c: nat, first: nat)
    requires c in g.campaigns
    requires forall i | 0 <= i < |g.campaigns[c].milestones| :: g.campaigns[c].milestones[i] == first + i
    requires forall m: nat | first <= m < first + |g.campaigns[c].milestones| ::
      m in g.milestones && g.milestones[m].state == Waiting && g.milestones[m].campaign == c
    requires forall m | m in g.milestones && g.milestones[m].campaign == c ::
      first <= m < first + |g.campaigns[c].milestones|
    ensures ListWired(g, c) && InOrder(g, c)
  {
    var ids := g.campaigns[c].milestones;
    forall m | m in g.milestones && g.milestones[m].campaign == c
      ensures m in ids
    {
      assert ids[m - first] == m;
    }
  }

  lemma OldListKept(f: Factory, g: Factory, d: nat, c: nat, first: nat)
    requires Sequential(f) && d in f.campaigns && d in g.campaigns && g.campaigns[d] == f.campaigns[d] && d != c
    requires forall m | m in f.milestones :: m in g.milestones && g.milestones[m] == f.milestones[m]
    requires forall m | m in g.milestones :: m in f.milestones || g.milestones[m].campaign == c
    ensures ListWired(g, d) && InOrder(g, d)
  {
    assert ListWired(f, d) && InOrder(f, d);
  }

  /** Sequential execution holds in every storage a run of transactions can reach. */
  lemma {:induction false} AlwaysSequential(f: Factory, txs: seq<Tx>)
    requires Sequential(f)
    ensures Sequential(After(f, txs))
  {
    if txs != [] {
      AlwaysSequential(f, Front(txs));
      var g, tx := After(f, Front(txs)), Last(txs);
      if tx.call.CreateCampaign? {
        CreationKeepsOrder(g, tx);
      } else {
        OneMilestoneMoves(g, tx);
        OrderStep(g, Exec(g, tx).factory, Moved(tx));
      }
    }
  }
}
