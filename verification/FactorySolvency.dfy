/** Refunds never outrun the money: over every run of the contract each campaign can pay
    its released milestones and every refund it owes, and keeps its fee. */
module FactorySolvency {
  import opened Common
  import opened CampaignFactory

  // ---- Sums of stakes -----------------------------------------------------------------

  ghost function SumOf(stakes: map<Wallet, nat>): nat
    decreases |stakes|
  {
    if forall w: Wallet :: w !in stakes then 0
    else
      var w :| w in stakes;
      stakes[w] + SumOf(stakes - {w})
  }

  lemma {:induction false} SumAt(stakes: map<Wallet, nat>, w: Wallet)
    requires w in stakes
    ensures SumOf(stakes) == stakes[w] + SumOf(stakes - {w})
    decreases |stakes|
  {
    var v :| v in stakes && SumOf(stakes) == stakes[v] + SumOf(stakes - {v});
    if v != w {
      SumAt(stakes - {v}, w);
      SumAt(stakes - {w}, v);
      assert stakes - {v} - {w} == stakes - {w} - {v};
    }
  }

  lemma SumSet(stakes: map<Wallet, nat>, w: Wallet, amount: nat)
    ensures SumOf(stakes[w := amount]) == SumOf(stakes) + amount - (if w in stakes then stakes[w] else 0)
  {
    SumAt(stakes[w := amount], w);
    assert stakes[w := amount] - {w} == stakes - {w};
    if w in stakes {
      SumAt(stakes, w);
    } else {
      assert stakes - {w} == stakes;
    }
  }

  // ---- The invariant ------------------------------------------------------------------

  /** Stakes and claimed stakes make up everything raised; refunds paid so far are at most
      the claimed stakes' 95% share of what the milestones have left. */
  ghost predicate Sound(c: Campaign) {
    && SumOf(c.stakes) + c.claimed == c.raised
    && c.withdrawn <= c.raised
    && (!c.fundsReclaimed ==> c.claimed == 0 && c.paid == 0)
    && 100 * c.paid <= REFUND_PERCENTAGE * c.claimed
    && 100 * (c.paid * c.raised) <= REFUND_PERCENTAGE * (c.claimed * (c.raised - c.withdrawn))
  }

  ghost predicate AllSound(f: Factory) {
    forall c | c in f.campaigns :: Sound(f.campaigns[c])
  }

  /** A refund adds at most the claimed stake's share. */
  lemma ClaimArithmetic(stake: nat, paid: nat, claimed: nat, raised: nat, available: nat, refund: nat)
    requires raised > 0 && available <= raised
    requires 100 * paid <= 95 * claimed && 100 * (paid * raised) <= 95 * (claimed * available)
    requires 100 * (refund * raised) <= 95 * (stake * available)
    ensures 100 * (paid + refund) <= 95 * (claimed + stake)
    ensures 100 * ((paid + refund) * raised) <= 95 * ((claimed + stake) * available)
  {
    Distribute(paid, refund, raised);
    Distribute(claimed, stake, available);
    Monotone(stake, available, raised);
    Scale(100, refund, raised);
    Scale(95, stake, raised);
    Cancel(100 * refund, 95 * stake, raised);
  }

  lemma Distribute(a: nat, b: nat, k: nat)
    ensures (a + b) * k == a * k + b * k
  {
  }

  lemma Scale(s: nat, a: nat, b: nat)
    ensures s * (a * b) == (s * a) * b
  {
  }

  /** The refund formula in the form the invariant uses. */
  lemma RefundBounds(stake: nat, available: nat, raised: nat)
    requires raised > 0
    ensures var refund := RefundOf(stake, available, raised);
      95 * (stake * available) - 100 * raised < 100 * (refund * raised) <= 95 * (stake * available)
  {
    var refund := RefundOf(stake, available, raised);
    FloorAtMost(stake * available * 95, raised * 100);
    Scale(100, refund, raised);
    assert refund * (raised * 100) == 100 * (refund * raised);
  }

  lemma FloorAtMost(amount: nat, parts: nat)
    requires parts > 0
    ensures Floor(amount, parts) * parts <= amount < Floor(amount, parts) * parts + parts
  {
  }

  lemma Monotone(k: nat, a: nat, b: nat)
    requires a <= b
    ensures k * a <= k * b
  {
  }

  lemma Cancel(a: nat, b: nat, k: nat)
    requires k > 0 && a * k <= b * k
    ensures a <= b
  {
    if a > b { Monotone(k, b + 1, a); }
  }

  lemma StrictlyMore(a: nat, b: nat, k: nat)
    requires k > 0 && a * k < b * k
    ensures a < b
  {
    if a >= b { Monotone(k, b, a); }
  }

  lemma ContributionArithmetic(paid: nat, claimed: nat, raised: nat, withdrawn: nat, more: nat)
    requires withdrawn <= raised
    requires 100 * paid <= 95 * claimed && 100 * (paid * raised) <= 95 * (claimed * (raised - withdrawn))
    ensures 100 * (paid * (raised + more)) <= 95 * (claimed * (raised + more - withdrawn))
  {
    Distribute(raised, more, paid);
    Distribute(raised - withdrawn, more, claimed);
    Monotone(more, 100 * paid, 95 * claimed);
  }

  // ---- Every transaction keeps it -----------------------------------------------------

  /** The same money columns, and no withdrawal of a refund approval. */
  ghost predicate SameMoney(a: Campaign, b: Campaign) {
    && a.stakes == b.stakes && a.raised == b.raised && a.withdrawn == b.withdrawn
    && a.claimed == b.claimed && a.paid == b.paid && (a.fundsReclaimed ==> b.fundsReclaimed)
  }

  ghost predicate OtherRowsSame(f: Factory, g: Factory, c: nat) {
    forall d | d in g.campaigns && d != c :: d in f.campaigns && g.campaigns[d] == f.campaigns[d]
  }

  predicate StatusCall(tx: Tx) {
    tx.call.ConfirmFlag? || tx.call.Unflag? || tx.call.Cancel? || tx.call.CheckDeadline? || tx.call.Expire?
  }

  predicate ProposalCall(tx: Tx) {
    tx.call.ProposeFlag? || tx.call.ProposeRefund? || tx.call.ApproveRefund?
  }

  /** A transaction on one campaign leaves every other campaign's row and this one's money. */
  ghost predicate KeepsMoney(f: Factory, g: Factory, c: nat) {
    OtherRowsSame(f, g, c) && (c in g.campaigns ==> c in f.campaigns && SameMoney(f.campaigns[c], g.campaigns[c]))
  }

  lemma StatusCallsKeepMoney(f: Factory, tx: Tx)
    requires StatusCall(tx)
    ensures KeepsMoney(f, Exec(f, tx).factory, tx.call.campaign)
  {
    hide KeepsMoney;
    FlagKeepsMoney(f, tx.call.campaign, tx);
    DeadlineKeepsMoney(f, tx.call.campaign, tx);
    PlainStatusKeepsMoney(f, tx.call.campaign, tx);
  }

  lemma FlagKeepsMoney(f: Factory, c: nat, tx: Tx)
    ensures KeepsMoney(f, DoConfirmFlag(f, c, tx).factory, c)
  {
  }

  /** A row that only takes another status, or has its funds reclaimed. */
  lemma RowKeepsMoney(f: Factory, c: nat, status: Status, reclaimed: bool)
    requires c in f.campaigns && (f.campaigns[c].fundsReclaimed ==> reclaimed)
    ensures KeepsMoney(f, Put(f, c, f.campaigns[c].(status := status, fundsReclaimed := reclaimed)), c)
    ensures KeepsMoney(f, f, c)
  {
  }

  lemma DeadlineKeepsMoney(f: Factory, c: nat, tx: Tx)
    ensures KeepsMoney(f, DoCheckDeadline(f, c, tx).factory, c)
  {
    if c in f.campaigns {
      hide KeepsMoney;
      hide Put;
      var row := f.campaigns[c];
      RowKeepsMoney(f, c, Funded, row.fundsReclaimed);
      RowKeepsMoney(f, c, Status.Cancelled, row.fundsReclaimed);
      assert row.(status := Funded) == row.(status := Funded, fundsReclaimed := row.fundsReclaimed);
      assert row.(status := Status.Cancelled)
          == row.(status := Status.Cancelled, fundsReclaimed := row.fundsReclaimed);
    }
  }

  lemma PlainStatusKeepsMoney(f: Factory, c: nat, tx: Tx)
    ensures KeepsMoney(f, DoUnflag(f, c).factory, c) && KeepsMoney(f, DoCancel(f, c).factory, c)
    ensures KeepsMoney(f, DoExpire(f, c, tx).factory, c)
  {
    if c in f.campaigns {
      hide KeepsMoney;
      hide Put;
      var row := f.campaigns[c];
      RowKeepsMoney(f, c, Active, row.fundsReclaimed);
      RowKeepsMoney(f, c, Status.Cancelled, row.fundsReclaimed);
      RowKeepsMoney(f, c, Status.Cancelled, true);
      assert row.(status := Active) == row.(status := Active, fundsReclaimed := row.fundsReclaimed);
      assert row.(status := Status.Cancelled)
          == row.(status := Status.Cancelled, fundsReclaimed := row.fundsReclaimed);
    }
  }

  lemma ProposalCallsKeepMoney(f: Factory, tx: Tx)
    requires ProposalCall(tx)
    ensures KeepsMoney(f, Exec(f, tx).factory, tx.call.campaign)
  {
    hide KeepsMoney;
    var c := tx.call.campaign;
    FlagProposalKeepsMoney(f, c, if tx.call.ProposeFlag? then tx.call.reason else "", tx);
    RefundProposalKeepsMoney(f, c, tx);
  }

  lemma FlagProposalKeepsMoney(f: Factory, c: nat, reason: string, tx: Tx)
    ensures KeepsMoney(f, DoProposeFlag(f, c, reason, tx).factory, c)
  {
  }

  lemma RefundProposalKeepsMoney(f: Factory, c: nat, tx: Tx)
    ensures KeepsMoney(f, DoProposeRefund(f, c, tx).factory, c)
    ensures KeepsMoney(f, DoApproveRefund(f, c, tx).factory, c)
  {
  }

  lemma MilestoneCallsKeepMoney(f: Factory, tx: Tx, m: nat)
    requires tx.call == Finalize(m) || tx.call.Submit? || tx.call.VoteOn? || tx.call.ProposeRelease?
    ensures KeepsMoney(f, Exec(f, tx).factory, if m in f.milestones then f.milestones[m].campaign else 0)
  {
    if tx.call == Finalize(m) {
      FinalizeKeepsMoney(f, m, tx);
    } else {
      VotingKeepsRows(f, tx);
      hide CampaignFactory.Exec;
    }
  }

  lemma FinalizeKeepsMoney(f: Factory, m: nat, tx: Tx)
    ensures KeepsMoney(f, DoFinalize(f, m, tx).factory, if m in f.milestones then f.milestones[m].campaign else 0)
  {
    hide CampaignFactory.AllMilestones;
    hide CampaignFactory.Passed;
  }

  lemma VotingKeepsRows(f: Factory, tx: Tx)
    requires tx.call.Submit? || tx.call.VoteOn? || tx.call.ProposeRelease?
    ensures Exec(f, tx).factory.campaigns == f.campaigns
  {
    hide CampaignFactory.PreviousDone;
  }

  lemma SameMoneySound(f: Factory, g: Factory, c: nat)
    requires AllSound(f) && KeepsMoney(f, g, c)
    ensures AllSound(g)
  {
    forall d | d in g.campaigns
      ensures Sound(g.campaigns[d])
    {
      assert d in f.campaigns && Sound(f.campaigns[d]);
    }
  }

  lemma CreationSound(f: Factory, tx: Tx)
    requires AllSound(f) && tx.call.CreateCampaign?
    ensures AllSound(Exec(f, tx).factory)
  {
  }

  lemma ContributionRow(a: Campaign, b: Campaign, who: Wallet, amount: nat)
    requires Sound(a)
    requires b.stakes == a.stakes[who := Stake(a, who) + amount] && b.raised == a.raised + amount
    requires b.withdrawn == a.withdrawn && b.claimed == a.claimed && b.paid == a.paid
    requires b.fundsReclaimed == a.fundsReclaimed
    ensures Sound(b)
  {
    SumSet(a.stakes, who, Stake(a, who) + amount);
    ContributionArithmetic(a.paid, a.claimed, a.raised, a.withdrawn, amount);
  }

  /** The columns a contribution writes, and no other row. */
  lemma ContributionShape(f: Factory, c: nat, amount: nat, tx: Tx)
    requires DoContribute(f, c, amount, tx).ok
    ensures var g := DoContribute(f, c, amount, tx).factory;
      && c in f.campaigns && c in g.campaigns && g.campaigns == f.campaigns[c := g.campaigns[c]]
      && var a, b := f.campaigns[c], g.campaigns[c];
         b == a.(status := b.status, raised := a.raised + amount,
                 stakes := a.stakes[tx.sender := Stake(a, tx.sender) + amount])
  {
    hide Stake;
  }

  lemma ContributionSound(f: Factory, c: nat, amount: nat, tx: Tx)
    requires AllSound(f)
    ensures AllSound(DoContribute(f, c, amount, tx).factory)
  {
    if DoContribute(f, c, amount, tx).ok {
      ContributionShape(f, c, amount, tx);
      hide CampaignFactory.DoContribute;
      ContributionRow(f.campaigns[c], DoContribute(f, c, amount, tx).factory.campaigns[c], tx.sender, amount);
      hide Sound;
    }
  }

  lemma ReleaseSound(f: Factory, m: nat, tx: Tx)
    requires AllSound(f)
    ensures AllSound(DoConfirmRelease(f, m, tx).factory)
  {
    if DoConfirmRelease(f, m, tx).ok {
      ReleaseShape(f, m, tx);
      hide CampaignFactory.DoConfirmRelease;
      var c := f.milestones[m].campaign;
      assert Sound(f.campaigns[c]);
      assert Sound(DoConfirmRelease(f, m, tx).factory.campaigns[c]);
    }
  }

  /** The columns a release writes, and no other row. */
  lemma ReleaseShape(f: Factory, m: nat, tx: Tx)
    requires DoConfirmRelease(f, m, tx).ok
    ensures m in f.milestones && f.milestones[m].campaign in f.campaigns
    ensures var g, c, amount := DoConfirmRelease(f, m, tx).factory, f.milestones[m].campaign, f.milestones[m].amount;
      && c in g.campaigns && g.campaigns == f.campaigns[c := g.campaigns[c]]
      && var a, b := f.campaigns[c], g.campaigns[c];
         && !a.fundsReclaimed && a.withdrawn + amount <= a.raised
         && b == a.(status := b.status, withdrawn := a.withdrawn + amount)
  {
    hide CampaignFactory.AllMilestones;
  }

  lemma ClaimSound(f: Factory, c: nat, tx: Tx)
    requires AllSound(f)
    ensures AllSound(DoClaimRefund(f, c, tx).factory)
  {
    if DoClaimRefund(f, c, tx).ok {
      ClaimShape(f, c, tx);
      assert Sound(f.campaigns[c]);
      ClaimRow(f.campaigns[c], tx.sender);
      hide CampaignFactory.DoClaimRefund;
      hide Sound;
    }
  }

  /** The row after a refund claim. */
  function Claimed(a: Campaign, who: Wallet): Campaign
    requires a.raised > 0 && a.raised >= a.withdrawn
  {
    var stake := Stake(a, who);
    a.(stakes := a.stakes[who := 0], claimed := a.claimed + stake,
       paid := a.paid + RefundOf(stake, a.raised - a.withdrawn, a.raised))
  }

  lemma ClaimShape(f: Factory, c: nat, tx: Tx)
    requires DoClaimRefund(f, c, tx).ok
    ensures c in f.campaigns && f.campaigns[c].raised > 0 && f.campaigns[c].raised >= f.campaigns[c].withdrawn
    ensures f.campaigns[c].fundsReclaimed
    ensures DoClaimRefund(f, c, tx).factory.campaigns == f.campaigns[c := Claimed(f.campaigns[c], tx.sender)]
  {
    hide CampaignFactory.RefundOf;
  }

  lemma ClaimRow(a: Campaign, who: Wallet)
    requires Sound(a) && a.raised > 0 && a.fundsReclaimed
    ensures Sound(Claimed(a, who))
  {
    hide CampaignFactory.RefundOf;
    var stake, available := Stake(a, who), a.raised - a.withdrawn;
    SumSet(a.stakes, who, 0);
    RefundBounds(stake, available, a.raised);
    ClaimArithmetic(stake, a.paid, a.claimed, a.raised, available, RefundOf(stake, available, a.raised));
  }

  lemma SoundStep(f: Factory, tx: Tx)
    requires AllSound(f)
    ensures AllSound(Exec(f, tx).factory)
  {
    hide Sound;
    hide KeepsMoney;
    match tx.call
    case CreateCampaign(_, _, _, _) => CreationSound(f, tx);
    case Contribute(c, amount) => ContributionSound(f, c, amount, tx);
    case ConfirmRelease(m) => ReleaseSound(f, m, tx);
    case ClaimRefund(c) => ClaimSound(f, c, tx);
    case Finalize(m) =>
      MilestoneCallsKeepMoney(f, tx, m);
      SameMoneySound(f, Exec(f, tx).factory, if m in f.milestones then f.milestones[m].campaign else 0);
    case Submit(_, _) =>
      MilestoneCallsKeepMoney(f, tx, 0);
      SameMoneySound(f, Exec(f, tx).factory, if 0 in f.milestones then f.milestones[0].campaign else 0);
    case VoteOn(_, _) =>
      MilestoneCallsKeepMoney(f, tx, 0);
      SameMoneySound(f, Exec(f, tx).factory, if 0 in f.milestones then f.milestones[0].campaign else 0);
    case ProposeRelease(_) =>
      MilestoneCallsKeepMoney(f, tx, 0);
      SameMoneySound(f, Exec(f, tx).factory, if 0 in f.milestones then f.milestones[0].campaign else 0);
    case _ =>
      if StatusCall(tx) { StatusCallsKeepMoney(f, tx); } else { ProposalCallsKeepMoney(f, tx); }
      SameMoneySound(f, Exec(f, tx).factory, tx.call.campaign);
  }

  lemma {:induction false} AlwaysSound(f: Factory, txs: seq<Tx>)
    requires AllSound(f)
    ensures AllSound(After(f, txs))
  {
    if txs != [] {
      AlwaysSound(f, Front(txs));
      SoundStep(After(f, Front(txs)), Last(txs));
    }
  }

  // ---- What it means ------------------------------------------------------------------

  /** In every storage a run can reach, released milestones and refunds together never
      exceed what was raised: refunds stay within 95% of what the milestones left, and
      within 95% of the stakes they were claimed for. */
  lemma AlwaysSolvent(txs: seq<Tx>, c: nat)
    requires c in After(Empty(), txs).campaigns
    ensures var campaign := After(Empty(), txs).campaigns[c];
      && campaign.withdrawn + campaign.paid <= campaign.raised
      && 100 * campaign.paid <= 95 * (campaign.raised - campaign.withdrawn)
      && 100 * campaign.paid <= 95 * campaign.claimed
      && SumOf(campaign.stakes) + campaign.claimed == campaign.raised
  {
    AlwaysSound(Empty(), txs);
    SoundMeans(After(Empty(), txs).campaigns[c]);
  }

  lemma SoundMeans(c: Campaign)
    requires Sound(c)
    ensures c.withdrawn + c.paid <= c.raised && 100 * c.paid <= 95 * (c.raised - c.withdrawn)
  {
    var available := c.raised - c.withdrawn;
    PoolShare(c.paid, c.claimed, c.raised, available);
  }

  lemma PoolShare(paid: nat, claimed: nat, raised: nat, available: nat)
    requires claimed <= raised && 100 * paid <= 95 * claimed
    requires 100 * (paid * raised) <= 95 * (claimed * available)
    ensures 100 * paid <= 95 * available
  {
    Monotone(available, claimed, raised);
    Scale(100, paid, raised);
    Scale(95, available, raised);
    if raised > 0 {
      Cancel(100 * paid, 95 * available, raised);
    }
  }

  // ---- The formula over a list of contributors ----------------------------------------

  function Stakes(stakes: seq<nat>): nat {
    if stakes == [] then 0 else Stakes(Front(stakes)) + Last(stakes)
  }

  function Refunds(stakes: seq<nat>, available: nat, raised: nat): nat
    requires raised > 0
  {
    if stakes == [] then 0 else Refunds(Front(stakes), available, raised) + RefundOf(Last(stakes), available, raised)
  }

  lemma {:induction false} RefundsBetween(stakes: seq<nat>, available: nat, raised: nat)
    requires raised > 0
    ensures 100 * (Refunds(stakes, available, raised) * raised) <= 95 * (Stakes(stakes) * available)
    ensures stakes != [] ==>
      100 * (Refunds(stakes, available, raised) * raised) > 95 * (Stakes(stakes) * available) - 100 * (|stakes| * raised)
  {
    hide CampaignFactory.RefundOf;
    if stakes != [] {
      RefundsBetween(Front(stakes), available, raised);
      RefundBounds(Last(stakes), available, raised);
      Distribute(Refunds(Front(stakes), available, raised), RefundOf(Last(stakes), available, raised), raised);
      Distribute(Stakes(Front(stakes)), Last(stakes), available);
      Distribute(|stakes| - 1, 1, raised);
    }
  }

  /** If the stakes add up to at most what was raised, all refunds together stay within 95%
      of what is available; if they add up to exactly that, rounding loses less than one
      unit a contributor. */
  lemma RefundsShareThePool(stakes: seq<nat>, available: nat, raised: nat)
    requires raised > 0 && Stakes(stakes) <= raised
    ensures 100 * Refunds(stakes, available, raised) <= 95 * available
    ensures Stakes(stakes) == raised ==> 100 * (Refunds(stakes, available, raised) + |stakes|) > 95 * available
  {
    hide Refunds;
    hide Stakes;
    var total := Refunds(stakes, available, raised);
    RefundsBetween(stakes, available, raised);
    WithinPool(total, Stakes(stakes), available, raised);
    if Stakes(stakes) == raised {
      SomeStake(stakes);
      NearPool(total, |stakes|, available, raised);
    }
  }

  lemma SomeStake(stakes: seq<nat>)
    requires Stakes(stakes) > 0
    ensures stakes != []
  {
  }

  lemma WithinPool(total: nat, stakes: nat, available: nat, raised: nat)
    requires raised > 0 && stakes <= raised
    requires 100 * (total * raised) <= 95 * (stakes * available)
    ensures 100 * total <= 95 * available
  {
    Monotone(available, stakes, raised);
    Scale(100, total, raised);
    Scale(95, available, raised);
    Cancel(100 * total, 95 * available, raised);
  }

  lemma NearPool(total: nat, count: nat, available: nat, raised: nat)
    requires raised > 0
    requires 100 * (total * raised) > 95 * (raised * available) - 100 * (count * raised)
    ensures 100 * (total + count) > 95 * available
  {
    Distribute(total, count, raised);
    Scale(100, total + count, raised);
    Scale(95, available, raised);
    StrictlyMore(95 * available, 100 * (total + count), raised);
  }

  /** No refund is more than the 95% of the contribution that the transaction history
      reports for it. */
  lemma RefundWithinReported(stake: nat, available: nat, raised: nat)
    requires raised > 0 && available <= raised
    ensures 100 * RefundOf(stake, available, raised) <= 95 * stake
  {
    var refund := RefundOf(stake, available, raised);
    RefundBounds(stake, available, raised);
    Monotone(stake, available, raised);
    Scale(100, refund, raised);
    Scale(95, stake, raised);
    Cancel(100 * refund, 95 * stake, raised);
  }
}
