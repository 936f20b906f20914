/** Exactly when the contract accepts a call about flags, refunds, votes and releases. */
module FactoryAcceptance {
  import opened Common
  import opened CampaignFactory

  /** A live campaign may be flagged, by one wallet's proposal and another's confirmation; a
      flagged one becomes active again; only an active one is cancelled. */
  lemma FlagCallsExactly(f: Factory, c: nat, reason: string, tx: Tx)
    requires c in f.campaigns
    ensures var a, p := f.campaigns[c], f.campaigns[c].flagProposal;
      var open := p > 0 && p in f.flagProposals && !f.flagProposals[p].executed;
      var live := a.status == Active || a.status == Funded;
      && (DoProposeFlag(f, c, reason, tx).ok <==> live && !open)
      && (DoConfirmFlag(f, c, tx).ok <==> live && open && f.flagProposals[p].proposer != tx.sender)
      && (DoConfirmFlag(f, c, tx).ok ==>
            DoConfirmFlag(f, c, tx).factory.campaigns == f.campaigns[c := a.(status := Flagged)])
    ensures var a := f.campaigns[c];
      && (DoUnflag(f, c).ok <==> a.status == Flagged)
      && (DoUnflag(f, c).ok ==> DoUnflag(f, c).factory.campaigns == f.campaigns[c := a.(status := Active)])
      && (DoCancel(f, c).ok <==> a.status == Active)
      && (DoCancel(f, c).ok ==> DoCancel(f, c).factory.campaigns == f.campaigns[c := a.(status := Cancelled)])
  {
  }

  /** Refunds open by another wallet's approval of an open proposal. */
  lemma RefundApprovalExactly(f: Factory, c: nat, tx: Tx)
    requires c in f.campaigns
    ensures var a, p := f.campaigns[c], f.campaigns[c].refundProposal;
      && (DoApproveRefund(f, c, tx).ok <==>
            p > 0 && p in f.refundProposals && !f.refundProposals[p].executed && f.refundProposals[p].proposer != tx.sender)
      && (DoApproveRefund(f, c, tx).ok ==>
            DoApproveRefund(f, c, tx).factory.campaigns == f.campaigns[c := a.(fundsReclaimed := true)])
  {
  }

  /** The creator submits a milestone of a live campaign that has money, with a proof, at
      most three times, and not before the one in front of it is paid. */
  lemma SubmissionExactly(f: Factory, m: nat, proof: string, tx: Tx)
    requires Known(f, m)
    ensures var ms, a := f.milestones[m], f.campaigns[f.milestones[m].campaign];
      DoSubmit(f, m, proof, tx).ok <==>
        && tx.sender == a.creator && (a.status == Active || a.status == Funded) && a.raised > 0
        && (ms.state == Waiting || ms.state == Rejected) && ms.submissions < 3 && proof != ""
        && PreviousDone(f, m)
  {
    hide PreviousDone;
  }

  /** A contributor votes once in each round of a live campaign's milestone, while it lasts;
      the result is drawn once it is over. */
  lemma VotingExactly(f: Factory, m: nat, approve: bool, tx: Tx)
    requires Known(f, m)
    ensures var ms, a := f.milestones[m], f.campaigns[f.milestones[m].campaign];
      && (DoVote(f, m, approve, tx).ok <==>
            && Stake(a, tx.sender) > 0 && (a.status == Active || a.status == Funded) && ms.state == Voting
            && tx.now < ms.votingEnd
            && (tx.sender in ms.rounds ==> ms.rounds[tx.sender] < ms.submissions) && ms.submissions > 0)
      && (DoFinalize(f, m, tx).ok <==> ms.state == Voting && tx.now >= ms.votingEnd)
  {
    hide Passed;
    hide AllMilestones;
  }

  /** The release of an approved milestone is proposed while the campaign is live or completed,
      and confirmed by another wallet while no refunds are open and the money is there. */
  lemma ReleaseCallsExactly(f: Factory, m: nat, tx: Tx)
    requires Known(f, m)
    ensures var ms, a, p := f.milestones[m], f.campaigns[f.milestones[m].campaign], ReleaseIdOf(f, m);
      var open := p > 0 && p in f.releaseProposals && !f.releaseProposals[p].executed;
      && (DoProposeRelease(f, m, tx).ok <==>
            ms.state == Approved && (a.status == Active || a.status == Funded || a.status == Completed) && !open)
      && (DoConfirmRelease(f, m, tx).ok <==>
            && open && f.releaseProposals[p].proposer != tx.sender && ms.state == Approved
            && !a.fundsReclaimed && a.withdrawn + ms.amount <= a.raised)
  {
    hide AllMilestones;
  }

  /** About a campaign or milestone that it does not know the contract accepts nothing. */
  lemma UnknownRefused(f: Factory, tx: Tx)
    requires match tx.call
      case CreateCampaign(_, _, _, _) => false
      case Submit(m, _) => !Known(f, m)
      case VoteOn(m, _) => !Known(f, m)
      case Finalize(m) => !Known(f, m)
      case ProposeRelease(m) => !Known(f, m)
      case ConfirmRelease(m) => !Known(f, m)
      case _ => tx.call.campaign !in f.campaigns
    ensures Exec(f, tx) == Revert(f)
  {
  }
}
