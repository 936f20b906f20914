/** The logs that the factory contract emits and the indexer reads. */
module Events {
  import opened Common

  /** Event arguments in contract order, as far as a handler reads them. */
  datatype Event =
    | CampaignCreated(campaign: nat)
    | CampaignApproved(campaign: nat)
    | CampaignStatusChanged(campaign: nat, statusIndex: nat)
    | CampaignFlagged(campaign: nat)
    | CampaignUnflagged(campaign: nat)
    | CampaignCancelled(campaign: nat)
    | CampaignCompleted(campaign: nat)
    | ContributionMade(campaign: nat, contributor: Wallet, amount: nat)
    | MilestoneSubmitted(milestone: nat, proof: string, votingEnd: nat)
    | VoteCast(milestone: nat, voter: Wallet, approve: bool, weight: nat)
    | VotingFinalized(milestone: nat, approved: bool)
    | FundsReleased(milestone: nat, amount: nat)
    | RefundProposed(proposal: nat, campaign: nat, proposer: Wallet)
    | RefundApproved(proposal: nat, campaign: nat, confirmer: Wallet)
    | RefundClaimed(campaign: nat, contributor: Wallet, amount: nat)
    | FlagProposed(proposal: nat, campaign: nat, proposer: Wallet, reason: string)
    | FlagConfirmed(proposal: nat, campaign: nat, confirmer: Wallet)
    | ReleaseProposed(proposal: nat, milestone: nat, proposer: Wallet)
    | ReleaseConfirmed(proposal: nat, milestone: nat, confirmer: Wallet)

  /** What a handler's read of the contract's campaign record returns. */
  datatype Head = Head(ipfsHash: string, fundsReclaimed: bool)

  /** An event with its transaction hash, its block's time, and the record a handler
      reads back from the contract while handling it. */
  datatype Log = Log(event: Event, txHash: int, blockTime: nat, head: Head)
}
