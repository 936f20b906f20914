/** The factory contract as the source of every log: its storage, its transactions with
    their guards, and the events each one emits. */
module CampaignFactory {
  import opened Common
  import opened Events

  datatype Status = Pending | Active | Funded | Completed | Cancelled | Flagged

  datatype State = Waiting | Voting | Approved | Rejected | Done

  datatype Milestone = Milestone(
    campaign: nat, amount: nat, state: State, votesFor: nat, votesAgainst: nat, votingEnd: nat,
    raisedAtStart: nat, submissions: nat, rounds: map<Wallet, nat>)

  /** `claimed` and `paid` are bookkeeping of this model: the stakes that were zeroed by
      refund claims and the money paid out for them. */
  datatype Campaign = Campaign(
    creator: Wallet, status: Status, goal: nat, raised: nat, withdrawn: nat, deadline: nat,
    milestones: seq<nat>, fundsReclaimed: bool, stakes: map<Wallet, nat>, claimed: nat, paid: nat,
    refundProposal: nat, flagProposal: nat)

  datatype Proposal = Proposal(proposer: Wallet, executed: bool)

  datatype Factory = Factory(
    campaigns: map<nat, Campaign>, milestones: map<nat, Milestone>,
    campaignCounter: nat, milestoneCounter: nat,
    refundProposals: map<nat, Proposal>, flagProposals: map<nat, Proposal>, releaseProposals: map<nat, Proposal>,
    refundCounter: nat, flagCounter: nat, releaseCounter: nat,
    releaseProposal: map<nat, nat>)

  datatype Plan = Plan(amount: nat, deadline: nat)

  datatype Call =
    | CreateCampaign(creator: Wallet, goal: nat, deadline: nat, plans: seq<Plan>)
    | ProposeFlag(campaign: nat, reason: string)
    | ConfirmFlag(campaign: nat)
    | Unflag(campaign: nat)
    | Cancel(campaign: nat)
    | CheckDeadline(campaign: nat)
    | Expire(campaign: nat)
    | Contribute(campaign: nat, amount: nat)
    | Submit(milestone: nat, proof: string)
    | VoteOn(milestone: nat, approve: bool)
    | Finalize(milestone: nat)
    | ProposeRelease(milestone: nat)
    | ConfirmRelease(milestone: nat)
    | ProposeRefund(campaign: nat)
    | ApproveRefund(campaign: nat)
    | ClaimRefund(campaign: nat)

  datatype Tx = Tx(call: Call, sender: Wallet, now: nat)

  /** A reverted transaction leaves the storage and emits nothing. */
  datatype Outcome = Outcome(ok: bool, factory: Factory, events: seq<Event>)

  const REFUND_PERCENTAGE := 95
  const VOTING_PERIOD := 604_800
  const MIN_QUORUM_PERCENTAGE := 30
  const MAX_SUBMISSIONS := 3

  function Empty(): Factory {
    Factory(map[], map[], 0, 0, map[], map[], map[], 0, 0, 0, map[])
  }

  function Revert(f: Factory): Outcome {
    Outcome(false, f, [])
  }

  function StatusIndex(s: Status): nat {
    match s
    case Pending => 0
    case Active => 1
    case Funded => 2
    case Completed => 3
    case Cancelled => 4
    case Flagged => 5
  }

  function Changed(c: nat, s: Status): Event {
    CampaignStatusChanged(c, StatusIndex(s))
  }

  function Put(f: Factory, c: nat, campaign: Campaign): Factory {
    f.(campaigns := f.campaigns[c := campaign])
  }

  function PutMilestone(f: Factory, m: nat, milestone: Milestone): Factory {
    f.(milestones := f.milestones[m := milestone])
  }

  function Stake(campaign: Campaign, who: Wallet): nat {
    if who in campaign.stakes then campaign.stakes[who] else 0
  }

  predicate Live(campaign: Campaign) {
    campaign.status == Active || campaign.status == Funded
  }

  predicate Open(proposals: map<nat, Proposal>, id: nat) {
    id > 0 && id in proposals && !proposals[id].executed
  }

  function SumPlans(plans: seq<Plan>): nat {
    if plans == [] then 0 else SumPlans(Front(plans)) + Last(plans).amount
  }

  // ---- Campaigns ----------------------------------------------------------------------

  function DoCreate(f: Factory, creator: Wallet, goal: nat, deadline: nat, plans: seq<Plan>, tx: Tx): Outcome {
    if goal == 0 || deadline <= tx.now || plans == [] || |plans| > 20
       || (exists i | 0 <= i < |plans| :: plans[i].amount == 0 || plans[i].deadline > deadline)
       || SumPlans(plans) != goal
    then Revert(f)
    else
      var c, first := f.campaignCounter + 1, f.milestoneCounter + 1;
      var ids := seq(|plans|, i => first + i);
      var campaign := Campaign(creator, Active, goal, 0, 0, deadline, ids, false, map[], 0, 0, 0, 0);
      var added := map m | m in ids && first <= m < first + |plans| ::
        Milestone(c, plans[m - first].amount, Waiting, 0, 0, 0, 0, 0, map[]);
      Outcome(true,
        f.(campaigns := f.campaigns[c := campaign], milestones := f.milestones + added,
           campaignCounter := c, milestoneCounter := f.milestoneCounter + |plans|),
        [CampaignCreated(c), CampaignApproved(c), Changed(c, Active)])
  }

  function DoProposeFlag(f: Factory, c: nat, reason: string, tx: Tx): Outcome {
    if c !in f.campaigns then Revert(f)
    else
      var campaign := f.campaigns[c];
      if !Live(campaign) || Open(f.flagProposals, campaign.flagProposal) then Revert(f)
      else
        var p := f.flagCounter + 1;
        Outcome(true,
          Put(f, c, campaign.(flagProposal := p)).(
            flagProposals := f.flagProposals[p := Proposal(tx.sender, false)], flagCounter := p),
          [FlagProposed(p, c, tx.sender, reason)])
  }

  function DoConfirmFlag(f: Factory, c: nat, tx: Tx): Outcome {
    if c !in f.campaigns then Revert(f)
    else
      var campaign := f.campaigns[c];
      var p := campaign.flagProposal;
      if !Open(f.flagProposals, p) || f.flagProposals[p].proposer == tx.sender || !Live(campaign) then Revert(f)
      else
        Outcome(true,
          Put(f, c, campaign.(status := Flagged)).(
            flagProposals := f.flagProposals[p := f.flagProposals[p].(executed := true)]),
          [FlagConfirmed(p, c, tx.sender), CampaignFlagged(c), Changed(c, Flagged)])
  }

  function DoUnflag(f: Factory, c: nat): Outcome {
    if c !in f.campaigns || f.campaigns[c].status != Flagged then Revert(f)
    else
      Outcome(true, Put(f, c, f.campaigns[c].(status := Active)), [CampaignUnflagged(c), Changed(c, Active)])
  }

  function DoCancel(f: Factory, c: nat): Outcome {
    if c !in f.campaigns || f.campaigns[c].status != Active then Revert(f)
    else
      Outcome(true, Put(f, c, f.campaigns[c].(status := Cancelled)), [CampaignCancelled(c), Changed(c, Cancelled)])
  }

  function DoCheckDeadline(f: Factory, c: nat, tx: Tx): Outcome {
    if c !in f.campaigns || f.campaigns[c].status != Active || tx.now < f.campaigns[c].deadline then Revert(f)
    else
      var campaign := f.campaigns[c];
      if campaign.raised >= campaign.goal
      then Outcome(true, Put(f, c, campaign.(status := Funded)), [Changed(c, Funded)])
      else Outcome(true, Put(f, c, campaign.(status := Cancelled)), [CampaignCancelled(c), Changed(c, Cancelled)])
  }

  function DoExpire(f: Factory, c: nat, tx: Tx): Outcome {
    if c !in f.campaigns || f.campaigns[c].status != Funded || tx.now <= f.campaigns[c].deadline then Revert(f)
    else
      Outcome(true, Put(f, c, f.campaigns[c].(status := Cancelled, fundsReclaimed := true)),
        [CampaignCancelled(c), Changed(c, Cancelled)])
  }

  function DoContribute(f: Factory, c: nat, amount: nat, tx: Tx): Outcome {
    if c !in f.campaigns || f.campaigns[c].status != Active || tx.now >= f.campaigns[c].deadline then Revert(f)
    else
      var campaign := f.campaigns[c];
      var raised := campaign.raised + amount;
      var stakes := campaign.stakes[tx.sender := Stake(campaign, tx.sender) + amount];
      var more := campaign.(raised := raised, stakes := stakes);
      var made := ContributionMade(c, tx.sender, amount);
      if raised >= campaign.goal
      then Outcome(true, Put(f, c, more.(status := Funded)), [Changed(c, Funded), made])
      else Outcome(true, Put(f, c, more), [made])
  }

  // ---- Milestones ---------------------------------------------------------------------

  /** The position of a milestone in its campaign's list. */
  function Position(ids: seq<nat>, m: nat): (i: nat)
    ensures i <= |ids| && (i < |ids| ==> ids[i] == m) && (m in ids ==> i < |ids|)
  {
    if ids == [] || ids[0] == m then 0 else 1 + Position(ids[1..], m)
  }

  predicate PreviousDone(f: Factory, m: nat)
    requires m in f.milestones && f.milestones[m].campaign in f.campaigns
  {
    var ids := f.campaigns[f.milestones[m].campaign].milestones;
    var i := Position(ids, m);
    0 < i < |ids| ==> ids[i - 1] in f.milestones && f.milestones[ids[i - 1]].state == Done
  }

  predicate Known(f: Factory, m: nat) {
    m in f.milestones && f.milestones[m].campaign in f.campaigns
  }

  function DoSubmit(f: Factory, m: nat, proof: string, tx: Tx): Outcome {
    if !Known(f, m) then Revert(f)
    else
      var milestone := f.milestones[m];
      var campaign := f.campaigns[milestone.campaign];
      if campaign.creator != tx.sender || !Live(campaign)
         || (milestone.state != Waiting && milestone.state != Rejected)
         || milestone.submissions >= MAX_SUBMISSIONS || proof == "" || campaign.raised == 0
         || !PreviousDone(f, m)
      then Revert(f)
      else
        var end := tx.now + VOTING_PERIOD;
        Outcome(true,
          PutMilestone(f, m, milestone.(
            state := Voting, votesFor := 0, votesAgainst := 0, votingEnd := end,
            submissions := milestone.submissions + 1, raisedAtStart := campaign.raised)),
          [MilestoneSubmitted(m, proof, end)])
  }

  function DoVote(f: Factory, m: nat, approve: bool, tx: Tx): Outcome {
    if !Known(f, m) then Revert(f)
    else
      var milestone := f.milestones[m];
      var campaign := f.campaigns[milestone.campaign];
      var weight := Stake(campaign, tx.sender);
      var round := if tx.sender in milestone.rounds then milestone.rounds[tx.sender] else 0;
      if weight == 0 || !Live(campaign) || milestone.state != Voting || tx.now >= milestone.votingEnd
         || round >= milestone.submissions
      then Revert(f)
      else
        var counted :=
          if approve then milestone.(votesFor := milestone.votesFor + weight)
          else milestone.(votesAgainst := milestone.votesAgainst + weight);
        Outcome(true,
          PutMilestone(f, m, counted.(rounds := counted.rounds[tx.sender := milestone.submissions])),
          [VoteCast(m, tx.sender, approve, weight)])
  }

  predicate Passed(milestone: Milestone) {
    && milestone.votesFor + milestone.votesAgainst >= milestone.raisedAtStart * MIN_QUORUM_PERCENTAGE / 100
    && milestone.votesFor > milestone.votesAgainst
  }

  /** No more voting rounds are possible. */
  predicate Terminal(milestone: Milestone) {
    || milestone.state == Approved
    || milestone.state == Done
    || (milestone.state == Rejected && milestone.submissions >= MAX_SUBMISSIONS)
  }

  predicate AllMilestones(f: Factory, c: nat, test: Milestone -> bool)
    requires c in f.campaigns
  {
    forall i | 0 <= i < |f.campaigns[c].milestones| ::
      f.campaigns[c].milestones[i] in f.milestones && test(f.milestones[f.campaigns[c].milestones[i]])
  }

  function DoFinalize(f: Factory, m: nat, tx: Tx): Outcome {
    if !Known(f, m) || f.milestones[m].state != Voting || tx.now < f.milestones[m].votingEnd then Revert(f)
    else
      var milestone := f.milestones[m];
      var c := milestone.campaign;
      var campaign := f.campaigns[c];
      var approved := Passed(milestone);
      var g := PutMilestone(f, m, milestone.(state := if approved then Approved else Rejected));
      var finalized := VotingFinalized(m, approved);
      if !approved && milestone.submissions >= MAX_SUBMISSIONS then
        if campaign.status != Flagged && campaign.status != Cancelled
        then Outcome(true, Put(g, c, campaign.(status := Cancelled, fundsReclaimed := true)),
               [finalized, CampaignCancelled(c), Changed(c, Cancelled)])
        else Outcome(true, g, [finalized])
      else if campaign.status == Funded && AllMilestones(g, c, (ms: Milestone) => Terminal(ms)) then
        Outcome(true, Put(g, c, campaign.(status := Completed)),
          [finalized, CampaignCompleted(c), Changed(c, Completed)])
      else Outcome(true, g, [finalized])
  }

  function ReleaseIdOf(f: Factory, m: nat): nat {
    if m in f.releaseProposal then f.releaseProposal[m] else 0
  }

  function DoProposeRelease(f: Factory, m: nat, tx: Tx): Outcome {
    if !Known(f, m) then Revert(f)
    else
      var campaign := f.campaigns[f.milestones[m].campaign];
      if f.milestones[m].state != Approved || !(Live(campaign) || campaign.status == Completed)
         || Open(f.releaseProposals, ReleaseIdOf(f, m))
      then Revert(f)
      else
        var p := f.releaseCounter + 1;
        Outcome(true,
          f.(releaseProposals := f.releaseProposals[p := Proposal(tx.sender, false)],
             releaseProposal := f.releaseProposal[m := p], releaseCounter := p),
          [ReleaseProposed(p, m, tx.sender)])
  }

  function DoConfirmRelease(f: Factory, m: nat, tx: Tx): Outcome {
    if !Known(f, m) then Revert(f)
    else
      var p, milestone := ReleaseIdOf(f, m), f.milestones[m];
      var c := milestone.campaign;
      var campaign := f.campaigns[c];
      if !Open(f.releaseProposals, p) || f.releaseProposals[p].proposer == tx.sender
         || milestone.state != Approved || campaign.fundsReclaimed
         || campaign.withdrawn + milestone.amount > campaign.raised
      then Revert(f)
      else
        var g := PutMilestone(f, m, milestone.(state := Done)).(
          releaseProposals := f.releaseProposals[p := f.releaseProposals[p].(executed := true)]);
        var spent := campaign.(withdrawn := campaign.withdrawn + milestone.amount);
        var released := [ReleaseConfirmed(p, m, tx.sender), FundsReleased(m, milestone.amount)];
        if AllMilestones(g, c, (ms: Milestone) => ms.state == Done) && campaign.status != Completed
        then Outcome(true, Put(g, c, spent.(status := Completed)),
               [CampaignCompleted(c), Changed(c, Completed)] + released)
        else Outcome(true, Put(g, c, spent), released)
  }

  // ---- Refunds ------------------------------------------------------------------------

  function DoProposeRefund(f: Factory, c: nat, tx: Tx): Outcome {
    if c !in f.campaigns then Revert(f)
    else
      var campaign := f.campaigns[c];
      if !(campaign.status == Flagged || campaign.status == Cancelled
           || (campaign.status == Active && tx.now >= campaign.deadline))
         || Open(f.refundProposals, campaign.refundProposal) || campaign.raised <= campaign.withdrawn
      then Revert(f)
      else
        var p := f.refundCounter + 1;
        Outcome(true,
          Put(f, c, campaign.(refundProposal := p)).(
            refundProposals := f.refundProposals[p := Proposal(tx.sender, false)], refundCounter := p),
          [RefundProposed(p, c, tx.sender)])
  }

  function DoApproveRefund(f: Factory, c: nat, tx: Tx): Outcome {
    if c !in f.campaigns then Revert(f)
    else
      var p := f.campaigns[c].refundProposal;
      if !Open(f.refundProposals, p) || f.refundProposals[p].proposer == tx.sender then Revert(f)
      else
        Outcome(true,
          Put(f, c, f.campaigns[c].(fundsReclaimed := true)).(
            refundProposals := f.refundProposals[p := f.refundProposals[p].(executed := true)]),
          [RefundApproved(p, c, tx.sender)])
  }

  function Floor(amount: nat, parts: nat): nat
    requires parts > 0
  {
    amount / parts
  }

  /** The pro-rata share of what is left, less the protocol fee, rounded down. */
  function RefundOf(stake: nat, available: nat, raised: nat): nat
    requires raised > 0
  {
    Floor(stake * available * REFUND_PERCENTAGE, raised * 100)
  }

  function DoClaimRefund(f: Factory, c: nat, tx: Tx): Outcome {
    if c !in f.campaigns then Revert(f)
    else
      var campaign := f.campaigns[c];
      var stake := Stake(campaign, tx.sender);
      if stake == 0 || !campaign.fundsReclaimed || campaign.raised == 0 || campaign.raised < campaign.withdrawn
      then Revert(f)
      else
        var refund := RefundOf(stake, campaign.raised - campaign.withdrawn, campaign.raised);
        if refund == 0 then Revert(f)
        else
          Outcome(true,
            Put(f, c, campaign.(stakes := campaign.stakes[tx.sender := 0],
                                claimed := campaign.claimed + stake, paid := campaign.paid + refund)),
            [RefundClaimed(c, tx.sender, refund)])
  }

  // ---- Transactions and runs ----------------------------------------------------------

  function Exec(f: Factory, tx: Tx): Outcome {
    match tx.call
    case CreateCampaign(creator, goal, deadline, plans) => DoCreate(f, creator, goal, deadline, plans, tx)
    case ProposeFlag(c, reason) => DoProposeFlag(f, c, reason, tx)
    case ConfirmFlag(c) => DoConfirmFlag(f, c, tx)
    case Unflag(c) => DoUnflag(f, c)
    case Cancel(c) => DoCancel(f, c)
    case CheckDeadline(c) => DoCheckDeadline(f, c, tx)
    case Expire(c) => DoExpire(f, c, tx)
    case Contribute(c, amount) => DoContribute(f, c, amount, tx)
    case Submit(m, proof) => DoSubmit(f, m, proof, tx)
    case VoteOn(m, approve) => DoVote(f, m, approve, tx)
    case Finalize(m) => DoFinalize(f, m, tx)
    case ProposeRelease(m) => DoProposeRelease(f, m, tx)
    case ConfirmRelease(m) => DoConfirmRelease(f, m, tx)
    case ProposeRefund(c) => DoProposeRefund(f, c, tx)
    case ApproveRefund(c) => DoApproveRefund(f, c, tx)
    case ClaimRefund(c) => DoClaimRefund(f, c, tx)
  }

  /** The storage after a list of transactions. */
  function After(f: Factory, txs: seq<Tx>): Factory {
    if txs == [] then f else Exec(After(f, Front(txs)), Last(txs)).factory
  }

  /** Everything they emitted, in order. */
  function Emitted(f: Factory, txs: seq<Tx>): seq<Event> {
    if txs == [] then []
    else Emitted(f, Front(txs)) + Exec(After(f, Front(txs)), Last(txs)).events
  }
}
