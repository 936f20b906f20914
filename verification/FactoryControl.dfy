/** Dual control on chain: in the log of every run, whatever one admin executes another one
    has proposed. */
module FactoryControl {
  import opened Common
  import opened Events
  import opened CampaignFactory
  import FactoryLogs

  /** What needs two admins: flagging a campaign, refunding it, releasing a milestone. */
  datatype Kind = Flagging | Refunding | Releasing

  /** A proposal or a confirmation, as its event tells it. */
  datatype Act = Act(proposal: nat, subject: nat, admin: Wallet)

  function Opens(e: Event, k: Kind): Option<Act> {
    match e
    case FlagProposed(p, c, who, _) => if k.Flagging? then Some(Act(p, c, who)) else None
    case RefundProposed(p, c, who) => if k.Refunding? then Some(Act(p, c, who)) else None
    case ReleaseProposed(p, m, who) => if k.Releasing? then Some(Act(p, m, who)) else None
    case _ => None
  }

  function Confirms(e: Event, k: Kind): Option<Act> {
    match e
    case FlagConfirmed(p, c, who) => if k.Flagging? then Some(Act(p, c, who)) else None
    case RefundApproved(p, c, who) => if k.Refunding? then Some(Act(p, c, who)) else None
    case ReleaseConfirmed(p, m, who) => if k.Releasing? then Some(Act(p, m, who)) else None
    case _ => None
  }

  function Proposals(f: Factory, k: Kind): map<nat, Proposal> {
    match k
    case Flagging => f.flagProposals
    case Refunding => f.refundProposals
    case Releasing => f.releaseProposals
  }

  function Counter(f: Factory, k: Kind): nat {
    match k
    case Flagging => f.flagCounter
    case Refunding => f.refundCounter
    case Releasing => f.releaseCounter
  }

  /** The latest proposal about a campaign or milestone, 0 if there is none. */
  function Slot(f: Factory, k: Kind, x: nat): nat {
    match k
    case Flagging => if x in f.campaigns then f.campaigns[x].flagProposal else 0
    case Refunding => if x in f.campaigns then f.campaigns[x].refundProposal else 0
    case Releasing => ReleaseIdOf(f, x)
  }

  // ---- What a transaction does to one kind of proposals --------------------------------

  datatype Change = Stay | Proposed(act: Act) | Confirmed(act: Act)

  ghost predicate Quiet(o: Outcome, k: Kind, from: nat) {
    forall i | from <= i < |o.events| :: Opens(o.events[i], k).None? && Confirms(o.events[i], k).None?
  }

  ghost predicate Changes(f: Factory, o: Outcome, k: Kind, change: Change) {
    match change
    case Stay =>
      && (forall x :: Slot(o.factory, k, x) == Slot(f, k, x)) && Proposals(o.factory, k) == Proposals(f, k)
      && Counter(o.factory, k) == Counter(f, k) && Quiet(o, k, 0)
    case Proposed(a) =>
      && a.proposal == Counter(f, k) + 1 == Counter(o.factory, k)
      && (forall x :: Slot(o.factory, k, x) == if x == a.subject then a.proposal else Slot(f, k, x))
      && Proposals(o.factory, k) == Proposals(f, k)[a.proposal := Proposal(a.admin, false)]
      && o.events != [] && Opens(o.events[0], k) == Some(a) && Confirms(o.events[0], k).None? && Quiet(o, k, 1)
    case Confirmed(a) =>
      && a.proposal == Slot(f, k, a.subject) && Open(Proposals(f, k), a.proposal)
      && Proposals(f, k)[a.proposal].proposer != a.admin
      && (forall x :: Slot(o.factory, k, x) == Slot(f, k, x))
      && Proposals(o.factory, k) == Proposals(f, k)[a.proposal := Proposals(f, k)[a.proposal].(executed := true)]
      && Counter(o.factory, k) == Counter(f, k)
      && exists i | 0 <= i < |o.events| ::
           && Confirms(o.events[i], k) == Some(a)
           && forall j | 0 <= j < |o.events| ::
                Opens(o.events[j], k).None? && (j != i ==> Confirms(o.events[j], k).None?)
  }

  /** The change that a successful transaction makes, by its call. */
  function ChangeOf(f: Factory, tx: Tx, k: Kind): Change {
    if !Exec(f, tx).ok then Stay
    else
      match tx.call
      case ProposeFlag(c, _) => if k.Flagging? then Proposed(Act(f.flagCounter + 1, c, tx.sender)) else Stay
      case ConfirmFlag(c) => if k.Flagging? then Confirmed(Act(Slot(f, k, c), c, tx.sender)) else Stay
      case ProposeRefund(c) => if k.Refunding? then Proposed(Act(f.refundCounter + 1, c, tx.sender)) else Stay
      case ApproveRefund(c) => if k.Refunding? then Confirmed(Act(Slot(f, k, c), c, tx.sender)) else Stay
      case ProposeRelease(m) => if k.Releasing? then Proposed(Act(f.releaseCounter + 1, m, tx.sender)) else Stay
      case ConfirmRelease(m) => if k.Releasing? then Confirmed(Act(Slot(f, k, m), m, tx.sender)) else Stay
      case _ => Stay
  }

  lemma FlagProposal(f: Factory, c: nat, reason: string, tx: Tx, k: Kind)
    requires tx.call == ProposeFlag(c, reason)
    ensures Changes(f, Exec(f, tx), k, ChangeOf(f, tx, k))
  {
  }

  lemma FlagConfirmation(f: Factory, c: nat, tx: Tx, k: Kind)
    requires tx.call == ConfirmFlag(c)
    ensures Changes(f, Exec(f, tx), k, ChangeOf(f, tx, k))
  {
    var o := Exec(f, tx);
    assert o.ok && k.Flagging? ==> Confirms(o.events[0], k) == Some(ChangeOf(f, tx, k).act);
  }

  lemma RefundProposal(f: Factory, c: nat, tx: Tx, k: Kind)
    requires tx.call == ProposeRefund(c)
    ensures Changes(f, Exec(f, tx), k, ChangeOf(f, tx, k))
  {
  }

  lemma RefundConfirmation(f: Factory, c: nat, tx: Tx, k: Kind)
    requires tx.call == ApproveRefund(c)
    ensures Changes(f, Exec(f, tx), k, ChangeOf(f, tx, k))
  {
    var o := Exec(f, tx);
    assert o.ok && k.Refunding? ==> Confirms(o.events[0], k) == Some(ChangeOf(f, tx, k).act);
  }

  lemma ReleaseProposal(f: Factory, m: nat, tx: Tx, k: Kind)
    requires tx.call == ProposeRelease(m)
    ensures Changes(f, Exec(f, tx), k, ChangeOf(f, tx, k))
  {
  }

  lemma ReleaseConfirmation(f: Factory, m: nat, tx: Tx, k: Kind)
    requires tx.call == ConfirmRelease(m)
    ensures Changes(f, Exec(f, tx), k, ChangeOf(f, tx, k))
  {
    var o := Exec(f, tx);
    ReleaseColumns(f, m, tx);
    hide CampaignFactory.DoConfirmRelease;
    if o.ok && k.Releasing? {
      assert Confirms(o.events[|o.events| - 2], k) == Some(ChangeOf(f, tx, k).act);
    }
  }

  /** Campaign rows keep their slots, and a block holds no proposal before position `from`. */
  ghost predicate SlotsKept(f: Factory, g: Factory) {
    && f.flagProposals == g.flagProposals && f.flagCounter == g.flagCounter
    && f.refundProposals == g.refundProposals && f.refundCounter == g.refundCounter
    && f.releaseProposal == g.releaseProposal && f.releaseCounter == g.releaseCounter
    && (forall c | c in f.campaigns ::
          c in g.campaigns && g.campaigns[c].flagProposal == f.campaigns[c].flagProposal
          && g.campaigns[c].refundProposal == f.campaigns[c].refundProposal)
    && (forall c | c in g.campaigns && c !in f.campaigns ::
          g.campaigns[c].flagProposal == 0 && g.campaigns[c].refundProposal == 0)
  }

  predicate Plain(e: Event) {
    && !e.FlagProposed? && !e.RefundProposed? && !e.ReleaseProposed?
    && !e.FlagConfirmed? && !e.RefundApproved? && !e.ReleaseConfirmed?
  }

  lemma ReleaseColumns(f: Factory, m: nat, tx: Tx)
    ensures var o, p := DoConfirmRelease(f, m, tx), ReleaseIdOf(f, m);
      if o.ok then
        && Open(f.releaseProposals, p) && f.releaseProposals[p].proposer != tx.sender
        && SlotsKept(f, o.factory)
        && o.factory.releaseProposals == f.releaseProposals[p := f.releaseProposals[p].(executed := true)]
        && |o.events| >= 2 && o.events[|o.events| - 2] == ReleaseConfirmed(p, m, tx.sender)
        && forall i | 0 <= i < |o.events| && i != |o.events| - 2 :: Plain(o.events[i])
      else
        o == Revert(f)
  {
    hide CampaignFactory.AllMilestones;
  }

  /** Every other call leaves all proposals alone. */
  ghost predicate LeavesAlone(f: Factory, o: Outcome) {
    && SlotsKept(f, o.factory) && o.factory.releaseProposals == f.releaseProposals
    && forall i | 0 <= i < |o.events| :: Plain(o.events[i])
  }

  lemma AloneStays(f: Factory, o: Outcome, k: Kind)
    requires LeavesAlone(f, o)
    ensures Changes(f, o, k, Stay)
  {
  }

  lemma StatusAlone(f: Factory, c: nat, tx: Tx)
    ensures LeavesAlone(f, DoUnflag(f, c)) && LeavesAlone(f, DoCancel(f, c)) && LeavesAlone(f, DoExpire(f, c, tx))
  {
    hide LeavesAlone;
    UnflagAlone(f, c);
    CancelAlone(f, c);
    ExpireAlone(f, c, tx);
  }

  lemma UnflagAlone(f: Factory, c: nat)
    ensures LeavesAlone(f, DoUnflag(f, c))
  {
    hide LeavesAlone;
    RevertAlone(f);
    if DoUnflag(f, c).ok { RowAlone(f, DoUnflag(f, c), c); }
  }

  lemma CancelAlone(f: Factory, c: nat)
    ensures LeavesAlone(f, DoCancel(f, c))
  {
    hide LeavesAlone;
    RevertAlone(f);
    if DoCancel(f, c).ok { RowAlone(f, DoCancel(f, c), c); }
  }

  /** A change of other columns of one campaign row. */
  lemma RowAlone(f: Factory, o: Outcome, c: nat)
    requires c in f.campaigns && c in o.factory.campaigns
    requires o.factory == Put(f, c, o.factory.campaigns[c]).(milestones := o.factory.milestones)
    requires o.factory.campaigns[c].flagProposal == f.campaigns[c].flagProposal
    requires o.factory.campaigns[c].refundProposal == f.campaigns[c].refundProposal
    requires forall i | 0 <= i < |o.events| :: Plain(o.events[i])
    ensures LeavesAlone(f, o)
  {
  }

  lemma RevertAlone(f: Factory)
    ensures LeavesAlone(f, Revert(f))
  {
  }

  lemma ExpireAlone(f: Factory, c: nat, tx: Tx)
    ensures LeavesAlone(f, DoExpire(f, c, tx))
  {
    hide LeavesAlone;
    RevertAlone(f);
    if DoExpire(f, c, tx).ok { RowAlone(f, DoExpire(f, c, tx), c); }
  }

  lemma DeadlineAlone(f: Factory, c: nat, tx: Tx)
    ensures LeavesAlone(f, DoCheckDeadline(f, c, tx))
  {
    hide LeavesAlone;
    RevertAlone(f);
    if DoCheckDeadline(f, c, tx).ok { RowAlone(f, DoCheckDeadline(f, c, tx), c); }
  }

  lemma ContributionAlone(f: Factory, c: nat, amount: nat, tx: Tx)
    ensures LeavesAlone(f, DoContribute(f, c, amount, tx))
  {
    hide LeavesAlone;
    RevertAlone(f);
    if DoContribute(f, c, amount, tx).ok { RowAlone(f, DoContribute(f, c, amount, tx), c); }
  }

  lemma ClaimAlone(f: Factory, c: nat, tx: Tx)
    ensures LeavesAlone(f, DoClaimRefund(f, c, tx))
  {
    hide CampaignFactory.RefundOf;
    hide LeavesAlone;
    RevertAlone(f);
    if DoClaimRefund(f, c, tx).ok { RowAlone(f, DoClaimRefund(f, c, tx), c); }
  }

  lemma VotingAlone(f: Factory, m: nat, proof: string, approve: bool, tx: Tx)
    ensures LeavesAlone(f, DoSubmit(f, m, proof, tx)) && LeavesAlone(f, DoVote(f, m, approve, tx))
  {
    hide CampaignFactory.PreviousDone;
  }

  lemma FinalizeAlone(f: Factory, m: nat, tx: Tx)
    ensures LeavesAlone(f, DoFinalize(f, m, tx))
  {
    hide CampaignFactory.AllMilestones;
    hide CampaignFactory.Passed;
    hide CampaignFactory.Put;
    hide CampaignFactory.PutMilestone;
    hide KeepsSlots;
    if Known(f, m) {
      var milestone := f.milestones[m];
      var c, row := milestone.campaign, f.campaigns[milestone.campaign];
      var finalized := milestone.(state := if Passed(milestone) then Approved else Rejected);
      MilestoneKeepsSlots(f, m, finalized);
      RowKeepsSlots(f, PutMilestone(f, m, finalized), c, row.(status := Cancelled, fundsReclaimed := true));
      RowKeepsSlots(f, PutMilestone(f, m, finalized), c, row.(status := Completed));
    }
    NothingKeepsSlots(f);
    SlotsAlone(f, DoFinalize(f, m, tx));
  }

  ghost predicate KeepsSlots(f: Factory, g: Factory) {
    SlotsKept(f, g) && g.releaseProposals == f.releaseProposals
  }

  lemma SlotsAlone(f: Factory, o: Outcome)
    requires KeepsSlots(f, o.factory) && forall i | 0 <= i < |o.events| :: Plain(o.events[i])
    ensures LeavesAlone(f, o)
  {
  }

  lemma NothingKeepsSlots(f: Factory)
    ensures KeepsSlots(f, f)
  {
  }

  lemma MilestoneKeepsSlots(f: Factory, m: nat, milestone: Milestone)
    ensures KeepsSlots(f, PutMilestone(f, m, milestone))
  {
  }

  lemma RowKeepsSlots(f: Factory, g: Factory, c: nat, row: Campaign)
    requires KeepsSlots(f, g) && c in f.campaigns
    requires row.flagProposal == f.campaigns[c].flagProposal && row.refundProposal == f.campaigns[c].refundProposal
    ensures KeepsSlots(f, Put(g, c, row))
  {
  }

  lemma CreationAlone(f: Factory, tx: Tx)
    requires FactoryLogs.Counted(f) && tx.call.CreateCampaign?
    ensures LeavesAlone(f, Exec(f, tx))
  {
    FactoryLogs.CreateShape(f, tx.call.creator, tx.call.goal, tx.call.deadline, tx.call.plans, tx);
    hide CampaignFactory.DoCreate;
  }

  lemma EveryCallChanges(f: Factory, tx: Tx, k: Kind)
    requires FactoryLogs.Counted(f)
    ensures Changes(f, Exec(f, tx), k, ChangeOf(f, tx, k))
  {
    hide Changes;
    hide LeavesAlone;
    match tx.call
    case ProposeFlag(c, reason) => FlagProposal(f, c, reason, tx, k);
    case ConfirmFlag(c) => FlagConfirmation(f, c, tx, k);
    case ProposeRefund(c) => RefundProposal(f, c, tx, k);
    case ApproveRefund(c) => RefundConfirmation(f, c, tx, k);
    case ProposeRelease(m) => ReleaseProposal(f, m, tx, k);
    case ConfirmRelease(m) => ReleaseConfirmation(f, m, tx, k);
    case CreateCampaign(_, _, _, _) => CreationAlone(f, tx); AloneStays(f, Exec(f, tx), k);
    case Unflag(c) => StatusAlone(f, c, tx); AloneStays(f, Exec(f, tx), k);
    case Cancel(c) => StatusAlone(f, c, tx); AloneStays(f, Exec(f, tx), k);
    case Expire(c) => StatusAlone(f, c, tx); AloneStays(f, Exec(f, tx), k);
    case CheckDeadline(c) => DeadlineAlone(f, c, tx); AloneStays(f, Exec(f, tx), k);
    case Contribute(c, amount) => ContributionAlone(f, c, amount, tx); AloneStays(f, Exec(f, tx), k);
    case ClaimRefund(c) => ClaimAlone(f, c, tx); AloneStays(f, Exec(f, tx), k);
    case Submit(m, proof) => VotingAlone(f, m, proof, false, tx); AloneStays(f, Exec(f, tx), k);
    case VoteOn(m, approve) => VotingAlone(f, m, "", approve, tx); AloneStays(f, Exec(f, tx), k);
    case Finalize(m) => FinalizeAlone(f, m, tx); AloneStays(f, Exec(f, tx), k);
  }

  // ---- Whole runs ---------------------------------------------------------------------

  predicate Opened(events: seq<Event>, k: Kind, act: Act) {
    exists i | 0 <= i < |events| :: Opens(events[i], k) == Some(act)
  }

  /** The proposal has been confirmed in this log. */
  predicate Closed(events: seq<Event>, k: Kind, p: nat) {
    exists i | 0 <= i < |events| :: Confirms(events[i], k).Some? && Confirms(events[i], k).value.proposal == p
  }

  /** Each open proposal was proposed by its proposer for its subject, and not confirmed;
      no two subjects share a proposal. */
  ghost predicate Backed(f: Factory, events: seq<Event>, k: Kind) {
    && (forall x :: Slot(f, k, x) <= Counter(f, k))
    && (forall x, y | Slot(f, k, x) == Slot(f, k, y) > 0 :: x == y)
    && (forall p | p in Proposals(f, k) :: p <= Counter(f, k))
    && (forall p: nat | Closed(events, k, p) :: p <= Counter(f, k))
    && (forall x | Open(Proposals(f, k), Slot(f, k, x)) ::
          var p := Slot(f, k, x);
          Opened(events, k, Act(p, x, Proposals(f, k)[p].proposer)) && !Closed(events, k, p))
  }

  lemma OpenedMore(events: seq<Event>, block: seq<Event>, k: Kind, act: Act)
    ensures Opened(events + block, k, act) <==> Opened(events, k, act) || Opened(block, k, act)
  {
    var all := events + block;
    if i :| 0 <= i < |events| && Opens(events[i], k) == Some(act) { assert all[i] == events[i]; }
    if i :| 0 <= i < |block| && Opens(block[i], k) == Some(act) { assert all[|events| + i] == block[i]; }
    if i :| 0 <= i < |all| && Opens(all[i], k) == Some(act) {
      assert all[i] == if i < |events| then events[i] else block[i - |events|];
    }
  }

  lemma ClosedMore(events: seq<Event>, block: seq<Event>, k: Kind, p: nat)
    ensures Closed(events + block, k, p) <==> Closed(events, k, p) || Closed(block, k, p)
  {
    var all := events + block;
    if i :| 0 <= i < |events| && Confirms(events[i], k).Some? && Confirms(events[i], k).value.proposal == p {
      assert all[i] == events[i];
    }
    if i :| 0 <= i < |block| && Confirms(block[i], k).Some? && Confirms(block[i], k).value.proposal == p {
      assert all[|events| + i] == block[i];
    }
    if i :| 0 <= i < |all| && Confirms(all[i], k).Some? && Confirms(all[i], k).value.proposal == p {
      assert all[i] == if i < |events| then events[i] else block[i - |events|];
    }
  }

  lemma BackedStep(f: Factory, events: seq<Event>, o: Outcome, k: Kind, change: Change)
    requires Backed(f, events, k) && Changes(f, o, k, change)
    ensures Backed(o.factory, events + o.events, k)
  {
    hide Slot;
    hide Proposals;
    hide Counter;
    var all := events + o.events;
    BlockCloses(f, o, k, change);
    forall p: nat | Closed(all, k, p)
      ensures p <= Counter(o.factory, k)
    {
      ClosedMore(events, o.events, k, p);
    }
    forall x | Open(Proposals(o.factory, k), Slot(o.factory, k, x))
      ensures Opened(all, k, Act(Slot(o.factory, k, x), x, Proposals(o.factory, k)[Slot(o.factory, k, x)].proposer))
      ensures !Closed(all, k, Slot(o.factory, k, x))
    {
      var p := Slot(o.factory, k, x);
      OpenedMore(events, o.events, k, Act(p, x, Proposals(o.factory, k)[p].proposer));
      ClosedMore(events, o.events, k, p);
      OpenStays(f, events, o, k, change, x);
    }
    hide Changes;
    SlotsStay(f, events, o, k, change);
  }

  /** Which proposals a block closes. */
  lemma BlockCloses(f: Factory, o: Outcome, k: Kind, change: Change)
    requires Changes(f, o, k, change)
    ensures forall p :: Closed(o.events, k, p) <==> change.Confirmed? && p == change.act.proposal
  {
  }

  lemma SlotsStay(f: Factory, events: seq<Event>, o: Outcome, k: Kind, change: Change)
    requires Backed(f, events, k) && Changes(f, o, k, change)
    ensures forall x :: Slot(o.factory, k, x) <= Counter(o.factory, k)
    ensures forall x, y | Slot(o.factory, k, x) == Slot(o.factory, k, y) > 0 :: x == y
    ensures forall p | p in Proposals(o.factory, k) :: p <= Counter(o.factory, k)
    ensures Counter(f, k) <= Counter(o.factory, k)
  {
  }

  lemma OpenStays(f: Factory, events: seq<Event>, o: Outcome, k: Kind, change: Change, x: nat)
    requires Backed(f, events, k) && Changes(f, o, k, change)
    requires Open(Proposals(o.factory, k), Slot(o.factory, k, x))
    ensures var p := Slot(o.factory, k, x);
      && (Opened(events, k, Act(p, x, Proposals(o.factory, k)[p].proposer))
          || Opened(o.events, k, Act(p, x, Proposals(o.factory, k)[p].proposer)))
      && !Closed(events, k, p) && !(change.Confirmed? && p == change.act.proposal)
  {
    hide Slot;
    hide Proposals;
    hide Counter;
    if change.Proposed? && x == change.act.subject {
      assert Opens(o.events[0], k) == Some(change.act);
    }
  }

  lemma {:induction false} RunBacked(txs: seq<Tx>, k: Kind)
    ensures FactoryLogs.Counted(After(Empty(), txs)) && Backed(After(Empty(), txs), Emitted(Empty(), txs), k)
  {
    hide CampaignFactory.Exec;
    if txs == [] {
      assert forall x :: Slot(Empty(), k, x) == 0;
    } else {
      RunBacked(Front(txs), k);
      hide Backed;
      hide FactoryLogs.Counted;
      var f := After(Empty(), Front(txs));
      FactoryLogs.Blocks(f, Last(txs));
      EveryCallChanges(f, Last(txs), k);
      BackedStep(f, Emitted(Empty(), Front(txs)), Exec(f, Last(txs)), k, ChangeOf(f, Last(txs), k));
    }
  }

  /** What an executed action must rest on: an earlier proposal of it, under the same id and
      for the same campaign or milestone, by another admin, executed never before. */
  ghost predicate TwoAdmins(before: seq<Event>, e: Event, k: Kind) {
    Confirms(e, k).Some? ==>
      && var a := Confirms(e, k).value;
         && !Closed(before, k, a.proposal)
         && exists who :: who != a.admin && Opened(before, k, Act(a.proposal, a.subject, who))
  }

  lemma BlockTwoAdmins(f: Factory, events: seq<Event>, o: Outcome, k: Kind, change: Change, i: nat)
    requires Backed(f, events, k) && Changes(f, o, k, change) && i < |o.events|
    ensures TwoAdmins(events + o.events[..i], o.events[i], k)
  {
    if Confirms(o.events[i], k).Some? {
      var a := Confirms(o.events[i], k).value;
      assert change == Confirmed(a);
      var who := Proposals(f, k)[a.proposal].proposer;
      assert Opened(events, k, Act(a.proposal, a.subject, who)) && !Closed(events, k, a.proposal);
      OpenedMore(events, o.events[..i], k, Act(a.proposal, a.subject, who));
      ClosedMore(events, o.events[..i], k, a.proposal);
      OneConfirmation(f, o, k, change, i);
    }
  }

  lemma OneConfirmation(f: Factory, o: Outcome, k: Kind, change: Change, i: nat)
    requires Changes(f, o, k, change) && i < |o.events| && Confirms(o.events[i], k).Some?
    ensures forall p :: !Closed(o.events[..i], k, p)
  {
  }

  /** In the log of every run no admin flags, refunds or releases alone, and no proposal is
      executed twice. */
  lemma {:induction false} LogShowsTwoAdmins(txs: seq<Tx>, i: nat, k: Kind)
    requires i < |Emitted(Empty(), txs)|
    ensures TwoAdmins(Emitted(Empty(), txs)[..i], Emitted(Empty(), txs)[i], k)
  {
    hide CampaignFactory.Exec;
    hide TwoAdmins;
    var front, tx := Front(txs), Last(txs);
    var f, told := After(Empty(), front), Emitted(Empty(), front);
    var block := Exec(f, tx).events;
    if i < |told| {
      LogShowsTwoAdmins(front, i, k);
      assert (told + block)[..i] == told[..i];
    } else {
      RunBacked(front, k);
      EveryCallChanges(f, tx, k);
      BlockTwoAdmins(f, told, Exec(f, tx), k, ChangeOf(f, tx, k), i - |told|);
      assert (told + block)[..i] == told + block[..i - |told|];
    }
  }
}
