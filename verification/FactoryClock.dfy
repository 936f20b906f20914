/** Time on chain: a vote lasts seven days from its submission, ballots are cast within it
    and results are drawn after it. */
module FactoryClock {
  import opened Common
  import opened Events
  import opened CampaignFactory

  const WEEK := 7 * 24 * 60 * 60

  /** When the milestone was last submitted with success. */
  function SubmittedAt(txs: seq<Tx>, m: nat): Option<nat> {
    if txs == [] then None
    else if Last(txs).call.Submit? && Last(txs).call.milestone == m && Exec(After(Empty(), Front(txs)), Last(txs)).ok
    then Some(Last(txs).now)
    else SubmittedAt(Front(txs), m)
  }

  /** A milestone that was submitted has its deadline a week after that. */
  ghost predicate Timed(f: Factory, m: nat, at: Option<nat>) {
    m in f.milestones && f.milestones[m].state != Waiting ==> at.Some? && f.milestones[m].votingEnd == at.value + WEEK
  }

  /** A transaction that is no submission of the milestone leaves its deadline, and does
      not begin it. */
  ghost predicate KeepsTime(f: Factory, g: Factory, m: nat) {
    m in g.milestones ==>
      || g.milestones[m].state == Waiting
      || (m in f.milestones && f.milestones[m].state != Waiting && g.milestones[m].votingEnd == f.milestones[m].votingEnd)
  }

  lemma SubmitTime(f: Factory, n: nat, proof: string, tx: Tx, m: nat)
    ensures var o := DoSubmit(f, n, proof, tx);
      if o.ok && n == m then
        && m in o.factory.milestones && o.factory.milestones[m].votingEnd == tx.now + WEEK
        && o.events == [MilestoneSubmitted(m, proof, tx.now + WEEK)]
      else KeepsTime(f, o.factory, m)
  {
    hide PreviousDone;
  }

  lemma VoteTime(f: Factory, n: nat, approve: bool, tx: Tx, m: nat)
    ensures KeepsTime(f, DoVote(f, n, approve, tx).factory, m)
    ensures DoVote(f, n, approve, tx).ok ==>
      n in f.milestones && f.milestones[n].state == Voting && tx.now < f.milestones[n].votingEnd
  {
  }

  lemma FinalizeTime(f: Factory, n: nat, tx: Tx, m: nat)
    ensures KeepsTime(f, DoFinalize(f, n, tx).factory, m)
    ensures DoFinalize(f, n, tx).ok ==>
      n in f.milestones && f.milestones[n].state == Voting && tx.now >= f.milestones[n].votingEnd
  {
    hide AllMilestones;
    hide Passed;
  }

  lemma ReleaseTime(f: Factory, n: nat, tx: Tx, m: nat)
    ensures KeepsTime(f, DoConfirmRelease(f, n, tx).factory, m)
  {
    hide AllMilestones;
  }

  lemma CreationTime(f: Factory, creator: Wallet, goal: nat, deadline: nat, plans: seq<Plan>, tx: Tx, m: nat)
    ensures KeepsTime(f, DoCreate(f, creator, goal, deadline, plans, tx).factory, m)
  {
    hide SumPlans;
  }

  lemma FlagTime(f: Factory, tx: Tx, m: nat)
    requires tx.call.ProposeFlag? || tx.call.ConfirmFlag? || tx.call.ProposeRefund? || tx.call.ApproveRefund?
    ensures KeepsTime(f, Exec(f, tx).factory, m)
  {
  }

  lemma StatusTime(f: Factory, tx: Tx, m: nat)
    requires tx.call.Unflag? || tx.call.Cancel? || tx.call.CheckDeadline? || tx.call.Expire?
    ensures KeepsTime(f, Exec(f, tx).factory, m)
  {
  }

  lemma PaymentTime(f: Factory, tx: Tx, m: nat)
    requires tx.call.Contribute? || tx.call.ClaimRefund? || tx.call.ProposeRelease?
    ensures KeepsTime(f, Exec(f, tx).factory, m)
  {
    hide RefundOf;
  }

  lemma OtherTime(f: Factory, tx: Tx, m: nat)
    requires !tx.call.Submit?
    ensures KeepsTime(f, Exec(f, tx).factory, m)
  {
    hide KeepsTime;
    match tx.call
    case CreateCampaign(creator, goal, deadline, plans) => CreationTime(f, creator, goal, deadline, plans, tx, m);
    case VoteOn(n, approve) => VoteTime(f, n, approve, tx, m);
    case Finalize(n) => FinalizeTime(f, n, tx, m);
    case ConfirmRelease(n) => ReleaseTime(f, n, tx, m);
    case ProposeFlag(_, _) => FlagTime(f, tx, m);
    case ConfirmFlag(_) => FlagTime(f, tx, m);
    case ProposeRefund(_) => FlagTime(f, tx, m);
    case ApproveRefund(_) => FlagTime(f, tx, m);
    case Contribute(_, _) => PaymentTime(f, tx, m);
    case ClaimRefund(_) => PaymentTime(f, tx, m);
    case ProposeRelease(_) => PaymentTime(f, tx, m);
    case _ => StatusTime(f, tx, m);
  }

  lemma {:induction false} AlwaysTimed(txs: seq<Tx>, m: nat)
    ensures Timed(After(Empty(), txs), m, SubmittedAt(txs, m))
  {
    if txs != [] {
      AlwaysTimed(Front(txs), m);
      var f, tx := After(Empty(), Front(txs)), Last(txs);
      if tx.call.Submit? {
        SubmitTime(f, tx.call.milestone, tx.call.proof, tx, m);
        hide DoSubmit;
      } else {
        OtherTime(f, tx, m);
        hide Exec;
      }
    }
  }

  /** After every run: a ballot is accepted only less than a week after the milestone's last
      submission, its result only a week after it or later, and a submission announces the
      end of the week that it opens. */
  lemma VotesLastAWeek(txs: seq<Tx>, tx: Tx)
    requires Exec(After(Empty(), txs), tx).ok
    ensures tx.call.VoteOn? ==>
      SubmittedAt(txs, tx.call.milestone).Some? && tx.now < SubmittedAt(txs, tx.call.milestone).value + 604_800
    ensures tx.call.Finalize? ==>
      SubmittedAt(txs, tx.call.milestone).Some? && tx.now >= SubmittedAt(txs, tx.call.milestone).value + 604_800
    ensures tx.call.Submit? ==>
      Exec(After(Empty(), txs), tx).events
      == [MilestoneSubmitted(tx.call.milestone, tx.call.proof, tx.now + 604_800)]
  {
    hide After;
    hide SubmittedAt;
    hide DoSubmit;
    hide DoVote;
    hide DoFinalize;
    var f := After(Empty(), txs);
    if tx.call.VoteOn? {
      AlwaysTimed(txs, tx.call.milestone);
      VoteTime(f, tx.call.milestone, tx.call.approve, tx, tx.call.milestone);
    } else if tx.call.Finalize? {
      AlwaysTimed(txs, tx.call.milestone);
      FinalizeTime(f, tx.call.milestone, tx, tx.call.milestone);
    } else if tx.call.Submit? {
      SubmitTime(f, tx.call.milestone, tx.call.proof, tx, tx.call.milestone);
    }
  }
}
