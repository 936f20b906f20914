/** The database as a cache of the contract: after any transactions are indexed, a linked
    campaign's status, reclaim flag and raised total are the contract's, up to exactly the
    contributions whose transaction hash was seen before. */
module CampaignMirror {
  import opened Common
  import opened Events
  import opened Database
  import F = CampaignFactory
  import FactoryLogs
  import Funding
  import Lifecycle
  import ReplayLimits
  import Sequencing

  /** The database's name for a status of the contract. */
  function DbStatus(s: F.Status): Lifecycle.CampaignStatus {
    match s
    case Pending => Lifecycle.Pending
    case Active => Lifecycle.Active
    case Funded => Lifecycle.Funded
    case Completed => Lifecycle.Completed
    case Cancelled => Lifecycle.Failed
    case Flagged => Lifecycle.Flagged
  }

  /** The status that an event writes to campaign c, if it writes one. */
  function Writes(e: Event, c: nat): Option<Lifecycle.CampaignStatus> {
    match e
    case CampaignStatusChanged(d, index) => if d == c then StatusAt(index) else None
    case CampaignFlagged(d) => if d == c then Some(Lifecycle.Flagged) else None
    case CampaignUnflagged(d) => if d == c then Some(Lifecycle.Active) else None
    case CampaignCompleted(d) => if d == c then Some(Lifecycle.Completed) else None
    case CampaignCancelled(d) => if d == c then Some(Lifecycle.Failed) else None
    case _ => None
  }

  function Paid(e: Event, c: nat): nat {
    if e.ContributionMade? && e.campaign == c then e.amount else 0
  }

  function PaidAll(events: seq<Event>, c: nat): nat {
    if events == [] then 0 else PaidAll(Front(events), c) + Paid(Last(events), c)
  }

  predicate Reclaims(e: Event, c: nat) {
    e.RefundApproved? && e.campaign == c
  }

  predicate Cancels(e: Event, c: nat) {
    e.CampaignCancelled? && e.campaign == c
  }

  /** The k-th event of the block is the last that writes c's status. */
  predicate LastAt(events: seq<Event>, c: nat, k: int) {
    && -1 <= k < |events| && (k >= 0 ==> Writes(events[k], c).Some?)
    && forall j | 0 <= j < |events| && j > k :: Writes(events[j], c).None?
  }

  /** What a transaction's block tells about campaign c is what it did to it. */
  ghost predicate TellsStatus(f: F.Factory, o: F.Outcome, c: nat, k: int)
    requires c in f.campaigns
  {
    && c in o.factory.campaigns && LastAt(o.events, c, k)
    && var a, b := f.campaigns[c], o.factory.campaigns[c];
       && (k < 0 ==> b.status == a.status)
       && (k >= 0 ==> Writes(o.events[k], c) == Some(DbStatus(b.status)))
       && (a.status != F.Pending ==> b.status != F.Pending)
       && (forall j | 0 <= j < |o.events| :: Writes(o.events[j], c) != Some(Lifecycle.Pending))
  }

  ghost predicate TellsMoney(f: F.Factory, o: F.Outcome, c: nat)
    requires c in f.campaigns
  {
    && c in o.factory.campaigns
    && var a, b := f.campaigns[c], o.factory.campaigns[c];
       && b.raised == a.raised + PaidAll(o.events, c)
       && (a.fundsReclaimed ==> b.fundsReclaimed)
       && (b.fundsReclaimed && !a.fundsReclaimed ==>
             exists j | 0 <= j < |o.events| :: Reclaims(o.events[j], c) || Cancels(o.events[j], c))
       && (forall j | 0 <= j < |o.events| :: Reclaims(o.events[j], c) ==> b.fundsReclaimed)
  }

  ghost predicate Tells(f: F.Factory, o: F.Outcome, c: nat, k: int)
    requires c in f.campaigns
  {
    TellsStatus(f, o, c, k) && TellsMoney(f, o, c)
  }

  lemma {:induction false} NothingPaid(events: seq<Event>, c: nat)
    requires forall i | 0 <= i < |events| :: Paid(events[i], c) == 0
    ensures PaidAll(events, c) == 0
  {
    if events != [] {
      NothingPaid(Front(events), c);
      assert Paid(events[|events| - 1], c) == 0;
    }
  }

  lemma {:induction false} PaidConcat(events: seq<Event>, block: seq<Event>, c: nat)
    ensures PaidAll(events + block, c) == PaidAll(events, c) + PaidAll(block, c)
  {
    if block == [] {
      assert events + block == events;
    } else {
      assert Front(events + block) == events + Front(block) && Last(events + block) == Last(block);
      PaidConcat(events, Front(block), c);
    }
  }

  lemma QuietTells(f: F.Factory, o: F.Outcome, c: nat)
    requires c in f.campaigns && c in o.factory.campaigns && o.factory.campaigns[c] == f.campaigns[c]
    requires forall i | 0 <= i < |o.events| ::
      Writes(o.events[i], c).None? && !o.events[i].ContributionMade? && !Reclaims(o.events[i], c)
    ensures Tells(f, o, c, -1)
  {
    NothingPaid(o.events, c);
  }

  lemma CreateTells(f: F.Factory, tx: F.Tx, c: nat)
    requires FactoryLogs.Counted(f) && c in f.campaigns && tx.call.CreateCampaign?
    ensures Tells(f, F.Exec(f, tx), c, -1)
  {
    FactoryLogs.CreateShape(f, tx.call.creator, tx.call.goal, tx.call.deadline, tx.call.plans, tx);
    hide F.DoCreate;
    assert c <= f.campaignCounter;
    QuietTells(f, F.Exec(f, tx), c);
    hide Tells;
  }

  lemma FlagTells(f: F.Factory, d: nat, tx: F.Tx, c: nat)
    requires c in f.campaigns
    ensures var o := F.DoConfirmFlag(f, d, tx); Tells(f, o, c, if o.ok && d == c then 2 else -1)
  {
    var o := F.DoConfirmFlag(f, d, tx);
    NothingPaid(o.events, c);
  }

  lemma UnflagTells(f: F.Factory, d: nat, c: nat)
    requires c in f.campaigns
    ensures var o := F.DoUnflag(f, d); Tells(f, o, c, if o.ok && d == c then 1 else -1)
  {
    NothingPaid(F.DoUnflag(f, d).events, c);
  }

  lemma CancelTells(f: F.Factory, d: nat, c: nat)
    requires c in f.campaigns
    ensures var o := F.DoCancel(f, d); Tells(f, o, c, if o.ok && d == c then 1 else -1)
  {
    NothingPaid(F.DoCancel(f, d).events, c);
  }

  /** A block that says what became of campaign d: its status, after what led to it. */
  lemma ChangeTells(f: F.Factory, o: F.Outcome, d: nat, c: nat, status: F.Status, k: nat)
    requires c in f.campaigns && d in f.campaigns && status != F.Pending
    requires c in o.factory.campaigns
    requires c != d ==> o.factory.campaigns[c] == f.campaigns[c]
    requires c == d && o.factory.campaigns[c] != f.campaigns[c].(status := status) ==>
      && o.factory.campaigns[c] == f.campaigns[c].(status := status, fundsReclaimed := true)
      && exists j | 0 <= j < |o.events| :: Cancels(o.events[j], c)
    requires k < |o.events| && o.events[k] == F.Changed(d, status)
    requires forall j | 0 <= j < |o.events| ::
      !o.events[j].ContributionMade? && !Reclaims(o.events[j], c)
      && Writes(o.events[j], c) in {None, Some(DbStatus(status))} && (j > k || c != d ==> Writes(o.events[j], c).None?)
    ensures Tells(f, o, c, if d == c then k else -1)
  {
    NothingPaid(o.events, c);
  }

  lemma DeadlineTells(f: F.Factory, d: nat, tx: F.Tx, c: nat)
    requires c in f.campaigns
    ensures var o := F.DoCheckDeadline(f, d, tx); Tells(f, o, c, if o.ok && d == c then |o.events| - 1 else -1)
  {
    hide Tells;
    DeadlineShape(f, d, tx);
    hide F.DoCheckDeadline;
    var o := F.DoCheckDeadline(f, d, tx);
    if o.ok {
      ChangeTells(f, o, d, c, o.factory.campaigns[d].status, |o.events| - 1);
    } else {
      QuietTells(f, o, c);
    }
  }

  lemma DeadlineShape(f: F.Factory, d: nat, tx: F.Tx)
    ensures var o := F.DoCheckDeadline(f, d, tx);
      if !o.ok then o == F.Revert(f)
      else
        && d in f.campaigns && d in o.factory.campaigns
        && o.factory.campaigns == f.campaigns[d := o.factory.campaigns[d]]
        && var status := o.factory.campaigns[d].status;
           && o.factory.campaigns[d] == f.campaigns[d].(status := status)
           && (|| (status == F.Funded && o.events == [F.Changed(d, status)])
               || (status == F.Cancelled && o.events == [CampaignCancelled(d), F.Changed(d, status)]))
  {
  }

  lemma ExpireTells(f: F.Factory, d: nat, tx: F.Tx, c: nat)
    requires c in f.campaigns
    ensures var o := F.DoExpire(f, d, tx); Tells(f, o, c, if o.ok && d == c then 1 else -1)
  {
    var o := F.DoExpire(f, d, tx);
    NothingPaid(o.events, c);
    assert o.ok && d == c ==> Cancels(o.events[0], c);
  }

  lemma ContributeTells(f: F.Factory, d: nat, amount: nat, tx: F.Tx, c: nat)
    requires c in f.campaigns
    ensures var o := F.DoContribute(f, d, amount, tx); Tells(f, o, c, if o.ok && d == c then |o.events| - 2 else -1)
  {
    var o := F.DoContribute(f, d, amount, tx);
    ContributionBlock(f, d, amount, tx);
    hide F.DoContribute;
    if o.ok {
      if |o.events| == 2 {
        assert Front(o.events) == [F.Changed(d, F.Funded)];
        NothingPaid(Front(o.events), c);
      } else {
        assert Front(o.events) == [] && PaidAll([], c) == 0;
      }
      assert Last(o.events) == ContributionMade(d, tx.sender, amount);
      assert PaidAll(o.events, c) == Paid(Last(o.events), c);
    } else {
      QuietTells(f, o, c);
    }
  }

  lemma ContributionBlock(f: F.Factory, d: nat, amount: nat, tx: F.Tx)
    ensures var o, made := F.DoContribute(f, d, amount, tx), ContributionMade(d, tx.sender, amount);
      if !o.ok then o == F.Revert(f)
      else
        && d in f.campaigns && d in o.factory.campaigns
        && o.factory.campaigns == f.campaigns[d := o.factory.campaigns[d]]
        && var a, b := f.campaigns[d], o.factory.campaigns[d];
           && a.status == F.Active && b.raised == a.raised + amount && b.fundsReclaimed == a.fundsReclaimed
           && (|| (b.status == F.Active && o.events == [made])
               || (b.status == F.Funded && o.events == [F.Changed(d, F.Funded), made]))
  {
  }

  lemma FinalizeTells(f: F.Factory, m: nat, tx: F.Tx, c: nat)
    requires c in f.campaigns
    ensures var o := F.DoFinalize(f, m, tx);
      Tells(f, o, c, if |o.events| == 3 && f.milestones[m].campaign == c then 2 else -1)
  {
    var o := F.DoFinalize(f, m, tx);
    FinalizeShape(f, m, tx);
    hide F.DoFinalize;
    if |o.events| == 3 {
      var d := f.milestones[m].campaign;
      var status := o.factory.campaigns[d].status;
      assert c == d && o.factory.campaigns[c] != f.campaigns[c].(status := status) ==> Cancels(o.events[1], c);
      ChangeTells(f, o, d, c, status, 2);
    } else {
      QuietTells(f, o, c);
    }
    hide Tells;
  }

  lemma FinalizeShape(f: F.Factory, m: nat, tx: F.Tx)
    ensures var o := F.DoFinalize(f, m, tx);
      if |o.events| == 3 then
        && m in f.milestones
        && var d := f.milestones[m].campaign;
           && d in f.campaigns && d in o.factory.campaigns && o.events[0].VotingFinalized?
           && o.factory.campaigns == f.campaigns[d := o.factory.campaigns[d]]
           && var a, b := f.campaigns[d], o.factory.campaigns[d];
              || (&& b == a.(status := F.Cancelled, fundsReclaimed := true)
                  && o.events[1] == CampaignCancelled(d) && o.events[2] == F.Changed(d, F.Cancelled))
              || (&& b == a.(status := F.Completed)
                  && o.events[1] == CampaignCompleted(d) && o.events[2] == F.Changed(d, F.Completed))
      else
        o.factory.campaigns == f.campaigns && |o.events| <= 1 && (o.events != [] ==> o.events[0].VotingFinalized?)
  {
    hide F.AllMilestones;
    hide F.Passed;
  }

  lemma ReleaseTells(f: F.Factory, m: nat, tx: F.Tx, c: nat)
    requires c in f.campaigns
    ensures var o := F.DoConfirmRelease(f, m, tx);
      Tells(f, o, c, if |o.events| == 4 && f.milestones[m].campaign == c then 1 else -1)
  {
    var o := F.DoConfirmRelease(f, m, tx);
    ReleaseShape(f, m, tx);
    hide F.DoConfirmRelease;
    if o.ok {
      ReleaseBlockTells(f, o, f.milestones[m].campaign, c);
    } else {
      QuietTells(f, o, c);
    }
    hide Tells;
  }

  lemma ReleaseBlockTells(f: F.Factory, o: F.Outcome, d: nat, c: nat)
    requires c in f.campaigns && ReleaseBlock(f, o, d)
    ensures Tells(f, o, c, if |o.events| == 4 && d == c then 1 else -1)
  {
    NothingPaid(o.events, c);
  }

  predicate ReleaseBlock(f: F.Factory, o: F.Outcome, d: nat) {
    var n := |o.events|;
    && d in f.campaigns && d in o.factory.campaigns && (n == 2 || n == 4)
    && o.factory.campaigns == f.campaigns[d := o.factory.campaigns[d]]
    && var a, b := f.campaigns[d], o.factory.campaigns[d];
       && b.raised == a.raised && b.fundsReclaimed == a.fundsReclaimed
       && o.events[n - 2].ReleaseConfirmed? && o.events[n - 1].FundsReleased?
       && (n == 2 ==> b.status == a.status)
       && (n == 4 ==>
             b.status == F.Completed && o.events[0] == CampaignCompleted(d) && o.events[1] == F.Changed(d, F.Completed))
  }

  lemma ReleaseShape(f: F.Factory, m: nat, tx: F.Tx)
    ensures var o := F.DoConfirmRelease(f, m, tx);
      if !o.ok then o == F.Revert(f)
      else m in f.milestones && ReleaseBlock(f, o, f.milestones[m].campaign)
  {
    hide F.AllMilestones;
  }

  lemma ApproveTells(f: F.Factory, d: nat, tx: F.Tx, c: nat)
    requires c in f.campaigns
    ensures Tells(f, F.DoApproveRefund(f, d, tx), c, -1)
  {
    var o := F.DoApproveRefund(f, d, tx);
    NothingPaid(o.events, c);
    assert o.ok && d == c ==> Reclaims(o.events[0], c);
  }

  /** Votes, submissions, proposals and claims tell nothing about status and money. */
  lemma OtherTells(f: F.Factory, tx: F.Tx, c: nat)
    requires c in f.campaigns
    requires tx.call.ProposeFlag? || tx.call.Submit? || tx.call.VoteOn? || tx.call.ProposeRelease?
          || tx.call.ProposeRefund? || tx.call.ClaimRefund?
    ensures Tells(f, F.Exec(f, tx), c, -1)
  {
    if tx.call.Submit? || tx.call.VoteOn? || tx.call.ProposeRelease? {
      MilestoneCallQuiet(f, tx, c);
    } else if tx.call.ClaimRefund? {
      ClaimQuiet(f, tx.call.campaign, tx, c);
    } else if tx.call.ProposeFlag? {
      FlagProposalQuiet(f, tx.call.campaign, tx.call.reason, tx, c);
    } else {
      RefundProposalQuiet(f, tx.call.campaign, tx, c);
    }
    hide F.DoSubmit;
    hide F.DoVote;
    hide F.DoProposeRelease;
    hide F.DoClaimRefund;
    hide F.DoProposeFlag;
    hide F.DoProposeRefund;
    NothingPaid(F.Exec(f, tx).events, c);
  }

  /** A block that says nothing about c, whose status and money stay as they were. */
  ghost predicate Quiet(f: F.Factory, o: F.Outcome, c: nat)
    requires c in f.campaigns
  {
    && c in o.factory.campaigns
    && (var a, b := f.campaigns[c], o.factory.campaigns[c];
        b.status == a.status && b.raised == a.raised && b.fundsReclaimed == a.fundsReclaimed)
    && forall i | 0 <= i < |o.events| ::
         Writes(o.events[i], c).None? && !o.events[i].ContributionMade? && !Reclaims(o.events[i], c)
  }

  lemma MilestoneCallQuiet(f: F.Factory, tx: F.Tx, c: nat)
    requires c in f.campaigns && (tx.call.Submit? || tx.call.VoteOn? || tx.call.ProposeRelease?)
    ensures Quiet(f, F.Exec(f, tx), c)
  {
    hide F.PreviousDone;
  }

  lemma FlagProposalQuiet(f: F.Factory, d: nat, reason: string, tx: F.Tx, c: nat)
    requires c in f.campaigns
    ensures Quiet(f, F.DoProposeFlag(f, d, reason, tx), c)
  {
  }

  lemma RefundProposalQuiet(f: F.Factory, d: nat, tx: F.Tx, c: nat)
    requires c in f.campaigns
    ensures Quiet(f, F.DoProposeRefund(f, d, tx), c)
  {
  }

  lemma ClaimQuiet(f: F.Factory, d: nat, tx: F.Tx, c: nat)
    requires c in f.campaigns
    ensures Quiet(f, F.DoClaimRefund(f, d, tx), c)
  {
    hide F.RefundOf;
  }

  lemma EveryBlockTells(f: F.Factory, tx: F.Tx, c: nat) returns (k: int)
    requires FactoryLogs.Counted(f) && c in f.campaigns
    ensures Tells(f, F.Exec(f, tx), c, k)
  {
    hide Tells;
    var o := F.Exec(f, tx);
    match tx.call
    case CreateCampaign(_, _, _, _) => CreateTells(f, tx, c); k := -1;
    case ConfirmFlag(d) => FlagTells(f, d, tx, c); k := if o.ok && d == c then 2 else -1;
    case Unflag(d) => UnflagTells(f, d, c); k := if o.ok && d == c then 1 else -1;
    case Cancel(d) => CancelTells(f, d, c); k := if o.ok && d == c then 1 else -1;
    case CheckDeadline(d) => DeadlineTells(f, d, tx, c); k := if o.ok && d == c then |o.events| - 1 else -1;
    case Expire(d) => ExpireTells(f, d, tx, c); k := if o.ok && d == c then 1 else -1;
    case Contribute(d, amount) =>
      ContributeTells(f, d, amount, tx, c);
      k := if o.ok && d == c then |o.events| - 2 else -1;
    case Finalize(m) =>
      FinalizeTells(f, m, tx, c);
      k := if |o.events| == 3 && f.milestones[m].campaign == c then 2 else -1;
    case ConfirmRelease(m) =>
      ReleaseTells(f, m, tx, c);
      k := if |o.events| == 4 && f.milestones[m].campaign == c then 1 else -1;
    case ApproveRefund(d) => ApproveTells(f, d, tx, c); k := -1;
    case _ => OtherTells(f, tx, c); k := -1;
  }

  // ---- What the tables make of a block ------------------------------------------------

  /** The campaign's row: linked, approved and past its initial status. */
  ghost predicate Followed(db: Db, c: nat, row: RowId) {
    && Valid(db) && c in db.links && db.links[c] == row && row in db.lives
    && db.lives[row].approved && db.lives[row].status != Lifecycle.Pending
  }

  lemma LifeStep(db: Db, log: Log, c: nat, row: RowId)
    requires Followed(db, c, row) && Writes(log.event, c) != Some(Lifecycle.Pending)
    ensures var t, w := Apply(db, log), Writes(log.event, c);
      && Followed(t, c, row)
      && t.lives[row].status == (if w.Some? then w.value else db.lives[row].status)
      && t.lives[row].reclaimed
         == if Reclaims(log.event, c) then true
            else if Cancels(log.event, c) then log.head.fundsReclaimed
            else db.lives[row].reclaimed
  {
    LinksGrow(db, [log]);
    assert Front([log]) == [] && Fold(db, [log]) == Apply(db, log);
    var us := LifeUpdates(db.links, log);
    if us != [] {
      assert us == [us[0]];
      Lifecycle.TouchOne(db.lives, us[0]);
    }
  }

  predicate NoPending(logs: seq<Log>, c: nat) {
    forall i | 0 <= i < |logs| :: Writes(logs[i].event, c) != Some(Lifecycle.Pending)
  }

  /** The reclaim flag after a block: set by an approved refund, and read back from the
      contract by a cancellation. */
  function FlagAfter(flag: bool, logs: seq<Log>, c: nat): bool {
    if logs == [] then flag
    else if Reclaims(Last(logs).event, c) then true
    else if Cancels(Last(logs).event, c) then Last(logs).head.fundsReclaimed
    else FlagAfter(flag, Front(logs), c)
  }

  lemma {:induction false} StaysFollowed(db: Db, logs: seq<Log>, c: nat, row: RowId)
    requires Followed(db, c, row) && NoPending(logs, c)
    ensures Followed(Fold(db, logs), c, row)
    ensures Fold(db, logs).lives[row].reclaimed == FlagAfter(db.lives[row].reclaimed, logs, c)
  {
    hide Database.Apply;
    if logs != [] {
      StaysFollowed(db, Front(logs), c, row);
      assert Last(logs) == logs[|logs| - 1];
      LifeStep(Fold(db, Front(logs)), Last(logs), c, row);
    }
  }

  lemma {:induction false} BlockOnLife(db: Db, logs: seq<Log>, c: nat, row: RowId, k: int)
    requires Followed(db, c, row) && NoPending(logs, c)
    requires -1 <= k < |logs| && forall j | 0 <= j < |logs| && j > k :: Writes(logs[j].event, c).None?
    requires k >= 0 ==> Writes(logs[k].event, c).Some?
    ensures row in Fold(db, logs).lives
    ensures Fold(db, logs).lives[row].status
         == if k < 0 then db.lives[row].status else Writes(logs[k].event, c).value
  {
    hide Database.Apply;
    if logs != [] {
      var n := |logs| - 1;
      assert Last(logs) == logs[n];
      StaysFollowed(db, Front(logs), c, row);
      LifeStep(Fold(db, Front(logs)), Last(logs), c, row);
      if k < n {
        BlockOnLife(db, Front(logs), c, row, k);
      }
    }
  }

  lemma {:induction false} FlagSet(flag: bool, logs: seq<Log>, c: nat)
    requires forall i | 0 <= i < |logs| && Cancels(logs[i].event, c) :: logs[i].head.fundsReclaimed
    requires flag || exists i | 0 <= i < |logs| :: Reclaims(logs[i].event, c) || Cancels(logs[i].event, c)
    ensures FlagAfter(flag, logs, c)
  {
    if logs != [] {
      var n := |logs| - 1;
      assert Last(logs) == logs[n];
      if !Reclaims(logs[n].event, c) && !Cancels(logs[n].event, c) {
        if !flag {
          var i :| 0 <= i < |logs| && (Reclaims(logs[i].event, c) || Cancels(logs[i].event, c));
          assert Front(logs)[i] == logs[i];
        }
        FlagSet(flag, Front(logs), c);
      }
    }
  }

  lemma {:induction false} FlagHasCause(flag: bool, logs: seq<Log>, c: nat)
    requires FlagAfter(flag, logs, c)
    ensures flag || exists i | 0 <= i < |logs| ::
      Reclaims(logs[i].event, c) || (Cancels(logs[i].event, c) && logs[i].head.fundsReclaimed)
  {
    if logs != [] {
      var n := |logs| - 1;
      assert Last(logs) == logs[n];
      if !Reclaims(logs[n].event, c) && !Cancels(logs[n].event, c) {
        FlagHasCause(flag, Front(logs), c);
        if !flag {
          var i :| 0 <= i < |Front(logs)| && (Reclaims(Front(logs)[i].event, c)
            || (Cancels(Front(logs)[i].event, c) && Front(logs)[i].head.fundsReclaimed));
          assert logs[i] == Front(logs)[i];
        }
      }
    }
  }

  // ---- Whole runs ---------------------------------------------------------------------

  /** A handler reads the flag of a cancelled campaign when it runs: not before the
      cancellation was mined, and `latest` is the flag at the time of the last read. */
  ghost predicate HeadsHonest(f: F.Factory, moves: seq<Sequencing.Move>, c: nat, latest: bool) {
    moves == []
    || (HeadsHonest(f, Front(moves), c, latest)
        && (Last(moves).OnChain? ==>
              forall i | 0 <= i < |Last(moves).logs| :: HonestHead(Sequencing.ChainAfter(f, moves), Last(moves).logs[i], c, latest)))
  }

  predicate HonestHead(g: F.Factory, log: Log, c: nat, latest: bool) {
    Cancels(log.event, c) ==>
      && (c in g.campaigns && g.campaigns[c].fundsReclaimed ==> log.head.fundsReclaimed)
      && (log.head.fundsReclaimed ==> latest)
  }

  /** The row tells the contract's status, and a flag between the contract's present one
      and the latest one read. */
  ghost predicate Mirrored(g: F.Factory, t: Db, c: nat, row: RowId, latest: bool) {
    && FactoryLogs.Counted(g) && c in g.campaigns && g.campaigns[c].status != F.Pending
    && Followed(t, c, row)
    && t.lives[row].status == DbStatus(g.campaigns[c].status)
    && (g.campaigns[c].fundsReclaimed ==> t.lives[row].reclaimed)
    && (t.lives[row].reclaimed ==> latest) && (g.campaigns[c].fundsReclaimed ==> latest)
  }

  lemma MirrorBlock(f: F.Factory, tx: F.Tx, db: Db, logs: seq<Log>, c: nat, row: RowId, latest: bool)
    requires Mirrored(f, db, c, row, latest) && FactoryLogs.Carries(logs, F.Exec(f, tx).events)
    requires forall i | 0 <= i < |logs| :: HonestHead(F.Exec(f, tx).factory, logs[i], c, latest)
    requires c in F.Exec(f, tx).factory.campaigns && F.Exec(f, tx).factory.campaigns[c].fundsReclaimed ==> latest
    ensures Mirrored(F.Exec(f, tx).factory, Fold(db, logs), c, row, latest)
  {
    hide F.Exec;
    hide Database.Fold;
    hide FactoryLogs.Counted;
    hide Followed;
    hide DbStatus;
    hide Writes;
    MirroredHas(f, db, c, row, latest);
    var k := EveryBlockTells(f, tx, c);
    var g, o := F.Exec(f, tx).factory, F.Exec(f, tx);
    CountedStays(f, tx);
    assert NoPending(logs, c);
    StaysFollowed(db, logs, c, row);
    BlockOnLife(db, logs, c, row, k);
    FlagFollows(f, o, db.lives[row].reclaimed, logs, c, latest);
  }

  lemma MirroredHas(g: F.Factory, t: Db, c: nat, row: RowId, latest: bool)
    requires Mirrored(g, t, c, row, latest)
    ensures row in t.lives
  {
  }

  lemma CountedStays(f: F.Factory, tx: F.Tx)
    requires FactoryLogs.Counted(f)
    ensures FactoryLogs.Counted(F.Exec(f, tx).factory)
  {
    hide F.Exec;
    FactoryLogs.Blocks(f, tx);
  }

  lemma FlagFollows(f: F.Factory, o: F.Outcome, flag: bool, logs: seq<Log>, c: nat, latest: bool)
    requires c in f.campaigns && TellsMoney(f, o, c) && FactoryLogs.Carries(logs, o.events)
    requires f.campaigns[c].fundsReclaimed ==> flag
    requires flag ==> latest
    requires o.factory.campaigns[c].fundsReclaimed ==> latest
    requires forall i | 0 <= i < |logs| :: HonestHead(o.factory, logs[i], c, latest)
    ensures o.factory.campaigns[c].fundsReclaimed ==> FlagAfter(flag, logs, c)
    ensures FlagAfter(flag, logs, c) ==> latest
  {
    if o.factory.campaigns[c].fundsReclaimed {
      if !f.campaigns[c].fundsReclaimed {
        var j :| 0 <= j < |o.events| && (Reclaims(o.events[j], c) || Cancels(o.events[j], c));
        assert logs[j].event == o.events[j];
      }
      FlagSet(flag, logs, c);
    }
    if FlagAfter(flag, logs, c) {
      FlagHasCause(flag, logs, c);
      if !flag {
        var i :| 0 <= i < |logs|
          && (Reclaims(logs[i].event, c) || (Cancels(logs[i].event, c) && logs[i].head.fundsReclaimed));
        assert Reclaims(o.events[i], c) ==> o.factory.campaigns[c].fundsReclaimed;
      }
    }
  }

  lemma FlagGrows(f: F.Factory, tx: F.Tx, c: nat)
    requires FactoryLogs.Counted(f) && c in f.campaigns
    ensures c in F.Exec(f, tx).factory.campaigns
    ensures f.campaigns[c].fundsReclaimed ==> F.Exec(f, tx).factory.campaigns[c].fundsReclaimed
  {
    hide F.Exec;
    var k := EveryBlockTells(f, tx, c);
  }

  lemma {:induction false} CountedRun(f: F.Factory, moves: seq<Sequencing.Move>, c: nat)
    requires FactoryLogs.Counted(f) && c in f.campaigns
    ensures var g := Sequencing.ChainAfter(f, moves); FactoryLogs.Counted(g) && c in g.campaigns
  {
    hide F.Exec;
    hide FactoryLogs.Counted;
    if moves != [] {
      CountedRun(f, Front(moves), c);
      if Last(moves).OnChain? {
        CountedStays(Sequencing.ChainAfter(f, Front(moves)), Last(moves).tx);
        FlagGrows(Sequencing.ChainAfter(f, Front(moves)), Last(moves).tx, c);
      }
    }
  }

  lemma ProofKeepsMirror(g: F.Factory, t: Db, c: nat, row: RowId, latest: bool, board: map<RowId, Sequencing.Stages.Stage>)
    requires Mirrored(g, t, c, row, latest)
    ensures Mirrored(g, t.(board := board), c, row, latest)
  {
  }

  lemma {:induction false} AlwaysMirrored(
    f: F.Factory, db: Db, c: nat, row: RowId, moves: seq<Sequencing.Move>, latest: bool)
    requires Mirrored(f, db, c, row, latest)
    requires Sequencing.Faithful(f, moves) && HeadsHonest(f, moves, c, latest)
    requires c in Sequencing.ChainAfter(f, moves).campaigns
    requires Sequencing.ChainAfter(f, moves).campaigns[c].fundsReclaimed ==> latest
    ensures Mirrored(Sequencing.ChainAfter(f, moves), Sequencing.TablesAfter(db, moves), c, row, latest)
  {
    hide F.Exec;
    hide Database.Fold;
    if moves != [] {
      var front, last := Front(moves), Last(moves);
      CountedRun(f, front, c);
      var g, t := Sequencing.ChainAfter(f, front), Sequencing.TablesAfter(db, front);
      if last.OnChain? {
        FlagGrows(g, last.tx, c);
      }
      AlwaysMirrored(f, db, c, row, front, latest);
      hide Mirrored;
      if last.OnChain? {
        MirrorBlock(g, last.tx, t, last.logs, c, row, latest);
      } else {
        ProofKeepsMirror(g, t, c, row, latest, Sequencing.Proved(t.board, last.row, last.url));
      }
    }
  }

  /** A faithful cache: when every read of the flag happened by the time the run ends, the
      row's status, approval and flag are exactly the contract's. */
  lemma CacheIsExact(f: F.Factory, db: Db, c: nat, row: RowId, moves: seq<Sequencing.Move>)
    requires FactoryLogs.Counted(f) && c in f.campaigns && f.campaigns[c].status != F.Pending
    requires Valid(db) && c in db.links && db.links[c] == row && row in db.lives
    requires db.lives[row] == Lifecycle.Life(DbStatus(f.campaigns[c].status), true, f.campaigns[c].fundsReclaimed)
    requires Sequencing.Faithful(f, moves) && c in Sequencing.ChainAfter(f, moves).campaigns
    requires HeadsHonest(f, moves, c, Sequencing.ChainAfter(f, moves).campaigns[c].fundsReclaimed)
    ensures var campaign, t := Sequencing.ChainAfter(f, moves).campaigns[c], Sequencing.TablesAfter(db, moves);
      row in t.lives && t.lives[row] == Lifecycle.Life(DbStatus(campaign.status), true, campaign.fundsReclaimed)
  {
    var latest := Sequencing.ChainAfter(f, moves).campaigns[c].fundsReclaimed;
    FlagKept(f, moves, c);
    assert DbStatus(f.campaigns[c].status) != Lifecycle.Pending;
    AlwaysMirrored(f, db, c, row, moves, latest);
    hide Sequencing.ChainAfter;
    hide Sequencing.TablesAfter;
  }

  lemma {:induction false} FlagKept(f: F.Factory, moves: seq<Sequencing.Move>, c: nat)
    requires FactoryLogs.Counted(f) && c in f.campaigns
    ensures var g := Sequencing.ChainAfter(f, moves);
      c in g.campaigns && (f.campaigns[c].fundsReclaimed ==> g.campaigns[c].fundsReclaimed)
  {
    hide F.Exec;
    hide FactoryLogs.Counted;
    if moves != [] {
      FlagKept(f, Front(moves), c);
      CountedRun(f, Front(moves), c);
      if Last(moves).OnChain? {
        FlagGrows(Sequencing.ChainAfter(f, Front(moves)), Last(moves).tx, c);
      }
    }
  }

  // ---- The raised total ---------------------------------------------------------------

  /** A contribution whose transaction hash has a row already is not counted. */
  function Uncounted(at: Db, log: Log, c: nat): nat {
    if log.txHash in at.book.rows then Paid(log.event, c) else 0
  }

  ghost function UncountedIn(db: Db, logs: seq<Log>, c: nat): nat {
    if logs == [] then 0
    else UncountedIn(db, Front(logs), c) + Uncounted(Fold(db, Front(logs)), Last(logs), c)
  }

  ghost function UncountedAll(db: Db, moves: seq<Sequencing.Move>, c: nat): nat {
    if moves == [] then 0
    else
      UncountedAll(db, Front(moves), c)
      + if Last(moves).OnChain? then UncountedIn(Sequencing.TablesAfter(db, Front(moves)), Last(moves).logs, c) else 0
  }

  lemma RaisedStep(db: Db, log: Log, c: nat, row: RowId)
    requires Valid(db) && c in db.links && db.links[c] == row
    ensures Funding.Raised(Apply(db, log).book, row) + Uncounted(db, log, c)
         == Funding.Raised(db.book, row) + Paid(log.event, c)
  {
    var ops := FundingOps(db.links, log);
    if ops != [] {
      assert ops == [ops[0]];
      Funding.RunOne(db.book, ops[0]);
    }
  }

  lemma {:induction false} RaisedOnBlock(db: Db, logs: seq<Log>, events: seq<Event>, c: nat, row: RowId)
    requires Valid(db) && c in db.links && db.links[c] == row && FactoryLogs.Carries(logs, events)
    ensures Funding.Raised(Fold(db, logs).book, row) + UncountedIn(db, logs, c)
         == Funding.Raised(db.book, row) + PaidAll(events, c)
  {
    hide Database.Apply;
    if logs != [] {
      RaisedOnBlock(db, Front(logs), Front(events), c, row);
      LinksGrow(db, Front(logs));
      assert Last(logs).event == Last(events);
      RaisedStep(Fold(db, Front(logs)), Last(logs), c, row);
    }
  }

  lemma ChainPaid(f: F.Factory, tx: F.Tx, c: nat)
    requires FactoryLogs.Counted(f) && c in f.campaigns
    ensures c in F.Exec(f, tx).factory.campaigns
    ensures F.Exec(f, tx).factory.campaigns[c].raised == f.campaigns[c].raised + PaidAll(F.Exec(f, tx).events, c)
  {
    hide F.Exec;
    var k := EveryBlockTells(f, tx, c);
  }

  lemma {:induction false} LinksKept(db: Db, moves: seq<Sequencing.Move>, c: nat)
    requires Valid(db) && c in db.links
    ensures var t := Sequencing.TablesAfter(db, moves); Valid(t) && c in t.links && t.links[c] == db.links[c]
  {
    if moves != [] {
      LinksKept(db, Front(moves), c);
      if Last(moves).OnChain? {
        LinksGrow(Sequencing.TablesAfter(db, Front(moves)), Last(moves).logs);
      }
      hide Database.Fold;
    }
  }

  /** The row's raised total grows as the contract's does, less exactly the contributions
      that came with a transaction hash already recorded: a second contribution inside one
      transaction, for instance. */
  lemma {:induction false} RaisedFollows(f: F.Factory, db: Db, c: nat, row: RowId, moves: seq<Sequencing.Move>)
    requires FactoryLogs.Counted(f) && c in f.campaigns && Sequencing.Faithful(f, moves)
    requires Valid(db) && c in db.links && db.links[c] == row
    ensures var g, t := Sequencing.ChainAfter(f, moves), Sequencing.TablesAfter(db, moves);
      && c in g.campaigns
      && Funding.Raised(t.book, row) - Funding.Raised(db.book, row) + UncountedAll(db, moves, c)
         == g.campaigns[c].raised - f.campaigns[c].raised
  {
    hide F.Exec;
    hide Database.Fold;
    hide FactoryLogs.Counted;
    if moves != [] {
      var front, last := Front(moves), Last(moves);
      RaisedFollows(f, db, c, row, front);
      if last.OnChain? {
        var g, t := Sequencing.ChainAfter(f, front), Sequencing.TablesAfter(db, front);
        CountedRun(f, front, c);
        ChainPaid(g, last.tx, c);
        LinksKept(db, front, c);
        RaisedOnBlock(t, last.logs, F.Exec(g, last.tx).events, c, row);
      }
    }
  }

  // ---- Where it starts ----------------------------------------------------------------

  /** Indexing a creation links the newest waiting row and makes it what the contract has:
      active, approved and not reclaimed, which is where the cache theorems start. */
  lemma CreationStartsCache(f: F.Factory, tx: F.Tx, db: Db, logs: seq<Log>, row: RowId)
    requires tx.call.CreateCampaign? && F.Exec(f, tx).ok && FactoryLogs.Counted(f)
    requires FactoryLogs.Carries(logs, F.Exec(f, tx).events)
    requires Valid(db) && f.campaignCounter + 1 !in db.links
    requires logs != [] && Newest(db.links, db.catalog.drafts, logs[0].head.ipfsHash, row)
    requires row in db.lives && db.lives[row].status == Lifecycle.Pending && !db.lives[row].reclaimed
    ensures var c, g, t := f.campaignCounter + 1, F.Exec(f, tx).factory, Fold(db, logs);
      && c in g.campaigns && FactoryLogs.Counted(g) && Valid(t)
      && c in t.links && t.links[c] == row && row in t.lives
      && t.lives[row] == Lifecycle.Life(DbStatus(g.campaigns[c].status), true, g.campaigns[c].fundsReclaimed)
  {
    hide Database.Apply;
    hide Newest;
    CreatedActive(f, tx);
    CountedStays(f, tx);
    hide F.Exec;
    LinksGrow(db, logs);
    var c := f.campaignCounter + 1;
    FoldThree(db, logs);
    LinkedAndApproved(db, logs[0], logs[1], c, row);
    assert Writes(logs[2].event, c) == Some(Lifecycle.Active);
    LifeStep(Apply(Apply(db, logs[0]), logs[1]), logs[2], c, row);
  }

  /** The first two events of a creation link the waiting row and approve it. */
  lemma LinkedAndApproved(db: Db, created: Log, approved: Log, c: nat, row: RowId)
    requires created.event == CampaignCreated(c) && approved.event == CampaignApproved(c)
    requires Valid(db) && c !in db.links
    requires Newest(db.links, db.catalog.drafts, created.head.ipfsHash, row)
    requires row in db.lives && db.lives[row].status == Lifecycle.Pending
    ensures var t := Apply(Apply(db, created), approved);
      Followed(t, c, row) && t.lives[row] == db.lives[row].(status := Lifecycle.Active, approved := true)
  {
    hide Database.Apply;
    hide Newest;
    LinkFirst(db, created, c, row);
    ApproveSecond(Apply(db, created), approved, c, row);
    LinksGrow(db, [created, approved]);
    ReplayLimits.FoldTwo(db, created, approved);
  }

  lemma CreatedActive(f: F.Factory, tx: F.Tx)
    requires tx.call.CreateCampaign? && F.Exec(f, tx).ok
    ensures var c, o := f.campaignCounter + 1, F.Exec(f, tx);
      && o.events == [CampaignCreated(c), CampaignApproved(c), F.Changed(c, F.Active)]
      && c in o.factory.campaigns && o.factory.campaigns[c].status == F.Active && !o.factory.campaigns[c].fundsReclaimed
  {
    hide F.SumPlans;
  }

  lemma FoldThree(db: Db, logs: seq<Log>)
    requires |logs| == 3
    ensures Fold(db, logs) == Apply(Apply(Apply(db, logs[0]), logs[1]), logs[2])
  {
    ReplayLimits.FoldTwo(db, logs[0], logs[1]);
    assert Front(logs) == [logs[0], logs[1]];
  }

  lemma LinkFirst(db: Db, log: Log, c: nat, row: RowId)
    requires log.event == CampaignCreated(c) && c !in db.links
    requires Newest(db.links, db.catalog.drafts, log.head.ipfsHash, row)
    ensures var t := Apply(db, log); t.links == db.links[c := row] && t.lives == db.lives && t.catalog == db.catalog
  {
    forall r | Newest(db.links, db.catalog.drafts, log.head.ipfsHash, r)
      ensures r == row
    {
      assert Newer(db.catalog.drafts, row, r) && Newer(db.catalog.drafts, r, row);
    }
  }

  lemma ApproveSecond(db: Db, log: Log, c: nat, row: RowId)
    requires log.event == CampaignApproved(c) && c in db.links && db.links[c] == row
    requires row in db.lives && db.lives[row].status == Lifecycle.Pending
    ensures var t := Apply(db, log);
      t.links == db.links && row in t.lives
      && t.lives[row] == db.lives[row].(status := Lifecycle.Active, approved := true)
  {
    var u := Lifecycle.Update(row, Lifecycle.Approve);
    assert LifeUpdates(db.links, log) == [u];
    Lifecycle.TouchOne(db.lives, u);
  }
}
