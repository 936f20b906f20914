/** What a contributor sees as reclaimable against what the contract would pay him. */
module ReclaimView {
  import opened Common
  import opened Events
  import opened Database
  import CampaignMirror
  import ContractReplay
  import F = CampaignFactory
  import FactoryLogs
  import FactorySolvency
  import Funding
  import Grouping
  import Lifecycle
  import Sequencing
  import UsersService

  // ---- Unrefunded rows ----------------------------------------------------------------

  predicate Unrefunded(c: Funding.Contribution, campaign: RowId, user: Wallet) {
    Funding.ClaimedBy(c, campaign, user) && !c.refunded
  }

  function OwnRows(rows: UsersService.Rows, campaign: RowId, user: Wallet): UsersService.Rows {
    map h | h in rows && Unrefunded(rows[h], campaign, user) :: rows[h]
  }

  /** What the unrefunded rows of one person and one campaign add up to. */
  ghost function Owed(rows: UsersService.Rows, campaign: RowId, user: Wallet): nat {
    Funding.Total(OwnRows(rows, campaign, user), campaign)
  }

  /** What an event does to a stake, on either side. */
  function StakeAfter(stake: nat, events: seq<Event>, c: nat, who: Wallet): nat {
    if events == [] then stake
    else
      var earlier, e := StakeAfter(stake, Front(events), c, who), Last(events);
      if e.ContributionMade? && e.campaign == c && SameWallet(e.contributor, who) then earlier + e.amount
      else if e.RefundClaimed? && e.campaign == c && SameWallet(e.contributor, who) then 0
      else earlier
  }

  lemma OwedAfterContribution(
    rows: UsersService.Rows, h: int, made: Funding.Contribution, campaign: RowId, user: Wallet)
    requires h !in rows && !made.refunded
    ensures Owed(rows[h := made], campaign, user)
         == Owed(rows, campaign, user) + if Funding.ClaimedBy(made, campaign, user) then made.amount else 0
  {
    var more := OwnRows(rows[h := made], campaign, user);
    if Funding.ClaimedBy(made, campaign, user) {
      Funding.TotalAt(more, h, campaign);
      assert more - {h} == OwnRows(rows, campaign, user);
    } else {
      assert more == OwnRows(rows, campaign, user);
    }
  }

  lemma OwedAfterClaim(rows: UsersService.Rows, claimed: RowId, claimant: Wallet, campaign: RowId, user: Wallet)
    ensures Owed(Funding.MarkRefunded(rows, claimed, claimant), campaign, user)
         == if claimed == campaign && claimant == user then 0 else Owed(rows, campaign, user)
  {
    var all := Funding.MarkRefunded(rows, claimed, claimant);
    var marked, own := OwnRows(all, campaign, user), OwnRows(rows, campaign, user);
    assert all.Keys == rows.Keys;
    forall h | h in rows
      ensures Unrefunded(all[h], campaign, user) <==>
        Unrefunded(rows[h], campaign, user) && !(claimed == campaign && claimant == user)
      ensures Unrefunded(all[h], campaign, user) ==> all[h] == rows[h]
    {}
    if claimed == campaign && claimant == user {
      assert forall h :: h !in marked;
    } else {
      assert marked.Keys == own.Keys;
      assert marked == own;
    }
  }

  /** One event, while its contribution, if it is one, has a new transaction hash. */
  lemma OwedStep(db: Db, log: Log, c: nat, row: RowId, who: Wallet)
    requires Valid(db) && c in db.links && db.links[c] == row
    requires log.event.ContributionMade? && log.event.campaign == c ==> log.txHash !in db.book.rows
    ensures Owed(Apply(db, log).book.rows, row, Lower(who))
         == StakeAfter(Owed(db.book.rows, row, Lower(who)), [log.event], c, who)
  {
    var user, e := Lower(who), log.event;
    assert Front([e]) == [] && Last([e]) == e;
    assert StakeAfter(Owed(db.book.rows, row, user), [], c, who) == Owed(db.book.rows, row, user);
    var ops := FundingOps(db.links, log);
    if ops != [] {
      assert ops == [ops[0]];
      Funding.RunOne(db.book, ops[0]);
      match ops[0]
      case Contribute(h, r, u, amount) =>
        if h !in db.book.rows {
          OwedAfterContribution(db.book.rows, h, Funding.Contribution(r, u, amount, false), row, user);
        }
      case Claim(r, u) => OwedAfterClaim(db.book.rows, r, u, row, user);
    }
    hide Owed;
  }

  /** All contributions to the campaign come with new hashes. */
  ghost predicate FreshHashes(db: Db, logs: seq<Log>, c: nat) {
    logs == []
    || (FreshHashes(db, Front(logs), c)
        && (Last(logs).event.ContributionMade? && Last(logs).event.campaign == c ==>
              Last(logs).txHash !in Fold(db, Front(logs)).book.rows))
  }

  lemma StakeStep(stake: nat, events: seq<Event>, e: Event, c: nat, who: Wallet)
    ensures StakeAfter(stake, events + [e], c, who) == StakeAfter(StakeAfter(stake, events, c, who), [e], c, who)
  {
    assert Front(events + [e]) == events && Last(events + [e]) == e;
    assert Front([e]) == [] && Last([e]) == e;
    assert StakeAfter(StakeAfter(stake, events, c, who), [], c, who) == StakeAfter(stake, events, c, who);
  }

  lemma {:induction false} OwedOnBlock(db: Db, logs: seq<Log>, events: seq<Event>, c: nat, row: RowId, who: Wallet)
    requires Valid(db) && c in db.links && db.links[c] == row
    requires FactoryLogs.Carries(logs, events) && FreshHashes(db, logs, c)
    ensures Owed(Fold(db, logs).book.rows, row, Lower(who))
         == StakeAfter(Owed(db.book.rows, row, Lower(who)), events, c, who)
  {
    hide Database.Apply;
    hide Owed;
    if logs != [] {
      OwedOnBlock(db, Front(logs), Front(events), c, row, who);
      LinksGrow(db, Front(logs));
      OwedStep(Fold(db, Front(logs)), Last(logs), c, row, who);
      StakeStep(Owed(db.book.rows, row, Lower(who)), Front(events), Last(events), c, who);
      assert Front(events) + [Last(events)] == events && Last(logs).event == Last(events);
      hide StakeAfter;
    }
  }

  // ---- Stakes on chain ----------------------------------------------------------------

  lemma {:induction false} StakeUntouched(stake: nat, events: seq<Event>, c: nat, who: Wallet)
    requires forall i | 0 <= i < |events| :: !events[i].ContributionMade? && !events[i].RefundClaimed?
    ensures StakeAfter(stake, events, c, who) == stake
  {
    if events != [] {
      var last := events[|events| - 1];
      assert !last.ContributionMade? && !last.RefundClaimed?;
      StakeUntouched(stake, Front(events), c, who);
    }
  }

  lemma ContributionStake(f: F.Factory, d: nat, amount: nat, tx: F.Tx, c: nat, who: Wallet)
    requires c in f.campaigns && (SameWallet(tx.sender, who) ==> tx.sender == who)
    ensures var o := F.DoContribute(f, d, amount, tx);
      && c in o.factory.campaigns
      && F.Stake(o.factory.campaigns[c], who) == StakeAfter(F.Stake(f.campaigns[c], who), o.events, c, who)
  {
    var o, stake := F.DoContribute(f, d, amount, tx), F.Stake(f.campaigns[c], who);
    FactoryLogs.ContributeShape(f, d, amount, tx);
    if o.ok {
      FactorySolvency.ContributionShape(f, d, amount, tx);
      hide F.DoContribute;
      StakeUntouched(stake, Front(o.events), c, who);
      assert Last(o.events) == ContributionMade(d, tx.sender, amount);
    }
  }

  lemma ClaimStake(f: F.Factory, d: nat, tx: F.Tx, c: nat, who: Wallet)
    requires c in f.campaigns && (SameWallet(tx.sender, who) ==> tx.sender == who)
    ensures var o := F.DoClaimRefund(f, d, tx);
      && c in o.factory.campaigns
      && F.Stake(o.factory.campaigns[c], who) == StakeAfter(F.Stake(f.campaigns[c], who), o.events, c, who)
  {
    hide F.RefundOf;
    var o := F.DoClaimRefund(f, d, tx);
    if o.ok {
      assert Front(o.events) == [] && Last(o.events).RefundClaimed?;
    }
  }

  /** All other calls leave the stakes. */
  lemma OtherStakes(f: F.Factory, tx: F.Tx, c: nat)
    requires FactoryLogs.Counted(f) && c in f.campaigns && !tx.call.Contribute? && !tx.call.ClaimRefund?
    ensures var g := F.Exec(f, tx).factory; c in g.campaigns && g.campaigns[c].stakes == f.campaigns[c].stakes
  {
    CampaignMirror.FlagGrows(f, tx, c);
    if tx.call.CreateCampaign? {
      FactoryLogs.CreateShape(f, tx.call.creator, tx.call.goal, tx.call.deadline, tx.call.plans, tx);
      assert c <= f.campaignCounter;
    } else if tx.call.ConfirmRelease? {
      ReleaseStakes(f, tx.call.milestone, tx);
    } else if FactorySolvency.StatusCall(tx) {
      FactorySolvency.StatusCallsKeepMoney(f, tx);
    } else if FactorySolvency.ProposalCall(tx) {
      FactorySolvency.ProposalCallsKeepMoney(f, tx);
    } else {
      FactorySolvency.MilestoneCallsKeepMoney(f, tx, if tx.call.Finalize? then tx.call.milestone else 0);
    }
    hide F.DoCreate;
    hide F.DoConfirmRelease;
    hide F.DoSubmit;
    hide F.DoVote;
    hide F.DoFinalize;
  }

  lemma ReleaseStakes(f: F.Factory, m: nat, tx: F.Tx)
    ensures var g := F.DoConfirmRelease(f, m, tx).factory;
      forall c | c in f.campaigns && c in g.campaigns :: g.campaigns[c].stakes == f.campaigns[c].stakes
  {
    hide F.AllMilestones;
  }

  lemma StakeOfBlock(f: F.Factory, tx: F.Tx, c: nat, who: Wallet)
    requires FactoryLogs.Counted(f) && c in f.campaigns && (SameWallet(tx.sender, who) ==> tx.sender == who)
    ensures var o := F.Exec(f, tx);
      && c in o.factory.campaigns
      && F.Stake(o.factory.campaigns[c], who) == StakeAfter(F.Stake(f.campaigns[c], who), o.events, c, who)
  {
    if tx.call.Contribute? {
      ContributionStake(f, tx.call.campaign, tx.call.amount, tx, c, who);
    } else if tx.call.ClaimRefund? {
      ClaimStake(f, tx.call.campaign, tx, c, who);
    } else {
      OtherStakes(f, tx, c);
      ContractReplay.OnlyClaimsClaim(f, tx);
      ContractReplay.OnlyContributionsPay(f, tx);
      hide F.Exec;
      StakeUntouched(F.Stake(f.campaigns[c], who), F.Exec(f, tx).events, c, who);
    }
    hide F.DoContribute;
    hide F.DoClaimRefund;
  }

  // ---- Whole runs ---------------------------------------------------------------------

  /** One address is spelled one way on chain, and contributions come with new hashes. */
  ghost predicate Regular(db: Db, moves: seq<Sequencing.Move>, c: nat, who: Wallet) {
    moves == []
    || (Regular(db, Front(moves), c, who)
        && (Last(moves).OnChain? ==>
              && (SameWallet(Last(moves).tx.sender, who) ==> Last(moves).tx.sender == who)
              && FreshHashes(Sequencing.TablesAfter(db, Front(moves)), Last(moves).logs, c)))
  }

  /** Along every run a person's unrefunded rows add up to his stake on chain. */
  lemma {:induction false} OwedIsStake(
    f: F.Factory, db: Db, c: nat, row: RowId, moves: seq<Sequencing.Move>, who: Wallet)
    requires FactoryLogs.Counted(f) && c in f.campaigns && Sequencing.Faithful(f, moves)
    requires Valid(db) && c in db.links && db.links[c] == row && Regular(db, moves, c, who)
    requires Owed(db.book.rows, row, Lower(who)) == F.Stake(f.campaigns[c], who)
    ensures var g, t := Sequencing.ChainAfter(f, moves), Sequencing.TablesAfter(db, moves);
      c in g.campaigns && Owed(t.book.rows, row, Lower(who)) == F.Stake(g.campaigns[c], who)
  {
    hide F.Exec;
    hide Database.Fold;
    hide FactoryLogs.Counted;
    hide Owed;
    hide FreshHashes;
    hide F.Stake;
    if moves != [] {
      var front, last := Front(moves), Last(moves);
      OwedIsStake(f, db, c, row, front, who);
      if last.OnChain? {
        var g, t := Sequencing.ChainAfter(f, front), Sequencing.TablesAfter(db, front);
        CampaignMirror.CountedRun(f, front, c);
        CampaignMirror.LinksKept(db, front, c);
        StakeOfBlock(g, last.tx, c, who);
        OwedOnBlock(t, last.logs, F.Exec(g, last.tx).events, c, row, who);
      }
    }
  }

  // ---- What the list shows ------------------------------------------------------------

  /** The rows of an answer that belong to one campaign. */
  function Part(rows: UsersService.Rows, answer: seq<int>, campaign: RowId): UsersService.Rows {
    map h | h in rows && h in answer && rows[h].campaign == campaign :: rows[h]
  }

  lemma PartGrows(rows: UsersService.Rows, front: seq<int>, last: int, campaign: RowId)
    requires last in rows && last !in front
    ensures var part, earlier := Part(rows, front + [last], campaign), Part(rows, front, campaign);
      if rows[last].campaign == campaign then last in part && part[last] == rows[last] && part - {last} == earlier
      else part == earlier
  {
  }

  lemma AmountsGrow(rows: UsersService.Rows, answer: seq<int>)
    requires answer != [] && UsersService.AllIn(rows, answer)
    ensures UsersService.AllIn(rows, Front(answer))
    ensures Front(UsersService.Amounts(rows, answer)) == UsersService.Amounts(rows, Front(answer))
    ensures Last(UsersService.Amounts(rows, answer))
         == Grouping.Item(rows[Last(answer)].campaign, rows[Last(answer)].amount)
  {
  }

  lemma {:induction false} MembersTotal(rows: UsersService.Rows, answer: seq<int>, campaign: RowId)
    requires UsersService.AllIn(rows, answer) && Grouping.NoRepeats(answer)
    ensures Grouping.TotalOf(UsersService.Amounts(rows, answer), campaign)
         == Funding.Total(Part(rows, answer, campaign), campaign)
  {
    if answer == [] {
      assert Part(rows, answer, campaign) == map[];
    } else {
      var front, last := Front(answer), Last(answer);
      assert forall i | 0 <= i < |front| :: front[i] == answer[i] != last;
      assert answer == front + [last];
      AmountsGrow(rows, answer);
      MembersTotal(rows, front, campaign);
      PartGrows(rows, front, last, campaign);
      hide Part;
      hide UsersService.Amounts;
      if rows[last].campaign == campaign {
        Funding.TotalAt(Part(rows, answer, campaign), last, campaign);
      }
      hide Funding.Total;
    }
  }

  /** Whether the list has a group for the campaign. */
  predicate Listed(groups: seq<UsersService.Group>, campaign: RowId) {
    exists i | 0 <= i < |groups| :: groups[i].campaign == campaign
  }

  lemma NothingOwed(rows: UsersService.Rows, campaign: RowId, user: Wallet)
    requires forall h | h in rows :: !Unrefunded(rows[h], campaign, user)
    ensures Owed(rows, campaign, user) == 0
  {
    var own := OwnRows(rows, campaign, user);
    assert forall h: int :: h !in own;
  }

  lemma SomethingOwed(rows: UsersService.Rows, campaign: RowId, user: Wallet)
    requires Owed(rows, campaign, user) > 0
    ensures exists h | h in rows :: Unrefunded(rows[h], campaign, user)
  {
    hide Owed;
    if forall h | h in rows :: !Unrefunded(rows[h], campaign, user) {
      NothingOwed(rows, campaign, user);
    }
  }

  /** The group shows the whole of what is owed, if the row may be reclaimed at all. */
  lemma GroupShowsOwed(
    rows: UsersService.Rows, lives: Lifecycle.Table, user: Wallet, answer: seq<int>, groups: seq<UsersService.Group>,
    campaign: RowId)
    requires UsersService.AllIn(rows, answer) && UsersService.Answers(rows, lives, user, answer)
    requires UsersService.Groups(rows, answer, groups) && Owed(rows, campaign, user) > 0
    ensures Listed(groups, campaign) <==> UsersService.Refundable(lives, campaign)
    ensures forall i | 0 <= i < |groups| && groups[i].campaign == campaign ::
      groups[i].total == Owed(rows, campaign, user)
  {
    UsersService.EachInOneGroup(rows, lives, user, answer, groups);
    SomethingOwed(rows, campaign, user);
    var h :| h in rows && Unrefunded(rows[h], campaign, user);
    if UsersService.Refundable(lives, campaign) {
      assert UsersService.Reclaimable(rows, lives, user, h);
      var i :| 0 <= i < |groups| && h in groups[i].members;
      assert groups[i].campaign == campaign;
    }
    forall i | 0 <= i < |groups| && groups[i].campaign == campaign
      ensures UsersService.Refundable(lives, campaign) && groups[i].total == Owed(rows, campaign, user)
    {
      GroupNotEmpty(rows, lives, user, answer, groups, i);
      MembersTotal(rows, answer, campaign);
      SameRows(rows, lives, user, answer, campaign);
    }
  }

  lemma GroupNotEmpty(
    rows: UsersService.Rows, lives: Lifecycle.Table, user: Wallet, answer: seq<int>, groups: seq<UsersService.Group>,
    i: nat)
    requires UsersService.AllIn(rows, answer) && UsersService.Answers(rows, lives, user, answer)
    requires UsersService.Groups(rows, answer, groups) && i < |groups|
    ensures UsersService.Refundable(lives, groups[i].campaign)
  {
    var items := UsersService.Amounts(rows, answer);
    Grouping.KeysExact(items);
    var c := groups[i].campaign;
    assert c in Grouping.Keys(items);
    var n :| 0 <= n < |items| && items[n].key == c;
    assert UsersService.Reclaimable(rows, lives, user, answer[n]);
  }

  lemma SameRows(rows: UsersService.Rows, lives: Lifecycle.Table, user: Wallet, answer: seq<int>, campaign: RowId)
    requires UsersService.AllIn(rows, answer) && UsersService.Answers(rows, lives, user, answer)
    requires UsersService.Refundable(lives, campaign)
    ensures Part(rows, answer, campaign) == OwnRows(rows, campaign, user)
  {
    forall h | h in rows
      ensures h in answer && rows[h].campaign == campaign <==> Unrefunded(rows[h], campaign, user)
    {
      if h in answer {
        var i :| 0 <= i < |answer| && answer[i] == h;
        assert UsersService.Reclaimable(rows, lives, user, answer[i]);
      }
      if Unrefunded(rows[h], campaign, user) {
        assert UsersService.Reclaimable(rows, lives, user, h);
      }
    }
  }

  /** When the contract offers refunds that the list does not show. */
  predicate Hidden(status: F.Status) {
    status == F.Funded || status == F.Completed
  }

  lemma RefundableCopied(g: F.Campaign, lives: Lifecycle.Table, row: RowId)
    requires g.status != F.Pending && row in lives
    requires lives[row] == Lifecycle.Life(CampaignMirror.DbStatus(g.status), true, g.fundsReclaimed)
    ensures UsersService.Refundable(lives, row) <==> g.fundsReclaimed && !Hidden(g.status)
  {
  }

  /** On tables that follow the contract, a stake that is left is listed, whole, if and only
      if refunds are open and the campaign is neither funded nor completed. */
  lemma ListedExactly(
    g: F.Campaign, t: Db, row: RowId, who: Wallet, answer: seq<int>, groups: seq<UsersService.Group>)
    requires g.status != F.Pending && row in t.lives
    requires t.lives[row] == Lifecycle.Life(CampaignMirror.DbStatus(g.status), true, g.fundsReclaimed)
    requires Owed(t.book.rows, row, Lower(who)) == F.Stake(g, who) > 0
    requires UsersService.AllIn(t.book.rows, answer) && UsersService.Answers(t.book.rows, t.lives, Lower(who), answer)
    requires UsersService.Groups(t.book.rows, answer, groups)
    ensures Listed(groups, row) <==> g.fundsReclaimed && !Hidden(g.status)
    ensures forall i | 0 <= i < |groups| && groups[i].campaign == row :: groups[i].total == F.Stake(g, who)
  {
    hide Owed;
    GroupShowsOwed(t.book.rows, t.lives, Lower(who), answer, groups, row);
    RefundableCopied(g, t.lives, row);
    hide UsersService.Refundable;
  }

  /** So of the refunds the contract would pay, exactly those of funded and completed
      campaigns are not shown. */
  lemma PaidButHidden(
    f: F.Factory, c: nat, tx: F.Tx, t: Db, row: RowId, answer: seq<int>, groups: seq<UsersService.Group>)
    requires F.DoClaimRefund(f, c, tx).ok
    requires c in f.campaigns && f.campaigns[c].status != F.Pending && row in t.lives
    requires t.lives[row]
          == Lifecycle.Life(CampaignMirror.DbStatus(f.campaigns[c].status), true, f.campaigns[c].fundsReclaimed)
    requires Owed(t.book.rows, row, Lower(tx.sender)) == F.Stake(f.campaigns[c], tx.sender)
    requires UsersService.AllIn(t.book.rows, answer)
    requires UsersService.Answers(t.book.rows, t.lives, Lower(tx.sender), answer)
    requires UsersService.Groups(t.book.rows, answer, groups)
    ensures Listed(groups, row) <==> !Hidden(f.campaigns[c].status)
  {
    ClaimNeeds(f, c, tx);
    hide F.DoClaimRefund;
    hide Owed;
    ListedExactly(f.campaigns[c], t, row, tx.sender, answer, groups);
  }

  lemma ClaimNeeds(f: F.Factory, c: nat, tx: F.Tx)
    requires F.DoClaimRefund(f, c, tx).ok
    ensures c in f.campaigns && f.campaigns[c].fundsReclaimed && F.Stake(f.campaigns[c], tx.sender) > 0
  {
    hide F.RefundOf;
  }

  // ---- The hidden case is reachable ---------------------------------------------------

  const GOAL_STAKE := F.Tx(F.Contribute(1, 900), "v", 6)

  predicate Stands(f: F.Factory, status: F.Status, reclaimed: bool, raised: nat) {
    && 1 in f.campaigns
    && var c := f.campaigns[1];
       && c.status == status && c.deadline == 100 && c.goal == 1_000 && c.raised == raised && c.withdrawn == 0
       && F.Stake(c, "u") == 100 && c.fundsReclaimed == reclaimed && c.refundProposal == 1
       && 1 in f.refundProposals && f.refundProposals[1] == F.Proposal("a", reclaimed)
  }

  /** A refund proposed while the campaign was flagged is approved after it was unflagged
      and reached its goal. */
  function HiddenRun(): seq<F.Tx> {
    [FactoryLogs.CREATION, FactoryLogs.FIRST_STAKE, FactoryLogs.FLAG, FactoryLogs.FLAG_AGAIN, FactoryLogs.REFUND,
     FactoryLogs.UNFLAG, GOAL_STAKE, FactoryLogs.REFUND_AGAIN]
  }

  lemma AfterOne(txs: seq<F.Tx>, k: nat)
    requires k < |txs|
    ensures F.After(F.Empty(), txs[..k + 1]) == F.Exec(F.After(F.Empty(), txs[..k]), txs[k]).factory
  {
    hide F.Exec;
    assert Front(txs[..k + 1]) == txs[..k];
  }

  lemma UntilUnflagged() returns (f: F.Factory)
    ensures f == F.After(F.Empty(), HiddenRun()[..6])
    ensures FactoryLogs.Stands(f, F.Active, 100, [F.Proposal("a", true)], [F.Proposal("a", false)], false)
  {
    hide F.Exec;
    hide FactoryLogs.Stands;
    var run := HiddenRun();
    assert run[..0] == [] && F.After(F.Empty(), run[..0]) == F.Empty();
    hide F.After;
    AfterOne(run, 0);
    AfterOne(run, 1);
    AfterOne(run, 2);
    AfterOne(run, 3);
    AfterOne(run, 4);
    AfterOne(run, 5);
    FactoryLogs.Opening(F.After(F.Empty(), run[..1]), F.After(F.Empty(), run[..2]));
    FactoryLogs.Flagging(F.After(F.Empty(), run[..2]), F.After(F.Empty(), run[..3]));
    FactoryLogs.Unflagging(F.After(F.Empty(), run[..4]), F.After(F.Empty(), run[..5]));
    f := F.After(F.Empty(), run[..6]);
  }

  /** After it the campaign is funded, so not listed, and the contract pays a claim. */
  lemma HiddenIsReachable()
    ensures var g := F.After(F.Empty(), HiddenRun());
      1 in g.campaigns && Hidden(g.campaigns[1].status) && F.DoClaimRefund(g, 1, FactoryLogs.CLAIM).ok
  {
    var f := UntilUnflagged();
    var run := HiddenRun();
    assert Stands(f, F.Active, false, 100);
    hide F.After;
    hide F.Exec;
    AfterOne(run, 6);
    AfterOne(run, 7);
    assert run[..8] == run;
    GoalReached(f);
    Approved(F.After(F.Empty(), run[..7]));
    ClaimPaid(F.After(F.Empty(), run));
    hide Stands;
  }

  lemma GoalReached(f: F.Factory)
    requires Stands(f, F.Active, false, 100)
    ensures Stands(F.Exec(f, GOAL_STAKE).factory, F.Funded, false, 1_000)
  {
  }

  lemma Approved(f: F.Factory)
    requires Stands(f, F.Funded, false, 1_000)
    ensures Stands(F.Exec(f, FactoryLogs.REFUND_AGAIN).factory, F.Funded, true, 1_000)
  {
  }

  lemma ClaimPaid(f: F.Factory)
    requires Stands(f, F.Funded, true, 1_000)
    ensures 1 in f.campaigns && Hidden(f.campaigns[1].status) && F.DoClaimRefund(f, 1, FactoryLogs.CLAIM).ok
  {
    assert F.RefundOf(100, 1_000, 1_000) == 95;
  }
}
