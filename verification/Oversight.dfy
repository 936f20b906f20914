/** What the admins' oversight list shows of the milestones that need somebody's work. */
module Oversight {
  import opened Common
  import opened Events
  import opened Database
  import CampaignMirror
  import F = CampaignFactory
  import FactoryLogs
  import FactoryStages
  import Lifecycle
  import Sequencing
  import Stages

  lemma StatusCopied(s: F.Status)
    requires s != F.Pending
    ensures Sequencing.Overseen(CampaignMirror.DbStatus(s)) <==> s == F.Active || s == F.Funded
  {
  }

  /** Along everything mined, indexed and uploaded: a milestone that takes a proof or a
      release proposal is shown if and only if its campaign is live on chain, and it is the
      only such milestone of the campaign. */
  lemma ShownWhileLive(
    f: F.Factory, db: Db, c: nat, row: RowId, moves: seq<Sequencing.Move>, latest: bool, r: RowId)
    requires FactoryStages.Sequential(f) && Sequencing.PlansExact(db.catalog) && Sequencing.Bound(db.catalog, f, c, row)
    requires Sequencing.Mirrors(f, f.campaigns[c].milestones, db.catalog.plan[row], db.board)
    requires CampaignMirror.Mirrored(f, db, c, row, latest)
    requires Sequencing.Faithful(f, moves) && CampaignMirror.HeadsHonest(f, moves, c, latest)
    requires var g := Sequencing.ChainAfter(f, moves); c in g.campaigns && (g.campaigns[c].fundsReclaimed ==> latest)
    requires r in db.catalog.plan[row]
    ensures var g, t, rows := Sequencing.ChainAfter(f, moves), Sequencing.TablesAfter(db, moves), db.catalog.plan[row];
      && r in t.board && row in t.lives
      && (Sequencing.Actionable(t.board[r].status) ==>
            && (Sequencing.Shown(t.lives[row].status, rows, t.board) == Some(r) <==> F.Live(g.campaigns[c]))
            && forall s | s in rows && s in t.board && Sequencing.Actionable(t.board[s].status) :: s == r)
  {
    hide Sequencing.ChainAfter;
    hide Sequencing.TablesAfter;
    hide FactoryStages.Sequential;
    hide Sequencing.Mirrors;
    hide Sequencing.Shown;
    hide Sequencing.Actionable;
    var g, t, rows := Sequencing.ChainAfter(f, moves), Sequencing.TablesAfter(db, moves), db.catalog.plan[row];
    Sequencing.AlwaysMirrors(f, db, c, row, moves);
    CampaignMirror.AlwaysMirrored(f, db, c, row, moves, latest);
    Sequencing.CurrentIsActionable(g, c, rows, t.board, r);
    StatusCopied(g.campaigns[c].status);
    hide CampaignMirror.DbStatus;
    hide Sequencing.Overseen;
    if Sequencing.Actionable(t.board[r].status) {
      Sequencing.ThreeViewsAgree(g, c, rows, t.board, t.lives[row].status, r);
      forall s | s in rows && s in t.board && Sequencing.Actionable(t.board[s].status)
        ensures s == r
      {
        Sequencing.OneActionable(g, c, rows, t.board, r, s);
      }
    }
  }

  // ---- The other case is reachable ----------------------------------------------------

  const CREATION := F.Tx(F.CreateCampaign("c", 100, 100, [F.Plan(100, 50)]), "a", 0)
  const STAKE := F.Tx(F.Contribute(1, 100), "u", 1)
  const SUBMISSION := F.Tx(F.Submit(1, "p"), "c", 2)
  const BALLOT := F.Tx(F.VoteOn(1, true), "u", 3)
  const RESULT := F.Tx(F.Finalize(1), "c", 604_802)

  /** A funded campaign whose only milestone passes its vote. */
  function PassedRun(): seq<F.Tx> {
    [CREATION, STAKE, SUBMISSION, BALLOT, RESULT]
  }

  predicate Stands(f: F.Factory, status: F.Status, raised: nat, state: F.State, votes: nat) {
    && 1 in f.campaigns && 1 in f.milestones && F.ReleaseIdOf(f, 1) == 0
    && var c, m := f.campaigns[1], f.milestones[1];
       && c.status == status && c.raised == raised && c.milestones == [1] && c.creator == "c" && c.goal == 100
       && c.deadline == 100 && F.Stake(c, "u") == raised
       && m.campaign == 1 && m.state == state && m.votesFor == votes && m.votesAgainst == 0
       && m.submissions == (if state == F.Waiting then 0 else 1)
       && (state != F.Waiting ==> m.votingEnd == 604_802 && m.raisedAtStart == 100)
       && (state != F.Approved && votes == 0 ==> m.rounds == map[])
  }

  lemma Opened(f: F.Factory)
    requires f == F.Exec(F.Empty(), CREATION).factory
    ensures Stands(f, F.Active, 0, F.Waiting, 0)
  {
    assert Front(CREATION.call.plans) == [];
    assert F.SumPlans([]) == 0;
    assert F.SumPlans(CREATION.call.plans) == 100;
    hide F.SumPlans;
    var ids := seq(1, i => 1 + i);
    assert ids == [1];
  }

  lemma Staked(f: F.Factory)
    requires Stands(f, F.Active, 0, F.Waiting, 0)
    ensures Stands(F.Exec(f, STAKE).factory, F.Funded, 100, F.Waiting, 0)
  {
  }

  lemma Submitted(f: F.Factory)
    requires Stands(f, F.Funded, 100, F.Waiting, 0)
    ensures Stands(F.Exec(f, SUBMISSION).factory, F.Funded, 100, F.Voting, 0)
  {
    assert F.Position([1], 1) == 0;
  }

  lemma Voted(f: F.Factory)
    requires Stands(f, F.Funded, 100, F.Voting, 0)
    ensures Stands(F.Exec(f, BALLOT).factory, F.Funded, 100, F.Voting, 100)
  {
  }

  lemma Finalized(f: F.Factory)
    requires Stands(f, F.Funded, 100, F.Voting, 100)
    ensures Stands(F.Exec(f, RESULT).factory, F.Completed, 100, F.Approved, 100)
  {
  }

  lemma PassedRunEnds()
    ensures Stands(F.After(F.Empty(), PassedRun()), F.Completed, 100, F.Approved, 100)
  {
    hide F.Exec;
    hide Stands;
    var run := PassedRun();
    var f1 := F.Exec(F.Empty(), CREATION).factory;
    Opened(f1);
    var f2 := F.Exec(f1, STAKE).factory;
    Staked(f1);
    var f3 := F.Exec(f2, SUBMISSION).factory;
    Submitted(f2);
    var f4 := F.Exec(f3, BALLOT).factory;
    Voted(f3);
    Finalized(f4);
    assert run[..0] == [] && run[..1] == [CREATION] && run[..5] == run;
    forall k | 0 <= k < 5
      ensures Front(run[..k + 1]) == run[..k] && Last(run[..k + 1]) == run[k]
    {}
    assert F.After(F.Empty(), run[..0]) == F.Empty();
    assert F.After(F.Empty(), run[..1]) == f1;
    assert F.After(F.Empty(), run[..2]) == f2;
    assert F.After(F.Empty(), run[..3]) == f3;
    assert F.After(F.Empty(), run[..4]) == f4;
    assert F.After(F.Empty(), run[..5]) == F.Exec(f4, RESULT).factory;
  }

  /** After it, the milestone waits for its release, which the services and the contract
      accept, but the campaign is completed and the list shows nothing of it. */
  lemma ApprovedWorkHidden(
    rows: seq<RowId>, board: Stages.Board, status: Lifecycle.CampaignStatus, admin: Wallet, now: nat)
    requires var g := F.After(F.Empty(), PassedRun());
      && 1 in g.campaigns && Sequencing.Mirrors(g, g.campaigns[1].milestones, rows, board)
      && status == CampaignMirror.DbStatus(g.campaigns[1].status)
    ensures |rows| == 1 && rows[0] in board && Sequencing.AcceptsRelease(board[rows[0]].status)
    ensures Sequencing.Shown(status, rows, board) == None
    ensures F.Exec(F.After(F.Empty(), PassedRun()), F.Tx(F.ProposeRelease(1), admin, now)).ok
  {
    hide F.After;
    PassedRunEnds();
    var g := F.After(F.Empty(), PassedRun());
    assert board[rows[0]].status == Sequencing.Expected(g, [1], 0);
  }
}
