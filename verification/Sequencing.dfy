/** Milestones in sequence across contract and database: the statuses that the indexer
    keeps follow the contract's states, so that one milestone at most is ever actionable. */
module Sequencing {
  import opened Common
  import opened Events
  import opened Database
  import opened FactoryStages
  import F = CampaignFactory
  import Independence
  import FactoryLogs
  import Lifecycle
  import Stages

  /** The campaign's rows in ascending order are bound, one to one, to its on-chain list,
      and to nothing else. */
  ghost predicate Bound(catalog: Catalog, f: F.Factory, c: nat, row: RowId) {
    && c in f.campaigns && row in catalog.plan
    && var ids, rows := f.campaigns[c].milestones, catalog.plan[row];
       && |ids| == |rows| && Distinct(rows)
       && (forall i | 0 <= i < |ids| :: ids[i] in catalog.milestoneRow && catalog.milestoneRow[ids[i]] == rows[i])
       && (forall m | m in catalog.milestoneRow && m !in ids :: catalog.milestoneRow[m] !in rows)
  }

  /** A campaign's list holds exactly the milestone rows that belong to it. */
  ghost predicate PlansExact(catalog: Catalog) {
    && Independence.PlansOwned(catalog)
    && forall m | m in catalog.campaignOf && catalog.campaignOf[m] in catalog.plan ::
         m in catalog.plan[catalog.campaignOf[m]]
  }

  function StateAt(f: F.Factory, ids: seq<nat>, i: nat): F.State
    requires i < |ids|
  {
    if ids[i] in f.milestones then f.milestones[ids[i]].state else F.Waiting
  }

  /** The database status for an on-chain state: a milestone that waits on chain is shown
      as ongoing once the one before it is done. */
  function Expected(f: F.Factory, ids: seq<nat>, i: nat): Stages.MilestoneStatus
    requires i < |ids|
  {
    match StateAt(f, ids, i)
    case Waiting => if i == 0 || StateAt(f, ids, i - 1) == F.Done then Stages.Ongoing else Stages.NotStarted
    case Voting => Stages.Voting
    case Approved => Stages.Approved
    case Rejected => Stages.Rejected
    case Done => Stages.Completed
  }

  ghost predicate Mirrors(f: F.Factory, ids: seq<nat>, rows: seq<RowId>, board: Stages.Board) {
    && |ids| == |rows|
    && forall i | 0 <= i < |rows| :: rows[i] in board && board[rows[i]].status == Expected(f, ids, i)
  }

  // ---- One event of a transaction concerns milestone states at most --------------------

  predicate IsStage(e: Event) {
    e.MilestoneSubmitted? || e.VotingFinalized? || e.FundsReleased?
  }

  predicate OnlyAt(events: seq<Event>, k: int) {
    forall i | 0 <= i < |events| && i != k :: !IsStage(events[i])
  }

  /** What the one stage event, if any, says about the milestone that moved. */
  ghost predicate Reports(f: F.Factory, g: F.Factory, m: nat, e: Event) {
    && m in f.milestones && m in g.milestones
    && match e
       case MilestoneSubmitted(n, _, _) => n == m && g.milestones[m].state == F.Voting && f.milestones[m].state != F.Done
       case VotingFinalized(n, approved) =>
         && n == m && f.milestones[m].state == F.Voting
         && g.milestones[m].state == (if approved then F.Approved else F.Rejected)
       case FundsReleased(n, _) => n == m && f.milestones[m].state == F.Approved && g.milestones[m].state == F.Done
       case _ => false
  }

  ghost predicate Quiet(f: F.Factory, g: F.Factory) {
    forall m | m in f.milestones && m in g.milestones :: g.milestones[m].state == f.milestones[m].state
  }

  /** A transaction's block has at most one stage event, which reports the move. */
  ghost predicate OneReport(f: F.Factory, m: nat, o: F.Outcome, k: int) {
    && OnlyAt(o.events, k)
    && if 0 <= k < |o.events| then Reports(f, o.factory, m, o.events[k]) else Quiet(f, o.factory)
  }

  lemma SubmitReport(f: F.Factory, m: nat, proof: string, tx: F.Tx)
    ensures OneReport(f, m, F.DoSubmit(f, m, proof, tx), 0)
  {
    hide F.PreviousDone;
  }

  lemma FinalizeReport(f: F.Factory, m: nat, tx: F.Tx)
    ensures OneReport(f, m, F.DoFinalize(f, m, tx), 0)
  {
    hide F.AllMilestones;
    hide F.Passed;
  }

  lemma ReleaseReport(f: F.Factory, m: nat, tx: F.Tx)
    ensures var o := F.DoConfirmRelease(f, m, tx); OneReport(f, m, o, |o.events| - 1)
  {
    hide F.AllMilestones;
  }

  lemma VoteReport(f: F.Factory, m: nat, approve: bool, tx: F.Tx)
    ensures OneReport(f, 0, F.DoVote(f, m, approve, tx), -1)
  {
  }

  lemma CampaignReport(f: F.Factory, tx: F.Tx)
    requires Wired(f) && !tx.call.CreateCampaign?
    requires !tx.call.VoteOn? && !tx.call.Submit? && !tx.call.Finalize? && !tx.call.ConfirmRelease?
    ensures OneReport(f, 0, F.Exec(f, tx), -1)
  {
    CampaignCallStays(f, tx);
    assert Quiet(f, F.Exec(f, tx).factory);
    CampaignEvents(f, tx);
    hide F.Exec;
  }

  lemma CampaignEvents(f: F.Factory, tx: F.Tx)
    requires !tx.call.CreateCampaign?
    requires !tx.call.VoteOn? && !tx.call.Submit? && !tx.call.Finalize? && !tx.call.ConfirmRelease?
    ensures OnlyAt(F.Exec(f, tx).events, -1)
  {
    hide F.RefundOf;
  }

  lemma CreationReport(f: F.Factory, tx: F.Tx)
    requires Sequential(f) && tx.call.CreateCampaign?
    ensures OneReport(f, 0, F.Exec(f, tx), -1)
    ensures F.Exec(f, tx).ok ==> Added(f, F.Exec(f, tx).factory, |tx.call.plans|)
  {
    if F.Exec(f, tx).ok {
      CreationShape(f, tx);
    }
  }

  /** The position of the stage event in the block. */
  lemma ReportOf(f: F.Factory, tx: F.Tx) returns (k: int)
    requires Sequential(f)
    ensures OneReport(f, Moved(tx), F.Exec(f, tx), k)
  {
    hide OneReport;
    match tx.call
    case Submit(m, proof) => SubmitReport(f, m, proof, tx); k := 0;
    case Finalize(m) => FinalizeReport(f, m, tx); k := 0;
    case ConfirmRelease(m) => ReleaseReport(f, m, tx); k := |F.Exec(f, tx).events| - 1;
    case VoteOn(m, approve) => VoteReport(f, m, approve, tx); k := -1;
    case CreateCampaign(_, _, _, _) => CreationReport(f, tx); k := -1;
    case _ => CampaignReport(f, tx); k := -1;
  }

  // ---- What the board makes of a block ------------------------------------------------

  function BoardAt(board: Stages.Board, catalog: Catalog, logs: seq<Log>, k: int): Stages.Board {
    if 0 <= k < |logs| then Stages.Run(board, StageOps(catalog, logs[k])) else board
  }

  lemma {:induction false} BlockOnBoard(db: Db, logs: seq<Log>, k: int)
    requires forall i | 0 <= i < |logs| && i != k :: !IsStage(logs[i].event)
    ensures Fold(db, logs).board == BoardAt(db.board, db.catalog, logs, k)
    ensures Fold(db, logs).catalog == db.catalog
  {
    if logs != [] {
      BlockOnBoard(db, Front(logs), k);
      var m, n := Fold(db, Front(logs)), |logs| - 1;
      assert Last(logs) == logs[n];
      StageEventOnly(m, logs[n]);
    }
  }

  lemma StageEventOnly(db: Db, log: Log)
    ensures Apply(db, log).board == Stages.Run(db.board, StageOps(db.catalog, log))
    ensures !IsStage(log.event) ==> Stages.Run(db.board, StageOps(db.catalog, log)) == db.board
    ensures Apply(db, log).catalog == db.catalog
  {
  }

  /** The stage op of a milestone outside the campaign touches none of the campaign's rows. */
  lemma ForeignReport(catalog: Catalog, board: Stages.Board, rows: seq<RowId>, row: RowId, log: Log)
    requires PlansExact(catalog) && row in catalog.plan && catalog.plan[row] == rows
    requires log.event.MilestoneSubmitted? || log.event.VotingFinalized? || log.event.FundsReleased?
    requires log.event.milestone in catalog.milestoneRow ==> catalog.milestoneRow[log.event.milestone] !in rows
    ensures var b := Stages.Run(board, StageOps(catalog, log));
      forall i | 0 <= i < |rows| && rows[i] in board :: rows[i] in b && b[rows[i]] == board[rows[i]]
  {
    var ops := StageOps(catalog, log);
    if ops != [] {
      Stages.RunOne(board, ops[0]);
      NextElsewhere(catalog, rows, row, catalog.milestoneRow[log.event.milestone]);
    }
  }

  lemma NextElsewhere(catalog: Catalog, rows: seq<RowId>, row: RowId, r: RowId)
    requires PlansExact(catalog) && row in catalog.plan && catalog.plan[row] == rows && r !in rows
    ensures NextRow(catalog, r).Some? ==> NextRow(catalog, r).value !in rows
  {
    var next := NextRow(catalog, r);
    if next.Some? {
      var other := catalog.campaignOf[r];
      assert other != row;
      var i :| 0 <= i < |catalog.plan[other]| && catalog.plan[other][i] == next.value;
      assert catalog.campaignOf[next.value] == other;
      assert forall j | 0 <= j < |rows| :: catalog.campaignOf[catalog.plan[row][j]] == row;
    }
  }

  lemma NextInPlan(catalog: Catalog, rows: seq<RowId>, row: RowId, k: nat)
    requires PlansExact(catalog) && row in catalog.plan && catalog.plan[row] == rows && Distinct(rows) && k < |rows|
    ensures NextRow(catalog, rows[k]) == if k + 1 < |rows| then Some(rows[k + 1]) else None
  {
    assert catalog.campaignOf[catalog.plan[row][k]] == row;
    var i := IndexOf(rows, rows[k]);
    assert rows[k] in rows && rows[i] == rows[k];
  }

  // ---- One transaction ----------------------------------------------------------------

  /** The states of a campaign's milestones after a move of its k-th one. */
  ghost predicate MovedAt(f: F.Factory, g: F.Factory, ids: seq<nat>, k: int) {
    forall i | 0 <= i < |ids| && i != k :: StateAt(g, ids, i) == StateAt(f, ids, i)
  }

  ghost predicate OrderedStates(f: F.Factory, ids: seq<nat>) {
    forall i, j | 0 <= i < j < |ids| :: StateAt(f, ids, j) != F.Waiting ==> StateAt(f, ids, i) == F.Done
  }

  /** Submission and finalization write the status of one row, as the contract does. */
  lemma MirrorStatus(f: F.Factory, g: F.Factory, ids: seq<nat>, rows: seq<RowId>, k: nat, a: Stages.Board, b: Stages.Board)
    requires Mirrors(f, ids, rows, a) && Distinct(rows) && k < |ids| && MovedAt(f, g, ids, k)
    requires StateAt(f, ids, k) != F.Done
    requires StateAt(g, ids, k) != F.Done && StateAt(g, ids, k) != F.Waiting
    requires b.Keys == a.Keys && b[rows[k]].status == Expected(g, ids, k)
    requires forall r | r in a && r != rows[k] :: b[r] == a[r]
    ensures Mirrors(g, ids, rows, b)
  {
    forall i | 0 <= i < |rows|
      ensures rows[i] in b && b[rows[i]].status == Expected(g, ids, i)
    {
      assert i == k || rows[i] != rows[k];
      assert rows[i] in a && a[rows[i]].status == Expected(f, ids, i);
    }
  }

  /** A release completes one row and unlocks the next, as the contract does. */
  lemma MirrorRelease(f: F.Factory, g: F.Factory, ids: seq<nat>, rows: seq<RowId>, k: nat, a: Stages.Board)
    requires Mirrors(f, ids, rows, a) && Distinct(rows) && k < |ids| && MovedAt(f, g, ids, k)
    requires OrderedStates(f, ids)
    requires StateAt(f, ids, k) == F.Approved && StateAt(g, ids, k) == F.Done
    ensures Mirrors(g, ids, rows, Stages.Step(a, Stages.Release(rows[k], if k + 1 < |rows| then Some(rows[k + 1]) else None)))
  {
    var b := Stages.Step(a, Stages.Release(rows[k], if k + 1 < |rows| then Some(rows[k + 1]) else None));
    forall i | 0 <= i < |rows|
      ensures rows[i] in b && b[rows[i]].status == Expected(g, ids, i)
    {
      assert i == k || rows[i] != rows[k];
      assert rows[i] in a && a[rows[i]].status == Expected(f, ids, i);
      if k + 1 < |rows| { assert i == k + 1 || rows[i] != rows[k + 1]; }
    }
  }

  lemma MirrorReport(
    f: F.Factory, g: F.Factory, catalog: Catalog, row: RowId, ids: seq<nat>, k: nat, board: Stages.Board, log: Log)
    requires PlansExact(catalog) && row in catalog.plan
    requires var rows := catalog.plan[row];
      && Mirrors(f, ids, rows, board) && Distinct(rows) && k < |ids|
      && ids[k] in catalog.milestoneRow && catalog.milestoneRow[ids[k]] == rows[k]
    requires MovedAt(f, g, ids, k) && OrderedStates(f, ids) && Reports(f, g, ids[k], log.event)
    ensures Mirrors(g, ids, catalog.plan[row], Stages.Run(board, StageOps(catalog, log)))
  {
    var rows, op := catalog.plan[row], StageOps(catalog, log)[0];
    Stages.RunOne(board, op);
    if log.event.FundsReleased? {
      NextInPlan(catalog, rows, row, k);
      MirrorRelease(f, g, ids, rows, k, board);
    } else {
      MirrorStatus(f, g, ids, rows, k, board, Stages.Step(board, op));
    }
  }

  /** Other milestones and the campaign's list stay as they are in one transaction. */
  lemma StatesAround(f: F.Factory, tx: F.Tx, c: nat)
    requires Sequential(f) && c in f.campaigns
    ensures var g, ids := F.Exec(f, tx).factory, f.campaigns[c].milestones;
      && c in g.campaigns && g.campaigns[c].milestones == ids
      && forall i | 0 <= i < |ids| :: ids[i] in f.milestones && ids[i] in g.milestones
           && (ids[i] != Moved(tx) ==> g.milestones[ids[i]].state == f.milestones[ids[i]].state)
  {
    hide F.Exec;
    assert ListWired(f, c);
    if tx.call.CreateCampaign? {
      CreationReport(f, tx);
      CreationKeeps(f, tx, c);
    } else {
      OneMilestoneMoves(f, tx);
      forall n | n in f.milestones
        ensures n in F.Exec(f, tx).factory.milestones
        ensures n != Moved(tx) ==> F.Exec(f, tx).factory.milestones[n].state == f.milestones[n].state
      {
        MoveFacts(f, F.Exec(f, tx).factory, Moved(tx), n);
      }
      hide LegalMove;
      SameLists(f, tx);
    }
  }

  lemma SameLists(f: F.Factory, tx: F.Tx)
    requires Wired(f) && !tx.call.CreateCampaign? && LegalMove(f, F.Exec(f, tx).factory, Moved(tx))
    ensures SameWiring(f, F.Exec(f, tx).factory)
  {
  }

  lemma CreationKeeps(f: F.Factory, tx: F.Tx, c: nat)
    requires Sequential(f) && c in f.campaigns && tx.call.CreateCampaign?
    requires F.Exec(f, tx).ok ==> Added(f, F.Exec(f, tx).factory, |tx.call.plans|)
    ensures var g := F.Exec(f, tx).factory;
      && c in g.campaigns && g.campaigns[c] == f.campaigns[c]
      && forall m | m in f.milestones :: m in g.milestones && g.milestones[m] == f.milestones[m]
  {
    if !F.Exec(f, tx).ok {
      assert F.Exec(f, tx).factory == f;
    }
  }

  lemma OrderedIn(f: F.Factory, c: nat)
    requires Sequential(f) && c in f.campaigns
    ensures OrderedStates(f, f.campaigns[c].milestones)
  {
    assert ListWired(f, c) && InOrder(f, c);
  }

  lemma MirrorQuiet(f: F.Factory, g: F.Factory, ids: seq<nat>, rows: seq<RowId>, a: Stages.Board, b: Stages.Board)
    requires Mirrors(f, ids, rows, a)
    requires forall i | 0 <= i < |ids| :: StateAt(g, ids, i) == StateAt(f, ids, i)
    requires forall i | 0 <= i < |rows| && rows[i] in a :: rows[i] in b && b[rows[i]] == a[rows[i]]
    ensures Mirrors(g, ids, rows, b)
  {
  }

  lemma BoundStays(catalog: Catalog, f: F.Factory, g: F.Factory, c: nat, row: RowId)
    requires Bound(catalog, f, c, row)
    requires c in g.campaigns && g.campaigns[c].milestones == f.campaigns[c].milestones
    ensures Bound(catalog, g, c, row)
  {
  }

  lemma BoundAt(catalog: Catalog, f: F.Factory, c: nat, row: RowId, m: nat)
    requires Bound(catalog, f, c, row)
    ensures var ids, rows := f.campaigns[c].milestones, catalog.plan[row];
      && |ids| == |rows| && Distinct(rows)
      && (forall i | 0 <= i < |ids| && ids[i] == m :: m in catalog.milestoneRow && catalog.milestoneRow[m] == rows[i])
      && (m in catalog.milestoneRow && m !in ids ==> catalog.milestoneRow[m] !in rows)
  {
  }

  /** The tables that mirror a campaign still do after any transaction is indexed. */
  lemma MirrorStep(f: F.Factory, tx: F.Tx, c: nat, row: RowId, db: Db, logs: seq<Log>)
    requires Sequential(f) && PlansExact(db.catalog) && Bound(db.catalog, f, c, row)
    requires Mirrors(f, f.campaigns[c].milestones, db.catalog.plan[row], db.board)
    requires FactoryLogs.Carries(logs, F.Exec(f, tx).events)
    ensures var g, t := F.Exec(f, tx).factory, Fold(db, logs);
      && t.catalog == db.catalog && Bound(t.catalog, g, c, row)
      && Mirrors(g, g.campaigns[c].milestones, t.catalog.plan[row], t.board)
  {
    hide F.Exec;
    hide Database.Fold;
    hide Sequential;
    hide PlansExact;
    hide Mirrors;
    hide Reports;
    StatesAround(f, tx, c);
    OrderedIn(f, c);
    hide OrderedStates;
    var g := F.Exec(f, tx).factory;
    BoundStays(db.catalog, f, g, c, row);
    BoundAt(db.catalog, f, c, row, Moved(tx));
    hide Bound;
    var ids, rows := f.campaigns[c].milestones, db.catalog.plan[row];
    var k := ReportOf(f, tx);
    BlockOnBoard(db, logs, k);
    if !(0 <= k < |logs|) {
      MirrorQuiet(f, g, ids, rows, db.board, db.board);
    } else if Moved(tx) in ids {
      var n: nat :| n < |ids| && ids[n] == Moved(tx);
      DistinctIds(f, c);
      assert MovedAt(f, g, ids, n);
      MirrorReport(f, g, db.catalog, row, ids, n, db.board, logs[k]);
    } else {
      ReportSubject(f, g, Moved(tx), logs[k].event);
      ForeignReport(db.catalog, db.board, rows, row, logs[k]);
      MirrorQuiet(f, g, ids, rows, db.board, Stages.Run(db.board, StageOps(db.catalog, logs[k])));
    }
  }

  lemma ReportSubject(f: F.Factory, g: F.Factory, m: nat, e: Event)
    requires Reports(f, g, m, e)
    ensures (e.MilestoneSubmitted? || e.VotingFinalized? || e.FundsReleased?) && e.milestone == m
  {
  }

  lemma DistinctIds(f: F.Factory, c: nat)
    requires Sequential(f) && c in f.campaigns
    ensures var ids := f.campaigns[c].milestones; forall i, j | 0 <= i < j < |ids| :: ids[i] != ids[j]
  {
    assert ListWired(f, c);
  }

  // ---- Whole runs ---------------------------------------------------------------------

  /** Transactions that are mined and indexed, and proofs that creators upload meanwhile. */
  datatype Move = OnChain(tx: F.Tx, logs: seq<Log>) | Proof(row: RowId, url: string)

  function ChainAfter(f: F.Factory, moves: seq<Move>): F.Factory {
    if moves == [] then f
    else
      var g, last := ChainAfter(f, Front(moves)), Last(moves);
      if last.OnChain? then F.Exec(g, last.tx).factory else g
  }

  ghost function TablesAfter(db: Db, moves: seq<Move>): Db {
    if moves == [] then db
    else
      var t, last := TablesAfter(db, Front(moves)), Last(moves);
      match last
      case OnChain(_, logs) => Fold(t, logs)
      case Proof(row, url) => t.(board := Proved(t.board, row, url))
  }

  /** Each transaction's logs are those it emitted. */
  ghost predicate Faithful(f: F.Factory, moves: seq<Move>) {
    moves == []
    || (Faithful(f, Front(moves))
        && (Last(moves).OnChain? ==>
              FactoryLogs.Carries(Last(moves).logs, F.Exec(ChainAfter(f, Front(moves)), Last(moves).tx).events)))
  }

  predicate AcceptsProof(status: Stages.MilestoneStatus) {
    status == Stages.Ongoing || status == Stages.Rejected
  }

  /** The creator's proof upload: refused on other statuses, and writing the proof only. */
  function Proved(board: Stages.Board, row: RowId, url: string): Stages.Board {
    if row in board && AcceptsProof(board[row].status) then board[row := board[row].(proof := Some(url))] else board
  }

  /** From a mirrored state on, whatever is mined, indexed and uploaded, the milestone rows
      mirror the contract. */
  lemma {:induction false} AlwaysMirrors(f: F.Factory, db: Db, c: nat, row: RowId, moves: seq<Move>)
    requires Sequential(f) && PlansExact(db.catalog) && Bound(db.catalog, f, c, row)
    requires Mirrors(f, f.campaigns[c].milestones, db.catalog.plan[row], db.board)
    requires Faithful(f, moves)
    ensures var g, t := ChainAfter(f, moves), TablesAfter(db, moves);
      && Sequential(g) && t.catalog == db.catalog && Bound(t.catalog, g, c, row)
      && Mirrors(g, g.campaigns[c].milestones, t.catalog.plan[row], t.board)
  {
    hide F.Exec;
    hide Database.Fold;
    hide Sequential;
    hide PlansExact;
    hide Expected;
    if moves != [] {
      AlwaysMirrors(f, db, c, row, Front(moves));
      var g, t, last := ChainAfter(f, Front(moves)), TablesAfter(db, Front(moves)), Last(moves);
      if last.OnChain? {
        hide Mirrors;
        hide Bound;
        BoundHas(t.catalog, g, c, row);
        MirrorStep(g, last.tx, c, row, t, last.logs);
        AlwaysSequential(g, [last.tx]);
        assert F.After(g, []) == g && Front([last.tx]) == [];
      }
    }
  }

  lemma BoundHas(catalog: Catalog, f: F.Factory, c: nat, row: RowId)
    requires Bound(catalog, f, c, row)
    ensures c in f.campaigns && row in catalog.plan
  {
  }

  // ---- Where it starts ----------------------------------------------------------------

  /** What the second admin's approval writes: the first row ongoing, the others not started. */
  ghost predicate FreshlyBound(rows: seq<RowId>, board: Stages.Board) {
    forall i | 0 <= i < |rows| ::
      rows[i] in board && board[rows[i]].status == if i == 0 then Stages.Ongoing else Stages.NotStarted
  }

  /** The approval binds a true mirror exactly if no milestone has moved on chain before. */
  lemma FreshMirrors(f: F.Factory, ids: seq<nat>, rows: seq<RowId>, board: Stages.Board)
    requires |ids| == |rows| && FreshlyBound(rows, board)
    ensures Mirrors(f, ids, rows, board) <==> forall i | 0 <= i < |ids| :: StateAt(f, ids, i) == F.Waiting
  {
    if Mirrors(f, ids, rows, board) {
      forall i | 0 <= i < |ids|
        ensures StateAt(f, ids, i) == F.Waiting
      {
        assert rows[i] in board && board[rows[i]].status == Expected(f, ids, i);
      }
    }
  }

  // ---- What it means ------------------------------------------------------------------

  /** All milestones before the frontier are done, all behind it have not begun. */
  ghost predicate FrontierAt(rows: seq<RowId>, board: Stages.Board, k: nat) {
    && k <= |rows|
    && (forall i | 0 <= i < |rows| :: rows[i] in board)
    && (forall i | 0 <= i < k :: board[rows[i]].status == Stages.Completed)
    && (k < |rows| ==> board[rows[k]].status != Stages.Completed && board[rows[k]].status != Stages.NotStarted)
    && (forall i | k < i < |rows| :: board[rows[i]].status == Stages.NotStarted)
  }

  lemma {:induction false} FirstUndone(f: F.Factory, ids: seq<nat>, n: nat) returns (k: nat)
    requires n <= |ids|
    ensures k <= n && (k < n ==> StateAt(f, ids, k) != F.Done)
    ensures forall i | 0 <= i < k :: StateAt(f, ids, i) == F.Done
  {
    if n == 0 {
      k := 0;
    } else {
      k := FirstUndone(f, ids, n - 1);
      if k == n - 1 && StateAt(f, ids, k) == F.Done { k := n; }
    }
  }

  /** A mirrored campaign has a frontier: completed rows, then one that is ongoing, voted
      on, approved or rejected, then rows not started; or all are completed. */
  lemma MirrorFrontier(f: F.Factory, c: nat, rows: seq<RowId>, board: Stages.Board) returns (k: nat)
    requires Sequential(f) && c in f.campaigns && Mirrors(f, f.campaigns[c].milestones, rows, board)
    ensures FrontierAt(rows, board, k)
  {
    var ids := f.campaigns[c].milestones;
    OrderedIn(f, c);
    k := FirstUndone(f, ids, |ids|);
    hide Sequential;
    forall i | 0 <= i < |rows|
      ensures rows[i] in board
      ensures i < k ==> board[rows[i]].status == Stages.Completed
      ensures i == k ==> board[rows[i]].status != Stages.Completed && board[rows[i]].status != Stages.NotStarted
      ensures i > k ==> board[rows[i]].status == Stages.NotStarted
    {
      assert board[rows[i]].status == Expected(f, ids, i);
      if i > k {
        assert StateAt(f, ids, i) == F.Waiting;
        assert StateAt(f, ids, i - 1) != F.Done;
      }
    }
  }

  predicate AcceptsRelease(status: Stages.MilestoneStatus) {
    status == Stages.Approved
  }

  /** The oversight list's pick: the first row in order that is not completed. */
  function Current(rows: seq<RowId>, board: Stages.Board): (current: Option<RowId>)
    ensures current.Some? ==> current.value in rows
  {
    if rows == [] then None
    else if rows[0] in board && board[rows[0]].status != Stages.Completed then Some(rows[0])
    else Current(rows[1..], board)
  }

  lemma {:induction false} CurrentIsFrontier(rows: seq<RowId>, board: Stages.Board, k: nat)
    requires FrontierAt(rows, board, k)
    ensures Current(rows, board) == if k < |rows| then Some(rows[k]) else None
  {
    if rows != [] && k > 0 {
      CurrentIsFrontier(rows[1..], board, k - 1);
    }
  }

  /** A row that the creator can submit for or an admin can propose to release. */
  predicate Actionable(status: Stages.MilestoneStatus) {
    AcceptsProof(status) || AcceptsRelease(status)
  }

  /** The oversight list looks at active and funded campaigns only. */
  predicate Overseen(status: Lifecycle.CampaignStatus) {
    status == Lifecycle.Active || status == Lifecycle.Funded
  }

  /** What the oversight list shows of a campaign, if anything. */
  function Shown(status: Lifecycle.CampaignStatus, rows: seq<RowId>, board: Stages.Board): Option<RowId> {
    if Overseen(status) then Current(rows, board) else None
  }

  /** The first row that is not completed is the actionable one, unless it is voted on. */
  lemma CurrentIsActionable(f: F.Factory, c: nat, rows: seq<RowId>, board: Stages.Board, r: RowId)
    requires Sequential(f) && c in f.campaigns && Mirrors(f, f.campaigns[c].milestones, rows, board)
    requires r in rows
    ensures r in board
    ensures Actionable(board[r].status) <==> Current(rows, board) == Some(r) && board[r].status != Stages.Voting
  {
    hide Sequential;
    hide Mirrors;
    var k := MirrorFrontier(f, c, rows, board);
    FrontierActionable(rows, board, k, r);
    hide FrontierAt;
  }

  lemma FrontierActionable(rows: seq<RowId>, board: Stages.Board, k: nat, r: RowId)
    requires FrontierAt(rows, board, k) && r in rows
    ensures r in board
    ensures Actionable(board[r].status) <==> Current(rows, board) == Some(r) && board[r].status != Stages.Voting
  {
    CurrentIsFrontier(rows, board, k);
    var i: nat :| i < |rows| && rows[i] == r;
    assert i < k || i == k || i > k;
    hide Current;
  }

  /** At most one milestone of a campaign is actionable at any time. */
  lemma OneActionable(f: F.Factory, c: nat, rows: seq<RowId>, board: Stages.Board, r: RowId, s: RowId)
    requires Sequential(f) && c in f.campaigns && Mirrors(f, f.campaigns[c].milestones, rows, board)
    requires r in rows && s in rows
    requires r in board && s in board && Actionable(board[r].status) && Actionable(board[s].status)
    ensures r == s
  {
    CurrentIsActionable(f, c, rows, board, r);
    CurrentIsActionable(f, c, rows, board, s);
  }

  /** How the three services agree: the row that takes a proof or a release proposal is
      shown in the oversight list if and only if its campaign is active or funded. */
  lemma ThreeViewsAgree(
    f: F.Factory, c: nat, rows: seq<RowId>, board: Stages.Board, status: Lifecycle.CampaignStatus, r: RowId)
    requires Sequential(f) && c in f.campaigns && Mirrors(f, f.campaigns[c].milestones, rows, board)
    requires r in rows && r in board && Actionable(board[r].status)
    ensures Shown(status, rows, board) == Some(r) <==> Overseen(status)
  {
    CurrentIsActionable(f, c, rows, board, r);
  }

  /** Sequential execution end to end: from an approval that binds an untouched campaign,
      along everything that can be mined, indexed and uploaded, the rows mirror the
      contract and have a frontier. */
  lemma SequencedRuns(f: F.Factory, db: Db, c: nat, row: RowId, moves: seq<Move>) returns (k: nat)
    requires Sequential(f) && PlansExact(db.catalog) && Bound(db.catalog, f, c, row)
    requires FreshlyBound(db.catalog.plan[row], db.board)
    requires var ids := f.campaigns[c].milestones; forall i | 0 <= i < |ids| :: StateAt(f, ids, i) == F.Waiting
    requires Faithful(f, moves)
    ensures var g, t, rows := ChainAfter(f, moves), TablesAfter(db, moves), db.catalog.plan[row];
      && c in g.campaigns && Mirrors(g, g.campaigns[c].milestones, rows, t.board)
      && FrontierAt(rows, t.board, k)
  {
    hide ChainAfter;
    hide TablesAfter;
    hide Mirrors;
    hide FrontierAt;
    hide Sequential;
    FreshMirrors(f, f.campaigns[c].milestones, db.catalog.plan[row], db.board);
    AlwaysMirrors(f, db, c, row, moves);
    k := MirrorFrontier(ChainAfter(f, moves), c, db.catalog.plan[row], TablesAfter(db, moves).board);
  }
}
