/** What milestone rows and ballots hold after a log: what the last event about them said. */
module RowContents {
  import opened Common
  import opened Events
  import opened Database
  import BallotView
  import F = CampaignFactory
  import FactoryLogs
  import FactoryVoting
  import Polling
  import Records
  import Stages

  // ---- Links --------------------------------------------------------------------------

  predicate Waits(db: Db, log: Log, r: RowId) {
    r in db.catalog.drafts && db.catalog.drafts[r].ipfsHash == Some(log.head.ipfsHash)
    && forall c | c in db.links :: db.links[c] != r
  }

  /** A new campaign is linked to the row created last of those that wait for its content
      hash; one that is linked stays so, and without a waiting row nothing is linked. */
  lemma LinksNewest(db: Db, log: Log)
    requires log.event.CampaignCreated?
    ensures var links, c := Apply(db, log).links, log.event.campaign;
      if c in db.links || !exists r :: Waits(db, log, r) then links == db.links
      else
        && c in links && links == db.links[c := links[c]] && Waits(db, log, links[c])
        && forall r | Waits(db, log, r) :: db.catalog.drafts[r].createdAt <= db.catalog.drafts[links[c]].createdAt
  {
    var drafts, hash := db.catalog.drafts, log.head.ipfsHash;
    forall r
      ensures Unlinked(db.links, drafts, hash, r) <==> Waits(db, log, r)
    {}
    if log.event.campaign !in db.links && exists r :: Waits(db, log, r) {
      NewestExists(db.links, drafts, hash);
    }
  }

  /** Among rows that wait there is a newest one. */
  lemma NewestExists(links: Links, drafts: map<RowId, Draft>, hash: string)
    requires exists r :: Unlinked(links, drafts, hash, r)
    ensures exists r :: Newest(links, drafts, hash, r)
  {
    var r :| Unlinked(links, drafts, hash, r);
    var rest := set x | x in drafts && Unlinked(links, drafts, hash, x);
    var top := NewestOf(drafts, rest, r);
    assert Newest(links, drafts, hash, top);
  }

  lemma {:induction false} NewestOf(drafts: map<RowId, Draft>, rows: set<RowId>, first: RowId) returns (top: RowId)
    requires first in rows && forall r | r in rows :: r in drafts
    ensures top in rows && forall r | r in rows :: Newer(drafts, top, r)
    decreases rows
  {
    var rest := rows - {first};
    if r :| r in rest {
      top := NewestOf(drafts, rest, r);
      assert forall x :: x in rows <==> x in rest || x == first;
      if Newer(drafts, first, top) { top := first; }
    } else {
      top := first;
      assert forall x | x in rows && x != first :: x in rest;
    }
  }

  /** A released row that its campaign's list does not have unlocks the first one of it. */
  lemma UnlistedUnlocksFirst(catalog: Catalog, row: RowId)
    requires row in catalog.campaignOf && catalog.campaignOf[row] in catalog.plan
    ensures var rows := catalog.plan[catalog.campaignOf[row]];
      row !in rows ==> NextRow(catalog, row) == if rows == [] then None else Some(rows[0])
  {
  }

  /** One that the list has once unlocks the one behind it. */
  lemma ListedUnlocksNext(catalog: Catalog, row: RowId, i: nat)
    requires row in catalog.campaignOf && catalog.campaignOf[row] in catalog.plan
    requires var rows := catalog.plan[catalog.campaignOf[row]];
      i < |rows| && rows[i] == row && forall j | 0 <= j < |rows| && rows[j] == row :: j == i
    ensures var rows := catalog.plan[catalog.campaignOf[row]];
      NextRow(catalog, row) == if i + 1 < |rows| then Some(rows[i + 1]) else None
  {
    var rows := catalog.plan[catalog.campaignOf[row]];
    assert row in rows && rows[IndexOf(rows, row)] == row;
  }

  // ---- Ballots ------------------------------------------------------------------------

  /** The i-th log is a vote of this person on the milestone of this row. */
  predicate VotesAt(catalog: Catalog, logs: seq<Log>, who: Wallet, row: RowId, i: nat) {
    && i < |logs| && logs[i].event.VoteCast? && SameWallet(logs[i].event.voter, who)
    && logs[i].event.milestone in catalog.milestoneRow && catalog.milestoneRow[logs[i].event.milestone] == row
  }

  lemma BallotStep(db: Db, log: Log, who: Wallet, row: RowId)
    ensures var key, t := (Lower(who), row), Apply(db, log);
      && t.catalog == db.catalog
      && if VotesAt(db.catalog, [log], who, row, 0) then
           key in t.ballots && t.ballots[key] == Records.Ballot(log.event.approve, log.event.weight)
         else
           (key in t.ballots <==> key in db.ballots)
           && (key in db.ballots ==> t.ballots[key] == db.ballots[key])
  {
    var votes := Votes(db.catalog, log);
    if votes != [] {
      assert votes == [votes[0]];
      Records.CastOne(db.ballots, votes[0]);
    }
    hide Lower;
    hide Records.CastAll;
  }

  /** After any log the ballot of a person on a milestone is that of his last vote: its
      choice and its weight. */
  lemma {:induction false} LastVoteStored(db: Db, logs: seq<Log>, who: Wallet, row: RowId, i: nat)
    requires VotesAt(db.catalog, logs, who, row, i)
    requires forall j: nat | i < j :: !VotesAt(db.catalog, logs, who, row, j)
    ensures var ballots := Fold(db, logs).ballots;
      && (Lower(who), row) in ballots
      && ballots[(Lower(who), row)] == Records.Ballot(logs[i].event.approve, logs[i].event.weight)
    ensures Fold(db, logs).catalog == db.catalog
  {
    hide Apply;
    hide Lower;
    var n := |logs| - 1;
    CatalogStays(db, Front(logs));
    BallotStep(Fold(db, Front(logs)), Last(logs), who, row);
    assert VotesAt(db.catalog, [Last(logs)], who, row, 0) <==> VotesAt(db.catalog, logs, who, row, n);
    if i < n {
      assert forall j: nat | j < n ::
        VotesAt(db.catalog, Front(logs), who, row, j) <==> VotesAt(db.catalog, logs, who, row, j);
      LastVoteStored(db, Front(logs), who, row, i);
    }
  }

  lemma {:induction false} CatalogStays(db: Db, logs: seq<Log>)
    ensures Fold(db, logs).catalog == db.catalog
  {
    if logs != [] {
      CatalogStays(db, Front(logs));
    }
  }

  // ---- Submissions --------------------------------------------------------------------

  predicate SubmitsAt(catalog: Catalog, logs: seq<Log>, row: RowId, i: nat) {
    && i < |logs| && logs[i].event.MilestoneSubmitted?
    && logs[i].event.milestone in catalog.milestoneRow && catalog.milestoneRow[logs[i].event.milestone] == row
  }

  lemma SubmissionStep(db: Db, log: Log, row: RowId)
    requires row in db.board
    ensures var t := Apply(db, log);
      && t.catalog == db.catalog && row in t.board
      && if SubmitsAt(db.catalog, [log], row, 0) then
           t.board[row] == Stages.Stage(Stages.Voting, Some(log.event.proof), Some(log.event.votingEnd))
         else
           t.board[row].proof == db.board[row].proof && t.board[row].votingEnd == db.board[row].votingEnd
  {
    var ops := StageOps(db.catalog, log);
    if ops != [] {
      assert ops == [ops[0]];
      Stages.RunOne(db.board, ops[0]);
    }
    hide NextRow;
    hide Stages.Run;
  }

  /** After any log a milestone row has the proof and the voting deadline of its last
      submission. */
  lemma {:induction false} LastSubmissionStored(db: Db, logs: seq<Log>, row: RowId, i: nat)
    requires row in db.board && SubmitsAt(db.catalog, logs, row, i)
    requires forall j: nat | i < j :: !SubmitsAt(db.catalog, logs, row, j)
    ensures var board := Fold(db, logs).board;
      && row in board && board[row].proof == Some(logs[i].event.proof)
      && board[row].votingEnd == Some(logs[i].event.votingEnd)
  {
    hide Apply;
    var n := |logs| - 1;
    CatalogStays(db, Front(logs));
    RowStays(db, Front(logs), row);
    SubmissionStep(Fold(db, Front(logs)), Last(logs), row);
    assert SubmitsAt(db.catalog, [Last(logs)], row, 0) <==> SubmitsAt(db.catalog, logs, row, n);
    if i < n {
      assert forall j: nat | j < n :: SubmitsAt(db.catalog, Front(logs), row, j) <==> SubmitsAt(db.catalog, logs, row, j);
      LastSubmissionStored(db, Front(logs), row, i);
    }
  }

  lemma {:induction false} RowStays(db: Db, logs: seq<Log>, row: RowId)
    requires row in db.board
    ensures row in Fold(db, logs).board
  {
    if logs != [] {
      hide Apply;
      RowStays(db, Front(logs), row);
      SubmissionStep(Fold(db, Front(logs)), Last(logs), row);
    }
  }

  /** Delivered once, the submission count of a row is the contract's. */
  lemma SubmissionsFollow(txs: seq<F.Tx>, catalog: Catalog, logs: seq<Log>, m: nat, row: RowId)
    requires FactoryLogs.Carries(logs, F.Emitted(F.Empty(), txs)) && BallotView.BoundAlone(catalog, m, row)
    requires m in F.After(F.Empty(), txs).milestones
    ensures Polling.SubmissionTotal(catalog, logs, row) == F.After(F.Empty(), txs).milestones[m].submissions
  {
    hide F.After;
    hide F.Emitted;
    FactoryVoting.RunAgrees(txs);
    RoundsCounted(catalog, logs, F.Emitted(F.Empty(), txs), m, row, F.After(F.Empty(), txs).milestones[m].campaign);
  }

  lemma {:induction false} RoundsCounted(
    catalog: Catalog, logs: seq<Log>, events: seq<Event>, m: nat, row: RowId, c: nat)
    requires FactoryLogs.Carries(logs, events) && BallotView.BoundAlone(catalog, m, row)
    ensures Polling.SubmissionTotal(catalog, logs, row) == FactoryVoting.TallyOf(events, m, c).rounds
  {
    if logs != [] {
      assert FactoryLogs.Carries(Front(logs), Front(events));
      assert Last(logs).event == Last(events);
      RoundsCounted(catalog, Front(logs), Front(events), m, row, c);
    }
  }
}
