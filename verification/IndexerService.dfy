/** The indexer service as it runs: stored tables, one handler per event, the chunk loop
    and the re-entrancy flag, each proved against the functions on tables. */
module IndexerService {
  import opened Common
  import opened Events
  import opened Database
  import Polling
  import Lifecycle
  import Funding
  import Stages
  import Records

  class Service {
    const catalog: Catalog
    const startBlock: nat
    const chunkSize: nat

    var links: Links
    var lives: Lifecycle.Table
    var rows: map<Funding.TxHash, Funding.Contribution>
    var raised: map<RowId, nat>
    var board: Stages.Board
    var ballots: Records.BallotBox
    var refunds: Records.Register
    var flags: Records.Register
    var releases: Records.Register
    var released: map<RowId, nat>
    var submissions: map<RowId, nat>
    var lastBlock: Option<nat>
    var processing: bool

    ghost function Tables(): Db
      reads this
    {
      Db(catalog, links, lives, Funding.Book(rows, raised), board, ballots, refunds, flags, releases,
         released, submissions)
    }

    function NextBlock(): nat
      reads this
    {
      if lastBlock.Some? then lastBlock.value + 1 else startBlock
    }

    constructor (catalog: Catalog, startBlock: nat, lives: Lifecycle.Table, board: Stages.Board)
      ensures Tables() == Db(catalog, map[], lives, Funding.Book(map[], map[]), board, map[], map[], map[], map[],
                             map r | r in lives :: 0, map m | m in board :: 0)
      ensures NextBlock() == startBlock && chunkSize == 10_000 && !processing
    {
      this.catalog, this.startBlock, this.chunkSize := catalog, startBlock, 10_000;
      this.links, this.lives, this.rows, this.raised, this.board := map[], lives, map[], map[], board;
      this.ballots, this.refunds, this.flags, this.releases := map[], map[], map[], map[];
      this.released, this.submissions := map r | r in lives :: 0, map m | m in board :: 0;
      this.lastBlock, this.processing := None, false;
    }

    // ---- Campaign rows ----------------------------------------------------------------

    /** The most recently created row that waits for this content hash, if any. */
    method FindNewestDraft(hash: string) returns (found: Option<RowId>)
      ensures found.Some? ==> Newest(links, catalog.drafts, hash, found.value)
      ensures found.Some? ==>
        && found.value in catalog.drafts && catalog.drafts[found.value].ipfsHash == Some(hash)
        && (forall c | c in links :: links[c] != found.value)
        && forall r | r in catalog.drafts && catalog.drafts[r].ipfsHash == Some(hash) && r !in links.Values ::
             catalog.drafts[r].createdAt <= catalog.drafts[found.value].createdAt
      ensures found.None? ==> forall r :: !Unlinked(links, catalog.drafts, hash, r)
    {
      found := None;
      var rest := catalog.drafts.Keys;
      while rest != {}
        invariant rest <= catalog.drafts.Keys
        invariant found.Some? ==> Unlinked(links, catalog.drafts, hash, found.value) && found.value !in rest
        invariant forall r | r in catalog.drafts && r !in rest && Unlinked(links, catalog.drafts, hash, r) ::
            found.Some? && found.value in catalog.drafts && Newer(catalog.drafts, found.value, r)
        decreases rest
      {
        HasRow(rest);
        var r :| r in rest;
        rest := rest - {r};
        if Unlinked(links, catalog.drafts, hash, r) {
          if found.None? || Newer(catalog.drafts, r, found.value) {
            found := Some(r);
          }
        }
      }
    }

    method OnCampaignCreated(log: Log)
      requires log.event.CampaignCreated?
      modifies `links
      ensures Tables() == Apply(old(Tables()), log)
    {
      hide Database.Apply;
      hide Database.LinkStep;
      CreationFootprint(Tables(), log);
      LinkDraft(log);
    }

    /** Links the newest waiting row, unless the campaign has one. */
    method LinkDraft(log: Log)
      requires log.event.CampaignCreated?
      modifies `links
      ensures links == LinkStep(old(links), catalog.drafts, log)
    {
      hide Database.LinkStep;
      hide Database.Newest;
      hide Database.Unlinked;
      if log.event.campaign in links {
        LinkOutcome(links, catalog.drafts, log, None);
        return;
      }
      var draft := FindNewestDraft(log.head.ipfsHash);
      LinkOutcome(links, catalog.drafts, log, draft);
      if draft.Some? {
        links := links[log.event.campaign := draft.value];
      }
    }

    method OnCampaignApproved(log: Log)
      requires log.event.CampaignApproved?
      modifies `lives
      ensures Tables() == Apply(old(Tables()), log)
    {
      hide Database.Apply;
      LifeFootprint(Tables(), log);
      LifeOnce(lives, links, log);
      var c := log.event.campaign;
      if c in links && links[c] in lives && lives[links[c]].status == Lifecycle.Pending {
        lives := lives[links[c] := lives[links[c]].(status := Lifecycle.Active, approved := true)];
      }
    }

    method OnCampaignStatusChanged(log: Log)
      requires log.event.CampaignStatusChanged?
      modifies `lives
      ensures Tables() == Apply(old(Tables()), log)
    {
      var status := StatusAt(log.event.statusIndex);
      if status.None? {
        Footprint(Tables(), log);
        return;
      }
      hide Database.Apply;
      LifeFootprint(Tables(), log);
      LifeOnce(lives, links, log);
      var c := log.event.campaign;
      if c in links && links[c] in lives {
        var l := lives[links[c]];
        if !(l.status == Lifecycle.Failed && !l.approved) {
          lives := lives[links[c] := l.(status := status.value)];
        }
      }
    }

    method OnStatusChange(log: Log, status: Lifecycle.CampaignStatus)
      requires log.event.CampaignFlagged? || log.event.CampaignUnflagged? || log.event.CampaignCompleted?
      requires LifeOpOf(log) == Some((log.event.campaign, Lifecycle.Set(status)))
      modifies `lives
      ensures Tables() == Apply(old(Tables()), log)
    {
      hide Database.Apply;
      LifeFootprint(Tables(), log);
      LifeOnce(lives, links, log);
      var c := log.event.campaign;
      if c in links && links[c] in lives {
        lives := lives[links[c] := lives[links[c]].(status := status)];
      }
    }

    method OnCampaignCancelled(log: Log)
      requires log.event.CampaignCancelled?
      modifies `lives
      ensures Tables() == Apply(old(Tables()), log)
    {
      hide Database.Apply;
      LifeFootprint(Tables(), log);
      LifeOnce(lives, links, log);
      var c := log.event.campaign;
      if c in links && links[c] in lives {
        lives := lives[links[c] :=
          lives[links[c]].(status := Lifecycle.Failed, reclaimed := log.head.fundsReclaimed)];
      }
    }

    // ---- Contributions ----------------------------------------------------------------

    /** Creates the contribution row and adds to the campaign's total, unless the hash has
        a row already. */
    method RecordContribution(hash: Funding.TxHash, row: RowId, who: Wallet, amount: nat)
      modifies `rows, `raised
      ensures Funding.Book(rows, raised)
           == Funding.Step(old(Funding.Book(rows, raised)), Funding.Contribute(hash, row, who, amount))
    {
      if hash !in rows {
        rows := rows[hash := Funding.Contribution(row, who, amount, false)];
        raised := raised[row := (if row in raised then raised[row] else 0) + amount];
      }
    }

    method OnContributionMade(log: Log)
      requires log.event.ContributionMade?
      modifies `rows, `raised
      ensures Tables() == Apply(old(Tables()), log)
    {
      FundingFootprint(Tables(), log);
      FundingOnce(Funding.Book(rows, raised), links, log);
      hide Database.Apply;
      hide Funding.Run;
      if log.event.campaign in links {
        RecordContribution(log.txHash, links[log.event.campaign], Lower(log.event.contributor), log.event.amount);
      }
    }

    method OnRefundClaimed(log: Log)
      requires log.event.RefundClaimed?
      modifies `rows
      ensures Tables() == Apply(old(Tables()), log)
    {
      hide Database.Apply;
      ClaimFootprint(Tables(), log);
      var c, who := log.event.campaign, Lower(log.event.contributor);
      if c !in links { return; }
      var row := links[c];
      rows := map h | h in rows ::
        if rows[h].campaign == row && rows[h].contributor == who && !rows[h].refunded
        then rows[h].(refunded := true) else rows[h];
      var marked := Funding.MarkRefunded(old(rows), row, who);
      forall h | h in rows
        ensures rows[h] == marked[h]
      {}
      assert rows == marked;
    }

    // ---- Milestones -------------------------------------------------------------------

    /** The submission's column updates and its increment. */
    method RecordSubmission(row: RowId, proof: string, end: nat)
      modifies `board, `submissions
      ensures board == Stages.Step(old(board), Stages.Submit(row, proof, end))
      ensures submissions == map m | m in old(submissions) :: old(submissions)[m] + if m == row then 1 else 0
    {
      if row in board {
        board := board[row := Stages.Stage(Stages.Voting, Some(proof), Some(end))];
      }
      if row in submissions {
        submissions := submissions[row := submissions[row] + 1];
      }
    }

    method OnMilestoneSubmitted(log: Log)
      requires log.event.MilestoneSubmitted?
      modifies `board, `submissions
      ensures Tables() == Apply(old(Tables()), log)
    {
      hide Database.Apply;
      hide Stages.Step;
      SubmissionFootprint(Tables(), log);
      if log.event.milestone in catalog.milestoneRow {
        RecordSubmission(catalog.milestoneRow[log.event.milestone], log.event.proof, log.event.votingEnd);
      }
    }

    /** One update of a milestone row. */
    method SetRowStatus(row: RowId, status: Stages.MilestoneStatus)
      modifies `board
      ensures board == Stages.SetStatus(old(board), row, status)
    {
      if row in board {
        board := board[row := board[row].(status := status)];
      }
    }

    method RecordOutcome(row: RowId, approved: bool)
      modifies `board
      ensures board == Stages.Step(old(board), Stages.Finalize(row, approved))
    {
      SetRowStatus(row, if approved then Stages.Approved else Stages.Rejected);
    }

    method OnVotingFinalized(log: Log)
      requires log.event.VotingFinalized?
      modifies `board
      ensures Tables() == Apply(old(Tables()), log)
    {
      hide Database.Apply;
      hide Stages.Step;
      VotingFootprint(Tables(), log);
      if log.event.milestone in catalog.milestoneRow {
        RecordOutcome(catalog.milestoneRow[log.event.milestone], log.event.approved);
      }
    }

    /** Completes a milestone row, adds to its campaign's released total, and unlocks the
        next row if it has not started. */
    method RecordRelease(row: RowId, amount: nat)
      modifies `board, `released
      ensures board == Stages.Step(old(board), Stages.Release(row, NextRow(catalog, row)))
      ensures released == map r | r in old(released) :: old(released)[r]
        + if row in catalog.campaignOf && catalog.campaignOf[row] == r then amount else 0
    {
      SetRowStatus(row, Stages.Completed);
      if row in catalog.campaignOf && catalog.campaignOf[row] in released {
        var campaign := catalog.campaignOf[row];
        released := released[campaign := released[campaign] + amount];
      }
      var next := NextRow(catalog, row);
      if next.Some? && next.value in board && board[next.value].status == Stages.NotStarted {
        SetRowStatus(next.value, Stages.Ongoing);
      }
    }

    method OnFundsReleased(log: Log)
      requires log.event.FundsReleased?
      modifies `board, `released
      ensures Tables() == Apply(old(Tables()), log)
    {
      hide Database.Apply;
      hide Stages.Step;
      hide Database.NextRow;
      ReleaseFootprint(Tables(), log);
      if log.event.milestone in catalog.milestoneRow {
        RecordRelease(catalog.milestoneRow[log.event.milestone], log.event.amount);
      }
    }

    method OnVoteCast(log: Log)
      requires log.event.VoteCast?
      modifies `ballots
      ensures Tables() == Apply(old(Tables()), log)
    {
      Footprint(Tables(), log);
      var VoteCast(m, who, approve, weight) := log.event;
      if m in catalog.milestoneRow {
        Records.CastOne(ballots, Votes(catalog, log)[0]);
        ballots := ballots[(Lower(who), catalog.milestoneRow[m]) := Records.Ballot(approve, weight)];
      }
    }

    // ---- Two-admin proposals ----------------------------------------------------------

    method OnRefundProposed(log: Log)
      requires log.event.RefundProposed?
      modifies `refunds
      ensures Tables() == Apply(old(Tables()), log)
    {
      Footprint(Tables(), log);
      var RefundProposed(p, c, who) := log.event;
      if c !in links { return; }
      Records.RunOne(refunds, RefundOps(links, log)[0]);
      if p !in refunds {
        refunds := refunds[p := Opened(links[c], who, "", log.blockTime)];
      }
    }

    method OnRefundApproved(log: Log)
      requires log.event.RefundApproved?
      modifies `refunds, `lives
      ensures Tables() == Apply(old(Tables()), log)
    {
      hide Database.Apply;
      hide Lifecycle.Touch;
      hide Records.Step;
      RefundFootprint(Tables(), log);
      RecordReclaim(log.event.campaign);
      RecordRefund(log.event.proposal, Lower(log.event.confirmer));
    }

    method RecordReclaim(c: nat)
      modifies `lives
      ensures lives
           == if c !in links then old(lives)
              else Lifecycle.Touch(old(lives), Lifecycle.Update(links[c], Lifecycle.Reclaim))
    {
      if c in links && links[c] in lives {
        lives := lives[links[c] := lives[links[c]].(reclaimed := true)];
      }
    }

    method RecordRefund(p: nat, who: Wallet)
      modifies `refunds
      ensures refunds == Records.Step(old(refunds), Records.Execute(p, who))
    {
      if p in refunds {
        refunds := refunds[p := refunds[p].(confirmer := Some(who), executed := true)];
      }
    }

    method OnFlagProposed(log: Log)
      requires log.event.FlagProposed?
      modifies `flags
      ensures Tables() == Apply(old(Tables()), log)
    {
      Footprint(Tables(), log);
      var FlagProposed(p, c, who, reason) := log.event;
      if c !in links { return; }
      Records.RunOne(flags, FlagOps(links, log)[0]);
      if p !in flags {
        flags := flags[p := Opened(links[c], who, reason, log.blockTime)];
      }
    }

    method OnFlagConfirmed(log: Log)
      requires log.event.FlagConfirmed?
      modifies `flags
      ensures Tables() == Apply(old(Tables()), log)
    {
      Footprint(Tables(), log);
      var FlagConfirmed(p, _, who) := log.event;
      Records.RunOne(flags, FlagOps(links, log)[0]);
      if p in flags {
        flags := flags[p := flags[p].(confirmer := Some(Lower(who)), executed := true)];
      }
    }

    method OnReleaseProposed(log: Log)
      requires log.event.ReleaseProposed?
      modifies `releases
      ensures Tables() == Apply(old(Tables()), log)
    {
      Footprint(Tables(), log);
      var ReleaseProposed(p, m, who) := log.event;
      if m !in catalog.milestoneRow { return; }
      Records.RunOne(releases, ReleaseOps(catalog, log)[0]);
      if p !in releases {
        releases := releases[p := Opened(catalog.milestoneRow[m], who, "", log.blockTime)];
      }
    }

    method OnReleaseConfirmed(log: Log)
      requires log.event.ReleaseConfirmed?
      modifies `releases
      ensures Tables() == Apply(old(Tables()), log)
    {
      Footprint(Tables(), log);
      var ReleaseConfirmed(p, _, who) := log.event;
      Records.RunOne(releases, ReleaseOps(catalog, log)[0]);
      if p in releases {
        releases := releases[p := releases[p].(confirmer := Some(Lower(who)), executed := true)];
      }
    }

    // ---- Dispatch and the chunk loop --------------------------------------------------

    /** Each event reaches the handler that makes its updates, and only that one. */
    method HandleEvent(log: Log)
      modifies `links, `lives, `rows, `raised, `board, `ballots, `refunds, `flags, `releases, `released, `submissions
      ensures Tables() == Apply(old(Tables()), log)
    {
      hide Database.Apply;
      match log.event
      case CampaignCreated(_) => OnCampaignCreated(log);
      case CampaignApproved(_) => OnCampaignApproved(log);
      case CampaignStatusChanged(_, _) => OnCampaignStatusChanged(log);
      case CampaignFlagged(_) => OnStatusChange(log, Lifecycle.Flagged);
      case CampaignUnflagged(_) => OnStatusChange(log, Lifecycle.Active);
      case CampaignCancelled(_) => OnCampaignCancelled(log);
      case CampaignCompleted(_) => OnStatusChange(log, Lifecycle.Completed);
      case ContributionMade(_, _, _) => OnContributionMade(log);
      case MilestoneSubmitted(_, _, _) => OnMilestoneSubmitted(log);
      case VoteCast(_, _, _, _) => OnVoteCast(log);
      case VotingFinalized(_, _) => OnVotingFinalized(log);
      case FundsReleased(_, _) => OnFundsReleased(log);
      case RefundProposed(_, _, _) => OnRefundProposed(log);
      case RefundApproved(_, _, _) => OnRefundApproved(log);
      case RefundClaimed(_, _, _) => OnRefundClaimed(log);
      case FlagProposed(_, _, _, _) => OnFlagProposed(log);
      case FlagConfirmed(_, _, _) => OnFlagConfirmed(log);
      case ReleaseProposed(_, _, _) => OnReleaseProposed(log);
      case ReleaseConfirmed(_, _, _) => OnReleaseConfirmed(log);
    }

    /** Walks from the cursor to the head in chunks, moving the cursor after each one. An
        error inside leaves what was written and the cursor of the last whole chunk. */
    method ProcessEvents(blocks: Polling.Blocks, head: nat, fault: Option<Polling.Fault>) returns (failed: bool)
      requires head < |blocks| && chunkSize >= 1
      modifies this
      ensures Polling.Indexer(Tables(), NextBlock())
           == if fault.None? then Polling.Poll(old(Polling.Indexer(Tables(), NextBlock())), blocks, head)
              else Polling.FaultyPoll(old(Polling.Indexer(Tables(), NextBlock())), blocks, head, chunkSize, fault.value)
      ensures !failed ==>
        Polling.Indexer(Tables(), NextBlock()) == Polling.Poll(old(Polling.Indexer(Tables(), NextBlock())), blocks, head)
      ensures processing == old(processing)
    {
      hide Database.Fold;
      hide Polling.ChunkedPoll;
      hide Polling.FaultyPoll;
      failed := false;
      ghost var before := Polling.Indexer(Tables(), NextBlock());
      Polling.ChunksDoNotShow(before, blocks, head, chunkSize);
      Polling.NextChunk(before, blocks, head, chunkSize, fault);
      var fromBlock := NextBlock();
      if fromBlock > head { return; }
      var chunkStart, done := fromBlock, 0;
      while chunkStart <= head
        invariant fromBlock <= NextBlock() == Polling.Min(chunkStart, head + 1)
        invariant Polling.ChunkedPoll(Polling.Indexer(Tables(), NextBlock()), blocks, head, chunkSize)
               == Polling.ChunkedPoll(before, blocks, head, chunkSize)
        invariant fault.Some? ==>
            && done <= fault.value.chunks
            && Polling.FaultyPoll(Polling.Indexer(Tables(), NextBlock()), blocks, head, chunkSize,
                                  Polling.Fault(fault.value.chunks - done, fault.value.handled))
               == Polling.FaultyPoll(before, blocks, head, chunkSize, fault.value)
        invariant processing == old(processing)
        decreases head + 1 - chunkStart
      {
        var chunkEnd := Polling.Min(chunkStart + chunkSize - 1, head);
        var logs := Polling.Range(blocks, chunkStart, chunkEnd + 1);
        if fault.Some? && done == fault.value.chunks {
          Polling.NextChunk(Polling.Indexer(Tables(), NextBlock()), blocks, head, chunkSize,
                            Some(Polling.Fault(0, fault.value.handled)));
          DeliverChunk(logs[..Polling.Min(fault.value.handled, |logs|)]);
          return true;
        }
        ghost var left :=
          if fault.Some? then Some(Polling.Fault(fault.value.chunks - done, fault.value.handled)) else None;
        Polling.NextChunk(Polling.Indexer(Tables(), NextBlock()), blocks, head, chunkSize, left);
        DeliverChunk(logs);
        lastBlock := Some(chunkEnd);
        chunkStart, done := chunkStart + chunkSize, done + 1;
      }
      Polling.NextChunk(Polling.Indexer(Tables(), NextBlock()), blocks, head, chunkSize,
        if fault.Some? then Some(Polling.Fault(fault.value.chunks - done, fault.value.handled)) else None);
    }

    /** The handler loop of one chunk. */
    method DeliverChunk(logs: seq<Log>)
      modifies `links, `lives, `rows, `raised, `board, `ballots, `refunds, `flags, `releases, `released, `submissions
      ensures Tables() == Fold(old(Tables()), logs)
    {
      ghost var before := Tables();
      for i := 0 to |logs|
        invariant Tables() == Fold(before, logs[..i])
      {
        HandleEvent(logs[i]);
        assert Front(logs[..i + 1]) == logs[..i];
      }
      assert logs[..|logs|] == logs;
    }

    /** A timer tick: does nothing while an earlier one is still at work. When the head
        cannot be read or something fails on the way, the error is caught, and the flag is
        given back all the same. */
    method Poll(blocks: Polling.Blocks, head: Option<nat>, fault: Option<Polling.Fault>)
      requires chunkSize >= 1 && (head.Some? ==> head.value < |blocks|)
      modifies this
      ensures processing == old(processing)
      ensures old(processing) || head.None? ==>
        Polling.Indexer(Tables(), NextBlock()) == old(Polling.Indexer(Tables(), NextBlock()))
      ensures !old(processing) && head.Some? ==>
        Polling.Indexer(Tables(), NextBlock())
        == if fault.None? then Polling.Poll(old(Polling.Indexer(Tables(), NextBlock())), blocks, head.value)
           else Polling.FaultyPoll(
                  old(Polling.Indexer(Tables(), NextBlock())), blocks, head.value, chunkSize, fault.value)
    {
      hide Polling.Poll;
      hide Polling.FaultyPoll;
      if processing { return; }
      processing := true;
      if head.Some? {
        var failed := ProcessEvents(blocks, head.value, fault);
      }
      processing := false;
    }
  }

  /** What the candidate search means for the link of a new campaign. */
  lemma LinkOutcome(links: Links, drafts: map<RowId, Draft>, log: Log, draft: Option<RowId>)
    requires log.event.CampaignCreated?
    requires draft.Some? ==> Newest(links, drafts, log.head.ipfsHash, draft.value)
    requires draft.None? && log.event.campaign !in links ==>
      forall r :: !Unlinked(links, drafts, log.head.ipfsHash, r)
    ensures LinkStep(links, drafts, log)
         == if log.event.campaign in links || draft.None? then links
            else links[log.event.campaign := draft.value]
  {
    if draft.Some? {
      NewestUnique(links, drafts, log.head.ipfsHash, draft.value);
    }
  }

  lemma HasRow(rows: set<RowId>)
    ensures rows == {} || exists r :: r in rows
  {
    if forall r :: r !in rows { assert rows == {}; }
  }

  lemma NewestUnique(links: Links, drafts: map<RowId, Draft>, hash: string, row: RowId)
    requires Newest(links, drafts, hash, row)
    ensures forall r :: Newest(links, drafts, hash, r) ==> r == row
  {
    forall r | Newest(links, drafts, hash, r)
      ensures r == row
    {
      assert Newer(drafts, row, r) && Newer(drafts, r, row);
    }
  }

  lemma LifeOnce(lives: Lifecycle.Table, links: Links, log: Log)
    ensures var us := LifeUpdates(links, log);
      Lifecycle.TouchAll(lives, us) == if us == [] then lives else Lifecycle.Touch(lives, us[0])
  {
    var us := LifeUpdates(links, log);
    if us != [] {
      assert us == [us[0]];
      Lifecycle.TouchOne(lives, us[0]);
    }
  }

  lemma FundingOnce(book: Funding.Book, links: Links, log: Log)
    ensures var ops := FundingOps(links, log);
      Funding.Run(book, ops) == if ops == [] then book else Funding.Step(book, ops[0])
  {
    var ops := FundingOps(links, log);
    if ops != [] {
      assert ops == [ops[0]];
      Funding.RunOne(book, ops[0]);
    }
  }

  lemma StagesOnce(board: Stages.Board, catalog: Catalog, log: Log)
    ensures var ops := StageOps(catalog, log);
      Stages.Run(board, ops) == if ops == [] then board else Stages.Step(board, ops[0])
  {
    var ops := StageOps(catalog, log);
    if ops != [] {
      assert ops == [ops[0]];
      Stages.RunOne(board, ops[0]);
    }
  }

  /** The empty batches of updates that an event gives to the tables it does not concern. */
  lemma Footprint(db: Db, log: Log)
    ensures var t, e := Apply(db, log), log.event;
      && (!e.CampaignCreated? ==> t.links == db.links)
      && (LifeOpOf(log).None? ==> t.lives == db.lives)
      && (!e.ContributionMade? && !e.RefundClaimed? ==> t.book == db.book)
      && (!e.MilestoneSubmitted? && !e.VotingFinalized? && !e.FundsReleased? ==> t.board == db.board)
      && (!e.VoteCast? ==> t.ballots == db.ballots)
      && (!e.RefundProposed? && !e.RefundApproved? ==> t.refunds == db.refunds)
      && (!e.FlagProposed? && !e.FlagConfirmed? ==> t.flags == db.flags)
      && (!e.ReleaseProposed? && !e.ReleaseConfirmed? ==> t.releases == db.releases)
      && (!e.FundsReleased? ==> t.released == db.released)
      && (!e.MilestoneSubmitted? ==> t.submissions == db.submissions)
  {
    var t, e := Apply(db, log), log.event;
    assert !e.CampaignCreated? ==> t.links == db.links;
    Idle(db, log);
    if !e.FundsReleased? {
      assert (map r | r in db.released :: db.released[r] + ReleasedBy(db.catalog, log, r)) == db.released;
    }
    if !e.MilestoneSubmitted? {
      assert (map r | r in db.submissions :: db.submissions[r] + SubmissionsBy(db.catalog, log, r)) == db.submissions;
    }
    hide Database.LifeUpdates;
    hide Database.FundingOps;
    hide Database.StageOps;
    hide Database.Votes;
    hide Database.RefundOps;
    hide Database.FlagOps;
    hide Database.ReleaseOps;
    hide Database.LinkStep;
  }

  lemma Idle(db: Db, log: Log)
    ensures var e := log.event;
      && (LifeOpOf(log).None? ==> LifeUpdates(db.links, log) == [])
      && (!e.ContributionMade? && !e.RefundClaimed? ==> FundingOps(db.links, log) == [])
      && (!e.MilestoneSubmitted? && !e.VotingFinalized? && !e.FundsReleased? ==> StageOps(db.catalog, log) == [])
      && (!e.VoteCast? ==> Votes(db.catalog, log) == [])
      && (!e.RefundProposed? && !e.RefundApproved? ==> RefundOps(db.links, log) == [])
      && (!e.FlagProposed? && !e.FlagConfirmed? ==> FlagOps(db.links, log) == [])
      && (!e.ReleaseProposed? && !e.ReleaseConfirmed? ==> ReleaseOps(db.catalog, log) == [])
  {
  }

  lemma CreationFootprint(db: Db, log: Log)
    requires log.event.CampaignCreated?
    ensures Apply(db, log) == db.(links := LinkStep(db.links, db.catalog.drafts, log))
  {
    Footprint(db, log);
  }

  lemma FundingFootprint(db: Db, log: Log)
    requires log.event.ContributionMade? || log.event.RefundClaimed?
    ensures Apply(db, log) == db.(book := Funding.Run(db.book, FundingOps(db.links, log)))
  {
    Footprint(db, log);
  }

  lemma ClaimFootprint(db: Db, log: Log)
    requires log.event.RefundClaimed?
    ensures var c, who := log.event.campaign, Lower(log.event.contributor);
      Apply(db, log) == if c !in db.links then db else
        db.(book := db.book.(rows := Funding.MarkRefunded(db.book.rows, db.links[c], who)))
  {
    FundingFootprint(db, log);
    FundingOnce(db.book, db.links, log);
    hide Database.Apply;
    hide Funding.Run;
  }

  lemma RefundFootprint(db: Db, log: Log)
    requires log.event.RefundApproved?
    ensures var t, c := Apply(db, log), log.event.campaign;
      var op := Records.Execute(log.event.proposal, Lower(log.event.confirmer));
      && t == db.(lives := t.lives, refunds := Records.Step(db.refunds, op))
      && t.lives
         == if c in db.links then Lifecycle.Touch(db.lives, Lifecycle.Update(db.links[c], Lifecycle.Reclaim))
            else db.lives
  {
    Footprint(db, log);
    LifeOnce(db.lives, db.links, log);
    Records.RunOne(db.refunds, Records.Execute(log.event.proposal, Lower(log.event.confirmer)));
    hide Lifecycle.TouchAll;
    hide Records.Run;
    hide LinkStep;
  }

  lemma VotingFootprint(db: Db, log: Log)
    requires log.event.VotingFinalized?
    ensures var t, m := Apply(db, log), log.event.milestone;
      if m in db.catalog.milestoneRow then
        t == db.(board := Stages.Step(db.board, Stages.Finalize(db.catalog.milestoneRow[m], log.event.approved)))
      else t == db
  {
    Footprint(db, log);
    StagesOnce(db.board, db.catalog, log);
  }

  /** The events that write one campaign row and nothing else. */
  lemma LifeFootprint(db: Db, log: Log)
    requires LifeOpOf(log).Some? && !log.event.RefundApproved?
    ensures Apply(db, log) == db.(lives := Lifecycle.TouchAll(db.lives, LifeUpdates(db.links, log)))
  {
    Footprint(db, log);
  }

  lemma SubmissionFootprint(db: Db, log: Log)
    requires log.event.MilestoneSubmitted?
    ensures var t, m := Apply(db, log), log.event.milestone;
      if m in db.catalog.milestoneRow then
        var row := db.catalog.milestoneRow[m];
        t == db.(
          board := Stages.Step(db.board, Stages.Submit(row, log.event.proof, log.event.votingEnd)),
          submissions := map r | r in db.submissions :: db.submissions[r] + if r == row then 1 else 0)
      else t == db
  {
    Footprint(db, log);
    StagesOnce(db.board, db.catalog, log);
    assert log.event.milestone !in db.catalog.milestoneRow ==>
      (map m | m in db.submissions :: db.submissions[m] + SubmissionsBy(db.catalog, log, m)) == db.submissions;
  }

  lemma ReleaseFootprint(db: Db, log: Log)
    requires log.event.FundsReleased?
    ensures var t, m, amount := Apply(db, log), log.event.milestone, log.event.amount;
      if m in db.catalog.milestoneRow then
        var row := db.catalog.milestoneRow[m];
        t == db.(
          board := Stages.Step(db.board, Stages.Release(row, NextRow(db.catalog, row))),
          released := map r | r in db.released :: db.released[r]
            + if row in db.catalog.campaignOf && db.catalog.campaignOf[row] == r then amount else 0)
      else t == db
  {
    Footprint(db, log);
    StagesOnce(db.board, db.catalog, log);
    assert log.event.milestone !in db.catalog.milestoneRow ==>
      (map r | r in db.released :: db.released[r] + ReleasedBy(db.catalog, log, r)) == db.released;
  }
}
