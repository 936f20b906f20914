/** Campaigns do not interfere: what the indexer keeps about one linked campaign depends
    on that campaign's own events only. */
module Independence {
  import opened Common
  import opened Events
  import opened Database
  import opened Replay
  import Lifecycle
  import Funding
  import Stages
  import Records

  /** The transaction hashes and proposal ids that belong to one campaign. */
  datatype Keys = Keys(hashes: set<int>, refunds: set<nat>, flags: set<nat>, releases: set<nat>)

  predicate OwnMilestone(catalog: Catalog, row: RowId, milestone: nat) {
    && milestone in catalog.milestoneRow
    && catalog.milestoneRow[milestone] in catalog.campaignOf
    && catalog.campaignOf[catalog.milestoneRow[milestone]] == row
  }

  /** Whether an event is about campaign `c`, whose row is `row`. */
  predicate Concerns(catalog: Catalog, c: nat, row: RowId, log: Log) {
    match log.event
    case CampaignCreated(_) => false
    case FlagConfirmed(_, d, _) => d == c
    case MilestoneSubmitted(m, _, _) => OwnMilestone(catalog, row, m)
    case VoteCast(m, _, _, _) => OwnMilestone(catalog, row, m)
    case VotingFinalized(m, _) => OwnMilestone(catalog, row, m)
    case FundsReleased(m, _) => OwnMilestone(catalog, row, m)
    case ReleaseProposed(_, m, _) => OwnMilestone(catalog, row, m)
    case ReleaseConfirmed(_, m, _) => OwnMilestone(catalog, row, m)
    case CampaignStatusChanged(d, _) => d == c
    case _ => LinkedBy(log) == Some(c)
  }

  /** Own events use own keys, foreign events use none of them. */
  predicate KeepsKeys(keys: Keys, own: bool, log: Log) {
    match log.event
    case ContributionMade(_, _, _) => own == (log.txHash in keys.hashes)
    case RefundProposed(p, _, _) => own == (p in keys.refunds)
    case RefundApproved(p, _, _) => own == (p in keys.refunds)
    case FlagProposed(p, _, _, _) => own == (p in keys.flags)
    case FlagConfirmed(p, _, _) => own == (p in keys.flags)
    case ReleaseProposed(p, _, _) => own == (p in keys.releases)
    case ReleaseConfirmed(p, _, _) => own == (p in keys.releases)
    case _ => true
  }

  function Only(catalog: Catalog, c: nat, row: RowId, logs: seq<Log>): seq<Log> {
    if logs == [] then []
    else Only(catalog, c, row, Front(logs)) + if Concerns(catalog, c, row, Last(logs)) then [Last(logs)] else []
  }

  /** Every milestone row listed under a campaign belongs to it. */
  predicate PlansOwned(catalog: Catalog) {
    forall r, i | r in catalog.plan && 0 <= i < |catalog.plan[r]| ::
      catalog.plan[r][i] in catalog.campaignOf && catalog.campaignOf[catalog.plan[r][i]] == r
  }

  predicate OwnRow(catalog: Catalog, row: RowId, m: RowId) {
    m in catalog.campaignOf && catalog.campaignOf[m] == row
  }

  // ---- Agreement of two states on one campaign, table by table ------------------------

  ghost predicate SameLife(a: Lifecycle.Table, b: Lifecycle.Table, row: RowId) {
    (row in a <==> row in b) && (row in a && row in b ==> a[row] == b[row])
  }

  ghost predicate SameBook(a: Funding.Book, b: Funding.Book, row: RowId, hashes: set<int>) {
    && Funding.Raised(a, row) == Funding.Raised(b, row)
    && (forall h | h in hashes :: h in a.rows <==> h in b.rows)
    && (forall h | h in a.rows && a.rows[h].campaign == row :: h in b.rows && b.rows[h] == a.rows[h])
    && (forall h | h in b.rows && b.rows[h].campaign == row :: h in a.rows && a.rows[h] == b.rows[h])
  }

  ghost predicate SameBoard(catalog: Catalog, a: Stages.Board, b: Stages.Board, row: RowId) {
    forall m | OwnRow(catalog, row, m) :: (m in a <==> m in b) && (m in a && m in b ==> a[m] == b[m])
  }

  ghost predicate SameBallots(catalog: Catalog, a: Records.BallotBox, b: Records.BallotBox, row: RowId) {
    forall w, m | OwnRow(catalog, row, m) ::
      ((w, m) in a <==> (w, m) in b) && ((w, m) in a && (w, m) in b ==> a[(w, m)] == b[(w, m)])
  }

  ghost predicate SameRegister(a: Records.Register, b: Records.Register, ids: set<nat>) {
    forall p | p in ids :: (p in a <==> p in b) && (p in a && p in b ==> a[p] == b[p])
  }

  /** The two states keep the same things about the campaign. */
  ghost predicate SameFor(a: Db, b: Db, c: nat, row: RowId, keys: Keys) {
    && a.catalog == b.catalog
    && c in a.links && a.links[c] == row && c in b.links && b.links[c] == row
    && SameLife(a.lives, b.lives, row)
    && SameBook(a.book, b.book, row, keys.hashes)
    && SameBoard(a.catalog, a.board, b.board, row)
    && SameBallots(a.catalog, a.ballots, b.ballots, row)
    && SameRegister(a.refunds, b.refunds, keys.refunds)
    && SameRegister(a.flags, b.flags, keys.flags)
    && SameRegister(a.releases, b.releases, keys.releases)
    && (row in a.released <==> row in b.released)
    && (row in a.released && row in b.released ==> a.released[row] == b.released[row])
    && (forall m | OwnRow(a.catalog, row, m) ::
          (m in a.submissions <==> m in b.submissions)
          && (m in a.submissions && m in b.submissions ==> a.submissions[m] == b.submissions[m]))
  }

  // ---- A foreign event changes nothing of the campaign's ------------------------------

  lemma ForeignLife(db: Db, c: nat, row: RowId, log: Log)
    requires Valid(db) && c in db.links && db.links[c] == row && !Concerns(db.catalog, c, row, log)
    ensures SameLife(Lifecycle.TouchAll(db.lives, LifeUpdates(db.links, log)), db.lives, row)
  {
    var us := LifeUpdates(db.links, log);
    if us != [] {
      Lifecycle.TouchOne(db.lives, us[0]);
      assert us == [us[0]];
    }
  }

  lemma ForeignBook(db: Db, c: nat, row: RowId, keys: Keys, log: Log)
    requires Valid(db) && c in db.links && db.links[c] == row
    requires !Concerns(db.catalog, c, row, log) && KeepsKeys(keys, false, log)
    ensures SameBook(Funding.Run(db.book, FundingOps(db.links, log)), db.book, row, keys.hashes)
  {
    var ops := FundingOps(db.links, log);
    if ops != [] {
      assert ops == [ops[0]];
      Funding.RunOne(db.book, ops[0]);
    }
  }

  lemma ForeignBoard(db: Db, c: nat, row: RowId, log: Log)
    requires PlansOwned(db.catalog) && MilestonesOwned(db.catalog) && !Concerns(db.catalog, c, row, log)
    ensures SameBoard(db.catalog, Stages.Run(db.board, StageOps(db.catalog, log)), db.board, row)
  {
    var ops := StageOps(db.catalog, log);
    if ops != [] {
      assert ops == [ops[0]];
      Stages.RunOne(db.board, ops[0]);
      if ops[0].Release? {
        NextOwned(db.catalog, ops[0].row);
      }
    }
  }

  /** Every bound milestone row belongs to a campaign. */
  predicate MilestonesOwned(catalog: Catalog) {
    forall m | m in catalog.milestoneRow :: catalog.milestoneRow[m] in catalog.campaignOf
  }

  lemma NextOwned(catalog: Catalog, m: RowId)
    requires PlansOwned(catalog)
    ensures var next := NextRow(catalog, m);
      next.Some? ==> m in catalog.campaignOf && OwnRow(catalog, catalog.campaignOf[m], next.value)
  {
    var next := NextRow(catalog, m);
    if next.Some? {
      var rows := catalog.plan[catalog.campaignOf[m]];
      var i := if m in rows then IndexOf(rows, m) + 1 else 0;
      assert rows[i] == next.value;
    }
  }

  lemma ForeignBallots(db: Db, c: nat, row: RowId, log: Log)
    requires !Concerns(db.catalog, c, row, log)
    ensures SameBallots(db.catalog, Records.CastAll(db.ballots, Votes(db.catalog, log)), db.ballots, row)
  {
    var votes := Votes(db.catalog, log);
    if votes != [] {
      assert votes == [votes[0]];
      Records.CastOne(db.ballots, votes[0]);
    }
  }

  lemma ForeignRegister(kind: Kind, r: Records.Register, links: Links, catalog: Catalog, keys: Keys, log: Log)
    requires KeepsKeys(keys, false, log)
    ensures SameRegister(Records.Run(r, ProposalOps(kind, links, catalog, log)), r, KeysOf(kind, keys))
  {
    var ops := ProposalOps(kind, links, catalog, log);
    if ops != [] {
      assert ops == [ops[0]];
      Records.RunOne(r, ops[0]);
    }
  }

  function KeysOf(kind: Kind, keys: Keys): set<nat> {
    match kind
    case Refund => keys.refunds
    case Flag => keys.flags
    case Release => keys.releases
  }

  // ---- An own event does the same to both states --------------------------------------

  lemma OwnOps(a: Links, b: Links, catalog: Catalog, c: nat, row: RowId, log: Log)
    requires c in a && c in b && a[c] == b[c] == row && Concerns(catalog, c, row, log)
    ensures LifeUpdates(a, log) == LifeUpdates(b, log)
    ensures FundingOps(a, log) == FundingOps(b, log)
    ensures RefundOps(a, log) == RefundOps(b, log) && FlagOps(a, log) == FlagOps(b, log)
  {
  }

  lemma OwnBook(a: Funding.Book, b: Funding.Book, row: RowId, hashes: set<int>, ops: seq<Funding.Op>)
    requires SameBook(a, b, row, hashes) && |ops| <= 1
    requires ops != [] ==> ops[0].campaign == row && (ops[0].Contribute? ==> ops[0].hash in hashes)
    ensures SameBook(Funding.Run(a, ops), Funding.Run(b, ops), row, hashes)
  {
    if ops != [] {
      assert ops == [ops[0]];
      Funding.RunOne(a, ops[0]);
      Funding.RunOne(b, ops[0]);
    }
  }

  lemma OwnBoard(catalog: Catalog, a: Stages.Board, b: Stages.Board, row: RowId, ops: seq<Stages.Op>)
    requires SameBoard(catalog, a, b, row) && |ops| <= 1
    requires ops != [] ==> OwnRow(catalog, row, ops[0].row)
    requires ops != [] && ops[0].Release? && ops[0].next.Some? ==> OwnRow(catalog, row, ops[0].next.value)
    ensures SameBoard(catalog, Stages.Run(a, ops), Stages.Run(b, ops), row)
  {
    if ops != [] {
      assert ops == [ops[0]];
      Stages.RunOne(a, ops[0]);
      Stages.RunOne(b, ops[0]);
    }
  }

  lemma OwnBallots(catalog: Catalog, a: Records.BallotBox, b: Records.BallotBox, row: RowId, votes: seq<Records.Vote>)
    requires SameBallots(catalog, a, b, row) && |votes| <= 1
    ensures SameBallots(catalog, Records.CastAll(a, votes), Records.CastAll(b, votes), row)
  {
    if votes != [] {
      assert votes == [votes[0]];
      Records.CastOne(a, votes[0]);
      Records.CastOne(b, votes[0]);
    }
  }

  lemma OwnRegister(a: Records.Register, b: Records.Register, ids: set<nat>, ops: seq<Records.Op>)
    requires SameRegister(a, b, ids) && |ops| <= 1
    ensures SameRegister(Records.Run(a, ops), Records.Run(b, ops), ids)
  {
    if ops != [] {
      assert ops == [ops[0]];
      Records.RunOne(a, ops[0]);
      Records.RunOne(b, ops[0]);
    }
  }

  lemma OwnLife(a: Lifecycle.Table, b: Lifecycle.Table, row: RowId, us: seq<Lifecycle.Update>)
    requires SameLife(a, b, row) && |us| <= 1
    ensures SameLife(Lifecycle.TouchAll(a, us), Lifecycle.TouchAll(b, us), row)
  {
    if us != [] {
      assert us == [us[0]];
      Lifecycle.TouchOne(a, us[0]);
      Lifecycle.TouchOne(b, us[0]);
    }
  }

  /** The updates of an own event name the campaign's row, its keys and its milestones. */
  lemma OwnShape(links: Links, catalog: Catalog, c: nat, row: RowId, keys: Keys, log: Log)
    requires c in links && links[c] == row && PlansOwned(catalog)
    requires Concerns(catalog, c, row, log) && KeepsKeys(keys, true, log)
    ensures |LifeUpdates(links, log)| <= 1 && |Votes(catalog, log)| <= 1
    ensures |RefundOps(links, log)| <= 1 && |FlagOps(links, log)| <= 1 && |ReleaseOps(catalog, log)| <= 1
    ensures var ops := FundingOps(links, log);
      && |ops| <= 1
      && (ops != [] ==> ops[0].campaign == row && (ops[0].Contribute? ==> ops[0].hash in keys.hashes))
    ensures var ops := StageOps(catalog, log);
      && |ops| <= 1
      && (ops != [] ==> OwnRow(catalog, row, ops[0].row))
      && (ops != [] && ops[0].Release? && ops[0].next.Some? ==> OwnRow(catalog, row, ops[0].next.value))
    ensures LinkStep(links, catalog.drafts, log) == links
  {
    if log.event.FundsReleased? { NextOwned(catalog, catalog.milestoneRow[log.event.milestone]); }
  }

  lemma OwnEvent(a: Db, b: Db, c: nat, row: RowId, keys: Keys, log: Log)
    requires SameFor(a, b, c, row, keys) && PlansOwned(a.catalog)
    requires Concerns(a.catalog, c, row, log) && KeepsKeys(keys, true, log)
    ensures SameFor(Apply(a, log), Apply(b, log), c, row, keys)
  {
    hide Database.LifeUpdates;
    hide Database.FundingOps;
    hide Database.StageOps;
    hide Database.Votes;
    hide Database.RefundOps;
    hide Database.FlagOps;
    hide Database.ReleaseOps;
    hide Database.LinkStep;
    hide SameLife;
    hide SameBook;
    hide SameBoard;
    hide SameBallots;
    hide SameRegister;
    hide Funding.Run;
    hide Stages.Run;
    hide Records.Run;
    hide Records.CastAll;
    hide Lifecycle.TouchAll;
    var catalog := a.catalog;
    OwnShape(a.links, catalog, c, row, keys, log);
    OwnShape(b.links, catalog, c, row, keys, log);
    OwnOps(a.links, b.links, catalog, c, row, log);
    OwnLife(a.lives, b.lives, row, LifeUpdates(a.links, log));
    OwnBook(a.book, b.book, row, keys.hashes, FundingOps(a.links, log));
    OwnBoard(catalog, a.board, b.board, row, StageOps(catalog, log));
    OwnBallots(catalog, a.ballots, b.ballots, row, Votes(catalog, log));
    OwnRegister(a.refunds, b.refunds, keys.refunds, RefundOps(a.links, log));
    OwnRegister(a.flags, b.flags, keys.flags, FlagOps(a.links, log));
    OwnRegister(a.releases, b.releases, keys.releases, ReleaseOps(catalog, log));
  }

  lemma ForeignEvent(a: Db, c: nat, row: RowId, keys: Keys, log: Log)
    requires Valid(a) && c in a.links && a.links[c] == row
    requires PlansOwned(a.catalog) && MilestonesOwned(a.catalog)
    requires !Concerns(a.catalog, c, row, log) && KeepsKeys(keys, false, log)
    ensures SameFor(Apply(a, log), a, c, row, keys)
  {
    ForeignLife(a, c, row, log);
    ForeignBook(a, c, row, keys, log);
    ForeignBoard(a, c, row, log);
    ForeignBallots(a, c, row, log);
    ForeignRegister(Refund, a.refunds, a.links, a.catalog, keys, log);
    ForeignRegister(Flag, a.flags, a.links, a.catalog, keys, log);
    ForeignRegister(Release, a.releases, a.links, a.catalog, keys, log);
  }

  lemma SameTransitive(x: Db, y: Db, z: Db, c: nat, row: RowId, keys: Keys)
    requires SameFor(x, y, c, row, keys) && SameFor(y, z, c, row, keys)
    ensures SameFor(x, z, c, row, keys)
  {
  }

  /** Indexing a whole log and indexing only the campaign's own events keep the same
      things about the campaign. */
  lemma {:induction false} CampaignIndependent(db: Db, logs: seq<Log>, c: nat, row: RowId, keys: Keys)
    requires Valid(db) && c in db.links && db.links[c] == row
    requires PlansOwned(db.catalog) && MilestonesOwned(db.catalog)
    requires forall i | 0 <= i < |logs| :: KeepsKeys(keys, Concerns(db.catalog, c, row, logs[i]), logs[i])
    ensures SameFor(Fold(db, logs), Fold(db, Only(db.catalog, c, row, logs)), c, row, keys)
  {
    hide Database.Apply;
    if logs == [] {
      NoEvents(db, c, row, keys);
    } else {
      hide SameFor;
      hide KeepsKeys;
      var q, last := Front(logs), Last(logs);
      assert logs[|logs| - 1] == last;
      CampaignIndependent(db, q, c, row, keys);
      var own := Only(db.catalog, c, row, q);
      var a, b := Fold(db, q), Fold(db, own);
      LinksGrow(db, q);
      if Concerns(db.catalog, c, row, last) {
        OwnEvent(a, b, c, row, keys, last);
        assert Only(db.catalog, c, row, logs) == own + [last];
        assert Front(own + [last]) == own && Last(own + [last]) == last;
      } else {
        ForeignEvent(a, c, row, keys, last);
        assert Only(db.catalog, c, row, logs) == own + [] == own;
        SameTransitive(Apply(a, last), a, b, c, row, keys);
      }
    }
  }

  lemma NoEvents(db: Db, c: nat, row: RowId, keys: Keys)
    requires c in db.links && db.links[c] == row
    ensures SameFor(Fold(db, []), Fold(db, Only(db.catalog, c, row, [])), c, row, keys)
  {
  }
}
