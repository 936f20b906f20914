/** The indexer's tables and what each event does to them. Every handler is one function
    from the tables to the tables; the class in the indexer module carries them out. */
module Database {
  import opened Common
  import opened Events
  import Lifecycle
  import Funding
  import Stages
  import Records

  /** The columns that the candidate search for a new campaign reads. */
  datatype Draft = Draft(ipfsHash: Option<string>, createdAt: int)

  /** What the indexer reads but never writes: drafts, the milestone rows bound to
      on-chain ids, each milestone row's campaign, and each campaign's milestone rows in
      ascending `order`. */
  datatype Catalog = Catalog(
    drafts: map<RowId, Draft>,
    milestoneRow: map<nat, RowId>,
    campaignOf: map<RowId, RowId>,
    plan: map<RowId, seq<RowId>>)

  /** Unique on-chain campaign ids and the rows that hold them. */
  type Links = map<nat, RowId>

  datatype Db = Db(
    catalog: Catalog,
    links: Links,
    lives: Lifecycle.Table,
    book: Funding.Book,
    board: Stages.Board,
    ballots: Records.BallotBox,
    refunds: Records.Register,
    flags: Records.Register,
    releases: Records.Register,
    released: map<RowId, nat>,
    submissions: map<RowId, nat>)

  /** Everything but the two columns that handlers increment without a guard. */
  function Core(db: Db): Db {
    db.(released := map[], submissions := map[])
  }

  predicate Injective(links: Links) {
    forall c, d | c in links && d in links && links[c] == links[d] :: c == d
  }

  predicate Distinct(rows: seq<RowId>) {
    forall i, j | 0 <= i < j < |rows| :: rows[i] != rows[j]
  }

  /** No campaign lists a milestone row twice. */
  predicate PlansDistinct(catalog: Catalog) {
    forall r | r in catalog.plan :: Distinct(catalog.plan[r])
  }

  predicate Valid(db: Db) {
    Injective(db.links) && PlansDistinct(db.catalog)
  }

  // ---- Linking a new campaign ---------------------------------------------------------

  /** The rows a new on-chain campaign may be linked to. */
  predicate Unlinked(links: Links, drafts: map<RowId, Draft>, hash: string, row: RowId) {
    row in drafts && row !in links.Values && drafts[row].ipfsHash == Some(hash)
  }

  /** Later creation wins; the row key stands in for the database's choice among equals. */
  predicate Newer(drafts: map<RowId, Draft>, a: RowId, b: RowId)
    requires a in drafts && b in drafts
  {
    drafts[a].createdAt > drafts[b].createdAt || (drafts[a].createdAt == drafts[b].createdAt && a >= b)
  }

  ghost predicate Newest(links: Links, drafts: map<RowId, Draft>, hash: string, row: RowId) {
    && Unlinked(links, drafts, hash, row)
    && forall r | Unlinked(links, drafts, hash, r) :: Newer(drafts, row, r)
  }

  ghost function LinkStep(links: Links, drafts: map<RowId, Draft>, log: Log): Links {
    if !log.event.CampaignCreated? || log.event.campaign in links then links
    else if row :| Newest(links, drafts, log.head.ipfsHash, row) then links[log.event.campaign := row]
    else links
  }

  ghost function LinkAll(links: Links, drafts: map<RowId, Draft>, logs: seq<Log>): Links {
    if logs == [] then links else LinkStep(LinkAll(links, drafts, Front(logs)), drafts, Last(logs))
  }

  // ---- What one event does to each table, under given links ---------------------------

  /** The database status for an on-chain status number; unknown numbers have none. */
  function StatusAt(index: nat): Option<Lifecycle.CampaignStatus> {
    match index
    case 0 => Some(Lifecycle.Pending)
    case 1 => Some(Lifecycle.Active)
    case 2 => Some(Lifecycle.Funded)
    case 3 => Some(Lifecycle.Completed)
    case 4 => Some(Lifecycle.Failed)
    case 5 => Some(Lifecycle.Flagged)
    case _ => None
  }

  /** The campaign id an event's handler looks up and the update it makes to that row. */
  function LifeOpOf(log: Log): Option<(nat, Lifecycle.LifeOp)> {
    match log.event
    case CampaignApproved(c) => Some((c, Lifecycle.Approve))
    case CampaignStatusChanged(c, index) =>
      if StatusAt(index).Some? then Some((c, Lifecycle.Sync(StatusAt(index).value))) else None
    case CampaignFlagged(c) => Some((c, Lifecycle.Set(Lifecycle.Flagged)))
    case CampaignUnflagged(c) => Some((c, Lifecycle.Set(Lifecycle.Active)))
    case CampaignCompleted(c) => Some((c, Lifecycle.Set(Lifecycle.Completed)))
    case CampaignCancelled(c) => Some((c, Lifecycle.Cancel(log.head.fundsReclaimed)))
    case RefundApproved(_, c, _) => Some((c, Lifecycle.Reclaim))
    case _ => None
  }

  function LifeUpdates(links: Links, log: Log): seq<Lifecycle.Update> {
    var found := LifeOpOf(log);
    if found.Some? && found.value.0 in links
    then [Lifecycle.Update(links[found.value.0], found.value.1)]
    else []
  }

  function FundingOps(links: Links, log: Log): seq<Funding.Op> {
    match log.event
    case ContributionMade(c, who, amount) =>
      if c in links then [Funding.Contribute(log.txHash, links[c], Lower(who), amount)] else []
    case RefundClaimed(c, who, _) =>
      if c in links then [Funding.Claim(links[c], Lower(who))] else []
    case _ => []
  }

  function IndexOf(rows: seq<RowId>, row: RowId): (i: nat)
    ensures i < |rows| ==> rows[i] == row
    ensures i <= |rows| && row !in rows[..i]
    ensures row in rows ==> i < |rows|
  {
    if rows == [] then 0 else if rows[0] == row then 0 else 1 + IndexOf(rows[1..], row)
  }

  /** The row after a milestone in its campaign's order; `findIndex` answers -1 for a row
      that is not there, so the first row then counts as the next one. */
  function NextRow(catalog: Catalog, row: RowId): Option<RowId> {
    if row !in catalog.campaignOf || catalog.campaignOf[row] !in catalog.plan then None
    else
      var rows := catalog.plan[catalog.campaignOf[row]];
      var i := if row in rows then IndexOf(rows, row) + 1 else 0;
      if i < |rows| then Some(rows[i]) else None
  }

  function StageOps(catalog: Catalog, log: Log): seq<Stages.Op> {
    match log.event
    case MilestoneSubmitted(m, proof, end) =>
      if m in catalog.milestoneRow then [Stages.Submit(catalog.milestoneRow[m], proof, end)] else []
    case VotingFinalized(m, approved) =>
      if m in catalog.milestoneRow then [Stages.Finalize(catalog.milestoneRow[m], approved)] else []
    case FundsReleased(m, _) =>
      if m in catalog.milestoneRow
      then var row := catalog.milestoneRow[m]; [Stages.Release(row, NextRow(catalog, row))]
      else []
    case _ => []
  }

  function Votes(catalog: Catalog, log: Log): seq<Records.Vote> {
    match log.event
    case VoteCast(m, who, approve, weight) =>
      if m in catalog.milestoneRow
      then [Records.Vote(Lower(who), catalog.milestoneRow[m], Records.Ballot(approve, weight))]
      else []
    case _ => []
  }

  function Opened(subject: RowId, proposer: Wallet, reason: string, at: nat): Records.Proposal {
    Records.Proposal(subject, Lower(proposer), reason, at, None, false)
  }

  function RefundOps(links: Links, log: Log): seq<Records.Op> {
    match log.event
    case RefundProposed(p, c, who) =>
      if c in links then [Records.Open(p, Opened(links[c], who, "", log.blockTime))] else []
    case RefundApproved(p, _, who) => [Records.Execute(p, Lower(who))]
    case _ => []
  }

  function FlagOps(links: Links, log: Log): seq<Records.Op> {
    match log.event
    case FlagProposed(p, c, who, reason) =>
      if c in links then [Records.Open(p, Opened(links[c], who, reason, log.blockTime))] else []
    case FlagConfirmed(p, _, who) => [Records.Execute(p, Lower(who))]
    case _ => []
  }

  function ReleaseOps(catalog: Catalog, log: Log): seq<Records.Op> {
    match log.event
    case ReleaseProposed(p, m, who) =>
      if m in catalog.milestoneRow
      then [Records.Open(p, Opened(catalog.milestoneRow[m], who, "", log.blockTime))]
      else []
    case ReleaseConfirmed(p, _, who) => [Records.Execute(p, Lower(who))]
    case _ => []
  }

  /** What an event adds to a campaign row's released total. */
  function ReleasedBy(catalog: Catalog, log: Log, campaign: RowId): nat {
    match log.event
    case FundsReleased(m, amount) =>
      if m in catalog.milestoneRow && catalog.milestoneRow[m] in catalog.campaignOf
         && catalog.campaignOf[catalog.milestoneRow[m]] == campaign
      then amount else 0
    case _ => 0
  }

  /** What an event adds to a milestone row's submission count. */
  function SubmissionsBy(catalog: Catalog, log: Log, row: RowId): nat {
    match log.event
    case MilestoneSubmitted(m, _, _) =>
      if m in catalog.milestoneRow && catalog.milestoneRow[m] == row then 1 else 0
    case _ => 0
  }

  /** Delivers one log to its handler. */
  ghost function Apply(db: Db, log: Log): Db {
    db.(
      links := LinkStep(db.links, db.catalog.drafts, log),
      lives := Lifecycle.TouchAll(db.lives, LifeUpdates(db.links, log)),
      book := Funding.Run(db.book, FundingOps(db.links, log)),
      board := Stages.Run(db.board, StageOps(db.catalog, log)),
      ballots := Records.CastAll(db.ballots, Votes(db.catalog, log)),
      refunds := Records.Run(db.refunds, RefundOps(db.links, log)),
      flags := Records.Run(db.flags, FlagOps(db.links, log)),
      releases := Records.Run(db.releases, ReleaseOps(db.catalog, log)),
      released := map r | r in db.released :: db.released[r] + ReleasedBy(db.catalog, log, r),
      submissions := map r | r in db.submissions :: db.submissions[r] + SubmissionsBy(db.catalog, log, r))
  }

  /** Delivers a list of logs in order. */
  ghost function Fold(db: Db, logs: seq<Log>): Db {
    if logs == [] then db else Apply(Fold(db, Front(logs)), Last(logs))
  }

  lemma {:induction false} FoldConcat(db: Db, p: seq<Log>, q: seq<Log>)
    ensures Fold(db, p + q) == Fold(Fold(db, p), q)
  {
    if q == [] {
      assert p + q == p;
    } else {
      assert Front(p + q) == p + Front(q) && Last(p + q) == Last(q);
      FoldConcat(db, p, Front(q));
    }
  }

  /** Events link campaigns to rows nobody holds, so links stay one-to-one and only grow. */
  lemma {:induction false} LinksGrow(db: Db, logs: seq<Log>)
    requires Valid(db)
    ensures Valid(Fold(db, logs)) && Fold(db, logs).catalog == db.catalog
    ensures Fold(db, logs).links == LinkAll(db.links, db.catalog.drafts, logs)
    ensures forall c <- db.links :: c in Fold(db, logs).links && Fold(db, logs).links[c] == db.links[c]
  {
    if logs != [] {
      LinksGrow(db, Front(logs));
    }
  }

  /** The unguarded counters are written and never read. */
  lemma {:induction false} CoreFold(db: Db, logs: seq<Log>)
    ensures Core(Fold(db, logs)) == Fold(Core(db), logs)
  {
    if logs != [] {
      CoreFold(db, Front(logs));
      assert (map r | r in Core(db).released :: 0) == map[];
    }
  }
}
