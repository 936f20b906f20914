/** Where replay stops being safe: each inverted pair of events really does diverge. */
module ReplayLimits {
  import opened Common
  import opened Events
  import opened Database
  import opened Replay
  import Lifecycle
  import Funding
  import Records

  /** From every state of the tables and after every crash, delivering the logs again ends
      where one clean delivery does. */
  ghost predicate ReplaySafe(logs: seq<Log>) {
    forall db: Db, crash: nat | Valid(db) && crash <= |logs| :: SafeFrom(db, logs, crash)
  }

  ghost predicate SafeFrom(db: Db, logs: seq<Log>, crash: nat)
    requires crash <= |logs|
  {
    Core(Fold(Fold(db, logs[..crash]), logs)) == Core(Fold(db, logs))
  }

  function EmptyDb(catalog: Catalog, links: Links): Db {
    Db(catalog, links, map[1 := Lifecycle.Life(Lifecycle.Pending, true, false)],
       Funding.Book(map[], map[]), map[], map[], map[], map[], map[], map[], map[])
  }

  /** Tables on which an inverted pair diverges: a new campaign has one draft waiting, any
      other subject is already linked. */
  function Witness(earlier: Log, later: Log): Db
    requires Inverted(earlier, later)
  {
    match later.event
    case CampaignCreated(_) =>
      var db := EmptyDb(Catalog(map[1 := Draft(Some(later.head.ipfsHash), 0)], map[], map[], map[]), map[]);
      if earlier.event.RefundClaimed?
      then db.(book := Funding.Book(
             map[0 := Funding.Contribution(1, Lower(earlier.event.contributor), 0, false)], map[]))
      else db
    case ReleaseProposed(_, m, _) => EmptyDb(Catalog(map[], map[m := 1], map[], map[]), map[])
    case ContributionMade(c, _, _) => EmptyDb(Catalog(map[], map[], map[], map[]), map[c := 1])
    case RefundProposed(_, c, _) => EmptyDb(Catalog(map[], map[], map[], map[]), map[c := 1])
    case FlagProposed(_, c, _, _) => EmptyDb(Catalog(map[], map[], map[], map[]), map[c := 1])
  }

  lemma FoldTwo(db: Db, a: Log, b: Log)
    ensures Fold(db, [a, b]) == Apply(Apply(db, a), b)
  {
    assert Front([a, b]) == [a] && Front([a]) == [];
    assert Fold(db, [a]) == Apply(db, a);
  }

  lemma DraftIsNewest(drafts: map<RowId, Draft>, links: Links, log: Log, hash: string)
    requires drafts == map[1 := Draft(Some(hash), 0)] && links == map[]
    requires log.event.CampaignCreated? && log.head.ipfsHash == hash
    ensures LinkStep(links, drafts, log) == map[log.event.campaign := 1]
  {
    assert Newest(links, drafts, hash, 1);
  }

  /** A campaign created after an event about it: the first pass misses the event, the
      second does not. */
  lemma LateCreationDiverges(earlier: Log, later: Log)
    requires Inverted(earlier, later) && later.event.CampaignCreated? && !AnnouncesPending(earlier)
    ensures var db, logs := Witness(earlier, later), [earlier, later]; !SafeFrom(db, logs, 2)
  {
    var db := Witness(earlier, later);
    var logs, c := [earlier, later], later.event.campaign;
    assert logs[..2] == logs;
    DraftIsNewest(db.catalog.drafts, db.links, later, later.head.ipfsHash);
    FoldTwo(db, earlier, later);
    assert LinkStep(db.links, db.catalog.drafts, earlier) == db.links;
    var once := Fold(db, logs);
    assert Core(once) == Core(db).(links := map[c := 1]) by {
      UnlinkedIgnored(db, earlier);
      CreationOnlyLinks(Apply(db, earlier), later);
    }
    FoldTwo(once, earlier, later);
    CreationOnlyLinks(Apply(once, earlier), later);
    LinkedNoticed(once, earlier, c, db);
  }

  lemma NothingToDo(catalog: Catalog, links: Links, log: Log)
    requires links == map[] && LinkedBy(log).Some?
    ensures LifeUpdates(links, log) == [] && FundingOps(links, log) == []
    ensures StageOps(catalog, log) == [] && Votes(catalog, log) == []
    ensures FlagOps(links, log) == [] && ReleaseOps(catalog, log) == []
    ensures RefundOps(links, log) == []
         || exists p, who :: RefundOps(links, log) == [Records.Execute(p, who)]
    ensures LinkStep(links, catalog.drafts, log) == links
  {
  }

  /** An event about a campaign nobody is linked to leaves the tables alone. */
  lemma UnlinkedIgnored(db: Db, log: Log)
    requires db.links == map[] && LinkedBy(log).Some? && db.refunds == map[]
    ensures Core(Apply(db, log)) == Core(db)
  {
    hide LifeUpdates;
    hide FundingOps;
    hide StageOps;
    hide Votes;
    hide RefundOps;
    hide FlagOps;
    hide ReleaseOps;
    hide LinkStep;
    NothingToDo(db.catalog, db.links, log);
    if p, who :| RefundOps(db.links, log) == [Records.Execute(p, who)] {
      Records.RunOne(db.refunds, Records.Execute(p, who));
    }
  }

  /** The same event is noticed once the campaign is linked to the waiting row. */
  lemma LinkedNoticed(once: Db, earlier: Log, c: nat, db: Db)
    requires LinkedBy(earlier) == Some(c) && !AnnouncesPending(earlier)
    requires db.lives == map[1 := Lifecycle.Life(Lifecycle.Pending, true, false)]
    requires db.refunds == map[] && db.flags == map[] && db.links == map[]
    requires db.book.rows == if earlier.event.RefundClaimed?
               then map[0 := Funding.Contribution(1, Lower(earlier.event.contributor), 0, false)]
               else map[]
    requires Core(once) == Core(db).(links := map[c := 1])
    ensures var t := Core(Apply(once, earlier));
      t.lives != once.lives || t.book != once.book || t.refunds != once.refunds || t.flags != once.flags
  {
    hide Database.LifeUpdates;
    hide Database.LinkStep;
    hide Lifecycle.TouchAll;
    if LifeOpOf(earlier).Some? {
      StatusNoticed(once, earlier, c);
    } else if earlier.event.RefundClaimed? {
      ClaimNoticed(once, earlier, c);
    } else {
      NewKeyNoticed(once, earlier, c);
    }
  }

  lemma NewKeyNoticed(once: Db, log: Log, c: nat)
    requires LinkedBy(log) == Some(c) && once.links == map[c := 1]
    requires log.event.ContributionMade? || log.event.RefundProposed? || log.event.FlagProposed?
    requires once.book.rows == map[] && once.refunds == map[] && once.flags == map[]
    ensures var t := Apply(once, log); t.book != once.book || t.refunds != once.refunds || t.flags != once.flags
  {
    if log.event.ContributionMade? {
      Funding.RunOne(once.book, FundingOps(once.links, log)[0]);
      assert log.txHash in Apply(once, log).book.rows;
    } else if log.event.RefundProposed? {
      Records.RunOne(once.refunds, RefundOps(once.links, log)[0]);
      assert log.event.proposal in Apply(once, log).refunds;
    } else {
      Records.RunOne(once.flags, FlagOps(once.links, log)[0]);
      assert log.event.proposal in Apply(once, log).flags;
    }
  }

  lemma StatusNoticed(once: Db, log: Log, c: nat)
    requires LinkedBy(log) == Some(c) && !AnnouncesPending(log) && LifeOpOf(log).Some?
    requires once.lives == map[1 := Lifecycle.Life(Lifecycle.Pending, true, false)] && once.links == map[c := 1]
    ensures Lifecycle.TouchAll(once.lives, LifeUpdates(once.links, log)) != once.lives
  {
    var u := Lifecycle.Update(1, LifeOpOf(log).value.1);
    assert LifeUpdates(once.links, log) == [u];
    Lifecycle.TouchOne(once.lives, u);
    var t := Lifecycle.Touch(once.lives, u);
    assert 1 in t && t[1] != once.lives[1];
  }

  lemma ClaimNoticed(once: Db, log: Log, c: nat)
    requires log.event.RefundClaimed? && log.event.campaign == c && once.links == map[c := 1]
    requires once.book.rows == map[0 := Funding.Contribution(1, Lower(log.event.contributor), 0, false)]
    ensures Funding.Run(once.book, FundingOps(once.links, log)) != once.book
  {
    var op := Funding.Claim(1, Lower(log.event.contributor));
    Funding.RunOne(once.book, op);
    assert 0 in once.book.rows && !once.book.rows[0].refunded;
    assert Funding.Step(once.book, op).rows[0].refunded;
  }

  /** A refund claim, executed or confirmed proposal that is delivered before what it is
      about finds nothing the first time and something the second. */
  lemma LateSubjectDiverges(earlier: Log, later: Log)
    requires Inverted(earlier, later) && !later.event.CampaignCreated?
    ensures var db, logs := Witness(earlier, later), [earlier, later]; !SafeFrom(db, logs, 2)
  {
    var db := Witness(earlier, later);
    var logs := [earlier, later];
    assert logs[..2] == logs;
    FoldTwo(db, earlier, later);
    FoldTwo(Fold(db, logs), earlier, later);
    if later.event.ContributionMade? {
      LateContributionDiverges(db, earlier, later);
    } else {
      LateProposalDiverges(db, earlier, later);
    }
  }

  lemma LateContributionDiverges(db: Db, earlier: Log, later: Log)
    requires Inverted(earlier, later) && later.event.ContributionMade? && db == Witness(earlier, later)
    ensures var once := Apply(Apply(db, earlier), later);
      Apply(Apply(once, earlier), later).book != once.book
  {
    var claim := Funding.Claim(1, Lower(later.event.contributor));
    var add := Funding.Contribute(later.txHash, 1, Lower(later.event.contributor), later.event.amount);
    var book := Funding.Step(Funding.Step(db.book, claim), add);
    BookAfter(db, earlier, later, claim, add);
    var once := Apply(Apply(db, earlier), later);
    BookAfter(once, earlier, later, claim, add);
    assert Funding.Step(db.book, claim).rows == map[];
    assert !once.book.rows[later.txHash].refunded;
    assert Funding.Step(Funding.Step(once.book, claim), add).rows[later.txHash].refunded;
  }

  lemma BookAfter(db: Db, earlier: Log, later: Log, claim: Funding.Op, add: Funding.Op)
    requires !earlier.event.CampaignCreated? && !later.event.CampaignCreated?
    requires FundingOps(db.links, earlier) == [claim] && FundingOps(db.links, later) == [add]
    ensures var t := Apply(Apply(db, earlier), later);
      t.links == db.links && t.book == Funding.Step(Funding.Step(db.book, claim), add)
  {
    Funding.RunOne(db.book, claim);
    Funding.RunOne(Funding.Step(db.book, claim), add);
  }

  lemma LateProposalDiverges(db: Db, earlier: Log, later: Log)
    requires Inverted(earlier, later) && db == Witness(earlier, later)
    requires !later.event.CampaignCreated? && !later.event.ContributionMade?
    ensures var once := Apply(Apply(db, earlier), later);
      Core(Apply(Apply(once, earlier), later)) != Core(once)
  {
    hide Database.Apply;
    var p, who := later.event.proposal, Lower(earlier.event.confirmer);
    var reason := if later.event.FlagProposed? then later.event.reason else "";
    var proposal := Opened(1, later.event.proposer, reason, later.blockTime);
    var kind := if later.event.RefundProposed? then Refund else if later.event.FlagProposed? then Flag else Release;
    var once := Apply(Apply(db, earlier), later);
    RegisterAfter(kind, db, earlier, later, p, proposal, who);
    RegisterAfter(kind, once, earlier, later, p, proposal, who);
    assert Register(kind, db) == map[];
    assert !Register(kind, once)[p].executed;
    assert Register(kind, Apply(Apply(once, earlier), later))[p].executed;
  }

  function Register(kind: Kind, db: Db): Records.Register {
    match kind
    case Refund => db.refunds
    case Flag => db.flags
    case Release => db.releases
  }

  lemma RegisterAfter(kind: Kind, db: Db, earlier: Log, later: Log, p: nat, proposal: Records.Proposal, who: Wallet)
    requires !earlier.event.CampaignCreated? && !later.event.CampaignCreated?
    requires ProposalOps(kind, db.links, db.catalog, earlier) == [Records.Execute(p, who)]
    requires ProposalOps(kind, db.links, db.catalog, later) == [Records.Open(p, proposal)]
    ensures var t := Apply(Apply(db, earlier), later);
      && t.links == db.links && t.catalog == db.catalog
      && Register(kind, t) == Records.Step(Records.Step(Register(kind, db), Records.Execute(p, who)), Records.Open(p, proposal))
  {
    Records.RunOne(Register(kind, db), Records.Execute(p, who));
    Records.RunOne(Records.Step(Register(kind, db), Records.Execute(p, who)), Records.Open(p, proposal));
  }

  /** For two events, the order condition is not only sufficient but necessary. */
  lemma PairReplaySafe(earlier: Log, later: Log)
    requires !AnnouncesPending(earlier) && !AnnouncesPending(later)
    ensures ReplaySafe([earlier, later]) <==> !Inverted(earlier, later)
  {
    var logs := [earlier, later];
    if Inverted(earlier, later) {
      if later.event.CampaignCreated? {
        LateCreationDiverges(earlier, later);
      } else {
        LateSubjectDiverges(earlier, later);
      }
      assert Valid(Witness(earlier, later));
      assert !SafeFrom(Witness(earlier, later), logs, 2);
    } else {
      assert WellOrdered(logs);
      forall db: Db, crash: nat | Valid(db) && crash <= |logs|
        ensures SafeFrom(db, logs, crash)
      {
        CrashAbsorbed(db, logs, crash);
      }
    }
  }

  /** The legacy status Pending would break replay too: an approval that was refused on an
      already active row would be granted on the second delivery. */
  lemma PendingDiverges(approval: Log, pending: Log)
    requires approval.event.CampaignApproved?
    requires AnnouncesPending(pending) && pending.event.campaign == approval.event.campaign
    ensures !ReplaySafe([approval, pending])
  {
    var c, logs := approval.event.campaign, [approval, pending];
    var db := EmptyDb(Catalog(map[], map[], map[], map[]), map[c := 1]).(
      lives := map[1 := Lifecycle.Life(Lifecycle.Active, false, false)]);
    assert logs[..2] == logs && Valid(db);
    PendingPair(db, approval, pending);
    var once := Fold(db, logs);
    PendingPair(once, approval, pending);
    hide Database.Fold;
    assert once.lives[1] == Lifecycle.Life(Lifecycle.Pending, false, false);
    assert Fold(once, logs).lives[1].approved;
    assert !SafeFrom(db, logs, 2);
  }

  /** The pair takes row 1 to the status Pending, approved if it was Pending before. */
  lemma PendingPair(db: Db, approval: Log, pending: Log)
    requires approval.event.CampaignApproved?
    requires AnnouncesPending(pending) && pending.event.campaign == approval.event.campaign
    requires db.links == map[approval.event.campaign := 1] && 1 in db.lives
    requires db.lives[1].status in {Lifecycle.Active, Lifecycle.Pending}
    requires db.lives[1] == Lifecycle.Life(db.lives[1].status, false, false)
    ensures var t := Fold(db, [approval, pending]);
      && t.links == db.links && 1 in t.lives
      && t.lives[1] == Lifecycle.Life(Lifecycle.Pending, db.lives[1].status == Lifecycle.Pending, false)
  {
    var x, y := Lifecycle.Update(1, Lifecycle.Approve), Lifecycle.Update(1, Lifecycle.Sync(Lifecycle.Pending));
    assert LifeUpdates(db.links, approval) == [x] && LifeUpdates(db.links, pending) == [y];
    hide Database.LifeUpdates;
    hide Database.Apply;
    hide Database.Fold;
    FoldTwo(db, approval, pending);
    LivesAfter(db, approval, pending, x, y);
  }

  lemma LivesAfter(db: Db, a: Log, b: Log, x: Lifecycle.Update, y: Lifecycle.Update)
    requires !a.event.CampaignCreated? && !b.event.CampaignCreated?
    requires LifeUpdates(db.links, a) == [x] && LifeUpdates(db.links, b) == [y]
    ensures var t := Apply(Apply(db, a), b);
      t.links == db.links && t.lives == Lifecycle.Touch(Lifecycle.Touch(db.lives, x), y)
  {
    Lifecycle.TouchOne(db.lives, x);
    Lifecycle.TouchOne(Lifecycle.Touch(db.lives, x), y);
  }
}
