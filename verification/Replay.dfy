/** Replay: what delivering events again does to the tables. The indexer claims that its
    handlers are idempotent and that a crash in the middle of a chunk is therefore safe.
    This module proves exactly how far that goes. */
module Replay {
  import opened Common
  import opened Events
  import opened Database
  import Lifecycle
  import Funding
  import Stages
  import Records

  // ---- The order a log must keep ------------------------------------------------------

  /** The campaign id whose link decides what the event's handler does, if any. */
  function LinkedBy(log: Log): Option<nat> {
    match log.event
    case CampaignApproved(c) => Some(c)
    case CampaignStatusChanged(c, index) => if StatusAt(index).Some? then Some(c) else None
    case CampaignFlagged(c) => Some(c)
    case CampaignUnflagged(c) => Some(c)
    case CampaignCancelled(c) => Some(c)
    case CampaignCompleted(c) => Some(c)
    case ContributionMade(c, _, _) => Some(c)
    case RefundProposed(_, c, _) => Some(c)
    case RefundApproved(_, c, _) => Some(c)
    case RefundClaimed(c, _, _) => Some(c)
    case FlagProposed(_, c, _, _) => Some(c)
    case _ => None
  }

  /** The pairs of events that must not come in this order. */
  predicate Inverted(earlier: Log, later: Log) {
    match later.event
    case CampaignCreated(c) => LinkedBy(earlier) == Some(c)
    case ContributionMade(c, who, _) =>
      earlier.event.RefundClaimed? && earlier.event.campaign == c && SameWallet(earlier.event.contributor, who)
    case RefundProposed(p, _, _) => earlier.event.RefundApproved? && earlier.event.proposal == p
    case FlagProposed(p, _, _, _) => earlier.event.FlagConfirmed? && earlier.event.proposal == p
    case ReleaseProposed(p, _, _) => earlier.event.ReleaseConfirmed? && earlier.event.proposal == p
    case _ => false
  }

  /** The contract never emits its legacy status Pending. */
  predicate AnnouncesPending(log: Log) {
    log.event.CampaignStatusChanged? && log.event.statusIndex == 0
  }

  predicate WellOrdered(logs: seq<Log>) {
    && (forall i | 0 <= i < |logs| :: !AnnouncesPending(logs[i]))
    && (forall i, j | 0 <= i < j < |logs| :: !Inverted(logs[i], logs[j]))
  }

  // ---- One pass, seen table by table under the final links ----------------------------

  function AllLifeUpdates(links: Links, logs: seq<Log>): seq<Lifecycle.Update> {
    if logs == [] then [] else AllLifeUpdates(links, Front(logs)) + LifeUpdates(links, Last(logs))
  }

  function AllFundingOps(links: Links, logs: seq<Log>): seq<Funding.Op> {
    if logs == [] then [] else AllFundingOps(links, Front(logs)) + FundingOps(links, Last(logs))
  }

  function AllStageOps(catalog: Catalog, logs: seq<Log>): seq<Stages.Op> {
    if logs == [] then [] else AllStageOps(catalog, Front(logs)) + StageOps(catalog, Last(logs))
  }

  function AllVotes(catalog: Catalog, logs: seq<Log>): seq<Records.Vote> {
    if logs == [] then [] else AllVotes(catalog, Front(logs)) + Votes(catalog, Last(logs))
  }

  function AllRefundOps(links: Links, logs: seq<Log>): seq<Records.Op> {
    if logs == [] then [] else AllRefundOps(links, Front(logs)) + RefundOps(links, Last(logs))
  }

  function AllFlagOps(links: Links, logs: seq<Log>): seq<Records.Op> {
    if logs == [] then [] else AllFlagOps(links, Front(logs)) + FlagOps(links, Last(logs))
  }

  function AllReleaseOps(catalog: Catalog, logs: seq<Log>): seq<Records.Op> {
    if logs == [] then [] else AllReleaseOps(catalog, Front(logs)) + ReleaseOps(catalog, Last(logs))
  }

  /** A list of logs delivered to each table under fixed links. */
  function Pass(db: Db, links: Links, logs: seq<Log>): Db {
    db.(
      links := links,
      lives := Lifecycle.TouchAll(db.lives, AllLifeUpdates(links, logs)),
      book := Funding.Run(db.book, AllFundingOps(links, logs)),
      board := Stages.Run(db.board, AllStageOps(db.catalog, logs)),
      ballots := Records.CastAll(db.ballots, AllVotes(db.catalog, logs)),
      refunds := Records.Run(db.refunds, AllRefundOps(links, logs)),
      flags := Records.Run(db.flags, AllFlagOps(links, logs)),
      releases := Records.Run(db.releases, AllReleaseOps(db.catalog, logs)),
      released := map[],
      submissions := map[])
  }

  predicate Unmentioned(c: nat, logs: seq<Log>) {
    forall i | 0 <= i < |logs| :: LinkedBy(logs[i]) != Some(c)
  }

  /** A new link changes nothing for events that do not look it up. */
  lemma {:induction false} NewLinkUnread(links: Links, c: nat, row: RowId, logs: seq<Log>)
    requires Unmentioned(c, logs)
    ensures AllLifeUpdates(links[c := row], logs) == AllLifeUpdates(links, logs)
    ensures AllFundingOps(links[c := row], logs) == AllFundingOps(links, logs)
    ensures AllRefundOps(links[c := row], logs) == AllRefundOps(links, logs)
    ensures AllFlagOps(links[c := row], logs) == AllFlagOps(links, logs)
  {
    if logs != [] {
      assert LinkedBy(logs[|logs| - 1]) != Some(c);
      NewLinkUnread(links, c, row, Front(logs));
      NotLookedUp(links, c, row, Last(logs));
      hide LinkedBy;
      hide Database.LifeUpdates;
      hide Database.FundingOps;
      hide Database.RefundOps;
      hide Database.FlagOps;
    }
  }

  lemma NotLookedUp(links: Links, c: nat, row: RowId, log: Log)
    requires LinkedBy(log) != Some(c)
    ensures var m := links[c := row];
      && LifeUpdates(m, log) == LifeUpdates(links, log) && FundingOps(m, log) == FundingOps(links, log)
      && RefundOps(m, log) == RefundOps(links, log) && FlagOps(m, log) == FlagOps(links, log)
  {
  }

  /** Singleton batches append to the runs of the tables. */
  lemma AppendRuns(lives: Lifecycle.Table, us: seq<Lifecycle.Update>, u: seq<Lifecycle.Update>,
                   book: Funding.Book, fs: seq<Funding.Op>, f: seq<Funding.Op>)
    requires |u| <= 1 && |f| <= 1
    ensures Lifecycle.TouchAll(Lifecycle.TouchAll(lives, us), u) == Lifecycle.TouchAll(lives, us + u)
    ensures Funding.Run(Funding.Run(book, fs), f) == Funding.Run(book, fs + f)
  {
    if u == [] { assert us + u == us; } else { assert Front(us + u) == us; assert Front(u) == []; }
    if f == [] { assert fs + f == fs; } else { assert Front(fs + f) == fs; assert Front(f) == []; }
  }

  lemma AppendStages(board: Stages.Board, ss: seq<Stages.Op>, s: seq<Stages.Op>,
                     box: Records.BallotBox, vs: seq<Records.Vote>, v: seq<Records.Vote>)
    requires |s| <= 1 && |v| <= 1
    ensures Stages.Run(Stages.Run(board, ss), s) == Stages.Run(board, ss + s)
    ensures Records.CastAll(Records.CastAll(box, vs), v) == Records.CastAll(box, vs + v)
  {
    if s == [] { assert ss + s == ss; } else { assert Front(ss + s) == ss; assert Front(s) == []; }
    if v == [] { assert vs + v == vs; } else { assert Front(vs + v) == vs; assert Front(v) == []; }
  }

  lemma AppendProposals(r: Records.Register, ops: seq<Records.Op>, op: seq<Records.Op>)
    requires |op| <= 1
    ensures Records.Run(Records.Run(r, ops), op) == Records.Run(r, ops + op)
  {
    if op == [] { assert ops + op == ops; } else { assert Front(ops + op) == ops; assert Front(op) == []; }
  }

  /** An event updates each table at most once. */
  lemma AtMostOneEach(catalog: Catalog, links: Links, log: Log)
    ensures |LifeUpdates(links, log)| <= 1 && |FundingOps(links, log)| <= 1 && |StageOps(catalog, log)| <= 1
    ensures |Votes(catalog, log)| <= 1 && |RefundOps(links, log)| <= 1 && |FlagOps(links, log)| <= 1
    ensures |ReleaseOps(catalog, log)| <= 1
  {
  }

  /** One more log extends a pass as its handler would, under the pass's own links. */
  lemma PassAppend(db: Db, links: Links, q: seq<Log>, last: Log)
    ensures Pass(db, links, q + [last]) == Core(Apply(Pass(db, links, q), last)).(links := links)
  {
    assert Front(q + [last]) == q && Last(q + [last]) == last;
    AtMostOneEach(db.catalog, links, last);
    hide Database.LifeUpdates;
    hide Database.FundingOps;
    hide Database.StageOps;
    hide Database.Votes;
    hide Database.RefundOps;
    hide Database.FlagOps;
    hide Database.ReleaseOps;
    hide Database.LinkStep;
    hide Lifecycle.TouchAll;
    hide Funding.Run;
    hide Stages.Run;
    hide Records.CastAll;
    hide Records.Run;
    AppendRuns(db.lives, AllLifeUpdates(links, q), LifeUpdates(links, last),
               db.book, AllFundingOps(links, q), FundingOps(links, last));
    AppendStages(db.board, AllStageOps(db.catalog, q), StageOps(db.catalog, last),
                 db.ballots, AllVotes(db.catalog, q), Votes(db.catalog, last));
    AppendProposals(db.refunds, AllRefundOps(links, q), RefundOps(links, last));
    AppendProposals(db.flags, AllFlagOps(links, q), FlagOps(links, last));
    AppendProposals(db.releases, AllReleaseOps(db.catalog, q), ReleaseOps(db.catalog, last));
  }

  /** A creation touches nothing but the links. */
  lemma CreationOnlyLinks(db: Db, log: Log)
    requires log.event.CampaignCreated?
    ensures Core(Apply(db, log)) == Core(db).(links := Apply(db, log).links)
  {
  }

  /** Only a creation changes links, and it adds one. */
  lemma LinkChange(db: Db, log: Log)
    ensures var links := Apply(db, log).links;
      links != db.links ==>
        && log.event.CampaignCreated? && log.event.campaign in links
        && links == db.links[log.event.campaign := links[log.event.campaign]]
  {
  }

  lemma PassNewLink(db: Db, links: Links, c: nat, row: RowId, logs: seq<Log>)
    requires Unmentioned(c, logs)
    ensures Pass(db, links[c := row], logs) == Pass(db, links, logs).(links := links[c := row])
  {
    NewLinkUnread(links, c, row, logs);
  }

  /** When every campaign is created before it is mentioned, one pass with links growing
      on the way is the same as one pass under the links it ends with. */
  lemma {:induction false} Settled(db: Db, logs: seq<Log>)
    requires WellOrdered(logs)
    ensures Core(Fold(db, logs)) == Pass(db, Fold(db, logs).links, logs)
  {
    if logs != [] {
      hide Database.Apply;
      hide Pass;
      var q, last := Front(logs), Last(logs);
      assert logs == q + [last];
      Settled(db, q);
      hide Core;
      if last.event.CampaignCreated? { NewestUnmentioned(logs); }
      SettledStep(db, Fold(db, q), q, last);
      hide WellOrdered;
    }
  }

  lemma SettledStep(db: Db, m: Db, q: seq<Log>, last: Log)
    requires Core(m) == Pass(db, m.links, q)
    requires last.event.CampaignCreated? ==> Unmentioned(last.event.campaign, q)
    ensures Core(Apply(m, last)) == Pass(db, Apply(m, last).links, q + [last])
  {
    hide Database.Apply;
    hide Pass;
    hide Unmentioned;
    var links := Apply(m, last).links;
    CoreApply(m, last);
    PassAppend(db, links, q, last);
    LinkChange(m, last);
    if links != m.links {
      PassNewLink(db, m.links, last.event.campaign, links[last.event.campaign], q);
      CreationOnlyLinks(m, last);
      CreationOnlyLinks(Pass(db, links, q), last);
      PassIsCore(db, links, q);
    }
  }

  lemma NewestUnmentioned(logs: seq<Log>)
    requires logs != [] && WellOrdered(logs) && Last(logs).event.CampaignCreated?
    ensures Unmentioned(Last(logs).event.campaign, Front(logs))
  {
    forall i | 0 <= i < |Front(logs)|
      ensures LinkedBy(Front(logs)[i]) != Some(Last(logs).event.campaign)
    {
      assert !Inverted(logs[i], logs[|logs| - 1]);
    }
  }

  lemma PassIsCore(db: Db, links: Links, logs: seq<Log>)
    ensures Core(Pass(db, links, logs)) == Pass(db, links, logs) && Pass(db, links, logs).links == links
  {
  }

  lemma CoreApply(db: Db, log: Log)
    ensures Core(Apply(db, log)) == Core(Apply(Core(db), log))
  {
    CoreFold(db, [log]);
    assert Front([log]) == [];
    assert Fold(db, [log]) == Apply(db, log) && Fold(Core(db), [log]) == Apply(Core(db), log);
  }

  // ---- Links --------------------------------------------------------------------------

  /** No creation in the batch finds a campaign to link. */
  ghost predicate Quiet(links: Links, drafts: map<RowId, Draft>, logs: seq<Log>) {
    forall i | 0 <= i < |logs| :: LinkStep(links, drafts, logs[i]) == links
  }

  lemma {:induction false} QuietStays(links: Links, drafts: map<RowId, Draft>, logs: seq<Log>)
    requires Quiet(links, drafts, logs)
    ensures LinkAll(links, drafts, logs) == links
  {
    if logs != [] {
      QuietStays(links, drafts, Front(logs));
      assert LinkStep(links, drafts, logs[|logs| - 1]) == links;
    }
  }

  /** The rows that a creation could link to lose members only. */
  lemma StillNothing(links: Links, drafts: map<RowId, Draft>, c: nat, row: RowId, log: Log)
    requires LinkStep(links, drafts, log) == links && c !in links
    ensures LinkStep(links[c := row], drafts, log) == links[c := row]
  {
    if log.event.CampaignCreated? && log.event.campaign !in links && log.event.campaign != c {
      var hash := log.head.ipfsHash;
      NothingNewest(links, drafts, hash, log);
      var grown := links[c := row];
      if r :| Unlinked(grown, drafts, hash, r) {
        forall v | v in links.Values
          ensures v in grown.Values
        {
          var d :| d in links && links[d] == v;
          assert grown[d] == v;
        }
        assert Unlinked(links, drafts, hash, r);
      }
    }
  }

  /** A creation that links nothing found no row at all. */
  lemma NothingNewest(links: Links, drafts: map<RowId, Draft>, hash: string, log: Log)
    requires log.event.CampaignCreated? && log.event.campaign !in links && log.head.ipfsHash == hash
    requires LinkStep(links, drafts, log) == links
    ensures forall r :: !Unlinked(links, drafts, hash, r)
  {
    if r :| Unlinked(links, drafts, hash, r) {
      var rows := set x | x in drafts && Unlinked(links, drafts, hash, x);
      assert r in rows;
      var best := SomeNewest(links, drafts, hash, rows);
      assert Newest(links, drafts, hash, best);
    }
  }

  lemma {:induction false} SomeNewest(links: Links, drafts: map<RowId, Draft>, hash: string, rows: set<RowId>)
    returns (best: RowId)
    requires exists r :: r in rows
    requires forall r <- rows :: Unlinked(links, drafts, hash, r)
    ensures best in rows && forall r <- rows :: r in drafts && best in drafts && Newer(drafts, best, r)
    decreases |rows|
  {
    var first :| first in rows;
    best := first;
    assert forall r <- rows :: r == first || r in rows - {first};
    if r :| r in rows - {first} {
      var other := SomeNewest(links, drafts, hash, rows - {first});
      if !Newer(drafts, best, other) { best := other; }
    }
  }

  lemma {:induction false} LinksIdempotent(links: Links, drafts: map<RowId, Draft>, logs: seq<Log>)
    ensures Quiet(LinkAll(links, drafts, logs), drafts, logs)
  {
    if logs != [] {
      var q, last := Front(logs), Last(logs);
      LinksIdempotent(links, drafts, q);
      var x := LinkAll(links, drafts, q);
      var y := LinkStep(x, drafts, last);
      forall i | 0 <= i < |logs|
        ensures LinkStep(y, drafts, logs[i]) == y
      {
        if y != x && i < |q| {
          assert q[i] == logs[i];
          StillNothing(x, drafts, last.event.campaign, y[last.event.campaign], logs[i]);
        } else if i < |q| {
          assert q[i] == logs[i];
        } else {
          assert logs[i] == last;
          assert y == x || last.event.campaign in y;
        }
      }
    }
  }

  // ---- Well-ordered logs give well-ordered table updates ------------------------------

  lemma {:induction false} FundingFromLogs(links: Links, logs: seq<Log>, i: nat) returns (j: nat)
    requires i < |AllFundingOps(links, logs)|
    ensures j < |logs| && FundingOps(links, logs[j]) == [AllFundingOps(links, logs)[i]]
  {
    var earlier := AllFundingOps(links, Front(logs));
    if i < |earlier| {
      j := FundingFromLogs(links, Front(logs), i);
      assert Front(logs)[j] == logs[j];
    } else {
      j := |logs| - 1;
    }
  }

  lemma {:induction false} ClaimsComeLast(links: Links, logs: seq<Log>)
    requires Injective(links) && WellOrdered(logs)
    ensures Funding.ClaimsLast(AllFundingOps(links, logs))
  {
    if logs != [] {
      ClaimsComeLast(links, Front(logs));
      var q, op := AllFundingOps(links, Front(logs)), FundingOps(links, Last(logs));
      if op == [] {
        assert q + op == q;
      } else {
        var ops := q + op;
        assert Front(ops) == q;
        forall i | 0 <= i < |ops| - 1
          ensures !Funding.ClaimBefore(ops[i], Last(ops))
        {
          var j := FundingFromLogs(links, Front(logs), i);
          assert !Inverted(logs[j], logs[|logs| - 1]);
        }
      }
    }
  }

  lemma {:induction false} NoPendingUpdate(links: Links, logs: seq<Log>)
    requires WellOrdered(logs)
    ensures Lifecycle.NoneAnnouncesPending(AllLifeUpdates(links, logs))
  {
    if logs != [] {
      NoPendingUpdate(links, Front(logs));
      assert !AnnouncesPending(logs[|logs| - 1]);
    }
  }

  lemma NextRowDiffers(catalog: Catalog, row: RowId)
    requires PlansDistinct(catalog)
    ensures NextRow(catalog, row) != Some(row)
  {
    if row in catalog.campaignOf && catalog.campaignOf[row] in catalog.plan {
      var c := catalog.campaignOf[row];
      assert c in catalog.plan && Distinct(catalog.plan[c]);
      var rows := catalog.plan[c];
      if row in rows {
        var i := IndexOf(rows, row);
        assert rows[i] == row;
      }
    }
  }

  lemma {:induction false} NextIsAnother(catalog: Catalog, logs: seq<Log>)
    requires PlansDistinct(catalog)
    ensures Stages.NextDiffers(AllStageOps(catalog, logs))
  {
    if logs != [] {
      NextIsAnother(catalog, Front(logs));
      var log := Last(logs).event;
      if log.FundsReleased? && log.milestone in catalog.milestoneRow {
        NextRowDiffers(catalog, catalog.milestoneRow[log.milestone]);
      }
    }
  }

  /** The three proposal tables, told apart by the events that open and execute them. */
  datatype Kind = Refund | Flag | Release

  function ProposalOps(kind: Kind, links: Links, catalog: Catalog, log: Log): seq<Records.Op> {
    match kind
    case Refund => RefundOps(links, log)
    case Flag => FlagOps(links, log)
    case Release => ReleaseOps(catalog, log)
  }

  function AllProposalOps(kind: Kind, links: Links, catalog: Catalog, logs: seq<Log>): seq<Records.Op> {
    match kind
    case Refund => AllRefundOps(links, logs)
    case Flag => AllFlagOps(links, logs)
    case Release => AllReleaseOps(catalog, logs)
  }

  lemma {:induction false} ProposalFromLogs(kind: Kind, links: Links, catalog: Catalog, logs: seq<Log>, i: nat)
    returns (j: nat)
    requires i < |AllProposalOps(kind, links, catalog, logs)|
    ensures j < |logs| && ProposalOps(kind, links, catalog, logs[j]) == [AllProposalOps(kind, links, catalog, logs)[i]]
  {
    var earlier := AllProposalOps(kind, links, catalog, Front(logs));
    if i < |earlier| {
      j := ProposalFromLogs(kind, links, catalog, Front(logs), i);
      assert Front(logs)[j] == logs[j];
    } else {
      j := |logs| - 1;
    }
  }

  lemma ProposalsAppend(kind: Kind, links: Links, catalog: Catalog, logs: seq<Log>)
    ensures logs == [] ==> AllProposalOps(kind, links, catalog, logs) == []
    ensures logs != [] ==>
      AllProposalOps(kind, links, catalog, logs)
      == AllProposalOps(kind, links, catalog, Front(logs)) + ProposalOps(kind, links, catalog, Last(logs))
    ensures logs != [] ==> |ProposalOps(kind, links, catalog, Last(logs))| <= 1
  {
  }

  lemma {:induction false} OpenBeforeExecute(kind: Kind, links: Links, catalog: Catalog, logs: seq<Log>)
    requires WellOrdered(logs)
    ensures Records.OpensFirst(AllProposalOps(kind, links, catalog, logs))
  {
    hide ProposalOps;
    hide AllProposalOps;
    ProposalsAppend(kind, links, catalog, logs);
    if logs != [] {
      OpenBeforeExecute(kind, links, catalog, Front(logs));
      var q := AllProposalOps(kind, links, catalog, Front(logs));
      var op := ProposalOps(kind, links, catalog, Last(logs));
      if op == [] {
        assert q + op == q;
      } else {
        var ops := q + op;
        assert Front(ops) == q && Last(ops) == op[0];
        forall i | 0 <= i < |ops| - 1
          ensures !Records.ExecuteBefore(ops[i], Last(ops))
        {
          var j := ProposalFromLogs(kind, links, catalog, Front(logs), i);
          assert Front(logs)[j] == logs[j];
          assert !Inverted(logs[j], logs[|logs| - 1]);
          InversionSeen(kind, links, catalog, logs[j], Last(logs));
        }
      }
    }
  }

  lemma InversionSeen(kind: Kind, links: Links, catalog: Catalog, earlier: Log, later: Log)
    requires !Inverted(earlier, later)
    ensures var x, y := ProposalOps(kind, links, catalog, earlier), ProposalOps(kind, links, catalog, later);
      x != [] && y != [] ==> !Records.ExecuteBefore(x[0], y[0])
  {
  }

  // ---- The replay theorems ------------------------------------------------------------

  /** Delivering a well-ordered batch twice leaves everything but the two unguarded
      counters as delivering it once does. */
  lemma BatchIdempotent(db: Db, logs: seq<Log>)
    requires Valid(db) && WellOrdered(logs)
    ensures Core(Fold(Fold(db, logs), logs)) == Core(Fold(db, logs))
  {
    var once := Fold(db, logs);
    LinksGrow(db, logs);
    LinksGrow(once, logs);
    LinksIdempotent(db.links, db.catalog.drafts, logs);
    QuietStays(once.links, db.catalog.drafts, logs);
    Settled(db, logs);
    Settled(once, logs);
    var links := once.links;
    assert Fold(once, logs).links == links;
    PassIdempotent(db, links, logs);
    assert Pass(once, links, logs) == Pass(Core(once), links, logs);
  }

  lemma PassIdempotent(db: Db, links: Links, logs: seq<Log>)
    requires Valid(db) && WellOrdered(logs) && Injective(links)
    ensures Pass(Pass(db, links, logs), links, logs) == Pass(db, links, logs)
  {
    NoPendingUpdate(links, logs);
    Lifecycle.TableIdempotent(db.lives, AllLifeUpdates(links, logs));
    ClaimsComeLast(links, logs);
    Funding.Idempotent(db.book, AllFundingOps(links, logs));
    NextIsAnother(db.catalog, logs);
    Stages.Idempotent(db.board, AllStageOps(db.catalog, logs));
    Records.CastIdempotent(db.ballots, AllVotes(db.catalog, logs));
    OpenBeforeExecute(Refund, links, db.catalog, logs);
    Records.Idempotent(db.refunds, AllRefundOps(links, logs));
    OpenBeforeExecute(Flag, links, db.catalog, logs);
    Records.Idempotent(db.flags, AllFlagOps(links, logs));
    OpenBeforeExecute(Release, links, db.catalog, logs);
    Records.Idempotent(db.releases, AllReleaseOps(db.catalog, logs));
  }

  lemma CoreCongruent(a: Db, b: Db, logs: seq<Log>)
    requires Core(a) == Core(b)
    ensures Core(Fold(a, logs)) == Core(Fold(b, logs))
  {
    CoreFold(a, logs);
    CoreFold(b, logs);
  }

  lemma SliceWellOrdered(logs: seq<Log>, lo: nat, hi: nat)
    requires lo <= hi <= |logs| && WellOrdered(logs)
    ensures WellOrdered(logs[lo..hi])
  {
    var s := logs[lo..hi];
    assert forall i | 0 <= i < |s| :: s[i] == logs[lo + i];
  }

  /** A crash after any number of handlers is absorbed: delivering the whole batch again
      ends where one clean delivery would. */
  lemma CrashAbsorbed(db: Db, logs: seq<Log>, crash: nat)
    requires Valid(db) && WellOrdered(logs) && crash <= |logs|
    ensures Core(Fold(Fold(db, logs[..crash]), logs)) == Core(Fold(db, logs))
  {
    var p, rest := logs[..crash], logs[crash..];
    assert logs == p + rest;
    assert p == logs[0..crash];
    SliceWellOrdered(logs, 0, crash);
    var once := Fold(db, p);
    FoldConcat(once, p, rest);
    FoldConcat(db, p, rest);
    BatchIdempotent(db, p);
    CoreCongruent(Fold(once, p), once, rest);
  }
}
