/** Contribution totals over whole logs. */
module Ledger {
  import opened Common
  import opened Events
  import opened Database
  import opened Replay
  import Funding

  /** After any log, replayed or not, a campaign's raised total has grown by exactly what
      the contribution rows of that campaign have grown by. */
  lemma {:induction false} RaisedFollowsRows(db: Db, logs: seq<Log>, campaign: RowId)
    ensures var b, a := db.book, Fold(db, logs).book;
      Funding.Raised(a, campaign) - Funding.Raised(b, campaign)
      == Funding.Total(a.rows, campaign) - Funding.Total(b.rows, campaign)
  {
    if logs != [] {
      RaisedFollowsRows(db, Front(logs), campaign);
      var m := Fold(db, Front(logs));
      Funding.Conservation(m.book, FundingOps(m.links, Last(logs)), campaign);
    }
  }

  predicate Recorded(at: Db, log: Log, hash: Funding.TxHash) {
    log.event.ContributionMade? && log.txHash == hash && log.event.campaign in at.links
  }

  /** A contribution with this hash was delivered while its campaign was linked. */
  ghost predicate EverRecorded(db: Db, logs: seq<Log>, hash: Funding.TxHash) {
    logs != [] && (EverRecorded(db, Front(logs), hash) || Recorded(Fold(db, Front(logs)), Last(logs), hash))
  }

  /** A transaction hash has a row exactly when it had one before or was recorded since,
      and a row keeps its contributor, campaign and amount for ever. */
  lemma {:induction false} OneRowPerHash(db: Db, logs: seq<Log>, hash: Funding.TxHash)
    ensures hash in Fold(db, logs).book.rows <==> hash in db.book.rows || EverRecorded(db, logs, hash)
    ensures hash in db.book.rows ==> Funding.KeepsData(db.book, Fold(db, logs).book, hash)
  {
    if logs != [] {
      hide Database.Apply;
      OneRowPerHash(db, Front(logs), hash);
      HashStep(Fold(db, Front(logs)), Last(logs), hash);
    }
  }

  lemma HashStep(m: Db, log: Log, hash: Funding.TxHash)
    ensures hash in Apply(m, log).book.rows <==> hash in m.book.rows || Recorded(m, log, hash)
    ensures hash in m.book.rows ==> Funding.KeepsData(m.book, Apply(m, log).book, hash)
  {
    var ops := FundingOps(m.links, log);
    Funding.RowKeys(m.book, ops);
    if Recorded(m, log, hash) {
      assert ops[0].Contribute? && ops[0].hash == hash;
    }
  }

  // ---- Order independence -------------------------------------------------------------

  predicate OnlyContributions(logs: seq<Log>) {
    forall i | 0 <= i < |logs| :: logs[i].event.ContributionMade?
  }

  predicate DistinctHashes(logs: seq<Log>) {
    forall i, j | 0 <= i < j < |logs| :: logs[i].txHash != logs[j].txHash
  }

  /** Contributions write only the book. */
  lemma {:induction false} ContributionsOnlyBook(db: Db, logs: seq<Log>)
    requires OnlyContributions(logs)
    ensures Fold(db, logs) == db.(book := Funding.Run(db.book, AllFundingOps(db.links, logs)))
  {
    if logs != [] {
      ContributionsOnlyBook(db, Front(logs));
      var m, last := Fold(db, Front(logs)), Last(logs);
      assert logs[|logs| - 1] == last && last.event.ContributionMade?;
      Funding.RunConcat(db.book, AllFundingOps(db.links, Front(logs)), FundingOps(db.links, last));
      BookOnly(m, last);
    }
  }

  lemma BookOnly(db: Db, log: Log)
    requires log.event.ContributionMade?
    ensures Apply(db, log) == db.(book := Funding.Run(db.book, FundingOps(db.links, log)))
  {
    assert (map r | r in db.released :: db.released[r] + ReleasedBy(db.catalog, log, r)) == db.released;
    assert (map r | r in db.submissions :: db.submissions[r] + SubmissionsBy(db.catalog, log, r)) == db.submissions;
  }

  lemma {:induction false} OpsConcat(links: Links, p: seq<Log>, q: seq<Log>)
    ensures AllFundingOps(links, p + q) == AllFundingOps(links, p) + AllFundingOps(links, q)
  {
    hide Database.FundingOps;
    if q == [] {
      assert p + q == p;
    } else {
      assert Front(p + q) == p + Front(q);
      OpsConcat(links, p, Front(q));
    }
  }

  lemma OpsOfOne(links: Links, log: Log)
    ensures AllFundingOps(links, [log]) == FundingOps(links, log)
  {
    assert Front([log]) == [];
    assert AllFundingOps(links, []) == [];
  }

  lemma {:induction false} OpsReordered(links: Links, p: seq<Log>, q: seq<Log>)
    requires multiset(p) == multiset(q)
    ensures multiset(AllFundingOps(links, p)) == multiset(AllFundingOps(links, q))
    decreases |p|
  {
    hide AllFundingOps;
    if p == [] {
      assert |multiset(q)| == 0;
      assert q == [];
    } else {
      var n := |p| - 1;
      assert p[n] in multiset(q);
      var i :| 0 <= i < |q| && q[i] == p[n];
      PullOps(links, p, n);
      PullOps(links, q, i);
      var restP, restQ := p[..n] + p[n + 1..], q[..i] + q[i + 1..];
      assert multiset(restP) == multiset(p) - multiset{p[n]};
      assert multiset(restQ) == multiset(q) - multiset{p[n]};
      OpsReordered(links, restP, restQ);
    }
  }

  lemma PullOps(links: Links, q: seq<Log>, i: nat)
    requires i < |q|
    ensures var rest := q[..i] + q[i + 1..];
      && multiset(q) == multiset(rest) + multiset{q[i]}
      && multiset(AllFundingOps(links, q)) == multiset(AllFundingOps(links, rest)) + multiset(FundingOps(links, q[i]))
  {
    hide AllFundingOps;
    hide Database.FundingOps;
    var before, after := q[..i], q[i + 1..];
    assert q == before + [q[i]] + after;
    OpsConcat(links, before + [q[i]], after);
    OpsConcat(links, before, [q[i]]);
    OpsConcat(links, before, after);
    OpsOfOne(links, q[i]);
  }

  lemma {:induction false} OpsDistinct(links: Links, logs: seq<Log>)
    requires OnlyContributions(logs) && DistinctHashes(logs)
    ensures var ops := AllFundingOps(links, logs);
      Funding.OnlyContributions(ops) && Funding.DistinctHashes(ops)
  {
    if logs != [] {
      OpsDistinct(links, Front(logs));
      var q, op := AllFundingOps(links, Front(logs)), FundingOps(links, Last(logs));
      assert logs[|logs| - 1].event.ContributionMade?;
      if op == [] {
        assert q + op == q;
      } else {
        forall i | 0 <= i < |q|
          ensures q[i].hash != op[0].hash
        {
          var j := FundingFromLogs(links, Front(logs), i);
          assert Front(logs)[j] == logs[j] && logs[j].txHash != logs[|logs| - 1].txHash;
          assert FundingOps(links, logs[j])[0] == q[i];
        }
      }
    }
  }

  /** Contributions with distinct transaction hashes give the same tables in every order. */
  lemma AnyOrder(db: Db, p: seq<Log>, q: seq<Log>)
    requires OnlyContributions(p) && DistinctHashes(p)
    requires OnlyContributions(q) && DistinctHashes(q)
    requires multiset(p) == multiset(q)
    ensures Fold(db, p) == Fold(db, q)
  {
    ContributionsOnlyBook(db, p);
    ContributionsOnlyBook(db, q);
    OpsReordered(db.links, p, q);
    OpsDistinct(db.links, p);
    OpsDistinct(db.links, q);
    Funding.AnyOrder(db.book, AllFundingOps(db.links, p), AllFundingOps(db.links, q));
  }
}
