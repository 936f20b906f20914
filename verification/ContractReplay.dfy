/** Is a crash in the middle of a chunk safe on the contract's own logs? Exactly when nobody
    contributes again after a refund; and a guard in the contract could see to that. */
module ContractReplay {
  import opened Common
  import opened Events
  import opened CampaignFactory
  import CampaignMirror
  import Database
  import FactoryLogs
  import Funding
  import Replay
  import ReplayLimits

  predicate DistinctContributions(logs: seq<Log>) {
    forall i, j | 0 <= i < j < |logs| && logs[i].event.ContributionMade? && logs[j].event.ContributionMade? ::
      logs[i].txHash != logs[j].txHash
  }

  /** Tables in which one campaign is linked and nothing else has happened. */
  function Linked(c: nat): Database.Db {
    Database.Db(Database.Catalog(map[], map[], map[], map[]), map[c := 1], map[], Funding.Book(map[], map[]),
                map[], map[], map[], map[], map[], map[], map[])
  }

  /** A log that ends with a return is not safe to deliver again. */
  lemma ReturnUnsafe(logs: seq<Log>, claim: nat)
    requires claim < |logs| - 1 && FactoryLogs.ClaimBefore(logs[claim].event, Last(logs).event)
    requires DistinctContributions(logs)
    ensures !ReplayLimits.ReplaySafe(logs)
  {
    hide Database.Fold;
    var db := Linked(Last(logs).event.campaign);
    assert Database.Valid(db);
    Database.LinksGrow(db, Front(logs));
    assert Last(logs) == logs[|logs| - 1];
    FactoryLogs.ReturnIsLost(db, logs, claim);
    assert logs[..|logs|] == logs;
    var once := Database.Fold(db, logs);
    assert Database.Core(Database.Fold(once, logs)).book != Database.Core(once).book;
    assert !ReplayLimits.SafeFrom(db, logs, |logs|);
  }

  lemma WellOrderedSafe(logs: seq<Log>)
    requires Replay.WellOrdered(logs)
    ensures ReplayLimits.ReplaySafe(logs)
  {
    hide Replay.WellOrdered;
    forall db: Database.Db, crash: nat | Database.Valid(db) && crash <= |logs|
      ensures ReplayLimits.SafeFrom(db, logs, crash)
    {
      Replay.CrashAbsorbed(db, logs, crash);
    }
  }

  lemma PartsSafe(logs: seq<Log>)
    requires Replay.WellOrdered(logs)
    ensures forall n | 0 <= n <= |logs| :: ReplayLimits.ReplaySafe(logs[..n])
  {
    hide ReplayLimits.ReplaySafe;
    hide Replay.WellOrdered;
    forall n | 0 <= n <= |logs|
      ensures ReplayLimits.ReplaySafe(logs[..n])
    {
      Replay.SliceWellOrdered(logs, 0, n);
      assert logs[0..n] == logs[..n];
      WellOrderedSafe(logs[..n]);
    }
  }

  lemma SomePartUnsafe(logs: seq<Log>, events: seq<Event>)
    requires FactoryLogs.Carries(logs, events) && DistinctContributions(logs) && !FactoryLogs.NoReturn(events)
    ensures exists n | 0 <= n <= |logs| :: !ReplayLimits.ReplaySafe(logs[..n])
  {
    hide ReplayLimits.ReplaySafe;
    hide FactoryLogs.ClaimBefore;
    var i, j :| 0 <= i < j < |events| && FactoryLogs.ClaimBefore(events[i], events[j]);
    var part := logs[..j + 1];
    assert Last(part) == logs[j] && part[i] == logs[i];
    ReturnUnsafe(part, i);
  }

  /** The exact condition for the logs of the contract: from all tables, after every crash,
      in every part of the log read so far, delivering again is safe if and only if nobody
      contributes to a campaign again after claiming a refund from it. */
  lemma ReplaySafeExactly(txs: seq<Tx>, logs: seq<Log>)
    requires FactoryLogs.Carries(logs, Emitted(Empty(), txs)) && DistinctContributions(logs)
    ensures (forall n | 0 <= n <= |logs| :: ReplayLimits.ReplaySafe(logs[..n]))
       <==> FactoryLogs.NoReturn(Emitted(Empty(), txs))
  {
    hide ReplayLimits.ReplaySafe;
    hide Replay.WellOrdered;
    hide FactoryLogs.NoReturn;
    FactoryLogs.RunsAreWellOrdered(txs, logs);
    if FactoryLogs.NoReturn(Emitted(Empty(), txs)) {
      PartsSafe(logs);
    } else {
      SomePartUnsafe(logs, Emitted(Empty(), txs));
    }
  }

  // ---- A guard in the contract --------------------------------------------------------

  /** No contribution is accepted while refunds of its campaign are open. */
  ghost predicate Guarded(f: Factory, txs: seq<Tx>) {
    txs == []
    || (Guarded(f, Front(txs))
        && var g, tx := After(f, Front(txs)), Last(txs);
           (tx.call.Contribute? && Exec(g, tx).ok ==>
              tx.call.campaign in g.campaigns && !g.campaigns[tx.call.campaign].fundsReclaimed))
  }

  /** Whoever claimed a refund did so from a campaign that is still open to refunds. */
  ghost predicate ClaimsOpen(f: Factory, events: seq<Event>) {
    forall i | 0 <= i < |events| && events[i].RefundClaimed? ::
      events[i].campaign in f.campaigns && f.campaigns[events[i].campaign].fundsReclaimed
  }

  lemma OnlyClaimsClaim(f: Factory, tx: Tx)
    requires !tx.call.ClaimRefund?
    ensures forall i | 0 <= i < |Exec(f, tx).events| :: !Exec(f, tx).events[i].RefundClaimed?
  {
    hide CampaignFactory.AllMilestones;
    hide CampaignFactory.PreviousDone;
    hide CampaignFactory.Passed;
    hide CampaignFactory.SumPlans;
  }

  lemma OnlyContributionsPay(f: Factory, tx: Tx)
    requires !tx.call.Contribute?
    ensures forall i | 0 <= i < |Exec(f, tx).events| :: !Exec(f, tx).events[i].ContributionMade?
  {
    hide CampaignFactory.AllMilestones;
    hide CampaignFactory.PreviousDone;
    hide CampaignFactory.Passed;
    hide CampaignFactory.SumPlans;
    hide CampaignFactory.RefundOf;
  }

  lemma ContributionOf(f: Factory, tx: Tx)
    requires tx.call.Contribute?
    ensures forall i | 0 <= i < |Exec(f, tx).events| && Exec(f, tx).events[i].ContributionMade? ::
      Exec(f, tx).ok && Exec(f, tx).events[i].campaign == tx.call.campaign
  {
  }

  lemma ClaimOf(f: Factory, tx: Tx)
    requires tx.call.ClaimRefund?
    ensures forall i | 0 <= i < |Exec(f, tx).events| && Exec(f, tx).events[i].RefundClaimed? ::
      var c := Exec(f, tx).events[i].campaign;
      c in f.campaigns && f.campaigns[c].fundsReclaimed
  {
    hide CampaignFactory.RefundOf;
  }

  lemma ClaimsStayOpen(f: Factory, events: seq<Event>, tx: Tx)
    requires FactoryLogs.Counted(f) && ClaimsOpen(f, events)
    ensures ClaimsOpen(Exec(f, tx).factory, events + Exec(f, tx).events)
  {
    hide CampaignFactory.Exec;
    hide FactoryLogs.Counted;
    var g, block := Exec(f, tx).factory, Exec(f, tx).events;
    if tx.call.ClaimRefund? { ClaimOf(f, tx); } else { OnlyClaimsClaim(f, tx); }
    forall c | c in f.campaigns
      ensures c in g.campaigns && (f.campaigns[c].fundsReclaimed ==> g.campaigns[c].fundsReclaimed)
    {
      CampaignMirror.FlagGrows(f, tx, c);
    }
    forall i | 0 <= i < |events + block| && (events + block)[i].RefundClaimed?
      ensures (events + block)[i].campaign in g.campaigns && g.campaigns[(events + block)[i].campaign].fundsReclaimed
    {
      if i < |events| {
        assert (events + block)[i] == events[i];
      } else {
        assert (events + block)[i] == block[i - |events|];
      }
    }
  }

  /** A contract that refuses contributions once refunds of the campaign are open never
      emits a log on which replay is unsafe. */
  lemma {:induction false} GuardedRunsNeverReturn(txs: seq<Tx>)
    requires Guarded(Empty(), txs)
    ensures FactoryLogs.NoReturn(Emitted(Empty(), txs))
    ensures FactoryLogs.Counted(After(Empty(), txs)) && ClaimsOpen(After(Empty(), txs), Emitted(Empty(), txs))
  {
    hide CampaignFactory.Exec;
    hide FactoryLogs.Counted;
    if txs == [] {
      FactoryLogs.RunTold([]);
    } else {
      GuardedRunsNeverReturn(Front(txs));
      var f, told, tx := After(Empty(), Front(txs)), Emitted(Empty(), Front(txs)), Last(txs);
      var block := Exec(f, tx).events;
      CampaignMirror.CountedStays(f, tx);
      ClaimsStayOpen(f, told, tx);
      if tx.call.Contribute? { ContributionOf(f, tx); OnlyClaimsClaim(f, tx); } else { OnlyContributionsPay(f, tx); }
      forall i, j | 0 <= i < j < |told + block|
        ensures !FactoryLogs.ClaimBefore((told + block)[i], (told + block)[j])
      {
        if j < |told| {
          assert (told + block)[i] == told[i] && (told + block)[j] == told[j];
        } else {
          assert (told + block)[j] == block[j - |told|];
          assert (told + block)[i] == if i < |told| then told[i] else block[i - |told|];
        }
      }
    }
  }
}
