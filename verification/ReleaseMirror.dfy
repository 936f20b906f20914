/** The released column against the contract: what a campaign's creator was paid, and how
    crashes inflate it. */
module ReleaseMirror {
  import opened Common
  import opened Events
  import opened Database
  import F = CampaignFactory
  import FactoryLogs
  import FactoryStages
  import Polling
  import Sequencing

  /** What an event says was released to campaign c. */
  function ReleasedTo(f: F.Factory, e: Event, c: nat): nat {
    if e.FundsReleased? && e.milestone in f.milestones && f.milestones[e.milestone].campaign == c then e.amount else 0
  }

  function ReleasedAll(f: F.Factory, events: seq<Event>, c: nat): nat {
    if events == [] then 0 else ReleasedAll(f, Front(events), c) + ReleasedTo(f, Last(events), c)
  }

  lemma {:induction false} NothingReleased(f: F.Factory, events: seq<Event>, c: nat)
    requires forall i | 0 <= i < |events| :: ReleasedTo(f, events[i], c) == 0
    ensures ReleasedAll(f, events, c) == 0
  {
    if events != [] {
      assert ReleasedTo(f, events[|events| - 1], c) == 0;
      NothingReleased(f, Front(events), c);
    }
  }

  // ---- One transaction ----------------------------------------------------------------

  /** A call other than a release leaves what was withdrawn, and tells of no release. */
  ghost predicate PaysNothing(f: F.Factory, o: F.Outcome, c: nat)
    requires c in f.campaigns
  {
    && c in o.factory.campaigns && o.factory.campaigns[c].withdrawn == f.campaigns[c].withdrawn
    && forall i | 0 <= i < |o.events| :: !o.events[i].FundsReleased?
  }

  lemma FlagsPayNothing(f: F.Factory, tx: F.Tx, c: nat)
    requires c in f.campaigns
    requires tx.call.ProposeFlag? || tx.call.ConfirmFlag? || tx.call.ProposeRefund? || tx.call.ApproveRefund?
    ensures PaysNothing(f, F.Exec(f, tx), c)
  {
  }

  lemma StatusesPayNothing(f: F.Factory, tx: F.Tx, c: nat)
    requires c in f.campaigns
    requires tx.call.Unflag? || tx.call.Cancel? || tx.call.CheckDeadline? || tx.call.Expire?
    ensures PaysNothing(f, F.Exec(f, tx), c)
  {
  }

  lemma PaymentsPayNothing(f: F.Factory, tx: F.Tx, c: nat)
    requires c in f.campaigns && (tx.call.Contribute? || tx.call.ClaimRefund? || tx.call.ProposeRelease?)
    ensures PaysNothing(f, F.Exec(f, tx), c)
  {
    hide F.RefundOf;
    hide PaysNothing;
    if tx.call.Contribute? {
      ContributionPaysNothing(f, tx.call.campaign, tx.call.amount, tx, c);
    } else if tx.call.ClaimRefund? {
      ClaimPaysNothing(f, tx.call.campaign, tx, c);
    } else {
      ProposalPaysNothing(f, tx.call.milestone, tx, c);
    }
    hide F.DoContribute;
    hide F.DoClaimRefund;
    hide F.DoProposeRelease;
  }

  lemma ContributionPaysNothing(f: F.Factory, d: nat, amount: nat, tx: F.Tx, c: nat)
    requires c in f.campaigns
    ensures PaysNothing(f, F.DoContribute(f, d, amount, tx), c)
  {
  }

  lemma ClaimPaysNothing(f: F.Factory, d: nat, tx: F.Tx, c: nat)
    requires c in f.campaigns
    ensures PaysNothing(f, F.DoClaimRefund(f, d, tx), c)
  {
    hide F.RefundOf;
  }

  lemma ProposalPaysNothing(f: F.Factory, m: nat, tx: F.Tx, c: nat)
    requires c in f.campaigns
    ensures PaysNothing(f, F.DoProposeRelease(f, m, tx), c)
  {
  }

  lemma VotesPayNothing(f: F.Factory, tx: F.Tx, c: nat)
    requires c in f.campaigns && (tx.call.Submit? || tx.call.VoteOn? || tx.call.Finalize?)
    ensures PaysNothing(f, F.Exec(f, tx), c)
  {
    hide F.PreviousDone;
    hide PaysNothing;
    if tx.call.Finalize? {
      FinalizePaysNothing(f, tx.call.milestone, tx, c);
    } else {
      BallotsPayNothing(f, tx, c);
    }
    hide F.Exec;
  }

  lemma FinalizePaysNothing(f: F.Factory, m: nat, tx: F.Tx, c: nat)
    requires c in f.campaigns
    ensures PaysNothing(f, F.DoFinalize(f, m, tx), c)
  {
    hide F.AllMilestones;
    hide F.Passed;
  }

  lemma BallotsPayNothing(f: F.Factory, tx: F.Tx, c: nat)
    requires c in f.campaigns && (tx.call.Submit? || tx.call.VoteOn?)
    ensures PaysNothing(f, F.Exec(f, tx), c)
  {
    hide F.PreviousDone;
  }

  lemma CreationPaysNothing(f: F.Factory, tx: F.Tx, c: nat)
    requires FactoryStages.Wired(f) && c in f.campaigns && tx.call.CreateCampaign?
    ensures PaysNothing(f, F.Exec(f, tx), c)
  {
    assert c <= f.campaignCounter;
    FactoryLogs.CreateShape(f, tx.call.creator, tx.call.goal, tx.call.deadline, tx.call.plans, tx);
    hide F.DoCreate;
  }

  /** A release pays its milestone's amount to its campaign, and tells so in its last event. */
  lemma ReleaseShape(f: F.Factory, m: nat, tx: F.Tx)
    ensures var o := F.DoConfirmRelease(f, m, tx);
      if !o.ok then o == F.Revert(f)
      else
        && m in f.milestones && f.milestones[m].campaign in f.campaigns
        && var d, n := f.milestones[m].campaign, |o.events|;
           && d in o.factory.campaigns && o.factory.campaigns == f.campaigns[d := o.factory.campaigns[d]]
           && o.factory.campaigns[d].withdrawn == f.campaigns[d].withdrawn + f.milestones[m].amount
           && n > 0 && o.events[n - 1] == FundsReleased(m, f.milestones[m].amount)
           && forall i | 0 <= i < n - 1 :: !o.events[i].FundsReleased?
  {
    hide F.AllMilestones;
  }

  lemma OthersPayNothing(f: F.Factory, tx: F.Tx, c: nat)
    requires FactoryStages.Wired(f) && c in f.campaigns && !tx.call.ConfirmRelease?
    ensures PaysNothing(f, F.Exec(f, tx), c)
  {
    hide PaysNothing;
    hide F.Exec;
    if tx.call.CreateCampaign? {
      CreationPaysNothing(f, tx, c);
    } else if tx.call.Submit? || tx.call.VoteOn? || tx.call.Finalize? {
      VotesPayNothing(f, tx, c);
    } else if tx.call.Contribute? || tx.call.ClaimRefund? || tx.call.ProposeRelease? {
      PaymentsPayNothing(f, tx, c);
    } else if tx.call.Unflag? || tx.call.Cancel? || tx.call.CheckDeadline? || tx.call.Expire? {
      StatusesPayNothing(f, tx, c);
    } else {
      FlagsPayNothing(f, tx, c);
    }
  }

  lemma ReleasePays(f: F.Factory, m: nat, tx: F.Tx, c: nat)
    requires c in f.campaigns
    ensures var o := F.DoConfirmRelease(f, m, tx);
      && c in o.factory.campaigns
      && o.factory.campaigns[c].withdrawn == f.campaigns[c].withdrawn + ReleasedAll(f, o.events, c)
  {
    ReleaseShape(f, m, tx);
    hide F.DoConfirmRelease;
    var o := F.DoConfirmRelease(f, m, tx);
    if o.ok { NothingReleased(f, Front(o.events), c); }
  }

  lemma WithdrawnOfBlock(f: F.Factory, tx: F.Tx, c: nat)
    requires FactoryStages.Wired(f) && c in f.campaigns
    ensures var o := F.Exec(f, tx);
      && c in o.factory.campaigns
      && o.factory.campaigns[c].withdrawn == f.campaigns[c].withdrawn + ReleasedAll(f, o.events, c)
  {
    if tx.call.ConfirmRelease? {
      ReleasePays(f, tx.call.milestone, tx, c);
    } else {
      OthersPayNothing(f, tx, c);
      hide F.Exec;
      NothingReleased(f, F.Exec(f, tx).events, c);
    }
    hide F.DoConfirmRelease;
  }

  // ---- The same in the tables ---------------------------------------------------------

  /** Under the binding the indexer adds an event's amount to the row of the campaign that
      the contract paid. */
  lemma SameRelease(f: F.Factory, catalog: Catalog, c: nat, row: RowId, log: Log)
    requires FactoryStages.Wired(f) && Sequencing.PlansExact(catalog) && Sequencing.Bound(catalog, f, c, row)
    ensures ReleasedBy(catalog, log, row) == ReleasedTo(f, log.event, c)
  {
    if log.event.FundsReleased? {
      var m := log.event.milestone;
      var ids, rows := f.campaigns[c].milestones, catalog.plan[row];
      assert FactoryStages.ListWired(f, c);
      assert m in ids <==> m in f.milestones && f.milestones[m].campaign == c;
      if m in catalog.milestoneRow {
        RowOfCampaign(catalog, row, catalog.milestoneRow[m]);
        Sequencing.BoundAt(catalog, f, c, row, m);
        if m in ids {
          var i :| 0 <= i < |ids| && ids[i] == m;
          assert catalog.milestoneRow[m] == rows[i];
        }
      }
      hide Sequencing.PlansExact;
      hide FactoryStages.Wired;
    }
  }

  lemma RowOfCampaign(catalog: Catalog, row: RowId, r: RowId)
    requires Sequencing.PlansExact(catalog) && row in catalog.plan
    ensures r in catalog.plan[row] <==> r in catalog.campaignOf && catalog.campaignOf[r] == row
  {
    if r in catalog.plan[row] {
      var i :| 0 <= i < |catalog.plan[row]| && catalog.plan[row][i] == r;
      assert catalog.plan[row][i] in catalog.campaignOf;
    }
  }

  lemma {:induction false} SameReleases(
    f: F.Factory, catalog: Catalog, c: nat, row: RowId, logs: seq<Log>, events: seq<Event>)
    requires FactoryStages.Wired(f) && Sequencing.PlansExact(catalog) && Sequencing.Bound(catalog, f, c, row)
    requires FactoryLogs.Carries(logs, events)
    ensures Polling.ReleasedTotal(catalog, logs, row) == ReleasedAll(f, events, c)
  {
    hide Sequencing.Bound;
    hide Sequencing.PlansExact;
    hide FactoryStages.Wired;
    hide ReleasedBy;
    if logs != [] {
      assert Last(logs).event == Last(events);
      SameReleases(f, catalog, c, row, Front(logs), Front(events));
      SameRelease(f, catalog, c, row, Last(logs));
    }
  }

  lemma {:induction false} ChainKeeps(f: F.Factory, catalog: Catalog, c: nat, row: RowId, txs: seq<F.Tx>)
    requires FactoryStages.Sequential(f) && Sequencing.Bound(catalog, f, c, row)
    ensures var g := F.After(f, txs);
      FactoryStages.Sequential(g) && c in g.campaigns && Sequencing.Bound(catalog, g, c, row)
  {
    hide F.Exec;
    hide FactoryStages.Sequential;
    if txs != [] {
      ChainKeeps(f, catalog, c, row, Front(txs));
      var g := F.After(f, Front(txs));
      Sequencing.StatesAround(g, Last(txs), c);
      Sequencing.BoundStays(catalog, g, F.Exec(g, Last(txs)).factory, c, row);
      FactoryStages.AlwaysSequential(f, txs);
    }
    hide Sequencing.Bound;
  }

  lemma WiredOf(f: F.Factory)
    requires FactoryStages.Sequential(f)
    ensures FactoryStages.Wired(f)
  {
  }

  /** Delivered once, the released column grows by exactly what the contract paid out. */
  lemma {:induction false} ReleasedFollows(
    f: F.Factory, catalog: Catalog, c: nat, row: RowId, txs: seq<F.Tx>, logs: seq<Log>)
    requires FactoryStages.Sequential(f) && Sequencing.PlansExact(catalog) && Sequencing.Bound(catalog, f, c, row)
    requires FactoryLogs.Carries(logs, F.Emitted(f, txs))
    ensures c in f.campaigns && c in F.After(f, txs).campaigns
    ensures f.campaigns[c].withdrawn + Polling.ReleasedTotal(catalog, logs, row) == F.After(f, txs).campaigns[c].withdrawn
  {
    hide F.Exec;
    hide FactoryStages.Sequential;
    hide Sequencing.PlansExact;
    Sequencing.BoundHas(catalog, f, c, row);
    hide Sequencing.Bound;
    if txs != [] {
      var front, tx := Front(txs), Last(txs);
      var g, n := F.After(f, front), |F.Emitted(f, front)|;
      var earlier, block := logs[..n], logs[n..];
      assert logs == earlier + block;
      ReleasedFollows(f, catalog, c, row, front, earlier);
      ChainKeeps(f, catalog, c, row, front);
      WiredOf(g);
      WithdrawnOfBlock(g, tx, c);
      SameReleases(g, catalog, c, row, block, F.Exec(g, tx).events);
      Polling.TotalsConcat(catalog, earlier, block, row);
    }
  }

  /** After any run with crashes the released column is what the contract paid out plus
      exactly what the crashed deliveries added again. */
  lemma ReleasedDrift(
    f: F.Factory, c: nat, row: RowId, txs: seq<F.Tx>,
    blocks: Polling.Blocks, states: seq<Polling.Indexer>, steps: seq<Polling.Step>)
    requires Polling.Run(blocks, states, steps) && states[0].next <= states[|steps|].next <= |blocks|
    requires var catalog := states[0].db.catalog;
      FactoryStages.Sequential(f) && Sequencing.PlansExact(catalog) && Sequencing.Bound(catalog, f, c, row)
    requires FactoryLogs.Carries(Polling.Range(blocks, states[0].next, states[|steps|].next), F.Emitted(f, txs))
    requires row in states[0].db.released
    ensures var s, t, g := states[0], states[|steps|], F.After(f, txs);
      && row in t.db.released && c in f.campaigns && c in g.campaigns
      && t.db.released[row] + f.campaigns[c].withdrawn
         == s.db.released[row] + g.campaigns[c].withdrawn + Polling.CrashedReleases(blocks, states, steps, row)
  {
    hide F.After;
    hide F.Emitted;
    hide FactoryStages.Sequential;
    hide Sequencing.PlansExact;
    hide Sequencing.Bound;
    Polling.ExactDrift(blocks, states, steps, row);
    ReleasedFollows(f, states[0].db.catalog, c, row, txs, Polling.Range(blocks, states[0].next, states[|steps|].next));
    hide Polling.Run;
  }
}
