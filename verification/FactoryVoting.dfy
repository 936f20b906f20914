/** The contract's log explains itself: which milestones may be submitted, whose ballots
    count, how each vote ends and which funds may be released can all be recomputed from
    the events before. */
module FactoryVoting {
  import opened Common
  import opened Events
  import opened CampaignFactory
  import CampaignMirror
  import FactoryLogs
  import FactoryStages

  /** What the log says about one milestone: the ballots of the current round, the quorum
      base of that round, how it ended, and whether the funds were released. */
  datatype Tally = Tally(
    votesFor: nat, votesAgainst: nat, voters: set<Wallet>, rounds: nat, raisedAtStart: nat,
    decision: Option<bool>, released: bool)

  const NO_TALLY := Tally(0, 0, {}, 0, 0, None, false)

  predicate OfStage(e: Event, m: nat) {
    (e.MilestoneSubmitted? || e.VoteCast? || e.VotingFinalized? || e.FundsReleased?) && e.milestone == m
  }

  /** One more event about the milestone; `paid` is what its campaign had raised before. */
  function Next(t: Tally, e: Event, paid: nat): Tally {
    match e
    case MilestoneSubmitted(_, _, _) => Tally(0, 0, {}, t.rounds + 1, paid, None, t.released)
    case VoteCast(_, voter, approve, weight) =>
      t.(votesFor := t.votesFor + (if approve then weight else 0),
         votesAgainst := t.votesAgainst + (if approve then 0 else weight),
         voters := t.voters + {voter})
    case VotingFinalized(_, approved) => t.(decision := Some(approved))
    case FundsReleased(_, _) => t.(released := true)
    case _ => t
  }

  function TallyOf(events: seq<Event>, m: nat, c: nat): Tally {
    if events == [] then NO_TALLY
    else
      var t, e := TallyOf(Front(events), m, c), Last(events);
      if OfStage(e, m) then Next(t, e, CampaignMirror.PaidAll(Front(events), c)) else t
  }

  /** The milestone's state as the log tells it. */
  function StateOf(t: Tally): State {
    if t.released then Done
    else if t.rounds == 0 then Waiting
    else
      match t.decision
      case None => Voting
      case Some(approved) => if approved then Approved else Rejected
  }

  /** At least the quorum of what had been raised, and a majority for. */
  predicate Wins(t: Tally) {
    t.votesFor + t.votesAgainst >= t.raisedAtStart * 30 / 100 && t.votesFor > t.votesAgainst
  }

  function RoundOf(ms: Milestone, who: Wallet): nat {
    if who in ms.rounds then ms.rounds[who] else 0
  }

  ghost predicate Matches(ms: Milestone, t: Tally) {
    && ms.votesFor == t.votesFor && ms.votesAgainst == t.votesAgainst
    && ms.submissions == t.rounds && ms.raisedAtStart == t.raisedAtStart && ms.state == StateOf(t)
    && (forall w :: RoundOf(ms, w) <= ms.submissions)
    && (forall w :: w in t.voters <==> RoundOf(ms, w) == ms.submissions > 0)
  }

  predicate Fresh(ms: Milestone) {
    && ms.votesFor == 0 && ms.votesAgainst == 0 && ms.submissions == 0 && ms.raisedAtStart == 0
    && ms.rounds == map[] && ms.state == Waiting
  }

  /** The storage agrees with the log that led to it. */
  ghost predicate Agrees(f: Factory, events: seq<Event>) {
    && FactoryLogs.Counted(f) && FactoryStages.Wired(f)
    && (forall c | c in f.campaigns :: f.campaigns[c].raised == CampaignMirror.PaidAll(events, c))
    && (forall m | m in f.milestones :: Matches(f.milestones[m], TallyOf(events, m, f.milestones[m].campaign)))
    && (forall i, m | 0 <= i < |events| && OfStage(events[i], m) :: m in f.milestones)
    && (forall i | 0 <= i < |events| && events[i].ContributionMade? :: events[i].campaign in f.campaigns)
  }

  // ---- What a block does to a tally ---------------------------------------------------

  lemma {:induction false} SilentBlock(events: seq<Event>, block: seq<Event>, m: nat, c: nat)
    requires forall i | 0 <= i < |block| :: !OfStage(block[i], m)
    ensures TallyOf(events + block, m, c) == TallyOf(events, m, c)
  {
    if block == [] {
      assert events + block == events;
    } else {
      assert Front(events + block) == events + Front(block) && Last(events + block) == block[|block| - 1];
      SilentBlock(events, Front(block), m, c);
    }
  }

  /** A block with one event about the milestone. */
  lemma OneEvent(events: seq<Event>, block: seq<Event>, k: nat, m: nat, c: nat)
    requires k < |block| && OfStage(block[k], m)
    requires forall i | 0 <= i < |block| && i != k :: !OfStage(block[i], m)
    ensures TallyOf(events + block, m, c)
         == Next(TallyOf(events, m, c), block[k], CampaignMirror.PaidAll(events + block[..k], c))
  {
    hide Next;
    var before, rest := events + block[..k], block[k + 1..];
    assert events + block == before + [block[k]] + rest;
    SilentBlock(before + [block[k]], rest, m, c);
    SilentBlock(events, block[..k], m, c);
    assert Front(before + [block[k]]) == before && Last(before + [block[k]]) == block[k];
  }

  lemma {:induction false} UnheardTally(events: seq<Event>, m: nat, c: nat)
    requires forall i | 0 <= i < |events| :: !OfStage(events[i], m)
    ensures TallyOf(events, m, c) == NO_TALLY
  {
    if events != [] {
      assert !OfStage(events[|events| - 1], m);
      UnheardTally(Front(events), m, c);
    }
  }

  /** Milestones keep all columns, new ones are fresh, and no event is about milestones. */
  ghost predicate TalliesKept(f: Factory, o: Outcome) {
    && (forall m | m in f.milestones :: m in o.factory.milestones && o.factory.milestones[m] == f.milestones[m])
    && (forall m | m in o.factory.milestones && m !in f.milestones :: Fresh(o.factory.milestones[m]))
    && (forall i, m | 0 <= i < |o.events| :: !OfStage(o.events[i], m))
  }

  ghost predicate MoneyKept(f: Factory, o: Outcome) {
    && (forall c | c in f.campaigns ::
          c in o.factory.campaigns && o.factory.campaigns[c].raised == f.campaigns[c].raised + CampaignMirror.PaidAll(o.events, c))
    && (forall c | c in o.factory.campaigns && c !in f.campaigns :: o.factory.campaigns[c].raised == 0)
    && (forall i | 0 <= i < |o.events| && o.events[i].ContributionMade? :: o.events[i].campaign in f.campaigns)
  }

  lemma MoneyOfBlock(f: Factory, tx: Tx)
    requires FactoryLogs.Counted(f) && FactoryStages.Wired(f)
    ensures MoneyKept(f, Exec(f, tx))
  {
    var o := Exec(f, tx);
    forall c | c in f.campaigns
      ensures c in o.factory.campaigns
      ensures o.factory.campaigns[c].raised == f.campaigns[c].raised + CampaignMirror.PaidAll(o.events, c)
    {
      CampaignMirror.ChainPaid(f, tx, c);
    }
    NewCampaignsEmpty(f, tx);
    hide CampaignFactory.Exec;
  }

  lemma NewCampaignsEmpty(f: Factory, tx: Tx)
    requires FactoryLogs.Counted(f) && FactoryStages.Wired(f)
    ensures var o := Exec(f, tx);
      && (forall c | c in o.factory.campaigns && c !in f.campaigns :: o.factory.campaigns[c].raised == 0)
      && (forall i | 0 <= i < |o.events| && o.events[i].ContributionMade? :: o.events[i].campaign in f.campaigns)
  {
    var o := Exec(f, tx);
    if tx.call.CreateCampaign? {
      CreatedEmpty(f, tx);
    } else {
      FactoryStages.OneMilestoneMoves(f, tx);
      FactoryLogs.Blocks(f, tx);
      assert o.factory.campaigns.Keys == f.campaigns.Keys;
      forall i | 0 <= i < |o.events| && o.events[i].ContributionMade?
        ensures o.events[i].campaign in f.campaigns
      {
        assert FactoryLogs.Past(o.factory, o.events[i]);
      }
    }
    hide CampaignFactory.Exec;
  }

  lemma CreatedEmpty(f: Factory, tx: Tx)
    requires tx.call.CreateCampaign?
    ensures var o := Exec(f, tx);
      && (forall c | c in o.factory.campaigns && c !in f.campaigns :: o.factory.campaigns[c].raised == 0)
      && (forall i | 0 <= i < |o.events| :: !o.events[i].ContributionMade?)
  {
    hide CampaignFactory.SumPlans;
  }

  /** The calls that write milestone rows. */
  predicate OnMilestone(tx: Tx) {
    tx.call.Submit? || tx.call.VoteOn? || tx.call.Finalize? || tx.call.ConfirmRelease?
  }

  lemma BlockKeepsTallies(f: Factory, tx: Tx)
    requires FactoryStages.Wired(f) && !OnMilestone(tx)
    ensures TalliesKept(f, Exec(f, tx))
  {
    if tx.call.CreateCampaign? {
      CreationKeepsTallies(f, tx);
    } else {
      MilestonesUntouched(f, tx);
      hide CampaignFactory.Exec;
    }
  }

  lemma CreationKeepsTallies(f: Factory, tx: Tx)
    requires FactoryStages.Wired(f) && tx.call.CreateCampaign?
    ensures TalliesKept(f, Exec(f, tx))
  {
    assert forall m | m in f.milestones :: m <= f.milestoneCounter;
    CreatedFresh(f, tx);
    hide FactoryStages.Wired;
    hide CampaignFactory.Exec;
  }

  lemma CreatedFresh(f: Factory, tx: Tx)
    requires tx.call.CreateCampaign?
    ensures var g := Exec(f, tx).factory;
      && (forall m | m in f.milestones && m <= f.milestoneCounter :: m in g.milestones && g.milestones[m] == f.milestones[m])
      && (forall m | m in g.milestones && m !in f.milestones :: Fresh(g.milestones[m]))
      && (forall i, m | 0 <= i < |Exec(f, tx).events| :: !OfStage(Exec(f, tx).events[i], m))
  {
    hide CampaignFactory.SumPlans;
  }

  lemma MilestonesUntouched(f: Factory, tx: Tx)
    requires !OnMilestone(tx) && !tx.call.CreateCampaign?
    ensures Exec(f, tx).factory.milestones == f.milestones
    ensures forall i, m | 0 <= i < |Exec(f, tx).events| :: !OfStage(Exec(f, tx).events[i], m)
  {
    if tx.call.ProposeFlag? || tx.call.ConfirmFlag? || tx.call.ProposeRefund? || tx.call.ApproveRefund? {
      ProposalsLeaveMilestones(f, tx);
    } else if tx.call.Contribute? || tx.call.ClaimRefund? || tx.call.ProposeRelease? {
      PaymentsLeaveMilestones(f, tx);
    } else {
      StatusesLeaveMilestones(f, tx);
    }
    hide CampaignFactory.Exec;
  }

  lemma ProposalsLeaveMilestones(f: Factory, tx: Tx)
    requires tx.call.ProposeFlag? || tx.call.ConfirmFlag? || tx.call.ProposeRefund? || tx.call.ApproveRefund?
    ensures Exec(f, tx).factory.milestones == f.milestones
    ensures forall i, m | 0 <= i < |Exec(f, tx).events| :: !OfStage(Exec(f, tx).events[i], m)
  {
  }

  lemma PaymentsLeaveMilestones(f: Factory, tx: Tx)
    requires tx.call.Contribute? || tx.call.ClaimRefund? || tx.call.ProposeRelease?
    ensures Exec(f, tx).factory.milestones == f.milestones
    ensures forall i, m | 0 <= i < |Exec(f, tx).events| :: !OfStage(Exec(f, tx).events[i], m)
  {
    hide CampaignFactory.RefundOf;
  }

  lemma StatusesLeaveMilestones(f: Factory, tx: Tx)
    requires tx.call.Unflag? || tx.call.Cancel? || tx.call.CheckDeadline? || tx.call.Expire?
    ensures Exec(f, tx).factory.milestones == f.milestones
    ensures forall i, m | 0 <= i < |Exec(f, tx).events| :: !OfStage(Exec(f, tx).events[i], m)
  {
  }

  // ---- Every transaction keeps the agreement ------------------------------------------

  lemma WiredStays(f: Factory, tx: Tx)
    requires FactoryStages.Sequential(f)
    ensures FactoryStages.Sequential(Exec(f, tx).factory)
  {
    FactoryStages.AlwaysSequential(f, [tx]);
    assert Front([tx]) == [] && After(f, []) == f;
    hide CampaignFactory.Exec;
  }

  lemma PaidStays(f: Factory, events: seq<Event>, o: Outcome)
    requires Agrees(f, events) && MoneyKept(f, o)
    ensures forall c | c in o.factory.campaigns ::
      o.factory.campaigns[c].raised == CampaignMirror.PaidAll(events + o.events, c)
  {
    forall c | c in o.factory.campaigns
      ensures o.factory.campaigns[c].raised == CampaignMirror.PaidAll(events + o.events, c)
    {
      CampaignMirror.PaidConcat(events, o.events, c);
      if c !in f.campaigns {
        CampaignMirror.NothingPaid(events, c);
        CampaignMirror.NothingPaid(o.events, c);
      }
    }
  }

  lemma QuietAgrees(f: Factory, events: seq<Event>, o: Outcome)
    requires Agrees(f, events) && TalliesKept(f, o)
    ensures forall m | m in o.factory.milestones ::
      Matches(o.factory.milestones[m], TallyOf(events + o.events, m, o.factory.milestones[m].campaign))
  {
    forall m | m in o.factory.milestones
      ensures Matches(o.factory.milestones[m], TallyOf(events + o.events, m, o.factory.milestones[m].campaign))
    {
      var c := o.factory.milestones[m].campaign;
      SilentBlock(events, o.events, m, c);
      if m !in f.milestones {
        UnheardTally(events, m, c);
      }
    }
  }

  /** What a successful call on a milestone writes, and the event that tells it. */
  ghost predicate Writes(f: Factory, o: Outcome, m: nat, k: nat) {
    && m in f.milestones && m in o.factory.milestones && f.milestones[m].campaign in f.campaigns
    && o.factory.milestones == f.milestones[m := o.factory.milestones[m]]
    && k < |o.events| && OfStage(o.events[k], m)
    && (forall i, n | 0 <= i < |o.events| && (i != k || n != m) :: !OfStage(o.events[i], n))
    && var a, b, e := f.milestones[m], o.factory.milestones[m], o.events[k];
       && b.campaign == a.campaign && b.amount == a.amount
       && match e
          case MilestoneSubmitted(_, _, _) =>
            && k == 0 && (a.state == Waiting || a.state == Rejected) && b.state == Voting
            && b.submissions == a.submissions + 1 && b.raisedAtStart == f.campaigns[a.campaign].raised
            && b.votesFor == 0 && b.votesAgainst == 0 && b.rounds == a.rounds
            && a.submissions < MAX_SUBMISSIONS && PreviousDone(f, m)
          case VoteCast(_, who, approve, weight) =>
            && a.state == Voting && weight > 0 && RoundOf(a, who) < a.submissions
            && b == a.(votesFor := a.votesFor + (if approve then weight else 0),
                       votesAgainst := a.votesAgainst + (if approve then 0 else weight),
                       rounds := a.rounds[who := a.submissions])
          case VotingFinalized(_, approved) =>
            && a.state == Voting && (approved <==> Passed(a)) && b == a.(state := if approved then Approved else Rejected)
          case FundsReleased(_, amount) =>
            a.state == Approved && amount == a.amount && b == a.(state := Done)
          case _ => false
  }

  lemma SubmitWrites(f: Factory, m: nat, proof: string, tx: Tx)
    requires DoSubmit(f, m, proof, tx).ok
    ensures Writes(f, DoSubmit(f, m, proof, tx), m, 0)
  {
    hide CampaignFactory.Position;
  }

  lemma VoteWrites(f: Factory, m: nat, approve: bool, tx: Tx)
    requires DoVote(f, m, approve, tx).ok
    ensures Writes(f, DoVote(f, m, approve, tx), m, 0)
  {
  }

  lemma FinalizeWrites(f: Factory, m: nat, tx: Tx)
    requires DoFinalize(f, m, tx).ok
    ensures Writes(f, DoFinalize(f, m, tx), m, 0)
  {
    hide CampaignFactory.AllMilestones;
    hide CampaignFactory.Passed;
  }

  lemma ReleaseWrites(f: Factory, m: nat, tx: Tx)
    requires DoConfirmRelease(f, m, tx).ok
    ensures var o := DoConfirmRelease(f, m, tx); |o.events| > 0 && Writes(f, o, m, |o.events| - 1)
  {
    hide CampaignFactory.AllMilestones;
  }

  lemma MilestoneCallWrites(f: Factory, tx: Tx) returns (k: nat)
    requires OnMilestone(tx) && Exec(f, tx).ok
    ensures Writes(f, Exec(f, tx), tx.call.milestone, k)
  {
    hide Writes;
    k := 0;
    var m := tx.call.milestone;
    match tx.call
    case Submit(_, proof) => SubmitWrites(f, m, proof, tx);
    case VoteOn(_, approve) => VoteWrites(f, m, approve, tx);
    case Finalize(_) => FinalizeWrites(f, m, tx);
    case ConfirmRelease(_) => ReleaseWrites(f, m, tx); k := |Exec(f, tx).events| - 1;
  }

  lemma Reverted(f: Factory, tx: Tx)
    requires OnMilestone(tx) && !Exec(f, tx).ok
    ensures Exec(f, tx).factory == f && Exec(f, tx).events == []
  {
    hide CampaignFactory.AllMilestones;
    hide CampaignFactory.PreviousDone;
    hide CampaignFactory.Passed;
  }

  /** The milestone's row and its tally take the same step. */
  lemma WriteMatches(f: Factory, o: Outcome, m: nat, k: nat, t: Tally)
    requires Writes(f, o, m, k) && Matches(f.milestones[m], t)
    ensures Matches(o.factory.milestones[m], Next(t, o.events[k], f.campaigns[f.milestones[m].campaign].raised))
  {
    hide CampaignFactory.PreviousDone;
    hide CampaignFactory.Passed;
    var a, b, e := f.milestones[m], o.factory.milestones[m], o.events[k];
    assert forall w :: RoundOf(b, w) == if e.VoteCast? && w == e.voter then a.submissions else RoundOf(a, w);
  }

  lemma PaidIrrelevant(t: Tally, e: Event, p: nat, q: nat)
    requires !e.MilestoneSubmitted?
    ensures Next(t, e, p) == Next(t, e, q)
  {
  }

  lemma AgreesAt(f: Factory, events: seq<Event>, m: nat)
    requires Agrees(f, events) && m in f.milestones
    ensures Matches(f.milestones[m], TallyOf(events, m, f.milestones[m].campaign))
    ensures f.milestones[m].campaign in f.campaigns
    ensures f.campaigns[f.milestones[m].campaign].raised == CampaignMirror.PaidAll(events, f.milestones[m].campaign)
  {
  }

  lemma WriteFacts(f: Factory, o: Outcome, m: nat, k: nat)
    requires Writes(f, o, m, k)
    ensures m in f.milestones && m in o.factory.milestones && k < |o.events| && OfStage(o.events[k], m)
    ensures o.factory.milestones == f.milestones[m := o.factory.milestones[m]]
    ensures o.factory.milestones[m].campaign == f.milestones[m].campaign
    ensures o.factory.milestones[m].amount == f.milestones[m].amount
    ensures forall i, n | 0 <= i < |o.events| && (i != k || n != m) :: !OfStage(o.events[i], n)
    ensures o.events[k].MilestoneSubmitted? ==> k == 0
  {
    hide CampaignFactory.PreviousDone;
    hide CampaignFactory.Passed;
  }

  lemma WriterMatches(f: Factory, events: seq<Event>, o: Outcome, m: nat, k: nat)
    requires Agrees(f, events) && Writes(f, o, m, k)
    ensures m in o.factory.milestones
    ensures Matches(o.factory.milestones[m], TallyOf(events + o.events, m, o.factory.milestones[m].campaign))
  {
    WriteFacts(f, o, m, k);
    AgreesAt(f, events, m);
    hide Agrees;
    var c := f.milestones[m].campaign;
    var t := TallyOf(events, m, c);
    WriteMatches(f, o, m, k, t);
    hide Writes;
    hide Matches;
    hide Next;
    OneEvent(events, o.events, k, m, c);
    if o.events[k].MilestoneSubmitted? {
      assert events + o.events[..k] == events;
    } else {
      PaidIrrelevant(t, o.events[k], CampaignMirror.PaidAll(events + o.events[..k], c), f.campaigns[c].raised);
    }
  }

  lemma OthersMatch(f: Factory, events: seq<Event>, o: Outcome, m: nat)
    requires Agrees(f, events) && m in o.factory.milestones
    requires o.factory.milestones == f.milestones[m := o.factory.milestones[m]]
    requires forall i, n | 0 <= i < |o.events| && n != m :: !OfStage(o.events[i], n)
    ensures forall n | n in o.factory.milestones && n != m ::
      Matches(o.factory.milestones[n], TallyOf(events + o.events, n, o.factory.milestones[n].campaign))
  {
    forall n | n in o.factory.milestones && n != m
      ensures Matches(o.factory.milestones[n], TallyOf(events + o.events, n, o.factory.milestones[n].campaign))
    {
      SilentBlock(events, o.events, n, f.milestones[n].campaign);
    }
  }

  lemma CallAgrees(f: Factory, events: seq<Event>, tx: Tx)
    requires Agrees(f, events) && OnMilestone(tx)
    ensures var o := Exec(f, tx);
      && (forall n | n in o.factory.milestones ::
            Matches(o.factory.milestones[n], TallyOf(events + o.events, n, o.factory.milestones[n].campaign)))
      && (forall i, n | 0 <= i < |o.events| && OfStage(o.events[i], n) :: n in f.milestones)
      && f.milestones.Keys == o.factory.milestones.Keys
  {
    hide Matches;
    hide CampaignFactory.Exec;
    var o, m := Exec(f, tx), tx.call.milestone;
    if o.ok {
      var k := MilestoneCallWrites(f, tx);
      WriteFacts(f, o, m, k);
      WriterMatches(f, events, o, m, k);
      OthersMatch(f, events, o, m);
      hide Writes;
      hide Agrees;
    } else {
      Reverted(f, tx);
      assert events + o.events == events;
    }
  }

  lemma HeardStays(f: Factory, events: seq<Event>, o: Outcome)
    requires Agrees(f, events) && f.milestones.Keys <= o.factory.milestones.Keys && f.campaigns.Keys <= o.factory.campaigns.Keys
    requires forall i, m | 0 <= i < |o.events| && OfStage(o.events[i], m) :: m in f.milestones
    requires forall i | 0 <= i < |o.events| && o.events[i].ContributionMade? :: o.events[i].campaign in f.campaigns
    ensures forall i, m | 0 <= i < |events + o.events| && OfStage((events + o.events)[i], m) :: m in o.factory.milestones
    ensures forall i | 0 <= i < |events + o.events| && (events + o.events)[i].ContributionMade? ::
      (events + o.events)[i].campaign in o.factory.campaigns
  {
  }

  lemma AgreesStep(f: Factory, events: seq<Event>, tx: Tx)
    requires Agrees(f, events) && FactoryStages.Sequential(f)
    ensures Agrees(Exec(f, tx).factory, events + Exec(f, tx).events) && FactoryStages.Sequential(Exec(f, tx).factory)
  {
    hide CampaignFactory.Exec;
    hide Matches;
    var o := Exec(f, tx);
    CampaignMirror.CountedStays(f, tx);
    WiredStays(f, tx);
    MoneyOfBlock(f, tx);
    PaidStays(f, events, o);
    if OnMilestone(tx) {
      CallAgrees(f, events, tx);
    } else {
      BlockKeepsTallies(f, tx);
      QuietAgrees(f, events, o);
    }
    HeardStays(f, events, o);
    hide FactoryStages.Wired;
    hide FactoryLogs.Counted;
  }

  lemma {:induction false} RunAgrees(txs: seq<Tx>)
    ensures Agrees(After(Empty(), txs), Emitted(Empty(), txs)) && FactoryStages.Sequential(After(Empty(), txs))
  {
    hide CampaignFactory.Exec;
    if txs != [] {
      hide Agrees;
      RunAgrees(Front(txs));
      AgreesStep(After(Empty(), Front(txs)), Emitted(Empty(), Front(txs)), Last(txs));
    }
  }

  // ---- What it means ------------------------------------------------------------------

  /** What an event of a run must be, given the log before it. */
  ghost predicate Justified(f: Factory, before: seq<Event>, e: Event) {
    (e.MilestoneSubmitted? || e.VoteCast? || e.VotingFinalized? || e.FundsReleased?) ==>
      && e.milestone in f.milestones
      && var m := e.milestone;
         var c := f.milestones[m].campaign;
         var t := TallyOf(before, m, c);
         match e
         case MilestoneSubmitted(_, _, _) =>
           && (StateOf(t) == Waiting || StateOf(t) == Rejected) && t.rounds < 3
           && c in f.campaigns && PreviousReleased(before, f.campaigns[c].milestones, m, c)
         case VoteCast(_, voter, _, weight) => StateOf(t) == Voting && weight > 0 && voter !in t.voters
         case VotingFinalized(_, approved) => StateOf(t) == Voting && (approved <==> Wins(t))
         case FundsReleased(_, amount) => StateOf(t) == Approved && amount == f.milestones[m].amount
         case _ => true
  }

  /** The milestone before this one in its campaign has had its funds released. */
  predicate PreviousReleased(before: seq<Event>, ids: seq<nat>, m: nat, c: nat) {
    var i := Position(ids, m);
    0 < i < |ids| ==> TallyOf(before, ids[i - 1], c).released
  }

  lemma PreviousInLog(f: Factory, events: seq<Event>, m: nat)
    requires Agrees(f, events) && m in f.milestones && f.milestones[m].campaign in f.campaigns && PreviousDone(f, m)
    ensures var c := f.milestones[m].campaign; PreviousReleased(events, f.campaigns[c].milestones, m, c)
  {
    var c := f.milestones[m].campaign;
    var ids := f.campaigns[c].milestones;
    var i := Position(ids, m);
    if 0 < i < |ids| {
      ListedIn(f, c, i - 1);
      AgreesAt(f, events, ids[i - 1]);
      hide Agrees;
      DoneIsReleased(f.milestones[ids[i - 1]], TallyOf(events, ids[i - 1], c));
    }
    hide TallyOf;
  }

  lemma ListedIn(f: Factory, c: nat, i: nat)
    requires FactoryStages.Wired(f) && c in f.campaigns && i < |f.campaigns[c].milestones|
    ensures f.campaigns[c].milestones[i] in f.milestones && f.milestones[f.campaigns[c].milestones[i]].campaign == c
  {
    assert FactoryStages.ListWired(f, c);
  }

  lemma DoneIsReleased(ms: Milestone, t: Tally)
    requires Matches(ms, t) && ms.state == Done
    ensures t.released
  {
  }

  lemma BlockJustified(f: Factory, events: seq<Event>, tx: Tx, i: nat)
    requires Agrees(f, events) && i < |Exec(f, tx).events|
    ensures Justified(f, events + Exec(f, tx).events[..i], Exec(f, tx).events[i])
  {
    var o := Exec(f, tx);
    hide CampaignFactory.Exec;
    if OnMilestone(tx) {
      if o.ok {
        var k := MilestoneCallWrites(f, tx);
        WriteFacts(f, o, tx.call.milestone, k);
        if i == k {
          WriteJustified(f, events, o, tx.call.milestone, k);
        } else {
          Unrelated(f, events + o.events[..i], o.events[i]);
        }
        hide Writes;
      } else {
        Reverted(f, tx);
      }
    } else {
      BlockKeepsTallies(f, tx);
      Unrelated(f, events + o.events[..i], o.events[i]);
    }
    hide Justified;
  }

  lemma Unrelated(f: Factory, before: seq<Event>, e: Event)
    requires forall n :: !OfStage(e, n)
    ensures Justified(f, before, e)
  {
    if e.MilestoneSubmitted? || e.VoteCast? || e.VotingFinalized? || e.FundsReleased? {
      assert OfStage(e, e.milestone);
    }
  }

  lemma WriteJustified(f: Factory, events: seq<Event>, o: Outcome, m: nat, k: nat)
    requires Agrees(f, events) && Writes(f, o, m, k)
    ensures Justified(f, events + o.events[..k], o.events[k])
  {
    WriteFacts(f, o, m, k);
    AgreesAt(f, events, m);
    SilentBlock(events, o.events[..k], m, f.milestones[m].campaign);
    if o.events[k].MilestoneSubmitted? {
      assert events + o.events[..k] == events;
      PreviousInLog(f, events, m);
    }
    hide Agrees;
    hide CampaignFactory.PreviousDone;
    hide PreviousReleased;
  }

  lemma AmountsKept(f: Factory, tx: Tx)
    requires FactoryStages.Wired(f)
    ensures var g := Exec(f, tx).factory;
      forall m | m in f.milestones :: m in g.milestones
        && g.milestones[m].amount == f.milestones[m].amount && g.milestones[m].campaign == f.milestones[m].campaign
  {
    hide CampaignFactory.Exec;
    if OnMilestone(tx) {
      if Exec(f, tx).ok {
        var k := MilestoneCallWrites(f, tx);
        WriteFacts(f, Exec(f, tx), tx.call.milestone, k);
        hide Writes;
      } else {
        Reverted(f, tx);
      }
    } else {
      BlockKeepsTallies(f, tx);
    }
  }

  lemma ListsKept(f: Factory, tx: Tx)
    requires FactoryStages.Sequential(f)
    ensures var g := Exec(f, tx).factory;
      forall c | c in f.campaigns :: c in g.campaigns && g.campaigns[c].milestones == f.campaigns[c].milestones
  {
    if tx.call.CreateCampaign? {
      if Exec(f, tx).ok { FactoryStages.CreationShape(f, tx); } else { assert Exec(f, tx).factory == f; }
    } else {
      FactoryStages.OneMilestoneMoves(f, tx);
    }
    hide CampaignFactory.Exec;
  }

  lemma JustifiedLater(f: Factory, tx: Tx, before: seq<Event>, e: Event)
    requires FactoryStages.Sequential(f) && Justified(f, before, e)
    ensures Justified(Exec(f, tx).factory, before, e)
  {
    hide CampaignFactory.Exec;
    hide PreviousReleased;
    hide Wins;
    AmountsKept(f, tx);
    ListsKept(f, tx);
    hide FactoryStages.Sequential;
  }

  /** In the log of every run: a milestone is submitted at most three times and only after
      the one before it was released; a ballot has weight, falls in an open round and is its
      voter's only one in it; a vote ends as the round's ballots and its quorum say; and
      funds are released once, in the milestone's own amount, after a passed vote. */
  lemma {:induction false} LogExplainsItself(txs: seq<Tx>, i: nat)
    requires i < |Emitted(Empty(), txs)|
    ensures var events := Emitted(Empty(), txs); Justified(After(Empty(), txs), events[..i], events[i])
  {
    hide CampaignFactory.Exec;
    hide Justified;
    hide Agrees;
    var front, tx := Front(txs), Last(txs);
    var f, told := After(Empty(), front), Emitted(Empty(), front);
    var block := Exec(f, tx).events;
    RunAgrees(front);
    if i < |told| {
      LogExplainsItself(front, i);
      assert (told + block)[..i] == told[..i];
      JustifiedLater(f, tx, told[..i], told[i]);
    } else {
      BlockJustified(f, told, tx, i - |told|);
      assert (told + block)[..i] == told + block[..i - |told|];
      JustifiedLater(f, tx, told + block[..i - |told|], block[i - |told|]);
    }
  }
}
