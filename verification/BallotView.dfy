/** What the oversight list counts against what the contract counts: rows keep a voter's
    last ballot over all rounds, the contract starts every round from nothing. */
module BallotView {
  import opened Common
  import opened Events
  import opened Database
  import AdminService
  import FactoryLogs
  import FactoryVoting
  import Records

  /** Every voter's last choice on a milestone, over all rounds. */
  function Choices(events: seq<Event>, m: nat): map<Wallet, bool> {
    if events == [] then map[]
    else
      var e := Last(events);
      if e.VoteCast? && e.milestone == m then Choices(Front(events), m)[e.voter := e.approve]
      else Choices(Front(events), m)
  }

  /** The choices of the current round. */
  function RoundChoices(events: seq<Event>, m: nat): map<Wallet, bool> {
    if events == [] then map[]
    else
      var e := Last(events);
      if e.MilestoneSubmitted? && e.milestone == m then map[]
      else if e.VoteCast? && e.milestone == m then RoundChoices(Front(events), m)[e.voter := e.approve]
      else RoundChoices(Front(events), m)
  }

  /** The current round is part of the whole, and its voters are the contract's. */
  lemma {:induction false} RoundIsPart(events: seq<Event>, m: nat, c: nat)
    ensures RoundChoices(events, m).Keys <= Choices(events, m).Keys
    ensures forall w | w in RoundChoices(events, m) :: RoundChoices(events, m)[w] == Choices(events, m)[w]
    ensures RoundChoices(events, m).Keys == FactoryVoting.TallyOf(events, m, c).voters
  {
    if events != [] {
      RoundIsPart(Front(events), m, c);
    }
  }

  /** One address is spelled one way in all ballots on the milestone. */
  ghost predicate OneSpelling(events: seq<Event>, m: nat) {
    forall v, w | v in Choices(events, m) && w in Choices(events, m) && SameWallet(v, w) :: v == w
  }

  lemma {:induction false} SpellingBefore(events: seq<Event>, m: nat)
    requires events != [] && OneSpelling(events, m)
    ensures OneSpelling(Front(events), m)
  {
    assert forall w | w in Choices(Front(events), m) :: w in Choices(events, m);
  }

  /** The rows about one milestone are its voters' last choices. */
  ghost predicate Keeps(box: Records.BallotBox, row: RowId, choices: map<Wallet, bool>) {
    && (forall k | k in box && k.1 == row :: exists w :: w in choices && k.0 == Lower(w))
    && (forall w | w in choices :: (Lower(w), row) in box && box[(Lower(w), row)].choice == choices[w])
  }

  /** The milestone's row is bound to it alone. */
  predicate BoundAlone(catalog: Catalog, m: nat, row: RowId) {
    m in catalog.milestoneRow && catalog.milestoneRow[m] == row
    && forall n | n in catalog.milestoneRow && catalog.milestoneRow[n] == row :: n == m
  }

  lemma KeepsStep(db: Db, log: Log, m: nat, row: RowId, before: map<Wallet, bool>, after: map<Wallet, bool>)
    requires BoundAlone(db.catalog, m, row) && Keeps(db.ballots, row, before)
    requires after == if log.event.VoteCast? && log.event.milestone == m
                      then before[log.event.voter := log.event.approve] else before
    requires forall v, w | v in after && w in after && SameWallet(v, w) :: v == w
    ensures Keeps(Apply(db, log).ballots, row, after)
  {
    var votes := Votes(db.catalog, log);
    if votes != [] {
      assert votes == [votes[0]];
      Records.CastOne(db.ballots, votes[0]);
      var t := Records.Cast(db.ballots, votes[0]);
      var e := log.event;
      forall k | k in t && k.1 == row
        ensures exists w :: w in after && k.0 == Lower(w)
      {
        if k in db.ballots {
          var w :| w in before && k.0 == Lower(w);
          assert w in after;
        } else {
          assert e.voter in after && k.0 == Lower(e.voter);
        }
      }
      forall w | w in after
        ensures (Lower(w), row) in t && t[(Lower(w), row)].choice == after[w]
      {
        if e.milestone == m {
          assert SameWallet(w, e.voter) ==> w == e.voter;
        }
      }
    }
  }

  lemma {:induction false} RowsKeepChoices(db: Db, logs: seq<Log>, events: seq<Event>, m: nat, row: RowId)
    requires FactoryLogs.Carries(logs, events) && OneSpelling(events, m)
    requires BoundAlone(db.catalog, m, row) && forall k | k in db.ballots :: k.1 != row
    ensures Fold(db, logs).catalog == db.catalog
    ensures Keeps(Fold(db, logs).ballots, row, Choices(events, m))
  {
    hide Database.Apply;
    if logs != [] {
      SpellingBefore(events, m);
      RowsKeepChoices(db, Front(logs), Front(events), m, row);
      assert Last(logs).event == Last(events);
      SameCatalog(Fold(db, Front(logs)), Last(logs));
      KeepsStep(Fold(db, Front(logs)), Last(logs), m, row, Choices(Front(events), m), Choices(events, m));
      hide Keeps;
    }
  }

  lemma SameCatalog(db: Db, log: Log)
    ensures Apply(db, log).catalog == db.catalog
  {
  }

  // ---- Counting -----------------------------------------------------------------------

  function Voters(choices: map<Wallet, bool>, choice: bool): set<Wallet> {
    set w | w in choices && choices[w] == choice
  }

  lemma {:induction false} SameSize(ws: set<Wallet>, ks: set<(Wallet, RowId)>, row: RowId)
    requires forall v, w | v in ws && w in ws && SameWallet(v, w) :: v == w
    requires forall w | w in ws :: (Lower(w), row) in ks
    requires forall k | k in ks :: exists w :: w in ws && k == (Lower(w), row)
    ensures |ws| == |ks|
    decreases |ws|
  {
    if exists w: Wallet :: w in ws {
      var w :| w in ws;
      var rest, others := ws - {w}, ks - {(Lower(w), row)};
      forall k | k in others
        ensures exists v :: v in rest && k == (Lower(v), row)
      {
        var v :| v in ws && k == (Lower(v), row);
        assert v in rest;
      }
      SameSize(rest, others, row);
    } else {
      assert ws == {};
      assert forall k: (Wallet, RowId) :: k !in ks;
      assert ks == {};
    }
  }

  lemma BallotsAreVoters(box: Records.BallotBox, row: RowId, choices: map<Wallet, bool>, choice: bool)
    requires Keeps(box, row, choices)
    requires forall v, w | v in choices && w in choices && SameWallet(v, w) :: v == w
    ensures AdminService.Ballots(box, row, choice) == |Voters(choices, choice)|
  {
    var ks := set k | k in box && AdminService.Cast(box, row, choice, k);
    var ws := Voters(choices, choice);
    forall k | k in ks
      ensures exists w :: w in ws && k == (Lower(w), row)
    {
      var w :| w in choices && k.0 == Lower(w);
      assert k == (Lower(w), row);
      assert w in ws;
    }
    SameSize(ws, ks, row);
  }

  lemma SplitVoters(choices: map<Wallet, bool>)
    ensures |Voters(choices, true)| + |Voters(choices, false)| == |choices.Keys|
  {
    assert Voters(choices, true) + Voters(choices, false) == choices.Keys;
    assert Voters(choices, true) !! Voters(choices, false);
  }

  lemma SubsetOfSameSize(a: set<Wallet>, b: set<Wallet>)
    requires a <= b && |a| == |b|
    ensures a == b
  {
    assert b == a + (b - a);
    assert |b - a| == 0;
  }

  lemma SameCounts(part: map<Wallet, bool>, whole: map<Wallet, bool>)
    requires part.Keys <= whole.Keys && forall w | w in part :: part[w] == whole[w]
    ensures (forall choice: bool :: |Voters(whole, choice)| == |Voters(part, choice)|) <==> part.Keys == whole.Keys
  {
    SplitVoters(part);
    SplitVoters(whole);
    if part.Keys == whole.Keys {
      assert part == whole;
    } else if forall choice: bool :: |Voters(whole, choice)| == |Voters(part, choice)| {
      assert |Voters(whole, true)| == |Voters(part, true)| && |Voters(whole, false)| == |Voters(part, false)|;
      SubsetOfSameSize(part.Keys, whole.Keys);
    }
  }

  /** After any log the list shows, for each choice, the voters of the contract's current
      round if and only if everybody who ever voted on the milestone voted in this round. */
  lemma ShownVotesExactly(db: Db, logs: seq<Log>, events: seq<Event>, m: nat, row: RowId, c: nat)
    requires FactoryLogs.Carries(logs, events) && OneSpelling(events, m)
    requires BoundAlone(db.catalog, m, row) && forall k | k in db.ballots :: k.1 != row
    ensures var box, round := Fold(db, logs).ballots, RoundChoices(events, m);
      && round.Keys == FactoryVoting.TallyOf(events, m, c).voters
      && ((forall choice: bool :: AdminService.Ballots(box, row, choice) == |Voters(round, choice)|)
          <==> Choices(events, m).Keys == FactoryVoting.TallyOf(events, m, c).voters)
  {
    hide AdminService.Ballots;
    hide Keeps;
    hide Voters;
    RoundIsPart(events, m, c);
    RowsKeepChoices(db, logs, events, m, row);
    var box, all, round := Fold(db, logs).ballots, Choices(events, m), RoundChoices(events, m);
    forall choice: bool
      ensures AdminService.Ballots(box, row, choice) == |Voters(all, choice)|
    {
      BallotsAreVoters(box, row, all, choice);
    }
    SameCounts(round, all);
  }
}
