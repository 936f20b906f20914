/** The three proposal tables against the contract: which proposals they hold, who made
    each, and whether and by whom it was executed. */
module ProposalMirror {
  import opened Common
  import opened Events
  import opened Database
  import F = CampaignFactory
  import FactoryControl
  import FactoryLogs
  import Records

  function Register(db: Db, k: FactoryControl.Kind): Records.Register {
    match k
    case Flagging => db.flags
    case Refunding => db.refunds
    case Releasing => db.releases
  }

  /** The row that a proposal about x belongs to: a linked campaign or a bound milestone. */
  function RowOf(db: Db, k: FactoryControl.Kind, x: nat): Option<RowId> {
    if k.Releasing? then (if x in db.catalog.milestoneRow then Some(db.catalog.milestoneRow[x]) else None)
    else if x in db.links then Some(db.links[x]) else None
  }

  function ReasonOf(e: Event): string {
    if e.FlagProposed? then e.reason else ""
  }

  // ---- One log ------------------------------------------------------------------------

  /** What a log does to the entry of proposal p. */
  lemma EntryStep(db: Db, log: Log, k: FactoryControl.Kind, p: nat)
    ensures var r, t := Register(db, k), Register(Apply(db, log), k);
      var opens, confirms := FactoryControl.Opens(log.event, k), FactoryControl.Confirms(log.event, k);
      if p in r then
        && p in t
        && t[p] == if confirms.Some? && confirms.value.proposal == p
                   then r[p].(confirmer := Some(Lower(confirms.value.admin)), executed := true) else r[p]
      else if opens.Some? && opens.value.proposal == p && RowOf(db, k, opens.value.subject).Some? then
        && p in t
        && t[p] == Records.Proposal(RowOf(db, k, opens.value.subject).value, Lower(opens.value.admin),
                                    ReasonOf(log.event), log.blockTime, None, false)
      else
        p !in t
  {
    hide Lower;
    var ops := match k case Flagging => FlagOps(db.links, log) case Refunding => RefundOps(db.links, log)
                       case Releasing => ReleaseOps(db.catalog, log);
    assert Register(Apply(db, log), k) == Records.Run(Register(db, k), ops);
    if ops == [] {
    } else {
      assert ops == [ops[0]];
      Records.RunOne(Register(db, k), ops[0]);
    }
    hide Apply;
    hide Records.Run;
  }

  // ---- Any log ------------------------------------------------------------------------

  /** The i-th log opens proposal p about something that the tables know by then. */
  ghost predicate OpensAt(db: Db, logs: seq<Log>, k: FactoryControl.Kind, p: nat, i: nat) {
    && i < |logs|
    && var a := FactoryControl.Opens(logs[i].event, k);
       a.Some? && a.value.proposal == p && RowOf(Fold(db, logs[..i]), k, a.value.subject).Some?
  }

  predicate ConfirmsAt(logs: seq<Log>, k: FactoryControl.Kind, p: nat, j: nat) {
    && j < |logs|
    && FactoryControl.Confirms(logs[j].event, k).Some? && FactoryControl.Confirms(logs[j].event, k).value.proposal == p
  }

  ghost predicate FirstOpensAt(db: Db, logs: seq<Log>, k: FactoryControl.Kind, p: nat, i: nat) {
    OpensAt(db, logs, k, p, i) && forall j: nat | j < i :: !OpensAt(db, logs, k, p, j)
  }

  /** The entry says what the i-th log said when it opened the proposal. */
  ghost predicate Noted(db: Db, logs: seq<Log>, k: FactoryControl.Kind, i: nat, r: Records.Proposal)
    requires i < |logs| && FactoryControl.Opens(logs[i].event, k).Some?
  {
    var a := FactoryControl.Opens(logs[i].event, k).value;
    && Some(r.subject) == RowOf(Fold(db, logs[..i]), k, a.subject) && r.proposer == Lower(a.admin)
    && r.reason == ReasonOf(logs[i].event) && r.proposedAt == logs[i].blockTime
  }

  /** It is executed exactly if a later log confirms it, by whoever did so last. */
  ghost predicate Decided(logs: seq<Log>, k: FactoryControl.Kind, p: nat, i: nat, r: Records.Proposal) {
    && (r.executed <==> exists j: nat :: i < j && ConfirmsAt(logs, k, p, j))
    && (!r.executed ==> r.confirmer == None)
    && forall j: nat | i < j && ConfirmsAt(logs, k, p, j) && forall l: nat | j < l :: !ConfirmsAt(logs, k, p, l) ::
         r.confirmer == Some(Lower(FactoryControl.Confirms(logs[j].event, k).value.admin))
  }

  lemma OpensBefore(db: Db, logs: seq<Log>, k: FactoryControl.Kind, p: nat, i: nat)
    requires logs != [] && i < |logs| - 1
    ensures OpensAt(db, Front(logs), k, p, i) <==> OpensAt(db, logs, k, p, i)
  {
    assert Front(logs)[..i] == logs[..i];
  }

  /** Nothing opens the proposal, so the table has no entry for it. */
  lemma {:induction false} NotOpened(db: Db, logs: seq<Log>, k: FactoryControl.Kind, p: nat)
    requires p !in Register(db, k) && forall i: nat :: !OpensAt(db, logs, k, p, i)
    ensures p !in Register(Fold(db, logs), k)
  {
    if logs != [] {
      hide Apply;
      hide Register;
      hide RowOf;
      forall i: nat
        ensures !OpensAt(db, Front(logs), k, p, i)
      {
        if i < |logs| - 1 { OpensBefore(db, logs, k, p, i); }
      }
      NotOpened(db, Front(logs), k, p);
      assert !OpensAt(db, logs, k, p, |logs| - 1);
      assert logs[..|logs| - 1] == Front(logs);
      EntryStep(Fold(db, Front(logs)), Last(logs), k, p);
    }
  }

  lemma DecidedLater(logs: seq<Log>, k: FactoryControl.Kind, p: nat, i: nat, r: Records.Proposal, t: Records.Proposal)
    requires logs != [] && i < |logs| - 1 && Decided(Front(logs), k, p, i, r)
    requires var c := FactoryControl.Confirms(Last(logs).event, k);
      t == if c.Some? && c.value.proposal == p then r.(confirmer := Some(Lower(c.value.admin)), executed := true) else r
    ensures Decided(logs, k, p, i, t)
  {
    hide Lower;
    hide FactoryControl.Confirms;
    var n := |logs| - 1;
    assert forall j: nat | j < n :: ConfirmsAt(Front(logs), k, p, j) <==> ConfirmsAt(logs, k, p, j);
    if ConfirmsAt(logs, k, p, n) {
      assert t.executed;
    } else {
      assert t == r;
      if r.executed {
        var j: nat :| i < j && ConfirmsAt(Front(logs), k, p, j);
        assert ConfirmsAt(logs, k, p, j);
      }
      forall j: nat | i < j && ConfirmsAt(logs, k, p, j) && forall l: nat | j < l :: !ConfirmsAt(logs, k, p, l)
        ensures r.confirmer == Some(Lower(FactoryControl.Confirms(logs[j].event, k).value.admin))
      {
        assert ConfirmsAt(Front(logs), k, p, j);
      }
    }
  }

  /** After any log: the entry is what the first log that opened the proposal said, and is
      executed exactly if a later one confirmed it. */
  lemma {:induction false} EntryTold(db: Db, logs: seq<Log>, k: FactoryControl.Kind, p: nat, i: nat)
    requires p !in Register(db, k) && FirstOpensAt(db, logs, k, p, i)
    ensures p in Register(Fold(db, logs), k)
    ensures Noted(db, logs, k, i, Register(Fold(db, logs), k)[p])
    ensures Decided(logs, k, p, i, Register(Fold(db, logs), k)[p])
  {
    hide Apply;
    hide Register;
    hide RowOf;
    hide Lower;
    var n := |logs| - 1;
    assert logs[..n] == Front(logs);
    EntryStep(Fold(db, Front(logs)), Last(logs), k, p);
    forall j: nat | j < n
      ensures OpensAt(db, Front(logs), k, p, j) <==> OpensAt(db, logs, k, p, j)
    {
      OpensBefore(db, logs, k, p, j);
    }
    if i < n {
      EntryTold(db, Front(logs), k, p, i);
      assert Front(logs)[..i] == logs[..i];
      DecidedLater(logs, k, p, i, Register(Fold(db, Front(logs)), k)[p], Register(Fold(db, logs), k)[p]);
    } else {
      NotOpened(db, Front(logs), k, p);
    }
  }

  // ---- The contract's side ------------------------------------------------------------

  predicate OpenedIn(events: seq<Event>, k: FactoryControl.Kind, p: nat, i: nat) {
    && i < |events|
    && FactoryControl.Opens(events[i], k).Some? && FactoryControl.Opens(events[i], k).value.proposal == p
  }

  /** The proposals are those that the log opened, each once and by its proposer. */
  ghost predicate OpenedOnce(proposals: map<nat, F.Proposal>, counter: nat, events: seq<Event>, k: FactoryControl.Kind) {
    && (forall p | p in proposals :: p <= counter && exists i: nat :: OpenedIn(events, k, p, i))
    && (forall p: nat, i: nat | OpenedIn(events, k, p, i) ::
          p in proposals && proposals[p].proposer == FactoryControl.Opens(events[i], k).value.admin)
    && (forall p: nat, i: nat, j: nat | OpenedIn(events, k, p, i) && OpenedIn(events, k, p, j) :: i == j)
  }

  /** Executed are those that the log confirmed. */
  ghost predicate ClosedTold(proposals: map<nat, F.Proposal>, events: seq<Event>, k: FactoryControl.Kind) {
    && (forall p: nat | p in proposals :: proposals[p].executed <==> FactoryControl.Closed(events, k, p))
    && (forall p: nat | FactoryControl.Closed(events, k, p) :: p in proposals)
  }

  ghost predicate Accounts(f: F.Factory, events: seq<Event>, k: FactoryControl.Kind) {
    && OpenedOnce(FactoryControl.Proposals(f, k), FactoryControl.Counter(f, k), events, k)
    && ClosedTold(FactoryControl.Proposals(f, k), events, k)
  }

  lemma AccountsStep(f: F.Factory, events: seq<Event>, o: F.Outcome, k: FactoryControl.Kind, change: FactoryControl.Change)
    requires Accounts(f, events, k) && FactoryControl.Changes(f, o, k, change)
    ensures Accounts(o.factory, events + o.events, k)
  {
    BlockTold(f, events, o, k, change);
    match change
    case Stay => StayAccounts(f, events, o, k);
    case Proposed(a) => ProposedAccounts(f, events, o, k, a);
    case Confirmed(a) => ConfirmedAccounts(f, events, o, k, a);
  }

  /** What a block adds to the openings and confirmations of the log. */
  ghost predicate Adds(events: seq<Event>, all: seq<Event>, k: FactoryControl.Kind, change: FactoryControl.Change) {
    && |events| <= |all| && (forall i | 0 <= i < |events| :: all[i] == events[i])
    && (forall p: nat :: FactoryControl.Closed(all, k, p) <==>
          FactoryControl.Closed(events, k, p) || (change.Confirmed? && p == change.act.proposal))
    && (forall p: nat, i: nat :: OpenedIn(all, k, p, i) <==>
          OpenedIn(events, k, p, i) || (change.Proposed? && p == change.act.proposal && i == |events|))
    && (change.Proposed? ==> |events| < |all| && FactoryControl.Opens(all[|events|], k) == Some(change.act))
  }

  lemma BlockTold(f: F.Factory, events: seq<Event>, o: F.Outcome, k: FactoryControl.Kind, change: FactoryControl.Change)
    requires FactoryControl.Changes(f, o, k, change)
    ensures Adds(events, events + o.events, k, change)
  {
    var all := events + o.events;
    FactoryControl.BlockCloses(f, o, k, change);
    if change.Proposed? { assert all[|events|] == o.events[0]; }
    forall p: nat
      ensures FactoryControl.Closed(all, k, p) <==>
        FactoryControl.Closed(events, k, p) || (change.Confirmed? && p == change.act.proposal)
    {
      FactoryControl.ClosedMore(events, o.events, k, p);
    }
    forall p: nat, i: nat
      ensures OpenedIn(all, k, p, i) <==>
        OpenedIn(events, k, p, i) || (change.Proposed? && p == change.act.proposal && i == |events|)
    {
      OpenedLater(f, events, o, k, change, p, i);
    }
    hide OpenedIn;
    hide FactoryControl.Closed;
    hide FactoryControl.Opens;
  }

  lemma StayAccounts(f: F.Factory, events: seq<Event>, o: F.Outcome, k: FactoryControl.Kind)
    requires Accounts(f, events, k) && FactoryControl.Changes(f, o, k, FactoryControl.Stay)
    requires Adds(events, events + o.events, k, FactoryControl.Stay)
    ensures Accounts(o.factory, events + o.events, k)
  {
    hide FactoryControl.Slot;
    hide FactoryControl.Proposals;
    hide FactoryControl.Counter;
    var proposals, counter := FactoryControl.Proposals(f, k), FactoryControl.Counter(f, k);
    SameOpenings(proposals, proposals, counter, events, events + o.events, k, FactoryControl.Stay);
    hide OpenedOnce;
    hide FactoryControl.Opens;
    hide FactoryControl.Closed;
    hide OpenedIn;
  }

  lemma ProposedAccounts(f: F.Factory, events: seq<Event>, o: F.Outcome, k: FactoryControl.Kind, a: FactoryControl.Act)
    requires Accounts(f, events, k) && FactoryControl.Changes(f, o, k, FactoryControl.Proposed(a))
    requires Adds(events, events + o.events, k, FactoryControl.Proposed(a))
    ensures Accounts(o.factory, events + o.events, k)
  {
    hide FactoryControl.Slot;
    hide FactoryControl.Proposals;
    hide FactoryControl.Counter;
    NewOpening(FactoryControl.Proposals(f, k), FactoryControl.Counter(f, k), events, events + o.events, k, a);
    hide OpenedOnce;
    NotYetConfirmed(FactoryControl.Proposals(f, k), FactoryControl.Counter(f, k), events, events + o.events, k, a);
    hide ClosedTold;
    hide Adds;
  }

  lemma ConfirmedAccounts(f: F.Factory, events: seq<Event>, o: F.Outcome, k: FactoryControl.Kind, a: FactoryControl.Act)
    requires Accounts(f, events, k) && FactoryControl.Changes(f, o, k, FactoryControl.Confirmed(a))
    requires Adds(events, events + o.events, k, FactoryControl.Confirmed(a))
    ensures Accounts(o.factory, events + o.events, k)
  {
    hide FactoryControl.Slot;
    hide FactoryControl.Proposals;
    hide FactoryControl.Counter;
    var proposals, counter := FactoryControl.Proposals(f, k), FactoryControl.Counter(f, k);
    SameOpenings(proposals, FactoryControl.Proposals(o.factory, k), counter, events, events + o.events, k,
                 FactoryControl.Confirmed(a));
    hide OpenedOnce;
    hide FactoryControl.Opens;
    hide FactoryControl.Closed;
    hide OpenedIn;
  }

  /** A block that opens nothing leaves what was opened. */
  lemma SameOpenings(
    old_: map<nat, F.Proposal>, new_: map<nat, F.Proposal>, counter: nat, events: seq<Event>, all: seq<Event>,
    k: FactoryControl.Kind, change: FactoryControl.Change)
    requires OpenedOnce(old_, counter, events, k) && Adds(events, all, k, change) && !change.Proposed?
    requires new_.Keys == old_.Keys && forall p | p in old_ :: new_[p].proposer == old_[p].proposer
    ensures OpenedOnce(new_, counter, all, k)
  {
    assert forall p: nat, i: nat | OpenedIn(events, k, p, i) :: i < |events|;
    hide OpenedIn;
    hide FactoryControl.Opens;
    hide FactoryControl.Closed;
    forall p | p in new_
      ensures exists i: nat :: OpenedIn(all, k, p, i)
    {
      var i: nat :| OpenedIn(events, k, p, i);
      assert OpenedIn(all, k, p, i);
    }
  }

  lemma NewOpening(
    old_: map<nat, F.Proposal>, counter: nat, events: seq<Event>, all: seq<Event>,
    k: FactoryControl.Kind, a: FactoryControl.Act)
    requires OpenedOnce(old_, counter, events, k) && Adds(events, all, k, FactoryControl.Proposed(a))
    requires a.proposal == counter + 1
    ensures OpenedOnce(old_[a.proposal := F.Proposal(a.admin, false)], counter + 1, all, k)
  {
    var new_ := old_[a.proposal := F.Proposal(a.admin, false)];
    assert forall p: nat, i: nat | OpenedIn(events, k, p, i) :: i < |events|;
    hide OpenedIn;
    hide FactoryControl.Opens;
    hide FactoryControl.Closed;
    assert OpenedIn(all, k, a.proposal, |events|);
    forall p | p in new_
      ensures exists i: nat :: OpenedIn(all, k, p, i)
    {
      if p != a.proposal {
        var i: nat :| OpenedIn(events, k, p, i);
        assert OpenedIn(all, k, p, i);
      }
    }
  }

  lemma NotYetConfirmed(
    old_: map<nat, F.Proposal>, counter: nat, events: seq<Event>, all: seq<Event>,
    k: FactoryControl.Kind, a: FactoryControl.Act)
    requires OpenedOnce(old_, counter, events, k) && ClosedTold(old_, events, k)
    requires Adds(events, all, k, FactoryControl.Proposed(a)) && a.proposal == counter + 1
    ensures ClosedTold(old_[a.proposal := F.Proposal(a.admin, false)], all, k)
  {
    assert a.proposal !in old_;
    hide OpenedOnce;
    hide OpenedIn;
    hide FactoryControl.Opens;
    hide FactoryControl.Closed;
  }

  lemma OpenedLater(
    f: F.Factory, events: seq<Event>, o: F.Outcome, k: FactoryControl.Kind, change: FactoryControl.Change, p: nat, i: nat)
    requires FactoryControl.Changes(f, o, k, change)
    ensures OpenedIn(events + o.events, k, p, i) <==>
      OpenedIn(events, k, p, i) || (change.Proposed? && p == change.act.proposal && i == |events|)
  {
    hide FactoryControl.Slot;
    hide FactoryControl.Proposals;
    hide FactoryControl.Counter;
    hide FactoryControl.Opens;
    hide FactoryControl.Confirms;
    if i < |events| {
      assert (events + o.events)[i] == events[i];
    } else if i < |events + o.events| {
      assert (events + o.events)[i] == o.events[i - |events|];
    }
  }

  lemma {:induction false} RunAccounts(txs: seq<F.Tx>, k: FactoryControl.Kind)
    ensures FactoryLogs.Counted(F.After(F.Empty(), txs))
    ensures Accounts(F.After(F.Empty(), txs), F.Emitted(F.Empty(), txs), k)
  {
    hide F.Exec;
    hide FactoryLogs.Counted;
    FactoryControl.RunBacked(txs, k);
    if txs != [] {
      RunAccounts(Front(txs), k);
      hide Accounts;
      var f, tx := F.After(F.Empty(), Front(txs)), Last(txs);
      FactoryControl.EveryCallChanges(f, tx, k);
      AccountsStep(f, F.Emitted(F.Empty(), Front(txs)), F.Exec(f, tx), k, FactoryControl.ChangeOf(f, tx, k));
    }
  }

  /** A transaction of this wallet executed the proposal, which was open before. */
  ghost predicate ExecutedBy(txs: seq<F.Tx>, k: FactoryControl.Kind, p: nat, who: Wallet) {
    exists n: nat :: ExecutedAt(txs, k, p, who, n)
  }

  ghost predicate ExecutedAt(txs: seq<F.Tx>, k: FactoryControl.Kind, p: nat, who: Wallet, n: nat) {
    && n < |txs| && txs[n].sender == who
    && var a, b := FactoryControl.Proposals(F.After(F.Empty(), txs[..n]), k),
                   FactoryControl.Proposals(F.After(F.Empty(), txs[..n + 1]), k);
       p in a && !a[p].executed && p in b && b[p].executed
  }

  lemma {:induction false} ConfirmerSent(txs: seq<F.Tx>, k: FactoryControl.Kind, j: nat)
    requires j < |F.Emitted(F.Empty(), txs)| && FactoryControl.Confirms(F.Emitted(F.Empty(), txs)[j], k).Some?
    ensures var a := FactoryControl.Confirms(F.Emitted(F.Empty(), txs)[j], k).value;
      ExecutedBy(txs, k, a.proposal, a.admin)
  {
    hide F.Exec;
    hide FactoryControl.Proposals;
    hide FactoryControl.Confirms;
    var n := |txs| - 1;
    var front, tx := Front(txs), Last(txs);
    var told, f := F.Emitted(F.Empty(), front), F.After(F.Empty(), front);
    assert txs[..n] == front && txs[..n + 1] == txs;
    if j < |told| {
      ConfirmerSent(front, k, j);
      var a := FactoryControl.Confirms(told[j], k).value;
      var i: nat :| ExecutedAt(front, k, a.proposal, a.admin, i);
      assert front[..i] == txs[..i] && front[..i + 1] == txs[..i + 1];
      assert ExecutedAt(txs, k, a.proposal, a.admin, i);
    } else {
      FactoryControl.RunBacked(front, k);
      FactoryControl.EveryCallChanges(f, tx, k);
      assert F.Emitted(F.Empty(), txs)[j] == F.Exec(f, tx).events[j - |told|];
      BlockConfirmer(f, tx, k, j - |told|);
      var a := FactoryControl.Confirms(F.Emitted(F.Empty(), txs)[j], k).value;
      assert ExecutedAt(txs, k, a.proposal, a.admin, n);
    }
  }

  lemma BlockConfirmer(f: F.Factory, tx: F.Tx, k: FactoryControl.Kind, j: nat)
    requires FactoryControl.Changes(f, F.Exec(f, tx), k, FactoryControl.ChangeOf(f, tx, k))
    requires j < |F.Exec(f, tx).events| && FactoryControl.Confirms(F.Exec(f, tx).events[j], k).Some?
    ensures var a := FactoryControl.Confirms(F.Exec(f, tx).events[j], k).value;
      var r, t := FactoryControl.Proposals(f, k), FactoryControl.Proposals(F.Exec(f, tx).factory, k);
      && a.admin == tx.sender && a.proposal in r && !r[a.proposal].executed
      && a.proposal in t && t[a.proposal].executed
  {
    hide F.Exec;
    hide FactoryControl.Slot;
    hide FactoryControl.Proposals;
    hide FactoryControl.Counter;
    hide FactoryControl.Confirms;
    assert FactoryControl.ChangeOf(f, tx, k).Confirmed?;
  }

  // ---- The mirror ---------------------------------------------------------------------

  /** For every run of the contract whose events the logs carry: a proposal about a campaign
      or milestone that the tables knew when it was opened has an entry for that row, by the
      contract's proposer, executed exactly if the contract's is, and then confirmed by
      whoever sent the transaction that executed it. */
  lemma RegistersMirror(txs: seq<F.Tx>, db: Db, logs: seq<Log>, k: FactoryControl.Kind, p: nat, i: nat)
    requires FactoryLogs.Carries(logs, F.Emitted(F.Empty(), txs))
    requires p !in Register(db, k) && OpensAt(db, logs, k, p, i)
    ensures p in FactoryControl.Proposals(F.After(F.Empty(), txs), k) && p in Register(Fold(db, logs), k)
    ensures var held, r := FactoryControl.Proposals(F.After(F.Empty(), txs), k)[p], Register(Fold(db, logs), k)[p];
      && Noted(db, logs, k, i, r)
      && r.proposer == Lower(held.proposer) && r.executed == held.executed
      && (if held.executed then exists who :: ExecutedBy(txs, k, p, who) && r.confirmer == Some(Lower(who))
          else r.confirmer == None)
  {
    hide F.After;
    hide F.Emitted;
    hide Register;
    hide RowOf;
    hide Lower;
    hide FactoryControl.Proposals;
    hide ExecutedBy;
    RunAccounts(txs, k);
    var events := F.Emitted(F.Empty(), txs);
    assert OpenedIn(events, k, p, i);
    assert forall j: nat | OpensAt(db, logs, k, p, j) :: OpenedIn(events, k, p, j);
    EntryTold(db, logs, k, p, i);
    var r := Register(Fold(db, logs), k)[p];
    ConfirmedLater(txs, logs, k, p, i);
    if r.executed {
      var j := LastConfirmation(logs, k, p, i);
      ConfirmerSent(txs, k, j);
    }
  }

  lemma LastConfirmation(logs: seq<Log>, k: FactoryControl.Kind, p: nat, i: nat) returns (j: nat)
    requires exists j: nat :: i < j && ConfirmsAt(logs, k, p, j)
    ensures i < j && ConfirmsAt(logs, k, p, j) && forall l: nat | j < l :: !ConfirmsAt(logs, k, p, l)
  {
    j :| i < j && ConfirmsAt(logs, k, p, j);
    while exists l: nat :: j < l && ConfirmsAt(logs, k, p, l)
      invariant i < j && ConfirmsAt(logs, k, p, j)
      decreases |logs| - j
    {
      var l: nat :| j < l && ConfirmsAt(logs, k, p, l);
      j := l;
    }
  }

  lemma OpenedWhere(events: seq<Event>, k: FactoryControl.Kind, act: FactoryControl.Act) returns (i: nat)
    requires FactoryControl.Opened(events, k, act)
    ensures i < |events| && FactoryControl.Opens(events[i], k) == Some(act)
  {
    i :| i < |events| && FactoryControl.Opens(events[i], k) == Some(act);
  }

  /** A proposal is confirmed in the log only after it was opened there. */
  lemma ConfirmedLater(txs: seq<F.Tx>, logs: seq<Log>, k: FactoryControl.Kind, p: nat, i: nat)
    requires FactoryLogs.Carries(logs, F.Emitted(F.Empty(), txs)) && OpenedIn(F.Emitted(F.Empty(), txs), k, p, i)
    ensures FactoryControl.Closed(F.Emitted(F.Empty(), txs), k, p) <==> exists j: nat :: i < j && ConfirmsAt(logs, k, p, j)
  {
    hide F.Emitted;
    var events := F.Emitted(F.Empty(), txs);
    if FactoryControl.Closed(events, k, p) {
      var j: nat :| j < |events| && FactoryControl.Confirms(events[j], k).Some?
        && FactoryControl.Confirms(events[j], k).value.proposal == p;
      assert ConfirmsAt(logs, k, p, j);
      FactoryControl.LogShowsTwoAdmins(txs, j, k);
      var a := FactoryControl.Confirms(events[j], k).value;
      var who :| FactoryControl.Opened(events[..j], k, FactoryControl.Act(p, a.subject, who));
      var l := OpenedWhere(events[..j], k, FactoryControl.Act(p, a.subject, who));
      assert OpenedIn(events, k, p, l);
      RunAccounts(txs, k);
      assert l == i;
    }
    if exists j: nat :: i < j && ConfirmsAt(logs, k, p, j) {
      var j: nat :| i < j && ConfirmsAt(logs, k, p, j);
      assert FactoryControl.Confirms(events[j], k) == FactoryControl.Confirms(logs[j].event, k);
    }
  }
}
