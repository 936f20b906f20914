/** The admin service as it runs: stored users, campaigns, proposals and milestones, each
    request proved against its step of the governance machine. */
module AdminService {
  import opened Common
  import opened Governance
  import Deployment
  import Lifecycle
  import Records
  import Sequencing
  import Stages

  class Service {
    var users: map<RowId, Account>
    var roles: map<nat, RoleProposal>
    var issued: nat
    var campaigns: map<RowId, Campaign>
    var approvals: map<RowId, Approval>
    var milestones: Deployment.Milestones

    ghost function Tables(): State
      reads this
    {
      State(users, roles, issued, campaigns, approvals, milestones)
    }

    constructor (users: map<RowId, Account>, campaigns: map<RowId, Campaign>, milestones: Deployment.Milestones)
      ensures Tables() == State(users, map[], 0, campaigns, map[], milestones) && Inv(Tables())
    {
      this.users, this.campaigns, this.milestones := users, campaigns, milestones;
      this.roles, this.issued, this.approvals := map[], 0, map[];
    }

    // ---- Role changes -----------------------------------------------------------------

    method ProposeRoleChange(target: RowId, role: Role, wallet: Wallet) returns (error: Option<Error>)
      modifies `roles, `issued
      ensures Reply(Tables(), error) == Step(old(Tables()), ProposeRole(target, role, wallet))
    {
      if target !in users { return Some(NotFound); }
      if SameWallet(users[target].wallet, wallet) { return Some(Forbidden); }
      var existing := exists id | id in roles :: roles[id].target == target && !roles[id].executed;
      assert existing <==> exists id | id in roles :: PendingFor(Tables(), id, target) by {
        if id :| id in roles && roles[id].target == target && !roles[id].executed {
          assert PendingFor(Tables(), id, target);
        }
      }
      if existing { return Some(BadRequest); }
      roles := roles[issued := RoleProposal(target, role, wallet, None, false)];
      issued := issued + 1;
      return None;
    }

    method ConfirmRoleChange(id: nat, wallet: Wallet) returns (error: Option<Error>)
      modifies `roles, `users
      ensures Reply(Tables(), error) == Step(old(Tables()), ConfirmRole(id, wallet))
    {
      if id !in roles { return Some(NotFound); }
      var p := roles[id];
      if p.executed { return Some(BadRequest); }
      if SameWallet(p.proposer, wallet) { return Some(Forbidden); }
      if p.target !in users { return Some(NotFound); }
      roles := roles[id := p.(executed := true, confirmer := Some(wallet))];
      users := users[p.target := users[p.target].(role := p.role)];
      return None;
    }

    method CancelRoleProposal(id: nat, wallet: Wallet) returns (error: Option<Error>)
      modifies `roles
      ensures Reply(Tables(), error) == Step(old(Tables()), CancelRole(id, wallet))
    {
      if id !in roles { return Some(NotFound); }
      if roles[id].executed { return Some(BadRequest); }
      if !SameWallet(roles[id].proposer, wallet) { return Some(Forbidden); }
      roles := roles - {id};
      return None;
    }

    // ---- Campaign approvals -----------------------------------------------------------

    /** An executed approval is deleted to make room for the fresh one. */
    method ProposeApproval(c: RowId, wallet: Wallet) returns (error: Option<Error>)
      modifies `approvals
      ensures Reply(Tables(), error) == Step(old(Tables()), Governance.ProposeApproval(c, wallet))
    {
      if c !in campaigns { return Some(NotFound); }
      if campaigns[c].status != Lifecycle.Pending { return Some(BadRequest); }
      if c in approvals && !approvals[c].executed { return Some(BadRequest); }
      if c in approvals { approvals := approvals - {c}; }
      approvals := approvals[c := Approval(wallet, false)];
      return None;
    }

    /** Binds the listed rows to on-chain ids one after the other; stops at a duplicate id. */
    method BindRows(rows: seq<RowId>, ids: seq<nat>) returns (bound: Option<Deployment.Milestones>)
      ensures bound == Deployment.Bind(milestones, rows, ids, |rows|)
    {
      var t := milestones;
      for i := 0 to |rows|
        invariant Deployment.Bind(milestones, rows, ids, i) == Some(t)
      {
        var r, id := rows[i], Deployment.IdAt(ids, i);
        if r !in t || (id.Some? && Deployment.Taken(t, r, id.value)) {
          FailureStays(milestones, rows, ids, i + 1, |rows|);
          return None;
        }
        t := t[r := t[r].(onChainId := id, status := Deployment.BoundStatus(i))];
      }
      return Some(t);
    }

    method ConfirmApproval(c: RowId, onChainId: nat, ids: seq<nat>, rows: seq<RowId>, wallet: Wallet)
      returns (error: Option<Error>)
      modifies `campaigns, `approvals, `milestones
      ensures Reply(Tables(), error) == Step(old(Tables()), Governance.ConfirmApproval(c, onChainId, ids, rows, wallet))
    {
      hide Deployment.Bind;
      if c !in campaigns { return Some(NotFound); }
      if c !in approvals || approvals[c].executed { return Some(BadRequest); }
      if SameWallet(approvals[c].proposer, wallet) { return Some(Forbidden); }
      if IdTaken(campaigns, c, onChainId) { return Some(Conflict); }
      var bound := BindRows(rows, ids);
      if bound.None? { return Some(Conflict); }
      campaigns := campaigns[c := Activate(campaigns[c], onChainId)];
      approvals := approvals[c := approvals[c].(executed := true)];
      milestones := bound.value;
      return None;
    }

    method CancelApproval(c: RowId, wallet: Wallet) returns (error: Option<Error>)
      modifies `approvals
      ensures Reply(Tables(), error) == Step(old(Tables()), Governance.CancelApproval(c, wallet))
    {
      if c !in approvals { return Some(NotFound); }
      if approvals[c].executed { return Some(BadRequest); }
      if !SameWallet(approvals[c].proposer, wallet) { return Some(Forbidden); }
      approvals := approvals - {c};
      return None;
    }

    method RequestChanges(c: RowId) returns (error: Option<Error>)
      modifies `campaigns
      ensures Reply(Tables(), error) == Step(old(Tables()), Governance.RequestChanges(c))
    {
      if c !in campaigns { return Some(NotFound); }
      if campaigns[c].status != Lifecycle.Pending { return Some(BadRequest); }
      campaigns := campaigns[c := campaigns[c].(status := Lifecycle.ChangesRequested)];
      return None;
    }

    /** The creator's resubmission, in the campaigns service. */
    method ResubmitCampaign(c: RowId, caller: RowId) returns (error: Option<Error>)
      modifies `campaigns
      ensures Reply(Tables(), error) == Step(old(Tables()), Resubmit(c, caller))
    {
      if c !in campaigns { return Some(NotFound); }
      if campaigns[c].creator != caller { return Some(Forbidden); }
      if campaigns[c].status != Lifecycle.ChangesRequested { return Some(Forbidden); }
      campaigns := campaigns[c := campaigns[c].(status := Lifecycle.Pending)];
      return None;
    }

    // ---- Milestones -------------------------------------------------------------------

    /** Whether a release of this milestone may be proposed, and under which on-chain id. */
    method ProposeReleaseFunds(m: RowId, releases: Records.Register) returns (answer: Result<nat, Error>)
      ensures answer.Ok? <==>
        && m in milestones && milestones[m].status == Stages.Approved && milestones[m].onChainId.Some?
        && forall p | p in releases && releases[p].subject == m :: releases[p].executed
      ensures answer.Ok? ==> milestones[m].onChainId == Some(answer.value)
    {
      if m !in milestones { return Err(NotFound); }
      if milestones[m].status != Stages.Approved { return Err(BadRequest); }
      if milestones[m].onChainId.None? { return Err(BadRequest); }
      if exists p | p in releases :: releases[p].subject == m && !releases[p].executed { return Err(BadRequest); }
      return Ok(milestones[m].onChainId.value);
    }

    /** The first milestone in order that is not completed. */
    method CurrentMilestone(rows: seq<RowId>, board: Stages.Board) returns (current: Option<RowId>)
      ensures current == Sequencing.Current(rows, board)
    {
      current := None;
      for i := 0 to |rows|
        invariant Sequencing.Current(rows, board) == Sequencing.Current(rows[i..], board)
      {
        assert rows[i..][1..] == rows[i + 1..];
        if rows[i] in board && board[rows[i]].status != Stages.Completed {
          return Some(rows[i]);
        }
      }
    }

    /** The oversight list: of every active or funded campaign its current milestone, and
        of no other campaign anything. `ids` lists the campaigns without repetition. */
    method GetMilestones(ids: seq<RowId>, plan: map<RowId, seq<RowId>>, board: Stages.Board)
      returns (list: seq<Current>)
      requires forall i | 0 <= i < |ids| :: ids[i] in campaigns && ids[i] in plan
      requires forall i, j | 0 <= i < j < |ids| :: ids[i] != ids[j]
      ensures forall c, m :: Current(c, m) in list <==>
        c in ids && Sequencing.Shown(campaigns[c].status, plan[c], board) == Some(m)
      ensures forall i, j | 0 <= i < j < |list| :: list[i].campaign != list[j].campaign
    {
      list := [];
      for n := 0 to |ids|
        invariant forall c, m :: Current(c, m) in list <==>
          c in ids[..n] && Sequencing.Shown(campaigns[c].status, plan[c], board) == Some(m)
        invariant forall i, j | 0 <= i < j < |list| :: list[i].campaign != list[j].campaign
        invariant forall i | 0 <= i < |list| :: list[i].campaign in ids[..n]
      {
        var c := ids[n];
        assert ids[..n + 1] == ids[..n] + [c];
        if campaigns[c].status == Lifecycle.Active || campaigns[c].status == Lifecycle.Funded {
          var current := CurrentMilestone(plan[c], board);
          if current.Some? {
            list := list + [Current(c, current.value)];
          }
        }
      }
      assert ids[..|ids|] == ids;
    }
  }

  /** One entry of the oversight list. */
  datatype Current = Current(campaign: RowId, milestone: RowId)

  lemma {:induction false} FailureStays(
    ms: Deployment.Milestones, rows: seq<RowId>, ids: seq<nat>, i: nat, n: nat)
    requires i <= n <= |rows| && Deployment.Bind(ms, rows, ids, i) == None
    ensures Deployment.Bind(ms, rows, ids, n) == None
  {
    if i < n {
      FailureStays(ms, rows, ids, i, n - 1);
    }
  }

  // ---- Votes in the oversight list ----------------------------------------------------

  /** One row of the vote query, which groups ballots by milestone and choice. */
  datatype Group = Group(milestone: RowId, choice: bool, count: nat)

  datatype Tally = Tally(votesFor: nat, votesAgainst: nat)

  predicate Cast(box: Records.BallotBox, m: RowId, choice: bool, k: (Wallet, RowId)) {
    k in box && k.1 == m && box[k].choice == choice
  }

  /** How many ballots a milestone has for a choice. */
  function Ballots(box: Records.BallotBox, m: RowId, choice: bool): nat {
    |set k | k in box && Cast(box, m, choice, k)|
  }

  /** `groups` is an answer to the vote query: one row for each milestone and choice that
      has ballots, and none twice. */
  ghost predicate Grouped(box: Records.BallotBox, ids: set<RowId>, groups: seq<Group>) {
    && (forall i | 0 <= i < |groups| ::
          groups[i].milestone in ids && groups[i].count == Ballots(box, groups[i].milestone, groups[i].choice))
    && (forall i, j | 0 <= i < j < |groups| ::
          groups[i].milestone != groups[j].milestone || groups[i].choice != groups[j].choice)
    && (forall m, choice | m in ids && Ballots(box, m, choice) > 0 ::
          exists i | 0 <= i < |groups| :: groups[i].milestone == m && groups[i].choice == choice)
  }

  predicate Listed(groups: seq<Group>, n: nat, m: RowId, choice: bool)
    requires n <= |groups|
  {
    exists i | 0 <= i < n :: groups[i].milestone == m && groups[i].choice == choice
  }

  function Entry(counts: map<RowId, Tally>, m: RowId): Tally {
    if m in counts then counts[m] else Tally(0, 0)
  }

  /** What the first n groups say about a milestone. */
  ghost function Counted(box: Records.BallotBox, groups: seq<Group>, n: nat, m: RowId): Tally
    requires n <= |groups|
  {
    Tally(if Listed(groups, n, m, true) then Ballots(box, m, true) else 0,
          if Listed(groups, n, m, false) then Ballots(box, m, false) else 0)
  }

  /** Every listed milestone shows exactly its ballots, for and against. */
  method CountVotes(box: Records.BallotBox, ids: set<RowId>, groups: seq<Group>) returns (counts: map<RowId, Tally>)
    requires Grouped(box, ids, groups)
    ensures forall m | m in ids :: Entry(counts, m) == Tally(Ballots(box, m, true), Ballots(box, m, false))
  {
    hide Ballots;
    counts := map[];
    for n := 0 to |groups|
      invariant forall m :: Entry(counts, m) == Counted(box, groups, n, m)
    {
      var g := groups[n];
      assert !Listed(groups, n, g.milestone, g.choice);
      assert forall m, choice :: Listed(groups, n + 1, m, choice) <==>
        Listed(groups, n, m, choice) || (m == g.milestone && choice == g.choice);
      var entry := Entry(counts, g.milestone);
      assert entry == Counted(box, groups, n, g.milestone);
      ghost var before := counts;
      counts := counts[g.milestone :=
        if g.choice then entry.(votesFor := entry.votesFor + g.count)
        else entry.(votesAgainst := entry.votesAgainst + g.count)];
      forall m
        ensures Entry(counts, m) == Counted(box, groups, n + 1, m)
      {
        assert Entry(before, m) == Counted(box, groups, n, m);
      }
    }
  }
}
