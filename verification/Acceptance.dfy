/** Exactly when a governance request succeeds, told by the live proposal and the stored
    status, and what it then leaves. */
module Acceptance {
  import opened Common
  import opened Governance
  import Deployment
  import Lifecycle

  /** A refused request changes nothing. */
  lemma RefusedChangesNothing(s: State, request: Request)
    ensures Step(s, request).error.Some? ==> Step(s, request).state == s
  {
    hide Deployment.Bind;
  }

  /** What a refusal says: nothing there, already executed or not waiting, not by this
      wallet, or an on-chain id that is taken. */
  lemma Refusals(s: State, request: Request)
    requires Step(s, request).error.Some?
    ensures var e := Step(s, request).error.value;
      match request
      case ProposeRole(u, _, w) =>
        e == if u !in s.users then NotFound else if SameWallet(s.users[u].wallet, w) then Forbidden else BadRequest
      case ConfirmRole(id, w) =>
        (id !in s.roles ==> e == NotFound)
        && (id in s.roles && s.roles[id].target in s.users ==> e == if s.roles[id].executed then BadRequest else Forbidden)
      case CancelRole(id, _) =>
        e == if id !in s.roles then NotFound else if s.roles[id].executed then BadRequest else Forbidden
      case ProposeApproval(c, _) => e == if c !in s.campaigns then NotFound else BadRequest
      case ConfirmApproval(c, _, _, _, w) =>
        e == if c !in s.campaigns then NotFound
             else if Live(s, ApprovalOf(c)) == None then BadRequest
             else if SameWallet(Live(s, ApprovalOf(c)).value.proposer, w) then Forbidden else Conflict
      case CancelApproval(c, _) =>
        e == if c !in s.approvals then NotFound else if Live(s, ApprovalOf(c)) == None then BadRequest else Forbidden
      case RequestChanges(c) => e == if c !in s.campaigns then NotFound else BadRequest
      case Resubmit(c, _) => e == if c !in s.campaigns then NotFound else Forbidden
      case ApproveDirectly(c, _) => e == if c !in s.campaigns then NotFound else Conflict
      case Reject(c) => c !in s.campaigns && e == NotFound
      case Login(u, _) => u !in s.users && e == BadRequest
      case IndexCreation(_, _) => false
      case IndexUpdate(_, _) => false
  {
    hide Deployment.Bind;
  }

  // ---- Role changes -------------------------------------------------------------------

  lemma Pending(s: State, u: RowId)
    requires Inv(s)
    ensures Live(s, RoleOf(u)).Some? <==> exists id :: PendingFor(s, id, u)
    ensures forall id | PendingFor(s, id, u) ::
      Live(s, RoleOf(u)) == Some(Offer(s.roles[id].proposer, Some(s.roles[id].role)))
  {
    if id :| PendingFor(s, id, u) {
      LiveRole(s, id, u);
      forall other | PendingFor(s, other, u)
        ensures Live(s, RoleOf(u)) == Some(Offer(s.roles[other].proposer, Some(s.roles[other].role)))
      {
        LiveRole(s, other, u);
      }
    } else {
      NotLive(s, u);
    }
  }

  /** A role change is proposed by somebody else, while none is open for the user. */
  lemma ProposeRoleExactly(s: State, u: RowId, role: Role, w: Wallet)
    requires Inv(s)
    ensures var reply := Step(s, ProposeRole(u, role, w));
      && (reply.error.None? <==>
            u in s.users && !SameWallet(s.users[u].wallet, w) && Live(s, RoleOf(u)) == None)
      && (reply.error.None? ==>
            && Live(reply.state, RoleOf(u)) == Some(Offer(w, Some(role)))
            && reply.state.users == s.users && reply.state.campaigns == s.campaigns)
  {
    Pending(s, u);
    EveryRequestFollows(s, ProposeRole(u, role, w), RoleOf(u));
    hide Inv;
    hide Live;
  }

  /** It is confirmed by anybody but its proposer, and then the user has the offered role,
      nothing else changes, and no change is open any more. */
  lemma ConfirmRoleExactly(s: State, id: nat, u: RowId, w: Wallet)
    requires Inv(s) && PendingFor(s, id, u)
    ensures Live(s, RoleOf(u)).Some? && Live(s, RoleOf(u)).value.role.Some? && u in s.users
    ensures var offer, reply := Live(s, RoleOf(u)).value, Step(s, ConfirmRole(id, w));
      && (reply.error.None? <==> !SameWallet(offer.proposer, w))
      && (reply.error.None? ==>
            && reply.state.users == s.users[u := Account(s.users[u].wallet, offer.role.value)]
            && reply.state.roles == s.roles[id := s.roles[id].(executed := true, confirmer := Some(w))]
            && Live(reply.state, RoleOf(u)) == None && reply.state.campaigns == s.campaigns)
  {
    Pending(s, u);
    EveryRequestFollows(s, ConfirmRole(id, w), RoleOf(u));
    hide Live;
  }

  /** And it is withdrawn by its proposer only. */
  lemma CancelRoleExactly(s: State, id: nat, u: RowId, w: Wallet)
    requires Inv(s) && PendingFor(s, id, u)
    ensures Live(s, RoleOf(u)).Some?
    ensures var offer, reply := Live(s, RoleOf(u)).value, Step(s, CancelRole(id, w));
      && (reply.error.None? <==> SameWallet(offer.proposer, w))
      && (reply.error.None? ==>
            reply.state.users == s.users && Live(reply.state, RoleOf(u)) == None && reply.state.campaigns == s.campaigns)
  {
    Pending(s, u);
    EveryRequestFollows(s, CancelRole(id, w), RoleOf(u));
    hide Live;
  }

  /** What is not open is neither confirmed nor withdrawn. */
  lemma OnlyOpenRoles(s: State, id: nat, w: Wallet)
    requires forall u :: !PendingFor(s, id, u)
    ensures Step(s, ConfirmRole(id, w)).error.Some? && Step(s, CancelRole(id, w)).error.Some?
  {
    if id in s.roles {
      assert !PendingFor(s, id, s.roles[id].target);
    }
  }

  // ---- Approvals ----------------------------------------------------------------------

  /** An approval is proposed for a campaign that waits and has none open. */
  lemma ProposeApprovalExactly(s: State, c: RowId, w: Wallet)
    ensures var reply := Step(s, ProposeApproval(c, w));
      && (reply.error.None? <==>
            c in s.campaigns && s.campaigns[c].status == Lifecycle.Pending && Live(s, ApprovalOf(c)) == None)
      && (reply.error.None? ==>
            && Live(reply.state, ApprovalOf(c)) == Some(Offer(w, None))
            && reply.state.users == s.users && reply.state.campaigns == s.campaigns)
  {
  }

  /** It is confirmed by anybody but its proposer, unless the on-chain id of the campaign or
      of a milestone is taken; then the campaign is live under that id and its milestones
      are bound in order. */
  lemma ConfirmApprovalExactly(
    s: State, c: RowId, onChainId: nat, ids: seq<nat>, rows: seq<RowId>, w: Wallet)
    requires c in s.campaigns && Deployment.Listing(s.milestones, c, rows)
    ensures var reply := Step(s, ConfirmApproval(c, onChainId, ids, rows, w));
      && (reply.error.None? <==>
            && Live(s, ApprovalOf(c)).Some? && !SameWallet(Live(s, ApprovalOf(c)).value.proposer, w)
            && (forall d | d in s.campaigns && d != c :: s.campaigns[d].onChainId != Some(onChainId))
            && Deployment.IdsFree(s.milestones, rows, ids, |rows|))
      && (reply.error.None? ==>
            && reply.state.campaigns
               == s.campaigns[c := Campaign(s.campaigns[c].creator, Lifecycle.Active, true, Some(onChainId))]
            && Deployment.BoundTo(reply.state.milestones, s.milestones, rows, ids, |rows|)
            && Live(reply.state, ApprovalOf(c)) == None && reply.state.users == s.users)
  {
    hide Deployment.Bind;
    hide Deployment.BoundTo;
    hide Deployment.IdsFree;
    Deployment.BindExactly(s.milestones, rows, ids, |rows|);
    hide Deployment.Listing;
    if forall d | d in s.campaigns && d != c :: s.campaigns[d].onChainId != Some(onChainId) {
      assert !IdTaken(s.campaigns, c, onChainId);
    }
  }

  lemma CancelApprovalExactly(s: State, c: RowId, w: Wallet)
    ensures var reply := Step(s, CancelApproval(c, w));
      && (reply.error.None? <==>
            Live(s, ApprovalOf(c)).Some? && SameWallet(Live(s, ApprovalOf(c)).value.proposer, w))
      && (reply.error.None? ==>
            Live(reply.state, ApprovalOf(c)) == None && reply.state.users == s.users && reply.state.campaigns == s.campaigns)
  {
  }

  // ---- Single steps -------------------------------------------------------------------

  /** Only this campaign's row differs, and there only the status. */
  ghost predicate OnlyStatus(s: State, t: State, c: RowId, status: Lifecycle.CampaignStatus)
    requires c in s.campaigns
  {
    t == s.(campaigns := s.campaigns[c := s.campaigns[c].(status := status)])
  }

  /** A waiting campaign may be sent back, and comes back by its creator's hand only; a
      rejection and a direct approval look at no status. */
  lemma ReviewExactly(s: State, c: RowId, caller: RowId, onChainId: nat)
    ensures var reply := Step(s, RequestChanges(c));
      && (reply.error.None? <==> c in s.campaigns && s.campaigns[c].status == Lifecycle.Pending)
      && (reply.error.None? ==> OnlyStatus(s, reply.state, c, Lifecycle.ChangesRequested))
    ensures var reply := Step(s, Resubmit(c, caller));
      && (reply.error.None? <==>
            && c in s.campaigns && s.campaigns[c].creator == caller
            && s.campaigns[c].status == Lifecycle.ChangesRequested)
      && (reply.error.None? ==> OnlyStatus(s, reply.state, c, Lifecycle.Pending))
    ensures var reply := Step(s, Reject(c));
      && (reply.error.None? <==> c in s.campaigns)
      && (reply.error.None? ==> OnlyStatus(s, reply.state, c, Lifecycle.Failed))
    ensures var reply := Step(s, ApproveDirectly(c, onChainId));
      && (reply.error.None? <==>
            && c in s.campaigns
            && forall d | d in s.campaigns && d != c :: s.campaigns[d].onChainId != Some(onChainId))
      && (reply.error.None? ==>
            reply.state == s.(campaigns :=
              s.campaigns[c := Campaign(s.campaigns[c].creator, Lifecycle.Active, true, Some(onChainId))]))
  {
    if forall d | d in s.campaigns && d != c :: s.campaigns[d].onChainId != Some(onChainId) {
      assert !IdTaken(s.campaigns, c, onChainId);
    }
  }

  /** A login makes an administrator of the contract an admin, and nobody anything less. */
  lemma LoginExactly(s: State, u: RowId, onChainAdmin: bool)
    ensures var reply := Step(s, Login(u, onChainAdmin));
      && (reply.error.None? <==> u in s.users)
      && (reply.error.None? ==>
            && reply.state.users.Keys == s.users.Keys
            && reply.state.users[u] == Account(s.users[u].wallet, if onChainAdmin then Admin else s.users[u].role)
            && (forall v | v in s.users && v != u :: reply.state.users[v] == s.users[v])
            && reply.state.campaigns == s.campaigns && reply.state.roles == s.roles)
  {
  }

  // ---- The indexer's writes -----------------------------------------------------------

  /** An indexed creation links a row that is not linked, under an id that no row has. */
  lemma IndexCreationExactly(s: State, c: RowId, onChainId: nat)
    ensures var t := Step(s, IndexCreation(c, onChainId)).state;
      if c in s.campaigns && s.campaigns[c].onChainId == None
         && forall d | d in s.campaigns :: s.campaigns[d].onChainId != Some(onChainId)
      then
        var a := s.campaigns[c];
        t == s.(campaigns := s.campaigns[c := Campaign(a.creator, a.status, a.approved, Some(onChainId))])
      else t == s
  {
  }

  /** An indexed update writes the status and the approval of the row under its id as the
      indexer's table does, and no other row. */
  lemma IndexUpdateExactly(s: State, onChainId: nat, op: Lifecycle.LifeOp, d: RowId, lives: Lifecycle.Table)
    requires d in s.campaigns && d in lives
    requires lives[d].status == s.campaigns[d].status && lives[d].approved == s.campaigns[d].approved
    ensures var t, a := Step(s, IndexUpdate(onChainId, op)).state, s.campaigns[d];
      && t == s.(campaigns := t.campaigns) && t.campaigns.Keys == s.campaigns.Keys
      && var b, life := t.campaigns[d], Lifecycle.Touch(lives, Lifecycle.Update(d, op))[d];
         if a.onChainId == Some(onChainId) then b == Campaign(a.creator, life.status, life.approved, a.onChainId) else b == a
  {
  }
}
