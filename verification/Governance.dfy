/** Two-admin governance: role changes and campaign approvals as a state machine over
    arbitrary sequences of requests. */
module Governance {
  import opened Common
  import Deployment
  import Lifecycle

  datatype Role = User | Admin

  datatype Account = Account(wallet: Wallet, role: Role)

  datatype RoleProposal = RoleProposal(
    target: RowId, role: Role, proposer: Wallet, confirmer: Option<Wallet>, executed: bool)

  datatype Approval = Approval(proposer: Wallet, executed: bool)

  datatype Campaign = Campaign(creator: RowId, status: Lifecycle.CampaignStatus, approved: bool, onChainId: Option<nat>)

  /** `issued` stands for the supply of fresh proposal keys. */
  datatype State = State(
    users: map<RowId, Account>, roles: map<nat, RoleProposal>, issued: nat,
    campaigns: map<RowId, Campaign>, approvals: map<RowId, Approval>, milestones: Deployment.Milestones)

  datatype Error = NotFound | Forbidden | BadRequest | Conflict

  /** `rows` in an approval is the database's answer to the ordered milestone query. The
      last two are the indexer's writes to campaign rows: linking a new on-chain campaign
      to the waiting row that its search found, and updating the row of a linked one. */
  datatype Request =
    | ProposeRole(target: RowId, role: Role, wallet: Wallet)
    | ConfirmRole(id: nat, wallet: Wallet)
    | CancelRole(id: nat, wallet: Wallet)
    | ProposeApproval(campaign: RowId, wallet: Wallet)
    | ConfirmApproval(campaign: RowId, onChainId: nat, ids: seq<nat>, rows: seq<RowId>, wallet: Wallet)
    | CancelApproval(campaign: RowId, wallet: Wallet)
    | RequestChanges(campaign: RowId)
    | Resubmit(campaign: RowId, caller: RowId)
    | ApproveDirectly(campaign: RowId, onChainId: nat)
    | Reject(campaign: RowId)
    | Login(caller: RowId, onChainAdmin: bool)
    | IndexCreation(campaign: RowId, onChainId: nat)
    | IndexUpdate(onChainId: nat, op: Lifecycle.LifeOp)

  datatype Reply = Reply(state: State, error: Option<Error>)

  function Fail(s: State, e: Error): Reply {
    Reply(s, Some(e))
  }

  function Done(s: State): Reply {
    Reply(s, None)
  }

  predicate PendingFor(s: State, id: nat, user: RowId) {
    id in s.roles && s.roles[id].target == user && !s.roles[id].executed
  }

  /** Another campaign holds the on-chain id. */
  predicate IdTaken(campaigns: map<RowId, Campaign>, c: RowId, id: nat) {
    exists d | d in campaigns :: d != c && campaigns[d].onChainId == Some(id)
  }

  function SetStatus(s: State, c: RowId, status: Lifecycle.CampaignStatus): State
    requires c in s.campaigns
  {
    s.(campaigns := s.campaigns[c := s.campaigns[c].(status := status)])
  }

  function Activate(campaign: Campaign, id: nat): Campaign {
    campaign.(onChainId := Some(id), approved := true, status := Lifecycle.Active)
  }

  // ---- Role changes -------------------------------------------------------------------

  function ProposeRoleChange(s: State, target: RowId, role: Role, wallet: Wallet): Reply {
    if target !in s.users then Fail(s, NotFound)
    else if SameWallet(s.users[target].wallet, wallet) then Fail(s, Forbidden)
    else if exists id | id in s.roles :: PendingFor(s, id, target) then Fail(s, BadRequest)
    else Done(s.(roles := s.roles[s.issued := RoleProposal(target, role, wallet, None, false)], issued := s.issued + 1))
  }

  function ConfirmRoleChange(s: State, id: nat, wallet: Wallet): Reply {
    if id !in s.roles then Fail(s, NotFound)
    else
      var p := s.roles[id];
      if p.executed then Fail(s, BadRequest)
      else if SameWallet(p.proposer, wallet) then Fail(s, Forbidden)
      else if p.target !in s.users then Fail(s, NotFound)
      else Done(s.(roles := s.roles[id := p.(executed := true, confirmer := Some(wallet))],
                   users := s.users[p.target := s.users[p.target].(role := p.role)]))
  }

  function CancelRoleProposal(s: State, id: nat, wallet: Wallet): Reply {
    if id !in s.roles then Fail(s, NotFound)
    else if s.roles[id].executed then Fail(s, BadRequest)
    else if !SameWallet(s.roles[id].proposer, wallet) then Fail(s, Forbidden)
    else Done(s.(roles := s.roles - {id}))
  }

  // ---- Campaign approvals -------------------------------------------------------------

  predicate ApprovalOpen(s: State, c: RowId) {
    c in s.approvals && !s.approvals[c].executed
  }

  function ProposeCampaignApproval(s: State, c: RowId, wallet: Wallet): Reply {
    if c !in s.campaigns then Fail(s, NotFound)
    else if s.campaigns[c].status != Lifecycle.Pending then Fail(s, BadRequest)
    else if ApprovalOpen(s, c) then Fail(s, BadRequest)
    else Done(s.(approvals := s.approvals[c := Approval(wallet, false)]))
  }

  /** The status of the campaign is not looked at again. */
  function ConfirmCampaignApproval(s: State, c: RowId, onChainId: nat, ids: seq<nat>, rows: seq<RowId>, wallet: Wallet): Reply {
    if c !in s.campaigns then Fail(s, NotFound)
    else if !ApprovalOpen(s, c) then Fail(s, BadRequest)
    else if SameWallet(s.approvals[c].proposer, wallet) then Fail(s, Forbidden)
    else if IdTaken(s.campaigns, c, onChainId) then Fail(s, Conflict)
    else
      match Deployment.Bind(s.milestones, rows, ids, |rows|)
      case None => Fail(s, Conflict)
      case Some(milestones) =>
        Done(s.(campaigns := s.campaigns[c := Activate(s.campaigns[c], onChainId)],
                approvals := s.approvals[c := s.approvals[c].(executed := true)],
                milestones := milestones))
  }

  function CancelCampaignApproval(s: State, c: RowId, wallet: Wallet): Reply {
    if c !in s.approvals then Fail(s, NotFound)
    else if s.approvals[c].executed then Fail(s, BadRequest)
    else if !SameWallet(s.approvals[c].proposer, wallet) then Fail(s, Forbidden)
    else Done(s.(approvals := s.approvals - {c}))
  }

  // ---- Single-admin and creator steps -------------------------------------------------

  function RequestCampaignChanges(s: State, c: RowId): Reply {
    if c !in s.campaigns then Fail(s, NotFound)
    else if s.campaigns[c].status != Lifecycle.Pending then Fail(s, BadRequest)
    else Done(SetStatus(s, c, Lifecycle.ChangesRequested))
  }

  function ResubmitCampaign(s: State, c: RowId, caller: RowId): Reply {
    if c !in s.campaigns then Fail(s, NotFound)
    else if s.campaigns[c].creator != caller then Fail(s, Forbidden)
    else if s.campaigns[c].status != Lifecycle.ChangesRequested then Fail(s, Forbidden)
    else Done(SetStatus(s, c, Lifecycle.Pending))
  }

  function ApproveCampaign(s: State, c: RowId, onChainId: nat): Reply {
    if c !in s.campaigns then Fail(s, NotFound)
    else if IdTaken(s.campaigns, c, onChainId) then Fail(s, Conflict)
    else Done(s.(campaigns := s.campaigns[c := Activate(s.campaigns[c], onChainId)]))
  }

  function RejectCampaign(s: State, c: RowId): Reply {
    if c !in s.campaigns then Fail(s, NotFound)
    else Done(SetStatus(s, c, Lifecycle.Failed))
  }

  /** A login takes the admin role over from the contract, and never takes it away. */
  function TakeRole(s: State, u: RowId, onChainAdmin: bool): Reply {
    if u !in s.users then Fail(s, BadRequest)
    else Done(s.(users := s.users[u := s.users[u].(role := if onChainAdmin then Admin else s.users[u].role)]))
  }

  /** The indexer links a campaign unless some row holds the id already. */
  function LinkCampaign(s: State, c: RowId, onChainId: nat): Reply {
    if (exists d | d in s.campaigns :: s.campaigns[d].onChainId == Some(onChainId))
       || c !in s.campaigns || s.campaigns[c].onChainId.Some?
    then Done(s)
    else Done(s.(campaigns := s.campaigns[c := s.campaigns[c].(onChainId := Some(onChainId))]))
  }

  function Touched(campaign: Campaign, op: Lifecycle.LifeOp): Campaign {
    var life := Lifecycle.Step(Lifecycle.Life(campaign.status, campaign.approved, false), op);
    campaign.(status := life.status, approved := life.approved)
  }

  /** The indexer's handlers update the row that holds the id. */
  function UpdateCampaign(s: State, onChainId: nat, op: Lifecycle.LifeOp): Reply {
    Done(s.(campaigns := map c | c in s.campaigns ::
      if s.campaigns[c].onChainId == Some(onChainId) then Touched(s.campaigns[c], op) else s.campaigns[c]))
  }

  function Step(s: State, request: Request): Reply {
    match request
    case ProposeRole(u, role, w) => ProposeRoleChange(s, u, role, w)
    case ConfirmRole(id, w) => ConfirmRoleChange(s, id, w)
    case CancelRole(id, w) => CancelRoleProposal(s, id, w)
    case ProposeApproval(c, w) => ProposeCampaignApproval(s, c, w)
    case ConfirmApproval(c, onChainId, ids, rows, w) => ConfirmCampaignApproval(s, c, onChainId, ids, rows, w)
    case CancelApproval(c, w) => CancelCampaignApproval(s, c, w)
    case RequestChanges(c) => RequestCampaignChanges(s, c)
    case Resubmit(c, caller) => ResubmitCampaign(s, c, caller)
    case ApproveDirectly(c, onChainId) => ApproveCampaign(s, c, onChainId)
    case Reject(c) => RejectCampaign(s, c)
    case Login(u, onChainAdmin) => TakeRole(s, u, onChainAdmin)
    case IndexCreation(c, onChainId) => LinkCampaign(s, c, onChainId)
    case IndexUpdate(onChainId, op) => UpdateCampaign(s, onChainId, op)
  }

  function After(s: State, requests: seq<Request>): State {
    if requests == [] then s else Step(After(s, Front(requests)), Last(requests)).state
  }

  // ---- One protocol, two subjects -----------------------------------------------------

  datatype Subject = RoleOf(user: RowId) | ApprovalOf(campaign: RowId)

  datatype Act = Propose | Confirm | Cancel

  /** A successful request of the protocol: on what, which, by whom. */
  datatype Move = Move(subject: Subject, act: Act, wallet: Wallet)

  /** A live proposal: who made it and, for roles, which role it offers. */
  datatype Offer = Offer(proposer: Wallet, role: Option<Role>)

  predicate OnePending(s: State, id: nat, other: nat) {
    (&& id in s.roles && other in s.roles && s.roles[id].target == s.roles[other].target
     && !s.roles[id].executed && !s.roles[other].executed) ==>
      id == other
  }

  /** At most one pending proposal for a user; keys are fresh; nobody proposes for himself. */
  ghost predicate Inv(s: State) {
    && (forall id, other :: OnePending(s, id, other))
    && (forall id | id in s.roles ::
          && id < s.issued && s.roles[id].target in s.users
          && !SameWallet(s.users[s.roles[id].target].wallet, s.roles[id].proposer)
          && (s.roles[id].executed ==>
                s.roles[id].confirmer.Some? && !SameWallet(s.roles[id].proposer, s.roles[id].confirmer.value)))
  }

  ghost function Live(s: State, x: Subject): Option<Offer> {
    match x
    case RoleOf(u) =>
      if id :| PendingFor(s, id, u) then Some(Offer(s.roles[id].proposer, Some(s.roles[id].role))) else None
    case ApprovalOf(c) =>
      if ApprovalOpen(s, c) then Some(Offer(s.approvals[c].proposer, None)) else None
  }

  /** What the request did in the protocol, if it succeeded and is part of it. */
  function MoveOf(s: State, request: Request): Option<Move> {
    if Step(s, request).error.Some? then None
    else
      match request
      case ProposeRole(u, _, w) => Some(Move(RoleOf(u), Propose, w))
      case ConfirmRole(id, w) => if id in s.roles then Some(Move(RoleOf(s.roles[id].target), Confirm, w)) else None
      case CancelRole(id, w) => if id in s.roles then Some(Move(RoleOf(s.roles[id].target), Cancel, w)) else None
      case ProposeApproval(c, w) => Some(Move(ApprovalOf(c), Propose, w))
      case ConfirmApproval(c, _, _, _, w) => Some(Move(ApprovalOf(c), Confirm, w))
      case CancelApproval(c, w) => Some(Move(ApprovalOf(c), Cancel, w))
      case _ => None
  }

  function OfferedRole(request: Request): Option<Role> {
    if request.ProposeRole? then Some(request.role) else None
  }

  /** What a request does to the live proposal on one subject. */
  ghost predicate Follows(s: State, request: Request, t: State, x: Subject) {
    var move := MoveOf(s, request);
    if move.None? || move.value.subject != x then Live(t, x) == Live(s, x)
    else
      match move.value.act
      case Propose => Live(s, x) == None && Live(t, x) == Some(Offer(move.value.wallet, OfferedRole(request)))
      case Confirm => Live(s, x).Some? && !SameWallet(Live(s, x).value.proposer, move.value.wallet) && Live(t, x) == None
      case Cancel => Live(s, x).Some? && SameWallet(Live(s, x).value.proposer, move.value.wallet) && Live(t, x) == None
  }

  lemma LiveRole(s: State, id: nat, user: RowId)
    requires Inv(s) && PendingFor(s, id, user)
    ensures Live(s, RoleOf(user)) == Some(Offer(s.roles[id].proposer, Some(s.roles[id].role)))
  {
    var other :| PendingFor(s, other, user)
      && Live(s, RoleOf(user)) == Some(Offer(s.roles[other].proposer, Some(s.roles[other].role)));
    assert OnePending(s, id, other);
  }

  lemma NotLive(s: State, user: RowId)
    requires forall id :: !PendingFor(s, id, user)
    ensures Live(s, RoleOf(user)) == None
  {
  }

  /** Requests that leave a user's pending proposals leave what is live for the role. */
  lemma SamePending(s: State, t: State, user: RowId)
    requires Inv(s) && Inv(t)
    requires forall id :: PendingFor(s, id, user) ==> PendingFor(t, id, user) && s.roles[id] == t.roles[id]
    requires forall id :: PendingFor(t, id, user) ==> PendingFor(s, id, user)
    ensures Live(t, RoleOf(user)) == Live(s, RoleOf(user))
  {
    if id :| PendingFor(s, id, user) {
      LiveRole(s, id, user);
      LiveRole(t, id, user);
    } else {
      NotLive(s, user);
      NotLive(t, user);
    }
  }

  // ---- Every request follows the protocol ---------------------------------------------

  lemma ProposalKeepsInv(s: State, u: RowId, role: Role, w: Wallet)
    requires Inv(s) && ProposeRoleChange(s, u, role, w).error.None?
    ensures Inv(ProposeRoleChange(s, u, role, w).state)
  {
    var t := ProposeRoleChange(s, u, role, w).state;
    assert forall id | id in s.roles :: t.roles[id] == s.roles[id];
    forall i, other
      ensures OnePending(t, i, other)
    {
      assert OnePending(s, i, other);
      assert !PendingFor(s, i, u) && !PendingFor(s, other, u);
    }
  }

  lemma ProposeRoleFollows(s: State, u: RowId, role: Role, w: Wallet, x: Subject)
    requires Inv(s)
    ensures var t := ProposeRoleChange(s, u, role, w).state; Inv(t) && Follows(s, ProposeRole(u, role, w), t, x)
  {
    var reply := ProposeRoleChange(s, u, role, w);
    var t := reply.state;
    if reply.error.None? {
      ProposalKeepsInv(s, u, role, w);
      assert forall id | id in s.roles :: t.roles[id] == s.roles[id];
      if x == RoleOf(u) {
        NotLive(s, u);
        assert PendingFor(t, s.issued, u);
        LiveRole(t, s.issued, u);
      } else if x.RoleOf? {
        SamePending(s, t, x.user);
      }
    }
  }

  lemma ConfirmRoleFollows(s: State, id: nat, w: Wallet, x: Subject)
    requires Inv(s)
    ensures var t := ConfirmRoleChange(s, id, w).state; Inv(t) && Follows(s, ConfirmRole(id, w), t, x)
  {
    var reply := ConfirmRoleChange(s, id, w);
    var t := reply.state;
    if reply.error.None? {
      var u := s.roles[id].target;
      ConfirmKeepsInv(s, id, w);
      if x == RoleOf(u) {
        LiveRole(s, id, u);
        assert forall other :: PendingFor(t, other, u) ==> OnePending(s, id, other);
        NotLive(t, u);
      } else if x.RoleOf? {
        SamePending(s, t, x.user);
      }
    }
  }

  lemma ConfirmKeepsInv(s: State, id: nat, w: Wallet)
    requires Inv(s)
    ensures Inv(ConfirmRoleChange(s, id, w).state)
  {
    var t := ConfirmRoleChange(s, id, w).state;
    forall i, other
      ensures OnePending(t, i, other)
    {
      assert OnePending(s, i, other);
    }
    assert forall u | u in s.users :: u in t.users && t.users[u].wallet == s.users[u].wallet;
  }

  lemma CancelRoleFollows(s: State, id: nat, w: Wallet, x: Subject)
    requires Inv(s)
    ensures var t := CancelRoleProposal(s, id, w).state; Inv(t) && Follows(s, CancelRole(id, w), t, x)
  {
    var reply := CancelRoleProposal(s, id, w);
    var t := reply.state;
    if reply.error.None? {
      var u := s.roles[id].target;
      CancelKeepsInv(s, id, w);
      if x == RoleOf(u) {
        LiveRole(s, id, u);
        assert forall other :: PendingFor(t, other, u) ==> OnePending(s, id, other);
        NotLive(t, u);
      } else if x.RoleOf? {
        SamePending(s, t, x.user);
      }
    }
  }

  lemma CancelKeepsInv(s: State, id: nat, w: Wallet)
    requires Inv(s)
    ensures Inv(CancelRoleProposal(s, id, w).state)
  {
    var t := CancelRoleProposal(s, id, w).state;
    forall i, other
      ensures OnePending(t, i, other)
    {
      assert OnePending(s, i, other);
    }
  }

  /** Every other request leaves the role proposals and the wallets alone. */
  lemma OtherRequestFollows(s: State, request: Request, x: Subject)
    requires Inv(s) && !request.ProposeRole? && !request.ConfirmRole? && !request.CancelRole?
    ensures var t := Step(s, request).state; Inv(t) && Follows(s, request, t, x)
  {
    hide Deployment.Bind;
    var t := Step(s, request).state;
    RolesUntouched(s, request);
    InvKept(s, t);
    if x.RoleOf? {
      SamePending(s, t, x.user);
    } else {
      OtherOnApproval(s, request, x.campaign);
      hide Step;
    }
    hide Inv;
  }

  lemma OtherOnApproval(s: State, request: Request, c: RowId)
    requires !request.ProposeRole? && !request.ConfirmRole? && !request.CancelRole?
    ensures Follows(s, request, Step(s, request).state, ApprovalOf(c))
  {
    hide Deployment.Bind;
  }

  lemma InvKept(s: State, t: State)
    requires Inv(s) && t.roles == s.roles && t.issued == s.issued && t.users.Keys == s.users.Keys
    requires forall u | u in s.users :: t.users[u].wallet == s.users[u].wallet
    ensures Inv(t)
  {
    forall i, other
      ensures OnePending(t, i, other)
    {
      assert OnePending(s, i, other);
    }
  }

  lemma RolesUntouched(s: State, request: Request)
    requires !request.ProposeRole? && !request.ConfirmRole? && !request.CancelRole?
    ensures var t := Step(s, request).state;
      && t.roles == s.roles && t.issued == s.issued && t.users.Keys == s.users.Keys
      && forall u | u in s.users :: t.users[u].wallet == s.users[u].wallet
  {
    hide Deployment.Bind;
  }

  lemma EveryRequestFollows(s: State, request: Request, x: Subject)
    requires Inv(s)
    ensures var t := Step(s, request).state; Inv(t) && Follows(s, request, t, x)
  {
    hide Inv;
    hide Follows;
    match request
    case ProposeRole(u, role, w) => ProposeRoleFollows(s, u, role, w, x);
    case ConfirmRole(id, w) => ConfirmRoleFollows(s, id, w, x);
    case CancelRole(id, w) => CancelRoleFollows(s, id, w, x);
    case _ => OtherRequestFollows(s, request, x);
  }

  // ---- Whole runs ---------------------------------------------------------------------

  /** What the i-th request of a run did in the protocol. */
  function MoveAt(s: State, requests: seq<Request>, i: nat): Option<Move>
    requires i < |requests|
  {
    MoveOf(After(s, requests[..i]), requests[i])
  }

  function Count(s: State, requests: seq<Request>, x: Subject, act: Act): nat {
    if requests == [] then 0
    else
      var move := MoveOf(After(s, Front(requests)), Last(requests));
      Count(s, Front(requests), x, act)
      + if move.Some? && move.value.subject == x && move.value.act == act then 1 else 0
  }

  ghost function Pending(s: State, x: Subject): nat {
    if Live(s, x).Some? then 1 else 0
  }

  /** Over every run: proposals made are those cancelled, those confirmed and the one
      pending, for each user and each campaign. */
  lemma {:induction false} Balance(s: State, requests: seq<Request>, x: Subject)
    requires Inv(s)
    ensures Inv(After(s, requests))
    ensures Pending(s, x) + Count(s, requests, x, Propose)
         == Count(s, requests, x, Cancel) + Count(s, requests, x, Confirm) + Pending(After(s, requests), x)
  {
    hide Inv;
    hide Live;
    hide Step;
    hide MoveOf;
    if requests != [] {
      Balance(s, Front(requests), x);
      EveryRequestFollows(After(s, Front(requests)), Last(requests), x);
    }
  }

  /** The j-th request made this offer, and nothing has happened to the subject since. */
  ghost predicate MadeAt(s: State, requests: seq<Request>, x: Subject, offer: Offer, j: nat) {
    && j < |requests|
    && MoveAt(s, requests, j) == Some(Move(x, Propose, offer.proposer))
    && OfferedRole(requests[j]) == offer.role
    && forall k | j < k < |requests| :: !About(MoveAt(s, requests, k), x)
  }

  predicate About(move: Option<Move>, x: Subject) {
    move.Some? && move.value.subject == x
  }

  lemma MoveAtFront(s: State, requests: seq<Request>)
    requires requests != []
    ensures forall i | 0 <= i < |requests| - 1 :: MoveAt(s, Front(requests), i) == MoveAt(s, requests, i)
    ensures MoveAt(s, requests, |requests| - 1) == MoveOf(After(s, Front(requests)), Last(requests))
  {
    hide After;
    hide MoveOf;
    forall i | 0 <= i < |requests| - 1
      ensures MoveAt(s, Front(requests), i) == MoveAt(s, requests, i)
    {
      assert Front(requests)[..i] == requests[..i];
    }
  }

  /** A live proposal was made by a request of the run. */
  lemma {:induction false} LiveWasProposed(s: State, requests: seq<Request>, x: Subject) returns (j: nat)
    requires Inv(s) && Live(s, x) == None && Live(After(s, requests), x).Some?
    ensures MadeAt(s, requests, x, Live(After(s, requests), x).value, j)
  {
    hide Inv;
    hide Live;
    hide Step;
    hide MoveOf;
    hide MoveAt;
    j := 0;
    if requests != [] {
      var front, n := Front(requests), |requests| - 1;
      MoveAtFront(s, requests);
      Balance(s, front, x);
      EveryRequestFollows(After(s, front), Last(requests), x);
      if About(MoveAt(s, requests, n), x) {
        j := n;
      } else {
        j := LiveWasProposed(s, front, x);
        assert front[j] == requests[j];
      }
    }
  }

  /** Every confirmation in a run ends an earlier proposal by a different wallet, the
      latest request about its subject before it. */
  lemma EveryConfirmHasPropose(s: State, requests: seq<Request>, i: nat, x: Subject, confirmer: Wallet)
    returns (j: nat, offer: Offer)
    requires Inv(s) && Live(s, x) == None
    requires i < |requests| && MoveAt(s, requests, i) == Some(Move(x, Confirm, confirmer))
    ensures j < i && MadeAt(s, requests[..i], x, offer, j) && requests[..i][j] == requests[j]
    ensures !SameWallet(offer.proposer, confirmer)
    ensures Live(After(s, requests[..i]), x) == Some(offer)
  {
    hide Inv;
    hide Live;
    hide Step;
    hide MoveOf;
    var before := requests[..i];
    Balance(s, before, x);
    EveryRequestFollows(After(s, before), requests[i], x);
    offer := Live(After(s, before), x).value;
    j := LiveWasProposed(s, before, x);
  }

  /** Nobody proposes a change of his own role. */
  lemma NeverForOneself(s: State, request: Request, user: RowId, proposer: Wallet)
    requires MoveOf(s, request) == Some(Move(RoleOf(user), Propose, proposer))
    ensures user in s.users && !SameWallet(s.users[user].wallet, proposer)
  {
  }

  // ---- Who holds which role -----------------------------------------------------------

  /** The role that a request gives to a user, if it gives one. */
  function Grant(s: State, request: Request, user: RowId): Option<Role> {
    match request
    case ConfirmRole(id, _) =>
      if Step(s, request).error.None? && id in s.roles && s.roles[id].target == user then Some(s.roles[id].role) else None
    case Login(u, onChainAdmin) => if u == user && onChainAdmin && u in s.users then Some(Admin) else None
    case _ => None
  }

  function LastGrant(s: State, requests: seq<Request>, user: RowId): Option<Role> {
    if requests == [] then None
    else
      var grant := Grant(After(s, Front(requests)), Last(requests), user);
      if grant.Some? then grant else LastGrant(s, Front(requests), user)
  }

  /** A user's role is the one granted last, by a confirmed proposal or by a login of an
      on-chain administrator, or else the initial one. */
  lemma {:induction false} RoleIsLastGrant(s: State, requests: seq<Request>, user: RowId)
    requires user in s.users
    ensures var t := After(s, requests);
      && user in t.users && t.users[user].wallet == s.users[user].wallet
      && t.users[user].role == match LastGrant(s, requests, user) case Some(role) => role case None => s.users[user].role
  {
    if requests != [] {
      RoleIsLastGrant(s, Front(requests), user);
      GrantWrites(After(s, Front(requests)), Last(requests), user);
      hide Step;
    }
  }

  lemma GrantWrites(s: State, request: Request, user: RowId)
    requires user in s.users
    ensures var t := Step(s, request).state;
      && user in t.users && t.users[user].wallet == s.users[user].wallet
      && t.users[user].role == match Grant(s, request, user) case Some(role) => role case None => s.users[user].role
  {
    hide Deployment.Bind;
  }

  /** A confirmed change grants the role that the live proposal offers. */
  lemma ConfirmGrantsOffer(s: State, request: Request, user: RowId, w: Wallet)
    requires Inv(s) && MoveOf(s, request) == Some(Move(RoleOf(user), Confirm, w))
    ensures Live(s, RoleOf(user)).Some? && Grant(s, request, user) == Live(s, RoleOf(user)).value.role
  {
    LiveRole(s, request.id, user);
  }

  predicate NoAdminLogin(requests: seq<Request>, user: RowId) {
    forall i | 0 <= i < |requests| :: requests[i] != Login(user, true)
  }

  /** Without logins of on-chain administrators, a role that differs from the initial one
      was offered by one wallet, not the user's own, and confirmed by another. */
  lemma {:induction false} ChangedRoleHadTwo(s: State, requests: seq<Request>, user: RowId)
    returns (j: nat, i: nat, offer: Offer, confirmer: Wallet)
    requires Inv(s) && user in s.users && Live(s, RoleOf(user)) == None && NoAdminLogin(requests, user)
    requires user in After(s, requests).users && After(s, requests).users[user].role != s.users[user].role
    ensures j < i < |requests|
    ensures MoveAt(s, requests, i) == Some(Move(RoleOf(user), Confirm, confirmer))
    ensures MadeAt(s, requests[..i], RoleOf(user), offer, j)
    ensures offer.role == Some(After(s, requests).users[user].role)
    ensures !SameWallet(offer.proposer, confirmer) && !SameWallet(s.users[user].wallet, offer.proposer)
  {
    hide Inv;
    hide Live;
    hide Step;
    RoleIsLastGrant(s, requests, user);
    i := LastGrantAt(s, requests, user);
    var m := After(s, requests[..i]);
    Balance(s, requests[..i], RoleOf(user));
    confirmer := requests[i].wallet;
    GrantIsConfirm(m, requests[i], user);
    ConfirmGrantsOffer(m, requests[i], user, confirmer);
    j, offer := EveryConfirmHasPropose(s, requests, i, RoleOf(user), confirmer);
    RoleIsLastGrant(s, requests[..j], user);
    assert requests[..i][..j] == requests[..j];
    NeverForOneself(After(s, requests[..j]), requests[j], user, offer.proposer);
  }

  lemma GrantIsConfirm(s: State, request: Request, user: RowId)
    requires Grant(s, request, user).Some? && !request.Login?
    ensures request.ConfirmRole? && MoveOf(s, request) == Some(Move(RoleOf(user), Confirm, request.wallet))
  {
  }

  lemma {:induction false} LastGrantAt(s: State, requests: seq<Request>, user: RowId) returns (i: nat)
    requires LastGrant(s, requests, user).Some? && NoAdminLogin(requests, user)
    ensures i < |requests| && !requests[i].Login?
    ensures Grant(After(s, requests[..i]), requests[i], user) == LastGrant(s, requests, user)
  {
    hide Step;
    hide After;
    var n := |requests| - 1;
    assert requests[..n] == Front(requests) && requests[n] == Last(requests);
    if Grant(After(s, Front(requests)), Last(requests), user).Some? {
      i := n;
    } else {
      i := LastGrantAt(s, Front(requests), user);
      assert Front(requests)[..i] == requests[..i] && Front(requests)[i] == requests[i];
    }
  }

  // ---- Which campaigns were approved --------------------------------------------------

  lemma {:induction false} SameCampaigns(s: State, requests: seq<Request>)
    ensures After(s, requests).campaigns.Keys == s.campaigns.Keys
  {
    if requests != [] {
      SameCampaigns(s, Front(requests));
      CampaignKeys(After(s, Front(requests)), Last(requests));
      hide Step;
    }
  }

  lemma CampaignKeys(s: State, request: Request)
    ensures Step(s, request).state.campaigns.Keys == s.campaigns.Keys
  {
    hide Deployment.Bind;
    hide Touched;
  }

  /** The one-admin ways to an approved row: the direct request, and the indexer handling
      the creation that a single admin sent to the contract. */
  predicate ApprovesAlone(s: State, request: Request, c: RowId)
    requires c in s.campaigns
  {
    || (request.ApproveDirectly? && request.campaign == c)
    || (request.IndexUpdate? && request.op == Lifecycle.Approve && s.campaigns[c].onChainId == Some(request.onChainId))
  }

  /** No request takes an approval back; three kinds of request give one. */
  lemma ApprovedBy(s: State, request: Request, c: RowId)
    requires c in s.campaigns
    ensures var t := Step(s, request).state;
      && c in t.campaigns
      && (s.campaigns[c].approved ==> t.campaigns[c].approved)
      && (t.campaigns[c].approved && !s.campaigns[c].approved ==>
            || ApprovesAlone(s, request, c)
            || (request.ConfirmApproval? && MoveOf(s, request) == Some(Move(ApprovalOf(c), Confirm, request.wallet))))
  {
    hide Deployment.Bind;
  }

  lemma ConfirmApproves(s: State, request: Request, c: RowId, w: Wallet)
    requires MoveOf(s, request) == Some(Move(ApprovalOf(c), Confirm, w))
    ensures request.ConfirmApproval?
    ensures c in Step(s, request).state.campaigns && Step(s, request).state.campaigns[c].approved
  {
    hide Deployment.Bind;
  }

  lemma {:induction false} ApprovedStays(s: State, requests: seq<Request>, i: nat, c: RowId)
    requires i <= |requests| && c in s.campaigns
    requires c in After(s, requests[..i]).campaigns && After(s, requests[..i]).campaigns[c].approved
    ensures c in After(s, requests).campaigns && After(s, requests).campaigns[c].approved
  {
    hide Step;
    if i == |requests| {
      assert requests[..i] == requests;
    } else {
      assert Front(requests)[..i] == requests[..i];
      ApprovedStays(s, Front(requests), i, c);
      ApprovedBy(After(s, Front(requests)), Last(requests), c);
    }
  }

  /** The i-th request is the one that approved the campaign. */
  ghost predicate ApprovesAt(s: State, requests: seq<Request>, c: RowId, i: nat) {
    && i < |requests|
    && c in After(s, requests[..i]).campaigns && !After(s, requests[..i]).campaigns[c].approved
    && c in After(s, requests[..i + 1]).campaigns && After(s, requests[..i + 1]).campaigns[c].approved
  }

  lemma {:induction false} FirstApproval(s: State, requests: seq<Request>, c: RowId) returns (i: nat)
    requires c in s.campaigns && !s.campaigns[c].approved
    requires c in After(s, requests).campaigns && After(s, requests).campaigns[c].approved
    ensures ApprovesAt(s, requests, c, i)
  {
    hide Step;
    var n := |requests| - 1;
    var front := Front(requests);
    assert requests[..n] == front && requests[..n + 1] == requests;
    SameCampaigns(s, front);
    if After(s, front).campaigns[c].approved {
      i := FirstApproval(s, front, c);
      assert front[..i] == requests[..i] && front[..i + 1] == requests[..i + 1];
    } else {
      i := n;
    }
  }

  /** Some request of the run confirmed an approval that another wallet had proposed. */
  ghost predicate HadTwo(s: State, requests: seq<Request>, c: RowId) {
    exists i: nat, j: nat, offer, confirmer :: ConfirmedAt(s, requests, c, i, j, offer, confirmer)
  }

  ghost predicate ConfirmedAt(
    s: State, requests: seq<Request>, c: RowId, i: nat, j: nat, offer: Offer, confirmer: Wallet)
  {
    && j < i < |requests| && MoveAt(s, requests, i) == Some(Move(ApprovalOf(c), Confirm, confirmer))
    && MadeAt(s, requests[..i], ApprovalOf(c), offer, j) && !SameWallet(offer.proposer, confirmer)
  }

  lemma StepAt(s: State, requests: seq<Request>, i: nat)
    requires i < |requests|
    ensures After(s, requests[..i + 1]) == Step(After(s, requests[..i]), requests[i]).state
  {
    hide Step;
    assert Front(requests[..i + 1]) == requests[..i];
  }

  /** Whoever approved a campaign: two wallets had agreed on it by then if and only if the
      approving request is a confirmation; any other one acts for a single admin. */
  lemma NewlyApproved(s: State, requests: seq<Request>, c: RowId, i: nat)
    requires Inv(s) && c in s.campaigns && !s.campaigns[c].approved && Live(s, ApprovalOf(c)) == None
    requires ApprovesAt(s, requests, c, i)
    ensures HadTwo(s, requests[..i + 1], c) <==> requests[i].ConfirmApproval?
    ensures !requests[i].ConfirmApproval? ==> ApprovesAlone(After(s, requests[..i]), requests[i], c)
  {
    hide Inv;
    hide Live;
    hide Step;
    hide MoveOf;
    hide ApprovesAlone;
    var run := requests[..i + 1];
    StepAt(s, requests, i);
    ApprovedBy(After(s, requests[..i]), requests[i], c);
    AloneIsNoConfirm(After(s, requests[..i]), requests[i], c);
    assert run[i] == requests[i] && run[..i] == requests[..i];
    if requests[i].ConfirmApproval? {
      var w := requests[i].wallet;
      var j, offer := EveryConfirmHasPropose(s, run, i, ApprovalOf(c), w);
      assert ConfirmedAt(s, run, c, i, j, offer, w);
    }
    if HadTwo(s, run, c) {
      var k: nat, j: nat, offer, w :| ConfirmedAt(s, run, c, k, j, offer, w);
      StepAt(s, run, k);
      ConfirmApproves(After(s, run[..k]), run[k], c, w);
      if k < i {
        assert run[..i][..k + 1] == run[..k + 1];
        ApprovedStays(s, run[..i], k + 1, c);
      }
    }
  }

  /** Every campaign that became approved has an approving request, and two wallets behind
      it if and only if that request is a confirmation. */
  lemma ApprovedHadTwo(s: State, requests: seq<Request>, c: RowId) returns (i: nat)
    requires Inv(s) && c in s.campaigns && !s.campaigns[c].approved && Live(s, ApprovalOf(c)) == None
    requires c in After(s, requests).campaigns && After(s, requests).campaigns[c].approved
    ensures ApprovesAt(s, requests, c, i)
    ensures HadTwo(s, requests[..i + 1], c) <==> requests[i].ConfirmApproval?
    ensures !requests[i].ConfirmApproval? ==> ApprovesAlone(After(s, requests[..i]), requests[i], c)
  {
    hide After;
    hide HadTwo;
    hide ApprovesAlone;
    hide Inv;
    i := FirstApproval(s, requests, c);
    NewlyApproved(s, requests, c, i);
  }

  lemma AloneIsNoConfirm(s: State, request: Request, c: RowId)
    requires c in s.campaigns
    ensures ApprovesAlone(s, request, c) ==> !request.ConfirmApproval?
  {
  }

  /** One admin suffices on chain: he deploys a waiting campaign, and the indexer links and
      approves its row although nobody has proposed an approval. */
  lemma IndexerApprovesAlone(s: State, c: RowId, onChainId: nat)
    requires c in s.campaigns && s.campaigns[c].status == Lifecycle.Pending && s.campaigns[c].onChainId == None
    requires forall d | d in s.campaigns :: s.campaigns[d].onChainId != Some(onChainId)
    ensures var run := [IndexCreation(c, onChainId), IndexUpdate(onChainId, Lifecycle.Approve)];
      var t := After(s, run);
      && c in t.campaigns && t.campaigns[c].approved && t.campaigns[c].status == Lifecycle.Active
      && t.approvals == s.approvals && MoveAt(s, run, 0) == None && MoveAt(s, run, 1) == None
  {
    var a, b := IndexCreation(c, onChainId), IndexUpdate(onChainId, Lifecycle.Approve);
    assert Front([a, b]) == [a] && Front([a]) == [];
    assert After(s, [a]) == Step(s, a).state;
    assert After(s, [a, b]) == Step(Step(s, a).state, b).state;
  }

  /** The direct path needs no second admin: from every state one request approves. */
  lemma OneAdminSuffices(s: State, c: RowId, onChainId: nat)
    requires c in s.campaigns && !IdTaken(s.campaigns, c, onChainId)
    ensures var t := After(s, [ApproveDirectly(c, onChainId)]);
      && c in t.campaigns && t.campaigns[c].approved && t.campaigns[c].status == Lifecycle.Active
      && t.approvals == s.approvals
  {
    assert Front([ApproveDirectly(c, onChainId)]) == [];
  }

  lemma StatusKeepsIds(s: State, c: RowId, status: Lifecycle.CampaignStatus, id: nat)
    requires c in s.campaigns
    ensures IdTaken(SetStatus(s, c, status).campaigns, c, id) ==> IdTaken(s.campaigns, c, id)
  {
    var t := SetStatus(s, c, status);
    if IdTaken(t.campaigns, c, id) {
      var d :| d in t.campaigns && d != c && t.campaigns[d].onChainId == Some(id);
      assert d in s.campaigns && s.campaigns[d].onChainId == Some(id);
    }
  }

  /** An open approval survives a request for changes and a rejection: a second admin can
      still confirm it, and the campaign becomes active. */
  lemma ApprovalOutlivesReview(
    s: State, c: RowId, first: Wallet, second: Wallet, onChainId: nat, ids: seq<nat>, rows: seq<RowId>, rejected: bool)
    requires c in s.campaigns && s.campaigns[c].status == Lifecycle.Pending && !ApprovalOpen(s, c)
    requires !SameWallet(first, second) && !IdTaken(s.campaigns, c, onChainId)
    requires Deployment.Bind(s.milestones, rows, ids, |rows|).Some?
    ensures var run := [ProposeApproval(c, first), if rejected then Reject(c) else RequestChanges(c),
                        ConfirmApproval(c, onChainId, ids, rows, second)];
      var reviewed, t := After(s, run[..2]), After(s, run);
      && c in reviewed.campaigns && c in t.campaigns
      && reviewed.campaigns[c].status == (if rejected then Lifecycle.Failed else Lifecycle.ChangesRequested)
      && t.campaigns[c].status == Lifecycle.Active && t.campaigns[c].approved
  {
    hide Deployment.Bind;
    var a, b, e := ProposeApproval(c, first), if rejected then Reject(c) else RequestChanges(c),
                   ConfirmApproval(c, onChainId, ids, rows, second);
    var run := [a, b, e];
    assert Front(run) == run[..2] == [a, b] && Front([a, b]) == [a] && Front([a]) == [];
    assert After(s, []) == s;
    var s1 := Step(s, a).state;
    assert After(s, [a]) == s1;
    var s2 := Step(s1, b).state;
    assert After(s, [a, b]) == s2;
    StatusKeepsIds(s1, c, if rejected then Lifecycle.Failed else Lifecycle.ChangesRequested, onChainId);
  }

  // ---- What an approval finds ---------------------------------------------------------

  /** The status that a successful request writes to the campaign's row, if it does. */
  function StatusWrite(s: State, request: Request, c: RowId): Option<Lifecycle.CampaignStatus>
    requires c in s.campaigns
  {
    if Step(s, request).error.Some? then None
    else
      match request
      case ConfirmApproval(d, _, _, _, _) => if d == c then Some(Lifecycle.Active) else None
      case RequestChanges(d) => if d == c then Some(Lifecycle.ChangesRequested) else None
      case Resubmit(d, _) => if d == c then Some(Lifecycle.Pending) else None
      case ApproveDirectly(d, _) => if d == c then Some(Lifecycle.Active) else None
      case Reject(d) => if d == c then Some(Lifecycle.Failed) else None
      case IndexUpdate(id, op) =>
        if s.campaigns[c].onChainId != Some(id) then None
        else
          var life := Lifecycle.Life(s.campaigns[c].status, s.campaigns[c].approved, false);
          (match op
           case Approve => if life.status == Lifecycle.Pending then Some(Lifecycle.Active) else None
           case Sync(to) => if Lifecycle.AdminRejected(life) then None else Some(to)
           case Set(to) => Some(to)
           case Cancel(_) => Some(Lifecycle.Failed)
           case Reclaim => None)
      case _ => None
  }

  lemma WriteIsStatus(s: State, request: Request, c: RowId)
    requires c in s.campaigns
    ensures var t := Step(s, request).state;
      && c in t.campaigns
      && t.campaigns[c].status
         == match StatusWrite(s, request, c) case Some(status) => status case None => s.campaigns[c].status
  {
    hide Deployment.Bind;
  }

  /** The last request from the j-th on that wrote the campaign's status. */
  ghost function LastWriter(s: State, requests: seq<Request>, j: nat, c: RowId): Option<nat>
    requires c in s.campaigns
  {
    if |requests| <= j then None
    else
      SameCampaigns(s, Front(requests));
      if StatusWrite(After(s, Front(requests)), Last(requests), c).Some? then Some(|requests| - 1)
      else LastWriter(s, Front(requests), j, c)
  }

  /** The contract's legacy status is never announced. */
  predicate NoLegacy(requests: seq<Request>) {
    forall i | 0 <= i < |requests| && requests[i].IndexUpdate? ::
      requests[i].op != Lifecycle.Sync(Lifecycle.Pending) && requests[i].op != Lifecycle.Set(Lifecycle.Pending)
  }

  lemma OnlyResubmitWaits(s: State, request: Request, c: RowId)
    requires c in s.campaigns && NoLegacy([request]) && StatusWrite(s, request, c).Some?
    ensures StatusWrite(s, request, c) == Some(Lifecycle.Pending) <==> request.Resubmit?
  {
    assert [request][0] == request;
  }

  lemma {:induction false} PendingByWriter(s: State, requests: seq<Request>, j: nat, c: RowId)
    requires c in s.campaigns && j <= |requests| && NoLegacy(requests)
    requires c in After(s, requests[..j]).campaigns && After(s, requests[..j]).campaigns[c].status == Lifecycle.Pending
    ensures c in After(s, requests).campaigns
    ensures LastWriter(s, requests, j, c).Some? ==> j <= LastWriter(s, requests, j, c).value < |requests|
    ensures After(s, requests).campaigns[c].status == Lifecycle.Pending <==>
      match LastWriter(s, requests, j, c) case None => true case Some(k) => requests[k].Resubmit?
  {
    hide Step;
    hide StatusWrite;
    if j == |requests| {
      assert requests[..j] == requests;
    } else {
      var front, last := Front(requests), Last(requests);
      assert front[..j] == requests[..j];
      SameCampaigns(s, front);
      PendingByWriter(s, front, j, c);
      WriteIsStatus(After(s, front), last, c);
      assert last == requests[|requests| - 1];
      assert NoLegacy([last]);
      if StatusWrite(After(s, front), last, c).Some? {
        OnlyResubmitWaits(After(s, front), last, c);
      }
    }
  }

  lemma ProposedWhilePending(s: State, request: Request, c: RowId, w: Wallet)
    requires MoveOf(s, request) == Some(Move(ApprovalOf(c), Propose, w))
    ensures c in s.campaigns && s.campaigns[c].status == Lifecycle.Pending
  {
  }

  /** What a confirmation finds: the campaign is still pending if and only if nothing wrote
      its status since the proposal, or the last that did was the creator's resubmission. */
  lemma ConfirmFindsPending(s: State, requests: seq<Request>, i: nat, c: RowId, confirmer: Wallet)
    returns (j: nat, offer: Offer)
    requires Inv(s) && c in s.campaigns && Live(s, ApprovalOf(c)) == None && NoLegacy(requests)
    requires i < |requests| && MoveAt(s, requests, i) == Some(Move(ApprovalOf(c), Confirm, confirmer))
    ensures j < i && MadeAt(s, requests[..i], ApprovalOf(c), offer, j)
    ensures c in After(s, requests[..i]).campaigns
    ensures LastWriter(s, requests[..i], j, c).Some? ==> j <= LastWriter(s, requests[..i], j, c).value < i
    ensures After(s, requests[..i]).campaigns[c].status == Lifecycle.Pending <==>
      match LastWriter(s, requests[..i], j, c) case None => true case Some(k) => requests[k].Resubmit?
  {
    hide Inv;
    hide Live;
    hide Step;
    hide MoveOf;
    hide LastWriter;
    j, offer := EveryConfirmHasPropose(s, requests, i, ApprovalOf(c), confirmer);
    var before := requests[..i];
    assert before[..j] == requests[..j];
    ProposedWhilePending(After(s, before[..j]), before[j], c, offer.proposer);
    assert forall k | 0 <= k < |before| :: before[k] == requests[k];
    PendingByWriter(s, before, j, c);
  }
}
