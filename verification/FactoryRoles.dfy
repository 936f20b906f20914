/** The contract behind its access checks: who holds the admin role, whether the contract is
    paused, and what that adds to what runs of the contract keep. */
module FactoryRoles {
  import opened Common
  import opened Events
  import opened CampaignFactory
  import Deployment
  import FactoryControl

  const ZERO_ADDRESS: Wallet := "0x0000000000000000000000000000000000000000"

  datatype Site = Site(factory: Factory, admins: set<Wallet>, paused: bool)

  /** A transaction of the factory (with the content hash that a creation sends along), or
      one of the inherited administration calls. */
  datatype Action =
    | Core(tx: Tx, contentHash: string)
    | Grant(who: Wallet, sender: Wallet)
    | Revoke(who: Wallet, sender: Wallet)
    | Renounce(sender: Wallet)
    | Pause(sender: Wallet)
    | Unpause(sender: Wallet)

  datatype Result = Result(ok: bool, site: Site, events: seq<Event>)

  predicate NeedsAdmin(call: Call) {
    || call.CreateCampaign? || call.ProposeFlag? || call.ConfirmFlag? || call.Unflag?
    || call.ProposeRelease? || call.ConfirmRelease? || call.ProposeRefund? || call.ApproveRefund?
  }

  /** The checks that come before the body of a transaction. */
  predicate Allowed(s: Site, tx: Tx, contentHash: string) {
    && (NeedsAdmin(tx.call) ==> tx.sender in s.admins)
    && (tx.call.Cancel? ==>
          || tx.sender in s.admins
          || (tx.call.campaign in s.factory.campaigns && s.factory.campaigns[tx.call.campaign].creator == tx.sender))
    && (tx.call.CreateCampaign? || tx.call.Contribute? ==> !s.paused)
    && (tx.call.CreateCampaign? ==> tx.call.creator != ZERO_ADDRESS && contentHash != "")
  }

  function Refuse(s: Site): Result {
    Result(false, s, [])
  }

  function Perform(s: Site, a: Action): Result {
    match a
    case Core(tx, contentHash) =>
      if !Allowed(s, tx, contentHash) then Refuse(s)
      else Result(Exec(s.factory, tx).ok, s.(factory := Exec(s.factory, tx).factory), Exec(s.factory, tx).events)
    case Grant(who, sender) =>
      if sender in s.admins then Result(true, s.(admins := s.admins + {who}), []) else Refuse(s)
    case Revoke(who, sender) =>
      if sender in s.admins then Result(true, s.(admins := s.admins - {who}), []) else Refuse(s)
    case Renounce(sender) => Result(true, s.(admins := s.admins - {sender}), [])
    case Pause(sender) => if sender in s.admins && !s.paused then Result(true, s.(paused := true), []) else Refuse(s)
    case Unpause(sender) => if sender in s.admins && s.paused then Result(true, s.(paused := false), []) else Refuse(s)
  }

  function SiteAfter(s: Site, actions: seq<Action>): Site {
    if actions == [] then s else Perform(SiteAfter(s, Front(actions)), Last(actions)).site
  }

  function Told(s: Site, actions: seq<Action>): seq<Event> {
    if actions == [] then [] else Told(s, Front(actions)) + Perform(SiteAfter(s, Front(actions)), Last(actions)).events
  }

  /** The transactions that got past the checks. */
  function Admitted(s: Site, actions: seq<Action>): seq<Tx> {
    if actions == [] then []
    else
      var last := Last(actions);
      Admitted(s, Front(actions))
      + if last.Core? && Allowed(SiteAfter(s, Front(actions)), last.tx, last.contentHash) then [last.tx] else []
  }

  /** Whatever the roles and the pause switch do, a run behind the checks is a run of the
      contract, with the same storage and the same log; so all that holds of runs of the
      contract holds behind the checks. */
  lemma {:induction false} ChecksOnlyRemove(s: Site, actions: seq<Action>)
    ensures SiteAfter(s, actions).factory == After(s.factory, Admitted(s, actions))
    ensures Told(s, actions) == Emitted(s.factory, Admitted(s, actions))
  {
    hide CampaignFactory.Exec;
    hide Allowed;
    if actions != [] {
      ChecksOnlyRemove(s, Front(actions));
      var earlier, last := Admitted(s, Front(actions)), Last(actions);
      if last.Core? && Allowed(SiteAfter(s, Front(actions)), last.tx, last.contentHash) {
        assert Front(earlier + [last.tx]) == earlier && Last(earlier + [last.tx]) == last.tx;
      } else {
        assert earlier + [] == earlier;
        NothingTold(SiteAfter(s, Front(actions)), last);
      }
    }
  }

  lemma NothingTold(s: Site, a: Action)
    requires a.Core? ==> !Allowed(s, a.tx, a.contentHash)
    ensures Perform(s, a).site.factory == s.factory && Perform(s, a).events == []
  {
  }

  // ---- Dual control by role holders ---------------------------------------------------

  /** The i-th event of the log was caused by this wallet while it held the admin role. */
  ghost predicate ByAdmin(s: Site, actions: seq<Action>, i: nat, who: Wallet) {
    exists p: nat :: CausedAt(s, actions, i, who, p)
  }

  ghost predicate CausedAt(s: Site, actions: seq<Action>, i: nat, who: Wallet, p: nat) {
    && p < |actions| && actions[p].Core? && actions[p].tx.sender == who
    && |Told(s, actions[..p])| <= i < |Told(s, actions[..p + 1])|
    && who in SiteAfter(s, actions[..p]).admins
  }

  lemma ActorNeedsRole(f: Factory, tx: Tx, k: FactoryControl.Kind, i: nat)
    requires FactoryControl.Changes(f, Exec(f, tx), k, FactoryControl.ChangeOf(f, tx, k)) && i < |Exec(f, tx).events|
    ensures var e := Exec(f, tx).events[i];
      && (FactoryControl.Opens(e, k).Some? ==>
            NeedsAdmin(tx.call) && FactoryControl.Opens(e, k).value.admin == tx.sender)
      && (FactoryControl.Confirms(e, k).Some? ==>
            NeedsAdmin(tx.call) && FactoryControl.Confirms(e, k).value.admin == tx.sender)
  {
    hide CampaignFactory.Exec;
    hide FactoryControl.Slot;
    hide FactoryControl.Proposals;
    hide FactoryControl.Counter;
    var o := Exec(f, tx);
    if FactoryControl.Confirms(o.events[i], k).Some? {
      assert !FactoryControl.ChangeOf(f, tx, k).Stay?;
    }
  }

  lemma CausedBefore(s: Site, actions: seq<Action>, i: nat, who: Wallet)
    requires actions != [] && ByAdmin(s, Front(actions), i, who)
    ensures ByAdmin(s, actions, i, who)
  {
    hide SiteAfter;
    hide Told;
    var p: nat :| CausedAt(s, Front(actions), i, who, p);
    assert Front(actions)[..p] == actions[..p] && Front(actions)[..p + 1] == actions[..p + 1];
    assert CausedAt(s, actions, i, who, p);
  }

  /** What the newest action tells comes from a transaction that passed the checks. */
  lemma NewestTold(s: Site, actions: seq<Action>, i: nat)
    requires actions != [] && |Told(s, Front(actions))| <= i < |Told(s, actions)|
    ensures var site, last, k := SiteAfter(s, Front(actions)), Last(actions), i - |Told(s, Front(actions))|;
      && last.Core? && Allowed(site, last.tx, last.contentHash)
      && k < |Exec(site.factory, last.tx).events| && Told(s, actions)[i] == Exec(site.factory, last.tx).events[k]
  {
    hide CampaignFactory.Exec;
    hide Allowed;
    var site, last := SiteAfter(s, Front(actions)), Last(actions);
    if last.Core? && Allowed(site, last.tx, last.contentHash) {
    } else {
      NothingTold(site, last);
    }
  }

  lemma CausedByNewest(s: Site, actions: seq<Action>, i: nat)
    requires actions != [] && |Told(s, Front(actions))| <= i < |Told(s, actions)|
    requires Last(actions).Core? && Last(actions).tx.sender in SiteAfter(s, Front(actions)).admins
    ensures ByAdmin(s, actions, i, Last(actions).tx.sender)
  {
    hide SiteAfter;
    hide Told;
    var n := |actions| - 1;
    assert actions[..n] == Front(actions) && actions[..n + 1] == actions && actions[n] == Last(actions);
    assert CausedAt(s, actions, i, Last(actions).tx.sender, n);
  }

  lemma NewestHeldRole(admins: set<Wallet>, actions: seq<Action>, i: nat, k: FactoryControl.Kind)
    requires actions != []
    requires var s := Site(Empty(), admins, false); |Told(s, Front(actions))| <= i < |Told(s, actions)|
    ensures var s := Site(Empty(), admins, false);
      var e := Told(s, actions)[i];
      && (FactoryControl.Opens(e, k).Some? ==> ByAdmin(s, actions, i, FactoryControl.Opens(e, k).value.admin))
      && (FactoryControl.Confirms(e, k).Some? ==> ByAdmin(s, actions, i, FactoryControl.Confirms(e, k).value.admin))
  {
    hide CampaignFactory.Exec;
    hide FactoryControl.Opens;
    hide FactoryControl.Confirms;
    hide NeedsAdmin;
    hide ByAdmin;
    hide Told;
    var s := Site(Empty(), admins, false);
    var front, last := Front(actions), Last(actions);
    var site := SiteAfter(s, front);
    hide SiteAfter;
    NewestTold(s, actions, i);
    ChecksOnlyRemove(s, front);
    FactoryControl.RunBacked(Admitted(s, front), k);
    FactoryControl.EveryCallChanges(site.factory, last.tx, k);
    ActorNeedsRole(site.factory, last.tx, k, i - |Told(s, front)|);
    if NeedsAdmin(last.tx.call) {
      CausedByNewest(s, actions, i);
    }
  }

  /** Every proposal and every confirmation in the log was made by a holder of the role. */
  lemma {:induction false} ActorsHeldRole(admins: set<Wallet>, actions: seq<Action>, i: nat, k: FactoryControl.Kind)
    requires i < |Told(Site(Empty(), admins, false), actions)|
    ensures var s := Site(Empty(), admins, false);
      var e := Told(s, actions)[i];
      && (FactoryControl.Opens(e, k).Some? ==> ByAdmin(s, actions, i, FactoryControl.Opens(e, k).value.admin))
      && (FactoryControl.Confirms(e, k).Some? ==> ByAdmin(s, actions, i, FactoryControl.Confirms(e, k).value.admin))
  {
    hide FactoryControl.Opens;
    hide FactoryControl.Confirms;
    hide ByAdmin;
    hide Perform;
    var s := Site(Empty(), admins, false);
    var e, front := Told(s, actions)[i], Front(actions);
    if i < |Told(s, front)| {
      assert e == Told(s, front)[i];
      ActorsHeldRole(admins, front, i, k);
      if FactoryControl.Opens(e, k).Some? { CausedBefore(s, actions, i, FactoryControl.Opens(e, k).value.admin); }
      if FactoryControl.Confirms(e, k).Some? { CausedBefore(s, actions, i, FactoryControl.Confirms(e, k).value.admin); }
    } else {
      NewestHeldRole(admins, actions, i, k);
    }
  }

  /** In the log of every run behind the checks: whatever was flagged, refunded or released
      had been proposed before, under the same id and for the same campaign or milestone,
      by a different wallet; both wallets held the admin role when they acted, and no
      proposal was executed twice. */
  lemma LogShowsTwoAdmins(admins: set<Wallet>, actions: seq<Action>, i: nat, k: FactoryControl.Kind)
    requires i < |Told(Site(Empty(), admins, false), actions)|
    requires FactoryControl.Confirms(Told(Site(Empty(), admins, false), actions)[i], k).Some?
    ensures var s := Site(Empty(), admins, false);
      var log := Told(s, actions);
      var done := FactoryControl.Confirms(log[i], k).value;
      && ByAdmin(s, actions, i, done.admin)
      && !FactoryControl.Closed(log[..i], k, done.proposal)
      && exists j: nat, who :: j < i && who != done.admin
           && FactoryControl.Opens(log[j], k) == Some(FactoryControl.Act(done.proposal, done.subject, who))
           && ByAdmin(s, actions, j, who)
  {
    hide Told;
    hide ByAdmin;
    hide FactoryControl.Opens;
    hide FactoryControl.Confirms;
    hide FactoryControl.Closed;
    var s := Site(Empty(), admins, false);
    ChecksOnlyRemove(s, actions);
    var log := Told(s, actions);
    FactoryControl.LogShowsTwoAdmins(Admitted(s, actions), i, k);
    hide CampaignFactory.Emitted;
    ActorsHeldRole(admins, actions, i, k);
    var done := FactoryControl.Confirms(log[i], k).value;
    var who :| who != done.admin
      && FactoryControl.Opened(log[..i], k, FactoryControl.Act(done.proposal, done.subject, who));
    var act := FactoryControl.Act(done.proposal, done.subject, who);
    var j: nat :| j < i && FactoryControl.Opens(log[..i][j], k) == Some(act);
    ActorsHeldRole(admins, actions, j, k);
  }

  // ---- Who did what -------------------------------------------------------------------

  /** Whatever succeeds was allowed: creations, flags, refunds and releases came from a holder
      of the role, a cancellation from one or from the creator, and nothing was created or
      contributed while the contract was paused. */
  lemma OnlyAllowedSucceeds(s: Site, tx: Tx, contentHash: string)
    requires Perform(s, Core(tx, contentHash)).ok
    ensures tx.call.CreateCampaign? || tx.call.ProposeFlag? || tx.call.ConfirmFlag? || tx.call.Unflag? ==>
      tx.sender in s.admins
    ensures tx.call.ProposeRefund? || tx.call.ApproveRefund? || tx.call.ProposeRelease? || tx.call.ConfirmRelease? ==>
      tx.sender in s.admins
    ensures tx.call.Cancel? ==>
      || tx.sender in s.admins
      || (tx.call.campaign in s.factory.campaigns && s.factory.campaigns[tx.call.campaign].creator == tx.sender)
    ensures tx.call.CreateCampaign? || tx.call.Contribute? ==> !s.paused
  {
    hide CampaignFactory.Exec;
  }

  /** The last change of a wallet's role: given, or taken by an admin or by himself. */
  function LastChange(s: Site, actions: seq<Action>, w: Wallet): Option<bool> {
    if actions == [] then None
    else
      var admins, a := SiteAfter(s, Front(actions)).admins, Last(actions);
      if a.Grant? && a.who == w && a.sender in admins then Some(true)
      else if a.Revoke? && a.who == w && a.sender in admins then Some(false)
      else if a.Renounce? && a.sender == w then Some(false)
      else LastChange(s, Front(actions), w)
  }

  /** Over every run a wallet holds the role exactly if it was given to it last, or it had it
      and nobody took it. */
  lemma {:induction false} RoleIsLastChange(s: Site, actions: seq<Action>, w: Wallet)
    ensures w in SiteAfter(s, actions).admins <==>
      match LastChange(s, actions, w) case Some(given) => given case None => w in s.admins
  {
    if actions != [] {
      hide CampaignFactory.Exec;
      hide Allowed;
      RoleIsLastChange(s, Front(actions), w);
    }
  }

  // ---- Deployment ---------------------------------------------------------------------

  /** Exactly when the contract accepts the deployment that the review page sends: its sum
      check never stands in the way. */
  lemma DeploymentAccepted(
    s: Site, ms: Deployment.Milestones, rows: seq<RowId>, token: Deployment.Token, creator: Wallet, contentHash: string,
    deadline: nat, admin: Wallet, now: nat)
    requires forall i | 0 <= i < |rows| :: rows[i] in ms
    ensures Perform(s, Core(Deployment.DeployTx(ms, rows, token, creator, deadline, admin, now), contentHash)).ok <==>
      && admin in s.admins && !s.paused && creator != ZERO_ADDRESS && contentHash != ""
      && 1 <= |rows| <= 20 && now < deadline
      && forall i | 0 <= i < |rows| :: ms[rows[i]].amount > 0
           && (ms[rows[i]].deadline.Some? ==> ms[rows[i]].deadline.value <= deadline)
  {
    hide CampaignFactory.Exec;
    Deployment.DeploymentAccepted(s.factory, ms, rows, token, creator, deadline, admin, now);
    hide Deployment.ContractPlans;
    hide Deployment.FundGoal;
  }
}
