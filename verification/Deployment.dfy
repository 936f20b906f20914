/** From milestone drafts to on-chain milestones and back: the numbering of a new
    campaign's milestones, the arguments of its deployment, and the binding of the ids
    that the contract hands out. */
module Deployment {
  import opened Common
  import opened Events
  import opened Database
  import F = CampaignFactory
  import FactoryStages
  import Sequencing
  import Stages

  /** Amounts are in hundredths, the precision of the database column. */
  datatype Row = Row(
    campaign: RowId, order: int, createdAt: int, amount: nat, deadline: Option<nat>,
    onChainId: Option<nat>, status: Stages.MilestoneStatus)

  type Milestones = map<RowId, Row>

  // ---- The ordered query --------------------------------------------------------------

  /** Ascending `order`, then ascending creation time. */
  predicate Before(a: Row, b: Row) {
    a.order < b.order || (a.order == b.order && a.createdAt <= b.createdAt)
  }

  predicate SameKey(a: Row, b: Row) {
    a.order == b.order && a.createdAt == b.createdAt
  }

  /** `rows` is an answer to the query for a campaign's milestones in their order. */
  ghost predicate Listing(ms: Milestones, campaign: RowId, rows: seq<RowId>) {
    && Distinct(rows)
    && (forall i | 0 <= i < |rows| :: rows[i] in ms && ms[rows[i]].campaign == campaign)
    && (forall r | r in ms && ms[r].campaign == campaign :: r in rows)
    && (forall i, j | 0 <= i < j < |rows| :: Before(ms[rows[i]], ms[rows[j]]))
  }

  ghost predicate KeysDiffer(ms: Milestones, campaign: RowId) {
    forall r, s | r in ms && s in ms && r != s && ms[r].campaign == campaign && ms[s].campaign == campaign ::
      !SameKey(ms[r], ms[s])
  }

  lemma PlaceOf(ms: Milestones, campaign: RowId, rows: seq<RowId>, r: RowId) returns (j: nat)
    requires Listing(ms, campaign, rows) && r in ms && ms[r].campaign == campaign
    ensures j < |rows| && rows[j] == r
  {
    assert r in rows;
    j :| j < |rows| && rows[j] == r;
  }

  lemma InTail(ms: Milestones, campaign: RowId, a: seq<RowId>, b: seq<RowId>, k: nat)
    requires Listing(ms, campaign, a) && Listing(ms, campaign, b)
    requires k < |a| && k <= |b| && a[..k] == b[..k]
    ensures exists j :: k <= j < |b| && b[j] == a[k]
  {
    var j := PlaceOf(ms, campaign, b, a[k]);
    assert forall x | 0 <= x < k :: a[x] == a[..k][x] == b[..k][x] == b[x];
  }

  lemma InOrder(ms: Milestones, campaign: RowId, rows: seq<RowId>, k: nat, i: nat)
    requires Listing(ms, campaign, rows) && k <= i < |rows|
    ensures rows[k] in ms && rows[i] in ms && ms[rows[k]].campaign == campaign == ms[rows[i]].campaign
    ensures Before(ms[rows[k]], ms[rows[i]]) && (rows[k] == rows[i] ==> k == i)
  {
  }

  lemma {:induction false} ListingsAgreeTo(ms: Milestones, campaign: RowId, a: seq<RowId>, b: seq<RowId>, n: nat)
    requires KeysDiffer(ms, campaign) && Listing(ms, campaign, a) && Listing(ms, campaign, b) && n <= |a|
    ensures n <= |b| && a[..n] == b[..n]
  {
    if n > 0 {
      var k := n - 1;
      ListingsAgreeTo(ms, campaign, a, b, k);
      if k == |b| { InTail(ms, campaign, a, b, k); }
      InTail(ms, campaign, a, b, k);
      InTail(ms, campaign, b, a, k);
      var j :| k <= j < |b| && b[j] == a[k];
      var i :| k <= i < |a| && a[i] == b[k];
      InOrder(ms, campaign, a, k, i);
      InOrder(ms, campaign, b, k, j);
      hide Listing;
      assert a[..n] == a[..k] + [a[k]] && b[..n] == b[..k] + [b[k]];
    }
  }

  /** The ordered query has one answer when the milestones' keys differ. */
  lemma ListingUnique(ms: Milestones, campaign: RowId, a: seq<RowId>, b: seq<RowId>)
    requires KeysDiffer(ms, campaign) && Listing(ms, campaign, a) && Listing(ms, campaign, b)
    ensures a == b
  {
    ListingsAgreeTo(ms, campaign, a, b, |a|);
    ListingsAgreeTo(ms, campaign, b, a, |b|);
  }

  /** `rows` is an answer to the query that orders by `order` alone, as unlocking and the
      oversight list do. */
  ghost predicate ByOrder(ms: Milestones, campaign: RowId, rows: seq<RowId>) {
    && Distinct(rows)
    && (forall i | 0 <= i < |rows| :: rows[i] in ms && ms[rows[i]].campaign == campaign)
    && (forall r | r in ms && ms[r].campaign == campaign :: r in rows)
    && (forall i, j | 0 <= i < j < |rows| :: ms[rows[i]].order <= ms[rows[j]].order)
  }

  ghost predicate OrdersDiffer(ms: Milestones, campaign: RowId) {
    forall r, s | r in ms && s in ms && r != s && ms[r].campaign == campaign && ms[s].campaign == campaign ::
      ms[r].order != ms[s].order
  }

  lemma ByOrderIsListing(ms: Milestones, campaign: RowId, rows: seq<RowId>)
    requires OrdersDiffer(ms, campaign) && ByOrder(ms, campaign, rows)
    ensures Listing(ms, campaign, rows) && KeysDiffer(ms, campaign)
  {
  }

  lemma SwapKeepsOrder(ms: Milestones, campaign: RowId, rows: seq<RowId>, i: nat, j: nat)
    requires Listing(ms, campaign, rows) && i < j < |rows| && ms[rows[i]].order == ms[rows[j]].order
    ensures ByOrder(ms, campaign, rows[i := rows[j]][j := rows[i]])
  {
    var swapped := rows[i := rows[j]][j := rows[i]];
    forall r | r in ms && ms[r].campaign == campaign
      ensures r in swapped
    {
      var k := PlaceOf(ms, campaign, rows, r);
      assert swapped[if k == i then j else if k == j then i else k] == r;
    }
    forall a, b | 0 <= a < b < |swapped|
      ensures ms[swapped[a]].order <= ms[swapped[b]].order
    {
      OrderAt(ms, campaign, rows, i, j, a);
      OrderAt(ms, campaign, rows, i, j, b);
      InOrder(ms, campaign, rows, a, b);
    }
  }

  lemma OrderAt(ms: Milestones, campaign: RowId, rows: seq<RowId>, i: nat, j: nat, a: nat)
    requires Listing(ms, campaign, rows) && i < j < |rows| && ms[rows[i]].order == ms[rows[j]].order && a < |rows|
    ensures var r := rows[i := rows[j]][j := rows[i]][a]; r in ms && ms[r].order == ms[rows[a]].order
  {
  }

  /** The query by `order` alone answers with the binding order, and nothing else, if and
      only if no two milestones of the campaign have the same `order`. */
  lemma QueriesAgree(ms: Milestones, campaign: RowId, rows: seq<RowId>)
    requires Listing(ms, campaign, rows)
    ensures (forall other | ByOrder(ms, campaign, other) :: other == rows) <==> OrdersDiffer(ms, campaign)
  {
    if OrdersDiffer(ms, campaign) {
      forall other | ByOrder(ms, campaign, other)
        ensures other == rows
      {
        ByOrderIsListing(ms, campaign, other);
        ListingUnique(ms, campaign, other, rows);
      }
    } else {
      hide Listing;
      hide ByOrder;
      var r, s :| r in ms && s in ms && r != s && ms[r].campaign == campaign && ms[s].campaign == campaign
        && ms[r].order == ms[s].order;
      var a := PlaceOf(ms, campaign, rows, r);
      var b := PlaceOf(ms, campaign, rows, s);
      TieAllowsAnother(ms, campaign, rows, if a < b then a else b, if a < b then b else a);
    }
  }

  lemma TieAllowsAnother(ms: Milestones, campaign: RowId, rows: seq<RowId>, i: nat, j: nat)
    requires Listing(ms, campaign, rows) && i < j < |rows| && rows[i] != rows[j]
    requires ms[rows[i]].order == ms[rows[j]].order
    ensures exists other :: ByOrder(ms, campaign, other) && other != rows
  {
    SwapKeepsOrder(ms, campaign, rows, i, j);
    hide ByOrder;
    assert rows[i := rows[j]][j := rows[i]][i] != rows[i];
  }

  // ---- Numbering ----------------------------------------------------------------------

  datatype Draft = Draft(amount: nat, deadline: Option<nat>)

  /** The rows that a new campaign's milestones get: `order` is the position in the list. */
  function Numbered(campaign: RowId, drafts: seq<Draft>, times: seq<int>): (rows: seq<Row>)
    requires |times| == |drafts|
    ensures |rows| == |drafts|
  {
    seq(|drafts|, i requires 0 <= i < |drafts| =>
      Row(campaign, i, times[i], drafts[i].amount, drafts[i].deadline, None, Stages.Ongoing))
  }

  function Insert(ms: Milestones, ids: seq<RowId>, rows: seq<Row>): Milestones
    requires |ids| == |rows|
  {
    if ids == [] then ms else Insert(ms, Front(ids), Front(rows))[Last(ids) := Last(rows)]
  }

  lemma {:induction false} Inserted(ms: Milestones, ids: seq<RowId>, rows: seq<Row>)
    requires |ids| == |rows| && Distinct(ids)
    ensures var t := Insert(ms, ids, rows);
      && (forall i | 0 <= i < |ids| :: ids[i] in t && t[ids[i]] == rows[i])
      && (forall r | r !in ids :: (r in t <==> r in ms) && (r in ms ==> t[r] == ms[r]))
  {
    if ids != [] {
      Inserted(ms, Front(ids), Front(rows));
      forall i | 0 <= i < |ids| - 1
        ensures Front(ids)[i] == ids[i] && Front(rows)[i] == rows[i] && ids[i] != Last(ids)
      {}
    }
  }

  lemma NumberedKeysDiffer(t: Milestones, campaign: RowId, ids: seq<RowId>, rows: seq<Row>)
    requires |ids| == |rows| && forall i | 0 <= i < |ids| :: ids[i] in t && t[ids[i]] == rows[i] && rows[i].order == i
    requires forall r | r in t && t[r].campaign == campaign :: r in ids
    ensures KeysDiffer(t, campaign)
  {
    forall r, s | r in t && s in t && r != s && t[r].campaign == campaign && t[s].campaign == campaign
      ensures !SameKey(t[r], t[s])
    {
      assert r in ids && s in ids;
      var i :| 0 <= i < |ids| && ids[i] == r;
      var j :| 0 <= j < |ids| && ids[j] == s;
    }
  }

  /** The order in which a creator lists milestones is the one and only answer to the
      ordered query, whatever the creation times say. */
  lemma CreationOrderIsListing(ms: Milestones, campaign: RowId, ids: seq<RowId>, drafts: seq<Draft>, times: seq<int>)
    requires |ids| == |drafts| == |times| && Distinct(ids)
    requires forall r | r in ms :: ms[r].campaign != campaign && r !in ids
    ensures var t := Insert(ms, ids, Numbered(campaign, drafts, times));
      && Listing(t, campaign, ids)
      && (forall rows | Listing(t, campaign, rows) :: rows == ids)
      && (forall i | 0 <= i < |ids| ::
            && ids[i] in t && t[ids[i]].amount == drafts[i].amount && t[ids[i]].deadline == drafts[i].deadline
            && t[ids[i]].createdAt == times[i] && t[ids[i]].onChainId == None)
      && forall r | r in ms :: r in t && t[r] == ms[r]
  {
    var rows := Numbered(campaign, drafts, times);
    var t := Insert(ms, ids, rows);
    Inserted(ms, ids, rows);
    hide Insert;
    NumberedKeysDiffer(t, campaign, ids, rows);
    forall other | Listing(t, campaign, other)
      ensures other == ids
    {
      ListingUnique(t, campaign, other, ids);
    }
  }

  // ---- The deployment's arguments -----------------------------------------------------

  datatype Token = Eth | Usdc

  /** Smallest units in a hundredth of the payment token: 18 and 6 decimal places. */
  function UnitsPerHundredth(token: Token): nat {
    if token.Usdc? then 10_000 else 10_000_000_000_000_000
  }

  function InUnits(token: Token, amount: nat): nat {
    amount * UnitsPerHundredth(token)
  }

  function Pow(base: nat, n: nat): nat {
    if n == 0 then 1 else base * Pow(base, n - 1)
  }

  lemma {:induction false} PowAdd(base: nat, m: nat, n: nat)
    ensures Pow(base, m + n) == Pow(base, m) * Pow(base, n)
  {
    if m == 0 {
    } else {
      PowAdd(base, m - 1, n);
      assert base * (Pow(base, m - 1) * Pow(base, n)) == (base * Pow(base, m - 1)) * Pow(base, n);
    }
  }

  lemma PowersOfTen()
    ensures Pow(10, 6) == 1_000_000 && Pow(10, 18) == 1_000_000_000_000_000_000
  {
    assert Pow(10, 1) == 10;
    assert Pow(10, 2) == 100;
    assert Pow(10, 3) == 1_000;
    PowAdd(10, 3, 3);
    PowAdd(10, 6, 6);
    PowAdd(10, 12, 6);
  }

  /** An amount in hundredths of the token is worth this many of its smallest units: ether
      has 18 decimal places, USDC has 6. */
  ghost predicate Worth(token: Token, hundredths: nat, units: nat) {
    100 * units == hundredths * Pow(10, if token.Eth? then 18 else 6)
  }

  lemma UnitsWorth(token: Token, hundredths: nat)
    ensures Worth(token, hundredths, InUnits(token, hundredths))
  {
    PowersOfTen();
  }

  /** So whole tokens are sent as so many ones followed by the decimal places. */
  lemma WholeTokens(token: Token, n: nat, units: nat)
    requires Worth(token, 100 * n, units)
    ensures token.Eth? ==> units == n * Pow(10, 18)
    ensures token.Usdc? ==> units == n * Pow(10, 6)
  {
    PowersOfTen();
  }

  /** The milestone list that the review page sends to the contract. */
  function ContractPlans(ms: Milestones, rows: seq<RowId>, token: Token, deadline: nat): (plans: seq<F.Plan>)
    requires forall i | 0 <= i < |rows| :: rows[i] in ms
    ensures |plans| == |rows|
  {
    seq(|rows|, i requires 0 <= i < |rows| =>
      var m := ms[rows[i]];
      F.Plan(InUnits(token, m.amount), if m.deadline.Some? then m.deadline.value else deadline))
  }

  function FundGoal(plans: seq<F.Plan>): nat {
    if plans == [] then 0 else FundGoal(Front(plans)) + Last(plans).amount
  }

  function TotalAmount(ms: Milestones, rows: seq<RowId>): nat
    requires forall i | 0 <= i < |rows| :: rows[i] in ms
  {
    if rows == [] then 0 else TotalAmount(ms, Front(rows)) + ms[Last(rows)].amount
  }

  lemma UnitsAdd(token: Token, a: nat, b: nat)
    ensures InUnits(token, a + b) == InUnits(token, a) + InUnits(token, b) && InUnits(token, 0) == 0
  {
    hide UnitsPerHundredth;
    var u := UnitsPerHundredth(token);
    assert (a + b) * u == a * u + b * u;
  }

  lemma {:induction false} GoalIsTotal(ms: Milestones, rows: seq<RowId>, token: Token, deadline: nat)
    requires forall i | 0 <= i < |rows| :: rows[i] in ms
    ensures FundGoal(ContractPlans(ms, rows, token, deadline)) == InUnits(token, TotalAmount(ms, rows))
    ensures Worth(token, TotalAmount(ms, rows), FundGoal(ContractPlans(ms, rows, token, deadline)))
    ensures F.SumPlans(ContractPlans(ms, rows, token, deadline)) == FundGoal(ContractPlans(ms, rows, token, deadline))
  {
    hide InUnits;
    hide Worth;
    UnitsAdd(token, 0, 0);
    UnitsWorth(token, TotalAmount(ms, rows));
    var plans := ContractPlans(ms, rows, token, deadline);
    if rows != [] {
      GoalIsTotal(ms, Front(rows), token, deadline);
      UnitsAdd(token, TotalAmount(ms, Front(rows)), ms[Last(rows)].amount);
      assert Front(plans) == ContractPlans(ms, Front(rows), token, deadline);
    }
  }

  /** The transaction that deploys a campaign. */
  function DeployTx(ms: Milestones, rows: seq<RowId>, token: Token, creator: Wallet, deadline: nat, admin: Wallet, now: nat): F.Tx
    requires forall i | 0 <= i < |rows| :: rows[i] in ms
  {
    var plans := ContractPlans(ms, rows, token, deadline);
    F.Tx(F.CreateCampaign(creator, FundGoal(plans), deadline, plans), admin, now)
  }

  /** The review page sends every milestone and the goal at their worth, and the campaign's
      deadline for a milestone without one. */
  lemma SentAtWorth(
    ms: Milestones, rows: seq<RowId>, token: Token, creator: Wallet, deadline: nat, admin: Wallet, now: nat)
    requires forall i | 0 <= i < |rows| :: rows[i] in ms
    ensures var tx := DeployTx(ms, rows, token, creator, deadline, admin, now);
      && tx.sender == admin && tx.call.CreateCampaign? && tx.call.creator == creator && tx.call.deadline == deadline
      && Worth(token, TotalAmount(ms, rows), tx.call.goal)
      && |tx.call.plans| == |rows|
      && forall i | 0 <= i < |rows| ::
           && Worth(token, ms[rows[i]].amount, tx.call.plans[i].amount)
           && (match ms[rows[i]].deadline
               case Some(own) => tx.call.plans[i].deadline == own
               case None => tx.call.plans[i].deadline == deadline)
  {
    GoalIsTotal(ms, rows, token, deadline);
    forall i | 0 <= i < |rows|
      ensures Worth(token, ms[rows[i]].amount, ContractPlans(ms, rows, token, deadline)[i].amount)
    {
      UnitsWorth(token, ms[rows[i]].amount);
      PlanAmount(ms, rows, token, deadline, i);
    }
    hide Worth;
    hide FundGoal;
    hide InUnits;
  }

  lemma PlanAmount(ms: Milestones, rows: seq<RowId>, token: Token, deadline: nat, i: nat)
    requires i < |rows| && forall i | 0 <= i < |rows| :: rows[i] in ms
    ensures ContractPlans(ms, rows, token, deadline)[i].amount == InUnits(token, ms[rows[i]].amount)
  {
  }

  /** The contract's check that the milestones add up to the goal never refuses this
      caller; what it still checks are the counts, the amounts and the deadlines. */
  lemma DeploymentAccepted(
    f: F.Factory, ms: Milestones, rows: seq<RowId>, token: Token, creator: Wallet, deadline: nat, admin: Wallet, now: nat)
    requires forall i | 0 <= i < |rows| :: rows[i] in ms
    ensures F.Exec(f, DeployTx(ms, rows, token, creator, deadline, admin, now)).ok <==>
      && 1 <= |rows| <= 20 && now < deadline
      && forall i | 0 <= i < |rows| :: ms[rows[i]].amount > 0
           && (ms[rows[i]].deadline.Some? ==> ms[rows[i]].deadline.value <= deadline)
  {
    var plans := ContractPlans(ms, rows, token, deadline);
    GoalIsTotal(ms, rows, token, deadline);
    if rows != [] && ms[rows[0]].amount > 0 { TotalPositive(ms, rows); }
    forall i | 0 <= i < |rows|
      ensures plans[i].amount == 0 <==> ms[rows[i]].amount == 0
    {}
    assert forall i | 0 <= i < |rows| :: plans[i].deadline > deadline <==>
      ms[rows[i]].deadline.Some? && ms[rows[i]].deadline.value > deadline;
    hide F.SumPlans;
    hide FundGoal;
    hide TotalAmount;
  }

  lemma {:induction false} TotalPositive(ms: Milestones, rows: seq<RowId>)
    requires forall i | 0 <= i < |rows| :: rows[i] in ms
    requires rows != [] && ms[rows[0]].amount > 0
    ensures TotalAmount(ms, rows) > 0
  {
    if |rows| > 1 {
      TotalPositive(ms, Front(rows));
    }
  }

  // ---- The receipt --------------------------------------------------------------------

  /** The campaign id of the first creation in a transaction's receipt. */
  method FindCampaignId(receipt: seq<Event>) returns (id: Option<nat>)
    ensures id.Some? ==> exists i | 0 <= i < |receipt| ::
      && receipt[i] == CampaignCreated(id.value) && forall j | 0 <= j < i :: !receipt[j].CampaignCreated?
    ensures id.None? ==> forall i | 0 <= i < |receipt| :: !receipt[i].CampaignCreated?
  {
    id := None;
    for i := 0 to |receipt|
      invariant id.None? && forall j | 0 <= j < i :: !receipt[j].CampaignCreated?
    {
      if receipt[i].CampaignCreated? {
        id := Some(receipt[i].campaign);
        return;
      }
    }
  }

  // ---- Binding ------------------------------------------------------------------------

  /** The id column is unique: another row that holds the id makes the update fail. */
  predicate Taken(ms: Milestones, row: RowId, id: nat) {
    exists r | r in ms :: r != row && ms[r].onChainId == Some(id)
  }

  function IdAt(ids: seq<nat>, i: nat): Option<nat> {
    if i < |ids| then Some(ids[i]) else None
  }

  function BoundStatus(i: nat): Stages.MilestoneStatus {
    if i == 0 then Stages.Ongoing else Stages.NotStarted
  }

  /** One row bound to its id. */
  function WithRow(t: Milestones, rows: seq<RowId>, ids: seq<nat>, k: nat): Milestones
    requires k < |rows| && rows[k] in t
  {
    t[rows[k] := t[rows[k]].(onChainId := IdAt(ids, k), status := BoundStatus(k))]
  }

  /** The rows after the first n updates of the approval, unless one of them failed. */
  function Bind(ms: Milestones, rows: seq<RowId>, ids: seq<nat>, n: nat): Option<Milestones>
    requires n <= |rows|
  {
    if n == 0 then Some(ms)
    else
      match Bind(ms, rows, ids, n - 1)
      case None => None
      case Some(t) =>
        var r, id := rows[n - 1], IdAt(ids, n - 1);
        if r !in t || (id.Some? && Taken(t, r, id.value)) then None
        else Some(WithRow(t, rows, ids, n - 1))
  }

  /** The ids that get used are distinct, and no row outside the campaign, nor a later one
      of the campaign from an earlier binding, holds one of them. */
  ghost predicate IdsFree(ms: Milestones, rows: seq<RowId>, ids: seq<nat>, n: nat)
    requires n <= |rows|
  {
    && (forall i, j | 0 <= i < j < n && j < |ids| :: ids[i] != ids[j])
    && (forall i, r | 0 <= i < n && i < |ids| && r in ms && r !in rows[..i + 1] :: ms[r].onChainId != Some(ids[i]))
  }

  ghost predicate BoundTo(t: Milestones, ms: Milestones, rows: seq<RowId>, ids: seq<nat>, n: nat)
    requires n <= |rows|
  {
    && t.Keys == ms.Keys
    && (forall i | 0 <= i < n ::
          rows[i] in ms && t[rows[i]] == ms[rows[i]].(onChainId := IdAt(ids, i), status := BoundStatus(i)))
    && (forall r | r in ms && r !in rows[..n] :: t[r] == ms[r])
  }

  /** The approval succeeds exactly if its ids are free, and then binds them to the rows in
      order, and nothing else. */
  lemma {:induction false} BindExactly(ms: Milestones, rows: seq<RowId>, ids: seq<nat>, n: nat)
    requires n <= |rows| && Distinct(rows)
    requires forall i | 0 <= i < |rows| :: rows[i] in ms
    ensures Bind(ms, rows, ids, n).Some? <==> IdsFree(ms, rows, ids, n)
    ensures Bind(ms, rows, ids, n).Some? ==> BoundTo(Bind(ms, rows, ids, n).value, ms, rows, ids, n)
  {
    hide BoundTo;
    hide IdsFree;
    hide Taken;
    hide WithRow;
    hide Distinct;
    if n == 0 {
      NothingBound(ms, rows, ids);
    } else {
      BindExactly(ms, rows, ids, n - 1);
      if IdsFree(ms, rows, ids, n) { FreeEarlier(ms, rows, ids, n - 1); }
      if Bind(ms, rows, ids, n - 1).Some? {
        BindOneMore(Bind(ms, rows, ids, n - 1).value, ms, rows, ids, n - 1);
      }
    }
  }

  lemma NothingBound(ms: Milestones, rows: seq<RowId>, ids: seq<nat>)
    ensures IdsFree(ms, rows, ids, 0) && BoundTo(ms, ms, rows, ids, 0)
  {
  }

  lemma FreeEarlier(ms: Milestones, rows: seq<RowId>, ids: seq<nat>, k: nat)
    requires k < |rows| && IdsFree(ms, rows, ids, k + 1)
    ensures IdsFree(ms, rows, ids, k)
  {
  }

  lemma BindOneMore(t: Milestones, ms: Milestones, rows: seq<RowId>, ids: seq<nat>, k: nat)
    requires k < |rows| && Distinct(rows)
    requires forall i | 0 <= i < |rows| :: rows[i] in ms
    requires BoundTo(t, ms, rows, ids, k) && IdsFree(ms, rows, ids, k)
    ensures rows[k] in t
    ensures IdAt(ids, k).Some? && Taken(t, rows[k], ids[k]) <==> !IdsFree(ms, rows, ids, k + 1)
    ensures BoundTo(WithRow(t, rows, ids, k), ms, rows, ids, k + 1)
  {
    BoundMore(t, ms, rows, ids, k);
    if k < |ids| {
      TakenExactly(t, ms, rows, ids, k);
    }
    hide BoundTo;
    hide Taken;
  }

  lemma BoundMore(t: Milestones, ms: Milestones, rows: seq<RowId>, ids: seq<nat>, k: nat)
    requires k < |rows| && Distinct(rows) && rows[k] in ms && BoundTo(t, ms, rows, ids, k)
    ensures rows[k] in t
    ensures BoundTo(WithRow(t, rows, ids, k), ms, rows, ids, k + 1)
  {
    var u := WithRow(t, rows, ids, k);
    assert rows[..k + 1] == rows[..k] + [rows[k]];
    assert rows[k] !in rows[..k];
    assert t[rows[k]] == ms[rows[k]];
    hide IdAt;
    forall r | r in ms && r !in rows[..k + 1]
      ensures u[r] == ms[r]
    {
      assert r !in rows[..k] && r != rows[k];
    }
    forall i | 0 <= i < k + 1
      ensures rows[i] in ms && u[rows[i]] == ms[rows[i]].(onChainId := IdAt(ids, i), status := BoundStatus(i))
    {
      if i < k { assert rows[i] != rows[k]; }
    }
    assert u.Keys == ms.Keys;
  }

  lemma TakenExactly(t: Milestones, ms: Milestones, rows: seq<RowId>, ids: seq<nat>, k: nat)
    requires k < |rows| && k < |ids| && Distinct(rows)
    requires forall i | 0 <= i < |rows| :: rows[i] in ms
    requires BoundTo(t, ms, rows, ids, k) && IdsFree(ms, rows, ids, k)
    ensures Taken(t, rows[k], ids[k]) <==> !IdsFree(ms, rows, ids, k + 1)
  {
    if r :| r in t && r != rows[k] && t[r].onChainId == Some(ids[k]) {
      HolderFound(t, ms, rows, ids, k, r);
    }
    if !IdsFree(ms, rows, ids, k + 1) {
      NotFreeTaken(t, ms, rows, ids, k);
    }
    hide BoundTo;
    hide IdsFree;
  }

  lemma HolderFound(t: Milestones, ms: Milestones, rows: seq<RowId>, ids: seq<nat>, k: nat, r: RowId)
    requires k < |rows| && k < |ids| && BoundTo(t, ms, rows, ids, k)
    requires r in t && r != rows[k] && t[r].onChainId == Some(ids[k])
    ensures !IdsFree(ms, rows, ids, k + 1)
  {
    assert rows[..k + 1] == rows[..k] + [rows[k]];
    if r in rows[..k] {
      var i :| 0 <= i < k && rows[..k][i] == r;
      assert t[rows[i]].onChainId == IdAt(ids, i);
      assert ids[i] == ids[k];
    } else {
      assert t[r] == ms[r] && r !in rows[..k + 1];
    }
  }

  lemma NotFreeTaken(t: Milestones, ms: Milestones, rows: seq<RowId>, ids: seq<nat>, k: nat)
    requires k < |rows| && k < |ids| && Distinct(rows)
    requires BoundTo(t, ms, rows, ids, k) && IdsFree(ms, rows, ids, k) && !IdsFree(ms, rows, ids, k + 1)
    ensures Taken(t, rows[k], ids[k])
  {
    assert rows[..k + 1] == rows[..k] + [rows[k]];
    if i :| 0 <= i < k && ids[i] == ids[k] {
      assert t[rows[i]].onChainId == Some(ids[k]) && rows[i] != rows[k];
    } else {
      var r :| r in ms && r !in rows[..k + 1] && ms[r].onChainId == Some(ids[k]);
      assert r !in rows[..k];
      assert t[r] == ms[r] && r != rows[k];
    }
  }

  // ---- End to end ---------------------------------------------------------------------

  /** No row is bound to an id that the contract has not handed out yet. */
  ghost predicate IdsKnown(ms: Milestones, f: F.Factory) {
    forall r | r in ms && ms[r].onChainId.Some? :: ms[r].onChainId.value <= f.milestoneCounter
  }

  /** The catalog that the indexer reads is a view of the milestone table. */
  ghost predicate Views(catalog: Catalog, ms: Milestones) {
    && (forall r | r in ms && ms[r].onChainId.Some? ::
          ms[r].onChainId.value in catalog.milestoneRow && catalog.milestoneRow[ms[r].onChainId.value] == r)
    && (forall m | m in catalog.milestoneRow ::
          catalog.milestoneRow[m] in ms && ms[catalog.milestoneRow[m]].onChainId == Some(m))
    && catalog.campaignOf.Keys == ms.Keys
    && (forall r | r in ms :: catalog.campaignOf[r] == ms[r].campaign)
    && (forall c | c in catalog.plan :: ByOrder(ms, c, catalog.plan[c]))
  }

  /** A deployment through the contract and the approval that follows it. */
  ghost predicate Deployed(
    f: F.Factory, tx: F.Tx, ms: Milestones, rows: seq<RowId>, token: Token, deadline: nat, g: F.Factory, c: nat)
    requires forall i | 0 <= i < |rows| :: rows[i] in ms
  {
    && tx.call.CreateCampaign? && tx.call.plans == ContractPlans(ms, rows, token, deadline)
    && F.Exec(f, tx).ok && g == F.Exec(f, tx).factory && c == f.campaignCounter + 1
  }

  /** The receipt names the new campaign, and its list holds one new id per row, in order. */
  lemma NewIds(
    f: F.Factory, tx: F.Tx, ms: Milestones, rows: seq<RowId>, token: Token, deadline: nat, g: F.Factory, c: nat)
    requires forall i | 0 <= i < |rows| :: rows[i] in ms
    requires Deployed(f, tx, ms, rows, token, deadline, g, c)
    ensures F.Exec(f, tx).events != [] && F.Exec(f, tx).events[0] == CampaignCreated(c)
    ensures c in g.campaigns && |g.campaigns[c].milestones| == |rows|
    ensures forall i | 0 <= i < |rows| ::
      var id := g.campaigns[c].milestones[i];
      && id == f.milestoneCounter + 1 + i && id in g.milestones
      && g.milestones[id].amount == InUnits(token, ms[rows[i]].amount) && g.milestones[id].state == F.Waiting
  {
    hide F.Exec;
    hide InUnits;
    hide ContractPlans;
    NewCampaign(f, tx);
    forall i | 0 <= i < |rows|
      ensures var id := g.campaigns[c].milestones[i];
        && id == f.milestoneCounter + 1 + i && id in g.milestones
        && g.milestones[id].amount == InUnits(token, ms[rows[i]].amount) && g.milestones[id].state == F.Waiting
    {
      NewMilestone(f, tx, i);
      PlanAmount(ms, rows, token, deadline, i);
    }
  }

  lemma NewCampaign(f: F.Factory, tx: F.Tx)
    requires tx.call.CreateCampaign? && F.Exec(f, tx).ok
    ensures var o, c := F.Exec(f, tx), f.campaignCounter + 1;
      && o.events != [] && o.events[0] == CampaignCreated(c) && c in o.factory.campaigns
      && |o.factory.campaigns[c].milestones| == |tx.call.plans|
      && forall i | 0 <= i < |tx.call.plans| :: o.factory.campaigns[c].milestones[i] == f.milestoneCounter + 1 + i
  {
    hide F.SumPlans;
  }

  lemma NewMilestone(f: F.Factory, tx: F.Tx, i: nat)
    requires tx.call.CreateCampaign? && F.Exec(f, tx).ok && i < |tx.call.plans|
    ensures var g, id := F.Exec(f, tx).factory, f.milestoneCounter + 1 + i;
      id in g.milestones && g.milestones[id].amount == tx.call.plans[i].amount && g.milestones[id].state == F.Waiting
  {
    hide F.SumPlans;
    var first := f.milestoneCounter + 1;
    var ids := seq(|tx.call.plans|, i => first + i);
    assert ids[i] == first + i && ids[i] in ids;
  }

  /** Deploying and approving binds the campaign's rows one to one and in order to
      on-chain milestones that carry their own amounts, and leaves exactly the state from
      which sequential execution starts. */
  lemma DeploymentBinds(
    f: F.Factory, tx: F.Tx, ms: Milestones, campaign: RowId, rows: seq<RowId>, token: Token, deadline: nat,
    g: F.Factory, c: nat)
    requires Listing(ms, campaign, rows) && IdsKnown(ms, f)
    requires Deployed(f, tx, ms, rows, token, deadline, g, c)
    ensures c in g.campaigns
    ensures var ids := g.campaigns[c].milestones;
      && |ids| == |rows| && Bind(ms, rows, ids, |rows|).Some?
      && var t := Bind(ms, rows, ids, |rows|).value;
         && BoundTo(t, ms, rows, ids, |rows|)
         && (forall i | 0 <= i < |rows| ::
               t[rows[i]].onChainId == Some(ids[i])
               && ids[i] in g.milestones && Worth(token, t[rows[i]].amount, g.milestones[ids[i]].amount))
         && (forall i, r | 0 <= i < |rows| && r in t && t[r].onChainId == Some(ids[i]) :: r == rows[i])
  {
    NewIds(f, tx, ms, rows, token, deadline, g, c);
    hide F.Exec;
    hide Bind;
    hide BoundTo;
    hide InUnits;
    var ids := g.campaigns[c].milestones;
    NewIdsFree(f, ms, rows, ids);
    BindExactly(ms, rows, ids, |rows|);
    BoundOneToOne(Bind(ms, rows, ids, |rows|).value, ms, rows, ids);
    hide IdsFree;
    forall i | 0 <= i < |rows|
      ensures Worth(token, ms[rows[i]].amount, InUnits(token, ms[rows[i]].amount))
    {
      UnitsWorth(token, ms[rows[i]].amount);
    }
    hide Worth;
  }

  lemma NewIdsFree(f: F.Factory, ms: Milestones, rows: seq<RowId>, ids: seq<nat>)
    requires IdsKnown(ms, f) && |ids| == |rows|
    requires forall i | 0 <= i < |rows| :: ids[i] == f.milestoneCounter + 1 + i
    ensures IdsFree(ms, rows, ids, |rows|)
  {
  }

  lemma PrefixMember(rows: seq<RowId>, i: nat, r: RowId)
    requires i < |rows|
    ensures r in rows[..i + 1] ==> r in rows
  {
  }

  lemma HolderInRows(t: Milestones, ms: Milestones, rows: seq<RowId>, ids: seq<nat>, i: nat, r: RowId)
    requires |ids| == |rows| && BoundTo(t, ms, rows, ids, |rows|) && IdsFree(ms, rows, ids, |rows|)
    requires i < |rows| && r in t && t[r].onChainId == Some(ids[i])
    ensures r in rows
  {
    PrefixMember(rows, i, r);
    assert rows[..|rows|] == rows;
  }

  lemma OnlyRow(t: Milestones, ms: Milestones, rows: seq<RowId>, ids: seq<nat>, i: nat, r: RowId)
    requires |ids| == |rows| && BoundTo(t, ms, rows, ids, |rows|) && IdsFree(ms, rows, ids, |rows|)
    requires i < |rows| && r in t && t[r].onChainId == Some(ids[i])
    ensures r == rows[i]
  {
    hide BoundTo;
    hide IdsFree;
    HolderInRows(t, ms, rows, ids, i, r);
    var j :| 0 <= j < |rows| && rows[j] == r;
    IdHeldAt(t, ms, rows, ids, j);
    FreeIdsDiffer(ms, rows, ids);
    assert ids[j] == ids[i];
  }

  lemma FreeIdsDiffer(ms: Milestones, rows: seq<RowId>, ids: seq<nat>)
    requires |ids| == |rows| && IdsFree(ms, rows, ids, |rows|)
    ensures forall i, j | 0 <= i < j < |ids| :: ids[i] != ids[j]
  {
  }

  lemma IdHeldAt(t: Milestones, ms: Milestones, rows: seq<RowId>, ids: seq<nat>, j: nat)
    requires |ids| == |rows| && BoundTo(t, ms, rows, ids, |rows|) && j < |rows|
    ensures rows[j] in t && t[rows[j]].onChainId == Some(ids[j])
  {
  }

  lemma BoundOneToOne(t: Milestones, ms: Milestones, rows: seq<RowId>, ids: seq<nat>)
    requires |ids| == |rows| && BoundTo(t, ms, rows, ids, |rows|) && IdsFree(ms, rows, ids, |rows|)
    ensures forall i | 0 <= i < |rows| ::
      rows[i] in t && t[rows[i]].onChainId == Some(ids[i]) && t[rows[i]].status == BoundStatus(i)
      && rows[i] in ms && t[rows[i]].amount == ms[rows[i]].amount
    ensures forall i, r | 0 <= i < |rows| && r in t && t[r].onChainId == Some(ids[i]) :: r == rows[i]
  {
    forall i, r | 0 <= i < |rows| && r in t && t[r].onChainId == Some(ids[i])
      ensures r == rows[i]
    {
      OnlyRow(t, ms, rows, ids, i, r);
    }
    hide IdsFree;
  }

  /** That state: the rows are bound, and untouched on both sides. */
  lemma DeploymentStartsSequence(
    f: F.Factory, tx: F.Tx, ms: Milestones, campaign: RowId, rows: seq<RowId>, token: Token, deadline: nat,
    g: F.Factory, c: nat, catalog: Catalog, board: Stages.Board)
    requires Listing(ms, campaign, rows) && IdsKnown(ms, f)
    requires Deployed(f, tx, ms, rows, token, deadline, g, c)
    requires c in g.campaigns && var t := Bind(ms, rows, g.campaigns[c].milestones, |rows|);
      t.Some? && Views(catalog, t.value)
      && forall r | r in t.value :: r in board && board[r].status == t.value[r].status
    requires campaign in catalog.plan && OrdersDiffer(ms, campaign)
    ensures Sequencing.Bound(catalog, g, c, campaign) && Sequencing.PlansExact(catalog)
    ensures Sequencing.FreshlyBound(rows, board)
    ensures var ids := g.campaigns[c].milestones;
      forall i | 0 <= i < |ids| :: Sequencing.StateAt(g, ids, i) == F.Waiting
  {
    hide F.Exec;
    hide InUnits;
    hide Bind;
    hide Views;
    hide Sequencing.PlansExact;
    NewIds(f, tx, ms, rows, token, deadline, g, c);
    DeploymentBinds(f, tx, ms, campaign, rows, token, deadline, g, c);
    hide Listing;
    var ids := g.campaigns[c].milestones;
    var t := Bind(ms, rows, ids, |rows|).value;
    hide Deployed;
    hide IdsKnown;
    StatusesBound(t, ms, rows, ids);
    SameColumns(t, ms, rows, ids);
    hide BoundTo;
    PlanIsRows(catalog, t, ms, campaign, rows);
    hide OrdersDiffer;
    PlansAreExact(catalog, t);
    NoRepeats(ms, campaign, rows);
    RowsBound(catalog, t, ids, rows);
    FreshStatuses(t, rows, board);
    StatesWaiting(g, ids);
  }

  lemma NoRepeats(ms: Milestones, campaign: RowId, rows: seq<RowId>)
    requires Listing(ms, campaign, rows)
    ensures Distinct(rows)
  {
  }

  lemma FreshStatuses(t: Milestones, rows: seq<RowId>, board: Stages.Board)
    requires forall r | r in t :: r in board && board[r].status == t[r].status
    requires forall i | 0 <= i < |rows| :: rows[i] in t && t[rows[i]].status == BoundStatus(i)
    ensures Sequencing.FreshlyBound(rows, board)
  {
    forall i | 0 <= i < |rows|
      ensures rows[i] in board && board[rows[i]].status == if i == 0 then Stages.Ongoing else Stages.NotStarted
    {
      var r := rows[i];
      assert r in t && t[r].status == BoundStatus(i);
    }
  }

  lemma StatesWaiting(g: F.Factory, ids: seq<nat>)
    requires forall i | 0 <= i < |ids| :: ids[i] in g.milestones && g.milestones[ids[i]].state == F.Waiting
    ensures forall i | 0 <= i < |ids| :: Sequencing.StateAt(g, ids, i) == F.Waiting
  {
  }

  /** A binding leaves what the ordered queries look at. */
  ghost predicate SameOrders(t: Milestones, ms: Milestones) {
    t.Keys == ms.Keys
    && forall r | r in ms :: t[r].campaign == ms[r].campaign && t[r].order == ms[r].order && t[r].createdAt == ms[r].createdAt
  }

  lemma SameColumns(t: Milestones, ms: Milestones, rows: seq<RowId>, ids: seq<nat>)
    requires BoundTo(t, ms, rows, ids, |rows|)
    ensures SameOrders(t, ms)
  {
    assert rows[..|rows|] == rows;
    forall r | r in ms
      ensures t[r].campaign == ms[r].campaign && t[r].order == ms[r].order && t[r].createdAt == ms[r].createdAt
    {
      if r in rows {
        var i :| 0 <= i < |rows| && rows[i] == r;
        assert t[rows[i]] == ms[rows[i]].(onChainId := IdAt(ids, i), status := BoundStatus(i));
      }
    }
  }

  /** With distinct orders the indexer's list of the campaign is the binding order. */
  lemma PlanIsRows(catalog: Catalog, t: Milestones, ms: Milestones, campaign: RowId, rows: seq<RowId>)
    requires Views(catalog, t) && campaign in catalog.plan && SameOrders(t, ms)
    requires OrdersDiffer(ms, campaign) && Listing(ms, campaign, rows)
    ensures catalog.plan[campaign] == rows
  {
    var plan := catalog.plan[campaign];
    assert ByOrder(t, campaign, plan);
    SameAnswers(t, ms, campaign, plan);
    QueriesAgree(ms, campaign, rows);
  }

  lemma SameAnswers(t: Milestones, ms: Milestones, campaign: RowId, rows: seq<RowId>)
    requires SameOrders(t, ms) && ByOrder(t, campaign, rows)
    ensures ByOrder(ms, campaign, rows)
  {
    forall i | 0 <= i < |rows|
      ensures rows[i] in ms && ms[rows[i]].campaign == campaign && ms[rows[i]].order == t[rows[i]].order
    {
      var r := rows[i];
      assert r in t && t[r].campaign == campaign;
    }
  }

  lemma StatusesBound(t: Milestones, ms: Milestones, rows: seq<RowId>, ids: seq<nat>)
    requires BoundTo(t, ms, rows, ids, |rows|)
    ensures forall i | 0 <= i < |rows| :: rows[i] in t && t[rows[i]].status == BoundStatus(i)
  {
  }

  lemma RowViewed(catalog: Catalog, t: Milestones, r: RowId, id: nat)
    requires Views(catalog, t) && r in t
    ensures r in catalog.campaignOf && catalog.campaignOf[r] == t[r].campaign
    ensures t[r].onChainId == Some(id) ==> id in catalog.milestoneRow && catalog.milestoneRow[id] == r
  {
  }

  lemma RowsBound(catalog: Catalog, t: Milestones, ids: seq<nat>, rows: seq<RowId>)
    requires Views(catalog, t) && |ids| == |rows| && Distinct(rows)
    requires forall i | 0 <= i < |rows| :: rows[i] in t && t[rows[i]].onChainId == Some(ids[i])
    ensures forall i | 0 <= i < |ids| :: ids[i] in catalog.milestoneRow && catalog.milestoneRow[ids[i]] == rows[i]
    ensures forall m | m in catalog.milestoneRow && m !in ids :: catalog.milestoneRow[m] !in rows
  {
    forall i | 0 <= i < |ids|
      ensures ids[i] in catalog.milestoneRow && catalog.milestoneRow[ids[i]] == rows[i]
    {
      RowViewed(catalog, t, rows[i], ids[i]);
    }
    forall m | m in catalog.milestoneRow && m !in ids
      ensures catalog.milestoneRow[m] !in rows
    {
      assert t[catalog.milestoneRow[m]].onChainId == Some(m);
    }
  }

  lemma PlansAreExact(catalog: Catalog, t: Milestones)
    requires Views(catalog, t)
    ensures Sequencing.PlansExact(catalog)
  {
    forall c, i | c in catalog.plan && 0 <= i < |catalog.plan[c]|
      ensures catalog.plan[c][i] in catalog.campaignOf && catalog.campaignOf[catalog.plan[c][i]] == c
    {
      assert ByOrder(t, c, catalog.plan[c]);
      RowViewed(catalog, t, catalog.plan[c][i], 0);
    }
    forall m | m in catalog.campaignOf && catalog.campaignOf[m] in catalog.plan
      ensures m in catalog.plan[catalog.campaignOf[m]]
    {
      assert ByOrder(t, catalog.campaignOf[m], catalog.plan[catalog.campaignOf[m]]);
    }
  }
}
