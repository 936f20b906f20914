/** A contributor's view: what he can reclaim, grouped by campaign, and his transaction
    history. */
module UsersService {
  import opened Common
  import opened Events
  import opened Database
  import opened Grouping
  import F = CampaignFactory
  import FactorySolvency
  import Funding
  import Lifecycle
  import Replay

  type Rows = map<Funding.TxHash, Funding.Contribution>

  // ---- What can be reclaimed ----------------------------------------------------------

  predicate Refundable(lives: Lifecycle.Table, campaign: RowId) {
    && campaign in lives && lives[campaign].reclaimed
    && (lives[campaign].status == Lifecycle.Flagged || lives[campaign].status == Lifecycle.Failed
        || lives[campaign].status == Lifecycle.Active)
  }

  predicate Reclaimable(rows: Rows, lives: Lifecycle.Table, user: Wallet, h: Funding.TxHash) {
    h in rows && rows[h].contributor == user && !rows[h].refunded && Refundable(lives, rows[h].campaign)
  }

  /** `answer` is what the database returns: each reclaimable contribution once. */
  ghost predicate Answers(rows: Rows, lives: Lifecycle.Table, user: Wallet, answer: seq<Funding.TxHash>) {
    && NoRepeats(answer)
    && (forall i | 0 <= i < |answer| :: Reclaimable(rows, lives, user, answer[i]))
    && (forall h | Reclaimable(rows, lives, user, h) :: h in answer)
  }

  predicate AllIn(rows: Rows, answer: seq<Funding.TxHash>) {
    forall i | 0 <= i < |answer| :: answer[i] in rows
  }

  /** The contributions as amounts keyed by campaign. */
  function Amounts(rows: Rows, answer: seq<Funding.TxHash>): (items: seq<Item<RowId>>)
    requires AllIn(rows, answer)
    ensures |items| == |answer|
  {
    seq(|answer|, i requires 0 <= i < |answer| => Item(rows[answer[i]].campaign, rows[answer[i]].amount))
  }

  /** The contributions to one campaign, in the order of the answer. */
  function MembersOf(rows: Rows, answer: seq<Funding.TxHash>, campaign: RowId): seq<Funding.TxHash>
    requires AllIn(rows, answer)
  {
    if answer == [] then []
    else
      MembersOf(rows, Front(answer), campaign)
      + if rows[Last(answer)].campaign == campaign then [Last(answer)] else []
  }

  datatype Entry = Entry(total: nat, members: seq<Funding.TxHash>)

  datatype Group = Group(campaign: RowId, total: nat, members: seq<Funding.TxHash>)

  /** One group for each campaign: its contributions and what they add up to. */
  ghost predicate Groups(rows: Rows, answer: seq<Funding.TxHash>, groups: seq<Group>)
    requires AllIn(rows, answer)
  {
    && |groups| == |Keys(Amounts(rows, answer))|
    && forall i | 0 <= i < |groups| ::
         && groups[i].campaign == Keys(Amounts(rows, answer))[i]
         && groups[i].total == TotalOf(Amounts(rows, answer), groups[i].campaign)
         && groups[i].members == MembersOf(rows, answer, groups[i].campaign)
  }

  function At(entries: map<RowId, Entry>, campaign: RowId): Entry {
    if campaign in entries then entries[campaign] else Entry(0, [])
  }

  lemma NoGroups(rows: Rows)
    ensures Keys(Amounts(rows, [])) == [] && forall c :: Grouped(rows, [], c) == Entry(0, [])
  {
  }

  /** Goes through the contributions and opens a group where there is none yet. */
  method GetReclaimable(rows: Rows, answer: seq<Funding.TxHash>) returns (groups: seq<Group>)
    requires AllIn(rows, answer)
    ensures Groups(rows, answer, groups)
  {
    var order: seq<RowId>, entries: map<RowId, Entry> := [], map[];
    assert answer[..0] == [];
    NoGroups(rows);
    hide Keys;
    hide TotalOf;
    hide MembersOf;
    hide Amounts;
    for n := 0 to |answer|
      invariant AllIn(rows, answer[..n])
      invariant order == Keys(Amounts(rows, answer[..n]))
      invariant forall c :: c in entries <==> c in order
      invariant forall c :: At(entries, c) == Grouped(rows, answer[..n], c)
    {
      var h := answer[n];
      var c := rows[h].campaign;
      OneMore(rows, answer, n);
      if c !in entries {
        order, entries := order + [c], entries[c := Entry(0, [])];
      }
      ghost var before := entries;
      entries := entries[c := Entry(entries[c].total + rows[h].amount, entries[c].members + [h])];
      forall d
        ensures At(entries, d) == Grouped(rows, answer[..n + 1], d)
      {
        assert At(before, d) == Grouped(rows, answer[..n], d);
      }
    }
    assert answer[..|answer|] == answer;
    groups := [];
    for n := 0 to |order|
      invariant |groups| == n
      invariant forall i | 0 <= i < n ::
        groups[i] == Group(order[i], Grouped(rows, answer, order[i]).total, Grouped(rows, answer, order[i]).members)
    {
      var c := order[n];
      assert c in order;
      assert At(entries, c) == Grouped(rows, answer, c);
      groups := groups + [Group(c, entries[c].total, entries[c].members)];
    }
  }

  function Grouped(rows: Rows, answer: seq<Funding.TxHash>, campaign: RowId): Entry
    requires AllIn(rows, answer)
  {
    Entry(TotalOf(Amounts(rows, answer), campaign), MembersOf(rows, answer, campaign))
  }

  /** The entry of campaign d after one more contribution. */
  function Joined(rows: Rows, entry: Entry, h: Funding.TxHash, d: RowId): Entry
    requires h in rows
  {
    if rows[h].campaign == d then Entry(entry.total + rows[h].amount, entry.members + [h]) else entry
  }

  lemma OneMore(rows: Rows, answer: seq<Funding.TxHash>, n: nat)
    requires n < |answer| && AllIn(rows, answer)
    ensures AllIn(rows, answer[..n]) && AllIn(rows, answer[..n + 1])
    ensures var earlier, c := Keys(Amounts(rows, answer[..n])), rows[answer[n]].campaign;
      Keys(Amounts(rows, answer[..n + 1])) == if c in earlier then earlier else earlier + [c]
    ensures forall d :: Grouped(rows, answer[..n + 1], d) == Joined(rows, Grouped(rows, answer[..n], d), answer[n], d)
  {
    var p, q := answer[..n], answer[..n + 1];
    assert Front(q) == p && Last(q) == answer[n];
    assert Front(Amounts(rows, q)) == Amounts(rows, p);
    assert Last(Amounts(rows, q)) == Item(rows[answer[n]].campaign, rows[answer[n]].amount);
    assert forall s: seq<Funding.TxHash> :: s + [] == s;
  }

  lemma {:induction false} MembersExact(rows: Rows, answer: seq<Funding.TxHash>, campaign: RowId)
    requires AllIn(rows, answer)
    ensures forall h :: h in MembersOf(rows, answer, campaign) <==> h in answer && h in rows && rows[h].campaign == campaign
    ensures NoRepeats(answer) ==> NoRepeats(MembersOf(rows, answer, campaign))
  {
    if answer != [] {
      var front := Front(answer);
      assert forall i | 0 <= i < |front| :: front[i] == answer[i];
      MembersExact(rows, front, campaign);
      assert answer == front + [Last(answer)];
      var earlier := MembersOf(rows, front, campaign);
      forall i | 0 <= i < |earlier| && NoRepeats(answer)
        ensures earlier[i] != Last(answer)
      {
        var h := earlier[i];
        assert h in earlier;
        assert h in front;
      }
    }
  }

  /** Each reclaimable contribution is in exactly one group, that of its campaign, and all
      groups together add up to all of them. */
  lemma EachInOneGroup(rows: Rows, lives: Lifecycle.Table, user: Wallet, answer: seq<Funding.TxHash>, groups: seq<Group>)
    requires AllIn(rows, answer) && Answers(rows, lives, user, answer) && Groups(rows, answer, groups)
    ensures forall h, i | 0 <= i < |groups| ::
      h in groups[i].members <==> Reclaimable(rows, lives, user, h) && rows[h].campaign == groups[i].campaign
    ensures forall h | Reclaimable(rows, lives, user, h) :: exists i :: 0 <= i < |groups| && h in groups[i].members
    ensures forall i, j | 0 <= i < j < |groups| :: groups[i].campaign != groups[j].campaign
    ensures forall i | 0 <= i < |groups| :: NoRepeats(groups[i].members)
    ensures SumOver(Amounts(rows, answer), Keys(Amounts(rows, answer))) == Total(Amounts(rows, answer))
  {
    var items := Amounts(rows, answer);
    KeysExact(items);
    AllGroups(items);
    forall i | 0 <= i < |groups|
      ensures NoRepeats(groups[i].members)
      ensures forall h :: h in groups[i].members <==> h in answer && h in rows && rows[h].campaign == groups[i].campaign
    {
      MembersExact(rows, answer, groups[i].campaign);
    }
    forall h | Reclaimable(rows, lives, user, h)
      ensures exists i :: 0 <= i < |groups| && h in groups[i].members
    {
      var n :| 0 <= n < |answer| && answer[n] == h;
      assert items[n].key == rows[h].campaign && items[n].key in Keys(items);
      var i :| 0 <= i < |Keys(items)| && Keys(items)[i] == rows[h].campaign;
      assert groups[i].campaign == rows[h].campaign;
    }
    hide Keys;
    hide MembersOf;
  }

  // ---- After a refund -----------------------------------------------------------------

  /** Nothing of this user's is left to reclaim from the campaign. */
  ghost predicate NothingLeft(db: Db, campaign: RowId, user: Wallet) {
    forall h | h in db.book.rows && Funding.ClaimedBy(db.book.rows[h], campaign, user) :: db.book.rows[h].refunded
  }

  lemma ClaimLeavesNothing(db: Db, log: Log)
    requires log.event.RefundClaimed? && log.event.campaign in db.links
    ensures NothingLeft(Apply(db, log), db.links[log.event.campaign], Lower(log.event.contributor))
  {
    Funding.RunOne(db.book, FundingOps(db.links, log)[0]);
  }

  predicate Contributes(log: Log, c: nat, user: Wallet) {
    log.event.ContributionMade? && log.event.campaign == c && Lower(log.event.contributor) == user
  }

  lemma NothingStep(db: Db, log: Log, c: nat, user: Wallet)
    requires Valid(db) && c in db.links && NothingLeft(db, db.links[c], user) && !Contributes(log, c, user)
    ensures NothingLeft(Apply(db, log), db.links[c], user)
  {
    var ops := FundingOps(db.links, log);
    if ops != [] {
      assert ops == [ops[0]];
      Funding.RunOne(db.book, ops[0]);
    }
  }

  lemma {:induction false} NothingStays(db: Db, logs: seq<Log>, c: nat, user: Wallet)
    requires Valid(db) && c in db.links && NothingLeft(db, db.links[c], user)
    requires forall i | 0 <= i < |logs| :: !Contributes(logs[i], c, user)
    ensures c in Fold(db, logs).links && Fold(db, logs).links[c] == db.links[c]
    ensures NothingLeft(Fold(db, logs), db.links[c], user)
  {
    hide Database.Apply;
    hide NothingLeft;
    hide Contributes;
    LinksGrow(db, logs);
    if logs != [] {
      NothingStays(db, Front(logs), c, user);
      LinksGrow(db, Front(logs));
      assert !Contributes(logs[|logs| - 1], c, user);
      NothingStep(Fold(db, Front(logs)), Last(logs), c, user);
    }
  }

  /** After an indexed refund claim the campaign has no group in the claimant's list, until
      a new contribution of his to it is indexed. */
  lemma ClaimedCampaignAbsent(
    db: Db, claim: Log, logs: seq<Log>, answer: seq<Funding.TxHash>, groups: seq<Group>)
    requires Valid(db) && claim.event.RefundClaimed? && claim.event.campaign in db.links
    requires var user := Lower(claim.event.contributor);
      forall i | 0 <= i < |logs| :: !Contributes(logs[i], claim.event.campaign, user)
    requires var t, user := Fold(db, [claim] + logs), Lower(claim.event.contributor);
      AllIn(t.book.rows, answer) && Answers(t.book.rows, t.lives, user, answer) && Groups(t.book.rows, answer, groups)
    ensures forall i | 0 <= i < |groups| :: groups[i].campaign != db.links[claim.event.campaign]
  {
    hide Database.Apply;
    var c, user := claim.event.campaign, Lower(claim.event.contributor);
    var m, t := Apply(db, claim), Fold(db, [claim] + logs);
    FoldConcat(db, [claim], logs);
    assert Front([claim]) == [] && Fold(db, [claim]) == m;
    LinksGrow(db, [claim]);
    ClaimLeavesNothing(db, claim);
    NothingStays(m, logs, c, user);
    NoGroup(t, c, user, answer, groups);
  }

  lemma NoGroup(t: Db, c: nat, user: Wallet, answer: seq<Funding.TxHash>, groups: seq<Group>)
    requires c in t.links && NothingLeft(t, t.links[c], user)
    requires AllIn(t.book.rows, answer) && Answers(t.book.rows, t.lives, user, answer)
    requires Groups(t.book.rows, answer, groups)
    ensures forall i | 0 <= i < |groups| :: groups[i].campaign != t.links[c]
  {
    var items := Amounts(t.book.rows, answer);
    KeysExact(items);
    forall i | 0 <= i < |groups|
      ensures groups[i].campaign != t.links[c]
    {
      var k := groups[i].campaign;
      assert k in Keys(items);
      var n :| 0 <= n < |items| && items[n].key == k;
      assert Reclaimable(t.book.rows, t.lives, user, answer[n]);
    }
  }

  // ---- Transaction history ------------------------------------------------------------

  datatype Paid = Paid(hash: Funding.TxHash, amount: nat, refunded: bool)

  /** Amounts are in hundredths of the unit that contributions are in, so that 95% of a
      contribution is exact. */
  datatype Transaction = Transaction(hash: Funding.TxHash, refund: bool, hundredths: nat)

  function History(paid: seq<Paid>): seq<Transaction> {
    if paid == [] then []
    else
      var p := Last(paid);
      History(Front(paid)) + [Transaction(p.hash, false, 100 * p.amount)]
      + if p.refunded then [Transaction(p.hash, true, F.REFUND_PERCENTAGE * p.amount)] else []
  }

  method GetTransactions(paid: seq<Paid>) returns (entries: seq<Transaction>)
    ensures entries == History(paid)
  {
    entries := [];
    for n := 0 to |paid|
      invariant entries == History(paid[..n])
    {
      assert Front(paid[..n + 1]) == paid[..n];
      entries := entries + [Transaction(paid[n].hash, false, 100 * paid[n].amount)];
      if paid[n].refunded {
        entries := entries + [Transaction(paid[n].hash, true, F.REFUND_PERCENTAGE * paid[n].amount)];
      }
    }
    assert paid[..|paid|] == paid;
  }

  function Only(entries: seq<Transaction>, refund: bool): seq<Transaction> {
    if entries == [] then []
    else Only(Front(entries), refund) + if Last(entries).refund == refund then [Last(entries)] else []
  }

  lemma {:induction false} OnlyConcat(a: seq<Transaction>, b: seq<Transaction>, refund: bool)
    ensures Only(a + b, refund) == Only(a, refund) + Only(b, refund)
  {
    if b == [] {
      assert a + b == a;
    } else {
      assert Front(a + b) == a + Front(b);
      OnlyConcat(a, Front(b), refund);
    }
  }

  function Contributed(paid: seq<Paid>): seq<Transaction> {
    seq(|paid|, i requires 0 <= i < |paid| => Transaction(paid[i].hash, false, 100 * paid[i].amount))
  }

  function Total100(entries: seq<Transaction>): nat {
    if entries == [] then 0 else Total100(Front(entries)) + Last(entries).hundredths
  }

  function RefundedTotal(paid: seq<Paid>): nat {
    if paid == [] then 0 else RefundedTotal(Front(paid)) + if Last(paid).refunded then Last(paid).amount else 0
  }

  /** The history holds every contribution once and in order, and reports as refunds 95% of
      the refunded ones. */
  lemma {:induction false} HistoryComplete(paid: seq<Paid>)
    ensures Only(History(paid), false) == Contributed(paid)
    ensures Total100(Only(History(paid), true)) == 95 * RefundedTotal(paid)
  {
    if paid != [] {
      var front, p := Front(paid), Last(paid);
      HistoryComplete(front);
      HistoryStep(paid);
      var made := [Transaction(p.hash, false, 100 * p.amount)];
      var back: seq<Transaction> := if p.refunded then [Transaction(p.hash, true, 95 * p.amount)] else [];
      hide History;
      hide Only;
      assert Contributed(paid) == Contributed(front) + made;
      RefundsAdd(Only(History(front), true), back);
    }
  }

  /** Where the entry of the i-th contribution stands: behind those before it and their
      refunds. */
  function Place(paid: seq<Paid>, i: nat): nat
    requires i <= |paid|
  {
    if i == 0 then 0 else Place(paid, i - 1) + if paid[i - 1].refunded then 2 else 1
  }

  ghost predicate EntryAt(paid: seq<Paid>, history: seq<Transaction>, i: nat)
    requires i < |paid|
  {
    var at := Place(paid, i);
    && at + (if paid[i].refunded then 1 else 0) < |history|
    && history[at] == Transaction(paid[i].hash, false, 100 * paid[i].amount)
    && (paid[i].refunded ==> history[at + 1] == Transaction(paid[i].hash, true, 95 * paid[i].amount))
  }

  /** Each contribution has its entry at its place, with its refund of 95% right behind it if
      it was refunded, and there are no other entries. */
  lemma {:induction false} HistoryByPlace(paid: seq<Paid>)
    ensures |History(paid)| == Place(paid, |paid|)
    ensures forall i: nat | i < |paid| :: EntryAt(paid, History(paid), i)
  {
    if paid != [] {
      var n, h := |paid| - 1, History(Front(paid));
      HistoryByPlace(Front(paid));
      SamePlace(Front(paid), paid, n);
      NewestEntry(paid);
      var block := Block(paid[n]);
      hide History;
      hide Place;
      forall i: nat | i < |paid|
        ensures EntryAt(paid, h + block, i)
      {
        if i < n {
          SamePlace(Front(paid), paid, i);
          EntryKept(paid, h, block, i);
        }
      }
    }
  }

  /** What one contribution adds to the history. */
  function Block(p: Paid): seq<Transaction> {
    [Transaction(p.hash, false, 100 * p.amount)] + if p.refunded then [Transaction(p.hash, true, 95 * p.amount)] else []
  }

  lemma EntryKept(paid: seq<Paid>, h: seq<Transaction>, block: seq<Transaction>, i: nat)
    requires i < |paid| - 1 && EntryAt(Front(paid), h, i) && Place(Front(paid), i) == Place(paid, i)
    ensures EntryAt(paid, h + block, i)
  {
    hide Place;
  }

  lemma NewestEntry(paid: seq<Paid>)
    requires paid != [] && |History(Front(paid))| == Place(Front(paid), |paid| - 1)
    requires Place(Front(paid), |paid| - 1) == Place(paid, |paid| - 1)
    ensures History(paid) == History(Front(paid)) + Block(Last(paid))
    ensures EntryAt(paid, History(paid), |paid| - 1) && |History(paid)| == Place(paid, |paid|)
  {
    assert History(paid) == History(Front(paid)) + Block(Last(paid));
    var h := History(Front(paid));
    hide History;
    assert (h + Block(Last(paid)))[|h|] == Block(Last(paid))[0];
    if Last(paid).refunded { assert (h + Block(Last(paid)))[|h| + 1] == Block(Last(paid))[1]; }
  }

  lemma {:induction false} SamePlace(front: seq<Paid>, paid: seq<Paid>, i: nat)
    requires i <= |front| <= |paid| && forall j | 0 <= j < |front| :: front[j] == paid[j]
    ensures Place(front, i) == Place(paid, i)
  {
    if i > 0 { SamePlace(front, paid, i - 1); }
  }

  lemma HistoryStep(paid: seq<Paid>)
    requires paid != []
    ensures var front, p := Front(paid), Last(paid);
      var back: seq<Transaction> := if p.refunded then [Transaction(p.hash, true, 95 * p.amount)] else [];
      && Only(History(paid), false) == Only(History(front), false) + [Transaction(p.hash, false, 100 * p.amount)]
      && Only(History(paid), true) == Only(History(front), true) + back
  {
    var front, p := Front(paid), Last(paid);
    var made := [Transaction(p.hash, false, 100 * p.amount)];
    var back: seq<Transaction> := if p.refunded then [Transaction(p.hash, true, 95 * p.amount)] else [];
    assert History(paid) == History(front) + made + back;
    hide History;
    OneEntry(made, false);
    OneEntry(back, true);
    hide Only;
    OnlyConcat(History(front) + made, back, false);
    OnlyConcat(History(front), made, false);
    OnlyConcat(History(front) + made, back, true);
    OnlyConcat(History(front), made, true);
  }

  lemma OneEntry(entries: seq<Transaction>, refund: bool)
    requires |entries| <= 1 && (entries != [] ==> entries[0].refund == refund)
    ensures Only(entries, refund) == entries && Only(entries, !refund) == []
  {
    if entries != [] {
      assert Front(entries) == [];
    }
  }

  lemma RefundsAdd(a: seq<Transaction>, b: seq<Transaction>)
    requires |b| <= 1
    ensures Total100(a + b) == Total100(a) + if b == [] then 0 else b[0].hundredths
  {
    if b == [] {
      assert a + b == a;
    } else {
      assert Front(a + b) == a;
    }
  }

  /** The contract never pays a refund above the figure that the history reports, whatever
      contributions made up the stake. */
  lemma ReportedCoversPaid(paid: seq<Paid>, stake: nat, available: nat, raised: nat)
    requires raised > 0 && available <= raised && stake <= RefundedTotal(paid)
    ensures 100 * F.RefundOf(stake, available, raised) <= Total100(Only(History(paid), true))
  {
    hide F.RefundOf;
    FactorySolvency.RefundWithinReported(stake, available, raised);
    HistoryComplete(paid);
  }
}
