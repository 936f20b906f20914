/** Contribution rows, keyed by their unique transaction hash, and the raised total that
    each campaign row keeps beside them. */
module Funding {
  import opened Common

  type TxHash = int

  datatype Contribution = Contribution(campaign: RowId, contributor: Wallet, amount: nat, refunded: bool)

  datatype Book = Book(rows: map<TxHash, Contribution>, raised: map<RowId, nat>)

  datatype Op =
    | Contribute(hash: TxHash, campaign: RowId, contributor: Wallet, amount: nat)
    | Claim(campaign: RowId, contributor: Wallet)

  function Raised(b: Book, campaign: RowId): nat {
    if campaign in b.raised then b.raised[campaign] else 0
  }

  predicate ClaimedBy(c: Contribution, campaign: RowId, contributor: Wallet) {
    c.campaign == campaign && c.contributor == contributor
  }

  /** The rows after every contribution of one person to one campaign is marked refunded. */
  function MarkRefunded(rows: map<TxHash, Contribution>, campaign: RowId, contributor: Wallet):
    (marked: map<TxHash, Contribution>)
    ensures marked.Keys == rows.Keys
  {
    map h | h in rows ::
      if ClaimedBy(rows[h], campaign, contributor) then rows[h].(refunded := true) else rows[h]
  }

  function Step(b: Book, op: Op): Book {
    match op
    case Contribute(h, c, who, amount) =>
      if h in b.rows then b
      else Book(b.rows[h := Contribution(c, who, amount, false)], b.raised[c := Raised(b, c) + amount])
    case Claim(c, who) => b.(rows := MarkRefunded(b.rows, c, who))
  }

  function Run(b: Book, ops: seq<Op>): Book {
    if ops == [] then b else Step(Run(b, Front(ops)), Last(ops))
  }

  lemma RunOne(b: Book, op: Op)
    ensures Run(b, [op]) == Step(b, op)
  {
    assert Front([op]) == [];
    assert Run(b, []) == b;
  }

  lemma {:induction false} RunConcat(b: Book, p: seq<Op>, q: seq<Op>)
    ensures Run(b, p + q) == Run(Run(b, p), q)
  {
    if q == [] {
      assert p + q == p;
    } else {
      assert Front(p + q) == p + Front(q);
      RunConcat(b, p, Front(q));
    }
  }

  // ---- Conservation -------------------------------------------------------------------

  /** What the rows of one campaign add up to. */
  ghost function Total(rows: map<TxHash, Contribution>, campaign: RowId): nat
    decreases |rows|
  {
    if forall h: TxHash :: h !in rows then 0
    else
      var h :| h in rows;
      Share(rows[h], campaign) + Total(rows - {h}, campaign)
  }

  function Share(c: Contribution, campaign: RowId): nat {
    if c.campaign == campaign then c.amount else 0
  }

  /** The total may be taken apart at any row. */
  lemma {:induction false} TotalAt(rows: map<TxHash, Contribution>, h: TxHash, campaign: RowId)
    requires h in rows
    ensures Total(rows, campaign) == Share(rows[h], campaign) + Total(rows - {h}, campaign)
    decreases |rows|
  {
    var g :| g in rows && Total(rows, campaign) == Share(rows[g], campaign) + Total(rows - {g}, campaign);
    if g != h {
      TotalAt(rows - {g}, h, campaign);
      TotalAt(rows - {h}, g, campaign);
      assert rows - {g} - {h} == rows - {h} - {g};
    }
  }

  lemma {:induction false} TotalIgnoresRefunds(a: map<TxHash, Contribution>, b: map<TxHash, Contribution>, campaign: RowId)
    requires a.Keys == b.Keys
    requires forall h <- a :: b[h].(refunded := false) == a[h].(refunded := false)
    ensures Total(a, campaign) == Total(b, campaign)
    decreases |a|
  {
    if exists h: TxHash :: h in a {
      var h :| h in a;
      TotalAt(a, h, campaign);
      TotalAt(b, h, campaign);
      assert (a - {h}).Keys == (b - {h}).Keys;
      TotalIgnoresRefunds(a - {h}, b - {h}, campaign);
    }
  }

  /** Every campaign's raised total grows by exactly the rows that were added for it,
      whatever is delivered and however often. */
  lemma {:induction false} Conservation(b: Book, ops: seq<Op>, campaign: RowId)
    ensures Raised(Run(b, ops), campaign) - Raised(b, campaign)
         == Total(Run(b, ops).rows, campaign) - Total(b.rows, campaign)
  {
    if ops != [] {
      Conservation(b, Front(ops), campaign);
      var m := Run(b, Front(ops));
      match Last(ops)
      case Contribute(h, c, who, amount) =>
        if h !in m.rows {
          var rows := Step(m, Last(ops)).rows;
          TotalAt(rows, h, campaign);
          assert rows - {h} == m.rows;
        }
      case Claim(c, who) =>
        TotalIgnoresRefunds(m.rows, Step(m, Last(ops)).rows, campaign);
    }
  }

  predicate KeepsData(a: Book, b: Book, h: TxHash)
    requires h in a.rows
  {
    h in b.rows && a.rows[h].(refunded := false) == b.rows[h].(refunded := false)
  }

  /** The rows are exactly the earlier ones and one for each delivered hash, and
      an earlier row keeps its contributor, campaign and amount. */
  lemma {:induction false} RowKeys(b: Book, ops: seq<Op>)
    ensures forall h :: h in Run(b, ops).rows <==>
      h in b.rows || exists i :: 0 <= i < |ops| && ops[i].Contribute? && ops[i].hash == h
    ensures forall h <- b.rows :: KeepsData(b, Run(b, ops), h)
  {
    if ops != [] {
      RowKeys(b, Front(ops));
      var last := Last(ops);
      assert ops == Front(ops) + [last];
      assert forall i :: 0 <= i < |ops| - 1 ==> Front(ops)[i] == ops[i];
      if last.Contribute? {
        assert ops[|ops| - 1].hash == last.hash;
      }
    }
  }

  // ---- Idempotence --------------------------------------------------------------------

  /** No claim is delivered before a contribution by the same person to the same campaign. */
  predicate ClaimsLast(ops: seq<Op>) {
    ops == [] || (ClaimsLast(Front(ops)) && forall i | 0 <= i < |ops| - 1 :: !ClaimBefore(ops[i], Last(ops)))
  }

  predicate ClaimBefore(earlier: Op, later: Op) {
    earlier.Claim? && later.Contribute? && earlier.campaign == later.campaign && earlier.contributor == later.contributor
  }

  /** Books that agree but for refund marks on one person's rows of one campaign. */
  ghost predicate SameButMarks(a: Book, b: Book, campaign: RowId, who: Wallet) {
    && a.raised == b.raised
    && a.rows.Keys == b.rows.Keys
    && forall h <- a.rows ::
         && a.rows[h].(refunded := false) == b.rows[h].(refunded := false)
         && (ClaimedBy(a.rows[h], campaign, who) || a.rows[h] == b.rows[h])
  }

  lemma {:induction false} MarksCommute(a: Book, b: Book, campaign: RowId, who: Wallet, ops: seq<Op>)
    requires SameButMarks(a, b, campaign, who)
    ensures SameButMarks(Run(a, ops), Run(b, ops), campaign, who)
  {
    if ops != [] {
      MarksCommute(a, b, campaign, who, Front(ops));
    }
  }

  lemma MarkEqualizes(a: Book, b: Book, campaign: RowId, who: Wallet)
    requires SameButMarks(a, b, campaign, who)
    ensures Step(a, Claim(campaign, who)) == Step(b, Claim(campaign, who))
  {
    var x, y := MarkRefunded(a.rows, campaign, who), MarkRefunded(b.rows, campaign, who);
    assert forall h <- x :: x[h] == y[h];
  }

  /** A row whose hash and claimant the batch does not mention rides along unchanged. */
  lemma {:induction false} RowRidesAlong(b: Book, add: Op, ops: seq<Op>)
    requires add.Contribute? && add.hash !in b.rows
    requires forall i | 0 <= i < |ops| :: !ClaimBefore(ops[i], add) && !(ops[i].Contribute? && ops[i].hash == add.hash)
    ensures add.hash !in Run(b, ops).rows && Run(Step(b, add), ops) == Step(Run(b, ops), add)
  {
    if ops != [] {
      RowRidesAlong(b, add, Front(ops));
      var last := ops[|ops| - 1];
      assert !ClaimBefore(last, add) && !(last.Contribute? && last.hash == add.hash);
      var m := Run(b, Front(ops));
      assert Run(Step(b, add), ops) == Step(Step(m, add), last);
      Commute(m, add, last);
    }
  }

  /** Adding a fresh row commutes with any other update that does not mention it. */
  lemma Commute(b: Book, add: Op, op: Op)
    requires add.Contribute? && add.hash !in b.rows
    requires !ClaimBefore(op, add) && !(op.Contribute? && op.hash == add.hash)
    ensures Step(Step(b, add), op) == Step(Step(b, op), add)
  {
    var x, y := Step(Step(b, add), op), Step(Step(b, op), add);
    assert x.rows == y.rows;
    match op
    case Contribute(_, c, _, _) =>
      if op.hash !in b.rows && c != add.campaign {
        assert x.raised == y.raised;
      }
    case Claim(_, _) =>
  }

  /** Delivering a batch twice leaves rows, refund marks and totals as one delivery does. */
  lemma {:induction false} Idempotent(b: Book, ops: seq<Op>)
    requires ClaimsLast(ops)
    ensures Run(Run(b, ops), ops) == Run(b, ops)
  {
    if ops != [] {
      var q, op := Front(ops), Last(ops);
      var x := Run(b, q);
      Idempotent(b, q);
      var y := Step(x, op);
      match op
      case Contribute(h, c, who, amount) =>
        if h !in x.rows {
          RowKeys(b, q);
          RowRidesAlong(x, op, q);
        } 
      case Claim(c, who) =>
        assert SameButMarks(x, y, c, who);
        MarksCommute(x, y, c, who, q);
        MarkEqualizes(Run(x, q), Run(y, q), c, who);
    }
  }

  // ---- Order independence -------------------------------------------------------------

  predicate OnlyContributions(ops: seq<Op>) {
    forall i | 0 <= i < |ops| :: ops[i].Contribute?
  }

  predicate DistinctHashes(ops: seq<Op>)
    requires OnlyContributions(ops)
  {
    forall i, j | 0 <= i < j < |ops| :: ops[i].hash != ops[j].hash
  }

  /** Contributions with distinct hashes give the same book in every order of delivery. */
  lemma {:induction false} AnyOrder(b: Book, p: seq<Op>, q: seq<Op>)
    requires OnlyContributions(p) && DistinctHashes(p)
    requires OnlyContributions(q) && DistinctHashes(q)
    requires multiset(p) == multiset(q)
    ensures Run(b, p) == Run(b, q)
    decreases |p|
  {
    if p == [] {
      assert |multiset(q)| == 0;
    } else {
      var op := Last(p);
      assert p == Front(p) + [op];
      assert op in multiset(q);
      var i :| 0 <= i < |q| && q[i] == op;
      var rest := q[..i] + q[i + 1..];
      Without(q, i);
      Without(p, |p| - 1);
      assert p[..|p| - 1] + p[|p|..] == Front(p);
      AnyOrder(b, Front(p), rest);
      PullOut(b, q, i);
    }
  }

  lemma Without(q: seq<Op>, i: nat)
    requires i < |q| && OnlyContributions(q) && DistinctHashes(q)
    ensures var rest := q[..i] + q[i + 1..];
      OnlyContributions(rest) && DistinctHashes(rest) && multiset(rest) == multiset(q) - multiset{q[i]}
  {
    var rest := q[..i] + q[i + 1..];
    assert multiset(rest) == multiset(q) - multiset{q[i]} by {
      assert q == q[..i] + [q[i]] + q[i + 1..];
    }
    forall j | 0 <= j < |rest|
      ensures rest[j] == q[if j < i then j else j + 1]
    {}
    forall j, k | 0 <= j < k < |rest|
      ensures rest[j].hash != rest[k].hash
    {
      var a, b := if j < i then j else j + 1, if k < i then k else k + 1;
      assert a < b && q[a].hash != q[b].hash;
    }
  }

  lemma PullOut(b: Book, q: seq<Op>, i: nat)
    requires i < |q| && OnlyContributions(q) && DistinctHashes(q)
    ensures Run(b, q) == Step(Run(b, q[..i] + q[i + 1..]), q[i])
  {
    var before, op, after := q[..i], q[i], q[i + 1..];
    assert q == (before + [op]) + after;
    assert Front(before + [op]) == before;
    RunConcat(b, before + [op], after);
    RunConcat(b, before, after);
    assert forall j | 0 <= j < |after| :: after[j] == q[i + 1 + j];
    MoveToEnd(Run(b, before), op, after);
  }

  /** A contribution may be delivered after others with different hashes instead of before. */
  lemma {:induction false} MoveToEnd(b: Book, op: Op, after: seq<Op>)
    requires op.Contribute? && OnlyContributions(after)
    requires forall j | 0 <= j < |after| :: after[j].hash != op.hash
    ensures Run(Step(b, op), after) == Step(Run(b, after), op)
  {
    if op.hash in b.rows {
      RowKeys(b, after);
    } else {
      RowRidesAlong(b, op, after);
    }
  }
}
