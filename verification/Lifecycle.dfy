/** The status, approval and reclaim columns of one campaign row, and the updates the
    indexer's handlers make to them. */
module Lifecycle {
  import opened Common

  datatype CampaignStatus = Pending | Active | Funded | Completed | Failed | Flagged | ChangesRequested

  datatype Life = Life(status: CampaignStatus, approved: bool, reclaimed: bool)

  /** One handler's update of the row. `Sync` is the guarded update of the generic
      status event, `Set` the unguarded one, `Cancel` also copies the reclaim flag read
      from the contract. */
  datatype LifeOp =
    | Approve
    | Sync(to: CampaignStatus)
    | Set(to: CampaignStatus)
    | Cancel(reclaimed: bool)
    | Reclaim

  /** An admin rejection, which the generic status event never overwrites. */
  predicate AdminRejected(l: Life) {
    l.status == Failed && !l.approved
  }

  function Step(l: Life, op: LifeOp): Life {
    match op
    case Approve => if l.status == Pending then l.(status := Active, approved := true) else l
    case Sync(to) => if AdminRejected(l) then l else l.(status := to)
    case Set(to) => l.(status := to)
    case Cancel(reclaimed) => l.(status := Failed, reclaimed := reclaimed)
    case Reclaim => l.(reclaimed := true)
  }

  function Run(l: Life, ops: seq<LifeOp>): Life {
    if ops == [] then l else Step(Run(l, Front(ops)), Last(ops))
  }

  /** A row that an admin rejected keeps its status whatever creations, approvals and status
      changes are indexed; every other row takes the status that is announced. */
  lemma {:induction false} RejectionStays(l: Life, ops: seq<LifeOp>)
    requires l.status == Failed && !l.approved
    requires forall i | 0 <= i < |ops| :: ops[i].Approve? || ops[i].Sync? || ops[i].Reclaim?
    ensures Run(l, ops).status == Failed && !Run(l, ops).approved
    ensures forall k: Life, to :: (k.status == Failed && !k.approved) || Step(k, Sync(to)).status == to
  {
    if ops != [] {
      assert ops[|ops| - 1] == Last(ops);
      RejectionStays(l, Front(ops));
    }
  }

  predicate NeverPending(ops: seq<LifeOp>) {
    forall i | 0 <= i < |ops| :: ops[i] != Sync(Pending) && ops[i] != Set(Pending)
  }

  /** Once a row has left PENDING no event brings it back, so its approval flag is final. */
  lemma {:induction false} LeftPending(l: Life, ops: seq<LifeOp>)
    requires NeverPending(ops)
    requires l.status != Pending
    ensures Run(l, ops).status != Pending && Run(l, ops).approved == l.approved
  {
    if ops != [] {
      LeftPending(l, Front(ops));
    }
  }

  predicate WritesStatus(op: LifeOp) {
    !op.Reclaim?
  }

  /** Any status update takes a row out of PENDING for good. */
  lemma {:induction false} WriteLeavesPending(l: Life, ops: seq<LifeOp>)
    requires NeverPending(ops)
    requires exists op <- ops :: WritesStatus(op)
    ensures Run(l, ops).status != Pending
  {
    if WritesStatus(Last(ops)) {
      var m := Run(l, Front(ops));
    } else {
      var op :| op in ops && WritesStatus(op);
      assert ops == Front(ops) + [Last(ops)];
      assert op in Front(ops);
      WriteLeavesPending(l, Front(ops));
    }
  }

  /** The reclaim flag ignores every other column. */
  lemma {:induction false} ReclaimIndependent(a: Life, b: Life, ops: seq<LifeOp>)
    ensures a.status == b.status && a.approved == b.approved ==>
      Run(a, ops).status == Run(b, ops).status && Run(a, ops).approved == Run(b, ops).approved
    ensures a.reclaimed == b.reclaimed ==> Run(a, ops).reclaimed == Run(b, ops).reclaimed
  {
    if ops != [] {
      ReclaimIndependent(a, b, Front(ops));
    }
  }

  /** Two rows that the guarded update may both write either stay as they are or agree. */
  lemma {:induction false} WritableAgree(a: Life, b: Life, ops: seq<LifeOp>)
    requires NeverPending(ops)
    requires a.approved == b.approved && !AdminRejected(a) && !AdminRejected(b)
    requires Approve in ops ==> a.status != Pending && b.status != Pending
    ensures var x, y := Run(a, ops), Run(b, ops);
      || (x.status == a.status && y.status == b.status && x.approved == a.approved == y.approved)
      || (x.status == y.status && x.approved == y.approved)
  {
    if ops != [] {
      assert ops == Front(ops) + [Last(ops)];
      WritableAgree(a, b, Front(ops));
      if a.status != Pending { LeftPending(a, Front(ops)); }
      if b.status != Pending { LeftPending(b, Front(ops)); }
    }
  }

  /** Reclaim writes leave their last value whatever the row was. */
  lemma {:induction false} ReclaimLastWriter(l: Life, m: Life, ops: seq<LifeOp>)
    ensures
      || (Run(m, ops).reclaimed == m.reclaimed && Run(l, ops).reclaimed == l.reclaimed)
      || Run(m, ops).reclaimed == Run(l, ops).reclaimed
  {
    if ops != [] {
      ReclaimLastWriter(l, m, Front(ops));
    }
  }

  /** Delivering a batch of updates twice leaves the row as one delivery does. */
  lemma {:induction false} Idempotent(l: Life, ops: seq<LifeOp>)
    requires NeverPending(ops)
    ensures Run(Run(l, ops), ops) == Run(l, ops)
  {
    if ops != [] {
      var q, op := Front(ops), Last(ops);
      assert ops == q + [op];
      var x := Run(l, q);
      Idempotent(l, q);
      Absorbed(x, q, op, exists o <- q :: WritesStatus(o), Approve in q, l);
    }
  }

  /** A row that a batch leaves alone, given one more update, comes back to the same
      result when batch and update are delivered again. */
  lemma Absorbed(x: Life, q: seq<LifeOp>, op: LifeOp, writes: bool, approves: bool, from: Life)
    requires NeverPending(q + [op])
    requires x == Run(from, q) && Run(x, q) == x
    requires writes == exists o <- q :: WritesStatus(o)
    requires approves == (Approve in q)
    ensures Step(Run(Step(x, op), q), op) == Step(x, op)
  {
    assert (q + [op])[|q|] == op;
    assert Front(q + [op]) == q && NeverPending(Front(q + [op]));
    var y := Step(x, op);
    if writes { WriteLeavesPending(from, q); }
    if approves { assert WritesStatus(Approve); }
    ReclaimLastWriter(x, y, q);
    if y.status != Pending { LeftPending(y, q); }
    match op
    case Approve =>
      if x.status == Pending {
        NoStatusWrites(y, q);
      }
    case Sync(to) =>
      if !AdminRejected(x) && !AdminRejected(y) {
        WritableAgree(x, y, q);
      } else if !AdminRejected(x) {
        StaysRejectedOrAgrees(x, y, q);
      }
    case Set(_) =>
    case Cancel(_) =>
    case Reclaim =>
      ReclaimIndependent(x, y, q);
  }

  lemma {:induction false} NoStatusWrites(l: Life, ops: seq<LifeOp>)
    requires forall op <- ops :: !WritesStatus(op)
    ensures Run(l, ops).status == l.status && Run(l, ops).approved == l.approved
  {
    if ops != [] {
      assert Last(ops) in ops;
      NoStatusWrites(l, Front(ops));
    }
  }

  lemma {:induction false} StaysRejectedOrAgrees(a: Life, b: Life, ops: seq<LifeOp>)
    requires NeverPending(ops)
    requires a.approved == b.approved && AdminRejected(b)
    requires Approve in ops ==> a.status != Pending
    ensures var x, y := Run(a, ops), Run(b, ops);
      x.approved == y.approved == a.approved && (y.status == Failed || x.status == y.status)
  {
    if ops != [] {
      assert ops == Front(ops) + [Last(ops)];
      StaysRejectedOrAgrees(a, b, Front(ops));
      if a.status != Pending { LeftPending(a, Front(ops)); }
    }
  }

  // ---- The whole table ----------------------------------------------------------------

  type Table = map<RowId, Life>

  datatype Update = Update(row: RowId, op: LifeOp)

  function Touch(t: Table, u: Update): Table {
    if u.row in t then t[u.row := Step(t[u.row], u.op)] else t
  }

  function TouchAll(t: Table, us: seq<Update>): Table {
    if us == [] then t else Touch(TouchAll(t, Front(us)), Last(us))
  }

  lemma TouchOne(t: Table, u: Update)
    ensures TouchAll(t, [u]) == Touch(t, u)
  {
    assert Front([u]) == [];
    assert TouchAll(t, []) == t;
  }

  function OpsOn(us: seq<Update>, row: RowId): seq<LifeOp> {
    if us == [] then []
    else OpsOn(Front(us), row) + if Last(us).row == row then [Last(us).op] else []
  }

  predicate NoneAnnouncesPending(us: seq<Update>) {
    forall i | 0 <= i < |us| :: us[i].op != Sync(Pending) && us[i].op != Set(Pending)
  }

  lemma {:induction false} OneRow(t: Table, us: seq<Update>, row: RowId)
    ensures TouchAll(t, us).Keys == t.Keys
    ensures row in t ==> TouchAll(t, us)[row] == Run(t[row], OpsOn(us, row))
    ensures NoneAnnouncesPending(us) ==> NeverPending(OpsOn(us, row))
  {
    if us != [] {
      OneRow(t, Front(us), row);
      var ops := OpsOn(Front(us), row);
      assert us[|us| - 1] == Last(us);
      assert Front(ops + [Last(us).op]) == ops;
      assert ops + [] == ops;
    }
  }

  /** Delivering a batch twice leaves every campaign row as one delivery does. */
  lemma TableIdempotent(t: Table, us: seq<Update>)
    requires NoneAnnouncesPending(us)
    ensures TouchAll(TouchAll(t, us), us) == TouchAll(t, us)
  {
    var once := TouchAll(t, us);
    var twice := TouchAll(once, us);
    forall row: RowId
      ensures once.Keys == t.Keys == twice.Keys && (row in once ==> once[row] == twice[row])
    {
      OneRow(t, us, row);
      OneRow(once, us, row);
      if row in t { Idempotent(t[row], OpsOn(us, row)); }
    }
    assert once == twice;
  }
}
