/** The status, proof and voting-deadline columns of milestone rows. */
module Stages {
  import opened Common

  datatype MilestoneStatus = NotStarted | Ongoing | Voting | Approved | Rejected | Completed

  datatype Stage = Stage(status: MilestoneStatus, proof: Option<string>, votingEnd: Option<nat>)

  type Board = map<RowId, Stage>

  /** `Release` carries the row that follows the released one in its campaign, if any. */
  datatype Op =
    | Submit(row: RowId, proof: string, votingEnd: nat)
    | Finalize(row: RowId, approved: bool)
    | Release(row: RowId, next: Option<RowId>)

  /** No release names its own row as the next one. */
  predicate NextDiffers(ops: seq<Op>) {
    forall i | 0 <= i < |ops| :: ops[i].Release? ==> ops[i].next != Some(ops[i].row)
  }

  function SetStatus(b: Board, row: RowId, status: MilestoneStatus): Board {
    if row in b then b[row := b[row].(status := status)] else b
  }

  function Unlock(b: Board, next: Option<RowId>): Board {
    if next.Some? && next.value in b && b[next.value].status == NotStarted
    then SetStatus(b, next.value, Ongoing)
    else b
  }

  function Step(b: Board, op: Op): Board {
    match op
    case Submit(row, proof, end) =>
      if row in b then b[row := Stage(Voting, Some(proof), Some(end))] else b
    case Finalize(row, approved) => SetStatus(b, row, if approved then Approved else Rejected)
    case Release(row, next) => Unlock(SetStatus(b, row, Completed), next)
  }

  function Run(b: Board, ops: seq<Op>): Board {
    if ops == [] then b else Step(Run(b, Front(ops)), Last(ops))
  }

  lemma RunOne(b: Board, op: Op)
    ensures Run(b, [op]) == Step(b, op)
  {
    assert Front([op]) == [];
    assert Run(b, []) == b;
  }

  lemma {:induction false} RunKeys(b: Board, ops: seq<Op>)
    ensures Run(b, ops).Keys == b.Keys
  {
    if ops != [] {
      RunKeys(b, Front(ops));
    }
  }

  /** Boards that differ in one row only. */
  ghost predicate SameElsewhere(a: Board, b: Board, row: RowId) {
    a.Keys == b.Keys && forall r <- a :: r != row ==> a[r] == b[r]
  }

  /** Boards that differ in one row's status and in whether the next row is unlocked. */
  ghost predicate SameButUnlock(a: Board, b: Board, row: RowId, next: Option<RowId>) {
    && a.Keys == b.Keys
    && forall r <- a ::
         || a[r] == b[r]
         || (r == row && a[r].(status := Completed) == b[r].(status := Completed))
         || (Some(r) == next && a[r].status == NotStarted && b[r] == a[r].(status := Ongoing))
  }

  lemma {:induction false} ElsewhereKept(a: Board, b: Board, row: RowId, ops: seq<Op>)
    requires SameElsewhere(a, b, row)
    ensures SameElsewhere(Run(a, ops), Run(b, ops), row)
  {
    if ops != [] {
      ElsewhereKept(a, b, row, Front(ops));
    }
  }

  lemma {:induction false} UnlockKept(a: Board, b: Board, row: RowId, next: Option<RowId>, ops: seq<Op>)
    requires SameButUnlock(a, b, row, next)
    ensures SameButUnlock(Run(a, ops), Run(b, ops), row, next)
  {
    if ops != [] {
      hide SameButUnlock;
      hide Step;
      UnlockKept(a, b, row, next, Front(ops));
      UnlockStep(Run(a, Front(ops)), Run(b, Front(ops)), row, next, Last(ops));
    }
  }

  lemma UnlockStep(a: Board, b: Board, row: RowId, next: Option<RowId>, op: Op)
    requires SameButUnlock(a, b, row, next)
    ensures SameButUnlock(Step(a, op), Step(b, op), row, next)
  {
  }

  lemma SubmitEqualizes(a: Board, b: Board, op: Op)
    requires op.Submit? && SameElsewhere(a, b, op.row)
    ensures Step(a, op) == Step(b, op)
  {
    var x, y := Step(a, op), Step(b, op);
    assert x.Keys == a.Keys == b.Keys == y.Keys;
    forall r | r in x
      ensures x[r] == y[r]
    {}
    assert x == y;
  }

  lemma StatusEqualizes(a: Board, b: Board, op: Op, next: Option<RowId>)
    requires op.Finalize? || (op.Release? && op.next == next)
    requires next != Some(op.row)
    requires SameButUnlock(a, b, op.row, if op.Release? then next else None)
    ensures Step(a, op) == Step(b, op)
  {
    var x, y := Step(a, op), Step(b, op);
    assert x.Keys == a.Keys == b.Keys == y.Keys;
    forall r | r in x
      ensures x[r] == y[r]
    {
      assert a[r] == b[r]
        || (r == op.row && a[r].(status := Completed) == b[r].(status := Completed))
        || (Some(r) == next && op.Release? && a[r].status == NotStarted && b[r] == a[r].(status := Ongoing));
    }
    assert x == y;
  }

  /** Delivering a batch twice leaves every milestone as one delivery does. */
  lemma {:induction false} Idempotent(b: Board, ops: seq<Op>)
    requires NextDiffers(ops)
    ensures Run(Run(b, ops), ops) == Run(b, ops)
  {
    if ops != [] {
      var q, op := Front(ops), Last(ops);
      assert op == ops[|ops| - 1];
      var x := Run(b, q);
      Idempotent(b, q);
      var y := Step(x, op);
      var z := Run(y, q);
      if op.Submit? {
        ElsewhereKept(x, y, op.row, q);
        SubmitEqualizes(Run(x, q), z, op);
      } else {
        var next := if op.Release? then op.next else None;
        UnlockKept(x, y, op.row, next, q);
        StatusEqualizes(Run(x, q), z, op, next);
      }
    }
  }
}
