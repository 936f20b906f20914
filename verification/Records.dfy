/** The two remaining shapes of table: ballots, which the indexer upserts, and two-admin
    proposals, which it creates when absent and later marks executed. */
module Records {
  import opened Common

  datatype Ballot = Ballot(choice: bool, weight: nat)

  type BallotBox = map<(Wallet, RowId), Ballot>

  datatype Vote = Vote(voter: Wallet, milestone: RowId, ballot: Ballot)

  function Cast(b: BallotBox, v: Vote): BallotBox {
    b[(v.voter, v.milestone) := v.ballot]
  }

  function CastAll(b: BallotBox, votes: seq<Vote>): BallotBox {
    if votes == [] then b else Cast(CastAll(b, Front(votes)), Last(votes))
  }

  lemma CastOne(b: BallotBox, v: Vote)
    ensures CastAll(b, [v]) == Cast(b, v)
  {
    assert Front([v]) == [];
    assert CastAll(b, []) == b;
  }

  ghost predicate SameButOne(a: BallotBox, b: BallotBox, voter: Wallet, milestone: RowId) {
    forall k :: k != (voter, milestone) ==> (k in a <==> k in b) && (k in a ==> a[k] == b[k])
  }

  lemma {:induction false} CastKeepsOthers(a: BallotBox, b: BallotBox, v: Vote, votes: seq<Vote>)
    requires SameButOne(a, b, v.voter, v.milestone)
    ensures SameButOne(CastAll(a, votes), CastAll(b, votes), v.voter, v.milestone)
  {
    if votes != [] {
      CastKeepsOthers(a, b, v, Front(votes));
    }
  }

  /** Delivering a batch of votes twice leaves the last vote of each voter, as once does. */
  lemma {:induction false} CastIdempotent(b: BallotBox, votes: seq<Vote>)
    ensures CastAll(CastAll(b, votes), votes) == CastAll(b, votes)
  {
    if votes != [] {
      var q, v := Front(votes), Last(votes);
      var x := CastAll(b, q);
      var y := Cast(x, v);
      CastIdempotent(b, q);
      CastKeepsOthers(x, y, v, q);
      assert Cast(CastAll(y, q), v) == Cast(x, v);
    }
  }

  // ---- Proposals ----------------------------------------------------------------------

  /** `subject` is the campaign or milestone row the proposal is about. */
  datatype Proposal = Proposal(
    subject: RowId, proposer: Wallet, reason: string, proposedAt: nat,
    confirmer: Option<Wallet>, executed: bool)

  type Register = map<nat, Proposal>

  datatype Op =
    | Open(id: nat, proposal: Proposal)
    | Execute(id: nat, confirmer: Wallet)

  function Step(r: Register, op: Op): Register {
    match op
    case Open(id, p) => if id in r then r else r[id := p]
    case Execute(id, who) => if id in r then r[id := r[id].(confirmer := Some(who), executed := true)] else r
  }

  function Run(r: Register, ops: seq<Op>): Register {
    if ops == [] then r else Step(Run(r, Front(ops)), Last(ops))
  }

  lemma RunOne(r: Register, op: Op)
    ensures Run(r, [op]) == Step(r, op)
  {
    assert Front([op]) == [];
    assert Run(r, []) == r;
  }

  /** No proposal is delivered as executed before it is delivered as opened. */
  predicate OpensFirst(ops: seq<Op>) {
    ops == [] || (OpensFirst(Front(ops)) && forall i | 0 <= i < |ops| - 1 :: !ExecuteBefore(ops[i], Last(ops)))
  }

  predicate ExecuteBefore(earlier: Op, later: Op) {
    earlier.Execute? && later.Open? && earlier.id == later.id
  }

  lemma {:induction false} OpenedPresent(r: Register, ops: seq<Op>, id: nat)
    requires id in r || exists i :: 0 <= i < |ops| && ops[i].Open? && ops[i].id == id
    ensures id in Run(r, ops)
  {
    if ops != [] {
      if id in r || exists i :: 0 <= i < |ops| - 1 && Front(ops)[i].Open? && Front(ops)[i].id == id {
        OpenedPresent(r, Front(ops), id);
      } else {
        assert forall i :: 0 <= i < |ops| - 1 ==> Front(ops)[i] == ops[i];
        assert Last(ops).Open? && Last(ops).id == id;
      }
    }
  }

  lemma {:induction false} EntryRidesAlong(r: Register, id: nat, p: Proposal, ops: seq<Op>)
    requires id !in r
    requires forall i | 0 <= i < |ops| :: ops[i].id != id
    ensures id !in Run(r, ops) && Run(r[id := p], ops) == Run(r, ops)[id := p]
  {
    if ops != [] {
      EntryRidesAlong(r, id, p, Front(ops));
      assert ops[|ops| - 1].id != id;
    }
  }

  ghost predicate SameButConfirmation(a: Register, b: Register, id: nat) {
    && a.Keys == b.Keys
    && (forall k <- a :: k != id ==> a[k] == b[k])
    && (id in a ==> a[id].(confirmer := None, executed := true) == b[id].(confirmer := None, executed := true))
  }

  lemma {:induction false} ConfirmationKept(a: Register, b: Register, id: nat, ops: seq<Op>)
    requires SameButConfirmation(a, b, id)
    ensures SameButConfirmation(Run(a, ops), Run(b, ops), id)
  {
    if ops != [] {
      ConfirmationKept(a, b, id, Front(ops));
    }
  }

  /** Delivering a batch twice leaves every proposal as one delivery does. */
  lemma {:induction false} Idempotent(r: Register, ops: seq<Op>)
    requires OpensFirst(ops)
    ensures Run(Run(r, ops), ops) == Run(r, ops)
  {
    if ops != [] {
      var q, op := Front(ops), Last(ops);
      var x := Run(r, q);
      var y := Step(x, op);
      Idempotent(r, q);
      match op
      case Open(id, p) =>
        if id !in x {
          forall i | 0 <= i < |q|
            ensures q[i].id != id
          {
            assert q[i] == ops[i];
            if q[i].Open? && q[i].id == id { OpenedPresent(r, q, id); }
          }
          EntryRidesAlong(x, id, p, q);
        }
      case Execute(id, who) =>
        ConfirmationKept(x, y, id, q);
        assert Step(x, op) == Step(Run(y, q), op);
    }
  }
}
