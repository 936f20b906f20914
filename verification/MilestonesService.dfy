/** The creator's side of a milestone: uploading a proof. */
module MilestonesService {
  import opened Common
  import Governance
  import Sequencing
  import Stages

  class Service {
    /** The user who created the campaign that a milestone belongs to. */
    const creatorOf: map<RowId, RowId>
    var board: Stages.Board

    constructor (creatorOf: map<RowId, RowId>, board: Stages.Board)
      ensures this.creatorOf == creatorOf && this.board == board
    {
      this.creatorOf, this.board := creatorOf, board;
    }

    /** Accepted from the creator while the milestone is ongoing or rejected; writes the
        proof and never the status. */
    method SubmitProof(m: RowId, caller: RowId, url: string) returns (error: Option<Governance.Error>)
      modifies `board
      ensures error == None <==>
        && m in old(board) && m in creatorOf && creatorOf[m] == caller
        && (old(board)[m].status == Stages.Ongoing || old(board)[m].status == Stages.Rejected)
      ensures error == None ==> board == old(board)[m := old(board)[m].(proof := Some(url))]
      ensures error != None ==> board == old(board)
      ensures board == if error == None then Sequencing.Proved(old(board), m, url) else old(board)
      ensures m !in old(board) ==> error == Some(Governance.NotFound)
      ensures m in old(board) && (m !in creatorOf || creatorOf[m] != caller) ==> error == Some(Governance.Forbidden)
    {
      if m !in board { return Some(Governance.NotFound); }
      if m !in creatorOf || creatorOf[m] != caller { return Some(Governance.Forbidden); }
      if board[m].status != Stages.Ongoing && board[m].status != Stages.Rejected {
        return Some(Governance.BadRequest);
      }
      board := board[m := board[m].(proof := Some(url))];
      return None;
    }
  }
}
