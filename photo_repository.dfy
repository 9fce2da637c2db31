/** The photo table the board flows write through. Its repository's code is not part of this
    model; it is given the plainest behaviour consistent with how the board service uses it. */
module PhotoRepo {
  import opened Common
  import opened Sql
  import opened Boards

  class PhotoRepository {
    var rows: seq<Photo>

    constructor ()
      ensures rows == []
    {
      rows := [];
    }

    /** `createBoardPhoto(photos)`: stores the requested rows and returns the rows it saved.
        `saved` is how many of them the store manages to save; a healthy store saves all. */
    method CreateBoardPhoto(photos: seq<Photo>, saved: nat) returns (stored: seq<Photo>)
      modifies this
      ensures stored == Take(photos, saved)
      ensures rows == old(rows) + stored
    {
      stored := Take(photos, saved);
      rows := rows + stored;
    }

    /** `deleteBoardPhoto(no)`: removes every photo of board `no` and returns how many. */
    method DeleteBoardPhoto(no: int) returns (affected: nat)
      modifies this
      ensures rows == Filter(old(rows), NotOfBoard(no))
      ensures affected == |PhotosOf(old(rows), no)|
    {
      affected := |PhotosOf(rows, no)|;
      rows := Filter(rows, NotOfBoard(no));
    }
  }
}
