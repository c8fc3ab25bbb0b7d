/** The organizer's "My Posts" table: loading the organizer's posts and
    deleting one of them. */
module MyPosts {
  import opened JsValues
  import opened Records

  /** How a delete ended: no usable id, the organizer declined the
      confirmation, the server deleted the post, or the request failed. */
  datatype DeleteOutcome = InvalidId | Declined | Deleted | DeleteFailed

  class MyPostsPage {
    var rows: seq<Row>
    var loading: bool

    constructor ()
      ensures rows == [] && loading
    {
      rows := [];
      loading := true;
    }

    /** `load`: no organizer email gives no rows; otherwise the rows are the
        array received, or none when the load failed or the body is not an
        array. Loading ends either way. */
    method Load(organizerEmail: string, result: LoadResult)
      modifies this
      ensures organizerEmail == "" ==> rows == []
      ensures organizerEmail != "" ==> rows == RowsOf(result)
      ensures !loading
    {
      if organizerEmail == "" {
        rows := [];
        loading := false;
        return;
      }
      loading := true;
      rows := RowsOf(result);
      loading := false;
    }

    /** `onDelete(post)`: a post without a truthy id is refused before
        anything is sent; a declined confirmation sends nothing; after the
        server deletes it, exactly the rows with that id leave the list, in
        the same order, and a failed delete leaves the list alone. */
    method OnDelete(post: Row, confirmed: bool, serverOk: bool) returns (outcome: DeleteOutcome)
      modifies this
      ensures outcome == InvalidId <==> !Truthy(IdOf(post))
      ensures outcome == Declined <==> Truthy(IdOf(post)) && !confirmed
      ensures outcome == Deleted <==> Truthy(IdOf(post)) && confirmed && serverOk
      ensures outcome == Deleted ==> rows == RemoveById(old(rows), IdOf(post)) && post !in rows
      ensures outcome != Deleted ==> rows == old(rows)
      ensures loading == old(loading)
    {
      var id := IdOf(post);
      if !Truthy(id) {
        return InvalidId;
      }
      if !confirmed {
        return Declined;
      }
      if !serverOk {
        return DeleteFailed;
      }
      RemoveByIdRemovesTarget(rows, post);
      rows := RemoveById(rows, id);
      outcome := Deleted;
    }
  }
}
