/** The volunteer's "My Requests" table: loading the volunteer's requests,
    cancelling one, and the status column. */
module Requests {
  import opened Text
  import opened JsValues
  import opened Records

  /** `(r.status || "requested").toUpperCase()`: the status, or
      "requested" when there is none, with every ASCII lower-case letter
      in upper case and every other character kept. */
  function StatusCell(r: Row): (c: string)
    ensures c != ""
    ensures |c| == |OrText(r.status, "requested")|
    ensures forall i :: 0 <= i < |c| ==> c[i] == UpperChar(OrText(r.status, "requested")[i])
    ensures forall i :: 0 <= i < |c| ==> !('a' <= c[i] <= 'z')
  {
    ToUpper(OrText(r.status, "requested"))
  }

  /** A request without a status shows "REQUESTED". */
  lemma MissingStatusShowsRequested(r: Row)
    requires r.status.None? || r.status.value == ""
    ensures StatusCell(r) == "REQUESTED"
  {
  }

  /** The status shown does not depend on the case the server used. */
  lemma StatusIgnoresCase(r: Row, s: Row)
    requires r.status.Some? && s.status.Some? && ToLower(r.status.value) == ToLower(s.status.value)
    ensures StatusCell(r) == StatusCell(s)
  {
    var a := r.status.value;
    var b := s.status.value;
    assert |a| == |b| by {
      assert |ToLower(a)| == |a| && |ToLower(b)| == |b|;
    }
    forall i | 0 <= i < |a| ensures UpperChar(a[i]) == UpperChar(b[i]) {
      assert LowerChar(a[i]) == ToLower(a)[i] == ToLower(b)[i] == LowerChar(b[i]);
    }
  }

  /** How a cancel ended: no usable id, the volunteer declined the
      confirmation, the server removed the request, or the request failed. */
  datatype CancelOutcome = InvalidId | Declined | Cancelled | CancelFailed

  class RequestsPage {
    var rows: seq<Row>
    var loading: bool

    constructor ()
      ensures rows == [] && loading
    {
      rows := [];
      loading := true;
    }

    /** `load`: no volunteer email gives no rows; otherwise the rows are the
        array received, or none when the load failed or the body is not an
        array. Loading ends either way. */
    method Load(volunteerEmail: string, result: LoadResult)
      modifies this
      ensures volunteerEmail == "" ==> rows == []
      ensures volunteerEmail != "" ==> rows == RowsOf(result)
      ensures !loading
    {
      if volunteerEmail == "" {
        rows := [];
        loading := false;
        return;
      }
      loading := true;
      rows := RowsOf(result);
      loading := false;
    }

    /** `onCancel(reqRow)`: a row without a truthy id is refused before
        anything is sent; a declined confirmation changes nothing; after the
        server removes it, exactly the rows with that id leave the list, in
        the same order, and a failure leaves the list alone. */
    method OnCancel(request: Row, confirmed: bool, serverOk: bool) returns (outcome: CancelOutcome)
      modifies this
      ensures outcome == InvalidId <==> !Truthy(IdOf(request))
      ensures outcome == Declined <==> Truthy(IdOf(request)) && !confirmed
      ensures outcome == Cancelled <==> Truthy(IdOf(request)) && confirmed && serverOk
      ensures outcome == Cancelled ==> rows == RemoveById(old(rows), IdOf(request)) && request !in rows
      ensures outcome != Cancelled ==> rows == old(rows)
      ensures loading == old(loading)
    {
      var id := IdOf(request);
      if !Truthy(id) {
        return InvalidId;
      }
      if !confirmed {
        return Declined;
      }
      if !serverOk {
        return CancelFailed;
      }
      RemoveByIdRemovesTarget(rows, request);
      rows := RemoveById(rows, id);
      outcome := Cancelled;
    }
  }
}
