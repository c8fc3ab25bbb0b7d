/** The post details page: the normalised post, whether it still accepts
    requests, the reason shown when it does not, and the local bookkeeping
    after a volunteer's request has been accepted by the server. */
module PostDetails {
  import opened Text
  import opened Numbers
  import opened JsValues
  import opened Dates
  import opened Seqs
  import opened Records

  /** A post after `normalize`: every member present, text defaulted. */
  datatype Post = Post(
    id: Value,
    thumbnail: string,
    title: string,
    description: string,
    category: string,
    location: string,
    needed: Num,
    deadline: Date,
    organizerName: string,
    organizerEmail: string,
    createdAt: string,
    status: string)

  /** `normalize(d)`: text members default to "", `needed` becomes a number
      (0 when absent), a missing status reads as "open", and the id is
      `d.id || d._id || d._id?.$oid || undefined`. */
  function Normalize(d: Row): (p: Post)
    ensures p.status != ""
    ensures d.status.None? || d.status.value == "" ==> p.status == "open"
    ensures d.status.Some? && d.status.value != "" ==> p.status == d.status.value
    ensures p.needed == NeededCount(d)
    ensures Nullish(d.needed) ==> p.needed == Int(0)
    ensures d.needed.Number? ==> p.needed == d.needed.n
    ensures d.deadline.None? ==> p.deadline.Invalid?
    ensures d.deadline.Some? ==> p.deadline == d.deadline.value
    ensures p.thumbnail == OrText(d.thumbnail, "") && p.title == OrText(d.title, "")
    ensures p.description == OrText(d.description, "") && p.category == OrText(d.category, "")
    ensures p.location == OrText(d.location, "")
    ensures p.organizerName == OrText(d.organizerName, "")
    ensures p.organizerEmail == OrText(d.organizerEmail, "")
    ensures p.createdAt == OrText(d.createdAt, "")
    ensures Truthy(d.id) ==> p.id == d.id
    ensures !Truthy(d.id) && Truthy(d.dbId) ==> p.id == d.dbId
    ensures !Truthy(d.id) && !Truthy(d.dbId) ==> p.id == Undefined
  {
    Post(
      id := Or(Or(Or(d.id, d.dbId), OidOf(d.dbId)), Undefined),
      thumbnail := OrText(d.thumbnail, ""),
      title := OrText(d.title, ""),
      description := OrText(d.description, ""),
      category := OrText(d.category, ""),
      location := OrText(d.location, ""),
      needed := NeededCount(d),
      deadline := (match d.deadline case Some(t) => t case None => Invalid),
      organizerName := OrText(d.organizerName, ""),
      organizerEmail := OrText(d.organizerEmail, ""),
      createdAt := OrText(d.createdAt, ""),
      status := OrText(d.status, "open"))
  }

  /** `pretty(v)`: every "-" becomes a space; "" is returned unchanged. */
  function Pretty(v: string): (r: string)
    ensures v == "" ==> r == v
    ensures |r| == |v| && '-' !in r
    ensures forall i :: 0 <= i < |v| && v[i] == '-' ==> r[i] == ' '
    ensures forall i :: 0 <= i < |v| && v[i] != '-' ==> r[i] == v[i]
  {
    if v == "" then v else ReplaceChar(v, '-', ' ')
  }

  /** The organizer closed the post: its status is "closed" in any case. */
  predicate StatusClosed(status: string) {
    ToLower(status) == "closed"
  }

  /** `isClosed`: no post, no slots left, the deadline's day is over, or
      the status says closed. A post is closed exactly when no slot is
      left, its deadline is a calendar day before today, or its status
      reads "closed" whatever the case; a deadline that does not denote a
      date never closes a post. */
  predicate IsClosed(post: Option<Post>, now: int): (closed: bool)
    ensures post.None? ==> closed
    ensures post.Some? ==> (closed <==>
      AtMostZero(post.value.needed)
      || (post.value.deadline.Time? && DayOf(post.value.deadline.ms) < DayOf(now))
      || StatusClosed(post.value.status))
  {
    match post
    case None => true
    case Some(p) =>
      var overdue := Before(EndOfDay(p.deadline), Time(now));
      assert overdue <==> p.deadline.Time? && DayOf(p.deadline.ms) < DayOf(now) by {
        if p.deadline.Time? {
          EndOfDayBeforeIffEarlierDay(p.deadline.ms, now);
        }
      }
      AtMostZero(p.needed) || overdue || StatusClosed(p.status)
  }

  /** A missing status never closes a post: `normalize` reads it as "open". */
  lemma MissingStatusNeverCloses(d: Row)
    requires d.status.None?
    ensures !StatusClosed(Normalize(d).status)
  {
    assert ToLower("open")[0] == 'o';
  }

  /** A post the server sends with a status that reads "closed" in any
      case is closed once normalised, whatever its count and deadline. */
  lemma ClosedStatusCloses(d: Row, now: int)
    requires d.status.Some? && StatusClosed(d.status.value)
    ensures IsClosed(Some(Normalize(d)), now)
  {
  }

  /** The status test ignores case. */
  lemma StatusClosedIgnoresCase(s: string)
    ensures StatusClosed(s) <==> StatusClosed(ToLower(s))
  {
    ToLowerIdempotent(s);
  }

  /** Why a post is closed, in the order the page tests it. */
  datatype ClosedReason = SlotsFilled | OrganizerClosed | DeadlinePassed

  /** The reason chain of `openModal`: `(post?.needed ?? 0) <= 0` first
      (so a missing post reads as "filled"), then the status, and the
      deadline last. */
  function ReasonOf(post: Option<Post>): (r: ClosedReason)
    ensures post.None? ==> r == SlotsFilled
    ensures post.Some? ==> (r == SlotsFilled <==> AtMostZero(post.value.needed))
    ensures post.Some? ==> (r == OrganizerClosed <==>
      !AtMostZero(post.value.needed) && StatusClosed(post.value.status))
    ensures post.Some? ==> (r == DeadlinePassed <==>
      !AtMostZero(post.value.needed) && !StatusClosed(post.value.status))
  {
    match post
    case None => SlotsFilled
    case Some(p) =>
      if AtMostZero(p.needed) then SlotsFilled
      else if StatusClosed(p.status) then OrganizerClosed
      else DeadlinePassed
  }

  /** For a closed post the reason is one of the conditions that closed
      it: a closed post whose reason is the deadline has indeed passed its
      deadline's day. */
  lemma ReasonFollowsPriority(p: Post, now: int)
    requires IsClosed(Some(p), now)
    ensures ReasonOf(Some(p)) == DeadlinePassed ==>
      p.deadline.Time? && DayOf(p.deadline.ms) < DayOf(now)
    ensures ReasonOf(Some(p)) == OrganizerClosed ==> StatusClosed(p.status)
  {
  }

  /** The toast `openModal` shows for a closed post. */
  function ToastText(r: ClosedReason): string {
    match r
    case SlotsFilled => "All volunteer slots are filled."
    case OrganizerClosed => "This post is closed."
    case DeadlinePassed => "Deadline has passed."
  }

  /** The message shown under the request button of a closed post; it
      follows the same priority as the toast. */
  function InlineText(r: ClosedReason): string {
    match r
    case SlotsFilled => "No volunteer slots available."
    case OrganizerClosed => "This post is closed."
    case DeadlinePassed => "Deadline has passed."
  }

  /** Each reason has its own toast and its own inline message; the two
      agree except on filled slots, which the inline message words
      differently. */
  lemma ReasonTexts(a: ClosedReason, b: ClosedReason)
    ensures ToastText(a) == ToastText(b) ==> a == b
    ensures InlineText(a) == InlineText(b) ==> a == b
    ensures InlineText(a) == ToastText(a) <==> a != SlotsFilled
  {
    assert ToastText(SlotsFilled)[0] == 'A' && ToastText(OrganizerClosed)[0] == 'T';
    assert ToastText(DeadlinePassed)[0] == 'D' && InlineText(SlotsFilled)[0] == 'N';
  }

  /** What the server answered to a request submission. `Accepted` carries
      `data?.request?.neededAfterRequest` (`undefined` when absent). */
  datatype SubmitResponse = RequestFailed | Accepted(neededAfterRequest: Value)

  /** The new `needed` after an accepted request: the server's number if it
      sent one (`typeof === "number"`, so `NaN` too), otherwise
      `Math.max(0, needed - 1)`: one slot fewer, never below 0, and `NaN`
      stays `NaN`. */
  function NeededAfter(needed: Num, server: Value): (r: Num)
    ensures server.Number? ==> r == server.n
    ensures !server.Number? && needed.NaN? ==> r.NaN?
    ensures !server.Number? && !needed.NaN? ==> r == Int(0) || IsPositive(r)
    ensures !server.Number? && AtMostZero(needed) ==> r == Int(0)
    ensures !server.Number? && needed.Int? && needed.i > 0 ==> r == Int(needed.i - 1)
    ensures !server.Number? && needed.Dec? && !needed.neg ==>
      r == if needed.whole > 0 then Dec(false, needed.whole - 1, needed.frac) else Int(0)
  {
    if server.Number? then server.n
    else match needed
      case NaN => NaN
      case Int(k) => Int(if k - 1 < 0 then 0 else k - 1)
      case Dec(neg, whole, frac) =>
        if neg || whole == 0 then Int(0) else Dec(false, whole - 1, frac)
  }

  /** The post after an accepted request: only `needed` changes. */
  function AfterAccepted(post: Option<Post>, server: Value): (r: Option<Post>)
    ensures r.None? <==> post.None?
    ensures post.Some? ==> r.value.(needed := post.value.needed) == post.value
  {
    match post
    case None => None
    case Some(p) => Some(p.(needed := NeededAfter(p.needed, server)))
  }

  /** Taking the last slot, with no count from the server, closes the post. */
  lemma LastSlotCloses(p: Post, server: Value, now: int)
    requires p.needed == Int(1) && !server.Number?
    ensures IsClosed(AfterAccepted(Some(p), server), now)
    ensures ReasonOf(AfterAccepted(Some(p), server)) == SlotsFilled
  {
  }

  /** With more than one slot left, an accepted request keeps the post open
      as far as slots go. */
  lemma SlotsRemainAfterAccept(p: Post, server: Value)
    requires p.needed.Int? && p.needed.i > 1 && !server.Number?
    ensures !AtMostZero(AfterAccepted(Some(p), server).value.needed)
  {
  }

  /** The signed-in user as this page reads it. */
  datatype Member = Member(displayName: Option<string>, name: Option<string>, email: Option<string>)

  predicate SignedIn(user: Option<Member>) {
    user.Some? && user.value.email.Some? && user.value.email.value != ""
  }

  /** The body of a volunteer request. */
  datatype RequestBody = RequestBody(
    postId: Value,
    volunteerName: string,
    volunteerEmail: string,
    suggestion: string,
    status: string)

  /** The request for a post: its id, the volunteer's display name (else
      name, else ""), the volunteer's email, the suggestion typed in the
      modal, and the status "requested". */
  function RequestFor(p: Post, u: Member, suggestion: string): (b: RequestBody)
    ensures b.status == "requested" && b.postId == p.id && b.suggestion == suggestion
    ensures b.volunteerEmail == OrText(u.email, "")
    ensures u.displayName.Some? && u.displayName.value != "" ==> b.volunteerName == u.displayName.value
    ensures (u.displayName.None? || u.displayName.value == "") ==> b.volunteerName == OrText(u.name, "")
  {
    RequestBody(p.id, OrText(u.displayName, OrText(u.name, "")), OrText(u.email, ""),
                suggestion, "requested")
  }

  // ------------------------------------------------------------- loading

  /** The first lookup of the list fallback:
      `p.id === id || p._id === id || p._id?.$oid === id`. */
  predicate MatchesRouteId(p: Row, id: string) {
    StrictEq(p.id, Str(id)) || StrictEq(p.dbId, Str(id)) || StrictEq(OidOf(p.dbId), Str(id))
  }

  /** The second lookup: `String(p._id) === id`. */
  predicate PrintsAsRouteId(p: Row, id: string) {
    ToStr(p.dbId) == id
  }

  /** `list.find(MatchesRouteId) || list.find(PrintsAsRouteId)`: the first
      row that carries the id in `id`, `_id` or `_id.$oid`; failing that,
      the first whose printed `_id` is the id; `None` when neither finds
      one. */
  function FoundPost(rows: seq<Row>, id: string): (r: Option<Row>)
    ensures r.None? <==>
      forall k :: 0 <= k < |rows| ==> !MatchesRouteId(rows[k], id) && !PrintsAsRouteId(rows[k], id)
    ensures forall k ::
      (0 <= k < |rows| && MatchesRouteId(rows[k], id)
       && forall j :: 0 <= j < k ==> !MatchesRouteId(rows[j], id))
      ==> r == Some(rows[k])
    ensures (forall j :: 0 <= j < |rows| ==> !MatchesRouteId(rows[j], id)) ==>
      forall k ::
        (0 <= k < |rows| && PrintsAsRouteId(rows[k], id)
         && forall j :: 0 <= j < k ==> !PrintsAsRouteId(rows[j], id))
        ==> r == Some(rows[k])
  {
    var i := FindIndex(rows, x => MatchesRouteId(x, id));
    if i >= 0 then Some(rows[i])
    else
      var j := FindIndex(rows, x => PrintsAsRouteId(x, id));
      if j >= 0 then Some(rows[j]) else None
  }

  /** A row without `id` whose `_id` is an extended-JSON object is found by
      its `$oid`. */
  lemma FindsByOid(r: Row, id: string)
    requires !r.id.Str? && r.dbId.Object? && r.dbId.oid == Str(id)
    ensures FoundPost([r], id) == Some(r)
  {
    assert MatchesRouteId([r][0], id);
  }

  /** A row whose `_id` is a number is found by its printed form. */
  lemma FindsByPrintedId(r: Row, k: int)
    requires !r.id.Str? && r.dbId == Number(Int(k))
    ensures FoundPost([r], IntToString(k)) == Some(r)
  {
    assert !MatchesRouteId([r][0], IntToString(k));
    assert PrintsAsRouteId([r][0], IntToString(k));
  }

  /** How the request for one post ended: a response with a body (`None` for
      a `null` body, on which `normalize` throws), a response that is not
      ok, or a request that threw. */
  datatype Fetched = FetchOk(body: Option<Row>) | FetchNotOk | FetchThrew

  /** The page's state: the loaded post, the loading flag and the request
      modal. */
  class DetailsPage {
    var post: Option<Post>
    var loading: bool
    var showModal: bool
    var suggestion: string
    var submitting: bool

    constructor ()
      ensures post == None && loading && !showModal && suggestion == "" && !submitting
    {
      post := None;
      loading := true;
      showModal := false;
      suggestion := "";
      submitting := false;
    }

    /** The load effect for the route id: without an id nothing happens.
        Otherwise the post's own request decides when it answers ok; when
        it is not ok the whole list is fetched and searched; any failure
        leaves no post. Loading ends in every case. */
    method Load(id: string, primary: Fetched, list: LoadResult)
      modifies this
      ensures showModal == old(showModal) && suggestion == old(suggestion)
      ensures submitting == old(submitting)
      ensures id == "" ==> post == old(post) && loading == old(loading)
      ensures id != "" ==> !loading
      ensures id != "" && primary.FetchOk? && primary.body.Some? ==>
        post == Some(Normalize(primary.body.value))
      ensures id != "" && primary.FetchOk? && primary.body.None? ==> post == None
      ensures id != "" && primary.FetchThrew? ==> post == None
      ensures id != "" && primary.FetchNotOk? && !(list.Loaded? && list.body.Rows?) ==> post == None
      ensures id != "" && primary.FetchNotOk? && list.Loaded? && list.body.Rows? ==>
        var found := FoundPost(list.body.rows, id);
        post == if found.Some? then Some(Normalize(found.value)) else None
    {
      if id == "" {
        return;
      }
      loading := true;
      match primary {
        case FetchOk(body) =>
          post := if body.Some? then Some(Normalize(body.value)) else None;
        case FetchThrew =>
          post := None;
        case FetchNotOk =>
          if list.Loaded? && list.body.Rows? {
            var found := FoundPost(list.body.rows, id);
            post := if found.Some? then Some(Normalize(found.value)) else None;
          } else {
            post := None;
          }
      }
      loading := false;
    }

    /** `openModal`: a closed post only yields a toast with the reason;
        an open one clears the suggestion and opens the modal. */
    method OpenModal(now: int) returns (toast: Option<string>)
      modifies this
      ensures post == old(post) && submitting == old(submitting) && loading == old(loading)
      ensures IsClosed(post, now) ==>
        toast == Some(ToastText(ReasonOf(post)))
        && showModal == old(showModal) && suggestion == old(suggestion)
      ensures !IsClosed(post, now) ==> toast == None && showModal && suggestion == ""
    {
      if IsClosed(post, now) {
        toast := Some(ToastText(ReasonOf(post)));
        return;
      }
      toast := None;
      suggestion := "";
      showModal := true;
    }

    /** `submitRequest`: without a signed-in email nothing is sent and
        nothing changes; with no post loaded, reading `post.id` throws
        before anything is sent. Otherwise the request is sent; on
        acceptance the post's `needed` is updated and the modal closes, on
        failure the post and the modal stay as they were. */
    method SubmitRequest(user: Option<Member>, response: SubmitResponse)
      returns (sent: Option<RequestBody>)
      modifies this
      ensures sent.Some? <==> SignedIn(user) && old(post).Some?
      ensures sent.Some? ==> old(post).Some? && sent.value == RequestFor(old(post).value, user.value, old(suggestion))
      ensures suggestion == old(suggestion) && loading == old(loading)
      ensures sent.None? ==> post == old(post) && showModal == old(showModal)
      ensures !SignedIn(user) ==> submitting == old(submitting)
      ensures SignedIn(user) ==> !submitting
      ensures sent.Some? && response.Accepted? ==>
        post == AfterAccepted(old(post), response.neededAfterRequest) && !showModal
      ensures sent.Some? && response.RequestFailed? ==>
        post == old(post) && showModal == old(showModal)
    {
      if !SignedIn(user) {
        return None;
      }
      submitting := true;
      if post.None? {
        submitting := false;
        return None;
      }
      sent := Some(RequestFor(post.value, user.value, suggestion));
      match response {
        case Accepted(count) =>
          post := AfterAccepted(post, count);
          showModal := false;
        case RequestFailed =>
      }
      submitting := false;
    }
  }
}
