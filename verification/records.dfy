/** Raw rows as the pages receive them from JSON responses (posts and
    request rows share one shape), the identifier chains the pages use to
    name a row, and the removal of a row from a list by identifier. */
module Records {
  import opened Text
  import opened Numbers
  import opened JsValues
  import opened Dates
  import opened Seqs

  /** A JSON row. Text members are strings or absent (`None` also stands for
      `null`); `id`, `_id` and `needed` may hold any JSON value. `deadline`
      is `None` when the member is absent or `""`, otherwise the `Date` its
      string denotes. */
  datatype Row = Row(
    id: Value,
    dbId: Value,              // the `_id` member
    slug: Option<string>,
    thumbnail: Option<string>,
    title: Option<string>,
    description: Option<string>,
    category: Option<string>,
    location: Option<string>,
    needed: Value,
    deadline: Option<Date>,
    organizerName: Option<string>,
    organizerEmail: Option<string>,
    createdAt: Option<string>,
    status: Option<string>)

  /** The body of a successful list response: an array of rows, or any
      other JSON value. */
  datatype Payload = Rows(rows: seq<Row>) | NotAnArray

  /** How a list request ended: the request failed or threw, or it
      delivered a body. */
  datatype LoadResult = LoadFailed | Loaded(body: Payload)

  /** `Array.isArray(data) ? data : []`, with a failed load giving `[]`. */
  function RowsOf(result: LoadResult): (r: seq<Row>)
    ensures result.Loaded? && result.body.Rows? ==> r == result.body.rows
    ensures !(result.Loaded? && result.body.Rows?) ==> r == []
  {
    match result
    case Loaded(Rows(rows)) => rows
    case _ => []
  }

  /** `Number(needed ?? 0)`: the slot count as the pages read it; an
      absent or `null` count reads as 0, a numeral string as its number. */
  function NeededCount(r: Row): (n: Num)
    ensures Nullish(r.needed) ==> n == Int(0)
    ensures r.needed.Number? ==> n == r.needed.n
    ensures r.needed.Object? ==> n == NaN
    ensures r.needed.Str? ==> n == ParseNumber(r.needed.s)
    ensures r.needed.Bool? ==> n == Int(if r.needed.b then 1 else 0)
  {
    ToNumber(Coalesce(r.needed, Number(Int(0))))
  }

  /** A count sent as a numeral string reads as the number it prints. */
  lemma NeededCountOfNumeral(r: Row, k: int)
    requires r.needed == Str(IntToString(k))
    ensures NeededCount(r) == Int(k)
  {
    ParsePrintedInt(k);
  }

  /** `p.title || "—"`, the title cell of the list pages. */
  function TitleCell(r: Row): (c: string)
    ensures c != ""
    ensures r.title.Some? && r.title.value != "" ==> c == r.title.value
    ensures r.title.None? || r.title.value == "" ==> c == "—"
  {
    OrText(r.title, "—")
  }

  /** `(p.category && String(p.category).replaceAll("-", " ")) || "—"`:
      the category with every "-" shown as a space, or a dash when there
      is none. */
  function CategoryCell(r: Row): (c: string)
    ensures c != ""
    ensures r.category.Some? && r.category.value != "" ==>
      |c| == |r.category.value| && '-' !in c
    ensures r.category.Some? && r.category.value != "" ==>
      forall i :: 0 <= i < |c| ==>
        c[i] == if r.category.value[i] == '-' then ' ' else r.category.value[i]
    ensures r.category.None? || r.category.value == "" ==> c == "—"
  {
    match r.category
    case Some(s) => if s != "" then ReplaceChar(s, '-', ' ') else "—"
    case None => "—"
  }

  // ---------------------------------------------------------- identifiers

  /** `_id?.$oid`: the `$oid` member of an object, `undefined` otherwise. */
  function OidOf(v: Value): Value {
    match v
    case Object(_, oid) => oid
    case _ => Undefined
  }

  /** `typeof _id === "string" ? _id : _id?.toString?.()`: a string is
      kept, `null`/`undefined` give `undefined`, every other value is
      printed (a plain object as "[object Object]"). */
  function IdText(v: Value): (r: Value)
    ensures Nullish(v) ==> r == Undefined
    ensures !Nullish(v) ==> r == Str(ToStr(v))
  {
    match v
    case Str(_) => v
    case Undefined => Undefined
    case Null => Undefined
    case _ => Str(ToStr(v))
  }

  /** The identifier chain as the list pages write it:
      `id || (typeof _id === "string" ? _id : _id?.toString?.()) || _id?.$oid`. */
  function IdOfAsWritten(r: Row): (v: Value)
    ensures Truthy(r.id) ==> v == r.id
    ensures !Truthy(r.id) && !Nullish(r.dbId) && ToStr(r.dbId) != "" ==> v == Str(ToStr(r.dbId))
    ensures !Truthy(r.id) && Nullish(r.dbId) ==> v == Undefined
  {
    Or(Or(r.id, IdText(r.dbId)), OidOf(r.dbId))
  }

  /** As written, the `$oid` step never decides the result: whenever
      `_id` has a `$oid` member, `_id.toString()` already gave the truthy
      "[object Object]". So every row without an `id` whose `_id` is an
      object gets the same identifier. */
  lemma OidStepUnreachable(r: Row)
    requires !Truthy(r.id) && r.dbId.Object?
    ensures IdOfAsWritten(r) == Str("[object Object]")
  {
  }

  /** Two different Mongo ids in extended-JSON form collide as written. */
  lemma {:induction false} DistinctOidsCollideAsWritten(a: Row, b: Row)
    requires a.id == Undefined && b.id == Undefined
    requires a.dbId == Object(0, Str("65a1")) && b.dbId == Object(1, Str("65b2"))
    ensures StrictEq(IdOfAsWritten(a), IdOfAsWritten(b))
  {
    OidStepUnreachable(a);
    OidStepUnreachable(b);
  }

  /** The identifier chain with the `$oid` step placed where it can take
      effect: `id`, then a string `_id`, then `_id.$oid`, then the printed
      `_id`. This is the chain the rest of the model uses. */
  function IdOf(r: Row): (v: Value)
    ensures Truthy(r.id) ==> v == r.id
    ensures !Truthy(r.id) && r.dbId.Str? && r.dbId.s != "" ==> v == r.dbId
    ensures !Truthy(r.id) && r.dbId.Object? && Truthy(r.dbId.oid) ==> v == r.dbId.oid
  {
    Or(Or(r.id, OidOrIdText(r.dbId)), OidOf(r.dbId))
  }

  /** The middle step of the corrected chain: an object's truthy `$oid`,
      otherwise `typeof _id === "string" ? _id : _id?.toString?.()`. */
  function OidOrIdText(v: Value): Value {
    if v.Object? && Truthy(v.oid) then v.oid else IdText(v)
  }

  /** With the corrected chain, rows that differ in their `$oid` strings
      (and carry no `id`) have different identifiers. */
  lemma {:induction false} DistinctOidsStayDistinct(a: Row, b: Row)
    requires !Truthy(a.id) && !Truthy(b.id)
    requires a.dbId.Object? && b.dbId.Object?
    requires a.dbId.oid.Str? && b.dbId.oid.Str? && a.dbId.oid.s != "" && b.dbId.oid.s != ""
    requires a.dbId.oid.s != b.dbId.oid.s
    ensures !StrictEq(IdOf(a), IdOf(b))
  {
  }

  /** The corrected chain agrees with the written one whenever `_id` is
      not an object, which is how the backend sends it. */
  lemma {:induction false} IdOfAgreesOnPrimitiveIds(r: Row)
    requires !r.dbId.Object?
    ensures IdOf(r) == IdOfAsWritten(r)
  {
  }

  /** `getId(p) || ""`, the form used by the search page and the edit page. */
  function IdOrEmpty(r: Row): (v: Value)
    ensures Truthy(IdOf(r)) ==> v == IdOf(r)
    ensures !Truthy(IdOf(r)) ==> v == Str("")
  {
    Or(IdOf(r), Str(""))
  }

  /** `rows.filter((x) => getId(x) !== id)` */
  function RemoveById(rows: seq<Row>, id: Value): (r: seq<Row>)
    ensures SubseqOf(r, rows)
    ensures forall i :: 0 <= i < |r| ==> r[i] in rows && !StrictEq(IdOf(r[i]), id)
    ensures forall i :: 0 <= i < |rows| && !StrictEq(IdOf(rows[i]), id) ==> rows[i] in r
    ensures forall x :: multiset(r)[x] == if !StrictEq(IdOf(x), id) then multiset(rows)[x] else 0
  {
    FilterIsSubseq(rows, x => !StrictEq(IdOf(x), id));
    FilterCounts(rows, x => !StrictEq(IdOf(x), id));
    Filter(rows, x => !StrictEq(IdOf(x), id))
  }

  /** The row that was acted on is gone afterwards, when its id is truthy. */
  lemma RemoveByIdRemovesTarget(rows: seq<Row>, target: Row)
    requires Truthy(IdOf(target))
    ensures target !in RemoveById(rows, IdOf(target))
  {
    StrictEqReflexive(IdOf(target));
  }

  /** `rows.filter((x) => getId(x) !== id)` with the chain as written. */
  function RemoveByIdAsWritten(rows: seq<Row>, id: Value): (r: seq<Row>)
    ensures SubseqOf(r, rows)
    ensures forall i :: 0 <= i < |r| ==> r[i] in rows && !StrictEq(IdOfAsWritten(r[i]), id)
    ensures forall i :: 0 <= i < |rows| && !StrictEq(IdOfAsWritten(rows[i]), id) ==> rows[i] in r
    ensures forall x :: multiset(r)[x] == if !StrictEq(IdOfAsWritten(x), id) then multiset(rows)[x] else 0
  {
    FilterIsSubseq(rows, x => !StrictEq(IdOfAsWritten(x), id));
    FilterCounts(rows, x => !StrictEq(IdOfAsWritten(x), id));
    Filter(rows, x => !StrictEq(IdOfAsWritten(x), id))
  }

  /** As written, deleting one of two rows whose `_id`s are distinct
      extended-JSON objects removes both from the list. */
  lemma {:induction false} DeleteTakesSiblingAsWritten(a: Row, b: Row)
    requires a.id == Undefined && b.id == Undefined
    requires a.dbId == Object(0, Str("65a1")) && b.dbId == Object(1, Str("65b2"))
    ensures RemoveByIdAsWritten([a, b], IdOfAsWritten(a)) == []
  {
    DistinctOidsCollideAsWritten(a, b);
    StrictEqReflexive(IdOfAsWritten(a));
    FilterKeepsNone([a, b], x => !StrictEq(IdOfAsWritten(x), IdOfAsWritten(a)));
  }

  /** With the corrected chain, deleting one of them keeps the other. */
  lemma {:induction false} DeleteKeepsSibling(a: Row, b: Row)
    requires a.id == Undefined && b.id == Undefined
    requires a.dbId == Object(0, Str("65a1")) && b.dbId == Object(1, Str("65b2"))
    ensures RemoveById([a, b], IdOf(a)) == [b]
  {
    DistinctOidsStayDistinct(b, a);
    StrictEqReflexive(IdOf(a));
    var r := RemoveById([a, b], IdOf(a));
    assert [a, b][1] == b;
    assert b in r;
    assert a !in r;
  }

  /** Removing an id no row carries leaves the list as it was. */
  lemma RemoveAbsentId(rows: seq<Row>, id: Value)
    requires forall i :: 0 <= i < |rows| ==> !StrictEq(IdOf(rows[i]), id)
    ensures RemoveById(rows, id) == rows
  {
    FilterKeepsAll(rows, x => !StrictEq(IdOf(x), id));
  }
}
