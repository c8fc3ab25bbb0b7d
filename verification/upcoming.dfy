/** The home page's "Volunteer Needs Now" section: the six posts with the
    nearest deadlines that have not passed, the days-left badge on each
    card, and the identifier its link uses. */
module Upcoming {
  import opened Text
  import opened Numbers
  import opened JsValues
  import opened Dates
  import opened Seqs
  import opened Records
  import opened Uri

  /** How many cards the section shows. */
  const HomeLimit: nat := 6

  /** `p?.deadline && new Date(p.deadline) >= now` */
  predicate IsUpcoming(r: Row, now: int) {
    r.deadline.Some? && NotBefore(r.deadline.value, Time(now))
  }

  /** `new Date(p.deadline).getTime()`, the sort key; only read for rows
      that passed the filter, whose deadline denotes an instant. */
  function DeadlineMs(r: Row): int {
    match r.deadline
    case Some(Time(ms)) => ms
    case _ => 0
  }

  /** The rows that pass the deadline filter, in their original order. */
  function KeptUpcoming(rows: seq<Row>, now: int): seq<Row> {
    Filter(rows, r => IsUpcoming(r, now))
  }

  /** `s.slice(0, n)` */
  function Take<T>(s: seq<T>, n: nat): (r: seq<T>)
    ensures |r| == if |s| <= n then |s| else n
    ensures r == s[..|r|]
  {
    if |s| <= n then s else s[..n]
  }

  /** `(data || []).filter(...).sort(by deadline).slice(0, 6)`: at most
      six posts, as many as there are upcoming ones up to six, sorted by
      deadline, each a row of the input whose deadline is at or after now. */
  function SelectUpcoming(rows: seq<Row>, now: int): (r: seq<Row>)
    ensures |r| <= HomeLimit
    ensures |r| == if |KeptUpcoming(rows, now)| <= HomeLimit then |KeptUpcoming(rows, now)| else HomeLimit
    ensures SortedBy(r, DeadlineMs)
    ensures forall i :: 0 <= i < |r| ==>
      r[i] in rows && r[i].deadline.Some? && r[i].deadline.value.Time?
      && r[i].deadline.value.ms >= now
  {
    var kept := KeptUpcoming(rows, now);
    var all := SortBy(kept, DeadlineMs);
    SortBySorted(kept, DeadlineMs);
    SortByPerm(kept, DeadlineMs);
    assert |all| == |kept| by {
      assert |multiset(all)| == |multiset(kept)|;
    }
    TakeOfSorted(all, HomeLimit, DeadlineMs);
    TakeFromKept(rows, now, all, HomeLimit);
    Take(all, HomeLimit)
  }

  /** The section's posts for a load result: a failed load, a `null` body or
      a body that is not an array (whose `filter` throws) all show nothing;
      an array body shows its selection, whose order, limit and
      completeness `SelectUpcoming` and `SelectUpcomingCorrect` state. */
  function ShownPosts(result: LoadResult, now: int): (r: seq<Row>)
    ensures !(result.Loaded? && result.body.Rows?) ==> r == []
    ensures result.Loaded? && result.body.Rows? ==> r == SelectUpcoming(result.body.rows, now)
    ensures result.Loaded? && result.body.Rows? ==>
      forall i :: 0 <= i < |r| ==> r[i] in result.body.rows && IsUpcoming(r[i], now)
  {
    SelectUpcoming(RowsOf(result), now)
  }

  /** The selection is the first six (or fewer) of all upcoming posts
      sorted by deadline, so every upcoming post left out has a deadline
      no earlier than any shown. */
  lemma {:induction false} SelectUpcomingCorrect(rows: seq<Row>, now: int)
    ensures var r := SelectUpcoming(rows, now);
            var all := SortBy(KeptUpcoming(rows, now), DeadlineMs);
      && |r| <= |all|
      && r == all[..|r|]
      && (forall i, j :: 0 <= i < |r| <= j < |all| ==> DeadlineMs(r[i]) <= DeadlineMs(all[j]))
  {
    var kept := KeptUpcoming(rows, now);
    var all := SortBy(kept, DeadlineMs);
    SortBySorted(kept, DeadlineMs);
    TakeOfSorted(all, HomeLimit, DeadlineMs);
  }

  /** A prefix of a sorted sequence is sorted, and no element after it
      has a smaller key than one in it. */
  lemma {:induction false} TakeOfSorted<T>(s: seq<T>, n: nat, key: T -> int)
    requires SortedBy(s, key)
    ensures SortedBy(Take(s, n), key)
    ensures forall i, j :: 0 <= i < |Take(s, n)| <= j < |s| ==> key(Take(s, n)[i]) <= key(s[j])
  {
    var r := Take(s, n);
    forall i, j | 0 <= i < j < |r| ensures key(r[i]) <= key(r[j]) {
      assert r[i] == s[i] && r[j] == s[j];
    }
    forall i, j | 0 <= i < |r| <= j < |s| ensures key(r[i]) <= key(s[j]) {
      assert r[i] == s[i];
    }
  }

  /** Every element of a prefix of a reordering of the upcoming rows is a
      row of the input whose deadline is at or after now. */
  lemma {:induction false} TakeFromKept(rows: seq<Row>, now: int, all: seq<Row>, n: nat)
    requires multiset(all) == multiset(KeptUpcoming(rows, now))
    ensures forall i :: 0 <= i < |Take(all, n)| ==>
      Take(all, n)[i] in rows && Take(all, n)[i].deadline.Some?
      && Take(all, n)[i].deadline.value.Time? && Take(all, n)[i].deadline.value.ms >= now
  {
    var kept := KeptUpcoming(rows, now);
    var r := Take(all, n);
    forall i | 0 <= i < |r|
      ensures r[i] in rows && r[i].deadline.Some? && r[i].deadline.value.Time?
              && r[i].deadline.value.ms >= now
    {
      assert r[i] == all[i];
      assert all[i] in multiset(kept);
      assert r[i] in kept;
    }
  }

  /** With six or fewer upcoming posts, every one of them is shown. */
  lemma {:induction false} FewUpcomingAllShown(rows: seq<Row>, now: int, i: int)
    requires 0 <= i < |rows| && IsUpcoming(rows[i], now)
    requires |KeptUpcoming(rows, now)| <= HomeLimit
    ensures rows[i] in SelectUpcoming(rows, now)
  {
    var kept := KeptUpcoming(rows, now);
    var all := SortBy(kept, DeadlineMs);
    SelectUpcomingCorrect(rows, now);
    SortByPerm(kept, DeadlineMs);
    assert rows[i] in kept;
    assert rows[i] in multiset(all);
  }

  // ------------------------------------------------------------- the badge

  /** `daysLeft(iso)`: both instants set to midnight, their difference in
      milliseconds divided by a day and rounded up. That is the number of
      calendar days from today to the deadline's day; a deadline that
      denotes no date gives `NaN` (nothing in it throws, so it is never
      `null`). */
  function DaysLeft(deadline: Date, now: int): (left: Num)
    ensures deadline.Invalid? ==> left == NaN
    ensures deadline.Time? ==> left == Int(DayOf(deadline.ms) - DayOf(now))
  {
    match StartOfDay(deadline)
    case Invalid => NaN
    case Time(d) =>
      var k := DayOf(deadline.ms) - DayOf(now);
      assert d - StartOfDay(Time(now)).ms == k * DayMs;
      MultipleDivides(k);
      Int(CeilDays(d - StartOfDay(Time(now)).ms))
  }

  lemma MultipleDivides(k: int)
    ensures (k * DayMs) % DayMs == 0 && (k * DayMs) / DayMs == k
  {
  }

  /** A deadline at or after now is never on an earlier day. */
  lemma DayOfMonotone(a: int, b: int)
    requires a <= b
    ensures DayOf(a) <= DayOf(b)
  {
  }

  /** `left > 1` */
  predicate MoreThanOne(left: Num) {
    match left
    case NaN => false
    case Int(i) => i > 1
    case Dec(neg, whole, _) => !neg && whole >= 1
  }

  /** The badge: "N days left" for N > 1, "1 day left" for exactly 1, and
      "Due today" otherwise (`NaN` included). */
  function Badge(left: Num): (text: string)
    ensures MoreThanOne(left) ==> text == NumToString(left) + " days left"
    ensures left == Int(1) ==> text == "1 day left"
    ensures !MoreThanOne(left) && left != Int(1) ==> text == "Due today"
  {
    match left
    case NaN => "Due today"
    case Int(k) =>
      if k > 1 then IntToString(k) + " days left"
      else if k == 1 then "1 day left"
      else "Due today"
    case Dec(neg, whole, _) =>
      if !neg && whole >= 1 then NumToString(left) + " days left" else "Due today"
  }

  /** Every shown post counts a non-negative number of days, and its badge
      reads "Due today" exactly when its deadline falls on today's date. */
  lemma {:induction false} ShownBadge(rows: seq<Row>, now: int, i: int)
    requires 0 <= i < |SelectUpcoming(rows, now)|
    ensures var p := SelectUpcoming(rows, now)[i];
      p.deadline.Some? && p.deadline.value.Time?
      && DaysLeft(p.deadline.value, now) == Int(DayOf(p.deadline.value.ms) - DayOf(now))
      && DaysLeft(p.deadline.value, now).i >= 0
      && (Badge(DaysLeft(p.deadline.value, now)) == "Due today"
          <==> DayOf(p.deadline.value.ms) == DayOf(now))
  {
    var p := SelectUpcoming(rows, now)[i];
    var t := p.deadline.value.ms;
    DayOfMonotone(now, t);
    var k := DayOf(t) - DayOf(now);
    if k > 1 {
      var text := NatToString(k) + " days left";
      assert Badge(Int(k)) == text;
      assert text[0] == NatToString(k)[0];
      assert IsDigit(text[0]);
    } else if k == 1 {
      assert "1 day left"[0] == '1';
    }
  }

  // -------------------------------------------------------------- the link

  /** `p.slug`, as a value. */
  function SlugValue(slug: Option<string>): Value {
    match slug case Some(s) => Str(s) case None => Undefined
  }

  /** The card link's identifier: `id`, then the printed `_id` (a number
      or an object is printed too), then the slug, then the URI-encoded
      title, or `post-<idx>` without a title. It is never empty. */
  function LinkId(p: Row, idx: nat): (v: Value)
    ensures Truthy(v)
    ensures Truthy(p.id) ==> v == p.id
    ensures !Truthy(p.id) && !Nullish(p.dbId) && ToStr(p.dbId) != "" ==> v == Str(ToStr(p.dbId))
    ensures !Truthy(p.id) && (Nullish(p.dbId) || ToStr(p.dbId) == "")
            && p.slug.Some? && p.slug.value != "" ==>
      v == Str(p.slug.value)
    ensures !Truthy(p.id) && (Nullish(p.dbId) || ToStr(p.dbId) == "")
            && (p.slug.None? || p.slug.value == "") ==>
      v == Str(EncodeUriComponent(OrText(p.title, "post-" + NatToString(idx))))
  {
    var fallback := Str(EncodeUriComponent(OrText(p.title, "post-" + NatToString(idx))));
    assert Truthy(fallback) by {
      assert |OrText(p.title, "post-" + NatToString(idx))| > 0;
    }
    Or(Or(Or(p.id, IdText(p.dbId)), SlugValue(p.slug)), fallback)
  }
}
