/** The edit page: the post it loads (from navigation state or from the
    server), the form it seeds from that post, and the update it sends. */
module UpdatePost {
  import opened Text
  import opened Numbers
  import opened JsValues
  import opened Dates
  import opened Records
  import opened PostForm

  /** The members of a post the edit page reads after its `normalize`. */
  datatype Editable = Editable(
    thumbnail: string,
    title: string,
    description: string,
    category: string,
    location: string,
    needed: Num,
    deadline: Option<Date>)

  /** `normalize(d)` for an optional row (`d?.x`): text members default to
      "", `needed` to 0, and an absent or empty deadline stays absent. */
  function NormalizeForEdit(d: Option<Row>): (p: Editable)
    ensures d.None? ==> p == Editable("", "", "", "", "", Int(0), None)
    ensures d.Some? ==> p.needed == NeededCount(d.value) && p.deadline == d.value.deadline
    ensures d.Some? ==> p.title == OrText(d.value.title, "")
    ensures d.Some? ==> p.description == OrText(d.value.description, "")
    ensures d.Some? ==> p.category == OrText(d.value.category, "")
    ensures d.Some? ==> p.location == OrText(d.value.location, "")
    ensures d.Some? ==> p.thumbnail == OrText(d.value.thumbnail, "")
  {
    match d
    case None => Editable("", "", "", "", "", Int(0), None)
    case Some(r) =>
      Editable(
        thumbnail := OrText(r.thumbnail, ""),
        title := OrText(r.title, ""),
        description := OrText(r.description, ""),
        category := OrText(r.category, ""),
        location := OrText(r.location, ""),
        needed := NeededCount(r),
        deadline := r.deadline)
  }

  /** The form seeded from a normalised post; `needed` is
      `String(p.needed || "")`, so a count of 0 (or `NaN`) seeds "". */
  function SeedForm(p: Editable): (f: Form)
    ensures f.title == p.title && f.description == p.description
    ensures f.category == p.category && f.location == p.location
    ensures f.thumbnail == p.thumbnail
    ensures p.needed.NaN? || p.needed == Int(0) ==> f.needed == ""
    ensures !(p.needed.NaN? || p.needed == Int(0)) ==> f.needed == NumToString(p.needed)
  {
    Form(
      thumbnail := p.thumbnail,
      title := p.title,
      description := p.description,
      category := p.category,
      location := p.location,
      needed := if Truthy(Number(p.needed)) then NumToString(p.needed) else "")
  }

  /** The seeded count passes validation exactly when the stored count is
      positive: a post with 0 (or no readable count) must be given a new
      count before it can be saved. */
  lemma {:induction false} SeededNeededOkIffPositive(p: Editable)
    ensures NeededOk(SeedForm(p)) <==> IsPositive(p.needed)
  {
    if !(p.needed.NaN? || p.needed == Int(0)) {
      SeededNeededRoundTrip(p);
      SignsExclusive(p.needed);
    }
  }

  /** Seeding then reading back the count gives the stored count whenever
      it is non-zero. */
  lemma {:induction false} SeededNeededRoundTrip(p: Editable)
    requires !p.needed.NaN? && p.needed != Int(0)
    ensures ToNumber(Str(SeedForm(p).needed)) == p.needed
  {
    NumberOfPrintedNumber(p.needed);
  }

  /** The body of the update request: the editable members only (organizer,
      status and creation time are never sent). */
  datatype Update = Update(
    thumbnail: string,
    title: string,
    description: string,
    category: string,
    location: string,
    needed: Num,
    deadline: int)

  /** The update built from the form and the picked deadline.
      `deadline.toISOString()` throws on a date that denotes no instant, so
      such a deadline yields no update. */
  function BuildUpdate(f: Form, deadline: Date): (u: Option<Update>)
    ensures u.Some? <==> deadline.Time?
    ensures u.Some? ==> u.value.needed == ToNumber(Str(f.needed)) && u.value.deadline == deadline.ms
    ensures u.Some? ==> u.value.title == f.title && u.value.description == f.description
    ensures u.Some? ==> u.value.category == f.category && u.value.location == f.location
    ensures u.Some? ==> u.value.thumbnail == f.thumbnail
  {
    match deadline
    case Invalid => None
    case Time(ms) =>
      Some(Update(f.thumbnail, f.title, f.description, f.category, f.location,
                  ToNumber(Str(f.needed)), ms))
  }

  /** Loading a post and saving it without edits sends back its text
      members and its count, when the count is positive and the deadline is
      a date. */
  lemma {:induction false} UneditedSaveRoundTrip(d: Row, t: int)
    requires IsPositive(NeededCount(d))
    requires d.deadline == Some(Time(t))
    ensures var p := NormalizeForEdit(Some(d));
            BuildUpdate(SeedForm(p), Time(t))
            == Some(Update(p.thumbnail, p.title, p.description, p.category, p.location,
                           NeededCount(d), t))
  {
    SeededNeededRoundTrip(NormalizeForEdit(Some(d)));
  }

  /** How fetching the post ended: failed, or delivered a body (`None` for
      a `null` body). */
  datatype Fetch = FetchFailed | Fetched(data: Option<Row>)

  /** The page's state: the form, the picked deadline, and the flags. */
  class EditPage {
    var form: Form
    var deadline: Option<Date>
    var loading: bool
    var saving: bool

    /** Loading starts out set exactly when no post came with the
        navigation. */
    constructor (initial: Option<Row>)
      ensures form == EmptyForm && deadline == None
      ensures loading <==> initial.None?
      ensures !saving
    {
      form := EmptyForm;
      deadline := None;
      loading := initial.None?;
      saving := false;
    }

    /** Seeds the form and deadline from a normalised post. */
    method Seed(d: Option<Row>)
      modifies this
      ensures form == SeedForm(NormalizeForEdit(d))
      ensures deadline == NormalizeForEdit(d).deadline
      ensures loading == old(loading) && saving == old(saving)
    {
      var p := NormalizeForEdit(d);
      form := SeedForm(p);
      deadline := p.deadline;
    }

    /** The load effect: a post from navigation state is used as is and the
        server is not asked; otherwise the fetched post seeds the form, and
        a failed fetch leaves the form as it was. Loading ends either way. */
    method Load(initial: Option<Row>, fetched: Fetch)
      modifies this
      ensures initial.Some? ==>
        form == SeedForm(NormalizeForEdit(initial)) && deadline == NormalizeForEdit(initial).deadline
      ensures initial.None? && fetched.Fetched? ==>
        form == SeedForm(NormalizeForEdit(fetched.data))
        && deadline == NormalizeForEdit(fetched.data).deadline
      ensures initial.None? && fetched.FetchFailed? ==>
        form == old(form) && deadline == old(deadline)
      ensures !loading && saving == old(saving)
    {
      if initial.Some? {
        Seed(initial);
        loading := false;
        return;
      }
      loading := true;
      if fetched.Fetched? {
        Seed(fetched.data);
      }
      loading := false;
    }

    /** `onSubmit`: a validation failure sends nothing; otherwise the update
        is sent when the deadline denotes an instant. The form is kept
        either way. */
    method OnSubmit() returns (error: Option<FormError>, sent: Option<Update>)
      modifies this
      ensures error == Validate(old(form), old(deadline))
      ensures form == old(form) && deadline == old(deadline) && loading == old(loading)
      ensures error.Some? ==> sent.None? && saving == old(saving)
      ensures error.None? ==> deadline.Some? && sent == BuildUpdate(form, deadline.value) && !saving
    {
      error := Validate(form, deadline);
      if error.Some? {
        return error, None;
      }
      saving := true;
      sent := BuildUpdate(form, deadline.value);
      saving := false;
    }
  }

  /** A deadline that denotes no date passes validation (a `Date` object is
      truthy) but is never sent. */
  lemma InvalidDeadlineNeverSent(f: Form)
    requires TitleOk(f) && DescriptionOk(f) && CategoryOk(f) && LocationOk(f) && NeededOk(f)
    ensures Validate(f, Some(Invalid)).None?
    ensures BuildUpdate(f, Invalid).None?
  {
  }
}
