/** The volunteer-need post form shared by the create page and the edit
    page: its fields, the first-failure validation both pages run before
    sending, and the create page's submission. */
module PostForm {
  import opened Text
  import opened Numbers
  import opened JsValues
  import opened Dates

  /** The text inputs of the form (the deadline is held apart). */
  datatype Form = Form(
    thumbnail: string,
    title: string,
    description: string,
    category: string,
    location: string,
    needed: string)

  const EmptyForm := Form("", "", "", "", "", "")

  /** The checks of `validate()`, in the order it runs them. */
  datatype FormError =
    | TitleMissing
    | DescriptionMissing
    | CategoryMissing
    | LocationMissing
    | NeededNotPositive
    | DeadlineMissing

  /** The message `validate()` returns for each failed check. */
  function Message(e: FormError): string {
    match e
    case TitleMissing => "Post title is required."
    case DescriptionMissing => "Description is required."
    case CategoryMissing => "Please choose a category."
    case LocationMissing => "Location is required."
    case NeededNotPositive => "Number of volunteers must be greater than 0."
    case DeadlineMissing => "Please choose a deadline."
  }

  /** Title, description and location must be non-empty after trimming,
      that is, not all white space (`TrimmedChecks`); the category is checked
      without trimming. */
  predicate TitleOk(f: Form) { !Blank(f.title) }
  predicate DescriptionOk(f: Form) { !Blank(f.description) }
  predicate CategoryOk(f: Form) { f.category != "" }
  predicate LocationOk(f: Form) { !Blank(f.location) }

  /** The three trimmed checks are exactly `x.trim()` being non-empty. */
  lemma TrimmedChecks(f: Form)
    ensures TitleOk(f) <==> Trim(f.title) != ""
    ensures DescriptionOk(f) <==> Trim(f.description) != ""
    ensures LocationOk(f) <==> Trim(f.location) != ""
  {
    TrimEmptyIffBlank(f.title);
    TrimEmptyIffBlank(f.description);
    TrimEmptyIffBlank(f.location);
  }

  /** `!(!form.needed || Number(form.needed) <= 0)`: non-empty, and not a
      number at most 0 (a value that is not a number passes, since `NaN <= 0`
      is false). */
  predicate NeededOk(f: Form) {
    f.needed != "" && !AtMostZero(ToNumber(Str(f.needed)))
  }

  /** `validate()`: the first failing check, in the order title,
      description, category, location, needed, deadline; `None` (null) when
      every check passes. */
  function Validate(f: Form, deadline: Option<Date>): (r: Option<FormError>)
    ensures r.None? <==>
      TitleOk(f) && DescriptionOk(f) && CategoryOk(f) && LocationOk(f)
      && NeededOk(f) && deadline.Some?
    ensures r == Some(TitleMissing) <==> !TitleOk(f)
    ensures r == Some(DescriptionMissing) <==> TitleOk(f) && !DescriptionOk(f)
    ensures r == Some(CategoryMissing) <==>
      TitleOk(f) && DescriptionOk(f) && !CategoryOk(f)
    ensures r == Some(LocationMissing) <==>
      TitleOk(f) && DescriptionOk(f) && CategoryOk(f) && !LocationOk(f)
    ensures r == Some(NeededNotPositive) <==>
      TitleOk(f) && DescriptionOk(f) && CategoryOk(f) && LocationOk(f) && !NeededOk(f)
    ensures r == Some(DeadlineMissing) <==>
      TitleOk(f) && DescriptionOk(f) && CategoryOk(f) && LocationOk(f) && NeededOk(f)
      && deadline.None?
  {
    if !TitleOk(f) then Some(TitleMissing)
    else if !DescriptionOk(f) then Some(DescriptionMissing)
    else if !CategoryOk(f) then Some(CategoryMissing)
    else if !LocationOk(f) then Some(LocationMissing)
    else if !NeededOk(f) then Some(NeededNotPositive)
    else if deadline.None? then Some(DeadlineMissing)
    else None
  }

  /** A white-space title fails while a white-space category passes: the
      category is the one field not trimmed. */
  lemma BlankTitleFailsBlankCategoryPasses(f: Form)
    requires f.title != "" && Blank(f.title)
    requires f.category != "" && Blank(f.category)
    ensures Validate(f, None) == Some(TitleMissing)
    ensures CategoryOk(f)
  {
  }

  /** For a numeral, the needed check passes exactly when the number is
      positive. */
  lemma NeededOkForNumeral(f: Form, n: int)
    requires f.needed == IntToString(n)
    ensures NeededOk(f) <==> n > 0
  {
    ParsePrintedInt(n);
    assert f.needed != "" by { assert |NatToString(if n < 0 then -n else n)| > 0; }
  }

  /** For a numeral with a decimal point, the needed check passes exactly
      when it has no minus sign and a digit other than zero. */
  lemma NeededOkForPointed(f: Form, neg: bool, ip: string, fp: string)
    requires AllDigits(ip) && AllDigits(fp) && ip + fp != []
    requires f.needed == (if neg then "-" else "") + ip + "." + fp
    ensures NeededOk(f) <==> !neg && !AllZero(ip + fp)
  {
    ParsePointed(neg, ip, fp);
    ComposeSign(neg, ip + fp, |ip|);
  }

  /** For a numeral in exponent form, the needed check passes exactly when
      it has no minus sign and a digit other than zero before the `e`. */
  lemma NeededOkForExponent(f: Form, neg: bool, ip: string, x: string)
    requires AllDigits(ip) && ip != [] && ExponentOk(x)
    requires f.needed == (if neg then "-" else "") + ip + "e" + x
    ensures NeededOk(f) <==> !neg && !AllZero(ip)
  {
    ParseExponentForm(neg, ip, x);
    ComposeSign(neg, ip, |ip| + ExponentValue(x));
  }

  /** The signed-in user, as far as the form pages read it. */
  datatype User = User(displayName: Option<string>, email: Option<string>)

  /** The post the create page sends. */
  datatype NewPost = NewPost(
    thumbnail: string,
    title: string,
    description: string,
    category: string,
    location: string,
    needed: Num,
    deadline: int,
    organizerName: string,
    organizerEmail: string,
    createdAt: string,
    status: string)

  /** The create page's payload: the fields as typed (untrimmed), `needed`
      as a number, the picked deadline, the organizer from the signed-in
      user (or ""), the creation time and the status "open". */
  function CreatePayload(f: Form, deadline: int, user: Option<User>, nowIso: string): (p: NewPost)
    ensures p.status == "open"
    ensures p.needed == ToNumber(Str(f.needed))
    ensures p.title == f.title && p.description == f.description && p.category == f.category
    ensures p.location == f.location && p.thumbnail == f.thumbnail
    ensures p.deadline == deadline && p.createdAt == nowIso
    ensures user.None? ==> p.organizerName == "" && p.organizerEmail == ""
    ensures user.Some? ==> p.organizerEmail == OrText(user.value.email, "")
    ensures user.Some? ==> p.organizerName == OrText(user.value.displayName, "")
  {
    NewPost(
      thumbnail := f.thumbnail,
      title := f.title,
      description := f.description,
      category := f.category,
      location := f.location,
      needed := ToNumber(Str(f.needed)),
      deadline := deadline,
      organizerName := match user case Some(u) => OrText(u.displayName, "") case None => "",
      organizerEmail := match user case Some(u) => OrText(u.email, "") case None => "",
      createdAt := nowIso,
      status := "open")
  }

  /** A payload built from a form that passed validation never carries a
      needed count of 0 or less. */
  lemma ValidPayloadNeededPositive(f: Form, deadline: int, user: Option<User>, nowIso: string)
    requires Validate(f, Some(Time(deadline))).None?
    ensures var n := CreatePayload(f, deadline, user, nowIso).needed; n.NaN? || IsPositive(n)
  {
  }

  /** The create page: the form, the picked deadline (the picker only
      yields valid dates) and the submitting flag. */
  class CreatePage {
    var form: Form
    var deadline: Option<int>
    var submitting: bool

    constructor ()
      ensures form == EmptyForm && deadline == None && !submitting
    {
      form := EmptyForm;
      deadline := None;
      submitting := false;
    }

    function PickedDate(): Option<Date>
      reads this
    {
      match deadline case Some(ms) => Some(Time(ms)) case None => None
    }

    /** `handleSubmit`: a validation message stops the submission with
        nothing sent and nothing changed; otherwise the payload is sent
        and, when the server accepts it, every field is reset to "" and the
        deadline to null. */
    method HandleSubmit(user: Option<User>, nowIso: string, serverOk: bool)
      returns (error: Option<FormError>, sent: Option<NewPost>)
      modifies this
      ensures error == Validate(old(form), old(PickedDate()))
      ensures error.Some? ==> sent.None? && form == old(form) && deadline == old(deadline)
                              && submitting == old(submitting)
      ensures error.None? ==>
        old(deadline).Some?
        && sent == Some(CreatePayload(old(form), old(deadline).value, user, nowIso))
        && !submitting
      ensures error.None? && serverOk ==> form == EmptyForm && deadline == None
      ensures error.None? && !serverOk ==> form == old(form) && deadline == old(deadline)
    {
      error := Validate(form, PickedDate());
      if error.Some? {
        return error, None;
      }
      sent := Some(CreatePayload(form, deadline.value, user, nowIso));
      submitting := true;
      if serverOk {
        form := EmptyForm;
        deadline := None;
      }
      submitting := false;
    }
  }
}
