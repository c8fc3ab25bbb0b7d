/** The profile page: the provider it derives from the signed-in account,
    how it seeds its form, and the record it saves. */
module Profile {
  import opened Text
  import opened JsValues
  import opened Users

  /** `provider`: "password" without `providerData` entries, otherwise the
      first entry's `providerId`, or "password" when that is absent or "". */
  function Provider(user: Option<AuthUser>): (r: string)
    ensures r != ""
    ensures user.None? || user.value.providerIds == [] ==> r == "password"
    ensures user.Some? && user.value.providerIds != [] ==>
      r == OrText(user.value.providerIds[0], "password")
  {
    match user
    case None => "password"
    case Some(u) => if u.providerIds == [] then "password" else OrText(u.providerIds[0], "password")
  }

  /** `provider.includes("google") ? "google" : "password"` */
  function AuthProviderOf(provider: string): (r: string)
    ensures r == "google" || r == "password"
    ensures r == "google" <==> Includes(provider, "google")
  {
    if Includes(provider, "google") then "google" else "password"
  }

  /** An account without provider entries is saved as a password account. */
  lemma NoProviderDataMeansPassword(user: Option<AuthUser>)
    requires user.None? || user.value.providerIds == []
    ensures AuthProviderOf(Provider(user)) == "password"
  {
    assert !Includes("password", "google") by {
      forall i | 0 <= i <= |"password"| - |"google"|
        ensures !OccursAt("password", "google", i)
      {
        assert "password"[i] != 'g';
      }
    }
  }

  /** The stored user record as the page reads it (`data?.x`). */
  datatype StoredUser = StoredUser(
    name: Option<string>,
    photo: Option<string>,
    bio: Option<string>,
    createdAt: Option<string>)

  datatype ProfileForm = ProfileForm(name: string, photo: string, bio: string)

  const EmptyProfileForm := ProfileForm("", "", "")

  function DisplayName(user: Option<AuthUser>): Option<string> {
    match user case Some(u) => u.displayName case None => None
  }

  function PhotoUrl(user: Option<AuthUser>): Option<string> {
    match user case Some(u) => u.photoURL case None => None
  }

  /** `user?.email || ""` */
  function EmailOf(user: Option<AuthUser>): string {
    match user case Some(u) => OrText(u.email, "") case None => ""
  }

  /** The form seeded from a stored record: each of name and photo comes
      from the record, else the account, else ""; the bio only from the
      record. */
  function SeedFromStored(data: StoredUser, user: Option<AuthUser>): (f: ProfileForm)
    ensures data.name.Some? && data.name.value != "" ==> f.name == data.name.value
    ensures (data.name.None? || data.name.value == "") ==> f.name == OrText(DisplayName(user), "")
    ensures data.photo.Some? && data.photo.value != "" ==> f.photo == data.photo.value
    ensures (data.photo.None? || data.photo.value == "") ==> f.photo == OrText(PhotoUrl(user), "")
    ensures f.bio == OrText(data.bio, "")
  {
    ProfileForm(
      OrText(data.name, OrText(DisplayName(user), "")),
      OrText(data.photo, OrText(PhotoUrl(user), "")),
      OrText(data.bio, ""))
  }

  /** The form seeded from the account alone (no stored record). */
  function SeedFromAccount(user: Option<AuthUser>): (f: ProfileForm)
    ensures f.bio == ""
    ensures f.name == OrText(DisplayName(user), "") && f.photo == OrText(PhotoUrl(user), "")
  {
    ProfileForm(OrText(DisplayName(user), ""), OrText(PhotoUrl(user), ""), "")
  }

  /** A stored record with no member set seeds what the account alone
      seeds: the record only takes precedence where it has a value. */
  lemma EmptyRecordFallsBackToAccount(user: Option<AuthUser>)
    ensures SeedFromStored(StoredUser(None, None, None, None), user) == SeedFromAccount(user)
  {
  }

  /** The record `onSave` sends: trimmed name, photo and bio, the account's
      email, the provider mapped to "google" or "password", and the stored
      `createdAt` when there is one, else the current time. */
  function SavePayload(form: ProfileForm, email: string, provider: string,
                       stored: Option<StoredUser>, nowIso: string): (u: UserRecord)
    ensures u.name == Trim(form.name) && u.photo == Trim(form.photo) && u.bio == Trim(form.bio)
    ensures u.email == email
    ensures u.authProvider == "google" <==> Includes(provider, "google")
    ensures u.authProvider == "google" || u.authProvider == "password"
    ensures stored.Some? && stored.value.createdAt.Some? && stored.value.createdAt.value != "" ==>
      u.createdAt == stored.value.createdAt.value
    ensures stored.None? || stored.value.createdAt.None? || stored.value.createdAt.value == "" ==>
      u.createdAt == nowIso
  {
    UserRecord(
      name := Trim(form.name),
      email := email,
      photo := Trim(form.photo),
      bio := Trim(form.bio),
      authProvider := AuthProviderOf(provider),
      createdAt := match stored case Some(s) => OrText(s.createdAt, nowIso) case None => nowIso)
  }

  /** Saving the same form twice sends the same record: the trimmed fields
      are already trimmed. */
  lemma {:induction false} SaveTrimIdempotent(form: ProfileForm, email: string, provider: string,
                                              stored: Option<StoredUser>, nowIso: string)
    ensures var u := SavePayload(form, email, provider, stored, nowIso);
            SavePayload(ProfileForm(u.name, u.photo, u.bio), email, provider, stored, nowIso) == u
  {
    TrimTwice(form.name);
    TrimTwice(form.photo);
    TrimTwice(form.bio);
  }

  /** A saved record as the page keeps it afterwards (`payload` in
      `data?.user || payload`): every member the page reads back is set. */
  function AsStored(u: UserRecord): (s: StoredUser)
    ensures s.name == Some(u.name) && s.createdAt == Some(u.createdAt)
    ensures s.photo == Some(u.photo) && s.bio == Some(u.bio)
  {
    StoredUser(Some(u.name), Some(u.photo), Some(u.bio), Some(u.createdAt))
  }

  /** How loading the stored record ended: found (`res.ok`), not found (any
      other status), or the request threw. */
  datatype LoadOutcome = Found(data: StoredUser) | NotFound | LoadThrew

  /** How the save request ended: failed, or answered with `data?.user`. */
  datatype SaveOutcome = SaveFailed | Saved(user: Option<StoredUser>)

  datatype SaveError = NotSignedIn | NameMissing

  /** The message the page toasts for each refusal. */
  function SaveErrorText(e: SaveError): string {
    match e
    case NotSignedIn => "Please log in to update your profile."
    case NameMissing => "Name is required."
  }

  /** The page's state. */
  class ProfilePage {
    var stored: Option<StoredUser>
    var form: ProfileForm
    var loading: bool
    var saving: bool

    constructor ()
      ensures stored == None && form == EmptyProfileForm && loading && !saving
    {
      stored := None;
      form := EmptyProfileForm;
      loading := true;
      saving := false;
    }

    /** The load effect: without an email there is no stored record and
        the form is left alone; a found record is kept and seeds the form;
        otherwise the account seeds it. Loading ends in every case. */
    method Load(user: Option<AuthUser>, outcome: LoadOutcome)
      modifies this
      ensures EmailOf(user) == "" ==> stored == None && form == old(form)
      ensures EmailOf(user) != "" && outcome.Found? ==>
        stored == Some(outcome.data) && form == SeedFromStored(outcome.data, user)
      ensures EmailOf(user) != "" && !outcome.Found? ==>
        stored == None && form == SeedFromAccount(user)
      ensures !loading && saving == old(saving)
    {
      if EmailOf(user) == "" {
        stored := None;
        loading := false;
        return;
      }
      loading := true;
      match outcome {
        case Found(data) =>
          stored := Some(data);
          form := SeedFromStored(data, user);
        case NotFound =>
          stored := None;
          form := SeedFromAccount(user);
        case LoadThrew =>
          stored := None;
          form := SeedFromAccount(user);
      }
      loading := false;
    }

    /** `onSave`: rejected with no email or with a name that is empty after
        trimming (all white space, see `Text.TrimEmptyIffBlank`), and then
        nothing is sent. Otherwise the record is sent
        whether or not the account's profile update succeeded; on success
        the page keeps the record the server returns, or else the one it
        sent. A refusal is reported by the toast for its reason. The form
        itself is not changed. */
    method OnSave(user: Option<AuthUser>, profileUpdated: bool, outcome: SaveOutcome, nowIso: string)
      returns (error: Option<SaveError>, sent: Option<UserRecord>, toast: Option<string>)
      modifies this
      ensures error.Some? ==> toast == Some(SaveErrorText(error.value))
      ensures EmailOf(user) == "" ==> toast == Some("Please log in to update your profile.")
      ensures EmailOf(user) != "" && Blank(old(form).name) ==> toast == Some("Name is required.")
      ensures form == old(form) && loading == old(loading)
      ensures EmailOf(user) == "" ==> error == Some(NotSignedIn)
      ensures EmailOf(user) != "" && Blank(old(form).name) ==> error == Some(NameMissing)
      ensures error.Some? ==> sent.None? && stored == old(stored) && saving == old(saving)
      ensures error.None? <==> EmailOf(user) != "" && !Blank(old(form).name)
      ensures error.None? ==>
        sent == Some(SavePayload(form, EmailOf(user), Provider(user), old(stored), nowIso))
        && !saving
      ensures error.None? && outcome.Saved? ==>
        stored == Some(outcome.user.GetOr(AsStored(sent.value)))
      ensures error.None? && outcome.SaveFailed? ==> stored == old(stored)
      ensures error.None? && outcome.Saved? ==> toast == Some("Profile updated!")
    {
      var email := EmailOf(user);
      if email == "" {
        return Some(NotSignedIn), None, Some(SaveErrorText(NotSignedIn));
      }
      if Blank(form.name) {
        return Some(NameMissing), None, Some(SaveErrorText(NameMissing));
      }
      error := None;
      saving := true;
      // The account's profile update may fail; the save goes ahead.
      var record := SavePayload(form, email, Provider(user), stored, nowIso);
      sent := Some(record);
      match outcome {
        case Saved(u) =>
          stored := Some(u.GetOr(AsStored(record)));
          toast := Some("Profile updated!");
        case SaveFailed =>
          toast := None;
      }
      saving := false;
    }
  }
}
