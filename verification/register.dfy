/** The registration page: the error map its `validate` builds, the gate in
    front of account creation, and the user records sent after email and
    Google sign-up. */
module Register {
  import opened Text
  import opened JsValues
  import opened Users

  datatype RegisterForm = RegisterForm(
    name: string,
    email: string,
    password: string,
    photoURL: string,
    bio: string)

  const EmptyRegisterForm := RegisterForm("", "", "", "", "")

  /** The keys of the error map. */
  datatype Field = NameField | EmailField | PasswordField

  const NameRequired := "Name is required."
  const EmailRequired := "Email is required."
  const EmailInvalid := "Enter a valid email."
  const PasswordShort := "Password must be at least 6 characters."
  const NeedsUpper := "Include at least one uppercase letter."
  const NeedsLower := "Include at least one lowercase letter."

  predicate NoSpace(s: string) {
    forall k :: 0 <= k < |s| ==> !IsSpace(s[k])
  }

  /** `s` splits as `a@b.c` at `@` position `i` and `.` position `j`, with
      `a`, `b` and `c` non-empty. */
  predicate EmailSplit(s: string, i: int, j: int) {
    1 <= i < |s| && i + 2 <= j < |s| && j + 2 <= |s| && s[i] == '@' && s[j] == '.'
  }

  /** `/^\S+@\S+\.\S+$/.test(s)`: no white space at all, and a split
      `a@b.c` with non-empty parts (`\S` also matches `@` and `.`, so any
      such split will do). */
  predicate EmailPattern(s: string) {
    NoSpace(s) && exists i, j | 0 <= i < |s| && 0 <= j < |s| :: EmailSplit(s, i, j)
  }

  /** `/[A-Z]/.test(s)` and `/[a-z]/.test(s)` */
  predicate HasUpper(s: string) { exists k | 0 <= k < |s| :: 'A' <= s[k] <= 'Z' }
  predicate HasLower(s: string) { exists k | 0 <= k < |s| :: 'a' <= s[k] <= 'z' }

  /** `password.length >= 6`, the length counted in UTF-16 code units. */
  predicate LongEnough(s: string) { Utf16Length(s) >= 6 }

  /** Every field passes its check. */
  predicate AllValid(f: RegisterForm) {
    !Blank(f.name) && EmailPattern(f.email)
    && LongEnough(f.password) && HasUpper(f.password) && HasLower(f.password)
  }

  /** What the error map says about a form: a blank name (empty after
      `trim()`, see `Text.TrimEmptyIffBlank`) has the name error; an email
      that fails the pattern has "required" when it is empty and "invalid"
      otherwise (a white-space-only email included); a short password has
      only the length message, otherwise a missing upper-case letter has
      its message and a missing lower-case letter its own, after a space
      when the first one is there. */
  predicate Reports(f: RegisterForm, errors: map<Field, string>) {
    && (NameField in errors <==> Blank(f.name))
    && (NameField in errors ==> errors[NameField] == NameRequired)
    && (EmailField in errors <==> !EmailPattern(f.email))
    && (EmailField in errors ==>
          errors[EmailField] == (if f.email == "" then EmailRequired else EmailInvalid))
    && (PasswordField in errors <==>
          !LongEnough(f.password) || !HasUpper(f.password) || !HasLower(f.password))
    && (!LongEnough(f.password) ==> errors[PasswordField] == PasswordShort)
    && (LongEnough(f.password) && !HasUpper(f.password) && HasLower(f.password) ==>
          errors[PasswordField] == NeedsUpper)
    && (LongEnough(f.password) && HasUpper(f.password) && !HasLower(f.password) ==>
          errors[PasswordField] == NeedsLower)
    && (LongEnough(f.password) && !HasUpper(f.password) && !HasLower(f.password) ==>
          errors[PasswordField] == NeedsUpper + " " + NeedsLower)
  }

  /** The description fixes the map: no two different maps report the
      same form. */
  lemma ReportsIsComplete(f: RegisterForm, e1: map<Field, string>, e2: map<Field, string>)
    requires Reports(f, e1) && Reports(f, e2)
    ensures e1 == e2
  {
    forall k ensures (k in e1 <==> k in e2) && (k in e1 ==> e1[k] == e2[k]) {
      match k
      case NameField =>
      case EmailField =>
      case PasswordField =>
    }
    assert e1.Keys == e2.Keys;
  }

  /** `validate()`: builds the error map step by step; the map it returns
      reports the form, and it is empty exactly when every field passes. */
  method Validate(f: RegisterForm) returns (errors: map<Field, string>)
    ensures Reports(f, errors)
    ensures errors == map[] <==> AllValid(f)
  {
    errors := map[];
    if Blank(f.name) {
      errors := errors[NameField := NameRequired];
    }
    if Blank(f.email) {
      errors := errors[EmailField := EmailRequired];
      if f.email != "" {
        WhitespaceEmailIsInvalid(f);
      }
    }
    if f.email != "" && !EmailPattern(f.email) {
      errors := errors[EmailField := EmailInvalid];
    }
    if !LongEnough(f.password) {
      errors := errors[PasswordField := PasswordShort];
    } else {
      if !HasUpper(f.password) {
        errors := errors[PasswordField := NeedsUpper];
      }
      if !HasLower(f.password) {
        var prefix := if PasswordField in errors then errors[PasswordField] + " " else "";
        errors := errors[PasswordField := prefix + NeedsLower];
      }
    }
    if errors == map[] {
      assert EmailField !in errors;
    } else {
      assert NameField in errors || EmailField in errors || PasswordField in errors;
    }
  }

  /** A white-space-only email gets "Enter a valid email.", not "Email is
      required.": the pattern check runs second and overwrites. */
  lemma WhitespaceEmailIsInvalid(f: RegisterForm)
    requires f.email != "" && Blank(f.email)
    ensures !EmailPattern(f.email)
  {
    assert IsSpace(f.email[0]);
  }

  /** The record saved after email sign-up. */
  function PasswordRecord(f: RegisterForm, nowIso: string): (u: UserRecord)
    ensures u.authProvider == "password"
    ensures u.name == f.name && u.email == f.email && u.photo == f.photoURL && u.bio == f.bio
    ensures u.createdAt == nowIso
  {
    UserRecord(f.name, f.email, f.photoURL, f.bio, "password", nowIso)
  }

  /** The record saved after Google sign-in: the account's profile members
      (or ""), an empty bio, and the provider "google". */
  function GoogleRecord(user: AuthUser, nowIso: string): (u: UserRecord)
    ensures u.authProvider == "google" && u.bio == ""
    ensures u.email == OrText(user.email, "") && u.name == OrText(user.displayName, "")
    ensures u.photo == OrText(user.photoURL, "")
    ensures u.createdAt == nowIso
  {
    UserRecord(OrText(user.displayName, ""), OrText(user.email, ""),
               OrText(user.photoURL, ""), "", "google", nowIso)
  }

  /** The page's state: the form, the error map shown, and the flag. */
  class RegisterPage {
    var form: RegisterForm
    var errors: map<Field, string>
    var submitting: bool

    constructor ()
      ensures form == EmptyRegisterForm && errors == map[] && !submitting
    {
      form := EmptyRegisterForm;
      errors := map[];
      submitting := false;
    }

    /** `handleRegister`: the errors are cleared and recomputed; creation
        proceeds only when there are none. The record is saved only when
        the account was created and its profile updated (a failure in
        either step throws before the save). */
    method HandleRegister(accountCreated: bool, profileUpdated: bool, nowIso: string)
      returns (saved: Option<UserRecord>)
      modifies this
      ensures form == old(form)
      ensures Reports(form, errors)
      ensures errors == map[] <==> AllValid(form)
      ensures saved.Some? <==> AllValid(form) && accountCreated && profileUpdated
      ensures saved.Some? ==> saved.value == PasswordRecord(form, nowIso)
      ensures AllValid(form) ==> !submitting
      ensures !AllValid(form) ==> submitting == old(submitting)
    {
      errors := map[];
      var v := Validate(form);
      if v != map[] {
        errors := v;
        return None;
      }
      submitting := true;
      if accountCreated && profileUpdated {
        saved := Some(PasswordRecord(form, nowIso));
      } else {
        saved := None;
      }
      submitting := false;
    }
  }
}
