/**
 * The profile page (`ProfilePage`): it loads the signed-in user, edits a
 * form of name, address, phone number and image, validates it on the
 * client, and submits the trimmed name and the lower-cased address.
 * Requests are parameters that answer or fail.
 */
module Profile {
  import opened Wrappers
  import opened Text
  import Validation

  datatype Form = Form(name: string, email: string, phone: string, image: Option<string>)

  /** The user record from `/auth/me`; absent fields are `None`. */
  datatype UserRec = UserRec(name: Option<string>, email: Option<string>, phone: Option<string>)

  datatype Page = Page(
    user: Option<UserRec>,
    loading: bool,
    editing: bool,
    form: Form,
    errors: map<string, string>,
    submitting: bool,
    requests: nat)

  /** The form's text fields, named as the inputs' `name` attributes. */
  datatype Field = NameField | EmailField | PhoneField

  function Key(f: Field): string
  {
    match f
    case NameField => "name"
    case EmailField => "email"
    case PhoneField => "phone_number"
  }

  const ImageKey := "image"
  const GeneralKey := "general"

  const NameRequired := "Name is required"
  const NameTooShort := "Name must be at least 2 characters long"
  const EmailRequired := "Email is required"
  const EmailNotInstitutional := "Please use your institutional email address (.edu.et)"
  const EmailInvalid := "Please enter a valid email address"
  const UpdateFailed := "Failed to update profile"

  const EmptyForm := Form("", "", "", None)

  function Mount(): Page
  {
    Page(None, true, false, EmptyForm, map[], false, 0)
  }

  /** The form filled from a user record, `''` for a missing field. */
  function FormOf(u: UserRec): Form
  {
    Form(u.name.GetOr(""), u.email.GetOr(""), u.phone.GetOr(""), None)
  }

  /** `fetchUser`: a failure is only logged; loading ends either way. */
  function Fetched(p: Page, reply: Reply<UserRec>): (r: Page)
    ensures !r.loading && r.requests == p.requests + 1
  {
    var p1 := p.(loading := false, requests := p.requests + 1);
    match reply
    case Answered(u) => p1.(user := Some(u), form := FormOf(u))
    case Failed(_) => p1
  }

  /** `\s`, and '@': the characters `[^\s@]` excludes. */
  predicate Excluded(c: char)
  {
    IsSpace(c) || c == '@'
  }

  predicate NoneExcluded(s: string)
  {
    forall i :: 0 <= i < |s| ==> !Excluded(s[i])
  }

  /** `^[^\s@]+@[^\s@]+\.[^\s@]+$` on the whole address. */
  predicate LooksLikeEmail(e: string)
  {
    exists k, j :: 1 <= k && k + 1 < j < |e| - 1 && e[k] == '@' && e[j] == '.'
                   && NoneExcluded(e[..k]) && NoneExcluded(e[k + 1..])
  }

  /** The name's error, if any. */
  function NameError(name: string): Option<string>
  {
    var t := Trim(name);
    if t == "" then Some(NameRequired)
    else if Utf16Len(t) < 2 then Some(NameTooShort)
    else None
  }

  /** The address's error, if any: the checks in order. */
  function EmailError(email: string): Option<string>
  {
    if Trim(email) == "" then Some(EmailRequired)
    else if !HasSuffix(ToLower(email), Validation.InstitutionalSuffix) then Some(EmailNotInstitutional)
    else if !LooksLikeEmail(email) then Some(EmailInvalid)
    else None
  }

  /** The error map holding the given field errors. */
  function ErrorMap(nameError: Option<string>, emailError: Option<string>): (r: map<string, string>)
    ensures "name" in r <==> nameError.Some?
    ensures "email" in r <==> emailError.Some?
    ensures nameError.Some? ==> r["name"] == nameError.value
    ensures emailError.Some? ==> r["email"] == emailError.value
    ensures forall k :: k in r ==> k == "name" || k == "email"
  {
    var m1 := if nameError.Some? then map["name" := nameError.value] else map[];
    if emailError.Some? then m1["email" := emailError.value] else m1
  }

  /** `validateForm`'s errors. */
  function Validate(f: Form): map<string, string>
  {
    ErrorMap(NameError(f.name), EmailError(f.email))
  }

  /** `validateForm`: records the errors and passes when there are none. */
  function ValidateForm(p: Page): (Page, bool)
  {
    var errs := Validate(p.form);
    (p.(errors := errs), |errs| == 0)
  }

  /** Clears the edited field's error, if it has a non-empty one. */
  function ClearError(errors: map<string, string>, key: string): (r: map<string, string>)
  {
    if key in errors && errors[key] != "" then errors[key := ""] else errors
  }

  /** `handleChange` on a text field. */
  function Change(p: Page, f: Field, value: string): Page
  {
    var form := match f
      case NameField => p.form.(name := value)
      case EmailField => p.form.(email := value)
      case PhoneField => p.form.(phone := value);
    p.(form := form, errors := ClearError(p.errors, Key(f)))
  }

  /** `handleChange` on the image input: its first file, if any. */
  function ChooseImage(p: Page, file: Option<string>): Page
  {
    p.(form := p.form.(image := file), errors := ClearError(p.errors, ImageKey))
  }

  function StartEdit(p: Page): Page
  {
    p.(editing := true)
  }

  /** `handleCancelEdit`: the form goes back to the loaded user, the errors
      are cleared. */
  function CancelEdit(p: Page): Page
  {
    var form := if p.user.Some? then FormOf(p.user.value) else p.form;
    p.(editing := false, form := form, errors := map[])
  }

  /** What the form sends. */
  datatype Payload = Payload(name: string, email: string, phone: string, image: Option<string>)

  /** `handleSubmit`: nothing is sent unless validation passes; the update
      is followed by a fresh load of the user. */
  function Submit(p: Page, update: Reply<()>, refetch: Reply<UserRec>): (Page, Option<Payload>)
  {
    var (p1, ok) := ValidateForm(p);
    if !ok then (p1, None)
    else
      var payload := Payload(Trim(p.form.name), ToLower(p.form.email), p.form.phone, p.form.image);
      var p2 := p1.(requests := p1.requests + 1);
      match update
      case Failed(m) =>
        (p2.(errors := map[GeneralKey := if m != "" then m else UpdateFailed], submitting := false), Some(payload))
      case Answered(_) =>
        (Fetched(p2, refetch).(editing := false, errors := map[], submitting := false), Some(payload))
  }

  /** `getInstitutionFromEmail`: the text after the first '@' up to the
      next one, with its first ".edu.et" removed when it ends in ".edu.et"
      (case-sensitive). */
  function ClientInstitution(email: string): string
  {
    if email == "" || '@' !in email then ""
    else
      SeparatorSplits(email, '@');
      var domain := Split(email, '@')[1];
      if HasSuffix(domain, Validation.InstitutionalSuffix) then ReplaceFirst(domain, Validation.InstitutionalSuffix, "")
      else ""
  }

  // ---------------------------------------------------------------------
  // Properties
  // ---------------------------------------------------------------------

  /** The name gets one error exactly when it is blank after trimming or
      shorter than two characters; blank takes precedence. */
  lemma NameRule(f: Form)
    ensures "name" in Validate(f) <==> Trim(f.name) == "" || Utf16Len(Trim(f.name)) < 2
    ensures "name" in Validate(f) ==>
              Validate(f)["name"] == (if Trim(f.name) == "" then NameRequired else NameTooShort)
  {
    var e := NameError(f.name);
    assert Validate(f) == ErrorMap(e, EmailError(f.email));
    assert e.Some? <==> Trim(f.name) == "" || Utf16Len(Trim(f.name)) < 2;
  }

  /** The address gets one error: required, then the suffix, then the
      pattern; only the first failing check is reported. */
  lemma EmailRule(f: Form)
    ensures "email" in Validate(f) <==>
              Trim(f.email) == "" || !HasSuffix(ToLower(f.email), Validation.InstitutionalSuffix) || !LooksLikeEmail(f.email)
    ensures Trim(f.email) == "" ==> Validate(f)["email"] == EmailRequired
    ensures Trim(f.email) != "" && !HasSuffix(ToLower(f.email), Validation.InstitutionalSuffix) ==>
              Validate(f)["email"] == EmailNotInstitutional
    ensures Trim(f.email) != "" && HasSuffix(ToLower(f.email), Validation.InstitutionalSuffix) && !LooksLikeEmail(f.email) ==>
              Validate(f)["email"] == EmailInvalid
  {
  }

  /** Only the name and the address are checked, and the form passes
      exactly when neither has an error. */
  lemma PassesIffNoErrors(p: Page)
    ensures forall k :: k in Validate(p.form) ==> k == "name" || k == "email"
    ensures ValidateForm(p).1 <==> NameError(p.form.name).None? && EmailError(p.form.email).None?
    ensures ValidateForm(p).0.errors == Validate(p.form)
  {
    var errs := Validate(p.form);
    if NameError(p.form.name).Some? {
      assert "name" in errs;
    }
    if EmailError(p.form.email).Some? {
      assert "email" in errs;
    }
  }

  /** Editing a field clears that field's error and leaves every other
      error as it was; a field without an error keeps none. */
  lemma ChangeClearsOnlyItsError(p: Page, f: Field, value: string, k: string)
    ensures var r := Change(p, f, value);
            && (k != Key(f) ==> (k in r.errors <==> k in p.errors) && (k in p.errors ==> r.errors[k] == p.errors[k]))
            && (Key(f) in p.errors ==> r.errors[Key(f)] == "")
            && (Key(f) !in p.errors ==> Key(f) !in r.errors)
  {
  }

  /** A submission is sent exactly when the form validates, with the trimmed
      name and the lower-cased address, which then ends in ".edu.et"; a
      failed update shows the server's message or the default. */
  lemma SubmitSendsValidatedForm(p: Page, update: Reply<()>, refetch: Reply<UserRec>)
    ensures var (r, sent) := Submit(p, update, refetch);
            && (sent.Some? <==> |Validate(p.form)| == 0)
            && (sent.Some? ==> sent.value.name == Trim(p.form.name) && sent.value.email == ToLower(p.form.email)
                               && HasSuffix(sent.value.email, Validation.InstitutionalSuffix)
                               && Trim(sent.value.name) == sent.value.name && sent.value.name != "")
            && (sent.None? ==> r == p.(errors := Validate(p.form)))
            && (sent.Some? && update.Failed? ==>
                  r.errors == map[GeneralKey := if update.message != "" then update.message else UpdateFailed])
            && (sent.Some? && update.Answered? ==> !r.editing && r.errors == map[])
  {
    PassesIffNoErrors(p);
    if |Validate(p.form)| == 0 {
      TrimIdempotent(p.form.name);
    }
  }

  lemma TrimIdempotent(s: string)
    ensures Trim(Trim(s)) == Trim(s)
  {
    var a := TrimStart(s);
    var r := TrimEnd(a);
    if r != [] {
      assert r[0] == a[0];
    }
    TrimOfTrimmed(r);
  }

  /** Cancelling restores the loaded user's details and clears every
      error. */
  lemma CancelRestores(p: Page)
    ensures !CancelEdit(p).editing && CancelEdit(p).errors == map[]
    ensures p.user.Some? ==> CancelEdit(p).form == FormOf(p.user.value)
    ensures p.user.None? ==> CancelEdit(p).form == p.form
  {
  }

  /** The page's institution: for an address with one '@' whose domain
      is `stem` followed by ".edu.et", and `stem` does not itself hold
      ".edu.et", it is `stem`. */
  lemma ClientInstitutionOfDomain(local: string, stem: string)
    requires '@' !in local && '@' !in stem && IndexOf(stem, Validation.InstitutionalSuffix).None?
    ensures ClientInstitution(local + "@" + stem + Validation.InstitutionalSuffix) == stem
  {
    var t := Validation.InstitutionalSuffix;
    RemoveSuffixOnce(stem);
    Concat3(local, "@", stem, t);
    ClientInstitutionIs(local, stem + t);
  }

  lemma RemoveSuffixOnce(stem: string)
    requires IndexOf(stem, Validation.InstitutionalSuffix).None?
    ensures ReplaceFirst(stem + Validation.InstitutionalSuffix, Validation.InstitutionalSuffix, "") == stem
  {
    var t := Validation.InstitutionalSuffix;
    FirstAtJoin(stem, t);
    Concat3(stem, t, [], []);
    ReplaceAt(stem, t, []);
  }

  /** For a lower-case address the server accepts, whose stem does not
      itself hold ".edu.et", the page names the same institution as the
      server's extraction. */
  lemma ClientAgreesWithServer(email: string, k: int)
    requires ToLower(email) == email && Validation.InstitutionalAt(email, k)
    requires IndexOf(email[k + 1..|email| - 7], Validation.InstitutionalSuffix).None?
    ensures ClientInstitution(email) == Validation.GetInstitutionFromEmail(email)
    ensures Validation.IsInstitutionalEmail(email)
  {
    Validation.InstitutionAt(email, k);
    var stem := email[k + 1..|email| - 7];
    AddressPieces(email, k);
    ClientInstitutionOfDomain(email[..k], stem);
  }

  lemma AddressPieces(email: string, k: int)
    requires Validation.InstitutionalAt(email, k)
    ensures email == email[..k] + "@" + email[k + 1..|email| - 7] + Validation.InstitutionalSuffix
    ensures '@' !in email[..k] && '@' !in email[k + 1..|email| - 7]
  {
    Validation.NoAtInLocal(email[..k]);
    Validation.NoAtInDomain(email[k + 1..]);
    assert email[k + 1..|email| - 7] == email[k + 1..][..|email| - 7 - (k + 1)];
    assert email[..k] + "@" + email[k + 1..|email| - 7] + email[|email| - 7..] == email;
  }

  /** The page drops only the first ".edu.et", so a domain holding it twice
      keeps the second, where the server's extraction keeps the labels
      before the last two. */
  lemma ClientRemovesFirstOccurrence(local: string, stem: string)
    requires '@' !in local && '@' !in stem && IndexOf(stem, Validation.InstitutionalSuffix).None?
    ensures var t := Validation.InstitutionalSuffix;
            ClientInstitution(local + "@" + stem + t + t) == stem + t
  {
    var t := Validation.InstitutionalSuffix;
    RemoveFirstOfTwo(stem);
    Concat3(local, "@", stem, t);
    Concat3(stem, t, t, []);
    ClientInstitutionIs(local, stem + t + t);
  }

  lemma RemoveFirstOfTwo(stem: string)
    requires IndexOf(stem, Validation.InstitutionalSuffix).None?
    ensures var t := Validation.InstitutionalSuffix;
            ReplaceFirst(stem + t + t, t, "") == stem + t
  {
    var t := Validation.InstitutionalSuffix;
    FirstAtJoin(stem, t + t);
    Concat3(stem, t, t, []);
    ReplaceAt(stem, t, t);
  }

  /** Replacing the first occurrence of `t` when it sits right after `a`. */
  lemma ReplaceAt(a: string, t: string, c: string)
    requires IndexOf(a + t + c, t) == Some(|a|)
    ensures ReplaceFirst(a + t + c, t, "") == a + c
  {
    var w := a + t + c;
    assert w[..|a|] == a;
    assert w[|a| + |t|..] == c;
  }

  /** Regrouping, and the suffix and characters of a concatenation. */
  lemma Concat3(a: string, b: string, c: string, d: string)
    ensures a + b + c + d == a + b + (c + d) && a + b + c + d + d == a + b + (c + d + d)
    ensures a + (b + c) == a + b + c
    ensures HasSuffix(a + b + c, c) && b + c == b + (c + []) && a + b + [] == a + b && a + [] == a
    ensures forall x :: x !in a && x !in b && x !in c ==> x !in a + b + c
  {
  }

  /** The page's institution for an address with exactly one '@' and a
      domain ending in ".edu.et". */
  lemma ClientInstitutionIs(local: string, domain: string)
    requires '@' !in local && '@' !in domain && HasSuffix(domain, Validation.InstitutionalSuffix)
    ensures ClientInstitution(local + "@" + domain) == ReplaceFirst(domain, Validation.InstitutionalSuffix, "")
  {
    var e := local + "@" + domain;
    assert e == local + ['@'] + domain;
    assert e[|local|] == '@';
    Validation.SplitOnce(local, domain, '@');
  }

  /** ".edu.et" shares no proper prefix with a suffix of itself, so when
      `s` does not hold it and `u` starts with it, its first occurrence in
      `s + u` is where `u` begins. */
  lemma FirstAtJoin(s: string, u: string)
    requires IndexOf(s, Validation.InstitutionalSuffix).None? && HasPrefix(u, Validation.InstitutionalSuffix)
    ensures IndexOf(s + u, Validation.InstitutionalSuffix) == Some(|s|)
  {
    var w := s + u;
    assert OccursAt(w, Validation.InstitutionalSuffix, |s|) by {
      assert w[|s|..|s| + 7] == u[..7];
    }
    forall j | 0 <= j < |s| ensures !OccursAt(w, Validation.InstitutionalSuffix, j) {
      NotBeforeJoin(s, u, j);
    }
  }

  lemma NotBeforeJoin(s: string, u: string, j: int)
    requires IndexOf(s, Validation.InstitutionalSuffix).None? && HasPrefix(u, Validation.InstitutionalSuffix)
    requires 0 <= j < |s|
    ensures !OccursAt(s + u, Validation.InstitutionalSuffix, j)
  {
    if j + 7 <= |s| {
      assert !OccursAt(s, Validation.InstitutionalSuffix, j);
      assert (s + u)[j..j + 7] == s[j..j + 7];
    } else {
      StraddleImpossible(s, u, j);
    }
  }

  lemma StraddleImpossible(s: string, u: string, j: int)
    requires HasPrefix(u, Validation.InstitutionalSuffix) && 0 <= j < |s| < j + 7
    ensures !OccursAt(s + u, Validation.InstitutionalSuffix, j)
  {
    var w := s + u;
    var i := j + 6 - |s|;
    assert w[j + 6] == u[i] == Validation.InstitutionalSuffix[i];
    assert Validation.InstitutionalSuffix[i] != 't';
  }
}
