/**
  The user profile of screens/Profile.js and App.js: a record of nine fields,
  the partial records that JavaScript's object spread merges over it, the
  single-field updates the form applies, the Save-button gate and the error
  map `validateForm` builds.
 */
module UserProfile {
  import opened Wrappers
  import opened Validators

  /** `avatarImage`: `null` after `removeImage`, otherwise a uri text (`''` by default). */
  datatype Avatar = NullAvatar | Uri(uri: string)

  /** JavaScript truthiness of `avatarImage`: a non-empty uri. */
  predicate HasPicture(a: Avatar) {
    a.Uri? && a.uri != ""
  }

  datatype Profile = Profile(
    avatarImage: Avatar,
    firstName: string,
    lastName: string,
    email: string,
    phoneNumber: string,
    orderStatuses: bool,
    passwordChanges: bool,
    specialOffers: bool,
    newsletter: bool)

  /** The defaults: empty texts and every notification preference off. */
  const InitialProfile := Profile(Uri(""), "", "", "", "", false, false, false, false)

  /** An object literal carrying some of the profile's keys; `None` is a key that is absent. */
  datatype Fields = Fields(
    avatarImage: Option<Avatar>,
    firstName: Option<string>,
    lastName: Option<string>,
    email: Option<string>,
    phoneNumber: Option<string>,
    orderStatuses: Option<bool>,
    passwordChanges: Option<bool>,
    specialOffers: Option<bool>,
    newsletter: Option<bool>)

  /** The object with no keys, which is also what spreading `null` contributes. */
  const NoFields := Fields(None, None, None, None, None, None, None, None, None)

  function Pick<T>(over: Option<T>, base: T): T {
    if over.Some? then over.value else base
  }

  /** `{...base, ...fields}`: every key present in `fields` wins. */
  function Overlay(base: Profile, fields: Fields): (p: Profile)
    ensures fields.avatarImage.Some? ==> p.avatarImage == fields.avatarImage.value
    ensures fields.avatarImage.None? ==> p.avatarImage == base.avatarImage
    ensures fields.firstName.Some? ==> p.firstName == fields.firstName.value
    ensures fields.firstName.None? ==> p.firstName == base.firstName
    ensures fields.lastName.Some? ==> p.lastName == fields.lastName.value
    ensures fields.lastName.None? ==> p.lastName == base.lastName
    ensures fields.email.Some? ==> p.email == fields.email.value
    ensures fields.email.None? ==> p.email == base.email
    ensures fields.phoneNumber.Some? ==> p.phoneNumber == fields.phoneNumber.value
    ensures fields.phoneNumber.None? ==> p.phoneNumber == base.phoneNumber
    ensures fields.orderStatuses.Some? ==> p.orderStatuses == fields.orderStatuses.value
    ensures fields.orderStatuses.None? ==> p.orderStatuses == base.orderStatuses
    ensures fields.passwordChanges.Some? ==> p.passwordChanges == fields.passwordChanges.value
    ensures fields.passwordChanges.None? ==> p.passwordChanges == base.passwordChanges
    ensures fields.specialOffers.Some? ==> p.specialOffers == fields.specialOffers.value
    ensures fields.specialOffers.None? ==> p.specialOffers == base.specialOffers
    ensures fields.newsletter.Some? ==> p.newsletter == fields.newsletter.value
    ensures fields.newsletter.None? ==> p.newsletter == base.newsletter
  {
    Profile(
      Pick(fields.avatarImage, base.avatarImage),
      Pick(fields.firstName, base.firstName),
      Pick(fields.lastName, base.lastName),
      Pick(fields.email, base.email),
      Pick(fields.phoneNumber, base.phoneNumber),
      Pick(fields.orderStatuses, base.orderStatuses),
      Pick(fields.passwordChanges, base.passwordChanges),
      Pick(fields.specialOffers, base.specialOffers),
      Pick(fields.newsletter, base.newsletter))
  }

  /** A whole profile as an object with all nine keys. */
  function AllFields(p: Profile): Fields {
    Fields(Some(p.avatarImage), Some(p.firstName), Some(p.lastName), Some(p.email), Some(p.phoneNumber),
      Some(p.orderStatuses), Some(p.passwordChanges), Some(p.specialOffers), Some(p.newsletter))
  }

  /** Merging a complete record over anything gives that record. */
  lemma OverlayAll(base: Profile, p: Profile)
    ensures Overlay(base, AllFields(p)) == p
  {
  }

  /** Merging nothing changes nothing. */
  lemma OverlayNothing(base: Profile)
    ensures Overlay(base, NoFields) == base
  {
  }

  /** Merging the same object twice is merging it once. */
  lemma OverlayTwice(base: Profile, fields: Fields)
    ensures Overlay(Overlay(base, fields), fields) == Overlay(base, fields)
  {
  }

  // ---------------------------------------------------------------------------
  // Single-field updates

  datatype TextField = FirstName | LastName | Email | PhoneNumber

  datatype Preference = OrderStatuses | PasswordChanges | SpecialOffers | Newsletter

  function TextOf(p: Profile, f: TextField): string {
    match f
    case FirstName => p.firstName
    case LastName => p.lastName
    case Email => p.email
    case PhoneNumber => p.phoneNumber
  }

  function PreferenceOf(p: Profile, k: Preference): bool {
    match k
    case OrderStatuses => p.orderStatuses
    case PasswordChanges => p.passwordChanges
    case SpecialOffers => p.specialOffers
    case Newsletter => p.newsletter
  }

  /** `{...p, [f]: v}` for a text field. */
  function WithText(p: Profile, f: TextField, v: string): (r: Profile)
    ensures TextOf(r, f) == v
    ensures forall g :: g != f ==> TextOf(r, g) == TextOf(p, g)
    ensures forall k :: PreferenceOf(r, k) == PreferenceOf(p, k)
    ensures r.avatarImage == p.avatarImage
  {
    match f
    case FirstName => p.(firstName := v)
    case LastName => p.(lastName := v)
    case Email => p.(email := v)
    case PhoneNumber => p.(phoneNumber := v)
  }

  /** `{...p, [k]: !p[k]}` for a preference. */
  function Toggled(p: Profile, k: Preference): (r: Profile)
    ensures PreferenceOf(r, k) == !PreferenceOf(p, k)
    ensures forall j :: j != k ==> PreferenceOf(r, j) == PreferenceOf(p, j)
    ensures forall g :: TextOf(r, g) == TextOf(p, g)
    ensures r.avatarImage == p.avatarImage
  {
    match k
    case OrderStatuses => p.(orderStatuses := !p.orderStatuses)
    case PasswordChanges => p.(passwordChanges := !p.passwordChanges)
    case SpecialOffers => p.(specialOffers := !p.specialOffers)
    case Newsletter => p.(newsletter := !p.newsletter)
  }

  /** The nine fields determine the profile. */
  lemma ProfileExtensionality(p: Profile, q: Profile)
    requires forall g :: TextOf(p, g) == TextOf(q, g)
    requires forall k :: PreferenceOf(p, k) == PreferenceOf(q, k)
    requires p.avatarImage == q.avatarImage
    ensures p == q
  {
    assert TextOf(p, FirstName) == TextOf(q, FirstName);
    assert TextOf(p, LastName) == TextOf(q, LastName);
    assert TextOf(p, Email) == TextOf(q, Email);
    assert TextOf(p, PhoneNumber) == TextOf(q, PhoneNumber);
    assert PreferenceOf(p, OrderStatuses) == PreferenceOf(q, OrderStatuses);
    assert PreferenceOf(p, PasswordChanges) == PreferenceOf(q, PasswordChanges);
    assert PreferenceOf(p, SpecialOffers) == PreferenceOf(q, SpecialOffers);
    assert PreferenceOf(p, Newsletter) == PreferenceOf(q, Newsletter);
  }

  /** Toggling a preference twice restores the profile. */
  lemma ToggledTwice(p: Profile, k: Preference)
    ensures Toggled(Toggled(p, k), k) == p
  {
    ProfileExtensionality(Toggled(Toggled(p, k), k), p);
  }

  /** Writing a field's current text back changes nothing. */
  lemma WithOwnText(p: Profile, f: TextField)
    ensures WithText(p, f, TextOf(p, f)) == p
  {
    ProfileExtensionality(WithText(p, f, TextOf(p, f)), p);
  }

  /** `{...p, avatarImage: a}`. */
  function WithAvatar(p: Profile, a: Avatar): (r: Profile)
    ensures r.avatarImage == a
    ensures forall g :: TextOf(r, g) == TextOf(p, g)
    ensures forall k :: PreferenceOf(r, k) == PreferenceOf(p, k)
  {
    p.(avatarImage := a)
  }

  // ---------------------------------------------------------------------------
  // Validity

  /** The Save button is enabled: the negation of its `disabled` expression. */
  predicate SaveEnabled(p: Profile) {
    && ValidateEmail(p.email)
    && ValidateName(p.firstName)
    && (p.lastName == "" || ValidateName(p.lastName))
    && (p.phoneNumber == "" || ValidatePhone(p.phoneNumber))
  }

  const FirstNameRequired := "First name is required."
  const FirstNameInvalid := "First name is invalid."
  const LastNameInvalid := "Last name is invalid."
  const EmailRequired := "Email is required."
  const EmailInvalid := "Email is invalid."
  const PhoneInvalid := "Phone number is invalid."

  /** The four validator verdicts on a profile's fields. */
  datatype Checks = Checks(firstName: bool, lastName: bool, email: bool, phone: bool)

  function ChecksOf(p: Profile): Checks {
    Checks(ValidateName(p.firstName), ValidateName(p.lastName), ValidateEmail(p.email), ValidatePhone(p.phoneNumber))
  }

  /** The error object `validateForm` builds for `p` given the validators' verdicts `c`, key by key. */
  function ErrorsFor(p: Profile, c: Checks): (errors: map<string, string>)
    ensures errors.Keys <= {"name", "firstName", "lastName", "email", "phone"}
    ensures "name" in errors <==> p.firstName == ""
    ensures "firstName" in errors <==> p.firstName != "" && !c.firstName
    ensures "lastName" in errors <==> p.lastName != "" && !c.lastName
    ensures "email" in errors <==> p.email == "" || !c.email
    ensures "phone" in errors <==> p.phoneNumber != "" && !c.phone
  {
    WithPhoneError(p, c, WithEmailError(p, c, WithLastNameError(p, c, FirstNameErrors(p, c))))
  }

  /** Each key of the error object carries the message the form shows under that field. */
  lemma ErrorMessages(p: Profile, c: Checks)
    ensures var errors := ErrorsFor(p, c);
      && ("name" in errors ==> errors["name"] == FirstNameRequired)
      && ("firstName" in errors ==> errors["firstName"] == FirstNameInvalid)
      && ("lastName" in errors ==> errors["lastName"] == LastNameInvalid)
      && ("email" in errors ==> errors["email"] == if p.email == "" then EmailRequired else EmailInvalid)
      && ("phone" in errors ==> errors["phone"] == PhoneInvalid)
  {
  }

  /** The error object is empty exactly when both required fields are filled in and every check passes. */
  lemma ErrorsForEmpty(p: Profile, c: Checks)
    ensures ErrorsFor(p, c) == map[] <==>
      && p.firstName != "" && c.firstName && (p.lastName == "" || c.lastName)
      && p.email != "" && c.email && (p.phoneNumber == "" || c.phone)
  {
    var e := ErrorsFor(p, c);
    assert e == map[] <==> "name" !in e && "firstName" !in e && "lastName" !in e && "email" !in e && "phone" !in e;
  }

  /** The first step of `validateForm`: the first name is required, and must be valid. */
  function FirstNameErrors(p: Profile, c: Checks): map<string, string> {
    if p.firstName == "" then map["name" := FirstNameRequired]
    else if !c.firstName then map["firstName" := FirstNameInvalid]
    else map[]
  }

  /** A non-empty last name must be valid. */
  function WithLastNameError(p: Profile, c: Checks, e: map<string, string>): map<string, string> {
    if p.lastName != "" && !c.lastName then e["lastName" := LastNameInvalid] else e
  }

  /** The email is required, and must be valid. */
  function WithEmailError(p: Profile, c: Checks, e: map<string, string>): map<string, string> {
    if p.email == "" then e["email" := EmailRequired]
    else if !c.email then e["email" := EmailInvalid]
    else e
  }

  /** A non-empty phone number must be valid. */
  function WithPhoneError(p: Profile, c: Checks, e: map<string, string>): map<string, string> {
    if p.phoneNumber != "" && !c.phone then e["phone" := PhoneInvalid] else e
  }

  /** The error object `validateForm` builds for `p`. */
  function FormErrors(p: Profile): map<string, string> {
    ErrorsFor(p, ChecksOf(p))
  }

  /** The error map and the Save gate encode the same rule: no errors exactly when Save is enabled. */
  lemma ErrorsEmptyIffSaveEnabled(p: Profile)
    ensures FormErrors(p) == map[] <==> SaveEnabled(p)
  {
    EmptyRejected();
    ErrorsForEmpty(p, ChecksOf(p));
  }

  /** A profile made from the defaults and a valid first name and email can be saved. */
  lemma DefaultsWithValidIdentity(firstName: string, email: string)
    requires ValidateName(firstName) && ValidateEmail(email)
    ensures SaveEnabled(InitialProfile.(firstName := firstName, email := email))
  {
  }

  /** The blank defaults cannot be saved, and their error map names the first name and the email as required. */
  lemma DefaultsRejected()
    ensures !SaveEnabled(InitialProfile)
    ensures FormErrors(InitialProfile) == map["name" := FirstNameRequired, "email" := EmailRequired]
  {
    EmptyRejected();
    var errors := FormErrors(InitialProfile);
    assert errors.Keys == {"name", "email"};
    ErrorsEmptyIffSaveEnabled(InitialProfile);
  }
}
