/**
  The Onboarding screen of screens/Onboarding.js: two text fields, the gate
  on its Next button, and the object it signs in with.
 */
module Onboarding {
  import opened Wrappers
  import opened Validators
  import opened UserProfile

  datatype Form = Form(firstName: string, email: string)

  /** Both fields start empty. */
  const InitialForm := Form("", "")

  /** The first-name input's `setFirstName`. */
  function SetFirstName(f: Form, v: string): (r: Form)
    ensures r.firstName == v && r.email == f.email
  {
    f.(firstName := v)
  }

  /** The email input's `setEmail`. */
  function SetEmail(f: Form, v: string): (r: Form)
    ensures r.email == v && r.firstName == f.firstName
  {
    f.(email := v)
  }

  /** Next is enabled: the negation of `!isEmailValid || !isNameValid`. */
  predicate NextEnabled(f: Form) {
    ValidateName(f.firstName) && ValidateEmail(f.email)
  }

  /** `{ firstName, email }`, the object Next passes to `signIn`. */
  function Payload(f: Form): (fields: Fields)
    ensures fields.firstName == Some(f.firstName) && fields.email == Some(f.email)
    ensures fields.(firstName := None, email := None) == NoFields
  {
    NoFields.(firstName := Some(f.firstName), email := Some(f.email))
  }

  /** Next starts disabled. */
  lemma InitiallyDisabled()
    ensures !NextEnabled(InitialForm)
  {
    EmptyRejected();
  }

  /** Editing one field and then the other in either order gives the same form. */
  lemma SettersCommute(f: Form, name: string, email: string)
    ensures SetEmail(SetFirstName(f, name), email) == SetFirstName(SetEmail(f, email), name)
  {
  }

  /**
    The user `signIn` saves after onboarding is the defaults with the two
    entered fields, and when Next was enabled that profile can be saved from
    the Profile screen as it is.
   */
  lemma SignedUpProfile(f: Form)
    ensures Overlay(InitialProfile, Payload(f)) == InitialProfile.(firstName := f.firstName, email := f.email)
    ensures NextEnabled(f) ==> SaveEnabled(Overlay(InitialProfile, Payload(f)))
  {
    var p := Overlay(InitialProfile, Payload(f));
    assert p == InitialProfile.(firstName := f.firstName, email := f.email);
  }
}
