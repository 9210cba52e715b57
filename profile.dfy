/**
  The Profile screen of screens/Profile.js: the form state, the module-level
  `initialProfile` that loading overwrites, and the handlers that replace the
  profile, build the error map and save to the store.
 */
module ProfileForm {
  import opened Wrappers
  import opened Validators
  import opened UserProfile
  import opened Storage

  /** The module-level `let initialProfile`, shared by every mount of the screen. */
  class ProfileDefaults {
    var initialProfile: Profile

    constructor ()
      ensures initialProfile == InitialProfile
    {
      initialProfile := InitialProfile;
    }
  }

  class ProfileScreen {
    const defaults: ProfileDefaults
    const storage: KeyValueStore
    var profile: Profile
    var errors: map<string, string>
    var isFormValid: bool

    /** `useState(initialProfile)`, `useState({})`, `useState(false)`. */
    constructor (defaults: ProfileDefaults, storage: KeyValueStore)
      ensures this.defaults == defaults && this.storage == storage
      ensures profile == defaults.initialProfile && errors == map[] && !isFormValid
    {
      this.defaults := defaults;
      this.storage := storage;
      profile := defaults.initialProfile;
      errors := map[];
      isFormValid := false;
    }

    /**
      The load effect: the saved user is merged over both the module-level
      defaults and the current form. A saved user carries all nine keys, so
      both become that user. With nothing saved the merge adds nothing; a
      failed read is only alerted.
     */
    method Load(readOk: bool) returns (alerted: bool)
      modifies this`profile, defaults`initialProfile
      ensures alerted == !readOk
      ensures readOk && UserKey in storage.entries ==>
        defaults.initialProfile == storage.entries[UserKey] && profile == storage.entries[UserKey]
      ensures !(readOk && UserKey in storage.entries) ==>
        defaults.initialProfile == old(defaults.initialProfile) && profile == old(profile)
    {
      var r := storage.GetItem(UserKey, readOk);
      alerted := r.ReadFailed?;
      if r.Value? {
        var fields := if r.item.Some? then AllFields(r.item.value) else NoFields;
        OverlayNothing(defaults.initialProfile);
        OverlayNothing(profile);
        if r.item.Some? {
          OverlayAll(defaults.initialProfile, r.item.value);
          OverlayAll(profile, r.item.value);
        }
        defaults.initialProfile := Overlay(defaults.initialProfile, fields);
        profile := Overlay(profile, fields);
      }
    }

    /** `updateForm(key, value)`, and the name inputs' own `setProfile`: one text field replaced. */
    method UpdateForm(field: TextField, value: string)
      modifies this`profile
      ensures profile == WithText(old(profile), field, value)
    {
      profile := WithText(profile, field, value);
    }

    /** `updatePreference(key)`: one checkbox flipped. */
    method UpdatePreference(key: Preference)
      modifies this`profile
      ensures profile == Toggled(old(profile), key)
    {
      profile := Toggled(profile, key);
    }

    /** `pickImage`: the picked uri becomes the avatar; a cancelled pick (`None`) changes nothing. */
    method PickImage(picked: Option<string>)
      modifies this`profile
      ensures picked.Some? ==> profile == WithAvatar(old(profile), Uri(picked.value))
      ensures picked.None? ==> profile == old(profile)
    {
      if picked.Some? {
        profile := WithAvatar(profile, Uri(picked.value));
      }
    }

    /** `removeImage`: the avatar becomes `null`. */
    method RemoveImage()
      modifies this`profile
      ensures profile == WithAvatar(old(profile), NullAvatar)
      ensures !HasPicture(profile.avatarImage)
    {
      profile := WithAvatar(profile, NullAvatar);
    }

    /** `resetProfile`: back to the module-level defaults, that is, the last loaded profile. */
    method ResetProfile()
      modifies this`profile
      ensures profile == defaults.initialProfile
    {
      profile := defaults.initialProfile;
    }

    /** `validateForm`: the error object, and whether it is empty. */
    method ValidateForm()
      modifies this`errors, this`isFormValid
      ensures errors == FormErrors(profile)
      ensures isFormValid <==> SaveEnabled(profile)
    {
      var p := profile;
      var e := BuildErrors(p);
      ErrorsEmptyIffSaveEnabled(p);
      errors, isFormValid := e, |e| == 0;
      assert profile == p;
    }

    /** `saveUpdate`: the whole current profile is stored under `'user'`. */
    method SaveUpdate(writeOk: bool) returns (saved: bool)
      modifies storage
      ensures saved == writeOk
      ensures storage.entries == if writeOk then old(storage.entries)[UserKey := profile] else old(storage.entries)
    {
      saved := storage.SetItem(UserKey, profile, writeOk);
    }
  }

  /** The body of `validateForm`: the error object, built by successive field assignments. */
  method BuildErrors(profile: Profile) returns (e: map<string, string>)
    ensures e == FormErrors(profile)
  {
    var c := ChecksOf(profile);
    e := map[];
    if profile.firstName == "" {
      e := e["name" := FirstNameRequired];
    } else if !c.firstName {
      e := e["firstName" := FirstNameInvalid];
    }
    assert e == FirstNameErrors(profile, c);
    if profile.lastName != "" && !c.lastName {
      e := e["lastName" := LastNameInvalid];
    }
    assert e == WithLastNameError(profile, c, FirstNameErrors(profile, c));
    if profile.email == "" {
      e := e["email" := EmailRequired];
    } else if !c.email {
      e := e["email" := EmailInvalid];
    }
    assert e == WithEmailError(profile, c, WithLastNameError(profile, c, FirstNameErrors(profile, c)));
    ghost var before := e;
    if profile.phoneNumber != "" && !c.phone {
      e := e["phone" := PhoneInvalid];
    }
    assert e == WithPhoneError(profile, c, before);
  }
}
