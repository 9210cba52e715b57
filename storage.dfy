/**
  The device's AsyncStorage as the app uses it: string keys mapped to the
  saved user. Each call may fail; whether it does is an input of the call.
  Values are the records the app writes, so JSON serialisation is not modelled.
 */
module Storage {
  import opened Wrappers
  import opened UserProfile

  /** The only key the app uses. */
  const UserKey := "user"

  /** How a `getItem` promise ends: with the stored value or `null`, or rejected. */
  datatype Fetch = Value(item: Option<Profile>) | ReadFailed

  class KeyValueStore {
    var entries: map<string, Profile>

    constructor ()
      ensures entries == map[]
    {
      entries := map[];
    }

    /** `getItem(key)`: the stored value, `null` for an absent key. */
    method GetItem(key: string, ok: bool) returns (r: Fetch)
      ensures !ok ==> r == ReadFailed
      ensures ok && key in entries ==> r == Value(Some(entries[key]))
      ensures ok && key !in entries ==> r == Value(None)
    {
      if !ok {
        r := ReadFailed;
      } else if key in entries {
        r := Value(Some(entries[key]));
      } else {
        r := Value(None);
      }
    }

    /** `setItem(key, value)`: on success the key maps to the value. */
    method SetItem(key: string, value: Profile, ok: bool) returns (done: bool)
      modifies this
      ensures done == ok
      ensures entries == if ok then old(entries)[key := value] else old(entries)
    {
      done := ok;
      if ok {
        entries := entries[key := value];
      }
    }

    /** `removeItem(key)`: on success the key is absent. */
    method RemoveItem(key: string, ok: bool) returns (done: bool)
      modifies this
      ensures done == ok
      ensures entries == if ok then old(entries) - {key} else old(entries)
    {
      done := ok;
      if ok {
        entries := entries - {key};
      }
    }
  }
}
