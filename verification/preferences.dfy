/**
 * The signed-in user as the layout reads it, and the dark-mode preference:
 * how the initial flag is read from the stored preferences and how the
 * preferences object written back on a toggle is built.
 */
module Preferences {
  import opened Wrappers
  import opened Notifications

  /** The values a preference key can hold, as far as JavaScript truthiness
      of `dark_mode` is concerned. */
  datatype PrefValue =
    | BoolValue(b: bool)
    | NumberValue(n: int)
    | TextValue(s: string)
    | NullValue

  type Prefs = map<string, PrefValue>

  const DarkModeKey: string := "dark_mode"

  /** A User record; an absent `full_name` is the empty string (both are
      falsy), and an absent `preferences` object is `None`. */
  datatype User = User(
    id: UserId,
    fullName: string,
    role: string,
    preferences: Option<Prefs>)

  /** JavaScript truthiness of a preference value. */
  predicate Truthy(v: PrefValue) {
    match v
    case BoolValue(b) => b
    case NumberValue(n) => n != 0
    case TextValue(s) => s != ""
    case NullValue => false
  }

  /** `user?.preferences?.dark_mode || false`, read as a boolean. */
  function StoredDarkMode(user: Option<User>): (dark: bool)
    ensures dark ==> user.Some? && user.value.preferences.Some?
                     && DarkModeKey in user.value.preferences.value
    ensures user.Some? && user.value.preferences.Some? && DarkModeKey in user.value.preferences.value
            ==> dark == Truthy(user.value.preferences.value[DarkModeKey])
  {
    match user
    case None => false
    case Some(u) =>
      match u.preferences
      case None => false
      case Some(p) => DarkModeKey in p && Truthy(p[DarkModeKey])
  }

  /** `{...preferences, dark_mode: dark}`: every stored key kept, `dark_mode`
      set to the new flag (spreading an absent object gives `{}`). */
  function WithDarkMode(preferences: Option<Prefs>, dark: bool): (r: Prefs)
    ensures r.Keys == (if preferences.Some? then preferences.value.Keys else {}) + {DarkModeKey}
    ensures r[DarkModeKey] == BoolValue(dark)
    ensures preferences.Some? ==>
              forall k :: k in preferences.value && k != DarkModeKey ==> r[k] == preferences.value[k]
  {
    var base := if preferences.Some? then preferences.value else map[];
    base[DarkModeKey := BoolValue(dark)]
  }

  /** Reading the flag back from the written preferences gives the flag written. */
  lemma WrittenDarkModeReadsBack(u: User, dark: bool)
    ensures StoredDarkMode(Some(u.(preferences := Some(WithDarkMode(u.preferences, dark))))) == dark
  {
  }

  /** Writing twice is the same as writing the last flag once. */
  lemma WithDarkModeLastWins(preferences: Option<Prefs>, first: bool, second: bool)
    ensures WithDarkMode(Some(WithDarkMode(preferences, first)), second) == WithDarkMode(preferences, second)
  {
  }
}
