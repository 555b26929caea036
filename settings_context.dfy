/** The settings provider: the fetched settings, the loading flag and the last error, driven by
    the fetch run on mount and by `refetch`; the settings it exposes fall back to the defaults. The
    fetch is split at its `await`: `FetchStart` runs before it and `FetchEnd` after it. */
module SettingsContext {

  import opened Wrappers
  import opened Types
  import Store
  import SettingsApi

  /** What the awaited `getAppSettings()` produced: settings, or a thrown value, which is an
      `Error` with a message or something else. */
  datatype Fetched = Loaded(settings: AppSettings) | Threw(isError: bool, message: string)

  const FetchFailedMessage: string := "Failed to fetch settings"

  /** The error recorded for a thrown value: an `Error` as it is, anything else wrapped. */
  function ErrorOf(isError: bool, message: string): (e: string)
    ensures isError ==> e == message
    ensures !isError ==> e == FetchFailedMessage
  {
    if isError then message else FetchFailedMessage
  }

  /** Every branding field is present. */
  predicate Branded(s: AppSettings) {
    s.projectName != "" && s.tagline != "" && s.primaryColor != "" && s.defaultTheme != ""
  }

  class SettingsProvider {
    var settings: Option<AppSettings>
    var isLoading: bool
    var error: Option<string>

    /** Settings the provider holds came from the store or are the defaults, so they are branded. */
    predicate Valid()
      reads this
    {
      settings.Some? ==> Branded(settings.value)
    }

    constructor ()
      ensures Valid()
      ensures settings.None? && isLoading && error.None?
    {
      settings := None;
      isLoading := true;
      error := None;
    }

    /** The exposed `settings || defaultSettings`. */
    function Exposed(now: int): (s: AppSettings)
      reads this
      requires Valid()
      ensures Branded(s)
      ensures settings.Some? ==> s == settings.value
      ensures settings.None? ==> s == SettingsApi.Defaults(now)
    {
      settings.GetOr(SettingsApi.Defaults(now))
    }

    /** The start of `fetchSettings`: loading, and no error. */
    method FetchStart()
      requires Valid()
      modifies this
      ensures Valid()
      ensures isLoading && error.None? && settings == old(settings)
    {
      isLoading := true;
      error := None;
    }

    /** The end of `fetchSettings`: the fetched settings are kept; a thrown value is recorded as
        the error and the defaults are kept instead; loading ends either way. */
    method FetchEnd(fetched: Fetched, now: int)
      requires Valid()
      requires fetched.Loaded? ==> Branded(fetched.settings)
      modifies this
      ensures Valid()
      ensures !isLoading
      ensures fetched.Loaded? ==> settings == Some(fetched.settings) && error == old(error)
      ensures fetched.Threw? ==>
        settings == Some(SettingsApi.Defaults(now)) && error == Some(ErrorOf(fetched.isError, fetched.message))
    {
      match fetched {
        case Loaded(s) =>
          settings := Some(s);
        case Threw(isError, message) =>
          error := Some(ErrorOf(isError, message));
          settings := Some(SettingsApi.Defaults(now));
      }
      isLoading := false;
    }

    /** `fetchSettings`, run on mount and as `refetch`: `getAppSettings` never throws, so a fetch
        ends with the settings it read, no error and nothing loading. */
    method Fetch(db: Store.Db, now: int, readFails: bool)
      requires Valid()
      modifies this
      ensures Valid()
      ensures !isLoading && error.None?
      ensures settings == Some(SettingsApi.GetAppSettings(db, now, readFails))
    {
      FetchStart();
      var s := SettingsApi.GetAppSettings(db, now, readFails);
      FetchEnd(Loaded(s), now);
    }
  }
}
