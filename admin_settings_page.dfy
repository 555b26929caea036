/** The settings administration page: its access gate, the schema of its form, the values the form
    starts from, and its submit, which saves the branding fields, refetches the settings into the
    settings provider and clears the saving flag however the save ended. */
module AdminSettingsPage {

  import opened Wrappers
  import opened Types
  import Store
  import SettingsApi
  import SettingsContext
  import AdminLabelsPage

  /** The page is refused unless the user is signed in and an admin. */
  predicate AccessDenied(user: Option<User>) {
    !(user.Some? && user.value.isAdmin)
  }

  /** The two admin pages gate differently: both refuse a signed-in user who is not an admin and
      admit an admin, but only the settings page refuses when there is no user. */
  lemma GatesDifferOnMissingUser(user: Option<User>)
    ensures user.Some? ==> (AccessDenied(user) <==> AdminLabelsPage.Denied(user))
    ensures user.None? ==> AccessDenied(user) && !AdminLabelsPage.Denied(user)
  {
  }

  const Themes: set<string> := {"light", "dark", "system"}

  predicate IsHexDigit(c: char) {
    ('0' <= c <= '9') || ('a' <= c <= 'f') || ('A' <= c <= 'F')
  }

  /** `/^#[0-9A-F]{6}$/i`: a `#` followed by exactly six hexadecimal digits in either case. */
  predicate IsHexColor(s: string) {
    |s| == 7 && s[0] == '#' && forall i :: 1 <= i < 7 ==> IsHexDigit(s[i])
  }

  /** The values the form edits. */
  datatype FormData = FormData(projectName: string, tagline: string, primaryColor: string, defaultTheme: string)

  /** `settingsSchema`: a non-empty project name and tagline, a hexadecimal colour and one of the
      three themes. */
  predicate SchemaValid(f: FormData) {
    f.projectName != "" && f.tagline != "" && IsHexColor(f.primaryColor) && f.defaultTheme in Themes
  }

  /** The form's values from the settings shown: a missing or empty name or tagline is "", a
      missing or empty colour or theme is the default. */
  function FormValues(settings: Option<AppSettings>): (f: FormData)
    ensures settings.None? ==> f == FormData("", "", DefaultPrimaryColor, DefaultTheme)
    ensures settings.Some? && SettingsContext.Branded(settings.value) ==>
      f == FormData(settings.value.projectName, settings.value.tagline, settings.value.primaryColor, settings.value.defaultTheme)
  {
    match settings
    case None => FormData("", "", DefaultPrimaryColor, DefaultTheme)
    case Some(s) =>
      FormData(s.projectName, s.tagline,
               if s.primaryColor != "" then s.primaryColor else DefaultPrimaryColor,
               if s.defaultTheme != "" then s.defaultTheme else DefaultTheme)
  }

  /** The default settings pass the schema; the form's own start values without settings do not,
      as their name and tagline are empty. */
  lemma DefaultsSatisfySchema(now: int)
    ensures SchemaValid(FormValues(Some(SettingsApi.Defaults(now))))
    ensures !SchemaValid(FormValues(None))
  {
    var c := DefaultPrimaryColor;
    assert c == "#3b82f6";
    assert IsHexDigit(c[1]) && IsHexDigit(c[2]) && IsHexDigit(c[3]) && IsHexDigit(c[4]) && IsHexDigit(c[5]) && IsHexDigit(c[6]);
    assert IsHexColor(c);
  }

  /** The branding fields of a form as a settings update giving all four. */
  function AsUpdates(f: FormData): (u: SettingsUpdates)
    ensures u.projectName == Some(f.projectName) && u.tagline == Some(f.tagline)
    ensures u.primaryColor == Some(f.primaryColor) && u.defaultTheme == Some(f.defaultTheme)
  {
    SettingsUpdates(Some(f.projectName), Some(f.tagline), Some(f.primaryColor), Some(f.defaultTheme))
  }

  /** Saving a form the schema accepts and reading the settings back gives the form's branding
      fields, whatever the store held before, with the editor and the time of the save. */
  lemma SavedFormReadsBack(c: Store.Collection, f: FormData, editor: string, now: int, later: int)
    requires c.Valid() && SchemaValid(f)
    ensures var s := SettingsApi.Current(SettingsApi.Updated(c, AsUpdates(f), editor, now), later);
      FormData(s.projectName, s.tagline, s.primaryColor, s.defaultTheme) == f
      && s.updatedBy == editor && s.updatedAt == now
  {
    SettingsApi.UpdateReadsBack(c, AsUpdates(f), editor, now, later);
  }

  class Page {
    var isUpdating: bool

    constructor ()
      ensures !isUpdating
    {
      isUpdating := false;
    }

    /** `handleSubmit(onSubmit)`: a form the schema rejects is not submitted, and without a user
        nothing is done. Otherwise the branding fields are saved by the user; only after a save
        are the settings refetched into the provider (a failed save is caught and leaves store and
        provider as they were); saving is not in progress afterwards either way. */
    method Submit(db: Store.Db, ctx: SettingsContext.SettingsProvider, user: Option<User>, f: FormData,
                  now: int, updateFails: bool, readFails: bool) returns (saved: bool)
      requires db.Valid() && ctx.Valid()
      modifies this, db`settings, ctx
      ensures db.Valid() && ctx.Valid()
      ensures saved <==> SchemaValid(f) && user.Some? && !updateFails
      ensures !SchemaValid(f) || user.None? ==> isUpdating == old(isUpdating)
      ensures SchemaValid(f) && user.Some? ==> !isUpdating
      ensures !saved ==>
        (db.settings == old(db.settings) && ctx.settings == old(ctx.settings)
         && ctx.isLoading == old(ctx.isLoading) && ctx.error == old(ctx.error))
      ensures saved ==>
        (db.settings == SettingsApi.Updated(old(db.settings), AsUpdates(f), user.value.uid, now)
         && ctx.settings == Some(SettingsApi.GetAppSettings(db, now, readFails))
         && !ctx.isLoading && ctx.error.None?)
    {
      saved := false;
      if !SchemaValid(f) || user.None? {
        return;
      }
      isUpdating := true;
      var o := SettingsApi.UpdateAppSettings(db, AsUpdates(f), user.value.uid, now, updateFails);
      if o.Done? {
        ctx.Fetch(db, now, readFails);
        saved := true;
      }
      isUpdating := false;
    }
  }

  /** After a successful submit whose refetch succeeded, the provider exposes exactly the
      submitted branding fields. */
  method SubmitThenShow(db: Store.Db, ctx: SettingsContext.SettingsProvider, page: Page, user: User, f: FormData, now: int)
    returns (shown: FormData)
    requires db.Valid() && ctx.Valid() && SchemaValid(f)
    modifies page, db`settings, ctx
    ensures shown == f
  {
    ghost var before := db.settings;
    var saved := page.Submit(db, ctx, Some(user), f, now, false, false);
    SavedFormReadsBack(before, f, user.uid, now, now);
    var s := ctx.Exposed(now);
    shown := FormData(s.projectName, s.tagline, s.primaryColor, s.defaultTheme);
  }
}
