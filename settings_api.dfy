/** The application settings: one document, `settings/app-settings`, read with defaults for every
    missing field, updated or created on save, and reset to the defaults. */
module SettingsApi {

  import opened Wrappers
  import opened Documents
  import opened Store
  import opened Types

  const SettingsDocId: string := "app-settings"

  /** `convertFirestoreSettingsDoc`: a missing or empty branding field reads as its default, the
      times follow the timestamp reading rules and a missing editor reads as "". */
  function Convert(d: Doc, now: int): AppSettings {
    AppSettings(
      TextOr(d, ProjectName, DefaultProjectName),
      TextOr(d, Tagline, DefaultTagline),
      TextOr(d, PrimaryColor, DefaultPrimaryColor),
      TextOr(d, DefaultTheme, Types.DefaultTheme),
      TimeOr(d, CreatedAt, now),
      TimeOr(d, UpdatedAt, now),
      TextOr(d, UpdatedBy, ""))
  }

  /** The settings returned when none are stored: the defaults, stamped now, with no editor. */
  function Defaults(now: int): AppSettings {
    AppSettings(DefaultProjectName, DefaultTagline, DefaultPrimaryColor, Types.DefaultTheme, now, now, "")
  }

  /** The settings the store holds, read at time `now`. */
  function Current(c: Collection, now: int): AppSettings {
    if SettingsDocId in c.docs then Convert(c.docs[SettingsDocId], now) else Defaults(now)
  }

  /** `getAppSettings`: the stored settings; the defaults when there is no settings document or
      the read fails (`fails`). It never reports an error. */
  function GetAppSettings(db: Db, now: int, fails: bool): (r: AppSettings)
    reads db
    ensures r.projectName != "" && r.tagline != "" && r.primaryColor != "" && r.defaultTheme != ""
    ensures fails || SettingsDocId !in db.settings.docs ==> r == Defaults(now)
  {
    if fails then Defaults(now) else Current(db.settings, now)
  }

  /** A settings document without fields reads as the defaults. */
  lemma EmptyDocumentReadsAsDefaults(now: int)
    ensures Convert(map[], now) == Defaults(now)
  {
  }

  /** The fields `updateAppSettings` sends to an existing document: the given branding fields, the
      update time and the editor. */
  function UpdatePayload(u: SettingsUpdates, updatedBy: string): (p: Payload)
    ensures p.Keys <= {ProjectName, Tagline, PrimaryColor, DefaultTheme, UpdatedAt, UpdatedBy}
    ensures UpdatedAt in p && p[UpdatedAt] == ServerTimestamp && UpdatedBy in p && p[UpdatedBy] == Put(Str(updatedBy))
    ensures (ProjectName in p <==> u.projectName.Some?) && (ProjectName in p ==> p[ProjectName] == Put(Str(u.projectName.value)))
    ensures (Tagline in p <==> u.tagline.Some?) && (Tagline in p ==> p[Tagline] == Put(Str(u.tagline.value)))
    ensures (PrimaryColor in p <==> u.primaryColor.Some?) && (PrimaryColor in p ==> p[PrimaryColor] == Put(Str(u.primaryColor.value)))
    ensures (DefaultTheme in p <==> u.defaultTheme.Some?) && (DefaultTheme in p ==> p[DefaultTheme] == Put(Str(u.defaultTheme.value)))
  {
    var p := map[UpdatedAt := ServerTimestamp, UpdatedBy := Put(Str(updatedBy))];
    var p := if u.projectName.Some? then p[ProjectName := Put(Str(u.projectName.value))] else p;
    var p := if u.tagline.Some? then p[Tagline := Put(Str(u.tagline.value))] else p;
    var p := if u.primaryColor.Some? then p[PrimaryColor := Put(Str(u.primaryColor.value))] else p;
    if u.defaultTheme.Some? then p[DefaultTheme := Put(Str(u.defaultTheme.value))] else p
  }

  /** The value of a branding field after a save: unchanged when not given, and otherwise the
      given value, where an empty one reads back as the default. */
  function Saved(given: Option<string>, before: string, default: string): string {
    match given
    case None => before
    case Some(v) => if v != "" then v else default
  }

  /** The document `updateAppSettings` writes when there is none: the defaults overridden by the
      given fields, both times and the editor. */
  function CreatePayload(u: SettingsUpdates, updatedBy: string): (p: Payload)
    ensures p.Keys == {ProjectName, Tagline, PrimaryColor, DefaultTheme, CreatedAt, UpdatedAt, UpdatedBy}
  {
    map[
      ProjectName := Put(Str(u.projectName.GetOr(DefaultProjectName))),
      Tagline := Put(Str(u.tagline.GetOr(DefaultTagline))),
      PrimaryColor := Put(Str(u.primaryColor.GetOr(DefaultPrimaryColor))),
      DefaultTheme := Put(Str(u.defaultTheme.GetOr(Types.DefaultTheme))),
      CreatedAt := ServerTimestamp,
      UpdatedAt := ServerTimestamp,
      UpdatedBy := Put(Str(updatedBy))]
  }

  /** The settings collection after `updateAppSettings`: the existing document updated, or a new
      one created. */
  function Updated(c: Collection, u: SettingsUpdates, updatedBy: string, now: int): (r: Collection)
    requires c.Valid()
    ensures r.Valid()
    ensures SettingsDocId in r.docs
    ensures forall id :: id != SettingsDocId ==> (id in r.docs <==> id in c.docs) && (id in c.docs ==> r.docs[id] == c.docs[id])
  {
    if SettingsDocId in c.docs then
      Collection(c.docs[SettingsDocId := ApplyPayload(c.docs[SettingsDocId], UpdatePayload(u, updatedBy), now)], c.order)
    else SetDoc(c, SettingsDocId, CreatePayload(u, updatedBy), now)
  }

  /** The settings read after a save, from the settings read before it. */
  predicate SavedAs(before: AppSettings, after: AppSettings, u: SettingsUpdates, updatedBy: string, now: int, createdAt: int) {
    after.projectName == Saved(u.projectName, before.projectName, DefaultProjectName)
    && after.tagline == Saved(u.tagline, before.tagline, DefaultTagline)
    && after.primaryColor == Saved(u.primaryColor, before.primaryColor, DefaultPrimaryColor)
    && after.defaultTheme == Saved(u.defaultTheme, before.defaultTheme, Types.DefaultTheme)
    && after.updatedAt == now && after.updatedBy == updatedBy && after.createdAt == createdAt
  }

  /** Saving into an existing document: given fields as saved, the others and the creation time kept. */
  lemma UpdateExistingReadsBack(d: Doc, u: SettingsUpdates, updatedBy: string, now: int, later: int)
    ensures SavedAs(Convert(d, later), Convert(ApplyPayload(d, UpdatePayload(u, updatedBy), now), later),
                    u, updatedBy, now, Convert(d, later).createdAt)
  {
  }

  /** Saving when there is no document: given fields as saved, the rest the defaults. */
  lemma CreateReadsBack(u: SettingsUpdates, updatedBy: string, now: int, later: int)
    ensures SavedAs(Defaults(later), Convert(Written(CreatePayload(u, updatedBy), now), later), u, updatedBy, now, now)
  {
  }

  /** After a save, each given branding field reads as given (an empty one as its default), the
      others as before, the editor as given and the update time as the time of the save; the
      creation time is kept, or is the time of the save when the document was created by it. */
  lemma UpdateReadsBack(c: Collection, u: SettingsUpdates, updatedBy: string, now: int, later: int)
    requires c.Valid()
    ensures SavedAs(Current(c, later), Current(Updated(c, u, updatedBy, now), later), u, updatedBy, now,
                    if SettingsDocId in c.docs then Current(c, later).createdAt else now)
  {
    if SettingsDocId in c.docs {
      UpdateExistingReadsBack(c.docs[SettingsDocId], u, updatedBy, now, later);
    } else {
      CreateReadsBack(u, updatedBy, now, later);
    }
  }

  /** `updateAppSettings`: a failed read or write (`fails`) is reported and changes nothing;
      otherwise the settings document is updated or created. */
  method UpdateAppSettings(db: Db, u: SettingsUpdates, updatedBy: string, now: int, fails: bool) returns (o: Outcome)
    requires db.Valid()
    modifies db`settings
    ensures db.Valid()
    ensures o.Failed? <==> fails
    ensures fails ==> db.settings == old(db.settings)
    ensures !fails ==> db.settings == Updated(old(db.settings), u, updatedBy, now)
  {
    if fails {
      return Failed("Error updating app settings");
    }
    db.settings := Updated(db.settings, u, updatedBy, now);
    o := Done;
  }

  /** The document `resetAppSettings` writes: the defaults, both times and the editor. */
  function ResetPayload(updatedBy: string): Payload {
    map[
      ProjectName := Put(Str(DefaultProjectName)),
      Tagline := Put(Str(DefaultTagline)),
      PrimaryColor := Put(Str(DefaultPrimaryColor)),
      DefaultTheme := Put(Str(Types.DefaultTheme)),
      CreatedAt := ServerTimestamp,
      UpdatedAt := ServerTimestamp,
      UpdatedBy := Put(Str(updatedBy))]
  }

  /** After a reset the settings read as the defaults, created and updated at the time of the
      reset by the given editor, whatever was stored before. */
  lemma ResetReadsDefaults(c: Collection, updatedBy: string, now: int, later: int)
    requires c.Valid()
    ensures Current(SetDoc(c, SettingsDocId, ResetPayload(updatedBy), now), later)
         == AppSettings(DefaultProjectName, DefaultTagline, DefaultPrimaryColor, Types.DefaultTheme, now, now, updatedBy)
  {
  }

  /** Resetting is saving every branding field as its default into a fresh document. */
  lemma ResetIsCreateWithDefaults(updatedBy: string)
    ensures ResetPayload(updatedBy)
         == CreatePayload(SettingsUpdates(Some(DefaultProjectName), Some(DefaultTagline), Some(DefaultPrimaryColor), Some(Types.DefaultTheme)), updatedBy)
         == CreatePayload(SettingsUpdates(None, None, None, None), updatedBy)
  {
  }

  /** `resetAppSettings`: a failed write is reported and changes nothing; otherwise the settings
      document is replaced by the defaults. */
  method ResetAppSettings(db: Db, updatedBy: string, now: int, fails: bool) returns (o: Outcome)
    requires db.Valid()
    modifies db`settings
    ensures db.Valid()
    ensures o.Failed? <==> fails
    ensures fails ==> db.settings == old(db.settings)
    ensures !fails ==> db.settings == SetDoc(old(db.settings), SettingsDocId, ResetPayload(updatedBy), now)
  {
    if fails {
      return Failed("Error resetting app settings");
    }
    db.settings := SetDoc(db.settings, SettingsDocId, ResetPayload(updatedBy), now);
    o := Done;
  }
}
