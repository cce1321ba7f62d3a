/** The server actions that read and write a user's display preferences in the `profiles` table. */
module PreferenceActions {
  import opened Wrappers

  type UserId = string

  /** A profile row as column name to value; a column that is absent is null. */
  type Row = map<string, string>

  /** The profiles table, and the error every query reports when the database fails (a network
      or permission error, for instance). */
  datatype Db = Db(rows: map<UserId, Row>, failure: Option<string>)

  const LanguageColumn: string := "language_preference"
  const FontSizeColumn: string := "font_size"
  const ThemeColumn: string := "theme"
  const UpdatedAtColumn: string := "updated_at"

  const Unauthorized: string := "Unauthorized"
  /** The error `.single()` reports when the filter matches no row. */
  const NoSingleRow: string := "JSON object requested, multiple (or no) rows returned"

  const DefaultLanguage: string := "en"
  const DefaultFontSize: string := "medium"
  const DefaultTheme: string := "light"

  datatype Preferences = Preferences(language: string, fontSize: string, theme: string)

  /** `if (!userId)`: no session, or an empty id. */
  predicate SignedIn(userId: Option<UserId>)
  {
    userId.Some? && userId.value != ""
  }

  /** `(row.column || fallback)`: a null or empty column reads as the fallback. */
  function ColumnOr(row: Row, column: string, fallback: string): (r: string)
    ensures column in row && row[column] != "" ==> r == row[column]
    ensures !(column in row && row[column] != "") ==> r == fallback
  {
    if column in row && row[column] != "" then row[column] else fallback
  }

  /** `getUserPreferences`. */
  function GetUserPreferences(userId: Option<UserId>, db: Db): (r: Result<Preferences, string>)
    ensures !SignedIn(userId) ==> r == Failure(Unauthorized)
    ensures SignedIn(userId) && db.failure.Some? ==> r == Failure(db.failure.value)
    ensures SignedIn(userId) && db.failure.None? && userId.value !in db.rows ==> r == Failure(NoSingleRow)
    ensures r.Success? <==> SignedIn(userId) && db.failure.None? && userId.value in db.rows
    ensures r.Success? ==>
              && r.value.language == ColumnOr(db.rows[userId.value], LanguageColumn, DefaultLanguage)
              && r.value.fontSize == ColumnOr(db.rows[userId.value], FontSizeColumn, DefaultFontSize)
              && r.value.theme == ColumnOr(db.rows[userId.value], ThemeColumn, DefaultTheme)
  {
    if !SignedIn(userId) then Failure(Unauthorized)
    else if db.failure.Some? then Failure(db.failure.value)
    else if userId.value !in db.rows then Failure(NoSingleRow)
    else
      var row := db.rows[userId.value];
      Success(Preferences(ColumnOr(row, LanguageColumn, DefaultLanguage),
                          ColumnOr(row, FontSizeColumn, DefaultFontSize),
                          ColumnOr(row, ThemeColumn, DefaultTheme)))
  }

  /** A fresh profile row with no preference columns reads as English, medium, light. */
  lemma FreshProfileDefaults(userId: UserId, db: Db)
    requires userId != "" && db.failure.None? && userId in db.rows
    requires LanguageColumn !in db.rows[userId] && FontSizeColumn !in db.rows[userId] && ThemeColumn !in db.rows[userId]
    ensures GetUserPreferences(Some(userId), db) == Success(Preferences("en", "medium", "light"))
  {
  }

  /** `.update(record).eq('id', userId)`: the record's columns overwrite the user's row; a user
      without a row matches nothing, and that is not an error. */
  function ApplyUpdate(rows: map<UserId, Row>, userId: UserId, record: Row): (r: map<UserId, Row>)
    ensures r.Keys == rows.Keys
    ensures forall other :: other in rows && other != userId ==> r[other] == rows[other]
    ensures userId in rows ==>
              && r[userId].Keys == rows[userId].Keys + record.Keys
              && (forall c :: c in record ==> r[userId][c] == record[c])
              && (forall c :: c in rows[userId] && c !in record ==> r[userId][c] == rows[userId][c])
  {
    if userId in rows then rows[userId := rows[userId] + record] else rows
  }

  /** What an update action returns (`error` absent means `success: true`), and the table after it. */
  datatype Outcome = Outcome(error: Option<string>, db: Db)

  /** The shared shape of the update actions: authorise, write, report the database's error. */
  function Update(userId: Option<UserId>, db: Db, record: Row): (r: Outcome)
    ensures !SignedIn(userId) ==> r == Outcome(Some(Unauthorized), db)
    ensures SignedIn(userId) && db.failure.Some? ==> r == Outcome(db.failure, db)
    ensures r.error.None? <==> SignedIn(userId) && db.failure.None?
    ensures r.error.None? ==> r.db == db.(rows := ApplyUpdate(db.rows, userId.value, record))
  {
    if !SignedIn(userId) then Outcome(Some(Unauthorized), db)
    else if db.failure.Some? then Outcome(db.failure, db)
    else Outcome(None, db.(rows := ApplyUpdate(db.rows, userId.value, record)))
  }

  /** A successful single-column write: the user's row (if any) gains the column and the time
      of the write and keeps its other columns, and no other row changes. */
  ghost predicate Wrote(before: Db, after: Db, userId: UserId, column: string, value: string, now: string)
  {
    && after.failure == before.failure
    && after.rows.Keys == before.rows.Keys
    && (forall other :: other in before.rows && other != userId ==> after.rows[other] == before.rows[other])
    && (userId in before.rows ==>
          && after.rows[userId].Keys == before.rows[userId].Keys + {column, UpdatedAtColumn}
          && after.rows[userId][column] == value
          && after.rows[userId][UpdatedAtColumn] == now
          && (forall c :: c in before.rows[userId] && c != column && c != UpdatedAtColumn ==>
                after.rows[userId][c] == before.rows[userId][c]))
  }

  /** `updateLanguage`: writes the language and the time of the write. */
  function UpdateLanguage(userId: Option<UserId>, db: Db, language: string, now: string): (r: Outcome)
    ensures r.error.None? <==> SignedIn(userId) && db.failure.None?
    ensures r.error.Some? ==> r.db == db
    ensures r.error.None? ==> Wrote(db, r.db, userId.value, LanguageColumn, language, now)
  {
    Update(userId, db, map[LanguageColumn := language, UpdatedAtColumn := now])
  }

  /** `updateFontSize`. */
  function UpdateFontSize(userId: Option<UserId>, db: Db, fontSize: string, now: string): (r: Outcome)
    ensures r.error.None? <==> SignedIn(userId) && db.failure.None?
    ensures r.error.Some? ==> r.db == db
    ensures r.error.None? ==> Wrote(db, r.db, userId.value, FontSizeColumn, fontSize, now)
  {
    Update(userId, db, map[FontSizeColumn := fontSize, UpdatedAtColumn := now])
  }

  /** `updateTheme`. */
  function UpdateTheme(userId: Option<UserId>, db: Db, theme: string, now: string): (r: Outcome)
    ensures r.error.None? <==> SignedIn(userId) && db.failure.None?
    ensures r.error.Some? ==> r.db == db
    ensures r.error.None? ==> Wrote(db, r.db, userId.value, ThemeColumn, theme, now)
  {
    Update(userId, db, map[ThemeColumn := theme, UpdatedAtColumn := now])
  }

  /** The argument of `updateAllPreferences`: each field may be left out. */
  datatype PreferenceChanges = PreferenceChanges(language: Option<string>, fontSize: Option<string>, theme: Option<string>)

  /** A provided, non-empty field (`if (preferences.language)`). */
  predicate Provided(field: Option<string>)
  {
    field.Some? && field.value != ""
  }

  /** The record `updateAllPreferences` writes: always the time, plus each provided field. */
  function ChangeRecord(changes: PreferenceChanges, now: string): (r: Row)
    ensures UpdatedAtColumn in r && r[UpdatedAtColumn] == now
    ensures LanguageColumn in r <==> Provided(changes.language)
    ensures FontSizeColumn in r <==> Provided(changes.fontSize)
    ensures ThemeColumn in r <==> Provided(changes.theme)
    ensures LanguageColumn in r ==> r[LanguageColumn] == changes.language.value
    ensures FontSizeColumn in r ==> r[FontSizeColumn] == changes.fontSize.value
    ensures ThemeColumn in r ==> r[ThemeColumn] == changes.theme.value
    ensures r.Keys <= {UpdatedAtColumn, LanguageColumn, FontSizeColumn, ThemeColumn}
  {
    var record := map[UpdatedAtColumn := now];
    var record := if Provided(changes.language) then record[LanguageColumn := changes.language.value] else record;
    var record := if Provided(changes.fontSize) then record[FontSizeColumn := changes.fontSize.value] else record;
    if Provided(changes.theme) then record[ThemeColumn := changes.theme.value] else record
  }

  /** `updateAllPreferences`. */
  function UpdateAllPreferences(userId: Option<UserId>, db: Db, changes: PreferenceChanges, now: string): (r: Outcome)
    ensures r.error.None? <==> SignedIn(userId) && db.failure.None?
    ensures r.error.Some? ==> r.db == db
    ensures r.error.None? ==> r.db == db.(rows := ApplyUpdate(db.rows, userId.value, ChangeRecord(changes, now)))
  {
    Update(userId, db, ChangeRecord(changes, now))
  }

  /** After a successful combined update, reading the preferences gives each provided value and
      keeps the earlier reading of every field that was left out. */
  lemma UpdateAllThenGet(userId: UserId, db: Db, changes: PreferenceChanges, now: string)
    requires userId != "" && db.failure.None? && userId in db.rows
    ensures var before := GetUserPreferences(Some(userId), db).value;
            var after := GetUserPreferences(Some(userId), UpdateAllPreferences(Some(userId), db, changes, now).db);
            && after.Success?
            && after.value.language == (if Provided(changes.language) then changes.language.value else before.language)
            && after.value.fontSize == (if Provided(changes.fontSize) then changes.fontSize.value else before.fontSize)
            && after.value.theme == (if Provided(changes.theme) then changes.theme.value else before.theme)
  {
  }

  /** Setting all three fields reads back exactly what was set. */
  lemma UpdateAllRoundTrip(userId: UserId, db: Db, prefs: Preferences, now: string)
    requires userId != "" && db.failure.None? && userId in db.rows
    requires prefs.language != "" && prefs.fontSize != "" && prefs.theme != ""
    ensures var changes := PreferenceChanges(Some(prefs.language), Some(prefs.fontSize), Some(prefs.theme));
            GetUserPreferences(Some(userId), UpdateAllPreferences(Some(userId), db, changes, now).db) == Success(prefs)
  {
    UpdateAllThenGet(userId, db, PreferenceChanges(Some(prefs.language), Some(prefs.fontSize), Some(prefs.theme)), now);
  }

  /** Each single-field action is the combined action with only that field provided. */
  lemma SingleUpdatesAreCombinedUpdates(userId: Option<UserId>, db: Db, value: string, now: string)
    requires value != ""
    ensures UpdateLanguage(userId, db, value, now) == UpdateAllPreferences(userId, db, PreferenceChanges(Some(value), None, None), now)
    ensures UpdateFontSize(userId, db, value, now) == UpdateAllPreferences(userId, db, PreferenceChanges(None, Some(value), None), now)
    ensures UpdateTheme(userId, db, value, now) == UpdateAllPreferences(userId, db, PreferenceChanges(None, None, Some(value)), now)
  {
    assert ChangeRecord(PreferenceChanges(Some(value), None, None), now) == map[LanguageColumn := value, UpdatedAtColumn := now];
    assert ChangeRecord(PreferenceChanges(None, Some(value), None), now) == map[FontSizeColumn := value, UpdatedAtColumn := now];
    assert ChangeRecord(PreferenceChanges(None, None, Some(value)), now) == map[ThemeColumn := value, UpdatedAtColumn := now];
  }

  /** Only the signed-in user's row changes, and a user without a row gets `success: true` while
      nothing is written, so a later read still fails. */
  lemma UpdateWithoutProfile(userId: UserId, db: Db, changes: PreferenceChanges, now: string)
    requires userId != "" && db.failure.None? && userId !in db.rows
    ensures UpdateAllPreferences(Some(userId), db, changes, now) == Outcome(None, db)
    ensures GetUserPreferences(Some(userId), UpdateAllPreferences(Some(userId), db, changes, now).db) == Failure(NoSingleRow)
  {
  }
}
