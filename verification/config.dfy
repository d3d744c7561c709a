/**
 * GET /config: the database kind read off the connection URL, and the
 * client defaults read from the settings row.
 */
module Config {

  import opened Wrappers
  import opened Text
  import opened Env
  import opened Admin

  datatype DbType = Sqlite | Postgres | Unknown

  datatype DbInfo = DbInfo(dbType: DbType, dbPath: Option<string>)

  /**
   * `parseDbInfo`: a `file:` URL is SQLite, with the rest of the URL as the
   * path (null when empty); otherwise a URL starting with `postgres` is
   * PostgreSQL; anything else is unknown. Only SQLite has a path.
   */
  function ParseDbInfo(url: string): (r: DbInfo)
    ensures r.dbType == Sqlite <==> StartsWith(url, "file:")
    ensures r.dbType == Postgres <==> !StartsWith(url, "file:") && StartsWith(url, "postgres")
    ensures r.dbPath.Some? ==> r.dbType == Sqlite && r.dbPath.value != ""
    ensures r.dbType == Sqlite && |url| > 5 ==> r.dbPath == Some(url[5..])
  {
    if StartsWith(url, "file:") then
      var p := url[|"file:"|..];
      DbInfo(Sqlite, if p == "" then None else Some(p))
    else if StartsWith(url, "postgres") || StartsWith(url, "postgresql") then
      DbInfo(Postgres, None)
    else
      DbInfo(Unknown, None)
  }

  /** The `postgresql` test adds nothing: such a URL already starts with `postgres`. */
  lemma PostgresqlIsSubsumed(url: string)
    requires StartsWith(url, "postgresql")
    ensures StartsWith(url, "postgres")
  {
    assert url[..8] == url[..10][..8];
  }

  /** A `file:` URL reads back its path. */
  lemma SqlitePathRoundTrip(path: string)
    ensures ParseDbInfo("file:" + path) == DbInfo(Sqlite, if path == "" then None else Some(path))
  {
    var url := "file:" + path;
    assert url[..5] == "file:";
    assert url[5..] == path;
  }

  /** The defaults block: the settings row's values, or null for both when there is no row. */
  function ConfigDefaults(setting: Option<AppSetting>): (r: (Option<string>, Option<string>))
    ensures setting.None? ==> r == (None, None)
    ensures setting.Some? ==> r == (setting.value.defaultCategoryId, setting.value.defaultSectionId)
  {
    match setting
    case None => (None, None)
    case Some(s) => (s.defaultCategoryId, s.defaultSectionId)
  }

  /** After an administrator's settings update, GET /config reports what was sent. */
  lemma ConfigReflectsPatch(row: Option<AppSetting>, b: SettingsBody)
    requires b.defaultCategoryId.Present? && b.defaultSectionId.Present?
    ensures ConfigDefaults(Some(PatchedSetting(row, b))) == (Some(b.defaultCategoryId.value), Some(b.defaultSectionId.value))
  {
  }
}
