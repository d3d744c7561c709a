/**
 * The administration routes: the application-settings singleton (row 1),
 * the user patch with its conditionally built update, and the defaults of
 * the user and section create schemas. Every route first requires the
 * caller to be an administrator.
 */
module Admin {

  import opened Wrappers
  import opened Entries
  import opened Text

  // ---------------------------------------------------------------------------
  // The settings singleton

  /** Row 1 of the settings table: the defaults offered to clients. */
  datatype AppSetting = AppSetting(defaultCategoryId: Option<string>, defaultSectionId: Option<string>)

  /** The body of PATCH /admin/settings: each field missing, `null`, or a string. */
  datatype SettingsBody = SettingsBody(defaultCategoryId: Field<string>, defaultSectionId: Field<string>)

  /**
   * The row after the PATCH upsert. On an existing row a field is written
   * only when a string is sent (`?? undefined`); a missing row is created
   * with the sent strings and null for the rest (`?? null`).
   */
  function PatchedSetting(row: Option<AppSetting>, b: SettingsBody): (r: AppSetting)
    ensures b.defaultCategoryId.Present? ==> r.defaultCategoryId == Some(b.defaultCategoryId.value)
    ensures b.defaultSectionId.Present? ==> r.defaultSectionId == Some(b.defaultSectionId.value)
    ensures !b.defaultCategoryId.Present? ==> r.defaultCategoryId == if row.Some? then row.value.defaultCategoryId else None
    ensures !b.defaultSectionId.Present? ==> r.defaultSectionId == if row.Some? then row.value.defaultSectionId else None
  {
    match row
    case Some(s) =>
      AppSetting(KeepUnlessSent(b.defaultCategoryId, s.defaultCategoryId),
                 KeepUnlessSent(b.defaultSectionId, s.defaultSectionId))
    case None =>
      AppSetting(OrNull(b.defaultCategoryId), OrNull(b.defaultSectionId))
  }

  /** A request that sends `null` to clear the defaults leaves an existing row as it was. */
  lemma ClearRequestIsIgnored(s: AppSetting)
    ensures PatchedSetting(Some(s), SettingsBody(Null, Null)) == s
  {
  }

  /** The create branch of the upsert agrees with the update branch applied to an empty row. */
  lemma CreateBranchIsUpdateOfEmptyRow(b: SettingsBody)
    ensures PatchedSetting(None, b) == PatchedSetting(Some(AppSetting(None, None)), b)
  {
  }

  /** Sending the same body twice is sending it once. */
  lemma PatchSettingIdempotent(row: Option<AppSetting>, b: SettingsBody)
    ensures PatchedSetting(Some(PatchedSetting(row, b)), b) == PatchedSetting(row, b)
  {
  }

  /** The settings table, which holds at most the singleton row. */
  class SettingsTable {
    var row: Option<AppSetting>

    constructor()
      ensures row.None?
    {
      row := None;
    }

    /** GET /admin/settings: the row, created empty when missing. */
    method Get(caller: Role) returns (r: Result<AppSetting, ApiError>)
      modifies this
      ensures caller != ADMIN ==> r == Err(Forbidden) && row == old(row)
      ensures caller == ADMIN && old(row).Some? ==> row == old(row) && r == Ok(old(row).value)
      ensures caller == ADMIN && old(row).None? ==> row == Some(AppSetting(None, None)) && r == Ok(AppSetting(None, None))
    {
      if caller != ADMIN {
        return Err(Forbidden);
      }
      if row.None? {
        row := Some(AppSetting(None, None));
      }
      r := Ok(row.value);
    }

    /** PATCH /admin/settings: the upsert, answering the row it leaves. */
    method Patch(caller: Role, b: SettingsBody) returns (r: Result<AppSetting, ApiError>)
      modifies this
      ensures caller != ADMIN ==> r == Err(Forbidden) && row == old(row)
      ensures caller == ADMIN ==> row == Some(PatchedSetting(old(row), b)) && r == Ok(row.value)
    {
      if caller != ADMIN {
        return Err(Forbidden);
      }
      var s: AppSetting;
      match row {
        case Some(prior) =>
          s := prior;
          if b.defaultCategoryId.Present? {
            s := s.(defaultCategoryId := Some(b.defaultCategoryId.value));
          }
          if b.defaultSectionId.Present? {
            s := s.(defaultSectionId := Some(b.defaultSectionId.value));
          }
        case None =>
          s := AppSetting(OrNull(b.defaultCategoryId), OrNull(b.defaultSectionId));
      }
      row := Some(s);
      r := Ok(s);
    }
  }

  // ---------------------------------------------------------------------------
  // Users

  datatype User = User(id: string, email: string, passwordHash: string, role: Role, isDisabled: bool)

  /** The body of PATCH /admin/users/:id; `null` is refused for each field. */
  datatype UserPatchBody = UserPatchBody(password: Field<string>, role: Field<Role>, isDisabled: Field<bool>)

  /** The schema: a password, when sent, is at least 8 UTF-16 code units long. */
  predicate ValidUserPatch(b: UserPatchBody) {
    && (b.password.Absent? || (b.password.Present? && Utf16Len(b.password.value) >= 8))
    && !b.role.Null?
    && !b.isDisabled.Null?
  }

  /** The `data` object of the user update: the columns to write. */
  datatype UserData = UserData(passwordHash: Option<string>, role: Option<Role>, isDisabled: Option<bool>)

  /**
   * The conditional assignments building `data`: the hash of a sent
   * password, a sent role, a sent flag, and nothing else.
   */
  method BuildUserData(b: UserPatchBody, hash: string -> string) returns (d: UserData)
    requires ValidUserPatch(b)
    ensures d.passwordHash.Some? <==> b.password.Present?
    ensures d.role.Some? <==> b.role.Present?
    ensures d.isDisabled.Some? <==> b.isDisabled.Present?
    ensures d.passwordHash.Some? ==> d.passwordHash.value == hash(b.password.value)
    ensures d.role.Some? ==> d.role.value == b.role.value
    ensures d.isDisabled.Some? ==> d.isDisabled.value == b.isDisabled.value
  {
    d := UserData(None, None, None);
    if b.password.Present? && b.password.value != "" {
      d := d.(passwordHash := Some(hash(b.password.value)));
    }
    if b.role.Present? {
      d := d.(role := Some(b.role.value));
    }
    if b.isDisabled.Present? {
      d := d.(isDisabled := Some(b.isDisabled.value));
    }
  }

  /** A user row after `user.update` with `data`: the listed columns written, the rest kept. */
  function ApplyUserData(u: User, d: UserData): (r: User)
    ensures r.id == u.id && r.email == u.email
  {
    User(u.id, u.email,
         if d.passwordHash.Some? then d.passwordHash.value else u.passwordHash,
         if d.role.Some? then d.role.value else u.role,
         if d.isDisabled.Some? then d.isDisabled.value else u.isDisabled)
  }

  /** An empty body writes nothing. */
  lemma EmptyUserPatchChangesNothing(u: User)
    ensures ApplyUserData(u, UserData(None, None, None)) == u
  {
  }

  predicate HasUser(users: seq<User>, id: string) {
    exists k :: 0 <= k < |users| && users[k].id == id
  }

  /** The user table, in row order. */
  class UserTable {
    var users: seq<User>

    constructor(users0: seq<User>)
      ensures users == users0
    {
      users := users0;
    }

    /**
     * PATCH /admin/users/:id: an administrator's request with a valid body
     * writes the sent fields of the row with that id and nothing else; the
     * update of a missing row fails.
     */
    method PatchUser(caller: Role, id: string, b: UserPatchBody, hash: string -> string) returns (r: Result<(), ApiError>)
      modifies this
      ensures caller != ADMIN ==> r == Err(Forbidden)
      ensures caller == ADMIN && (id == "" || !ValidUserPatch(b)) ==> r == Err(Invalid)
      ensures caller == ADMIN && id != "" && ValidUserPatch(b) && !HasUser(old(users), id) ==> r == Err(Failed)
      ensures r.Err? ==> users == old(users)
      ensures r.Ok? <==> caller == ADMIN && id != "" && ValidUserPatch(b) && HasUser(old(users), id)
      ensures |users| == |old(users)|
      ensures forall k :: 0 <= k < |users| && old(users)[k].id != id ==> users[k] == old(users)[k]
      ensures r.Ok? ==> forall k :: 0 <= k < |users| && old(users)[k].id == id ==>
        var u, v := old(users)[k], users[k];
        && v.id == u.id && v.email == u.email
        && v.passwordHash == (if b.password.Present? then hash(b.password.value) else u.passwordHash)
        && v.role == (if b.role.Present? then b.role.value else u.role)
        && v.isDisabled == (if b.isDisabled.Present? then b.isDisabled.value else u.isDisabled)
    {
      if caller != ADMIN {
        return Err(Forbidden);
      }
      if id == "" || !ValidUserPatch(b) {
        return Err(Invalid);
      }
      var d := BuildUserData(b, hash);
      if !HasUser(users, id) {
        return Err(Failed);
      }
      users := seq(|users|, k requires 0 <= k < |users| reads this =>
        if users[k].id == id then ApplyUserData(users[k], d) else users[k]);
      r := Ok(());
    }
  }

  // ---------------------------------------------------------------------------
  // Create schemas

  /** The body of POST /admin/users. */
  datatype CreateUserBody = CreateUserBody(email: Field<string>, password: Field<string>, role: Field<Role>)

  datatype NewUser = NewUser(email: string, password: string, role: Role)

  /**
   * The create-user schema: an email address (as judged by `isEmail`), a
   * password of at least 8 UTF-16 code units, and a role that defaults to USER.
   */
  function ValidateCreateUser(caller: Role, b: CreateUserBody, isEmail: string -> bool): (r: Result<NewUser, ApiError>)
    ensures caller != ADMIN ==> r == Err(Forbidden)
    ensures caller == ADMIN ==>
      (r.Ok? <==> b.email.Present? && isEmail(b.email.value) && b.password.Present? && Utf16Len(b.password.value) >= 8 && !b.role.Null?)
    ensures caller == ADMIN && r.Err? ==> r.error == Invalid
    ensures r.Ok? ==> r.value.email == b.email.value && r.value.password == b.password.value && Utf16Len(r.value.password) >= 8
    ensures r.Ok? ==> r.value.role == if b.role.Present? then b.role.value else USER
  {
    if caller != ADMIN then Err(Forbidden)
    else if !(b.email.Present? && isEmail(b.email.value)) then Err(Invalid)
    else if !(b.password.Present? && Utf16Len(b.password.value) >= 8) then Err(Invalid)
    else if b.role.Null? then Err(Invalid)
    else Ok(NewUser(b.email.value, b.password.value, b.role.OrElse(USER)))
  }

  /** The body of POST /admin/categories/:id/sections. */
  datatype SectionBody = SectionBody(name: Field<string>, sortOrder: Field<Num>)

  datatype NewSection = NewSection(categoryId: string, name: string, sortOrder: int)

  /** The create-section schema: a non-empty name and an integer order that defaults to 0. */
  function ValidateSection(caller: Role, categoryId: string, b: SectionBody): (r: Result<NewSection, ApiError>)
    ensures caller != ADMIN ==> r == Err(Forbidden)
    ensures caller == ADMIN ==>
      (r.Ok? <==> categoryId != "" && FilledIn(b.name) && (b.sortOrder.Absent? || (b.sortOrder.Present? && b.sortOrder.value.Integral?)))
    ensures caller == ADMIN && r.Err? ==> r.error == Invalid
    ensures r.Ok? ==> r.value == NewSection(categoryId, b.name.value, if b.sortOrder.Present? then b.sortOrder.value.n else 0)
  {
    if caller != ADMIN then Err(Forbidden)
    else if categoryId == "" || !FilledIn(b.name) then Err(Invalid)
    else match b.sortOrder
      case Absent => Ok(NewSection(categoryId, b.name.value, 0))
      case Present(Integral(n)) => Ok(NewSection(categoryId, b.name.value, n))
      case _ => Err(Invalid)
  }
}
