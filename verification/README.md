# PromptVault entry engine in Dafny

PromptVault stores prompt/output pairs ("entries") for each user, grouped
by category and section and labelled with free-form tags. A Fastify server
backed by Prisma serves them; a React client shows them. This project
models the parts of both that decide what is stored and shown:

- **Entries** (`entries.dfy`, `writes.dfy`, `tag_reconcile.dfy`,
  `entry_store.dfy`). These cover:
  - the three tables (entries, tags, entry-tag links) and the uniqueness
    and foreign-key constraints they keep;
  - the create and update schemas;
  - the list query of `GET /entries`: the owner filter, the tombstone
    filter, category, section and free-text filters, newest first, the
    `take` cap, and the case-insensitive tag post-filter;
  - the create with its tag upsert loop;
  - the sparse PATCH, where `null` means "keep", with its tag replace;
  - soft delete, restore and hard delete.

  The functions over `Tables` say what each route does. The `EntryStore`
  class performs the writes in place and is proved to agree with those
  functions.
- **Retention purge** (`retention.dfy`, `EntryStore.Purge`). This covers
  the window in days, the cutoff and the `Date` range it must fall in,
  and the removal of every row soft-deleted strictly before the cutoff,
  for every owner.
- **Administration** (`admin.dfy`). This covers:
  - the settings singleton, whose upsert differs between the update and
    create branches;
  - the user PATCH, with its conditionally built `data`;
  - the defaults of the create-user and create-section schemas.
- **Configuration** (`config.dfy`, `env.dfy`). This covers `parseDbInfo`,
  the defaults block of `GET /config`, `mustEnv`, and the environment
  record with its fallbacks, including `retentionDays`.
- **Client** (`client.dfy`). This covers:
  - the tag text of the editor: `split(',')`, `trim` and
    `filter(Boolean)`, and its round trip with `join(', ')`;
  - the required-field checks;
  - the default category and section, with the section comparator;
  - the live/deleted view filter;
  - the selection fix-up after a refresh;
  - the `ClientState` class, whose methods update its fields as the
    component's handlers do.

The support modules are:

| Module | Contents |
|---|---|
| `Wrappers` | `Option`, `Result`, and `Field`, a JSON property that is missing, `null` or a value |
| `Text` | JavaScript `trim`, ASCII `toLowerCase`, `split`/`join`, case-insensitive `contains` |
| `Seqs` | filter, sub-sequence |
| `Sorting` | a stable insertion sort under a total preorder |

Some of the code departs from the system's written specification. The
model follows the code in each case:

- **`includeDeleted=true` does not select deleted rows.** It only drops
  the `deletedAt: null` condition, so the server sends live and deleted
  rows alike. The client's own filter then keeps only the deleted ones
  (`Entries.IncludeDeletedIgnoresTombstone`, `Client.ViewFilter`).
- **The server does not discard whitespace-only tag names.** It trims
  them to `""` and upserts a tag with that name
  (`TagReconcile.BlankNameBecomesEmptyTag`). The client never sends one
  (`Client.ServerKeepsParsedNames`).
- **A body rejected by a schema answers 500, not 400.** The global error
  handler uses the error's `statusCode`, and the validation error has
  none. The model calls this outcome `Invalid`.

## Model

| member | source | states |
|---|---|---|
| Entries.NewEntry | server/src/routes/entries.ts:80-91 | the inserted row carries the caller as owner, is live, has creation and update time `now`, holds the sent category, prompt, output and model (all non-empty), and the sent section, title and comments, each null when not sent |
| Entries.PatchEntry | server/src/routes/entries.ts:118-129 | field by field, a sent value is written and a missing or `null` field keeps the stored value; id, owner, creation time and tombstone are never written, and `updatedAt` becomes the update time |
| Entries.PatchNullIsAbsent | server/src/routes/entries.ts:118-129 | sending `null` for the section, title or comments gives the same row as leaving the field out, whatever the rest of the body |
| Entries.PatchCannotClear | server/src/routes/entries.ts:118-129 | no update can turn a set title, section or comments back into null |
| Entries.PatchKeepsRequiredFilled | server/src/routes/entries.ts:16-16 | an update accepted by the partial schema never empties the category, prompt, output or model of a row that had them |
| Entries.PatchIdempotent | server/src/routes/entries.ts:118-129 | repeating an update with the same body and time changes nothing more |
| Entries.TakeCap | server/src/routes/entries.ts:31-31 | the page size is 100 by default, the requested size below 500, and never more than 500 |
| Entries.NewerOrSameIsPreorder | server/src/routes/entries.ts:48-48 | `updatedAt` descending is a total preorder, so the ordering is well defined |
| Entries.Matching | server/src/routes/entries.ts:33-44 | a row matches exactly when it is in the table and meets the `where` object (owner, tombstone, category, section, text search) |
| Entries.Candidates | server/src/routes/entries.ts:46-49 | the candidates are the matching rows, each exactly as often as in the table (a permutation of them), newest first |
| Entries.Window | server/src/routes/entries.ts:46-51 | at most `take` rows, all matching, newest first, and no row more often than it occurs among the matching rows |
| Entries.WindowIsNewest | server/src/routes/entries.ts:46-51 | a matching row left out of the page means the page is full and every row on it is at least as new |
| Entries.WindowComplete | server/src/routes/entries.ts:46-51 | when no more rows match than the cap, every matching row is fetched |
| Entries.TagRefs | server/src/routes/entries.ts:72-72 | each tag reported for an entry is linked to it and carries that tag's id and name |
| Entries.TagRefsComplete | server/src/routes/entries.ts:50-50 | every tag linked to the entry is reported with its id and name, when tag ids are distinct |
| TagReconcile.TagRefsNamesAreLinked | server/src/routes/entries.ts:50-72 | in consistent tables the names of an entry's reported tag list are exactly its linked names |
| Entries.ViewOf | server/src/routes/entries.ts:60-73 | the response row keeps the entry's id, update time and tombstone |
| Entries.ListEntries | server/src/routes/entries.ts:19-75 | the response rows: at most `take`; each from a matching entry of the caller; newest first; a sub-sequence of the page; with a tag filter, exactly the page rows having a tag of that name case-insensitively; without one, the whole page |
| Entries.ListLiveOnly | server/src/routes/entries.ts:34-34 | without the deleted-view flag no deleted row is listed |
| Entries.ListOwnerOnly | server/src/routes/entries.ts:33-33 | only the caller's rows are listed |
| Entries.ListSearchMatches | server/src/routes/entries.ts:38-44 | with a search string, each listed row contains it, case-insensitively, in its title, prompt or output |
| Entries.IncludeDeletedIgnoresTombstone | server/src/routes/entries.ts:30-34 | with `includeDeleted=true` whether a row matches does not depend on its `deletedAt` |
| Entries.OtherFlagValuesAreLiveView | server/src/routes/entries.ts:30-34 | any flag value other than exactly `"true"` excludes deleted rows |
| TagReconcile.FindTag | server/src/routes/entries.ts:95-96 | the lookup by the `(userId, name)` key finds the caller's tag of that name, or proves none exists |
| TagReconcile.LinkOnce | server/src/routes/entries.ts:100-104 | the link upsert adds the pair, and only it, when it is missing |
| TagReconcile.LinkTag | server/src/routes/entries.ts:95-104 | one loop iteration keeps the entries; it keeps every tag row and appends at most one, the caller's, named `name`; it keeps every link and adds only links of this entry |
| TagReconcile.ReconcileOnlyAddsLinks | server/src/routes/entries.ts:94-105 | the whole loop leaves the entries alone, keeps every link and adds only links of this entry |
| TagReconcile.ReconcileOnlyAddsTags | server/src/routes/entries.ts:94-105 | the loop never changes or removes a tag row; every tag it adds is the caller's and carries one of the trimmed requested names |
| TagReconcile.UnlinkAll | server/src/routes/entries.ts:132-132 | the `deleteMany` removes exactly the links of this entry |
| TagReconcile.LinkTagConsistent | server/src/routes/entries.ts:95-104 | one iteration keeps every uniqueness constraint and foreign key |
| TagReconcile.ReconcileConsistent | server/src/routes/entries.ts:94-105 | the loop keeps every uniqueness constraint and foreign key |
| TagReconcile.UnlinkAllConsistent | server/src/routes/entries.ts:132-132 | unlinking keeps the tables consistent |
| TagReconcile.LinkTagLinkedNames | server/src/routes/entries.ts:95-104 | after one iteration the names linked to the entry are the earlier ones plus `name` |
| TagReconcile.ReconcileLinkedNames | server/src/routes/entries.ts:94-105 | after the loop the names linked to the entry are the earlier ones plus the trimmed requested names |
| TagReconcile.ReconcileKnownTagsKeepsTags | server/src/routes/entries.ts:94-105 | when every trimmed name already names one of the user's tags, the upserts create no tag and leave the id counter alone |
| TagReconcile.ReplaceTagsLinkedNames | server/src/routes/entries.ts:131-145 | after the update's tag replace the entry is linked to exactly the trimmed names sent, and to none for `[]` |
| TagReconcile.LinkTagLinks | server/src/routes/entries.ts:95-104 | after an iteration the caller has a tag of that name and the entry is linked to it |
| TagReconcile.LinkTagKeepsLinked | server/src/routes/entries.ts:95-104 | an iteration does not undo an earlier name's link |
| TagReconcile.LinkTagNoop | server/src/routes/entries.ts:97-102 | with both upserts' `update: {}`, an already linked name changes nothing |
| TagReconcile.ReconcileLinksAll | server/src/routes/entries.ts:94-105 | every requested name, trimmed, ends up as a linked tag of the caller |
| TagReconcile.ReconcileNoop | server/src/routes/entries.ts:94-105 | a list whose names are all linked already leaves the tables as they are |
| TagReconcile.ReconcileIdempotent | server/src/routes/entries.ts:94-105 | sending the same tag list twice creates no second tag row and no second link |
| TagReconcile.BlankNameBecomesEmptyTag | server/src/routes/entries.ts:95-99 | any whitespace-only name in any tag list is not dropped: the entry gets linked to a tag named `""` |
| EntryWrites.FindOwned | server/src/routes/entries.ts:115-116 | the ownership check finds the caller's row with that id, deleted or not, or shows there is none |
| EntryWrites.Apply | server/src/routes/entries.ts:118-129 | every row update keeps id, owner and creation time and stamps `updatedAt`; a tombstone write changes only `deletedAt` |
| EntryWrites.UpdateRow | server/src/routes/entries.ts:118-119 | `update where id` rewrites the row with that id and keeps every other row and every id |
| EntryWrites.UpdateRowConsistent | server/src/routes/entries.ts:118-129 | a row update keeps the tables consistent |
| EntryWrites.Insert | server/src/routes/entries.ts:81-92 | the insert adds exactly the new row and takes the next identifier |
| EntryWrites.InsertConsistent | server/src/routes/entries.ts:81-92 | inserting under a fresh id keeps the tables consistent, and the new row starts with no tags |
| EntryWrites.CreateTablesEffect | server/src/routes/entries.ts:77-108 | a create appends exactly the new row under an id no row had; it keeps every earlier link and links the row to exactly the trimmed requested names |
| EntryWrites.CreateTablesConsistent | server/src/routes/entries.ts:77-108 | a create keeps every uniqueness constraint and foreign key |
| EntryWrites.PatchTablesEffect | server/src/routes/entries.ts:110-148 | an update keeps the tables consistent and rewrites only its row. With a tag list the row ends up linked to exactly the trimmed names; without one the tag and link tables are untouched. Every other entry keeps exactly its links, earlier tags are kept in place, and any tag added is the caller's and named by the list |
| EntryWrites.PatchTwiceSameTags | server/src/routes/entries.ts:131-145 | sending the same tag list a second time links the same names and creates no tag |
| EntryWrites.HardDeleteTables | server/src/routes/entries.ts:173-173 | the delete removes exactly the row with that id and exactly its links, keeping the tags |
| EntryWrites.SoftDeleteRestamps | server/src/routes/entries.ts:150-157 | soft delete stamps the current time, even on an already deleted row, which its owner can still find |
| EntryWrites.SoftDeleteHidesFromLiveView | server/src/routes/entries.ts:155-155 | after a soft delete the row is in no list without the deleted-view flag |
| EntryWrites.RestoreShowsInLiveView | server/src/routes/entries.ts:159-166 | a restored row matches a live-view query exactly when it matched the same query with the deleted-view flag |
| EntryWrites.RestoreClears | server/src/routes/entries.ts:164-164 | restore clears the tombstone whether or not it was set |
| EntryWrites.HardDeleteEffect | server/src/routes/entries.ts:168-175 | hard delete keeps the tables consistent, removes the id, and no list shows the row afterwards |
| EntryWrites.HardDeleteConsistent | server/src/routes/entries.ts:173-173 | removing a row with its links keeps every constraint |
| EntryService.EntryStore.UpsertTag | server/src/routes/entries.ts:95-104 | the in-place iteration leaves exactly the tables of `LinkTag` |
| EntryService.EntryStore.UpsertTags | server/src/routes/entries.ts:94-105 | the loop over the names leaves exactly the tables of `Reconcile` and keeps them consistent |
| EntryService.EntryStore.Create | server/src/routes/entries.ts:77-108 | a rejected body changes nothing; an accepted one answers the new id and leaves the tables of `CreateTables`, consistent |
| EntryService.EntryStore.Update | server/src/routes/entries.ts:110-148 | a rejected body comes first, then a missing or foreign row (404), neither changing anything; otherwise the tables of `PatchTables`, consistent |
| EntryService.EntryStore.WriteRow | server/src/routes/entries.ts:118-129 | the row write in place is `UpdateRow` and keeps the id set |
| EntryService.EntryStore.ReplaceLinks | server/src/routes/entries.ts:131-145 | unlinking then relinking in place leaves the tables of `ReplaceTags` |
| EntryService.EntryStore.SoftDelete | server/src/routes/entries.ts:150-157 | a row the caller does not own gives 404 and no change; otherwise the tombstone is set to now |
| EntryService.EntryStore.Restore | server/src/routes/entries.ts:159-166 | a row the caller does not own gives 404 and no change; otherwise the tombstone is cleared |
| EntryService.EntryStore.HardDelete | server/src/routes/entries.ts:168-175 | a row the caller does not own gives 404 and no change; otherwise the row and its links are removed |
| EntryService.EntryStore.Purge | server/src/routes/retention.ts:8-20 | a non-administrator is refused, and a bad window or a cutoff outside the `Date` range fails, neither changing anything. Otherwise every expired row goes with its links, the report counts exactly the rows removed, and the tables stay consistent |
| EntryService.EntryStore.RemoveExpired | server/src/routes/retention.ts:15-17 | the in-place `deleteMany` leaves exactly the tables of `PurgeTables` |
| Retention.PurgeDays | server/src/routes/retention.ts:11-12 | a sent window must be an integer in [1, 3650] and is used as is. A missing one falls back to the configured value, which must be an integer. `null` or an out-of-range value is rejected |
| Retention.Cutoff | server/src/routes/retention.ts:14-14 | the cutoff lies exactly `days` whole days before now, so strictly before it for a positive window |
| Retention.PurgeCutoff | server/src/routes/retention.ts:11-17 | the purge proceeds exactly when the window is accepted and the cutoff is a time a `Date` can hold, and then compares against `Cutoff`; a cutoff out of range fails as the throwing `deleteMany` does |
| Retention.SentWindowInRange | server/src/routes/retention.ts:11-14 | a window the body may send always gives a cutoff in range while the clock is after the epoch |
| Retention.HugeWindowFails | server/src/routes/retention.ts:12-17 | a configured window so large that the cutoff falls before the `Date` range makes the purge fail |
| Retention.CountExpired | server/src/routes/retention.ts:15-19 | the purge count is at most the number of rows |
| Retention.PurgeTables | server/src/routes/retention.ts:15-17 | the rows kept are exactly those not deleted strictly before the cutoff, in order. Live rows and rows deleted at the cutoff stay; tags are kept; the links kept are exactly the links of the rows kept, so no kept row loses a link and none is added |
| Retention.PurgeCountsRemoved | server/src/routes/retention.ts:19-19 | the count reported plus the rows kept is the number of rows before |
| Retention.PurgeIdempotent | server/src/routes/retention.ts:15-17 | after a purge nothing is expired, so a second purge with the same cutoff removes nothing |
| Retention.PurgeConsistent | server/src/routes/retention.ts:15-17 | the purge keeps every constraint, links included |
| Env.MustEnv | server/src/lib/env.ts:3-7 | a set variable wins even when empty, otherwise the fallback; the result is never empty, and an empty one is the "Missing env var" error |
| Env.ParseNumber | server/src/lib/env.ts:11-11 | with surrounding whitespace ignored, blank text is 0, a run of digits is its decimal value, a leading `-` negates it and a leading `+` keeps it; the result is an integer exactly for these forms |
| Env.ParseDecimal | server/src/lib/env.ts:11-11 | any natural written in decimal, padded with whitespace, reads back as itself |
| Env.ParseZeroPadded | server/src/lib/env.ts:11-11 | leading zeros do not change the number read |
| Env.ParseSigned | server/src/lib/env.ts:11-11 | a minus sign negates and a plus sign keeps the value of the digits after it |
| Env.NumberOr | server/src/lib/env.ts:11-12 | an unset variable gives the fallback |
| Env.RetentionDays | server/src/lib/env.ts:11-11 | the retention window is 30 days when `RETENTION_DAYS` is unset |
| Env.LoadEnv | server/src/lib/env.ts:9-20 | loading succeeds exactly when neither token secret is set to `""`; the secrets are then non-empty and the window is `RetentionDays` |
| Env.UnsetEnvironmentDefaults | server/src/lib/env.ts:9-20 | whatever else is set, when none of the variables the record reads is set every setting takes its development default |
| Config.ParseDbInfo | server/src/routes/config.ts:20-29 | SQLite exactly for `file:` URLs, PostgreSQL exactly for other URLs starting with `postgres`; only SQLite has a path, which is never empty and is the rest of the URL |
| Config.PostgresqlIsSubsumed | server/src/routes/config.ts:25-25 | the `postgresql` test is redundant with the `postgres` test |
| Config.SqlitePathRoundTrip | server/src/routes/config.ts:21-24 | `file:` followed by a path reads back that path, or null for an empty one |
| Config.ConfigDefaults | server/src/routes/config.ts:41-44 | the defaults block is the settings row's values, or null for both without a row |
| Config.ConfigReflectsPatch | server/src/routes/config.ts:41-44 | after a settings update that sends both ids, the config reports them |
| Admin.PatchedSetting | server/src/routes/admin.ts:98-109 | a sent string is written. On an existing row a missing or `null` field keeps its value; on a new row it is null |
| Admin.ClearRequestIsIgnored | server/src/routes/admin.ts:100-103 | sending `null` for both defaults leaves an existing row unchanged |
| Admin.CreateBranchIsUpdateOfEmptyRow | server/src/routes/admin.ts:98-109 | the create branch agrees with the update branch applied to an empty row |
| Admin.PatchSettingIdempotent | server/src/routes/admin.ts:98-109 | applying the same settings body twice is applying it once |
| Admin.SettingsTable.Get | server/src/routes/admin.ts:91-94 | an administrator gets the row, which is created empty when missing; others are refused with no change |
| Admin.SettingsTable.Patch | server/src/routes/admin.ts:96-111 | an administrator's patch leaves and answers the row of `PatchedSetting`; others are refused with no change |
| Admin.BuildUserData | server/src/routes/admin.ts:38-41 | `data` holds a column exactly when its field is sent: the password's hash, the role, the flag |
| Admin.ApplyUserData | server/src/routes/admin.ts:43-43 | the user update never changes id or email |
| Admin.EmptyUserPatchChangesNothing | server/src/routes/admin.ts:38-43 | an empty body writes nothing |
| Admin.UserTable.PatchUser | server/src/routes/admin.ts:30-45 | refused for non-administrators; invalid for an empty id or a bad body, a sent password having to be at least 8 UTF-16 code units long; fails for an unknown id. On success only the rows with that id change, and only in their sent fields |
| Admin.ValidateCreateUser | server/src/routes/admin.ts:18-23 | accepted exactly for an email, a password of at least 8 UTF-16 code units and a non-null role; the role defaults to USER |
| Text.Utf16Len | server/src/routes/admin.ts:21-21 | a string's JavaScript length is between its number of characters and twice that, and zero only for the empty string |
| Text.Utf16LenConcat | server/src/routes/admin.ts:21-21 | the length of a concatenation is the sum of the lengths |
| Text.Utf16LenBmp | server/src/routes/admin.ts:21-21 | without characters beyond the Basic Multilingual Plane the length is the number of characters |
| Admin.ValidateSection | server/src/routes/admin.ts:77-80 | accepted exactly for a non-empty name and an integer or missing order; the order defaults to 0 |
| Text.Trim | app/src/ui/App.tsx:216-216 | the trimmed text has no leading or trailing whitespace and is no longer than the text |
| Text.TrimIsSlice | app/src/ui/App.tsx:216-216 | the trimmed text is a contiguous slice of the text, and all that is cut off before and after it is whitespace |
| Text.TrimIdempotent | app/src/ui/App.tsx:216-216 | trimming twice is trimming once |
| Text.TrimEmptyIffBlank | app/src/ui/App.tsx:217-217 | the trimmed text is empty exactly when the text is all whitespace |
| Text.Lower | server/src/routes/entries.ts:55-56 | lower-casing maps each character and keeps the length |
| Text.Split | app/src/ui/App.tsx:216-216 | splitting gives at least one piece and no piece holds the separator |
| Text.JoinSplit | app/src/ui/App.tsx:216-216 | joining the pieces with the separator gives back the text |
| Sorting.SortByHeadIsFirstLeast | app/src/ui/App.tsx:113-113 | the first element of the stable sort is the earliest element that sorts before every other |
| Client.ParseTagsPlain | app/src/ui/App.tsx:216-216 | every parsed tag name is non-empty, trimmed and free of commas |
| Client.TagTextRoundTrip | app/src/ui/App.tsx:150-150 | names shown in the editor as `join(', ')` parse back to the same names, in order |
| Client.ParseTagsStable | app/src/ui/App.tsx:150-150 | showing parsed names and parsing the text again changes nothing |
| Client.ServerKeepsParsedNames | app/src/ui/App.tsx:216-216 | the server's trim leaves the client's names as they are, so the client never creates the tag `""` |
| Client.RequiredFieldError | app/src/ui/App.tsx:242-244 | there is no error exactly when prompt, output and model are all non-blank; otherwise the message names the first blank field, in that order |
| Client.OrNullIfEmpty | app/src/ui/App.tsx:220-220 | `s \|\| null` is null exactly for the empty string |
| Client.DraftBodyAccepted | app/src/ui/App.tsx:219-228 | a draft that passes the client's checks, in a chosen category, passes both server schemas |
| Client.NoCategoryRefused | app/src/ui/App.tsx:246-255 | without a chosen category the server refuses the create, whatever the form holds |
| Client.ClearedFieldsAreKept | app/src/ui/App.tsx:219-228 | emptying the title, section or comments in the editor sends `null`, which the update ignores: the stored values stay |
| Client.FindCategory | app/src/ui/App.tsx:110-110 | the lookup finds a category with that id or shows there is none |
| Client.ChooseCategory | app/src/ui/App.tsx:104-106 | the configured default when it names a category, else the first category, else none; with categories the choice always exists |
| Client.SectionBeforeIsTotalPreorder | app/src/ui/App.tsx:113-113 | the comparator (order, then name) is total and transitive |
| Client.SortSections | app/src/ui/App.tsx:335-335 | the sections shown are a permutation of the category's, sorted by the comparator |
| Client.ChooseSectionIsFirstLeast | app/src/ui/App.tsx:110-113 | without a usable default the section chosen is the earliest one sorting before every other |
| Client.ChooseSectionDefault | app/src/ui/App.tsx:110-113 | a default in the chosen category wins; no category or no sections give none; any section chosen belongs to the category |
| Client.ViewFilter | app/src/ui/App.tsx:130-130 | the rows kept are exactly the answer's rows in the requested view, in order |
| Client.RefreshListsChosenView | app/src/ui/App.tsx:120-135 | after a refresh the list holds only rows of the chosen category and view, newest first |
| Client.LiveViewFilterIsNoop | app/src/ui/App.tsx:130-130 | in the live view the client filter removes nothing the server sent |
| Client.FixSelection | app/src/ui/App.tsx:133-134 | a listed selection is kept, otherwise the first row is chosen; the selection is empty exactly when the list is, and always listed |
| Client.FixSelectionIdempotent | app/src/ui/App.tsx:133-134 | a second fix-up on the same list changes nothing |
| Client.SaveRequest | app/src/ui/App.tsx:213-228 | nothing is sent without a live selected row with its required fields filled. Otherwise the selected id and the draft body are sent, and the update schema accepts that body when a category is chosen |
| Client.SubmitRequest | app/src/ui/App.tsx:239-255 | the form is sent exactly when its required fields are filled, and the create schema accepts it when a category is chosen |
| Client.FindView | app/src/ui/App.tsx:54-54 | the lookup finds a listed row with that id or shows it is not listed |
| Client.ClientState.Selected | app/src/ui/App.tsx:54-54 | the selected row, when found, is listed and has the selected id |
| Client.ClientState.RefreshEntries | app/src/ui/App.tsx:120-135 | nothing happens without a user or category. Otherwise it sends the list request; a failed request changes nothing, and an answer is stored split by view with the selection fixed |
| Client.ClientState.SaveSelected | app/src/ui/App.tsx:213-229 | it sends what `SaveRequest` gives for the selected row; the editor becomes clean only when a request was sent and the server accepted it, and a refused update leaves it dirty |
| Client.ClientState.SubmitNew | app/src/ui/App.tsx:239-255 | it reports the first missing required field, and sends the form as the create request exactly when none is missing |
| Client.ClientState.CreateAnswered | app/src/ui/App.tsx:246-258 | a created row first refreshes the list, then is selected even when the refreshed list does not show it, and the form closes; a refused create, or a refresh request that fails, leaves list, selection and form as they were |
| Client.ClientState.OpenCreated | app/src/ui/App.tsx:257-258 | the created row is selected and the form closed |

## Left out

- **Authentication.** `requireAuth`, JWT issue and verification, login, refresh and logout are left out. The caller's id and role are parameters of the operations.
- **Foreign functions.** `hashPassword` and the email format check of the create-user schema are parameters (`hash`, `isEmail`).
- **Clocks.** `Date.now()` and `new Date()` are the parameter `now`, in milliseconds.
- **I/O.** HTTP routing, status codes other than the outcomes named in `ApiError`, and JSON serialisation are left out.
- **Client calls.** The client's API calls are parameters: the server's answer and the created id.
- **Package version.** `getPkgVersion` reads `package.json` from disk and is left out.
- **Concurrency and atomicity.** Each route is modelled as one atomic step. In the source the row write and the tag loop are separate database calls without a transaction, so interleavings and partial failures are not modelled.
- **The database schema**, which is not part of this model. Four of its rules are assumed:
  - that every update stamps `updatedAt`;
  - that deleting an entry deletes its links;
  - that `(userId, name)` is unique for tags;
  - that `(entryId, tagId)` is unique for links.

  The last two come from the upsert keys. The check that a category or section id names an existing row is not modelled.
- **Row order.** The order Prisma gives rows with equal `updatedAt` is unspecified. The model keeps table order among them. Likewise, the order of an entry's tag list is not specified by the query; the model reports the tags in link-table order, and its properties speak of which tags are reported, not their order.
- **Identifiers.** They are natural numbers from one counter, not cuid strings. The `min(1)` check on an entry id in the route parameters is therefore always met.
- Entries.TakeCap: `take` is modelled as a natural number. `Number(take)` of a non-numeric, fractional or negative string (NaN or a negative page size) is not modelled.
- **Case folding.** Lower-casing and the case-insensitive `contains` fold ASCII letters only. Unicode case mapping is left out.
- Client.SectionBeforeIsTotalPreorder: names are compared in code-point order, not by `localeCompare`, which depends on the locale.
- **Whitespace.** Trimming uses JavaScript's whitespace set as a fixed list of characters.
- Env.ParseNumber: only blank text and optionally signed decimal digits are read. Every other `Number` syntax gives "not an integer": hexadecimal, exponents, fractions and `Infinity`, even where the source reads an integer (`"1.0"`, `"1e3"`, `"0x10"`).
- Retention.PurgeDays: a configured window that is a number but not an integer (`RETENTION_DAYS="1.5"`) gives, in the source, a cutoff that `new Date` truncates to whole milliseconds, and the purge goes ahead. The model has no fractional numbers and answers `Failed` for such a window, as the source does for one that is not a number.
- **JSON type mismatches.** A number sent where a string is expected is not representable in the request body types. Only missing, `null` and well-typed values are modelled.
- **Outside the core.** These routes are not modelled:
  - `GET /admin/users` and `DELETE /admin/users/:id`;
  - the category routes, and the section delete;
  - `/me`, the web UI and the bootstrap of the first administrator.
- **Client interface.** These parts are not modelled:
  - rendering, keyboard shortcuts and the connection banner;
  - the 1.5-second autosave debounce, so a save is the `SaveSelected` step followed, when the server accepts it, by the `RefreshEntries` step, as in the handler; a create is `SubmitNew` followed, once the server answers, by `CreateAnswered`, which refreshes before it selects;
  - the client's `deleteSelected` and `restoreSelected`, which only call the routes modelled by `EntryStore.SoftDelete`, `Restore` and `HardDelete` and then refresh;
  - copying the selected row into the editor, other than its tag text (`TagText`).
