/**
 * The writes of the entry routes as functions on the tables: the create with
 * its tag reconciliation, the sparse update with its tag replace, and the
 * tombstone lifecycle (soft delete, restore, hard delete). Each is applied
 * only to a row the caller owns; the store class performs them in place.
 */
module EntryWrites {

  import opened Wrappers
  import opened Text
  import opened Seqs
  import opened Entries
  import opened TagReconcile

  /** `entry.findFirst({ where: { id, userId } })`: the caller's row with that id, deleted or not. */
  function FindOwned(entries: seq<Entry>, userId: UserId, id: EntryId): (r: Option<Entry>)
    ensures r.Some? ==> r.value in entries && r.value.id == id && r.value.userId == userId
    ensures r.None? ==> forall e :: e in entries ==> e.id != id || e.userId != userId
  {
    if entries == [] then None
    else if entries[0].id == id && entries[0].userId == userId then Some(entries[0])
    else FindOwned(entries[1..], userId, id)
  }

  /** The `data` of an `entry.update`: a tombstone change, or the sparse fields of PATCH. */
  datatype RowWrite = SetDeletedAt(deletedAt: Option<Millis>, now: Millis) | Patch(body: EntryBody, now: Millis)

  /** A row after a write; every update stamps `updatedAt` and keeps identity, owner and creation time. */
  function Apply(w: RowWrite, e: Entry): (r: Entry)
    ensures r.id == e.id && r.userId == e.userId && r.createdAt == e.createdAt && r.updatedAt == w.now
    ensures w.SetDeletedAt? ==> r == e.(deletedAt := w.deletedAt, updatedAt := w.now)
  {
    match w
    case SetDeletedAt(d, now) => e.(deletedAt := d, updatedAt := now)
    case Patch(b, now) => PatchEntry(e, b, now)
  }

  /** `entry.update({ where: { id }, data })`: the row with that id rewritten, the others kept. */
  function UpdateRow(entries: seq<Entry>, id: EntryId, w: RowWrite): (r: seq<Entry>)
    ensures |r| == |entries|
    ensures forall k :: 0 <= k < |r| ==> r[k].id == entries[k].id
    ensures forall k :: 0 <= k < |r| && entries[k].id != id ==> r[k] == entries[k]
    ensures forall k :: 0 <= k < |r| && entries[k].id == id ==> r[k] == Apply(w, entries[k])
  {
    if entries == [] then []
    else [if entries[0].id == id then Apply(w, entries[0]) else entries[0]] + UpdateRow(entries[1..], id, w)
  }

  lemma UpdateRowIds(entries: seq<Entry>, id: EntryId, w: RowWrite)
    ensures EntryIds(UpdateRow(entries, id, w)) == EntryIds(entries)
  {
    var r := UpdateRow(entries, id, w);
    forall x | x in EntryIds(r) ensures x in EntryIds(entries) {
      var e :| e in r && e.id == x;
      var k :| 0 <= k < |r| && r[k] == e;
      assert entries[k] in entries;
    }
    forall x | x in EntryIds(entries) ensures x in EntryIds(r) {
      var e :| e in entries && e.id == x;
      var k :| 0 <= k < |entries| && entries[k] == e;
      assert r[k] in r;
    }
  }

  /** A row update keeps every constraint: identifiers and links are untouched. */
  lemma UpdateRowConsistent(t: Tables, id: EntryId, w: RowWrite)
    requires Consistent(t)
    ensures Consistent(t.(entries := UpdateRow(t.entries, id, w)))
  {
    var r := UpdateRow(t.entries, id, w);
    UpdateRowIds(t.entries, id, w);
    forall e | e in r ensures e.id < t.nextId {
      var k :| 0 <= k < |r| && r[k] == e;
      assert t.entries[k] in t.entries;
    }
  }

  // ---------------------------------------------------------------------------
  // Create

  /** `entry.create`: the row appended under the next identifier. */
  function Insert(t: Tables, e: Entry): (r: Tables)
    ensures r.tags == t.tags && r.links == t.links && r.nextId == t.nextId + 1
    ensures forall x :: x in r.entries <==> x in t.entries || x == e
  {
    t.(entries := t.entries + [e], nextId := t.nextId + 1)
  }

  /** The tables after POST /entries: the row inserted, then its tags reconciled. */
  function CreateTables(t: Tables, userId: UserId, b: EntryBody, now: Millis): Tables
    requires ValidCreateBody(b)
  {
    Reconcile(Insert(t, NewEntry(t.nextId, userId, b, now)), userId, t.nextId, CreateTags(b))
  }

  /** Inserting under the next identifier keeps the tables consistent; the new row has no links yet. */
  lemma InsertConsistent(t: Tables, e: Entry)
    requires Consistent(t) && e.id == t.nextId
    ensures Consistent(Insert(t, e))
    ensures e.id !in EntryIds(t.entries) && e.id in EntryIds(Insert(t, e).entries)
    ensures LinkedNames(Insert(t, e), e.id) == {}
  {
    var t1 := Insert(t, e);
    assert EntryIds(t.entries) <= EntryIds(t1.entries);
    assert e in t1.entries;
  }

  /**
   * A create appends exactly the new row, owned by the caller and live, under
   * an identifier no row had, keeps every earlier link, and links the row to
   * one tag per trimmed requested name.
   */
  lemma CreateTablesEffect(t: Tables, userId: UserId, b: EntryBody, now: Millis)
    requires Consistent(t) && ValidCreateBody(b)
    ensures var r := CreateTables(t, userId, b, now);
      && r.entries == t.entries + [NewEntry(t.nextId, userId, b, now)]
      && t.nextId !in EntryIds(t.entries)
      && LinkedNames(r, t.nextId) == TrimmedNames(CreateTags(b))
      && (forall l :: l in t.links ==> l in r.links)
  {
    var e := NewEntry(t.nextId, userId, b, now);
    InsertConsistent(t, e);
    ReconcileOnlyAddsLinks(Insert(t, e), userId, t.nextId, CreateTags(b));
    ReconcileLinkedNames(Insert(t, e), userId, t.nextId, CreateTags(b));
  }

  /** A create keeps every uniqueness constraint and foreign key. */
  lemma CreateTablesConsistent(t: Tables, userId: UserId, b: EntryBody, now: Millis)
    requires Consistent(t) && ValidCreateBody(b)
    ensures Consistent(CreateTables(t, userId, b, now))
  {
    var e := NewEntry(t.nextId, userId, b, now);
    InsertConsistent(t, e);
    ReconcileConsistent(Insert(t, e), userId, t.nextId, CreateTags(b));
  }

  // ---------------------------------------------------------------------------
  // Update

  /** The tables after PATCH /entries/:id: the sparse row update, then the tag replace when a list is sent. */
  function PatchTables(t: Tables, userId: UserId, id: EntryId, b: EntryBody, now: Millis): Tables {
    var t1 := t.(entries := UpdateRow(t.entries, id, Patch(b, now)));
    if b.tags.Present? then ReplaceTags(t1, userId, id, b.tags.value) else t1
  }

  /**
   * An update rewrites only the row with that id, as `PatchEntry` says; with
   * a tag list the row ends up linked to exactly its trimmed names (none for
   * `[]`), without one the tag and link tables are untouched. Either way the
   * links of every other entry are kept and none is added to them, and the
   * only tags added are the caller's, named by the list.
   */
  lemma PatchTablesEffect(t: Tables, userId: UserId, id: EntryId, b: EntryBody, now: Millis)
    requires Consistent(t) && FindOwned(t.entries, userId, id).Some?
    ensures var r := PatchTables(t, userId, id, b, now);
      && Consistent(r)
      && r.entries == UpdateRow(t.entries, id, Patch(b, now))
      && (b.tags.Present? ==> LinkedNames(r, id) == TrimmedNames(b.tags.value))
      && (!b.tags.Present? ==> r.tags == t.tags && r.links == t.links)
      && (forall l :: l in t.links && l.entryId != id ==> l in r.links)
      && (forall l :: l in r.links && l.entryId != id ==> l in t.links)
      && |t.tags| <= |r.tags| && (forall k :: 0 <= k < |t.tags| ==> r.tags[k] == t.tags[k])
      && (forall k :: |t.tags| <= k < |r.tags| ==>
            b.tags.Present? && r.tags[k].userId == userId && r.tags[k].name in TrimmedNames(b.tags.value))
  {
    var t1 := t.(entries := UpdateRow(t.entries, id, Patch(b, now)));
    UpdateRowConsistent(t, id, Patch(b, now));
    UpdateRowIds(t.entries, id, Patch(b, now));
    if b.tags.Present? {
      var found := FindOwned(t.entries, userId, id).value;
      assert id in EntryIds(t1.entries);
      ReplaceTagsLinkedNames(t1, userId, id, b.tags.value);
      UnlinkAllConsistent(t1, id);
      ReconcileConsistent(UnlinkAll(t1, id), userId, id, b.tags.value);
      ReconcileOnlyAddsLinks(UnlinkAll(t1, id), userId, id, b.tags.value);
      ReconcileOnlyAddsTags(UnlinkAll(t1, id), userId, id, b.tags.value);
    }
  }

  /**
   * Sending the same tag list in a second update leaves the entry linked to
   * the same names and creates no tag: the first update already created
   * every tag the list names.
   */
  lemma PatchTwiceSameTags(t: Tables, userId: UserId, id: EntryId, b: EntryBody, now: Millis, now': Millis)
    requires Consistent(t) && FindOwned(t.entries, userId, id).Some? && b.tags.Present?
    ensures var once := PatchTables(t, userId, id, b, now);
      var twice := PatchTables(once, userId, id, b, now');
      && LinkedNames(twice, id) == LinkedNames(once, id)
      && twice.tags == once.tags && twice.nextId == once.nextId
  {
    var names := b.tags.value;
    PatchTablesEffect(t, userId, id, b, now);
    var once := PatchTables(t, userId, id, b, now);
    var e := FindOwned(t.entries, userId, id).value;
    var k :| 0 <= k < |t.entries| && t.entries[k] == e;
    assert once.entries[k] in once.entries;
    PatchTablesEffect(once, userId, id, b, now');
    var t1 := t.(entries := UpdateRow(t.entries, id, Patch(b, now)));
    ReconcileLinksAll(UnlinkAll(t1, id), userId, id, names);
    var u := UnlinkAll(once.(entries := UpdateRow(once.entries, id, Patch(b, now'))), id);
    forall n | n in names ensures FindTag(u.tags, userId, Trim(n)).Some? {
      LinkedIsFound(once, userId, id, Trim(n));
    }
    ReconcileKnownTagsKeepsTags(u, userId, id, names);
  }

  // ---------------------------------------------------------------------------
  // Soft delete, restore, hard delete

  /** DELETE /entries/:id: `deletedAt` set to now. */
  function SoftDeleteTables(t: Tables, id: EntryId, now: Millis): Tables {
    t.(entries := UpdateRow(t.entries, id, SetDeletedAt(Some(now), now)))
  }

  /** POST /entries/:id/restore: `deletedAt` set to null. */
  function RestoreTables(t: Tables, id: EntryId, now: Millis): Tables {
    t.(entries := UpdateRow(t.entries, id, SetDeletedAt(None, now)))
  }

  /** DELETE /entries/:id/hard: the row removed, its links with it. */
  function HardDeleteTables(t: Tables, id: EntryId): (r: Tables)
    ensures r.tags == t.tags && r.nextId == t.nextId
    ensures forall e :: e in r.entries <==> e in t.entries && e.id != id
    ensures forall l :: l in r.links <==> l in t.links && l.entryId != id
  {
    t.(entries := Filter(t.entries, (e: Entry) => e.id != id),
       links := Filter(t.links, (l: EntryTag) => l.entryId != id))
  }

  /**
   * Soft delete stamps the row with the current time even when it was
   * already deleted, and the row is still found by its owner afterwards.
   */
  lemma SoftDeleteRestamps(t: Tables, userId: UserId, id: EntryId, now: Millis)
    requires FindOwned(t.entries, userId, id).Some?
    ensures var r := SoftDeleteTables(t, id, now);
      && FindOwned(r.entries, userId, id).Some?
      && forall e :: e in r.entries && e.id == id ==> e.deletedAt == Some(now)
  {
    var r := SoftDeleteTables(t, id, now);
    var e :| e in t.entries && e.id == id && e.userId == userId;
    var k :| 0 <= k < |t.entries| && t.entries[k] == e;
    assert r.entries[k] in r.entries;
  }

  /** After a soft delete the row is in no list without the deleted-view flag. */
  lemma SoftDeleteHidesFromLiveView(t: Tables, id: EntryId, now: Millis, userId: UserId, p: ListParams)
    requires !IncludesDeleted(p)
    ensures forall v :: v in ListEntries(SoftDeleteTables(t, id, now), userId, p) ==> v.id != id
  {
    var r := SoftDeleteTables(t, id, now);
    forall v | v in ListEntries(r, userId, p) ensures v.id != id {
      var e :| e in r.entries && Matches(userId, p, e) && v == ViewOf(r, e);
      var k :| 0 <= k < |r.entries| && r.entries[k] == e;
    }
  }

  /**
   * Restore revives a row for the live view under exactly the conditions
   * under which the deleted view showed it (apart from its new `updatedAt`).
   */
  lemma RestoreShowsInLiveView(userId: UserId, p: ListParams, e: Entry, now: Millis)
    ensures Matches(userId, p, Apply(SetDeletedAt(None, now), e))
        <==> Matches(userId, p.(includeDeleted := Some("true")), e)
  {
  }

  /** Restore clears the tombstone of the row, whether or not it was set. */
  lemma RestoreClears(t: Tables, id: EntryId, now: Millis)
    ensures forall e :: e in RestoreTables(t, id, now).entries && e.id == id ==> e.deletedAt.None?
  {
    var r := RestoreTables(t, id, now);
    forall e | e in r.entries && e.id == id ensures e.deletedAt.None? {
      var k :| 0 <= k < |r.entries| && r.entries[k] == e;
    }
  }

  /**
   * Hard delete removes the row, live or deleted, and every link to it; no
   * list shows it afterwards, and the tables stay consistent.
   */
  lemma HardDeleteEffect(t: Tables, id: EntryId, userId: UserId, p: ListParams)
    requires Consistent(t)
    ensures var r := HardDeleteTables(t, id);
      && Consistent(r)
      && id !in EntryIds(r.entries)
      && (forall v :: v in ListEntries(r, userId, p) ==> v.id != id)
  {
    var r := HardDeleteTables(t, id);
    HardDeleteConsistent(t, id);
    forall v | v in ListEntries(r, userId, p) ensures v.id != id {
      var e :| e in r.entries && Matches(userId, p, e) && v == ViewOf(r, e);
    }
  }

  lemma HardDeleteConsistent(t: Tables, id: EntryId)
    requires Consistent(t)
    ensures Consistent(HardDeleteTables(t, id))
  {
    var r := HardDeleteTables(t, id);
    forall i, j | 0 <= i < j < |r.entries| ensures r.entries[i].id != r.entries[j].id {
      FilterKeepsDistinct(t.entries, (e: Entry) => e.id != id, (e: Entry) => e.id, i, j);
    }
    forall i, j | 0 <= i < j < |r.links| ensures r.links[i] != r.links[j] {
      FilterKeepsDistinct(t.links, (l: EntryTag) => l.entryId != id, (l: EntryTag) => l, i, j);
    }
    forall l | l in r.links ensures l.entryId in EntryIds(r.entries) {
      var e :| e in t.entries && e.id == l.entryId;
    }
  }
}
