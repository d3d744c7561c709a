/**
 * The entry store the route handlers write to: the three tables as fields
 * updated in place, one method per write route, each checking the request
 * and the caller's ownership before it changes anything.
 */
module EntryService {

  import opened Wrappers
  import opened Text
  import opened Seqs
  import opened Entries
  import opened TagReconcile
  import opened EntryWrites
  import opened Retention

  /** The body of a successful purge: the number of rows removed and the cutoff used. */
  datatype PurgeReport = PurgeReport(purged: nat, cutoff: Millis)

  class EntryStore {
    var entries: seq<Entry>
    var tags: seq<Tag>
    var links: seq<EntryTag>
    var nextId: nat

    function State(): Tables
      reads this
    {
      Tables(entries, tags, links, nextId)
    }

    ghost predicate Valid()
      reads this
    {
      Consistent(State())
    }

    constructor()
      ensures Valid() && State() == Tables([], [], [], 0)
    {
      entries := [];
      tags := [];
      links := [];
      nextId := 0;
    }

    /**
     * One iteration of the handler's loop, for the trimmed name `name`: the
     * caller's tag of that name is found or created, then the link from the
     * entry to it is inserted unless present.
     */
    method UpsertTag(userId: UserId, entryId: EntryId, name: string)
      modifies this
      ensures State() == LinkTag(old(State()), userId, entryId, name)
    {
      var tagId: TagId;
      match FindTag(tags, userId, name) {
        case Some(g) =>
          tagId := g.id;
        case None =>
          tagId := nextId;
          tags := tags + [Tag(tagId, userId, name)];
          nextId := nextId + 1;
      }
      var link := EntryTag(entryId, tagId);
      if link !in links {
        links := links + [link];
      }
    }

    /** The loop over the requested tag names, in request order. */
    method UpsertTags(userId: UserId, entryId: EntryId, names: seq<string>)
      requires Valid() && entryId in EntryIds(entries)
      modifies this
      ensures Valid()
      ensures State() == Reconcile(old(State()), userId, entryId, names)
    {
      ghost var t0 := State();
      ReconcileConsistent(t0, userId, entryId, names);
      var i := 0;
      while i < |names|
        invariant 0 <= i <= |names|
        invariant State() == Reconcile(t0, userId, entryId, names[..i])
      {
        ReconcileStep(t0, userId, entryId, names, i);
        UpsertTag(userId, entryId, Trim(names[i]));
        i := i + 1;
      }
      assert names[..|names|] == names;
    }

    /** POST /entries: the body is checked, the row inserted and its tags reconciled. */
    method Create(userId: UserId, b: EntryBody, now: Millis) returns (r: Result<EntryId, ApiError>)
      requires Valid()
      modifies this
      ensures Valid()
      ensures !ValidCreateBody(b) ==> r == Err(Invalid) && State() == old(State())
      ensures ValidCreateBody(b) ==> r == Ok(old(nextId)) && State() == CreateTables(old(State()), userId, b, now)
    {
      if !ValidCreateBody(b) {
        return Err(Invalid);
      }
      ghost var t0 := State();
      var id := nextId;
      var e := NewEntry(id, userId, b, now);
      entries := entries + [e];
      nextId := nextId + 1;
      InsertConsistent(t0, e);
      assert State() == Insert(t0, e);
      UpsertTags(userId, id, CreateTags(b));
      r := Ok(id);
    }

    /**
     * PATCH /entries/:id: the body is checked first, then ownership; the
     * sparse fields are written and, when a tag list is sent, the links are
     * removed and rebuilt from it.
     */
    method Update(userId: UserId, id: EntryId, b: EntryBody, now: Millis) returns (r: Result<(), ApiError>)
      requires Valid()
      modifies this
      ensures Valid()
      ensures !ValidUpdateBody(b) ==> r == Err(Invalid) && State() == old(State())
      ensures ValidUpdateBody(b) && FindOwned(old(entries), userId, id).None? ==>
        r == Err(NotFound) && State() == old(State())
      ensures ValidUpdateBody(b) && FindOwned(old(entries), userId, id).Some? ==>
        r == Ok(()) && State() == PatchTables(old(State()), userId, id, b, now)
    {
      if !ValidUpdateBody(b) {
        return Err(Invalid);
      }
      if FindOwned(entries, userId, id).None? {
        return Err(NotFound);
      }
      WriteRow(id, Patch(b, now));
      if b.tags.Present? {
        ReplaceLinks(userId, id, b.tags.value);
      }
      r := Ok(());
    }

    /** `entry.update({ where: { id }, data })` on the store. */
    method WriteRow(id: EntryId, w: RowWrite)
      requires Valid()
      modifies this
      ensures Valid()
      ensures State() == old(State()).(entries := UpdateRow(old(entries), id, w))
      ensures EntryIds(entries) == EntryIds(old(entries))
    {
      UpdateRowConsistent(State(), id, w);
      UpdateRowIds(entries, id, w);
      entries := UpdateRow(entries, id, w);
    }

    /** The update's tag replace: `entryTag.deleteMany` on the entry, then the upsert loop. */
    method ReplaceLinks(userId: UserId, entryId: EntryId, names: seq<string>)
      requires Valid() && entryId in EntryIds(entries)
      modifies this
      ensures Valid()
      ensures State() == ReplaceTags(old(State()), userId, entryId, names)
    {
      UnlinkAllConsistent(State(), entryId);
      links := Filter(links, (l: EntryTag) => l.entryId != entryId);
      UpsertTags(userId, entryId, names);
    }

    /** DELETE /entries/:id: the caller's row, deleted or not, gets `deletedAt` set to now. */
    method SoftDelete(userId: UserId, id: EntryId, now: Millis) returns (r: Result<(), ApiError>)
      requires Valid()
      modifies this
      ensures Valid()
      ensures FindOwned(old(entries), userId, id).None? ==> r == Err(NotFound) && State() == old(State())
      ensures FindOwned(old(entries), userId, id).Some? ==>
        r == Ok(()) && State() == SoftDeleteTables(old(State()), id, now)
    {
      if FindOwned(entries, userId, id).None? {
        return Err(NotFound);
      }
      WriteRow(id, SetDeletedAt(Some(now), now));
      r := Ok(());
    }

    /** POST /entries/:id/restore: the caller's row gets `deletedAt` cleared. */
    method Restore(userId: UserId, id: EntryId, now: Millis) returns (r: Result<(), ApiError>)
      requires Valid()
      modifies this
      ensures Valid()
      ensures FindOwned(old(entries), userId, id).None? ==> r == Err(NotFound) && State() == old(State())
      ensures FindOwned(old(entries), userId, id).Some? ==>
        r == Ok(()) && State() == RestoreTables(old(State()), id, now)
    {
      if FindOwned(entries, userId, id).None? {
        return Err(NotFound);
      }
      WriteRow(id, SetDeletedAt(None, now));
      r := Ok(());
    }

    /** DELETE /entries/:id/hard: the caller's row, live or deleted, is removed with its links. */
    method HardDelete(userId: UserId, id: EntryId) returns (r: Result<(), ApiError>)
      requires Valid()
      modifies this
      ensures Valid()
      ensures FindOwned(old(entries), userId, id).None? ==> r == Err(NotFound) && State() == old(State())
      ensures FindOwned(old(entries), userId, id).Some? ==>
        r == Ok(()) && State() == HardDeleteTables(old(State()), id)
    {
      if FindOwned(entries, userId, id).None? {
        return Err(NotFound);
      }
      HardDeleteConsistent(State(), id);
      entries := Filter(entries, (e: Entry) => e.id != id);
      links := Filter(links, (l: EntryTag) => l.entryId != id);
      r := Ok(());
    }

    /**
     * POST /admin/retention/purge: only an administrator may purge; the
     * window is checked next; then every row of every owner deleted before
     * the cutoff is removed, and the count reported is the number removed.
     */
    method Purge(role: Role, days: Field<Num>, envDays: Num, now: Millis) returns (r: Result<PurgeReport, ApiError>)
      requires Valid()
      modifies this
      ensures Valid()
      ensures role != ADMIN ==> r == Err(Forbidden) && State() == old(State())
      ensures role == ADMIN && PurgeCutoff(days, envDays, now).Err? ==>
        r == Err(PurgeCutoff(days, envDays, now).error) && State() == old(State())
      ensures role == ADMIN && PurgeCutoff(days, envDays, now).Ok? ==>
        var cutoff := PurgeCutoff(days, envDays, now).value;
        && r == Ok(PurgeReport(CountExpired(old(entries), cutoff), cutoff))
        && State() == PurgeTables(old(State()), cutoff)
    {
      if role != ADMIN {
        return Err(Forbidden);
      }
      var window := PurgeCutoff(days, envDays, now);
      if window.Err? {
        return Err(window.error);
      }
      var cutoff := window.value;
      PurgeConsistent(State(), cutoff);
      PurgeCountsRemoved(entries, cutoff);
      var before := |entries|;
      RemoveExpired(cutoff);
      r := Ok(PurgeReport(before - |entries|, cutoff));
    }

    /** The `deleteMany`: the rows deleted before the cutoff go, and their links with them. */
    method RemoveExpired(cutoff: Millis)
      modifies this`entries, this`links
      ensures State() == PurgeTables(old(State()), cutoff)
    {
      var kept := Filter(entries, (e: Entry) => !Expired(cutoff, e));
      links := Filter(links, (l: EntryTag) => l.entryId in EntryIds(kept));
      entries := kept;
    }
  }
}
