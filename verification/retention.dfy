/**
 * The retention purge of POST /admin/retention/purge: the window in days,
 * the cutoff it gives, and the bulk removal of every entry, of any owner,
 * soft-deleted before the cutoff.
 */
module Retention {

  import opened Wrappers
  import opened Seqs
  import opened Entries

  /** Milliseconds in a day, `24 * 60 * 60 * 1000`. */
  const DayMillis: int := 86_400_000

  /** The largest window the request body may ask for. */
  const MaxDays: int := 3650

  /** The `deleteMany` predicate `deletedAt: { not: null, lt: cutoff }`; the bound is strict. */
  predicate Expired(cutoff: Millis, e: Entry) {
    e.deletedAt.Some? && e.deletedAt.value < cutoff
  }

  /**
   * The window: the body's `days`, which must be an integer in [1, 3650]
   * when sent (`null` and other values are refused), or else the configured
   * `retentionDays`, unchecked; a configured value that is not an integer
   * makes the purge fail.
   */
  function PurgeDays(days: Field<Num>, envDays: Num): (r: Result<int, ApiError>)
    ensures r.Ok? && days.Present? ==> days.value == Integral(r.value) && 1 <= r.value <= MaxDays
    ensures r.Ok? && !days.Present? ==> days.Absent? && envDays == Integral(r.value)
    ensures days.Present? && days.value.Integral? && 1 <= days.value.n <= MaxDays ==> r.Ok?
    ensures days.Absent? && envDays.Integral? ==> r.Ok?
    ensures r.Err? ==> r.error == (if days.Absent? then Failed else Invalid)
  {
    match days
    case Absent => if envDays.Integral? then Ok(envDays.n) else Err(Failed)
    case Null => Err(Invalid)
    case Present(Integral(n)) => if 1 <= n <= MaxDays then Ok(n) else Err(Invalid)
    case Present(NotInteger) => Err(Invalid)
  }

  /** `now - days * 24 * 60 * 60 * 1000`. */
  function Cutoff(now: Millis, days: int): (c: Millis)
    ensures days >= 1 ==> c < now
    ensures c + days * DayMillis == now
  {
    now - days * DayMillis
  }

  /** The largest distance from the epoch, in milliseconds, that a `Date` can hold. */
  const MaxTime: int := 8_640_000_000_000_000

  /** A time a `Date` can hold; outside it `new Date` is an Invalid Date. */
  predicate InDateRange(t: int) {
    -MaxTime <= t <= MaxTime
  }

  /**
   * The cutoff the route compares against. A window outside the `Date`
   * range gives an Invalid Date, on which `deleteMany` throws, and the
   * purge fails.
   */
  function PurgeCutoff(days: Field<Num>, envDays: Num, now: Millis): (r: Result<Millis, ApiError>)
    ensures r.Ok? <==> PurgeDays(days, envDays).Ok? && InDateRange(Cutoff(now, PurgeDays(days, envDays).value))
    ensures r.Ok? ==> r.value == Cutoff(now, PurgeDays(days, envDays).value)
    ensures r.Err? && PurgeDays(days, envDays).Err? ==> r.error == PurgeDays(days, envDays).error
    ensures r.Err? && PurgeDays(days, envDays).Ok? ==> r.error == Failed
  {
    match PurgeDays(days, envDays)
    case Err(e) => Err(e)
    case Ok(n) => if InDateRange(Cutoff(now, n)) then Ok(Cutoff(now, n)) else Err(Failed)
  }

  /**
   * A window the body may send never leaves the `Date` range while the
   * clock is after the epoch, so only the configured window can fail this way.
   */
  lemma SentWindowInRange(n: int, envDays: Num, now: Millis)
    requires 0 <= now <= MaxTime && 1 <= n <= MaxDays
    ensures PurgeCutoff(Present(Integral(n)), envDays, now) == Ok(now - n * DayMillis)
  {
    assert n * DayMillis <= MaxDays * DayMillis;
  }

  /** A configured window so large that the cutoff falls before the range makes the purge fail. */
  lemma HugeWindowFails(n: int, now: Millis)
    requires 0 <= now && n * DayMillis > now + MaxTime
    ensures PurgeCutoff(Absent, Integral(n), now) == Err(Failed)
  {
  }

  /** The number of rows the purge removes. */
  function CountExpired(entries: seq<Entry>, cutoff: Millis): (n: nat)
    ensures n <= |entries|
  {
    if entries == [] then 0
    else (if Expired(cutoff, entries[0]) then 1 else 0) + CountExpired(entries[1..], cutoff)
  }

  /**
   * The tables after the purge: the expired rows removed with their links,
   * everything else kept in order. Live rows and rows deleted exactly at the
   * cutoff stay.
   */
  function PurgeTables(t: Tables, cutoff: Millis): (r: Tables)
    ensures r.tags == t.tags && r.nextId == t.nextId
    ensures forall e :: e in r.entries <==> e in t.entries && !Expired(cutoff, e)
    ensures forall e :: e in t.entries && e.deletedAt.None? ==> e in r.entries
    ensures forall e :: e in t.entries && e.deletedAt == Some(cutoff) ==> e in r.entries
    ensures IsSubseq(r.entries, t.entries)
    ensures forall l :: l in r.links ==> l in t.links
    ensures forall l :: l in t.links && l.entryId in EntryIds(r.entries) ==> l in r.links
  {
    var kept := Filter(t.entries, (e: Entry) => !Expired(cutoff, e));
    FilterIsSubseq(t.entries, (e: Entry) => !Expired(cutoff, e));
    t.(entries := kept, links := Filter(t.links, (l: EntryTag) => l.entryId in EntryIds(kept)))
  }

  /** The count reported is the number of rows that disappear. */
  lemma {:induction false} PurgeCountsRemoved(entries: seq<Entry>, cutoff: Millis)
    ensures |Filter(entries, (e: Entry) => !Expired(cutoff, e))| + CountExpired(entries, cutoff) == |entries|
  {
    if entries != [] {
      PurgeCountsRemoved(entries[1..], cutoff);
    }
  }

  /** Nothing expired is left, so a second purge with the same cutoff removes nothing. */
  lemma PurgeIdempotent(t: Tables, cutoff: Millis)
    requires Consistent(t)
    ensures var once := PurgeTables(t, cutoff);
      CountExpired(once.entries, cutoff) == 0 && PurgeTables(once, cutoff) == once
  {
    var once := PurgeTables(t, cutoff);
    NoneExpired(once.entries, cutoff);
    FilterAll(once.entries, (e: Entry) => !Expired(cutoff, e));
    PurgeConsistent(t, cutoff);
    FilterAll(once.links, (l: EntryTag) => l.entryId in EntryIds(once.entries));
  }

  lemma {:induction false} NoneExpired(entries: seq<Entry>, cutoff: Millis)
    requires forall e :: e in entries ==> !Expired(cutoff, e)
    ensures CountExpired(entries, cutoff) == 0
  {
    if entries != [] {
      assert entries[0] in entries;
      NoneExpired(entries[1..], cutoff);
    }
  }

  /** The purge keeps every uniqueness constraint and foreign key. */
  lemma PurgeConsistent(t: Tables, cutoff: Millis)
    requires Consistent(t)
    ensures Consistent(PurgeTables(t, cutoff))
  {
    var r := PurgeTables(t, cutoff);
    forall i, j | 0 <= i < j < |r.entries| ensures r.entries[i].id != r.entries[j].id {
      FilterKeepsDistinct(t.entries, (e: Entry) => !Expired(cutoff, e), (e: Entry) => e.id, i, j);
    }
    forall i, j | 0 <= i < j < |r.links| ensures r.links[i] != r.links[j] {
      FilterKeepsDistinct(t.links, (l: EntryTag) => l.entryId in EntryIds(r.entries), (l: EntryTag) => l, i, j);
    }
  }
}
