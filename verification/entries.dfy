/**
 * The entry engine's data: the entry, tag and entry-tag tables, the bodies
 * of the create and update requests with their validation, and the list
 * query pipeline of GET /entries.
 */
module Entries {

  import opened Wrappers
  import opened Text
  import opened Seqs
  import opened Sorting

  type EntryId = nat
  type TagId = nat
  /** The authenticated subject (`sub` of the access token). */
  type UserId = string
  /** The role carried by the access token. */
  datatype Role = USER | ADMIN

  /** A timestamp in milliseconds. */
  type Millis = int

  datatype Entry = Entry(
    id: EntryId,
    userId: UserId,
    categoryId: string,
    sectionId: Option<string>,
    title: Option<string>,
    promptText: string,
    outputText: string,
    modelUsed: string,
    comments: Option<string>,
    createdAt: Millis,
    updatedAt: Millis,
    deletedAt: Option<Millis>)

  datatype Tag = Tag(id: TagId, userId: UserId, name: string)

  datatype EntryTag = EntryTag(entryId: EntryId, tagId: TagId)

  /** The three tables, in row order, and the next identifier the database hands out. */
  datatype Tables = Tables(entries: seq<Entry>, tags: seq<Tag>, links: seq<EntryTag>, nextId: nat)

  /**
   * How a request fails. `Invalid` is a rejected request body; it reaches the
   * client through the global error handler, which answers 500 because the
   * validation error carries no status code.
   */
  datatype ApiError = Invalid | Forbidden | NotFound | Failed

  function EntryIds(entries: seq<Entry>): set<EntryId> {
    set e | e in entries :: e.id
  }

  function TagIds(tags: seq<Tag>): set<TagId> {
    set g | g in tags :: g.id
  }

  /**
   * The uniqueness constraints of the schema, the identifier supply and the
   * foreign keys of the link table.
   */
  ghost predicate Consistent(t: Tables) {
    && (forall i, j :: 0 <= i < j < |t.entries| ==> t.entries[i].id != t.entries[j].id)
    && (forall i, j :: 0 <= i < j < |t.tags| ==> t.tags[i].id != t.tags[j].id)
    && (forall i, j :: 0 <= i < j < |t.tags| ==>
          t.tags[i].userId != t.tags[j].userId || t.tags[i].name != t.tags[j].name)
    && (forall i, j :: 0 <= i < j < |t.links| ==> t.links[i] != t.links[j])
    && (forall e :: e in t.entries ==> e.id < t.nextId)
    && (forall g :: g in t.tags ==> g.id < t.nextId)
    && (forall l :: l in t.links ==> l.entryId in EntryIds(t.entries) && l.tagId in TagIds(t.tags))
  }

  // ---------------------------------------------------------------------------
  // Request bodies

  /** The JSON body of POST /entries and PATCH /entries/:id. */
  datatype EntryBody = EntryBody(
    categoryId: Field<string>,
    sectionId: Field<string>,
    title: Field<string>,
    promptText: Field<string>,
    outputText: Field<string>,
    modelUsed: Field<string>,
    comments: Field<string>,
    tags: Field<seq<string>>)

  /** A required string of at least one character. */
  predicate FilledIn(f: Field<string>) {
    f.Present? && f.value != ""
  }

  /** An optional string that, when sent, has at least one character (`null` is refused). */
  predicate FilledInIfSent(f: Field<string>) {
    f.Absent? || FilledIn(f)
  }

  /** An optional list of tag names, each of at least one character (`null` is refused). */
  predicate TagsAccepted(f: Field<seq<string>>) {
    f.Absent? || (f.Present? && forall k :: 0 <= k < |f.value| ==> f.value[k] != "")
  }

  /** The create schema: four required non-empty strings and non-empty tag names. */
  predicate ValidCreateBody(b: EntryBody) {
    && FilledIn(b.categoryId)
    && FilledIn(b.promptText)
    && FilledIn(b.outputText)
    && FilledIn(b.modelUsed)
    && TagsAccepted(b.tags)
  }

  /** The update schema: the create schema with every field optional. */
  predicate ValidUpdateBody(b: EntryBody) {
    && FilledInIfSent(b.categoryId)
    && FilledInIfSent(b.promptText)
    && FilledInIfSent(b.outputText)
    && FilledInIfSent(b.modelUsed)
    && TagsAccepted(b.tags)
  }

  /** The tag names of a create request; a missing list defaults to none. */
  function CreateTags(b: EntryBody): seq<string> {
    if b.tags.Present? then b.tags.value else []
  }

  /** `field ?? null` for a nullable column. */
  function OrNull(f: Field<string>): Option<string> {
    if f.Present? then Some(f.value) else None
  }

  /** The row POST /entries inserts. */
  function NewEntry(id: EntryId, userId: UserId, b: EntryBody, now: Millis): (e: Entry)
    requires ValidCreateBody(b)
    ensures e.id == id && e.userId == userId && e.deletedAt == None
    ensures e.createdAt == now && e.updatedAt == now
    ensures e.promptText != "" && e.outputText != "" && e.modelUsed != "" && e.categoryId != ""
    ensures e.categoryId == b.categoryId.value && e.promptText == b.promptText.value
    ensures e.outputText == b.outputText.value && e.modelUsed == b.modelUsed.value
    ensures b.sectionId.Present? ==> e.sectionId == Some(b.sectionId.value)
    ensures !b.sectionId.Present? ==> e.sectionId.None?
    ensures b.title.Present? ==> e.title == Some(b.title.value)
    ensures !b.title.Present? ==> e.title.None?
    ensures b.comments.Present? ==> e.comments == Some(b.comments.value)
    ensures !b.comments.Present? ==> e.comments.None?
  {
    Entry(id, userId, b.categoryId.value, OrNull(b.sectionId), OrNull(b.title),
          b.promptText.value, b.outputText.value, b.modelUsed.value, OrNull(b.comments),
          now, now, None)
  }

  /** `field ?? undefined` on a nullable column: only a sent string replaces the value. */
  function KeepUnlessSent(f: Field<string>, prior: Option<string>): Option<string> {
    if f.Present? then Some(f.value) else prior
  }

  /**
   * The row after PATCH /entries/:id writes its sparse data object, field by
   * field: a sent value is written, a field that is missing or `null` keeps
   * its stored value; identity, owner, creation time and the tombstone are
   * never written, and `updatedAt` becomes the update time.
   */
  function PatchEntry(e: Entry, b: EntryBody, now: Millis): (r: Entry)
    ensures b.categoryId.Present? ==> r.categoryId == b.categoryId.value
    ensures !b.categoryId.Present? ==> r.categoryId == e.categoryId
    ensures b.sectionId.Present? ==> r.sectionId == Some(b.sectionId.value)
    ensures !b.sectionId.Present? ==> r.sectionId == e.sectionId
    ensures b.title.Present? ==> r.title == Some(b.title.value)
    ensures !b.title.Present? ==> r.title == e.title
    ensures b.promptText.Present? ==> r.promptText == b.promptText.value
    ensures !b.promptText.Present? ==> r.promptText == e.promptText
    ensures b.outputText.Present? ==> r.outputText == b.outputText.value
    ensures !b.outputText.Present? ==> r.outputText == e.outputText
    ensures b.modelUsed.Present? ==> r.modelUsed == b.modelUsed.value
    ensures !b.modelUsed.Present? ==> r.modelUsed == e.modelUsed
    ensures b.comments.Present? ==> r.comments == Some(b.comments.value)
    ensures !b.comments.Present? ==> r.comments == e.comments
    ensures r.id == e.id && r.userId == e.userId && r.createdAt == e.createdAt
    ensures r.deletedAt == e.deletedAt && r.updatedAt == now
  {
    e.(categoryId := b.categoryId.OrElse(e.categoryId),
       sectionId := KeepUnlessSent(b.sectionId, e.sectionId),
       title := KeepUnlessSent(b.title, e.title),
       promptText := b.promptText.OrElse(e.promptText),
       outputText := b.outputText.OrElse(e.outputText),
       modelUsed := b.modelUsed.OrElse(e.modelUsed),
       comments := KeepUnlessSent(b.comments, e.comments),
       updatedAt := now)
  }

  /**
   * `null` is the same as a missing field: for the section, the title and
   * the comments each, whatever the rest of the body holds.
   */
  lemma PatchNullIsAbsent(e: Entry, b: EntryBody, now: Millis)
    ensures PatchEntry(e, b.(sectionId := Null), now) == PatchEntry(e, b.(sectionId := Absent), now)
    ensures PatchEntry(e, b.(title := Null), now) == PatchEntry(e, b.(title := Absent), now)
    ensures PatchEntry(e, b.(comments := Null), now) == PatchEntry(e, b.(comments := Absent), now)
  {
  }

  /** No update can clear a title, a section or comments once set. */
  lemma PatchCannotClear(e: Entry, b: EntryBody, now: Millis)
    ensures var r := PatchEntry(e, b, now);
      && (e.title.Some? ==> r.title.Some?)
      && (e.sectionId.Some? ==> r.sectionId.Some?)
      && (e.comments.Some? ==> r.comments.Some?)
  {
  }

  /** An accepted update never empties a required text. */
  lemma PatchKeepsRequiredFilled(e: Entry, b: EntryBody, now: Millis)
    requires ValidUpdateBody(b)
    requires e.promptText != "" && e.outputText != "" && e.modelUsed != "" && e.categoryId != ""
    ensures var r := PatchEntry(e, b, now);
      r.promptText != "" && r.outputText != "" && r.modelUsed != "" && r.categoryId != ""
  {
  }

  /** Repeating an update with the same body and time changes nothing more. */
  lemma PatchIdempotent(e: Entry, b: EntryBody, now: Millis)
    ensures PatchEntry(PatchEntry(e, b, now), b, now) == PatchEntry(e, b, now)
  {
  }

  // ---------------------------------------------------------------------------
  // The list query

  /** The query string of GET /entries. */
  datatype ListParams = ListParams(
    query: Option<string>,
    categoryId: Option<string>,
    sectionId: Option<string>,
    tag: Option<string>,
    includeDeleted: Option<string>,
    take: Option<nat>)

  /** A query parameter that is present and, as a JavaScript value, truthy. */
  predicate Given(o: Option<string>) {
    o.Some? && o.value != ""
  }

  /** The deleted-view flag is on only for the exact string "true". */
  predicate IncludesDeleted(p: ListParams) {
    p.includeDeleted == Some("true")
  }

  /** `Math.min(take ?? 100, 500)`. */
  function TakeCap(p: ListParams): (n: nat)
    ensures n <= 500
    ensures p.take.None? ==> n == 100
    ensures p.take.Some? ==> n == if p.take.value < 500 then p.take.value else 500
  {
    var n := p.take.GetOr(100);
    if n < 500 then n else 500
  }

  /** The free-text search: the title, the prompt or the output contains the query. */
  predicate TextMatches(e: Entry, q: string) {
    || (e.title.Some? && ContainsInsensitive(e.title.value, q))
    || ContainsInsensitive(e.promptText, q)
    || ContainsInsensitive(e.outputText, q)
  }

  /** The `where` object of the list query. */
  predicate Matches(userId: UserId, p: ListParams, e: Entry) {
    && e.userId == userId
    && (!IncludesDeleted(p) ==> e.deletedAt.None?)
    && (Given(p.categoryId) ==> e.categoryId == p.categoryId.value)
    && (Given(p.sectionId) ==> e.sectionId == Some(p.sectionId.value))
    && (Given(p.query) ==> TextMatches(e, p.query.value))
  }

  /** `orderBy: { updatedAt: 'desc' }`. */
  predicate NewerOrSame(a: Entry, b: Entry) {
    a.updatedAt >= b.updatedAt
  }

  lemma NewerOrSameIsPreorder()
    ensures IsTotalPreorder(NewerOrSame)
  {
  }

  /** The rows meeting the `where` object, in table order. */
  function Matching(t: Tables, userId: UserId, p: ListParams): (r: seq<Entry>)
    ensures forall e :: e in r <==> e in t.entries && Matches(userId, p, e)
  {
    Filter(t.entries, e => Matches(userId, p, e))
  }

  /** The matching rows, each exactly as often as in the table, newest first (ties in table order). */
  function Candidates(t: Tables, userId: UserId, p: ListParams): (r: seq<Entry>)
    ensures multiset(r) == multiset(Matching(t, userId, p))
    ensures forall e :: e in r <==> e in t.entries && Matches(userId, p, e)
    ensures SortedBy(r, NewerOrSame)
  {
    NewerOrSameIsPreorder();
    var m := Matching(t, userId, p);
    var r := SortBy(m, NewerOrSame);
    SameMultisetSameMembers(r, m);
    r
  }

  /** The rows the database returns: the newest `TakeCap(p)` matching rows, none repeated. */
  function Window(t: Tables, userId: UserId, p: ListParams): (r: seq<Entry>)
    ensures |r| <= TakeCap(p)
    ensures multiset(r) <= multiset(Matching(t, userId, p))
    ensures forall e :: e in r ==> e in t.entries && Matches(userId, p, e)
    ensures SortedBy(r, NewerOrSame)
  {
    var c := Candidates(t, userId, p);
    var r := FirstN(c, TakeCap(p));
    assert c == r + c[|r|..];
    r
  }

  /**
   * The window is the top of the ordering: a matching row left out of it
   * means the window is full and holds only rows at least as new.
   */
  lemma {:induction false} WindowIsNewest(t: Tables, userId: UserId, p: ListParams, e: Entry)
    requires e in t.entries && Matches(userId, p, e)
    requires e !in Window(t, userId, p)
    ensures |Window(t, userId, p)| == TakeCap(p)
    ensures forall w :: w in Window(t, userId, p) ==> w.updatedAt >= e.updatedAt
  {
    var c := Candidates(t, userId, p);
    var w := Window(t, userId, p);
    var j :| 0 <= j < |c| && c[j] == e;
    assert j >= |w|;
    forall x | x in w ensures x.updatedAt >= e.updatedAt {
      var i :| 0 <= i < |w| && w[i] == x;
      assert c[i] == x && NewerOrSame(c[i], c[j]);
    }
  }

  /** Every matching row is in the window when there are no more of them than the cap. */
  lemma WindowComplete(t: Tables, userId: UserId, p: ListParams, e: Entry)
    requires e in t.entries && Matches(userId, p, e)
    requires |Matching(t, userId, p)| <= TakeCap(p)
    ensures e in Window(t, userId, p)
  {
    assert |multiset(Candidates(t, userId, p))| == |multiset(Matching(t, userId, p))|;
  }

  // ---------------------------------------------------------------------------
  // The response rows

  datatype TagRef = TagRef(id: TagId, name: string)

  /** An entry as the list response carries it, with its tags resolved. */
  datatype EntryView = EntryView(
    id: EntryId,
    title: Option<string>,
    promptText: string,
    outputText: string,
    modelUsed: string,
    comments: Option<string>,
    categoryId: string,
    sectionId: Option<string>,
    createdAt: Millis,
    updatedAt: Millis,
    deletedAt: Option<Millis>,
    tags: seq<TagRef>)

  function FindTagById(tags: seq<Tag>, id: TagId): (r: Option<Tag>)
    ensures r.Some? ==> r.value in tags && r.value.id == id
    ensures r.None? ==> id !in TagIds(tags)
  {
    if tags == [] then None
    else if tags[0].id == id then Some(tags[0])
    else FindTagById(tags[1..], id)
  }

  /** The tags linked to entry `id`, in link-table order. */
  function TagRefs(links: seq<EntryTag>, tags: seq<Tag>, id: EntryId): (r: seq<TagRef>)
    ensures forall k :: 0 <= k < |r| ==>
      EntryTag(id, r[k].id) in links && exists g :: g in tags && g.id == r[k].id && g.name == r[k].name
  {
    if links == [] then []
    else
      var rest := TagRefs(links[1..], tags, id);
      if links[0].entryId == id then
        match FindTagById(tags, links[0].tagId)
        case Some(g) => [TagRef(g.id, g.name)] + rest
        case None => rest
      else rest
  }

  /** With distinct tag ids, the lookup by id finds the very tag. */
  lemma FindTagByIdOfMember(tags: seq<Tag>, g: Tag)
    requires g in tags
    requires forall i, j :: 0 <= i < j < |tags| ==> tags[i].id != tags[j].id
    ensures FindTagById(tags, g.id) == Some(g)
  {
    assert g.id in TagIds(tags);
    var f := FindTagById(tags, g.id).value;
    var i :| 0 <= i < |tags| && tags[i] == g;
    var j :| 0 <= j < |tags| && tags[j] == f;
    assert i == j;
  }

  /** Every tag linked to the entry is reported, when tag ids are distinct. */
  lemma {:induction false} TagRefsComplete(links: seq<EntryTag>, tags: seq<Tag>, id: EntryId, g: Tag)
    requires EntryTag(id, g.id) in links && g in tags
    requires forall i, j :: 0 <= i < j < |tags| ==> tags[i].id != tags[j].id
    ensures TagRef(g.id, g.name) in TagRefs(links, tags, id)
    decreases |links|
  {
    if links[0] == EntryTag(id, g.id) {
      FindTagByIdOfMember(tags, g);
    } else {
      assert EntryTag(id, g.id) in links[1..];
      TagRefsComplete(links[1..], tags, id, g);
    }
  }

  function ViewOf(t: Tables, e: Entry): (v: EntryView)
    ensures v.id == e.id && v.updatedAt == e.updatedAt && v.deletedAt == e.deletedAt
  {
    EntryView(e.id, e.title, e.promptText, e.outputText, e.modelUsed, e.comments,
              e.categoryId, e.sectionId, e.createdAt, e.updatedAt, e.deletedAt,
              TagRefs(t.links, t.tags, e.id))
  }

  function Views(t: Tables, es: seq<Entry>): (r: seq<EntryView>)
    ensures |r| == |es| && forall k :: 0 <= k < |es| ==> r[k] == ViewOf(t, es[k])
  {
    if es == [] then [] else [ViewOf(t, es[0])] + Views(t, es[1..])
  }

  /** Some linked tag's name equals `name`, both lower-cased. */
  predicate HasTagNamed(v: EntryView, name: string) {
    exists k :: 0 <= k < |v.tags| && Lower(v.tags[k].name) == Lower(name)
  }

  predicate NewerOrSameView(a: EntryView, b: EntryView) {
    a.updatedAt >= b.updatedAt
  }

  /**
   * The response of GET /entries: the window, then the tag post-filter.
   * Every row comes from a matching entry of the caller, the rows are newest
   * first, there are at most `TakeCap(p)` of them, and with a tag filter each
   * carries a tag of that name.
   */
  function ListEntries(t: Tables, userId: UserId, p: ListParams): (r: seq<EntryView>)
    ensures |r| <= TakeCap(p)
    ensures forall v :: v in r ==> exists e :: e in t.entries && Matches(userId, p, e) && v == ViewOf(t, e)
    ensures SortedBy(r, NewerOrSameView)
    ensures IsSubseq(r, Views(t, Window(t, userId, p)))
    ensures Given(p.tag) ==> forall v :: v in r <==> v in Views(t, Window(t, userId, p)) && HasTagNamed(v, p.tag.value)
    ensures !Given(p.tag) ==> r == Views(t, Window(t, userId, p))
  {
    var views := Views(t, Window(t, userId, p));
    WindowViews(t, userId, p);
    if Given(p.tag) then
      var keep := (v: EntryView) => HasTagNamed(v, p.tag.value);
      FilterSorted(views, keep, NewerOrSameView);
      FilterIsSubseq(views, keep);
      Filter(views, keep)
    else
      SubseqOfItself(views);
      views
  }

  /** The window's rows, as views, keep the window's order and origin. */
  lemma WindowViews(t: Tables, userId: UserId, p: ListParams)
    ensures var views := Views(t, Window(t, userId, p));
      && SortedBy(views, NewerOrSameView)
      && forall v :: v in views ==> exists e :: e in t.entries && Matches(userId, p, e) && v == ViewOf(t, e)
  {
    var w := Window(t, userId, p);
    var views := Views(t, w);
    forall i, j | 0 <= i < j < |views| ensures NewerOrSameView(views[i], views[j]) {
      assert NewerOrSame(w[i], w[j]);
    }
    forall v | v in views ensures exists e :: e in t.entries && Matches(userId, p, e) && v == ViewOf(t, e) {
      var k :| 0 <= k < |views| && views[k] == v;
      assert w[k] in w;
    }
  }

  /** Without the deleted-view flag, only live rows are listed. */
  lemma ListLiveOnly(t: Tables, userId: UserId, p: ListParams)
    requires !IncludesDeleted(p)
    ensures forall v :: v in ListEntries(t, userId, p) ==> v.deletedAt.None?
  {
    forall v | v in ListEntries(t, userId, p) ensures v.deletedAt.None? {
      var e :| e in t.entries && Matches(userId, p, e) && v == ViewOf(t, e);
    }
  }

  /** Only the caller's rows are listed. */
  lemma ListOwnerOnly(t: Tables, userId: UserId, p: ListParams, v: EntryView)
    requires v in ListEntries(t, userId, p)
    ensures exists e :: e in t.entries && e.id == v.id && e.userId == userId
  {
    var e :| e in t.entries && Matches(userId, p, e) && v == ViewOf(t, e);
  }

  /** With a search string, each listed row contains it in its title, prompt or output. */
  lemma ListSearchMatches(t: Tables, userId: UserId, p: ListParams, v: EntryView)
    requires Given(p.query) && v in ListEntries(t, userId, p)
    ensures || (v.title.Some? && ContainsInsensitive(v.title.value, p.query.value))
            || ContainsInsensitive(v.promptText, p.query.value)
            || ContainsInsensitive(v.outputText, p.query.value)
  {
    var e :| e in t.entries && Matches(userId, p, e) && v == ViewOf(t, e);
  }

  /**
   * The deleted-view flag does not select deleted rows: it drops the
   * tombstone condition, so a row matches regardless of its `deletedAt`.
   */
  lemma IncludeDeletedIgnoresTombstone(userId: UserId, p: ListParams, e: Entry, d: Option<Millis>)
    requires IncludesDeleted(p)
    ensures Matches(userId, p, e) == Matches(userId, p, e.(deletedAt := d))
  {
  }

  /** Any value of the flag other than exactly "true" is the live view. */
  lemma OtherFlagValuesAreLiveView(userId: UserId, p: ListParams, e: Entry)
    requires p.includeDeleted != Some("true") && e.deletedAt.Some?
    ensures !Matches(userId, p, e)
  {
  }
}
