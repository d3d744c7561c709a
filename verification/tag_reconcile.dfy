/**
 * Tag reconciliation of POST /entries and PATCH /entries/:id: each requested
 * name is trimmed, the caller's tag of that name is upserted, and the link
 * between the entry and that tag is upserted.
 */
module TagReconcile {

  import opened Wrappers
  import opened Text
  import opened Seqs
  import opened Entries

  /** The caller's tag named `name`, looked up by the (userId, name) key. */
  function FindTag(tags: seq<Tag>, userId: UserId, name: string): (r: Option<Tag>)
    ensures r.Some? ==> r.value in tags && r.value.userId == userId && r.value.name == name
    ensures r.None? ==> forall g :: g in tags ==> g.userId != userId || g.name != name
  {
    if tags == [] then None
    else if tags[0].userId == userId && tags[0].name == name then Some(tags[0])
    else FindTag(tags[1..], userId, name)
  }

  /** The link upsert: insert the pair unless it is already there. */
  function LinkOnce(links: seq<EntryTag>, l: EntryTag): (r: seq<EntryTag>)
    ensures l in r && forall x :: x in r <==> x in links || x == l
  {
    if l in links then links else links + [l]
  }

  /** One iteration of the handler's loop, for the trimmed name `name`. */
  function LinkTag(t: Tables, userId: UserId, entryId: EntryId, name: string): (r: Tables)
    ensures r.entries == t.entries
    ensures |t.tags| <= |r.tags| <= |t.tags| + 1 && forall k :: 0 <= k < |t.tags| ==> r.tags[k] == t.tags[k]
    ensures |r.tags| == |t.tags| + 1 ==> r.tags[|t.tags|].userId == userId && r.tags[|t.tags|].name == name
    ensures forall l :: l in t.links ==> l in r.links
    ensures forall l :: l in r.links && l !in t.links ==> l.entryId == entryId
    ensures t.nextId <= r.nextId
  {
    match FindTag(t.tags, userId, name)
    case Some(g) => t.(links := LinkOnce(t.links, EntryTag(entryId, g.id)))
    case None =>
      var g := Tag(t.nextId, userId, name);
      t.(tags := t.tags + [g], links := LinkOnce(t.links, EntryTag(entryId, g.id)), nextId := t.nextId + 1)
  }

  function TrimmedNames(names: seq<string>): set<string> {
    set n | n in names :: Trim(n)
  }

  /** One more name adds its trimmed form. */
  lemma TrimmedNamesSnoc(names: seq<string>)
    requires names != []
    ensures TrimmedNames(names) == TrimmedNames(names[..|names| - 1]) + {Trim(names[|names| - 1])}
  {
    var init := names[..|names| - 1];
    assert names == init + [names[|names| - 1]];
    forall x | x in TrimmedNames(names) ensures x in TrimmedNames(init) + {Trim(names[|names| - 1])} {
      var n :| n in names && Trim(n) == x;
    }
  }

  /** The whole loop, name by name in request order. */
  function Reconcile(t: Tables, userId: UserId, entryId: EntryId, names: seq<string>): Tables
    decreases |names|
  {
    if names == [] then t
    else LinkTag(Reconcile(t, userId, entryId, names[..|names| - 1]), userId, entryId, Trim(names[|names| - 1]))
  }

  /** One more name reconciled is one more `LinkTag`. */
  lemma ReconcileStep(t: Tables, userId: UserId, entryId: EntryId, names: seq<string>, i: nat)
    requires i < |names|
    ensures Reconcile(t, userId, entryId, names[..i + 1])
         == LinkTag(Reconcile(t, userId, entryId, names[..i]), userId, entryId, Trim(names[i]))
  {
    assert names[..i + 1][..i] == names[..i];
  }

  /** Reconciliation leaves the entries alone and only adds links, all of them the entry's. */
  lemma {:induction false} ReconcileOnlyAddsLinks(t: Tables, userId: UserId, entryId: EntryId, names: seq<string>)
    ensures var r := Reconcile(t, userId, entryId, names);
      && r.entries == t.entries
      && (forall l :: l in t.links ==> l in r.links)
      && (forall l :: l in r.links && l !in t.links ==> l.entryId == entryId)
      && t.nextId <= r.nextId
    decreases |names|
  {
    if names != [] {
      ReconcileOnlyAddsLinks(t, userId, entryId, names[..|names| - 1]);
    }
  }

  /**
   * Reconciliation never removes or changes a tag row: it appends tags, each
   * belonging to the caller and carrying one of the trimmed names.
   */
  lemma ReconcileOnlyAddsTags(t: Tables, userId: UserId, entryId: EntryId, names: seq<string>)
    ensures var r := Reconcile(t, userId, entryId, names);
      && |t.tags| <= |r.tags|
      && (forall k :: 0 <= k < |t.tags| ==> r.tags[k] == t.tags[k])
      && (forall k :: |t.tags| <= k < |r.tags| ==> r.tags[k].userId == userId && r.tags[k].name in TrimmedNames(names))
  {
    ReconcileKeepsTags(t, userId, entryId, names);
    ReconcileNamesNewTags(t, userId, entryId, names);
  }

  lemma {:induction false} ReconcileKeepsTags(t: Tables, userId: UserId, entryId: EntryId, names: seq<string>)
    ensures var r := Reconcile(t, userId, entryId, names);
      |t.tags| <= |r.tags| && forall k :: 0 <= k < |t.tags| ==> r.tags[k] == t.tags[k]
    decreases |names|
  {
    if names != [] {
      ReconcileKeepsTags(t, userId, entryId, names[..|names| - 1]);
    }
  }

  /** Every tag after the first `from` carries the caller's id and one of the trimmed names. */
  predicate NamedAfter(tags: seq<Tag>, from: nat, userId: UserId, names: seq<string>) {
    forall k :: from <= k < |tags| ==> tags[k].userId == userId && tags[k].name in TrimmedNames(names)
  }

  lemma {:induction false} ReconcileNamesNewTags(t: Tables, userId: UserId, entryId: EntryId, names: seq<string>)
    ensures NamedAfter(Reconcile(t, userId, entryId, names).tags, |t.tags|, userId, names)
    decreases |names|
  {
    if names != [] {
      var init := names[..|names| - 1];
      ReconcileNamesNewTags(t, userId, entryId, init);
      var mid := Reconcile(t, userId, entryId, init);
      var last := Trim(names[|names| - 1]);
      var r := LinkTag(mid, userId, entryId, last);
      TrimmedNamesSnoc(names);
      assert last in TrimmedNames(names);
      forall k | |t.tags| <= k < |r.tags|
        ensures r.tags[k].userId == userId && r.tags[k].name in TrimmedNames(names)
      {
        if k < |mid.tags| {
          assert r.tags[k] == mid.tags[k];
          assert mid.tags[k].name in TrimmedNames(init);
        } else {
          assert k == |mid.tags|;
          assert r.tags[k].name == last;
        }
      }
    }
  }

  /** The links of an entry removed, as the update does before relinking. */
  function UnlinkAll(t: Tables, entryId: EntryId): (r: Tables)
    ensures r.entries == t.entries && r.tags == t.tags && r.nextId == t.nextId
    ensures forall l :: l in r.links <==> l in t.links && l.entryId != entryId
  {
    t.(links := Filter(t.links, (l: EntryTag) => l.entryId != entryId))
  }

  /** The update's full replace: unlink everything, then reconcile the list. */
  function ReplaceTags(t: Tables, userId: UserId, entryId: EntryId, names: seq<string>): Tables {
    Reconcile(UnlinkAll(t, entryId), userId, entryId, names)
  }

  /** The names of the tags linked to an entry. */
  function LinkedNames(t: Tables, entryId: EntryId): set<string> {
    set l, g | l in t.links && g in t.tags && l.entryId == entryId && l.tagId == g.id :: g.name
  }

  /** The names of the tag list a listed entry carries are exactly its linked names. */
  lemma TagRefsNamesAreLinked(t: Tables, entryId: EntryId)
    requires Consistent(t)
    ensures (set r | r in TagRefs(t.links, t.tags, entryId) :: r.name) == LinkedNames(t, entryId)
  {
    var refs := TagRefs(t.links, t.tags, entryId);
    forall x | x in LinkedNames(t, entryId) ensures x in (set r | r in refs :: r.name) {
      var l, g :| l in t.links && g in t.tags && l.entryId == entryId && l.tagId == g.id && g.name == x;
      TagRefsComplete(t.links, t.tags, entryId, g);
    }
    forall r | r in refs ensures r.name in LinkedNames(t, entryId) {
      var k :| 0 <= k < |refs| && refs[k] == r;
      var g :| g in t.tags && g.id == r.id && g.name == r.name;
      assert EntryTag(entryId, g.id) in t.links;
    }
  }

  // ---------------------------------------------------------------------------
  // Consistency

  lemma LinkTagConsistent(t: Tables, userId: UserId, entryId: EntryId, name: string)
    requires Consistent(t) && entryId in EntryIds(t.entries)
    ensures Consistent(LinkTag(t, userId, entryId, name))
  {
    match FindTag(t.tags, userId, name)
    case Some(g) =>
      AddLinkConsistent(t, EntryTag(entryId, g.id));
    case None =>
      var g := Tag(t.nextId, userId, name);
      AddTagConsistent(t, g);
      AddLinkConsistent(t.(tags := t.tags + [g], nextId := t.nextId + 1), EntryTag(entryId, g.id));
  }

  /** A tag with the next id and a (user, name) key not yet taken may be appended. */
  lemma AddTagConsistent(t: Tables, g: Tag)
    requires Consistent(t) && g.id == t.nextId
    requires forall h :: h in t.tags ==> h.userId != g.userId || h.name != g.name
    ensures var t' := t.(tags := t.tags + [g], nextId := t.nextId + 1);
      Consistent(t') && g in t'.tags
  {
    var t' := t.(tags := t.tags + [g], nextId := t.nextId + 1);
    assert forall x :: x in t'.tags ==> x in t.tags || x == g;
    assert TagIds(t.tags) <= TagIds(t'.tags);
    forall i, j | 0 <= i < j < |t'.tags|
      ensures t'.tags[i].id != t'.tags[j].id
      ensures t'.tags[i].userId != t'.tags[j].userId || t'.tags[i].name != t'.tags[j].name
    {
      if j == |t.tags| {
        assert t'.tags[i] in t.tags;
      }
    }
  }

  lemma AddLinkConsistent(t: Tables, l: EntryTag)
    requires Consistent(t) && l.entryId in EntryIds(t.entries) && l.tagId in TagIds(t.tags)
    ensures Consistent(t.(links := LinkOnce(t.links, l)))
  {
  }

  /** Reconciliation keeps every uniqueness constraint and foreign key. */
  lemma {:induction false} ReconcileConsistent(t: Tables, userId: UserId, entryId: EntryId, names: seq<string>)
    requires Consistent(t) && entryId in EntryIds(t.entries)
    ensures Consistent(Reconcile(t, userId, entryId, names))
    decreases |names|
  {
    if names != [] {
      var init := names[..|names| - 1];
      ReconcileConsistent(t, userId, entryId, init);
      LinkTagConsistent(Reconcile(t, userId, entryId, init), userId, entryId, Trim(names[|names| - 1]));
    }
  }

  lemma UnlinkAllConsistent(t: Tables, entryId: EntryId)
    requires Consistent(t)
    ensures Consistent(UnlinkAll(t, entryId))
  {
    var r := UnlinkAll(t, entryId);
    forall i, j | 0 <= i < j < |r.links| ensures r.links[i] != r.links[j] {
      FilterKeepsDistinct(t.links, (l: EntryTag) => l.entryId != entryId, (l: EntryTag) => l, i, j);
    }
  }

  // ---------------------------------------------------------------------------
  // What the entry ends up linked to

  /** Tag ids are distinct and below the next id: the part of `Consistent` the link names rely on. */
  ghost predicate TagIdsFresh(t: Tables) {
    && (forall i, j :: 0 <= i < j < |t.tags| ==> t.tags[i].id != t.tags[j].id)
    && (forall g :: g in t.tags ==> g.id < t.nextId)
  }

  lemma LinkTagKeepsTagIdsFresh(t: Tables, userId: UserId, entryId: EntryId, name: string)
    requires TagIdsFresh(t)
    ensures TagIdsFresh(LinkTag(t, userId, entryId, name))
  {
    var r := LinkTag(t, userId, entryId, name);
    if |r.tags| > |t.tags| {
      assert r.tags == t.tags + [r.tags[|t.tags|]];
    }
  }

  lemma {:induction false} ReconcileKeepsTagIdsFresh(t: Tables, userId: UserId, entryId: EntryId, names: seq<string>)
    requires TagIdsFresh(t)
    ensures TagIdsFresh(Reconcile(t, userId, entryId, names))
    decreases |names|
  {
    if names != [] {
      var init := names[..|names| - 1];
      ReconcileKeepsTagIdsFresh(t, userId, entryId, init);
      LinkTagKeepsTagIdsFresh(Reconcile(t, userId, entryId, init), userId, entryId, Trim(names[|names| - 1]));
    }
  }

  lemma LinkTagLinkedNames(t: Tables, userId: UserId, entryId: EntryId, name: string)
    requires TagIdsFresh(t)
    ensures LinkedNames(LinkTag(t, userId, entryId, name), entryId) == LinkedNames(t, entryId) + {name}
  {
    var r := LinkTag(t, userId, entryId, name);
    match FindTag(t.tags, userId, name)
    case Some(g) =>
      assert EntryTag(entryId, g.id) in r.links;
      forall x | x in LinkedNames(r, entryId) ensures x in LinkedNames(t, entryId) + {name} {
        var l, h :| l in r.links && h in r.tags && l.entryId == entryId && l.tagId == h.id && x == h.name;
        if l !in t.links {
          assert l == EntryTag(entryId, g.id);
          UniqueTagIds(t, h, g);
        }
      }
    case None =>
      var g := Tag(t.nextId, userId, name);
      assert r.tags == t.tags + [g];
      assert forall x :: x in r.tags ==> x in t.tags || x == g;
      assert EntryTag(entryId, g.id) in r.links;
      forall x | x in LinkedNames(r, entryId) ensures x in LinkedNames(t, entryId) + {name} {
        var l, h :| l in r.links && h in r.tags && l.entryId == entryId && l.tagId == h.id && x == h.name;
      }
  }

  lemma UniqueTagIds(t: Tables, a: Tag, b: Tag)
    requires TagIdsFresh(t) && a in t.tags && b in t.tags && a.id == b.id
    ensures a == b
  {
    var i :| 0 <= i < |t.tags| && t.tags[i] == a;
    var j :| 0 <= j < |t.tags| && t.tags[j] == b;
  }

  /**
   * After reconciliation the entry is linked to the tags it was linked to
   * before and to one tag for each trimmed requested name.
   */
  lemma {:induction false} ReconcileLinkedNames(t: Tables, userId: UserId, entryId: EntryId, names: seq<string>)
    requires TagIdsFresh(t)
    ensures LinkedNames(Reconcile(t, userId, entryId, names), entryId) == LinkedNames(t, entryId) + TrimmedNames(names)
    decreases |names|
  {
    if names == [] {
      assert TrimmedNames(names) == {};
    } else {
      var init := names[..|names| - 1];
      var mid := Reconcile(t, userId, entryId, init);
      ReconcileLinkedNames(t, userId, entryId, init);
      ReconcileKeepsTagIdsFresh(t, userId, entryId, init);
      LinkTagLinkedNames(mid, userId, entryId, Trim(names[|names| - 1]));
      TrimmedNamesSnoc(names);
    }
  }

  /**
   * The update's replace: with a tag list the entry ends up linked to exactly
   * the trimmed names of the list, so an empty list clears its tags.
   */
  lemma ReplaceTagsLinkedNames(t: Tables, userId: UserId, entryId: EntryId, names: seq<string>)
    requires Consistent(t) && entryId in EntryIds(t.entries)
    ensures LinkedNames(ReplaceTags(t, userId, entryId, names), entryId) == TrimmedNames(names)
  {
    var u := UnlinkAll(t, entryId);
    assert LinkedNames(u, entryId) == {};
    ReconcileLinkedNames(u, userId, entryId, names);
  }

  // ---------------------------------------------------------------------------
  // Idempotence

  /** The caller's tag for `name` exists and the entry is linked to it. */
  predicate Linked(t: Tables, userId: UserId, entryId: EntryId, name: string) {
    exists g :: g in t.tags && g.userId == userId && g.name == name && EntryTag(entryId, g.id) in t.links
  }

  lemma LinkTagLinks(t: Tables, userId: UserId, entryId: EntryId, name: string)
    ensures Linked(LinkTag(t, userId, entryId, name), userId, entryId, name)
  {
    var r := LinkTag(t, userId, entryId, name);
    match FindTag(t.tags, userId, name)
    case Some(g) =>
      assert g in r.tags && EntryTag(entryId, g.id) in r.links;
    case None =>
      var g := Tag(t.nextId, userId, name);
      assert g in r.tags && EntryTag(entryId, g.id) in r.links;
  }

  lemma LinkTagKeepsLinked(t: Tables, userId: UserId, entryId: EntryId, name: string, other: string)
    requires Linked(t, userId, entryId, other)
    ensures Linked(LinkTag(t, userId, entryId, name), userId, entryId, other)
  {
    var g :| g in t.tags && g.userId == userId && g.name == other && EntryTag(entryId, g.id) in t.links;
    var r := LinkTag(t, userId, entryId, name);
    assert g in r.tags && EntryTag(entryId, g.id) in r.links;
  }

  /** Reconciling an already linked name changes nothing. */
  lemma LinkTagNoop(t: Tables, userId: UserId, entryId: EntryId, name: string)
    requires Consistent(t) && Linked(t, userId, entryId, name)
    ensures LinkTag(t, userId, entryId, name) == t
  {
    var g :| g in t.tags && g.userId == userId && g.name == name && EntryTag(entryId, g.id) in t.links;
    var f := FindTag(t.tags, userId, name).value;
    var i :| 0 <= i < |t.tags| && t.tags[i] == g;
    var j :| 0 <= j < |t.tags| && t.tags[j] == f;
  }

  lemma {:induction false} ReconcileLinksAll(t: Tables, userId: UserId, entryId: EntryId, names: seq<string>)
    ensures forall n :: n in names ==> Linked(Reconcile(t, userId, entryId, names), userId, entryId, Trim(n))
    decreases |names|
  {
    if names != [] {
      var init := names[..|names| - 1];
      var last := names[|names| - 1];
      var mid := Reconcile(t, userId, entryId, init);
      ReconcileLinksAll(t, userId, entryId, init);
      LinkTagLinks(mid, userId, entryId, Trim(last));
      forall n | n in names ensures Linked(Reconcile(t, userId, entryId, names), userId, entryId, Trim(n)) {
        if n != last {
          assert n in init;
          LinkTagKeepsLinked(mid, userId, entryId, Trim(last), Trim(n));
        }
      }
    }
  }

  lemma {:induction false} ReconcileNoop(t: Tables, userId: UserId, entryId: EntryId, names: seq<string>)
    requires Consistent(t)
    requires forall n :: n in names ==> Linked(t, userId, entryId, Trim(n))
    ensures Reconcile(t, userId, entryId, names) == t
    decreases |names|
  {
    if names != [] {
      var init := names[..|names| - 1];
      ReconcileNoop(t, userId, entryId, init);
      LinkTagNoop(t, userId, entryId, Trim(names[|names| - 1]));
    }
  }

  /**
   * Sending the same tag list twice creates no second tag row and no second
   * link: the second reconciliation leaves the tables as the first left them.
   */
  lemma ReconcileIdempotent(t: Tables, userId: UserId, entryId: EntryId, names: seq<string>)
    requires Consistent(t) && entryId in EntryIds(t.entries)
    ensures var once := Reconcile(t, userId, entryId, names);
      Reconcile(once, userId, entryId, names) == once
  {
    var once := Reconcile(t, userId, entryId, names);
    ReconcileConsistent(t, userId, entryId, names);
    ReconcileLinksAll(t, userId, entryId, names);
    ReconcileNoop(once, userId, entryId, names);
  }

  /** A linked name has a tag the lookup finds. */
  lemma LinkedIsFound(t: Tables, userId: UserId, entryId: EntryId, name: string)
    requires Linked(t, userId, entryId, name)
    ensures FindTag(t.tags, userId, name).Some?
  {
    var g :| g in t.tags && g.userId == userId && g.name == name && EntryTag(entryId, g.id) in t.links;
  }

  /** When the caller already has a tag for every name, reconciliation creates no tag. */
  lemma {:induction false} ReconcileKnownTagsKeepsTags(t: Tables, userId: UserId, entryId: EntryId, names: seq<string>)
    requires forall n :: n in names ==> FindTag(t.tags, userId, Trim(n)).Some?
    ensures Reconcile(t, userId, entryId, names).tags == t.tags
    ensures Reconcile(t, userId, entryId, names).nextId == t.nextId
    decreases |names|
  {
    if names != [] {
      var init := names[..|names| - 1];
      forall n | n in init ensures FindTag(t.tags, userId, Trim(n)).Some? {
        assert n in names;
      }
      ReconcileKnownTagsKeepsTags(t, userId, entryId, init);
      assert names[|names| - 1] in names;
    }
  }

  /** A whitespace-only name is not dropped: whatever the other names, the entry gets the tag named "". */
  lemma BlankNameBecomesEmptyTag(t: Tables, userId: UserId, entryId: EntryId, names: seq<string>, i: nat)
    requires Consistent(t) && entryId in EntryIds(t.entries)
    requires i < |names| && forall k :: 0 <= k < |names[i]| ==> IsSpace(names[i][k])
    ensures "" in LinkedNames(Reconcile(t, userId, entryId, names), entryId)
  {
    ReconcileLinkedNames(t, userId, entryId, names);
    TrimEmptyIffBlank(names[i]);
    assert Trim(names[i]) in TrimmedNames(names);
  }
}
