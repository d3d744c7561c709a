/**
 * The desktop client's rules around the entry engine: the tag text of the
 * editor, the required-field checks before saving, the default category and
 * section, the live/deleted view and the selection kept across refreshes.
 */
module Client {

  import opened Wrappers
  import opened Text
  import opened Seqs
  import opened Sorting
  import opened Entries
  import opened TagReconcile

  // ---------------------------------------------------------------------------
  // Tags as text

  /** Each piece trimmed, the empty ones dropped. */
  function CleanPieces(pieces: seq<string>): (r: seq<string>)
    ensures |r| <= |pieces|
  {
    if pieces == [] then []
    else
      var t := Trim(pieces[0]);
      (if |t| == 0 then [] else [t]) + CleanPieces(pieces[1..])
  }

  /** `text.split(',').map(s => s.trim()).filter(Boolean)`: non-empty trimmed names. */
  function ParseTags(text: string): seq<string>
  {
    CleanPieces(Split(text, ','))
  }

  /** The editor's tag text, `names.join(', ')`. */
  function TagText(names: seq<string>): string {
    Join(names, ", ")
  }

  predicate CommaFree(s: string) {
    forall i :: 0 <= i < |s| ==> s[i] != ','
  }

  /** Names the editor's text represents faithfully. */
  predicate PlainName(name: string) {
    name != "" && IsTrimmed(name) && CommaFree(name)
  }

  predicate PlainNames(names: seq<string>) {
    forall k :: 0 <= k < |names| ==> PlainName(names[k])
  }

  /** Trimming a piece keeps only characters of the piece, so no comma appears. */
  lemma TrimKeepsCommaFree(s: string)
    requires CommaFree(s)
    ensures CommaFree(Trim(s))
  {
    var lo := TrimIsSlice(s);
    var t := Trim(s);
    forall i | 0 <= i < |t| ensures t[i] != ',' {
      assert t[i] == s[lo + i];
    }
  }

  lemma PlainNamesConcat(a: seq<string>, b: seq<string>)
    requires PlainNames(a) && PlainNames(b)
    ensures PlainNames(a + b)
  {
    forall k | 0 <= k < |a + b| ensures PlainName((a + b)[k]) {
      if k >= |a| {
        assert (a + b)[k] == b[k - |a|];
      }
    }
  }

  /** The pieces of a split hold no separator; cleaning them gives plain names. */
  lemma {:induction false} CleanPiecesPlain(pieces: seq<string>)
    requires forall k :: 0 <= k < |pieces| ==> CommaFree(pieces[k])
    ensures PlainNames(CleanPieces(pieces))
  {
    if pieces != [] {
      var t := Trim(pieces[0]);
      TrimKeepsCommaFree(pieces[0]);
      var head: seq<string> := if |t| == 0 then [] else [t];
      assert PlainNames(head);
      var tail := pieces[1..];
      assert forall k :: 0 <= k < |tail| ==> CommaFree(tail[k]) by {
        forall k | 0 <= k < |tail| ensures CommaFree(tail[k]) {
          assert tail[k] == pieces[k + 1];
        }
      }
      CleanPiecesPlain(tail);
      PlainNamesConcat(head, CleanPieces(tail));
    }
  }

  /** Parsed names are plain: the editor can show them and read them back. */
  lemma ParseTagsPlain(text: string)
    ensures PlainNames(ParseTags(text))
  {
    var pieces := Split(text, ',');
    forall k | 0 <= k < |pieces| ensures CommaFree(pieces[k]) {
    }
    CleanPiecesPlain(pieces);
  }

  lemma CommaFreeConcat(a: string, b: string)
    requires CommaFree(a) && CommaFree(b)
    ensures CommaFree(a + b)
  {
    forall i | 0 <= i < |a + b| ensures (a + b)[i] != ',' {
      if i >= |a| {
        assert (a + b)[i] == b[i - |a|];
      }
    }
  }

  /** Blank text holds no comma. */
  lemma BlankIsCommaFree(pad: string)
    requires forall i :: 0 <= i < |pad| ==> IsSpace(pad[i])
    ensures CommaFree(pad)
  {
    forall i | 0 <= i < |pad| ensures pad[i] != ',' {
      assert IsSpace(pad[i]);
    }
  }

  lemma CleanPiecesCons(x: string, ys: seq<string>)
    ensures CleanPieces([x] + ys) == (if |Trim(x)| == 0 then [] else [Trim(x)]) + CleanPieces(ys)
  {
    assert ([x] + ys)[1..] == ys;
  }

  /** The last piece: a name after spaces, with no comma left. */
  lemma ParseLastName(pad: string, name: string)
    requires forall i :: 0 <= i < |pad| ==> IsSpace(pad[i])
    requires PlainName(name)
    ensures CleanPieces(Split(pad + name, ',')) == [name]
  {
    BlankIsCommaFree(pad);
    CommaFreeConcat(pad, name);
    SplitNoSeparator(pad + name, ',');
    TrimDropsLeadingSpace(pad, name);
    CleanPiecesCons(pad + name, []);
  }

  /** A first name and its separator, followed by the text of the rest. */
  lemma ParseFirstName(pad: string, name: string, rest: string)
    requires forall i :: 0 <= i < |pad| ==> IsSpace(pad[i])
    requires PlainName(name)
    ensures CleanPieces(Split(pad + (name + ", " + rest), ',')) == [name] + CleanPieces(Split(" " + rest, ','))
  {
    BlankIsCommaFree(pad);
    var a := pad + name;
    CommaFreeConcat(pad, name);
    assert pad + (name + ", " + rest) == a + [','] + (" " + rest);
    SplitAtFirst(a, ',', " " + rest);
    TrimDropsLeadingSpace(pad, name);
    CleanPiecesCons(a, Split(" " + rest, ','));
  }

  /** Blank text holds no names. */
  lemma ParseBlank(pad: string)
    requires forall i :: 0 <= i < |pad| ==> IsSpace(pad[i])
    ensures CleanPieces(Split(pad, ',')) == []
  {
    BlankIsCommaFree(pad);
    SplitNoSeparator(pad, ',');
    TrimEmptyIffBlank(pad);
    CleanPiecesCons(pad, []);
  }

  /** The text of two or more names: the first name, then the rest read back. */
  lemma ParseConsNames(pad: string, names: seq<string>)
    requires forall i :: 0 <= i < |pad| ==> IsSpace(pad[i])
    requires |names| >= 2 && PlainName(names[0])
    requires CleanPieces(Split(" " + TagText(names[1..]), ',')) == names[1..]
    ensures CleanPieces(Split(pad + TagText(names), ',')) == names
  {
    var rest := TagText(names[1..]);
    assert TagText(names) == names[0] + ", " + rest;
    ParseFirstName(pad, names[0], rest);
    calc {
      CleanPieces(Split(pad + TagText(names), ','));
      CleanPieces(Split(pad + (names[0] + ", " + rest), ','));
      [names[0]] + CleanPieces(Split(" " + rest, ','));
      [names[0]] + names[1..];
      { HeadTail(names); }
      names;
    }
  }

  lemma PlainNamesTail(names: seq<string>)
    requires PlainNames(names) && names != []
    ensures PlainName(names[0]) && PlainNames(names[1..])
  {
    forall k | 0 <= k < |names| - 1 ensures PlainName(names[1..][k]) {
      assert names[1..][k] == names[k + 1];
    }
  }

  lemma {:induction false} ParsePaddedTagText(names: seq<string>, pad: string)
    requires PlainNames(names)
    requires forall i :: 0 <= i < |pad| ==> IsSpace(pad[i])
    ensures CleanPieces(Split(pad + TagText(names), ',')) == names
    decreases |names|
  {
    if names == [] {
      assert pad + TagText(names) == pad;
      ParseBlank(pad);
    } else if |names| == 1 {
      ParseLastName(pad, names[0]);
    } else {
      PlainNamesTail(names);
      ParsePaddedTagText(names[1..], " ");
      ParseConsNames(pad, names);
    }
  }

  /** The editor round trip: parsing the joined text of plain names gives the names back. */
  lemma TagTextRoundTrip(names: seq<string>)
    requires PlainNames(names)
    ensures ParseTags(TagText(names)) == names
  {
    ParsePaddedTagText(names, "");
    assert "" + TagText(names) == TagText(names);
  }

  /** Showing parsed names and parsing them again changes nothing. */
  lemma ParseTagsStable(text: string)
    ensures ParseTags(TagText(ParseTags(text))) == ParseTags(text)
  {
    ParseTagsPlain(text);
    TagTextRoundTrip(ParseTags(text));
  }

  /** The server's trimming leaves the client's names as they are, so no empty tag arises. */
  lemma ServerKeepsParsedNames(text: string)
    ensures TrimmedNames(ParseTags(text)) == set n | n in ParseTags(text)
    ensures "" !in TrimmedNames(ParseTags(text))
  {
    var names := ParseTags(text);
    ParseTagsPlain(text);
    forall n | n in names ensures Trim(n) == n {
      TrimOfTrimmed(n);
    }
    forall n ensures n in TrimmedNames(names) <==> n in names {
      if n in TrimmedNames(names) {
        var m :| m in names && Trim(m) == n;
      }
    }
  }

  // ---------------------------------------------------------------------------
  // Drafts and the bodies sent for them

  /** The text fields of the editor or of the new-entry form. */
  datatype Draft = Draft(title: string, promptText: string, outputText: string,
                         modelUsed: string, comments: string, tags: string)

  /** Empty once trimmed. */
  predicate Blank(s: string) {
    |Trim(s)| == 0
  }

  /**
   * The checks before a save: prompt, then output, then model, each trimmed;
   * the first blank one gives its message.
   */
  function RequiredFieldError(d: Draft): (r: Option<string>)
    ensures r.None? <==> !Blank(d.promptText) && !Blank(d.outputText) && !Blank(d.modelUsed)
    ensures Blank(d.promptText) ==> r == Some("Prompt is required.")
    ensures !Blank(d.promptText) && Blank(d.outputText) ==> r == Some("Output is required.")
    ensures !Blank(d.promptText) && !Blank(d.outputText) && Blank(d.modelUsed) ==> r == Some("Model used is required.")
  {
    if Blank(d.promptText) then Some("Prompt is required.")
    else if Blank(d.outputText) then Some("Output is required.")
    else if Blank(d.modelUsed) then Some("Model used is required.")
    else None
  }

  /** `s || null`. */
  function OrNullIfEmpty(s: string): (f: Field<string>)
    ensures f.Null? <==> s == ""
  {
    if |s| == 0 then Null else Present(s)
  }

  /** The body the client sends for a draft, in the chosen category and section. */
  function DraftBody(d: Draft, categoryId: string, sectionId: string): EntryBody {
    EntryBody(Present(categoryId), OrNullIfEmpty(sectionId), OrNullIfEmpty(d.title),
              Present(d.promptText), Present(d.outputText), Present(d.modelUsed),
              OrNullIfEmpty(d.comments), Present(ParseTags(d.tags)))
  }

  /**
   * A draft that passes the client's checks, in a chosen category, passes
   * the create and update schemas.
   */
  lemma DraftBodyAccepted(d: Draft, categoryId: string, sectionId: string)
    requires RequiredFieldError(d).None? && categoryId != ""
    ensures ValidCreateBody(DraftBody(d, categoryId, sectionId))
    ensures ValidUpdateBody(DraftBody(d, categoryId, sectionId))
  {
    ParseTagsPlain(d.tags);
  }

  /** Without a chosen category the server refuses to create the draft, whatever its fields. */
  lemma NoCategoryRefused(d: Draft, sectionId: string)
    ensures !ValidCreateBody(DraftBody(d, "", sectionId))
  {
  }

  /**
   * Emptying the title, the section or the comments in the editor sends
   * `null`, which the server's update ignores: the stored values stay.
   */
  lemma ClearedFieldsAreKept(e: Entry, d: Draft, categoryId: string, now: Millis)
    requires d.title == "" && d.comments == ""
    ensures var r := PatchEntry(e, DraftBody(d, categoryId, ""), now);
      r.title == e.title && r.sectionId == e.sectionId && r.comments == e.comments
  {
  }

  // ---------------------------------------------------------------------------
  // Default category and section

  datatype Section = Section(id: string, name: string, sortOrder: int)

  datatype Category = Category(id: string, name: string, sections: seq<Section>)

  /** `cats.find(c => c.id === id)`. */
  function FindCategory(cats: seq<Category>, id: string): (r: Option<Category>)
    ensures r.Some? ==> r.value in cats && r.value.id == id
    ensures r.None? ==> forall c :: c in cats ==> c.id != id
  {
    if cats == [] then None
    else if cats[0].id == id then Some(cats[0])
    else FindCategory(cats[1..], id)
  }

  /**
   * The category shown first: the configured default when it names an
   * existing category, else the first category, else none ("").
   */
  function ChooseCategory(cats: seq<Category>, defaultId: Option<string>): (r: string)
    ensures cats == [] ==> r == ""
    ensures cats != [] ==> FindCategory(cats, r).Some?
    ensures Given(defaultId) && FindCategory(cats, defaultId.value).Some? ==> r == defaultId.value
    ensures !(Given(defaultId) && FindCategory(cats, defaultId.value).Some?) && cats != [] ==> r == cats[0].id
  {
    if Given(defaultId) && FindCategory(cats, defaultId.value).Some? then defaultId.value
    else if cats == [] then ""
    else cats[0].id
  }

  /** The section comparator: by `sortOrder`, then by name. */
  predicate SectionBefore(a: Section, b: Section) {
    a.sortOrder < b.sortOrder || (a.sortOrder == b.sortOrder && NameLe(a.name, b.name))
  }

  lemma SectionBeforeIsTotalPreorder()
    ensures IsTotalPreorder(SectionBefore)
  {
    forall a: Section, b: Section ensures SectionBefore(a, b) || SectionBefore(b, a) {
      NameLeTotal(a.name, b.name);
    }
    forall a: Section, b: Section, c: Section | SectionBefore(a, b) && SectionBefore(b, c)
      ensures SectionBefore(a, c)
    {
      if a.sortOrder == b.sortOrder == c.sortOrder {
        NameLeTransitive(a.name, b.name, c.name);
      }
    }
  }

  /** The sections of a category in display order. */
  function SortSections(sections: seq<Section>): (r: seq<Section>)
    ensures SortedBy(r, SectionBefore) && multiset(r) == multiset(sections)
  {
    SectionBeforeIsTotalPreorder();
    SortBy(sections, SectionBefore)
  }

  predicate HasSection(sections: seq<Section>, id: string) {
    exists k :: 0 <= k < |sections| && sections[k].id == id
  }

  /**
   * The section shown first: the configured default when it belongs to the
   * chosen category, else the first of its sections in display order, else
   * none ("").
   */
  function ChooseSection(cats: seq<Category>, categoryId: string, defaultId: Option<string>): string {
    match FindCategory(cats, categoryId)
    case None => ""
    case Some(c) =>
      if Given(defaultId) && HasSection(c.sections, defaultId.value) then defaultId.value
      else if c.sections == [] then ""
      else SortSections(c.sections)[0].id
  }

  /**
   * Without a usable default, the section chosen is the earliest section of
   * the category that sorts before every other one.
   */
  lemma ChooseSectionIsFirstLeast(cats: seq<Category>, categoryId: string, defaultId: Option<string>)
    requires FindCategory(cats, categoryId).Some?
    requires var c := FindCategory(cats, categoryId).value;
      !(Given(defaultId) && HasSection(c.sections, defaultId.value)) && c.sections != []
    ensures var ss := FindCategory(cats, categoryId).value.sections;
      exists i :: IsFirstLeastAt(ss, SectionBefore, i) && ChooseSection(cats, categoryId, defaultId) == ss[i].id
  {
    var ss := FindCategory(cats, categoryId).value.sections;
    SectionBeforeIsTotalPreorder();
    var i := SortByHeadIsFirstLeast(ss, SectionBefore);
  }

  /** A usable default wins; without a category or sections there is no section. */
  lemma ChooseSectionDefault(cats: seq<Category>, categoryId: string, defaultId: Option<string>)
    ensures var c := FindCategory(cats, categoryId);
      && (c.Some? && Given(defaultId) && HasSection(c.value.sections, defaultId.value) ==>
            ChooseSection(cats, categoryId, defaultId) == defaultId.value)
      && (c.None? || c.value.sections == [] ==> ChooseSection(cats, categoryId, defaultId) == "")
      && (c.Some? && ChooseSection(cats, categoryId, defaultId) != "" ==>
            HasSection(c.value.sections, ChooseSection(cats, categoryId, defaultId)))
  {
    var c := FindCategory(cats, categoryId);
    if c.Some? && !(Given(defaultId) && HasSection(c.value.sections, defaultId.value)) && c.value.sections != [] {
      var ss := c.value.sections;
      var r := SortSections(ss);
      assert r[0] in multiset(ss);
      var k :| 0 <= k < |ss| && ss[k] == r[0];
    }
  }

  // ---------------------------------------------------------------------------
  // The list shown and the selection

  /** The request of `refreshEntries`: empty strings are left out, the flag sent only when on. */
  function ListRequest(query: string, categoryId: string, sectionId: string, tag: string, showDeleted: bool): ListParams {
    ListParams(
      if query == "" then None else Some(query),
      Some(categoryId),
      if sectionId == "" then None else Some(sectionId),
      if tag == "" then None else Some(tag),
      if showDeleted then Some("true") else None,
      None)
  }

  /** The client-side split: only deleted rows in the deleted view, only live rows otherwise. */
  function ViewFilter(data: seq<EntryView>, showDeleted: bool): (r: seq<EntryView>)
    ensures forall v :: v in r <==> v in data && v.deletedAt.Some? == showDeleted
    ensures IsSubseq(r, data)
  {
    FilterIsSubseq(data, (v: EntryView) => v.deletedAt.Some? == showDeleted);
    Filter(data, (v: EntryView) => v.deletedAt.Some? == showDeleted)
  }

  /**
   * What the client lists after a refresh, against the server's answer: rows
   * of the chosen category only, in the requested view only, newest first.
   */
  lemma RefreshListsChosenView(t: Tables, userId: UserId, query: string, categoryId: string,
                               sectionId: string, tag: string, showDeleted: bool)
    requires categoryId != ""
    ensures var shown := ViewFilter(ListEntries(t, userId, ListRequest(query, categoryId, sectionId, tag, showDeleted)), showDeleted);
      && SortedBy(shown, NewerOrSameView)
      && forall v :: v in shown ==> v.categoryId == categoryId && v.deletedAt.Some? == showDeleted
  {
    var p := ListRequest(query, categoryId, sectionId, tag, showDeleted);
    var data := ListEntries(t, userId, p);
    FilterSorted(data, (v: EntryView) => v.deletedAt.Some? == showDeleted, NewerOrSameView);
    forall v | v in ViewFilter(data, showDeleted) ensures v.categoryId == categoryId {
      var e :| e in t.entries && Matches(userId, p, e) && v == ViewOf(t, e);
    }
  }

  /** In the live view the client's filter removes nothing: the server already sent live rows only. */
  lemma LiveViewFilterIsNoop(t: Tables, userId: UserId, query: string, categoryId: string, sectionId: string, tag: string)
    ensures var data := ListEntries(t, userId, ListRequest(query, categoryId, sectionId, tag, false));
      ViewFilter(data, false) == data
  {
    var data := ListEntries(t, userId, ListRequest(query, categoryId, sectionId, tag, false));
    ListLiveOnly(t, userId, ListRequest(query, categoryId, sectionId, tag, false));
    FilterAll(data, (v: EntryView) => v.deletedAt.Some? == false);
  }

  predicate Listed(list: seq<EntryView>, id: EntryId) {
    exists k :: 0 <= k < |list| && list[k].id == id
  }

  /**
   * The selection after a refresh: kept while its row is listed, otherwise
   * moved to the first row, or cleared when the list is empty.
   */
  function FixSelection(list: seq<EntryView>, selected: Option<EntryId>): (r: Option<EntryId>)
    ensures r.Some? <==> list != []
    ensures r.Some? ==> Listed(list, r.value)
    ensures selected.Some? && Listed(list, selected.value) ==> r == selected
    ensures r.Some? && r != selected ==> r.value == list[0].id
  {
    if selected.Some? && Listed(list, selected.value) then selected
    else if list == [] then None
    else Some(list[0].id)
  }

  /** A second fix-up on the same list changes nothing. */
  lemma FixSelectionIdempotent(list: seq<EntryView>, selected: Option<EntryId>)
    ensures FixSelection(list, FixSelection(list, selected)) == FixSelection(list, selected)
  {
  }

  /**
   * What `saveSelected` sends: nothing without a selected row, for a deleted
   * row, or while a required field is blank; otherwise the editor's body for
   * the selected row, which the update schema accepts once a category is
   * chosen.
   */
  function SaveRequest(selected: Option<EntryView>, editor: Draft, categoryId: string, sectionId: string): (r: Option<(EntryId, EntryBody)>)
    ensures r.Some? <==> selected.Some? && selected.value.deletedAt.None? && RequiredFieldError(editor).None?
    ensures r.Some? ==> r.value == (selected.value.id, DraftBody(editor, categoryId, sectionId))
    ensures r.Some? && categoryId != "" ==> ValidUpdateBody(r.value.1)
  {
    if selected.None? || selected.value.deletedAt.Some? || RequiredFieldError(editor).Some? then None
    else if categoryId == "" then Some((selected.value.id, DraftBody(editor, categoryId, sectionId)))
    else
      DraftBodyAccepted(editor, categoryId, sectionId);
      Some((selected.value.id, DraftBody(editor, categoryId, sectionId)))
  }

  /**
   * What `submitNew` sends: nothing while a required field is blank;
   * otherwise the form's body, which the create schema accepts once a
   * category is chosen.
   */
  function SubmitRequest(form: Draft, categoryId: string, sectionId: string): (r: Option<EntryBody>)
    ensures r.Some? <==> RequiredFieldError(form).None?
    ensures r.Some? ==> r.value == DraftBody(form, categoryId, sectionId)
    ensures r.Some? && categoryId != "" ==> ValidCreateBody(r.value)
  {
    if RequiredFieldError(form).Some? then None
    else if categoryId == "" then Some(DraftBody(form, categoryId, sectionId))
    else
      DraftBodyAccepted(form, categoryId, sectionId);
      Some(DraftBody(form, categoryId, sectionId))
  }

  // ---------------------------------------------------------------------------
  // The client's state

  class ClientState {
    var categoryId: string
    var sectionId: string
    var query: string
    var tagFilter: string
    var showDeleted: bool
    var entries: seq<EntryView>
    var selectedId: Option<EntryId>
    var editor: Draft
    var dirty: bool
    var newEntry: Draft
    var newErr: Option<string>
    var showNew: bool

    constructor()
      ensures categoryId == "" && sectionId == "" && entries == [] && selectedId.None?
    {
      categoryId := "";
      sectionId := "";
      query := "";
      tagFilter := "";
      showDeleted := false;
      entries := [];
      selectedId := None;
      editor := Draft("", "", "", "", "", "");
      dirty := false;
      newEntry := Draft("", "", "", "", "", "");
      newErr := None;
      showNew := false;
    }

    /** `entries.find(e => e.id === selectedId)`. */
    function Selected(): (r: Option<EntryView>)
      reads this
      ensures r.Some? ==> r.value in entries && selectedId == Some(r.value.id)
    {
      if selectedId.None? then None else FindView(entries, selectedId.value)
    }

    /**
     * `refreshEntries`, given whether a user is signed in and the server's
     * answer to the request it returns: nothing happens without a user or a
     * category; a failed request throws before anything is stored;
     * otherwise the answer is split by view and the selection fixed.
     */
    method RefreshEntries(signedIn: bool, answer: Result<seq<EntryView>, ApiError>) returns (request: Option<ListParams>)
      modifies this`entries, this`selectedId
      ensures !signedIn || categoryId == "" ==> request.None? && entries == old(entries) && selectedId == old(selectedId)
      ensures signedIn && categoryId != "" ==> request == Some(ListRequest(query, categoryId, sectionId, tagFilter, showDeleted))
      ensures signedIn && categoryId != "" && answer.Err? ==> entries == old(entries) && selectedId == old(selectedId)
      ensures signedIn && categoryId != "" && answer.Ok? ==>
        && entries == ViewFilter(answer.value, showDeleted)
        && selectedId == FixSelection(entries, old(selectedId))
    {
      if !signedIn || categoryId == "" {
        return None;
      }
      request := Some(ListRequest(query, categoryId, sectionId, tagFilter, showDeleted));
      if answer.Err? {
        return;
      }
      var filtered := ViewFilter(answer.value, showDeleted);
      entries := filtered;
      if filtered != [] && selectedId.None? {
        selectedId := Some(filtered[0].id);
      } else if selectedId.Some? && !Listed(filtered, selectedId.value) {
        selectedId := if filtered == [] then None else Some(filtered[0].id);
      }
    }

    /**
     * `saveSelected`, given the server's answer to the update: the request of
     * `SaveRequest` for the selected row and the editor. Only an update the
     * server accepts makes the editor clean; a refused one (an unknown row,
     * a rejected body) leaves it dirty. The refresh that ends the handler
     * is the `RefreshEntries` step that follows.
     */
    method SaveSelected(outcome: Result<(), ApiError>) returns (sent: Option<(EntryId, EntryBody)>)
      modifies this`dirty
      ensures sent == SaveRequest(old(Selected()), old(editor), old(categoryId), old(sectionId))
      ensures dirty == if sent.Some? && outcome.Ok? then false else old(dirty)
    {
      sent := SaveRequest(Selected(), editor, categoryId, sectionId);
      if sent.Some? && outcome.Ok? {
        dirty := false;
      }
    }

    /**
     * The first half of `submitNew`: the form's first missing required field
     * is reported; otherwise its body is the create request.
     */
    method SubmitNew() returns (sent: Option<EntryBody>)
      modifies this`newErr
      ensures sent == SubmitRequest(newEntry, categoryId, sectionId)
      ensures newErr == RequiredFieldError(newEntry)
    {
      sent := SubmitRequest(newEntry, categoryId, sectionId);
      newErr := RequiredFieldError(newEntry);
    }

    /** Whether `refreshEntries` throws: it asked the server and the request failed. */
    predicate RefreshFails(signedIn: bool, listed: Result<seq<EntryView>, ApiError>)
      reads this
    {
      signedIn && categoryId != "" && listed.Err?
    }

    /**
     * The second half of `submitNew`, given the server's answer to the
     * create and its answer to the refresh: a created row refreshes the list
     * and is then selected, whether or not the refreshed list shows it, and
     * the form closes. A refused create changes nothing, and neither does a
     * refresh that fails, since it throws before the selection.
     */
    method CreateAnswered(answer: Result<EntryId, ApiError>, signedIn: bool, listed: Result<seq<EntryView>, ApiError>)
      modifies this`entries, this`selectedId, this`showNew
      ensures answer.Ok? && !RefreshFails(signedIn, listed) ==>
        && selectedId == Some(answer.value) && !showNew
        && entries == (if signedIn && categoryId != "" then ViewFilter(listed.value, showDeleted) else old(entries))
      ensures answer.Err? || RefreshFails(signedIn, listed) ==>
        entries == old(entries) && selectedId == old(selectedId) && showNew == old(showNew)
    {
      if answer.Ok? {
        var _ := RefreshEntries(signedIn, listed);
        if !RefreshFails(signedIn, listed) {
          OpenCreated(answer.value);
        }
      }
    }

    /** After a create: the new row selected and the form closed. */
    method OpenCreated(created: EntryId)
      modifies this`selectedId, this`showNew
      ensures selectedId == Some(created) && !showNew
    {
      selectedId := Some(created);
      showNew := false;
    }
  }

  /** The first listed row with that id. */
  function FindView(list: seq<EntryView>, id: EntryId): (r: Option<EntryView>)
    ensures r.Some? ==> r.value in list && r.value.id == id
    ensures r.None? ==> !Listed(list, id)
  {
    if list == [] then None
    else if list[0].id == id then Some(list[0])
    else FindView(list[1..], id)
  }
}
