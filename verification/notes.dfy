/** The notes page (components/Notes.tsx): the case-insensitive title
    search and the editor's list / add / edit / view modes. */
module Notes {
  import opened Types
  import opened Text
  import opened Seqs
  import opened Wrappers
  import AppContext

  /** A note's title matches the search when its lower-cased form
      contains the lower-cased term. */
  predicate Matches(n: Note, term: string) {
    Contains(ToLower(n.title), ToLower(term))
  }

  /** `filteredNotes`: the matching notes in their order. */
  function FilteredNotes(notes: seq<Note>, term: string): (r: seq<Note>)
    ensures forall n :: n in r <==> n in notes && Matches(n, term)
    ensures forall n :: multiset(r)[n] == if Matches(n, term) then multiset(notes)[n] else 0
    ensures IsSubsequence(r, notes)
    ensures term == "" ==> r == notes
  {
    var p := (n: Note) => Matches(n, term);
    if term == "" then
      assert forall i :: 0 <= i < |notes| ==> p(notes[i]) by {
        forall i | 0 <= i < |notes| ensures p(notes[i]) {
          EmptyContained(ToLower(notes[i].title));
        }
      }
      FilterAll(notes, p);
      Filter(notes, p)
    else Filter(notes, p)
  }

  /** The search ignores the case of the term. */
  lemma SearchIgnoresTermCase(notes: seq<Note>, term: string)
    ensures FilteredNotes(notes, ToLower(term)) == FilteredNotes(notes, term)
  {
    ToLowerIdempotent(term);
    FilterCongruent(notes, (n: Note) => Matches(n, ToLower(term)), (n: Note) => Matches(n, term));
    assert ToLower(term) == "" <==> term == "";
  }

  /** A note whose title starts with the term is found. */
  lemma PrefixTitleFound(notes: seq<Note>, n: Note, term: string)
    requires n in notes
    requires |term| <= |n.title| && n.title[..|term|] == term
    ensures n in FilteredNotes(notes, term)
  {
    assert ToLower(n.title)[..|term|] == ToLower(term);
    PrefixContained(ToLower(n.title), ToLower(term));
  }

  datatype Mode = ListMode | AddMode | EditMode | ViewMode

  /** The note being viewed or edited (`Partial<Note>`). */
  datatype Draft = Draft(id: Option<string>, title: string, content: string)

  const BlankDraft := Draft(None, "", "")

  datatype NotesUi = NotesUi(mode: Mode, draft: Draft, confirmId: Option<string>)

  datatype Page = Page(app: AppContext.AppState, ui: NotesUi)

  /** `handleSave`. A title blank after trimming changes nothing. In add
      mode a new note with the trimmed title goes first; in edit mode the
      note with the draft's id gets the trimmed title and the content and
      no note is added. Either way the editor returns to the list,
      cleared. */
  function HandleSave(p: Page, nowMs: nat): (r: Page)
    ensures Trim(p.ui.draft.title) == "" ==> r == p
    ensures Trim(p.ui.draft.title) != "" ==>
      && r.ui == p.ui.(mode := ListMode, draft := BlankDraft)
      && r.app == p.app.(notes := r.app.notes)
    ensures Trim(p.ui.draft.title) != "" && p.ui.mode == AddMode ==>
      && |r.app.notes| == |p.app.notes| + 1
      && r.app.notes[1..] == p.app.notes
      && r.app.notes[0] == Note(Decimal(nowMs), Trim(p.ui.draft.title), p.ui.draft.content, nowMs)
    ensures Trim(p.ui.draft.title) != "" && p.ui.mode == EditMode && p.ui.draft.id.Some?
            && p.ui.draft.id.value != "" ==>
      && |r.app.notes| == |p.app.notes|
      && forall i :: 0 <= i < |p.app.notes| ==>
           if p.app.notes[i].id == p.ui.draft.id.value
           then r.app.notes[i] == p.app.notes[i].(title := Trim(p.ui.draft.title),
                                                  content := p.ui.draft.content,
                                                  updatedAt := nowMs)
           else r.app.notes[i] == p.app.notes[i]
    ensures !(p.ui.mode == AddMode
              || (p.ui.mode == EditMode && p.ui.draft.id.Some? && p.ui.draft.id.value != "")) ==>
      r.app == p.app
  {
    var d := p.ui.draft;
    var title := Trim(d.title);
    if title == "" then p
    else
      var app :=
        if p.ui.mode == AddMode then
          AppContext.AddNote(p.app, Note(Decimal(nowMs), title, d.content, nowMs))
        else if p.ui.mode == EditMode && d.id.Some? && d.id.value != "" then
          AppContext.UpdateNote(p.app, d.id.value, NotePatch(Some(title), Some(d.content)), nowMs)
        else p.app;
      assert p.ui.mode == AddMode ==> app.notes[1..] == p.app.notes;
      Page(app, p.ui.(mode := ListMode, draft := BlankDraft))
  }

  /** A saved title is never blank and carries no surrounding white
      space. */
  lemma SavedTitleIsTrimmed(p: Page, nowMs: nat)
    requires p.ui.mode == AddMode && Trim(p.ui.draft.title) != ""
    ensures var n := HandleSave(p, nowMs).app.notes[0];
      n.title != "" && Trim(n.title) == n.title
  {
    TrimIdempotent(p.ui.draft.title);
  }

  /** list to add: the editor opens empty. */
  function OpenAdd(ui: NotesUi): (r: NotesUi)
    ensures r.mode == AddMode && r.draft.id.None? && r.draft.title == "" && r.draft.content == ""
    ensures r.confirmId == ui.confirmId
  {
    ui.(mode := AddMode, draft := BlankDraft)
  }

  /** `handleAction`: list to view or edit, with the note loaded. */
  function Open(ui: NotesUi, n: Note, viewOnly: bool): (r: NotesUi)
    ensures r.mode == (if viewOnly then ViewMode else EditMode)
    ensures r.draft.id == Some(n.id) && r.draft.title == n.title && r.draft.content == n.content
    ensures r.confirmId == ui.confirmId
  {
    ui.(mode := if viewOnly then ViewMode else EditMode, draft := Draft(Some(n.id), n.title, n.content))
  }

  /** view to edit: the loaded note stays loaded. */
  function StartEditing(ui: NotesUi): (r: NotesUi)
    ensures r.mode == EditMode && r.draft == ui.draft && r.confirmId == ui.confirmId
  {
    ui.(mode := EditMode)
  }

  /** Back from the editor or the viewer: to the list, keeping the draft. */
  function Back(ui: NotesUi): (r: NotesUi)
    ensures r.mode == ListMode && r.draft == ui.draft && r.confirmId == ui.confirmId
  {
    ui.(mode := ListMode)
  }

  /** Opening a note for editing, from the list or through the viewer,
      and saving it unchanged keeps every note's title and content (only
      the edited note's time stamp moves) and adds no note. */
  lemma EditUnchangedKeepsNotes(app: AppContext.AppState, ui: NotesUi, n: Note, viaView: bool,
                                nowMs: nat)
    requires n.id != "" && Trim(n.title) == n.title && n.title != ""
    ensures var editor := if viaView then StartEditing(Open(ui, n, true)) else Open(ui, n, false);
      var r := HandleSave(Page(app, editor), nowMs);
      && |r.app.notes| == |app.notes|
      && forall i :: 0 <= i < |app.notes| ==>
           && r.app.notes[i].id == app.notes[i].id
           && (app.notes[i].id != n.id ==> r.app.notes[i] == app.notes[i])
           && (app.notes[i] == n ==> r.app.notes[i] == n.(updatedAt := nowMs))
  {
    var editor := if viaView then StartEditing(Open(ui, n, true)) else Open(ui, n, false);
    assert editor.mode == EditMode && editor.draft == Draft(Some(n.id), n.title, n.content);
    var r := HandleSave(Page(app, editor), nowMs);
    assert Trim(editor.draft.title) == n.title;
    forall i | 0 <= i < |app.notes|
      ensures r.app.notes[i].id == app.notes[i].id
      ensures app.notes[i].id != n.id ==> r.app.notes[i] == app.notes[i]
      ensures app.notes[i] == n ==> r.app.notes[i] == n.(updatedAt := nowMs)
    {
    }
  }

  /** `handleDelete`: with a pending confirmation deletes that note and
      clears it; otherwise does nothing. */
  function HandleDelete(p: Page): (r: Page)
    ensures p.ui.confirmId.None? || p.ui.confirmId == Some("") ==> r == p
    ensures p.ui.confirmId.Some? && p.ui.confirmId.value != "" ==>
      && (forall n :: n in r.app.notes <==> n in p.app.notes && n.id != p.ui.confirmId.value)
      && (forall n :: multiset(r.app.notes)[n]
                      == if n.id != p.ui.confirmId.value then multiset(p.app.notes)[n] else 0)
      && IsSubsequence(r.app.notes, p.app.notes)
      && r.app == p.app.(notes := r.app.notes)
      && r.ui == p.ui.(confirmId := None)
  {
    if p.ui.confirmId.Some? && p.ui.confirmId.value != "" then
      Page(AppContext.DeleteNote(p.app, p.ui.confirmId.value), p.ui.(confirmId := None))
    else p
  }
}
