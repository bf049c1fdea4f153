/** The notes page (src/components/notes.tsx): the search-and-category
    filter, the pinned/regular split, note creation with comma-separated
    tags, pin toggling, deletion and the colour lookup. Every operation
    builds a new list, so each is a function here. */
module Notes {
  import opened Wrappers
  import opened Text
  import opened Arrays

  datatype Note = Note(
    id: int,
    title: string,
    content: string,
    category: string,
    tags: seq<string>,
    date: string,
    isPinned: bool,
    color: string)

  /** The form being filled in; `tags` is still the raw comma-separated text. */
  datatype NoteDraft = NoteDraft(title: string, content: string, category: string, tags: string, color: string)

  /** The form after a reset. */
  const EmptyDraft := NoteDraft("", "", "Work", "", "blue")

  /** The parts of the page state that note creation touches. */
  datatype NotesState = NotesState(notes: seq<Note>, draft: NoteDraft, isCreating: bool)

  const Categories: seq<string> := ["All", "Work", "Personal", "Learning", "Health"]

  /** `filteredNotes`' test: the term matches and the category is "All" or the note's own. */
  predicate NoteMatches(note: Note, searchTerm: string, selectedCategory: string)
  {
    TextMatches(note.title, note.content, note.tags, searchTerm)
    && (selectedCategory == "All" || note.category == selectedCategory)
  }

  function FilteredNotes(notes: seq<Note>, searchTerm: string, selectedCategory: string): (r: seq<Note>)
    ensures forall n :: n in r <==> n in notes && NoteMatches(n, searchTerm, selectedCategory)
    ensures IsSubseq(r, notes)
  {
    var p := (n: Note) => NoteMatches(n, searchTerm, selectedCategory);
    FilterMembers(p, notes);
    FilterIsSubseq(p, notes);
    Filter(p, notes)
  }

  /** With the empty term and "All" the page lists every note, in order. */
  lemma EmptyFilterKeepsAll(notes: seq<Note>)
    ensures FilteredNotes(notes, "", "All") == notes
  {
    var p := (n: Note) => NoteMatches(n, "", "All");
    forall i | 0 <= i < |notes|
      ensures p(notes[i])
    {
      EmptyTermMatches(notes[i].title, notes[i].content, notes[i].tags);
    }
    FilterAll(p, notes);
  }

  predicate IsPinned(note: Note)
  {
    note.isPinned
  }

  predicate IsRegular(note: Note)
  {
    !note.isPinned
  }

  /** The "Pinned" section: the filtered notes that are pinned. */
  function PinnedNotes(filtered: seq<Note>): (r: seq<Note>)
    ensures |r| <= |filtered|
    ensures forall n :: n in r ==> n in filtered && n.isPinned
  {
    FilterMembers(IsPinned, filtered);
    Filter(IsPinned, filtered)
  }

  /** The section of the other notes: the filtered notes that are not
      pinned. */
  function RegularNotes(filtered: seq<Note>): (r: seq<Note>)
    ensures |r| <= |filtered|
    ensures forall n :: n in r ==> n in filtered && !n.isPinned
  {
    FilterMembers(IsRegular, filtered);
    Filter(IsRegular, filtered)
  }

  /** The two sections share no note, together hold each filtered note as
      often as the filtered list does, and each keeps the filtered order. */
  lemma {:induction false} PinnedRegularPartition(filtered: seq<Note>)
    ensures multiset(PinnedNotes(filtered)) + multiset(RegularNotes(filtered)) == multiset(filtered)
    ensures forall n :: !(n in PinnedNotes(filtered) && n in RegularNotes(filtered))
    ensures forall n :: n in PinnedNotes(filtered) ==> n.isPinned
    ensures forall n :: n in RegularNotes(filtered) ==> !n.isPinned
    ensures IsSubseq(PinnedNotes(filtered), filtered) && IsSubseq(RegularNotes(filtered), filtered)
  {
    var a, b := PinnedNotes(filtered), RegularNotes(filtered);
    forall n
      ensures (multiset(a) + multiset(b))[n] == multiset(filtered)[n]
    {
      FilterCount(IsPinned, filtered, n);
      FilterCount(IsRegular, filtered, n);
    }
    assert multiset(a) + multiset(b) == multiset(filtered);
    FilterMembers(IsPinned, filtered);
    FilterMembers(IsRegular, filtered);
    FilterIsSubseq(IsPinned, filtered);
    FilterIsSubseq(IsRegular, filtered);
  }

  /** Each comma-separated piece trimmed, as `.map(tag => tag.trim())`. */
  function TrimAll(pieces: seq<string>): (r: seq<string>)
    ensures |r| == |pieces|
    ensures forall i :: 0 <= i < |r| ==> r[i] == Trim(pieces[i])
  {
    seq(|pieces|, i requires 0 <= i < |pieces| => Trim(pieces[i]))
  }

  predicate NonEmpty(tag: string)
  {
    tag != ""
  }

  /** `tags.split(',').map(tag => tag.trim()).filter(tag => tag)`. */
  function ParseTags(raw: string): (r: seq<string>)
    ensures |r| <= |Split(raw, ',')|
    ensures forall tag :: tag in r ==> tag != ""
  {
    FilterMembers(NonEmpty, TrimAll(Split(raw, ',')));
    Filter(NonEmpty, TrimAll(Split(raw, ',')))
  }

  /** A parsed tag is non-empty, holds no comma and has no white space at
      either end. */
  lemma ParseTagsClean(raw: string, tag: string)
    requires tag in ParseTags(raw)
    ensures tag != "" && ',' !in tag && Trim(tag) == tag
  {
    var pieces := Split(raw, ',');
    FilterMembers(NonEmpty, TrimAll(pieces));
    var j :| 0 <= j < |pieces| && TrimAll(pieces)[j] == tag;
    TrimIdempotent(pieces[j]);
    if ',' in tag {
      TrimSubset(pieces[j], ',');
    }
  }

  /** The parsed tags are exactly the non-empty trimmed pieces, in the
      order they were written. */
  lemma ParseTagsMembers(raw: string, tag: string)
    ensures tag in ParseTags(raw) <==> tag != "" && tag in TrimAll(Split(raw, ','))
    ensures IsSubseq(ParseTags(raw), TrimAll(Split(raw, ',')))
  {
    FilterMembers(NonEmpty, TrimAll(Split(raw, ',')));
    FilterIsSubseq(NonEmpty, TrimAll(Split(raw, ',')));
  }

  /** `handleCreateNote`: with a non-blank title and non-blank content the
      new note goes first, unpinned, with parsed tags; the form is reset
      and closed. Otherwise nothing changes. The clock's `Date.now()` and
      today's ISO date are parameters. */
  function CreateNote(st: NotesState, newId: int, today: string): (r: NotesState)
    ensures Blank(st.draft.title) || Blank(st.draft.content) ==> r == st
    ensures !Blank(st.draft.title) && !Blank(st.draft.content) ==>
              && |r.notes| == |st.notes| + 1
              && r.notes[1..] == st.notes
              && r.notes[0].id == newId && r.notes[0].date == today
              && r.notes[0].title == st.draft.title && r.notes[0].content == st.draft.content
              && r.notes[0].category == st.draft.category && r.notes[0].color == st.draft.color
              && r.notes[0].tags == ParseTags(st.draft.tags)
              && !r.notes[0].isPinned
              && r.draft == EmptyDraft && !r.isCreating
  {
    var d := st.draft;
    if Trim(d.title) != "" && Trim(d.content) != "" then
      var note := Note(newId, d.title, d.content, d.category, ParseTags(d.tags), today, false, d.color);
      NotesState([note] + st.notes, EmptyDraft, false)
    else
      st
  }

  /** A created note lands in the regular section, never the pinned one. */
  lemma CreatedNoteIsRegular(st: NotesState, newId: int, today: string)
    requires !Blank(st.draft.title) && !Blank(st.draft.content)
    ensures var r := CreateNote(st, newId, today);
            r.notes[0] in RegularNotes([r.notes[0]]) && PinnedNotes([r.notes[0]]) == []
  {
    var n := CreateNote(st, newId, today).notes[0];
    assert [n][1..] == [];
  }

  /** `togglePin`: one note's flag flipped. */
  function FlipPin(note: Note, id: int): Note
  {
    if note.id == id then note.(isPinned := !note.isPinned) else note
  }

  function TogglePin(notes: seq<Note>, id: int): (r: seq<Note>)
    ensures |r| == |notes|
    ensures forall i :: 0 <= i < |r| ==>
              if notes[i].id == id then r[i] == notes[i].(isPinned := !notes[i].isPinned) else r[i] == notes[i]
  {
    seq(|notes|, i requires 0 <= i < |notes| => FlipPin(notes[i], id))
  }

  /** Toggling the same pin twice restores the list. */
  lemma TogglePinTwice(notes: seq<Note>, id: int)
    ensures TogglePin(TogglePin(notes, id), id) == notes
  {
    var once := TogglePin(notes, id);
    var twice := TogglePin(once, id);
    assert forall i :: 0 <= i < |notes| ==> once[i].id == notes[i].id;
    assert |twice| == |notes|;
    assert forall i :: 0 <= i < |notes| ==> twice[i] == notes[i];
  }

  /** Toggling one pin leaves the ids and every other note's flag as they were. */
  lemma TogglePinKeepsOthers(notes: seq<Note>, id: int, i: int)
    requires 0 <= i < |notes|
    ensures TogglePin(notes, id)[i].id == notes[i].id
    ensures TogglePin(notes, id)[i].isPinned == (notes[i].isPinned != (notes[i].id == id))
  {
  }

  predicate Survives(note: Note, id: int)
  {
    note.id != id
  }

  /** `deleteNote`: every note with that id goes, every other note stays. */
  function DeleteNote(notes: seq<Note>, id: int): (r: seq<Note>)
    ensures forall n :: n in r <==> n in notes && n.id != id
    ensures IsSubseq(r, notes)
  {
    var p := (n: Note) => Survives(n, id);
    FilterMembers(p, notes);
    FilterIsSubseq(p, notes);
    Filter(p, notes)
  }

  /** Deleting is exact on counts: another note keeps its multiplicity. */
  lemma DeleteNoteCount(notes: seq<Note>, id: int, n: Note)
    ensures multiset(DeleteNote(notes, id))[n] == if n.id == id then 0 else multiset(notes)[n]
  {
    FilterCount((m: Note) => Survives(m, id), notes, n);
  }

  /** The colour families of the palette, in order. Their CSS class
      strings are not modelled; a lookup yields the family whose classes
      the card gets. */
  const Palette: seq<string> := ["blue", "green", "orange", "purple"]

  /** `getColorClasses`: the palette entry with that name, else gray. */
  function ColorClasses(colorName: string): (r: string)
    ensures colorName in Palette ==> r == colorName
    ensures colorName !in Palette ==> r == "gray"
  {
    match Find(Palette, (c: string) => c == colorName)
    case Some(i) => Palette[i]
    case None => "gray"
  }

  /** The gray fallback is reached exactly by the names outside the palette. */
  lemma ColorFallbackIff(colorName: string)
    ensures ColorClasses(colorName) == "gray" <==> colorName !in Palette
  {
    if colorName in Palette {
      var i :| 0 <= i < 4 && Palette[i] == colorName;
      assert colorName[3] != 'y';
    }
  }
}
