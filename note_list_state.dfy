/** The note list's UI state (useNoteListState.ts): which notes are
    expanded, the drag flags, and the delete-confirmation dialog. */
module ListState {
  import opened Helper

  /** `!!expanded[id]`: an id never toggled counts as collapsed. */
  predicate IsExpanded(expanded: map<string, bool>, id: string) {
    id in expanded && expanded[id]
  }

  /** `{ ...prev, [id]: !prev[id] }`. */
  function Toggled(expanded: map<string, bool>, id: string): (r: map<string, bool>)
    ensures r.Keys == expanded.Keys + {id}
    ensures IsExpanded(r, id) == !IsExpanded(expanded, id)
    ensures forall other :: other in expanded && other != id ==> r[other] == expanded[other]
  {
    expanded[id := !IsExpanded(expanded, id)]
  }

  /** Toggling an id twice gives it back its expansion and leaves every other id as it was. */
  lemma ToggleTwice(expanded: map<string, bool>, id: string)
    ensures IsExpanded(Toggled(Toggled(expanded, id), id), id) == IsExpanded(expanded, id)
    ensures forall other :: other != id ==>
      IsExpanded(Toggled(Toggled(expanded, id), id), other) == IsExpanded(expanded, other)
  {
  }

  /** A non-empty string is truthy. */
  predicate PresentId(id: Option<string>) {
    id.Some? && id.value != ""
  }

  class NoteListState {
    var expandedNoteIds: map<string, bool>
    var isMovingNote: bool
    var draggingNoteId: Option<string>
    var noteToDeleteId: Option<string>
    var isDeletingNote: bool

    /** Nothing expanded, no drag, no pending or running delete. */
    constructor ()
      ensures expandedNoteIds == map[] && !isMovingNote && draggingNoteId.None?
      ensures noteToDeleteId.None? && !isDeletingNote
    {
      expandedNoteIds := map[];
      isMovingNote := false;
      draggingNoteId := None;
      noteToDeleteId := None;
      isDeletingNote := false;
    }

    /** `handleToggleExpand`: negates the flag of `id` only. */
    method HandleToggleExpand(id: string)
      modifies this
      ensures expandedNoteIds == Toggled(old(expandedNoteIds), id)
      ensures IsExpanded(expandedNoteIds, id) == !IsExpanded(old(expandedNoteIds), id)
      ensures forall other :: other != id ==> IsExpanded(expandedNoteIds, other) == IsExpanded(old(expandedNoteIds), other)
      ensures isMovingNote == old(isMovingNote) && draggingNoteId == old(draggingNoteId)
      ensures noteToDeleteId == old(noteToDeleteId) && isDeletingNote == old(isDeletingNote)
    {
      expandedNoteIds := expandedNoteIds[id := !IsExpanded(expandedNoteIds, id)];
    }

    method SetIsMovingNote(moving: bool)
      modifies this
      ensures isMovingNote == moving
      ensures expandedNoteIds == old(expandedNoteIds) && draggingNoteId == old(draggingNoteId)
      ensures noteToDeleteId == old(noteToDeleteId) && isDeletingNote == old(isDeletingNote)
    {
      isMovingNote := moving;
    }

    method SetDraggingNoteId(id: Option<string>)
      modifies this
      ensures draggingNoteId == id
      ensures expandedNoteIds == old(expandedNoteIds) && isMovingNote == old(isMovingNote)
      ensures noteToDeleteId == old(noteToDeleteId) && isDeletingNote == old(isDeletingNote)
    {
      draggingNoteId := id;
    }

    /** `requestDeleteNote`: opens the dialog for `id`. */
    method RequestDeleteNote(id: string)
      modifies this
      ensures noteToDeleteId == Some(id)
      ensures expandedNoteIds == old(expandedNoteIds) && isMovingNote == old(isMovingNote)
      ensures draggingNoteId == old(draggingNoteId) && isDeletingNote == old(isDeletingNote)
    {
      noteToDeleteId := Some(id);
    }

    /** `cancelDeleteNote`: closes the dialog; a running delete stays marked. */
    method CancelDeleteNote()
      modifies this
      ensures noteToDeleteId.None?
      ensures expandedNoteIds == old(expandedNoteIds) && isMovingNote == old(isMovingNote)
      ensures draggingNoteId == old(draggingNoteId) && isDeletingNote == old(isDeletingNote)
    {
      noteToDeleteId := None;
    }

    /** `confirmDeleteNote`: marks the delete as running only when an id
        (a non-empty one) is pending. */
    method ConfirmDeleteNote()
      modifies this
      ensures isDeletingNote == (old(isDeletingNote) || PresentId(old(noteToDeleteId)))
      ensures expandedNoteIds == old(expandedNoteIds) && isMovingNote == old(isMovingNote)
      ensures draggingNoteId == old(draggingNoteId) && noteToDeleteId == old(noteToDeleteId)
    {
      if PresentId(noteToDeleteId) {
        isDeletingNote := true;
      }
    }

    /** `finishDeleteNote`: the delete is over and the dialog closed. */
    method FinishDeleteNote()
      modifies this
      ensures !isDeletingNote && noteToDeleteId.None?
      ensures expandedNoteIds == old(expandedNoteIds) && isMovingNote == old(isMovingNote)
      ensures draggingNoteId == old(draggingNoteId)
    {
      isDeletingNote := false;
      noteToDeleteId := None;
    }
  }
}
