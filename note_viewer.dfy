/** The note viewer (NoteViewer.tsx): entering and leaving edit mode,
    saving only the fields that changed, and the field handlers. */
module NoteViewer {
  import opened Helper
  import opened Records
  import Mutators

  /** The values being edited. */
  datatype EditState = EditState(title: string, content: string)

  /** `note.title ?? ''`. */
  function TitleOrEmpty(n: Note): string {
    if n.title.Some? then n.title.value else ""
  }

  /** The payload of a save: the note's id, and `title` and `content` each
      only when the edited value differs from the stored one. */
  function ChangedFields(note: Note, edit: EditState): (r: UpdateNoteArgs)
    ensures r.noteId == note.noteId
    ensures r.title.Some? <==> edit.title != TitleOrEmpty(note)
    ensures r.content.Some? <==> edit.content != note.content
    ensures r.title.Some? ==> r.title.value == edit.title
    ensures r.content.Some? ==> r.content.value == edit.content
    ensures r.parentId.None? && r.sortKey.None? && r.updatedAt.None?
  {
    UpdateNoteArgs(note.noteId,
                   if edit.title != TitleOrEmpty(note) then Some(edit.title) else None,
                   if edit.content != note.content then Some(edit.content) else None,
                   None, None, None)
  }

  /** `changed`: the payload names a field. */
  predicate Changed(p: UpdateNoteArgs) {
    p.title.Some? || p.content.Some?
  }

  /** The mutation a save sends: the changed fields stamped with `now`. */
  function SaveMutation(note: Note, edit: EditState, now: int): UpdateNoteArgs {
    ChangedFields(note, edit).(updatedAt := Some(now))
  }

  /** Saving is enough: once the server applies the mutation, the note
      shows exactly the edited title and content, keeps its place in the
      tree, and carries the save time. */
  lemma SavedNoteShowsEdit(note: Note, edit: EditState, now: int)
    ensures var saved := Mutators.UpdatedNote(note, Mutators.UpdatePayload(SaveMutation(note, edit, now), 0));
      TitleOrEmpty(saved) == edit.title && saved.content == edit.content &&
      saved.parentId == note.parentId && saved.sortKey == note.sortKey && saved.updatedAt == now
  {
    var saved := Mutators.UpdatedNote(note, Mutators.UpdatePayload(SaveMutation(note, edit, now), 0));
    if edit.title == TitleOrEmpty(note) {
      assert saved.title == note.title;
    }
  }

  /** An edit that changes nothing sends nothing. */
  lemma UnchangedEditSendsNothing(note: Note)
    ensures !Changed(ChangedFields(note, EditState(TitleOrEmpty(note), note.content)))
  {
  }

  class NoteViewerState {
    var isEditing: bool
    var editState: Option<EditState>
    var isSaving: bool

    constructor ()
      ensures !isEditing && editState.None? && !isSaving
    {
      isEditing := false;
      editState := None;
      isSaving := false;
    }

    /** `handleEditClick`: with a loaded note, starts editing its current values. */
    method HandleEditClick(note: Option<Note>)
      modifies this
      ensures note.None? ==> isEditing == old(isEditing) && editState == old(editState)
      ensures note.Some? ==> isEditing && editState == Some(EditState(TitleOrEmpty(note.value), note.value.content))
      ensures isSaving == old(isSaving)
    {
      if note.None? {
        return;
      }
      editState := Some(EditState(TitleOrEmpty(note.value), note.value.content));
      isEditing := true;
    }

    /** `handleCancelClick`. */
    method HandleCancelClick()
      modifies this
      ensures !isEditing && editState.None? && !isSaving
    {
      isEditing := false;
      editState := None;
      isSaving := false;
    }

    /** `handleSaveClick`.  The mutation's outcome is `mutationSucceeds`;
        returns the mutation sent, if any.  Nothing happens without a note
        or an edit state, or while a save runs.  With no changed field,
        editing ends and nothing is sent; after a sent mutation, editing
        ends and the edit state is cleared on success and both are kept on
        failure.  No save is left running. */
    method HandleSaveClick(note: Option<Note>, now: int, mutationSucceeds: bool) returns (sent: Option<UpdateNoteArgs>)
      modifies this
      ensures note.None? || old(editState).None? || old(isSaving) ==>
        sent.None? && isEditing == old(isEditing) && editState == old(editState) && isSaving == old(isSaving)
      ensures note.Some? && old(editState).Some? && !old(isSaving) ==>
        var fields := ChangedFields(note.value, old(editState).value);
        !isSaving &&
        (!Changed(fields) ==> sent.None? && !isEditing && editState == old(editState)) &&
        (Changed(fields) ==> sent == Some(SaveMutation(note.value, old(editState).value, now))) &&
        (Changed(fields) && mutationSucceeds ==> !isEditing && editState.None?) &&
        (Changed(fields) && !mutationSucceeds ==> isEditing == old(isEditing) && editState == old(editState))
    {
      sent := None;
      if note.None? || editState.None? || isSaving {
        return;
      }
      isSaving := true;
      var payload := ChangedFields(note.value, editState.value);
      if !Changed(payload) {
        isEditing := false;
        isSaving := false;
        return;
      }
      sent := Some(payload.(updatedAt := Some(now)));
      if mutationSucceeds {
        isEditing := false;
        editState := None;
      }
      isSaving := false;
    }

    /** `handleTitleChange`: replaces the edited title while editing. */
    method HandleTitleChange(value: string)
      modifies this
      ensures isEditing && old(editState).Some? ==> editState == Some(old(editState).value.(title := value))
      ensures !(isEditing && old(editState).Some?) ==> editState == old(editState)
      ensures isEditing == old(isEditing) && isSaving == old(isSaving)
    {
      if !isEditing || editState.None? {
        return;
      }
      editState := Some(editState.value.(title := value));
    }

    /** `handleContentChange`: replaces the edited content while editing. */
    method HandleContentChange(value: string)
      modifies this
      ensures isEditing && old(editState).Some? ==> editState == Some(old(editState).value.(content := value))
      ensures !(isEditing && old(editState).Some?) ==> editState == old(editState)
      ensures isEditing == old(isEditing) && isSaving == old(isSaving)
    {
      if !isEditing || editState.None? {
        return;
      }
      editState := Some(editState.value.(content := value));
    }
  }
}
