/** Drag-and-drop reordering of the note list (useNoteDragAndDrop.ts): the
    bounded ancestor walk, the planner that turns a drop into at most one
    `note.update`, and the drag flags kept in the list state. */
module DragAndDrop {
  import opened Helper
  import opened Records
  import opened KeyOrder
  import opened NoteTree
  import opened ListState

  // ---------------------------------------------------------------------
  // Ancestry
  // ---------------------------------------------------------------------

  /** The walk gives up after this many steps. */
  const MaxDepth := 50

  /** `notesById.get(id)?.parentId`. */
  function ParentOf(byId: map<string, NoteWithChildren>, id: string): Option<string> {
    if id in byId then byId[id].note.parentId else None
  }

  /** A parent id the walk follows: truthy and present in the map. */
  predicate Followed(byId: map<string, NoteWithChildren>, p: Option<string>) {
    p.Some? && p.value != "" && p.value in byId
  }

  /** The `k`-th parent id above `node` (`k == 0` is its own parent id),
      or `None` once the chain has stopped at a missing, empty or unknown
      parent id. */
  function Up(byId: map<string, NoteWithChildren>, node: string, k: nat): Option<string> {
    if k == 0 then ParentOf(byId, node)
    else if Followed(byId, Up(byId, node, k - 1)) then ParentOf(byId, Up(byId, node, k - 1).value)
    else None
  }

  /** The loop of `isAncestor` from parent id `current` at step `depth`. */
  function AncestorWalk(a: string, current: Option<string>, byId: map<string, NoteWithChildren>, depth: nat): bool
    requires depth <= MaxDepth
    decreases MaxDepth - depth
  {
    if current.None? || depth >= MaxDepth then depth >= MaxDepth
    else if current.value == a then true
    else if current.value == "" then false
    else if current.value !in byId then false
    else AncestorWalk(a, byId[current.value].note.parentId, byId, depth + 1)
  }

  /** What `isAncestor(a, node, notesById)` returns. */
  function IsAncestorSpec(a: string, node: string, byId: map<string, NoteWithChildren>): bool {
    a == node || AncestorWalk(a, ParentOf(byId, node), byId, 0)
  }

  /** `isAncestor`: the loop over `currentParentId` and `depth`. */
  method IsAncestor(a: string, node: string, byId: map<string, NoteWithChildren>) returns (r: bool)
    ensures r == IsAncestorSpec(a, node, byId)
  {
    if a == node {
      return true;
    }
    var currentNode := if node in byId then Some(byId[node]) else None;
    var currentParentId := if currentNode.Some? then currentNode.value.note.parentId else None;
    var depth := 0;
    while currentParentId.Some? && depth < MaxDepth
      invariant depth <= MaxDepth
      invariant AncestorWalk(a, currentParentId, byId, depth) == AncestorWalk(a, ParentOf(byId, node), byId, 0)
      decreases MaxDepth - depth
    {
      if currentParentId.value == a {
        return true;
      }
      if currentParentId.value == "" {
        return false;
      }
      if currentParentId.value !in byId {
        return false;
      }
      var parentNode := byId[currentParentId.value];
      currentParentId := parentNode.note.parentId;
      depth := depth + 1;
    }
    if depth >= MaxDepth {
      return true;
    }
    return false;
  }

  /** Once the chain has stopped it stays stopped. */
  lemma {:induction false} UpStaysStopped(byId: map<string, NoteWithChildren>, node: string, k: nat, m: nat)
    requires !Followed(byId, Up(byId, node, k))
    requires k < m
    ensures Up(byId, node, m) == None
  {
    if m > k + 1 {
      UpStaysStopped(byId, node, k, m - 1);
    }
  }

  /** The walk from step `d` on, read off the chain. */
  lemma {:induction false} WalkReadsChain(a: string, node: string, byId: map<string, NoteWithChildren>, d: nat)
    requires d <= MaxDepth
    ensures AncestorWalk(a, Up(byId, node, d), byId, d) <==>
      (exists k :: d <= k < MaxDepth && Up(byId, node, k) == Some(a)) ||
      (forall k :: d <= k < MaxDepth ==> Followed(byId, Up(byId, node, k)))
    decreases MaxDepth - d
  {
    var cur := Up(byId, node, d);
    if d == MaxDepth {
    } else if cur == Some(a) {
    } else if !Followed(byId, cur) {
      forall k | d < k < MaxDepth ensures Up(byId, node, k) == None {
        UpStaysStopped(byId, node, d, k);
      }
    } else {
      WalkReadsChain(a, node, byId, d + 1);
      assert Up(byId, node, d + 1) == byId[cur.value].note.parentId;
      if (exists k :: d + 1 <= k < MaxDepth && Up(byId, node, k) == Some(a)) {
        var k :| d + 1 <= k < MaxDepth && Up(byId, node, k) == Some(a);
        assert d <= k;
      }
      if (exists k :: d <= k < MaxDepth && Up(byId, node, k) == Some(a)) {
        var k :| d <= k < MaxDepth && Up(byId, node, k) == Some(a);
        assert k != d;
      }
    }
  }

  /** `isAncestor(a, node)` holds exactly when `a` is `node`, or `a` is one
      of the first fifty ids on `node`'s parent chain, or the chain goes on
      for fifty steps (the conservative answer). */
  lemma IsAncestorMeaning(a: string, node: string, byId: map<string, NoteWithChildren>)
    ensures IsAncestorSpec(a, node, byId) <==>
      a == node ||
      (exists k :: 0 <= k < MaxDepth && Up(byId, node, k) == Some(a)) ||
      (forall k :: 0 <= k < MaxDepth ==> Followed(byId, Up(byId, node, k)))
  {
    WalkReadsChain(a, node, byId, 0);
  }

  /** When `isAncestor(a, node)` is false, `a` is neither `node` nor on
      `node`'s parent chain at any height. */
  lemma NotAncestorOffChain(a: string, node: string, byId: map<string, NoteWithChildren>)
    requires !IsAncestorSpec(a, node, byId)
    ensures a != node
    ensures forall k :: Up(byId, node, k) != Some(a)
  {
    IsAncestorMeaning(a, node, byId);
    var stop :| 0 <= stop < MaxDepth && !Followed(byId, Up(byId, node, stop));
    forall k: nat ensures Up(byId, node, k) != Some(a) {
      if k > stop {
        UpStaysStopped(byId, node, stop, k);
      }
    }
  }

  /** `notesById` after note `a` is given the parent id of `node`. */
  function Reparented(byId: map<string, NoteWithChildren>, a: string, node: string): (r: map<string, NoteWithChildren>)
    requires a in byId
    ensures r.Keys == byId.Keys
    ensures r[a].note.parentId == ParentOf(byId, node)
    ensures forall id :: id in byId && id != a ==> r[id] == byId[id]
  {
    byId[a := byId[a].(note := byId[a].note.(parentId := ParentOf(byId, node)))]
  }

  /** A move the ancestor check lets through creates no cycle: after `a`
      takes `node`'s parent, the chain above `a` is the chain above `node`,
      and it never comes back to `a`. */
  lemma {:induction false} MoveCreatesNoCycle(a: string, node: string, byId: map<string, NoteWithChildren>, k: nat)
    requires a in byId
    requires !IsAncestorSpec(a, node, byId)
    ensures Up(Reparented(byId, a, node), a, k) == Up(byId, node, k)
    ensures Up(Reparented(byId, a, node), a, k) != Some(a)
  {
    NotAncestorOffChain(a, node, byId);
    if k > 0 {
      MoveCreatesNoCycle(a, node, byId, k - 1);
    }
  }

  // ---------------------------------------------------------------------
  // Sibling order
  // ---------------------------------------------------------------------

  /** `ids.indexOf(x)`: the first position of `x`, or -1. */
  function IndexOf(ids: seq<string>, x: string): (r: int)
    ensures -1 <= r < |ids|
    ensures r == -1 <==> x !in ids
    ensures r >= 0 ==> ids[r] == x && x !in ids[..r]
  {
    if ids == [] then -1
    else if ids[0] == x then 0
    else
      var i := IndexOf(ids[1..], x);
      if i == -1 then -1
      else
        assert ids[..i + 1] == [ids[0]] + ids[1..][..i];
        i + 1
  }

  /** `s` without its element at `i`. */
  function RemoveAt(s: seq<string>, i: nat): (r: seq<string>)
    requires i < |s|
    ensures |r| == |s| - 1
    ensures multiset(r) + multiset{s[i]} == multiset(s)
  {
    assert s == s[..i] + [s[i]] + s[i + 1..];
    s[..i] + s[i + 1..]
  }

  /** `arrayMove(ids, from, to)` of the sortable package: the element at
      `from` is taken out and put back at `to`. */
  function ArrayMove(ids: seq<string>, from: nat, to: nat): (r: seq<string>)
    requires from < |ids| && to < |ids|
    ensures |r| == |ids| && r[to] == ids[from]
    ensures RemoveAt(r, to) == RemoveAt(ids, from)
    ensures multiset(r) == multiset(ids)
  {
    var rest := RemoveAt(ids, from);
    var r := rest[..to] + [ids[from]] + rest[to..];
    assert RemoveAt(r, to) == rest by {
      assert r[..to] == rest[..to];
      assert r[to + 1..] == rest[to..];
    }
    assert rest == rest[..to] + rest[to..];
    r
  }

  /** `notes.map(note => note.noteId)`. */
  function Ids(notes: seq<Note>): (r: seq<string>)
    ensures |r| == |notes|
    ensures forall i :: 0 <= i < |notes| ==> r[i] == notes[i].noteId
  {
    seq(|notes|, i requires 0 <= i < |notes| => notes[i].noteId)
  }

  /** `movedSiblingIds`: within its own parent, the dragged note is moved
      to the drop position; otherwise it is inserted there. */
  function SimulatedOrder(siblingIds: seq<string>, activeId: string, sameParent: bool, overIndex: nat): (r: seq<string>)
    requires overIndex < |siblingIds|
    ensures |r| == if activeId in siblingIds && sameParent then |siblingIds| else |siblingIds| + 1
    ensures r[overIndex] == activeId
    ensures activeId in siblingIds && sameParent ==>
      RemoveAt(r, overIndex) == RemoveAt(siblingIds, IndexOf(siblingIds, activeId))
    ensures !(activeId in siblingIds && sameParent) ==> RemoveAt(r, overIndex) == siblingIds
  {
    var activeIndex := IndexOf(siblingIds, activeId);
    if activeIndex != -1 && sameParent then
      ArrayMove(siblingIds, activeIndex, overIndex)
    else
      var r := siblingIds[..overIndex] + [activeId] + siblingIds[overIndex..];
      assert RemoveAt(r, overIndex) == siblingIds by {
        assert r[..overIndex] == siblingIds[..overIndex];
        assert r[overIndex + 1..] == siblingIds[overIndex..];
      }
      r
  }

  /** With distinct sibling ids, and the dragged note among the siblings
      only when it has their parent, the dragged note is found again at
      the drop position. */
  lemma SimulatedOrderFindsActive(siblingIds: seq<string>, activeId: string, sameParent: bool, overIndex: nat)
    requires overIndex < |siblingIds|
    requires NoRepeats(siblingIds)
    requires activeId in siblingIds ==> sameParent
    ensures IndexOf(SimulatedOrder(siblingIds, activeId, sameParent, overIndex), activeId) == overIndex
  {
    var r := SimulatedOrder(siblingIds, activeId, sameParent, overIndex);
    var rest := RemoveAt(r, overIndex);
    forall j | 0 <= j < overIndex ensures r[j] != activeId {
      assert r[j] == rest[j];
      if activeId in siblingIds {
        var i := IndexOf(siblingIds, activeId);
        assert rest == RemoveAt(siblingIds, i);
      }
    }
    assert r[..overIndex] == rest[..overIndex];
  }

  // ---------------------------------------------------------------------
  // The drop planner
  // ---------------------------------------------------------------------

  const SyncUnavailableMessage := "Sync engine not available."
  const NoteDataMissingMessage := "Error processing note move: Note data missing."
  const DropPositionMessage := "Error processing note move: Cannot determine drop position."
  const SiblingPositionMessage := "Error processing note move: Could not determine position among siblings."
  const FinalPositionMessage := "Failed to calculate final position."

  /** The toast for an error thrown while the move is computed. */
  function MoveFailedMessage(message: string): string {
    "Failed to move note: " + (if message != "" then message else "Unknown error")
  }

  /** What a drop ends in: nothing to do, a refused move (a warning), an
      error toast, or the one `note.update` to issue. */
  datatype DragOutcome = NoOp | Rejected | Failed(message: string) | Update(args: UpdateNoteArgs)

  /** The checks a drop passes before the move is computed and
      `isMovingNote` is raised. */
  predicate Validated(activeId: string, overId: Option<string>, clientAvailable: bool, isMovingNote: bool,
                      notesById: map<string, NoteWithChildren>)
  {
    overId.Some? && activeId != overId.value && clientAvailable && !isMovingNote &&
    activeId in notesById && overId.value in notesById &&
    !IsAncestorSpec(activeId, overId.value, notesById)
  }

  /** `id ? notesById.get(id) : null` for position `j` of `ids`. */
  function NeighbourNote(ids: seq<string>, j: int, notesById: map<string, NoteWithChildren>): Option<Note> {
    if 0 <= j < |ids| && ids[j] != "" && ids[j] in notesById then Some(notesById[ids[j]].note) else None
  }

  /** `targetSiblingIds`: the ids of the list `over` belongs to, the one
      under `overNote.parentId ?? null`. */
  function TargetSiblingIds(overId: string, notesById: map<string, NoteWithChildren>, childrenByParentId: map<Option<string>, seq<Note>>): seq<string>
    requires overId in notesById
  {
    Ids(SiblingsOf(notesById[overId].note.parentId, childrenByParentId))
  }

  /** `movedSiblingIds` for a drop of `activeId` onto `overId`. */
  function MovedOrder(activeId: string, overId: string, notesById: map<string, NoteWithChildren>, childrenByParentId: map<Option<string>, seq<Note>>): seq<string>
    requires activeId in notesById && overId in notesById
    requires overId in TargetSiblingIds(overId, notesById, childrenByParentId)
  {
    var siblingIds := TargetSiblingIds(overId, notesById, childrenByParentId);
    SimulatedOrder(siblingIds, activeId, notesById[activeId].note.parentId == notesById[overId].note.parentId,
                   IndexOf(siblingIds, overId))
  }

  /** The new key of the dragged note: it is found in the simulated order
      and given a key between the notes on either side of it there; an
      error is what the `try` block throws. */
  function MoveKey(moved: seq<string>, activeId: string, notesById: map<string, NoteWithChildren>, gen: KeyGenerator): (r: Result<string>)
    requires SoundGenerator(gen)
    ensures r.Ok? ==>
      Between(KeyOf(NeighbourNote(moved, IndexOf(moved, activeId) - 1, notesById)), r.value,
              KeyOf(NeighbourNote(moved, IndexOf(moved, activeId) + 1, notesById)))
  {
    var finalIndex := IndexOf(moved, activeId);
    if finalIndex == -1 then Err(FinalPositionMessage)
    else
      var prevNote := NeighbourNote(moved, finalIndex - 1, notesById);
      var nextNote := NeighbourNote(moved, finalIndex + 1, notesById);
      GetSortKeyBetweenItems(prevNote, nextNote, gen)
  }

  /** The `try` block of `handleDragEnd` after the drop position was found
      among the rendered notes: the target siblings, the new key, and the
      update when the parent or the key changes. */
  function PlaceMove(activeId: string, overId: string, notesById: map<string, NoteWithChildren>,
                     childrenByParentId: map<Option<string>, seq<Note>>, gen: KeyGenerator, now: int): (r: DragOutcome)
    requires SoundGenerator(gen)
    requires activeId in notesById && overId in notesById
    ensures overId !in TargetSiblingIds(overId, notesById, childrenByParentId) ==> r == Failed(SiblingPositionMessage)
    ensures r.NoOp? || r.Failed? || r.Update?
    ensures r.Update? ==>
      r.args.noteId == activeId &&
      r.args.parentId == Some(notesById[overId].note.parentId) &&
      r.args.sortKey.Some? && r.args.updatedAt == Some(now) &&
      r.args.title.None? && r.args.content.None? &&
      (notesById[activeId].note.parentId != notesById[overId].note.parentId ||
       notesById[activeId].note.sortKey != r.args.sortKey)
    ensures r.Update? ==>
      overId in TargetSiblingIds(overId, notesById, childrenByParentId) &&
      MoveKey(MovedOrder(activeId, overId, notesById, childrenByParentId), activeId, notesById, gen) == Ok(r.args.sortKey.value)
    ensures overId in TargetSiblingIds(overId, notesById, childrenByParentId) &&
            MoveKey(MovedOrder(activeId, overId, notesById, childrenByParentId), activeId, notesById, gen).Err? ==>
      r == Failed(MoveFailedMessage(MoveKey(MovedOrder(activeId, overId, notesById, childrenByParentId), activeId, notesById, gen).message))
    ensures overId in TargetSiblingIds(overId, notesById, childrenByParentId) &&
            MoveKey(MovedOrder(activeId, overId, notesById, childrenByParentId), activeId, notesById, gen).Ok? ==>
      var k := MoveKey(MovedOrder(activeId, overId, notesById, childrenByParentId), activeId, notesById, gen).value;
      (r == NoOp <==> notesById[activeId].note.parentId == notesById[overId].note.parentId &&
                      notesById[activeId].note.sortKey == Some(k)) &&
      (r != NoOp ==> r == Update(UpdateNoteArgs(activeId, None, None, Some(notesById[overId].note.parentId), Some(k), Some(now))))
  {
    var activeNote := notesById[activeId].note;
    var overNote := notesById[overId].note;
    var targetParentId := overNote.parentId;
    var siblingIds := TargetSiblingIds(overId, notesById, childrenByParentId);
    var overIndex := IndexOf(siblingIds, overId);
    if overIndex == -1 then Failed(SiblingPositionMessage)
    else
      match MoveKey(MovedOrder(activeId, overId, notesById, childrenByParentId), activeId, notesById, gen)
      case Err(message) => Failed(MoveFailedMessage(message))
      case Ok(newSortKey) =>
        if activeNote.parentId == targetParentId && activeNote.sortKey == Some(newSortKey) then NoOp
        else Update(UpdateNoteArgs(activeId, None, None, Some(targetParentId), Some(newSortKey), Some(now)))
  }

  /** The body of `handleDragEnd` once `setDraggingNoteId(null)` has run,
      with `Date.now()` as `now`: the checks in their order, then the move. */
  function PlanDragEnd(activeId: string, overId: Option<string>, clientAvailable: bool, isMovingNote: bool,
                       notesById: map<string, NoteWithChildren>, childrenByParentId: map<Option<string>, seq<Note>>,
                       renderedNoteIds: seq<string>, gen: KeyGenerator, now: int): (r: DragOutcome)
    requires SoundGenerator(gen)
    ensures overId.None? || (overId.Some? && activeId == overId.value) ==> r == NoOp
    ensures overId.Some? && activeId != overId.value && !clientAvailable ==> r == Failed(SyncUnavailableMessage)
    ensures overId.Some? && activeId != overId.value && clientAvailable && isMovingNote ==> r == NoOp
    ensures (overId.Some? && activeId != overId.value && clientAvailable && !isMovingNote &&
             (activeId !in notesById || overId.value !in notesById)) ==>
      r == Failed(NoteDataMissingMessage)
    ensures (overId.Some? && activeId != overId.value && clientAvailable && !isMovingNote &&
             activeId in notesById && overId.value in notesById && IsAncestorSpec(activeId, overId.value, notesById)) ==>
      r == Rejected
    ensures r.Rejected? ==> !Validated(activeId, overId, clientAvailable, isMovingNote, notesById)
    ensures Validated(activeId, overId, clientAvailable, isMovingNote, notesById) && overId.value !in renderedNoteIds ==>
      r == Failed(DropPositionMessage)
    ensures r.Update? ==>
      Validated(activeId, overId, clientAvailable, isMovingNote, notesById) && overId.value in renderedNoteIds
    ensures Validated(activeId, overId, clientAvailable, isMovingNote, notesById) && overId.value in renderedNoteIds ==>
      r == PlaceMove(activeId, overId.value, notesById, childrenByParentId, gen, now)
  {
    if overId.None? then NoOp
    else if activeId == overId.value then NoOp
    else if !clientAvailable then Failed(SyncUnavailableMessage)
    else if isMovingNote then NoOp
    else if activeId !in notesById || overId.value !in notesById then Failed(NoteDataMissingMessage)
    else if IsAncestorSpec(activeId, overId.value, notesById) then Rejected
    else if IndexOf(renderedNoteIds, overId.value) == -1 then Failed(DropPositionMessage)
    else PlaceMove(activeId, overId.value, notesById, childrenByParentId, gen, now)
  }

  /** The sibling lists as `buildNoteTree` leaves them: each listed note is
      the entry for its id and has the list's parent id, and no list holds
      an id twice. */
  ghost predicate SiblingListsConsistent(notesById: map<string, NoteWithChildren>, childrenByParentId: map<Option<string>, seq<Note>>) {
    ListMembers(NoteTreeData([], notesById, childrenByParentId)) && ListsDistinct(childrenByParentId)
  }

  /** On consistent sibling lists the dragged note lands exactly at the
      drop position, so the neighbours whose keys bound its new key are
      the notes around that position once the dragged note is taken out
      of its old place. */
  lemma DropLandsAtOverIndex(activeId: string, overId: string, notesById: map<string, NoteWithChildren>,
                             childrenByParentId: map<Option<string>, seq<Note>>)
    requires SiblingListsConsistent(notesById, childrenByParentId)
    requires activeId in notesById && overId in notesById
    requires overId in TargetSiblingIds(overId, notesById, childrenByParentId)
    ensures IndexOf(MovedOrder(activeId, overId, notesById, childrenByParentId), activeId) ==
      IndexOf(TargetSiblingIds(overId, notesById, childrenByParentId), overId)
  {
    var activeNote := notesById[activeId].note;
    var targetParentId := notesById[overId].note.parentId;
    var siblings := SiblingsOf(targetParentId, childrenByParentId);
    var siblingIds := TargetSiblingIds(overId, notesById, childrenByParentId);
    var overIndex := IndexOf(siblingIds, overId);
    var sameParent := activeNote.parentId == targetParentId;
    assert NoRepeats(siblingIds) by {
      if targetParentId in childrenByParentId {
        assert IdsDistinct(siblings);
      }
    }
    if activeId in siblingIds {
      var i :| 0 <= i < |siblingIds| && siblingIds[i] == activeId;
      assert siblings[i].noteId == activeId;
      assert siblings[i] in childrenByParentId[targetParentId];
    }
    SimulatedOrderFindsActive(siblingIds, activeId, sameParent, overIndex);
  }

  /** An update the planner issues never closes a cycle: with the dragged
      note moved under the drop target's parent, no height of its new
      parent chain leads back to it. */
  lemma PlannedMoveIsAcyclic(activeId: string, overId: Option<string>, clientAvailable: bool, isMovingNote: bool,
                             notesById: map<string, NoteWithChildren>, childrenByParentId: map<Option<string>, seq<Note>>,
                             renderedNoteIds: seq<string>, gen: KeyGenerator, now: int)
    requires SoundGenerator(gen)
    requires PlanDragEnd(activeId, overId, clientAvailable, isMovingNote, notesById, childrenByParentId, renderedNoteIds, gen, now).Update?
    ensures overId.Some? && activeId in notesById
    ensures PlanDragEnd(activeId, overId, clientAvailable, isMovingNote, notesById, childrenByParentId, renderedNoteIds, gen, now).args.parentId ==
      Some(ParentOf(notesById, overId.value))
    ensures forall k: nat :: Up(Reparented(notesById, activeId, overId.value), activeId, k) != Some(activeId)
  {
    forall k: nat ensures Up(Reparented(notesById, activeId, overId.value), activeId, k) != Some(activeId) {
      MoveCreatesNoCycle(activeId, overId.value, notesById, k);
    }
  }

  // ---------------------------------------------------------------------
  // The drag handlers
  // ---------------------------------------------------------------------

  /** `handleDragStart`: the dragged id is recorded and a stale move flag cleared. */
  method HandleDragStart(state: NoteListState, activeId: string)
    modifies state
    ensures state.draggingNoteId == Some(activeId) && !state.isMovingNote
    ensures state.expandedNoteIds == old(state.expandedNoteIds)
    ensures state.noteToDeleteId == old(state.noteToDeleteId) && state.isDeletingNote == old(state.isDeletingNote)
  {
    state.SetDraggingNoteId(Some(activeId));
    state.SetIsMovingNote(false);
  }

  /** `handleDragCancel`: both drag flags cleared. */
  method HandleDragCancel(state: NoteListState)
    modifies state
    ensures state.draggingNoteId.None? && !state.isMovingNote
    ensures state.expandedNoteIds == old(state.expandedNoteIds)
    ensures state.noteToDeleteId == old(state.noteToDeleteId) && state.isDeletingNote == old(state.isDeletingNote)
  {
    state.SetDraggingNoteId(None);
    state.SetIsMovingNote(false);
  }

  /** `handleDragEnd`: the dragged id is cleared whatever happens; once the
      drop is validated `isMovingNote` is raised while the move is computed
      and lowered again in every outcome. */
  method HandleDragEnd(state: NoteListState, activeId: string, overId: Option<string>, clientAvailable: bool,
                       notesById: map<string, NoteWithChildren>, childrenByParentId: map<Option<string>, seq<Note>>,
                       renderedNoteIds: seq<string>, gen: KeyGenerator, now: int)
    returns (outcome: DragOutcome)
    requires SoundGenerator(gen)
    modifies state
    ensures outcome == PlanDragEnd(activeId, overId, clientAvailable, old(state.isMovingNote), notesById,
                                   childrenByParentId, renderedNoteIds, gen, now)
    ensures state.draggingNoteId.None?
    ensures state.isMovingNote == old(state.isMovingNote)
    ensures Validated(activeId, overId, clientAvailable, old(state.isMovingNote), notesById) ==> !state.isMovingNote
    ensures state.expandedNoteIds == old(state.expandedNoteIds)
    ensures state.noteToDeleteId == old(state.noteToDeleteId) && state.isDeletingNote == old(state.isDeletingNote)
  {
    state.SetDraggingNoteId(None);
    var isMovingNote := state.isMovingNote;
    outcome := PlanDragEnd(activeId, overId, clientAvailable, isMovingNote, notesById,
                           childrenByParentId, renderedNoteIds, gen, now);
    if Validated(activeId, overId, clientAvailable, isMovingNote, notesById) {
      state.SetIsMovingNote(true);
      // The placement is computed and the update issued here; every path
      // out of the `try` lowers the flag.
      state.SetIsMovingNote(false);
    }
  }
}
