# radhe-app note tree, in Dafny

This project models the core of radhe-app, a multi-tenant note-taking application. Its notes form an ordered tree. Siblings are ordered by fractional `sortKey` strings, and the Zero sync engine keeps client and server in step. The model covers:

- **Read model** (`NoteTree`): `buildNoteTree` turns a flat note list into three things: an id index, sorted per-parent child lists and the root list. `KeyOrder` is JavaScript's `<` on strings, as lexicographic order on `seq<char>`. The key helpers pick a key at the end of a sibling list or between two neighbours. `fractional-indexing`'s `generateKeyBetween` is an abstract generator: it returns a key strictly between its bounds, or it fails.
- **Drag and drop** (`DragAndDrop`):
  - `isAncestor` is a bounded walk up `parentId` links.
  - The body of `handleDragEnd` is a planner returning `NoOp`, `Rejected`, `Failed(message)` or `Update(args)`.
  - The drag flags live in the list state.
- **Server mutators** (`Mutators`):
  - `user.update`, `note.insert` and `note.update`;
  - the cascading `note.delete`: a breadth-first walk with a visited set, then deletion in reverse discovery order.
  - All of them run on a `Transaction` class that holds the `note` and `user` tables as maps.
- **Permissions** (`Schema`, `Auth`, `Helper`): the row predicates, the per-table rule table, `assertIsLoggedIn`, `assert` and `must`.
- **UI state**:
  - the expand and delete-dialog state (`ListState`);
  - the pre-order list of rendered ids, the drag depth and the delete sequence (`NoteList`);
  - the legacy position/depth/path of a new child (`NoteItem`);
  - the edit/save state and its changed-field payload (`NoteViewer`);
  - the auth redirect rule (`RootLayout`).
- **`scripts/shell.js`** (`Shell`): the `.env` line parser, the container check and the `docker-compose` arguments.

`Records` holds the rows and mutation arguments. There is one `Note` datatype: the union of the columns the client, the server and the legacy row code use.

Where the written design and the code differ, the model follows the code:
- `user.update` lets a principal change only their own user row (`args.userId` must equal `auth.sub`). It is not tenant-scoped.
- `note.update` keeps an `updatedAt` the caller supplies. It stamps `now` only when none is given.
- `note.update` has no cycle check and does not check the new parent's organisation. Cycle prevention exists only in the client planner (`DragAndDrop.PlannedMoveIsAcyclic`).
- A note whose `parentId` names no note in the input stays in `notesById` and gets a list under that unknown key. It then appears neither in `tree` nor in any note's `children` (`NoteTree.DanglingNoteDropped`).
- `sortKey` is optional. The child-adding button of `NoteItem.tsx` inserts without one, and the comparator reads a missing key as `""`.
- The `.env` parser keeps only the text between the first and second `=`. A value containing `=` is cut short there (`Shell.LineEntry`).
- The delete walk skips falsy ids, as `!currentId` does. A request to delete an owned note whose id is `""` passes the ownership check and then deletes nothing.

## Model

| member | source | states |
|---|---|---|
| Helper.Assert | packages/zero-shared/src/helper.ts:1-5 | passes iff the value is truthy; on failure the message is `msg` or `msg()`, with default "Assertion failed" |
| Helper.Must | packages/zero-shared/src/helper.ts:7-12 | succeeds iff the value is neither null nor undefined, returning it unchanged; otherwise fails with `msg` or "Unexpected null/undefined value" |
| Auth.AssertIsLoggedIn | packages/zero-shared/src/auth.ts:11-13 | succeeds iff auth data is present (whatever its fields) and returns that data; otherwise fails with "user must be logged in for this operation" |
| Schema.Rules | packages/zero-shared/src/schema.ts:134-155 | user rows have no insert or delete rule and need `canSeeUsers` for the rest; every note action needs `canAccessNote` |
| Schema.AllowedMeaning | packages/zero-shared/src/schema.ts:109-133 | an action is allowed iff a rule is declared for it, `sub` is non-null and the row's organisation equals the principal's (a missing one counts as "") |
| Schema.CrossOrgUpdateRefused | packages/zero-shared/src/schema.ts:140-150 | no update passes both the pre- and the post-mutation check when it changes the row's organisation |
| Schema.OwnershipIsSameOrg | packages/zero-shared/src/schema.ts:128-133 | a principal sees exactly the notes of its own organisation |
| KeyOrder.LessIffDiffersFirst | apps/frontend/src/features/notes/utils/note-tree.ts:88-89 | `a < b` iff `a` is a proper prefix of `b` or they first differ at a position where `a` has the smaller character |
| KeyOrder.LessIrreflexive | apps/frontend/src/features/notes/utils/note-tree.ts:88-89 | no key is less than itself |
| KeyOrder.LessTransitive | apps/frontend/src/features/notes/utils/note-tree.ts:88-89 | key order is transitive |
| KeyOrder.LessTotal | apps/frontend/src/features/notes/utils/note-tree.ts:88-89 | any two keys are equal or ordered one way |
| KeyOrder.LessAsymmetric | apps/frontend/src/features/notes/utils/note-tree.ts:88-89 | `a < b` excludes `b < a` |
| KeyOrder.BetweenNeedsOrderedBounds | apps/frontend/src/features/notes/utils/note-tree.ts:159-165 | a key strictly between two bounds exists only when the bounds are ordered, which is why out-of-order neighbours are refused |
| NoteTree.GenerateSortKey | apps/frontend/src/features/notes/utils/note-tree.ts:19-31 | the key is strictly above `before` and below `after` where those exist, or it fails with the index-exhaustion message; it always fails on unordered bounds |
| NoteTree.NodeLeTotal | apps/frontend/src/features/notes/utils/note-tree.ts:85-94 | the comparator (key, missing as "", then `createdAt`) orders any two notes |
| NoteTree.NodeLeTransitive | apps/frontend/src/features/notes/utils/note-tree.ts:85-94 | the comparator is transitive |
| NoteTree.InsertNode | apps/frontend/src/features/notes/utils/note-tree.ts:96-99 | inserting into a sorted list yields a sorted list holding the old list with the note placed at one position |
| NoteTree.SortNodes | apps/frontend/src/features/notes/utils/note-tree.ts:96-99 | the sorted list is ordered by the comparator and is a permutation of its input |
| NoteTree.SortKeepsIdsDistinct | apps/frontend/src/features/notes/utils/note-tree.ts:96-99 | sorting keeps ids distinct |
| NoteTree.IndexById | apps/frontend/src/features/notes/utils/note-tree.ts:45-62 | every id is indexed under its own `noteId` |
| NoteTree.IndexByIdKeys | apps/frontend/src/features/notes/utils/note-tree.ts:45-62 | the index has exactly one key per distinct input `noteId` |
| NoteTree.IndexByIdLastWins | apps/frontend/src/features/notes/utils/note-tree.ts:45-62 | a later note with the same id replaces an earlier one |
| NoteTree.BuildNoteTree | apps/frontend/src/features/notes/utils/note-tree.ts:34-120 | missing or empty input gives an empty tree and maps. Otherwise the result is well built: notes indexed by id; lists keyed by `null` and every id; each note in exactly the list of its `parentId ?? null`; lists sorted; each note's `children` equal to its list; `tree` the `null` list |
| NoteTree.IndexNotes | apps/frontend/src/features/notes/utils/note-tree.ts:44-66 | pass 1: one entry per distinct id with empty `children`, and an empty list under `null` and under every id |
| NoteTree.GroupByParent | apps/frontend/src/features/notes/utils/note-tree.ts:69-82 | pass 2: every note is pushed onto the list of its parent key, creating the list for an unknown parent |
| NoteTree.SortLists | apps/frontend/src/features/notes/utils/note-tree.ts:96-99 | pass 3: every list, the root list included, is replaced by its sorted version |
| NoteTree.LinkChildren | apps/frontend/src/features/notes/utils/note-tree.ts:101-119 | pass 4: every note's `children` becomes the list stored under its id, and nothing else changes |
| NoteTree.SortingKeepsMembers | apps/frontend/src/features/notes/utils/note-tree.ts:96-99 | sorting the lists keeps their members and their distinctness |
| NoteTree.DanglingNoteDropped | apps/frontend/src/features/notes/utils/note-tree.ts:70-82 | a note with an unknown parent id sits in a list under that id, yet is neither in `tree` nor in any note's `children` |
| NoteTree.GetSortKeyForNewItem | apps/frontend/src/features/notes/utils/note-tree.ts:126-142 | with no siblings the key is the `(null, null)` key; otherwise it lies above the last sibling's key |
| NoteTree.NewItemKeyAfterSiblings | apps/frontend/src/features/notes/utils/note-tree.ts:126-142 | in a sorted list with keys, the new key is above every sibling's key |
| NoteTree.GetSortKeyBetweenItems | apps/frontend/src/features/notes/utils/note-tree.ts:145-168 | fails with "Invalid sort key order..." when both keys exist and `prev >= next`; otherwise a returned key lies strictly between the neighbours |
| ListState.Toggled | apps/frontend/src/features/notes/hooks/useNoteListState.ts:14-16 | negates the flag of one id (absent counts as false) and keeps every other entry |
| ListState.ToggleTwice | apps/frontend/src/features/notes/hooks/useNoteListState.ts:14-16 | toggling the same id twice restores the expansion of every id |
| ListState.NoteListState.constructor | apps/frontend/src/features/notes/hooks/useNoteListState.ts:6-12 | nothing expanded, not moving, not dragging, no pending delete, not deleting |
| ListState.NoteListState.HandleToggleExpand | apps/frontend/src/features/notes/hooks/useNoteListState.ts:14-16 | only the toggled id's expansion changes |
| ListState.NoteListState.SetIsMovingNote | apps/frontend/src/features/notes/hooks/useNoteListState.ts:7 | sets only `isMovingNote` |
| ListState.NoteListState.SetDraggingNoteId | apps/frontend/src/features/notes/hooks/useNoteListState.ts:8 | sets only `draggingNoteId` |
| ListState.NoteListState.RequestDeleteNote | apps/frontend/src/features/notes/hooks/useNoteListState.ts:19-21 | sets the pending id and nothing else |
| ListState.NoteListState.CancelDeleteNote | apps/frontend/src/features/notes/hooks/useNoteListState.ts:23-25 | clears the pending id without touching `isDeletingNote` |
| ListState.NoteListState.ConfirmDeleteNote | apps/frontend/src/features/notes/hooks/useNoteListState.ts:27-34 | sets `isDeletingNote` only when a pending id exists; otherwise nothing changes |
| ListState.NoteListState.FinishDeleteNote | apps/frontend/src/features/notes/hooks/useNoteListState.ts:37-40 | clears `isDeletingNote` and the pending id |
| DragAndDrop.IsAncestor | apps/frontend/src/features/notes/hooks/useNoteDragAndDrop.ts:25-63 | the while-loop computes the bounded ancestor walk |
| DragAndDrop.UpStaysStopped | apps/frontend/src/features/notes/hooks/useNoteDragAndDrop.ts:45-54 | once the chain stops at a null or unknown parent, it stays stopped |
| DragAndDrop.WalkReadsChain | apps/frontend/src/features/notes/hooks/useNoteDragAndDrop.ts:39-60 | from step `d`, the walk is true iff `a` is met in the remaining steps or all of them follow known parents |
| DragAndDrop.IsAncestorMeaning | apps/frontend/src/features/notes/hooks/useNoteDragAndDrop.ts:30-62 | true iff `a == node`, or `a` is among the first 50 links of `node`'s parent chain, or the chain runs 50 steps without stopping |
| DragAndDrop.NotAncestorOffChain | apps/frontend/src/features/notes/hooks/useNoteDragAndDrop.ts:30-62 | a false answer means `a` is not `node` and never occurs on its parent chain |
| DragAndDrop.Reparented | apps/frontend/src/features/notes/hooks/useNoteDragAndDrop.ts:171 | the move gives the active note `over`'s parent and leaves every other note as it was |
| DragAndDrop.MoveCreatesNoCycle | apps/frontend/src/features/notes/hooks/useNoteDragAndDrop.ts:149-155 | after a move that passed the ancestor check, the moved note's chain is `over`'s old chain and never returns to the moved note |
| DragAndDrop.IndexOf | apps/frontend/src/features/notes/hooks/useNoteDragAndDrop.ts:176-185 | `indexOf`: -1 iff absent, else the first position holding the id |
| DragAndDrop.ArrayMove | apps/frontend/src/features/notes/hooks/useNoteDragAndDrop.ts:188 | `arrayMove`: the moved id lands at `to`, the rest keep their order, and the list is a permutation |
| DragAndDrop.SimulatedOrder | apps/frontend/src/features/notes/hooks/useNoteDragAndDrop.ts:184-196 | the active id is at `over`'s index; with the same parent the other ids keep their order, otherwise it is inserted into the unchanged siblings |
| DragAndDrop.SimulatedOrderFindsActive | apps/frontend/src/features/notes/hooks/useNoteDragAndDrop.ts:198-201 | with distinct sibling ids, `finalIndex` is `over`'s index |
| DragAndDrop.MoveKey | apps/frontend/src/features/notes/hooks/useNoteDragAndDrop.ts:203-210 | a returned key lies strictly between the keys of the active note's neighbours in the simulated order |
| DragAndDrop.PlaceMove | apps/frontend/src/features/notes/hooks/useNoteDragAndDrop.ts:171-222 | aborts when `over` is not among its siblings; a key error fails with "Failed to move note: …". Given the key between the neighbours, it does nothing iff parent and key are unchanged, and otherwise issues exactly the update of the active note to `over`'s parent, that key and `updatedAt = now` |
| DragAndDrop.PlanDragEnd | apps/frontend/src/features/notes/hooks/useNoteDragAndDrop.ts:111-230 | no-op without `over`, on a self-drop or while moving; fails without a client or with a missing note; rejects a drop onto a descendant; fails when `over` is not rendered; every other drop ends exactly as `PlaceMove` decides, and only such a drop issues an update |
| DragAndDrop.DropLandsAtOverIndex | apps/frontend/src/features/notes/hooks/useNoteDragAndDrop.ts:184-201 | in consistent sibling lists, the active note ends up at `over`'s index |
| DragAndDrop.PlannedMoveIsAcyclic | apps/frontend/src/features/notes/hooks/useNoteDragAndDrop.ts:149-171 | an issued update's new parent is `over`'s parent, and after it the active note is never its own ancestor |
| DragAndDrop.HandleDragStart | apps/frontend/src/features/notes/hooks/useNoteDragAndDrop.ts:101-104 | records the dragged id and clears `isMovingNote` |
| DragAndDrop.HandleDragCancel | apps/frontend/src/features/notes/hooks/useNoteDragAndDrop.ts:106-109 | clears the dragged id and `isMovingNote` |
| DragAndDrop.HandleDragEnd | apps/frontend/src/features/notes/hooks/useNoteDragAndDrop.ts:111-230 | returns the planner's outcome, clears the dragged id, and leaves `isMovingNote` false after every validated drop |
| NoteList.GroupedIsNested | apps/frontend/src/features/notes/components/NoteList.tsx:74-86 | a built tree links each note's `children` to exactly the notes naming it as parent, with distinct ids |
| NoteList.ChainUnique | apps/frontend/src/features/notes/components/NoteList.tsx:74-86 | two root-to-note chains ending at the same note are equal |
| NoteList.CollectIds | apps/frontend/src/features/notes/components/NoteList.tsx:76-84 | appends the rendered ids of a list of notes to `ids` |
| NoteList.CollectNote | apps/frontend/src/features/notes/components/NoteList.tsx:77-82 | appends a note's id, then its subtree only when it is expanded and has children |
| NoteList.ComputeRenderedNoteIds | apps/frontend/src/features/notes/components/NoteList.tsx:74-86 | the computed list is the pre-order listing of the tree |
| NoteList.RenderedIsVisible | apps/frontend/src/features/notes/components/NoteList.tsx:79-81 | a listed id is reached from the list through expanded ancestors only |
| NoteList.SubtreeIsVisible | apps/frontend/src/features/notes/components/NoteList.tsx:79-81 | an id in a note's listing is reached from that note through expanded ancestors |
| NoteList.VisibleIsRendered | apps/frontend/src/features/notes/components/NoteList.tsx:79-81 | an id reached through expanded ancestors is listed |
| NoteList.RenderedIffVisible | apps/frontend/src/features/notes/components/NoteList.tsx:79-81 | an id is listed iff every ancestor below the list is expanded |
| NoteList.ListIsRendered | apps/frontend/src/features/notes/components/NoteList.tsx:76-84 | every note of the list itself appears |
| NoteList.RenderedNoRepeats | apps/frontend/src/features/notes/components/NoteList.tsx:76-84 | sibling lists with distinct ids render no id twice |
| NoteList.SubtreeNoRepeats | apps/frontend/src/features/notes/components/NoteList.tsx:77-82 | a note's listing has no repeated id |
| NoteList.RenderedNoteIdsMeaning | apps/frontend/src/features/notes/components/NoteList.tsx:74-86 | for a built tree, an id is listed iff it is visible from the roots; every root is listed; no id appears twice |
| NoteList.DraggingNoteLevel | apps/frontend/src/features/notes/components/NoteList.tsx:179-190 | 0 with no dragged note; otherwise the number of consecutive known ancestors, stopping at a missing parent and capped at 10 |
| NoteList.RootDragsAtLevelZero | apps/frontend/src/features/notes/components/NoteList.tsx:179-190 | a root has no known ancestor, so it is shown at level 0 |
| NoteList.HandleConfirmDelete | apps/frontend/src/features/notes/components/NoteList.tsx:106-133 | `note.delete` runs once, on the pending id, only with a pending id and a client; it navigates home only after a successful delete of the open note; the dialog state is reset at the end |
| NoteList.GetNextTopLevelSortKey | apps/frontend/src/features/notes/components/NoteList.tsx:137-139 | the key for a new root is the new-item key under `null` |
| NoteList.TopLevelKeyAfterRoots | apps/frontend/src/features/notes/components/NoteList.tsx:137-139 | for a built tree whose roots have keys, the new root's key is above every root's key |
| Mutators.UpdatedUser | packages/zero-shared/src/mutators.ts:43 | the user row after `tx.mutate.user.update`: given columns replaced, the key and the rest kept |
| Mutators.UpdatedNote | packages/zero-shared/src/mutators.ts:76 | the note row after `tx.mutate.note.update`: given columns replaced; id, organisation, creator and `createdAt` kept |
| Mutators.Transaction.constructor | packages/zero-shared/src/mutators.ts:37 | a transaction over tables whose rows sit under their own keys |
| Mutators.Transaction.QueryNote | packages/zero-shared/src/mutators.ts:62 | finds the row with the id, if any |
| Mutators.Transaction.QueryChildren | packages/zero-shared/src/mutators.ts:113-117 | exactly the rows with the given parent and organisation, each once, in some order |
| Mutators.Transaction.InsertNote | packages/zero-shared/src/mutators.ts:54 | adds the row unless its key exists; users untouched |
| Mutators.Transaction.UpdateNote | packages/zero-shared/src/mutators.ts:76 | updates the existing row and nothing else |
| Mutators.Transaction.DeleteNote | packages/zero-shared/src/mutators.ts:134 | removes the row with the id and nothing else |
| Mutators.Transaction.UpdateUser | packages/zero-shared/src/mutators.ts:43 | updates the existing user row and nothing else |
| Mutators.UserUpdate | packages/zero-shared/src/mutators.ts:37-44 | fails when not logged in, then with "Permission denied to update user." unless `userId == sub`; on success applies `args` unchanged; on failure writes nothing |
| Mutators.NewNoteRow | packages/zero-shared/src/mutators.ts:48-52 | organisation and creator come from the principal, seven fields from the arguments, and legacy fields are dropped |
| Mutators.NoteInsert | packages/zero-shared/src/mutators.ts:48-55 | succeeds iff logged in, and then writes exactly that row; otherwise fails writing nothing |
| Mutators.UpdatePayload | packages/zero-shared/src/mutators.ts:69-72 | the caller's changes, with their `updatedAt` if given and `now` otherwise |
| Mutators.NoteUpdate | packages/zero-shared/src/mutators.ts:56-77 | fails when not logged in, or with "Note not found or permission denied." on a missing or foreign note, writing nothing; otherwise applies the payload to that note only |
| Mutators.CollectSubtree | packages/zero-shared/src/mutators.ts:91-124 | ends on any data. The root comes first, no id is repeated, each id is an owned note, and each later id has its parent earlier. Every owned child of a collected note is collected. It is empty iff the root is not visitable |
| Mutators.PushChildren | packages/zero-shared/src/mutators.ts:119-123 | queues exactly the unvisited owned children of the current note |
| Mutators.Reversed | packages/zero-shared/src/mutators.ts:129-130 | `reverse()`: position `i` holds the element at `n-1-i` |
| Mutators.ReversedTwice | packages/zero-shared/src/mutators.ts:129-130 | reversing twice restores the order |
| Mutators.ChildDeletedBeforeParent | packages/zero-shared/src/mutators.ts:129-135 | in reverse discovery order the root is deleted last, and every other deleted note's parent is deleted after it |
| Mutators.DeleteEach | packages/zero-shared/src/mutators.ts:130-135 | removes exactly the listed ids |
| Mutators.NoOrphanLeft | packages/zero-shared/src/mutators.ts:91-135 | no owned note remains whose parent was deleted |
| Mutators.NoteDelete | packages/zero-shared/src/mutators.ts:79-137 | fails when not logged in, or on a missing or foreign root, deleting nothing. Otherwise it deletes the root and all the notes of the walk, in reverse discovery order, and nothing else |
| NoteItem.MaxPosition | apps/frontend/src/features/notes/components/NoteItem.tsx:31 | the largest sibling position, counting a missing one as 0 |
| NoteItem.CalculateNextPosition | apps/frontend/src/features/notes/components/NoteItem.tsx:27-33 | 0 without siblings; otherwise one above the largest sibling position, so above every sibling |
| NoteItem.IntText | apps/frontend/src/features/notes/components/NoteItem.tsx:96 | the decimal text of a position is non-empty and has no '.' |
| NoteItem.DigitsRoundTrip | apps/frontend/src/features/notes/components/NoteItem.tsx:96 | the digits of a natural number read back as that number |
| NoteItem.IntTextRoundTrip | apps/frontend/src/features/notes/components/NoteItem.tsx:96 | the text of any integer reads back as that integer |
| NoteItem.LastDot | apps/frontend/src/features/notes/components/NoteItem.tsx:96 | finds the last '.' of a path, or none when there is none |
| NoteItem.LastDotAfter | apps/frontend/src/features/notes/components/NoteItem.tsx:96 | in `p + "." + text` with a dot-free `text`, the last dot is the joining one |
| NoteItem.NewPathSplits | apps/frontend/src/features/notes/components/NoteItem.tsx:96 | the new path splits back into the parent's path (when truthy) and the new position |
| NoteItem.ChildArgs | apps/frontend/src/features/notes/components/NoteItem.tsx:89-111 | the inserted row: empty title and content, the parent, no sort key, the two clock readings as `createdAt` and `updatedAt`, the next position, parent depth + 1 (missing as -1), and a path ending in the position |
| NoteItem.NoteRow.constructor | apps/frontend/src/features/notes/components/NoteItem.tsx:49 | no add in progress |
| NoteItem.NoteRow.HandleToggle | apps/frontend/src/features/notes/components/NoteItem.tsx:73-79 | toggles the note only when the map lists children for it |
| NoteItem.NoteRow.HandleAddChild | apps/frontend/src/features/notes/components/NoteItem.tsx:81-129 | nothing without a client or during an add. Otherwise it inserts the child row, toggles a collapsed parent open exactly once after success, and ends with no add in progress |
| NoteViewer.ChangedFields | apps/frontend/src/features/notes/components/NoteViewer.tsx:60-69 | the payload has `noteId`, has `title` iff it differs from `note.title ?? ''`, and `content` iff it differs |
| NoteViewer.SavedNoteShowsEdit | apps/frontend/src/features/notes/components/NoteViewer.tsx:60-80 | applying the saved payload gives the note the edited title and content and `updatedAt = now`, keeping its place |
| NoteViewer.UnchangedEditSendsNothing | apps/frontend/src/features/notes/components/NoteViewer.tsx:71-76 | an edit state equal to the note changes no field |
| NoteViewer.NoteViewerState.constructor | apps/frontend/src/features/notes/components/NoteViewer.tsx:24-26 | not editing, no edit state, not saving |
| NoteViewer.NoteViewerState.HandleEditClick | apps/frontend/src/features/notes/components/NoteViewer.tsx:38-46 | with a note, enters editing with its title (or '') and content; without one does nothing |
| NoteViewer.NoteViewerState.HandleCancelClick | apps/frontend/src/features/notes/components/NoteViewer.tsx:48-52 | leaves editing, clears the edit state and `isSaving` |
| NoteViewer.NoteViewerState.HandleSaveClick | apps/frontend/src/features/notes/components/NoteViewer.tsx:54-94 | no-op without note or edit state, or while saving. With no change it ends editing and sends nothing. Otherwise it sends the payload, ends editing on success and keeps it on failure. `isSaving` is false afterwards |
| NoteViewer.NoteViewerState.HandleTitleChange | apps/frontend/src/features/notes/components/NoteViewer.tsx:97-100 | changes only the edited title, and only while editing |
| NoteViewer.NoteViewerState.HandleContentChange | apps/frontend/src/features/notes/components/NoteViewer.tsx:102-105 | changes only the edited content, and only while editing |
| RootLayout.AuthRedirect | apps/frontend/src/routes/RootLayout.tsx:33-44 | to /login iff logged out off /login and /signup; to / iff logged in on them; otherwise no redirect |
| RootLayout.GuardMatchesRedirect | apps/frontend/src/routes/RootLayout.tsx:47-55 | children render iff the effect does not redirect |
| RootLayout.RedirectSettles | apps/frontend/src/routes/RootLayout.tsx:33-55 | the redirect target itself neither redirects nor hides the children |
| RootLayout.ZeroInitializer | apps/frontend/src/routes/RootLayout.tsx:10-25 | loading until a client exists, then provides that client |
| Shell.SplitOn | scripts/shell.js:12 | `split(c)`: at least one piece, no piece contains `c`, and a string without `c` is one piece |
| Shell.SplitJoin | scripts/shell.js:12 | joining the pieces with `c` gives back the string |
| Shell.Trim | scripts/shell.js:18 | `trim()`: neither end is white space and no new character appears |
| Shell.TrimIdempotent | scripts/shell.js:18 | trimming twice is trimming once |
| Shell.LineEntry | scripts/shell.js:14-19 | blank and '#' lines give nothing; an entry needs an '='; its trimmed key and value hold no '=' |
| Shell.ParseEnvFile | scripts/shell.js:7-23 | the loop over the '\n' lines computes the fold of the line entries |
| Shell.EnvHasKey | scripts/shell.js:12-20 | a key is defined iff some line sets it |
| Shell.EnvLastWins | scripts/shell.js:12-20 | the value is the one from the last line that sets the key |
| Shell.CheckContainer | scripts/shell.js:25-35 | accepts exactly the four valid containers; a missing or empty argument and an unknown name get their messages |
| Shell.ComposeArgs | scripts/shell.js:40-50 | `-f docker-compose.dev.yml exec`, then `db psql -U <POSTGRES_USER> -d <POSTGRES_DB>` for db and `<container> sh` otherwise |

## Left out

- JSX rendering (`renderNoteItems`, dialogs, `DragOverlay`), dnd-kit sensors, toasts, `console` logging and the `setTimeout` before navigation: presentation with no statable logic.
- The display-only memos of `NoteList.tsx` (`noteToDeleteTitle` and the dragged note's rendering): presentation only.
- The internals of `fractional-indexing`'s `generateKeyBetween`: their source is not part of this model. The generator is a parameter constrained by `SoundGenerator` (it returns a key strictly between the bounds, or it fails).
- The internals of `@dnd-kit`'s `arrayMove`: modelled by its documented effect (remove at `from`, insert at `to`).
- The Zero engine's CRUD semantics are modelled as follows: an insert of an existing key is ignored, an update of a missing key does nothing, and a table whose rule list is non-empty admits a row when some rule holds.
- The order of rows a query returns: `QueryChildren` promises only the set, so the proved delete properties hold for every order.
- `async`/`await`, transaction atomicity and concurrent mutation: each handler and mutator runs sequentially. The outcome of a client-side mutation is a parameter (`insertSucceeds`, `mutationSucceeds`, `deleteSucceeds`).
- `Date.now()`, `uuidv4()` and the sync client's presence are parameters (`now`, `createdAt` and `updatedAt` for the two readings in `handleAddChild`, `newNoteId`, `clientAvailable`).
- `fs.readFileSync`, `process.argv`, `process.exit` and `spawn` in `scripts/shell.js`: process I/O. The parser takes the file's text, and the container check returns the message the script prints before it exits.
- `Shell.Trim`: only the common white-space characters are modelled (space, tab, line feed, carriage return, vertical tab, form feed, no-break space, byte-order mark), not the rest of Unicode's space separators.
- `Shell.ParseEnvFile`: the JavaScript object's inherited prototype keys are not modelled, and an `undefined` variable in the `psql` arguments is `None`.
- `ListState.Toggled` and `ListState.IsExpanded`: a missing id reads as collapsed. In the source, `expandedNoteIds[id]` also sees the object's inherited keys, so an id such as `"constructor"` reads as expanded before any toggle; the model does not capture this.
- `NoteItem.CalculateNextPosition` and `NoteItem.IntText`: positions and depths are integers, where the source has JavaScript numbers. Fractional positions, and the exponent form `${n}` takes from 1e21 upwards, are not modelled.
- `Mutators.UpdatedNote` and `Mutators.NoteUpdate`: the arguments are limited to the declared fields of `UpdateNoteArgs`. In the source `{...changes}` forwards any extra column the caller sends (`organizationId`, `createdBy`, `createdAt`) to `tx.mutate.note.update`. So an owner could move its note to another organisation or rewrite its creator, and the model does not capture that.
- `KeyOrder.Less`: JavaScript compares UTF-16 code units while the model compares Unicode scalar values. The two orders agree except on characters outside the Basic Multilingual Plane.
- `NoteTree.SortNodes`: does not state stability, that is, the relative order of notes equal in both key and `createdAt`.
- `null` and `undefined` are one `None` in rows and arguments. `Helper.Must` keeps them apart because its message names them.
- `NoteTree.BuildNoteTree`: the copies of input objects are modelled as values, so "the input is not mutated" holds by construction and is not stated.
- `DragAndDrop.HandleDragEnd`: the message toasted on `Failed` is returned, not shown. A failure of the issued `note.update` only shows a toast, so it is not modelled.
- Version skew between components (props NoteList passes that NoteItem does not declare, `AddNoteButton`'s `position`): each file is modelled as written.
- The Express backend, JWT, bcrypt, drizzle, zod and Zero's `PushProcessor`: HTTP and database plumbing outside the note-tree core.
