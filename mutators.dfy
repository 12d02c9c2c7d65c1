/** The server-side mutators (packages/zero-shared/src/mutators.ts): the
    checks they make on the principal and on the rows, the rows they write,
    and the cascading delete.  The database transaction is a class over the
    `note` and `user` tables; the clock is the parameter `now`. */
module Mutators {
  import opened Helper
  import opened Records
  import opened Auth

  const UserPermissionMessage := "Permission denied to update user."
  const NoteAccessMessage := "Note not found or permission denied."

  /** `tx.mutate.user.update(args)`: the columns `args` names replace the row's. */
  function UpdatedUser(u: User, args: UpdateUserArgs): (r: User)
    ensures r.userId == u.userId
    ensures r.email == (if args.email.Some? then args.email.value else u.email)
    ensures r.isActive == (if args.isActive.Some? then args.isActive.value else u.isActive)
    ensures r.organizationId == (if args.organizationId.Some? then args.organizationId.value else u.organizationId)
    ensures r.createdAt == (if args.createdAt.Some? then args.createdAt.value else u.createdAt)
    ensures r.updatedAt == (if args.updatedAt.Some? then args.updatedAt.value else u.updatedAt)
  {
    u.(email := if args.email.Some? then args.email.value else u.email,
       isActive := if args.isActive.Some? then args.isActive.value else u.isActive,
       organizationId := if args.organizationId.Some? then args.organizationId.value else u.organizationId,
       createdAt := if args.createdAt.Some? then args.createdAt.value else u.createdAt,
       updatedAt := if args.updatedAt.Some? then args.updatedAt.value else u.updatedAt)
  }

  /** `tx.mutate.note.update(payload)`: the columns the payload names replace
      the row's; `parentId: null` makes the note a root. */
  function UpdatedNote(n: Note, p: UpdateNoteArgs): (r: Note)
    ensures r.noteId == n.noteId && r.organizationId == n.organizationId && r.createdBy == n.createdBy
    ensures r.createdAt == n.createdAt
    ensures r.title == (if p.title.Some? then p.title else n.title)
    ensures r.content == (if p.content.Some? then p.content.value else n.content)
    ensures r.parentId == (if p.parentId.Some? then p.parentId.value else n.parentId)
    ensures r.sortKey == (if p.sortKey.Some? then p.sortKey else n.sortKey)
    ensures r.updatedAt == (if p.updatedAt.Some? then p.updatedAt.value else n.updatedAt)
  {
    n.(title := if p.title.Some? then p.title else n.title,
       content := if p.content.Some? then p.content.value else n.content,
       parentId := if p.parentId.Some? then p.parentId.value else n.parentId,
       sortKey := if p.sortKey.Some? then p.sortKey else n.sortKey,
       updatedAt := if p.updatedAt.Some? then p.updatedAt.value else n.updatedAt)
  }

  /** An open transaction on the `note` and `user` tables, each keyed by its
      primary key.  Inserting an existing key, and updating or deleting a
      missing one, change nothing. */
  class Transaction {
    var notes: map<string, Note>
    var users: map<string, User>

    /** Every row is stored under its own primary key. */
    ghost predicate Valid()
      reads this
    {
      (forall id :: id in notes ==> notes[id].noteId == id) &&
      (forall id :: id in users ==> users[id].userId == id)
    }

    constructor (notes0: map<string, Note>, users0: map<string, User>)
      requires forall id :: id in notes0 ==> notes0[id].noteId == id
      requires forall id :: id in users0 ==> users0[id].userId == id
      ensures Valid() && notes == notes0 && users == users0
    {
      notes := notes0;
      users := users0;
    }

    /** `tx.query.note.where('noteId', id).one().run()`. */
    method QueryNote(id: string) returns (r: Option<Note>)
      ensures r == (if id in notes then Some(notes[id]) else None)
    {
      r := if id in notes then Some(notes[id]) else None;
    }

    /** `tx.query.note.where('parentId', parentId).where('organizationId', org).run()`:
        every such row once, in an order the database chooses. */
    method QueryChildren(parentId: string, org: string) returns (rows: seq<Note>)
      requires Valid()
      ensures forall i :: 0 <= i < |rows| ==>
        rows[i].noteId in notes && notes[rows[i].noteId] == rows[i] &&
        rows[i].parentId == Some(parentId) && rows[i].organizationId == org
      ensures forall id :: id in notes && notes[id].parentId == Some(parentId) && notes[id].organizationId == org ==>
        notes[id] in rows
      ensures forall i, j :: 0 <= i < j < |rows| ==> rows[i].noteId != rows[j].noteId
    {
      rows := [];
      var remaining := notes.Keys;
      while remaining != {}
        invariant remaining <= notes.Keys
        invariant forall i :: 0 <= i < |rows| ==>
          rows[i].noteId in notes && notes[rows[i].noteId] == rows[i] &&
          rows[i].parentId == Some(parentId) && rows[i].organizationId == org && rows[i].noteId !in remaining
        invariant forall id :: id in notes && id !in remaining && notes[id].parentId == Some(parentId) && notes[id].organizationId == org ==>
          notes[id] in rows
        invariant forall i, j :: 0 <= i < j < |rows| ==> rows[i].noteId != rows[j].noteId
        decreases remaining
      {
        var id :| id in remaining;
        if notes[id].parentId == Some(parentId) && notes[id].organizationId == org {
          rows := rows + [notes[id]];
        }
        remaining := remaining - {id};
      }
    }

    /** `tx.mutate.note.insert(row)`. */
    method InsertNote(row: Note)
      requires Valid()
      modifies this
      ensures Valid()
      ensures notes == (if row.noteId in old(notes) then old(notes) else old(notes)[row.noteId := row])
      ensures users == old(users)
    {
      if row.noteId !in notes {
        notes := notes[row.noteId := row];
      }
    }

    /** `tx.mutate.note.update(payload)`. */
    method UpdateNote(payload: UpdateNoteArgs)
      requires Valid()
      modifies this
      ensures Valid()
      ensures notes == (if payload.noteId in old(notes)
                        then old(notes)[payload.noteId := UpdatedNote(old(notes)[payload.noteId], payload)]
                        else old(notes))
      ensures users == old(users)
    {
      if payload.noteId in notes {
        notes := notes[payload.noteId := UpdatedNote(notes[payload.noteId], payload)];
      }
    }

    /** `tx.mutate.note.delete({noteId})`. */
    method DeleteNote(id: string)
      requires Valid()
      modifies this
      ensures Valid()
      ensures notes == old(notes) - {id}
      ensures users == old(users)
    {
      notes := notes - {id};
    }

    /** `tx.mutate.user.update(args)`. */
    method UpdateUser(args: UpdateUserArgs)
      requires Valid()
      modifies this
      ensures Valid()
      ensures users == (if args.userId in old(users)
                        then old(users)[args.userId := UpdatedUser(old(users)[args.userId], args)]
                        else old(users))
      ensures notes == old(notes)
    {
      if args.userId in users {
        users := users[args.userId := UpdatedUser(users[args.userId], args)];
      }
    }
  }

  // ---------------------------------------------------------------------
  // user.update, note.insert, note.update
  // ---------------------------------------------------------------------

  /** `user.update`: only the principal's own row may be changed, and then
      `args` goes to the table unchanged. */
  method UserUpdate(tx: Transaction, auth: Option<AuthData>, args: UpdateUserArgs) returns (r: Outcome)
    requires tx.Valid()
    modifies tx
    ensures tx.Valid() && tx.notes == old(tx.notes)
    ensures auth.None? ==> r == Fail(LoginMessage)
    ensures auth.Some? && args.userId != auth.value.sub ==> r == Fail(UserPermissionMessage)
    ensures r.Fail? ==> tx.users == old(tx.users)
    ensures r.Pass? <==> auth.Some? && args.userId == auth.value.sub
    ensures r.Pass? ==> tx.users == (if args.userId in old(tx.users)
                                     then old(tx.users)[args.userId := UpdatedUser(old(tx.users)[args.userId], args)]
                                     else old(tx.users))
  {
    var login := AssertIsLoggedIn(auth);
    if login.Err? {
      return Fail(login.message);
    }
    if args.userId != login.value.sub {
      return Fail(UserPermissionMessage);
    }
    tx.UpdateUser(args);
    r := Pass;
  }

  /** The row `note.insert` writes: the organisation and the creator come
      from the principal, seven fields from the arguments, and the legacy
      `position`, `depth` and `path` are dropped. */
  function NewNoteRow(auth: AuthData, args: CreateNoteArgs): (r: Note)
    ensures r.organizationId == auth.organizationId && r.createdBy == auth.sub
    ensures r.noteId == args.noteId && r.title == Some(args.title) && r.content == args.content
    ensures r.parentId == args.parentId && r.sortKey == args.sortKey
    ensures r.createdAt == args.createdAt && r.updatedAt == args.updatedAt
    ensures r.position.None? && r.depth.None? && r.path.None?
  {
    Note(args.noteId, Some(args.title), args.content, args.parentId, args.sortKey,
         auth.organizationId, auth.sub, args.createdAt, args.updatedAt, None, None, None)
  }

  /** `note.insert`. */
  method NoteInsert(tx: Transaction, auth: Option<AuthData>, args: CreateNoteArgs) returns (r: Outcome)
    requires tx.Valid()
    modifies tx
    ensures tx.Valid() && tx.users == old(tx.users)
    ensures r.Pass? <==> auth.Some?
    ensures r.Fail? ==> r.message == LoginMessage && tx.notes == old(tx.notes)
    ensures r.Pass? ==>
      var row := NewNoteRow(auth.value, args);
      tx.notes == (if row.noteId in old(tx.notes) then old(tx.notes) else old(tx.notes)[row.noteId := row])
  {
    var login := AssertIsLoggedIn(auth);
    if login.Err? {
      return Fail(login.message);
    }
    tx.InsertNote(NewNoteRow(login.value, args));
    r := Pass;
  }

  /** The payload `note.update` applies: the caller's changes, with
      `updatedAt` kept when the caller gave one and `now` otherwise. */
  function UpdatePayload(changes: UpdateNoteArgs, now: int): (r: UpdateNoteArgs)
    ensures r.noteId == changes.noteId && r.title == changes.title && r.content == changes.content
    ensures r.parentId == changes.parentId && r.sortKey == changes.sortKey
    ensures changes.updatedAt.Some? ==> r.updatedAt == changes.updatedAt
    ensures changes.updatedAt.None? ==> r.updatedAt == Some(now)
  {
    changes.(updatedAt := Some(if changes.updatedAt.Some? then changes.updatedAt.value else now))
  }

  /** A note the principal's organisation owns. */
  predicate Owned(notes: map<string, Note>, id: string, org: string) {
    id in notes && notes[id].organizationId == org
  }

  /** `note.update`: refused, writing nothing, when the note is missing or
      another organisation's; otherwise the payload is applied. */
  method NoteUpdate(tx: Transaction, auth: Option<AuthData>, changes: UpdateNoteArgs, now: int) returns (r: Outcome)
    requires tx.Valid()
    modifies tx
    ensures tx.Valid() && tx.users == old(tx.users)
    ensures auth.None? ==> r == Fail(LoginMessage)
    ensures auth.Some? && !Owned(old(tx.notes), changes.noteId, auth.value.organizationId) ==> r == Fail(NoteAccessMessage)
    ensures r.Pass? <==> auth.Some? && Owned(old(tx.notes), changes.noteId, auth.value.organizationId)
    ensures r.Fail? ==> tx.notes == old(tx.notes)
    ensures r.Pass? ==>
      tx.notes == old(tx.notes)[changes.noteId := UpdatedNote(old(tx.notes)[changes.noteId], UpdatePayload(changes, now))]
  {
    var login := AssertIsLoggedIn(auth);
    if login.Err? {
      return Fail(login.message);
    }
    var organizationId := login.value.organizationId;
    var existingNote := tx.QueryNote(changes.noteId);
    if existingNote.None? || existingNote.value.organizationId != organizationId {
      return Fail(NoteAccessMessage);
    }
    tx.UpdateNote(UpdatePayload(changes, now));
    r := Pass;
  }

  // ---------------------------------------------------------------------
  // note.delete
  // ---------------------------------------------------------------------

  /** A note the cascade visits: a truthy id of an owned note. */
  predicate Visitable(notes: map<string, Note>, id: string, org: string) {
    id != "" && Owned(notes, id, org)
  }

  /** `order[k]`'s parent is listed before it. */
  ghost predicate ParentBefore(notes: map<string, Note>, order: seq<string>, k: int)
    requires 0 <= k < |order| && order[k] in notes
  {
    exists j :: 0 <= j < k && notes[order[k]].parentId == Some(order[j])
  }

  /** `order` is the order the cascade discovers notes in: no id twice, each
      visitable, the root first, and every later note below one found earlier. */
  ghost predicate Discovery(notes: map<string, Note>, org: string, root: string, order: seq<string>) {
    NoRepeats(order) &&
    (forall i :: 0 <= i < |order| ==> Visitable(notes, order[i], org)) &&
    (|order| > 0 ==> order[0] == root) &&
    (forall k {:trigger ParentBefore(notes, order, k)} :: 0 < k < |order| ==> ParentBefore(notes, order, k))
  }

  /** Every visitable child of a collected note is collected. */
  ghost predicate ChildrenCollected(notes: map<string, Note>, org: string, found: set<string>) {
    forall id, c :: id in found && Visitable(notes, c, org) && notes[c].parentId == Some(id) ==> c in found
  }

  /** The state of the traversal: `visited` holds the ids of `order`, every
      queued id is the untouched root or a note whose parent was visited,
      and every visitable child of a visited note is visited or queued. */
  ghost predicate Traversal(notes: map<string, Note>, org: string, root: string,
                            order: seq<string>, visited: set<string>, queue: seq<string>)
  {
    visited == Elems(order) && Discovery(notes, org, root, order) &&
    (order == [] && Visitable(notes, root, org) ==> queue == [root]) &&
    (forall i :: 0 <= i < |queue| ==>
      (order == [] && queue[i] == root) ||
      (queue[i] in notes && notes[queue[i]].parentId.Some? && notes[queue[i]].parentId.value in visited)) &&
    (forall id, c :: id in visited && Visitable(notes, c, org) && notes[c].parentId == Some(id) ==>
      c in visited || c in queue)
  }

  /** Dropping the front of the queue keeps the traversal state when the
      front is not visitable or already visited. */
  lemma SkipFront(notes: map<string, Note>, org: string, root: string,
                  order: seq<string>, visited: set<string>, queue: seq<string>)
    requires |queue| > 0 && Traversal(notes, org, root, order, visited, queue)
    requires !Visitable(notes, queue[0], org) || queue[0] in visited
    ensures Traversal(notes, org, root, order, visited, queue[1..])
  {
    forall i | 0 <= i < |queue| - 1
      ensures (order == [] && queue[1..][i] == root) ||
              (queue[1..][i] in notes && notes[queue[1..][i]].parentId.Some? && notes[queue[1..][i]].parentId.value in visited)
    {
      assert queue[1..][i] == queue[i + 1];
    }
    forall id, c | id in visited && Visitable(notes, c, org) && notes[c].parentId == Some(id)
      ensures c in visited || c in queue[1..]
    {
      if c !in visited {
        var i :| 0 <= i < |queue| && queue[i] == c;
        assert i > 0;
        assert queue[1..][i - 1] == c;
      }
    }
  }

  /** Visiting the front of the queue appends it to the discovery order;
      every other queued id has a visited parent, and every visitable child
      of a visited note is visited, the front, or still queued. */
  lemma VisitFront(notes: map<string, Note>, org: string, root: string,
                   order: seq<string>, visited: set<string>, queue: seq<string>)
    requires |queue| > 0 && Traversal(notes, org, root, order, visited, queue)
    requires Visitable(notes, queue[0], org) && queue[0] !in visited
    ensures Discovery(notes, org, root, order + [queue[0]])
    ensures Elems(order + [queue[0]]) == visited + {queue[0]}
    ensures forall i :: 0 <= i < |queue| - 1 ==>
      queue[1..][i] in notes && notes[queue[1..][i]].parentId.Some? && notes[queue[1..][i]].parentId.value in visited
    ensures forall id, c :: id in visited && Visitable(notes, c, org) && notes[c].parentId == Some(id) ==>
      c in visited + {queue[0]} || c in queue[1..]
  {
    var cur := queue[0];
    var order' := order + [cur];
    forall i, j | 0 <= i < j < |order'| ensures order'[i] != order'[j] {
      if j == |order| {
        assert order'[i] in visited;
      }
    }
    forall k | 0 < k < |order'| ensures ParentBefore(notes, order', k) {
      if k < |order| {
        assert ParentBefore(notes, order, k);
        var j :| 0 <= j < k && notes[order[k]].parentId == Some(order[j]);
        assert order'[j] == order[j] && order'[k] == order[k];
      } else {
        assert order != [];
        var p := notes[cur].parentId.value;
        assert p in Elems(order);
        var j :| 0 <= j < |order| && order[j] == p;
        assert order'[j] == p;
      }
    }
    if order == [] {
      assert cur == root;
      assert queue == [root];
    }
    forall i | 0 <= i < |queue| - 1
      ensures queue[1..][i] in notes && notes[queue[1..][i]].parentId.Some? && notes[queue[1..][i]].parentId.value in visited
    {
      assert queue[1..][i] == queue[i + 1];
    }
    forall id, c | id in visited && Visitable(notes, c, org) && notes[c].parentId == Some(id)
      ensures c in visited + {cur} || c in queue[1..]
    {
      if c !in visited && c != cur {
        var i :| 0 <= i < |queue| && queue[i] == c;
        assert queue[1..][i - 1] == c;
      }
    }
  }

  /** After visiting `cur` and queueing its children that were not
      visited, the traversal state holds again. */
  lemma QueueChildren(notes: map<string, Note>, org: string, root: string,
                      order: seq<string>, visited: set<string>, rest: seq<string>,
                      cur: string, pushed: seq<string>)
    requires Discovery(notes, org, root, order) && visited == Elems(order) && |order| > 0
    requires cur == order[|order| - 1]
    requires forall i :: 0 <= i < |rest| ==>
      rest[i] in notes && notes[rest[i]].parentId.Some? && notes[rest[i]].parentId.value in visited
    requires forall id, c :: id in visited - {cur} && Visitable(notes, c, org) && notes[c].parentId == Some(id) ==>
      c in visited || c in rest
    requires forall i :: 0 <= i < |pushed| ==> pushed[i] in notes && notes[pushed[i]].parentId == Some(cur)
    requires forall c :: Visitable(notes, c, org) && notes[c].parentId == Some(cur) && c !in visited ==> c in pushed
    ensures Traversal(notes, org, root, order, visited, rest + pushed)
  {
    var q := rest + pushed;
    forall i | 0 <= i < |q|
      ensures q[i] in notes && notes[q[i]].parentId.Some? && notes[q[i]].parentId.value in visited
    {
      if i < |rest| {
        assert q[i] == rest[i];
      } else {
        assert q[i] == pushed[i - |rest|];
        assert cur in visited;
      }
    }
  }

  /** Reading phase of `note.delete`: the breadth-first walk from the root
      through `parentId` links within the organisation, with a visited set
      so that it ends on cyclic data too.  Returns the visited ids in the
      order they were added. */
  method CollectSubtree(tx: Transaction, rootId: string, org: string) returns (order: seq<string>)
    requires tx.Valid()
    ensures Discovery(tx.notes, org, rootId, order)
    ensures ChildrenCollected(tx.notes, org, Elems(order))
    ensures Visitable(tx.notes, rootId, org) <==> |order| > 0
  {
    var visited: set<string> := {};
    order := [];
    var queue := [rootId];
    while |queue| > 0
      invariant Traversal(tx.notes, org, rootId, order, visited, queue)
      decreases |tx.notes.Keys - visited|, |queue|
    {
      var currentId := queue[0];
      var skip := currentId == "" || currentId in visited;
      if !skip {
        var currentNote := tx.QueryNote(currentId);
        skip := currentNote.None? || currentNote.value.organizationId != org;
      }
      if skip {
        SkipFront(tx.notes, org, rootId, order, visited, queue);
        queue := queue[1..];
        continue;
      }
      var rest := queue[1..];
      var queue', pushed := PushChildren(tx, currentId, org, visited + {currentId}, rest);
      VisitStep(tx.notes, org, rootId, order, visited, queue, pushed);
      VisitShrinks(tx.notes.Keys, visited, currentId);
      visited := visited + {currentId};
      order := order + [currentId];
      queue := queue';
    }
    TraversalDone(tx.notes, org, rootId, order, visited);
  }

  /** One visit: the front joins the order and the visited set, and its
      unvisited children join the queue. */
  lemma VisitStep(notes: map<string, Note>, org: string, root: string,
                  order: seq<string>, visited: set<string>, queue: seq<string>, pushed: seq<string>)
    requires |queue| > 0 && Traversal(notes, org, root, order, visited, queue)
    requires Visitable(notes, queue[0], org) && queue[0] !in visited
    requires forall j :: 0 <= j < |pushed| ==> pushed[j] in notes && notes[pushed[j]].parentId == Some(queue[0])
    requires forall c :: Visitable(notes, c, org) && notes[c].parentId == Some(queue[0]) && c !in visited + {queue[0]} ==>
      c in pushed
    ensures Traversal(notes, org, root, order + [queue[0]], visited + {queue[0]}, queue[1..] + pushed)
  {
    VisitFront(notes, org, root, order, visited, queue);
    QueueChildren(notes, org, root, order + [queue[0]], visited + {queue[0]}, queue[1..], queue[0], pushed);
  }

  /** Visiting one more id leaves fewer ids of the table unvisited. */
  lemma VisitShrinks(keys: set<string>, visited: set<string>, x: string)
    requires x in keys && x !in visited
    ensures |keys - (visited + {x})| < |keys - visited|
  {
    assert keys - (visited + {x}) == (keys - visited) - {x};
  }

  /** With the queue empty, the walk has collected a closed set. */
  lemma TraversalDone(notes: map<string, Note>, org: string, root: string, order: seq<string>, visited: set<string>)
    requires Traversal(notes, org, root, order, visited, [])
    ensures Discovery(notes, org, root, order)
    ensures ChildrenCollected(notes, org, Elems(order))
    ensures Visitable(notes, root, org) <==> |order| > 0
  {
  }

  /** The inner loop of the walk: queues every child of `currentId` in the
      organisation that is not yet visited.  `pushed` are the ids queued. */
  method PushChildren(tx: Transaction, currentId: string, org: string, visited: set<string>, queue: seq<string>)
    returns (queue': seq<string>, ghost pushed: seq<string>)
    requires tx.Valid()
    ensures queue' == queue + pushed
    ensures forall j :: 0 <= j < |pushed| ==> pushed[j] in tx.notes && tx.notes[pushed[j]].parentId == Some(currentId)
    ensures forall c :: Visitable(tx.notes, c, org) && tx.notes[c].parentId == Some(currentId) && c !in visited ==> c in pushed
  {
    var children := tx.QueryChildren(currentId, org);
    queue' := queue;
    pushed := [];
    for i := 0 to |children|
      invariant queue' == queue + pushed
      invariant forall j :: 0 <= j < |pushed| ==> pushed[j] in tx.notes && tx.notes[pushed[j]].parentId == Some(currentId)
      invariant forall j :: 0 <= j < i && children[j].noteId !in visited ==> children[j].noteId in pushed
    {
      if children[i].noteId !in visited {
        queue' := queue' + [children[i].noteId];
        pushed := pushed + [children[i].noteId];
      }
    }
    forall c | Visitable(tx.notes, c, org) && tx.notes[c].parentId == Some(currentId) && c !in visited
      ensures c in pushed
    {
      var j :| 0 <= j < |children| && children[j] == tx.notes[c];
      assert children[j].noteId == c;
    }
  }

  /** `s` read back to front (`Array.prototype.reverse`). */
  function Reversed(s: seq<string>): (r: seq<string>)
    ensures |r| == |s|
    ensures forall i :: 0 <= i < |s| ==> r[i] == s[|s| - 1 - i]
  {
    if s == [] then [] else Reversed(s[1..]) + [s[0]]
  }

  lemma ReversedElems(s: seq<string>)
    ensures Elems(Reversed(s)) == Elems(s)
  {
    forall x | x in Elems(s) ensures x in Elems(Reversed(s)) {
      var i :| 0 <= i < |s| && s[i] == x;
      assert Reversed(s)[|s| - 1 - i] == x;
    }
  }

  /** The note deleted at step `a` has its parent among the notes deleted after it. */
  ghost predicate ParentDeletedAfter(notes: map<string, Note>, deleted: seq<string>, a: int)
    requires 0 <= a < |deleted|
  {
    deleted[a] in notes && exists b :: a < b < |deleted| && notes[deleted[a]].parentId == Some(deleted[b])
  }

  /** The deletions run children first: every deleted note but the last
      (the root) has its parent among the notes deleted after it, whether
      or not the data is acyclic. */
  lemma ChildDeletedBeforeParent(notes: map<string, Note>, org: string, root: string, order: seq<string>)
    requires Discovery(notes, org, root, order)
    ensures |order| > 0 ==> Reversed(order)[|order| - 1] == root
    ensures forall a :: 0 <= a < |order| - 1 ==> ParentDeletedAfter(notes, Reversed(order), a)
  {
    forall a | 0 <= a < |order| - 1
      ensures ParentDeletedAfter(notes, Reversed(order), a)
    {
      var k := |order| - 1 - a;
      assert Visitable(notes, order[k], org) && ParentBefore(notes, order, k);
      ParentDeletedLater(notes, order, k);
    }
  }

  /** One step of `ChildDeletedBeforeParent`: a note whose parent was
      discovered before it is deleted before that parent. */
  lemma ParentDeletedLater(notes: map<string, Note>, order: seq<string>, k: int)
    requires 0 < k < |order| && order[k] in notes && ParentBefore(notes, order, k)
    ensures ParentDeletedAfter(notes, Reversed(order), |order| - 1 - k)
  {
    var deleted := Reversed(order);
    var n := |order|;
    assert order[k] == deleted[n - 1 - k];
    var j :| 0 <= j < k && notes[order[k]].parentId == Some(order[j]);
    assert deleted[n - 1 - j] == order[j];
  }

  /** The write phase of `note.delete`: deletes the ids one after another. */
  method DeleteEach(tx: Transaction, ids: seq<string>)
    requires tx.Valid()
    modifies tx
    ensures tx.Valid() && tx.users == old(tx.users)
    ensures tx.notes == old(tx.notes) - Elems(ids)
  {
    for i := 0 to |ids|
      invariant tx.Valid() && tx.users == old(tx.users)
      invariant tx.notes == old(tx.notes) - Elems(ids[..i])
    {
      assert Elems(ids[..i + 1]) == Elems(ids[..i]) + {ids[i]};
      tx.DeleteNote(ids[i]);
    }
    assert ids[..|ids|] == ids;
  }

  /** After the cascade no visitable note of the organisation is left whose
      parent was deleted. */
  lemma NoOrphanLeft(notes: map<string, Note>, org: string, gone: set<string>)
    requires ChildrenCollected(notes, org, gone)
    ensures forall c :: c in notes - gone && Visitable(notes, c, org) && notes[c].parentId.Some? ==>
      notes[c].parentId.value !in gone
  {
    forall c | c in notes - gone && Visitable(notes, c, org) && notes[c].parentId.Some?
      ensures notes[c].parentId.value !in gone
    {
      var p := notes[c].parentId.value;
      assert p in gone ==> c in gone;
    }
  }

  /** `note.delete`: refused, deleting nothing, when the root note is
      missing or another organisation's; otherwise the notes the walk
      collected are deleted in reverse order of discovery.  Returns the
      ids in the order they were deleted. */
  method NoteDelete(tx: Transaction, auth: Option<AuthData>, noteId: string) returns (r: Outcome, deleted: seq<string>)
    requires tx.Valid()
    modifies tx
    ensures tx.Valid() && tx.users == old(tx.users)
    ensures auth.None? ==> r == Fail(LoginMessage)
    ensures auth.Some? && !Owned(old(tx.notes), noteId, auth.value.organizationId) ==> r == Fail(NoteAccessMessage)
    ensures r.Pass? <==> auth.Some? && Owned(old(tx.notes), noteId, auth.value.organizationId)
    ensures r.Fail? ==> deleted == [] && tx.notes == old(tx.notes)
    ensures r.Pass? ==>
      Discovery(old(tx.notes), auth.value.organizationId, noteId, Reversed(deleted)) &&
      ChildrenCollected(old(tx.notes), auth.value.organizationId, Elems(deleted)) &&
      (noteId != "" ==> noteId in deleted) &&
      tx.notes == old(tx.notes) - Elems(deleted)
  {
    var login := AssertIsLoggedIn(auth);
    if login.Err? {
      return Fail(login.message), [];
    }
    var organizationId := login.value.organizationId;
    var rootNoteToDelete := tx.QueryNote(noteId);
    if rootNoteToDelete.None? || rootNoteToDelete.value.organizationId != organizationId {
      return Fail(NoteAccessMessage), [];
    }
    var notesToDeleteIds := CollectSubtree(tx, noteId, organizationId);
    deleted := Reversed(notesToDeleteIds);
    DeleteEach(tx, deleted);
    ReversedElems(notesToDeleteIds);
    ReversedTwice(notesToDeleteIds);
    if noteId != "" {
      assert notesToDeleteIds[0] == noteId;
    }
    r := Pass;
  }

  lemma ReversedTwice(s: seq<string>)
    ensures Reversed(Reversed(s)) == s
  {
    assert forall i :: 0 <= i < |s| ==> Reversed(Reversed(s))[i] == s[i];
  }
}
