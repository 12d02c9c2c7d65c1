/** The note list (NoteList.tsx): the ids in the order they are rendered,
    the nesting level shown for the dragged note, the confirmed delete, and
    the key for a new top-level note. */
module NoteList {
  import opened Helper
  import opened Records
  import opened KeyOrder
  import opened NoteTree
  import opened ListState

  // ---------------------------------------------------------------------
  // Rendered ids
  // ---------------------------------------------------------------------

  /** The tree as `buildNoteTree` links it: listed notes are the entries for
      their ids and sit under their parent ids, and each entry's children
      are its list. */
  ghost predicate Linked(d: NoteTreeData) {
    ListMembers(d) && ChildrenLinked(d)
  }

  /** What the descent below a note relies on: each child in an entry's
      list is the entry for its own id and has that entry's id as parent. */
  ghost predicate Nested(d: NoteTreeData) {
    forall id, c :: id in d.notesById && c in d.notesById[id].children ==>
      c.noteId in d.notesById && d.notesById[c.noteId].note == c && c.parentId == Some(id)
  }

  /** Every entry is the note with its own id and is in the children of
      the entry for its parent id. */
  ghost predicate NestedComplete(d: NoteTreeData) {
    (forall id :: id in d.notesById ==> d.notesById[id].note.noteId == id) &&
    (forall id, c :: id in d.notesById && c in d.notesById && d.notesById[c].note.parentId == Some(id) ==>
      d.notesById[c].note in d.notesById[id].children)
  }

  /** No children list holds an id twice. */
  ghost predicate NestedDistinct(d: NoteTreeData) {
    forall id :: id in d.notesById ==> IdsDistinct(d.notesById[id].children)
  }

  lemma LinkedIsNested(d: NoteTreeData)
    requires Linked(d)
    ensures Nested(d)
  {
    forall id, c | id in d.notesById && c in d.notesById[id].children
      ensures c.noteId in d.notesById && d.notesById[c.noteId].note == c && c.parentId == Some(id)
    {
      assert c in d.childrenByParentId[Some(id)];
    }
  }

  /** A built tree nests completely and without repeats. */
  lemma GroupedIsNested(ns: seq<Note>, d: NoteTreeData)
    requires WellBuilt(ns, d)
    ensures Nested(d) && NestedComplete(d) && NestedDistinct(d)
  {
    LinkedIsNested(d);
    forall id | id in d.notesById ensures d.notesById[id].note.noteId == id {
      assert d.notesById[id].note == IndexById(ns)[id];
    }
    forall id, c | id in d.notesById && c in d.notesById && d.notesById[c].note.parentId == Some(id)
      ensures d.notesById[c].note in d.notesById[id].children
    {
      assert d.notesById[c].note in d.childrenByParentId[Some(id)];
    }
    forall id | id in d.notesById ensures IdsDistinct(d.notesById[id].children) {
      assert d.notesById[id].children == d.childrenByParentId[Some(id)];
    }
  }

  function LastOf(path: seq<string>): Option<string> {
    if path == [] then None else Some(path[|path| - 1])
  }

  /** `path` is the chain of ids from a root down to a note: no id twice,
      the first a root, each next one a child of the one before. */
  ghost predicate ChainPath(d: NoteTreeData, path: seq<string>) {
    (forall i, j :: 0 <= i < j < |path| ==> path[i] != path[j]) &&
    (forall i :: 0 <= i < |path| ==> path[i] in d.notesById) &&
    (|path| > 0 ==> d.notesById[path[0]].note.parentId == None) &&
    (forall i :: 0 < i < |path| ==> d.notesById[path[i]].note.parentId == Some(path[i - 1]))
  }

  /** The notes of a list are entries of the tree whose parent is the end of `path`. */
  ghost predicate ListedUnder(d: NoteTreeData, notes: seq<Note>, path: seq<string>) {
    forall n :: n in notes ==>
      n.noteId in d.notesById && d.notesById[n.noteId].note == n && n.parentId == LastOf(path)
  }

  /** The ids not yet on the path: the measure the descent decreases. */
  function Remaining(d: NoteTreeData, path: seq<string>): nat {
    |d.notesById.Keys - Elems(path)|
  }

  /** A listed note is not on the path above it. */
  lemma NotOnPath(d: NoteTreeData, path: seq<string>, n: Note)
    requires ChainPath(d, path) && ListedUnder(d, [n], path)
    ensures n.noteId !in path
  {
    assert n in [n];
    forall i | 0 <= i < |path| ensures path[i] != n.noteId {
      if i > 0 {
        assert d.notesById[path[i]].note.parentId == Some(path[i - 1]);
        assert path[i - 1] != path[|path| - 1];
      }
    }
  }

  /** A chain extends by a note listed under its end. */
  lemma ChainExtends(d: NoteTreeData, path: seq<string>, n: Note)
    requires ChainPath(d, path) && ListedUnder(d, [n], path)
    ensures ChainPath(d, path + [n.noteId])
  {
    assert n in [n];
    NotOnPath(d, path, n);
    var p := path + [n.noteId];
    forall i, j | 0 <= i < j < |p| ensures p[i] != p[j] {
      if j == |path| {
        assert p[i] in path;
      }
    }
    forall i | 0 <= i < |p| ensures p[i] in d.notesById {
      if i < |path| {
        assert p[i] == path[i];
      }
    }
    if path == [] {
      assert n.parentId == None;
    }
    forall i | 0 < i < |p| ensures d.notesById[p[i]].note.parentId == Some(p[i - 1]) {
      if i < |path| {
        assert p[i] == path[i] && p[i - 1] == path[i - 1];
      } else {
        assert p[i - 1] == path[|path| - 1];
      }
    }
  }

  /** Putting a new key on the path leaves fewer keys off it. */
  lemma RemainingShrinks(d: NoteTreeData, path: seq<string>, x: string)
    requires x in d.notesById && x !in path
    ensures Remaining(d, path + [x]) < Remaining(d, path)
  {
    var before := d.notesById.Keys - Elems(path);
    var after := d.notesById.Keys - Elems(path + [x]);
    assert Elems(path + [x]) == Elems(path) + {x};
    assert after == before - {x};
    assert x in before;
  }

  /** The children of a listed note are listed under the path through it. */
  lemma ChildrenListed(d: NoteTreeData, path: seq<string>, n: Note)
    requires Nested(d) && ListedUnder(d, [n], path)
    ensures ListedUnder(d, d.notesById[n.noteId].children, path + [n.noteId])
  {
    assert n in [n];
    assert LastOf(path + [n.noteId]) == Some(n.noteId);
  }

  /** A listed note extends the path, and its children are listed under
      the longer path, which leaves fewer ids to descend to. */
  lemma ExtendPath(d: NoteTreeData, path: seq<string>, n: Note)
    requires Nested(d) && ChainPath(d, path) && ListedUnder(d, [n], path)
    ensures n.noteId !in path
    ensures ChainPath(d, path + [n.noteId])
    ensures Remaining(d, path + [n.noteId]) < Remaining(d, path)
    ensures ListedUnder(d, d.notesById[n.noteId].children, path + [n.noteId])
  {
    assert n in [n];
    NotOnPath(d, path, n);
    ChainExtends(d, path, n);
    RemainingShrinks(d, path, n.noteId);
    ChildrenListed(d, path, n);
  }

  /** The ids `collectIds(notes)` pushes, `path` leading down to the list. */
  ghost function Rendered(d: NoteTreeData, expanded: map<string, bool>, notes: seq<Note>, path: seq<string>): seq<string>
    requires Nested(d) && ChainPath(d, path) && ListedUnder(d, notes, path)
    decreases Remaining(d, path), |notes|
  {
    if notes == [] then []
    else Rendered(d, expanded, notes[..|notes| - 1], path) + Subtree(d, expanded, notes[|notes| - 1], path)
  }

  /** The ids one note contributes: its own, then those of its children
      when it is expanded and has any. */
  ghost function Subtree(d: NoteTreeData, expanded: map<string, bool>, n: Note, path: seq<string>): seq<string>
    requires Nested(d) && ChainPath(d, path) && ListedUnder(d, [n], path)
    decreases Remaining(d, path), 0
  {
    var children := d.notesById[n.noteId].children;
    if IsExpanded(expanded, n.noteId) && |children| > 0 then
      ExtendPath(d, path, n);
      [n.noteId] + Rendered(d, expanded, children, path + [n.noteId])
    else
      [n.noteId]
  }

  /** `renderedNoteIds`. */
  ghost function RenderedNoteIds(d: NoteTreeData, expanded: map<string, bool>): seq<string>
    requires Linked(d)
  {
    LinkedIsNested(d);
    assert ListedUnder(d, d.tree, []);
    Rendered(d, expanded, d.tree, [])
  }

  /** A prefix of a listed list is listed, and its rendering grows by one
      note's subtree per note. */
  lemma RenderedStep(d: NoteTreeData, expanded: map<string, bool>, notes: seq<Note>, path: seq<string>, i: nat)
    requires Nested(d) && ChainPath(d, path) && ListedUnder(d, notes, path) && i < |notes|
    ensures ListedUnder(d, notes[..i], path) && ListedUnder(d, [notes[i]], path)
    ensures Rendered(d, expanded, notes[..i + 1], path) ==
            Rendered(d, expanded, notes[..i], path) + Subtree(d, expanded, notes[i], path)
  {
    assert notes[i] in notes;
    assert notes[..i + 1][..i] == notes[..i];
  }

  /** An expanded note with children contributes its id, then the rendering
      of its children one level further down. */
  lemma SubtreeExpanded(d: NoteTreeData, expanded: map<string, bool>, n: Note, path: seq<string>)
    requires Nested(d) && ChainPath(d, path) && ListedUnder(d, [n], path)
    requires IsExpanded(expanded, n.noteId) && |d.notesById[n.noteId].children| > 0
    ensures ChainPath(d, path + [n.noteId]) && Remaining(d, path + [n.noteId]) < Remaining(d, path)
    ensures ListedUnder(d, d.notesById[n.noteId].children, path + [n.noteId])
    ensures Subtree(d, expanded, n, path) ==
            [n.noteId] + Rendered(d, expanded, d.notesById[n.noteId].children, path + [n.noteId])
  {
    ExtendPath(d, path, n);
  }

  /** A collapsed or childless note contributes only its own id. */
  lemma SubtreeCollapsed(d: NoteTreeData, expanded: map<string, bool>, n: Note, path: seq<string>)
    requires Nested(d) && ChainPath(d, path) && ListedUnder(d, [n], path)
    requires !(IsExpanded(expanded, n.noteId) && |d.notesById[n.noteId].children| > 0)
    ensures Subtree(d, expanded, n, path) == [n.noteId]
  {
  }

  /** Regrouping a concatenation; kept as a lemma so that the methods
      below do not prove the sequence equality in their own context. */
  lemma ConcatAssoc(a: seq<string>, b: seq<string>, c: seq<string>)
    ensures (a + b) + c == a + (b + c)
  {
  }

  /** `collectIds`: pushes the ids of `notes` and, below each expanded note
      with children, those of its children. */
  method CollectIds(d: NoteTreeData, expanded: map<string, bool>, notes: seq<Note>, ghost path: seq<string>, ids: seq<string>)
    returns (out: seq<string>)
    requires Nested(d) && ChainPath(d, path) && ListedUnder(d, notes, path)
    ensures out == ids + Rendered(d, expanded, notes, path)
    decreases Remaining(d, path), 1
  {
    out := ids;
    for i := 0 to |notes|
      invariant ListedUnder(d, notes[..i], path)
      invariant out == ids + Rendered(d, expanded, notes[..i], path)
    {
      RenderedStep(d, expanded, notes, path, i);
      ConcatAssoc(ids, Rendered(d, expanded, notes[..i], path), Subtree(d, expanded, notes[i], path));
      out := CollectNote(d, expanded, notes[i], path, out);
    }
    assert notes[..|notes|] == notes;
  }

  /** The body of `collectIds`' loop for one note: its id, then its
      children's ids when it is expanded and has any. */
  method CollectNote(d: NoteTreeData, expanded: map<string, bool>, note: Note, ghost path: seq<string>, ids: seq<string>)
    returns (out: seq<string>)
    requires Nested(d) && ChainPath(d, path) && ListedUnder(d, [note], path)
    ensures out == ids + Subtree(d, expanded, note, path)
    decreases Remaining(d, path), 0
  {
    assert note in [note];
    out := ids + [note.noteId];
    var children := d.notesById[note.noteId].children;
    if IsExpanded(expanded, note.noteId) && |children| > 0 {
      SubtreeExpanded(d, expanded, note, path);
      ghost var below := Rendered(d, expanded, children, path + [note.noteId]);
      ConcatAssoc(ids, [note.noteId], below);
      out := CollectIds(d, expanded, children, path + [note.noteId], out);
    } else {
      SubtreeCollapsed(d, expanded, note, path);
    }
  }

  /** The memoised `renderedNoteIds`: `collectIds(rootNotes)` into an empty list. */
  method ComputeRenderedNoteIds(d: NoteTreeData, expanded: map<string, bool>) returns (ids: seq<string>)
    requires Linked(d)
    ensures ids == RenderedNoteIds(d, expanded)
  {
    LinkedIsNested(d);
    assert ListedUnder(d, d.tree, []);
    ids := CollectIds(d, expanded, d.tree, [], []);
  }

  /** The ids of a list of notes. */
  function IdSet(notes: seq<Note>): set<string> {
    set n | n in notes :: n.noteId
  }

  /** `id` is shown below the list `notes`: `q` is its chain of ids from the
      list down, and every note on it above `id` is expanded. */
  ghost predicate VisibleChain(d: NoteTreeData, expanded: map<string, bool>, notes: seq<Note>, path: seq<string>,
                               q: seq<string>, id: string)
  {
    |q| > 0 && ChainPath(d, path + q) && q[|q| - 1] == id && q[0] in IdSet(notes) &&
    forall j :: 0 <= j < |q| - 1 ==> IsExpanded(expanded, q[j])
  }

  /** Every rendered id is reached from the list through expanded notes:
      nothing below a collapsed note is rendered. */
  lemma {:induction false} RenderedIsVisible(d: NoteTreeData, expanded: map<string, bool>, notes: seq<Note>,
                                             path: seq<string>, id: string)
    returns (q: seq<string>)
    requires Nested(d) && ChainPath(d, path) && ListedUnder(d, notes, path)
    requires id in Rendered(d, expanded, notes, path)
    ensures VisibleChain(d, expanded, notes, path, q, id)
    decreases Remaining(d, path), |notes|
  {
    var init := notes[..|notes| - 1];
    var n := notes[|notes| - 1];
    if id in Rendered(d, expanded, init, path) {
      q := RenderedIsVisible(d, expanded, init, path, id);
    } else {
      q := SubtreeIsVisible(d, expanded, n, path, id);
    }
    assert q[0] in IdSet(notes);
  }

  lemma {:induction false} SubtreeIsVisible(d: NoteTreeData, expanded: map<string, bool>, n: Note, path: seq<string>, id: string)
    returns (q: seq<string>)
    requires Nested(d) && ChainPath(d, path) && ListedUnder(d, [n], path)
    requires id in Subtree(d, expanded, n, path)
    ensures VisibleChain(d, expanded, [n], path, q, id)
    decreases Remaining(d, path), 0
  {
    var children := d.notesById[n.noteId].children;
    VisibleSelf(d, expanded, n, path);
    q := [n.noteId];
    if IsExpanded(expanded, n.noteId) && |children| > 0 {
      SubtreeExpanded(d, expanded, n, path);
      if id != n.noteId {
        var below := RenderedIsVisible(d, expanded, children, path + [n.noteId], id);
        VisibleThrough(d, expanded, n, path, below, id);
        q := [n.noteId] + below;
      }
    } else {
      SubtreeCollapsed(d, expanded, n, path);
    }
  }

  /** A listed note is visible below its own list. */
  lemma VisibleSelf(d: NoteTreeData, expanded: map<string, bool>, n: Note, path: seq<string>)
    requires ChainPath(d, path) && ListedUnder(d, [n], path)
    ensures VisibleChain(d, expanded, [n], path, [n.noteId], n.noteId)
  {
    ChainExtends(d, path, n);
  }

  /** A chain visible below an expanded note's children is visible below the note. */
  lemma VisibleThrough(d: NoteTreeData, expanded: map<string, bool>, n: Note, path: seq<string>, q: seq<string>, id: string)
    requires ListedUnder(d, [n], path) && IsExpanded(expanded, n.noteId) && n.noteId in d.notesById
    requires VisibleChain(d, expanded, d.notesById[n.noteId].children, path + [n.noteId], q, id)
    ensures VisibleChain(d, expanded, [n], path, [n.noteId] + q, id)
  {
    var q' := [n.noteId] + q;
    assert path + q' == (path + [n.noteId]) + q;
    forall j | 0 <= j < |q'| - 1 ensures IsExpanded(expanded, q'[j]) {
      if j > 0 {
        assert q'[j] == q[j - 1];
      }
    }
  }

  /** A chain of more than one id visible below a note passes through the
      note, expanded, and goes on below its children. */
  lemma VisibleBelow(d: NoteTreeData, expanded: map<string, bool>, n: Note, path: seq<string>, q: seq<string>, id: string)
    requires NestedComplete(d) && ListedUnder(d, [n], path)
    requires VisibleChain(d, expanded, [n], path, q, id) && |q| > 1
    ensures IsExpanded(expanded, n.noteId) && n.noteId in d.notesById && |d.notesById[n.noteId].children| > 0
    ensures VisibleChain(d, expanded, d.notesById[n.noteId].children, path + [n.noteId], q[1..], id)
  {
    assert n in [n];
    assert q[0] == n.noteId;
    var p := path + [n.noteId];
    var q' := q[1..];
    assert p + q' == path + q;
    var childId := q[1];
    assert (path + q)[|path| + 1] == childId && (path + q)[|path|] == n.noteId;
    assert d.notesById[childId].note.parentId == Some(n.noteId);
    var child := d.notesById[childId].note;
    assert child in d.notesById[n.noteId].children;
    assert q'[0] in IdSet(d.notesById[n.noteId].children);
    forall j | 0 <= j < |q'| - 1 ensures IsExpanded(expanded, q'[j]) {
      assert q'[j] == q[j + 1];
    }
  }

  /** Every id reached from the list through expanded notes is rendered. */
  lemma {:induction false} VisibleIsRendered(d: NoteTreeData, expanded: map<string, bool>, notes: seq<Note>,
                                             path: seq<string>, q: seq<string>, id: string)
    requires Nested(d) && NestedComplete(d) && ChainPath(d, path) && ListedUnder(d, notes, path)
    requires VisibleChain(d, expanded, notes, path, q, id)
    ensures id in Rendered(d, expanded, notes, path)
    decreases Remaining(d, path), |notes|
  {
    var init := notes[..|notes| - 1];
    var n := notes[|notes| - 1];
    if q[0] in IdSet(init) {
      VisibleIsRendered(d, expanded, init, path, q, id);
    } else {
      assert q[0] == n.noteId;
      SubtreeShowsVisible(d, expanded, n, path, q, id);
    }
  }

  lemma {:induction false} SubtreeShowsVisible(d: NoteTreeData, expanded: map<string, bool>, n: Note, path: seq<string>,
                                               q: seq<string>, id: string)
    requires Nested(d) && NestedComplete(d) && ChainPath(d, path) && ListedUnder(d, [n], path)
    requires VisibleChain(d, expanded, [n], path, q, id)
    ensures id in Subtree(d, expanded, n, path)
    decreases Remaining(d, path), 0
  {
    var children := d.notesById[n.noteId].children;
    if |q| > 1 {
      VisibleBelow(d, expanded, n, path, q, id);
      SubtreeExpanded(d, expanded, n, path);
      VisibleIsRendered(d, expanded, children, path + [n.noteId], q[1..], id);
    } else if IsExpanded(expanded, n.noteId) && |children| > 0 {
      SubtreeExpanded(d, expanded, n, path);
    } else {
      SubtreeCollapsed(d, expanded, n, path);
    }
  }

  /** A chain without its last id is a chain. */
  lemma ChainPrefix(d: NoteTreeData, p: seq<string>)
    requires ChainPath(d, p) && |p| > 0
    ensures ChainPath(d, p[..|p| - 1])
  {
    var q := p[..|p| - 1];
    forall i | 0 <= i < |q| ensures q[i] in d.notesById {
      assert q[i] == p[i];
    }
    forall i | 0 < i < |q| ensures d.notesById[q[i]].note.parentId == Some(q[i - 1]) {
      assert q[i] == p[i] && q[i - 1] == p[i - 1];
    }
  }

  /** A chain from a root is determined by the id it ends at. */
  lemma {:induction false} ChainUnique(d: NoteTreeData, p1: seq<string>, p2: seq<string>)
    requires ChainPath(d, p1) && ChainPath(d, p2)
    requires |p1| > 0 && |p2| > 0 && p1[|p1| - 1] == p2[|p2| - 1]
    ensures p1 == p2
    decreases |p1|
  {
    var x := p1[|p1| - 1];
    var parent := d.notesById[x].note.parentId;
    assert |p1| == 1 <==> parent == None by {
      if |p1| > 1 {
        assert d.notesById[p1[|p1| - 1]].note.parentId == Some(p1[|p1| - 2]);
      }
    }
    assert |p2| == 1 <==> parent == None by {
      if |p2| > 1 {
        assert d.notesById[p2[|p2| - 1]].note.parentId == Some(p2[|p2| - 2]);
      }
    }
    if |p1| > 1 {
      assert parent == Some(p1[|p1| - 2]) && parent == Some(p2[|p2| - 2]);
      var i1 := p1[..|p1| - 1];
      var i2 := p2[..|p2| - 1];
      ChainPrefix(d, p1);
      ChainPrefix(d, p2);
      ChainUnique(d, i1, i2);
      assert p1 == i1 + [x];
      assert p2 == i2 + [x];
    }
  }

  /** Two lists without repeats and with no id in common concatenate into
      one without repeats. */
  lemma ConcatNoRepeats(a: seq<string>, b: seq<string>)
    requires NoRepeats(a) && NoRepeats(b)
    requires forall x :: x in a ==> x !in b
    ensures NoRepeats(a + b)
  {
    forall i, j | 0 <= i < j < |a + b| ensures (a + b)[i] != (a + b)[j] {
      if i < |a| && j >= |a| {
        assert (a + b)[i] in a && (a + b)[j] == b[j - |a|];
      }
    }
  }

  /** A non-empty listed list renders as its front followed by the last note's subtree. */
  lemma RenderedLast(d: NoteTreeData, expanded: map<string, bool>, notes: seq<Note>, path: seq<string>)
    requires Nested(d) && ChainPath(d, path) && ListedUnder(d, notes, path) && notes != []
    ensures ListedUnder(d, notes[..|notes| - 1], path) && ListedUnder(d, [notes[|notes| - 1]], path)
    ensures Rendered(d, expanded, notes, path) ==
            Rendered(d, expanded, notes[..|notes| - 1], path) + Subtree(d, expanded, notes[|notes| - 1], path)
  {
    assert notes[|notes| - 1] in notes;
  }

  /** Without repeated ids, the last note's id is not among the others. */
  lemma LastIdFresh(notes: seq<Note>)
    requires IdsDistinct(notes) && notes != []
    ensures IdsDistinct(notes[..|notes| - 1])
    ensures notes[|notes| - 1].noteId !in IdSet(notes[..|notes| - 1])
  {
    var init := notes[..|notes| - 1];
    forall m | m in init ensures m.noteId != notes[|notes| - 1].noteId {
      var k :| 0 <= k < |init| && init[k] == m;
      assert notes[k] == m;
    }
  }

  /** Two visible chains below the same path that end at the same id start
      at the same id. */
  lemma ChainsMeet(d: NoteTreeData, path: seq<string>, q1: seq<string>, q2: seq<string>)
    requires ChainPath(d, path + q1) && ChainPath(d, path + q2)
    requires |q1| > 0 && |q2| > 0 && q1[|q1| - 1] == q2[|q2| - 1]
    ensures q1[0] == q2[0]
  {
    assert (path + q1)[|path + q1| - 1] == q1[|q1| - 1];
    assert (path + q2)[|path + q2| - 1] == q2[|q2| - 1];
    ChainUnique(d, path + q1, path + q2);
    assert (path + q1)[|path|] == q1[0] && (path + q2)[|path|] == q2[0];
  }

  /** Sibling notes with different ids render disjoint ids. */
  lemma SiblingsDisjoint(d: NoteTreeData, expanded: map<string, bool>, init: seq<Note>, n: Note, path: seq<string>)
    requires Nested(d) && ChainPath(d, path) && ListedUnder(d, init, path) && ListedUnder(d, [n], path)
    requires n.noteId !in IdSet(init)
    ensures forall x :: x in Rendered(d, expanded, init, path) ==> x !in Subtree(d, expanded, n, path)
  {
    forall x | x in Rendered(d, expanded, init, path) ensures x !in Subtree(d, expanded, n, path) {
      if x in Subtree(d, expanded, n, path) {
        var q1 := RenderedIsVisible(d, expanded, init, path, x);
        var q2 := SubtreeIsVisible(d, expanded, n, path, x);
        ChainsMeet(d, path, q1, q2);
        assert false;
      }
    }
  }

  /** Lists whose notes have distinct ids render no id twice. */
  lemma {:induction false} RenderedNoRepeats(d: NoteTreeData, expanded: map<string, bool>, notes: seq<Note>, path: seq<string>)
    requires Nested(d) && NestedDistinct(d) && ChainPath(d, path) && ListedUnder(d, notes, path)
    requires IdsDistinct(notes)
    ensures NoRepeats(Rendered(d, expanded, notes, path))
    decreases Remaining(d, path), |notes|
  {
    if notes != [] {
      var init := notes[..|notes| - 1];
      var n := notes[|notes| - 1];
      RenderedLast(d, expanded, notes, path);
      LastIdFresh(notes);
      RenderedNoRepeats(d, expanded, init, path);
      SubtreeNoRepeats(d, expanded, n, path);
      SiblingsDisjoint(d, expanded, init, n, path);
      ConcatNoRepeats(Rendered(d, expanded, init, path), Subtree(d, expanded, n, path));
    }
  }

  lemma {:induction false} SubtreeNoRepeats(d: NoteTreeData, expanded: map<string, bool>, n: Note, path: seq<string>)
    requires Nested(d) && NestedDistinct(d) && ChainPath(d, path) && ListedUnder(d, [n], path)
    ensures NoRepeats(Subtree(d, expanded, n, path))
    decreases Remaining(d, path), 0
  {
    var children := d.notesById[n.noteId].children;
    if IsExpanded(expanded, n.noteId) && |children| > 0 {
      SubtreeExpanded(d, expanded, n, path);
      var p := path + [n.noteId];
      RenderedNoRepeats(d, expanded, children, p);
      OwnIdNotBelow(d, expanded, n, path);
      ConcatNoRepeats([n.noteId], Rendered(d, expanded, children, p));
    } else {
      SubtreeCollapsed(d, expanded, n, path);
    }
  }

  /** A note's id is not rendered among its own descendants. */
  lemma OwnIdNotBelow(d: NoteTreeData, expanded: map<string, bool>, n: Note, path: seq<string>)
    requires Nested(d) && ChainPath(d, path) && ListedUnder(d, [n], path)
    requires ChainPath(d, path + [n.noteId])
    requires ListedUnder(d, d.notesById[n.noteId].children, path + [n.noteId])
    ensures forall x :: x in [n.noteId] ==>
      x !in Rendered(d, expanded, d.notesById[n.noteId].children, path + [n.noteId])
  {
    var p := path + [n.noteId];
    var children := d.notesById[n.noteId].children;
    if n.noteId in Rendered(d, expanded, children, p) {
      var q := RenderedIsVisible(d, expanded, children, p, n.noteId);
      ChainUnique(d, p + q, p);
      assert false;
    }
  }

  /** An id is rendered below a list exactly when a visible chain reaches it. */
  lemma RenderedIffVisible(d: NoteTreeData, expanded: map<string, bool>, notes: seq<Note>, path: seq<string>, id: string)
    requires Nested(d) && NestedComplete(d) && ChainPath(d, path) && ListedUnder(d, notes, path)
    ensures id in Rendered(d, expanded, notes, path) <==> exists q :: VisibleChain(d, expanded, notes, path, q, id)
  {
    if id in Rendered(d, expanded, notes, path) {
      var q := RenderedIsVisible(d, expanded, notes, path, id);
    }
    if q :| VisibleChain(d, expanded, notes, path, q, id) {
      VisibleIsRendered(d, expanded, notes, path, q, id);
    }
  }

  /** Every note of the list itself is rendered. */
  lemma ListIsRendered(d: NoteTreeData, expanded: map<string, bool>, notes: seq<Note>, path: seq<string>)
    requires Nested(d) && NestedComplete(d) && ChainPath(d, path) && ListedUnder(d, notes, path)
    ensures forall n :: n in notes ==> n.noteId in Rendered(d, expanded, notes, path)
  {
    forall n | n in notes ensures n.noteId in Rendered(d, expanded, notes, path) {
      assert n in [n];
      VisibleSelf(d, expanded, n, path);
      assert VisibleChain(d, expanded, notes, path, [n.noteId], n.noteId);
      VisibleIsRendered(d, expanded, notes, path, [n.noteId], n.noteId);
    }
  }

  /** For a built tree: an id is rendered exactly when it is reached from a
      root through expanded notes; every root is rendered; no id is
      rendered twice. */
  lemma RenderedNoteIdsMeaning(ns: seq<Note>, d: NoteTreeData, expanded: map<string, bool>, id: string)
    requires WellBuilt(ns, d)
    ensures id in RenderedNoteIds(d, expanded) <==> exists q :: VisibleChain(d, expanded, d.tree, [], q, id)
    ensures forall n :: n in d.tree ==> n.noteId in RenderedNoteIds(d, expanded)
    ensures NoRepeats(RenderedNoteIds(d, expanded))
  {
    GroupedIsNested(ns, d);
    assert ListedUnder(d, d.tree, []);
    assert ChainPath(d, []);
    assert IdsDistinct(d.tree) by {
      assert d.tree == d.childrenByParentId[None];
    }
    assert RenderedNoteIds(d, expanded) == Rendered(d, expanded, d.tree, []);
    RenderedIffVisible(d, expanded, d.tree, [], id);
    ListIsRendered(d, expanded, d.tree, []);
    RenderedNoRepeats(d, expanded, d.tree, []);
  }

  // ---------------------------------------------------------------------
  // The dragged note's level
  // ---------------------------------------------------------------------

  const MaxDragLevel := 10

  /** The parent id `k` steps above a note whose parent id is `start`,
      following only parents found in the map. */
  function Above(byId: map<string, NoteWithChildren>, start: Option<string>, k: nat): Option<string> {
    if k == 0 then start
    else
      var p := Above(byId, start, k - 1);
      if p.Some? && p.value in byId then byId[p.value].note.parentId else None
  }

  /** `draggingNoteData`: the entry of a truthy dragged id. */
  function DraggingNoteData(draggingNoteId: Option<string>, byId: map<string, NoteWithChildren>): Option<Note> {
    if !PresentId(draggingNoteId) then None
    else if draggingNoteId.value in byId then Some(byId[draggingNoteId.value].note)
    else None
  }

  /** `draggingNoteLevel`: the number of ancestors of the dragged note
      found in the map, one after another, stopping at ten. */
  method DraggingNoteLevel(draggingNoteId: Option<string>, byId: map<string, NoteWithChildren>) returns (level: nat)
    ensures level <= MaxDragLevel
    ensures DraggingNoteData(draggingNoteId, byId).None? ==> level == 0
    ensures DraggingNoteData(draggingNoteId, byId).Some? ==>
      var start := DraggingNoteData(draggingNoteId, byId).value.parentId;
      (forall k :: 0 <= k < level ==> Above(byId, start, k).Some? && Above(byId, start, k).value in byId) &&
      (level < MaxDragLevel ==> !(Above(byId, start, level).Some? && Above(byId, start, level).value in byId))
  {
    var data := DraggingNoteData(draggingNoteId, byId);
    if data.None? {
      return 0;
    }
    var start := data.value.parentId;
    level := 0;
    var currentParentId := start;
    while currentParentId.Some? && level < MaxDragLevel
      invariant level <= MaxDragLevel
      invariant currentParentId == Above(byId, start, level)
      invariant forall k :: 0 <= k < level ==> Above(byId, start, k).Some? && Above(byId, start, k).value in byId
      decreases MaxDragLevel - level
    {
      if currentParentId.value !in byId {
        break;
      }
      var parent := byId[currentParentId.value];
      level := level + 1;
      currentParentId := parent.note.parentId;
    }
  }

  /** A root is shown at level 0. */
  lemma RootDragsAtLevelZero(byId: map<string, NoteWithChildren>, start: Option<string>)
    requires start.None?
    ensures forall k: nat :: Above(byId, start, k).None?
  {
    forall k: nat ensures Above(byId, start, k).None? {
      AboveOfNone(byId, start, k);
    }
  }

  lemma {:induction false} AboveOfNone(byId: map<string, NoteWithChildren>, start: Option<string>, k: nat)
    requires start.None?
    ensures Above(byId, start, k).None?
  {
    if k > 0 {
      AboveOfNone(byId, start, k - 1);
    }
  }

  // ---------------------------------------------------------------------
  // Confirmed delete and new top-level key
  // ---------------------------------------------------------------------

  /** `handleConfirmDelete`.  The outcome of `note.delete` is the parameter
      `deleteSucceeds`, the route's note id is `routeNoteId`.  Returns the id
      passed to `note.delete` (if any), whether the delete was marked as
      running when it was called, and whether the app navigates to `/`. */
  method HandleConfirmDelete(state: NoteListState, clientAvailable: bool, routeNoteId: Option<string>, deleteSucceeds: bool)
    returns (deleted: Option<string>, markedDeleting: bool, navigateHome: bool)
    modifies state
    ensures deleted == (if PresentId(old(state.noteToDeleteId)) && clientAvailable then old(state.noteToDeleteId) else None)
    ensures deleted.Some? ==> markedDeleting
    ensures navigateHome <==> deleted.Some? && deleteSucceeds && routeNoteId == deleted
    ensures !state.isDeletingNote && state.noteToDeleteId.None?
    ensures state.expandedNoteIds == old(state.expandedNoteIds)
    ensures state.isMovingNote == old(state.isMovingNote) && state.draggingNoteId == old(state.draggingNoteId)
  {
    deleted := None;
    markedDeleting := false;
    navigateHome := false;
    if !PresentId(state.noteToDeleteId) || !clientAvailable {
      state.FinishDeleteNote();
      return;
    }
    state.ConfirmDeleteNote();
    var noteToDeleteId := state.noteToDeleteId.value;
    deleted := Some(noteToDeleteId);
    markedDeleting := state.isDeletingNote;
    if deleteSucceeds {
      if routeNoteId == Some(noteToDeleteId) {
        navigateHome := true;
      }
    }
    state.FinishDeleteNote();
  }

  /** `getNextTopLevelSortKey`. */
  function GetNextTopLevelSortKey(d: NoteTreeData, gen: KeyGenerator): (r: Result<string>)
    requires SoundGenerator(gen)
    ensures r.Err? ==> r.message == ExhaustionMessage
    ensures d.childrenByParentId.Keys == {} ==> r == GenerateSortKey(gen, None, None)
  {
    GetSortKeyForNewItem(None, d.childrenByParentId, gen)
  }

  /** In a built tree whose roots carry keys, a new top-level note's key
      is after every root. */
  lemma TopLevelKeyAfterRoots(ns: seq<Note>, d: NoteTreeData, gen: KeyGenerator)
    requires SoundGenerator(gen)
    requires WellBuilt(ns, d)
    requires forall n :: n in d.tree ==> n.sortKey.Some?
    requires GetNextTopLevelSortKey(d, gen).Ok?
    ensures forall n :: n in d.tree ==> Less(n.sortKey.value, GetNextTopLevelSortKey(d, gen).value)
  {
    assert SiblingsOf(None, d.childrenByParentId) == d.tree;
    NewItemKeyAfterSiblings(None, d.childrenByParentId, gen);
  }
}
