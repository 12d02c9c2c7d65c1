/** The client's read model of the note tree (note-tree.ts): fractional
    sort-key generation, the tree built from the flat list of notes, and
    the two helpers that choose a key for a new or moved note. */
module NoteTree {
  import opened Helper
  import opened Records
  import opened KeyOrder

  // ---------------------------------------------------------------------
  // Sort-key generation
  // ---------------------------------------------------------------------

  /** `generateKeyBetween` of the fractional-indexing package: a key
      between two optional bounds, or `None` when it throws. */
  type KeyGenerator = (Option<string>, Option<string>) -> Option<string>

  /** The contract the package is relied on for: any key it produces lies
      strictly between the bounds it was given. */
  ghost predicate SoundGenerator(gen: KeyGenerator) {
    forall before: Option<string>, after: Option<string> ::
      gen(before, after).Some? ==> Between(before, gen(before, after).value, after)
  }

  const ExhaustionMessage := "Could not generate sort key. Possible index exhaustion."
  const InvalidOrderMessage := "Invalid sort key order for generation. Cannot place item."

  /** `generateSortKey`: the package's key, or the exhaustion error. */
  function GenerateSortKey(gen: KeyGenerator, before: Option<string>, after: Option<string>): (r: Result<string>)
    requires SoundGenerator(gen)
    ensures r.Ok? ==> Between(before, r.value, after)
    ensures r.Err? ==> r.message == ExhaustionMessage
    ensures before.Some? && after.Some? && !Less(before.value, after.value) ==> r.Err?
  {
    match gen(before, after)
    case Some(key) =>
      assert before.Some? && after.Some? ==> Less(before.value, after.value) by {
        if before.Some? && after.Some? { BetweenNeedsOrderedBounds(before.value, key, after.value); }
      }
      Ok(key)
    case None => Err(ExhaustionMessage)
  }

  // ---------------------------------------------------------------------
  // Sibling order
  // ---------------------------------------------------------------------

  /** `note.sortKey ?? ''`. */
  function SortKeyOf(n: Note): string {
    if n.sortKey.Some? then n.sortKey.value else ""
  }

  /** `sortNodes(a, b) <= 0`: by sort key, then by creation time. */
  predicate NodeLe(a: Note, b: Note) {
    Less(SortKeyOf(a), SortKeyOf(b)) || (SortKeyOf(a) == SortKeyOf(b) && a.createdAt <= b.createdAt)
  }

  lemma NodeLeTotal(a: Note, b: Note)
    ensures NodeLe(a, b) || NodeLe(b, a)
  {
    LessTotal(SortKeyOf(a), SortKeyOf(b));
  }

  lemma NodeLeTransitive(a: Note, b: Note, c: Note)
    requires NodeLe(a, b) && NodeLe(b, c)
    ensures NodeLe(a, c)
  {
    if Less(SortKeyOf(a), SortKeyOf(b)) && Less(SortKeyOf(b), SortKeyOf(c)) {
      LessTransitive(SortKeyOf(a), SortKeyOf(b), SortKeyOf(c));
    }
  }

  ghost predicate Sorted(l: seq<Note>) {
    forall i, j :: 0 <= i < j < |l| ==> NodeLe(l[i], l[j])
  }

  predicate IdsDistinct(l: seq<Note>) {
    forall i, j :: 0 <= i < j < |l| ==> l[i].noteId != l[j].noteId
  }

  /** Inserts `x` into the sorted `s` after every element not greater than it. */
  function InsertNode(s: seq<Note>, x: Note): (r: seq<Note>)
    requires Sorted(s)
    ensures Sorted(r)
    ensures exists p :: 0 <= p <= |s| && r == s[..p] + [x] + s[p..]
    decreases |s|
  {
    if |s| == 0 || NodeLe(s[|s| - 1], x) then
      AppendSorted(s, x);
      s + [x]
    else
      var last := s[|s| - 1];
      var init := s[..|s| - 1];
      var r' := InsertNode(init, x);
      NodeLeTotal(last, x);
      var p :| 0 <= p <= |init| && r' == init[..p] + [x] + init[p..];
      InsertBeforeLast(s, x, r', p);
      r' + [last]
  }

  /** An element not below the last of a sorted list extends it sorted. */
  lemma AppendSorted(s: seq<Note>, x: Note)
    requires Sorted(s) && (|s| == 0 || NodeLe(s[|s| - 1], x))
    ensures Sorted(s + [x])
    ensures s + [x] == s[..|s|] + [x] + s[|s|..]
  {
    forall i | 0 <= i < |s| ensures NodeLe(s[i], x) {
      if i < |s| - 1 { NodeLeTransitive(s[i], s[|s| - 1], x); }
    }
  }

  /** The recursive step of `InsertNode`: `x` went into the front of `s`,
      whose last element stays last. */
  lemma InsertBeforeLast(s: seq<Note>, x: Note, r': seq<Note>, p: int)
    requires Sorted(s) && |s| > 0 && NodeLe(x, s[|s| - 1])
    requires Sorted(r') && 0 <= p < |s| && r' == s[..|s| - 1][..p] + [x] + s[..|s| - 1][p..]
    ensures Sorted(r' + [s[|s| - 1]])
    ensures r' + [s[|s| - 1]] == s[..p] + [x] + s[p..]
  {
    var last := s[|s| - 1];
    var init := s[..|s| - 1];
    assert s == init + [last];
    forall i | 0 <= i < |r'| ensures NodeLe(r'[i], last) {
      if i >= p + 1 { assert r'[i] == init[i - 1]; }
      else if i < p { assert r'[i] == init[i]; }
    }
  }

  lemma LastSplit(l: seq<Note>)
    requires l != []
    ensures l == l[..|l| - 1] + [l[|l| - 1]]
  {
  }

  /** Inserting one element adds it to the multiset. */
  lemma InsertionMultiset(s: seq<Note>, x: Note, p: int)
    requires 0 <= p <= |s|
    ensures multiset(s[..p] + [x] + s[p..]) == multiset(s) + multiset{x}
  {
    assert s == s[..p] + s[p..];
  }

  /** `Array.prototype.sort` with the `sortNodes` comparator (a stable sort). */
  function SortNodes(l: seq<Note>): (r: seq<Note>)
    ensures Sorted(r)
    ensures multiset(r) == multiset(l)
  {
    if l == [] then []
    else
      var init := SortNodes(l[..|l| - 1]);
      var r := InsertNode(init, l[|l| - 1]);
      var p :| 0 <= p <= |init| && r == init[..p] + [l[|l| - 1]] + init[p..];
      InsertionMultiset(init, l[|l| - 1], p);
      LastSplit(l);
      r
  }

  lemma InsertKeepsIdsDistinct(s: seq<Note>, x: Note, p: nat)
    requires IdsDistinct(s) && p <= |s|
    requires forall y :: y in s ==> y.noteId != x.noteId
    ensures IdsDistinct(s[..p] + [x] + s[p..])
  {
    var r := s[..p] + [x] + s[p..];
    forall i, j | 0 <= i < j < |r| ensures r[i].noteId != r[j].noteId {
      if i < p && j > p {
        assert r[i] == s[i] && r[j] == s[j - 1];
      } else if i > p {
        assert r[i] == s[i - 1] && r[j] == s[j - 1];
      } else if i == p {
        assert r[j] == s[j - 1];
      } else if j == p {
        assert r[i] == s[i];
      }
    }
  }

  lemma AppendKeepsIdsDistinct(s: seq<Note>, x: Note)
    requires IdsDistinct(s)
    requires forall y :: y in s ==> y.noteId != x.noteId
    ensures IdsDistinct(s + [x])
  {
    assert s + [x] == s[..|s|] + [x] + s[|s|..];
    InsertKeepsIdsDistinct(s, x, |s|);
  }

  /** Sorting a list without repeated ids gives a list without repeated ids. */
  lemma {:induction false} SortKeepsIdsDistinct(l: seq<Note>)
    requires IdsDistinct(l)
    ensures IdsDistinct(SortNodes(l))
  {
    if l != [] {
      var init := l[..|l| - 1];
      var x := l[|l| - 1];
      SortKeepsIdsDistinct(init);
      var s := SortNodes(init);
      forall y | y in s ensures y.noteId != x.noteId {
        assert y in multiset(s);
        assert y in init;
      }
      var r := InsertNode(s, x);
      var p :| 0 <= p <= |s| && r == s[..p] + [x] + s[p..];
      InsertKeepsIdsDistinct(s, x, p);
    }
  }

  // ---------------------------------------------------------------------
  // The tree
  // ---------------------------------------------------------------------

  /** A note with the sorted list of its children. */
  datatype NoteWithChildren = NoteWithChildren(note: Note, children: seq<Note>)

  /** The result of `buildNoteTree`.  Child lists hold the child notes; the
      children of a child are found through `notesById`. */
  datatype NoteTreeData = NoteTreeData(
    tree: seq<Note>,
    notesById: map<string, NoteWithChildren>,
    childrenByParentId: map<Option<string>, seq<Note>>)

  /** The notes by id, a later note replacing an earlier one with its id. */
  function IndexById(ns: seq<Note>): (m: map<string, Note>)
    ensures forall id :: id in m ==> m[id].noteId == id
  {
    if ns == [] then map[] else IndexById(ns[..|ns| - 1])[ns[|ns| - 1].noteId := ns[|ns| - 1]]
  }

  /** `IndexById` has a key for exactly the ids of the input. */
  lemma {:induction false} IndexByIdKeys(ns: seq<Note>)
    ensures forall id :: id in IndexById(ns) <==> exists i :: 0 <= i < |ns| && ns[i].noteId == id
  {
    if ns != [] {
      var init := ns[..|ns| - 1];
      IndexByIdKeys(init);
      forall id | id in IndexById(ns) ensures exists i :: 0 <= i < |ns| && ns[i].noteId == id {
        if id != ns[|ns| - 1].noteId {
          assert id in IndexById(init);
          var i :| 0 <= i < |init| && init[i].noteId == id;
          assert ns[i].noteId == id;
        }
      }
    }
  }

  /** The entry for an id is the last input note with that id. */
  lemma {:induction false} IndexByIdLastWins(ns: seq<Note>, i: nat)
    requires i < |ns|
    requires forall j :: i < j < |ns| ==> ns[j].noteId != ns[i].noteId
    ensures ns[i].noteId in IndexById(ns) && IndexById(ns)[ns[i].noteId] == ns[i]
  {
    if i < |ns| - 1 {
      IndexByIdLastWins(ns[..|ns| - 1], i);
    }
  }

  /** `notesById` holds, for every input id, the last input note with that id. */
  ghost predicate IndexedById(ns: seq<Note>, d: NoteTreeData) {
    d.notesById.Keys == IndexById(ns).Keys &&
    forall id :: id in d.notesById ==> d.notesById[id].note == IndexById(ns)[id]
  }

  /** There is a list for the roots, for every note and for every parent
      id some note names, and for nothing else. */
  ghost predicate ListKeys(d: NoteTreeData) {
    forall k :: k in d.childrenByParentId <==>
      k.None? || (k.Some? && k.value in d.notesById) ||
      exists id :: id in d.notesById && d.notesById[id].note.parentId == k
  }

  /** A listed note is the entry for its id and sits under its `parentId`. */
  ghost predicate ListMembers(d: NoteTreeData) {
    forall k, n :: k in d.childrenByParentId && n in d.childrenByParentId[k] ==>
      n.parentId == k && n.noteId in d.notesById && d.notesById[n.noteId].note == n
  }

  /** Every note is in the list under its `parentId`. */
  ghost predicate ListsCover(d: NoteTreeData) {
    forall id :: id in d.notesById ==>
      d.notesById[id].note.parentId in d.childrenByParentId &&
      d.notesById[id].note in d.childrenByParentId[d.notesById[id].note.parentId]
  }

  /** Every note is in exactly one list, the one under its `parentId`, and
      no list holds an id twice. */
  ghost predicate Grouped(d: NoteTreeData) {
    ListKeys(d) && ListMembers(d) && ListsCover(d) && ListsDistinct(d.childrenByParentId)
  }

  /** Every list, the root list included, is in `sortNodes` order. */
  ghost predicate ListsSorted(d: NoteTreeData) {
    forall k :: k in d.childrenByParentId ==> Sorted(d.childrenByParentId[k])
  }

  /** Each note's `children` is its list, and `tree` is the root list. */
  ghost predicate ChildrenLinked(d: NoteTreeData) {
    None in d.childrenByParentId && d.tree == d.childrenByParentId[None] &&
    forall id :: id in d.notesById ==>
      Some(id) in d.childrenByParentId && d.notesById[id].children == d.childrenByParentId[Some(id)]
  }

  ghost predicate WellBuilt(ns: seq<Note>, d: NoteTreeData) {
    IndexedById(ns, d) && Grouped(d) && ListsSorted(d) && ChildrenLinked(d)
  }

  /** Every entry of `notesById` is stored under its own id, and `order`,
      the insertion order of the entries, has no id twice and exactly the
      ids that have an entry. */
  ghost predicate EnumeratesKeys(order: seq<string>, notesById: map<string, NoteWithChildren>) {
    (forall id :: id in notesById ==> notesById[id].note.noteId == id) &&
    (forall a, b :: 0 <= a < b < |order| ==> order[a] != order[b]) &&
    (forall id :: id in order <==> id in notesById)
  }

  /** `buildNoteTree`.  `None` stands for a `null` or `undefined` argument. */
  method BuildNoteTree(notes: Option<seq<Note>>) returns (d: NoteTreeData)
    ensures notes.None? || notes.value == [] ==> d == NoteTreeData([], map[], map[])
    ensures notes.Some? && notes.value != [] ==> WellBuilt(notes.value, d)
  {
    if notes.None? || |notes.value| == 0 {
      return NoteTreeData([], map[], map[]);
    }
    var ns := notes.value;
    var notesById, childrenByParentId, order := IndexNotes(ns);
    childrenByParentId := GroupByParent(notesById, order, childrenByParentId);
    ghost var unsorted := childrenByParentId;
    childrenByParentId := SortLists(childrenByParentId);
    SortingKeepsMembers(unsorted, childrenByParentId);
    ghost var indexed := notesById;
    notesById := LinkChildren(notesById, order, childrenByParentId);
    // The final root tree is the sorted list under the null parent id.
    var tree := childrenByParentId[None];
    d := NoteTreeData(tree, notesById, childrenByParentId);
    AssembledIsGrouped(indexed, order, unsorted, d);
  }

  /** Sorting each list keeps its members and their distinct ids. */
  lemma SortingKeepsMembers(unsorted: map<Option<string>, seq<Note>>, sorted: map<Option<string>, seq<Note>>)
    requires ListsDistinct(unsorted)
    requires sorted.Keys == unsorted.Keys
    requires forall k :: k in sorted ==> sorted[k] == SortNodes(unsorted[k])
    ensures ListsDistinct(sorted)
    ensures forall k, n :: k in sorted ==> (n in sorted[k] <==> n in unsorted[k])
  {
    forall k | k in sorted
      ensures IdsDistinct(sorted[k])
      ensures forall n :: n in sorted[k] <==> n in unsorted[k]
    {
      SortKeepsIdsDistinct(unsorted[k]);
      assert multiset(sorted[k]) == multiset(unsorted[k]);
      forall n ensures n in sorted[k] <==> n in unsorted[k] {
        assert n in sorted[k] <==> n in multiset(sorted[k]);
        assert n in unsorted[k] <==> n in multiset(unsorted[k]);
      }
    }
  }

  /** The grouping of pass 2 survives sorting the lists and linking the
      children. */
  lemma AssembledIsGrouped(indexed: map<string, NoteWithChildren>, order: seq<string>, unsorted: map<Option<string>, seq<Note>>, d: NoteTreeData)
    requires EnumeratesKeys(order, indexed)
    requires GroupedUpTo(indexed, order, unsorted, |order|)
    requires d.childrenByParentId.Keys == unsorted.Keys && ListsDistinct(d.childrenByParentId)
    requires forall k, n :: k in d.childrenByParentId ==> (n in d.childrenByParentId[k] <==> n in unsorted[k])
    requires d.notesById.Keys == indexed.Keys
    requires forall id :: id in d.notesById ==> d.notesById[id].note == indexed[id].note
    ensures Grouped(d)
  {
    AssembledListKeys(indexed, order, unsorted, d);
    AssembledListMembers(indexed, order, unsorted, d);
    AssembledListsCover(indexed, order, unsorted, d);
  }

  lemma AssembledListMembers(indexed: map<string, NoteWithChildren>, order: seq<string>, unsorted: map<Option<string>, seq<Note>>, d: NoteTreeData)
    requires MembersFrom(indexed, order, unsorted, |order|)
    requires d.childrenByParentId.Keys == unsorted.Keys
    requires forall k, n :: k in d.childrenByParentId ==> (n in d.childrenByParentId[k] <==> n in unsorted[k])
    requires d.notesById.Keys == indexed.Keys
    requires forall id :: id in d.notesById ==> d.notesById[id].note == indexed[id].note
    ensures ListMembers(d)
  {
    forall k, n | k in d.childrenByParentId && n in d.childrenByParentId[k]
      ensures n.parentId == k && n.noteId in d.notesById && d.notesById[n.noteId].note == n
    {
      assert n in unsorted[k];
    }
  }

  lemma AssembledListKeys(indexed: map<string, NoteWithChildren>, order: seq<string>, unsorted: map<Option<string>, seq<Note>>, d: NoteTreeData)
    requires ListsOpen(indexed, unsorted) && MembersFrom(indexed, order, unsorted, |order|)
    requires d.childrenByParentId.Keys == unsorted.Keys
    requires d.notesById.Keys == indexed.Keys
    requires forall id :: id in d.notesById ==> d.notesById[id].note == indexed[id].note
    requires CoveredUpTo(indexed, order, unsorted, |order|) && EnumeratesKeys(order, indexed)
    ensures ListKeys(d)
  {
    var cbp := d.childrenByParentId;
    forall k | k in cbp
      ensures k.None? || (k.Some? && k.value in d.notesById) ||
        exists id :: id in d.notesById && d.notesById[id].note.parentId == k
    {
      if !(k.None? || (k.Some? && k.value in d.notesById)) {
        var n := unsorted[k][0];
        assert n in unsorted[k];
        assert n.noteId in d.notesById && d.notesById[n.noteId].note.parentId == k;
      }
    }
    forall k: Option<string> | k.None? || (k.Some? && k.value in d.notesById) ||
        exists id :: id in d.notesById && d.notesById[id].note.parentId == k
      ensures k in cbp
    {
      if !(k.None? || (k.Some? && k.value in d.notesById)) {
        var id :| id in d.notesById && d.notesById[id].note.parentId == k;
        assert id in order;
        var a :| 0 <= a < |order| && order[a] == id;
      }
    }
  }

  lemma AssembledListsCover(indexed: map<string, NoteWithChildren>, order: seq<string>, unsorted: map<Option<string>, seq<Note>>, d: NoteTreeData)
    requires EnumeratesKeys(order, indexed)
    requires CoveredUpTo(indexed, order, unsorted, |order|)
    requires d.childrenByParentId.Keys == unsorted.Keys
    requires forall k, n :: k in d.childrenByParentId ==> (n in d.childrenByParentId[k] <==> n in unsorted[k])
    requires d.notesById.Keys == indexed.Keys
    requires forall id :: id in d.notesById ==> d.notesById[id].note == indexed[id].note
    ensures ListsCover(d)
  {
    forall id | id in d.notesById
      ensures d.notesById[id].note.parentId in d.childrenByParentId
      ensures d.notesById[id].note in d.childrenByParentId[d.notesById[id].note.parentId]
    {
      assert id in order;
      var a :| 0 <= a < |order| && order[a] == id;
    }
  }

  /** Pass 1: one entry with no children per distinct id (a later note with
      the same id replacing the earlier one), an empty list for every id,
      and the empty root list. */
  method IndexNotes(ns: seq<Note>)
    returns (notesById: map<string, NoteWithChildren>, childrenByParentId: map<Option<string>, seq<Note>>, order: seq<string>)
    ensures notesById.Keys == IndexById(ns).Keys
    ensures forall id :: id in notesById ==> notesById[id] == NoteWithChildren(IndexById(ns)[id], [])
    ensures EnumeratesKeys(order, notesById)
    ensures forall k :: k in childrenByParentId <==> k.None? || (k.Some? && k.value in notesById)
    ensures forall k :: k in childrenByParentId ==> childrenByParentId[k] == []
  {
    notesById := map[];
    childrenByParentId := map[];
    order := [];
    for i := 0 to |ns|
      invariant notesById.Keys == IndexById(ns[..i]).Keys
      invariant forall id :: id in notesById ==> notesById[id] == NoteWithChildren(IndexById(ns[..i])[id], [])
      invariant EnumeratesKeys(order, notesById)
      invariant forall k :: k in childrenByParentId <==> k.Some? && k.value in notesById
      invariant forall k :: k in childrenByParentId ==> childrenByParentId[k] == []
    {
      var note := ns[i];
      assert ns[..i + 1][..i] == ns[..i];
      if note.noteId !in notesById {
        order := order + [note.noteId];
      }
      notesById := notesById[note.noteId := NoteWithChildren(note, [])];
      if Some(note.noteId) !in childrenByParentId {
        childrenByParentId := childrenByParentId[Some(note.noteId) := []];
      }
    }
    assert ns[..|ns|] == ns;
    if None !in childrenByParentId {
      childrenByParentId := childrenByParentId[None := []];
    }
  }

  /** The lists after the note with id `order[j]` is appended to the list
      under its parent id, a missing list being opened with it. */
  function Pushed(notesById: map<string, NoteWithChildren>, order: seq<string>, lists: map<Option<string>, seq<Note>>, j: nat): (r: map<Option<string>, seq<Note>>)
    requires j < |order| && order[j] in notesById
    ensures r.Keys == lists.Keys + {notesById[order[j]].note.parentId}
  {
    var note := notesById[order[j]].note;
    var list := if note.parentId in lists then lists[note.parentId] else [];
    lists[note.parentId := list + [note]]
  }

  /** The lists that pass 2 has: the roots, one per note, and only
      non-empty ones besides. */
  ghost predicate ListsOpen(notesById: map<string, NoteWithChildren>, lists: map<Option<string>, seq<Note>>) {
    (forall k :: k in lists ==> k.None? || (k.Some? && k.value in notesById) || lists[k] != []) &&
    None in lists &&
    (forall id :: id in notesById ==> Some(id) in lists)
  }

  /** Every listed note is one of the first `j` and sits under its parent id. */
  ghost predicate MembersFrom(notesById: map<string, NoteWithChildren>, order: seq<string>, lists: map<Option<string>, seq<Note>>, j: nat)
    requires j <= |order|
  {
    forall k, n :: k in lists && n in lists[k] ==>
      n.parentId == k && n.noteId in notesById && notesById[n.noteId].note == n && n.noteId in order[..j]
  }

  /** Each of the first `j` notes is in the list under its parent id. */
  ghost predicate CoveredUpTo(notesById: map<string, NoteWithChildren>, order: seq<string>, lists: map<Option<string>, seq<Note>>, j: nat)
    requires j <= |order|
  {
    forall a :: 0 <= a < j ==>
      order[a] in notesById &&
      notesById[order[a]].note.parentId in lists &&
      notesById[order[a]].note in lists[notesById[order[a]].note.parentId]
  }

  ghost predicate ListsDistinct(lists: map<Option<string>, seq<Note>>) {
    forall k :: k in lists ==> IdsDistinct(lists[k])
  }

  /** The state of pass 2 after the first `j` notes of `order`. */
  ghost predicate GroupedUpTo(notesById: map<string, NoteWithChildren>, order: seq<string>, lists: map<Option<string>, seq<Note>>, j: nat)
    requires j <= |order|
  {
    ListsOpen(notesById, lists) && MembersFrom(notesById, order, lists, j) &&
    CoveredUpTo(notesById, order, lists, j) && ListsDistinct(lists)
  }

  lemma PushedKeepsOpen(notesById: map<string, NoteWithChildren>, order: seq<string>, lists: map<Option<string>, seq<Note>>, j: nat)
    requires j < |order| && order[j] in notesById
    requires ListsOpen(notesById, lists)
    ensures ListsOpen(notesById, Pushed(notesById, order, lists, j))
  {
  }

  lemma PushedKeepsMembers(notesById: map<string, NoteWithChildren>, order: seq<string>, lists: map<Option<string>, seq<Note>>, j: nat)
    requires EnumeratesKeys(order, notesById)
    requires j < |order| && order[j] in notesById
    requires MembersFrom(notesById, order, lists, j)
    ensures MembersFrom(notesById, order, Pushed(notesById, order, lists, j), j + 1)
  {
    var after := Pushed(notesById, order, lists, j);
    var note := notesById[order[j]].note;
    assert order[..j + 1] == order[..j] + [order[j]];
    forall k: Option<string>, n: Note | k in after && n in after[k]
      ensures n.parentId == k && n.noteId in notesById && notesById[n.noteId].note == n && n.noteId in order[..j + 1]
    {
      if k != note.parentId || n != note {
        assert n in lists[k];
      }
    }
  }

  lemma PushedKeepsCovered(notesById: map<string, NoteWithChildren>, order: seq<string>, lists: map<Option<string>, seq<Note>>, j: nat)
    requires EnumeratesKeys(order, notesById)
    requires j < |order| && order[j] in notesById
    requires CoveredUpTo(notesById, order, lists, j)
    ensures CoveredUpTo(notesById, order, Pushed(notesById, order, lists, j), j + 1)
  {
    var after := Pushed(notesById, order, lists, j);
    forall a | 0 <= a < j + 1
      ensures order[a] in notesById
      ensures notesById[order[a]].note.parentId in after
      ensures notesById[order[a]].note in after[notesById[order[a]].note.parentId]
    {
      assert order[a] in order;
    }
  }

  lemma PushedKeepsDistinct(notesById: map<string, NoteWithChildren>, order: seq<string>, lists: map<Option<string>, seq<Note>>, j: nat)
    requires EnumeratesKeys(order, notesById)
    requires j < |order| && order[j] in notesById
    requires MembersFrom(notesById, order, lists, j) && ListsDistinct(lists)
    ensures ListsDistinct(Pushed(notesById, order, lists, j))
  {
    var note := notesById[order[j]].note;
    var list := if note.parentId in lists then lists[note.parentId] else [];
    forall y | y in list ensures y.noteId != note.noteId {
      var a :| 0 <= a < j && order[a] == y.noteId;
    }
    AppendKeepsIdsDistinct(list, note);
  }

  /** Appending the next note to the list under its parent id keeps the
      state of pass 2. */
  lemma GroupStep(notesById: map<string, NoteWithChildren>, order: seq<string>, lists: map<Option<string>, seq<Note>>, j: nat)
    requires EnumeratesKeys(order, notesById)
    requires j < |order| && GroupedUpTo(notesById, order, lists, j)
    ensures order[j] in notesById
    ensures GroupedUpTo(notesById, order, Pushed(notesById, order, lists, j), j + 1)
  {
    assert order[j] in order;
    PushedKeepsOpen(notesById, order, lists, j);
    PushedKeepsMembers(notesById, order, lists, j);
    PushedKeepsCovered(notesById, order, lists, j);
    PushedKeepsDistinct(notesById, order, lists, j);
  }

  /** Pass 2: every note, in insertion order, is appended to the list under
      its parent id; a list is opened for a parent id no note has. */
  method GroupByParent(notesById: map<string, NoteWithChildren>, order: seq<string>, lists: map<Option<string>, seq<Note>>)
    returns (childrenByParentId: map<Option<string>, seq<Note>>)
    requires EnumeratesKeys(order, notesById)
    requires forall k :: k in lists <==> k.None? || (k.Some? && k.value in notesById)
    requires forall k :: k in lists ==> lists[k] == []
    ensures GroupedUpTo(notesById, order, childrenByParentId, |order|)
  {
    childrenByParentId := lists;
    for j := 0 to |order|
      invariant GroupedUpTo(notesById, order, childrenByParentId, j)
    {
      GroupStep(notesById, order, childrenByParentId, j);
      ghost var before := childrenByParentId;
      var note := notesById[order[j]].note;
      var parentId := note.parentId;
      var list := if parentId in childrenByParentId then childrenByParentId[parentId] else [];
      // The list found is pushed to; a missing one is opened with the note.
      childrenByParentId := childrenByParentId[parentId := list + [note]];
      assert childrenByParentId == Pushed(notesById, order, before, j);
    }
  }

  /** Pass 3: every list, the root list included, is sorted in place. */
  method SortLists(lists: map<Option<string>, seq<Note>>) returns (childrenByParentId: map<Option<string>, seq<Note>>)
    ensures childrenByParentId.Keys == lists.Keys
    ensures forall k :: k in childrenByParentId ==> childrenByParentId[k] == SortNodes(lists[k])
  {
    childrenByParentId := lists;
    var pending := lists.Keys;
    while pending != {}
      invariant pending <= childrenByParentId.Keys && childrenByParentId.Keys == lists.Keys
      invariant forall k :: k in childrenByParentId ==>
        childrenByParentId[k] == if k in pending then lists[k] else SortNodes(lists[k])
      decreases pending
    {
      var k :| k in pending;
      childrenByParentId := childrenByParentId[k := SortNodes(childrenByParentId[k])];
      pending := pending - {k};
    }
  }

  /** Pass 4: every note's `children` becomes its sorted list. */
  method LinkChildren(entries: map<string, NoteWithChildren>, order: seq<string>, childrenByParentId: map<Option<string>, seq<Note>>)
    returns (notesById: map<string, NoteWithChildren>)
    requires EnumeratesKeys(order, entries)
    requires forall id :: id in entries ==> Some(id) in childrenByParentId
    ensures notesById.Keys == entries.Keys
    ensures forall id :: id in notesById ==>
      notesById[id] == NoteWithChildren(entries[id].note, childrenByParentId[Some(id)])
  {
    notesById := entries;
    for j := 0 to |order|
      invariant notesById.Keys == entries.Keys
      invariant forall id :: id in notesById ==> notesById[id].note == entries[id].note
      invariant forall a :: 0 <= a < j ==> notesById[order[a]].children == childrenByParentId[Some(order[a])]
    {
      var id := order[j];
      var sortedChildren := childrenByParentId[Some(id)];
      notesById := notesById[id := notesById[id].(children := sortedChildren)];
    }
    forall id | id in notesById
      ensures notesById[id] == NoteWithChildren(entries[id].note, childrenByParentId[Some(id)])
    {
      var a :| 0 <= a < |order| && order[a] == id;
    }
  }


  /** A note whose parent id names no note keeps its entry and has a list of
      its own under the unknown id, but it is neither a root nor anybody's
      child: it is dropped from the forest. */
  lemma DanglingNoteDropped(ns: seq<Note>, d: NoteTreeData, id: string)
    requires WellBuilt(ns, d)
    requires id in d.notesById
    requires d.notesById[id].note.parentId.Some?
    requires d.notesById[id].note.parentId.value !in d.notesById
    ensures d.notesById[id].note.parentId in d.childrenByParentId
    ensures d.notesById[id].note in d.childrenByParentId[d.notesById[id].note.parentId]
    ensures d.notesById[id].note !in d.tree
    ensures forall q :: q in d.notesById ==> d.notesById[id].note !in d.notesById[q].children
  {
    var n := d.notesById[id].note;
    assert forall m :: m in d.tree ==> m.parentId.None?;
    forall q | q in d.notesById ensures n !in d.notesById[q].children {
      assert forall m :: m in d.childrenByParentId[Some(q)] ==> m.parentId == Some(q);
    }
  }

  // ---------------------------------------------------------------------
  // Key helpers
  // ---------------------------------------------------------------------

  /** The list `childrenMap.get(parentId ?? null) ?? []`. */
  function SiblingsOf(parentId: Option<string>, childrenMap: map<Option<string>, seq<Note>>): seq<Note> {
    if parentId in childrenMap then childrenMap[parentId] else []
  }

  /** `getSortKeyForNewItem`: a key after the last sibling's key, or the
      key for `(null, null)` when there are no siblings. */
  function GetSortKeyForNewItem(parentId: Option<string>, childrenMap: map<Option<string>, seq<Note>>, gen: KeyGenerator): (r: Result<string>)
    requires SoundGenerator(gen)
    ensures SiblingsOf(parentId, childrenMap) == [] ==> r == GenerateSortKey(gen, None, None)
    ensures r.Ok? && SiblingsOf(parentId, childrenMap) != [] ==>
      var last := SiblingsOf(parentId, childrenMap)[|SiblingsOf(parentId, childrenMap)| - 1];
      last.sortKey.Some? ==> Less(last.sortKey.value, r.value)
    ensures r.Err? ==> r.message == ExhaustionMessage
  {
    var siblings := SiblingsOf(parentId, childrenMap);
    var prevKey := if |siblings| > 0 then siblings[|siblings| - 1].sortKey else None;
    GenerateSortKey(gen, prevKey, None)
  }

  /** Given sorted siblings that all carry a key, the new item's key is
      greater than every sibling's key. */
  lemma NewItemKeyAfterSiblings(parentId: Option<string>, childrenMap: map<Option<string>, seq<Note>>, gen: KeyGenerator)
    requires SoundGenerator(gen)
    requires Sorted(SiblingsOf(parentId, childrenMap))
    requires forall s :: s in SiblingsOf(parentId, childrenMap) ==> s.sortKey.Some?
    requires GetSortKeyForNewItem(parentId, childrenMap, gen).Ok?
    ensures forall s :: s in SiblingsOf(parentId, childrenMap) ==>
      Less(s.sortKey.value, GetSortKeyForNewItem(parentId, childrenMap, gen).value)
  {
    var siblings := SiblingsOf(parentId, childrenMap);
    var key := GetSortKeyForNewItem(parentId, childrenMap, gen).value;
    forall s | s in siblings ensures Less(s.sortKey.value, key) {
      var i :| 0 <= i < |siblings| && siblings[i] == s;
      var last := siblings[|siblings| - 1];
      if i < |siblings| - 1 {
        assert NodeLe(s, last);
        if Less(SortKeyOf(s), SortKeyOf(last)) {
          LessTransitive(SortKeyOf(s), SortKeyOf(last), key);
        }
      }
    }
  }

  /** `prevNote ? prevNote.sortKey : null`. */
  function KeyOf(n: Option<Note>): Option<string> {
    if n.Some? then n.value.sortKey else None
  }

  /** `getSortKeyBetweenItems`: refuses neighbours whose keys are out of
      order, otherwise generates a key strictly between them. */
  function GetSortKeyBetweenItems(prevNote: Option<Note>, nextNote: Option<Note>, gen: KeyGenerator): (r: Result<string>)
    requires SoundGenerator(gen)
    ensures KeyOf(prevNote).Some? && KeyOf(nextNote).Some? && !Less(KeyOf(prevNote).value, KeyOf(nextNote).value) ==>
      r == Err(InvalidOrderMessage)
    ensures r.Ok? ==> Between(KeyOf(prevNote), r.value, KeyOf(nextNote))
    ensures r.Err? ==> r.message in {InvalidOrderMessage, ExhaustionMessage}
  {
    var prevKey := KeyOf(prevNote);
    var nextKey := KeyOf(nextNote);
    if prevKey.Some? && nextKey.Some? && !Less(prevKey.value, nextKey.value) then
      Err(InvalidOrderMessage)
    else
      GenerateSortKey(gen, prevKey, nextKey)
  }
}
