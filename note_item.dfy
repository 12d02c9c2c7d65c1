/** One row of the note list (NoteItem.tsx): the legacy position, depth
    and path of a new child note, and the guards of its buttons. */
module NoteItem {
  import opened Helper
  import opened Records
  import opened NoteTree
  import opened ListState

  // ---------------------------------------------------------------------
  // Position
  // ---------------------------------------------------------------------

  /** `n.position ?? 0`. */
  function PositionOr0(n: Note): int {
    if n.position.Some? then n.position.value else 0
  }

  /** `Math.max(...siblings.map(n => n.position ?? 0))` for a non-empty list. */
  function MaxPosition(siblings: seq<Note>): (r: int)
    requires |siblings| > 0
    ensures forall n :: n in siblings ==> PositionOr0(n) <= r
    ensures exists n :: n in siblings && PositionOr0(n) == r
  {
    if |siblings| == 1 then PositionOr0(siblings[0])
    else
      var rest := MaxPosition(siblings[1..]);
      assert forall n :: n in siblings ==> n == siblings[0] || n in siblings[1..];
      if PositionOr0(siblings[0]) >= rest then PositionOr0(siblings[0]) else rest
  }

  /** `map.get(parentId ?? null) ?? []`. */
  function SiblingList(parentId: Option<string>, cbp: map<Option<string>, seq<Note>>): seq<Note> {
    if parentId in cbp then cbp[parentId] else []
  }

  /** `calculateNextPositionHelper`: 0 under a parent without children,
      otherwise one more than the largest sibling position, so above every
      sibling and right after the largest. */
  function CalculateNextPosition(parentId: Option<string>, cbp: map<Option<string>, seq<Note>>): (r: int)
    ensures SiblingList(parentId, cbp) == [] ==> r == 0
    ensures forall n :: n in SiblingList(parentId, cbp) ==> PositionOr0(n) < r
    ensures SiblingList(parentId, cbp) != [] ==> exists n :: n in SiblingList(parentId, cbp) && PositionOr0(n) == r - 1
  {
    var siblings := SiblingList(parentId, cbp);
    if |siblings| == 0 then 0 else MaxPosition(siblings) + 1
  }

  // ---------------------------------------------------------------------
  // Decimal text of a number (the template literal `${n}`)
  // ---------------------------------------------------------------------

  function DigitChar(d: nat): char
    requires d < 10
  {
    "0123456789"[d]
  }

  predicate IsDigit(c: char) {
    '0' <= c <= '9'
  }

  function DigitValue(c: char): nat
    requires IsDigit(c)
  {
    (c - '0') as nat
  }

  predicate AllDigits(s: string) {
    forall i :: 0 <= i < |s| ==> IsDigit(s[i])
  }

  /** The decimal digits of `n`, most significant first, without leading zeros. */
  function Digits(n: nat): (r: string)
    ensures |r| > 0 && AllDigits(r)
  {
    if n < 10 then [DigitChar(n)] else Digits(n / 10) + [DigitChar(n % 10)]
  }

  /** `${n}` for an integer. */
  function IntText(n: int): (r: string)
    ensures |r| > 0 && '.' !in r
  {
    if n < 0 then "-" + Digits(-n) else Digits(n)
  }

  /** The value of a string of digits. */
  function DigitsValue(s: string): nat
    requires AllDigits(s)
  {
    if s == [] then 0 else DigitsValue(s[..|s| - 1]) * 10 + DigitValue(s[|s| - 1])
  }

  /** Reads back a number written by `IntText`. */
  function ParseIntText(s: string): int {
    if |s| > 0 && s[0] == '-' && AllDigits(s[1..]) then -(DigitsValue(s[1..]) as int)
    else if AllDigits(s) then DigitsValue(s)
    else 0
  }

  lemma {:induction false} DigitsRoundTrip(n: nat)
    ensures DigitsValue(Digits(n)) == n
  {
    var s := Digits(n);
    if n >= 10 {
      DigitsRoundTrip(n / 10);
      assert s[..|s| - 1] == Digits(n / 10);
    }
  }

  /** The text of a number reads back as that number. */
  lemma IntTextRoundTrip(n: int)
    ensures ParseIntText(IntText(n)) == n
  {
    if n < 0 {
      var d := Digits(-n);
      DigitsRoundTrip(-n);
      var t := IntText(n);
      assert t[0] == '-' && t[1..] == d;
      assert ParseIntText(t) == -(DigitsValue(d) as int);
    } else {
      DigitsRoundTrip(n);
      assert IsDigit(IntText(n)[0]);
    }
  }

  // ---------------------------------------------------------------------
  // Depth and path
  // ---------------------------------------------------------------------

  /** `(parentNote?.depth ?? -1) + 1`. */
  function NewDepth(parentNote: Option<NoteWithChildren>): int {
    (if parentNote.Some? && parentNote.value.note.depth.Some? then parentNote.value.note.depth.value else -1) + 1
  }

  /** `parentPath ? \`${parentPath}.${pos}\` : \`${pos}\``: a truthy parent path
      is extended by one segment. */
  function NewPath(parentPath: Option<string>, pos: int): string {
    if parentPath.Some? && parentPath.value != "" then parentPath.value + "." + IntText(pos) else IntText(pos)
  }

  /** The index of the last '.' in `s`, if any. */
  function LastDot(s: string): (r: Option<nat>)
    ensures r.Some? ==> r.value < |s| && s[r.value] == '.' && '.' !in s[r.value + 1..]
    ensures r.None? ==> '.' !in s
  {
    if s == [] then None
    else if s[|s| - 1] == '.' then Some(|s| - 1)
    else
      var r := LastDot(s[..|s| - 1]);
      assert s == s[..|s| - 1] + [s[|s| - 1]];
      if r.Some? then
        assert s[r.value + 1..] == s[..|s| - 1][r.value + 1..] + [s[|s| - 1]];
        r
      else
        None
  }

  /** A path split at its last '.' into the parent's path and the last position. */
  function SplitPath(path: string): (Option<string>, string) {
    match LastDot(path)
    case None => (None, path)
    case Some(i) => (Some(path[..i]), path[i + 1..])
  }

  /** The new path splits back into the parent's path (when truthy) and
      the new position. */
  lemma NewPathSplits(parentPath: Option<string>, pos: int)
    ensures var (parent, last) := SplitPath(NewPath(parentPath, pos));
      last == IntText(pos) && ParseIntText(last) == pos &&
      parent == (if parentPath.Some? && parentPath.value != "" then parentPath else None)
  {
    IntTextRoundTrip(pos);
    var text := IntText(pos);
    if parentPath.Some? && parentPath.value != "" {
      var p := parentPath.value;
      var path := p + "." + text;
      LastDotAfter(p, text);
      assert path[..|p|] == p && path[|p| + 1..] == text;
    }
  }

  lemma {:induction false} LastDotAfter(p: string, text: string)
    requires '.' !in text
    ensures LastDot(p + "." + text) == Some(|p|)
    decreases |text|
  {
    var path := p + "." + text;
    if text == [] {
      assert path == p + ".";
    } else {
      var init := text[..|text| - 1];
      assert text[|text| - 1] in text;
      assert path[..|path| - 1] == p + "." + init;
      LastDotAfter(p, init);
    }
  }

  /** The row `handleAddChild` inserts under `parentId`; `createdAt` and
      `updatedAt` are the two separate readings of the clock. */
  function ChildArgs(parentId: string, newNoteId: string, createdAt: int, updatedAt: int,
                     byId: map<string, NoteWithChildren>, cbp: map<Option<string>, seq<Note>>): (r: CreateNoteArgs)
    ensures r.noteId == newNoteId && r.title == "" && r.content == "" && r.parentId == Some(parentId)
    ensures r.sortKey.None? && r.createdAt == createdAt && r.updatedAt == updatedAt
    ensures r.position == Some(CalculateNextPosition(Some(parentId), cbp))
    ensures parentId in byId && byId[parentId].note.depth.Some? ==> r.depth == Some(byId[parentId].note.depth.value + 1)
    ensures !(parentId in byId && byId[parentId].note.depth.Some?) ==> r.depth == Some(0)
    ensures r.path.Some? && SplitPath(r.path.value).1 == IntText(r.position.value)
  {
    var nextPosition := CalculateNextPosition(Some(parentId), cbp);
    var parentNote := if parentId in byId then Some(byId[parentId]) else None;
    var parentPath := if parentNote.Some? then parentNote.value.note.path else None;
    NewPathSplits(parentPath, nextPosition);
    CreateNoteArgs(newNoteId, "", "", Some(parentId), None, createdAt, updatedAt,
                   Some(nextPosition), Some(NewDepth(parentNote)), Some(NewPath(parentPath, nextPosition)))
  }

  // ---------------------------------------------------------------------
  // Buttons
  // ---------------------------------------------------------------------

  /** `hasChildren`: the map lists children for the note. */
  predicate HasChildren(noteId: string, cbp: map<Option<string>, seq<Note>>) {
    |SiblingList(Some(noteId), cbp)| > 0
  }

  /** The row's own state: whether an add is running. */
  class NoteRow {
    var isAddingChild: bool

    constructor ()
      ensures !isAddingChild
    {
      isAddingChild := false;
    }

    /** `handleToggle`: toggles the note only when it has children. */
    method HandleToggle(list: NoteListState, noteId: string, cbp: map<Option<string>, seq<Note>>)
      modifies list
      ensures list.expandedNoteIds ==
        (if HasChildren(noteId, cbp) then Toggled(old(list.expandedNoteIds), noteId) else old(list.expandedNoteIds))
      ensures list.isMovingNote == old(list.isMovingNote) && list.draggingNoteId == old(list.draggingNoteId)
      ensures list.noteToDeleteId == old(list.noteToDeleteId) && list.isDeletingNote == old(list.isDeletingNote)
    {
      if HasChildren(noteId, cbp) {
        list.HandleToggleExpand(noteId);
      }
    }

    /** `handleAddChild`.  The insert's outcome is `insertSucceeds`; returns
        the row handed to `note.insert`, if any.  Without a client or while
        an add runs nothing happens; after a successful add a collapsed
        parent is expanded, by a single toggle. */
    method HandleAddChild(list: NoteListState, clientAvailable: bool, parentId: string, newNoteId: string,
                          createdAt: int, updatedAt: int, byId: map<string, NoteWithChildren>, cbp: map<Option<string>, seq<Note>>, insertSucceeds: bool)
      returns (inserted: Option<CreateNoteArgs>)
      modifies this, list
      ensures old(isAddingChild) || !clientAvailable ==>
        inserted.None? && isAddingChild == old(isAddingChild) && list.expandedNoteIds == old(list.expandedNoteIds)
      ensures !old(isAddingChild) && clientAvailable ==>
        inserted == Some(ChildArgs(parentId, newNoteId, createdAt, updatedAt, byId, cbp)) && !isAddingChild
      ensures !old(isAddingChild) && clientAvailable && insertSucceeds && !IsExpanded(old(list.expandedNoteIds), parentId) ==>
        list.expandedNoteIds == Toggled(old(list.expandedNoteIds), parentId) && IsExpanded(list.expandedNoteIds, parentId)
      ensures !(!old(isAddingChild) && clientAvailable && insertSucceeds && !IsExpanded(old(list.expandedNoteIds), parentId)) ==>
        list.expandedNoteIds == old(list.expandedNoteIds)
      ensures list.isMovingNote == old(list.isMovingNote) && list.draggingNoteId == old(list.draggingNoteId)
      ensures list.noteToDeleteId == old(list.noteToDeleteId) && list.isDeletingNote == old(list.isDeletingNote)
    {
      inserted := None;
      if !clientAvailable || isAddingChild {
        return;
      }
      var isExpanded := IsExpanded(list.expandedNoteIds, parentId);
      isAddingChild := true;
      inserted := Some(ChildArgs(parentId, newNoteId, createdAt, updatedAt, byId, cbp));
      if insertSucceeds {
        if !isExpanded {
          list.HandleToggleExpand(parentId);
        }
      }
      isAddingChild := false;
    }
  }
}
