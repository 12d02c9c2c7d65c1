/** The rows and mutation arguments shared by the client and the server:
    the `note` and `user` tables and the arguments of their mutators. */
module Records {
  import opened Helper

  /** A note row as the client and the server use it: the union of the
      columns of the `note` table, the client-side `Note` type, the
      fractional `sortKey` the tree code orders by, and the legacy
      `position`/`depth`/`path` columns.  Nullable or missing columns are
      `Option`s; `null` and `undefined` are not told apart. */
  datatype Note = Note(
    noteId: string,
    title: Option<string>,
    content: string,
    parentId: Option<string>,
    sortKey: Option<string>,
    organizationId: string,
    createdBy: string,
    createdAt: int,
    updatedAt: int,
    position: Option<int>,
    depth: Option<int>,
    path: Option<string>)

  /** A row of the `user` table. */
  datatype User = User(
    userId: string,
    email: string,
    isActive: bool,
    organizationId: string,
    createdAt: int,
    updatedAt: int)

  /** The arguments handed to `note.insert`.  Besides the seven declared
      fields, a caller may pass the legacy `position`, `depth` and `path`.
      `sortKey` is declared a string, but the child-adding button leaves it
      out, so it is optional here. */
  datatype CreateNoteArgs = CreateNoteArgs(
    noteId: string,
    title: string,
    content: string,
    parentId: Option<string>,
    sortKey: Option<string>,
    createdAt: int,
    updatedAt: int,
    position: Option<int>,
    depth: Option<int>,
    path: Option<string>)

  /** The arguments of `note.update`: the id and the fields to change.
      `parentId` is `Some(None)` when the caller sets it to `null`. */
  datatype UpdateNoteArgs = UpdateNoteArgs(
    noteId: string,
    title: Option<string>,
    content: Option<string>,
    parentId: Option<Option<string>>,
    sortKey: Option<string>,
    updatedAt: Option<int>)

  /** The arguments of `user.update`: the key and any other user column. */
  datatype UpdateUserArgs = UpdateUserArgs(
    userId: string,
    email: Option<string>,
    isActive: Option<bool>,
    organizationId: Option<string>,
    createdAt: Option<int>,
    updatedAt: Option<int>)
}
