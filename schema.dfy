/** The row permissions of the synced schema
    (packages/zero-shared/src/schema.ts): which principal may read or
    change which `user` and `note` rows. */
module Schema {
  import opened Helper
  import Auth

  /** The token fields the permission rules read.  A connection's token may
      lack them, so both are optional here. */
  datatype Claims = Claims(sub: Option<string>, organizationId: Option<string>)

  /** The claims of a principal the mutators accept. */
  function ClaimsOf(a: Auth.AuthData): Claims {
    Claims(Some(a.sub), Some(a.organizationId))
  }

  /** `userIsLoggedIn`: `authData.sub IS NOT NULL`. */
  predicate UserIsLoggedIn(c: Claims) {
    c.sub.Some?
  }

  /** The organisation the rules compare rows with: `authData.organizationId ?? ""`. */
  function OrgOrEmpty(c: Claims): string {
    if c.organizationId.Some? then c.organizationId.value else ""
  }

  /** `userSameOrg`: the row's `organizationId` is the principal's. */
  predicate UserSameOrg(c: Claims, rowOrg: string) {
    rowOrg == OrgOrEmpty(c)
  }

  /** The two named rules; both are logged-in and same-organisation. */
  datatype Rule = CanSeeUsers | CanAccessNote

  predicate Holds(rule: Rule, c: Claims, rowOrg: string) {
    match rule
    case CanSeeUsers => UserIsLoggedIn(c) && UserSameOrg(c, rowOrg)
    case CanAccessNote => UserIsLoggedIn(c) && UserSameOrg(c, rowOrg)
  }

  datatype Table = UserTable | NoteTable
  datatype Action = Select | Insert | Delete | PreUpdate | PostUpdate

  /** The rule table: the rules listed for each table and action. */
  function Rules(t: Table, a: Action): (r: seq<Rule>)
    ensures t == UserTable ==> (r == [] <==> a == Insert || a == Delete)
    ensures t == NoteTable ==> r == [CanAccessNote]
  {
    match t
    case UserTable => (if a == Insert || a == Delete then [] else [CanSeeUsers])
    case NoteTable => [CanAccessNote]
  }

  /** A row action is allowed when one of its listed rules holds, so an
      action with no rules is denied. */
  predicate Allowed(t: Table, a: Action, c: Claims, rowOrg: string) {
    exists rule :: rule in Rules(t, a) && Holds(rule, c, rowOrg)
  }

  /** Every listed action on either table needs a logged-in principal of
      the row's organisation, and nothing else; users can be neither
      inserted nor deleted through sync. */
  lemma AllowedMeaning(t: Table, a: Action, c: Claims, rowOrg: string)
    ensures Allowed(t, a, c, rowOrg) <==>
      !(t == UserTable && (a == Insert || a == Delete)) && UserIsLoggedIn(c) && UserSameOrg(c, rowOrg)
  {
    if !(t == UserTable && (a == Insert || a == Delete)) && UserIsLoggedIn(c) && UserSameOrg(c, rowOrg) {
      assert Rules(t, a)[0] in Rules(t, a);
    }
  }

  /** An update that moves a row to another organisation is refused: the
      row passed the pre-mutation check only if it was in the principal's
      organisation, and the post-mutation check sees it outside. */
  lemma CrossOrgUpdateRefused(t: Table, c: Claims, oldOrg: string, newOrg: string)
    requires oldOrg != newOrg
    ensures !(Allowed(t, PreUpdate, c, oldOrg) && Allowed(t, PostUpdate, c, newOrg))
  {
    AllowedMeaning(t, PreUpdate, c, oldOrg);
    AllowedMeaning(t, PostUpdate, c, newOrg);
  }

  /** The server mutators' ownership test (`organizationId === auth.organizationId`)
      is the same-organisation rule for the claims of an accepted principal. */
  lemma OwnershipIsSameOrg(a: Auth.AuthData, rowOrg: string)
    ensures Allowed(NoteTable, Select, ClaimsOf(a), rowOrg) <==> rowOrg == a.organizationId
  {
    AllowedMeaning(NoteTable, Select, ClaimsOf(a), rowOrg);
  }
}
