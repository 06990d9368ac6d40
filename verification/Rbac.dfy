/** Permissions, API key scopes and the roles derived from them. */
module Rbac {

  import opened Text
  import opened Wrappers

  datatype Resource = Pools | Accounts | ApiKeys | Audit | Users | Discovery | Settings
  datatype Action = Create | Read | Update | Delete | List | Write
  datatype Permission = Permission(resource: Resource, action: Action)
  datatype Role = Admin | Operator | Viewer | Auditor | NoRole | Custom(name: string)

  /** `write` is an action of settings only; audit logs can only be read. */
  predicate InCatalog(p: Permission) {
    match p.resource
    case Audit => p.action.Read? || p.action.List?
    case Settings => p.action.Read? || p.action.Write?
    case _ => !p.action.Write?
  }

  predicate StaticallyHas(role: Role, p: Permission) {
    match role
    case Admin => InCatalog(p)
    case Operator =>
      InCatalog(p) && (p.resource.Pools? || p.resource.Accounts? || (p.resource.Discovery? && !p.action.Delete?))
    case Viewer =>
      (p.resource.Pools? || p.resource.Accounts? || p.resource.Discovery?) && (p.action.Read? || p.action.List?)
    case Auditor => p.resource.Audit? && (p.action.Read? || p.action.List?)
    case _ => false
  }

  predicate IsBuiltin(role: Role) {
    role.Admin? || role.Operator? || role.Viewer? || role.Auditor?
  }

  function RoleLevel(role: Role): nat {
    match role
    case Admin => 4
    case Operator => 3
    case Viewer => 2
    case Auditor => 1
    case _ => 0
  }

  // ---------------------------------------------------------------- scope texts

  /** `strings.SplitN(s, ":", 2)` when it gives two parts. */
  function SplitColon(s: string): Option<(string, string)> {
    if s == "" then None
    else if s[0] == ':' then Some(("", s[1..]))
    else
      match SplitColon(s[1..])
      case None => None
      case Some(parts) => Some(([s[0]] + parts.0, parts.1))
  }

  const STAR := "*"
  const READ := "read"
  const WRITE := "write"

  /** The resource a scope names; `keys` is another name for `apikeys`. */
  function ScopeResource(text: string): Option<Resource> {
    if text == "pools" then Some(Pools)
    else if text == "accounts" then Some(Accounts)
    else if text == "keys" || text == "apikeys" then Some(ApiKeys)
    else if text == "audit" then Some(Audit)
    else if text == "users" then Some(Users)
    else if text == "discovery" then Some(Discovery)
    else if text == "settings" then Some(Settings)
    else None
  }

  function ActionName(a: Action): string {
    match a
    case Create => "create"
    case Read => READ
    case Update => "update"
    case Delete => "delete"
    case List => "list"
    case Write => WRITE
  }

  predicate ScopeAllows(scope: string, p: Permission) {
    var s := TrimSpace(scope);
    s == STAR
    || (SplitColon(s).Some?
        && var parts := SplitColon(s).value;
           ScopeResource(parts.0) == Some(p.resource)
           && (parts.1 == STAR
               || (if parts.1 == READ then p.action.Read? || p.action.List?
                   else parts.1 == WRITE || parts.1 == ActionName(p.action))))
  }

  predicate ScopesAllow(scopes: seq<string>, p: Permission) {
    exists i :: 0 <= i < |scopes| && ScopeAllows(scopes[i], p)
  }

  // ---------------------------------------------------------------- who asks

  /** A session with a role and the permissions stored for it, an API key, or nobody. */
  datatype Caller = WithRole(role: Role, permissions: seq<Permission>) | WithKey(scopes: seq<string>) | Nobody

  predicate Has(c: Caller, p: Permission) {
    match c
    case WithRole(role, permissions) => role != NoRole && p in permissions
    case WithKey(scopes) => ScopesAllow(scopes, p)
    case Nobody => false
  }

  predicate Holds(c: Caller, r: Resource, a: Action) {
    Has(c, Permission(r, a))
  }

  /** The issuing gate for one scope. */
  predicate ScopeAllowedBy(c: Caller, scope: string) {
    var s := TrimSpace(scope);
    if s == STAR then forall r: Resource, a: Action :: InCatalog(Permission(r, a)) ==> Holds(c, r, a)
    else
      SplitColon(s).Some?
      && var parts := SplitColon(s).value;
         var r := ScopeResource(parts.0);
         r.Some?
         && if parts.1 == READ then Holds(c, r.value, Read) || Holds(c, r.value, List)
            else if parts.1 == WRITE || parts.1 == STAR then
              Holds(c, r.value, Create) && Holds(c, r.value, Read) && Holds(c, r.value, Update)
              && Holds(c, r.value, Delete) && Holds(c, r.value, List)
            else exists a: Action :: parts.1 == ActionName(a) && Holds(c, r.value, a)
  }

  // ---------------------------------------------------------------- the role of a key

  datatype Flags = Flags(admin: bool, write: bool, read: bool, audit: bool)

  predicate EndsStar(s: string) {
    |s| >= 2 && s[|s| - 2..] == ":*"
  }

  predicate IsKeyResource(name: string) {
    name == "pools" || name == "accounts" || name == "keys" || name == "discovery"
  }

  function FlagsOf(scope: string): Flags {
    var s := TrimSpace(scope);
    if s == STAR then Flags(true, false, false, false)
    else if EndsStar(s) then
      Flags(false, IsKeyResource(s[..|s| - 2]), false, s[..|s| - 2] == "audit")
    else if SplitColon(s).None? then Flags(false, false, false, false)
    else
      var parts := SplitColon(s).value;
      Flags(false,
            IsKeyResource(parts.0) && parts.1 == WRITE,
            IsKeyResource(parts.0) && parts.1 == READ,
            parts.0 == "audit" && parts.1 == READ)
  }

  function RoleFromFlags(f: Flags): Role {
    if f.admin then Admin else if f.write then Operator else if f.read then Viewer
    else if f.audit then Auditor else NoRole
  }

  function Either(f: Flags, g: Flags): Flags {
    Flags(f.admin || g.admin, f.write || g.write, f.read || g.read, f.audit || g.audit)
  }

  function AllFlags(scopes: seq<string>): Flags {
    if scopes == [] then Flags(false, false, false, false)
    else Either(AllFlags(scopes[..|scopes| - 1]), FlagsOf(scopes[|scopes| - 1]))
  }

  /** The highest role any scope implies. */
  function RoleFromScopes(scopes: seq<string>): Role {
    RoleFromFlags(AllFlags(scopes))
  }

  /** The role one scope implies. */
  function RoleOf(scope: string): Role {
    RoleFromFlags(FlagsOf(scope))
  }

  /** No scope implies a higher role, and the role is that of some scope unless no scope implies one. */
  ghost predicate IsHighest(scopes: seq<string>, role: Role) {
    (forall i :: 0 <= i < |scopes| ==> RoleLevel(RoleOf(scopes[i])) <= RoleLevel(role))
    && (role != NoRole ==> exists i :: 0 <= i < |scopes| && RoleOf(scopes[i]) == role)
  }

  lemma EitherIsHigher(f: Flags, g: Flags)
    ensures var r, a, b := RoleFromFlags(Either(f, g)), RoleFromFlags(f), RoleFromFlags(g);
      RoleLevel(a) <= RoleLevel(r) && RoleLevel(b) <= RoleLevel(r) && (r == a || r == b)
  {
  }

  lemma {:induction false} RoleIsHighest(scopes: seq<string>)
    ensures IsHighest(scopes, RoleFromScopes(scopes))
  {
    if scopes != [] {
      var init, last := scopes[..|scopes| - 1], scopes[|scopes| - 1];
      RoleIsHighest(init);
      EitherIsHigher(AllFlags(init), FlagsOf(last));
      HighestSnoc(init, RoleFromScopes(init), last, RoleFromScopes(scopes));
      assert init + [last] == scopes;
    }
  }

  lemma HighestSnoc(init: seq<string>, role: Role, last: string, both: Role)
    requires IsHighest(init, role) && RoleLevel(role) <= RoleLevel(both) && RoleLevel(RoleOf(last)) <= RoleLevel(both)
    requires both == role || both == RoleOf(last)
    ensures IsHighest(init + [last], both)
  {
    var scopes := init + [last];
    forall i | 0 <= i < |scopes|
      ensures RoleLevel(RoleOf(scopes[i])) <= RoleLevel(both)
    {
      assert i < |init| ==> scopes[i] == init[i];
    }
    if both != NoRole {
      if both == role {
        var i :| 0 <= i < |init| && RoleOf(init[i]) == role;
        assert scopes[i] == init[i];
      } else {
        assert scopes[|init|] == last;
      }
    }
  }

  method GetRoleFromScopes(scopes: seq<string>) returns (role: Role)
    ensures role == RoleFromScopes(scopes)
    ensures IsHighest(scopes, role)
  {
    RoleIsHighest(scopes);
    var f := Flags(false, false, false, false);
    for i := 0 to |scopes|
      invariant f == AllFlags(scopes[..i])
    {
      assert scopes[..i + 1][..i] == scopes[..i];
      f := Either(f, FlagsOf(scopes[i]));
    }
    assert scopes[..|scopes|] == scopes;
    role := RoleFromFlags(f);
  }

  // ---------------------------------------------------------------- the permission cache

  type Cache = map<Role, map<Resource, map<Action, bool>>>

  predicate Cached(cache: Cache, role: Role, p: Permission) {
    role in cache && p.resource in cache[role] && p.action in cache[role][p.resource]
    && cache[role][p.resource][p.action]
  }

  /** One role's nested table. */
  method CacheRole(perms: seq<Permission>) returns (table: map<Resource, map<Action, bool>>)
    ensures forall p: Permission :: p in perms <==>
              p.resource in table && p.action in table[p.resource] && table[p.resource][p.action]
  {
    table := map[];
    for i := 0 to |perms|
      invariant forall p: Permission :: p in perms[..i] <==>
                  p.resource in table && p.action in table[p.resource] && table[p.resource][p.action]
    {
      var q := perms[i];
      var row := if q.resource in table then table[q.resource] else map[];
      table := table[q.resource := row[q.action := true]];
      assert forall p :: p in perms[..i + 1] <==> p in perms[..i] || p == q;
    }
    assert perms[..|perms|] == perms;
  }

  /** A lookup in the table answers exactly what a scan of the lists would. */
  method BuildCache(lists: map<Role, seq<Permission>>) returns (cache: Cache)
    ensures forall role, p :: Cached(cache, role, p) <==> role in lists && p in lists[role]
  {
    cache := map[];
    var todo := lists.Keys;
    while todo != {}
      invariant todo <= lists.Keys
      invariant forall role, p :: Cached(cache, role, p) <==> role in lists && role !in todo && p in lists[role]
    {
      var role :| role in todo;
      var table := CacheRole(lists[role]);
      ghost var before := cache;
      cache := cache[role := table];
      todo := todo - {role};
      forall r, p
        ensures Cached(cache, r, p) <==> r in lists && r !in todo && p in lists[r]
      {
        assert r != role ==> (Cached(cache, r, p) <==> Cached(before, r, p));
      }
    }
  }
}
