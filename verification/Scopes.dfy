/** What scope texts and built-in roles mean, for every text. */
module Scopes {

  import opened Rbac
  import opened Text
  import opened Wrappers

  // ---------------------------------------------------------------- the tables of the built-in roles

  const CRUD := {Create, Read, Update, Delete, List}

  /** The actions listed for a role and a resource; an admin has the whole catalog. */
  function Row(role: Role, r: Resource): set<Action> {
    match role
    case Admin =>
      (match r
       case Audit => {Read, List}
       case Settings => {Read, Write}
       case _ => CRUD)
    case Operator =>
      (match r
       case Pools => CRUD
       case Accounts => CRUD
       case Discovery => {Create, Read, Update, List}
       case _ => {})
    case Viewer => if r in {Pools, Accounts, Discovery} then {Read, List} else {}
    case Auditor => if r == Audit then {Read, List} else {}
    case _ => {}
  }

  ghost predicate Listed(role: Role, p: Permission) {
    p.action in Row(role, p.resource)
  }

  /** The catalog and the role tests are these tables. */
  lemma RolesAreTables(role: Role, p: Permission)
    ensures InCatalog(p) <==> Listed(Admin, p)
    ensures StaticallyHas(role, p) <==> Listed(role, p)
  {
    assert p.action in CRUD <==> !p.action.Write?;
  }

  // ---------------------------------------------------------------- splitting at the first colon

  /** A name without a colon, a colon and a verb read back. */
  lemma {:induction false} SplitJoined(name: string, verb: string)
    requires ':' !in name
    ensures SplitColon(name + ":" + verb) == Some((name, verb))
  {
    var s := name + ":" + verb;
    if name == "" {
      assert s[1..] == verb;
    } else {
      SplitJoined(name[1..], verb);
      assert s[1..] == name[1..] + ":" + verb;
      assert [name[0]] + name[1..] == name;
    }
  }

  lemma {:induction false} JoinedSplit(s: string)
    ensures SplitColon(s).Some? ==>
      var parts := SplitColon(s).value; ':' !in parts.0 && s == parts.0 + ":" + parts.1
  {
    if s != "" && s[0] != ':' {
      JoinedSplit(s[1..]);
      assert s == [s[0]] + s[1..];
    }
  }

  // ---------------------------------------------------------------- what a scope grants

  /** The names a scope may give a resource. */
  function NamesOf(r: Resource): set<string> {
    match r
    case Pools => {"pools"}
    case Accounts => {"accounts"}
    case ApiKeys => {"keys", "apikeys"}
    case Audit => {"audit"}
    case Users => {"users"}
    case Discovery => {"discovery"}
    case Settings => {"settings"}
  }

  /** The verbs that include an action: its own name, `read` for reading and listing, `write` and the star for all. */
  function VerbsFor(a: Action): set<string> {
    {"*", "write"} + match a
      case Create => {"create"}
      case Read => {"read"}
      case Update => {"update"}
      case Delete => {"delete"}
      case List => {"list", "read"}
      case Write => {}
  }

  ghost predicate Spells(s: string, r: Resource, verb: string) {
    exists name :: name in NamesOf(r) && s == name + ":" + verb
  }

  ghost predicate Grants(scope: string, p: Permission) {
    TrimSpace(scope) == "*" || exists verb :: verb in VerbsFor(p.action) && Spells(TrimSpace(scope), p.resource, verb)
  }

  lemma NamesOfResource(r: Resource, name: string)
    ensures ScopeResource(name) == Some(r) <==> name in NamesOf(r)
    ensures name in NamesOf(r) ==> ':' !in name
  {
  }

  lemma VerbsOfAction(a: Action, verb: string)
    ensures verb in VerbsFor(a) <==>
      verb == STAR || (if verb == READ then a.Read? || a.List? else verb == WRITE || verb == ActionName(a))
  {
  }

  /** Splitting a text finds the resource and the verb it spells. */
  lemma SpellsIff(s: string, r: Resource, verb: string)
    ensures Spells(s, r, verb) <==>
      SplitColon(s).Some? && ScopeResource(SplitColon(s).value.0) == Some(r) && SplitColon(s).value.1 == verb
  {
    JoinedSplit(s);
    if SplitColon(s).Some? {
      NamesOfResource(r, SplitColon(s).value.0);
    }
    if Spells(s, r, verb) {
      var name :| name in NamesOf(r) && s == name + ":" + verb;
      NamesOfResource(r, name);
      SplitJoined(name, verb);
    }
  }

  /** The star has no colon. */
  lemma StarSplit()
    ensures SplitColon(STAR) == None
  {
    assert STAR[1..] == "";
  }

  lemma GrantsIff(scope: string, p: Permission)
    ensures ScopeAllows(scope, p) <==> Grants(scope, p)
  {
    var s := TrimSpace(scope);
    if SplitColon(s).Some? {
      var verb := SplitColon(s).value.1;
      SpellsIff(s, p.resource, verb);
      VerbsOfAction(p.action, verb);
    }
    if verb :| verb in VerbsFor(p.action) && Spells(s, p.resource, verb) {
      SpellsIff(s, p.resource, verb);
    }
  }

  // ---------------------------------------------------------------- who may issue a scope

  /** The caller holds what the verb stands for; one half suffices for reading. */
  ghost predicate HoldsVerb(c: Caller, r: Resource, verb: string) {
    if verb == "read" then Has(c, Permission(r, Read)) || Has(c, Permission(r, List))
    else if verb in {"write", "*"} then forall a :: a != Write ==> Has(c, Permission(r, a))
    else exists a :: verb in VerbsFor(a) && Has(c, Permission(r, a))
  }

  /** The star may be issued by who holds the whole catalog; a resource and a verb by who holds that. */
  ghost predicate MayIssue(c: Caller, scope: string) {
    if TrimSpace(scope) == "*" then forall p :: Listed(Admin, p) ==> Has(c, p)
    else exists r: Resource, verb :: Spells(TrimSpace(scope), r, verb) && HoldsVerb(c, r, verb)
  }

  lemma HoldsCrud(c: Caller, r: Resource)
    ensures (forall a :: a != Write ==> Has(c, Permission(r, a))) <==>
      Holds(c, r, Create) && Holds(c, r, Read) && Holds(c, r, Update) && Holds(c, r, Delete) && Holds(c, r, List)
  {
  }

  lemma OwnVerb(a: Action, verb: string)
    requires verb != READ && verb != WRITE && verb != STAR
    ensures verb in VerbsFor(a) <==> verb == ActionName(a)
  {
    VerbsOfAction(a, verb);
  }

  lemma HoldsOwnVerb(c: Caller, r: Resource, verb: string)
    requires verb != READ && verb != WRITE && verb != STAR
    ensures (exists a :: verb in VerbsFor(a) && Has(c, Permission(r, a)))
       <==> exists a: Action :: verb == ActionName(a) && Holds(c, r, a)
  {
    if a :| verb in VerbsFor(a) && Has(c, Permission(r, a)) {
      OwnVerb(a, verb);
      assert verb == ActionName(a) && Holds(c, r, a);
    }
    if a: Action :| verb == ActionName(a) && Holds(c, r, a) {
      OwnVerb(a, verb);
      assert verb in VerbsFor(a) && Has(c, Permission(r, a));
    }
  }

  lemma HoldsVerbIff(c: Caller, r: Resource, verb: string)
    ensures HoldsVerb(c, r, verb) <==>
      if verb == READ then Holds(c, r, Read) || Holds(c, r, List)
      else if verb == WRITE || verb == STAR then
        Holds(c, r, Create) && Holds(c, r, Read) && Holds(c, r, Update) && Holds(c, r, Delete) && Holds(c, r, List)
      else exists a: Action :: verb == ActionName(a) && Holds(c, r, a)
  {
    HoldsCrud(c, r);
    if verb != READ && verb != WRITE && verb != STAR {
      HoldsOwnVerb(c, r, verb);
    }
  }

  lemma MayIssueIff(c: Caller, scope: string)
    ensures ScopeAllowedBy(c, scope) <==> MayIssue(c, scope)
  {
    if TrimSpace(scope) == STAR {
      AllOfCatalog(c);
    } else {
      MayIssueSplit(c, scope);
    }
  }

  lemma MayIssueSplit(c: Caller, scope: string)
    requires TrimSpace(scope) != STAR
    ensures ScopeAllowedBy(c, scope) <==> MayIssue(c, scope)
  {
    var s := TrimSpace(scope);
    if r: Resource, verb :| Spells(s, r, verb) && HoldsVerb(c, r, verb) {
      SpellsIff(s, r, verb);
      HoldsVerbIff(c, r, verb);
    }
    if SplitColon(s).Some? && ScopeResource(SplitColon(s).value.0).Some? {
      var r, verb := ScopeResource(SplitColon(s).value.0).value, SplitColon(s).value.1;
      SpellsIff(s, r, verb);
      HoldsVerbIff(c, r, verb);
    }
  }

  lemma AllOfCatalog(c: Caller)
    ensures (forall r: Resource, a: Action :: InCatalog(Permission(r, a)) ==> Holds(c, r, a))
       <==> forall p :: Listed(Admin, p) ==> Has(c, p)
  {
    forall p: Permission
      ensures Listed(Admin, p) <==> InCatalog(p)
      ensures Has(c, p) <==> Holds(c, p.resource, p.action)
    {
      RolesAreTables(Admin, p);
    }
  }

  // ---------------------------------------------------------------- the role a scope implies

  const OPERATOR_SCOPES := {
    "pools:write", "accounts:write", "keys:write", "discovery:write", "pools:*", "accounts:*", "keys:*", "discovery:*"}

  const VIEWER_SCOPES := {"pools:read", "accounts:read", "keys:read", "discovery:read"}
  const AUDITOR_SCOPES := {"audit:read", "audit:*"}

  lemma Joined(s: string, name: string, verb: string)
    requires ':' !in name
    ensures s == name + ":" + verb <==> SplitColon(s) == Some((name, verb))
  {
    SplitJoined(name, verb);
    JoinedSplit(s);
  }

  lemma StarEnding(s: string)
    ensures EndsStar(s) ==> s == s[..|s| - 2] + ":*"
    ensures SplitColon(s).Some? && SplitColon(s).value.1 == STAR ==> EndsStar(s) && s[..|s| - 2] == SplitColon(s).value.0
    ensures EndsStar(s) && ':' !in s[..|s| - 2] ==> SplitColon(s) == Some((s[..|s| - 2], STAR))
  {
    JoinedSplit(s);
    if EndsStar(s) && ':' !in s[..|s| - 2] {
      SplitJoined(s[..|s| - 2], STAR);
      assert s == s[..|s| - 2] + ":" + STAR;
    }
  }

  /** A resource that keys can be about, and the verb. */
  ghost predicate KeyScope(s: string, verb: string) {
    SplitColon(s).Some? && IsKeyResource(SplitColon(s).value.0) && SplitColon(s).value.1 == verb
  }

  lemma KeyScopeIs(s: string, verb: string)
    ensures KeyScope(s, verb) <==>
      s == "pools" + ":" + verb || s == "accounts" + ":" + verb || s == "keys" + ":" + verb || s == "discovery" + ":" + verb
  {
    Joined(s, "pools", verb);
    Joined(s, "accounts", verb);
    Joined(s, "keys", verb);
    Joined(s, "discovery", verb);
  }

  lemma Spelled()
    ensures "pools" + ":" + WRITE == "pools:write" && "accounts" + ":" + WRITE == "accounts:write"
    ensures "keys" + ":" + WRITE == "keys:write" && "discovery" + ":" + WRITE == "discovery:write"
    ensures "pools" + ":" + READ == "pools:read" && "accounts" + ":" + READ == "accounts:read"
    ensures "keys" + ":" + READ == "keys:read" && "discovery" + ":" + READ == "discovery:read"
    ensures "pools" + ":" + STAR == "pools:*" && "accounts" + ":" + STAR == "accounts:*"
    ensures "keys" + ":" + STAR == "keys:*" && "discovery" + ":" + STAR == "discovery:*"
    ensures "audit" + ":" + READ == "audit:read" && "audit" + ":" + STAR == "audit:*"
  {
  }

  lemma KeyScopesListed(s: string)
    ensures KeyScope(s, WRITE) || KeyScope(s, STAR) <==> s in OPERATOR_SCOPES
    ensures KeyScope(s, READ) <==> s in VIEWER_SCOPES
  {
    Spelled();
    KeyScopeIs(s, WRITE);
    KeyScopeIs(s, STAR);
    KeyScopeIs(s, READ);
  }

  lemma AuditScopesListed(s: string)
    ensures SplitColon(s) == Some(("audit", READ)) || SplitColon(s) == Some(("audit", STAR)) <==> s in AUDITOR_SCOPES
  {
    Spelled();
    Joined(s, "audit", READ);
    Joined(s, "audit", STAR);
  }

  /** The flags of a text that is not the star, by its resource and verb. */
  lemma FlagsOfSplit(scope: string)
    requires TrimSpace(scope) != STAR
    ensures var s, f := TrimSpace(scope), FlagsOf(scope);
      !f.admin && (f.write <==> KeyScope(s, WRITE) || KeyScope(s, STAR)) && (f.read <==> KeyScope(s, READ))
      && (f.audit <==> SplitColon(s) == Some(("audit", READ)) || SplitColon(s) == Some(("audit", STAR)))
  {
    var s := TrimSpace(scope);
    StarEnding(s);
    if EndsStar(s) {
      StarPrefix(s, s[..|s| - 2]);
    }
  }

  /** A resource name before a final star is what splitting finds. */
  lemma StarPrefix(s: string, name: string)
    requires EndsStar(s) && name == s[..|s| - 2]
    ensures IsKeyResource(name) || name == "audit" ==> ':' !in name
    ensures SplitColon(s).Some? ==> SplitColon(s).value.1 != READ && SplitColon(s).value.1 != WRITE
  {
    PlainName(name);
    JoinedSplit(s);
    if SplitColon(s).Some? {
      LastOf(SplitColon(s).value.0, SplitColon(s).value.1);
    }
  }

  lemma PlainName(name: string)
    ensures IsKeyResource(name) || name == "audit" ==> ':' !in name
  {
  }

  lemma LastOf(name: string, verb: string)
    ensures verb != "" ==> (name + ":" + verb)[|name + ":" + verb| - 1] == verb[|verb| - 1]
    ensures verb == READ || verb == WRITE ==> verb[|verb| - 1] != '*'
  {
  }

  /** The role a scope implies, for every text. */
  lemma RoleOfIs(scope: string)
    ensures var s := TrimSpace(scope);
      (RoleOf(scope) == Admin <==> s == "*")
      && (RoleOf(scope) == Operator <==> s in OPERATOR_SCOPES)
      && (RoleOf(scope) == Viewer <==> s in VIEWER_SCOPES)
      && (RoleOf(scope) == Auditor <==> s in AUDITOR_SCOPES)
      && RoleOf(scope) in {Admin, Operator, Viewer, Auditor, NoRole}
  {
    var s := TrimSpace(scope);
    KeyScopesListed(s);
    AuditScopesListed(s);
    if s == STAR {
      StarSplit();
    } else {
      FlagsOfSplit(scope);
    }
    Levels(scope);
  }

  lemma Levels(scope: string)
    ensures var f := FlagsOf(scope);
      (f.write ==> !f.read && !f.audit) && (f.read ==> !f.audit)
  {
  }
}
