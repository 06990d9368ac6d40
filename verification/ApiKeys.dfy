/** Issuing API keys: the gates, and what chains of issued keys can do. */
module ApiKeys {

  import opened KeyStore
  import opened Rbac
  import opened Scopes
  import opened Text
  import opened Wrappers

  // ---------------------------------------------------------------- the accepted scopes

  datatype Scope = All | Over(resource: Resource, write: bool)

  function ReadScope(text: string): Option<Resource> {
    if text == "pools:read" then Some(Pools)
    else if text == "accounts:read" then Some(Accounts)
    else if text == "audit:read" then Some(Audit)
    else if text == "keys:read" then Some(Resource.ApiKeys)
    else if text == "discovery:read" then Some(Discovery)
    else None
  }

  function WriteScope(text: string): Option<Resource> {
    if text == "pools:write" then Some(Pools)
    else if text == "accounts:write" then Some(Accounts)
    else if text == "keys:write" then Some(Resource.ApiKeys)
    else if text == "discovery:write" then Some(Discovery)
    else None
  }

  /** The scopes the issuer accepts. */
  function ScopeOf(text: string): Option<Scope> {
    if text == STAR then Some(All)
    else if ReadScope(text).Some? then Some(Over(ReadScope(text).value, false))
    else if WriteScope(text).Some? then Some(Over(WriteScope(text).value, true))
    else None
  }

  predicate IsValidScope(text: string) {
    ScopeOf(text).Some?
  }

  predicate AllValid(scopes: seq<string>) {
    forall i :: 0 <= i < |scopes| ==> IsValidScope(scopes[i])
  }

  predicate Covers(s: Scope, p: Permission) {
    s.All? || (p.resource == s.resource && (s.write || p.action.Read? || p.action.List?))
  }

  ghost predicate Gate(c: Caller, s: Scope) {
    match s
    case All => forall p :: InCatalog(p) ==> Has(c, p)
    case Over(r, true) =>
      Holds(c, r, Create) && Holds(c, r, Read) && Holds(c, r, Update) && Holds(c, r, Delete) && Holds(c, r, List)
    case Over(r, false) => Holds(c, r, Read) || Holds(c, r, List)
  }

  function ImpliedFlags(s: Scope): Flags {
    match s
    case All => Flags(true, false, false, false)
    case Over(Audit, write) => Flags(false, false, false, !write)
    case Over(_, write) => Flags(false, write, !write, false)
  }

  function Name(r: Resource): string {
    match r
    case Pools => "pools"
    case Accounts => "accounts"
    case ApiKeys => "keys"
    case Audit => "audit"
    case Users => "users"
    case Discovery => "discovery"
    case Settings => "settings"
  }

  function Verb(write: bool): string {
    if write then WRITE else READ
  }

  lemma TrimJoined(s: string)
    requires s != "" && !IsSpace(s[0]) && !IsSpace(s[|s| - 1])
    ensures TrimSpace(s) == s
  {
  }

  lemma NamesArePlain(r: Resource)
    ensures Name(r) != "" && ':' !in Name(r) && !IsSpace(Name(r)[0])
    ensures ScopeResource(Name(r)) == Some(r)
    ensures IsKeyResource(Name(r)) <==> r.Pools? || r.Accounts? || r.ApiKeys? || r.Discovery?
    ensures Name(r) == "audit" <==> r.Audit?
  {
  }

  lemma VerbsArePlain(write: bool)
    ensures |Verb(write)| >= 4 && !IsSpace(Verb(write)[|Verb(write)| - 1]) && Verb(write)[|Verb(write)| - 1] != '*'
    ensures Verb(write) != STAR && (Verb(write) == READ <==> !write) && (Verb(write) == WRITE <==> write)
  {
  }

  /** An accepted scope is a resource name, a colon and a verb. */
  lemma ReadSpelling(text: string)
    requires ReadScope(text).Some?
    ensures text == Name(ReadScope(text).value) + ":" + READ
  {
  }

  lemma WriteSpelling(text: string)
    requires WriteScope(text).Some?
    ensures text == Name(WriteScope(text).value) + ":" + WRITE
  {
  }

  lemma ParsedScope(r: Resource, write: bool)
    ensures var s := Name(r) + ":" + Verb(write);
      TrimSpace(s) == s && s != STAR && !EndsStar(s) && SplitColon(s) == Some((Name(r), Verb(write)))
  {
    var s := Name(r) + ":" + Verb(write);
    NamesArePlain(r);
    VerbsArePlain(write);
    TrimJoined(s);
    SplitJoined(Name(r), Verb(write));
    assert s[|s| - 1] == Verb(write)[|Verb(write)| - 1];
  }

  lemma StarParsed()
    ensures TrimSpace(STAR) == STAR
  {
    TrimJoined(STAR);
  }

  /** What the text functions make of an accepted scope. */
  lemma StarMeaning(c: Caller, p: Permission)
    ensures ScopeAllows(STAR, p)
    ensures ScopeAllowedBy(c, STAR) <==> Gate(c, All)
    ensures FlagsOf(STAR) == ImpliedFlags(All)
  {
    StarParsed();
    if ScopeAllowedBy(c, STAR) {
      forall q | InCatalog(q)
        ensures Has(c, q)
      {
        assert Holds(c, q.resource, q.action);
      }
    }
  }

  lemma OverAllows(r: Resource, write: bool, p: Permission)
    requires InCatalog(p)
    ensures ScopeAllows(Name(r) + ":" + Verb(write), p) <==> Covers(Over(r, write), p)
  {
    ParsedScope(r, write);
    NamesArePlain(r);
    VerbsArePlain(write);
    assert p.action == Write ==> ActionName(p.action) == WRITE;
  }

  lemma OverGate(r: Resource, write: bool, c: Caller)
    ensures ScopeAllowedBy(c, Name(r) + ":" + Verb(write)) <==> Gate(c, Over(r, write))
  {
    ParsedScope(r, write);
    NamesArePlain(r);
    VerbsArePlain(write);
  }

  lemma OverFlags(r: Resource, write: bool)
    requires r.Pools? || r.Accounts? || r.ApiKeys? || r.Audit? || r.Discovery?
    ensures FlagsOf(Name(r) + ":" + Verb(write)) == ImpliedFlags(Over(r, write))
  {
    ParsedScope(r, write);
    NamesArePlain(r);
    VerbsArePlain(write);
  }

  lemma Spelling(text: string)
    requires IsValidScope(text) && text != STAR
    ensures var s := ScopeOf(text).value;
      s.Over? && text == Name(s.resource) + ":" + Verb(s.write)
      && (s.resource.Pools? || s.resource.Accounts? || s.resource.ApiKeys? || s.resource.Audit? || s.resource.Discovery?)
  {
    if ReadScope(text).Some? {
      ReadSpelling(text);
    } else {
      WriteSpelling(text);
    }
  }

  lemma ValidMeaning(text: string, c: Caller, p: Permission)
    requires IsValidScope(text) && InCatalog(p)
    ensures var s := ScopeOf(text).value;
      (ScopeAllows(text, p) <==> Covers(s, p))
      && (ScopeAllowedBy(c, text) <==> Gate(c, s))
      && FlagsOf(text) == ImpliedFlags(s)
  {
    if text == STAR {
      StarMeaning(c, p);
    } else {
      Spelling(text);
      var s := ScopeOf(text).value;
      OverAllows(s.resource, s.write, p);
      OverGate(s.resource, s.write, c);
      OverFlags(s.resource, s.write);
    }
  }

  // ---------------------------------------------------------------- the issuing gates

  /** Scopes the policy lets a role issue; a role without an entry is not limited. */
  type Policy = map<Role, seq<string>>

  function EffectiveRole(c: Caller): Role {
    match c
    case WithRole(role, _) => role
    case WithKey(scopes) => RoleFromScopes(scopes)
    case Nobody => NoRole
  }

  predicate PolicyAllows(policy: Policy, role: Role, scopes: seq<string>) {
    role in policy ==> forall i :: 0 <= i < |scopes| ==> scopes[i] in policy[role]
  }

  /** The checks of the handler; without a role only the scope names are checked. */
  predicate Passes(c: Caller, policy: Policy, scopes: seq<string>) {
    var role := EffectiveRole(c);
    AllValid(scopes)
    && (role != NoRole ==>
          (IsBuiltin(role) ==> RoleLevel(RoleFromScopes(scopes)) <= RoleLevel(role) && PolicyAllows(policy, role, scopes))
          && forall i :: 0 <= i < |scopes| ==> ScopeAllowedBy(c, scopes[i]))
  }

  /** The route asks for `apikeys:create` first. */
  predicate Issues(c: Caller, policy: Policy, scopes: seq<string>) {
    Holds(c, Resource.ApiKeys, Create) && Passes(c, policy, scopes)
  }

  /** Everything in the catalog that the key may do, its issuer may do. */
  ghost predicate Within(scopes: seq<string>, c: Caller) {
    forall p :: InCatalog(p) && ScopesAllow(scopes, p) ==> Has(c, p)
  }

  /** The issuer can both read and list wherever a read scope is asked for. */
  predicate ReadsWhole(c: Caller, scopes: seq<string>) {
    forall i :: 0 <= i < |scopes| ==> ReadsOne(c, scopes[i])
  }

  predicate ReadsOne(c: Caller, text: string) {
    ReadScope(text).Some? ==> Holds(c, ReadScope(text).value, Read) && Holds(c, ReadScope(text).value, List)
  }

  lemma ReadScopeIs(text: string)
    ensures ReadScope(text).Some? <==> IsValidScope(text) && ScopeOf(text).value.Over? && !ScopeOf(text).value.write
    ensures ReadScope(text).Some? ==> ScopeOf(text) == Some(Over(ReadScope(text).value, false))
    ensures ReadScope(text).Some? ==> !ReadScope(text).value.Settings? && !ReadScope(text).value.Users?
  {
    if ReadScope(text).Some? {
      ReadSpelling(text);
      ParsedScope(ReadScope(text).value, false);
    }
  }

  lemma CoversWithinIff(c: Caller, s: Scope)
    requires Gate(c, s) && (s.Over? ==> !s.resource.Settings?)
    ensures (forall p :: InCatalog(p) && Covers(s, p) ==> Has(c, p)) <==>
            (s.Over? && !s.write ==> Holds(c, s.resource, Read) && Holds(c, s.resource, List))
  {
    if s.Over? && !s.write && forall p :: InCatalog(p) && Covers(s, p) ==> Has(c, p) {
      assert Has(c, Permission(s.resource, Read)) && Has(c, Permission(s.resource, List));
    }
    forall p | InCatalog(p) && Covers(s, p) && s.Over?
      ensures s.write || (Holds(c, s.resource, Read) && Holds(c, s.resource, List)) ==> Has(c, p)
    {
      assert Has(c, p) <==> Holds(c, p.resource, p.action);
    }
  }

  lemma OneScopeWithinIff(c: Caller, text: string)
    requires IsValidScope(text) && ScopeAllowedBy(c, text)
    ensures (forall p :: InCatalog(p) && ScopeAllows(text, p) ==> Has(c, p)) <==>
            ReadsOne(c, text)
  {
    ReadScopeIs(text);
    if text != STAR {
      Spelling(text);
    }
    ValidMeaning(text, c, Permission(Pools, Read));
    CoversWithinIff(c, ScopeOf(text).value);
    forall p | InCatalog(p)
      ensures ScopeAllows(text, p) <==> Covers(ScopeOf(text).value, p)
    {
      ValidMeaning(text, c, p);
    }
  }

  /** An accepted request stays within its issuer iff the issuer reads and lists what it asks to read. */
  lemma IssuedWithinIff(c: Caller, policy: Policy, scopes: seq<string>)
    requires EffectiveRole(c) != NoRole && Passes(c, policy, scopes)
    ensures Within(scopes, c) <==> ReadsWhole(c, scopes)
  {
    forall i | 0 <= i < |scopes|
      ensures (forall p :: InCatalog(p) && ScopeAllows(scopes[i], p) ==> Has(c, p)) <==> ReadsOne(c, scopes[i])
    {
      OneScopeWithinIff(c, scopes[i]);
    }
    forall p | InCatalog(p) && ScopesAllow(scopes, p)
      ensures ReadsWhole(c, scopes) ==> Has(c, p)
    {
      var i :| 0 <= i < |scopes| && ScopeAllows(scopes[i], p);
      assert ReadsWhole(c, scopes) ==> ReadsOne(c, scopes[i]);
    }
    if Within(scopes, c) {
      forall i | 0 <= i < |scopes|
        ensures ReadsOne(c, scopes[i])
      {
        assert forall p :: ScopeAllows(scopes[i], p) ==> ScopesAllow(scopes, p);
      }
    }
  }

  // ---------------------------------------------------------------- which issuers never widen

  /** Read and list come together, as they do for every scope and built-in role. */
  predicate Paired(c: Caller, r: Resource) {
    Holds(c, r, Read) <==> Holds(c, r, List)
  }

  /** On every resource that has scopes. */
  ghost predicate AllPaired(c: Caller) {
    forall r: Resource :: !r.Settings? && !r.Users? ==> Paired(c, r)
  }

  lemma PairedReadsWhole(c: Caller, policy: Policy, scopes: seq<string>)
    requires EffectiveRole(c) != NoRole && Passes(c, policy, scopes)
    requires AllPaired(c)
    ensures Within(scopes, c)
  {
    IssuedWithinIff(c, policy, scopes);
    forall i | 0 <= i < |scopes|
      ensures ReadsOne(c, scopes[i])
    {
      ReadScopeIs(scopes[i]);
      ValidMeaning(scopes[i], c, Permission(Pools, Read));
    }
  }

  lemma KeysArePaired(scopes: seq<string>, r: Resource)
    requires AllValid(scopes) && !r.Settings?
    ensures Paired(WithKey(scopes), r)
  {
    var c := WithKey(scopes);
    forall i | 0 <= i < |scopes|
      ensures ScopeAllows(scopes[i], Permission(r, Read)) <==> ScopeAllows(scopes[i], Permission(r, List))
    {
      ValidMeaning(scopes[i], c, Permission(r, Read));
      ValidMeaning(scopes[i], c, Permission(r, List));
    }
  }

  lemma {:induction false} FlagsAny(scopes: seq<string>, i: nat)
    requires i < |scopes|
    ensures FlagsOf(scopes[i]).admin ==> AllFlags(scopes).admin
    ensures FlagsOf(scopes[i]).write ==> AllFlags(scopes).write
  {
    var n := |scopes| - 1;
    if i < n {
      FlagsAny(scopes[..n], i);
    }
  }

  /** A key that may issue keys has a role, so no gate is skipped for it. */
  lemma IssuingKeysHaveRoles(scopes: seq<string>)
    requires AllValid(scopes) && Holds(WithKey(scopes), Resource.ApiKeys, Create)
    ensures RoleFromScopes(scopes) in {Admin, Operator}
  {
    var p := Permission(Resource.ApiKeys, Create);
    var i :| 0 <= i < |scopes| && ScopeAllows(scopes[i], p);
    ValidMeaning(scopes[i], Nobody, p);
    FlagsAny(scopes, i);
  }

  /** A key with accepted scopes never issues more than it has. */
  lemma KeysNeverWiden(issuer: seq<string>, policy: Policy, scopes: seq<string>)
    requires AllValid(issuer) && Issues(WithKey(issuer), policy, scopes)
    ensures Within(scopes, WithKey(issuer))
  {
    IssuingKeysHaveRoles(issuer);
    forall r: Resource | !r.Settings? && !r.Users?
      ensures Paired(WithKey(issuer), r)
    {
      KeysArePaired(issuer, r);
    }
    PairedReadsWhole(WithKey(issuer), policy, scopes);
  }

  ghost predicate IsBuiltinCaller(c: Caller) {
    c.WithRole? && IsBuiltin(c.role) && forall p :: p in c.permissions <==> StaticallyHas(c.role, p)
  }

  lemma BuiltinRolesNeverWiden(c: Caller, policy: Policy, scopes: seq<string>)
    requires IsBuiltinCaller(c) && Issues(c, policy, scopes)
    ensures Within(scopes, c)
  {
    PairedReadsWhole(c, policy, scopes);
  }

  /** A custom role that may issue keys never widens iff it pairs read with list wherever a scope exists. */
  lemma CustomRoleNeverWidensIff(c: Caller, policy: Policy)
    requires c.WithRole? && c.role.Custom? && Holds(c, Resource.ApiKeys, Create)
    ensures (forall scopes :: Issues(c, policy, scopes) ==> Within(scopes, c))
       <==> AllPaired(c)
  {
    if AllPaired(c) {
      forall scopes | Issues(c, policy, scopes)
        ensures Within(scopes, c)
      {
        PairedReadsWhole(c, policy, scopes);
      }
    } else {
      var r: Resource :| !r.Settings? && !r.Users? && !Paired(c, r);
      UnpairedWidens(c, policy, r);
    }
  }

  lemma ReadScopeOf(r: Resource) returns (text: string)
    requires !r.Settings? && !r.Users?
    ensures ReadScope(text) == Some(r)
  {
    text := match r
      case Pools => "pools:read"
      case Accounts => "accounts:read"
      case Audit => "audit:read"
      case ApiKeys => "keys:read"
      case _ => "discovery:read";
  }

  /** The read scope of an unpaired resource is issued, and grants the half that is missing. */
  lemma UnpairedWidens(c: Caller, policy: Policy, r: Resource)
    requires c.WithRole? && c.role.Custom? && Holds(c, Resource.ApiKeys, Create)
    requires !r.Settings? && !r.Users? && !Paired(c, r)
    ensures exists scopes :: Issues(c, policy, scopes) && !Within(scopes, c)
  {
    var text := ReadScopeOf(r);
    ReadScopeIs(text);
    ValidMeaning(text, c, Permission(r, Read));
    assert Issues(c, policy, [text]);
    IssuedWithinIff(c, policy, [text]);
    assert [text][0] == text && !ReadsOne(c, text);
  }

  // ---------------------------------------------------------------- what a caller can issue

  const ACCEPTED := {
    "*", "pools:read", "pools:write", "accounts:read", "accounts:write", "keys:read", "keys:write", "audit:read",
    "discovery:read", "discovery:write"}

  ghost predicate AllAccepted(scopes: seq<string>) {
    forall i :: 0 <= i < |scopes| ==> scopes[i] in ACCEPTED
  }

  lemma AcceptedIff(text: string)
    ensures IsValidScope(text) <==> text in ACCEPTED
  {
  }

  lemma AllAcceptedIff(scopes: seq<string>)
    ensures AllValid(scopes) <==> AllAccepted(scopes)
  {
    forall i | 0 <= i < |scopes|
      ensures IsValidScope(scopes[i]) <==> scopes[i] in ACCEPTED
    {
      AcceptedIff(scopes[i]);
    }
  }

  /** The caller may do this: by the permissions of its role, or by some scope of its key. */
  ghost predicate May(c: Caller, p: Permission) {
    match c
    case WithRole(role, permissions) => role != NoRole && p in permissions
    case WithKey(scopes) => exists i :: 0 <= i < |scopes| && Grants(scopes[i], p)
    case Nobody => false
  }

  lemma MayIff(c: Caller, p: Permission)
    ensures Has(c, p) <==> May(c, p)
  {
    if c.WithKey? {
      forall i | 0 <= i < |c.scopes|
        ensures ScopeAllows(c.scopes[i], p) <==> Grants(c.scopes[i], p)
      {
        GrantsIff(c.scopes[i], p);
      }
    }
  }

  /** Keys have accepted scopes, built-in roles their table, custom roles pair read with list. */
  ghost predicate Ordinary(c: Caller) {
    match c
    case WithKey(scopes) => AllAccepted(scopes)
    case Nobody => true
    case WithRole(role, permissions) =>
      if role.Custom? then
        forall r: Resource :: !r.Settings? && !r.Users? ==>
          (Permission(r, Read) in permissions <==> Permission(r, List) in permissions)
      else forall p :: p in permissions <==> Listed(role, p)
  }

  /** The role whose policy applies: a key that may issue keys counts as admin or operator. */
  ghost function PolicyRole(c: Caller): Role {
    match c
    case WithRole(role, _) => role
    case WithKey(scopes) => if "*" in scopes then Admin else Operator
    case Nobody => NoRole
  }

  /** All that the scopes grant, the caller may do. */
  ghost predicate GrantsWithin(scopes: seq<string>, c: Caller) {
    forall p :: Listed(Admin, p) && May(WithKey(scopes), p) ==> May(c, p)
  }

  ghost predicate PolicyPermits(c: Caller, policy: Policy, scopes: seq<string>) {
    PolicyRole(c) in {Admin, Operator, Viewer, Auditor} && PolicyRole(c) in policy ==>
      forall i :: 0 <= i < |scopes| ==> scopes[i] in policy[PolicyRole(c)]
  }

  lemma GrantsWithinIff(scopes: seq<string>, c: Caller)
    ensures Within(scopes, c) <==> GrantsWithin(scopes, c)
  {
    forall p: Permission
      ensures InCatalog(p) <==> Listed(Admin, p)
      ensures ScopesAllow(scopes, p) <==> May(WithKey(scopes), p)
      ensures Has(c, p) <==> May(c, p)
    {
      RolesAreTables(Admin, p);
      MayIff(WithKey(scopes), p);
      MayIff(c, p);
      assert Has(WithKey(scopes), p) <==> ScopesAllow(scopes, p);
    }
  }

  lemma TableIsPaired(c: Caller)
    requires Ordinary(c) && c.WithRole? && !c.role.Custom?
    ensures AllPaired(c)
    ensures forall p :: p in c.permissions <==> StaticallyHas(c.role, p)
  {
    forall p
      ensures p in c.permissions <==> StaticallyHas(c.role, p)
    {
      RolesAreTables(c.role, p);
    }
    forall r: Resource | !r.Settings? && !r.Users?
      ensures Paired(c, r)
    {
      RowIsPaired(c.role, r);
    }
  }

  lemma RowIsPaired(role: Role, r: Resource)
    requires !r.Settings?
    ensures StaticallyHas(role, Permission(r, Read)) <==> StaticallyHas(role, Permission(r, List))
  {
  }

  lemma AcceptedIsPaired(scopes: seq<string>)
    requires AllAccepted(scopes)
    ensures AllPaired(WithKey(scopes))
  {
    AllAcceptedIff(scopes);
    forall r: Resource | !r.Settings? && !r.Users?
      ensures Paired(WithKey(scopes), r)
    {
      KeysArePaired(scopes, r);
    }
  }

  lemma OrdinaryIsPaired(c: Caller)
    requires Ordinary(c)
    ensures AllPaired(c)
  {
    match c
    case WithKey(scopes) => AcceptedIsPaired(scopes);
    case Nobody =>
    case WithRole(role, _) =>
      if !role.Custom? {
        TableIsPaired(c);
      }
  }

  lemma KeyIssuerRole(scopes: seq<string>)
    requires AllAccepted(scopes) && Holds(WithKey(scopes), Resource.ApiKeys, Create)
    ensures RoleFromScopes(scopes) == if "*" in scopes then Admin else Operator
  {
    AllAcceptedIff(scopes);
    IssuingKeysHaveRoles(scopes);
    RoleIsHighest(scopes);
    forall i | 0 <= i < |scopes|
      ensures RoleOf(scopes[i]) == Admin <==> scopes[i] == "*"
    {
      AdminScope(scopes[i]);
    }
  }

  lemma AdminScope(text: string)
    requires IsValidScope(text)
    ensures RoleOf(text) == Admin <==> text == "*"
  {
    ValidMeaning(text, Nobody, Permission(Pools, Read));
  }

  /** Of the ordinary callers with a level, only admins and keys may issue keys. */
  lemma IssuerRole(c: Caller)
    requires Ordinary(c) && Holds(c, Resource.ApiKeys, Create)
    ensures EffectiveRole(c) == PolicyRole(c) != NoRole
    ensures c.WithRole? && IsBuiltin(c.role) ==> c.role == Admin
  {
    if c.WithKey? {
      KeyIssuerRole(c.scopes);
    } else if !c.role.Custom? {
      TableIsPaired(c);
      assert StaticallyHas(c.role, Permission(Resource.ApiKeys, Create));
    }
  }

  /** What the caller may do itself passes the gate of the scope. */
  lemma WithinPassesGate(c: Caller, scopes: seq<string>, i: nat)
    requires AllValid(scopes) && i < |scopes| && Within(scopes, c)
    ensures ScopeAllowedBy(c, scopes[i])
  {
    var text := scopes[i];
    ValidMeaning(text, c, Permission(Pools, Read));
    var s := ScopeOf(text).value;
    forall p | InCatalog(p) && Covers(s, p)
      ensures Has(c, p)
    {
      ValidMeaning(text, c, p);
      assert ScopesAllow(scopes, p);
    }
    if text != STAR {
      Spelling(text);
      assert Has(c, Permission(s.resource, Read)) && Has(c, Permission(s.resource, List));
      if s.write {
        WriteHasResource(text);
        assert Has(c, Permission(s.resource, Create)) && Has(c, Permission(s.resource, Update))
               && Has(c, Permission(s.resource, Delete));
      }
    }
  }

  lemma WriteHasResource(text: string)
    requires IsValidScope(text) && text != STAR && ScopeOf(text).value.write
    ensures !ScopeOf(text).value.resource.Audit?
  {
  }

  /** A key without the star cannot ask for the star and stay within itself. */
  lemma WithinIsNoHigher(issuer: seq<string>, scopes: seq<string>)
    requires AllValid(issuer) && AllValid(scopes) && "*" !in issuer && Within(scopes, WithKey(issuer))
    ensures RoleLevel(RoleFromScopes(scopes)) <= RoleLevel(Operator)
  {
    RoleIsHighest(scopes);
    if RoleFromScopes(scopes) == Admin {
      var i :| 0 <= i < |scopes| && RoleOf(scopes[i]) == Admin;
      var p := Permission(Users, Read);
      ValidMeaning(scopes[i], Nobody, p);
      assert ScopesAllow(scopes, p) && Has(WithKey(issuer), p);
      var j :| 0 <= j < |issuer| && ScopeAllows(issuer[j], p);
      ValidMeaning(issuer[j], Nobody, p);
      Spelling(issuer[j]);
      assert false;
    }
  }

  /** A caller issues exactly the accepted scopes that grant no more than it may do, as far as the policy permits. */
  lemma IssuesIff(c: Caller, policy: Policy, scopes: seq<string>)
    requires Ordinary(c)
    ensures Issues(c, policy, scopes) <==>
      May(c, Permission(Resource.ApiKeys, Create)) && AllAccepted(scopes) && GrantsWithin(scopes, c)
      && PolicyPermits(c, policy, scopes)
  {
    MayIff(c, Permission(Resource.ApiKeys, Create));
    assert Has(c, Permission(Resource.ApiKeys, Create)) <==> Holds(c, Resource.ApiKeys, Create);
    AllAcceptedIff(scopes);
    GrantsWithinIff(scopes, c);
    if Holds(c, Resource.ApiKeys, Create) && AllValid(scopes) {
      PassesIff(c, policy, scopes);
    }
  }

  lemma HighestLevel(role: Role)
    ensures RoleLevel(role) <= RoleLevel(Admin)
  {
  }

  lemma WithinHasLevel(c: Caller, scopes: seq<string>)
    requires Ordinary(c) && Holds(c, Resource.ApiKeys, Create) && AllValid(scopes) && Within(scopes, c)
    ensures IsBuiltin(EffectiveRole(c)) ==> RoleLevel(RoleFromScopes(scopes)) <= RoleLevel(EffectiveRole(c))
  {
    IssuerRole(c);
    HighestLevel(RoleFromScopes(scopes));
    if c.WithKey? && "*" !in c.scopes {
      OperatorLevel(c.scopes, scopes);
    }
  }

  lemma OperatorLevel(issuer: seq<string>, scopes: seq<string>)
    requires AllAccepted(issuer) && AllValid(scopes) && "*" !in issuer && Within(scopes, WithKey(issuer))
    ensures RoleLevel(RoleFromScopes(scopes)) <= RoleLevel(Operator)
  {
    AllAcceptedIff(issuer);
    WithinIsNoHigher(issuer, scopes);
  }

  lemma PolicySame(c: Caller, policy: Policy, scopes: seq<string>)
    requires EffectiveRole(c) == PolicyRole(c)
    ensures PolicyPermits(c, policy, scopes) <==>
      (IsBuiltin(EffectiveRole(c)) ==> PolicyAllows(policy, EffectiveRole(c), scopes))
  {
    assert IsBuiltin(PolicyRole(c)) <==> PolicyRole(c) in {Admin, Operator, Viewer, Auditor};
  }

  lemma AllPassGates(c: Caller, scopes: seq<string>)
    requires AllValid(scopes) && Within(scopes, c)
    ensures forall i :: 0 <= i < |scopes| ==> ScopeAllowedBy(c, scopes[i])
  {
    forall i | 0 <= i < |scopes|
      ensures ScopeAllowedBy(c, scopes[i])
    {
      WithinPassesGate(c, scopes, i);
    }
  }

  lemma PassesIff(c: Caller, policy: Policy, scopes: seq<string>)
    requires Ordinary(c) && Holds(c, Resource.ApiKeys, Create) && AllValid(scopes)
    ensures Passes(c, policy, scopes) <==> Within(scopes, c) && PolicyPermits(c, policy, scopes)
  {
    IssuerRole(c);
    PolicySame(c, policy, scopes);
    if Passes(c, policy, scopes) {
      OrdinaryIsPaired(c);
      PairedReadsWhole(c, policy, scopes);
    } else if Within(scopes, c) {
      WithinHasLevel(c, scopes);
      AllPassGates(c, scopes);
    }
  }

  // ---------------------------------------------------------------- chains of keys

  /** Each key of the chain was issued with the one before it. */
  ghost predicate IsChain(keys: seq<seq<string>>) {
    forall i, j :: 0 <= i < j < |keys| && j == i + 1 ==> IssuedBy(keys[i], keys[j])
  }

  ghost predicate IssuedBy(issuer: seq<string>, scopes: seq<string>) {
    exists policy :: Issues(WithKey(issuer), policy, scopes)
  }

  lemma IssuedWithinIssuer(c: Caller, issuer: seq<string>, scopes: seq<string>)
    requires AllValid(issuer) && Within(issuer, c) && IssuedBy(issuer, scopes)
    ensures AllValid(scopes) && Within(scopes, c)
  {
    var policy :| Issues(WithKey(issuer), policy, scopes);
    KeysNeverWiden(issuer, policy, scopes);
    forall p | InCatalog(p) && ScopesAllow(scopes, p)
      ensures Has(c, p)
    {
      assert Has(WithKey(issuer), p);
    }
  }

  lemma {:induction false} ChainStaysWithin(c: Caller, keys: seq<seq<string>>, n: nat)
    requires n < |keys| && IsChain(keys) && AllValid(keys[0]) && Within(keys[0], c)
    ensures AllValid(keys[n]) && Within(keys[n], c)
  {
    if n > 0 {
      var m := n - 1;
      ChainStaysWithin(c, keys, m);
      IssuedWithinIssuer(c, keys[m], keys[n]);
    }
  }

  /** However long the chain, no key in it can do more than the caller who issued the first. */
  lemma ChainNeverWidens(c: Caller, first: Policy, keys: seq<seq<string>>, n: nat)
    requires n < |keys| && IsChain(keys) && EffectiveRole(c) != NoRole
    requires Passes(c, first, keys[0]) && ReadsWhole(c, keys[0])
    ensures Within(keys[n], c)
  {
    IssuedWithinIff(c, first, keys[0]);
    ChainStaysWithin(c, keys, n);
  }

  // ---------------------------------------------------------------- expiry

  /** Days until expiry (0 for never), or an error for a bad request. */
  function ExpiryDays(requested: Option<int>, defaultDays: int, maxDays: int): Result<int, ()> {
    if requested.Some? && requested.value < 0 then Err(())
    else
      var explicit := requested.Some?;
      var days := if explicit then requested.value else if defaultDays > 0 then defaultDays else 0;
      if maxDays <= 0 then Ok(days)
      else if days == 0 then Ok(maxDays)
      else if days <= maxDays then Ok(days)
      else if explicit then Err(())
      else Ok(maxDays)
  }

  function ExpiresAt(now: int, requested: Option<int>, defaultDays: int, maxDays: int): Result<Option<int>, ()> {
    match ExpiryDays(requested, defaultDays, maxDays)
    case Err(_) => Err(())
    case Ok(days) => Ok(if days <= 0 then None else Some(now + days * DAY))
  }

  /** Under a maximum lifetime every issued key expires within it; only an explicit request can be refused. */
  lemma ExpiryWithinPolicy(now: int, requested: Option<int>, defaultDays: int, maxDays: int)
    ensures var r := ExpiresAt(now, requested, defaultDays, maxDays);
      (r.Err? <==> requested.Some? && (requested.value < 0 || 0 < maxDays < requested.value))
      && (maxDays > 0 && r.Ok? ==> r.value.Some? && now < r.value.value <= now + maxDays * DAY)
      && (r.Ok? && requested.Some? && requested.value > 0 ==> r.value == Some(now + requested.value * DAY))
      && (r.Ok? && requested == Some(0) && maxDays <= 0 ==> r.value == None)
      && (requested.None? && maxDays <= 0 ==> r == Ok(if defaultDays > 0 then Some(now + defaultDays * DAY) else None))
      && (requested.None? && 0 < defaultDays <= maxDays ==> r == Ok(Some(now + defaultDays * DAY)))
      && (maxDays > 0 && (requested == Some(0) || (requested.None? && !(0 < defaultDays <= maxDays))) ==>
            r == Ok(Some(now + maxDays * DAY)))
  {
  }

  // ---------------------------------------------------------------- the handler

  /** What the separate gates say about an ordinary issuer. */
  lemma GateErrors(c: Caller, policy: Policy, scopes: seq<string>)
    requires Ordinary(c) && Holds(c, Resource.ApiKeys, Create) && AllValid(scopes)
    ensures GrantsWithin(scopes, c) ==>
      (forall i :: 0 <= i < |scopes| ==> ScopeAllowedBy(c, scopes[i]))
      && (IsBuiltin(EffectiveRole(c)) ==> RoleLevel(RoleFromScopes(scopes)) <= RoleLevel(EffectiveRole(c)))
    ensures IsBuiltin(EffectiveRole(c)) && PolicyPermits(c, policy, scopes) ==>
      PolicyAllows(policy, EffectiveRole(c), scopes)
  {
    GrantsWithinIff(scopes, c);
    IssuerRole(c);
    if GrantsWithin(scopes, c) {
      PassesIff(c, map[], scopes);
    }
  }

  datatype IssueError = Forbidden | BadName | BadScope | Elevation | PolicyDenied | BadExpiry | StoreFailed

  /** The values the key generator makes up. */
  datatype Generated = Generated(id: string, prefix: string)

  datatype Limits = Limits(policy: Policy, defaultDays: int, maxDays: int)

  /** What each refusal says about the request. */
  ghost predicate Refuses(
      e: IssueError, c: Caller, name: string, scopes: seq<string>, days: Option<int>, limits: Limits, prefixTaken: bool)
  {
    match e
    case Forbidden => !May(c, Permission(Resource.ApiKeys, Create))
    case BadName => TrimSpace(name) == "" || |TrimSpace(name)| > 255
    case BadScope => !AllAccepted(scopes)
    case Elevation => Ordinary(c) ==> !GrantsWithin(scopes, c)
    case PolicyDenied => Ordinary(c) ==> !PolicyPermits(c, limits.policy, scopes)
    case BadExpiry => !ExpiryAllowed(days, limits.maxDays)
    case StoreFailed => prefixTaken
  }

  /** A named, accepted request for no more than the issuer may do, as policy and lifetime limits permit. */
  ghost predicate Issuable(c: Caller, name: string, scopes: seq<string>, days: Option<int>, limits: Limits) {
    May(c, Permission(Resource.ApiKeys, Create)) && TrimSpace(name) != "" && |TrimSpace(name)| <= 255
    && AllAccepted(scopes) && GrantsWithin(scopes, c) && PolicyPermits(c, limits.policy, scopes)
    && ExpiryAllowed(days, limits.maxDays)
  }

  lemma ExpiryAllowedIff(now: int, days: Option<int>, limits: Limits)
    ensures ExpiresAt(now, days, limits.defaultDays, limits.maxDays).Ok? <==> ExpiryAllowed(days, limits.maxDays)
  {
    ExpiryWithinPolicy(now, days, limits.defaultDays, limits.maxDays);
  }

  lemma IssuableIff(c: Caller, name: string, scopes: seq<string>, days: Option<int>, limits: Limits, now: int)
    requires Ordinary(c)
    ensures Issuable(c, name, scopes, days, limits) <==>
      GoodName(name) && Issues(c, limits.policy, scopes) && ExpiresAt(now, days, limits.defaultDays, limits.maxDays).Ok?
  {
    IssuesIff(c, limits.policy, scopes);
    ExpiryAllowedIff(now, days, limits);
  }

  /** A requested lifetime is not negative and within the maximum, if there is one. */
  ghost predicate ExpiryAllowed(days: Option<int>, maxDays: int) {
    days.Some? ==> days.value >= 0 && (maxDays <= 0 || days.value <= maxDays)
  }

  predicate GoodName(name: string) {
    TrimSpace(name) != "" && |TrimSpace(name)| <= 255
  }

  predicate AllKeysValid(keys: map<string, ApiKey>) {
    forall id :: id in keys ==> AllValid(keys[id].scopes)
  }

  class AuthServer {
    const keyStore: MemoryKeyStore

    constructor (keyStore: MemoryKeyStore)
      ensures this.keyStore == keyStore
    {
      this.keyStore := keyStore;
    }

    method FirstBadScope(scopes: seq<string>) returns (bad: bool)
      ensures !bad <==> AllValid(scopes)
    {
      for i := 0 to |scopes|
        invariant AllValid(scopes[..i])
      {
        if !IsValidScope(scopes[i]) {
          return true;
        }
      }
      assert scopes[..|scopes|] == scopes;
      bad := false;
    }

    method ExceedsCaller(c: Caller, scopes: seq<string>) returns (exceeds: bool)
      ensures !exceeds <==> forall i :: 0 <= i < |scopes| ==> ScopeAllowedBy(c, scopes[i])
    {
      for i := 0 to |scopes|
        invariant forall j :: 0 <= j < i ==> ScopeAllowedBy(c, scopes[j])
      {
        if !ScopeAllowedBy(c, scopes[i]) {
          return true;
        }
      }
      exceeds := false;
    }

    method DeniedScope(policy: Policy, role: Role, scopes: seq<string>) returns (denied: bool)
      ensures !denied <==> PolicyAllows(policy, role, scopes)
    {
      if role !in policy {
        return false;
      }
      for i := 0 to |scopes|
        invariant forall j :: 0 <= j < i ==> scopes[j] in policy[role]
      {
        if scopes[i] !in policy[role] {
          return true;
        }
      }
      denied := false;
    }

    method CheckGates(c: Caller, policy: Policy, scopes: seq<string>) returns (r: Result<(), IssueError>)
      ensures r.Ok? <==> Passes(c, policy, scopes)
      ensures r.Err? ==> r.error in {BadScope, Elevation, PolicyDenied} && (r.error == BadScope <==> !AllValid(scopes))
      ensures r.Err? && Ordinary(c) && Holds(c, Resource.ApiKeys, Create) ==>
        (r.error == Elevation ==> !GrantsWithin(scopes, c))
        && (r.error == PolicyDenied ==> !PolicyPermits(c, policy, scopes))
    {
      if Ordinary(c) && Holds(c, Resource.ApiKeys, Create) && AllValid(scopes) {
        GateErrors(c, policy, scopes);
      }
      var bad := FirstBadScope(scopes);
      if bad {
        return Err(BadScope);
      }
      var role := EffectiveRole(c);
      if role == NoRole {
        return Ok(());
      }
      var requested := GetRoleFromScopes(scopes);
      if IsBuiltin(role) && RoleLevel(requested) > RoleLevel(role) {
        return Err(Elevation);
      }
      var exceeds := ExceedsCaller(c, scopes);
      if exceeds {
        return Err(Elevation);
      }
      if IsBuiltin(role) {
        var denied := DeniedScope(policy, role, scopes);
        if denied {
          return Err(PolicyDenied);
        }
      }
      r := Ok(());
    }

    /** Issues exactly what the gates accept; a refused request leaves the store as it was. */
    method CreateApiKey(
        c: Caller, name: string, scopes: seq<string>, days: Option<int>, limits: Limits, made: Generated,
        owner: Option<string>, now: int)
      returns (r: Result<ApiKey, IssueError>)
      modifies keyStore
      ensures r.Ok? <==>
        GoodName(name) && Issues(c, limits.policy, scopes)
        && ExpiresAt(now, days, limits.defaultDays, limits.maxDays).Ok? && made.prefix !in old(keyStore.prefixIndex)
      ensures r.Ok? ==>
        r.value.scopes == scopes && r.value.name == TrimSpace(name) && !r.value.revoked
        && Ok(r.value.expiresAt) == ExpiresAt(now, days, limits.defaultDays, limits.maxDays)
        && keyStore.State() == Created(old(keyStore.State()), r.value)
      ensures Ordinary(c) ==>
        (r.Ok? <==> Issuable(c, name, scopes, days, limits) && made.prefix !in old(keyStore.prefixIndex))
      ensures r.Err? ==> keyStore.State() == old(keyStore.State())
      ensures r.Err? ==> Refuses(r.error, c, name, scopes, days, limits, made.prefix in old(keyStore.prefixIndex))
      ensures old(AllKeysValid(keyStore.keys)) ==> AllKeysValid(keyStore.keys)
    {
      if Ordinary(c) {
        IssuableIff(c, name, scopes, days, limits, now);
      }
      MayIff(c, Permission(Resource.ApiKeys, Create));
      AllAcceptedIff(scopes);
      ExpiryAllowedIff(now, days, limits);
      if !Holds(c, Resource.ApiKeys, Create) {
        return Err(Forbidden);
      }
      var trimmed := TrimSpace(name);
      if trimmed == "" || |trimmed| > 255 {
        return Err(BadName);
      }
      var gates := CheckGates(c, limits.policy, scopes);
      if gates.Err? {
        return Err(gates.error);
      }
      var expires := ExpiresAt(now, days, limits.defaultDays, limits.maxDays);
      if expires.Err? {
        return Err(BadExpiry);
      }
      var key := ApiKey(made.id, made.prefix, trimmed, scopes, owner, now, expires.value, None, false);
      var stored := keyStore.Create(key);
      r := if stored.Ok? then Ok(key) else Err(StoreFailed);
    }
  }
}
