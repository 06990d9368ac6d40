/** Importing discovered resources as pools: preview, apply, and the rollback that apply's own
    log drives. */
module Import {

  import opened Cidr
  import opened CidrTests
  import opened Classification
  import opened Discovery
  import opened PoolStore
  import opened Text
  import opened Wrappers

  // ---------------------------------------------------------------- preview

  datatype Status = Importable | Blocked | Conflict | NotFound | AlreadyLinked | LinkedOnly

  datatype Issue =
    | IssueNotFound | AccountMismatch | IssueAlreadyLinked | StaleResource | NetworkObjectOnly
    | InvalidCidr | OutsideSelected | MissingParent | DuplicateCidr

  datatype Action = NoAction | LinkPool | CreateAction | LinkOnly

  datatype Item = Item(
    resource: nat, providerId: string, kind: string, cidr: string, status: Status, action: Action,
    proposedPool: Option<nat>, proposedParent: Option<nat>, issues: seq<Issue>, conflicts: seq<nat>)

  /** What the preview reads: the live pools, the resources, and the request. */
  datatype View = View(
    parse: Parser, pools: seq<Pool>, resources: map<nat, Resource>, account: nat,
    byProvider: map<string, Resource>, selected: set<string>, selectedPool: Option<Pool>,
    duplicated: set<string>)

  predicate Addressable(kind: string) {
    kind == VPC || kind == SUBNET
  }

  predicate Parses(parse: Parser, cidr: string) {
    parse(cidr).Some?
  }

  predicate InsideSelected(v: View, cidr: string)
    requires v.selectedPool.Some?
  {
    CidrContains(v.parse(v.selectedPool.value.cidr), v.parse(cidr))
  }

  /** The provider parent of a subnet is unknown, or known but neither linked nor selected. */
  predicate ParentMissing(v: View, res: Resource) {
    res.kind == SUBNET && res.parentId.Some?
    && (res.parentId.value !in v.byProvider
        || (v.byProvider[res.parentId.value].poolId.None?
            && v.byProvider[res.parentId.value].providerId !in v.selected))
  }

  predicate OutsidePoolIssue(v: View, res: Resource) {
    v.selectedPool.Some? && res.cidr != "" && !InsideSelected(v, res.cidr)
  }

  /** Reached by the full classification: in the account, unlinked, active, a VPC or subnet. */
  predicate Candidate(v: View, id: nat) {
    id in v.resources
    && var res := v.resources[id];
       res.account == v.account && res.poolId.None? && res.active && Addressable(res.kind)
  }

  ghost predicate HasConflict(v: View, res: Resource) {
    exists p :: p in v.pools && IsConflict(v.parse, p, res.cidr, res.account)
  }

  /** Nothing but a conflict stands in the way of a candidate. */
  predicate Clean(v: View, res: Resource) {
    res.cidr != "" && Parses(v.parse, res.cidr) && !OutsidePoolIssue(v, res) && !ParentMissing(v, res)
  }

  /** The status a selected id must get, by the meaning of the blocks involved. */
  ghost function ExpectedStatus(v: View, id: nat): Status {
    if id !in v.resources then NotFound
    else
      var r := v.resources[id];
      if r.account != v.account then Blocked
      else if r.poolId.Some? then AlreadyLinked
      else if !r.active then Blocked
      else if !Addressable(r.kind) then LinkedOnly
      else if HasConflict(v, r) || r.cidr in v.duplicated then Conflict
      else if Clean(v, r) then Importable
      else Blocked
  }

  ghost predicate ItemFor(v: View, item: Item) {
    item.status == ExpectedStatus(v, item.resource)
    && (item.resource in v.resources ==>
          var r := v.resources[item.resource];
          item.providerId == r.providerId && item.kind == r.kind && item.cidr == r.cidr)
    && (item.action == LinkPool <==> item.status == Importable && item.proposedPool.Some?)
    && (StaleResource in item.issues <==>
          item.resource in v.resources
          && var r := v.resources[item.resource]; r.account == v.account && r.poolId.None? && !r.active)
    && (item.proposedPool.Some? ==>
          exists p :: p in v.pools && p.id == item.proposedPool.value
                      && IsExact(v.parse, p, item.cidr, v.account))
    && (!Candidate(v, item.resource) ==> item.proposedPool.None? && item.proposedParent.None? && item.conflicts == [])
    && (Candidate(v, item.resource) ==>
          var r := v.resources[item.resource];
          item.conflicts == ConflictIds(v.parse, v.pools, r.cidr, r.account)
          && Exact(v.parse, v.pools, r.cidr, r.account, item.proposedPool)
          && TakesParent(v, r, item.proposedParent))
  }

  /** The item's issues and action say what stands in the way, by the meaning of the blocks involved. */
  ghost predicate Explained(v: View, item: Item) {
    (item.action == NoAction <==> item.status !in {Importable, LinkedOnly})
    && (item.action == LinkOnly <==> item.status == LinkedOnly)
    && (IssueNotFound in item.issues <==> item.resource !in v.resources)
    && (item.resource in v.resources ==>
          ExplainedFor(v, v.resources[item.resource], item.issues)
          && (Candidate(v, item.resource) ==> ParentExplained(v, v.resources[item.resource], item.proposedParent)))
  }

  /** A subnet goes below the pool of its VPC, else any candidate below the selected pool if that holds it, else below
      the first pool around it. */
  ghost predicate ParentExplained(v: View, r: Resource, parent: Option<nat>) {
    var vpcPool :=
      if r.kind == SUBNET && r.parentId.Some? && r.parentId.value in v.byProvider
      then v.byProvider[r.parentId.value].poolId else None;
    if vpcPool != None then parent == vpcPool
    else if r.cidr != "" && v.selectedPool.Some? && !LiesOutside(v, r) then parent == Some(v.selectedPool.value.id)
    else r.cidr != "" ==> FirstContainer(v.parse, v.pools, r.cidr, r.account, parent)
  }

  ghost predicate ExplainedFor(v: View, r: Resource, issues: seq<Issue>) {
    var here := r.account == v.account;
    var candidate := here && r.poolId.None? && r.active && (r.kind == VPC || r.kind == SUBNET);
    (AccountMismatch in issues <==> !here)
    && (IssueAlreadyLinked in issues <==> here && r.poolId.Some?)
    && (StaleResource in issues <==> here && r.poolId.None? && !r.active)
    && (NetworkObjectOnly in issues <==> here && r.poolId.None? && r.active && !candidate)
    && (InvalidCidr in issues <==> candidate && (r.cidr == "" || v.parse(r.cidr).None?))
    && (DuplicateCidr in issues <==> candidate && r.cidr in v.duplicated)
    && (OutsideSelected in issues <==> candidate && r.cidr != "" && LiesOutside(v, r))
    && (MissingParent in issues <==> candidate && LacksParent(v, r))
  }

  /** A pool is selected and does not hold the resource's block. */
  ghost predicate LiesOutside(v: View, r: Resource) {
    v.selectedPool.Some?
    && !SameBlock(v.parse(r.cidr), v.parse(v.selectedPool.value.cidr))
    && !Inside(v.parse(r.cidr), v.parse(v.selectedPool.value.cidr))
  }

  /** A subnet whose VPC was never seen, or has no pool and is not about to get one. */
  ghost predicate LacksParent(v: View, r: Resource) {
    r.kind == SUBNET
    && match r.parentId
       case None => false
       case Some(vpc) =>
         vpc !in v.byProvider || (v.byProvider[vpc].poolId == None && v.byProvider[vpc].providerId !in v.selected)
  }

  lemma {:induction false} ConflictIdsEmptyIff(parse: Parser, pools: seq<Pool>, cidr: string, account: nat)
    ensures ConflictIds(parse, pools, cidr, account) != [] <==>
      exists p :: p in pools && IsConflict(parse, p, cidr, account)
  {
    if pools != [] {
      var init, p := pools[..|pools| - 1], pools[|pools| - 1];
      ConflictIdsEmptyIff(parse, init, cidr, account);
      assert pools == init + [p];
    }
  }

  /** The parent pool the provider topology and the selected pool suggest for a candidate. */
  function ProposedParent(v: View, res: Resource): Option<nat> {
    var fromSelected :=
      if v.selectedPool.Some? && InsideSelected(v, res.cidr) then Some(v.selectedPool.value.id) else None;
    if res.kind == VPC then (if res.cidr != "" then fromSelected else None)
    else if res.kind == SUBNET && res.parentId.Some? && res.parentId.value in v.byProvider
            && v.byProvider[res.parentId.value].poolId.Some?
    then v.byProvider[res.parentId.value].poolId
    else fromSelected
  }

  /** One round of `previewDiscoveryImport`. */
  method PreviewItem(v: View, id: nat) returns (item: Item)
    ensures item.resource == id && ItemFor(v, item) && Explained(v, item)
  {
    item := Item(id, "", "", "", Blocked, NoAction, None, None, [], []);
    if id !in v.resources {
      item := item.(status := NotFound, issues := [IssueNotFound]);
      return;
    }
    var res := v.resources[id];
    item := item.(providerId := res.providerId, kind := res.kind, cidr := res.cidr);
    if res.account != v.account {
      item := item.(issues := [AccountMismatch]);
      return;
    }
    if res.poolId.Some? {
      item := item.(status := AlreadyLinked, issues := [IssueAlreadyLinked]);
      return;
    }
    if !res.active {
      item := item.(issues := [StaleResource]);
      return;
    }
    if !Addressable(res.kind) {
      item := item.(status := LinkedOnly, action := LinkOnly, issues := [NetworkObjectOnly]);
      return;
    }
    item := PreviewCandidate(v, id);
  }

  lemma SelectedMeaning(v: View, res: Resource)
    ensures OutsidePoolIssue(v, res) <==> res.cidr != "" && LiesOutside(v, res)
    ensures ParentMissing(v, res) <==> LacksParent(v, res)
  {
    if v.selectedPool.Some? {
      TestsMeaning(v.parse(v.selectedPool.value.cidr), v.parse(res.cidr));
    }
  }

  function CandidateIssues(v: View, res: Resource): (issues: seq<Issue>)
    ensures issues == [] <==> Clean(v, res)
    ensures forall i :: 0 <= i < |issues| ==> issues[i] in {InvalidCidr, OutsideSelected, MissingParent}
    ensures InvalidCidr in issues <==> res.cidr == "" || v.parse(res.cidr).None?
    ensures OutsideSelected in issues <==> res.cidr != "" && LiesOutside(v, res)
    ensures MissingParent in issues <==> LacksParent(v, res)
  {
    SelectedMeaning(v, res);
    (if res.cidr == "" || !Parses(v.parse, res.cidr) then [InvalidCidr] else [])
    + (if OutsidePoolIssue(v, res) then [OutsideSelected] else [])
    + if ParentMissing(v, res) then [MissingParent] else []
  }

  lemma LastExactListed(v: View, cidr: string, account: nat, exact: Option<nat>)
    requires Exact(v.parse, v.pools, cidr, account, exact) && exact.Some?
    ensures exists p :: p in v.pools && p.id == exact.value && IsExact(v.parse, p, cidr, account)
  {
    var i: nat :| IsLastExact(v.parse, v.pools, cidr, account, i) && v.pools[i].id == exact.value;
    assert v.pools[i] in v.pools;
  }

  function AllIssues(v: View, res: Resource): seq<Issue> {
    CandidateIssues(v, res) + (if res.cidr in v.duplicated then [DuplicateCidr] else [])
  }

  lemma IssuesExplained(v: View, id: nat, issues: seq<Issue>)
    requires Candidate(v, id)
    requires issues == AllIssues(v, v.resources[id])
    ensures ExplainedFor(v, v.resources[id], issues) && IssueNotFound !in issues
    ensures issues == [] <==> Clean(v, v.resources[id]) && v.resources[id].cidr !in v.duplicated
  {
    var known := CandidateIssues(v, v.resources[id]);
    forall x | x in known
      ensures x in {InvalidCidr, OutsideSelected, MissingParent}
    {
      var i :| 0 <= i < |known| && known[i] == x;
    }
  }

  /** The proposed parent, else the first pool around the resource. */
  ghost predicate TakesParent(v: View, r: Resource, parent: Option<nat>) {
    if ProposedParent(v, r).Some? then parent == ProposedParent(v, r)
    else FirstContainer(v.parse, v.pools, r.cidr, r.account, parent)
  }

  lemma ProposalExplained(v: View, id: nat, parent: Option<nat>)
    requires Candidate(v, id) && TakesParent(v, v.resources[id], parent)
    ensures ParentExplained(v, v.resources[id], parent)
  {
    SelectedMeaning(v, v.resources[id]);
  }

  method PreviewCandidate(v: View, id: nat) returns (item: Item)
    requires Candidate(v, id)
    ensures item.resource == id && ItemFor(v, item) && Explained(v, item)
  {
    var res := v.resources[id];
    var issues := CandidateIssues(v, res);
    var rel := ClassifyPools(v.parse, v.pools, res.cidr, res.account, ProposedParent(v, res));
    ConflictIdsEmptyIff(v.parse, v.pools, res.cidr, res.account);
    if res.cidr in v.duplicated {
      issues := issues + [DuplicateCidr];
    }
    IssuesExplained(v, id, issues);
    var status, action := Blocked, NoAction;
    if issues != [] || rel.conflicts != [] {
      status := if res.cidr in v.duplicated || rel.conflicts != [] then Conflict else Blocked;
    } else {
      status, action := Importable, if rel.exact.Some? then LinkPool else CreateAction;
    }
    item := Item(id, res.providerId, res.kind, res.cidr, status, action, rel.exact, rel.parent, issues, rel.conflicts);
    CandidateItem(v, item);
    ProposalExplained(v, id, rel.parent);
  }

  lemma CandidateItem(v: View, item: Item)
    requires Candidate(v, item.resource)
    requires var r := v.resources[item.resource];
      item.providerId == r.providerId && item.kind == r.kind && item.cidr == r.cidr
      && item.conflicts == ConflictIds(v.parse, v.pools, r.cidr, r.account)
      && Exact(v.parse, v.pools, r.cidr, r.account, item.proposedPool) && TakesParent(v, r, item.proposedParent)
    requires item.status == ExpectedStatus(v, item.resource)
    requires (item.action == LinkPool) == (item.status == Importable && item.proposedPool.Some?)
    requires StaleResource !in item.issues
    ensures ItemFor(v, item)
  {
    var r := v.resources[item.resource];
    if item.proposedPool.Some? {
      LastExactListed(v, r.cidr, r.account, item.proposedPool);
    }
  }

  datatype Counters = Counters(importable: nat, linkedOnly: nat, alreadyLinked: nat, conflicts: nat, blocked: nat)

  /** `addDiscoveryPreviewItem`; a conflict is counted as blocked too. */
  function Tally(c: Counters, s: Status): Counters {
    match s
    case Importable => c.(importable := c.importable + 1)
    case LinkedOnly => c.(linkedOnly := c.linkedOnly + 1)
    case AlreadyLinked => c.(alreadyLinked := c.alreadyLinked + 1)
    case Conflict => c.(conflicts := c.conflicts + 1, blocked := c.blocked + 1)
    case _ => c.(blocked := c.blocked + 1)
  }

  ghost function CountStatus(items: seq<Item>, s: Status): nat {
    if items == [] then 0
    else CountStatus(items[..|items| - 1], s) + if items[|items| - 1].status == s then 1 else 0
  }

  /** `previewDiscoveryImport`: one item per selected id, in order, each counted once. */
  method Preview(v: View, ids: seq<nat>) returns (items: seq<Item>, c: Counters)
    ensures |items| == |ids| && forall i :: 0 <= i < |ids| ==> items[i].resource == ids[i] && ItemFor(v, items[i])
    ensures forall i :: 0 <= i < |ids| ==> Explained(v, items[i])
    ensures c.importable + c.linkedOnly + c.alreadyLinked + c.blocked == |ids|
    ensures c.importable == CountStatus(items, Importable) && c.linkedOnly == CountStatus(items, LinkedOnly)
    ensures c.alreadyLinked == CountStatus(items, AlreadyLinked) && c.conflicts == CountStatus(items, Conflict) <= c.blocked
  {
    items, c := [], Counters(0, 0, 0, 0, 0);
    for i := 0 to |ids|
      invariant |items| == i && forall k :: 0 <= k < i ==> items[k].resource == ids[k] && ItemFor(v, items[k])
      invariant forall k :: 0 <= k < i ==> Explained(v, items[k])
      invariant c.importable + c.linkedOnly + c.alreadyLinked + c.blocked == i
      invariant c.importable == CountStatus(items, Importable) && c.linkedOnly == CountStatus(items, LinkedOnly)
      invariant c.alreadyLinked == CountStatus(items, AlreadyLinked)
      invariant c.conflicts == CountStatus(items, Conflict) <= c.blocked
    {
      var item := PreviewItem(v, ids[i]);
      assert (items + [item])[..i] == items;
      items, c := items + [item], Tally(c, item.status);
    }
  }
}
