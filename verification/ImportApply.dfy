/** Applying an import and undoing it from the log it leaves. */
module ImportApply {

  import opened Cidr
  import opened Classification
  import opened Discovery
  import opened Import
  import opened PoolStore
  import opened Text
  import opened Wrappers

  datatype Config = Config(parse: Parser, backend: Backend, account: nat, allowBlocked: bool)

  /** Both stores. */
  datatype World = World(store: State, resources: map<nat, Resource>)

  /** Which store calls fail while one item is processed. */
  datatype Faults = Faults(load: bool, check: bool, create: bool, link: bool, cleanup: bool)

  datatype Log = Log(
    created: seq<nat>, linked: seq<nat>, poolsCreated: nat, resourcesLinked: nat, skipped: nat, errors: nat,
    poolOf: map<string, nat>)

  const EMPTY_LOG := Log([], [], 0, 0, 0, 0, map[])

  /** `canForceDiscoveryImport`. */
  predicate CanForce(cfg: Config, item: Item) {
    cfg.allowBlocked
    && item.status != NotFound && item.status != AlreadyLinked && item.status != LinkedOnly
    && StaleResource !in item.issues && Addressable(item.kind)
    && item.cidr != "" && Parses(cfg.parse, item.cidr)
  }

  predicate Processed(cfg: Config, item: Item) {
    item.status == Importable || CanForce(cfg, item)
  }

  function Link(w: World, id: nat, pool: Option<nat>): World
    requires id in w.resources
  {
    w.(resources := w.resources[id := w.resources[id].(poolId := pool)])
  }

  function Skip(log: Log, errors: nat): Log {
    log.(skipped := log.skipped + 1, errors := log.errors + errors)
  }

  function Linked(log: Log, res: Resource, pool: nat): Log {
    log.(linked := log.linked + [res.id], resourcesLinked := log.resourcesLinked + 1,
         poolOf := log.poolOf[res.providerId := pool])
  }

  /** The parent of a pool to be created: proposed, or the pool its provider parent just got. */
  function ParentFor(item: Item, res: Resource, log: Log): Option<nat> {
    if item.proposedParent.Some? then item.proposedParent
    else if res.parentId.Some? && res.parentId.value in log.poolOf then Some(log.poolOf[res.parentId.value])
    else None
  }

  function PoolFor(cfg: Config, res: Resource, parent: Option<nat>): NewPool {
    NewPool(if TrimSpace(res.name) == "" then res.providerId else TrimSpace(res.name), res.cidr, parent,
            Some(cfg.account), if res.kind == VPC then VPC else SUBNET, "active", "discovered", "")
  }

  predicate CanDelete(s: State, id: nat) {
    s.Live(id) && !exists c :: c in s.pools && s.ChildOf(c, id)
  }

  /** Store the new pool and link the resource to it; a failed link removes the pool again. */
  function InsertAndLink(w: World, log: Log, res: Resource, input: NewPool, f: Faults): (World, Log)
    requires res.id in w.resources
  {
    var id, s := w.store.next, Insert(w.store, input);
    if !f.link then
      (Link(w.(store := s), res.id, Some(id)),
       Linked(log.(created := log.created + [id], poolsCreated := log.poolsCreated + 1), res, id))
    else if f.cleanup || !CanDelete(s, id) then
      (w.(store := s), Skip(log.(created := log.created + [id]), 2))
    else
      (w.(store := Delete(s, id)), Skip(log, 1))
  }

  /** A failed link leaves no pool behind, unless its removal fails too. */
  lemma CleanupLeavesNothing(w: World, log: Log, res: Resource, input: NewPool, f: Faults)
    requires w.store.WellFormed() && res.id in w.resources && f.link
    requires input.parent.Some? ==> w.store.Live(input.parent.value)
    ensures var (w', log') := InsertAndLink(w, log, res, input, f);
      w'.resources == w.resources && log'.linked == log.linked
      && (!f.cleanup ==>
            log'.created == log.created && log'.errors == log.errors + 1
            && forall id :: w'.store.Live(id) <==> w.store.Live(id))
      && (f.cleanup ==>
            log'.created == log.created + [w.store.next] && log'.errors == log.errors + 2
            && w'.store.Live(w.store.next))
  {
    NewPoolIsLeaf(w.store, input);
  }

  predicate CreateFails(cfg: Config, s: State, input: NewPool, f: Faults) {
    f.create || input.name == "" || input.cidr == "" || Unstorable(cfg.backend, cfg.parse, input.cidr)
    || Duplicate(cfg.backend, cfg.parse, s, input)
  }

  /** One round of `applyDiscoveryImport`. */
  function ApplyItem(cfg: Config, w: World, log: Log, item: Item, f: Faults): (World, Log) {
    if !Processed(cfg, item) then (w, Skip(log, 0))
    else if f.load || item.resource !in w.resources || w.resources[item.resource].id != item.resource
    then (w, Skip(log, 1))
    else
      var res := w.resources[item.resource];
      if item.proposedPool.Some? && (item.action == LinkPool || cfg.allowBlocked) then
        if f.link then (w, Skip(log, 1))
        else (Link(w, res.id, item.proposedPool), Linked(log, res, item.proposedPool.value))
      else
        var parent := ParentFor(item, res, log);
        if parent.None? && res.kind == SUBNET && res.parentId.Some? then (w, Skip(log, 1))
        else if parent.Some? && (f.check || !w.store.Live(parent.value)
                                 || Foreign(w.store.pools[parent.value], cfg.account)) then (w, Skip(log, 1))
        else if CreateFails(cfg, w.store, PoolFor(cfg, res, parent), f) then (w, Skip(log, 1))
        else InsertAndLink(w, log, res, PoolFor(cfg, res, parent), f)
  }

  /** An item counts no error iff it was linked or left out; two when a new pool stayed behind, else one. */
  lemma ItemErrors(cfg: Config, w: World, log: Log, item: Item, f: Faults)
    ensures var log' := ApplyItem(cfg, w, log, item, f).1;
      log'.errors - log.errors ==
        if log'.skipped == log.skipped || !Processed(cfg, item) then 0
        else if log'.created != log.created then 2 else 1
  {
  }

  function ApplyAll(cfg: Config, w: World, items: seq<Item>, faults: seq<Faults>): (World, Log)
    requires |faults| == |items|
  {
    if items == [] then (w, EMPTY_LOG)
    else
      var n := |items| - 1;
      var (w', log) := ApplyAll(cfg, w, items[..n], faults[..n]);
      ApplyItem(cfg, w', log, items[n], faults[n])
  }

  // ---------------------------------------------------------------- what the log records

  /** The created pools are exactly the new live ones, in creation order. */
  ghost predicate PoolsLogged(s0: State, s: State, created: seq<nat>) {
    s0.WellFormed() && s.WellFormed() && s0.next <= s.next
    && (forall id :: id in s0.pools ==> id in s.pools && s.pools[id] == s0.pools[id])
    && (forall id :: id in s.pools && id !in s0.pools ==> s0.next <= id)
    && (forall i :: 0 <= i < |created| ==> s0.next <= created[i] && s.Live(created[i]))
    && (forall i, j :: 0 <= i < j < |created| ==> created[i] < created[j])
    && forall id :: s.Live(id) && s0.next <= id ==> id in created
  }

  /** The linked resources are exactly those whose link was written; each now has a live pool. */
  ghost predicate LinksLogged(w0: World, w: World, linked: seq<nat>) {
    w.resources.Keys == w0.resources.Keys
    && (forall id :: id in w.resources && id !in linked ==> w.resources[id] == w0.resources[id])
    && forall id :: id in linked ==>
         id in w.resources && w.resources[id] == w0.resources[id].(poolId := w.resources[id].poolId)
         && w.resources[id].poolId.Some? && w.store.Live(w.resources[id].poolId.value)
  }

  ghost predicate Logged(w0: World, w: World, log: Log, done: nat) {
    PoolsLogged(w0.store, w.store, log.created) && LinksLogged(w0, w, log.linked)
    && log.resourcesLinked == |log.linked| && log.poolsCreated <= |log.created|
    && log.resourcesLinked + log.skipped == done
  }

  /** Items come from a preview of the initial world. */
  ghost predicate PreviewOf(cfg: Config, w: World, v: View, items: seq<Item>) {
    v.parse == cfg.parse && v.resources == w.resources && v.account == cfg.account
    && ValidResources(w.resources) && w.store.WellFormed()
    && (forall p :: p in v.pools ==> w.store.Live(p.id) && w.store.pools[p.id] == p)
    && forall i :: 0 <= i < |items| ==> ItemFor(v, items[i])
  }

  /** Nothing hangs below a pool just inserted. */
  lemma NewPoolIsLeaf(s: State, input: NewPool)
    requires s.WellFormed() && (input.parent.Some? ==> input.parent.value < s.next)
    ensures CanDelete(Insert(s, input), s.next)
  {
  }

  lemma InsertWellFormed(s: State, input: NewPool)
    requires s.WellFormed() && (input.parent.Some? ==> input.parent.value < s.next)
    ensures Insert(s, input).WellFormed()
    ensures forall id :: Insert(s, input).Live(id) <==> s.Live(id) || id == s.next
  {
  }

  lemma InsertLogged(s0: State, s: State, created: seq<nat>, input: NewPool)
    requires PoolsLogged(s0, s, created) && (input.parent.Some? ==> input.parent.value < s.next)
    ensures PoolsLogged(s0, Insert(s, input), created + [s.next])
    ensures CanDelete(Insert(s, input), s.next)
  {
    NewPoolIsLeaf(s, input);
    InsertWellFormed(s, input);
    var s', log := Insert(s, input), created + [s.next];
    forall id | s'.Live(id) && s0.next <= id
      ensures id in log
    {
      assert id == s.next || id in created;
    }
    forall i | 0 <= i < |log|
      ensures s0.next <= log[i] && s'.Live(log[i]) && (i < |created| ==> log[i] < s.next)
    {
      assert i < |created| ==> s.Live(created[i]);
    }
  }

  lemma DeleteNewest(s0: State, s: State, init: seq<nat>, last: nat)
    requires PoolsLogged(s0, s, init + [last]) && CanDelete(s, last)
    ensures PoolsLogged(s0, Delete(s, last), init)
  {
    var s', created := Delete(s, last), init + [last];
    assert created[|init|] == last;
    forall i | 0 <= i < |init|
      ensures s0.next <= init[i] < last && s'.Live(init[i])
    {
      assert created[i] == init[i];
    }
    forall i, j | 0 <= i < j < |init|
      ensures init[i] < init[j]
    {
      assert created[i] == init[i] && created[j] == init[j];
    }
    forall id | s'.Live(id) && s0.next <= id
      ensures id in init
    {
      assert s.Live(id) && id in created && id != last;
    }
  }

  /** Links stay logged while the pools they point to stay live. */
  lemma StoreChangeKeepsLinks(w0: World, w: World, s: State, linked: seq<nat>)
    requires LinksLogged(w0, w, linked) && forall id :: w.store.Live(id) ==> s.Live(id)
    ensures LinksLogged(w0, w.(store := s), linked)
  {
  }

  lemma LinkLogged(w0: World, w: World, linked: seq<nat>, id: nat, pool: nat)
    requires LinksLogged(w0, w, linked) && id in w.resources && w.store.Live(pool)
    ensures LinksLogged(w0, Link(w, id, Some(pool)), linked + [id])
  {
  }

  lemma CreateLogged(w0: World, w: World, log: Log, res: Resource, input: NewPool, f: Faults, done: nat)
    requires Logged(w0, w, log, done) && res.id in w.resources
    requires input.parent.Some? ==> w.store.Live(input.parent.value)
    ensures var (w', log') := InsertAndLink(w, log, res, input, f); Logged(w0, w', log', done + 1)
  {
    var id, s := w.store.next, Insert(w.store, input);
    InsertLogged(w0.store, w.store, log.created, input);
    StoreChangeKeepsLinks(w0, w, s, log.linked);
    if !f.link {
      LinkLogged(w0, w.(store := s), log.linked, res.id, id);
    } else if !f.cleanup {
      DeleteNewest(w0.store, s, log.created, id);
      StoreChangeKeepsLinks(w0, w, Delete(s, id), log.linked);
    }
  }

  /** A proposed pool is one of the initially live pools, and those stay live. */
  lemma ProposedPoolLive(cfg: Config, w0: World, w: World, v: View, items: seq<Item>, i: nat, created: seq<nat>)
    requires PreviewOf(cfg, w0, v, items) && i < |items| && items[i].proposedPool.Some?
    requires PoolsLogged(w0.store, w.store, created)
    ensures w.store.Live(items[i].proposedPool.value)
  {
    assert ItemFor(v, items[i]);
    var p :| p in v.pools && p.id == items[i].proposedPool.value;
    assert w0.store.Live(p.id);
  }

  lemma ItemLogged(cfg: Config, w0: World, w: World, v: View, items: seq<Item>, i: nat, log: Log, f: Faults)
    requires PreviewOf(cfg, w0, v, items) && i < |items| && Logged(w0, w, log, i)
    ensures var (w', log') := ApplyItem(cfg, w, log, items[i], f); Logged(w0, w', log', i + 1)
  {
    var item := items[i];
    var (w'', log'') := ApplyItem(cfg, w, log, item, f);
    if Processed(cfg, item) && !f.load && item.resource in w.resources && w.resources[item.resource].id == item.resource {
      var res := w.resources[item.resource];
      if item.proposedPool.Some? && (item.action == LinkPool || cfg.allowBlocked) {
        ProposedPoolLive(cfg, w0, w, v, items, i, log.created);
        if !f.link {
          LinkLogged(w0, w, log.linked, res.id, item.proposedPool.value);
          assert log''.linked == log.linked + [res.id];
        }
      } else {
        var parent := ParentFor(item, res, log);
        if parent.None? && res.kind == SUBNET && res.parentId.Some? {
        } else if parent.Some? && (f.check || !w.store.Live(parent.value)
                                   || Foreign(w.store.pools[parent.value], cfg.account)) {
        } else if CreateFails(cfg, w.store, PoolFor(cfg, res, parent), f) {
        } else {
          CreateLogged(w0, w, log, res, PoolFor(cfg, res, parent), f, i);
        }
      }
    }
  }

  /** At every step of every import, whatever fails, the log is exact and each item is counted once. */
  lemma {:induction false} ImportLogged(cfg: Config, w0: World, v: View, items: seq<Item>, faults: seq<Faults>)
    requires |faults| == |items| && PreviewOf(cfg, w0, v, items)
    ensures var (w, log) := ApplyAll(cfg, w0, items, faults); Logged(w0, w, log, |items|)
  {
    if items != [] {
      var n := |items| - 1;
      ImportLogged(cfg, w0, v, items[..n], faults[..n]);
      var (w, log) := ApplyAll(cfg, w0, items[..n], faults[..n]);
      ItemLogged(cfg, w0, w, v, items, n, log, faults[n]);
    }
  }

  // ---------------------------------------------------------------- rollback

  /** The ids whose unlink or delete call fails during a rollback. */
  datatype RollbackFaults = RollbackFaults(unlink: set<nat>, delete: set<nat>)

  const NO_FAULTS := RollbackFaults({}, {})

  function UnlinkAll(resources: map<nat, Resource>, ids: seq<nat>, fails: set<nat>): (r: map<nat, Resource>)
    ensures r.Keys == resources.Keys
    ensures forall id :: id in resources ==>
      r[id] == if id in ids && id !in fails then resources[id].(poolId := None) else resources[id]
  {
    if ids == [] then resources
    else
      var n := |ids| - 1;
      var r := UnlinkAll(resources, ids[..n], fails);
      assert ids == ids[..n] + [ids[n]];
      if ids[n] in r && ids[n] !in fails then r[ids[n] := r[ids[n]].(poolId := None)] else r
  }

  function DeleteBackwards(s: State, created: seq<nat>, fails: set<nat>): State
    decreases |created|
  {
    if created == [] then s
    else
      var last := created[|created| - 1];
      DeleteBackwards(if last in fails then s else Delete(s, last), created[..|created| - 1], fails)
  }

  /** `rollbackNetworkConflictImport`, which goes on after a failing call. */
  function Rollback(w: World, log: Log, f: RollbackFaults): World {
    World(DeleteBackwards(w.store, log.created, f.delete), UnlinkAll(w.resources, log.linked, f.unlink))
  }

  /** A failing call is about something the log lists. */
  predicate Hits(f: RollbackFaults, log: Log) {
    (exists id :: id in log.linked && id in f.unlink) || exists id :: id in log.created && id in f.delete
  }

  /** Every deletion of the backward pass meets a leaf. */
  ghost predicate LeavesOnly(s: State, created: seq<nat>)
    decreases |created|
  {
    created == []
    || (CanDelete(s, created[|created| - 1])
        && LeavesOnly(Delete(s, created[|created| - 1]), created[..|created| - 1]))
  }

  ghost predicate SameLive(s0: State, s: State) {
    forall id :: (s.Live(id) <==> s0.Live(id)) && (s0.Live(id) ==> s.pools[id] == s0.pools[id])
  }

  /** Pools and links are as they were. */
  ghost predicate Restored(w0: World, w: World) {
    SameLive(w0.store, w.store) && w.resources == w0.resources
  }

  /** Only later pools of the log can hang below a created pool. */
  lemma NewestIsLeaf(s0: State, s: State, created: seq<nat>)
    requires PoolsLogged(s0, s, created) && created != []
    ensures CanDelete(s, created[|created| - 1])
  {
    var last := created[|created| - 1];
    forall c | c in s.pools && s.ChildOf(c, last)
      ensures c in created && c > last
    {
      assert c !in s0.pools;
    }
  }

  lemma {:induction false} RollbackDeletes(s0: State, s: State, created: seq<nat>, fails: set<nat>)
    requires PoolsLogged(s0, s, created) && forall id :: id in created ==> id !in fails
    ensures LeavesOnly(s, created) && SameLive(s0, DeleteBackwards(s, created, fails))
    decreases |created|
  {
    if created != [] {
      NewestIsLeaf(s0, s, created);
      assert created == created[..|created| - 1] + [created[|created| - 1]];
      DeleteNewest(s0, s, created[..|created| - 1], created[|created| - 1]);
      RollbackDeletes(s0, Delete(s, created[|created| - 1]), created[..|created| - 1], fails);
    }
  }

  lemma UnlinkRestoresIff(w0: World, w: World, linked: seq<nat>, fails: set<nat>)
    requires LinksLogged(w0, w, linked) && forall id :: id in linked ==> id !in fails
    ensures UnlinkAll(w.resources, linked, fails) == w0.resources <==>
      forall id :: id in linked ==> w0.resources[id].poolId.None?
  {
    var r := UnlinkAll(w.resources, linked, fails);
    if forall id :: id in linked ==> w0.resources[id].poolId.None? {
      forall id | id in r
        ensures r[id] == w0.resources[id]
      {
      }
    } else {
      var id :| id in linked && w0.resources[id].poolId.Some?;
      assert r[id].poolId.None?;
    }
  }

  /** The rollback meets only leaves and stored resources, and unless a call fails it restores everything exactly
      when no existing link was overwritten. */
  lemma RollbackRestoresIff(w0: World, w: World, log: Log, done: nat, f: RollbackFaults)
    requires Logged(w0, w, log, done) && !Hits(f, log)
    ensures LeavesOnly(w.store, log.created) && forall id :: id in log.linked ==> id in w.resources
    ensures Restored(w0, Rollback(w, log, f)) <==> forall id :: id in log.linked ==> w0.resources[id].poolId.None?
  {
    RollbackDeletes(w0.store, w.store, log.created, f.delete);
    UnlinkRestoresIff(w0, w, log.linked, f.unlink);
  }

  lemma {:induction false} FailedStaysLive(s: State, created: seq<nat>, fails: set<nat>, id: nat)
    requires s.Live(id) && id in fails
    ensures DeleteBackwards(s, created, fails).Live(id)
    decreases |created|
  {
    if created != [] {
      var last := created[|created| - 1];
      FailedStaysLive(if last in fails then s else Delete(s, last), created[..|created| - 1], fails, id);
    }
  }

  /** A failing call about a listed id leaves its pool or its link behind. */
  lemma HitLeavesTrace(w0: World, w: World, log: Log, done: nat, f: RollbackFaults)
    requires Logged(w0, w, log, done) && Hits(f, log)
    requires forall id :: id in log.linked ==> w0.resources[id].poolId.None?
    ensures !Restored(w0, Rollback(w, log, f))
  {
    var r := Rollback(w, log, f);
    if id :| id in log.linked && id in f.unlink {
      assert r.resources[id].poolId.Some?;
    } else {
      var id :| id in log.created && id in f.delete;
      FailedStaysLive(w.store, log.created, f.delete, id);
      assert r.store.Live(id) && !w0.store.Live(id);
    }
  }

  // ---------------------------------------------------------------- which requests are safe

  /** No selected resource is linked in another account. */
  predicate OneAccount(cfg: Config, resources: map<nat, Resource>, items: seq<Item>) {
    forall i :: 0 <= i < |items| && items[i].resource in resources ==>
      resources[items[i].resource].account == cfg.account || resources[items[i].resource].poolId.None?
  }

  lemma ProcessedIsUnlinked(cfg: Config, w0: World, v: View, items: seq<Item>, i: nat)
    requires PreviewOf(cfg, w0, v, items) && i < |items| && Processed(cfg, items[i])
    requires !cfg.allowBlocked || OneAccount(cfg, w0.resources, items)
    ensures items[i].resource in w0.resources && w0.resources[items[i].resource].poolId.None?
  {
    assert ItemFor(v, items[i]);
  }

  lemma {:induction false} ImportLinksOnlyUnlinked(cfg: Config, w0: World, v: View, items: seq<Item>, faults: seq<Faults>)
    requires |faults| == |items| && PreviewOf(cfg, w0, v, items)
    requires !cfg.allowBlocked || OneAccount(cfg, w0.resources, items)
    ensures var (w, log) := ApplyAll(cfg, w0, items, faults);
      forall id :: id in log.linked ==> id in w0.resources && w0.resources[id].poolId.None?
  {
    if items != [] {
      var n := |items| - 1;
      ImportLinksOnlyUnlinked(cfg, w0, v, items[..n], faults[..n]);
      var (w, log) := ApplyAll(cfg, w0, items[..n], faults[..n]);
      if Processed(cfg, items[n]) {
        ProcessedIsUnlinked(cfg, w0, v, items, n);
      }
      ItemLinksItself(cfg, w, log, items[n], faults[n]);
    }
  }

  lemma ItemLinksItself(cfg: Config, w: World, log: Log, item: Item, f: Faults)
    ensures var (w', log') := ApplyItem(cfg, w, log, item, f);
      log'.linked == log.linked || (Processed(cfg, item) && log'.linked == log.linked + [item.resource])
  {
  }

  /** The resource could get a pool: a VPC or subnet with a CIDR and, in the account itself, unlinked and active. */
  ghost predicate Eligible(cfg: Config, r: Resource) {
    (r.kind == VPC || r.kind == SUBNET) && r.cidr != "" && cfg.parse(r.cidr).Some?
    && (r.account == cfg.account ==> r.poolId == None && r.active)
  }

  /** An item is processed iff its resource is expected to be importable, or force is asked for and it could get a pool. */
  lemma ProcessedIff(cfg: Config, w0: World, v: View, item: Item)
    requires PreviewOf(cfg, w0, v, [item])
    ensures Processed(cfg, item) <==>
      item.resource in w0.resources
      && (ExpectedStatus(v, item.resource) == Importable
          || (cfg.allowBlocked && Eligible(cfg, w0.resources[item.resource])))
    ensures Processed(cfg, item) ==> Eligible(cfg, w0.resources[item.resource])
  {
    assert ItemFor(v, [item][0]);
  }

  lemma {:induction false} ImportLinksOnlyEligible(cfg: Config, w0: World, v: View, items: seq<Item>, faults: seq<Faults>)
    requires |faults| == |items| && PreviewOf(cfg, w0, v, items)
    ensures forall id :: id in ApplyAll(cfg, w0, items, faults).1.linked ==>
      id in w0.resources && Eligible(cfg, w0.resources[id])
      && (cfg.allowBlocked || ExpectedStatus(v, id) == Importable)
  {
    if items != [] {
      var n := |items| - 1;
      ImportLinksOnlyEligible(cfg, w0, v, items[..n], faults[..n]);
      var (w, log) := ApplyAll(cfg, w0, items[..n], faults[..n]);
      assert ItemFor(v, items[n]) && [items[n]][0] == items[n];
      ProcessedIff(cfg, w0, v, items[n]);
      ItemLinksItself(cfg, w, log, items[n], faults[n]);
    }
  }

  /** Import then rollback is the identity on live pools and links, whatever calls of the import failed,
      iff no call of the rollback fails. */
  lemma ImportThenRollback(
      cfg: Config, w0: World, v: View, items: seq<Item>, faults: seq<Faults>, f: RollbackFaults)
    requires |faults| == |items| && PreviewOf(cfg, w0, v, items)
    requires !cfg.allowBlocked || OneAccount(cfg, w0.resources, items)
    ensures var (w, log) := ApplyAll(cfg, w0, items, faults);
      Restored(w0, Rollback(w, log, f)) <==> !Hits(f, log)
  {
    var (w, log) := ApplyAll(cfg, w0, items, faults);
    ImportLogged(cfg, w0, v, items, faults);
    ImportLinksOnlyUnlinked(cfg, w0, v, items, faults);
    if Hits(f, log) {
      HitLeavesTrace(w0, w, log, |items|, f);
    } else {
      RollbackRestoresIff(w0, w, log, |items|, f);
    }
  }

  /** Outside one account a forced import overwrites a link that rollback cannot bring back. */
  lemma ForcedForeignLinkIsLost(cfg: Config, w0: World, v: View, item: Item)
    requires PreviewOf(cfg, w0, v, [item]) && cfg.allowBlocked && cfg.backend == Memory
    requires item.resource in w0.resources
    requires var res := w0.resources[item.resource];
      res.account != cfg.account && res.poolId.Some? && res.kind == VPC && res.providerId != ""
      && res.cidr != "" && Parses(cfg.parse, res.cidr) && res.parentId.None?
    ensures var (w, log) := ApplyAll(cfg, w0, [item], [Faults(false, false, false, false, false)]);
      !Restored(w0, Rollback(w, log, NO_FAULTS))
  {
    var faults := [Faults(false, false, false, false, false)];
    ForcedItemLinks(cfg, w0, v, item);
    ImportLogged(cfg, w0, v, [item], faults);
    var (w, log) := ApplyAll(cfg, w0, [item], faults);
    assert item.resource in log.linked;
    RollbackRestoresIff(w0, w, log, 1, NO_FAULTS);
  }

  lemma ForcedItemLinks(cfg: Config, w0: World, v: View, item: Item)
    requires PreviewOf(cfg, w0, v, [item]) && cfg.allowBlocked && cfg.backend == Memory
    requires item.resource in w0.resources
    requires var res := w0.resources[item.resource];
      res.account != cfg.account && res.poolId.Some? && res.kind == VPC && res.providerId != ""
      && res.cidr != "" && Parses(cfg.parse, res.cidr) && res.parentId.None?
    ensures ApplyAll(cfg, w0, [item], [Faults(false, false, false, false, false)]).1.linked == [item.resource]
  {
    var items, faults := [item], [Faults(false, false, false, false, false)];
    assert ItemFor(v, items[0]);
    assert ApplyAll(cfg, w0, items[..0], faults[..0]) == (w0, EMPTY_LOG);
    assert ApplyAll(cfg, w0, items, faults) == ApplyItem(cfg, w0, EMPTY_LOG, item, faults[0]);
  }
}
