/** Selections that an import links completely. */
module ImportReady {

  import opened Cidr
  import opened CidrTests
  import opened Classification
  import opened Discovery
  import opened Import
  import opened ImportApply
  import opened ImportOrder
  import opened PoolStore
  import opened Text
  import opened Wrappers

  /** What the request's other lookups return. */
  datatype Lookups = Lookups(
    byProvider: map<string, Resource>, selected: set<string>, selectedPool: Option<Pool>, duplicated: set<string>)

  function ViewOf(cfg: Config, w: World, look: Lookups, pools: seq<Pool>): View {
    View(cfg.parse, pools, w.resources, cfg.account, look.byProvider, look.selected, look.selectedPool, look.duplicated)
  }

  // ---------------------------------------------------------------- which selections are ready

  /** A live pool of the account or of none. */
  ghost predicate OwnPool(cfg: Config, w: World, id: nat) {
    w.store.Live(id) && (w.store.pools[id].account == None || w.store.pools[id].account == Some(cfg.account))
  }

  /** Some own pool covers exactly the resource's addresses. */
  ghost predicate Matched(cfg: Config, w: World, r: Resource) {
    exists p :: OwnPool(cfg, w, p) && SameBlock(cfg.parse(w.store.pools[p].cidr), cfg.parse(r.cidr))
  }

  /** A new pool for the resource would have a name and no entry in the unique index. */
  ghost predicate Storable(cfg: Config, w: World, r: Resource) {
    (r.providerId != "" || TrimSpace(r.name) != "")
    && (cfg.backend == Sqlite ==> forall p :: p in w.store.pools ==> w.store.pools[p].cidr != r.cidr)
    && (cfg.backend == Postgres ==> forall p :: w.store.Live(p) ==> cfg.parse(w.store.pools[p].cidr) != cfg.parse(r.cidr))
  }

  /** No live pool covers the same addresses in another account, or a proper part of them. */
  ghost predicate Unopposed(cfg: Config, w: World, r: Resource) {
    forall p :: w.store.Live(p) ==>
      !Inside(cfg.parse(w.store.pools[p].cidr), cfg.parse(r.cidr))
      && (SameBlock(cfg.parse(w.store.pools[p].cidr), cfg.parse(r.cidr)) ==> OwnPool(cfg, w, p))
  }

  /** The selected pool, if any, is an own one and holds the resource. */
  ghost predicate SelectedHolds(cfg: Config, w: World, look: Lookups, r: Resource) {
    look.selectedPool.Some? ==>
      OwnPool(cfg, w, look.selectedPool.value.id)
      && (SameBlock(cfg.parse(r.cidr), cfg.parse(look.selectedPool.value.cidr))
          || Inside(cfg.parse(r.cidr), cfg.parse(look.selectedPool.value.cidr)))
  }

  /** A subnet's VPC is known, and linked to an own pool or selected too. */
  ghost predicate ParentReady(cfg: Config, w: World, look: Lookups, ids: seq<nat>, r: Resource) {
    r.kind == SUBNET && r.parentId.Some? ==>
      r.parentId.value in look.byProvider
      && var parent := look.byProvider[r.parentId.value];
         if parent.poolId.Some? then OwnPool(cfg, w, parent.poolId.value)
         else parent.providerId in look.selected && SelectedVpc(w, ids, r.parentId.value)
  }

  ghost predicate SelectedVpc(w: World, ids: seq<nat>, providerId: string) {
    exists id :: id in ids && id in w.resources && w.resources[id].kind == VPC && w.resources[id].providerId == providerId
  }

  ghost predicate ReadyOne(cfg: Config, w: World, look: Lookups, ids: seq<nat>, id: nat) {
    id in w.resources
    && var r := w.resources[id];
       r.account == cfg.account && r.poolId.None? && r.active && (r.kind == VPC || r.kind == SUBNET)
       && r.cidr != "" && cfg.parse(r.cidr).Some? && r.cidr !in look.duplicated
       && Unopposed(cfg, w, r) && SelectedHolds(cfg, w, look, r) && ParentReady(cfg, w, look, ids, r)
       && (Matched(cfg, w, r) || Storable(cfg, w, r))
  }

  /** The unique index allows new pools for both resources. */
  ghost predicate Compatible(cfg: Config, r: Resource, q: Resource) {
    (cfg.backend == Sqlite ==> r.cidr != q.cidr) && (cfg.backend == Postgres ==> cfg.parse(r.cidr) != cfg.parse(q.cidr))
  }

  /** Everything selected can be imported, stated over the resources and the pools. */
  ghost predicate Ready(cfg: Config, w: World, look: Lookups, ids: seq<nat>) {
    (forall i, j :: 0 <= i < j < |ids| ==> ids[i] != ids[j])
    && (forall id :: id in ids ==> ReadyOne(cfg, w, look, ids, id))
    && forall a, b :: a in ids && b in ids && a != b ==> Compatible(cfg, w.resources[a], w.resources[b])
  }

  // ---------------------------------------------------------------- the preview finds them importable

  ghost predicate ListsPools(w: World, pools: seq<Pool>) {
    (forall p :: p in pools ==> w.store.Live(p.id) && w.store.pools[p.id] == p)
    && forall id :: w.store.Live(id) ==> w.store.pools[id] in pools
  }

  lemma ReadyIsImportable(cfg: Config, w: World, look: Lookups, ids: seq<nat>, pools: seq<Pool>, id: nat)
    requires w.store.WellFormed() && ListsPools(w, pools) && ReadyOne(cfg, w, look, ids, id)
    ensures ExpectedStatus(ViewOf(cfg, w, look, pools), id) == Importable
  {
    var v, r := ViewOf(cfg, w, look, pools), w.resources[id];
    assert !HasConflict(v, r);
    if look.selectedPool.Some? {
      TestsMeaning(cfg.parse(look.selectedPool.value.cidr), cfg.parse(r.cidr));
    }
    assert Clean(v, r);
  }

  /** An item proposes a pool iff the resource is matched. */
  lemma MatchedIsProposed(cfg: Config, w: World, look: Lookups, ids: seq<nat>, pools: seq<Pool>, item: Item)
    requires w.store.WellFormed() && ListsPools(w, pools) && ReadyOne(cfg, w, look, ids, item.resource)
    requires ItemFor(ViewOf(cfg, w, look, pools), item)
    ensures item.proposedPool.Some? <==> Matched(cfg, w, w.resources[item.resource])
    ensures item.proposedPool.Some? ==> OwnPool(cfg, w, item.proposedPool.value)
    ensures item.proposedParent.Some? ==> OwnPool(cfg, w, item.proposedParent.value)
  {
    var v, r := ViewOf(cfg, w, look, pools), w.resources[item.resource];
    assert Candidate(v, item.resource);
    if p :| OwnPool(cfg, w, p) && SameBlock(cfg.parse(w.store.pools[p].cidr), cfg.parse(r.cidr)) {
      assert w.store.pools[p] in pools && IsExact(cfg.parse, w.store.pools[p], r.cidr, r.account);
    }
  }

  // ---------------------------------------------------------------- the apply loop links them all

  const NO_FAULT := Faults(false, false, false, false, false)

  /** The items are about the selected resources, each once, VPCs first. */
  ghost predicate Prepared(cfg: Config, w0: World, look: Lookups, ids: seq<nat>, pools: seq<Pool>, items: seq<Item>) {
    Ready(cfg, w0, look, ids) && w0.store.WellFormed() && ListsPools(w0, pools)
    && PreviewOf(cfg, w0, ViewOf(cfg, w0, look, pools), items) && VpcsFirst(items)
    && (forall i :: 0 <= i < |items| ==> items[i].resource in ids)
    && (forall id :: id in ids ==> exists i :: 0 <= i < |items| && items[i].resource == id)
    && forall i, j :: 0 <= i < j < |items| ==> items[i].resource != items[j].resource
  }

  /** The pool was made for one of the first `n` items that matched no pool. */
  ghost predicate MadeFor(cfg: Config, w0: World, items: seq<Item>, n: nat, p: Pool) {
    p.account == Some(cfg.account)
    && exists k :: 0 <= k < n <= |items| && items[k].proposedPool.None? && items[k].resource in w0.resources
                   && p.cidr == w0.resources[items[k].resource].cidr
  }

  /** The pools there were, and new ones made for items. */
  ghost predicate StoreWell(cfg: Config, w0: World, items: seq<Item>, n: nat, s: State) {
    s.WellFormed() && w0.store.next <= s.next
    && (forall p :: p in w0.store.pools ==> p in s.pools && s.pools[p] == w0.store.pools[p])
    && forall p :: p in s.pools && p !in w0.store.pools ==> MadeFor(cfg, w0, items, n, s.pools[p])
  }

  /** Only links changed, and the objects of the first `n` items are known with own pools. */
  ghost predicate LinksWell(cfg: Config, w0: World, items: seq<Item>, n: nat, w: World, poolOf: map<string, nat>) {
    OnlyLinksDiffer(w0.resources, w.resources)
    && (forall q :: q in poolOf ==> OwnPool(cfg, w, poolOf[q]))
    && forall k :: 0 <= k < n <= |items| && items[k].resource in w0.resources ==>
         w0.resources[items[k].resource].providerId in poolOf
  }

  /** Nothing went wrong in the first `n` rounds. */
  ghost predicate AllWell(cfg: Config, w0: World, items: seq<Item>, n: nat, w: World, log: Log) {
    log.skipped == 0 && log.errors == 0 && log.resourcesLinked == n
    && StoreWell(cfg, w0, items, n, w.store) && LinksWell(cfg, w0, items, n, w, log.poolOf)
  }

  lemma OwnStays(cfg: Config, w0: World, items: seq<Item>, n: nat, w: World, log: Log, p: nat)
    requires AllWell(cfg, w0, items, n, w, log) && OwnPool(cfg, w0, p)
    ensures OwnPool(cfg, w, p)
  {
  }

  /** A parent is found where one is needed, and every parent is an own pool. */
  lemma ParentIsFine(
      cfg: Config, w0: World, look: Lookups, ids: seq<nat>, pools: seq<Pool>, items: seq<Item>, n: nat, w: World, log: Log)
    requires Prepared(cfg, w0, look, ids, pools, items) && n < |items| && AllWell(cfg, w0, items, n, w, log)
    ensures items[n].resource in w0.resources
    ensures var r := w0.resources[items[n].resource]; var parent := ParentFor(items[n], r, log);
      (r.kind == SUBNET && r.parentId.Some? ==> parent.Some?)
      && (parent.Some? ==> OwnPool(cfg, w, parent.value))
  {
    var item := items[n];
    assert ReadyOne(cfg, w0, look, ids, item.resource) && ItemFor(ViewOf(cfg, w0, look, pools), item);
    MatchedIsProposed(cfg, w0, look, ids, pools, item);
    var r := w0.resources[item.resource];
    if item.proposedParent.Some? {
      OwnStays(cfg, w0, items, n, w, log, item.proposedParent.value);
    } else if r.kind == SUBNET && r.parentId.Some? {
      NeededParentIsKnown(cfg, w0, look, ids, pools, items, n, w, log);
    }
  }

  lemma UnproposedParent(cfg: Config, w: World, look: Lookups, ids: seq<nat>, pools: seq<Pool>, item: Item)
    requires ItemFor(ViewOf(cfg, w, look, pools), item) && ReadyOne(cfg, w, look, ids, item.resource)
    requires item.proposedParent.None?
    requires var r := w.resources[item.resource]; r.kind == SUBNET && r.parentId.Some?
    ensures SelectedVpc(w, ids, w.resources[item.resource].parentId.value)
  {
    var v, r := ViewOf(cfg, w, look, pools), w.resources[item.resource];
    assert Candidate(v, item.resource);
    assert ProposedParent(v, r).None?;
  }

  lemma VpcComesFirst(v: View, items: seq<Item>, k: nat, n: nat)
    requires VpcsFirst(items) && k < |items| && n < |items| && ItemFor(v, items[k]) && ItemFor(v, items[n])
    requires items[k].resource in v.resources && v.resources[items[k].resource].kind == VPC
    requires items[n].resource in v.resources && v.resources[items[n].resource].kind == SUBNET
    ensures k < n
  {
    assert items[k].kind == VPC && items[n].kind == SUBNET;
  }

  /** A subnet without a proposed parent has its VPC among the earlier items. */
  lemma NeededParentIsKnown(
      cfg: Config, w0: World, look: Lookups, ids: seq<nat>, pools: seq<Pool>, items: seq<Item>, n: nat, w: World, log: Log)
    requires Prepared(cfg, w0, look, ids, pools, items) && n < |items| && AllWell(cfg, w0, items, n, w, log)
    requires items[n].resource in w0.resources && items[n].proposedParent.None?
    requires var r := w0.resources[items[n].resource]; r.kind == SUBNET && r.parentId.Some?
    ensures w0.resources[items[n].resource].parentId.value in log.poolOf
  {
    var v := ViewOf(cfg, w0, look, pools);
    UnproposedParent(cfg, w0, look, ids, pools, items[n]);
    var vpc :| vpc in ids && vpc in w0.resources && w0.resources[vpc].kind == VPC
               && w0.resources[vpc].providerId == w0.resources[items[n].resource].parentId.value;
    var k :| 0 <= k < |items| && items[k].resource == vpc;
    VpcComesFirst(v, items, k, n);
  }

  /** Nothing stands in the way of a new pool. */
  lemma CreateSucceeds(
      cfg: Config, w0: World, look: Lookups, ids: seq<nat>, pools: seq<Pool>, items: seq<Item>, n: nat, w: World, log: Log,
      parent: Option<nat>)
    requires Prepared(cfg, w0, look, ids, pools, items) && n < |items| && AllWell(cfg, w0, items, n, w, log)
    requires items[n].proposedPool.None? && items[n].resource in w0.resources
    ensures !CreateFails(cfg, w.store, PoolFor(cfg, w0.resources[items[n].resource], parent), NO_FAULT)
  {
    var item := items[n];
    var r := w0.resources[item.resource];
    assert ReadyOne(cfg, w0, look, ids, item.resource) && ItemFor(ViewOf(cfg, w0, look, pools), item);
    MatchedIsProposed(cfg, w0, look, ids, pools, item);
    forall p | p in w.store.pools
      ensures cfg.backend == Sqlite ==> w.store.pools[p].cidr != r.cidr
      ensures cfg.backend == Postgres && w.store.Live(p) ==> cfg.parse(w.store.pools[p].cidr) != cfg.parse(r.cidr)
    {
      if p !in w0.store.pools {
        assert MadeFor(cfg, w0, items, n, w.store.pools[p]);
        var k :| 0 <= k < n && items[k].proposedPool.None? && items[k].resource in w0.resources
                 && w.store.pools[p].cidr == w0.resources[items[k].resource].cidr;
        assert Compatible(cfg, w0.resources[items[k].resource], r);
      }
    }
  }

  lemma MadeForMore(cfg: Config, w0: World, items: seq<Item>, n: nat, p: Pool)
    requires MadeFor(cfg, w0, items, n, p) && n < |items|
    ensures MadeFor(cfg, w0, items, n + 1, p)
  {
  }

  lemma StoreStays(cfg: Config, w0: World, items: seq<Item>, n: nat, s: State)
    requires StoreWell(cfg, w0, items, n, s) && n < |items|
    ensures StoreWell(cfg, w0, items, n + 1, s)
  {
    forall p | p in s.pools && p !in w0.store.pools
      ensures MadeFor(cfg, w0, items, n + 1, s.pools[p])
    {
      MadeForMore(cfg, w0, items, n, s.pools[p]);
    }
  }

  lemma StoreGrows(cfg: Config, w0: World, items: seq<Item>, n: nat, s: State, input: NewPool)
    requires StoreWell(cfg, w0, items, n, s) && n < |items| && items[n].proposedPool.None?
    requires items[n].resource in w0.resources && input.cidr == w0.resources[items[n].resource].cidr
    requires input.account == Some(cfg.account) && (input.parent.Some? ==> s.Live(input.parent.value))
    ensures StoreWell(cfg, w0, items, n + 1, Insert(s, input))
  {
    var t := Insert(s, input);
    InsertWellFormed(s, input);
    forall p | p in t.pools && p !in w0.store.pools
      ensures MadeFor(cfg, w0, items, n + 1, t.pools[p])
    {
      if p != s.next {
        MadeForMore(cfg, w0, items, n, s.pools[p]);
      } else {
        assert t.pools[p] == Fresh(s, input);
      }
    }
  }

  lemma LinksGrow(
      cfg: Config, w0: World, items: seq<Item>, n: nat, w: World, poolOf: map<string, nat>, id: nat, pool: nat, s: State)
    requires LinksWell(cfg, w0, items, n, w, poolOf) && n < |items| && id == items[n].resource && id in w.resources
    requires forall p :: OwnPool(cfg, w, p) ==> OwnPool(cfg, w.(store := s), p)
    requires OwnPool(cfg, w.(store := s), pool)
    ensures LinksWell(cfg, w0, items, n + 1, Link(w.(store := s), id, Some(pool)),
                      poolOf[w.resources[id].providerId := pool])
  {
  }

  /** A round that links to the proposed pool. */
  lemma LinkIsWell(cfg: Config, w0: World, items: seq<Item>, n: nat, w: World, log: Log, id: nat, pool: nat)
    requires AllWell(cfg, w0, items, n, w, log) && n < |items| && OwnPool(cfg, w, pool)
    requires id in w.resources && id == items[n].resource && w.resources[id].id == id
    ensures AllWell(cfg, w0, items, n + 1, Link(w, id, Some(pool)), Linked(log, w.resources[id], pool))
  {
    StoreStays(cfg, w0, items, n, w.store);
    LinksGrow(cfg, w0, items, n, w, log.poolOf, id, pool, w.store);
    assert w.(store := w.store) == w;
  }

  /** A round that makes a pool. */
  lemma CreateIsWell(
      cfg: Config, w0: World, items: seq<Item>, n: nat, w: World, log: Log, id: nat, parent: Option<nat>)
    requires AllWell(cfg, w0, items, n, w, log) && n < |items| && items[n].proposedPool.None?
    requires id in w.resources && id == items[n].resource && w.resources[id].id == id
    requires parent.Some? ==> OwnPool(cfg, w, parent.value)
    ensures var (w', log') := InsertAndLink(w, log, w.resources[id], PoolFor(cfg, w.resources[id], parent), NO_FAULT);
      AllWell(cfg, w0, items, n + 1, w', log')
  {
    var input := PoolFor(cfg, w.resources[id], parent);
    var s := Insert(w.store, input);
    StoreGrows(cfg, w0, items, n, w.store, input);
    NewPoolIsOwn(cfg, w, input);
    LinksGrow(cfg, w0, items, n, w, log.poolOf, id, w.store.next, s);
  }

  lemma NewPoolIsOwn(cfg: Config, w: World, input: NewPool)
    requires w.store.WellFormed() && input.account == Some(cfg.account)
    ensures var w' := w.(store := Insert(w.store, input));
      OwnPool(cfg, w', w.store.next) && forall p :: OwnPool(cfg, w, p) ==> OwnPool(cfg, w', p)
  {
  }

  lemma ApplyLinks(cfg: Config, w: World, log: Log, item: Item)
    requires item.status == Importable && item.action == LinkPool && item.proposedPool.Some?
    requires item.resource in w.resources && w.resources[item.resource].id == item.resource
    ensures ApplyItem(cfg, w, log, item, NO_FAULT) ==
      (Link(w, item.resource, item.proposedPool), Linked(log, w.resources[item.resource], item.proposedPool.value))
  {
  }

  lemma ApplyCreates(cfg: Config, w: World, log: Log, item: Item)
    requires item.status == Importable && item.proposedPool.None?
    requires item.resource in w.resources && w.resources[item.resource].id == item.resource
    requires var r := w.resources[item.resource]; var parent := ParentFor(item, r, log);
      (r.kind == SUBNET && r.parentId.Some? ==> parent.Some?) && (parent.Some? ==> OwnPool(cfg, w, parent.value))
      && !CreateFails(cfg, w.store, PoolFor(cfg, r, parent), NO_FAULT)
    ensures var r := w.resources[item.resource];
      ApplyItem(cfg, w, log, item, NO_FAULT)
      == InsertAndLink(w, log, r, PoolFor(cfg, r, ParentFor(item, r, log)), NO_FAULT)
  {
  }

  lemma NextIsWell(
      cfg: Config, w0: World, look: Lookups, ids: seq<nat>, pools: seq<Pool>, items: seq<Item>, n: nat, w: World, log: Log)
    requires Prepared(cfg, w0, look, ids, pools, items) && n < |items| && AllWell(cfg, w0, items, n, w, log)
    ensures var (w', log') := ApplyItem(cfg, w, log, items[n], NO_FAULT); AllWell(cfg, w0, items, n + 1, w', log')
  {
    var item := items[n];
    ReadyIsImportable(cfg, w0, look, ids, pools, item.resource);
    assert ItemFor(ViewOf(cfg, w0, look, pools), item);
    MatchedIsProposed(cfg, w0, look, ids, pools, item);
    var r := w.resources[item.resource];
    ParentIsFine(cfg, w0, look, ids, pools, items, n, w, log);
    if item.proposedPool.Some? {
      OwnStays(cfg, w0, items, n, w, log, item.proposedPool.value);
      LinkIsWell(cfg, w0, items, n, w, log, item.resource, item.proposedPool.value);
      ApplyLinks(cfg, w, log, item);
    } else {
      var parent := ParentFor(item, r, log);
      CreateSucceeds(cfg, w0, look, ids, pools, items, n, w, log, parent);
      CreateIsWell(cfg, w0, items, n, w, log, item.resource, parent);
      ApplyCreates(cfg, w, log, item);
    }
  }

  lemma ApplyNext(cfg: Config, w0: World, items: seq<Item>, faults: seq<Faults>, n: nat)
    requires n < |items| == |faults|
    ensures var (w, log) := ApplyAll(cfg, w0, items[..n], faults[..n]);
      ApplyAll(cfg, w0, items[..n + 1], faults[..n + 1]) == ApplyItem(cfg, w, log, items[n], faults[n])
  {
    assert items[..n + 1][..n] == items[..n] && faults[..n + 1][..n] == faults[..n];
  }

  lemma NothingWrongYet(cfg: Config, w0: World, items: seq<Item>)
    requires w0.store.WellFormed()
    ensures AllWell(cfg, w0, items, 0, w0, EMPTY_LOG)
  {
  }

  /** A ready selection is linked completely when no store call fails. */
  lemma {:induction false} ReadyIsLinked(
      cfg: Config, w0: World, look: Lookups, ids: seq<nat>, pools: seq<Pool>, items: seq<Item>, faults: seq<Faults>, n: nat)
    requires Prepared(cfg, w0, look, ids, pools, items) && n <= |items| == |faults|
    requires forall i :: 0 <= i < |faults| ==> faults[i] == NO_FAULT
    ensures var (w, log) := ApplyAll(cfg, w0, items[..n], faults[..n]); AllWell(cfg, w0, items, n, w, log)
  {
    if n == 0 {
      NothingWrongYet(cfg, w0, items);
    } else {
      var m := n - 1;
      ReadyIsLinked(cfg, w0, look, ids, pools, items, faults, m);
      var (w, log) := ApplyAll(cfg, w0, items[..m], faults[..m]);
      NextIsWell(cfg, w0, look, ids, pools, items, m, w, log);
      ApplyNext(cfg, w0, items, faults, m);
    }
  }

  lemma AllReadyLinked(
      cfg: Config, w0: World, look: Lookups, ids: seq<nat>, pools: seq<Pool>, items: seq<Item>, faults: seq<Faults>)
    requires Prepared(cfg, w0, look, ids, pools, items) && |items| == |faults|
    requires forall i :: 0 <= i < |faults| ==> faults[i] == NO_FAULT
    ensures var log := ApplyAll(cfg, w0, items, faults).1;
      log.skipped == 0 && log.errors == 0 && log.resourcesLinked == |items|
  {
    ReadyIsLinked(cfg, w0, look, ids, pools, items, faults, |items|);
    assert items[..|items|] == items && faults[..|faults|] == faults;
  }

  // ---------------------------------------------------------------- which pools an import links to

  /** The pool describes the resource: address, name, kind and account, under an own live parent. */
  ghost predicate Describes(cfg: Config, s: State, p: Pool, r: Resource) {
    p.cidr == r.cidr && p.account == Some(cfg.account) && p.source == "discovered" && p.status == "active"
    && p.description == ""
    && (if r.kind == "vpc" then p.kind == "vpc" else p.kind == "subnet")
    && (if TrimSpace(r.name) == "" then p.name == r.providerId else p.name == TrimSpace(r.name))
    && (r.kind == "subnet" && r.parentId.Some? ==> p.parent.Some?)
    && (p.parent.Some? ==>
          p.parent.value in s.pools
          && (s.pools[p.parent.value].account == None || s.pools[p.parent.value].account == Some(cfg.account)))
  }

  /** The resource is linked to a pool that was there and covers exactly its addresses, or to a new one that describes it. */
  ghost predicate GoodLink(cfg: Config, w0: World, w: World, id: nat) {
    id in w0.resources && id in w.resources && w.resources[id].poolId.Some?
    && var p, r := w.resources[id].poolId.value, w0.resources[id];
       if p in w0.store.pools
       then OwnPool(cfg, w0, p) && SameBlock(cfg.parse(w0.store.pools[p].cidr), cfg.parse(r.cidr))
       else w.store.Live(p) && Describes(cfg, w.store, w.store.pools[p], r)
  }

  /** Pools that are live stay as they are. */
  ghost predicate KeepsLive(s: State, t: State) {
    forall p :: p in s.pools ==> p in t.pools && t.pools[p] == s.pools[p]
  }

  lemma GoodLinkStays(cfg: Config, w0: World, w: World, w': World, id: nat)
    requires GoodLink(cfg, w0, w, id) && KeepsLive(w.store, w'.store)
    requires id in w'.resources && w'.resources[id].poolId == w.resources[id].poolId
    ensures GoodLink(cfg, w0, w', id)
  {
  }

  lemma CreatedLinkIsGood(cfg: Config, w0: World, w: World, log: Log, id: nat, parent: Option<nat>)
    requires id in w0.resources && id in w.resources && w.resources[id].id == id
    requires OnlyLinksDiffer(w0.resources, w.resources)
    requires w.store.WellFormed() && w.store.next !in w0.store.pools
    requires w.resources[id].kind == SUBNET && w.resources[id].parentId.Some? ==> parent.Some?
    requires parent.Some? ==> w.store.Live(parent.value) && !Foreign(w.store.pools[parent.value], cfg.account)
    ensures var (w', log') := InsertAndLink(w, log, w.resources[id], PoolFor(cfg, w.resources[id], parent), NO_FAULT);
      GoodLink(cfg, w0, w', id)
  {
    var input := PoolFor(cfg, w.resources[id], parent);
    assert Insert(w.store, input).pools[w.store.next] == Fresh(w.store, input);
  }

  /** What one round does, whichever calls fail. */
  lemma ItemCases(cfg: Config, w: World, log: Log, item: Item, f: Faults)
    requires w.store.WellFormed()
    ensures var (w', log') := ApplyItem(cfg, w, log, item, f);
      KeepsLive(w.store, w'.store)
      && ((log'.linked == log.linked && w'.resources == w.resources)
          || (item.resource in w.resources && w.resources[item.resource].id == item.resource
              && log'.linked == log.linked + [item.resource]
              && ((item.proposedPool.Some? && w' == Link(w, item.resource, item.proposedPool))
                  || LinksNew(cfg, w, log, item, w'))))
  {
  }

  /** The round made a pool for the resource under an own live parent and linked to it. */
  ghost predicate LinksNew(cfg: Config, w: World, log: Log, item: Item, w': World) {
    item.resource in w.resources && w.resources[item.resource].id == item.resource
    && var r := w.resources[item.resource];
       var parent := ParentFor(item, r, log);
       (r.kind == SUBNET && r.parentId.Some? ==> parent.Some?)
       && (parent.Some? ==> w.store.Live(parent.value) && !Foreign(w.store.pools[parent.value], cfg.account))
       && w' == InsertAndLink(w, log, r, PoolFor(cfg, r, parent), NO_FAULT).0
  }

  lemma ProposedLinkIsGood(cfg: Config, w0: World, v: View, item: Item, w: World)
    requires PreviewOf(cfg, w0, v, [item]) && item.proposedPool.Some?
    requires item.resource in w.resources && item.resource in w0.resources
    ensures GoodLink(cfg, w0, Link(w, item.resource, item.proposedPool), item.resource)
  {
    assert ItemFor(v, [item][0]);
    var p :| p in v.pools && p.id == item.proposedPool.value && IsExact(v.parse, p, item.cidr, v.account);
    assert OwnPool(cfg, w0, p.id);
  }

  lemma OneItem(cfg: Config, w0: World, v: View, items: seq<Item>, i: nat)
    requires PreviewOf(cfg, w0, v, items) && i < |items|
    ensures PreviewOf(cfg, w0, v, [items[i]])
  {
  }

  lemma ItemLinkIsGood(
      cfg: Config, w0: World, v: View, items: seq<Item>, i: nat, w: World, log: Log, f: Faults, id: nat)
    requires PreviewOf(cfg, w0, v, items) && i < |items| && Logged(w0, w, log, i)
    requires OnlyLinksDiffer(w0.resources, w.resources)
    requires id in ApplyItem(cfg, w, log, items[i], f).1.linked && (id in log.linked ==> GoodLink(cfg, w0, w, id))
    ensures GoodLink(cfg, w0, ApplyItem(cfg, w, log, items[i], f).0, id)
  {
    var item := items[i];
    var (w', log') := ApplyItem(cfg, w, log, item, f);
    ItemCases(cfg, w, log, item, f);
    OneItem(cfg, w0, v, items, i);
    if log'.linked == log.linked || id != item.resource {
      GoodLinkStays(cfg, w0, w, w', id);
    } else if item.proposedPool.Some? && w' == Link(w, id, item.proposedPool) {
      ProposedLinkIsGood(cfg, w0, v, item, w);
    } else {
      CreatedLinkIsGood(cfg, w0, w, log, id, ParentFor(item, w.resources[id], log));
    }
  }

  /** Every resource an import lists as linked has a good link, whichever store calls failed. */
  lemma {:induction false} ImportLinksWell(cfg: Config, w0: World, v: View, items: seq<Item>, faults: seq<Faults>, id: nat)
    requires |faults| == |items| && PreviewOf(cfg, w0, v, items) && id in ApplyAll(cfg, w0, items, faults).1.linked
    ensures GoodLink(cfg, w0, ApplyAll(cfg, w0, items, faults).0, id)
  {
    var n := |items| - 1;
    var (w, log) := ApplyAll(cfg, w0, items[..n], faults[..n]);
    ImportLogged(cfg, w0, v, items[..n], faults[..n]);
    SameResources(cfg, w0, items[..n], faults[..n]);
    if id in log.linked {
      ImportLinksWell(cfg, w0, v, items[..n], faults[..n], id);
    }
    ItemLinkIsGood(cfg, w0, v, items, n, w, log, faults[n], id);
  }
}
