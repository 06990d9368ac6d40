/** The import endpoint of the network conflict page, over the two stores. */
module ImportServer {

  import opened Cidr
  import opened Classification
  import opened Discovery
  import opened Import
  import opened ImportApply
  import opened ImportOrder
  import opened ImportReady
  import opened PoolStore
  import opened Sorting
  import opened Text
  import opened Wrappers

  datatype ActionError =
    | ResourceNotFound(id: nat) | MixedAccounts | NoAccount | NotAllImportable | Incomplete | NotRecorded
    | RollbackFailed

  class Server {
    const store: Store
    var resources: map<nat, Resource>

    constructor (store: Store)
      ensures this.store == store && resources == map[]
    {
      this.store, resources := store, map[];
    }

    ghost function Abs(): World
      reads this, store
    {
      World(store.Abs(), resources)
    }

    function Settings(account: nat, allowBlocked: bool): Config {
      Config(store.parse, store.backend, account, allowBlocked)
    }

    method LinkResourceToPool(id: nat, pool: nat) returns (found: bool)
      modifies this
      ensures found <==> id in old(resources)
      ensures Abs() == if found then Link(old(Abs()), id, Some(pool)) else old(Abs())
    {
      if id !in resources {
        return false;
      }
      resources := resources[id := resources[id].(poolId := Some(pool))];
      found := true;
    }

    method ApplyOne(cfg: Config, log: Log, item: Item, f: Faults) returns (log': Log)
      requires cfg.parse == store.parse && cfg.backend == store.backend
      modifies this, store
      ensures (Abs(), log') == ApplyItem(cfg, old(Abs()), log, item, f)
    {
      if !Processed(cfg, item) {
        return Skip(log, 0);
      }
      if f.load || item.resource !in resources || resources[item.resource].id != item.resource {
        return Skip(log, 1);
      }
      var res := resources[item.resource];
      if item.proposedPool.Some? && (item.action == LinkPool || cfg.allowBlocked) {
        if f.link {
          return Skip(log, 1);
        }
        var found := LinkResourceToPool(res.id, item.proposedPool.value);
        return Linked(log, res, item.proposedPool.value);
      }
      var parent := ParentFor(item, res, log);
      if parent.None? && res.kind == SUBNET && res.parentId.Some? {
        return Skip(log, 1);
      }
      if parent.Some? {
        var p := store.GetPool(parent.value);
        if f.check || p.None? || Foreign(p.value, cfg.account) {
          return Skip(log, 1);
        }
      }
      log' := CreateAndLink(cfg, log, res, PoolFor(cfg, res, parent), f);
    }

    method CreateAndLink(cfg: Config, log: Log, res: Resource, input: NewPool, f: Faults) returns (log': Log)
      requires cfg.parse == store.parse && cfg.backend == store.backend && res.id in resources
      modifies this, store
      ensures (Abs(), log') ==
        if CreateFails(cfg, old(store.Abs()), input, f) then (old(Abs()), Skip(log, 1))
        else InsertAndLink(old(Abs()), log, res, input, f)
    {
      if f.create {
        return Skip(log, 1);
      }
      var created := store.CreatePool(input);
      if created.Err? {
        return Skip(log, 1);
      }
      var id := created.value.id;
      if !f.link {
        var found := LinkResourceToPool(res.id, id);
        return Linked(log.(created := log.created + [id], poolsCreated := log.poolsCreated + 1), res, id);
      }
      if !f.cleanup {
        var cleaned := store.DeletePool(id);
        if cleaned == Ok(true) {
          return Skip(log, 1);
        }
      }
      return Skip(log.(created := log.created + [id]), 2);
    }

    /** `applyDiscoveryImport` after its preview. */
    method ApplyImport(cfg: Config, items: seq<Item>, faults: seq<Faults>) returns (log: Log)
      requires cfg.parse == store.parse && cfg.backend == store.backend && |faults| == |items|
      modifies this, store
      ensures (Abs(), log) == ApplyAll(cfg, old(Abs()), items, faults)
    {
      log := EMPTY_LOG;
      for i := 0 to |items|
        invariant (Abs(), log) == ApplyAll(cfg, old(Abs()), items[..i], faults[..i])
      {
        assert items[..i + 1][..i] == items[..i] && faults[..i + 1][..i] == faults[..i];
        log := ApplyOne(cfg, log, items[i], faults[i]);
      }
      assert items[..|items|] == items && faults[..|items|] == faults;
    }

    method UnlinkListed(ids: seq<nat>, fails: set<nat>) returns (errors: nat)
      modifies this
      ensures resources == UnlinkAll(old(resources), ids, fails)
      ensures errors == 0 <==> forall id :: id in ids ==> id in old(resources) && id !in fails
    {
      errors := 0;
      for i := 0 to |ids|
        invariant resources == UnlinkAll(old(resources), ids[..i], fails)
        invariant errors == 0 <==> forall id :: id in ids[..i] ==> id in old(resources) && id !in fails
      {
        assert ids[..i + 1][..i] == ids[..i];
        assert forall id :: id in ids[..i + 1] <==> id in ids[..i] || id == ids[i];
        if ids[i] in resources && ids[i] !in fails {
          resources := resources[ids[i] := resources[ids[i]].(poolId := None)];
        } else {
          errors := errors + 1;
        }
      }
      assert ids[..|ids|] == ids;
    }

    method DeleteListed(created: seq<nat>, fails: set<nat>) returns (errors: nat)
      modifies store
      ensures store.Abs() == DeleteBackwards(old(store.Abs()), created, fails)
      ensures LeavesOnly(old(store.Abs()), created) ==> (errors == 0 <==> forall id :: id in created ==> id !in fails)
    {
      errors := 0;
      var i := |created|;
      assert created[..i] == created;
      while i > 0
        invariant 0 <= i <= |created|
        invariant DeleteBackwards(store.Abs(), created[..i], fails) == DeleteBackwards(old(store.Abs()), created, fails)
        invariant errors == 0 ==> forall k :: i <= k < |created| ==> created[k] !in fails
        invariant LeavesOnly(old(store.Abs()), created) && (forall k :: i <= k < |created| ==> created[k] !in fails) ==>
          LeavesOnly(store.Abs(), created[..i]) && errors == 0
      {
        i := i - 1;
        assert created[..i + 1][..i] == created[..i];
        if created[i] in fails {
          errors := errors + 1;
        } else {
          var ok := store.DeletePool(created[i]);
          if ok != Ok(true) {
            errors := errors + 1;
          }
        }
      }
    }

    /** `rollbackNetworkConflictImport`; counts the calls that failed. */
    method RollbackImport(log: Log, f: RollbackFaults) returns (errors: nat)
      modifies this, store
      ensures Abs() == Rollback(old(Abs()), log, f)
      ensures LeavesOnly(old(store.Abs()), log.created) && (forall id :: id in log.linked ==> id in old(resources))
              ==> (errors == 0 <==> !Hits(f, log))
    {
      var unlinkErrors := UnlinkListed(log.linked, f.unlink);
      var deleteErrors := DeleteListed(log.created, f.delete);
      errors := unlinkErrors + deleteErrors;
    }

    /** `importActionAccountID`: the account all selected resources belong to. */
    method ImportAccount(ids: seq<nat>, fallback: nat) returns (r: Result<nat, ActionError>)
      requires ValidResources(resources)
      ensures r.Ok? ==> r.value >= 1 && forall i :: 0 <= i < |ids| ==> ids[i] in resources && resources[ids[i]].account == r.value
      ensures r.Err? ==> r.error != RollbackFailed
      ensures r.Err? ==>
        ids == []
        || (exists i :: 0 <= i < |ids| && ids[i] !in resources)
        || (exists i, j :: 0 <= i < j < |ids| && ids[i] in resources && ids[j] in resources
                           && resources[ids[i]].account != resources[ids[j]].account)
    {
      var account := 0;
      for i := 0 to |ids|
        invariant account == 0 <==> i == 0
        invariant forall k :: 0 <= k < i ==> ids[k] in resources && resources[ids[k]].account == account
      {
        if ids[i] !in resources {
          return Err(ResourceNotFound(ids[i]));
        }
        var res := resources[ids[i]];
        if account == 0 {
          account := res.account;
        } else if account != res.account {
          assert resources[ids[0]].account != resources[ids[i]].account;
          return Err(MixedAccounts);
        }
      }
      if account == 0 {
        account := fallback;
      }
      if account < 1 {
        return Err(NoAccount);
      }
      return Ok(account);
    }

    /** The import action: everything selected is linked, or nothing has changed, or the rollback failed
        because one of its calls did. */
    method ImportAction(ids: seq<nat>, fallback: nat, override: bool, lookups: Lookups, faults: seq<Faults>,
                        recorded: bool, rollback: RollbackFaults) returns (r: Result<Log, ActionError>)
      requires |faults| == |ids| > 0 && ValidResources(resources) && store.Abs().WellFormed()
      modifies this, store
      ensures r.Err? ==> (Restored(old(Abs()), Abs()) <==> r.error != RollbackFailed)
      ensures r.Err? && r.error == RollbackFailed ==> rollback != NO_FAULTS
      ensures r.Ok? ==> recorded && forall id :: id in ids ==>
        NowLinked(old(Abs()), Abs(), id)
        && exists account ::
             old(Abs()).resources[id].account == account
             && var cfg := Config(store.parse, store.backend, account, override);
                GoodLink(cfg, old(Abs()), Abs(), id) && Eligible(cfg, old(Abs()).resources[id])
      ensures (recorded && (forall i :: 0 <= i < |faults| ==> faults[i] == NO_FAULT)
               && exists account :: Ready(Config(store.parse, store.backend, account, override), old(Abs()), lookups, ids))
              ==> r.Ok?
    {
      ghost var w0 := Abs();
      ghost var wanted := exists a :: Ready(Config(store.parse, store.backend, a, override), w0, lookups, ids);
      if wanted {
        var a: nat :| Ready(Config(store.parse, store.backend, a, override), w0, lookups, ids);
        ReadySelection(Config(store.parse, store.backend, a, override), w0, lookups, ids);
      }
      var account := ImportAccount(ids, fallback);
      if account.Err? {
        return Err(account.error);
      }
      assert ids[0] in ids;
      r := ImportFor(Settings(account.value, override), ids, lookups, faults, recorded, rollback);
    }

    /** The import for the account of all selected resources. */
    method ImportFor(cfg: Config, ids: seq<nat>, lookups: Lookups, faults: seq<Faults>, recorded: bool,
                     rollback: RollbackFaults) returns (r: Result<Log, ActionError>)
      requires |faults| == |ids| > 0 && ValidResources(resources) && store.Abs().WellFormed()
      requires cfg.parse == store.parse && cfg.backend == store.backend
      requires forall id :: id in ids ==> id in resources && resources[id].account == cfg.account
      modifies this, store
      ensures r.Err? ==> (Restored(old(Abs()), Abs()) <==> r.error != RollbackFailed)
      ensures r.Err? && r.error == RollbackFailed ==> rollback != NO_FAULTS
      ensures r.Ok? ==> recorded && AllNowLinked(cfg, old(Abs()), Abs(), ids) && AllGoodLinks(cfg, old(Abs()), Abs(), ids)
      ensures (recorded && (forall i :: 0 <= i < |faults| ==> faults[i] == NO_FAULT) && Ready(cfg, old(Abs()), lookups, ids))
              ==> r.Ok?
    {
      var pools := store.ListPools();
      var v := View(cfg.parse, pools, resources, cfg.account, lookups.byProvider, lookups.selected,
                    lookups.selectedPool, lookups.duplicated);
      var items, counters := Preview(v, ids);
      ghost var w0 := Abs();
      if Ready(cfg, w0, lookups, ids) {
        ReadyCounts(cfg, w0, lookups, ids, pools, items);
      }
      if !cfg.allowBlocked && counters.importable != |ids| {
        return Err(NotAllImportable);
      }
      r := ApplySelection(cfg, ids, lookups, pools, items, faults, recorded, rollback);
    }

    /** Applies what the preview shows, in order. */
    method ApplySelection(cfg: Config, ids: seq<nat>, ghost lookups: Lookups, ghost pools: seq<Pool>, items: seq<Item>,
                          faults: seq<Faults>, recorded: bool, rollback: RollbackFaults)
      returns (r: Result<Log, ActionError>)
      requires ImportReady.ListsPools(Abs(), pools) && |items| == |ids| == |faults| > 0
      requires PreviewOf(cfg, Abs(), ViewOf(cfg, Abs(), lookups, pools), items)
      requires forall i :: 0 <= i < |ids| ==> items[i].resource == ids[i]
      requires cfg.parse == store.parse && cfg.backend == store.backend
      requires forall id :: id in ids ==> id in resources && resources[id].account == cfg.account
      modifies this, store
      ensures r.Err? ==> (Restored(old(Abs()), Abs()) <==> r.error != RollbackFailed)
      ensures r.Err? && r.error == RollbackFailed ==> rollback != NO_FAULTS
      ensures r.Ok? ==> recorded && AllNowLinked(cfg, old(Abs()), Abs(), ids) && AllGoodLinks(cfg, old(Abs()), Abs(), ids)
      ensures (recorded && (forall i :: 0 <= i < |faults| ==> faults[i] == NO_FAULT) && Ready(cfg, old(Abs()), lookups, ids))
              ==> r.Ok?
    {
      ghost var w0 := Abs();
      var sorted := StableSort(items, ItemLess);
      SelectionFacts(cfg, w0, lookups, ids, pools, items, sorted, faults, rollback);
      ghost var smooth := Ready(cfg, w0, lookups, ids) && forall i :: 0 <= i < |faults| ==> faults[i] == NO_FAULT;
      if smooth {
        ReadyCompletes(cfg, w0, lookups, ids, pools, items, sorted, faults);
      }
      var log := ApplyImport(cfg, sorted, faults);
      r := Finish(cfg, w0, ids, smooth, log, recorded, rollback);
    }

    method Finish(cfg: Config, ghost w0: World, ghost ids: seq<nat>, ghost smooth: bool, log: Log, recorded: bool,
                  rollback: RollbackFaults)
      returns (r: Result<Log, ActionError>)
      requires Settled(cfg, w0, Abs(), log, ids, rollback)
      requires smooth ==> log.skipped == 0 && log.errors == 0 && log.resourcesLinked > 0
      modifies this, store
      ensures r.Err? ==> (Restored(w0, Abs()) <==> r.error != RollbackFailed)
      ensures r.Err? && r.error == RollbackFailed ==> rollback != NO_FAULTS
      ensures r.Ok? ==> recorded && AllNowLinked(cfg, w0, Abs(), ids) && AllGoodLinks(cfg, w0, Abs(), ids)
      ensures recorded && smooth ==> r.Ok?
    {
      r := Conclude(log, recorded, rollback);
    }

    /** Keeps a complete and recorded import, and rolls any other back. */
    method Conclude(log: Log, recorded: bool, rollback: RollbackFaults) returns (r: Result<Log, ActionError>)
      modifies this, store
      ensures r.Ok? <==> recorded && log.skipped == 0 && log.errors == 0 && log.poolsCreated + log.resourcesLinked > 0
      ensures r.Ok? ==> Abs() == old(Abs()) && r.value == log
      ensures r.Err? && r.error == NotRecorded ==> !recorded
      ensures r.Err? && r.error == Incomplete ==>
        log.skipped > 0 || log.errors > 0 || log.poolsCreated + log.resourcesLinked == 0
      ensures r.Err? ==> Abs() == Rollback(old(Abs()), log, rollback)
      ensures LeavesOnly(old(store.Abs()), log.created) && (forall id :: id in log.linked ==> id in old(resources))
              ==> (r.Err? ==> (r.error == RollbackFailed <==> Hits(rollback, log)))
    {
      var complete := log.poolsCreated + log.resourcesLinked > 0 && log.skipped == 0 && log.errors == 0;
      if complete && recorded {
        return Ok(log);
      }
      var errors := RollbackImport(log, rollback);
      if errors > 0 {
        return Err(RollbackFailed);
      }
      r := Err(if complete then NotRecorded else Incomplete);
    }
  }

  ghost predicate NowLinked(w0: World, w: World, id: nat) {
    id in w0.resources && w0.resources[id].poolId.None?
    && id in w.resources && w.resources[id].poolId.Some? && w.store.Live(w.resources[id].poolId.value)
  }

  ghost predicate AllNowLinked(cfg: Config, w0: World, w: World, ids: seq<nat>) {
    forall id :: id in ids ==> NowLinked(w0, w, id) && Eligible(cfg, w0.resources[id])
  }

  ghost predicate AllGoodLinks(cfg: Config, w0: World, w: World, ids: seq<nat>) {
    forall id :: id in ids ==> GoodLink(cfg, w0, w, id)
  }

  /** The sorted items are about the selected ids, all of them and no others. */
  ghost predicate Selects(items: seq<Item>, ids: seq<nat>) {
    (forall i :: 0 <= i < |items| ==> items[i].resource in ids)
    && forall id :: id in ids ==> exists i :: 0 <= i < |items| && items[i].resource == id
  }

  lemma SortedSelects(ids: seq<nat>, items: seq<Item>, sorted: seq<Item>)
    requires |items| == |ids| && forall i :: 0 <= i < |ids| ==> items[i].resource == ids[i]
    requires multiset(sorted) == multiset(items)
    ensures Selects(sorted, ids)
  {
    SameElements(items, sorted);
    forall i | 0 <= i < |sorted|
      ensures sorted[i].resource in ids
    {
      assert sorted[i] in items;
      var k :| 0 <= k < |items| && items[k] == sorted[i];
      assert items[k].resource == ids[k];
    }
    forall id | id in ids
      ensures exists i :: 0 <= i < |sorted| && sorted[i].resource == id
    {
      var k :| 0 <= k < |ids| && ids[k] == id;
      assert items[k] in sorted;
    }
  }

  /** For one account: rollback undoes the import iff none of its calls fails, and an import that skips nothing
      links everything. */
  lemma ActionFacts(
      cfg: Config, w0: World, v: View, ids: seq<nat>, items: seq<Item>, faults: seq<Faults>, f: RollbackFaults)
    requires PreviewOf(cfg, w0, v, items) && |faults| == |items| && Selects(items, ids)
    requires forall id :: id in ids ==> id in w0.resources && w0.resources[id].account == cfg.account
    ensures var (w, log) := ApplyAll(cfg, w0, items, faults);
      LeavesOnly(w.store, log.created) && (forall id :: id in log.linked ==> id in w.resources)
      && (Restored(w0, Rollback(w, log, f)) <==> !Hits(f, log))
      && (log.skipped == 0 ==> AllNowLinked(cfg, w0, w, ids))
  {
    var (w, log) := ApplyAll(cfg, w0, items, faults);
    ImportThenRollback(cfg, w0, v, items, faults, f);
    ImportLogged(cfg, w0, v, items, faults);
    RollbackRestoresIff(w0, w, log, |items|, NO_FAULTS);
    if log.skipped == 0 {
      ImportLinksOnlyUnlinked(cfg, w0, v, items, faults);
      ImportLinksOnlyEligible(cfg, w0, v, items, faults);
      AllLinkedWhenNoneSkipped(cfg, w0, items, faults);
      forall id | id in ids
        ensures NowLinked(w0, w, id) && Eligible(cfg, w0.resources[id])
      {
        assert id in log.linked;
      }
    }
  }

  lemma SortedPreview(cfg: Config, w: World, v: View, items: seq<Item>, sorted: seq<Item>)
    requires PreviewOf(cfg, w, v, items) && multiset(sorted) == multiset(items)
    ensures PreviewOf(cfg, w, v, sorted)
  {
    SameElements(items, sorted);
    forall i | 0 <= i < |sorted|
      ensures ItemFor(v, sorted[i])
    {
      assert sorted[i] in items;
    }
  }

  /** An item that is not skipped ends up in the list of linked resources. */
  lemma {:induction false} AllLinkedWhenNoneSkipped(cfg: Config, w: World, items: seq<Item>, faults: seq<Faults>)
    requires |faults| == |items| && ApplyAll(cfg, w, items, faults).1.skipped == 0
    ensures forall i :: 0 <= i < |items| ==> items[i].resource in ApplyAll(cfg, w, items, faults).1.linked
  {
    if items != [] {
      var n := |items| - 1;
      var (w', log) := ApplyAll(cfg, w, items[..n], faults[..n]);
      LinkedOrSkipped(cfg, w', log, items[n], faults[n]);
      AllLinkedWhenNoneSkipped(cfg, w, items[..n], faults[..n]);
      forall i | 0 <= i < |items|
        ensures items[i].resource in ApplyAll(cfg, w, items, faults).1.linked
      {
        assert i < n ==> items[..n][i] == items[i];
      }
    }
  }

  lemma LinkedOrSkipped(cfg: Config, w: World, log: Log, item: Item, f: Faults)
    ensures var (w', log') := ApplyItem(cfg, w, log, item, f);
      (log'.skipped == log.skipped + 1 && log'.linked == log.linked)
      || (log'.skipped == log.skipped && log'.linked == log.linked + [item.resource])
  {
  }

  /** A complete import gives every selected resource a good link. */
  lemma ActionLinks(cfg: Config, w0: World, v: View, ids: seq<nat>, items: seq<Item>, faults: seq<Faults>)
    requires PreviewOf(cfg, w0, v, items) && |faults| == |items| && Selects(items, ids)
    ensures var (w, log) := ApplyAll(cfg, w0, items, faults);
      log.skipped == 0 ==> AllGoodLinks(cfg, w0, w, ids)
  {
    var (w, log) := ApplyAll(cfg, w0, items, faults);
    if log.skipped == 0 {
      AllLinkedWhenNoneSkipped(cfg, w0, items, faults);
      forall id | id in ids
        ensures GoodLink(cfg, w0, w, id)
      {
        var i :| 0 <= i < |items| && items[i].resource == id;
        ImportLinksWell(cfg, w0, v, items, faults, id);
      }
    }
  }

  lemma {:induction false} AllCounted(items: seq<Item>)
    requires forall i :: 0 <= i < |items| ==> items[i].status == Importable
    ensures CountStatus(items, Importable) == |items|
  {
    if items != [] {
      AllCounted(items[..|items| - 1]);
    }
  }

  /** The preview of a ready selection counts every item as importable. */
  lemma ReadyCounts(cfg: Config, w: World, look: Lookups, ids: seq<nat>, pools: seq<Pool>, items: seq<Item>)
    requires Ready(cfg, w, look, ids) && w.store.WellFormed() && ImportReady.ListsPools(w, pools)
    requires |items| == |ids|
    requires forall i :: 0 <= i < |ids| ==> items[i].resource == ids[i] && ItemFor(ViewOf(cfg, w, look, pools), items[i])
    ensures CountStatus(items, Importable) == |ids|
  {
    forall i | 0 <= i < |items|
      ensures items[i].status == Importable
    {
      assert ids[i] in ids;
      ReadyIsImportable(cfg, w, look, ids, pools, ids[i]);
    }
    AllCounted(items);
  }

  lemma ReadySelection(cfg: Config, w: World, look: Lookups, ids: seq<nat>)
    requires Ready(cfg, w, look, ids)
    ensures forall i :: 0 <= i < |ids| ==> ids[i] in w.resources && w.resources[ids[i]].account == cfg.account
  {
    forall i | 0 <= i < |ids|
      ensures ids[i] in w.resources && w.resources[ids[i]].account == cfg.account
    {
      assert ReadyOne(cfg, w, look, ids, ids[i]);
    }
  }

  lemma SortedDistinct(ids: seq<nat>, items: seq<Item>, sorted: seq<Item>)
    requires |items| == |ids| && forall i :: 0 <= i < |ids| ==> items[i].resource == ids[i]
    requires Distinct(ids) && multiset(sorted) == multiset(items)
    ensures forall i, j :: 0 <= i < j < |sorted| ==> sorted[i].resource != sorted[j].resource
  {
    assert Distinct(items);
    DistinctRearranged(items, sorted);
    SameElements(items, sorted);
    forall i, j | 0 <= i < j < |sorted|
      ensures sorted[i].resource != sorted[j].resource
    {
      assert sorted[i] in items && sorted[j] in items;
      var a :| 0 <= a < |items| && items[a] == sorted[i];
      var b :| 0 <= b < |items| && items[b] == sorted[j];
      assert a != b;
      assert ids[a] != ids[b];
    }
  }

  /** Sorting keeps what the items are about. */
  lemma SortedItems(
      cfg: Config, w0: World, look: Lookups, ids: seq<nat>, pools: seq<Pool>, items: seq<Item>, sorted: seq<Item>)
    requires PreviewOf(cfg, w0, ViewOf(cfg, w0, look, pools), items) && |items| == |ids|
    requires forall i :: 0 <= i < |ids| ==> items[i].resource == ids[i]
    requires sorted == StableSort(items, ItemLess)
    ensures PreviewOf(cfg, w0, ViewOf(cfg, w0, look, pools), sorted) && |sorted| == |ids| && Selects(sorted, ids)
  {
    SortedPreview(cfg, w0, ViewOf(cfg, w0, look, pools), items, sorted);
    SortedSelects(ids, items, sorted);
  }

  /** Rollback would undo the import unless one of its calls fails, and skipping nothing means linking everything well. */
  ghost predicate Settled(cfg: Config, w0: World, w: World, log: Log, ids: seq<nat>, f: RollbackFaults) {
    LeavesOnly(w.store, log.created) && (forall id :: id in log.linked ==> id in w.resources)
    && (Restored(w0, Rollback(w, log, f)) <==> !Hits(f, log))
    && (log.skipped == 0 ==> AllNowLinked(cfg, w0, w, ids) && AllGoodLinks(cfg, w0, w, ids))
  }

  lemma SelectionFacts(
      cfg: Config, w0: World, look: Lookups, ids: seq<nat>, pools: seq<Pool>, items: seq<Item>, sorted: seq<Item>,
      faults: seq<Faults>, f: RollbackFaults)
    requires PreviewOf(cfg, w0, ViewOf(cfg, w0, look, pools), items) && |items| == |ids| == |faults|
    requires forall i :: 0 <= i < |ids| ==> items[i].resource == ids[i]
    requires sorted == StableSort(items, ItemLess)
    requires forall id :: id in ids ==> id in w0.resources && w0.resources[id].account == cfg.account
    ensures |sorted| == |ids|
    ensures var (w, log) := ApplyAll(cfg, w0, sorted, faults); Settled(cfg, w0, w, log, ids, f)
  {
    SortedItems(cfg, w0, look, ids, pools, items, sorted);
    ActionFacts(cfg, w0, ViewOf(cfg, w0, look, pools), ids, sorted, faults, f);
    ActionLinks(cfg, w0, ViewOf(cfg, w0, look, pools), ids, sorted, faults);
  }

  /** No call fails while a ready selection is applied, so nothing is skipped. */
  lemma ReadyCompletes(
      cfg: Config, w0: World, look: Lookups, ids: seq<nat>, pools: seq<Pool>, items: seq<Item>, sorted: seq<Item>,
      faults: seq<Faults>)
    requires Ready(cfg, w0, look, ids) && ImportReady.ListsPools(w0, pools) && |items| == |ids| == |faults| > 0
    requires PreviewOf(cfg, w0, ViewOf(cfg, w0, look, pools), items)
    requires forall i :: 0 <= i < |ids| ==> items[i].resource == ids[i]
    requires sorted == StableSort(items, ItemLess) && |sorted| == |ids|
    requires forall i :: 0 <= i < |faults| ==> faults[i] == NO_FAULT
    ensures var log := ApplyAll(cfg, w0, sorted, faults).1;
      log.skipped == 0 && log.errors == 0 && log.resourcesLinked > 0
  {
    ReadyIsPrepared(cfg, w0, look, ids, pools, items, sorted);
    AllReadyLinked(cfg, w0, look, ids, pools, sorted, faults);
  }

  lemma ReadyIsPrepared(
      cfg: Config, w: World, look: Lookups, ids: seq<nat>, pools: seq<Pool>, items: seq<Item>, sorted: seq<Item>)
    requires Ready(cfg, w, look, ids) && ImportReady.ListsPools(w, pools) && |items| == |ids|
    requires PreviewOf(cfg, w, ViewOf(cfg, w, look, pools), items)
    requires forall i :: 0 <= i < |ids| ==> items[i].resource == ids[i]
    requires sorted == StableSort(items, ItemLess)
    ensures Prepared(cfg, w, look, ids, pools, sorted)
  {
    SortPutsVpcsFirst(items);
    SortedPreview(cfg, w, ViewOf(cfg, w, look, pools), items, sorted);
    SortedSelects(ids, items, sorted);
    SortedDistinct(ids, items, sorted);
  }
}
