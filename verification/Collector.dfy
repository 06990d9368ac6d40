/** The store of discovered resources, paged reads of it, and a sync run. */
module Collector {

  import opened Discovery
  import opened Paging
  import opened Sorting
  import opened Wrappers

  /** The nil UUID of a resource without an id. */
  const NIL: nat := 0

  /** Resources by id; `next` stands for the ids `uuid.New` has not given out. */
  datatype DState = DState(resources: map<nat, Resource>, next: nat) {
    predicate WellFormed() {
      next > 0
      && (forall id :: id in resources ==> resources[id].id == id && 0 < id < next)
      && forall i, j :: i in resources && j in resources && SameObject(resources[i], resources[j]) ==> i == j
    }
  }

  /** The pair that identifies a cloud object across runs. */
  predicate SameObject(r: Resource, s: Resource) {
    r.account == s.account && r.providerId == s.providerId
  }

  type Filter = Resource -> bool

  const EVERY: Filter := r => true

  predicate Keeps(keep: Filter, r: Resource) {
    keep(r)
  }

  ghost function Matching(s: DState, account: nat, keep: Filter): set<Resource> {
    set id | id in s.resources && s.resources[id].account == account && Keeps(keep, s.resources[id]) :: s.resources[id]
  }

  // ---------------------------------------------------------------- writing

  /** A stored resource keeps its id, and its link and first-seen time when the new data has none. */
  function Refreshed(was: Resource, res: Resource): Resource {
    res.(id := was.id,
         poolId := if res.poolId.None? then was.poolId else res.poolId,
         discoveredAt := if res.discoveredAt == 0 then was.discoveredAt else res.discoveredAt)
  }

  ghost predicate Known(s: DState, res: Resource) {
    exists id :: id in s.resources && SameObject(s.resources[id], res)
  }

  ghost function Upsert(s: DState, res: Resource): (r: DState)
    requires s.WellFormed()
    ensures r.WellFormed()
  {
    if Known(s, res) then
      var id :| id in s.resources && SameObject(s.resources[id], res);
      s.(resources := s.resources[id := Refreshed(s.resources[id], res)])
    else
      var id := if res.id == NIL then s.next else res.id;
      DState(s.resources[id := res.(id := id)], if s.next <= id then id + 1 else s.next)
  }

  /** The store after the first `n` upserts of a batch. */
  ghost function After(s: DState, batch: seq<Resource>, n: nat): (r: DState)
    requires s.WellFormed() && n <= |batch|
    ensures r.WellFormed()
  {
    if n == 0 then s else Upsert(After(s, batch, n - 1), batch[n - 1])
  }

  ghost function Upserts(s: DState, batch: seq<Resource>): DState
    requires s.WellFormed()
  {
    After(s, batch, |batch|)
  }

  /** Resources of the account last seen before `before` stop being active; nothing else changes. */
  ghost predicate AgedFrom(s: DState, t: DState, account: nat, before: int) {
    AgedSoFar(s, t, account, before, {})
  }

  /** The same, with the resources in `todo` still as they were. */
  ghost predicate AgedSoFar(s: DState, t: DState, account: nat, before: int, todo: set<nat>) {
    t.next == s.next && t.resources.Keys == s.resources.Keys
    && forall id :: id in s.resources ==>
         var r := s.resources[id];
         t.resources[id] == if id !in todo && r.account == account && r.lastSeen < before then r.(active := false) else r
  }

  /** The resources that were active and are not any more. */
  ghost function Stopped(s: DState, t: DState): set<nat> {
    set id | id in s.resources && s.resources[id].active && !(id in t.resources && t.resources[id].active)
  }

  // ---------------------------------------------------------------- the store

  /** Some paged read does not show the object. */
  ghost predicate Overlooked(rs: set<Resource>, providerId: string) {
    exists out :: IsPagedRead(rs, PAGE_SIZE, out) && Lacks(out, providerId)
  }

  ghost predicate Lacks(out: seq<Resource>, providerId: string) {
    forall r :: r in out ==> r.providerId != providerId
  }

  /** A page of some listing. */
  ghost predicate IsPage(rs: set<Resource>, page: nat, pageSize: nat, out: seq<Resource>) {
    exists o :: IsListing(rs, o) && out == Slice(o, page, pageSize)
  }

  method CutAt(sorted: seq<Resource>, start: nat, pageSize: nat) returns (rs: seq<Resource>)
    ensures rs == Cut(sorted, start, pageSize)
  {
    if start > |sorted| {
      return [];
    }
    var end := start + pageSize;
    if end > |sorted| {
      end := |sorted|;
    }
    rs := sorted[start..end];
  }

  method FindOnPage(rs: seq<Resource>, providerId: string) returns (i: nat)
    ensures i <= |rs| && Lacks(rs[..i], providerId)
    ensures i < |rs| ==> rs[i].providerId == providerId
  {
    i := 0;
    while i < |rs| && rs[i].providerId != providerId
      invariant i <= |rs| && Lacks(rs[..i], providerId)
    {
      i := i + 1;
    }
  }

  class DiscoveryStore {
    var resources: map<nat, Resource>
    var next: nat

    ghost function State(): DState
      reads this
    {
      DState(resources, next)
    }

    /** The matching resources in the order of a Go map: any order. */
    method Select(account: nat, keep: Filter) returns (filtered: seq<Resource>)
      requires State().WellFormed()
      ensures Distinct(filtered) && forall r :: r in filtered <==> r in Matching(State(), account, keep)
    {
      filtered := [];
      var todo := resources.Keys;
      while todo != {}
        invariant todo <= resources.Keys
        invariant Distinct(filtered)
        invariant forall r :: r in filtered <==> r in Matching(State(), account, keep) && r.id !in todo
      {
        var id :| id in todo;
        todo := todo - {id};
        if resources[id].account == account && Keeps(keep, resources[id]) {
          filtered := filtered + [resources[id]];
        }
      }
    }

    /** One page of the resources of an account, numbered from 0. */
    method ListDiscoveredResources(account: nat, keep: Filter, page: nat, pageSize: nat)
      returns (rs: seq<Resource>, total: nat)
      requires State().WellFormed()
      ensures IsPage(Matching(State(), account, keep), page, pageSize, rs)
      ensures total == |Matching(State(), account, keep)|
    {
      var filtered := Select(account, keep);
      SortedIsListing(filtered, Matching(State(), account, keep));
      var sorted := StableSort(filtered, Newer);
      total := |sorted|;
      rs := CutAt(sorted, page * pageSize, pageSize);
    }

    /** Pages until the count reaches the reported total. */
    method ListAll(account: nat, keep: Filter) returns (out: seq<Resource>)
      requires State().WellFormed()
      ensures IsPagedRead(Matching(State(), account, keep), PAGE_SIZE, out)
    {
      out := [];
      var page := 0;
      ghost var rs := Matching(State(), account, keep);
      ghost var orders: seq<seq<Resource>> := [];
      while true
        invariant |orders| == page && page * PAGE_SIZE <= |rs|
        invariant forall i :: 0 <= i < |orders| ==> IsListing(rs, orders[i])
        invariant out == Paged(orders, PAGE_SIZE)
        decreases |rs| - page * PAGE_SIZE
      {
        var some, total := ListDiscoveredResources(account, keep, page, PAGE_SIZE);
        ghost var o :| IsListing(rs, o) && some == Slice(o, page, PAGE_SIZE);
        DistinctSize(o, rs);
        assert (orders + [o])[..page] == orders;
        orders := orders + [o];
        out := out + some;
        page := page + 1;
        PagedLength(rs, orders, PAGE_SIZE);
        if |some| == 0 || |out| >= total {
          assert IsSchedule(rs, orders, PAGE_SIZE);
          return;
        }
      }
    }

    /** Pages until the object turns up or the pages end. */
    method FindByProviderId(account: nat, providerId: string) returns (found: Option<Resource>)
      requires State().WellFormed()
      ensures found.Some? ==> found.value in Matching(State(), account, EVERY) && found.value.providerId == providerId
      ensures found.None? ==> Overlooked(Matching(State(), account, EVERY), providerId)
    {
      var keep := EVERY;
      var page := 0;
      ghost var rs := Matching(State(), account, keep);
      ghost var orders: seq<seq<Resource>> := [];
      while true
        invariant |orders| == page && page * PAGE_SIZE <= |rs|
        invariant forall i :: 0 <= i < |orders| ==> IsListing(rs, orders[i])
        invariant Lacks(Paged(orders, PAGE_SIZE), providerId)
        decreases |rs| - page * PAGE_SIZE
      {
        var some, total := ListDiscoveredResources(account, keep, page, PAGE_SIZE);
        ghost var o :| IsListing(rs, o) && some == Slice(o, page, PAGE_SIZE);
        DistinctSize(o, rs);
        assert (orders + [o])[..page] == orders;
        orders := orders + [o];
        PagedOnlyListed(rs, orders, PAGE_SIZE);
        var i := FindOnPage(some, providerId);
        if i < |some| {
          assert some[i] in Paged(orders, PAGE_SIZE);
          return Some(some[i]);
        }
        page := page + 1;
        if |some| == 0 || page * PAGE_SIZE >= total {
          assert IsSchedule(rs, orders, PAGE_SIZE);
          assert IsPagedRead(rs, PAGE_SIZE, Paged(orders, PAGE_SIZE));
          return None;
        }
      }
    }

    method FindSame(res: Resource) returns (found: Option<nat>)
      ensures found.Some? ==> found.value in resources && SameObject(resources[found.value], res)
      ensures found.None? ==> !Known(State(), res)
    {
      var todo := resources.Keys;
      while todo != {}
        invariant todo <= resources.Keys
        invariant forall id :: id in resources && id !in todo ==> !SameObject(resources[id], res)
      {
        var id :| id in todo;
        todo := todo - {id};
        if SameObject(resources[id], res) {
          return Some(id);
        }
      }
      found := None;
    }

    method UpsertDiscoveredResource(res: Resource)
      requires State().WellFormed()
      modifies this
      ensures State().WellFormed() && State() == Upsert(old(State()), res)
    {
      var found := FindSame(res);
      if found.Some? {
        resources := resources[found.value := Refreshed(resources[found.value], res)];
      } else {
        var id := if res.id == NIL then next else res.id;
        resources := resources[id := res.(id := id)];
        if next <= id {
          next := id + 1;
        }
      }
    }

    method MarkStaleResources(account: nat, before: int) returns (count: nat)
      modifies this
      ensures AgedFrom(old(State()), State(), account, before)
      ensures count == |Stopped(old(State()), State())|
    {
      count := 0;
      var todo := resources.Keys;
      ghost var was := State();
      ghost var gone: set<nat> := {};
      while todo != {}
        invariant todo <= was.resources.Keys
        invariant AgedSoFar(was, State(), account, before, todo)
        invariant count == |gone|
        invariant forall id :: id in gone ==> id in was.resources && id !in todo
        invariant forall id :: id in was.resources && id !in todo ==>
                    (id in gone <==> was.resources[id].active && !resources[id].active)
      {
        var id :| id in todo;
        todo := todo - {id};
        var r := resources[id];
        if r.account == account && r.active && r.lastSeen < before {
          resources := resources[id := r.(active := false)];
          count := count + 1;
          gone := gone + {id};
        }
      }
      assert forall id :: id in gone <==> id in Stopped(was, State());
      assert gone == Stopped(was, State());
    }

    method ProcessResources(account: nat, batch: seq<Resource>, syncTime: int)
      returns (created: nat, updated: nat, stale: nat)
      requires State().WellFormed()
      modifies this
      ensures created + updated == |batch|
      ensures AgedFrom(Upserts(old(State()), batch), State(), account, syncTime)
      ensures stale == |Stopped(Upserts(old(State()), batch), State())|
      ensures MayCount(old(State()), account, batch, |batch|, created)
      ensures Counted(old(State()), account, batch, |batch|, created)
    {
      created, updated := UpsertAll(account, batch);
      CountBounds(old(State()), account, batch, |batch|, created);
      stale := MarkStaleResources(account, syncTime);
    }

    method UpsertAll(account: nat, batch: seq<Resource>) returns (created: nat, updated: nat)
      requires State().WellFormed()
      modifies this
      ensures State() == Upserts(old(State()), batch)
      ensures created + updated == |batch|
      ensures MayCount(old(State()), account, batch, |batch|, created)
    {
      created, updated := 0, 0;
      ghost var was := State();
      for i := 0 to |batch|
        invariant State() == After(was, batch, i)
        invariant created + updated == i
        invariant MayCount(was, account, batch, i, created)
      {
        created, updated := UpsertNext(account, batch, i, created, updated, was);
      }
    }

    /** One round of the loop: look the object up, count it, write it. */
    method UpsertNext(account: nat, batch: seq<Resource>, i: nat, created0: nat, updated0: nat, ghost was: DState)
      returns (created: nat, updated: nat)
      requires i < |batch| && was.WellFormed() && State() == After(was, batch, i)
      requires MayCount(was, account, batch, i, created0)
      modifies this
      ensures State() == After(was, batch, i + 1)
      ensures created + updated == created0 + updated0 + 1
      ensures MayCount(was, account, batch, i + 1, created)
    {
      var existing := FindByProviderId(account, batch[i].providerId);
      ProvidedIsListed(State(), account, batch[i].providerId);
      PossibleStep(Lookups(was, account, batch, i), LookupFor(State(), account, batch[i].providerId), existing.None?, created0);
      created, updated := created0, updated0;
      if existing.Some? {
        updated := updated + 1;
      } else {
        created := created + 1;
      }
      UpsertDiscoveredResource(batch[i]);
    }
  }

  // ---------------------------------------------------------------- what a sync run counts

  ghost function Provided(s: DState, account: nat): set<string> {
    set id | id in s.resources && s.resources[id].account == account :: s.resources[id].providerId
  }

  /** The objects among the first `n` that were not stored before the run. */
  ghost function NewIds(s: DState, account: nat, batch: seq<Resource>, n: nat): set<string>
    requires n <= |batch|
  {
    Objects(batch, n) - Provided(s, account)
  }

  ghost function Objects(batch: seq<Resource>, n: nat): set<string>
    requires n <= |batch|
  {
    if n == 0 then {} else Objects(batch, n - 1) + {batch[n - 1].providerId}
  }

  /** The batch belongs to the account, and a new object never arrives under a stored id. */
  ghost predicate Fits(s: DState, account: nat, batch: seq<Resource>, n: nat)
    requires s.WellFormed() && n <= |batch|
  {
    n == 0
    || (Fits(s, account, batch, n - 1) && batch[n - 1].account == account
        && (Known(After(s, batch, n - 1), batch[n - 1]) || batch[n - 1].id !in After(s, batch, n - 1).resources))
  }

  /** What a paged lookup may report: a hit for a stored object, a miss when some paged read does not show it. */
  ghost predicate MaySay(s: DState, account: nat, providerId: string, isNew: bool) {
    if isNew then Overlooked(Matching(s, account, EVERY), providerId) else providerId in Provided(s, account)
  }

  /** Whether a lookup may report a miss, and whether it may report a hit. */
  datatype Lookup = Lookup(canMiss: bool, canHit: bool)

  ghost function LookupFor(s: DState, account: nat, providerId: string): Lookup {
    Lookup(MaySay(s, account, providerId, true), MaySay(s, account, providerId, false))
  }

  /** The lookups of the first `n` rounds, each in the state the rounds before it left. */
  ghost function Lookups(s: DState, account: nat, batch: seq<Resource>, n: nat): (ls: seq<Lookup>)
    requires s.WellFormed() && n <= |batch|
    ensures |ls| == n
  {
    if n == 0 then []
    else Lookups(s, account, batch, n - 1) + [LookupFor(After(s, batch, n - 1), account, batch[n - 1].providerId)]
  }

  /** `misses` of the lookups report a miss, the others a hit. */
  predicate Possible(ls: seq<Lookup>, misses: nat) {
    if ls == [] then misses == 0
    else
      var init, last := ls[..|ls| - 1], ls[|ls| - 1];
      (last.canMiss && misses > 0 && Possible(init, misses - 1)) || (last.canHit && Possible(init, misses))
  }

  /** The counts of created resources that the first `n` rounds can end with. */
  ghost predicate MayCount(s: DState, account: nat, batch: seq<Resource>, n: nat, created: nat)
    requires s.WellFormed() && n <= |batch|
  {
    Possible(Lookups(s, account, batch, n), created)
  }

  /** The object is stored, and a page boundary cuts the resources discovered at its time. */
  ghost predicate CutLookup(s: DState, account: nat, providerId: string) {
    exists r :: r in Matching(s, account, EVERY) && r.providerId == providerId
                && Straddled(Matching(s, account, EVERY), PAGE_SIZE, r.discoveredAt)
  }

  /** None of the first `n` objects is cut when it is looked up. */
  ghost predicate NoneCut(s: DState, account: nat, batch: seq<Resource>, n: nat)
    requires s.WellFormed() && n <= |batch|
  {
    n == 0
    || (NoneCut(s, account, batch, n - 1)
        && !CutLookup(After(s, batch, n - 1), account, batch[n - 1].providerId))
  }

  /** The count never misses a new object, and is exact when no lookup is cut. */
  ghost predicate Counted(s: DState, account: nat, batch: seq<Resource>, n: nat, created: nat)
    requires s.WellFormed() && n <= |batch|
  {
    Fits(s, account, batch, n) ==>
      created >= |NewIds(s, account, batch, n)|
      && (NoneCut(s, account, batch, n) ==> created == |NewIds(s, account, batch, n)|)
  }

  /** `r` holds the new data; a link or first-seen time that the data lacks is kept from `was`. */
  ghost predicate TakesData(was: Option<Resource>, res: Resource, r: Resource) {
    r.account == res.account && r.kind == res.kind && r.providerId == res.providerId && r.name == res.name
    && r.cidr == res.cidr && r.parentId == res.parentId && r.active == res.active && r.lastSeen == res.lastSeen
    && (res.poolId.Some? || was.None? ==> r.poolId == res.poolId)
    && (res.poolId.None? && was.Some? ==> r.poolId == was.value.poolId)
    && (res.discoveredAt != 0 || was.None? ==> r.discoveredAt == res.discoveredAt)
    && (res.discoveredAt == 0 && was.Some? ==> r.discoveredAt == was.value.discoveredAt)
  }

  /** An upsert writes one resource: the stored form of the same object, or a new one. */
  lemma UpsertWrites(s: DState, res: Resource) returns (id: nat, r: Resource)
    requires s.WellFormed() && (Known(s, res) || res.id !in s.resources)
    ensures Upsert(s, res).resources == s.resources[id := r] && SameObject(r, res)
    ensures id in s.resources ==> SameObject(s.resources[id], res)
    ensures TakesData(if id in s.resources then Some(s.resources[id]) else None, res, r)
  {
    if Known(s, res) {
      id :| id in s.resources && SameObject(s.resources[id], res);
      r := Refreshed(s.resources[id], res);
    } else {
      id := if res.id == NIL then s.next else res.id;
      r := res.(id := id);
    }
  }

  lemma UpsertProvides(s: DState, account: nat, res: Resource)
    requires s.WellFormed() && res.account == account && (Known(s, res) || res.id !in s.resources)
    ensures Provided(Upsert(s, res), account) == Provided(s, account) + {res.providerId}
  {
    var t := Upsert(s, res);
    var id, r := UpsertWrites(s, res);
    forall p
      ensures p in Provided(t, account) <==> p in Provided(s, account) + {res.providerId}
    {
      assert t.resources[id].providerId == res.providerId && t.resources[id].account == account;
      if p in Provided(s, account) {
        var i :| i in s.resources && s.resources[i].account == account && s.resources[i].providerId == p;
        assert i in t.resources && t.resources[i].account == account && t.resources[i].providerId == p;
      }
      if p in Provided(t, account) && p != res.providerId {
        var i :| i in t.resources && t.resources[i].account == account && t.resources[i].providerId == p;
        assert i != id && i in s.resources && s.resources[i] == t.resources[i];
      }
    }
  }

  lemma {:induction false} RunProvides(s: DState, account: nat, batch: seq<Resource>, n: nat)
    requires s.WellFormed() && n <= |batch| && Fits(s, account, batch, n)
    ensures Provided(After(s, batch, n), account) == Provided(s, account) + Objects(batch, n)
  {
    if n > 0 {
      RunProvides(s, account, batch, n - 1);
      UpsertProvides(After(s, batch, n - 1), account, batch[n - 1]);
    }
  }

  lemma NewIdsStep(s: DState, account: nat, batch: seq<Resource>, n: nat)
    requires s.WellFormed() && n < |batch| && Fits(s, account, batch, n + 1)
    ensures |NewIds(s, account, batch, n + 1)|
         == |NewIds(s, account, batch, n)| + if batch[n].providerId in Provided(After(s, batch, n), account) then 0 else 1
  {
    RunProvides(s, account, batch, n);
    OneMore(Objects(batch, n), Provided(s, account), batch[n].providerId);
  }

  lemma OneMore(seen: set<string>, stored: set<string>, p: string)
    ensures |seen + {p} - stored| == |seen - stored| + if p in stored + seen then 0 else 1
  {
    assert seen + {p} - stored == seen - stored + if p in stored + seen then {} else {p};
  }

  lemma ProvidedIsListed(s: DState, account: nat, providerId: string)
    ensures providerId in Provided(s, account) <==>
            exists r :: r in Matching(s, account, EVERY) && r.providerId == providerId
  {
    if providerId in Provided(s, account) {
      var id :| id in s.resources && s.resources[id].account == account && s.resources[id].providerId == providerId;
      assert s.resources[id] in Matching(s, account, EVERY);
    }
  }

  lemma OneObject(s: DState, account: nat, r: Resource, q: Resource)
    requires s.WellFormed() && r in Matching(s, account, EVERY) && q in Matching(s, account, EVERY)
    requires r.providerId == q.providerId
    ensures r == q
  {
    assert SameObject(s.resources[r.id], s.resources[q.id]);
  }

  /** A lookup may miss an object iff it is not stored, or a page boundary cuts its tie group. */
  lemma OverlookedIff(s: DState, account: nat, providerId: string)
    requires s.WellFormed()
    ensures Overlooked(Matching(s, account, EVERY), providerId)
       <==> providerId !in Provided(s, account) || CutLookup(s, account, providerId)
  {
    var rs := Matching(s, account, EVERY);
    var o := SomeListing(rs);
    ProvidedIsListed(s, account, providerId);
    if providerId !in Provided(s, account) {
      var out := SomeRead(rs, o, PAGE_SIZE);
      assert Lacks(out, providerId);
    } else {
      var r :| r in rs && r.providerId == providerId;
      assert forall q :: q in rs && q.providerId == providerId ==> q == r by {
        forall q | q in rs && q.providerId == providerId
          ensures q == r
        {
          OneObject(s, account, q, r);
        }
      }
      LookupMisses(rs, o, r);
    }
  }

  lemma LookupMisses(rs: set<Resource>, o: seq<Resource>, r: Resource)
    requires IsListing(rs, o) && r in rs
    requires forall q :: q in rs && q.providerId == r.providerId ==> q == r
    ensures Overlooked(rs, r.providerId) <==> Straddled(rs, PAGE_SIZE, r.discoveredAt)
  {
    if Straddled(rs, PAGE_SIZE, r.discoveredAt) {
      var orders := LosingSchedule(rs, o, PAGE_SIZE, r);
      var out := Paged(orders, PAGE_SIZE);
      PagedOnlyListed(rs, orders, PAGE_SIZE);
      assert IsPagedRead(rs, PAGE_SIZE, out) && Lacks(out, r.providerId);
    } else if out :| IsPagedRead(rs, PAGE_SIZE, out) && Lacks(out, r.providerId) {
      var orders :| IsSchedule(rs, orders, PAGE_SIZE) && out == Paged(orders, PAGE_SIZE);
      UncutReadOnce(rs, o, orders, PAGE_SIZE, r);
    }
  }

  lemma PossibleStep(ls: seq<Lookup>, l: Lookup, miss: bool, misses: nat)
    requires Possible(ls, misses) && (if miss then l.canMiss else l.canHit)
    ensures Possible(ls + [l], if miss then misses + 1 else misses)
  {
    assert (ls + [l])[..|ls|] == ls;
  }

  /** The lookups that cannot report a hit. */
  function Certain(ls: seq<Lookup>): nat {
    if ls == [] then 0 else Certain(ls[..|ls| - 1]) + if ls[|ls| - 1].canHit then 0 else 1
  }

  predicate Decided(ls: seq<Lookup>) {
    forall i :: 0 <= i < |ls| ==> !(ls[i].canMiss && ls[i].canHit)
  }

  predicate Answered(ls: seq<Lookup>) {
    forall i :: 0 <= i < |ls| ==> ls[i].canMiss || ls[i].canHit
  }

  lemma {:induction false} PossibleBounds(ls: seq<Lookup>, misses: nat)
    requires Possible(ls, misses)
    ensures misses >= Certain(ls) && (Decided(ls) ==> misses == Certain(ls))
  {
    if ls != [] {
      var init, last := ls[..|ls| - 1], ls[|ls| - 1];
      if last.canMiss && misses > 0 && Possible(init, misses - 1) {
        PossibleBounds(init, misses - 1);
      } else {
        PossibleBounds(init, misses);
      }
    }
  }

  /** When every lookup that may miss does, an undecided one is counted once too often. */
  lemma {:induction false} MostMisses(ls: seq<Lookup>) returns (misses: nat)
    requires Answered(ls)
    ensures Possible(ls, misses) && misses >= Certain(ls) && (!Decided(ls) ==> misses > Certain(ls))
  {
    misses := 0;
    if ls != [] {
      var init, last := ls[..|ls| - 1], ls[|ls| - 1];
      misses := MostMisses(init);
      PossibleStep(init, last, last.canMiss, misses);
      assert init + [last] == ls;
      misses := if last.canMiss then misses + 1 else misses;
    }
  }

  lemma LookupIs(s: DState, account: nat, providerId: string)
    requires s.WellFormed()
    ensures var l := LookupFor(s, account, providerId);
      (l.canHit <==> providerId in Provided(s, account)) && (l.canMiss || l.canHit)
      && (l.canMiss && l.canHit <==> CutLookup(s, account, providerId))
  {
    OverlookedIff(s, account, providerId);
    ProvidedIsListed(s, account, providerId);
  }

  lemma LookupsSnoc(ls: seq<Lookup>, l: Lookup)
    ensures Decided(ls + [l]) <==> Decided(ls) && !(l.canMiss && l.canHit)
    ensures Answered(ls + [l]) <==> Answered(ls) && (l.canMiss || l.canHit)
    ensures Certain(ls + [l]) == Certain(ls) + if l.canHit then 0 else 1
  {
    assert (ls + [l])[..|ls|] == ls && (ls + [l])[|ls|] == l;
    assert forall i :: 0 <= i < |ls| ==> (ls + [l])[i] == ls[i];
  }

  lemma LookupsStep(s: DState, account: nat, batch: seq<Resource>, n: nat) returns (ls: seq<Lookup>, l: Lookup)
    requires s.WellFormed() && n < |batch|
    ensures ls == Lookups(s, account, batch, n) && Lookups(s, account, batch, n + 1) == ls + [l]
    ensures l.canHit <==> batch[n].providerId in Provided(After(s, batch, n), account)
    ensures l.canMiss || l.canHit
    ensures l.canMiss && l.canHit <==> CutLookup(After(s, batch, n), account, batch[n].providerId)
  {
    ls, l := Lookups(s, account, batch, n), LookupFor(After(s, batch, n), account, batch[n].providerId);
    LookupIs(After(s, batch, n), account, batch[n].providerId);
  }

  lemma {:induction false} LookupsAre(s: DState, account: nat, batch: seq<Resource>, n: nat)
    requires s.WellFormed() && n <= |batch|
    ensures Answered(Lookups(s, account, batch, n))
    ensures Decided(Lookups(s, account, batch, n)) <==> NoneCut(s, account, batch, n)
  {
    if n > 0 {
      LookupsAre(s, account, batch, n - 1);
      var ls, l := LookupsStep(s, account, batch, n - 1);
      LookupsSnoc(ls, l);
    }
  }

  lemma CertainStep(s: DState, account: nat, batch: seq<Resource>, n: nat)
    requires s.WellFormed() && n < |batch|
    ensures Certain(Lookups(s, account, batch, n + 1))
         == Certain(Lookups(s, account, batch, n))
          + if batch[n].providerId in Provided(After(s, batch, n), account) then 0 else 1
  {
    var ls, l := LookupsStep(s, account, batch, n);
    LookupsSnoc(ls, l);
  }

  /** The lookups that must report a miss are those of new objects. */
  ghost predicate MissesAreNew(s: DState, account: nat, batch: seq<Resource>, n: nat)
    requires s.WellFormed() && n <= |batch|
  {
    Certain(Lookups(s, account, batch, n)) == |NewIds(s, account, batch, n)|
  }

  lemma NoMisses(s: DState, account: nat, batch: seq<Resource>)
    requires s.WellFormed()
    ensures MissesAreNew(s, account, batch, 0)
  {
    assert NewIds(s, account, batch, 0) == {};
  }

  lemma NextMiss(s: DState, account: nat, batch: seq<Resource>, n: nat)
    requires s.WellFormed() && n < |batch| && Fits(s, account, batch, n + 1) && MissesAreNew(s, account, batch, n)
    ensures MissesAreNew(s, account, batch, n + 1)
  {
    NewIdsStep(s, account, batch, n);
    CertainStep(s, account, batch, n);
  }

  lemma {:induction false} CertainAreNew(s: DState, account: nat, batch: seq<Resource>, n: nat)
    requires s.WellFormed() && n <= |batch| && Fits(s, account, batch, n)
    ensures MissesAreNew(s, account, batch, n)
  {
    if n == 0 {
      NoMisses(s, account, batch);
    } else {
      var m := n - 1;
      CertainAreNew(s, account, batch, m);
      NextMiss(s, account, batch, m);
    }
  }

  lemma CountBounds(s: DState, account: nat, batch: seq<Resource>, n: nat, created: nat)
    requires s.WellFormed() && n <= |batch| && MayCount(s, account, batch, n, created)
    ensures Counted(s, account, batch, n, created)
  {
    if Fits(s, account, batch, n) {
      LookupsAre(s, account, batch, n);
      CertainAreNew(s, account, batch, n);
      PossibleBounds(Lookups(s, account, batch, n), created);
    }
  }

  /** Every run counts exactly the new objects iff no stored object of the batch is cut when it is looked up. */
  lemma CountExactIff(s: DState, account: nat, batch: seq<Resource>, n: nat)
    requires s.WellFormed() && n <= |batch| && Fits(s, account, batch, n)
    ensures (forall created :: MayCount(s, account, batch, n, created) ==> created == |NewIds(s, account, batch, n)|)
       <==> NoneCut(s, account, batch, n)
  {
    var ls := Lookups(s, account, batch, n);
    LookupsAre(s, account, batch, n);
    CertainAreNew(s, account, batch, n);
    forall created | MayCount(s, account, batch, n, created)
      ensures NoneCut(s, account, batch, n) ==> created == |NewIds(s, account, batch, n)|
    {
      PossibleBounds(ls, created);
    }
    var most := MostMisses(ls);
    assert MayCount(s, account, batch, n, most);
  }

  lemma {:induction false} UpsertsKeepLinks(s: DState, account: nat, batch: seq<Resource>, n: nat, id: nat)
    requires s.WellFormed() && n <= |batch| && Fits(s, account, batch, n) && id in s.resources
    requires forall r :: r in batch ==> r.poolId.None?
    ensures var t := After(s, batch, n);
      id in t.resources && SameObject(t.resources[id], s.resources[id]) && t.resources[id].poolId == s.resources[id].poolId
  {
    if n > 0 {
      UpsertsKeepLinks(s, account, batch, n - 1, id);
      assert batch[n - 1] in batch;
    }
  }

  /** A sync keeps every stored resource, its id and, unless the batch brings links, its link. */
  lemma SyncKeepsLinks(s: DState, account: nat, batch: seq<Resource>, syncTime: int, t: DState, id: nat)
    requires s.WellFormed() && Fits(s, account, batch, |batch|) && id in s.resources
    requires forall r :: r in batch ==> r.poolId.None?
    requires AgedFrom(Upserts(s, batch), t, account, syncTime)
    ensures id in t.resources && SameObject(t.resources[id], s.resources[id])
    ensures t.resources[id].poolId == s.resources[id].poolId
  {
    UpsertsKeepLinks(s, account, batch, |batch|, id);
  }

  // ---------------------------------------------------------------- which resources a sync leaves active

  /** No entry of the batch from `from` to `until` is about the object. */
  ghost predicate Absent(batch: seq<Resource>, from: nat, until: nat, account: nat, providerId: string)
    requires from <= until <= |batch|
  {
    forall j :: from <= j < until ==> !(batch[j].account == account && batch[j].providerId == providerId)
  }

  lemma UpsertKeepsOthers(s: DState, res: Resource, id: nat)
    requires s.WellFormed() && (Known(s, res) || res.id !in s.resources)
    requires id in s.resources && !SameObject(s.resources[id], res)
    ensures id in Upsert(s, res).resources && Upsert(s, res).resources[id] == s.resources[id]
  {
    var i, r := UpsertWrites(s, res);
  }

  /** What is stored under an id stays until an entry is about its object. */
  lemma {:induction false} AbsentKept(s: DState, account: nat, batch: seq<Resource>, from: nat, n: nat, id: nat)
    requires s.WellFormed() && from <= n <= |batch| && Fits(s, account, batch, n)
    requires id in After(s, batch, from).resources
    requires var r := After(s, batch, from).resources[id]; Absent(batch, from, n, r.account, r.providerId)
    ensures id in After(s, batch, n).resources && After(s, batch, n).resources[id] == After(s, batch, from).resources[id]
  {
    if from < n {
      var m := n - 1;
      AbsentKept(s, account, batch, from, m, id);
      UpsertKeepsOthers(After(s, batch, m), batch[m], id);
    }
  }

  /** The last entry about an object decides what is stored for it. */
  lemma LatestStored(s: DState, account: nat, batch: seq<Resource>, n: nat, i: nat) returns (id: nat)
    requires s.WellFormed() && i < n <= |batch| && Fits(s, account, batch, n)
    requires Absent(batch, i + 1, n, batch[i].account, batch[i].providerId)
    ensures id in After(s, batch, n).resources
    ensures exists was :: TakesData(was, batch[i], After(s, batch, n).resources[id])
  {
    FitsPrefix(s, account, batch, i + 1, n);
    var t := After(s, batch, i);
    var r;
    id, r := UpsertWrites(t, batch[i]);
    assert After(s, batch, i + 1).resources[id] == r;
    AbsentKept(s, account, batch, i + 1, n, id);
    assert TakesData(if id in t.resources then Some(t.resources[id]) else None, batch[i], r);
  }

  lemma {:induction false} FitsPrefix(s: DState, account: nat, batch: seq<Resource>, m: nat, n: nat)
    requires s.WellFormed() && m <= n <= |batch| && Fits(s, account, batch, n)
    ensures Fits(s, account, batch, m)
  {
    if m < n {
      FitsPrefix(s, account, batch, m, n - 1);
    }
  }

  /** An object whose last entry is active and seen in this run ends active. */
  lemma SeenEndsActive(s: DState, account: nat, batch: seq<Resource>, syncTime: int, t: DState, i: nat)
    requires s.WellFormed() && Fits(s, account, batch, |batch|) && i < |batch|
    requires Absent(batch, i + 1, |batch|, batch[i].account, batch[i].providerId)
    requires batch[i].active && batch[i].lastSeen >= syncTime
    requires AgedFrom(Upserts(s, batch), t, account, syncTime)
    ensures exists id :: id in t.resources && SameObject(t.resources[id], batch[i]) && t.resources[id].active
  {
    var id := LatestStored(s, account, batch, |batch|, i);
    assert SameObject(t.resources[id], batch[i]);
  }

  /** A stored object of the account that the batch lacks ends stale when it was last seen before the run. */
  lemma UnseenEndsStale(s: DState, account: nat, batch: seq<Resource>, syncTime: int, t: DState, id: nat)
    requires s.WellFormed() && Fits(s, account, batch, |batch|) && id in s.resources
    requires Absent(batch, 0, |batch|, s.resources[id].account, s.resources[id].providerId)
    requires AgedFrom(Upserts(s, batch), t, account, syncTime)
    ensures id in t.resources && t.resources[id] == s.resources[id].(active := t.resources[id].active)
    ensures t.resources[id].active <==>
      s.resources[id].active && (s.resources[id].account != account || s.resources[id].lastSeen >= syncTime)
  {
    AbsentKept(s, account, batch, 0, |batch|, id);
  }

  /** Objects of other accounts are not touched. */
  lemma OtherAccountsKept(s: DState, account: nat, batch: seq<Resource>, syncTime: int, t: DState, id: nat)
    requires s.WellFormed() && Fits(s, account, batch, |batch|) && id in s.resources && s.resources[id].account != account
    requires AgedFrom(Upserts(s, batch), t, account, syncTime)
    ensures id in t.resources && t.resources[id] == s.resources[id]
  {
    OneAccount(s, account, batch, |batch|);
    UnseenEndsStale(s, account, batch, syncTime, t, id);
  }

  lemma {:induction false} OneAccount(s: DState, account: nat, batch: seq<Resource>, n: nat)
    requires s.WellFormed() && n <= |batch| && Fits(s, account, batch, n)
    ensures forall j :: 0 <= j < n ==> batch[j].account == account
  {
    if n > 0 {
      OneAccount(s, account, batch, n - 1);
    }
  }
}
