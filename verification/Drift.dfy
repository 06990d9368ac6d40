/** Drift between discovered resources and the pools that manage them. */
module Drift {

  import opened Cidr
  import opened CidrTests
  import opened Classification
  import opened Collector
  import opened Discovery
  import opened Paging
  import opened PoolStore
  import opened Sorting
  import opened Wrappers

  datatype Kind = Unmanaged | CidrMismatch | OrphanedPool
  datatype Severity = Info | Warning | Critical
  datatype Status = Open | Resolved | Ignored

  /** What an item reports; titles and descriptions are derived from it. */
  datatype Finding = Finding(
    account: nat, resource: Option<nat>, pool: Option<nat>, kind: Kind, severity: Severity,
    resourceCidr: string, poolCidr: string)

  datatype Item = Item(finding: Finding, status: Status, detectedAt: int)

  type Items = map<nat, Item>

  // ---------------------------------------------------------------- single checks

  /** Compares normalized prefixes, and plain text when either side is not a prefix. */
  predicate CidrsEqual(parse: Parser, a: string, b: string) {
    if parse(a).Some? && parse(b).Some? then CidrEqual(parse(a), parse(b)) else a == b
  }

  function UnmanagedItem(account: nat, r: Resource): Finding {
    Finding(account, Some(r.id), None, Unmanaged,
            if r.kind == NETWORK_INTERFACE || r.kind == ELASTIC_IP then Info else Warning, r.cidr, "")
  }

  function MismatchItem(account: nat, r: Resource, p: Pool): Finding {
    Finding(account, Some(r.id), Some(p.id), CidrMismatch, Critical, r.cidr, p.cidr)
  }

  function OrphanItem(account: nat, p: Pool): Finding {
    Finding(account, None, Some(p.id), OrphanedPool, Warning, "", p.cidr)
  }

  const DISCOVERED := "discovered"

  function ResourceFinding(parse: Parser, s: State, account: nat, r: Resource): seq<Finding> {
    if r.cidr == "" then []
    else if r.poolId.None? then [UnmanagedItem(account, r)]
    else if s.Live(r.poolId.value) && !CidrsEqual(parse, r.cidr, s.pools[r.poolId.value].cidr)
    then [MismatchItem(account, r, s.pools[r.poolId.value])]
    else []
  }

  ghost predicate Linked(rs: seq<Resource>, pool: nat) {
    exists r :: r in rs && r.poolId == Some(pool)
  }

  ghost function PoolFinding(account: nat, rs: seq<Resource>, p: Pool): seq<Finding> {
    if p.source == DISCOVERED && !Linked(rs, p.id) then [OrphanItem(account, p)] else []
  }

  ghost function ResourceFindings(parse: Parser, s: State, account: nat, rs: seq<Resource>): seq<Finding> {
    if rs == [] then []
    else ResourceFindings(parse, s, account, rs[..|rs| - 1]) + ResourceFinding(parse, s, account, rs[|rs| - 1])
  }

  ghost function PoolFindings(account: nat, rs: seq<Resource>, ps: seq<Pool>): seq<Finding> {
    if ps == [] then [] else PoolFindings(account, rs, ps[..|ps| - 1]) + PoolFinding(account, rs, ps[|ps| - 1])
  }

  /** The resource pass, then the pool pass. */
  ghost function Findings(parse: Parser, s: State, account: nat, rs: seq<Resource>, ps: seq<Pool>): seq<Finding> {
    ResourceFindings(parse, s, account, rs) + PoolFindings(account, rs, ps)
  }

  // ---------------------------------------------------------------- the drift store

  predicate OpenFor(drifts: Items, id: nat, account: nat) {
    id in drifts && drifts[id].status == Open && drifts[id].finding.account == account
  }

  /** Open items under consecutive fresh ids. */
  ghost function Recorded(drifts: Items, next: nat, fs: seq<Finding>, now: int): Items {
    if fs == [] then drifts
    else
      var n := |fs| - 1;
      Recorded(drifts, next, fs[..n], now)[next + n := Item(fs[n], Open, now)]
  }

  ghost function Cleared(drifts: Items, account: nat): Items {
    map id | id in drifts && !OpenFor(drifts, id, account) :: drifts[id]
  }

  /** The open items of an account are the findings, one each, under the ids from `base` on. */
  ghost predicate OpenExactly(drifts: Items, account: nat, fs: seq<Finding>, base: nat, now: int) {
    forall id: nat ::
      (OpenFor(drifts, id, account) <==> base <= id < base + |fs|)
      && (OpenFor(drifts, id, account) ==> drifts[id] == Item(fs[id - base], Open, now))
  }

  ghost predicate HoldsFrom(t: Items, drifts: Items, next: nat, fs: seq<Finding>, now: int) {
    forall id: nat ::
      if next <= id < next + |fs| then id in t && t[id] == Item(fs[id - next], Open, now)
      else (id in t <==> id in drifts) && (id in t ==> t[id] == drifts[id])
  }

  lemma HoldsOneMore(u: Items, drifts: Items, next: nat, fs: seq<Finding>, f: Finding, now: int)
    requires HoldsFrom(u, drifts, next, fs, now)
    ensures HoldsFrom(u[next + |fs| := Item(f, Open, now)], drifts, next, fs + [f], now)
  {
  }

  lemma {:induction false} RecordedAt(drifts: Items, next: nat, fs: seq<Finding>, now: int)
    ensures HoldsFrom(Recorded(drifts, next, fs, now), drifts, next, fs, now)
  {
    if fs != [] {
      var n := |fs| - 1;
      RecordedAt(drifts, next, fs[..n], now);
      HoldsOneMore(Recorded(drifts, next, fs[..n], now), drifts, next, fs[..n], fs[n], now);
      assert fs == fs[..n] + [fs[n]];
    }
  }

  lemma {:induction false} RecordedAppend(drifts: Items, next: nat, fs: seq<Finding>, gs: seq<Finding>, now: int)
    ensures Recorded(drifts, next, fs + gs, now) == Recorded(Recorded(drifts, next, fs, now), next + |fs|, gs, now)
  {
    if gs == [] {
      assert fs + gs == fs;
    } else {
      var n := |gs| - 1;
      RecordedAppend(drifts, next, fs, gs[..n], now);
      assert (fs + gs)[..|fs| + n] == fs + gs[..n];
    }
  }

  ghost predicate Reported(was: Items, base: nat, fs: seq<Finding>, now: int, drifts: Items, next: nat) {
    next == base + |fs| && drifts == Recorded(was, base, fs, now)
  }

  /** One more check reports after the others. */
  lemma ReportedStep(
      was: Items, base: nat, fs: seq<Finding>, mid: Items, next: nat, gs: seq<Finding>, now: int, drifts: Items, end: nat)
    requires Reported(was, base, fs, now, mid, next) && Reported(mid, next, gs, now, drifts, end)
    ensures Reported(was, base, fs + gs, now, drifts, end)
  {
    RecordedAppend(was, base, fs, gs, now);
  }

  lemma FindingsStep(parse: Parser, s: State, account: nat, rs: seq<Resource>, i: nat)
    requires i < |rs|
    ensures ResourceFindings(parse, s, account, rs[..i + 1])
         == ResourceFindings(parse, s, account, rs[..i]) + ResourceFinding(parse, s, account, rs[i])
  {
    assert rs[..i + 1][..i] == rs[..i];
  }

  lemma PoolFindingsStep(account: nat, rs: seq<Resource>, ps: seq<Pool>, i: nat)
    requires i < |ps|
    ensures PoolFindings(account, rs, ps[..i + 1]) == PoolFindings(account, rs, ps[..i]) + PoolFinding(account, rs, ps[i])
  {
    assert ps[..i + 1][..i] == ps[..i];
  }

  lemma RecordedOne(drifts: Items, next: nat, f: Finding, now: int)
    ensures Recorded(drifts, next, [f], now) == drifts[next := Item(f, Open, now)]
  {
    assert [f][..0] == [];
  }

  method IsLinked(rs: seq<Resource>, pool: nat) returns (linked: bool)
    ensures linked <==> Linked(rs, pool)
  {
    for j := 0 to |rs|
      invariant !Linked(rs[..j], pool)
    {
      if rs[j].poolId == Some(pool) {
        assert rs[j] in rs;
        return true;
      }
    }
    assert rs[..|rs|] == rs;
    linked := false;
  }

  class DriftDetector {
    const parse: Parser
    const store: Store
    const resources: DiscoveryStore
    var drifts: Items
    /** Stands for `uuid.New`: no item has had this id. */
    var next: nat

    constructor (parse: Parser, store: Store, resources: DiscoveryStore)
      ensures Valid() && drifts == map[]
      ensures this.parse == parse && this.store == store && this.resources == resources
    {
      this.parse, this.store, this.resources := parse, store, resources;
      drifts, next := map[], 0;
    }

    ghost predicate Valid()
      reads this
    {
      forall id :: id in drifts ==> id < next
    }

    method DeleteOpenForAccount(account: nat)
      requires Valid()
      modifies this
      ensures Valid() && next == old(next)
      ensures drifts == Cleared(old(drifts), account)
    {
      var todo := drifts.Keys;
      while todo != {}
        invariant todo <= old(drifts).Keys && next == old(next)
        invariant forall id :: id in drifts <==> id in old(drifts) && (id in todo || !OpenFor(old(drifts), id, account))
        invariant forall id :: id in drifts ==> drifts[id] == old(drifts)[id]
      {
        var id :| id in todo;
        todo := todo - {id};
        if OpenFor(drifts, id, account) {
          drifts := drifts - {id};
        }
      }
    }

    method CreateDriftItem(f: Finding, now: int)
      requires Valid()
      modifies this
      ensures Valid() && next == old(next) + 1 && drifts == old(drifts)[old(next) := Item(f, Open, now)]
    {
      drifts := drifts[next := Item(f, Open, now)];
      next := next + 1;
    }

    /** Records `f` in `drifts` and appends it to the returned items. */
    method Report(items: seq<Finding>, f: Finding, now: int) returns (all: seq<Finding>)
      requires Valid()
      modifies this
      ensures Valid() && Reported(old(drifts), old(next), [f], now, drifts, next) && all == items + [f]
    {
      CreateDriftItem(f, now);
      RecordedOne(old(drifts), old(next), f, now);
      all := items + [f];
    }

    method CheckResource(account: nat, r: Resource, items: seq<Finding>, now: int) returns (all: seq<Finding>)
      requires Valid()
      modifies this
      ensures Valid()
      ensures var fs := ResourceFinding(parse, store.Abs(), account, r);
        Reported(old(drifts), old(next), fs, now, drifts, next) && all == items + fs
    {
      all := items;
      if r.cidr == "" {
        return;
      }
      if r.poolId.None? {
        all := Report(items, UnmanagedItem(account, r), now);
        return;
      }
      var pool := store.GetPool(r.poolId.value);
      if pool.Some? && !CidrsEqual(parse, r.cidr, pool.value.cidr) {
        all := Report(items, MismatchItem(account, r, pool.value), now);
      }
    }

    /** Pass 1. */
    method CheckResources(account: nat, rs: seq<Resource>, items: seq<Finding>, now: int) returns (all: seq<Finding>)
      requires Valid()
      modifies this
      ensures Valid()
      ensures var fs := ResourceFindings(parse, store.Abs(), account, rs);
        Reported(old(drifts), old(next), fs, now, drifts, next) && all == items + fs
    {
      all := items;
      ghost var s := store.Abs();
      for i := 0 to |rs|
        invariant Valid() && s == store.Abs()
        invariant Reported(old(drifts), old(next), ResourceFindings(parse, s, account, rs[..i]), now, drifts, next)
        invariant all == items + ResourceFindings(parse, s, account, rs[..i])
      {
        ghost var fs, mid, id := ResourceFindings(parse, s, account, rs[..i]), drifts, next;
        all := CheckResource(account, rs[i], all, now);
        FindingsStep(parse, s, account, rs, i);
        ReportedStep(old(drifts), old(next), fs, mid, id, ResourceFinding(parse, s, account, rs[i]), now, drifts, next);
      }
      assert rs[..|rs|] == rs;
    }

    /** Pass 2. */
    method CheckPools(account: nat, rs: seq<Resource>, ps: seq<Pool>, items: seq<Finding>, now: int)
      returns (all: seq<Finding>)
      requires Valid()
      modifies this
      ensures Valid()
      ensures var fs := PoolFindings(account, rs, ps);
        Reported(old(drifts), old(next), fs, now, drifts, next) && all == items + fs
    {
      all := items;
      for i := 0 to |ps|
        invariant Valid()
        invariant Reported(old(drifts), old(next), PoolFindings(account, rs, ps[..i]), now, drifts, next)
        invariant all == items + PoolFindings(account, rs, ps[..i])
      {
        ghost var fs, mid, id := PoolFindings(account, rs, ps[..i]), drifts, next;
        all := CheckPool(account, rs, ps[i], all, now);
        PoolFindingsStep(account, rs, ps, i);
        ReportedStep(old(drifts), old(next), fs, mid, id, PoolFinding(account, rs, ps[i]), now, drifts, next);
      }
      assert ps[..|ps|] == ps;
    }

    method CheckPool(account: nat, rs: seq<Resource>, p: Pool, items: seq<Finding>, now: int) returns (all: seq<Finding>)
      requires Valid()
      modifies this
      ensures Valid()
      ensures var fs := PoolFinding(account, rs, p);
        Reported(old(drifts), old(next), fs, now, drifts, next) && all == items + fs
    {
      all := items;
      if p.source == DISCOVERED {
        var linked := IsLinked(rs, p.id);
        if !linked {
          all := Report(all, OrphanItem(account, p), now);
        }
      }
    }

    method RunPasses(account: nat, rs: seq<Resource>, ps: seq<Pool>, items: seq<Finding>, now: int)
      returns (all: seq<Finding>)
      requires Valid()
      modifies this
      ensures Valid()
      ensures var fs := Findings(parse, store.Abs(), account, rs, ps);
        Reported(old(drifts), old(next), fs, now, drifts, next) && all == items + fs
    {
      all := CheckResources(account, rs, items, now);
      ghost var mid, id := drifts, next;
      all := CheckPools(account, rs, ps, all, now);
      ReportedStep(old(drifts), old(next), ResourceFindings(parse, store.Abs(), account, rs),
                   mid, id, PoolFindings(account, rs, ps), now, drifts, next);
    }

    /** The pools that `ListPools` returned for the account, in its order. */
    method AccountPools(all: seq<Pool>, account: nat) returns (ps: seq<Pool>)
      requires ListsLive(store.Abs(), all)
      ensures ListsPools(store.Abs(), account, ps)
    {
      ps := [];
      for i := 0 to |all|
        invariant forall p :: p in ps <==> p in all[..i] && p.account == Some(account)
        invariant DistinctIds(ps)
      {
        if all[i].account == Some(account) {
          ps := ps + [all[i]];
        }
      }
      assert all[..|all|] == all;
    }

    method DetectAccount(account: nat, pools: seq<Pool>, items: seq<Finding>, now: int) returns (all: seq<Finding>)
      requires Valid() && resources.State().WellFormed() && ListsLive(store.Abs(), pools)
      modifies this
      ensures Valid() && next >= old(next)
      ensures Detected(drifts, parse, store.Abs(), Active(resources.State(), account), account, now)
      ensures Untouched(old(drifts), old(next), drifts, {account})
      ensures |all| >= |items| && all[..|items|] == items && next == old(next) + |all| - |items|
      ensures forall f :: f in all[|items|..] ==> f.account == account
      ensures OpenExactly(drifts, account, all[|items|..], old(next), now)
    {
      DeleteOpenForAccount(account);
      var rs := resources.ListAll(account, IsActive);
      ActiveMatches(resources.State(), account);
      var ps := AccountPools(pools, account);
      all := RunPasses(account, rs, ps, items, now);
      ghost var fs := Findings(parse, store.Abs(), account, rs, ps);
      FindingsAccount(parse, store.Abs(), account, rs, ps);
      RecordedExactly(old(drifts), account, old(next), fs, now);
      assert all[|items|..] == fs;
    }

    method Detect(accounts: seq<nat>, requested: set<nat>, now: int) returns (items: seq<Finding>, summary: Summary)
      requires Valid() && resources.State().WellFormed() && store.Abs().WellFormed()
      modifies this
      ensures Valid() && next >= old(next)
      ensures AllDetected(drifts, parse, store.Abs(), resources.State(), Targets(accounts, requested), now)
      ensures Untouched(old(drifts), old(next), drifts, Targets(accounts, requested))
      ensures Distinct(accounts) ==> Returned(drifts, items, old(next), now)
      ensures Summarizes(items, summary)
    {
      items := [];
      var pools := store.ListPools();
      ghost var done: set<nat> := {};
      ghost var s, d := store.Abs(), resources.State();
      for i := 0 to |accounts|
        invariant Valid() && next >= old(next)
        invariant done == Targets(accounts[..i], requested)
        invariant s == store.Abs() && d == resources.State()
        invariant AllDetected(drifts, parse, s, d, done, now)
        invariant Untouched(old(drifts), old(next), drifts, done)
        invariant next == old(next) + |items|
        invariant forall f :: f in items ==> f.account in done
        invariant Distinct(accounts) ==> Returned(drifts, items, old(next), now)
      {
        TargetsStep(accounts, requested, i);
        if requested == {} || accounts[i] in requested {
          ghost var was, base, sofar := drifts, next, items;
          items := DetectAccount(accounts[i], pools, items, now);
          AllStillDetected(was, base, drifts, parse, s, d, done, accounts[i], now);
          assert Distinct(accounts) ==> accounts[i] !in done;
          if accounts[i] !in done && Returned(was, sofar, old(next), now) {
            StillReturned(was, base, drifts, sofar, old(next), accounts[i], items[|sofar|..], now);
            assert items == sofar + items[|sofar|..];
          }
          UntouchedTwice(old(drifts), old(next), was, base, drifts, done, {accounts[i]});
          done := done + {accounts[i]};
        }
      }
      assert accounts[..|accounts|] == accounts;
      summary := BuildSummary(items);
    }
  }

  // ---------------------------------------------------------------- what a run leaves

  predicate IsActive(r: Resource) {
    r.active
  }

  ghost function Active(d: DState, account: nat): set<Resource> {
    set id | id in d.resources && d.resources[id].account == account && d.resources[id].active :: d.resources[id]
  }

  lemma ActiveMatches(d: DState, account: nat)
    ensures Matching(d, account, IsActive) == Active(d, account)
  {
  }

  /** No requested accounts means all of them. */
  ghost function Targets(accounts: seq<nat>, requested: set<nat>): set<nat> {
    set a | a in accounts && (requested == {} || a in requested)
  }

  ghost predicate DistinctIds(ps: seq<Pool>) {
    forall i, j :: 0 <= i < j < |ps| ==> ps[i].id != ps[j].id
  }

  ghost predicate ListsLive(s: State, ps: seq<Pool>) {
    DistinctIds(ps)
    && (forall p :: p in ps ==> s.Live(p.id) && s.pools[p.id] == p)
    && forall id :: s.Live(id) ==> s.pools[id] in ps
  }

  ghost predicate ListsPools(s: State, account: nat, ps: seq<Pool>) {
    DistinctIds(ps)
    && (forall p :: p in ps ==> s.Live(p.id) && s.pools[p.id] == p && p.account == Some(account))
    && forall id :: s.Live(id) && s.pools[id].account == Some(account) ==> s.pools[id] in ps
  }

  /** The open items of the account are the findings of one read of its active resources and pools. */
  ghost predicate Detected(drifts: Items, parse: Parser, s: State, active: set<Resource>, account: nat, now: int) {
    exists rs, ps, base ::
      IsPagedRead(active, PAGE_SIZE, rs) && ListsPools(s, account, ps)
      && OpenExactly(drifts, account, Findings(parse, s, account, rs, ps), base, now)
  }

  /** Only open items of the accounts go, and only open items of the accounts come, under new ids. */
  ghost predicate Untouched(was: Items, next: nat, drifts: Items, accounts: set<nat>) {
    forall id: nat ::
      (id in was && !(was[id].status == Open && was[id].finding.account in accounts) ==> id in drifts)
      && (id in drifts && id in was ==> drifts[id] == was[id])
      && (id in drifts && id !in was ==> id >= next && drifts[id].status == Open && drifts[id].finding.account in accounts)
  }

  lemma TargetsStep(accounts: seq<nat>, requested: set<nat>, i: nat)
    requires i < |accounts|
    ensures Targets(accounts[..i + 1], requested)
         == Targets(accounts[..i], requested)
          + if requested == {} || accounts[i] in requested then {accounts[i]} else {}
  {
    assert forall a :: a in accounts[..i + 1] <==> a in accounts[..i] || a == accounts[i];
  }

  lemma {:induction false} FindingsAccount(parse: Parser, s: State, account: nat, rs: seq<Resource>, ps: seq<Pool>)
    ensures forall f :: f in Findings(parse, s, account, rs, ps) ==> f.account == account
    decreases |rs| + |ps|
  {
    if rs != [] {
      FindingsAccount(parse, s, account, rs[..|rs| - 1], []);
    }
    if ps != [] && rs != [] {
      FindingsAccount(parse, s, account, rs, []);
    }
    PoolFindingsAccount(account, rs, ps);
  }

  lemma {:induction false} PoolFindingsAccount(account: nat, rs: seq<Resource>, ps: seq<Pool>)
    ensures forall f :: f in PoolFindings(account, rs, ps) ==> f.account == account
  {
    if ps != [] {
      PoolFindingsAccount(account, rs, ps[..|ps| - 1]);
    }
  }

  lemma RecordedExactly(was: Items, account: nat, next: nat, fs: seq<Finding>, now: int)
    requires forall id :: id in was ==> id < next
    requires forall f :: f in fs ==> f.account == account
    ensures var t := Recorded(Cleared(was, account), next, fs, now);
      OpenExactly(t, account, fs, next, now) && Untouched(was, next, t, {account})
  {
    RecordedAt(Cleared(was, account), next, fs, now);
  }

  lemma StillDetected(
      was: Items, next: nat, drifts: Items, parse: Parser, s: State, active: set<Resource>,
      account: nat, other: nat, now: int)
    requires account != other && Detected(was, parse, s, active, account, now)
    requires Untouched(was, next, drifts, {other})
    ensures Detected(drifts, parse, s, active, account, now)
  {
    var rs: seq<Resource>, ps: seq<Pool>, base: nat :| IsPagedRead(active, PAGE_SIZE, rs) && ListsPools(s, account, ps)
      && OpenExactly(was, account, Findings(parse, s, account, rs, ps), base, now);
    forall id: nat
      ensures OpenFor(drifts, id, account) <==> OpenFor(was, id, account)
      ensures OpenFor(was, id, account) ==> drifts[id] == was[id]
    {
    }
    assert OpenExactly(drifts, account, Findings(parse, s, account, rs, ps), base, now);
  }

  ghost predicate AllDetected(drifts: Items, parse: Parser, s: State, d: DState, accounts: set<nat>, now: int) {
    forall a :: a in accounts ==> Detected(drifts, parse, s, Active(d, a), a, now)
  }

  lemma AllStillDetected(
      was: Items, next: nat, drifts: Items, parse: Parser, s: State, d: DState, done: set<nat>, a: nat, now: int)
    requires AllDetected(was, parse, s, d, done, now) && Detected(drifts, parse, s, Active(d, a), a, now)
    requires Untouched(was, next, drifts, {a})
    ensures AllDetected(drifts, parse, s, d, done + {a}, now)
  {
    forall b | b in done && b != a
      ensures Detected(drifts, parse, s, Active(d, b), b, now)
    {
      StillDetected(was, next, drifts, parse, s, Active(d, b), b, a, now);
    }
  }

  lemma UntouchedTwice(
      a: Items, nextA: nat, b: Items, nextB: nat, c: Items, first: set<nat>, second: set<nat>)
    requires nextA <= nextB && (forall id :: id in b ==> id < nextB)
    requires Untouched(a, nextA, b, first) && Untouched(b, nextB, c, second)
    requires forall id :: id in a ==> id < nextA
    ensures Untouched(a, nextA, c, first + second)
  {
  }

  /** The returned items are the new stored ones, in order. */
  ghost predicate Returned(drifts: Items, items: seq<Finding>, base: nat, now: int) {
    forall id: nat :: base <= id < base + |items| ==> id in drifts && drifts[id] == Item(items[id - base], Open, now)
  }

  lemma StillReturned(
      was: Items, next: nat, drifts: Items, items: seq<Finding>, base: nat, account: nat, fs: seq<Finding>, now: int)
    requires Returned(was, items, base, now) && next == base + |items|
    requires forall f :: f in items ==> f.account != account
    requires Untouched(was, next, drifts, {account}) && OpenExactly(drifts, account, fs, next, now)
    ensures Returned(drifts, items + fs, base, now)
  {
    forall id: nat | base <= id < base + |items + fs|
      ensures id in drifts && drifts[id] == Item((items + fs)[id - base], Open, now)
    {
      if id < next {
        assert items[id - base] in items;
      } else {
        assert OpenFor(drifts, id, account);
      }
    }
  }

  // ---------------------------------------------------------------- what the items mean

  ghost predicate SameCidr(parse: Parser, a: string, b: string) {
    SameBlock(parse(a), parse(b)) || ((parse(a).None? || parse(b).None?) && a == b)
  }

  ghost predicate IsUnmanaged(r: Resource) {
    r.cidr != "" && r.poolId.None?
  }

  /** Linked to an existing pool that manages other addresses. */
  ghost predicate IsMismatched(parse: Parser, s: State, r: Resource) {
    r.cidr != "" && r.poolId.Some? && s.Live(r.poolId.value) && !SameCidr(parse, r.cidr, s.pools[r.poolId.value].cidr)
  }

  /** Created from discovery, and no active resource of the account is linked to it any more. */
  ghost predicate IsOrphaned(s: State, active: set<Resource>, account: nat, id: nat) {
    s.Live(id) && s.pools[id].account == Some(account) && s.pools[id].source == DISCOVERED
    && forall r :: r in active ==> r.poolId != Some(id)
  }

  /** Interfaces and elastic addresses are reported for information, other resources as a warning. */
  ghost predicate IsUnmanagedItem(account: nat, r: Resource, f: Finding) {
    f.account == account && f.kind == Unmanaged && f.resource == Some(r.id) && f.pool == None
    && f.resourceCidr == r.cidr && f.poolCidr == ""
    && (f.severity == Info <==> r.kind == "network_interface" || r.kind == "elastic_ip") && f.severity != Critical
  }

  ghost predicate IsMismatchItem(account: nat, r: Resource, p: Pool, f: Finding) {
    f.account == account && f.kind == CidrMismatch && f.severity == Critical
    && f.resource == Some(r.id) && f.pool == Some(p.id) && f.resourceCidr == r.cidr && f.poolCidr == p.cidr
  }

  ghost predicate IsOrphanItem(account: nat, p: Pool, f: Finding) {
    f.account == account && f.kind == OrphanedPool && f.severity == Warning
    && f.resource == None && f.pool == Some(p.id) && f.resourceCidr == "" && f.poolCidr == p.cidr
  }

  ghost predicate Expected(parse: Parser, s: State, active: set<Resource>, account: nat, f: Finding) {
    (exists r :: r in active && IsUnmanaged(r) && IsUnmanagedItem(account, r, f))
    || (exists r :: r in active && IsMismatched(parse, s, r) && IsMismatchItem(account, r, s.pools[r.poolId.value], f))
    || (exists id :: IsOrphaned(s, active, account, id) && IsOrphanItem(account, s.pools[id], f))
  }

  /** The open items of the account are the expected ones, one each. */
  ghost predicate OpenAsExpected(drifts: Items, parse: Parser, s: State, active: set<Resource>, account: nat) {
    (forall id :: OpenFor(drifts, id, account) ==> Expected(parse, s, active, account, drifts[id].finding))
    && (forall f :: Expected(parse, s, active, account, f) ==>
          exists id :: OpenFor(drifts, id, account) && drifts[id].finding == f)
    && forall i, j :: OpenFor(drifts, i, account) && OpenFor(drifts, j, account) ==>
                       (drifts[i].finding == drifts[j].finding ==> i == j)
  }

  lemma CidrsEqualMeaning(parse: Parser, a: string, b: string)
    ensures CidrsEqual(parse, a, b) <==> SameCidr(parse, a, b)
  {
    TestsMeaning(parse(a), parse(b));
  }

  lemma ResourceFindingMeaning(parse: Parser, s: State, account: nat, r: Resource)
    ensures ResourceFinding(parse, s, account, r) ==
      if IsUnmanaged(r) then [UnmanagedItem(account, r)]
      else if IsMismatched(parse, s, r) then [MismatchItem(account, r, s.pools[r.poolId.value])]
      else []
  {
    if r.poolId.Some? && s.Live(r.poolId.value) {
      CidrsEqualMeaning(parse, r.cidr, s.pools[r.poolId.value].cidr);
    }
  }

  ghost predicate IsReported(parse: Parser, s: State, r: Resource) {
    IsUnmanaged(r) || IsMismatched(parse, s, r)
  }

  /** No two places hold resources with one id that are reported. */
  ghost predicate ReportedOnce(parse: Parser, s: State, rs: seq<Resource>) {
    forall i, j :: 0 <= i < j < |rs| && IsReported(parse, s, rs[i]) && IsReported(parse, s, rs[j]) ==> rs[i].id != rs[j].id
  }

  ghost predicate FromResource(parse: Parser, s: State, account: nat, r: Resource, f: Finding) {
    (IsUnmanaged(r) && f == UnmanagedItem(account, r))
    || (IsMismatched(parse, s, r) && f == MismatchItem(account, r, s.pools[r.poolId.value]))
  }

  lemma {:induction false} ResourceFindingsAre(parse: Parser, s: State, account: nat, rs: seq<Resource>)
    ensures forall f :: f in ResourceFindings(parse, s, account, rs) <==>
              exists r :: r in rs && FromResource(parse, s, account, r, f)
    ensures ReportedOnce(parse, s, rs) ==> Distinct(ResourceFindings(parse, s, account, rs))
  {
    if rs != [] {
      var init, last := rs[..|rs| - 1], rs[|rs| - 1];
      ResourceFindingsAre(parse, s, account, init);
      ResourceFindingMeaning(parse, s, account, last);
      var fs := ResourceFindings(parse, s, account, rs);
      if ReportedOnce(parse, s, rs) {
        forall f | f in ResourceFindings(parse, s, account, init)
          ensures f !in ResourceFinding(parse, s, account, last)
        {
          var r :| r in init && FromResource(parse, s, account, r, f);
          var i :| 0 <= i < |init| && init[i] == r;
          assert rs[i] == r && rs[|rs| - 1] == last;
          assert IsReported(parse, s, last) ==> r.id != last.id;
        }
        DistinctConcat(ResourceFindings(parse, s, account, init), ResourceFinding(parse, s, account, last));
      }
      forall f
        ensures f in fs <==> exists r :: r in rs && FromResource(parse, s, account, r, f)
      {
        assert f in ResourceFinding(parse, s, account, last) <==> FromResource(parse, s, account, last, f);
        assert f in fs <==>
          f in ResourceFindings(parse, s, account, init) || f in ResourceFinding(parse, s, account, last);
        assert last in rs && forall r :: r in rs <==> r in init || r == last;
      }
    }
  }

  lemma {:induction false} PoolFindingsAre(account: nat, rs: seq<Resource>, ps: seq<Pool>)
    ensures forall f :: f in PoolFindings(account, rs, ps) <==>
              exists p :: p in ps && p.source == DISCOVERED && !Linked(rs, p.id) && f == OrphanItem(account, p)
    ensures DistinctIds(ps) ==> Distinct(PoolFindings(account, rs, ps))
  {
    if ps != [] {
      var init, last := ps[..|ps| - 1], ps[|ps| - 1];
      PoolFindingsAre(account, rs, init);
      if DistinctIds(ps) {
        DistinctConcat(PoolFindings(account, rs, init), PoolFinding(account, rs, last));
      }
      assert last in ps && forall p :: p in ps <==> p in init || p == last;
    }
  }

  /** A live pool of the account that came from discovery. */
  ghost predicate IsDiscovered(s: State, account: nat, id: nat) {
    s.Live(id) && s.pools[id].account == Some(account) && s.pools[id].source == DISCOVERED
  }

  ghost function LinkedTo(active: set<Resource>, id: nat): set<Resource> {
    set r | r in active && r.poolId == Some(id)
  }

  /** The read shows each reported resource once, and of every pool that has links at least one. */
  ghost predicate ReadsRight(parse: Parser, s: State, active: set<Resource>, account: nat, rs: seq<Resource>) {
    (forall r :: r in rs ==> r in active)
    && ReportedOnce(parse, s, rs)
    && (forall r :: r in active && IsReported(parse, s, r) ==> r in rs)
    && forall id :: IsDiscovered(s, account, id) && LinkedTo(active, id) != {} ==> Linked(rs, id)
  }

  lemma ExpectedIs(parse: Parser, s: State, active: set<Resource>, account: nat, f: Finding)
    ensures Expected(parse, s, active, account, f) <==>
            (exists r :: r in active && FromResource(parse, s, account, r, f))
            || exists id :: IsOrphaned(s, active, account, id) && f == OrphanItem(account, s.pools[id])
  {
    forall r | r in active
      ensures FromResource(parse, s, account, r, f) <==>
              (IsUnmanaged(r) && IsUnmanagedItem(account, r, f))
              || (IsMismatched(parse, s, r) && IsMismatchItem(account, r, s.pools[r.poolId.value], f))
    {
    }
    if id: nat :| IsOrphaned(s, active, account, id) && IsOrphanItem(account, s.pools[id], f) {
      assert f == OrphanItem(account, s.pools[id]);
    }
  }

  /** Such a read gives the expected findings without repetition. */
  lemma FindingsAre(parse: Parser, s: State, active: set<Resource>, account: nat, rs: seq<Resource>, ps: seq<Pool>)
    requires ReadsRight(parse, s, active, account, rs)
    requires s.WellFormed() && ListsPools(s, account, ps)
    ensures Distinct(Findings(parse, s, account, rs, ps))
    ensures forall f :: f in Findings(parse, s, account, rs, ps) <==> Expected(parse, s, active, account, f)
  {
    ResourceFindingsAre(parse, s, account, rs);
    PoolFindingsAre(account, rs, ps);
    DistinctConcat(ResourceFindings(parse, s, account, rs), PoolFindings(account, rs, ps));
    forall f
      ensures f in Findings(parse, s, account, rs, ps) <==> Expected(parse, s, active, account, f)
    {
      ExpectedIs(parse, s, active, account, f);
      if f in PoolFindings(account, rs, ps) {
        var p :| p in ps && p.source == DISCOVERED && !Linked(rs, p.id) && f == OrphanItem(account, p);
        UnlinkedIsOrphaned(parse, s, active, account, rs, p.id);
      }
      if id: nat :| IsOrphaned(s, active, account, id) && f == OrphanItem(account, s.pools[id]) {
        assert s.pools[id] in ps && !Linked(rs, id);
      }
    }
  }

  lemma UnlinkedIsOrphaned(parse: Parser, s: State, active: set<Resource>, account: nat, rs: seq<Resource>, id: nat)
    requires ReadsRight(parse, s, active, account, rs) && IsDiscovered(s, account, id) && !Linked(rs, id)
    ensures IsOrphaned(s, active, account, id)
  {
    forall r | r in active
      ensures r.poolId != Some(id)
    {
      assert r in LinkedTo(active, id) <==> r.poolId == Some(id);
    }
  }

  // ---------------------------------------------------------------- exactly when a run is right

  /** No page boundary cuts a resource to be reported, and no read can miss every resource linked to a pool. */
  ghost predicate ReadsReliably(parse: Parser, s: State, active: set<Resource>, account: nat) {
    (forall r :: r in active && IsReported(parse, s, r) ==> !Straddled(active, PAGE_SIZE, r.discoveredAt))
    && forall id :: IsDiscovered(s, account, id) && LinkedTo(active, id) != {} ==>
                      !Avoidable(active, PAGE_SIZE, LinkedTo(active, id))
  }

  ghost predicate DistinctResources(active: set<Resource>) {
    forall r, q :: r in active && q in active && r.id == q.id ==> r == q
  }

  lemma ReliableReadsRight(parse: Parser, s: State, active: set<Resource>, account: nat, rs: seq<Resource>)
    requires DistinctResources(active) && ReadsReliably(parse, s, active, account) && IsPagedRead(active, PAGE_SIZE, rs)
    ensures ReadsRight(parse, s, active, account, rs)
  {
    var o := SomeListing(active);
    var orders :| IsSchedule(active, orders, PAGE_SIZE) && rs == Paged(orders, PAGE_SIZE);
    PagedOnlyListed(active, orders, PAGE_SIZE);
    forall r | r in active && IsReported(parse, s, r)
      ensures r in rs && multiset(rs)[r] == 1
    {
      UncutReadOnce(active, o, orders, PAGE_SIZE, r);
    }
    forall i, j | 0 <= i < j < |rs| && IsReported(parse, s, rs[i]) && IsReported(parse, s, rs[j])
      ensures rs[i].id != rs[j].id
    {
      if rs[i] == rs[j] {
        RepeatedCounts(rs, i, j);
      }
    }
    forall id | IsDiscovered(s, account, id) && LinkedTo(active, id) != {}
      ensures Linked(rs, id)
    {
      AvoidableIff(active, o, PAGE_SIZE, LinkedTo(active, id));
      assert !Avoids(rs, LinkedTo(active, id));
    }
  }

  /** A reported resource that the read misses has no item. */
  lemma LostReport(
      parse: Parser, s: State, active: set<Resource>, account: nat, rs: seq<Resource>, ps: seq<Pool>, r: Resource)
    returns (f: Finding)
    requires DistinctResources(active) && r in active && IsReported(parse, s, r)
    requires (forall q :: q in rs ==> q in active) && r !in rs
    ensures Expected(parse, s, active, account, f) && f !in Findings(parse, s, account, rs, ps)
  {
    f := if IsUnmanaged(r) then UnmanagedItem(account, r) else MismatchItem(account, r, s.pools[r.poolId.value]);
    ResourceFindingsAre(parse, s, account, rs);
    PoolFindingsAre(account, rs, ps);
    forall q | q in rs
      ensures !FromResource(parse, s, account, q, f)
    {
      assert q.id != r.id;
    }
  }

  /** A pool whose links the read misses gets an item although it is linked. */
  lemma FalseOrphan(
      parse: Parser, s: State, active: set<Resource>, account: nat, rs: seq<Resource>, ps: seq<Pool>, id: nat)
    returns (f: Finding)
    requires s.WellFormed() && ListsPools(s, account, ps)
    requires IsDiscovered(s, account, id) && LinkedTo(active, id) != {} && !Linked(rs, id)
    ensures !Expected(parse, s, active, account, f) && f in Findings(parse, s, account, rs, ps)
  {
    f := OrphanItem(account, s.pools[id]);
    PoolFindingsAre(account, rs, ps);
    var r :| r in LinkedTo(active, id);
    assert s.pools[id] in ps;
  }

  lemma {:induction false} EnumeratePools(s: State, ids: set<nat>, account: nat) returns (ps: seq<Pool>)
    requires s.WellFormed() && forall id :: id in ids ==> id in s.pools
    ensures DistinctIds(ps)
    ensures forall p :: p in ps <==>
      p.id in ids && s.pools[p.id] == p && !p.deleted && p.account == Some(account)
  {
    ps := [];
    if ids != {} {
      var id :| id in ids;
      ps := EnumeratePools(s, ids - {id}, account);
      if s.Live(id) && s.pools[id].account == Some(account) {
        ps := ps + [s.pools[id]];
      }
    }
  }

  /** A run on an empty store that happens to read `rs`. */
  lemma RunOf(parse: Parser, s: State, active: set<Resource>, account: nat, rs: seq<Resource>, ps: seq<Pool>, now: int)
    returns (drifts: Items)
    requires IsPagedRead(active, PAGE_SIZE, rs) && ListsPools(s, account, ps)
    ensures Detected(drifts, parse, s, active, account, now)
    ensures OpenExactly(drifts, account, Findings(parse, s, account, rs, ps), 0, now)
  {
    var fs := Findings(parse, s, account, rs, ps);
    FindingsAccount(parse, s, account, rs, ps);
    RecordedExactly(map[], account, 0, fs, now);
    drifts := Recorded(Cleared(map[], account), 0, fs, now);
  }

  /** A read that misses what matters, when one is possible. */
  lemma UnreliableRead(parse: Parser, s: State, active: set<Resource>, account: nat, ps: seq<Pool>)
    returns (rs: seq<Resource>, f: Finding)
    requires DistinctResources(active) && s.WellFormed() && ListsPools(s, account, ps)
    requires !ReadsReliably(parse, s, active, account)
    ensures IsPagedRead(active, PAGE_SIZE, rs)
    ensures f in Findings(parse, s, account, rs, ps) <==> !Expected(parse, s, active, account, f)
  {
    var o := SomeListing(active);
    if r :| r in active && IsReported(parse, s, r) && Straddled(active, PAGE_SIZE, r.discoveredAt) {
      var orders := LosingSchedule(active, o, PAGE_SIZE, r);
      rs := Paged(orders, PAGE_SIZE);
      PagedOnlyListed(active, orders, PAGE_SIZE);
      f := LostReport(parse, s, active, account, rs, ps, r);
    } else {
      var id: nat :| IsDiscovered(s, account, id) && LinkedTo(active, id) != {}
                && Avoidable(active, PAGE_SIZE, LinkedTo(active, id));
      AvoidableIff(active, o, PAGE_SIZE, LinkedTo(active, id));
      rs :| IsPagedRead(active, PAGE_SIZE, rs) && Avoids(rs, LinkedTo(active, id));
      var orders :| IsSchedule(active, orders, PAGE_SIZE) && rs == Paged(orders, PAGE_SIZE);
      PagedOnlyListed(active, orders, PAGE_SIZE);
      assert forall r :: r in rs && r.poolId == Some(id) ==> r in LinkedTo(active, id);
      f := FalseOrphan(parse, s, active, account, rs, ps, id);
    }
  }

  lemma ExactlyAsExpected(
      drifts: Items, parse: Parser, s: State, active: set<Resource>, account: nat, fs: seq<Finding>, base: nat, now: int)
    requires OpenExactly(drifts, account, fs, base, now) && Distinct(fs)
    requires forall f :: f in fs <==> Expected(parse, s, active, account, f)
    ensures OpenAsExpected(drifts, parse, s, active, account)
  {
    forall f | Expected(parse, s, active, account, f)
      ensures exists id :: OpenFor(drifts, id, account) && drifts[id].finding == f
    {
      var k :| 0 <= k < |fs| && fs[k] == f;
      assert OpenFor(drifts, base + k, account) && drifts[base + k].finding == f;
    }
  }

  lemma NotAsExpected(
      drifts: Items, parse: Parser, s: State, active: set<Resource>, account: nat, fs: seq<Finding>, now: int, f: Finding)
    requires OpenExactly(drifts, account, fs, 0, now)
    requires f in fs <==> !Expected(parse, s, active, account, f)
    ensures !OpenAsExpected(drifts, parse, s, active, account)
  {
    if f in fs {
      var k :| 0 <= k < |fs| && fs[k] == f;
      assert OpenFor(drifts, k, account) && drifts[k].finding == f;
    }
  }

  lemma ActiveDistinct(d: DState, account: nat)
    requires d.WellFormed()
    ensures DistinctResources(Active(d, account))
  {
  }

  /** After a run whose reads were reliable, the account's open items are exactly the expected ones. */
  lemma DetectedAsExpected(drifts: Items, parse: Parser, s: State, d: DState, account: nat, now: int)
    requires s.WellFormed() && d.WellFormed()
    requires Detected(drifts, parse, s, Active(d, account), account, now)
    requires ReadsReliably(parse, s, Active(d, account), account)
    ensures OpenAsExpected(drifts, parse, s, Active(d, account), account)
  {
    var active := Active(d, account);
    var rs: seq<Resource>, ps: seq<Pool>, base: nat :| IsPagedRead(active, PAGE_SIZE, rs) && ListsPools(s, account, ps)
      && OpenExactly(drifts, account, Findings(parse, s, account, rs, ps), base, now);
    ActiveDistinct(d, account);
    ReliableReadsRight(parse, s, active, account, rs);
    FindingsAre(parse, s, active, account, rs, ps);
    ExactlyAsExpected(drifts, parse, s, active, account, Findings(parse, s, account, rs, ps), base, now);
  }

  ghost predicate AlwaysAsExpected(parse: Parser, s: State, active: set<Resource>, account: nat) {
    forall drifts, now :: Detected(drifts, parse, s, active, account, now) ==>
      OpenAsExpected(drifts, parse, s, active, account)
  }

  /** Every run leaves exactly the expected items iff no page boundary cuts a resource to be reported and no read
      can miss every resource linked to a pool. */
  lemma AsExpectedIff(parse: Parser, s: State, d: DState, account: nat)
    requires s.WellFormed() && d.WellFormed()
    ensures AlwaysAsExpected(parse, s, Active(d, account), account)
       <==> ReadsReliably(parse, s, Active(d, account), account)
  {
    var active := Active(d, account);
    if ReadsReliably(parse, s, active, account) {
      forall drifts, now | Detected(drifts, parse, s, active, account, now)
        ensures OpenAsExpected(drifts, parse, s, active, account)
      {
        DetectedAsExpected(drifts, parse, s, d, account, now);
      }
    } else {
      ActiveDistinct(d, account);
      var ps := EnumeratePools(s, s.pools.Keys, account);
      var rs, f := UnreliableRead(parse, s, active, account, ps);
      var drifts := RunOf(parse, s, active, account, rs, ps, 0);
      NotAsExpected(drifts, parse, s, active, account, Findings(parse, s, account, rs, ps), 0, f);
    }
  }

  /** One page, or distinct discovery times, make every run reliable. */
  lemma UncutIsReliable(parse: Parser, s: State, d: DState, account: nat)
    requires NothingStraddled(Active(d, account), PAGE_SIZE)
    ensures ReadsReliably(parse, s, Active(d, account), account)
  {
    var active := Active(d, account);
    var o := SomeListing(active);
    forall id | IsDiscovered(s, account, id) && LinkedTo(active, id) != {}
      ensures !Avoidable(active, PAGE_SIZE, LinkedTo(active, id))
    {
      AvoidableIff(active, o, PAGE_SIZE, LinkedTo(active, id));
      var r :| r in LinkedTo(active, id);
      forall out | IsPagedRead(active, PAGE_SIZE, out)
        ensures !Avoids(out, LinkedTo(active, id))
      {
        PagedReadComplete(active, o, PAGE_SIZE, out);
        assert r in out;
      }
    }
  }

  // ---------------------------------------------------------------- running twice

  /** The open items of the account correspond one to one, with equal findings. */
  ghost predicate SameOpen(first: Items, second: Items, account: nat) {
    exists pair: map<nat, nat> :: Pairs(pair, first, second, account)
  }

  ghost predicate Pairs(pair: map<nat, nat>, first: Items, second: Items, account: nat) {
    (forall i :: i in pair <==> OpenFor(first, i, account))
    && (forall i :: i in pair ==> OpenFor(second, pair[i], account) && second[pair[i]].finding == first[i].finding)
    && (forall i, j :: i in pair && j in pair && pair[i] == pair[j] ==> i == j)
    && forall k :: OpenFor(second, k, account) ==> exists i :: i in pair && pair[i] == k
  }

  ghost function Counterpart(second: Items, account: nat, f: Finding): nat
    requires exists k :: OpenFor(second, k, account) && second[k].finding == f
    ensures OpenFor(second, Counterpart(second, account, f), account)
    ensures second[Counterpart(second, account, f)].finding == f
  {
    var k :| OpenFor(second, k, account) && second[k].finding == f;
    k
  }

  lemma AsExpectedSame(
      first: Items, second: Items, parse: Parser, s: State, active: set<Resource>, account: nat)
    requires OpenAsExpected(first, parse, s, active, account) && OpenAsExpected(second, parse, s, active, account)
    ensures SameOpen(first, second, account)
  {
    var pair := map i | i in first && OpenFor(first, i, account) :: Counterpart(second, account, first[i].finding);
    forall k | OpenFor(second, k, account)
      ensures exists i :: i in pair && pair[i] == k
    {
      var i :| OpenFor(first, i, account) && first[i].finding == second[k].finding;
      assert i in pair && pair[i] == k;
    }
    assert Pairs(pair, first, second, account);
  }

  /** Two runs over the same stores leave the same findings, up to ids and times. */
  lemma RerunSame(
      first: Items, second: Items, parse: Parser, s: State, d: DState, account: nat, now: int, later: int)
    requires s.WellFormed() && d.WellFormed() && ReadsReliably(parse, s, Active(d, account), account)
    requires Detected(first, parse, s, Active(d, account), account, now)
    requires Detected(second, parse, s, Active(d, account), account, later)
    ensures SameOpen(first, second, account)
  {
    DetectedAsExpected(first, parse, s, d, account, now);
    DetectedAsExpected(second, parse, s, d, account, later);
    AsExpectedSame(first, second, parse, s, Active(d, account), account);
  }

  /** Runs the detector twice: every reliably read target keeps its findings, all other items stay as they were. */
  method DetectTwice(detector: DriftDetector, accounts: seq<nat>, requested: set<nat>, now: int, later: int)
    returns (ghost first: Items)
    requires detector.Valid() && detector.resources.State().WellFormed() && detector.store.Abs().WellFormed()
    modifies detector
    ensures forall a ::
      (a in Targets(accounts, requested)
       && ReadsReliably(detector.parse, detector.store.Abs(), Active(detector.resources.State(), a), a))
      ==> SameOpen(first, detector.drifts, a)
    ensures Untouched(old(detector.drifts), old(detector.next), first, Targets(accounts, requested))
    ensures Untouched(old(detector.drifts), old(detector.next), detector.drifts, Targets(accounts, requested))
  {
    ghost var s, d := detector.store.Abs(), detector.resources.State();
    ghost var was, base, targets := detector.drifts, detector.next, Targets(accounts, requested);
    var items, summary := detector.Detect(accounts, requested, now);
    first := detector.drifts;
    ghost var middle := detector.next;
    items, summary := detector.Detect(accounts, requested, later);
    UntouchedTwice(was, base, first, middle, detector.drifts, targets, targets);
    forall a | a in targets && ReadsReliably(detector.parse, s, Active(d, a), a)
      ensures SameOpen(first, detector.drifts, a)
    {
      RerunSame(first, detector.drifts, detector.parse, s, d, a, now, later);
    }
  }

  // ---------------------------------------------------------------- the summary

  datatype Summary = Summary(total: nat, bySeverity: map<Severity, nat>, byKind: map<Kind, nat>)

  function Get<K>(m: map<K, nat>, k: K): nat {
    if k in m then m[k] else 0
  }

  function Bump<K(!new)>(m: map<K, nat>, k: K): (r: map<K, nat>)
    ensures forall j :: Get(r, j) == Get(m, j) + if j == k then 1 else 0
  {
    m[k := Get(m, k) + 1]
  }

  ghost function WithSeverity(items: seq<Finding>, v: Severity): nat {
    if items == [] then 0
    else WithSeverity(items[..|items| - 1], v) + if items[|items| - 1].severity == v then 1 else 0
  }

  ghost function OfKind(items: seq<Finding>, k: Kind): nat {
    if items == [] then 0
    else OfKind(items[..|items| - 1], k) + if items[|items| - 1].kind == k then 1 else 0
  }

  /** Every item counts once by severity and once by kind. */
  ghost predicate Summarizes(items: seq<Finding>, r: Summary) {
    r.total == |items|
    && r.total == Get(r.bySeverity, Info) + Get(r.bySeverity, Warning) + Get(r.bySeverity, Critical)
    && r.total == Get(r.byKind, Unmanaged) + Get(r.byKind, CidrMismatch) + Get(r.byKind, OrphanedPool)
    && (forall v :: Get(r.bySeverity, v) == WithSeverity(items, v))
    && forall k :: Get(r.byKind, k) == OfKind(items, k)
  }

  lemma {:induction false} CountsSum(items: seq<Finding>)
    ensures |items| == WithSeverity(items, Info) + WithSeverity(items, Warning) + WithSeverity(items, Critical)
    ensures |items| == OfKind(items, Unmanaged) + OfKind(items, CidrMismatch) + OfKind(items, OrphanedPool)
  {
    if items != [] {
      CountsSum(items[..|items| - 1]);
    }
  }

  method BuildSummary(items: seq<Finding>) returns (r: Summary)
    ensures Summarizes(items, r)
  {
    var bySeverity: map<Severity, nat>, byKind: map<Kind, nat> := map[], map[];
    for i := 0 to |items|
      invariant forall v :: Get(bySeverity, v) == WithSeverity(items[..i], v)
      invariant forall k :: Get(byKind, k) == OfKind(items[..i], k)
    {
      assert items[..i + 1][..i] == items[..i];
      bySeverity := Bump(bySeverity, items[i].severity);
      byKind := Bump(byKind, items[i].kind);
    }
    assert items[..|items|] == items;
    CountsSum(items);
    r := Summary(|items|, bySeverity, byKind);
  }
}
