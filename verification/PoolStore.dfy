/** Address pools and the stores that keep them. */
module PoolStore {

  import opened Cidr
  import opened Wrappers

  datatype Pool = Pool(
    id: nat, name: string, cidr: string, parent: Option<nat>, account: Option<nat>,
    kind: string, status: string, source: string, description: string, deleted: bool)

  datatype NewPool = NewPool(
    name: string, cidr: string, parent: Option<nat>, account: Option<nat>,
    kind: string, status: string, source: string, description: string)

  /** Only the account is written unconditionally; address and parent cannot be changed. */
  datatype PoolUpdate = PoolUpdate(
    name: Option<string>, account: Option<nat>, kind: Option<string>,
    status: Option<string>, description: Option<string>)

  datatype StoreError = ErrValidation | ErrConflict | ErrDatabase

  /** The in-memory store keeps no uniqueness index; the two databases keep different ones. */
  datatype Backend = Memory | Sqlite | Postgres

  datatype State = State(pools: map<nat, Pool>, next: nat) {
    predicate Live(id: nat) {
      id in pools && !pools[id].deleted
    }

    predicate ChildOf(id: nat, parent: nat) {
      Live(id) && pools[id].parent == Some(parent)
    }

    /** Keys and stored ids agree, new ids are fresh, and parents are older than their children. */
    predicate WellFormed() {
      next >= 1
      && forall id :: id in pools ==>
           && pools[id].id == id && 0 < id < next
           && (pools[id].parent.Some? ==> pools[id].parent.value < id)
    }
  }

  const EMPTY := State(map[], 1)

  /** The unique index of the backend: SQLite's also sees soft-deleted rows. */
  predicate Duplicate(backend: Backend, parse: Parser, s: State, input: NewPool) {
    match backend
    case Memory => false
    case Sqlite => exists id :: id in s.pools && s.pools[id].parent == input.parent && s.pools[id].cidr == input.cidr
    case Postgres => exists id :: id in s.pools && s.Live(id) && SameAddress(parse, s.pools[id].cidr, input.cidr)
  }

  predicate SameAddress(parse: Parser, a: string, b: string) {
    parse(a).Some? && parse(a) == parse(b)
  }

  /** Postgres keeps addresses in an `inet` column, which refuses other texts. */
  predicate Unstorable(backend: Backend, parse: Parser, cidr: string) {
    backend == Postgres && parse(cidr).None?
  }

  /** The index of the backend does not allow both pools. */
  predicate SameKey(backend: Backend, parse: Parser, p: Pool, q: Pool) {
    match backend
    case Memory => false
    case Sqlite => p.parent == q.parent && p.cidr == q.cidr
    case Postgres => !p.deleted && !q.deleted && SameAddress(parse, p.cidr, q.cidr)
  }

  ghost predicate IndexHolds(backend: Backend, parse: Parser, s: State) {
    forall x, y :: x in s.pools && y in s.pools && x != y ==> !SameKey(backend, parse, s.pools[x], s.pools[y])
  }

  function OrElse(text: string, default: string): string {
    if text == "" then default else text
  }

  function Fresh(s: State, input: NewPool): Pool {
    Pool(s.next, input.name, input.cidr, input.parent, input.account, OrElse(input.kind, "subnet"),
         OrElse(input.status, "active"), OrElse(input.source, "manual"), input.description, false)
  }

  function Insert(s: State, input: NewPool): State {
    State(s.pools[s.next := Fresh(s, input)], s.next + 1)
  }

  lemma InsertKeepsIndex(backend: Backend, parse: Parser, s: State, input: NewPool)
    requires IndexHolds(backend, parse, s) && !Duplicate(backend, parse, s, input) && s.next !in s.pools
    ensures IndexHolds(backend, parse, Insert(s, input))
  {
  }

  function Updated(p: Pool, u: PoolUpdate): Pool {
    p.(account := u.account,
       name := if u.name.Some? then u.name.value else p.name,
       kind := if u.kind.Some? then u.kind.value else p.kind,
       status := if u.status.Some? then u.status.value else p.status,
       description := if u.description.Some? then u.description.value else p.description)
  }

  function Update(s: State, id: nat, u: PoolUpdate): State {
    if id in s.pools then s.(pools := s.pools[id := Updated(s.pools[id], u)]) else s
  }

  function Delete(s: State, id: nat): State {
    if s.Live(id) && !exists c :: c in s.pools && s.ChildOf(c, id)
    then s.(pools := s.pools[id := s.pools[id].(deleted := true)])
    else s
  }

  /** `path` climbs from `x` to `root` along live parent links. */
  ghost predicate Climbs(s: State, path: seq<nat>, x: nat, root: nat) {
    path != [] && path[0] == x && path[|path| - 1] == root
    && (forall i :: 0 <= i < |path| ==> s.Live(path[i]))
    && forall i :: 0 <= i < |path| - 1 ==> s.pools[path[i]].parent == Some(path[i + 1])
  }

  /** A live pool that is `root` or lies below it. */
  ghost predicate Below(s: State, x: nat, root: nat) {
    exists path :: Climbs(s, path, x, root)
  }

  ghost function DeleteCascade(s: State, root: nat): State {
    s.(pools := map id | id in s.pools ::
         if Below(s, id, root) then s.pools[id].(deleted := true) else s.pools[id])
  }

  lemma BelowParent(s: State, x: nat, root: nat)
    requires s.Live(x) && s.pools[x].parent.Some?
    ensures Below(s, s.pools[x].parent.value, root) ==> Below(s, x, root)
    ensures x != root && Below(s, x, root) ==> Below(s, s.pools[x].parent.value, root)
  {
    if Below(s, s.pools[x].parent.value, root) {
      var path :| Climbs(s, path, s.pools[x].parent.value, root);
      assert Climbs(s, [x] + path, x, root);
    }
    if x != root && Below(s, x, root) {
      var path :| Climbs(s, path, x, root);
      assert Climbs(s, path[1..], s.pools[x].parent.value, root);
    }
  }

  lemma BelowSelf(s: State, x: nat)
    requires s.Live(x)
    ensures Below(s, x, x)
  {
    assert Climbs(s, [x], x, x);
  }

  /** A set that holds the root and is closed under live children holds the whole subtree. */
  lemma {:induction false} ClosedHoldsSubtree(s: State, root: nat, marked: set<nat>, path: seq<nat>, x: nat)
    requires root in marked && Climbs(s, path, x, root)
    requires forall c, p :: s.ChildOf(c, p) && p in marked ==> c in marked
    ensures x in marked
    decreases |path|
  {
    if |path| > 1 {
      assert Climbs(s, path[1..], path[1], root);
      ClosedHoldsSubtree(s, root, marked, path[1..], path[1]);
      assert s.ChildOf(x, path[1]);
    }
  }

  /** The stored form of a request: as given, with defaults for kind, status and source. */
  ghost predicate IsNewPool(input: NewPool, id: nat, p: Pool) {
    p.id == id && p.name == input.name && p.cidr == input.cidr && p.parent == input.parent
    && p.account == input.account && p.description == input.description && !p.deleted
    && (if input.kind == "" then p.kind == "subnet" else p.kind == input.kind)
    && (if input.status == "" then p.status == "active" else p.status == input.status)
    && (if input.source == "" then p.source == "manual" else p.source == input.source)
  }

  /** Account as given, the other given fields replaced, the rest kept. */
  ghost predicate IsUpdated(was: Pool, u: PoolUpdate, p: Pool) {
    p.id == was.id && p.cidr == was.cidr && p.parent == was.parent && p.source == was.source && p.deleted == was.deleted
    && p.account == u.account
    && (if u.name.Some? then p.name == u.name.value else p.name == was.name)
    && (if u.kind.Some? then p.kind == u.kind.value else p.kind == was.kind)
    && (if u.status.Some? then p.status == u.status.value else p.status == was.status)
    && (if u.description.Some? then p.description == u.description.value else p.description == was.description)
  }

  class Store {
    const backend: Backend
    const parse: Parser
    var pools: map<nat, Pool>
    var next: nat

    function Abs(): State
      reads this
    {
      State(pools, next)
    }

    constructor (backend: Backend, parse: Parser)
      ensures Abs() == EMPTY && this.backend == backend && this.parse == parse
    {
      this.backend, this.parse := backend, parse;
      pools, next := map[], 1;
    }

    /** Live pools, in the order of a Go map: any order, each pool once. */
    method ListPools() returns (all: seq<Pool>)
      requires Abs().WellFormed()
      ensures forall p :: p in all ==> Abs().Live(p.id) && pools[p.id] == p
      ensures forall id :: Abs().Live(id) ==> pools[id] in all
      ensures forall i, j :: 0 <= i < j < |all| ==> all[i].id != all[j].id
    {
      all := [];
      var todo: set<nat> := pools.Keys;
      while todo != {}
        invariant todo <= pools.Keys
        invariant forall p :: p in all ==> Abs().Live(p.id) && pools[p.id] == p && p.id !in todo
        invariant forall id :: Abs().Live(id) ==> id in todo || pools[id] in all
        invariant forall i, j :: 0 <= i < j < |all| ==> all[i].id != all[j].id
      {
        var id :| id in todo;
        todo := todo - {id};
        if !pools[id].deleted {
          all := all + [pools[id]];
        }
      }
    }

    method CreatePool(input: NewPool) returns (r: Result<Pool, StoreError>)
      modifies this
      ensures r.Ok? <==> input.name != "" && input.cidr != "" && !Unstorable(backend, parse, input.cidr)
                         && !Duplicate(backend, parse, old(Abs()), input)
      ensures r.Ok? ==> r.value == Fresh(old(Abs()), input) && Abs() == Insert(old(Abs()), input)
      ensures r.Ok? ==> IsNewPool(input, old(next), r.value) && pools == old(pools)[old(next) := r.value] && next == old(next) + 1
      ensures r.Err? ==> Abs() == old(Abs())
      ensures r.Err? ==> r.error == if input.name == "" || input.cidr == "" then ErrValidation
                                    else if Unstorable(backend, parse, input.cidr) then ErrDatabase else ErrConflict
    {
      if input.name == "" || input.cidr == "" {
        return Err(ErrValidation);
      }
      if Unstorable(backend, parse, input.cidr) {
        return Err(ErrDatabase);
      }
      if Duplicate(backend, parse, Abs(), input) {
        return Err(ErrConflict);
      }
      var p := Fresh(Abs(), input);
      pools, next := pools[next := p], next + 1;
      return Ok(p);
    }

    method GetPool(id: nat) returns (p: Option<Pool>)
      ensures p == if Abs().Live(id) then Some(pools[id]) else None
    {
      p := if id in pools && !pools[id].deleted then Some(pools[id]) else None;
    }

    method UpdatePool(id: nat, u: PoolUpdate) returns (p: Option<Pool>)
      modifies this
      ensures Abs() == Update(old(Abs()), id, u)
      ensures p == if id in pools then Some(pools[id]) else None
      ensures pools.Keys == old(pools).Keys && forall k :: k in pools && k != id ==> pools[k] == old(pools)[k]
      ensures id in pools ==> IsUpdated(old(pools)[id], u, pools[id])
    {
      if id !in pools {
        return None;
      }
      pools := pools[id := Updated(pools[id], u)];
      return Some(pools[id]);
    }

    method DeletePool(id: nat) returns (r: Result<bool, StoreError>)
      modifies this
      ensures Abs() == Delete(old(Abs()), id)
      ensures r == Ok(true) ==> id in old(pools) && pools == old(pools)[id := old(pools)[id].(deleted := true)]
      ensures r != Ok(true) ==> pools == old(pools)
      ensures r == if !old(Abs()).Live(id) then Ok(false)
                   else if exists c :: c in old(pools) && old(Abs()).ChildOf(c, id) then Err(ErrConflict)
                   else Ok(true)
    {
      if id !in pools || pools[id].deleted {
        return Ok(false);
      }
      var todo: set<nat> := pools.Keys;
      while todo != {}
        invariant todo <= pools.Keys && Abs() == old(Abs())
        invariant forall c :: c in pools && Abs().ChildOf(c, id) ==> c in todo
      {
        var ch :| ch in todo;
        if pools[ch].parent == Some(id) && !pools[ch].deleted {
          assert Abs().ChildOf(ch, id);
          return Err(ErrConflict);
        }
        todo := todo - {ch};
      }
      pools := pools[id := pools[id].(deleted := true)];
      return Ok(true);
    }

    /** Marks children of marked pools until nothing is added, then deletes the marked set. */
    method DeletePoolCascade(id: nat) returns (found: bool)
      modifies this
      ensures found == old(Abs()).Live(id)
      ensures Abs() == if found then DeleteCascade(old(Abs()), id) else old(Abs())
    {
      if id !in pools || pools[id].deleted {
        return false;
      }
      var toDelete := {id};
      BelowSelf(Abs(), id);
      var progressed := true;
      while progressed
        invariant Abs() == old(Abs()) && id in toDelete && toDelete <= pools.Keys
        invariant forall x :: x in toDelete ==> Below(Abs(), x, id)
        invariant !progressed ==> forall c, p :: Abs().ChildOf(c, p) && p in toDelete ==> c in toDelete
        decreases |pools.Keys - toDelete|, progressed
      {
        progressed := false;
        ghost var before := toDelete;
        var todo: set<nat> := pools.Keys;
        while todo != {}
          invariant Abs() == old(Abs()) && todo <= pools.Keys
          invariant before <= toDelete <= pools.Keys && (progressed <==> before != toDelete)
          invariant forall x :: x in toDelete ==> Below(Abs(), x, id)
          invariant before == toDelete ==>
            forall c, p :: Abs().ChildOf(c, p) && p in toDelete ==> c in toDelete || c in todo
          decreases todo
        {
          var pid :| pid in todo;
          todo := todo - {pid};
          if pid !in toDelete && !pools[pid].deleted && pools[pid].parent.Some?
             && pools[pid].parent.value in toDelete {
            BelowParent(Abs(), pid, id);
            toDelete := toDelete + {pid};
            progressed := true;
          }
        }
        if progressed {
          assert pools.Keys - toDelete < pools.Keys - before;
          ProperSubsetSmaller(pools.Keys - toDelete, pools.Keys - before);
        }
      }
      forall x | Below(Abs(), x, id)
        ensures x in toDelete
      {
        var path :| Climbs(Abs(), path, x, id);
        ClosedHoldsSubtree(Abs(), id, toDelete, path, x);
      }
      pools := map pid | pid in pools :: if pid in toDelete then pools[pid].(deleted := true) else pools[pid];
      return true;
    }
  }

  lemma ProperSubsetSmaller(a: set<nat>, b: set<nat>)
    requires a < b
    ensures |a| < |b|
  {
    assert b == a + (b - a);
    assert b - a != {};
  }
}
