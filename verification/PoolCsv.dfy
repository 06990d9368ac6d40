/** Exporting pools as CSV rows and importing such rows. */
module PoolCsv {

  import opened Cidr
  import opened PoolStore
  import opened Sorting
  import opened Text
  import opened Wrappers

  /** A row of `pools.csv`; 0 stands for an empty id cell. */
  datatype Row = Row(
    id: nat, name: string, cidr: string, parent: nat, account: nat, accountKey: string,
    kind: string, status: string, source: string, description: string)

  datatype Env = Env(backend: Backend, parse: Parser, accounts: set<nat>, accountKeys: map<string, nat>)

  datatype Progress = Progress(s: State, ids: map<nat, nat>, created: nat, skipped: nat, errors: nat)

  // ---------------------------------------------------------------- import

  /** Rows without a parent first, then by parent id. */
  predicate RowLess(a: Row, b: Row) {
    if a.parent == 0 && b.parent != 0 then true
    else if a.parent != 0 && b.parent == 0 then false
    else a.parent < b.parent
  }

  function ParentKey(r: Row): int {
    r.parent
  }

  lemma RowOrder()
    ensures OrdersBy(RowLess, ParentKey)
  {
  }

  function ResolveAccount(env: Env, r: Row): Result<Option<nat>, ()> {
    if r.accountKey != "" then
      if r.accountKey in env.accountKeys then Ok(Some(env.accountKeys[r.accountKey])) else Err(())
    else if r.account != 0 then
      if r.account in env.accounts then Ok(Some(r.account)) else Err(())
    else Ok(None)
  }

  /** The id the parent got in this import, else a pool that already has that id. */
  function ResolveParent(p: Progress, r: Row): Result<Option<nat>, ()> {
    if r.parent == 0 then Ok(None)
    else if r.parent in p.ids then Ok(Some(p.ids[r.parent]))
    else if p.s.Live(r.parent) then Ok(Some(r.parent))
    else Err(())
  }

  function PoolOf(r: Row, parent: Option<nat>, account: Option<nat>): NewPool {
    NewPool(r.name, r.cidr, parent, account, OrElse(r.kind, "subnet"), OrElse(r.status, "active"),
            OrElse(r.source, "manual"), r.description)
  }

  /** One round of `handleImportPools`. */
  function ImportRow(env: Env, p: Progress, r: Row): Progress {
    if ResolveAccount(env, r).Err? || ResolveParent(p, r).Err? then p.(errors := p.errors + 1)
    else
      var input := PoolOf(r, ResolveParent(p, r).value, ResolveAccount(env, r).value);
      if input.name == "" || input.cidr == "" || Unstorable(env.backend, env.parse, input.cidr)
      then p.(errors := p.errors + 1)
      else if Duplicate(env.backend, env.parse, p.s, input) then p.(skipped := p.skipped + 1)
      else
        p.(s := Insert(p.s, input), created := p.created + 1,
           ids := if r.id != 0 then p.ids[r.id := p.s.next] else p.ids)
  }

  function ImportRows(env: Env, s: State, rows: seq<Row>): Progress {
    if rows == [] then Progress(s, map[], 0, 0, 0)
    else ImportRow(env, ImportRows(env, s, rows[..|rows| - 1]), rows[|rows| - 1])
  }

  function FlatMap<T>(s: seq<T>, f: T -> seq<T>): seq<T> {
    if s == [] then [] else FlatMap(s[..|s| - 1], f) + f(s[|s| - 1])
  }

  /** Cells are trimmed; rows without a name or an address are dropped. */
  function Cleaned(raw: seq<Row>): seq<Row> {
    FlatMap(raw, Kept)
  }

  function Kept(raw: Row): seq<Row> {
    var row := Clean(raw);
    if row.name == "" || row.cidr == "" then [] else [row]
  }

  function Clean(r: Row): Row {
    r.(name := TrimSpace(r.name), cidr := TrimSpace(r.cidr))
  }

  function Import(env: Env, s: State, raw: seq<Row>): Progress {
    ImportRows(env, s, StableSort(Cleaned(raw), RowLess))
  }

  /** `handleImportPools` against a store. */
  method ImportPools(store: Store, accounts: set<nat>, accountKeys: map<string, nat>, raw: seq<Row>)
    returns (p: Progress)
    modifies store
    ensures p == Import(Env(store.backend, store.parse, accounts, accountKeys), old(store.Abs()), raw)
    ensures store.Abs() == p.s
    ensures p.created + p.skipped + p.errors == CountNamed(raw)
  {
    EveryRowCounted(Env(store.backend, store.parse, accounts, accountKeys), store.Abs(), raw);
    var env := Env(store.backend, store.parse, accounts, accountKeys);
    var rows := StableSort(Cleaned(raw), RowLess);
    p := Progress(store.Abs(), map[], 0, 0, 0);
    for i := 0 to |rows|
      invariant p == ImportRows(env, old(store.Abs()), rows[..i]) && store.Abs() == p.s
    {
      assert rows[..i + 1][..i] == rows[..i];
      p := ImportOne(store, env, p, rows[i]);
    }
    assert rows[..|rows|] == rows;
  }

  method ImportOne(store: Store, env: Env, p: Progress, r: Row) returns (p': Progress)
    requires env.backend == store.backend && env.parse == store.parse && p.s == store.Abs()
    modifies store
    ensures p' == ImportRow(env, p, r) && store.Abs() == p'.s
    ensures p'.errors == p.errors + (if Refused(env, p, r) then 1 else 0)
    ensures p'.skipped == p.skipped + (if !Refused(env, p, r) && Taken(env, p, r) then 1 else 0)
    ensures p'.created == p.created + (if !Refused(env, p, r) && !Taken(env, p, r) then 1 else 0)
    ensures !Refused(env, p, r) && !Taken(env, p, r) ==> BecamePool(env, p, r, p')
    ensures Refused(env, p, r) || Taken(env, p, r) ==> p'.s == p.s && p'.ids == p.ids
  {
    RowOutcome(env, p, r);
    var account := ResolveAccount(env, r);
    if account.Err? {
      return p.(errors := p.errors + 1);
    }
    var parent := ResolveParent(p, r);
    if parent.Err? {
      return p.(errors := p.errors + 1);
    }
    var created := store.CreatePool(PoolOf(r, parent.value, account.value));
    match created
    case Err(ErrConflict) => return p.(skipped := p.skipped + 1);
    case Err(_) => return p.(errors := p.errors + 1);
    case Ok(pool) =>
      var ids := if r.id != 0 then p.ids[r.id := pool.id] else p.ids;
      return Progress(store.Abs(), ids, p.created + 1, p.skipped, p.errors);
  }

  // ---------------------------------------------------------------- what becomes of one row

  /** The account or the parent is unknown, or the row has no name or no address that can be stored. */
  ghost predicate Refused(env: Env, p: Progress, r: Row) {
    !KnowsAccount(env, r) || (r.parent != 0 && r.parent !in p.ids && !p.s.Live(r.parent))
    || r.name == "" || r.cidr == "" || (env.backend == Postgres && env.parse(r.cidr).None?)
  }

  /** The row's parent has this id in the target store. */
  ghost predicate HasParent(p: Progress, r: Row, parent: Option<nat>) {
    if r.parent == 0 then parent == None
    else if r.parent in p.ids then parent == Some(p.ids[r.parent])
    else parent == Some(r.parent)
  }

  /** A stored pool has the row's key in the unique index. */
  ghost predicate Taken(env: Env, p: Progress, r: Row) {
    exists id :: id in p.s.pools && TakenBy(env, p, r, p.s.pools[id])
  }

  ghost predicate TakenBy(env: Env, p: Progress, r: Row, pool: Pool) {
    (env.backend == Sqlite && pool.cidr == r.cidr && HasParent(p, r, pool.parent))
    || (env.backend == Postgres && !pool.deleted && SameAddress(env.parse, pool.cidr, r.cidr))
  }

  /** The row is the newest pool, and its id stands for that pool from now on. */
  ghost predicate BecamePool(env: Env, p: Progress, r: Row, p': Progress) {
    var id := p.s.next;
    id in p'.s.pools
    && var pool := p'.s.pools[id];
       IsNewPool(NewPool(r.name, r.cidr, pool.parent, pool.account, r.kind, r.status, r.source, r.description), id, pool)
       && Assigned(env, r, pool.account) && HasParent(p, r, pool.parent)
       && p'.s == State(p.s.pools[id := pool], id + 1)
       && p'.ids == if r.id == 0 then p.ids else p.ids[r.id := id]
  }

  lemma TakenIsDuplicate(env: Env, p: Progress, r: Row)
    requires ResolveAccount(env, r).Ok? && ResolveParent(p, r).Ok?
    ensures Taken(env, p, r) <==> Duplicate(env.backend, env.parse, p.s, InputFor(env, p, r))
  {
    var input := InputFor(env, p, r);
    assert forall pool: Pool :: TakenBy(env, p, r, pool) <==> RefusedBy(env, pool, input);
    assert Duplicate(env.backend, env.parse, p.s, input) <==>
      exists id :: id in p.s.pools && RefusedBy(env, p.s.pools[id], input);
  }

  lemma RowOutcome(env: Env, p: Progress, r: Row)
    ensures var p' := ImportRow(env, p, r);
      p'.errors == p.errors + (if Refused(env, p, r) then 1 else 0)
      && p'.skipped == p.skipped + (if !Refused(env, p, r) && Taken(env, p, r) then 1 else 0)
      && p'.created == p.created + (if !Refused(env, p, r) && !Taken(env, p, r) then 1 else 0)
      && (if Refused(env, p, r) || Taken(env, p, r) then p'.s == p.s && p'.ids == p.ids else BecamePool(env, p, r, p'))
  {
    if !Refused(env, p, r) {
      TakenIsDuplicate(env, p, r);
    }
  }

  /** Raw rows that name a pool and an address. */
  ghost function CountNamed(raw: seq<Row>): nat {
    if raw == [] then 0
    else
      var r := raw[|raw| - 1];
      CountNamed(raw[..|raw| - 1]) + if TrimSpace(r.name) != "" && TrimSpace(r.cidr) != "" then 1 else 0
  }

  /** What a raw row becomes: trimmed name and address, the rest as it is. */
  ghost predicate Trims(raw: Row, r: Row) {
    r.name == TrimSpace(raw.name) != "" && r.cidr == TrimSpace(raw.cidr) != ""
    && r == raw.(name := r.name, cidr := r.cidr)
  }

  lemma {:induction false} CleanedCount(raw: seq<Row>)
    ensures |Cleaned(raw)| == CountNamed(raw)
  {
    if raw != [] {
      CleanedCount(raw[..|raw| - 1]);
    }
  }

  lemma {:induction false} CleanedAre(raw: seq<Row>, r: Row)
    ensures r in Cleaned(raw) <==> exists q :: q in raw && Trims(q, r)
  {
    if raw != [] {
      var init, q := raw[..|raw| - 1], raw[|raw| - 1];
      CleanedAre(init, r);
      assert raw == init + [q];
      assert r in Kept(q) <==> Trims(q, r);
    }
  }

  lemma {:induction false} RowsAddUp(env: Env, s: State, rows: seq<Row>)
    ensures var p := ImportRows(env, s, rows); p.created + p.skipped + p.errors == |rows|
  {
    if rows != [] {
      RowsAddUp(env, s, rows[..|rows| - 1]);
    }
  }

  /** Every raw row with a name and an address is created, skipped or reported; the rows tried are those, trimmed. */
  lemma EveryRowCounted(env: Env, s: State, raw: seq<Row>)
    ensures var p := Import(env, s, raw); p.created + p.skipped + p.errors == CountNamed(raw)
    ensures forall r :: r in Cleaned(raw) <==> exists q :: q in raw && Trims(q, r)
  {
    CleanedCount(raw);
    RowsAddUp(env, s, StableSort(Cleaned(raw), RowLess));
    assert |StableSort(Cleaned(raw), RowLess)| == |Cleaned(raw)|;
    forall r
      ensures r in Cleaned(raw) <==> exists q :: q in raw && Trims(q, r)
    {
      CleanedAre(raw, r);
    }
  }

  // ---------------------------------------------------------------- when an import rebuilds its rows

  /** Rows of a complete listing: distinct ids, known accounts, storable addresses, parents listed. */
  ghost predicate Complete(env: Env, rows: seq<Row>) {
    Distinct(rows)
    && (forall r :: r in rows ==> CompleteRow(env, r))
    && (forall r, q :: r in rows && q in rows && r.id == q.id ==> r == q)
    && forall r :: r in rows && r.parent != 0 ==> exists q :: q in rows && q.id == r.parent
  }

  ghost predicate CompleteRow(env: Env, r: Row) {
    r.id != 0 && r.name != "" && r.cidr != "" && !Unstorable(env.backend, env.parse, r.cidr)
    && KnowsAccount(env, r)
  }

  /** The unique index of the target store does not allow both rows. */
  predicate Clash(env: Env, a: Row, b: Row) {
    match env.backend
    case Memory => false
    case Sqlite => a.parent == b.parent && a.cidr == b.cidr
    case Postgres => SameAddress(env.parse, a.cidr, b.cidr)
  }

  ghost predicate Clashing(env: Env, rows: seq<Row>) {
    exists a, b :: a in rows && b in rows && a != b && Clash(env, a, b)
  }

  /** The account a row names: its key, else its id, else none. */
  ghost predicate Assigned(env: Env, r: Row, account: Option<nat>) {
    (r.accountKey != "" ==> r.accountKey in env.accountKeys && account == Some(env.accountKeys[r.accountKey]))
    && (r.accountKey == "" && r.account != 0 ==> account == Some(r.account))
    && (r.accountKey == "" && r.account == 0 ==> account == None)
  }

  ghost predicate KnowsAccount(env: Env, r: Row) {
    if r.accountKey != "" then r.accountKey in env.accountKeys else r.account == 0 || r.account in env.accounts
  }

  /** The row became a pool with the same columns, and defaults for empty ones, under the matching parent. */
  ghost predicate Placed(env: Env, p: Progress, r: Row) {
    r.id in p.ids && p.ids[r.id] in p.s.pools
    && var pool := p.s.pools[p.ids[r.id]];
       !pool.deleted && pool.name == r.name && pool.cidr == r.cidr && Assigned(env, r, pool.account)
       && pool.description == r.description
       && (if r.kind == "" then pool.kind == "subnet" else pool.kind == r.kind)
       && (if r.status == "" then pool.status == "active" else pool.status == r.status)
       && (if r.source == "" then pool.source == "manual" else pool.source == r.source)
       && (if r.parent == 0 then pool.parent == None else r.parent in p.ids && pool.parent == Some(p.ids[r.parent]))
  }

  /** Old and new ids correspond one to one. */
  ghost predicate OneToOne(p: Progress) {
    p.s.pools.Keys == p.ids.Values
    && forall x, y :: x in p.ids && y in p.ids && x != y ==> p.ids[x] != p.ids[y]
  }

  ghost predicate RebuiltTo(env: Env, rows: seq<Row>, n: nat, p: Progress)
    requires n <= |rows|
  {
    p.errors == 0 && p.skipped == 0 && OneToOne(p)
    && forall i :: 0 <= i < n ==> Placed(env, p, rows[i])
  }

  /** Nothing was refused, and every row became exactly one pool. */
  ghost predicate Rebuilt(env: Env, rows: seq<Row>, p: Progress) {
    p.errors == 0 && p.skipped == 0 && OneToOne(p)
    && (forall r :: r in rows ==> Placed(env, p, r))
    && forall key :: key in p.ids ==> exists r :: r in rows && r.id == key
  }

  /** A parent that has a parent itself has the larger id of the two. */
  ghost predicate ParentsOlder(rows: seq<Row>) {
    forall c, p :: c in rows && p in rows && c.parent == p.id && p.parent != 0 ==> p.parent < p.id
  }

  ghost predicate Sorted(rows: seq<Row>) {
    forall i, j :: 0 <= i < j < |rows| ==> rows[i].parent <= rows[j].parent
  }

  lemma ParentComesFirst(env: Env, rows: seq<Row>, i: nat)
    requires Complete(env, rows) && Sorted(rows) && ParentsOlder(rows) && i < |rows| && rows[i].parent != 0
    ensures exists j :: 0 <= j < i && rows[j].id == rows[i].parent
  {
    assert rows[i] in rows;
    var q :| q in rows && q.id == rows[i].parent;
    var j :| 0 <= j < |rows| && rows[j] == q;
    assert q.parent < rows[i].parent;
  }

  function Stored(p: Progress, key: nat, input: NewPool): Progress {
    p.(s := Insert(p.s, input), ids := p.ids[key := p.s.next], created := p.created + 1)
  }

  /** Later insertions leave placed rows alone. */
  lemma PlacedKept(env: Env, p: Progress, r: Row, key: nat, input: NewPool)
    requires Placed(env, p, r) && key !in p.ids && p.s.next !in p.s.pools
    ensures Placed(env, Stored(p, key, input), r)
  {
  }

  lemma OneToOneKept(p: Progress, key: nat, input: NewPool)
    requires OneToOne(p) && key !in p.ids && p.s.next !in p.s.pools
    ensures OneToOne(Stored(p, key, input))
  {
    var p' := Stored(p, key, input);
    forall x | x in p.ids
      ensures p'.ids[x] == p.ids[x] != p.s.next
    {
      assert p.ids[x] in p.ids.Values;
    }
    assert p'.ids.Values == p.ids.Values + {p.s.next} by {
      assert p'.ids[key] == p.s.next;
    }
  }

  /** A complete row whose parent resolves is stored unless the index refuses it. */
  lemma RowStored(env: Env, p: Progress, r: Row)
    requires CompleteRow(env, r) && ResolveParent(p, r).Ok?
    requires !Duplicate(env.backend, env.parse, p.s, InputFor(env, p, r))
    ensures ImportRow(env, p, r) == Stored(p, r.id, InputFor(env, p, r))
  {
  }

  function InputFor(env: Env, p: Progress, r: Row): NewPool
    requires ResolveAccount(env, r).Ok? && ResolveParent(p, r).Ok?
  {
    PoolOf(r, ResolveParent(p, r).value, ResolveAccount(env, r).value)
  }

  /** The index refuses no row of a clash-free listing whose earlier rows are all placed. */
  lemma NotDuplicate(env: Env, rows: seq<Row>, i: nat, p: Progress)
    requires Complete(env, rows) && !Clashing(env, rows) && i < |rows| && RebuiltTo(env, rows, i, p)
    requires forall key :: key in p.ids ==> exists k :: 0 <= k < i && rows[k].id == key
    requires rows[i].parent != 0 ==> rows[i].parent in p.ids
    ensures ResolveAccount(env, rows[i]).Ok? && ResolveParent(p, rows[i]).Ok?
    ensures !Duplicate(env.backend, env.parse, p.s, InputFor(env, p, rows[i]))
  {
    var r := rows[i];
    assert r in rows;
    var input := InputFor(env, p, r);
    forall id | id in p.s.pools
      ensures !RefusedBy(env, p.s.pools[id], input)
    {
      assert id in p.ids.Values;
      var key :| key in p.ids && p.ids[key] == id;
      var k :| 0 <= k < i && rows[k].id == key;
      assert Placed(env, p, rows[k]) && rows[k] in rows && rows[k] != r;
      assert !Clash(env, rows[k], r);
    }
  }

  /** The stored pool keeps the input out. */
  predicate RefusedBy(env: Env, pool: Pool, input: NewPool) {
    match env.backend
    case Memory => false
    case Sqlite => pool.parent == input.parent && pool.cidr == input.cidr
    case Postgres => !pool.deleted && SameAddress(env.parse, pool.cidr, input.cidr)
  }

  lemma NewPlaced(env: Env, p: Progress, r: Row)
    requires ResolveAccount(env, r).Ok? && r.id !in p.ids && (r.parent != 0 ==> r.parent in p.ids)
    ensures Placed(env, Stored(p, r.id, PoolOf(r, ResolveParent(p, r).value, ResolveAccount(env, r).value)), r)
  {
  }

  /** A row whose parent was placed is placed in turn. */
  lemma PlaceRow(env: Env, rows: seq<Row>, i: nat, p: Progress)
    requires i < |rows| && RebuiltTo(env, rows, i, p) && p.s.next !in p.s.pools && rows[i].id !in p.ids
    requires CompleteRow(env, rows[i]) && (rows[i].parent != 0 ==> rows[i].parent in p.ids)
    requires !Duplicate(env.backend, env.parse, p.s, InputFor(env, p, rows[i]))
    ensures RebuiltTo(env, rows, i + 1, ImportRow(env, p, rows[i]))
  {
    var r := rows[i];
    RowStored(env, p, r);
    var input := InputFor(env, p, r);
    OneToOneKept(p, r.id, input);
    NewPlaced(env, p, r);
    forall k | 0 <= k < i
      ensures Placed(env, Stored(p, r.id, input), rows[k])
    {
      PlacedKept(env, p, rows[k], r.id, input);
    }
  }

  // ---------------------------------------------------------------- and when it does not

  /** What later rows cannot change. */
  ghost predicate Extends(p: Progress, q: Progress) {
    p.s.next <= q.s.next && p.errors <= q.errors && p.skipped <= q.skipped
    && (forall id :: id in p.s.pools ==> id in q.s.pools && q.s.pools[id] == p.s.pools[id])
    && forall key :: key in q.ids ==> (key in p.ids && q.ids[key] == p.ids[key]) || p.s.next <= q.ids[key] < q.s.next
  }

  lemma ExtendsTransitive(p: Progress, q: Progress, r: Progress)
    requires Extends(p, q) && Extends(q, r)
    ensures Extends(p, r)
  {
  }

  ghost predicate Bounded(p: Progress) {
    forall id :: id in p.s.pools ==> id < p.s.next
  }

  lemma RowExtends(env: Env, p: Progress, r: Row)
    requires Bounded(p)
    ensures Extends(p, ImportRow(env, p, r)) && Bounded(ImportRow(env, p, r))
    ensures forall key :: key in p.ids && key != r.id ==>
      key in ImportRow(env, p, r).ids && ImportRow(env, p, r).ids[key] == p.ids[key]
  {
  }

  /** State after the first `n` rows. */
  function After(env: Env, rows: seq<Row>, n: nat): Progress
    requires n <= |rows|
  {
    ImportRows(env, EMPTY, rows[..n])
  }

  lemma AfterNext(env: Env, rows: seq<Row>, n: nat)
    requires n < |rows|
    ensures After(env, rows, n + 1) == ImportRow(env, After(env, rows, n), rows[n])
  {
    assert rows[..n + 1][..n] == rows[..n];
  }

  lemma {:induction false} LaterExtends(env: Env, rows: seq<Row>, i: nat, n: nat)
    requires i <= n <= |rows| && Bounded(After(env, rows, i))
    ensures Extends(After(env, rows, i), After(env, rows, n)) && Bounded(After(env, rows, n))
  {
    if i < n {
      LaterExtends(env, rows, i, n - 1);
      AfterNext(env, rows, n - 1);
      RowExtends(env, After(env, rows, n - 1), rows[n - 1]);
      ExtendsTransitive(After(env, rows, i), After(env, rows, n - 1), After(env, rows, n));
    }
  }

  lemma {:induction false} KeptKey(env: Env, rows: seq<Row>, i: nat, n: nat, key: nat)
    requires i <= n <= |rows| && Bounded(After(env, rows, i)) && key in After(env, rows, i).ids
    requires forall k :: i <= k < n ==> rows[k].id != key
    ensures key in After(env, rows, n).ids && After(env, rows, n).ids[key] == After(env, rows, i).ids[key]
  {
    if i < n {
      KeptKey(env, rows, i, n - 1, key);
      LaterExtends(env, rows, i, n - 1);
      AfterNext(env, rows, n - 1);
      RowExtends(env, After(env, rows, n - 1), rows[n - 1]);
    }
  }

  lemma {:induction false} KeysAreSeen(env: Env, rows: seq<Row>, n: nat, key: nat)
    requires n <= |rows| && key in After(env, rows, n).ids
    ensures exists k :: 0 <= k < n && rows[k].id == key
  {
    if n > 0 {
      AfterNext(env, rows, n - 1);
      if key in After(env, rows, n - 1).ids {
        KeysAreSeen(env, rows, n - 1, key);
      }
    }
  }

  lemma DistinctIds(env: Env, rows: seq<Row>, j: nat, k: nat)
    requires Complete(env, rows) && j < k < |rows|
    ensures rows[j].id != rows[k].id
  {
    assert rows[j] in rows && rows[k] in rows && rows[j] != rows[k];
  }

  lemma IdIsNew(env: Env, rows: seq<Row>, i: nat)
    requires Complete(env, rows) && i < |rows|
    ensures rows[i].id !in After(env, rows, i).ids
  {
    if rows[i].id in After(env, rows, i).ids {
      KeysAreSeen(env, rows, i, rows[i].id);
      var k :| 0 <= k < i && rows[k].id == rows[i].id;
      DistinctIds(env, rows, k, i);
    }
  }

  /** In a sorted listing the parent of the next row has been placed. */
  lemma ParentIsPlaced(env: Env, rows: seq<Row>, i: nat, p: Progress)
    requires Complete(env, rows) && Sorted(rows) && ParentsOlder(rows) && i < |rows| && rows[i].parent != 0
    requires RebuiltTo(env, rows, i, p)
    ensures rows[i].parent in p.ids
  {
    ParentComesFirst(env, rows, i);
    var j :| 0 <= j < i && rows[j].id == rows[i].parent;
    assert Placed(env, p, rows[j]);
  }

  lemma NothingRebuilt(env: Env, rows: seq<Row>)
    ensures RebuiltTo(env, rows, 0, After(env, rows, 0)) && Bounded(After(env, rows, 0))
  {
    assert After(env, rows, 0) == Progress(EMPTY, map[], 0, 0, 0);
  }

  /** The next row of a sorted clash-free listing is placed in turn. */
  lemma NextIsPlaced(env: Env, rows: seq<Row>, i: nat, p: Progress)
    requires Complete(env, rows) && Sorted(rows) && ParentsOlder(rows) && !Clashing(env, rows) && i < |rows|
    requires p == After(env, rows, i) && RebuiltTo(env, rows, i, p) && Bounded(p)
    ensures RebuiltTo(env, rows, i + 1, ImportRow(env, p, rows[i]))
  {
    if rows[i].parent != 0 {
      ParentIsPlaced(env, rows, i, p);
    }
    IdIsNew(env, rows, i);
    assert rows[i] in rows;
    forall key | key in p.ids
      ensures exists k :: 0 <= k < i && rows[k].id == key
    {
      KeysAreSeen(env, rows, i, key);
    }
    NotDuplicate(env, rows, i, p);
    PlaceRow(env, rows, i, p);
  }

  lemma {:induction false} OlderParentsRebuild(env: Env, rows: seq<Row>, i: nat)
    requires Complete(env, rows) && Sorted(rows) && ParentsOlder(rows) && !Clashing(env, rows) && i <= |rows|
    ensures RebuiltTo(env, rows, i, After(env, rows, i)) && Bounded(After(env, rows, i))
  {
    if i == 0 {
      NothingRebuilt(env, rows);
    } else {
      var j := i - 1;
      OlderParentsRebuild(env, rows, j);
      var p := After(env, rows, j);
      NextIsPlaced(env, rows, j, p);
      AfterNext(env, rows, j);
      RowExtends(env, p, rows[j]);
    }
  }

  /** A row processed before its parent is refused or ends up under another pool. */
  lemma EarlyChildMisplaced(env: Env, rows: seq<Row>, c: nat)
    requires Complete(env, rows) && c < |rows| && rows[c].parent != 0
    requires forall k :: 0 <= k < c ==> rows[k].id != rows[c].parent
    ensures !Rebuilt(env, rows, After(env, rows, |rows|))
  {
    var n, r, parent := |rows|, rows[c], rows[c].parent;
    var p, p', end := After(env, rows, c), After(env, rows, c + 1), After(env, rows, n);
    LaterExtends(env, rows, 0, c);
    AfterNext(env, rows, c);
    RowExtends(env, p, r);
    LaterExtends(env, rows, c + 1, n);
    LaterExtends(env, rows, c, n);
    assert r in rows;
    if parent in p.ids {
      KeysAreSeen(env, rows, c, parent);
    } else if p.s.Live(parent) && !Duplicate(env.backend, env.parse, p.s, InputFor(env, p, r)) {
      RowStored(env, p, r);
      forall k | c + 1 <= k < n
        ensures rows[k].id != r.id
      {
        DistinctIds(env, rows, c, k);
      }
      KeptKey(env, rows, c + 1, n, r.id);
      assert end.ids[r.id] == p.s.next && end.s.pools[p.s.next].parent == Some(parent);
      if parent in end.ids {
        assert end.ids[parent] >= p.s.next > parent;
      }
      assert !Placed(env, end, rows[c]);
    }
  }

  lemma RebuiltWhenOlder(env: Env, rows: seq<Row>)
    requires Complete(env, rows) && Sorted(rows) && ParentsOlder(rows) && !Clashing(env, rows)
    ensures Rebuilt(env, rows, After(env, rows, |rows|))
  {
    var end := After(env, rows, |rows|);
    OlderParentsRebuild(env, rows, |rows|);
    forall key | key in end.ids
      ensures exists r :: r in rows && r.id == key
    {
      KeysAreSeen(env, rows, |rows|, key);
      var k :| 0 <= k < |rows| && rows[k].id == key;
      assert rows[k] in rows;
    }
    forall r | r in rows
      ensures Placed(env, end, r)
    {
      var k :| 0 <= k < |rows| && rows[k] == r;
    }
  }

  lemma NotRebuiltWhenYounger(env: Env, rows: seq<Row>, c: Row, q: Row)
    requires Complete(env, rows) && Sorted(rows)
    requires c in rows && q in rows && c.parent == q.id && q.parent != 0 && q.parent >= q.id
    ensures !Rebuilt(env, rows, After(env, rows, |rows|))
  {
    var first := if q.parent == q.id then q else c;
    var i :| 0 <= i < |rows| && rows[i] == first;
    var j :| 0 <= j < |rows| && rows[j] == q;
    assert j >= i && first.parent == q.id;
    forall k | 0 <= k < i
      ensures rows[k].id != first.parent
    {
      DistinctIds(env, rows, k, j);
    }
    EarlyChildMisplaced(env, rows, i);
  }

  /** Every state of an import satisfies the unique index. */
  lemma {:induction false} ImportKeepsIndex(env: Env, rows: seq<Row>, n: nat)
    requires n <= |rows|
    ensures IndexHolds(env.backend, env.parse, After(env, rows, n).s) && Bounded(After(env, rows, n))
  {
    if n > 0 {
      ImportKeepsIndex(env, rows, n - 1);
      AfterNext(env, rows, n - 1);
      RowKeepsIndex(env, After(env, rows, n - 1), rows[n - 1]);
    }
  }

  lemma RowKeepsIndex(env: Env, p: Progress, r: Row)
    requires IndexHolds(env.backend, env.parse, p.s) && Bounded(p)
    ensures IndexHolds(env.backend, env.parse, ImportRow(env, p, r).s) && Bounded(ImportRow(env, p, r))
  {
    RowExtends(env, p, r);
    if ResolveAccount(env, r).Ok? && ResolveParent(p, r).Ok? {
      var input := InputFor(env, p, r);
      if !Duplicate(env.backend, env.parse, p.s, input) {
        InsertKeepsIndex(env.backend, env.parse, p.s, input);
      }
    }
  }

  /** Clashing rows cannot both be placed. */
  lemma RebuiltHasNoClash(env: Env, rows: seq<Row>, p: Progress)
    requires Complete(env, rows) && Rebuilt(env, rows, p) && IndexHolds(env.backend, env.parse, p.s)
    ensures !Clashing(env, rows)
  {
    forall a, b | a in rows && b in rows && a != b
      ensures !Clash(env, a, b)
    {
      assert Placed(env, p, a) && Placed(env, p, b) && a.id != b.id;
      var x, y := p.ids[a.id], p.ids[b.id];
      assert !SameKey(env.backend, env.parse, p.s.pools[x], p.s.pools[y]);
    }
  }

  /** Importing a sorted complete listing rebuilds it exactly when parents of parents are older and no rows clash. */
  lemma SortedRebuildIff(env: Env, rows: seq<Row>)
    requires Complete(env, rows) && Sorted(rows)
    ensures Rebuilt(env, rows, ImportRows(env, EMPTY, rows)) <==> ParentsOlder(rows) && !Clashing(env, rows)
  {
    assert rows[..|rows|] == rows;
    var end := After(env, rows, |rows|);
    ImportKeepsIndex(env, rows, |rows|);
    if Rebuilt(env, rows, end) {
      RebuiltHasNoClash(env, rows, end);
    }
    if !ParentsOlder(rows) {
      var c, q :| c in rows && q in rows && c.parent == q.id && q.parent != 0 && q.parent >= q.id;
      NotRebuiltWhenYounger(env, rows, c, q);
    } else if !Clashing(env, rows) {
      RebuiltWhenOlder(env, rows);
    }
  }

  // ---------------------------------------------------------------- any order, and the export round trip

  /** The facts above do not depend on the order of the rows. */
  lemma Rearranged(env: Env, rows: seq<Row>, sorted: seq<Row>)
    requires Complete(env, rows) && multiset(sorted) == multiset(rows)
    ensures Complete(env, sorted) && (ParentsOlder(sorted) <==> ParentsOlder(rows))
    ensures Clashing(env, sorted) <==> Clashing(env, rows)
    ensures forall p: Progress :: Rebuilt(env, sorted, p) <==> Rebuilt(env, rows, p)
  {
    SameElements(rows, sorted);
    DistinctRearranged(rows, sorted);
  }

  /** Importing a complete listing, in any order, rebuilds it exactly when parents of parents are older
      and the index of the target store allows all rows together. */
  lemma ImportRebuildsIff(env: Env, rows: seq<Row>)
    requires Complete(env, rows)
    ensures Rebuilt(env, rows, ImportRows(env, EMPTY, StableSort(rows, RowLess)))
       <==> ParentsOlder(rows) && !Clashing(env, rows)
  {
    var sorted := StableSort(rows, RowLess);
    RowOrder();
    SortSorts(rows, RowLess, ParentKey);
    assert Sorted(sorted) by {
      forall i, j | 0 <= i < j < |sorted|
        ensures sorted[i].parent <= sorted[j].parent
      {
        assert ParentKey(sorted[i]) <= ParentKey(sorted[j]);
      }
    }
    Rearranged(env, rows, sorted);
    SortedRebuildIff(env, sorted);
  }

  /** A row of the pools export; the other columns are not exported. */
  function Exported(p: Pool): Row {
    Row(p.id, p.name, p.cidr, if p.parent.Some? then p.parent.value else 0,
        if p.account.Some? then p.account.value else 0, "", "", "", "", "")
  }

  /** The pools part of `handleExport`. */
  method ExportPools(store: Store) returns (rows: seq<Row>)
    requires store.Abs().WellFormed()
    ensures IsExport(store.Abs(), rows)
  {
    var pools := store.ListPools();
    var sorted := StableSort(pools, (a: Pool, b: Pool) => a.id < b.id);
    SameElements(pools, sorted);
    DistinctRearranged(pools, sorted);
    rows := [];
    for i := 0 to |sorted|
      invariant |rows| == i && forall k :: 0 <= k < i ==> rows[k] == Exported(sorted[k])
    {
      rows := rows + [Exported(sorted[i])];
    }
    ExportOf(store.Abs(), sorted, rows);
  }

  /** One row per live pool. */
  ghost predicate IsExport(s: State, rows: seq<Row>) {
    Distinct(rows)
    && (forall r :: r in rows ==> s.Live(r.id) && r == Exported(s.pools[r.id]))
    && forall id :: s.Live(id) ==> Exported(s.pools[id]) in rows
  }

  lemma ExportOf(s: State, pools: seq<Pool>, rows: seq<Row>)
    requires s.WellFormed() && Distinct(pools) && |rows| == |pools|
    requires forall p :: p in pools ==> s.Live(p.id) && s.pools[p.id] == p
    requires forall id :: s.Live(id) ==> s.pools[id] in pools
    requires forall k :: 0 <= k < |pools| ==> rows[k] == Exported(pools[k])
    ensures IsExport(s, rows)
  {
    forall i, j | 0 <= i < j < |rows|
      ensures rows[i] != rows[j]
    {
      assert pools[i] in pools && pools[j] in pools && pools[i] != pools[j];
    }
    forall id | s.Live(id)
      ensures Exported(s.pools[id]) in rows
    {
      var k :| 0 <= k < |pools| && pools[k] == s.pools[id];
      assert rows[k] in rows;
    }
  }

  /** Every live pool has a live parent, a trimmed name and address that the target can store, and a known account. */
  ghost predicate Exportable(env: Env, s: State) {
    s.WellFormed()
    && (forall c, p :: s.ChildOf(c, p) ==> s.Live(p))
    && forall id :: s.Live(id) ==>
         var p := s.pools[id];
         p.name != "" && TrimSpace(p.name) == p.name && p.cidr != "" && TrimSpace(p.cidr) == p.cidr
         && !Unstorable(env.backend, env.parse, p.cidr)
         && (p.account.Some? ==> p.account.value != 0 && p.account.value in env.accounts)
  }

  ghost predicate KeepsAll<T>(s: seq<T>, f: T -> seq<T>) {
    forall x :: x in s ==> f(x) == [x]
  }

  lemma {:induction false} FlatMapUnchanged<T>(s: seq<T>, f: T -> seq<T>)
    requires KeepsAll(s, f)
    ensures FlatMap(s, f) == s
  {
    if s != [] {
      var init, last := s[..|s| - 1], s[|s| - 1];
      assert s == init + [last];
      assert last in s && KeepsAll(init, f);
      FlatMapUnchanged(init, f);
    }
  }

  /** The copy of a pool after export and import: same name, address and account, corresponding parent,
      defaults for the columns that are not exported. */
  ghost predicate Copied(s: State, p: Progress, id: nat) {
    s.Live(id) && id in p.ids && p.s.Live(p.ids[id])
    && var old', new' := s.pools[id], p.s.pools[p.ids[id]];
       new'.name == old'.name && new'.cidr == old'.cidr && new'.account == old'.account
       && new'.kind == "subnet" && new'.status == "active" && new'.source == "manual" && new'.description == ""
       && (match old'.parent
           case None => new'.parent == None
           case Some(q) => q in p.ids && new'.parent == Some(p.ids[q]))
  }

  lemma RebuiltCopies(env: Env, s: State, rows: seq<Row>, p: Progress)
    requires Exportable(env, s) && IsExport(s, rows) && Rebuilt(env, rows, p)
    ensures (forall id :: id in p.ids <==> s.Live(id)) && forall id :: s.Live(id) ==> Copied(s, p, id)
  {
    forall id | s.Live(id)
      ensures Copied(s, p, id)
    {
      CopiedPool(env, s, p, id);
    }
  }

  lemma CopiedPool(env: Env, s: State, p: Progress, id: nat)
    requires Exportable(env, s) && s.Live(id) && Placed(env, p, Exported(s.pools[id]))
    ensures Copied(s, p, id)
  {
    if s.pools[id].parent.Some? {
      assert s.ChildOf(id, s.pools[id].parent.value);
    }
  }

  /** No errors, no row skipped, ids in bijection, and every live pool copied. */
  ghost predicate RoundTrips(s: State, p: Progress) {
    p.errors == 0 && p.skipped == 0 && OneToOne(p)
    && (forall id :: id in p.ids <==> s.Live(id)) && forall id :: s.Live(id) ==> Copied(s, p, id)
  }

  lemma CopiedIsPlaced(env: Env, s: State, p: Progress, id: nat)
    requires Exportable(env, s) && Copied(s, p, id)
    ensures Placed(env, p, Exported(s.pools[id]))
  {
    if s.pools[id].parent.Some? {
      assert s.ChildOf(id, s.pools[id].parent.value);
    }
  }

  lemma RoundTripsIffRebuilt(env: Env, s: State, rows: seq<Row>, p: Progress)
    requires Exportable(env, s) && IsExport(s, rows)
    ensures RoundTrips(s, p) <==> Rebuilt(env, rows, p)
  {
    if Rebuilt(env, rows, p) {
      RebuiltCopies(env, s, rows, p);
    } else if RoundTrips(s, p) {
      CopiesAreRebuilt(env, s, rows, p);
    }
  }

  lemma CopiesAreRebuilt(env: Env, s: State, rows: seq<Row>, p: Progress)
    requires Exportable(env, s) && IsExport(s, rows) && RoundTrips(s, p)
    ensures Rebuilt(env, rows, p)
  {
    forall r | r in rows
      ensures Placed(env, p, r)
    {
      CopiedIsPlaced(env, s, p, r.id);
    }
    forall key | key in p.ids
      ensures exists r :: r in rows && r.id == key
    {
      KeyHasRow(s, rows, key);
    }
  }

  lemma KeyHasRow(s: State, rows: seq<Row>, key: nat)
    requires s.WellFormed() && IsExport(s, rows) && s.Live(key)
    ensures exists r :: r in rows && r.id == key
  {
    assert Exported(s.pools[key]) in rows && Exported(s.pools[key]).id == key;
  }

  /** The unique index of the target store does not allow two of the live pools together. */
  ghost predicate PoolsClash(env: Env, s: State) {
    exists x, y :: s.Live(x) && s.Live(y) && x != y && SameKey(env.backend, env.parse, s.pools[x], s.pools[y])
  }

  lemma ExportClashes(env: Env, s: State, rows: seq<Row>)
    requires Exportable(env, s) && IsExport(s, rows)
    ensures Clashing(env, rows) <==> PoolsClash(env, s)
  {
    if a, b :| a in rows && b in rows && a != b && Clash(env, a, b) {
      SameRowsSamePools(env, s, a.id, b.id);
    }
    if x: nat, y: nat :| s.Live(x) && s.Live(y) && x != y && SameKey(env.backend, env.parse, s.pools[x], s.pools[y]) {
      SameRowsSamePools(env, s, x, y);
      assert Exported(s.pools[x]) in rows && Exported(s.pools[y]) in rows;
    }
  }

  lemma SameRowsSamePools(env: Env, s: State, x: nat, y: nat)
    requires Exportable(env, s) && s.Live(x) && s.Live(y)
    ensures Clash(env, Exported(s.pools[x]), Exported(s.pools[y]))
       <==> SameKey(env.backend, env.parse, s.pools[x], s.pools[y])
  {
    assert s.pools[x].parent.Some? ==> s.ChildOf(x, s.pools[x].parent.value);
    assert s.pools[y].parent.Some? ==> s.ChildOf(y, s.pools[y].parent.value);
  }

  /** Export then import into an empty store of any backend copies the forest iff the target's index allows it. */
  lemma ExportImportRoundTrip(env: Env, s: State, rows: seq<Row>)
    requires Exportable(env, s) && IsExport(s, rows)
    ensures RoundTrips(s, Import(env, EMPTY, rows)) <==> !PoolsClash(env, s)
  {
    ExportComplete(env, s, rows);
    FlatMapUnchanged(rows, Kept);
    ImportRebuildsIff(env, rows);
    RoundTripsIffRebuilt(env, s, rows, Import(env, EMPTY, rows));
    ExportClashes(env, s, rows);
  }

  /** A store that satisfies the target's index round-trips. */
  lemma IndexedRoundTrip(env: Env, s: State, rows: seq<Row>)
    requires Exportable(env, s) && IsExport(s, rows) && IndexHolds(env.backend, env.parse, s)
    ensures RoundTrips(s, Import(env, EMPTY, rows))
  {
    ExportImportRoundTrip(env, s, rows);
  }

  lemma ExportComplete(env: Env, s: State, rows: seq<Row>)
    requires Exportable(env, s) && IsExport(s, rows)
    ensures Complete(env, rows) && ParentsOlder(rows)
    ensures KeepsAll(rows, Kept)
  {
    forall r | r in rows && r.parent != 0
      ensures exists q :: q in rows && q.id == r.parent
    {
      assert s.ChildOf(r.id, r.parent);
      assert Exported(s.pools[r.parent]) in rows;
    }
  }
}
