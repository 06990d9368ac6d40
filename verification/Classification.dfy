/** How a discovered block relates to the managed pools: import preview, network conflicts,
    schema check and longest-prefix lookup. */
module Classification {

  import opened Cidr
  import opened CidrTests
  import opened PoolStore
  import opened Wrappers

  // ---------------------------------------------------------------- meaning

  ghost predicate SameBlock(a: Option<Prefix>, b: Option<Prefix>) {
    a.Some? && b.Some? && Within(a.value, b.value) && Within(b.value, a.value)
  }

  /** `a` is a proper part of `b`. */
  ghost predicate Inside(a: Option<Prefix>, b: Option<Prefix>) {
    a.Some? && b.Some? && Within(a.value, b.value) && !Within(b.value, a.value)
  }

  ghost predicate Touches(a: Option<Prefix>, b: Option<Prefix>) {
    a.Some? && b.Some? && Meets(a.value, b.value)
  }

  /** The four outcomes the tests can tell apart; there is no partial overlap. */
  lemma TestsMeaning(a: Option<Prefix>, b: Option<Prefix>)
    ensures CidrEqual(a, b) <==> SameBlock(a, b)
    ensures CidrContains(a, b) <==> SameBlock(a, b) || Inside(b, a)
    ensures CidrOverlaps(a, b) <==> Touches(a, b)
    ensures Touches(a, b) <==> SameBlock(a, b) || Inside(a, b) || Inside(b, a)
  {
    if a.Some? && b.Some? {
      OverlapTestsAgree(a.value, b.value);
      ContainmentTestsAgree(a.value, b.value);
      ContainmentTestsAgree(b.value, a.value);
      NestedOrDisjoint(a.value, b.value);
      OwnAddresses(a.value);
      OwnAddresses(b.value);
    }
  }

  // ---------------------------------------------------------------- import preview

  datatype Relations = Relations(conflicts: seq<nat>, exact: Option<nat>, parent: Option<nat>)

  predicate Foreign(p: Pool, account: nat) {
    p.account.Some? && p.account.value != account
  }

  /** One round of `classifyPoolRelationships`. */
  function Classify(pool: Option<Prefix>, p: Pool, res: Option<Prefix>, account: nat, r: Relations): Relations {
    if CidrEqual(pool, res) then
      if Foreign(p, account) then r.(conflicts := r.conflicts + [p.id]) else r.(exact := Some(p.id))
    else if CidrContains(pool, res) then
      if Foreign(p, account) || r.parent.Some? then r else r.(parent := Some(p.id))
    else if CidrOverlaps(pool, res) then r.(conflicts := r.conflicts + [p.id])
    else r
  }

  /** A pool conflicts when it is the same block in another account or a proper part of the resource. */
  ghost predicate IsConflict(parse: Parser, p: Pool, cidr: string, account: nat) {
    (SameBlock(parse(p.cidr), parse(cidr)) && Foreign(p, account)) || Inside(parse(p.cidr), parse(cidr))
  }

  ghost predicate IsExact(parse: Parser, p: Pool, cidr: string, account: nat) {
    SameBlock(parse(p.cidr), parse(cidr)) && !Foreign(p, account)
  }

  ghost predicate IsContainer(parse: Parser, p: Pool, cidr: string, account: nat) {
    Inside(parse(cidr), parse(p.cidr)) && !Foreign(p, account)
  }

  ghost function ConflictIds(parse: Parser, pools: seq<Pool>, cidr: string, account: nat): seq<nat> {
    if pools == [] then []
    else
      var p := pools[|pools| - 1];
      ConflictIds(parse, pools[..|pools| - 1], cidr, account)
      + if IsConflict(parse, p, cidr, account) then [p.id] else []
  }

  /** Index of the last exact match, and of the first container. */
  ghost predicate IsLastExact(parse: Parser, pools: seq<Pool>, cidr: string, account: nat, i: nat) {
    i < |pools| && IsExact(parse, pools[i], cidr, account)
    && forall j :: i < j < |pools| ==> !IsExact(parse, pools[j], cidr, account)
  }

  ghost predicate IsFirstContainer(parse: Parser, pools: seq<Pool>, cidr: string, account: nat, i: nat) {
    i < |pools| && IsContainer(parse, pools[i], cidr, account)
    && forall j :: 0 <= j < i ==> !IsContainer(parse, pools[j], cidr, account)
  }

  ghost predicate Exact(parse: Parser, pools: seq<Pool>, cidr: string, account: nat, exact: Option<nat>) {
    match exact
    case None => forall j :: 0 <= j < |pools| ==> !IsExact(parse, pools[j], cidr, account)
    case Some(id) => exists i: nat :: IsLastExact(parse, pools, cidr, account, i) && pools[i].id == id
  }

  ghost predicate FirstContainer(parse: Parser, pools: seq<Pool>, cidr: string, account: nat, parent: Option<nat>) {
    match parent
    case None => forall j :: 0 <= j < |pools| ==> !IsContainer(parse, pools[j], cidr, account)
    case Some(id) => exists i: nat :: IsFirstContainer(parse, pools, cidr, account, i) && pools[i].id == id
  }

  lemma ClassifyMeaning(parse: Parser, p: Pool, cidr: string, account: nat, r: Relations)
    ensures var r' := Classify(parse(p.cidr), p, parse(cidr), account, r);
      && r'.conflicts == r.conflicts + (if IsConflict(parse, p, cidr, account) then [p.id] else [])
      && r'.exact == (if IsExact(parse, p, cidr, account) then Some(p.id) else r.exact)
      && r'.parent == (if IsContainer(parse, p, cidr, account) && r.parent.None? then Some(p.id) else r.parent)
  {
    TestsMeaning(parse(p.cidr), parse(cidr));
    TestsMeaning(parse(cidr), parse(p.cidr));
    assert r.conflicts + [] == r.conflicts;
  }

  lemma ExactExtend(parse: Parser, pools: seq<Pool>, p: Pool, cidr: string, account: nat, exact: Option<nat>)
    requires Exact(parse, pools, cidr, account, exact)
    ensures Exact(parse, pools + [p], cidr, account, if IsExact(parse, p, cidr, account) then Some(p.id) else exact)
  {
    if IsExact(parse, p, cidr, account) {
      assert IsLastExact(parse, pools + [p], cidr, account, |pools|);
    } else if exact.Some? {
      var i: nat :| IsLastExact(parse, pools, cidr, account, i) && pools[i].id == exact.value;
      assert IsLastExact(parse, pools + [p], cidr, account, i);
    }
  }

  lemma ContainerExtend(parse: Parser, pools: seq<Pool>, p: Pool, cidr: string, account: nat, parent: Option<nat>)
    requires FirstContainer(parse, pools, cidr, account, parent)
    ensures FirstContainer(parse, pools + [p], cidr, account,
              if IsContainer(parse, p, cidr, account) && parent.None? then Some(p.id) else parent)
  {
    if parent.Some? {
      var i: nat :| IsFirstContainer(parse, pools, cidr, account, i) && pools[i].id == parent.value;
      assert IsFirstContainer(parse, pools + [p], cidr, account, i);
    } else if IsContainer(parse, p, cidr, account) {
      assert IsFirstContainer(parse, pools + [p], cidr, account, |pools|);
    }
  }

  /** `classifyPoolRelationships`: exact conflict list, last exact match, first container. */
  method ClassifyPools(parse: Parser, pools: seq<Pool>, cidr: string, account: nat, proposedParent: Option<nat>)
    returns (r: Relations)
    ensures r.conflicts == ConflictIds(parse, pools, cidr, account)
    ensures Exact(parse, pools, cidr, account, r.exact)
    ensures if proposedParent.Some? then r.parent == proposedParent else FirstContainer(parse, pools, cidr, account, r.parent)
  {
    r := Relations([], None, proposedParent);
    for i := 0 to |pools|
      invariant r.conflicts == ConflictIds(parse, pools[..i], cidr, account)
      invariant Exact(parse, pools[..i], cidr, account, r.exact)
      invariant if proposedParent.Some? then r.parent == proposedParent
                else FirstContainer(parse, pools[..i], cidr, account, r.parent)
    {
      var p := pools[i];
      ghost var seen := pools[..i];
      assert pools[..i + 1] == seen + [p];
      assert (seen + [p])[..|seen|] == seen;
      ClassifyMeaning(parse, p, cidr, account, r);
      ExactExtend(parse, seen, p, cidr, account, r.exact);
      if proposedParent.None? {
        ContainerExtend(parse, seen, p, cidr, account, r.parent);
      }
      r := Round(parse, p, cidr, account, r);
    }
    assert pools[..|pools|] == pools;
  }

  function Round(parse: Parser, p: Pool, cidr: string, account: nat, r: Relations): Relations {
    Classify(parse(p.cidr), p, parse(cidr), account, r)
  }

  // ---------------------------------------------------------------- network conflicts

  datatype PairConflict = UnlinkedExactPool | AlternateExactPool | ManagedOverlap

  /** The pool loop of `computeNetworkConflicts` for one resource and one pool. */
  function PoolConflict(parse: Parser, cidr: string, linked: Option<nat>, p: Pool): Option<PairConflict> {
    if linked == Some(p.id) then None
    else if cidr == "" || p.cidr == "" then None
    else if CidrEqual(parse(cidr), parse(p.cidr)) then
      Some(if linked.Some? then AlternateExactPool else UnlinkedExactPool)
    else if !CidrOverlaps(parse(cidr), parse(p.cidr)) then None
    else if CidrContains(parse(p.cidr), parse(cidr)) || CidrContains(parse(cidr), parse(p.cidr)) then None
    else Some(ManagedOverlap)
  }

  /** A managed overlap is never reported; a conflict is always another pool with the same block. */
  lemma PoolConflictExact(parse: Parser, cidr: string, linked: Option<nat>, p: Pool)
    ensures PoolConflict(parse, cidr, linked, p) != Some(ManagedOverlap)
    ensures PoolConflict(parse, cidr, linked, p).Some? <==>
      linked != Some(p.id) && cidr != "" && p.cidr != "" && SameBlock(parse(cidr), parse(p.cidr))
    ensures PoolConflict(parse, cidr, linked, p) == Some(UnlinkedExactPool) ==> linked == None
    ensures PoolConflict(parse, cidr, linked, p) == Some(AlternateExactPool) ==> linked != None
  {
    TestsMeaning(parse(cidr), parse(p.cidr));
    TestsMeaning(parse(p.cidr), parse(cidr));
  }

  datatype LinkConflict = LinkedPoolMismatch | OutsidePool

  function LinkedConflict(res: Option<Prefix>, pool: Option<Prefix>): Option<LinkConflict> {
    if CidrEqual(pool, res) then None
    else if !CidrContains(pool, res) && !CidrContains(res, pool) then Some(OutsidePool)
    else Some(LinkedPoolMismatch)
  }

  /** A link is critical exactly when resource and pool share no address. */
  lemma OutsidePoolIff(res: Option<Prefix>, pool: Option<Prefix>)
    ensures LinkedConflict(res, pool) == Some(OutsidePool) <==> !Touches(res, pool)
    ensures LinkedConflict(res, pool).None? <==> SameBlock(res, pool)
  {
    TestsMeaning(pool, res);
    TestsMeaning(res, pool);
  }

  // ---------------------------------------------------------------- schema check

  datatype OverlapType = PlainOverlap | ContainsIt | ContainedBy

  /** `handleSchemaCheck` on one planned and one existing prefix, host bits as written. */
  function SchemaOverlap(planned: Prefix, existing: Prefix): Option<OverlapType> {
    if !PrefixesOverlapIPv4(planned, existing) then None
    else if planned.bits <= existing.bits && Contains(planned, existing.addr) then Some(ContainsIt)
    else if existing.bits <= planned.bits && Contains(existing, planned.addr) then Some(ContainedBy)
    else Some(PlainOverlap)
  }

  /** The plain overlap type cannot occur; the others say which side holds the other. */
  lemma SchemaOverlapExact(planned: Prefix, existing: Prefix)
    requires planned.addr.is4
    ensures SchemaOverlap(planned, existing) != Some(PlainOverlap)
    ensures SchemaOverlap(planned, existing) == Some(ContainsIt) <==> existing.addr.is4 && Within(existing, planned)
    ensures SchemaOverlap(planned, existing) == Some(ContainedBy) <==>
      existing.addr.is4 && Within(planned, existing) && !Within(existing, planned)
  {
    OwnAddresses(planned);
    OwnAddresses(existing);
    NestedOrDisjoint(planned, existing);
    NestedOrDisjoint(existing, planned);
    MeetsSymmetric(planned, existing);
    OverlapTestsAgree(planned, existing);
    if Within(existing, planned) {
      WithinBits(planned, existing);
    }
    if Within(planned, existing) {
      WithinBits(existing, planned);
    }
  }

  // ---------------------------------------------------------------- longest match

  ghost predicate Holds(parse: Parser, p: Pool, cidr: string) {
    parse(p.cidr).Some? && parse(cidr).Some? && Within(parse(cidr).value, parse(p.cidr).value)
  }

  predicate HoldsTest(parse: Parser, p: Pool, cidr: string) {
    CidrContains(parse(p.cidr), parse(cidr))
  }

  function Bits(parse: Parser, p: Pool): int {
    if parse(p.cidr).Some? then parse(p.cidr).value.bits else -1
  }

  lemma HoldsMeaning(parse: Parser, p: Pool, cidr: string)
    ensures HoldsTest(parse, p, cidr) <==> Holds(parse, p, cidr)
  {
    if parse(p.cidr).Some? && parse(cidr).Some? {
      ContainmentTestsAgree(parse(p.cidr).value, parse(cidr).value);
    }
  }

  /** `bestContainingPool`: the smallest block that holds the resource lies inside every other. */
  method BestContainingPool(parse: Parser, cidr: string, pools: map<nat, Pool>) returns (best: Option<Pool>)
    ensures best.None? ==> forall id :: id in pools ==> !Holds(parse, pools[id], cidr)
    ensures best.Some? ==>
      && (exists id :: id in pools && pools[id] == best.value)
      && Holds(parse, best.value, cidr)
      && forall id :: id in pools && Holds(parse, pools[id], cidr) ==> Holds(parse, pools[id], best.value.cidr)
  {
    best := None;
    var bestBits := -1;
    var todo := pools.Keys;
    while todo != {}
      invariant todo <= pools.Keys
      invariant best.None? ==> forall id :: id in pools - todo ==> !Holds(parse, pools[id], cidr)
      invariant best.Some? ==>
        && (exists id :: id in pools && pools[id] == best.value)
        && Holds(parse, best.value, cidr) && bestBits == Bits(parse, best.value)
        && forall id :: id in pools - todo && Holds(parse, pools[id], cidr) ==> Bits(parse, pools[id]) <= bestBits
      invariant best.None? ==> bestBits == -1
    {
      var id :| id in todo;
      todo := todo - {id};
      HoldsMeaning(parse, pools[id], cidr);
      if HoldsTest(parse, pools[id], cidr) {
        if Bits(parse, pools[id]) > bestBits {
          best, bestBits := Some(pools[id]), Bits(parse, pools[id]);
        }
      }
    }
    if best.Some? {
      forall id | id in pools && Holds(parse, pools[id], cidr)
        ensures Holds(parse, pools[id], best.value.cidr)
      {
        ShorterHolderHolds(parse, pools[id], best.value, cidr);
      }
    }
  }

  lemma ShorterHolderHolds(parse: Parser, p: Pool, q: Pool, cidr: string)
    requires Holds(parse, p, cidr) && Holds(parse, q, cidr) && Bits(parse, p) <= Bits(parse, q)
    ensures Holds(parse, p, q.cidr)
  {
    var a := parse(cidr).value;
    OwnAddresses(a);
    NestedOrDisjoint(parse(p.cidr).value, parse(q.cidr).value);
  }
}
