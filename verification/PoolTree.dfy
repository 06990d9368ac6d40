/** The pool endpoints (create, update, delete) and the address tree they maintain. */
module PoolTree {

  import opened Bits
  import opened Capacity
  import opened Cidr
  import opened CidrTests
  import PoolRequest
  import opened PoolStore
  import opened Text
  import opened Wrappers

  // ---------------------------------------------------------------- request validation

  const MAX_NAME_LENGTH := 255
  const MIN_PREFIX_LENGTH := 8
  const MAX_PREFIX_LENGTH := 30

  /** Ranges no pool may touch: this network, loopback, link-local, multicast, reserved, broadcast. */
  function Reserved(): seq<Prefix> {
    [V4(0, 8), V4(0x7F00_0000, 8), V4(0xA9FE_0000, 16), V4(0xE000_0000, 4), V4(0xF000_0000, 4), V4(0xFFFF_FFFF, 32)]
  }

  function V4(value: nat, bits: nat): Prefix
    requires value < 0x1_0000_0000 && bits <= 32
  {
    Pow2Constants();
    RawPrefix(Addr(true, value), bits)
  }

  predicate IsControl(c: char) {
    c < ' ' || '\U{7F}' <= c <= '\U{9F}'
  }

  predicate ValidName(name: string) {
    var n := TrimSpace(name);
    1 <= |n| <= MAX_NAME_LENGTH && forall i :: 0 <= i < |n| ==> !IsControl(n[i])
  }

  predicate ValidCidr(parse: Parser, text: string) {
    '/' in text && parse(text).Some?
    && var p := parse(text).value;
       p.addr.is4 && p == Masked(p)
       && MIN_PREFIX_LENGTH <= p.bits <= MAX_PREFIX_LENGTH
       && forall r :: r in Reserved() ==> !PrefixOverlaps(p, r)
  }

  predicate ValidChoice(text: string, valid: set<string>) {
    text == "" || text in valid
  }

  datatype CreateError =
    | InvalidName | InvalidCidr | InvalidType | InvalidStatus | InvalidSource
    | ParentNotFound | InvalidSubPool(reason: ChildError) | Overlap(id: nat) | Rejected(reason': StoreError)

  /** The checks of `createPool` that come before the sibling scan, in order. */
  function Precheck(parse: Parser, s: State, input: NewPool): Option<CreateError> {
    if !ValidName(input.name) then Some(InvalidName)
    else if !ValidCidr(parse, input.cidr) then Some(InvalidCidr)
    else if !ValidChoice(input.kind, {"supernet", "region", "environment", "vpc", "subnet"}) then Some(InvalidType)
    else if !ValidChoice(input.status, {"planned", "active", "deprecated"}) then Some(InvalidStatus)
    else if !ValidChoice(input.source, {"manual", "discovered", "imported"}) then Some(InvalidSource)
    else if input.parent.None? then None
    else if !s.Live(input.parent.value) then Some(ParentNotFound)
    else match ValidateChild(parse(s.pools[input.parent.value].cidr), parse(input.cidr))
      case Err(e) => Some(InvalidSubPool(e))
      case Ok(_) => None
  }

  /** A sibling written with the same text is not compared: the store is trusted to refuse it. */
  predicate SameText(p: Pool, input: NewPool) {
    EqualFold(TrimSpace(p.cidr), input.cidr)
  }

  predicate Blocks(parse: Parser, p: Pool, input: NewPool) {
    p.parent == input.parent && !SameText(p, input)
    && parse(p.cidr).Some? && parse(input.cidr).Some?
    && PrefixesOverlapIPv4(parse(p.cidr).value, parse(input.cidr).value)
  }

  predicate Accepts(backend: Backend, parse: Parser, s: State, input: NewPool) {
    Precheck(parse, s, input).None?
    && (forall id :: id in s.pools && s.Live(id) ==> !Blocks(parse, s.pools[id], input))
    && !Duplicate(backend, parse, s, input)
  }

  function Trimmed(input: NewPool): NewPool {
    input.(name := TrimSpace(input.name), cidr := TrimSpace(input.cidr))
  }

  /** The sibling scan: the first listed pool that overlaps the candidate. */
  method FirstBlocker(parse: Parser, all: seq<Pool>, input: NewPool) returns (found: Option<Pool>)
    ensures found.Some? ==> found.value in all && Blocks(parse, found.value, input)
    ensures found.None? ==> forall p :: p in all ==> !Blocks(parse, p, input)
  {
    for i := 0 to |all|
      invariant forall j :: 0 <= j < i ==> !Blocks(parse, all[j], input)
    {
      if Blocks(parse, all[i], input) {
        return Some(all[i]);
      }
    }
    return None;
  }

  /** Why the checks refuse the request. */
  ghost predicate Refuses(parse: Parser, s: State, input: NewPool, e: CreateError) {
    if Precheck(parse, s, input).Some? then e == Precheck(parse, s, input).value
    else if e.Overlap? then s.Live(e.id) && Blocks(parse, s.pools[e.id], input)
    else e.Rejected? && forall id :: s.Live(id) ==> !Blocks(parse, s.pools[id], input)
  }

  method CheckAndCreate(store: Store, input: NewPool) returns (r: Result<Pool, CreateError>)
    requires store.Abs().WellFormed()
    modifies store
    ensures r.Ok? <==> Accepts(store.backend, store.parse, old(store.Abs()), input)
    ensures store.Abs() == if r.Ok? then Insert(old(store.Abs()), input) else old(store.Abs())
    ensures r.Ok? ==> r.value == Fresh(old(store.Abs()), input)
    ensures r.Err? ==> Refuses(store.parse, old(store.Abs()), input, r.error)
  {
    var early := Precheck(store.parse, store.Abs(), input);
    if early.Some? {
      return Err(early.value);
    }
    var all := store.ListPools();
    var blocker := FirstBlocker(store.parse, all, input);
    if blocker.Some? {
      return Err(Overlap(blocker.value.id));
    }
    var created := store.CreatePool(input);
    match created
    case Ok(p) => return Ok(p);
    case Err(e) => return Err(Rejected(e));
  }

  /** `POST /pools`. */
  method CreatePoolHandler(store: Store, request: NewPool) returns (r: Result<Pool, CreateError>)
    requires store.Abs().WellFormed()
    modifies store
    ensures r.Ok? <==> Accepts(store.backend, store.parse, old(store.Abs()), Trimmed(request))
    ensures NetipText(store.parse) ==>
      (r.Ok? <==> PoolRequest.Acceptable(store.backend, store.parse, old(store.Abs()), Trimmed(request)))
    ensures store.Abs() == if r.Ok? then Insert(old(store.Abs()), Trimmed(request)) else old(store.Abs())
    ensures r.Ok? ==> r.value == Fresh(old(store.Abs()), Trimmed(request))
    ensures NetipText(store.parse) && r.Err? ==> Explains(store.parse, old(store.Abs()), Trimmed(request), r.error)
  {
    ghost var s := store.Abs();
    r := CheckAndCreate(store, Trimmed(request));
    if NetipText(store.parse) {
      AcceptsIff(store.backend, store.parse, s, request);
      if r.Err? {
        RefusesExplains(store.parse, s, request, r.error);
      }
    }
  }

  // ---------------------------------------------------------------- what the checks mean

  lemma V4Range(v: nat, bits: nat, a: nat)
    requires v < 0x1_0000_0000 && bits <= 32 && v % Pow2(32 - bits) == 0
    ensures Contains(V4(v, bits), Addr(true, a)) <==> v <= a < v + Pow2(32 - bits)
  {
    ContainsIsInterval(V4(v, bits), Addr(true, a));
    AlignedIff(v, Pow2(32 - bits));
  }

  lemma AlignedIff(v: nat, s: nat)
    requires s > 0
    ensures Align(v, s) == v <==> v % s == 0
  {
    assert v == s * (v / s) + v % s;
  }

  lemma ReservedSizes()
    ensures Pow2(24) == 0x100_0000 && Pow2(16) == 0x1_0000 && Pow2(28) == 0x1000_0000 && Pow2(0) == 1
  {
    Pow2Constants();
    Pow2Add(4, 24);
    assert Pow2(4) == 16;
  }

  lemma ReservedListed(a: Addr)
    ensures (exists r :: r in Reserved() && Contains(r, a)) <==>
      Contains(V4(0, 8), a) || Contains(V4(0x7F00_0000, 8), a) || Contains(V4(0xA9FE_0000, 16), a)
      || Contains(V4(0xE000_0000, 4), a) || Contains(V4(0xF000_0000, 4), a) || Contains(V4(0xFFFF_FFFF, 32), a)
  {
    var rs := Reserved();
    assert rs[0] in rs && rs[1] in rs && rs[2] in rs && rs[3] in rs && rs[4] in rs && rs[5] in rs;
  }

  lemma ReservedRanges(a: nat)
    requires a < 0x1_0000_0000
    ensures PoolRequest.IsReserved(a) <==> exists r :: r in Reserved() && Contains(r, Addr(true, a))
  {
    ReservedSizes();
    ReservedListed(Addr(true, a));
    V4Range(0, 8, a);
    V4Range(0x7F00_0000, 8, a);
    V4Range(0xA9FE_0000, 16, a);
    V4Range(0xE000_0000, 4, a);
    V4Range(0xF000_0000, 4, a);
    V4Range(0xFFFF_FFFF, 32, a);
  }

  /** Clear of the six ranges means without a reserved address. */
  lemma UnreservedIff(p: Prefix)
    requires p.addr.is4
    ensures (forall r :: r in Reserved() ==> !PrefixOverlaps(p, r)) <==>
            (forall a: nat :: Contains(p, Addr(true, a)) ==> !PoolRequest.IsReserved(a))
  {
    Pow2Constants();
    forall a: nat | Contains(p, Addr(true, a))
      ensures a < 0x1_0000_0000
    {
      ContainsIsInterval(p, Addr(true, a));
      BlockAligned(p);
    }
    if r :| r in Reserved() && PrefixOverlaps(p, r) {
      OverlapTestsAgree(p, r);
      var a: Addr :| Contains(p, a) && Contains(r, a);
      ReservedRanges(a.value);
      assert Contains(p, Addr(true, a.value));
    }
    if a: nat :| Contains(p, Addr(true, a)) && PoolRequest.IsReserved(a) {
      ReservedRanges(a);
      var r :| r in Reserved() && Contains(r, Addr(true, a));
      OverlapTestsAgree(p, r);
      assert Meets(p, r);
    }
  }

  lemma ValidCidrIff(parse: Parser, text: string)
    ensures ValidCidr(parse, text) <==> PoolRequest.GoodCidr(parse, text)
  {
    if parse(text).Some? && parse(text).value.addr.is4 {
      var p := parse(text).value;
      UnreservedIff(p);
      AlignedIff(p.addr.value, Size(p));
      assert p == Masked(p) <==> p.addr.value == Base(p);
    }
  }

  lemma ValidNameIff(name: string)
    ensures ValidName(TrimSpace(name)) <==> PoolRequest.GoodName(TrimSpace(name))
  {
    TrimTwice(name);
    forall c: char
      ensures IsControl(c) <==> PoolRequest.IsControlCode(c)
    {
    }
  }

  /** Against IPv4 texts, the comparison with a sibling is about its text and its addresses. */
  lemma BlocksIff(parse: Parser, p: Pool, input: NewPool)
    requires NetipText(parse) && PoolRequest.IsV4(parse, input.cidr)
    ensures Blocks(parse, p, input) <==> p.parent == input.parent && PoolRequest.Overlapping(parse, p, input.cidr)
  {
    var q := parse(input.cidr).value;
    if PoolRequest.IsV4(parse, p.cidr) {
      OverlapTestsAgree(parse(p.cidr).value, q);
      if SameText(p, input) {
        PlainFold(p.cidr, input.cidr);
      }
      assert TrimLeft(input.cidr) == input.cidr && TrimRight(input.cidr) == input.cidr;
    }
  }

  lemma PrecheckIff(parse: Parser, s: State, input: NewPool)
    requires input.name == TrimSpace(input.name)
    ensures Precheck(parse, s, input).None? <==>
            PoolRequest.WellFormedRequest(parse, input) && PoolRequest.GoodParent(parse, s, input)
  {
    ValidNameIff(input.name);
    ValidCidrIff(parse, input.cidr);
    if input.parent.Some? && s.Live(input.parent.value) {
      ValidateChildMeaning(parse(s.pools[input.parent.value].cidr), parse(input.cidr));
    }
  }

  /** The error names the first thing that is wrong. */
  ghost predicate Explains(parse: Parser, s: State, input: NewPool, e: CreateError) {
    match e
    case InvalidName => !PoolRequest.GoodName(input.name)
    case InvalidCidr => PoolRequest.GoodName(input.name) && !PoolRequest.GoodCidr(parse, input.cidr)
    case InvalidType => PoolRequest.GoodCidr(parse, input.cidr) && !PoolRequest.GoodKind(input.kind)
    case InvalidStatus => PoolRequest.GoodKind(input.kind) && !PoolRequest.GoodStatus(input.status)
    case InvalidSource => PoolRequest.GoodStatus(input.status) && !PoolRequest.GoodSource(input.source)
    case ParentNotFound =>
      PoolRequest.WellFormedRequest(parse, input) && input.parent.Some? && !s.Live(input.parent.value)
    case InvalidSubPool(_) =>
      PoolRequest.WellFormedRequest(parse, input) && input.parent.Some? && s.Live(input.parent.value)
      && !PoolRequest.FitsParent(parse, s.pools[input.parent.value], input.cidr)
    case Overlap(id) =>
      PoolRequest.WellFormedRequest(parse, input) && PoolRequest.GoodParent(parse, s, input)
      && s.Live(id) && s.pools[id].parent == input.parent && PoolRequest.Overlapping(parse, s.pools[id], input.cidr)
    case Rejected(_) =>
      PoolRequest.WellFormedRequest(parse, input) && PoolRequest.GoodParent(parse, s, input)
      && PoolRequest.ClearOfSiblings(parse, s, input)
  }

  lemma PrecheckExplains(parse: Parser, s: State, request: NewPool)
    ensures var input := Trimmed(request);
      var e := Precheck(parse, s, input);
      e.Some? ==> Explains(parse, s, input, e.value) && !e.value.Overlap? && !e.value.Rejected?
  {
    var input := Trimmed(request);
    TrimTwice(request.name);
    ValidNameIff(input.name);
    ValidCidrIff(parse, input.cidr);
    if input.parent.Some? && s.Live(input.parent.value) {
      ValidateChildMeaning(parse(s.pools[input.parent.value].cidr), parse(input.cidr));
    }
  }

  lemma RefusesExplains(parse: Parser, s: State, request: NewPool, e: CreateError)
    requires NetipText(parse) && Refuses(parse, s, Trimmed(request), e)
    ensures Explains(parse, s, Trimmed(request), e)
  {
    var input := Trimmed(request);
    TrimTwice(request.name);
    PrecheckExplains(parse, s, request);
    if Precheck(parse, s, input).None? {
      PrecheckIff(parse, s, input);
      forall id | s.Live(id)
        ensures Blocks(parse, s.pools[id], input) <==>
                s.pools[id].parent == input.parent && PoolRequest.Overlapping(parse, s.pools[id], input.cidr)
      {
        BlocksIff(parse, s.pools[id], input);
      }
    }
  }

  /** A request is accepted iff it is acceptable in terms of addresses, texts and stored pools. */
  lemma AcceptsIff(backend: Backend, parse: Parser, s: State, request: NewPool)
    requires NetipText(parse)
    ensures Accepts(backend, parse, s, Trimmed(request)) <==>
            PoolRequest.Acceptable(backend, parse, s, Trimmed(request))
  {
    var input := Trimmed(request);
    TrimTwice(request.name);
    PrecheckIff(parse, s, input);
    if PoolRequest.WellFormedRequest(parse, input) {
      forall id | id in s.pools && s.Live(id)
        ensures Blocks(parse, s.pools[id], input) <==>
                s.pools[id].parent == input.parent && PoolRequest.Overlapping(parse, s.pools[id], input.cidr)
      {
        BlocksIff(parse, s.pools[id], input);
      }
    }
  }

  /** The empty store accepts every well-formed request without a parent. */
  lemma TopLevelAccepted(backend: Backend, parse: Parser, request: NewPool)
    requires NetipText(parse) && request.parent.None? && PoolRequest.WellFormedRequest(parse, Trimmed(request))
    ensures Accepts(backend, parse, EMPTY, Trimmed(request))
  {
    AcceptsIff(backend, parse, EMPTY, request);
  }

  lemma PrivateBlockIsGood()
    ensures PoolRequest.GoodBlock(V4(0x0A00_0000, 8))
  {
    ReservedSizes();
    forall a: nat | Contains(V4(0x0A00_0000, 8), Addr(true, a))
      ensures !PoolRequest.IsReserved(a)
    {
      V4Range(0x0A00_0000, 8, a);
    }
  }

  /** For instance 10.0.0.0/8, under any good name. */
  lemma PrivateBlockAccepted(backend: Backend, parse: Parser, name: string, text: string)
    requires NetipText(parse) && '/' in text && parse(text) == Some(V4(0x0A00_0000, 8))
    requires PoolRequest.GoodName(TrimSpace(name))
    ensures Accepts(backend, parse, EMPTY, Trimmed(NewPool(name, text, None, None, "", "", "", "")))
  {
    PrivateBlockIsGood();
    PlainIsTrimmed(text);
    TopLevelAccepted(backend, parse, NewPool(name, text, None, None, "", "", "", ""));
  }

  // ---------------------------------------------------------------- the tree invariant

  ghost predicate IPv4At(parse: Parser, s: State, id: nat) {
    s.Live(id) && parse(s.pools[id].cidr).Some? && parse(s.pools[id].cidr).value.addr.is4
  }

  ghost function Block(parse: Parser, s: State, id: nat): Prefix
    requires IPv4At(parse, s, id)
  {
    parse(s.pools[id].cidr).value
  }

  ghost predicate Siblings(s: State, x: nat, y: nat) {
    s.Live(x) && s.Live(y) && x != y && s.pools[x].parent == s.pools[y].parent
  }

  ghost predicate Nested(parse: Parser, s: State, c: nat, p: nat) {
    IPv4At(parse, s, c) && IPv4At(parse, s, p)
    && Within(Block(parse, s, c), Block(parse, s, p))
    && Block(parse, s, p).bits < Block(parse, s, c).bits
  }

  ghost predicate Apart(parse: Parser, s: State, x: nat, y: nat) {
    IPv4At(parse, s, x) && IPv4At(parse, s, y) && !Meets(Block(parse, s, x), Block(parse, s, y))
  }

  /** Children lie strictly inside their parents, siblings share no address. */
  ghost predicate Tree(parse: Parser, s: State) {
    s.WellFormed()
    && (forall id :: s.Live(id) ==> IPv4At(parse, s, id))
    && (forall c, p :: s.ChildOf(c, p) ==> Nested(parse, s, c, p))
    && (forall x, y :: Siblings(s, x, y) ==> Apart(parse, s, x, y))
  }

  predicate PlainText(t: string) {
    forall i :: 0 <= i < |t| ==> '.' <= t[i] <= '9'
  }

  /** What `netip` guarantees of IPv4 text: digits, dots and a slash, nothing else. */
  ghost predicate NetipText(parse: Parser) {
    forall t :: parse(t).Some? && parse(t).value.addr.is4 ==> PlainText(t)
  }

  /** For such texts the case-insensitive trimmed comparison is equality. */
  lemma PlainFold(a: string, b: string)
    requires PlainText(a) && PlainText(b) && EqualFold(TrimSpace(a), b)
    ensures a == b
  {
    assert TrimLeft(a) == a && TrimRight(a) == a;
    forall i | 0 <= i < |a|
      ensures a[i] == b[i]
    {
      assert Lower(a[i]) == Lower(b[i]);
    }
  }

  lemma PlainIsTrimmed(t: string)
    requires PlainText(t)
    ensures TrimSpace(t) == t
  {
    assert TrimLeft(t) == t && TrimRight(t) == t;
  }

  /** A live sibling already written with the same text. */
  ghost predicate Twin(s: State, id: nat, input: NewPool) {
    s.Live(id) && s.pools[id].parent == input.parent && SameText(s.pools[id], input)
  }

  /** What acceptance means for the address tree. */
  ghost predicate Admissible(parse: Parser, s: State, input: NewPool) {
    parse(input.cidr).Some? && parse(input.cidr).value.addr.is4
    && (input.parent.Some? ==>
          s.Live(input.parent.value)
          && ValidateChild(parse(s.pools[input.parent.value].cidr), parse(input.cidr)).Ok?)
    && forall id :: s.Live(id) ==> !Blocks(parse, s.pools[id], input)
  }

  lemma AcceptsAdmissible(backend: Backend, parse: Parser, s: State, input: NewPool)
    requires Accepts(backend, parse, s, input)
    ensures Admissible(parse, s, input)
  {
  }

  lemma AdmissibleBlock(parse: Parser, s: State, input: NewPool)
    requires Tree(parse, s) && Admissible(parse, s, input)
    ensures IPv4At(parse, Insert(s, input), s.next) && Insert(s, input).WellFormed()
    ensures input.parent.Some? ==> Nested(parse, Insert(s, input), s.next, input.parent.value)
  {
    if input.parent.Some? {
      ValidateChildMeaning(parse(s.pools[input.parent.value].cidr), parse(input.cidr));
    }
  }

  lemma AdmissibleSibling(parse: Parser, s: State, input: NewPool, y: nat)
    requires NetipText(parse) && Tree(parse, s) && Admissible(parse, s, input)
    requires s.Live(y) && s.pools[y].parent == input.parent
    ensures Meets(Block(parse, s, y), parse(input.cidr).value) <==> Twin(s, y, input)
  {
    var p, q := Block(parse, s, y), parse(input.cidr).value;
    OverlapTestsAgree(p, q);
    if Twin(s, y, input) {
      PlainFold(s.pools[y].cidr, input.cidr);
      OwnAddresses(p);
    }
  }

  /** An accepted creation keeps the tree if and only if no live sibling has the same text. */
  lemma CreateKeepsTreeIff(backend: Backend, parse: Parser, s: State, input: NewPool)
    requires NetipText(parse) && Tree(parse, s) && Accepts(backend, parse, s, input)
    ensures Tree(parse, Insert(s, input)) <==> !exists id :: id in s.pools && Twin(s, id, input)
  {
    AcceptsAdmissible(backend, parse, s, input);
    if id :| id in s.pools && Twin(s, id, input) {
      AdmissibleSibling(parse, s, input, id);
      assert Siblings(Insert(s, input), id, s.next);
    } else {
      InsertKeepsTree(parse, s, input);
    }
  }

  lemma InsertKeepsTree(parse: Parser, s: State, input: NewPool)
    requires NetipText(parse) && Tree(parse, s) && Admissible(parse, s, input)
    requires !exists id :: id in s.pools && Twin(s, id, input)
    ensures Tree(parse, Insert(s, input))
  {
    var n, s' := s.next, Insert(s, input);
    AdmissibleBlock(parse, s, input);
    forall id | s'.Live(id)
      ensures IPv4At(parse, s', id)
    {
      assert id != n ==> s.Live(id);
    }
    forall x, y | Siblings(s', x, y)
      ensures Apart(parse, s', x, y)
    {
      if x != n && y != n {
        assert Siblings(s, x, y);
      } else {
        var z := if x == n then y else x;
        AdmissibleSibling(parse, s, input, z);
        MeetsSymmetric(Block(parse, s, z), parse(input.cidr).value);
      }
    }
    forall c, p | s'.ChildOf(c, p)
      ensures Nested(parse, s', c, p)
    {
      if c != n {
        assert s.ChildOf(c, p);
      }
    }
  }

  /** The two database backends refuse the same text under the same parent. */
  lemma IndexRefusesTwins(backend: Backend, parse: Parser, s: State, input: NewPool)
    requires NetipText(parse) && Tree(parse, s) && Accepts(backend, parse, s, input) && backend != Memory
    ensures !exists id :: id in s.pools && Twin(s, id, input)
  {
    AcceptsAdmissible(backend, parse, s, input);
    if id :| id in s.pools && Twin(s, id, input) {
      assert IPv4At(parse, s, id);
      PlainFold(s.pools[id].cidr, input.cidr);
    }
  }

  /** Marking pools deleted keeps the tree as long as no live pool loses its parent. */
  lemma ShrinkKeepsTree(parse: Parser, s: State, s': State)
    requires Tree(parse, s) && s'.next == s.next && s'.pools.Keys == s.pools.Keys
    requires forall id :: id in s.pools ==>
      s'.pools[id] == s.pools[id] || s'.pools[id] == s.pools[id].(deleted := true)
    requires forall c, p :: s'.ChildOf(c, p) ==> s'.Live(p)
    ensures Tree(parse, s')
  {
    forall id | s'.Live(id)
      ensures s.Live(id) && IPv4At(parse, s', id)
    {
      assert IPv4At(parse, s, id);
    }
    forall c, p | s'.ChildOf(c, p)
      ensures Nested(parse, s', c, p)
    {
      assert s.ChildOf(c, p);
    }
    forall x, y | Siblings(s', x, y)
      ensures Apart(parse, s', x, y)
    {
      assert Siblings(s, x, y);
    }
  }

  lemma DeleteKeepsTree(parse: Parser, s: State, id: nat)
    requires Tree(parse, s)
    ensures Tree(parse, Delete(s, id))
  {
    var s' := Delete(s, id);
    if s' != s {
      forall c, p | s'.ChildOf(c, p)
        ensures s'.Live(p)
      {
        assert s.ChildOf(c, p);
        assert Nested(parse, s, c, p);
      }
      ShrinkKeepsTree(parse, s, s');
    }
  }

  lemma CascadeKeepsTree(parse: Parser, s: State, id: nat)
    requires Tree(parse, s)
    ensures Tree(parse, DeleteCascade(s, id))
  {
    var s' := DeleteCascade(s, id);
    forall c, p | s'.ChildOf(c, p)
      ensures s'.Live(p)
    {
      assert s.ChildOf(c, p);
      assert Nested(parse, s, c, p);
      BelowParent(s, c, id);
    }
    ShrinkKeepsTree(parse, s, s');
  }

  lemma UpdateKeepsTree(parse: Parser, s: State, id: nat, u: PoolUpdate)
    requires Tree(parse, s)
    ensures Tree(parse, Update(s, id, u))
  {
    var s' := Update(s, id, u);
    forall x
      ensures s'.Live(x) <==> s.Live(x)
      ensures s.Live(x) ==> s'.pools[x].cidr == s.pools[x].cidr && s'.pools[x].parent == s.pools[x].parent
    {
    }
    forall x | s'.Live(x)
      ensures IPv4At(parse, s', x)
    {
      assert IPv4At(parse, s, x);
    }
    forall c, p | s'.ChildOf(c, p)
      ensures Nested(parse, s', c, p)
    {
      assert s.ChildOf(c, p);
    }
    forall x, y | Siblings(s', x, y)
      ensures Apart(parse, s', x, y)
    {
      assert Siblings(s, x, y);
    }
  }

  // ---------------------------------------------------------------- runs

  datatype Op =
    | Create(request: NewPool)
    | Patch(id: nat, update: PoolUpdate)
    | Remove(id: nat)
    | RemoveAll(id: nat)

  /** One request against the pool endpoints. */
  ghost function Step(backend: Backend, parse: Parser, s: State, op: Op): State {
    match op
    case Create(r) => if Accepts(backend, parse, s, Trimmed(r)) then Insert(s, Trimmed(r)) else s
    case Patch(id, u) => Update(s, id, u)
    case Remove(id) => Delete(s, id)
    case RemoveAll(id) => if s.Live(id) then DeleteCascade(s, id) else s
  }

  ghost function Run(backend: Backend, parse: Parser, ops: seq<Op>): State {
    if ops == [] then EMPTY
    else Step(backend, parse, Run(backend, parse, ops[..|ops| - 1]), ops[|ops| - 1])
  }

  lemma {:induction false} StepKeepsTree(backend: Backend, parse: Parser, s: State, op: Op)
    requires NetipText(parse) && Tree(parse, s)
    ensures Tree(parse, Step(backend, parse, s, op)) <==> !MakesTwin(backend, parse, s, op)
  {
    match op
    case Create(r) =>
      if Accepts(backend, parse, s, Trimmed(r)) {
        CreateKeepsTreeIff(backend, parse, s, Trimmed(r));
      }
    case Patch(id, u) => UpdateKeepsTree(parse, s, id, u);
    case Remove(id) => DeleteKeepsTree(parse, s, id);
    case RemoveAll(id) => CascadeKeepsTree(parse, s, id);
  }

  /** The request creates a second live sibling with one text. */
  ghost predicate MakesTwin(backend: Backend, parse: Parser, s: State, op: Op) {
    op.Create? && Accepts(backend, parse, s, Trimmed(op.request))
    && exists id :: id in s.pools && Twin(s, id, Trimmed(op.request))
  }

  ghost predicate TwinFree(backend: Backend, parse: Parser, ops: seq<Op>) {
    ops == []
    || (var init := ops[..|ops| - 1];
        TwinFree(backend, parse, init) && !MakesTwin(backend, parse, Run(backend, parse, init), ops[|ops| - 1]))
  }

  /** The pools form a tree after every request of the run. */
  ghost predicate TreeThroughout(backend: Backend, parse: Parser, ops: seq<Op>) {
    Tree(parse, Run(backend, parse, ops))
    && (ops == [] || TreeThroughout(backend, parse, ops[..|ops| - 1]))
  }

  /** On every backend a run keeps the tree throughout iff it never creates a textual twin. */
  lemma {:induction false} RunKeepsTreeIff(backend: Backend, parse: Parser, ops: seq<Op>)
    requires NetipText(parse)
    ensures TreeThroughout(backend, parse, ops) <==> TwinFree(backend, parse, ops)
  {
    if ops != [] {
      var s := Run(backend, parse, ops[..|ops| - 1]);
      RunKeepsTreeIff(backend, parse, ops[..|ops| - 1]);
      if Tree(parse, s) {
        StepKeepsTree(backend, parse, s, ops[|ops| - 1]);
      }
    }
  }

  /** The databases never do. */
  lemma {:induction false} DatabasesTwinFree(backend: Backend, parse: Parser, ops: seq<Op>)
    requires NetipText(parse) && backend != Memory
    ensures TwinFree(backend, parse, ops) && Tree(parse, Run(backend, parse, ops))
  {
    if ops != [] {
      var s, op := Run(backend, parse, ops[..|ops| - 1]), ops[|ops| - 1];
      DatabasesTwinFree(backend, parse, ops[..|ops| - 1]);
      if op.Create? && Accepts(backend, parse, s, Trimmed(op.request)) {
        IndexRefusesTwins(backend, parse, s, Trimmed(op.request));
      }
      StepKeepsTree(backend, parse, s, op);
    }
  }

  /** So every run of requests against a database keeps the tree, and so does a twin-free run in memory. */
  lemma RunKeepsTree(backend: Backend, parse: Parser, ops: seq<Op>)
    requires NetipText(parse) && (backend == Memory ==> TwinFree(backend, parse, ops))
    ensures Tree(parse, Run(backend, parse, ops))
  {
    if backend != Memory {
      DatabasesTwinFree(backend, parse, ops);
    }
    RunKeepsTreeIff(backend, parse, ops);
  }

  ghost predicate Indexed(backend: Backend, parse: Parser, s: State) {
    IndexHolds(backend, parse, s) && forall id :: id in s.pools ==> id < s.next
  }

  /** Steps other than creates change neither address nor parent and revive no pool. */
  lemma ChangeKeepsIndex(backend: Backend, parse: Parser, s: State, t: State)
    requires Indexed(backend, parse, s) && t.next == s.next && t.pools.Keys == s.pools.Keys
    requires forall id :: id in s.pools ==>
      t.pools[id].cidr == s.pools[id].cidr && t.pools[id].parent == s.pools[id].parent
      && (s.pools[id].deleted ==> t.pools[id].deleted)
    ensures Indexed(backend, parse, t)
  {
    forall x, y | x in t.pools && y in t.pools && x != y
      ensures !SameKey(backend, parse, t.pools[x], t.pools[y])
    {
      assert !SameKey(backend, parse, s.pools[x], s.pools[y]);
    }
  }

  lemma StepKeepsIndex(backend: Backend, parse: Parser, s: State, op: Op)
    requires Indexed(backend, parse, s)
    ensures Indexed(backend, parse, Step(backend, parse, s, op))
  {
    if op.Create? {
      if Accepts(backend, parse, s, Trimmed(op.request)) {
        InsertKeepsIndex(backend, parse, s, Trimmed(op.request));
      }
    } else {
      ChangeKeepsIndex(backend, parse, s, Step(backend, parse, s, op));
    }
  }

  /** Every run keeps the unique index of its backend. */
  lemma {:induction false} RunKeepsIndex(backend: Backend, parse: Parser, ops: seq<Op>)
    ensures Indexed(backend, parse, Run(backend, parse, ops))
  {
    if ops != [] {
      RunKeepsIndex(backend, parse, ops[..|ops| - 1]);
      StepKeepsIndex(backend, parse, Run(backend, parse, ops[..|ops| - 1]), ops[|ops| - 1]);
    }
  }

  lemma AcceptedText(backend: Backend, parse: Parser, s: State, input: NewPool)
    requires NetipText(parse) && Accepts(backend, parse, s, input)
    ensures SameText(Fresh(s, input), input)
  {
    AcceptsAdmissible(backend, parse, s, input);
    assert TrimLeft(input.cidr) == input.cidr && TrimRight(input.cidr) == input.cidr;
  }

  lemma AcceptedAgain(parse: Parser, s: State, input: NewPool)
    requires NetipText(parse) && s.WellFormed() && Accepts(Memory, parse, s, input)
    ensures Accepts(Memory, parse, Insert(s, input), input)
  {
    var s' := Insert(s, input);
    AcceptedText(Memory, parse, s, input);
    forall id | id in s'.pools && s'.Live(id)
      ensures !Blocks(parse, s'.pools[id], input)
    {
      assert id != s.next ==> s.Live(id) && !Blocks(parse, s.pools[id], input);
    }
  }

  /** On the in-memory store the same accepted request sent twice breaks the tree. */
  lemma MemoryAcceptsTwins(parse: Parser, s: State, input: NewPool)
    requires NetipText(parse) && Tree(parse, s) && Accepts(Memory, parse, s, input)
    ensures var s' := Insert(s, input);
      Accepts(Memory, parse, s', input) && !Tree(parse, Insert(s', input))
  {
    var s' := Insert(s, input);
    AcceptedAgain(parse, s, input);
    if Tree(parse, s') {
      CreateKeepsTreeIff(Memory, parse, s', input);
      AcceptedText(Memory, parse, s, input);
      assert Twin(s', s.next, input);
    } else if Tree(parse, Insert(s', input)) {
      TreeOfInsert(parse, s', input);
    }
  }

  /** A tree stays a tree when its newest pool is forgotten. */
  lemma TreeOfInsert(parse: Parser, s: State, input: NewPool)
    requires s.WellFormed() && Tree(parse, Insert(s, input))
    ensures Tree(parse, s)
  {
    var s' := Insert(s, input);
    forall id | s.Live(id)
      ensures s'.Live(id) && IPv4At(parse, s, id)
    {
      assert IPv4At(parse, s', id);
    }
    forall c, p | s.ChildOf(c, p)
      ensures Nested(parse, s, c, p)
    {
      assert s'.ChildOf(c, p);
    }
    forall x, y | Siblings(s, x, y)
      ensures Apart(parse, s, x, y)
    {
      assert Siblings(s', x, y);
    }
  }

  // ---------------------------------------------------------------- what the tree means

  /** Pools from a root down to `id`; the prefix length grows along it, so it ends. */
  ghost function Chain(parse: Parser, s: State, id: nat): (path: seq<nat>)
    requires Tree(parse, s) && s.Live(id)
    ensures path != [] && path[|path| - 1] == id
    ensures forall i :: 0 <= i < |path| ==> s.Live(path[i])
    ensures s.pools[path[0]].parent.None?
    ensures forall i :: 0 < i < |path| ==> s.pools[path[i]].parent == Some(path[i - 1])
    decreases Block(parse, s, id).bits
  {
    match s.pools[id].parent
    case None => [id]
    case Some(p) =>
      assert s.ChildOf(id, p) && Nested(parse, s, id, p);
      Chain(parse, s, p) + [id]
  }

  /** A pool lies below every pool of its chain, and inside each of them. */
  lemma {:induction false} ChainAbove(parse: Parser, s: State, id: nat, k: nat)
    requires Tree(parse, s) && s.Live(id) && k < |Chain(parse, s, id)|
    ensures var a := Chain(parse, s, id)[k];
      Below(s, id, a) && Within(Block(parse, s, id), Block(parse, s, a))
    decreases Block(parse, s, id).bits
  {
    if k == |Chain(parse, s, id)| - 1 {
      BelowSelf(s, id);
    } else {
      var p := s.pools[id].parent.value;
      assert s.ChildOf(id, p) && Nested(parse, s, id, p);
      ChainAbove(parse, s, p, k);
      BelowParent(s, id, Chain(parse, s, id)[k]);
    }
  }

  lemma {:induction false} ClimbStaysInside(parse: Parser, s: State, path: seq<nat>, x: nat, root: nat)
    requires Tree(parse, s) && Climbs(s, path, x, root)
    ensures Within(Block(parse, s, x), Block(parse, s, root))
    decreases |path|
  {
    if |path| > 1 {
      assert s.ChildOf(x, path[1]) && Nested(parse, s, x, path[1]);
      assert Climbs(s, path[1..], path[1], root);
      ClimbStaysInside(parse, s, path[1..], path[1], root);
    }
  }

  /** Two chains whose ends share an address run through the same pools as far as both go. */
  lemma {:induction false} ChainsAgree(parse: Parser, s: State, x: nat, y: nat, a: Addr, k: nat)
    requires Tree(parse, s) && s.Live(x) && s.Live(y)
    requires Contains(Block(parse, s, x), a) && Contains(Block(parse, s, y), a)
    requires k < |Chain(parse, s, x)| && k < |Chain(parse, s, y)|
    ensures Chain(parse, s, x)[k] == Chain(parse, s, y)[k]
  {
    var u, v := Chain(parse, s, x)[k], Chain(parse, s, y)[k];
    if k > 0 {
      ChainsAgree(parse, s, x, y, a, k - 1);
    }
    ChainAbove(parse, s, x, k);
    ChainAbove(parse, s, y, k);
    assert Siblings(s, u, v) <==> u != v;
  }

  /** Two live pools share an address if and only if one is the other or lies below it. */
  lemma ShareAddressIff(parse: Parser, s: State, x: nat, y: nat)
    requires Tree(parse, s) && s.Live(x) && s.Live(y)
    ensures Meets(Block(parse, s, x), Block(parse, s, y)) <==> Below(s, x, y) || Below(s, y, x)
  {
    var p, q := Block(parse, s, x), Block(parse, s, y);
    OwnAddresses(p);
    OwnAddresses(q);
    if Below(s, x, y) {
      var path :| Climbs(s, path, x, y);
      ClimbStaysInside(parse, s, path, x, y);
    } else if Below(s, y, x) {
      var path :| Climbs(s, path, y, x);
      ClimbStaysInside(parse, s, path, y, x);
    } else if Meets(p, q) {
      var a :| Contains(p, a) && Contains(q, a);
      var u, v := |Chain(parse, s, x)| - 1, |Chain(parse, s, y)| - 1;
      var k := if u < v then u else v;
      ChainsAgree(parse, s, x, y, a, k);
      ChainAbove(parse, s, x, k);
      ChainAbove(parse, s, y, k);
    }
  }

  /** The two facts above hold after every run. */
  lemma RunSharesByAncestry(backend: Backend, parse: Parser, ops: seq<Op>, x: nat, y: nat)
    requires NetipText(parse) && (backend == Memory ==> TwinFree(backend, parse, ops))
    requires var s := Run(backend, parse, ops); s.Live(x) && s.Live(y)
    ensures var s := Run(backend, parse, ops);
      IPv4At(parse, s, x) && IPv4At(parse, s, y)
      && (Meets(Block(parse, s, x), Block(parse, s, y)) <==> Below(s, x, y) || Below(s, y, x))
  {
    RunKeepsTree(backend, parse, ops);
    ShareAddressIff(parse, Run(backend, parse, ops), x, y);
  }

  // ---------------------------------------------------------------- capacity

  ghost function ChildBlocks(parse: Parser, s: State, p: nat): map<nat, Prefix>
    requires Tree(parse, s)
  {
    map c | c in s.pools && s.ChildOf(c, p) :: Block(parse, s, c)
  }

  /** The children of a pool never hold more addresses than the pool. */
  lemma ChildrenFit(parse: Parser, s: State, p: nat)
    requires Tree(parse, s) && s.Live(p)
    ensures TotalSize(ChildBlocks(parse, s, p)) <= Size(Block(parse, s, p))
  {
    var blocks := ChildBlocks(parse, s, p);
    forall x, y | x in blocks && y in blocks && x != y
      ensures !Meets(blocks[x], blocks[y])
    {
      assert Siblings(s, x, y) && Apart(parse, s, x, y);
    }
    forall c | c in blocks
      ensures Within(blocks[c], Block(parse, s, p))
    {
      assert s.ChildOf(c, p) && Nested(parse, s, c, p);
    }
    DisjointPartsFit(blocks, Block(parse, s, p));
  }

  /** Capacity is never exceeded in any run. */
  lemma RunChildrenFit(backend: Backend, parse: Parser, ops: seq<Op>, p: nat)
    requires NetipText(parse) && (backend == Memory ==> TwinFree(backend, parse, ops))
    requires Run(backend, parse, ops).Live(p)
    ensures var s := Run(backend, parse, ops);
      Tree(parse, s) && TotalSize(ChildBlocks(parse, s, p)) <= Size(Block(parse, s, p))
  {
    RunKeepsTree(backend, parse, ops);
    ChildrenFit(parse, Run(backend, parse, ops), p);
  }
}
