/** Reading a listing page by page when every page is cut from a freshly ordered list. */
module Paging {

  import opened Bits
  import opened Discovery
  import opened Sorting

  const PAGE_SIZE: nat := 1000

  // ---------------------------------------------------------------- one listing

  /** What the store may list for one call: newest first, equal times in any order. */
  ghost predicate IsListing(rs: set<Resource>, o: seq<Resource>) {
    Distinct(o)
    && (forall r :: r in o <==> r in rs)
    && forall i, j :: 0 <= i < j < |o| ==> o[i].discoveredAt >= o[j].discoveredAt
  }

  /** At most `n` resources from place `start` on. */
  function Cut<T>(o: seq<T>, start: nat, n: nat): (r: seq<T>)
    ensures |r| == if start + n <= |o| then n else if start <= |o| then |o| - start else 0
  {
    if start > |o| then []
    else if start + n > |o| then o[start..] else o[start..start + n]
  }

  /** Page `k`, counted from 0. */
  function Slice<T>(o: seq<T>, k: nat, n: nat): seq<T> {
    Cut(o, k * n, n)
  }

  function Newest(r: Resource): int {
    -r.discoveredAt
  }

  predicate Newer(r: Resource, s: Resource) {
    r.discoveredAt > s.discoveredAt
  }

  lemma {:induction false} DistinctSize<T>(s: seq<T>, elems: set<T>)
    requires Distinct(s) && forall x :: x in s <==> x in elems
    ensures |s| == |elems|
  {
    if s == [] {
      assert elems == {};
    } else {
      var n := |s| - 1;
      forall x
        ensures x in s[..n] <==> x in elems - {s[n]}
      {
        assert x in s <==> x in s[..n] || x == s[n];
      }
      DistinctSize(s[..n], elems - {s[n]});
    }
  }

  lemma SortedIsListing(filtered: seq<Resource>, rs: set<Resource>)
    requires Distinct(filtered) && forall r :: r in filtered <==> r in rs
    ensures IsListing(rs, StableSort(filtered, Newer)) && |StableSort(filtered, Newer)| == |rs|
  {
    var sorted := StableSort(filtered, Newer);
    SortSorts(filtered, Newer, Newest);
    SameElements(filtered, sorted);
    DistinctRearranged(filtered, sorted);
    DistinctSize(filtered, rs);
    forall i, j | 0 <= i < j < |sorted|
      ensures sorted[i].discoveredAt >= sorted[j].discoveredAt
    {
      assert Newest(sorted[i]) <= Newest(sorted[j]);
    }
  }

  // ---------------------------------------------------------------- a paged read

  /** Page 0 of the first order, page 1 of the second, and so on. */
  ghost function Paged(orders: seq<seq<Resource>>, n: nat): seq<Resource> {
    if orders == [] then []
    else Paged(orders[..|orders| - 1], n) + Slice(orders[|orders| - 1], |orders| - 1, n)
  }

  /** Any orders the calls may have met, with enough pages to reach the end. */
  ghost predicate IsSchedule(rs: set<Resource>, orders: seq<seq<Resource>>, n: nat) {
    |orders| * n >= |rs| && forall i :: 0 <= i < |orders| ==> IsListing(rs, orders[i])
  }

  ghost function Before(rs: set<Resource>, t: int): nat {
    |set r | r in rs && r.discoveredAt > t|
  }

  ghost function Through(rs: set<Resource>, t: int): nat {
    |set r | r in rs && r.discoveredAt >= t|
  }

  /** A page boundary falls among the resources discovered at `t`. */
  ghost predicate Straddled(rs: set<Resource>, n: nat, t: int) {
    exists k: nat :: Cuts(k * n, Before(rs, t), Through(rs, t))
  }

  ghost predicate Cuts(boundary: nat, first: nat, end: nat) {
    first < boundary < end
  }

  lemma Positions(rs: set<Resource>, o: seq<Resource>, p: nat)
    requires IsListing(rs, o) && p < |o|
    ensures |o| == |rs|
    ensures Before(rs, o[p].discoveredAt) <= p < Through(rs, o[p].discoveredAt) <= |rs|
  {
    DistinctSize(o, rs);
    var t := o[p].discoveredAt;
    var newer, upTo := set r | r in rs && r.discoveredAt > t, set r | r in rs && r.discoveredAt >= t;
    var before, through := o[..p], o[..p + 1];
    var head, headAndSelf := set r | r in before, set r | r in through;
    DistinctSize(before, head);
    DistinctSize(through, headAndSelf);
    assert newer <= head;
    SubsetSize(newer, head);
    assert headAndSelf <= upTo;
    SubsetSize(headAndSelf, upTo);
    SubsetSize(upTo, rs);
  }

  lemma {:induction false} SubsetSize<T>(a: set<T>, b: set<T>)
    requires a <= b
    ensures |a| <= |b|
  {
    if a != {} {
      var x :| x in a;
      SubsetSize(a - {x}, b - {x});
    }
  }

  // ---------------------------------------------------------------- what a paged read returns

  lemma CutHolds(o: seq<Resource>, start: nat, n: nat, p: nat)
    requires Distinct(o) && p < |o|
    ensures multiset(Cut(o, start, n))[o[p]] == if start <= p < start + n then 1 else 0
  {
    var s := Cut(o, start, n);
    forall i, j | 0 <= i < j < |s|
      ensures s[i] != s[j]
    {
      assert s[i] == o[start + i] && s[j] == o[start + j];
    }
    DistinctCounts(s, o[p]);
    if start <= p < start + n {
      assert s[p - start] == o[p];
    } else {
      assert o[p] !in s;
    }
  }

  lemma PageOrder(m: nat, k: nat, n: nat)
    ensures m < k ==> m * n + n <= k * n
    ensures m >= k ==> m * n >= k * n
  {
    if m < k {
      assert m * n + n == (m + 1) * n <= k * n;
    }
  }

  lemma PagedStep(orders: seq<seq<Resource>>, n: nat, p: nat)
    requires orders != [] && Distinct(orders[|orders| - 1]) && p < |orders[|orders| - 1]|
    ensures var m := |orders| - 1; var x := orders[m][p];
      multiset(Paged(orders, n))[x] == multiset(Paged(orders[..m], n))[x] + if m * n <= p < m * n + n then 1 else 0
  {
    var m := |orders| - 1;
    CutHolds(orders[m], m * n, n, p);
  }

  lemma PlaceOf(rs: set<Resource>, o: seq<Resource>, x: Resource) returns (p: nat)
    requires IsListing(rs, o) && x in rs
    ensures |o| == |rs| && p < |o| && o[p] == x
    ensures Before(rs, x.discoveredAt) <= p < Through(rs, x.discoveredAt) <= |rs|
  {
    assert x in o;
    p :| 0 <= p < |o| && o[p] == x;
    Positions(rs, o, p);
  }

  /** A resource that every call would put on page `j` is read once. */
  lemma {:induction false} PagedHolds(rs: set<Resource>, orders: seq<seq<Resource>>, n: nat, x: Resource, j: nat)
    requires forall i :: 0 <= i < |orders| ==> IsListing(rs, orders[i])
    requires x in rs && j * n <= Before(rs, x.discoveredAt) && Through(rs, x.discoveredAt) <= j * n + n
    ensures multiset(Paged(orders, n))[x] == if j < |orders| then 1 else 0
  {
    if orders != [] {
      var m := |orders| - 1;
      PagedHolds(rs, orders[..m], n, x, j);
      var p := PlaceOf(rs, orders[m], x);
      PagedStep(orders, n, p);
      SamePage(j, m, n, p);
    }
  }

  lemma SamePage(j: nat, m: nat, n: nat, p: nat)
    requires j * n <= p < j * n + n
    ensures m * n <= p < m * n + n <==> m == j
  {
    if m < j {
      assert m * n + n == (m + 1) * n <= j * n;
    } else if m > j {
      assert m * n >= (j + 1) * n == j * n + n;
    }
  }

  lemma {:induction false} PagedOnlyListed(rs: set<Resource>, orders: seq<seq<Resource>>, n: nat)
    requires forall i :: 0 <= i < |orders| ==> IsListing(rs, orders[i])
    ensures forall x :: x in Paged(orders, n) ==> x in rs
  {
    if orders != [] {
      var m := |orders| - 1;
      PagedOnlyListed(rs, orders[..m], n);
      forall x | x in Slice(orders[m], m, n)
        ensures x in rs
      {
        assert x in orders[m];
      }
    }
  }

  lemma UncutPage(rs: set<Resource>, n: nat, t: int) returns (j: nat)
    requires n > 0 && !Straddled(rs, n, t)
    ensures j * n <= Before(rs, t) && Through(rs, t) <= j * n + n
  {
    j := Before(rs, t) / n;
    assert j * n + n == (j + 1) * n;
    assert !Cuts((j + 1) * n, Before(rs, t), Through(rs, t));
  }

  // ---------------------------------------------------------------- the schedule that loses a resource

  function Swapped<T>(s: seq<T>, i: nat, j: nat): seq<T>
    requires i < |s| && j < |s|
  {
    s[i := s[j]][j := s[i]]
  }

  /** Resources discovered at the same time may trade places in a listing. */
  lemma SwapListing(rs: set<Resource>, o: seq<Resource>, i: nat, j: nat)
    requires IsListing(rs, o) && i < |o| && j < |o| && o[i].discoveredAt == o[j].discoveredAt
    ensures IsListing(rs, Swapped(o, i, j))
  {
    var s := Swapped(o, i, j);
    forall r
      ensures r in s <==> r in rs
    {
      if r in o {
        var p :| 0 <= p < |o| && o[p] == r;
        assert s[if p == i then j else if p == j then i else p] == r;
      }
    }
  }

  /** The places between `Before` and `Through` belong to the resources discovered at that time. */
  lemma TiedPlaces(rs: set<Resource>, o: seq<Resource>, p: nat, t: int)
    requires IsListing(rs, o) && p < |o| && Before(rs, t) <= p < Through(rs, t)
    ensures o[p].discoveredAt == t
  {
    Positions(rs, o, p);
    var u := o[p].discoveredAt;
    if u > t {
      SubsetSize(set r | r in rs && r.discoveredAt >= u, set r | r in rs && r.discoveredAt > t);
    } else if u < t {
      SubsetSize(set r | r in rs && r.discoveredAt >= t, set r | r in rs && r.discoveredAt > u);
    }
  }

  lemma {:induction false} PagedMisses(orders: seq<seq<Resource>>, n: nat, x: Resource, k: nat, b: nat)
    requires b == k * n && b > 0
    requires forall i :: 0 <= i < |orders| ==> Distinct(orders[i]) && b < |orders[i]|
    requires forall i :: 0 <= i < |orders| ==> orders[i][if i < k then b else b - 1] == x
    ensures multiset(Paged(orders, n))[x] == 0
  {
    if orders != [] {
      var m := |orders| - 1;
      PagedMisses(orders[..m], n, x, k, b);
      PagedStep(orders, n, if m < k then b else b - 1);
      PageOrder(m, k, n);
    }
  }

  lemma Enough(a: nat, n: nat)
    requires n > 0
    ensures a * n >= a
  {
    assert a * n == a + a * (n - 1);
  }

  /** Two listings with `x` on either side of a boundary. */
  lemma AcrossBoundary(rs: set<Resource>, o: seq<Resource>, n: nat, x: Resource)
    returns (k: nat, b: nat, early: seq<Resource>, late: seq<Resource>)
    requires n > 0 && IsListing(rs, o) && x in rs && Straddled(rs, n, x.discoveredAt)
    ensures b == k * n && 0 < b < |rs|
    ensures IsListing(rs, early) && |early| == |rs| && early[b] == x
    ensures IsListing(rs, late) && |late| == |rs| && late[b - 1] == x
  {
    var t := x.discoveredAt;
    k :| Cuts(k * n, Before(rs, t), Through(rs, t));
    b := k * n;
    early := MovedTo(rs, o, x, b);
    late := MovedTo(rs, o, x, b - 1);
  }

  lemma MovedTo(rs: set<Resource>, o: seq<Resource>, x: Resource, b: nat) returns (s: seq<Resource>)
    requires IsListing(rs, o) && x in rs && Before(rs, x.discoveredAt) <= b < Through(rs, x.discoveredAt)
    ensures IsListing(rs, s) && b < |s| == |rs| && s[b] == x
  {
    var p := PlaceOf(rs, o, x);
    TiedPlaces(rs, o, b, x.discoveredAt);
    SwapListing(rs, o, p, b);
    s := Swapped(o, p, b);
  }

  /** Calls that put `x` behind a boundary until they pass it, and before it from then on. */
  lemma LosingSchedule(rs: set<Resource>, o: seq<Resource>, n: nat, x: Resource) returns (orders: seq<seq<Resource>>)
    requires n > 0 && IsListing(rs, o) && x in rs && Straddled(rs, n, x.discoveredAt)
    ensures IsSchedule(rs, orders, n) && x !in Paged(orders, n)
  {
    var k, b, early, late := AcrossBoundary(rs, o, n, x);
    orders := seq(|rs|, i => if i < k then early else late);
    Enough(|rs|, n);
    PagedMisses(orders, n, x, k, b);
    assert x !in multiset(Paged(orders, n));
  }

  // ---------------------------------------------------------------- exactly when a paged read is right

  /** A resource is read once, whatever orders the calls meet, iff no page boundary cuts its tie group. */
  lemma ReadOnceIff(rs: set<Resource>, o: seq<Resource>, n: nat, x: Resource)
    requires n > 0 && IsListing(rs, o) && x in rs
    ensures (forall orders :: IsSchedule(rs, orders, n) ==> multiset(Paged(orders, n))[x] == 1)
       <==> !Straddled(rs, n, x.discoveredAt)
  {
    if Straddled(rs, n, x.discoveredAt) {
      var orders := LosingSchedule(rs, o, n, x);
      assert IsSchedule(rs, orders, n);
    } else {
      forall orders | IsSchedule(rs, orders, n)
        ensures multiset(Paged(orders, n))[x] == 1
      {
        UncutReadOnce(rs, o, orders, n, x);
      }
    }
  }

  lemma UncutReadOnce(rs: set<Resource>, o: seq<Resource>, orders: seq<seq<Resource>>, n: nat, x: Resource)
    requires n > 0 && IsListing(rs, o) && x in rs && !Straddled(rs, n, x.discoveredAt) && IsSchedule(rs, orders, n)
    ensures multiset(Paged(orders, n))[x] == 1
  {
    var j := UncutPage(rs, n, x.discoveredAt);
    PagedHolds(rs, orders, n, x, j);
    var p := PlaceOf(rs, o, x);
    PageOrder(|orders|, j, n);
    PageOrder(j, |orders|, n);
  }

  ghost predicate NothingStraddled(rs: set<Resource>, n: nat) {
    forall x :: x in rs ==> !Straddled(rs, n, x.discoveredAt)
  }

  /** A paged read returns the listing, whatever orders the calls meet, iff no page boundary cuts a tie group. */
  lemma PagedCompleteIff(rs: set<Resource>, o: seq<Resource>, n: nat)
    requires n > 0 && IsListing(rs, o)
    ensures (forall orders :: IsSchedule(rs, orders, n) ==> multiset(Paged(orders, n)) == multiset(o))
       <==> NothingStraddled(rs, n)
  {
    if NothingStraddled(rs, n) {
      forall orders | IsSchedule(rs, orders, n)
        ensures multiset(Paged(orders, n)) == multiset(o)
      {
        PagedOnlyListed(rs, orders, n);
        forall x
          ensures multiset(Paged(orders, n))[x] == multiset(o)[x]
        {
          DistinctCounts(o, x);
          if x in rs {
            UncutReadOnce(rs, o, orders, n, x);
            assert x in o;
          }
        }
      }
    } else {
      var x :| x in rs && Straddled(rs, n, x.discoveredAt);
      var orders := LosingSchedule(rs, o, n, x);
      assert x in o && x in multiset(o);
      assert IsSchedule(rs, orders, n) && multiset(Paged(orders, n))[x] == 0;
    }
  }

  /** A cut tie group needs more than one page and two resources with one time. */
  lemma StraddledNeeds(rs: set<Resource>, o: seq<Resource>, n: nat, t: int)
    requires IsListing(rs, o) && Straddled(rs, n, t)
    ensures |rs| > n
    ensures exists r, s :: r in rs && s in rs && r != s && r.discoveredAt == s.discoveredAt
  {
    var k: nat :| Cuts(k * n, Before(rs, t), Through(rs, t));
    PageOrder(0, k, n);
    var b := k * n;
    SubsetSize((set r | r in rs && r.discoveredAt >= t), rs);
    DistinctSize(o, rs);
    TiedPlaces(rs, o, b, t);
    TiedPlaces(rs, o, b - 1, t);
    assert o[b] in rs && o[b - 1] in rs && o[b] != o[b - 1];
  }

  /** One page always suffices, and so do distinct times. */
  lemma UncutCases(rs: set<Resource>, o: seq<Resource>, n: nat)
    requires IsListing(rs, o)
    requires |rs| <= n || forall r, s :: r in rs && s in rs && r != s ==> r.discoveredAt != s.discoveredAt
    ensures NothingStraddled(rs, n)
  {
    forall x | x in rs
      ensures !Straddled(rs, n, x.discoveredAt)
    {
      if Straddled(rs, n, x.discoveredAt) {
        StraddledNeeds(rs, o, n, x.discoveredAt);
      }
    }
  }

  // ---------------------------------------------------------------- the result seen by a caller

  ghost predicate IsPagedRead(rs: set<Resource>, n: nat, out: seq<Resource>) {
    exists orders :: IsSchedule(rs, orders, n) && out == Paged(orders, n)
  }

  lemma {:induction false} PagedLength(rs: set<Resource>, orders: seq<seq<Resource>>, n: nat)
    requires forall i :: 0 <= i < |orders| ==> IsListing(rs, orders[i])
    ensures |Paged(orders, n)| == if |orders| * n <= |rs| then |orders| * n else |rs|
  {
    if orders != [] {
      var m := |orders| - 1;
      PagedLength(rs, orders[..m], n);
      DistinctSize(orders[m], rs);
      NextPage(m, n);
    }
  }

  lemma NextPage(m: nat, n: nat)
    ensures (m + 1) * n == m * n + n
  {
  }

  /** An uncut read holds each resource once. */
  lemma PagedReadComplete(rs: set<Resource>, o: seq<Resource>, n: nat, out: seq<Resource>)
    requires n > 0 && IsListing(rs, o) && NothingStraddled(rs, n) && IsPagedRead(rs, n, out)
    ensures multiset(out) == multiset(o) && Distinct(out) && forall r :: r in out <==> r in rs
  {
    PagedCompleteIff(rs, o, n);
    DistinctRearranged(o, out);
    SameElements(o, out);
  }

  lemma {:induction false} Enumerate(rs: set<Resource>) returns (s: seq<Resource>)
    ensures Distinct(s) && forall r :: r in s <==> r in rs
  {
    s := [];
    if rs != {} {
      var x :| x in rs;
      s := Enumerate(rs - {x});
      s := s + [x];
    }
  }

  lemma SomeListing(rs: set<Resource>) returns (o: seq<Resource>)
    ensures IsListing(rs, o)
  {
    o := Enumerate(rs);
    SortedIsListing(o, rs);
    o := StableSort(o, Newer);
  }

  // ---------------------------------------------------------------- reads that miss several resources at once

  ghost function Group(rs: set<Resource>, t: int): set<Resource> {
    set r | r in rs && r.discoveredAt == t
  }

  ghost function Elems(o: seq<Resource>, from: nat, until: nat): set<Resource> {
    set i | 0 <= i < |o| && from <= i < until :: o[i]
  }

  function Max(a: nat, b: nat): nat {
    if a < b then b else a
  }

  function Min(a: nat, b: nat): nat {
    if a < b then a else b
  }

  /** How many of the places from `first` to `end` are among the `n` from `start`. */
  function Shared(first: nat, end: nat, start: nat, n: nat): nat {
    if Max(first, start) < Min(end, start + n) then Min(end, start + n) - Max(first, start) else 0
  }

  /** The other members of each tie group of `gone` can fill its places among the `n` from `start`. */
  ghost predicate HasRoom(rs: set<Resource>, start: nat, n: nat, gone: set<Resource>) {
    forall x :: x in gone ==>
      Shared(Before(rs, x.discoveredAt), Through(rs, x.discoveredAt), start, n) <= |Group(rs, x.discoveredAt) - gone|
  }

  ghost predicate RoomOnPage(rs: set<Resource>, n: nat, gone: set<Resource>, k: nat) {
    HasRoom(rs, Multiple(k, n), n, gone)
  }

  /** On every page, the tie groups of `gone` have enough other members to fill their places. */
  ghost predicate Avoidable(rs: set<Resource>, n: nat, gone: set<Resource>) {
    forall k: nat :: RoomOnPage(rs, n, gone, k)
  }

  ghost predicate Avoids(out: seq<Resource>, gone: set<Resource>) {
    forall x :: x in gone ==> x !in out
  }

  lemma ElemsSize(o: seq<Resource>, from: nat, until: nat)
    requires Distinct(o) && from <= until <= |o|
    ensures |Elems(o, from, until)| == until - from
  {
    var part := o[from..until];
    forall x
      ensures x in part <==> x in Elems(o, from, until)
    {
      if x in Elems(o, from, until) {
        var i :| 0 <= i < |o| && from <= i < until && o[i] == x;
        assert part[i - from] == x;
      }
    }
    forall i, j | 0 <= i < j < |part|
      ensures part[i] != part[j]
    {
      assert part[i] == o[from + i] && part[j] == o[from + j];
    }
    DistinctSize(part, Elems(o, from, until));
  }

  /** The places of a tie group on the `n` places from `start` hold members of the group. */
  lemma GroupPlaces(rs: set<Resource>, o: seq<Resource>, t: int, start: nat, n: nat) returns (shown: set<Resource>)
    requires IsListing(rs, o)
    ensures |shown| == Shared(Before(rs, t), Through(rs, t), start, n)
    ensures shown <= Group(rs, t)
    ensures forall x :: x in shown <==>
      exists i :: 0 <= i < |o| && start <= i < start + n && Before(rs, t) <= i < Through(rs, t) && o[i] == x
  {
    DistinctSize(o, rs);
    SubsetSize((set r | r in rs && r.discoveredAt >= t), rs);
    var from, until := Max(Before(rs, t), start), Min(Through(rs, t), start + n);
    if from < until {
      shown := Elems(o, from, until);
      ElemsSize(o, from, until);
      forall x | x in shown
        ensures x in Group(rs, t)
      {
        var i :| 0 <= i < |o| && from <= i < until && o[i] == x;
        TiedPlaces(rs, o, i, t);
        assert o[i] in rs;
      }
    } else {
      shown := {};
    }
  }

  lemma {:induction false} PagedShows(orders: seq<seq<Resource>>, n: nat, k: nat, i: nat)
    requires k < |orders| && i < |orders[k]| && k * n <= i < k * n + n
    ensures orders[k][i] in Paged(orders, n)
  {
    var m := |orders| - 1;
    if k == m {
      assert Slice(orders[m], m, n)[i - m * n] == orders[m][i];
    } else {
      PagedShows(orders[..m], n, k, i);
    }
  }

  lemma AvoidedIsAvoidable(rs: set<Resource>, orders: seq<seq<Resource>>, n: nat, gone: set<Resource>)
    requires IsSchedule(rs, orders, n) && Avoids(Paged(orders, n), gone)
    ensures Avoidable(rs, n, gone)
  {
    forall k: nat
      ensures RoomOnPage(rs, n, gone, k)
    {
      AvoidedHasRoom(rs, orders, n, gone, k);
    }
  }

  lemma AvoidedHasRoom(
      rs: set<Resource>, orders: seq<seq<Resource>>, n: nat, gone: set<Resource>, k: nat)
    requires IsSchedule(rs, orders, n) && Avoids(Paged(orders, n), gone)
    ensures RoomOnPage(rs, n, gone, k)
  {
    var start := Multiple(k, n);
    MultipleIs(k, n);
    forall x | x in gone
      ensures Shared(Before(rs, x.discoveredAt), Through(rs, x.discoveredAt), start, n)
           <= |Group(rs, x.discoveredAt) - gone|
    {
      AvoidedLeavesRoom(rs, orders, n, gone, x.discoveredAt, k, start);
    }
  }

  lemma AvoidedLeavesRoom(
      rs: set<Resource>, orders: seq<seq<Resource>>, n: nat, gone: set<Resource>, t: int, k: nat, start: nat)
    requires IsSchedule(rs, orders, n) && Avoids(Paged(orders, n), gone) && start == k * n
    ensures Shared(Before(rs, t), Through(rs, t), start, n) <= |Group(rs, t) - gone|
  {
    if Shared(Before(rs, t), Through(rs, t), start, n) > 0 {
      PageOfGroupIsRead(rs, orders, n, t, k);
      var shown := GroupPlaces(rs, orders[k], t, start, n);
      forall y | y in shown
        ensures y !in gone
      {
        var i :| 0 <= i < |orders[k]| && start <= i < start + n && orders[k][i] == y;
        PagedShows(orders, n, k, i);
      }
      SubsetSize(shown, Group(rs, t) - gone);
    }
  }

  lemma PageOfGroupIsRead(rs: set<Resource>, orders: seq<seq<Resource>>, n: nat, t: int, k: nat)
    requires IsSchedule(rs, orders, n) && Shared(Before(rs, t), Through(rs, t), k * n, n) > 0
    ensures k < |orders|
  {
    SubsetSize((set r | r in rs && r.discoveredAt >= t), rs);
    PageOrder(k, |orders|, n);
  }

  /** A place off the page that holds another member of the group, to trade with one on the page. */
  lemma PlaceToTrade(rs: set<Resource>, o: seq<Resource>, start: nat, n: nat, gone: set<Resource>, p: nat) returns (q: nat)
    requires IsListing(rs, o) && p < |o| && start <= p < start + n && o[p] in gone
    requires HasRoom(rs, start, n, gone)
    ensures q < |o| && !(start <= q < start + n) && o[q].discoveredAt == o[p].discoveredAt && o[q] !in gone
  {
    var x := o[p];
    var shown := GroupPlaces(rs, o, x.discoveredAt, start, n);
    var others := Group(rs, x.discoveredAt) - gone;
    Positions(rs, o, p);
    assert x in shown && x !in others;
    var y := SomeoneElse(others, shown, x);
    q := PlaceOf(rs, o, y);
  }

  lemma SomeoneElse(others: set<Resource>, shown: set<Resource>, x: Resource) returns (y: Resource)
    requires |shown| <= |others| && x in shown && x !in others
    ensures y in others && y !in shown
  {
    if others <= shown {
      SubsetSize(others, shown - {x});
    }
    y :| y in others && y !in shown;
  }

  /** The members of `gone` on the `n` places from `start`. */
  ghost function Seen(o: seq<Resource>, start: nat, n: nat, gone: set<Resource>): set<Resource> {
    Elems(o, start, start + n) * gone
  }

  lemma TradeShrinks(o: seq<Resource>, start: nat, n: nat, gone: set<Resource>, p: nat, q: nat)
    requires Distinct(o) && p < |o| && q < |o| && start <= p < start + n && !(start <= q < start + n)
    requires o[p] in gone && o[q] !in gone
    ensures Seen(Swapped(o, p, q), start, n, gone) == Seen(o, start, n, gone) - {o[p]}
    ensures |Seen(Swapped(o, p, q), start, n, gone)| < |Seen(o, start, n, gone)|
  {
    var s := Swapped(o, p, q);
    assert o[p] in Seen(o, start, n, gone);
    forall x
      ensures x in Seen(s, start, n, gone) <==> x in Seen(o, start, n, gone) && x != o[p]
    {
      if x in Seen(s, start, n, gone) {
        var i :| 0 <= i < |s| && start <= i < start + n && s[i] == x;
        assert i != p && o[i] == x;
      }
      if x in Seen(o, start, n, gone) && x != o[p] {
        var i :| 0 <= i < |o| && start <= i < start + n && o[i] == x;
        assert s[i] == x;
      }
    }
  }

  /** A listing whose page shows no member of `gone`. */
  lemma {:induction false} AvoidPage(rs: set<Resource>, o: seq<Resource>, start: nat, n: nat, gone: set<Resource>)
    returns (s: seq<Resource>)
    requires IsListing(rs, o) && HasRoom(rs, start, n, gone)
    ensures IsListing(rs, s) && Seen(s, start, n, gone) == {}
    decreases |Seen(o, start, n, gone)|
  {
    if Seen(o, start, n, gone) == {} {
      s := o;
    } else {
      var x :| x in Seen(o, start, n, gone);
      var p: nat :| p < |o| && start <= p < start + n && o[p] == x;
      var q := PlaceToTrade(rs, o, start, n, gone, p);
      SwapListing(rs, o, p, q);
      TradeShrinks(o, start, n, gone, p, q);
      s := AvoidPage(rs, Swapped(o, p, q), start, n, gone);
    }
  }

  lemma {:induction false} AvoidPages(rs: set<Resource>, o: seq<Resource>, n: nat, gone: set<Resource>, m: nat)
    returns (orders: seq<seq<Resource>>)
    requires IsListing(rs, o) && Avoidable(rs, n, gone)
    ensures |orders| == m && forall i :: 0 <= i < m ==> IsListing(rs, orders[i])
    ensures Avoids(Paged(orders, n), gone)
  {
    orders := [];
    if m > 0 {
      var k := m - 1;
      orders := AvoidPages(rs, o, n, gone, k);
      assert RoomOnPage(rs, n, gone, k);
      var start := Multiple(k, n);
      MultipleIs(k, n);
      var s := AvoidPage(rs, o, start, n, gone);
      PageUnseen(s, start, n, gone);
      PagedAppend(orders, s, n);
      orders := orders + [s];
    }
  }

  lemma PagedAppend(orders: seq<seq<Resource>>, o: seq<Resource>, n: nat)
    ensures Paged(orders + [o], n) == Paged(orders, n) + Cut(o, |orders| * n, n)
  {
    assert (orders + [o])[..|orders|] == orders;
  }

  lemma PageUnseen(s: seq<Resource>, start: nat, n: nat, gone: set<Resource>)
    requires Seen(s, start, n, gone) == {}
    ensures Avoids(Cut(s, start, n), gone)
  {
    var page := Cut(s, start, n);
    forall x | x in page
      ensures x !in gone
    {
      var i :| 0 <= i < |page| && page[i] == x;
      assert s[start + i] == x && x in Elems(s, start, start + n);
      assert x in gone ==> x in Seen(s, start, n, gone);
    }
  }

  /** Some paged read shows no member of `gone` iff on every page each of their tie groups has
      enough other members to fill its places. */
  lemma AvoidableIff(rs: set<Resource>, o: seq<Resource>, n: nat, gone: set<Resource>)
    requires n > 0 && IsListing(rs, o)
    ensures (exists out :: IsPagedRead(rs, n, out) && Avoids(out, gone)) <==> Avoidable(rs, n, gone)
  {
    if out :| IsPagedRead(rs, n, out) && Avoids(out, gone) {
      var orders :| IsSchedule(rs, orders, n) && out == Paged(orders, n);
      AvoidedIsAvoidable(rs, orders, n, gone);
    }
    if Avoidable(rs, n, gone) {
      var orders := AvoidPages(rs, o, n, gone, |rs|);
      Enough(|rs|, n);
      assert IsSchedule(rs, orders, n);
      assert IsPagedRead(rs, n, Paged(orders, n));
    }
  }

  lemma SomeRead(rs: set<Resource>, o: seq<Resource>, n: nat) returns (out: seq<Resource>)
    requires n > 0 && IsListing(rs, o)
    ensures IsPagedRead(rs, n, out) && forall r :: r in out ==> r in rs
  {
    var orders := seq(|rs|, i => o);
    Enough(|rs|, n);
    assert IsSchedule(rs, orders, n);
    out := Paged(orders, n);
    PagedOnlyListed(rs, orders, n);
  }
}
