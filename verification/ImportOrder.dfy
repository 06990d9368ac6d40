/** The order in which an import applies its items, and what it does for parents. */
module ImportOrder {

  import opened Discovery
  import opened Import
  import opened ImportApply
  import opened Sorting
  import opened Text
  import opened Wrappers

  /** VPCs first, then by type, then by provider id. */
  predicate ItemLess(a: Item, b: Item) {
    if a.kind == b.kind then Less(a.providerId, b.providerId)
    else a.kind == VPC || (b.kind != VPC && Less(a.kind, b.kind))
  }

  ghost predicate VpcsFirst(items: seq<Item>) {
    forall i, j :: 0 <= i < j < |items| && items[j].kind == VPC ==> items[i].kind == VPC
  }

  lemma {:induction false} InsertKeepsVpcsFirst(s: seq<Item>, x: Item)
    requires VpcsFirst(s)
    ensures VpcsFirst(InsertBy(s, x, ItemLess))
  {
    if s != [] && ItemLess(x, s[|s| - 1]) {
      var init, last := s[..|s| - 1], s[|s| - 1];
      InsertKeepsVpcsFirst(init, x);
      var r := InsertBy(init, x, ItemLess);
      if last.kind == VPC {
        forall i | 0 <= i < |r|
          ensures r[i].kind == VPC
        {
          assert r[i] in multiset(init) + multiset{x};
        }
      }
    } else if s != [] && x.kind == VPC {
      assert s[|s| - 1].kind == VPC;
    }
  }

  /** The apply order puts every VPC before every subnet, so parents are imported first. */
  lemma {:induction false} SortPutsVpcsFirst(items: seq<Item>)
    ensures VpcsFirst(StableSort(items, ItemLess))
  {
    if items != [] {
      SortPutsVpcsFirst(items[..|items| - 1]);
      InsertKeepsVpcsFirst(StableSort(items[..|items| - 1], ItemLess), items[|items| - 1]);
    }
  }

  /** VPCs first, then earlier types, and within a type earlier provider ids. */
  ghost predicate ComesBefore(a: Item, b: Item) {
    if a.kind == b.kind then a.providerId == b.providerId || Before(a.providerId, b.providerId)
    else a.kind == VPC || (b.kind != VPC && Before(a.kind, b.kind))
  }

  lemma ItemLessWeak()
    ensures WeakOrder(ItemLess)
  {
    forall x, y, z
      ensures ItemLess(x, y) ==> !ItemLess(y, x)
      ensures !ItemLess(x, y) && !ItemLess(y, z) ==> !ItemLess(x, z)
    {
      LessWeak(x.kind, y.kind, z.kind);
      LessWeak(x.providerId, y.providerId, z.providerId);
      LessWeak(y.kind, z.kind, x.kind);
      LessWeak(z.kind, x.kind, y.kind);
      LessWeak(z.kind, y.kind, x.kind);
    }
  }

  lemma NotLessComesBefore(a: Item, b: Item)
    requires !ItemLess(b, a)
    ensures ComesBefore(a, b)
  {
    LessIff(a.kind, b.kind);
    LessIff(a.providerId, b.providerId);
    LessWeak(a.kind, b.kind, a.kind);
    LessWeak(a.providerId, b.providerId, a.providerId);
  }

  /** The items are applied in this order. */
  lemma ItemsComeInOrder(items: seq<Item>)
    ensures var sorted := StableSort(items, ItemLess);
      forall i, j :: 0 <= i < j < |sorted| ==> ComesBefore(sorted[i], sorted[j])
  {
    var sorted := StableSort(items, ItemLess);
    ItemLessWeak();
    SortOrders(items, ItemLess);
    forall i, j | 0 <= i < j < |sorted|
      ensures ComesBefore(sorted[i], sorted[j])
    {
      NotLessComesBefore(sorted[i], sorted[j]);
    }
  }

  // ---------------------------------------------------------------- parents of imported subnets

  /** What is linked during the loop is known by its provider id to the items that follow. */
  lemma {:induction false} LinkedIsKnown(cfg: Config, w0: World, items: seq<Item>, faults: seq<Faults>, id: nat)
    requires |faults| == |items| && ValidResources(w0.resources) && id in ApplyAll(cfg, w0, items, faults).1.linked
    ensures id in w0.resources
    ensures w0.resources[id].providerId in ApplyAll(cfg, w0, items, faults).1.poolOf
    ensures exists i :: 0 <= i < |items| && items[i].resource == id
  {
    var n := |items| - 1;
    var (w, log) := ApplyAll(cfg, w0, items[..n], faults[..n]);
    SameResources(cfg, w0, items[..n], faults[..n]);
    ItemIsKnown(cfg, w, log, items[n], faults[n]);
    if id in log.linked {
      LinkedIsKnown(cfg, w0, items[..n], faults[..n], id);
    } else {
      assert items[n].resource == id;
    }
  }

  lemma ItemIsKnown(cfg: Config, w: World, log: Log, item: Item, f: Faults)
    ensures var (w', log') := ApplyItem(cfg, w, log, item, f);
      (forall p :: p in log.poolOf ==> p in log'.poolOf)
      && (log'.linked == log.linked
          || (log'.linked == log.linked + [item.resource] && item.resource in w.resources
              && w.resources[item.resource].providerId in log'.poolOf))
  {
  }

  ghost predicate OnlyLinksDiffer(a: map<nat, Resource>, b: map<nat, Resource>) {
    a.Keys == b.Keys && forall id :: id in a ==> b[id] == a[id].(poolId := b[id].poolId)
  }

  lemma ItemChangesLinks(cfg: Config, w: World, log: Log, item: Item, f: Faults)
    ensures OnlyLinksDiffer(w.resources, ApplyItem(cfg, w, log, item, f).0.resources)
  {
  }

  /** Only links change during an import. */
  lemma {:induction false} SameResources(cfg: Config, w0: World, items: seq<Item>, faults: seq<Faults>)
    requires |faults| == |items|
    ensures OnlyLinksDiffer(w0.resources, ApplyAll(cfg, w0, items, faults).0.resources)
  {
    if items != [] {
      var n := |items| - 1;
      SameResources(cfg, w0, items[..n], faults[..n]);
      var (w, log) := ApplyAll(cfg, w0, items[..n], faults[..n]);
      ItemChangesLinks(cfg, w, log, items[n], faults[n]);
    }
  }

  lemma {:induction false} LinkedLater(cfg: Config, w0: World, items: seq<Item>, faults: seq<Faults>, n: nat, id: nat)
    requires |faults| == |items| && n <= |items| && id in ApplyAll(cfg, w0, items, faults).1.linked
    requires forall i :: n <= i < |items| ==> items[i].resource != id
    ensures id in ApplyAll(cfg, w0, items[..n], faults[..n]).1.linked
  {
    if n == |items| {
      assert items[..n] == items && faults[..n] == faults;
    } else {
      var m := |items| - 1;
      var (w, log) := ApplyAll(cfg, w0, items[..m], faults[..m]);
      ItemLinksItself(cfg, w, log, items[m], faults[m]);
      LinkedLater(cfg, w0, items[..m], faults[..m], n, id);
      assert items[..m][..n] == items[..n] && faults[..m][..n] == faults[..n];
    }
  }

  /** In the apply order a subnet always finds the pool of its selected VPC, if that was imported. */
  lemma ImportedParentIsFound(
      cfg: Config, w0: World, v: View, items: seq<Item>, faults: seq<Faults>, i: nat, vpc: nat)
    requires |faults| == |items| && PreviewOf(cfg, w0, v, items) && VpcsFirst(items)
    requires i < |items| && items[i].resource in w0.resources && w0.resources[items[i].resource].kind == SUBNET
    requires vpc in w0.resources && w0.resources[vpc].kind == VPC
    requires w0.resources[items[i].resource].parentId == Some(w0.resources[vpc].providerId)
    requires vpc in ApplyAll(cfg, w0, items, faults).1.linked
    ensures var (w, log) := ApplyAll(cfg, w0, items[..i], faults[..i]);
      items[i].resource in w.resources && ParentFor(items[i], w.resources[items[i].resource], log).Some?
  {
    assert ItemFor(v, items[i]);
    forall k | i <= k < |items|
      ensures items[k].resource != vpc
    {
      assert ItemFor(v, items[k]);
    }
    LinkedLater(cfg, w0, items, faults, i, vpc);
    LinkedIsKnown(cfg, w0, items[..i], faults[..i], vpc);
    SameResources(cfg, w0, items[..i], faults[..i]);
  }
}
