/** Counting addresses: disjoint blocks inside a block never outweigh it. */
module Capacity {

  import opened Cidr

  ghost function Range(lo: nat, n: nat): (r: set<nat>)
    ensures forall a: nat :: a in r <==> lo <= a < lo + n
    ensures |r| == n
  {
    if n == 0 then {} else Range(lo, n - 1) + {lo + n - 1}
  }

  ghost function Addresses(p: Prefix): set<nat> {
    Range(Base(p), Size(p))
  }

  lemma InAddresses(p: Prefix, a: nat)
    ensures a in Addresses(p) <==> Contains(p, Addr(p.addr.is4, a))
  {
    ContainsIsInterval(p, Addr(p.addr.is4, a));
  }

  ghost function Sum(m: map<nat, nat>): nat {
    if m == map[] then 0
    else
      var id :| id in m;
      m[id] + Sum(m - {id})
  }

  ghost function TotalSize(blocks: map<nat, Prefix>): nat {
    Sum(map id | id in blocks :: Size(blocks[id]))
  }

  /** Disjoint parts of a set have together at most its size. */
  lemma {:induction false} PartsFit(sizes: map<nat, nat>, parts: map<nat, set<nat>>, room: set<nat>)
    requires sizes.Keys == parts.Keys
    requires forall x :: x in parts ==> parts[x] <= room && sizes[x] == |parts[x]|
    requires forall x, y :: x in parts && y in parts && x != y ==> parts[x] !! parts[y]
    ensures Sum(sizes) <= |room|
    decreases |sizes|
  {
    if sizes != map[] {
      var id :| id in sizes && Sum(sizes) == sizes[id] + Sum(sizes - {id});
      PartsFit(sizes - {id}, parts - {id}, room - parts[id]);
      assert room == parts[id] + (room - parts[id]);
    }
  }

  lemma DisjointPartsFit(blocks: map<nat, Prefix>, whole: Prefix)
    requires forall x, y :: x in blocks && y in blocks && x != y ==> !Meets(blocks[x], blocks[y])
    requires forall x :: x in blocks ==> Within(blocks[x], whole)
    ensures TotalSize(blocks) <= Size(whole)
  {
    forall x | x in blocks
      ensures Addresses(blocks[x]) <= Addresses(whole) && blocks[x].addr.is4 == whole.addr.is4
    {
      WithinBits(whole, blocks[x]);
      forall a | a in Addresses(blocks[x])
        ensures a in Addresses(whole)
      {
        InAddresses(blocks[x], a);
        InAddresses(whole, a);
      }
    }
    forall x, y | x in blocks && y in blocks && x != y
      ensures Addresses(blocks[x]) !! Addresses(blocks[y])
    {
      forall a | a in Addresses(blocks[x])
        ensures a !in Addresses(blocks[y])
      {
        InAddresses(blocks[x], a);
        InAddresses(blocks[y], a);
      }
    }
    PartsFit(map id | id in blocks :: Size(blocks[id]), map id | id in blocks :: Addresses(blocks[id]), Addresses(whole));
  }
}
