/** `netip` prefixes of both families and their meaning as sets of addresses. */
module Cidr {

  import opened Bits
  import opened Wrappers

  /** An IP address of either family, as the number its bytes spell. */
  datatype Addr = Addr(is4: bool, value: nat)

  datatype RawPrefix = RawPrefix(addr: Addr, bits: nat) {
    function Width(): nat {
      if addr.is4 then 32 else 128
    }
  }

  /** What `netip.ParsePrefix` can return: the address fits its family, the length its width. */
  type Prefix = p: RawPrefix | p.bits <= p.Width() && p.addr.value < Pow2(p.Width())
    witness RawPrefix(Addr(true, 0), 0)

  /** `netip.ParsePrefix` itself; host bits may be set in the result. */
  type Parser = string -> Option<Prefix>

  function Size(p: Prefix): nat {
    Pow2(p.Width() - p.bits)
  }

  function Base(p: Prefix): nat {
    Align(p.addr.value, Size(p))
  }

  /** `netip.Prefix.Masked`. */
  function Masked(p: Prefix): Prefix {
    RawPrefix(Addr(p.addr.is4, Base(p)), p.bits)
  }

  /** `netip.Prefix.Contains`: same family and equal leading bits. */
  predicate Contains(p: Prefix, a: Addr) {
    p.addr.is4 == a.is4 && a.value / Size(p) == p.addr.value / Size(p)
  }

  // Meaning: the addresses of a prefix.

  ghost predicate Within(q: Prefix, p: Prefix) {
    forall a: Addr :: Contains(q, a) ==> Contains(p, a)
  }

  ghost predicate Meets(p: Prefix, q: Prefix) {
    exists a: Addr :: Contains(p, a) && Contains(q, a)
  }

  /** The block of a prefix is aligned and lies inside its family's address space. */
  lemma BlockAligned(p: Prefix)
    ensures Base(p) + Size(p) <= Pow2(p.Width())
  {
    Pow2Add(p.Width() - p.bits, p.bits);
    BlockFits(p.addr.value, Size(p), Pow2(p.bits));
  }

  /** A prefix is the interval of `Size` addresses that starts at its aligned base. */
  lemma ContainsIsInterval(p: Prefix, a: Addr)
    ensures Contains(p, a) <==> p.addr.is4 == a.is4 && Base(p) <= a.value < Base(p) + Size(p)
  {
    BlockAligned(p);
    SameQuotientIsInterval(a.value, Size(p), p.addr.value / Size(p));
  }

  lemma OwnAddresses(p: Prefix)
    ensures Contains(p, p.addr) && Contains(p, Masked(p).addr)
    ensures Contains(p, Addr(p.addr.is4, Base(p) + Size(p) - 1))
  {
    ContainsIsInterval(p, Masked(p).addr);
    ContainsIsInterval(p, Addr(p.addr.is4, Base(p) + Size(p) - 1));
  }

  /** Addresses that agree on a longer prefix agree on every shorter one. */
  lemma CoarserAgrees(p: Prefix, bits: nat, a: nat, b: nat)
    requires bits <= p.bits && a / Size(p) == b / Size(p)
    ensures var s := Pow2(p.Width() - bits); a / s == b / s
  {
    var k := p.bits - bits;
    Pow2Add(p.Width() - p.bits, k);
    DivDiv(a, Size(p), Pow2(k));
    DivDiv(b, Size(p), Pow2(k));
  }

  /** One address of a longer prefix decides whether a shorter one holds all of it or none. */
  lemma AnyAddressDecides(p: Prefix, q: Prefix, a: Addr)
    requires p.bits <= q.bits && p.addr.is4 == q.addr.is4 && Contains(q, a)
    ensures Contains(p, a) <==> Within(q, p)
    ensures Contains(p, a) <==> Meets(p, q)
  {
    forall b: Addr | Contains(q, b)
      ensures Contains(p, b) <==> Contains(p, a)
    {
      CoarserAgrees(q, p.bits, a.value, b.value);
    }
  }

  /** The key fact: two prefixes are nested or share no address. */
  lemma NestedOrDisjoint(p: Prefix, q: Prefix)
    ensures Within(q, p) || Within(p, q) || !Meets(p, q)
    ensures Meets(p, q) && p.bits <= q.bits ==> Within(q, p)
  {
    if p.addr.is4 == q.addr.is4 {
      if p.bits <= q.bits {
        OwnAddresses(q);
        AnyAddressDecides(p, q, q.addr);
      } else {
        OwnAddresses(p);
        AnyAddressDecides(q, p, p.addr);
      }
    }
  }

  lemma MeetsSymmetric(p: Prefix, q: Prefix)
    ensures Meets(p, q) <==> Meets(q, p)
  {
  }

  lemma SizeDoubles(p: Prefix, bits: nat)
    requires bits < p.bits
    ensures Pow2(p.Width() - bits) >= 2 * Size(p)
  {
    Pow2Doubles(p.Width() - p.bits, p.Width() - bits);
  }

  /** Inclusion never goes to a longer prefix. */
  lemma WithinBits(p: Prefix, q: Prefix)
    requires Within(q, p)
    ensures p.bits <= q.bits && p.addr.is4 == q.addr.is4
    ensures p.bits == q.bits ==> Masked(p) == Masked(q)
  {
    OwnAddresses(q);
    var lo, hi := Masked(q).addr, Addr(q.addr.is4, Base(q) + Size(q) - 1);
    ContainsIsInterval(p, lo);
    ContainsIsInterval(p, hi);
    if q.bits < p.bits {
      SizeDoubles(p, q.bits);
    }
  }
}
