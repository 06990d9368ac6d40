/** Every overlap and containment test of the program, and the one meaning they share. */
module CidrTests {

  import opened Bits
  import opened Cidr
  import opened LastAddr
  import opened Wrappers

  // ---------------------------------------------------------------- the tests, as coded

  /** Interval test of the API package. */
  predicate PrefixesOverlapIPv4(a: Prefix, b: Prefix) {
    a.addr.is4 && b.addr.is4
    && LastAddr32(a).value >= Masked(b).addr.value
    && LastAddr32(b).value >= Masked(a).addr.value
  }

  /** Base-address test of the validation package, on addresses as written. */
  predicate PrefixOverlaps(a: Prefix, b: Prefix) {
    Contains(a, b.addr) || Contains(b, a.addr)
  }

  /** Base-address test of the discovery and network handlers, on masked prefixes. */
  predicate CidrOverlaps(a: Option<Prefix>, b: Option<Prefix>) {
    a.Some? && b.Some?
    && a.value.addr.is4 == b.value.addr.is4
    && (Contains(Masked(a.value), Masked(b.value).addr) || Contains(Masked(b.value), Masked(a.value).addr))
  }

  predicate CidrEqual(a: Option<Prefix>, b: Option<Prefix>) {
    a.Some? && b.Some? && Masked(a.value) == Masked(b.value)
  }

  predicate CidrContains(parent: Option<Prefix>, child: Option<Prefix>) {
    parent.Some? && child.Some?
    && parent.value.addr.is4 == child.value.addr.is4
    && parent.value.bits <= child.value.bits
    && Contains(Masked(parent.value), Masked(child.value).addr)
  }

  /** Endpoint test of the CIDR package; its last address is computed bytewise. */
  predicate PrefixContains(outer: Prefix, inner: Prefix) {
    outer.addr.is4 && inner.addr.is4
    && outer.bits <= inner.bits
    && Contains(outer, Masked(inner).addr)
    && Contains(outer, LastAddr32(inner))
  }

  datatype ChildError = InvalidParent | InvalidChild | OnlyIPv4 | NotLonger | NotWithinParent

  /** `validateChildCIDR`. */
  function ValidateChild(parent: Option<Prefix>, child: Option<Prefix>): Result<(), ChildError> {
    if parent.None? then Err(InvalidParent)
    else if child.None? then Err(InvalidChild)
    else if !parent.value.addr.is4 || !child.value.addr.is4 then Err(OnlyIPv4)
    else if child.value.bits <= parent.value.bits then Err(NotLonger)
    else if !Contains(parent.value, Masked(child.value).addr)
            || !Contains(parent.value, LastAddr32(child.value)) then Err(NotWithinParent)
    else Ok(())
  }

  // ---------------------------------------------------------------- their meaning

  /** Masking forgets host bits only: it changes no membership. */
  lemma MaskedSame(p: Prefix)
    ensures forall a: Addr :: Contains(Masked(p), a) <==> Contains(p, a)
    ensures Masked(Masked(p)) == Masked(p)
  {
    OwnAddresses(p);
    QuotientUnique(Base(p), Size(p), p.addr.value / Size(p), 0);
  }

  /** Any two tests that look at one address of each side decide whether the sides meet. */
  lemma BaseAddressTest(p: Prefix, q: Prefix, a: Addr, b: Addr)
    requires Contains(p, a) && Contains(q, b)
    ensures Contains(p, b) || Contains(q, a) <==> Meets(p, q)
  {
    if p.addr.is4 == q.addr.is4 {
      if p.bits <= q.bits {
        AnyAddressDecides(p, q, b);
      } else {
        AnyAddressDecides(q, p, a);
      }
    }
  }

  /** The interval test, the two base-address tests and "share an address" are one predicate. */
  lemma OverlapTestsAgree(p: Prefix, q: Prefix)
    ensures PrefixOverlaps(p, q) <==> Meets(p, q)
    ensures CidrOverlaps(Some(p), Some(q)) <==> Meets(p, q)
    ensures p.addr.is4 && q.addr.is4 ==> (PrefixesOverlapIPv4(p, q) <==> Meets(p, q))
  {
    OwnAddresses(p);
    OwnAddresses(q);
    BaseAddressTest(p, q, p.addr, q.addr);
    MaskedSame(p);
    MaskedSame(q);
    BaseAddressTest(p, q, Masked(p).addr, Masked(q).addr);
    if p.addr.is4 && q.addr.is4 {
      IntervalTest(p, q);
    }
  }

  lemma IntervalTest(p: Prefix, q: Prefix)
    requires p.addr.is4 && q.addr.is4
    ensures PrefixesOverlapIPv4(p, q) <==> Meets(p, q)
  {
    LastAddr32IsLast(p);
    LastAddr32IsLast(q);
    if PrefixesOverlapIPv4(p, q) {
      var a := Addr(true, if Base(p) <= Base(q) then Base(q) else Base(p));
      ContainsIsInterval(p, a);
      ContainsIsInterval(q, a);
    } else if Meets(p, q) {
      var a :| Contains(p, a) && Contains(q, a);
      ContainsIsInterval(p, a);
      ContainsIsInterval(q, a);
    }
  }

  /** Every containment test is set inclusion, at every length including 0. */
  lemma ContainmentTestsAgree(p: Prefix, c: Prefix)
    ensures CidrContains(Some(p), Some(c)) <==> Within(c, p)
    ensures p.addr.is4 && c.addr.is4 ==> (PrefixContains(p, c) <==> Within(c, p))
    ensures CidrEqual(Some(p), Some(c)) <==> Within(c, p) && Within(p, c)
  {
    OwnAddresses(c);
    MaskedSame(p);
    MaskedSame(c);
    if c.addr.is4 {
      LastAddr32IsLast(c);
    }
    if Within(c, p) {
      WithinBits(p, c);
    } else if p.addr.is4 == c.addr.is4 && p.bits <= c.bits {
      AnyAddressDecides(p, c, Masked(c).addr);
    }
    if Within(p, c) {
      WithinBits(c, p);
    }
  }

  /** A child is accepted exactly when both sides are IPv4 and it is a proper part of its parent. */
  lemma ValidateChildMeaning(parent: Option<Prefix>, child: Option<Prefix>)
    ensures ValidateChild(parent, child).Ok? <==>
      parent.Some? && child.Some? && parent.value.addr.is4 && child.value.addr.is4
      && Within(child.value, parent.value) && !Within(parent.value, child.value)
    ensures ValidateChild(parent, child) == Err(InvalidParent) <==> parent.None?
    ensures ValidateChild(parent, child) == Err(InvalidChild) <==> parent.Some? && child.None?
    ensures ValidateChild(parent, child) == Err(OnlyIPv4) <==>
      parent.Some? && child.Some? && !(parent.value.addr.is4 && child.value.addr.is4)
    ensures ValidateChild(parent, child) == Err(NotLonger) <==>
      parent.Some? && child.Some? && parent.value.addr.is4 && child.value.addr.is4 && child.value.bits <= parent.value.bits
  {
    if parent.Some? && child.Some? && parent.value.addr.is4 && child.value.addr.is4 {
      var p, c := parent.value, child.value;
      ContainmentTestsAgree(p, c);
      if Within(c, p) {
        WithinBits(p, c);
        MaskedSame(p);
        MaskedSame(c);
        if p.bits == c.bits {
          assert Masked(p) == Masked(c);
        }
      }
      if Within(p, c) {
        WithinBits(c, p);
      }
    }
  }
}
