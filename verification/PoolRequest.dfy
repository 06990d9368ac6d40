/** Which requests for a new pool are to be accepted, in terms of addresses and of the stored pools. */
module PoolRequest {

  import opened Bits
  import opened Cidr
  import opened CidrTests
  import opened PoolStore
  import opened Wrappers

  ghost predicate IsControlCode(c: char) {
    c as int < 0x20 || 0x7F <= c as int <= 0x9F
  }

  ghost predicate GoodName(name: string) {
    0 < |name| <= 255 && forall i :: 0 <= i < |name| ==> !IsControlCode(name[i])
  }

  /** This network, loopback, link-local, and from the first multicast address on everything. */
  predicate IsReserved(a: nat) {
    a < 0x0100_0000 || 0x7F00_0000 <= a < 0x8000_0000 || 0xA9FE_0000 <= a < 0xA9FF_0000 || 0xE000_0000 <= a
  }

  /** An IPv4 prefix from /8 to /30 without host bits, none of whose addresses is reserved. */
  ghost predicate GoodBlock(p: Prefix) {
    p.addr.is4 && 8 <= p.bits <= 30 && p.addr.value % Pow2(32 - p.bits) == 0
    && forall a: nat :: Contains(p, Addr(true, a)) ==> !IsReserved(a)
  }

  ghost predicate GoodCidr(parse: Parser, text: string) {
    '/' in text && parse(text).Some? && GoodBlock(parse(text).value)
  }

  ghost predicate GoodKind(kind: string) {
    kind == "" || kind == "supernet" || kind == "region" || kind == "environment" || kind == "vpc" || kind == "subnet"
  }

  ghost predicate GoodStatus(status: string) {
    status == "" || status == "planned" || status == "active" || status == "deprecated"
  }

  ghost predicate GoodSource(source: string) {
    source == "" || source == "manual" || source == "discovered" || source == "imported"
  }

  ghost predicate IsV4(parse: Parser, text: string) {
    parse(text).Some? && parse(text).value.addr.is4
  }

  /** The block is a proper part of the parent's. */
  ghost predicate FitsParent(parse: Parser, p: Pool, text: string) {
    IsV4(parse, p.cidr) && IsV4(parse, text)
    && Within(parse(text).value, parse(p.cidr).value) && !Within(parse(p.cidr).value, parse(text).value)
  }

  /** The pool has other text but an address in common with the block. */
  ghost predicate Overlapping(parse: Parser, p: Pool, text: string) {
    p.cidr != text && parse(p.cidr).Some? && parse(text).Some? && Meets(parse(p.cidr).value, parse(text).value)
  }

  /** The unique index of the backend has an entry for the request. */
  ghost predicate Indexed(backend: Backend, parse: Parser, s: State, input: NewPool) {
    (backend == Sqlite && exists id :: id in s.pools && s.pools[id].parent == input.parent && s.pools[id].cidr == input.cidr)
    || (backend == Postgres
        && exists id :: id in s.pools && s.Live(id) && parse(s.pools[id].cidr).Some? && parse(s.pools[id].cidr) == parse(input.cidr))
  }

  ghost predicate GoodParent(parse: Parser, s: State, input: NewPool) {
    input.parent.Some? ==>
      s.Live(input.parent.value) && FitsParent(parse, s.pools[input.parent.value], input.cidr)
  }

  ghost predicate ClearOfSiblings(parse: Parser, s: State, input: NewPool) {
    forall id :: s.Live(id) && s.pools[id].parent == input.parent ==> !Overlapping(parse, s.pools[id], input.cidr)
  }

  ghost predicate WellFormedRequest(parse: Parser, input: NewPool) {
    GoodName(input.name) && GoodCidr(parse, input.cidr)
    && GoodKind(input.kind) && GoodStatus(input.status) && GoodSource(input.source)
  }

  ghost predicate Acceptable(backend: Backend, parse: Parser, s: State, input: NewPool) {
    WellFormedRequest(parse, input) && GoodParent(parse, s, input) && ClearOfSiblings(parse, s, input)
    && !Indexed(backend, parse, s, input)
  }
}
