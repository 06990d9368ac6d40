/** Candidate blocks of a pool: enumeration by page, and which of them are still free. */
module Blocks {

  import opened Bits
  import opened Cidr
  import opened CidrTests
  import opened LastAddr
  import opened PoolStore
  import opened Wrappers

  const MAX_SUBNET_EXPANSION := 65536

  /** Number of /n blocks in `pp`. */
  function Count(pp: Prefix, n: nat): nat
    requires pp.bits <= n
  {
    Pow2(n - pp.bits)
  }

  /** The program's address of block `i`, in wrapping 32-bit arithmetic. */
  function BlockAddr32(pp: Prefix, n: nat, i: nat): nat
    requires n <= 32
  {
    (Base(pp) + (i % UINT32) * ShiftOne32(32 - n) % UINT32) % UINT32
  }

  predicate ValidSplit(pp: Prefix, n: nat) {
    pp.addr.is4 && pp.bits <= n <= 32
  }

  /** Block `i` of the split, without any wrapping. */
  function BlockAt(pp: Prefix, n: nat, i: nat): Prefix
    requires ValidSplit(pp, n) && i < Count(pp, n)
  {
    BlockInside(pp, n, i);
    RawPrefix(Addr(true, Base(pp) + i * Pow2(32 - n)), n)
  }

  /** All blocks of the split, in address order. */
  function AllBlocks(pp: Prefix, n: nat): (all: seq<Prefix>)
    requires ValidSplit(pp, n)
    ensures |all| == Count(pp, n)
  {
    seq(Count(pp, n), i requires 0 <= i < Count(pp, n) => BlockAt(pp, n, i))
  }

  lemma SplitSizes(pp: Prefix, n: nat)
    requires ValidSplit(pp, n)
    ensures Size(pp) == Count(pp, n) * Pow2(32 - n)
    ensures Base(pp) + Size(pp) <= Pow2(32) == UINT32
  {
    Pow2Add(n - pp.bits, 32 - n);
    BlockAligned(pp);
    Pow2Constants();
  }

  lemma RowFits(i: nat, c: nat, s: nat)
    requires i < c
    ensures i * s + s <= c * s
  {
    MulMonotone(s, i + 1, c);
    assert s * (i + 1) == i * s + s;
  }

  lemma BlockInside(pp: Prefix, n: nat, i: nat)
    requires ValidSplit(pp, n) && i < Count(pp, n)
    ensures i * Pow2(32 - n) + Pow2(32 - n) <= Size(pp)
    ensures Base(pp) + i * Pow2(32 - n) < Pow2(32) == UINT32
  {
    SplitSizes(pp, n);
    RowFits(i, Count(pp, n), Pow2(32 - n));
  }

  lemma WrapFree(base: nat, i: nat, step: nat)
    requires base + i * step < UINT32 && step >= 1
    ensures (base + (i % UINT32) * step % UINT32) % UINT32 == base + i * step
  {
    MulMonotone(i, 1, step);
    assert i % UINT32 == i;
  }

  /** No block address of the split wraps around. */
  lemma NoWrap(pp: Prefix, n: nat, i: nat)
    requires ValidSplit(pp, n) && i < Count(pp, n)
    ensures BlockAddr32(pp, n, i) == BlockAt(pp, n, i).addr.value
  {
    BlockInside(pp, n, i);
    var base := Base(pp);
    if n == 0 {
      assert i == 0 && base == 0;
    } else {
      var step := Pow2(32 - n);
      assert ShiftOne32(32 - n) == step;
      WrapFree(base, i, step);
    }
  }

  // ---------------------------------------------------------------- the window

  datatype SplitError = BadParent | NotIPv4 | BadLength | TooWide

  datatype Window = Window(blocks: seq<string>, hosts: nat, total: nat)

  function UsableHosts(n: nat): nat {
    if n > 32 then 0 else if n <= 30 then Pow2(32 - n) - 2 else Pow2(32 - n)
  }

  function Clamp(x: int, hi: nat): nat {
    if x < 0 then 0 else if x > hi then hi else x
  }

  function PageStart(count: nat, offset: int, limit: int): nat {
    if limit > 0 then Clamp(offset, count) else 0
  }

  function PageEnd(count: nat, offset: int, limit: int): nat {
    if limit > 0 then Clamp(PageStart(count, offset, limit) + Clamp(limit, MAX_SUBNET_EXPANSION), count) else count
  }

  function Texts(format: Prefix -> string, blocks: seq<Prefix>): seq<string> {
    seq(|blocks|, i requires 0 <= i < |blocks| => format(blocks[i]))
  }

  /** The blocks from the offset on, at most the limit of them and never more than 65536; without a limit all of them. */
  ghost predicate IsWindow(w: Window, pp: Prefix, format: Prefix -> string, n: nat, offset: int, limit: int)
    requires ValidSplit(pp, n)
  {
    w.total == Pow2(n - pp.bits) && IsWindowSize(|w.blocks|, w.total, offset, limit)
    && forall k :: 0 <= k < |w.blocks| ==> w.blocks[k] == format(BlockAt(pp, n, From(offset, limit) + k))
  }

  ghost function From(offset: int, limit: int): nat {
    if limit <= 0 || offset < 0 then 0 else offset
  }

  ghost predicate IsWindowSize(size: nat, total: nat, offset: int, limit: int) {
    var rest := if From(offset, limit) < total then total - From(offset, limit) else 0;
    size <= rest && (limit > 0 ==> size <= limit && size <= 65536)
    && (size == rest || (limit > 0 && (size == limit || size == 65536)))
  }

  lemma PageIsWindowSize(total: nat, offset: int, limit: int)
    ensures var start, end := PageStart(total, offset, limit), PageEnd(total, offset, limit);
      start <= end <= total && IsWindowSize(end - start, total, offset, limit)
      && (start < end ==> start == From(offset, limit))
  {
  }

  lemma SliceIsWindow(w: Window, pp: Prefix, format: Prefix -> string, n: nat, offset: int, limit: int)
    requires ValidSplit(pp, n) && w.total == Count(pp, n)
    requires var c := Count(pp, n);
      PageStart(c, offset, limit) <= PageEnd(c, offset, limit) <= c
      && w.blocks == Texts(format, AllBlocks(pp, n)[PageStart(c, offset, limit)..PageEnd(c, offset, limit)])
    ensures IsWindow(w, pp, format, n, offset, limit)
  {
    PageIsWindowSize(w.total, offset, limit);
    var start, all := PageStart(w.total, offset, limit), AllBlocks(pp, n);
    forall k | 0 <= k < |w.blocks|
      ensures w.blocks[k] == format(BlockAt(pp, n, From(offset, limit) + k))
    {
      assert all[start + k] == BlockAt(pp, n, start + k);
    }
  }

  /** `computeSubnetsIPv4Window`: exactly the requested slice of the full list. */
  method ComputeWindow(parent: Option<Prefix>, format: Prefix -> string, n: nat, offset: int, limit: int)
    returns (r: Result<Window, SplitError>)
    ensures r.Ok? <==> parent.Some? && parent.value.addr.is4 && parent.value.bits <= n <= 32
                       && (limit > 0 || Pow2(n - parent.value.bits) <= 65536)
    ensures r.Err? ==> match r.error
      case BadParent => parent.None?
      case NotIPv4 => parent.Some? && !parent.value.addr.is4
      case BadLength => parent.Some? && parent.value.addr.is4 && !(parent.value.bits <= n <= 32)
      case TooWide => limit <= 0
    ensures r.Ok? ==> IsWindow(r.value, parent.value, format, n, offset, limit)
    ensures r.Ok? ==>
      var c := Count(parent.value, n);
      r.value.total == c && r.value.hosts == UsableHosts(n)
      && PageStart(c, offset, limit) <= PageEnd(c, offset, limit) <= c
      && r.value.blocks == Texts(format, AllBlocks(parent.value, n)[PageStart(c, offset, limit)..PageEnd(c, offset, limit)])
  {
    if parent.None? {
      return Err(BadParent);
    }
    var pp := parent.value;
    if !pp.addr.is4 {
      return Err(NotIPv4);
    }
    if n < pp.bits || n > 32 {
      return Err(BadLength);
    }
    var count := Count(pp, n);
    var start, end := 0, count;
    if limit > 0 {
      start := Clamp(offset, count);
      end := Clamp(start + Clamp(limit, MAX_SUBNET_EXPANSION), count);
    } else if count > MAX_SUBNET_EXPANSION {
      return Err(TooWide);
    }
    var res := ListBlocks(pp, format, n, start, end);
    r := Ok(Window(res, UsableHosts(n), count));
    SliceIsWindow(r.value, pp, format, n, offset, limit);
  }

  method ListBlocks(pp: Prefix, format: Prefix -> string, n: nat, start: nat, end: nat) returns (res: seq<string>)
    requires ValidSplit(pp, n) && start <= end <= Count(pp, n)
    ensures res == Texts(format, AllBlocks(pp, n)[start..end])
  {
    res := [];
    for i := start to end
      invariant |res| == i - start
      invariant forall k :: 0 <= k < |res| ==> res[k] == format(BlockAt(pp, n, start + k))
    {
      NoWrap(pp, n, i);
      var b: Prefix := RawPrefix(Addr(true, BlockAddr32(pp, n, i)), n);
      res := res + [format(b)];
    }
  }

  // ---------------------------------------------------------------- a partition

  lemma AlignedRow(base: nat, q: nat, s: nat, h: nat, i: nat)
    requires s > 0 && base == (q * s) * h
    ensures Align(base + i * s, s) == base + i * s
  {
    assert (q * s) * h == s * (q * h);
    assert base + i * s == s * (q * h + i);
    QuotientUnique(base + i * s, s, q * h + i, 0);
  }

  lemma BlockBase(pp: Prefix, n: nat, i: nat)
    requires ValidSplit(pp, n) && i < Count(pp, n)
    ensures var b := BlockAt(pp, n, i); Base(b) == b.addr.value && Masked(b) == b
  {
    SplitSizes(pp, n);
    var h, base := pp.addr.value / Size(pp), Base(pp);
    assert base == Size(pp) * h;
    AlignedRow(base, Count(pp, n), Pow2(32 - n), h, i);
  }

  lemma RowOf(base: nat, s: nat, c: nat, v: nat, i: nat)
    requires s > 0 && i < c
    ensures base + i * s <= v < base + i * s + s <==> base <= v < base + c * s && i == (v - base) / s
    ensures base <= v < base + c * s ==> 0 <= (v - base) / s < c
  {
    RowFits(i, c, s);
    if base <= v {
      SameQuotientIsInterval(v - base, s, i);
      if v < base + c * s {
        BlockFits(v - base, s, c);
      }
    }
  }

  /** Each address of the parent lies in exactly one block; no block leaves the parent. */
  lemma Partition(pp: Prefix, n: nat, a: Addr, i: nat)
    requires ValidSplit(pp, n) && i < Count(pp, n)
    ensures Contains(BlockAt(pp, n, i), a) <==>
      Contains(pp, a) && i == (a.value - Base(pp)) / Pow2(32 - n)
    ensures Contains(pp, a) ==> 0 <= (a.value - Base(pp)) / Pow2(32 - n) < Count(pp, n)
  {
    ContainsIsInterval(BlockAt(pp, n, i), a);
    ContainsIsInterval(pp, a);
    BlockBase(pp, n, i);
    SplitSizes(pp, n);
    RowOf(Base(pp), Pow2(32 - n), Count(pp, n), a.value, i);
  }

  /** The addresses a block offers to hosts: without the first and the last, unless the block has at most two. */
  ghost predicate ForHosts(b: Prefix, v: nat) {
    Contains(b, Addr(true, v))
    && (Size(b) > 2 ==> Contains(b, Addr(true, v + 1)) && v > 0 && Contains(b, Addr(true, v - 1)))
  }

  lemma {:induction false} CountRange(lo: nat, n: nat, s: set<nat>)
    requires forall v :: v in s <==> lo <= v < lo + n
    ensures |s| == n
  {
    if n == 0 {
      assert s == {};
    } else {
      CountRange(lo, n - 1, s - {lo + n - 1});
    }
  }

  /** The reported number of hosts is the number of such addresses in every block of the split. */
  lemma HostsCounted(pp: Prefix, n: nat, i: nat, hosts: set<nat>)
    requires ValidSplit(pp, n) && i < Count(pp, n)
    requires forall v :: v in hosts <==> ForHosts(BlockAt(pp, n, i), v)
    ensures UsableHosts(n) == |hosts|
  {
    var b := BlockAt(pp, n, i);
    var lo, size := Base(b), Size(b);
    HostSizes(n);
    var skip := if size > 2 then 1 else 0;
    forall v: nat
      ensures ForHosts(b, v) <==> lo + skip <= v < lo + skip + (size - 2 * skip)
    {
      ContainsIsInterval(b, Addr(true, v));
      ContainsIsInterval(b, Addr(true, v + 1));
      if v > 0 {
        ContainsIsInterval(b, Addr(true, v - 1));
      }
    }
    CountRange(lo + skip, size - 2 * skip, hosts);
  }

  lemma HostSizes(n: nat)
    requires n <= 32
    ensures n <= 30 ==> Pow2(32 - n) >= 4
    ensures n == 31 ==> Pow2(32 - n) == 2
    ensures n == 32 ==> Pow2(32 - n) == 1
  {
    if n <= 30 {
      assert Pow2(32 - n) == 2 * Pow2(31 - n) && Pow2(31 - n) == 2 * Pow2(30 - n);
    }
  }

  // ---------------------------------------------------------------- paging

  const INT63 := 0x8000_0000_0000_0000

  /** Go's 64-bit `int`. */
  function Wrap64(x: int): int {
    (x + INT63) % (2 * INT63) - INT63
  }

  /** The offset the endpoint computes for page `k` (from 1). */
  function Offset(size: nat, k: nat): int
    requires k >= 1
  {
    Wrap64((k - 1) * size)
  }

  /** Page `k` as the blocks endpoint requests it. */
  function Page<T>(all: seq<T>, size: nat, k: nat): seq<T>
    requires k >= 1
  {
    all[PageStart(|all|, Offset(size, k), size)..PageEnd(|all|, Offset(size, k), size)]
  }

  /** Pages 1 to `m`, one after the other. */
  function Pages<T>(all: seq<T>, size: nat, m: nat): seq<T> {
    if m == 0 then [] else Pages(all, size, m - 1) + Page(all, size, m)
  }

  /** A page number whose offset leaves 63 bits, but not 64, shows the first page again. */
  lemma WrappedPageRepeats<T>(all: seq<T>, size: nat, k: nat)
    requires k >= 1 && INT63 <= (k - 1) * size < 2 * INT63
    ensures Offset(size, k) < 0 && Page(all, size, k) == Page(all, size, 1)
  {
    WrapsBelow((k - 1) * size);
  }

  lemma WrapsBelow(x: int)
    requires INT63 <= x < 2 * INT63
    ensures Wrap64(x) == x - 2 * INT63
  {
  }

  lemma WrapFits(x: int)
    requires 0 <= x < INT63
    ensures Wrap64(x) == x
  {
  }

  /** Offsets below 63 bits are computed as they should be. */
  lemma PageAt<T>(all: seq<T>, size: nat, k: nat, offset: nat)
    requires k >= 1 && offset == (k - 1) * size < INT63
    ensures Page(all, size, k) == all[PageStart(|all|, offset, size)..PageEnd(|all|, offset, size)]
  {
    WrapFits(offset);
  }

  lemma NextOffset(size: nat, m: nat)
    requires m >= 1
    ensures m * size == (m - 1) * size + size
  {
  }

  lemma PageFollows<T>(all: seq<T>, size: nat, m: nat, offset: nat)
    requires 1 <= size && (size <= MAX_SUBNET_EXPANSION || |all| <= MAX_SUBNET_EXPANSION)
    requires m >= 1 && offset == Multiple(m - 1, size) < INT63
    requires Pages(all, size, m - 1) == all[..Clamp(offset, |all|)]
    ensures Pages(all, size, m) == all[..Clamp(offset + size, |all|)]
  {
    MultipleIs(m - 1, size);
    PageAt(all, size, m, offset);
    PageExtends(all, size, offset);
  }

  /** With a size the endpoint honours, the first pages are the first blocks. */
  lemma {:induction false} PagesArePrefix<T>(all: seq<T>, size: nat, m: nat)
    requires 1 <= size && (size <= MAX_SUBNET_EXPANSION || |all| <= MAX_SUBNET_EXPANSION)
    requires Multiple(m, size) < INT63
    ensures Pages(all, size, m) == all[..Clamp(Multiple(m, size), |all|)]
  {
    if m > 0 {
      PagesArePrefix(all, size, m - 1);
      PageFollows(all, size, m, Multiple(m - 1, size));
    }
  }

  lemma PageExtends<T>(all: seq<T>, size: nat, offset: nat)
    requires size >= 1 && (size <= MAX_SUBNET_EXPANSION || |all| <= MAX_SUBNET_EXPANSION)
    ensures all[..Clamp(offset, |all|)] + all[PageStart(|all|, offset, size)..PageEnd(|all|, offset, size)]
         == all[..Clamp(offset + size, |all|)]
  {
  }

  /** A larger size leaves a gap after every page: blocks are lost. */
  lemma {:induction false} OversizedPagesLoseBlocks<T>(all: seq<T>, size: nat, m: nat)
    requires m >= 1 && size > MAX_SUBNET_EXPANSION && |all| > MAX_SUBNET_EXPANSION && m * size < INT63
    ensures |Pages(all, size, m)| < Clamp(m * size, |all|)
  {
    NextOffset(size, m);
    var offset := (m - 1) * size;
    PageAt(all, size, m, offset);
    if m > 1 {
      OversizedPagesLoseBlocks(all, size, m - 1);
    } else {
      assert Pages(all, size, 0) == [];
    }
  }

  /** Reading the pages up to the end yields every block once, in order, exactly when the page size is
      at most the expansion limit or everything fits in one page. The offsets fit in 63 bits. */
  lemma PagesCompleteIff<T>(all: seq<T>, size: nat, m: nat)
    requires size >= 1 && m >= 1 && |all| <= m * size < INT63
    ensures Pages(all, size, m) == all <==> size <= MAX_SUBNET_EXPANSION || |all| <= MAX_SUBNET_EXPANSION
  {
    MultipleIs(m, size);
    if size <= MAX_SUBNET_EXPANSION || |all| <= MAX_SUBNET_EXPANSION {
      PagesArePrefix(all, size, m);
    } else {
      OversizedPagesLoseBlocks(all, size, m);
    }
  }

  // ---------------------------------------------------------------- marking

  datatype BlockInfo = BlockInfo(
    cidr: string, used: bool, assignedTo: Option<Pool>, existsElsewhere: bool, elsewhere: Option<Pool>)

  /** `netip` prints a prefix as a text that parses back to it. */
  ghost predicate PrintsBack(parse: Parser, format: Prefix -> string) {
    forall p: Prefix :: parse(format(p)) == Some(p)
  }

  predicate IsV4(parse: Parser, p: Pool) {
    parse(p.cidr).Some? && parse(p.cidr).value.addr.is4
  }

  predicate OverlapsBlock(parse: Parser, p: Pool, b: Prefix) {
    IsV4(parse, p) && PrefixesOverlapIPv4(parse(p.cidr).value, b)
  }

  /** The children that enter the overlap test. */
  method DirectChildren(parse: Parser, all: seq<Pool>, poolId: nat) returns (used: map<string, Pool>, children: seq<Pool>)
    ensures forall t :: t in used ==> used[t] in all && used[t].parent == Some(poolId) && used[t].cidr == t
    ensures forall p :: p in all && p.parent == Some(poolId) ==> p.cidr in used
    ensures forall p :: p in children <==> p in all && p.parent == Some(poolId) && IsV4(parse, p)
  {
    used, children := map[], [];
    for i := 0 to |all|
      invariant forall t :: t in used ==> used[t] in all && used[t].parent == Some(poolId) && used[t].cidr == t
      invariant forall p :: p in all[..i] && p.parent == Some(poolId) ==> p.cidr in used
      invariant forall p :: p in children <==> p in all[..i] && p.parent == Some(poolId) && IsV4(parse, p)
    {
      var p := all[i];
      assert all[..i + 1] == all[..i] + [p];
      if p.parent == Some(poolId) {
        used := used[p.cidr := p];
        if IsV4(parse, p) {
          children := children + [p];
        }
      }
    }
    assert all[..|all|] == all;
  }

  /** The first child other than an exact textual match that overlaps the block. */
  method FirstOverlap(parse: Parser, children: seq<Pool>, text: string, b: Prefix) returns (hit: Option<Pool>)
    ensures hit.Some? ==> hit.value in children && OverlapsBlock(parse, hit.value, b)
    ensures hit.None? ==> forall p :: p in children && p.cidr != text ==> !OverlapsBlock(parse, p, b)
  {
    for i := 0 to |children|
      invariant forall p :: p in children[..i] && p.cidr != text ==> !OverlapsBlock(parse, p, b)
    {
      var ch := children[i];
      assert children[..i + 1] == children[..i] + [ch];
      if ch.cidr != text && OverlapsBlock(parse, ch, b) {
        return Some(ch);
      }
    }
    assert children[..|children|] == children;
    return None;
  }

  /** An IPv4 direct child of the pool with an address in the block. */
  ghost predicate Occupies(parse: Parser, p: Pool, poolId: nat, b: Prefix) {
    p.parent == Some(poolId) && IsV4(parse, p) && Meets(parse(p.cidr).value, b)
  }

  ghost predicate Marked(parse: Parser, all: seq<Pool>, poolId: nat, b: Prefix, info: BlockInfo) {
    (info.used || info.existsElsewhere <==> exists p :: p in all && Occupies(parse, p, poolId, b))
    && (info.used <==> exists p :: p in all && p.parent == Some(poolId) && p.cidr == info.cidr)
    && !(info.used && info.existsElsewhere)
    && (info.used ==> info.assignedTo.Some? && info.assignedTo.value in all && info.assignedTo.value.cidr == info.cidr
                      && Occupies(parse, info.assignedTo.value, poolId, b))
    && (info.existsElsewhere ==> info.elsewhere.Some? && info.elsewhere.value in all
                                 && Occupies(parse, info.elsewhere.value, poolId, b))
  }

  lemma OverlapIsOccupation(parse: Parser, p: Pool, poolId: nat, b: Prefix)
    requires IsV4(parse, p) && p.parent == Some(poolId) && b.addr.is4
    ensures OverlapsBlock(parse, p, b) <==> Occupies(parse, p, poolId, b)
  {
    OverlapTestsAgree(parse(p.cidr).value, b);
  }

  lemma ExactTextOccupies(parse: Parser, p: Pool, poolId: nat, b: Prefix)
    requires parse(p.cidr) == Some(b) && b.addr.is4 && p.parent == Some(poolId)
    ensures Occupies(parse, p, poolId, b)
  {
    OwnAddresses(b);
  }

  method MarkBlock(parse: Parser, all: seq<Pool>, poolId: nat, used: map<string, Pool>, children: seq<Pool>,
                   text: string, b: Prefix) returns (info: BlockInfo)
    requires forall t :: t in used ==> used[t] in all && used[t].parent == Some(poolId) && used[t].cidr == t
    requires forall p :: p in all && p.parent == Some(poolId) ==> p.cidr in used
    requires forall p :: p in children <==> p in all && p.parent == Some(poolId) && IsV4(parse, p)
    requires parse(text) == Some(b) && b.addr.is4
    ensures info.cidr == text && Marked(parse, all, poolId, b, info)
  {
    forall p | p in children
      ensures OverlapsBlock(parse, p, b) <==> Occupies(parse, p, poolId, b)
    {
      OverlapIsOccupation(parse, p, poolId, b);
    }
    if text in used {
      ExactTextOccupies(parse, used[text], poolId, b);
      info := BlockInfo(text, true, Some(used[text]), false, None);
    } else {
      var hit := FirstOverlap(parse, children, text, b);
      info := BlockInfo(text, false, None, hit.Some?, hit);
    }
  }

  /** `blocksForPool`: a block is free if and only if no direct child touches it. */
  method MarkBlocks(parse: Parser, format: Prefix -> string, all: seq<Pool>, poolId: nat, blocks: seq<Prefix>)
    returns (out: seq<BlockInfo>)
    requires PrintsBack(parse, format) && forall i :: 0 <= i < |blocks| ==> blocks[i].addr.is4
    ensures |out| == |blocks|
    ensures forall i :: 0 <= i < |out| ==> out[i].cidr == format(blocks[i]) && Marked(parse, all, poolId, blocks[i], out[i])
  {
    var used, children := DirectChildren(parse, all, poolId);
    out := [];
    for i := 0 to |blocks|
      invariant |out| == i
      invariant forall k :: 0 <= k < i ==> out[k].cidr == format(blocks[k]) && Marked(parse, all, poolId, blocks[k], out[k])
    {
      var info := MarkBlock(parse, all, poolId, used, children, format(blocks[i]), blocks[i]);
      out := out + [info];
    }
  }
}
