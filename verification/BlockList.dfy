/**
  What the allocator's heap means: a list of adjoining blocks, each either in
  use or free. This module says what my_malloc, my_free and new_chunk do to
  that list and proves what the list keeps over every run. The module
  Allocator proves that the tags in memory follow it.
 */
module BlockList {

  // CHUNK_SIZE, DSIZE, WSIZE, and the first payload address after the prologue.
  const CHUNK := 4096
  const DSIZE := 8
  const WSIZE := 4
  const FIRST := 16

  // Block sizes are multiples of DSIZE, so a block is counted in units of
  // DSIZE bytes: header, payload and footer together.
  const CHUNK_UNITS := 512

  // u units, in bytes: eight times u. Written as a sum, because the solver adds
  // with ease and multiplies with trouble.
  function Bytes(u: nat): nat {
    u + u + u + u + u + u + u + u
  }

  lemma {:induction false} BytesAre(u: nat)
    ensures Bytes(u) == DSIZE * u
  {
  }

  datatype Block = Block(units: nat, used: bool) {
    function Size(): nat { Bytes(units) }
  }

  predicate BlockOk(b: Block) {
    b.units >= 1
  }

  predicate SizesOk(bs: seq<Block>) {
    bs == [] || (BlockOk(bs[0]) && SizesOk(bs[1..]))
  }

  // No two neighbouring blocks are both free.
  predicate Coalesced(bs: seq<Block>) {
    |bs| <= 1 || ((bs[0].used || bs[1].used) && Coalesced(bs[1..]))
  }

  predicate WellFormed(bs: seq<Block>) {
    bs != [] && SizesOk(bs) && Coalesced(bs)
  }

  function Units(bs: seq<Block>): nat {
    if bs == [] then 0 else bs[0].units + Units(bs[1..])
  }

  // A multiple of WSIZE: where a word may be.
  predicate Aligned(p: nat) {
    if p < WSIZE then p == 0 else Aligned(p - WSIZE)
  }

  lemma {:induction false} AlignedIs(p: nat)
    ensures Aligned(p) <==> p % WSIZE == 0
  {
    if p >= WSIZE { AlignedIs(p - WSIZE); }
  }

  lemma {:induction false} AlignedOn(p: nat, u: nat)
    requires Aligned(p)
    ensures Aligned(p + Bytes(u))
    decreases u
  {
    if u > 0 {
      AlignedOn(p, u - 1);
      var q := p + Bytes(u - 1);
      assert Aligned(q + WSIZE) && Aligned(q + WSIZE + WSIZE);
    }
  }

  // A payload address, as far as words go: its header and the footer before it
  // are words too.
  predicate Placed(p: nat) {
    p >= DSIZE && Aligned(p) && Aligned(p - WSIZE) && Aligned(p - DSIZE)
  }

  lemma {:induction false} PlacedOn(p: nat, u: nat)
    requires Placed(p)
    ensures Placed(p + Bytes(u))
  {
    AlignedOn(p, u);
    AlignedOn(p - WSIZE, u);
    AlignedOn(p - DSIZE, u);
  }

  // The payload address of block k (k == |bs| gives list_end).
  function Addr(bs: seq<Block>, k: nat): (a: nat)
    requires k <= |bs|
    ensures Placed(a)
  {
    PlacedOn(FIRST, Units(bs[..k]));
    FIRST + Bytes(Units(bs[..k]))
  }

  lemma {:induction false} UnitsConcat(xs: seq<Block>, ys: seq<Block>)
    ensures Units(xs + ys) == Units(xs) + Units(ys)
  {
    if xs == [] {
      assert xs + ys == ys;
    } else {
      assert (xs + ys)[1..] == xs[1..] + ys;
      UnitsConcat(xs[1..], ys);
    }
  }

  lemma {:induction false} UnitsSplice(xs: seq<Block>, ms: seq<Block>, ys: seq<Block>)
    ensures Units(xs + ms + ys) == Units(xs) + Units(ms) + Units(ys)
  {
    UnitsConcat(xs, ms);
    UnitsConcat(xs + ms, ys);
  }

  lemma {:induction false} UnitsOne(b: Block)
    ensures Units([b]) == b.units
  {
    assert [b][1..] == [];
  }

  lemma {:induction false} UnitsPositive(bs: seq<Block>)
    requires SizesOk(bs) && bs != []
    ensures Units(bs) >= 1
  {
    assert BlockOk(bs[0]);
  }

  lemma {:induction false} SizesConcat(xs: seq<Block>, ys: seq<Block>)
    ensures SizesOk(xs + ys) <==> SizesOk(xs) && SizesOk(ys)
  {
    if xs == [] {
      assert xs + ys == ys;
    } else {
      assert (xs + ys)[1..] == xs[1..] + ys;
      SizesConcat(xs[1..], ys);
    }
  }

  // Whether a free block of xs touches a free block of ys.
  predicate Apart(xs: seq<Block>, ys: seq<Block>) {
    xs == [] || ys == [] || xs[|xs| - 1].used || ys[0].used
  }

  lemma {:induction false} CoalescedConcat(xs: seq<Block>, ys: seq<Block>)
    ensures Coalesced(xs + ys) <==> Coalesced(xs) && Coalesced(ys) && Apart(xs, ys)
  {
    if xs == [] {
      assert xs + ys == ys;
    } else {
      assert (xs + ys)[1..] == xs[1..] + ys;
      CoalescedConcat(xs[1..], ys);
      if |xs| == 1 { assert xs + ys == [xs[0]] + ys; }
    }
  }

  // Every part of a well formed list is well formed, as far as it goes.
  lemma {:induction false} CutKeeps(xs: seq<Block>, ms: seq<Block>, ys: seq<Block>)
    requires SizesOk(xs + ms + ys) && Coalesced(xs + ms + ys)
    ensures SizesOk(xs) && SizesOk(ms) && SizesOk(ys) && SizesOk(xs + ms)
    ensures Coalesced(xs) && Coalesced(ms) && Coalesced(ys)
    ensures Apart(xs, ms) && Apart(xs + ms, ys)
  {
    SizesConcat(xs + ms, ys);
    SizesConcat(xs, ms);
    CoalescedConcat(xs + ms, ys);
    CoalescedConcat(xs, ms);
  }

  // A well formed list cut around a run of its blocks.
  lemma {:induction false} Around(bs: seq<Block>, xs: seq<Block>, ms: seq<Block>, ys: seq<Block>)
    requires WellFormed(bs) && bs == xs + ms + ys && ms != []
    ensures SizesOk(xs) && SizesOk(ys) && WellFormed(ms)
    ensures Apart(xs, ms) && Apart(ms, ys)
    ensures Units(bs) == Units(xs) + Units(ms) + Units(ys)
  {
    CutKeeps(xs, ms, ys);
    UnitsSplice(xs, ms, ys);
    ApartLast(xs, ms, ys);
  }

  lemma {:induction false} ApartLast(xs: seq<Block>, ms: seq<Block>, ys: seq<Block>)
    requires ms != [] && Apart(xs + ms, ys)
    ensures Apart(ms, ys)
  {
  }

  lemma {:induction false} NeverBothFree(bs: seq<Block>, i: nat)
    requires Coalesced(bs) && i + 1 < |bs|
    ensures bs[i].used || bs[i + 1].used
  {
    assert bs == bs[..i + 1] + bs[i + 1..];
    CoalescedConcat(bs[..i + 1], bs[i + 1..]);
  }

  // A block list cut at block k, and the addresses on both sides of the block.
  lemma {:induction false} Cut(bs: seq<Block>, k: nat)
    requires k < |bs|
    ensures bs == bs[..k] + [bs[k]] + bs[k + 1..]
    ensures Addr(bs, k + 1) == Addr(bs, k) + bs[k].Size()
  {
    assert bs[..k + 1] == bs[..k] + [bs[k]];
    UnitsOne(bs[k]);
    UnitsConcat(bs[..k], [bs[k]]);
  }

  lemma {:induction false} SizesAt(bs: seq<Block>, k: nat)
    requires SizesOk(bs) && k < |bs|
    ensures BlockOk(bs[k])
    decreases k
  {
    if k > 0 { SizesAt(bs[1..], k - 1); }
  }

  // The same around one block.
  lemma {:induction false} AroundOne(bs: seq<Block>, k: nat)
    requires WellFormed(bs) && k < |bs|
    ensures bs == bs[..k] + [bs[k]] + bs[k + 1..]
    ensures SizesOk(bs[..k]) && SizesOk(bs[k + 1..]) && BlockOk(bs[k])
    ensures Apart(bs[..k], [bs[k]]) && Apart([bs[k]], bs[k + 1..])
    ensures Units(bs) == Units(bs[..k]) + bs[k].units + Units(bs[k + 1..])
    ensures Addr(bs, k + 1) == Addr(bs, k) + bs[k].Size()
  {
    Cut(bs, k);
    Around(bs, bs[..k], [bs[k]], bs[k + 1..]);
    UnitsOne(bs[k]);
  }

  // ---------------------------------------------------------------- first fit

  predicate Fits(b: Block, n: nat) {
    !b.used && b.units >= n
  }

  // Index of the lowest free block of at least n bytes, |bs| when there is none.
  function FirstFit(bs: seq<Block>, n: nat): (k: nat)
    ensures k <= |bs|
    ensures k < |bs| ==> Fits(bs[k], n)
    ensures forall j | 0 <= j < k :: !Fits(bs[j], n)
  {
    if bs == [] || Fits(bs[0], n) then 0 else 1 + FirstFit(bs[1..], n)
  }

  // ------------------------------------------------------------------- growth

  // The blocks before a free last block, and the bytes of that free block.
  function Settled(bs: seq<Block>): seq<Block>
    requires bs != []
  {
    if |bs| > 1 then [bs[0]] + Settled(bs[1..]) else if bs[0].used then bs else []
  }

  function TailFree(bs: seq<Block>): nat
    requires bs != []
  {
    if bs[|bs| - 1].used then 0 else bs[|bs| - 1].units
  }

  function LastFree(bs: seq<Block>): seq<Block>
    requires bs != []
  {
    if bs[|bs| - 1].used then [] else [bs[|bs| - 1]]
  }

  // new_chunk: CHUNK more bytes, merged into a free last block.
  function Grow(bs: seq<Block>): seq<Block>
    requires bs != []
  {
    Settled(bs) + [Block(TailFree(bs) + CHUNK_UNITS, false)]
  }

  lemma {:induction false} SettledParts(bs: seq<Block>)
    requires bs != []
    ensures bs == Settled(bs) + LastFree(bs)
  {
    if |bs| > 1 {
      SettledParts(bs[1..]);
      assert [bs[0]] + (Settled(bs[1..]) + LastFree(bs)) == Settled(bs) + LastFree(bs);
      assert bs == [bs[0]] + bs[1..];
    }
  }

  lemma {:induction false} SettledTail(bs: seq<Block>)
    requires WellFormed(bs)
    ensures bs == Settled(bs) + LastFree(bs)
    ensures SizesOk(Settled(bs)) && SizesOk(LastFree(bs))
    ensures Settled(bs) == [] || Settled(bs)[|Settled(bs)| - 1].used
    ensures AllFree(LastFree(bs))
    ensures Units(bs) == Units(Settled(bs)) + TailFree(bs)
  {
    SettledParts(bs);
    SizesConcat(Settled(bs), LastFree(bs));
    CoalescedConcat(Settled(bs), LastFree(bs));
    UnitsConcat(Settled(bs), LastFree(bs));
    if !bs[|bs| - 1].used { UnitsOne(bs[|bs| - 1]); }
  }

  predicate AllFree(bs: seq<Block>) {
    bs == [] || (!bs[0].used && AllFree(bs[1..]))
  }

  // c calls of new_chunk, one after the other.
  function GrowBy(bs: seq<Block>, c: nat): (r: seq<Block>)
    requires bs != []
    ensures r != [] && (c > 0 ==> !r[|r| - 1].used)
  {
    if c == 0 then bs else Grow(GrowBy(bs, c - 1))
  }

  // c chunks, in units and in bytes.
  function ChunkUnits(c: nat): nat {
    Bytes(Bytes(Bytes(c)))
  }

  function ChunkBytes(c: nat): nat {
    Bytes(ChunkUnits(c))
  }

  // The number of chunks after which a last block of t free units holds n.
  function ChunksFrom(t: nat, n: nat): nat
    decreases n - t
  {
    if t >= n then 0 else 1 + ChunksFrom(t + CHUNK_UNITS, n)
  }

  function ChunksFor(bs: seq<Block>, n: nat): nat
    requires bs != []
  {
    ChunksFrom(TailFree(bs), n)
  }

  lemma {:induction false} ChunksFromLeast(t: nat, n: nat, c: nat)
    ensures c >= ChunksFrom(t, n) <==> t + ChunkUnits(c) >= n
    decreases c
  {
    if t < n && c > 0 {
      ChunksFromLeast(t + CHUNK_UNITS, n, c - 1);
    }
  }

  // How many chunks Sbrk can hand out when the break stands at used.
  function Room(used: nat, limit: nat): nat
    decreases limit - used
  {
    if used + CHUNK > limit then 0 else 1 + Room(used + CHUNK, limit)
  }

  function ChunksLeft(bs: seq<Block>, limit: nat): nat {
    Room(FIRST + Bytes(Units(bs)), limit)
  }

  lemma {:induction false} RoomMost(used: nat, limit: nat, c: nat)
    requires used <= limit
    ensures c <= Room(used, limit) <==> used + ChunkBytes(c) <= limit
    decreases c
  {
    if used + CHUNK <= limit && c > 0 {
      RoomMost(used + CHUNK, limit, c - 1);
    }
  }

  lemma {:induction false} GrowKeeps(bs: seq<Block>)
    requires WellFormed(bs)
    ensures WellFormed(Grow(bs))
    ensures Units(Grow(bs)) == Units(bs) + CHUNK_UNITS
    ensures TailFree(Grow(bs)) == TailFree(bs) + CHUNK_UNITS
  {
    var b := Block(TailFree(bs) + CHUNK_UNITS, false);
    SettledTail(bs);
    UnitsOne(b);
    UnitsConcat(Settled(bs), [b]);
    CoalescedConcat(Settled(bs), LastFree(bs));
    CoalescedConcat(Settled(bs), [b]);
    SizesConcat(Settled(bs), [b]);
  }

  lemma {:induction false} GrowByKeeps(bs: seq<Block>, c: nat)
    requires WellFormed(bs)
    ensures WellFormed(GrowBy(bs, c))
    ensures Units(GrowBy(bs, c)) == Units(bs) + ChunkUnits(c)
    ensures TailFree(GrowBy(bs, c)) == TailFree(bs) + ChunkUnits(c)
  {
    if c > 0 {
      GrowByKeeps(bs, c - 1);
      GrowKeeps(GrowBy(bs, c - 1));
    }
  }

  // ChunksFor is the least number of extensions after which the request fits,
  // so the extension loop ends, and it ends as early as it can.
  lemma {:induction false} GrowthIsLeast(bs: seq<Block>, n: nat, c: nat)
    requires WellFormed(bs) && FirstFit(bs, n) == |bs| && n > 0
    ensures TailFree(bs) < n && ChunksFor(bs, n) > 0
    ensures FirstFit(GrowBy(bs, c), n) < |GrowBy(bs, c)| <==> c >= ChunksFor(bs, n)
    ensures c >= ChunksFor(bs, n) ==> FirstFit(GrowBy(bs, c), n) == |GrowBy(bs, c)| - 1
  {
    var last := |bs| - 1;
    assert !Fits(bs[last], n);
    ChunksFromLeast(TailFree(bs), n, c);
    if c > 0 {
      var g := GrowBy(bs, c);
      GrowByParts(bs, c);
      SettledParts(bs);
      forall j | 0 <= j < |g| - 1 ensures !Fits(g[j], n) {
        assert g[j] == Settled(bs)[j] == bs[j];
      }
    }
  }

  // Growing again and again only lengthens the free block at the end.
  lemma {:induction false} GrowByParts(bs: seq<Block>, c: nat)
    requires bs != [] && c > 0
    ensures GrowBy(bs, c) == Settled(bs) + [Block(TailFree(bs) + ChunkUnits(c), false)]
  {
    if c > 1 {
      var g := GrowBy(bs, c - 1);
      GrowByParts(bs, c - 1);
      SettledParts(g);
      assert Settled(g) == Settled(bs) by {
        assert g[..|g| - 1] == Settled(g) && g[..|g| - 1] == Settled(bs);
      }
    }
  }

  // --------------------------------------------------- placing and releasing

  // The units that a request of size bytes takes, tags included.
  function RealUnits(size: nat): nat {
    1 + UnitsFor(size)
  }

  // The least number of units with room for size bytes.
  function UnitsFor(size: nat): nat {
    if size == 0 then 0 else if size <= DSIZE then 1 else 1 + UnitsFor(size - DSIZE)
  }

  lemma {:induction false} UnitsForTight(size: nat)
    ensures size <= Bytes(UnitsFor(size)) < size + DSIZE
  {
    if size > DSIZE { UnitsForTight(size - DSIZE); }
  }

  // It is what lines 88 and 89 compute, less the tags.
  lemma {:induction false} UnitsForIs(size: nat)
    ensures Bytes(UnitsFor(size)) == (size + (DSIZE - 1)) / DSIZE * DSIZE
  {
    UnitsForTight(size);
    assert (size + 7) / 8 == UnitsFor(size);
  }

  // A free block cut for a request of n bytes, split when something is left over.
  function PlaceParts(b: Block, n: nat): seq<Block>
    requires n <= b.units
  {
    if b.units > n then [Block(n, true), Block(b.units - n, false)] else [Block(n, true)]
  }

  // my_malloc on free block k.
  function Place(bs: seq<Block>, k: nat, n: nat): seq<Block>
    requires k < |bs| && n <= bs[k].units
  {
    bs[..k] + PlaceParts(bs[k], n) + bs[k + 1..]
  }

  predicate FreeAt(bs: seq<Block>, k: int) {
    0 <= k < |bs| && !bs[k].used
  }

  // my_free on block k: the blocks from Lo to Hi become one.
  function Lo(bs: seq<Block>, k: nat): nat
    requires k < |bs|
  {
    if FreeAt(bs, k - 1) then k - 1 else k
  }

  function Hi(bs: seq<Block>, k: nat): nat
    requires k < |bs|
  {
    if FreeAt(bs, k + 1) then k + 2 else k + 1
  }

  // Those blocks: at most one before, block k, at most one after.
  function FreeBefore(bs: seq<Block>, k: nat): seq<Block>
    requires k < |bs|
  {
    if FreeAt(bs, k - 1) then [bs[k - 1]] else []
  }

  function FreeAfter(bs: seq<Block>, k: nat): seq<Block>
    requires k < |bs|
  {
    if FreeAt(bs, k + 1) then [bs[k + 1]] else []
  }

  function Merged(bs: seq<Block>, k: nat): seq<Block>
    requires k < |bs|
  {
    FreeBefore(bs, k) + [bs[k]] + FreeAfter(bs, k)
  }

  function Release(bs: seq<Block>, k: nat): seq<Block>
    requires k < |bs|
  {
    bs[..Lo(bs, k)] + [Block(Units(Merged(bs, k)), false)] + bs[Hi(bs, k)..]
  }

  lemma {:induction false} CutMerged(bs: seq<Block>, k: nat)
    requires k < |bs|
    ensures Lo(bs, k) <= k < Hi(bs, k) <= |bs|
    ensures bs == bs[..Lo(bs, k)] + Merged(bs, k) + bs[Hi(bs, k)..]
    ensures bs[..k] == bs[..Lo(bs, k)] + FreeBefore(bs, k)
  {
  }

  // Replacing a run of blocks keeps the list well formed when the new run is
  // well formed and no free block of it touches a free neighbour.
  lemma {:induction false} Spliced(xs: seq<Block>, was: seq<Block>, now: seq<Block>, ys: seq<Block>)
    requires WellFormed(xs + was + ys) && WellFormed(now)
    requires Apart(xs, now) && Apart(now, ys)
    ensures WellFormed(xs + now + ys)
  {
    CutKeeps(xs, was, ys);
    SizesConcat(xs, now);
    SizesConcat(xs + now, ys);
    CoalescedConcat(xs, now);
    CoalescedConcat(xs + now, ys);
  }

  lemma {:induction false} PlaceKeeps(bs: seq<Block>, k: nat, n: nat)
    requires WellFormed(bs) && k < |bs| && Fits(bs[k], n) && BlockOk(Block(n, true))
    ensures WellFormed(Place(bs, k, n)) && Units(Place(bs, k, n)) == Units(bs)
  {
    AroundOne(bs, k);
    PartsKeep(bs[k], n);
    UnitsSplice(bs[..k], PlaceParts(bs[k], n), bs[k + 1..]);
    Spliced(bs[..k], [bs[k]], PlaceParts(bs[k], n), bs[k + 1..]);
  }

  lemma {:induction false} PartsKeep(b: Block, n: nat)
    requires BlockOk(b) && n <= b.units && BlockOk(Block(n, true))
    ensures WellFormed(PlaceParts(b, n)) && Units(PlaceParts(b, n)) == b.units
  {
    if b.units > n {
      assert PlaceParts(b, n)[1..] == [Block(b.units - n, false)];
      UnitsOne(Block(b.units - n, false));
    } else {
      UnitsOne(Block(n, true));
    }
  }

  // The sizes that my_free adds up.
  lemma {:induction false} MergedUnits(bs: seq<Block>, k: nat)
    requires k < |bs|
    ensures Units(Merged(bs, k)) == bs[k].units
                                    + (if FreeAt(bs, k - 1) then bs[k - 1].units else 0)
                                    + (if FreeAt(bs, k + 1) then bs[k + 1].units else 0)
  {
    UnitsSplice(FreeBefore(bs, k), [bs[k]], FreeAfter(bs, k));
    UnitsOne(bs[k]);
    if FreeAt(bs, k - 1) { UnitsOne(bs[k - 1]); }
    if FreeAt(bs, k + 1) { UnitsOne(bs[k + 1]); }
  }

  lemma {:induction false} ReleaseKeeps(bs: seq<Block>, k: nat)
    requires WellFormed(bs) && k < |bs| && bs[k].used
    ensures WellFormed(Release(bs, k)) && Units(Release(bs, k)) == Units(bs)
  {
    var xs, ms, ys := bs[..Lo(bs, k)], Merged(bs, k), bs[Hi(bs, k)..];
    var b := Block(Units(ms), false);
    CutMerged(bs, k);
    Around(bs, xs, ms, ys);
    UnitsPositive(ms);
    UnitsOne(b);
    UnitsSplice(xs, [b], ys);
    assert Apart(xs, [b]) && Apart([b], ys) by { MergedApart(bs, k); }
    Spliced(xs, ms, [b], ys);
  }

  // What my_free merges is bounded by blocks in use.
  lemma {:induction false} MergedApart(bs: seq<Block>, k: nat)
    requires Coalesced(bs) && k < |bs|
    ensures Lo(bs, k) > 0 ==> bs[Lo(bs, k) - 1].used
    ensures Hi(bs, k) < |bs| ==> bs[Hi(bs, k)].used
  {
    var lo, hi := Lo(bs, k), Hi(bs, k);
    if 0 < lo < k { NeverBothFree(bs, lo - 1); }
    if k + 1 < hi < |bs| { NeverBothFree(bs, hi - 1); }
  }

  // Freeing what was just allocated gives back the list as it was.
  lemma {:induction false} FreeUndoesMalloc(bs: seq<Block>, k: nat, n: nat)
    requires WellFormed(bs) && k < |bs| && Fits(bs[k], n) && BlockOk(Block(n, true))
    ensures Release(Place(bs, k, n), k) == bs
  {
    var p := Place(bs, k, n);
    assert !bs[k].used;
    Cut(bs, k);
    assert p[k] == Block(n, true) && p[..k] == bs[..k];
    if k > 0 { NeverBothFree(bs, k - 1); }
    if k + 1 < |bs| { NeverBothFree(bs, k); }
    MergedUnits(p, k);
    if bs[k].units > n {
      assert p[k + 1] == Block(bs[k].units - n, false);
      assert p[k + 2..] == bs[k + 1..];
    } else {
      assert p[k + 1..] == bs[k + 1..];
      assert k + 1 < |bs| ==> p[k + 1] == bs[k + 1];
    }
    assert Release(p, k) == bs[..k] + [Block(bs[k].units, false)] + bs[k + 1..];
  }
}
