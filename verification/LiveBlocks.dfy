/**
  The caller's view of the heap: which payloads are live and how long they
  are. my_malloc adds one payload, my_free removes one, growth changes none,
  and live payloads never overlap.
 */
module LiveBlocks {
  import opened BlockList

  // The length of the live payload at address p, or -1 when none starts there.
  // a is the payload address of the first block of bs.
  function LenAt(bs: seq<Block>, a: nat, p: nat): int {
    if bs == [] then -1
    else if p == a && bs[0].used then bs[0].Size() - DSIZE
    else LenAt(bs[1..], a + bs[0].Size(), p)
  }

  function Len(bs: seq<Block>, p: nat): int {
    LenAt(bs, FIRST, p)
  }

  // A live payload lies inside its region.
  lemma {:induction false} LiveInside(bs: seq<Block>, a: nat, p: nat)
    requires SizesOk(bs) && LenAt(bs, a, p) >= 0
    ensures a <= p && p + LenAt(bs, a, p) + DSIZE <= a + Bytes(Units(bs))
  {
    if !(p == a && bs[0].used) {
      LiveInside(bs[1..], a + bs[0].Size(), p);
    }
  }

  // Live payloads are 8-aligned and multiples of 8 bytes long.
  lemma {:induction false} LiveAligned(bs: seq<Block>, q: nat, p: nat)
    requires SizesOk(bs) && LenAt(bs, Bytes(q), p) >= 0
    ensures p % 8 == 0 && LenAt(bs, Bytes(q), p) % 8 == 0
  {
    if p == Bytes(q) && bs[0].used {
      BytesAre(q);
      BytesAre(bs[0].units - 1);
    } else {
      LiveAligned(bs[1..], q + bs[0].units, p);
    }
  }

  lemma {:induction false} NotLiveOutside(bs: seq<Block>, a: nat, p: nat)
    requires SizesOk(bs) && (p < a || p >= a + Bytes(Units(bs)))
    ensures LenAt(bs, a, p) == -1
  {
    if bs != [] {
      NotLiveOutside(bs[1..], a + bs[0].Size(), p);
    }
  }

  lemma {:induction false} LenMin(bs: seq<Block>, a: nat, p: nat)
    requires SizesOk(bs)
    ensures LenAt(bs, a, p) >= -1
  {
    if bs != [] {
      LenMin(bs[1..], a + bs[0].Size(), p);
    }
  }

  // Two live payloads are apart, with room for a footer and a header between.
  lemma {:induction false} LiveDisjoint(bs: seq<Block>, a: nat, p: nat, q: nat)
    requires SizesOk(bs) && LenAt(bs, a, p) >= 0 && LenAt(bs, a, q) >= 0 && p < q
    ensures p + LenAt(bs, a, p) + DSIZE <= q
  {
    var b := a + bs[0].Size();
    if p == a && bs[0].used {
      LiveInside(bs[1..], b, q);
    } else {
      LiveInside(bs[1..], b, p);
      LiveDisjoint(bs[1..], b, p, q);
    }
  }

  lemma {:induction false} LenConcat(xs: seq<Block>, ys: seq<Block>, a: nat, p: nat)
    requires SizesOk(xs)
    ensures LenAt(xs + ys, a, p)
         == if LenAt(xs, a, p) >= 0 then LenAt(xs, a, p) else LenAt(ys, a + Bytes(Units(xs)), p)
  {
    if xs == [] {
      assert xs + ys == ys;
    } else {
      assert (xs + ys)[1..] == xs[1..] + ys;
      LenConcat(xs[1..], ys, a + xs[0].Size(), p);
    }
  }

  lemma {:induction false} LenSplice(xs: seq<Block>, ms: seq<Block>, ys: seq<Block>, p: nat)
    requires SizesOk(xs) && SizesOk(ms) && SizesOk(ys)
    ensures var a := FIRST + Bytes(Units(xs));
            var e := a + Bytes(Units(ms));
            Len(xs + ms + ys, p) == if p < a then Len(xs, p) else if p < e then LenAt(ms, a, p) else LenAt(ys, e, p)
  {
    var a := FIRST + Bytes(Units(xs));
    SizesConcat(xs, ms);
    UnitsConcat(xs, ms);
    LenConcat(xs + ms, ys, FIRST, p);
    LenConcat(xs, ms, FIRST, p);
    LenMin(xs, FIRST, p);
    LenMin(ms, a, p);
    if p >= a { NotLiveOutside(xs, FIRST, p); } else { NotLiveOutside(ms, a, p); }
    if p >= a + Bytes(Units(ms)) { NotLiveOutside(ms, a, p); } else { NotLiveOutside(ys, a + Bytes(Units(ms)), p); }
  }

  lemma {:induction false} LenOne(b: Block, a: nat, p: nat)
    ensures LenAt([b], a, p) == if p == a && b.used then b.Size() - DSIZE else -1
  {
    assert [b][1..] == [];
  }

  lemma {:induction false} LenFree(bs: seq<Block>, a: nat, p: nat)
    requires AllFree(bs)
    ensures LenAt(bs, a, p) == -1
  {
    if bs != [] {
      LenFree(bs[1..], a + bs[0].Size(), p);
    }
  }

  // Block k's payload is live exactly when block k is in use.
  lemma {:induction false} LiveAt(bs: seq<Block>, k: nat)
    requires WellFormed(bs) && k < |bs|
    ensures BlockOk(bs[k])
    ensures Len(bs, Addr(bs, k)) == if bs[k].used then bs[k].Size() - DSIZE else -1
  {
    AroundOne(bs, k);
    LenOne(bs[k], Addr(bs, k), Addr(bs, k));
    UnitsOne(bs[k]);
    LenSplice(bs[..k], [bs[k]], bs[k + 1..], Addr(bs, k));
  }

  // The block whose payload starts at p.
  ghost function IndexOf(bs: seq<Block>, a: nat, p: nat): (k: nat)
    requires SizesOk(bs) && LenAt(bs, a, p) >= 0
    ensures k < |bs| && bs[k].used && p == a + Bytes(Units(bs[..k]))
  {
    if p == a && bs[0].used then
      assert bs[..0] == [];
      0
    else
      var k := IndexOf(bs[1..], a + bs[0].Size(), p);
      assert bs[..k + 1][1..] == bs[1..][..k];
      k + 1
  }

  // my_malloc adds exactly the payload it returns, and it was not live before.
  lemma {:induction false} PlaceLive(bs: seq<Block>, k: nat, n: nat, p: nat)
    requires WellFormed(bs) && k < |bs| && Fits(bs[k], n) && BlockOk(Block(n, true))
    ensures Len(bs, Addr(bs, k)) == -1
    ensures Len(Place(bs, k, n), p) == if p == Addr(bs, k) then Bytes(n) - DSIZE else Len(bs, p)
  {
    var a, parts := Addr(bs, k), PlaceParts(bs[k], n);
    AroundOne(bs, k);
    LiveAt(bs, k);
    PartsKeep(bs[k], n);
    UnitsOne(bs[k]);
    LenOne(bs[k], a, p);
    PartsLen(bs[k], n, a, p);
    LenSplice(bs[..k], [bs[k]], bs[k + 1..], p);
    LenSplice(bs[..k], parts, bs[k + 1..], p);
  }

  lemma {:induction false} PartsLen(b: Block, n: nat, a: nat, p: nat)
    requires n <= b.units
    ensures LenAt(PlaceParts(b, n), a, p) == if p == a then Bytes(n) - DSIZE else -1
  {
    if b.units > n {
      assert PlaceParts(b, n)[1..] == [Block(b.units - n, false)];
      LenOne(Block(b.units - n, false), a + Bytes(n), p);
    } else {
      LenOne(Block(n, true), a, p);
    }
  }

  // my_free removes exactly the payload it is given.
  lemma {:induction false} ReleaseLive(bs: seq<Block>, k: nat, p: nat)
    requires WellFormed(bs) && k < |bs| && bs[k].used
    ensures Len(Release(bs, k), p) == if p == Addr(bs, k) then -1 else Len(bs, p)
  {
    var xs, ms, ys := bs[..Lo(bs, k)], Merged(bs, k), bs[Hi(bs, k)..];
    var a, b := Addr(bs, Lo(bs, k)), Block(Units(Merged(bs, k)), false);
    CutMerged(bs, k);
    Around(bs, xs, ms, ys);
    MergedLen(bs, k, p);
    UnitsPositive(ms);
    UnitsOne(b);
    LenOne(b, a, p);
    LenSplice(xs, ms, ys, p);
    LenSplice(xs, [b], ys, p);
  }

  // Of the merged blocks only block k was live.
  lemma {:induction false} MergedLen(bs: seq<Block>, k: nat, p: nat)
    requires WellFormed(bs) && k < |bs| && bs[k].used
    ensures Lo(bs, k) <= k
    ensures var a := Addr(bs, Lo(bs, k));
            a <= Addr(bs, k) < a + Bytes(Units(Merged(bs, k)))
            && LenAt(Merged(bs, k), a, p) == if p == Addr(bs, k) then bs[k].Size() - DSIZE else -1
  {
    var before, after := FreeBefore(bs, k), FreeAfter(bs, k);
    var a := Addr(bs, Lo(bs, k));
    CutMerged(bs, k);
    UnitsConcat(bs[..Lo(bs, k)], before);
    AroundOne(bs, k);
    Around(bs, bs[..Lo(bs, k)], Merged(bs, k), bs[Hi(bs, k)..]);
    UnitsSplice(before, [bs[k]], after);
    UnitsOne(bs[k]);
    LenAmong(before, bs[k], after, a, p);
  }

  lemma {:induction false} LenAmong(before: seq<Block>, b: Block, after: seq<Block>, a: nat, p: nat)
    requires SizesOk(before + [b] + after) && AllFree(before) && AllFree(after) && b.used
    ensures LenAt(before + [b] + after, a, p) == if p == a + Bytes(Units(before)) then b.Size() - DSIZE else -1
  {
    SizesConcat(before + [b], after);
    SizesConcat(before, [b]);
    UnitsConcat(before, [b]);
    LenConcat(before + [b], after, a, p);
    LenConcat(before, [b], a, p);
    LenFree(before, a, p);
    LenFree(after, a + Bytes(Units(before + [b])), p);
    LenOne(b, a + Bytes(Units(before)), p);
  }

  lemma {:induction false} GrowLive(bs: seq<Block>, p: nat)
    requires WellFormed(bs)
    ensures Len(Grow(bs), p) == Len(bs, p)
  {
    var xs, tail := Settled(bs), LastFree(bs);
    var b := Block(TailFree(bs) + CHUNK_UNITS, false);
    SettledTail(bs);
    LenConcat(xs, tail, FIRST, p);
    LenConcat(xs, [b], FIRST, p);
    LenFree(tail, FIRST + Bytes(Units(xs)), p);
    LenOne(b, FIRST + Bytes(Units(xs)), p);
  }

  lemma {:induction false} GrowByLive(bs: seq<Block>, c: nat, p: nat)
    requires WellFormed(bs)
    ensures Len(GrowBy(bs, c), p) == Len(bs, p)
  {
    if c > 0 {
      GrowByKeeps(bs, c - 1);
      GrowByLive(bs, c - 1, p);
      GrowLive(GrowBy(bs, c - 1), p);
    }
  }

  // The block list is no more than what is live: two well formed heaps of one
  // size with the same payloads are the same, whatever calls led to them.
  lemma {:induction false} Canonical(bs: seq<Block>, cs: seq<Block>, a: nat)
    requires SizesOk(bs) && Coalesced(bs) && SizesOk(cs) && Coalesced(cs) && Units(bs) == Units(cs)
    requires forall p: nat :: LenAt(bs, a, p) == LenAt(cs, a, p)
    ensures bs == cs
  {
    if bs != [] && cs != [] {
      SameFirst(bs, cs, a);
      var b := a + bs[0].Size();
      forall p: nat ensures LenAt(bs[1..], b, p) == LenAt(cs[1..], b, p) {
        assert LenAt(bs, a, p) == LenAt(cs, a, p);
        if p < b {
          NotLiveOutside(bs[1..], b, p);
          NotLiveOutside(cs[1..], b, p);
        }
      }
      Canonical(bs[1..], cs[1..], b);
      assert bs == [bs[0]] + bs[1..] && cs == [cs[0]] + cs[1..];
    } else if bs != [] {
      UnitsPositive(bs);
    } else if cs != [] {
      UnitsPositive(cs);
    }
  }

  lemma {:induction false} SameFirst(bs: seq<Block>, cs: seq<Block>, a: nat)
    requires SizesOk(bs) && Coalesced(bs) && SizesOk(cs) && Coalesced(cs) && Units(bs) == Units(cs)
    requires bs != [] && cs != [] && forall p: nat :: LenAt(bs, a, p) == LenAt(cs, a, p)
    ensures bs[0] == cs[0]
  {
    FirstLen(bs, a);
    FirstLen(cs, a);
    assert LenAt(bs, a, a) == LenAt(cs, a, a);
    if !bs[0].used {
      NotShorter(bs, cs, a);
      NotShorter(cs, bs, a);
    }
  }

  lemma {:induction false} FirstLen(bs: seq<Block>, a: nat)
    requires SizesOk(bs) && bs != []
    ensures LenAt(bs, a, a) == if bs[0].used then bs[0].Size() - DSIZE else -1
  {
    NotLiveOutside(bs[1..], a + bs[0].Size(), a);
  }

  // A free block ends where something is live, or with the heap.
  lemma {:induction false} NotShorter(bs: seq<Block>, cs: seq<Block>, a: nat)
    requires SizesOk(bs) && Coalesced(bs) && SizesOk(cs) && Units(bs) == Units(cs)
    requires bs != [] && cs != [] && !bs[0].used && !cs[0].used
    requires forall p: nat :: LenAt(bs, a, p) == LenAt(cs, a, p)
    ensures bs[0].units >= cs[0].units
  {
    if bs[0].units < cs[0].units {
      var b := a + bs[0].Size();
      if |bs| > 1 {
        FirstLen(bs[1..], b);
        NotLiveOutside(cs[1..], a + cs[0].Size(), b);
      }
      assert LenAt(bs, a, b) != LenAt(cs, a, b);
    }
  }

  // ------------------------------------------------------------ one my_malloc

  datatype Outcome = Null | Payload(p: nat) | Exit

  // What my_malloc does to the blocks when the break cannot pass limit.
  function MallocSpec(bs: seq<Block>, size: nat, limit: nat): (seq<Block>, Outcome)
    requires bs != []
  {
    var n := RealUnits(size);
    var k := FirstFit(bs, n);
    if size == 0 then (bs, Null)
    else if k < |bs| then (Place(bs, k, n), Payload(Addr(bs, k)))
    else
      var need := ChunksFor(bs, n);
      var room := ChunksLeft(bs, limit);
      if need > room then (GrowBy(bs, room), Exit)
      else
        var g := GrowBy(bs, need);
        if n <= g[|g| - 1].units then (Place(g, |g| - 1, n), Payload(Addr(g, |g| - 1)))
        else (g, Exit)
  }

  lemma {:induction false} RealUnitsTight(size: nat)
    ensures BlockOk(Block(RealUnits(size), true))
    ensures size <= Bytes(RealUnits(size)) - DSIZE < size + DSIZE
  {
    UnitsForTight(size);
  }

  // From bs to r the payload at a was added, with room for size bytes; q is any
  // other payload.
  ghost predicate Gives(bs: seq<Block>, r: seq<Block>, size: nat, a: nat, q: nat) {
    WellFormed(r) && Len(bs, a) == -1 && size <= Len(r, a) < size + DSIZE && (q != a ==> Len(r, q) == Len(bs, q))
  }

  lemma {:induction false} FitGives(bs: seq<Block>, size: nat, k: nat, q: nat)
    requires WellFormed(bs) && k < |bs| && Fits(bs[k], RealUnits(size))
    ensures Gives(bs, Place(bs, k, RealUnits(size)), size, Addr(bs, k), q)
  {
    RealUnitsTight(size);
    PlaceKeeps(bs, k, RealUnits(size));
    PlaceLive(bs, k, RealUnits(size), q);
    PlaceLive(bs, k, RealUnits(size), Addr(bs, k));
  }

  lemma {:induction false} GrownGives(bs: seq<Block>, size: nat, c: nat, q: nat)
    requires WellFormed(bs) && c > 0 && RealUnits(size) <= GrowBy(bs, c)[|GrowBy(bs, c)| - 1].units
    ensures var g := GrowBy(bs, c);
            Gives(bs, Place(g, |g| - 1, RealUnits(size)), size, Addr(g, |g| - 1), q)
  {
    var g := GrowBy(bs, c);
    GrowByKeeps(bs, c);
    GrowByLive(bs, c, q);
    GrowByLive(bs, c, Addr(g, |g| - 1));
    FitGives(g, size, |g| - 1, q);
  }

  // my_malloc keeps the list well formed; the payload it returns was not live,
  // has room for size bytes, and is the only change to what is live.
  lemma {:induction false} MallocMeaning(bs: seq<Block>, size: nat, limit: nat, p: nat)
    requires WellFormed(bs)
    ensures var (r, out) := MallocSpec(bs, size, limit);
            WellFormed(r)
            && (out.Payload? ==> Len(bs, out.p) == -1 && size <= Len(r, out.p) < size + DSIZE)
            && (out != Payload(p) ==> Len(r, p) == Len(bs, p))
  {
    var n := RealUnits(size);
    var k := FirstFit(bs, n);
    if size == 0 {
    } else if k < |bs| {
      FitGives(bs, size, k, p);
    } else {
      var need, room := ChunksFor(bs, n), ChunksLeft(bs, limit);
      GrowthIsLeast(bs, n, need);
      if need > room {
        GrowByKeeps(bs, room);
        GrowByLive(bs, room, p);
      } else {
        GrownGives(bs, size, need, p);
      }
    }
  }

  lemma {:induction false} AddrRises(bs: seq<Block>, j: nat, k: nat)
    requires j <= k <= |bs|
    ensures Addr(bs, j) <= Addr(bs, k)
  {
    assert bs[..k] == bs[..j] + bs[j..k];
    UnitsConcat(bs[..j], bs[j..k]);
  }

  lemma {:induction false} FitsIs(b: Block, size: nat)
    ensures Fits(b, RealUnits(size)) <==> !b.used && size + DSIZE <= b.Size()
  {
    RealUnitsTight(size);
  }

  // Whenever a free block k is large enough the request succeeds, with the
  // payload of a free block no higher than k: the lowest of those.
  lemma {:induction false} LowestFit(bs: seq<Block>, size: nat, limit: nat, k: nat)
    requires WellFormed(bs) && size > 0 && k < |bs| && !bs[k].used && size + DSIZE <= bs[k].Size()
    ensures var out := MallocSpec(bs, size, limit).1;
            out.Payload? && out.p <= Addr(bs, k)
            && exists j :: 0 <= j < |bs| && !bs[j].used && size + DSIZE <= bs[j].Size() && out.p == Addr(bs, j)
  {
    FitsIs(bs[k], size);
    var j := FirstFit(bs, RealUnits(size));
    FitsIs(bs[j], size);
    AddrRises(bs, j, k);
  }

  // However much the heap grows, its last block stays where it was, or starts
  // where the heap ended.
  lemma {:induction false} GrownAddr(bs: seq<Block>, c: nat)
    requires bs != [] && c > 0
    ensures var g := GrowBy(bs, c);
            Addr(g, |g| - 1) == Addr(bs, if bs[|bs| - 1].used then |bs| else |bs| - 1)
  {
    var g, n := GrowBy(bs, c), if bs[|bs| - 1].used then |bs| else |bs| - 1;
    GrowByParts(bs, c);
    SettledParts(bs);
    assert |Settled(bs)| == n && bs[..n] == Settled(bs) && g[..|g| - 1] == Settled(bs);
  }

  // When none is, a request that succeeds gets the free block at the end of the
  // heap, as it was or just behind the last block in use.
  lemma {:induction false} GrownAtEnd(bs: seq<Block>, size: nat, limit: nat)
    requires WellFormed(bs) && forall k | 0 <= k < |bs| :: bs[k].used || bs[k].Size() < size + DSIZE
    ensures var out := MallocSpec(bs, size, limit).1;
            out.Payload? ==> out.p == Addr(bs, if bs[|bs| - 1].used then |bs| else |bs| - 1)
  {
    var n := RealUnits(size);
    NoFit(bs, size);
    GrowthIsLeast(bs, n, 0);
    GrownAddr(bs, ChunksFor(bs, n));
  }

  lemma {:induction false} NoFit(bs: seq<Block>, size: nat)
    requires forall k | 0 <= k < |bs| :: bs[k].used || bs[k].Size() < size + DSIZE
    ensures FirstFit(bs, RealUnits(size)) == |bs| && RealUnits(size) > 0
  {
    var k := FirstFit(bs, RealUnits(size));
    if k < |bs| { FitsIs(bs[k], size); }
  }

  // The heap grows only when no free block fits, then by the least number of
  // chunks that will do; the only failure is a break that cannot move so far.
  lemma {:induction false} MallocGrowth(bs: seq<Block>, size: nat, limit: nat)
    requires WellFormed(bs) && FIRST + Bytes(Units(bs)) <= limit
    ensures var (r, out) := MallocSpec(bs, size, limit);
            var stuck := size > 0 && FirstFit(bs, RealUnits(size)) == |bs|;
            (out.Null? <==> size == 0)
            && (out.Exit? <==> stuck && ChunksFor(bs, RealUnits(size)) > ChunksLeft(bs, limit))
            && Units(r) == Units(bs) + ChunkUnits(NewChunks(bs, size, limit))
            && FIRST + Bytes(Units(r)) <= limit
  {
    var n := RealUnits(size);
    var k := FirstFit(bs, n);
    if size > 0 {
      if k < |bs| {
        PlaceKeeps(bs, k, n);
      } else {
        StuckGrowth(bs, n);
        Affordable(bs, ChunksFor(bs, n), limit);
        Affordable(bs, ChunksLeft(bs, limit), limit);
      }
    }
  }

  // How many chunks one my_malloc adds.
  function NewChunks(bs: seq<Block>, size: nat, limit: nat): nat
    requires bs != []
  {
    if size == 0 || FirstFit(bs, RealUnits(size)) < |bs| then 0
    else if ChunksFor(bs, RealUnits(size)) <= ChunksLeft(bs, limit) then ChunksFor(bs, RealUnits(size))
    else ChunksLeft(bs, limit)
  }

  // c chunks can be had exactly when the grown heap is within the limit.
  lemma {:induction false} Affordable(bs: seq<Block>, c: nat, limit: nat)
    requires WellFormed(bs) && FIRST + Bytes(Units(bs)) <= limit
    ensures Units(GrowBy(bs, c)) == Units(bs) + ChunkUnits(c)
    ensures c <= ChunksLeft(bs, limit) <==> FIRST + Bytes(Units(GrowBy(bs, c))) <= limit
  {
    GrowByKeeps(bs, c);
    RoomMost(FIRST + Bytes(Units(bs)), limit, c);
  }

  lemma {:induction false} StuckGrowth(bs: seq<Block>, n: nat)
    requires WellFormed(bs) && n > 0 && FirstFit(bs, n) == |bs|
    ensures var g := GrowBy(bs, ChunksFor(bs, n));
            g[|g| - 1].units >= n && Units(Place(g, |g| - 1, n)) == Units(g)
  {
    var c := ChunksFor(bs, n);
    GrowthIsLeast(bs, n, c);
    GrowByKeeps(bs, c);
    PlaceKeeps(GrowBy(bs, c), |GrowBy(bs, c)| - 1, n);
  }

  // ------------------------------------------------------------ whole runs

  ghost predicate AllLive(bs: seq<Block>, order: seq<nat>) {
    (forall i | 0 <= i < |order| :: Len(bs, order[i]) >= 0)
    && (forall i, j | 0 <= i < j < |order| :: order[i] != order[j])
  }

  // Freeing the payloads in order, one my_free after the other.
  ghost function FreeAll(bs: seq<Block>, order: seq<nat>): seq<Block>
    requires WellFormed(bs) && AllLive(bs, order)
    decreases |order|
  {
    if order == [] then bs else FreeAll(FreeFirst(bs, order), order[1..])
  }

  ghost function FreeFirst(bs: seq<Block>, order: seq<nat>): (r: seq<Block>)
    requires WellFormed(bs) && AllLive(bs, order) && order != []
    ensures WellFormed(r) && AllLive(r, order[1..])
  {
    FreeFirstKeeps(bs, order);
    Release(bs, IndexOf(bs, FIRST, order[0]))
  }

  lemma {:induction false} FreeFirstKeeps(bs: seq<Block>, order: seq<nat>)
    requires WellFormed(bs) && AllLive(bs, order) && order != []
    ensures var r := Release(bs, IndexOf(bs, FIRST, order[0]));
            WellFormed(r) && Bytes(Units(r)) == Bytes(Units(bs)) && AllLive(r, order[1..])
            && forall p: nat :: Len(r, p) == if p == order[0] then -1 else Len(bs, p)
  {
    var k := IndexOf(bs, FIRST, order[0]);
    ReleaseKeeps(bs, k);
    forall p: nat ensures Len(Release(bs, k), p) == if p == order[0] then -1 else Len(bs, p) {
      ReleaseLive(bs, k, p);
    }
  }

  lemma {:induction false} FreeAllKeeps(bs: seq<Block>, order: seq<nat>, p: nat)
    requires WellFormed(bs) && AllLive(bs, order)
    ensures WellFormed(FreeAll(bs, order)) && Bytes(Units(FreeAll(bs, order))) == Bytes(Units(bs))
    ensures Len(FreeAll(bs, order), p) == if p in order then -1 else Len(bs, p)
    decreases |order|
  {
    if order != [] {
      FreeFirstKeeps(bs, order);
      FreeAllKeeps(FreeFirst(bs, order), order[1..], p);
      assert p in order <==> p == order[0] || p in order[1..];
    }
  }

  // Freeing every live payload, in whatever order, leaves one free block that
  // covers the whole heap.
  lemma {:induction false} FreeEverything(bs: seq<Block>, order: seq<nat>)
    requires WellFormed(bs) && AllLive(bs, order)
    requires forall p: nat | Len(bs, p) >= 0 :: p in order
    ensures FreeAll(bs, order) == [Block(Units(bs), false)]
  {
    var r := FreeAll(bs, order);
    FreeAllKeeps(bs, order, 0);
    AllBlocksFree(bs, order, 0);
    if |r| > 1 {
      AllBlocksFree(bs, order, 1);
      assert false;
    } else {
      UnitsOne(r[0]);
      assert r == [r[0]];
    }
  }

  lemma {:induction false} AllBlocksFree(bs: seq<Block>, order: seq<nat>, i: nat)
    requires WellFormed(bs) && AllLive(bs, order)
    requires forall p: nat | Len(bs, p) >= 0 :: p in order
    requires i < |FreeAll(bs, order)|
    ensures !FreeAll(bs, order)[i].used
  {
    var r := FreeAll(bs, order);
    FreeAllKeeps(bs, order, Addr(r, i));
    LiveAt(r, i);
  }

  // A run of requests; a free names a payload that is live at that moment.
  datatype Request = Alloc(size: nat) | Free(p: nat)

  ghost predicate Fitting(bs: seq<Block>, limit: nat) {
    WellFormed(bs) && FIRST + Bytes(Units(bs)) <= limit
  }

  ghost predicate Allowed(bs: seq<Block>, r: Request) {
    r.Free? ==> Len(bs, r.p) >= 0
  }

  ghost function Serve(bs: seq<Block>, r: Request, limit: nat): (s: seq<Block>)
    requires Fitting(bs, limit) && Allowed(bs, r)
    ensures Fitting(s, limit)
  {
    match r
    case Alloc(size) =>
      MallocMeaning(bs, size, limit, 0);
      MallocGrowth(bs, size, limit);
      MallocSpec(bs, size, limit).0
    case Free(p) =>
      ReleaseKeeps(bs, IndexOf(bs, FIRST, p));
      Release(bs, IndexOf(bs, FIRST, p))
  }

  ghost predicate Legal(bs: seq<Block>, rs: seq<Request>, limit: nat)
    requires Fitting(bs, limit)
    decreases |rs|
  {
    rs == [] || (Allowed(bs, rs[0]) && Legal(Serve(bs, rs[0], limit), rs[1..], limit))
  }

  ghost function ServeAll(bs: seq<Block>, rs: seq<Request>, limit: nat): seq<Block>
    requires Fitting(bs, limit) && Legal(bs, rs, limit)
    decreases |rs|
  {
    if rs == [] then bs else ServeAll(Serve(bs, rs[0], limit), rs[1..], limit)
  }

  // The request makes the program exit.
  ghost predicate Refused(bs: seq<Block>, r: Request, limit: nat)
    requires bs != []
  {
    r.Alloc? && MallocSpec(bs, r.size, limit).1.Exit?
  }

  // Some request of the run does.
  ghost predicate Exits(bs: seq<Block>, rs: seq<Request>, limit: nat)
    requires Fitting(bs, limit) && Legal(bs, rs, limit)
    decreases |rs|
  {
    rs != [] && (Refused(bs, rs[0], limit) || Exits(Serve(bs, rs[0], limit), rs[1..], limit))
  }

  // One request leaves every payload that it does not free.
  lemma {:induction false} ServeLeaves(bs: seq<Block>, r: Request, limit: nat, p: nat)
    requires Fitting(bs, limit) && Allowed(bs, r) && r != Free(p) && Len(bs, p) >= 0
    ensures Len(Serve(bs, r, limit), p) == Len(bs, p)
  {
    match r
    case Alloc(size) => MallocMeaning(bs, size, limit, p);
    case Free(q) => ReleaseLive(bs, IndexOf(bs, FIRST, q), p);
  }

  // After any run: the list is well formed and inside the limit, and every
  // payload that the run did not free is still live with its length.
  lemma {:induction false} AnyRun(bs: seq<Block>, rs: seq<Request>, limit: nat, p: nat)
    requires Fitting(bs, limit) && Legal(bs, rs, limit)
    ensures Fitting(ServeAll(bs, rs, limit), limit)
    ensures Len(bs, p) >= 0 && Free(p) !in rs ==> Len(ServeAll(bs, rs, limit), p) == Len(bs, p)
    decreases |rs|
  {
    if rs != [] {
      AnyRun(Serve(bs, rs[0], limit), rs[1..], limit, p);
      if Len(bs, p) >= 0 && Free(p) !in rs {
        ServeLeaves(bs, rs[0], limit, p);
      }
    }
  }

  // After any run, freeing what is live in any order leaves one free block of
  // the whole heap: no fragmentation survives.
  lemma {:induction false} AnyRunThenFreeAll(bs: seq<Block>, rs: seq<Request>, limit: nat, order: seq<nat>)
    requires Fitting(bs, limit) && Legal(bs, rs, limit)
    requires AllLive(ServeAll(bs, rs, limit), order)
    requires forall p: nat | Len(ServeAll(bs, rs, limit), p) >= 0 :: p in order
    ensures WellFormed(ServeAll(bs, rs, limit))
    ensures FreeAll(ServeAll(bs, rs, limit), order) == [Block(Units(ServeAll(bs, rs, limit)), false)]
  {
    AnyRun(bs, rs, limit, 0);
    FreeEverything(ServeAll(bs, rs, limit), order);
  }
}
