/**
  What the slips of 7-2-my_malloc_free.c cost, one at a time: each lemma takes
  one line as it is written, the rest as repaired, and says exactly when the
  allocator still does what it should.
 */
module AllocatorAsWritten {
  import opened BlockList
  import opened LiveBlocks

  // Lines 88 and 89: the units of a request.
  function RealUnitsAsWritten(size: nat): nat {
    if size <= DSIZE then 1 + (size + (DSIZE - 1)) / DSIZE else 1
  }

  // There is room for the request exactly when it is at most DSIZE bytes.
  lemma {:induction false} RoomAsWritten(size: nat)
    ensures size <= Bytes(RealUnitsAsWritten(size)) - DSIZE <==> size <= DSIZE
  {
    if size <= DSIZE {
      RealUnitsTight(size);
      UnitsForIs(size);
      BytesAre(UnitsFor(size));
    }
  }

  const SIZE_T_END := 0x1_0000_0000_0000_0000

  // A sum of size_t values, each below SIZE_T_END.
  function Wrapped(x: nat): nat {
    if x < SIZE_T_END then x else x - SIZE_T_END
  }

  // Lines 88 and 89, repaired, in size_t arithmetic.
  function RealSizeT(size: nat): nat {
    Wrapped(DSIZE + Wrapped(size + (DSIZE - 1)) / DSIZE * DSIZE)
  }

  // The sum does not wrap, and gives what Malloc computes with numbers of any
  // size, exactly when the request leaves room for the rounding and the tags.
  lemma {:induction false} SizeTWraps(size: nat)
    requires size < SIZE_T_END
    ensures RealSizeT(size) == Bytes(RealUnits(size)) <==> size <= SIZE_T_END - 2 * DSIZE
    ensures size <= RealSizeT(size) - DSIZE <==> size <= SIZE_T_END - 2 * DSIZE
  {
    UnitsForIs(size);
    UnitsForTight(size);
    if size + 7 >= SIZE_T_END { assert Wrapped(size + 7) / 8 == 0; }
  }

  // Line 75: the first block in use that is large enough.
  function FirstUsed(bs: seq<Block>, n: nat): (k: nat)
    ensures k <= |bs|
    ensures k < |bs| ==> bs[k].used && bs[k].units >= n
    ensures forall j | 0 <= j < k :: !(bs[j].used && bs[j].units >= n)
  {
    if bs == [] || (bs[0].used && bs[0].units >= n) then 0 else 1 + FirstUsed(bs[1..], n)
  }

  // What first_fit returns: that block, or else the last one after line 78 has
  // added a chunk; and the list as it is then.
  function FitAsWritten(bs: seq<Block>, n: nat): (seq<Block>, nat)
    requires bs != []
  {
    if FirstUsed(bs, n) < |bs| then (bs, FirstUsed(bs, n)) else (Grow(bs), |Grow(bs)| - 1)
  }

  // The block returned is free exactly when no block in use is large enough;
  // otherwise its payload is another caller's.
  lemma {:induction false} FindsLive(bs: seq<Block>, n: nat)
    requires WellFormed(bs)
    ensures var (r, k) := FitAsWritten(bs, n);
            k < |r| && (Len(r, Addr(r, k)) == -1 <==> FirstUsed(bs, n) == |bs|)
  {
    var (r, k) := FitAsWritten(bs, n);
    GrowKeeps(bs);
    LiveAt(r, k);
  }

  // Lines 93 to 100: an exact fit is left as it was.
  function PlaceAsWritten(bs: seq<Block>, k: nat, n: nat): seq<Block>
    requires k < |bs| && n <= bs[k].units
  {
    if bs[k].units > n then Place(bs, k, n) else bs
  }

  // The payload is live afterwards exactly when the block was cut; otherwise
  // the same request again gets the same payload.
  lemma {:induction false} ExactFit(bs: seq<Block>, n: nat)
    requires WellFormed(bs) && n > 0 && FirstFit(bs, n) < |bs|
    ensures var k := FirstFit(bs, n);
            var r := PlaceAsWritten(bs, k, n);
            (Len(r, Addr(bs, k)) >= 0 <==> bs[k].units > n)
            && (bs[k].units == n ==> FirstFit(r, n) == k)
  {
    var k := FirstFit(bs, n);
    LiveAt(bs, k);
    PlaceLive(bs, k, n, Addr(bs, k));
  }

  // Line 78: one chunk is added whatever is asked for. It is enough exactly
  // when what is free at the end and the chunk hold the request.
  lemma {:induction false} OneChunk(bs: seq<Block>, n: nat)
    requires WellFormed(bs) && n > 0 && FirstFit(bs, n) == |bs|
    ensures FirstFit(Grow(bs), n) < |Grow(bs)| <==> n <= TailFree(bs) + CHUNK_UNITS
  {
    assert GrowBy(bs, 1) == Grow(GrowBy(bs, 0)) == Grow(bs);
    GrowthIsLeast(bs, n, 1);
    ChunksFromLeast(TailFree(bs), n, 1);
  }

  // Lines 111 and 116: the block itself is asked whether it is in use, which it
  // is, so nothing is ever merged.
  function ReleaseAsWritten(bs: seq<Block>, k: nat): seq<Block>
    requires k < |bs|
  {
    bs[..k] + [Block(bs[k].units, false)] + bs[k + 1..]
  }

  // No two free blocks touch afterwards exactly when neither neighbour is free.
  lemma {:induction false} NeverMerges(bs: seq<Block>, k: nat)
    requires WellFormed(bs) && k < |bs| && bs[k].used
    ensures WellFormed(ReleaseAsWritten(bs, k)) <==> !FreeAt(bs, k - 1) && !FreeAt(bs, k + 1)
  {
    var xs, b, ys := bs[..k], Block(bs[k].units, false), bs[k + 1..];
    AroundOne(bs, k);
    CutKeeps(xs, [bs[k]], ys);
    SizesConcat(xs, [b]);
    SizesConcat(xs + [b], ys);
    CoalescedConcat(xs, [b]);
    CoalescedConcat(xs + [b], ys);
  }

  // ------------------------------------------------- runs that get there

  // The heap after mm_init.
  function Fresh(): seq<Block> {
    [Block(CHUNK_UNITS - 2, false)]
  }

  lemma {:induction false} FreshFits(limit: nat)
    requires limit >= CHUNK
    ensures Fitting(Fresh(), limit) && ServeAll(Fresh(), [], limit) == Fresh()
  {
    UnitsOne(Fresh()[0]);
    assert Fresh()[1..] == [];
  }

  lemma {:induction false} RequestUnits(size: nat, u: nat)
    requires size == Bytes(u)
    ensures RealUnits(size) == u + 1
  {
    UnitsForTight(size);
  }

  // At once: the request for all of the fresh heap fits exactly, so it leaves
  // nothing live; and one for more than two chunks is not met by one of them.
  lemma {:induction false} FreshFails(limit: nat)
    requires limit >= CHUNK
    ensures var bs := ServeAll(Fresh(), [], limit);
            Fitting(bs, limit) && |bs| == 1 && RealUnits(4072) == bs[0].units
            && Len(PlaceAsWritten(bs, 0, RealUnits(4072)), Addr(bs, 0)) == -1
            && FirstFit(Grow(bs), RealUnits(8800)) == |Grow(bs)|
  {
    var bs := Fresh();
    FreshFits(limit);
    RequestUnits(4072, 509);
    RequestUnits(8800, 1100);
    assert FirstFit(bs, 510) == 0;
    ExactFit(bs, 510);
    assert bs[1..] == [];
    OneChunk(bs, 1101);
  }

  // After one request, freeing what it got leaves two free blocks side by side,
  // and the same request again is answered with the payload in use.
  lemma {:induction false} FirstFreeFails(limit: nat)
    requires limit >= CHUNK
    ensures Fitting(Fresh(), limit) && Legal(Fresh(), [Alloc(8)], limit)
    ensures var bs := ServeAll(Fresh(), [Alloc(8)], limit);
            |bs| == 2 && bs[0].used && Len(bs, Addr(bs, 0)) == 8 && !WellFormed(ReleaseAsWritten(bs, 0))
            && FirstUsed(bs, RealUnits(8)) == 0 && FitAsWritten(bs, RealUnits(8)) == (bs, 0)
  {
    FreshFits(limit);
    RequestUnits(8, 1);
    var bs := Serve(Fresh(), Alloc(8), limit);
    assert FirstFit(Fresh(), 2) == 0;
    assert bs == Place(Fresh(), 0, 2) == [Block(2, true), Block(508, false)];
    assert [Alloc(8)][1..] == [] && ServeAll(bs, [], limit) == bs;
    assert ServeAll(Fresh(), [Alloc(8)], limit) == bs;
    LiveAt(bs, 0);
    NeverMerges(bs, 0);
  }
}
