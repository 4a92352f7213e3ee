/**
  The allocator of 7-2-my_malloc_free.c: boundary tags written in place in
  memory that grows by Sbrk. Pointers are byte addresses counted from what the
  first Sbrk returns (which is page aligned), and 0 is NULL.

  The program as written has slips; each line below that differs from it says
  REPAIR and the line it stands for. AllocatorAsWritten shows what they cost.
 */
module Allocator {
  import opened BlockList
  import opened LiveBlocks
  import opened Tags

  class Heap {
    const limit: nat  // Sbrk cannot move the break past this
    const mem: array<Word>
    var brk: nat
    var freeList: nat
    var listEnd: nat
    ghost var blocks: seq<Block>

    ghost predicate Valid()
      reads this, mem
    {
      && mem.Length == limit < 0x1_0000_0000
      && if freeList == 0 then brk == 0 && blocks == [] else Open()
    }

    ghost predicate Open()
      reads this, mem
    {
      freeList == 2 * WSIZE && listEnd == brk && Layout(mem[..], brk, blocks)
    }

    // The block list once mm_init has run.
    ghost function Opened(): seq<Block>
      reads this
    {
      if freeList == 0 then [Block(CHUNK_UNITS - 2, false)] else blocks
    }

    constructor (limit: nat)
      requires limit < 0x1_0000_0000
      ensures Valid() && freeList == 0 && this.limit == limit
    {
      this.limit := limit;
      mem := new Word[limit];
      brk, freeList, listEnd := 0, 0, 0;
      blocks := [];
    }

    // ------------------------------------------------------- the tag macros

    function GetSize(p: nat): nat
      requires p < mem.Length && Aligned(p)
      reads mem
    {
      SizeBits(mem[p])
    }

    predicate GetAlloc(p: nat)
      requires p < mem.Length && Aligned(p)
      reads mem
    {
      UsedBit(mem[p])
    }

    function Hdrp(p: nat): nat
      requires p >= WSIZE
    {
      p - WSIZE
    }

    function Ftrp(p: nat): int
      requires WSIZE <= p <= mem.Length && Aligned(p - WSIZE)
      reads mem
    {
      p + GetSize(Hdrp(p)) - DSIZE
    }

    function NextBlkp(p: nat): nat
      requires WSIZE <= p <= mem.Length && Aligned(p - WSIZE)
      reads mem
    {
      p + GetSize(p - WSIZE)
    }

    function PrevBlkp(p: nat): int
      requires DSIZE <= p <= mem.Length && Aligned(p - DSIZE)
      reads mem
    {
      p - GetSize(p - DSIZE)
    }

    method Put(p: nat, val: Word)
      requires p < mem.Length && Aligned(p)
      modifies mem
      ensures mem[..] == old(mem[..])[p := val]
    {
      mem[p] := val;
    }

    // The pair PUT(HDRP(p), ..); PUT(FTRP(p), ..) with which the source tags a
    // block; the footer's place is read from the header just written.
    method PutTags(p: nat, size: nat, used: bool, ghost b: Block)
      requires Placed(p) && BlockOk(b) && p + size <= mem.Length < 0x1_0000_0000
      requires b.Size() == size && b.used == used
      modifies mem
      ensures mem[..] == WithTags(old(mem[..]), p, b)
      ensures NextBlkp(p) == p + size
    {
      PackRoundTrip(b.units, used);
      MaskUnits(b.units, 0);
      PlacedOn(p, b.units);
      Put(Hdrp(p), PackSize(size, used));
      assert mem[..][p - WSIZE] == Pack(b.units, used);
      Put(Ftrp(p), PackSize(size, used));
      assert mem[..][p - WSIZE] == Pack(b.units, used);
    }

    // Walking NEXT_BLKP from the prologue steps through the block list and ends
    // at list_end; payload addresses are multiples of 8.
    lemma {:induction false} WalkForward(k: nat)
      requires Valid() && freeList != 0 && k < |blocks|
      ensures FIRST <= Addr(blocks, k) < Addr(blocks, k + 1) <= mem.Length
      ensures NextBlkp(freeList) == Addr(blocks, 0)
      ensures NextBlkp(Addr(blocks, k)) == Addr(blocks, k + 1)
      ensures Addr(blocks, k + 1) == listEnd <==> k + 1 == |blocks|
      ensures Bytes(Units(blocks)) == listEnd - FIRST == brk - FIRST
    {
      ReadTags(mem[..], brk, blocks, k);
      ReadTags(mem[..], brk, blocks, k + 1);
      ReadBefore(mem[..], brk, blocks, 0);
      PackRoundTrip(1, true);
    }

    // PREV_BLKP undoes NEXT_BLKP, and a block's footer repeats its header.
    lemma {:induction false} WalkBack(k: nat)
      requires Valid() && freeList != 0 && k < |blocks|
      ensures FIRST <= Addr(blocks, k) < Addr(blocks, k + 1) <= mem.Length
      ensures PrevBlkp(Addr(blocks, k + 1)) == Addr(blocks, k)
      ensures GetSize(Hdrp(Addr(blocks, k))) == GetSize(Addr(blocks, k + 1) - DSIZE) == blocks[k].Size()
      ensures GetAlloc(Hdrp(Addr(blocks, k))) == GetAlloc(Addr(blocks, k + 1) - DSIZE) == blocks[k].used
      ensures Ftrp(Addr(blocks, k)) == Addr(blocks, k + 1) - DSIZE
    {
      ReadTags(mem[..], brk, blocks, k);
      ReadTags(mem[..], brk, blocks, k + 1);
      EncodesAt(mem[..], blocks, k);
      PackRoundTrip(blocks[k].units, blocks[k].used);
    }

    // ----------------------------------------------------------- operations

    method Sbrk() returns (ok: bool)
      modifies this`brk
      ensures ok <==> old(brk) + CHUNK <= limit
      ensures brk == if ok then old(brk) + CHUNK else old(brk)
    {
      ok := brk + CHUNK <= limit;
      if ok {
        brk := brk + CHUNK;
      }
    }

    method MmInit() returns (ok: bool)
      requires Valid() && freeList == 0
      modifies this, mem
      ensures Valid() && (ok <==> CHUNK <= limit)
      ensures ok ==> freeList != 0 && blocks == [Block(CHUNK_UNITS - 2, false)]
      ensures !ok ==> freeList == 0
    {
      ok := Sbrk();
      if !ok { return; }
      freeList := WSIZE;
      listEnd := CHUNK;  // REPAIR of line 40, which adds CHUNK_SIZE to base + WSIZE
      Put(freeList, PackSize(DSIZE, true));
      freeList := freeList + WSIZE;
      Put(freeList, PackSize(DSIZE, true));
      PackRoundTrip(1, true);
      PutTags(NextBlkp(freeList), CHUNK - 16, false, Block(CHUNK_UNITS - 2, false));  // REPAIR of lines 44 and 45, which tag it allocated
      PlacedOn(DSIZE, CHUNK_UNITS - 1);
      Put(Hdrp(listEnd), PackSize(0, true));
      blocks := [Block(CHUNK_UNITS - 2, false)];
      FirstTags(mem[..]);
    }

    method NewChunk() returns (ok: bool, p: nat)
      requires Valid() && freeList != 0
      modifies this`brk, this`listEnd, this`blocks, mem
      ensures Valid() && (ok <==> old(brk) + CHUNK <= limit)
      ensures ok ==> blocks == Grow(old(blocks)) && p == Addr(blocks, |blocks| - 1)
      ensures !ok ==> blocks == old(blocks)
      ensures Kept(old(mem[..]), mem[..], old(blocks))
    {
      ghost var m, end, bs := mem[..], brk, blocks;
      LastTags();
      ok := Sbrk();
      if !ok { p := 0; return; }
      TagChunk();
      Put(Hdrp(listEnd), PackSize(0, true));
      GrownTags(m, mem[..], end, bs);
      blocks := Grow(bs);
      p := LastBlock();
    }

    // Line 67.
    method LastBlock() returns (p: nat)
      requires Valid() && freeList != 0
      ensures p == Addr(blocks, |blocks| - 1)
    {
      LastTags();
      p := PrevBlkp(listEnd);
    }

    // Lines 52 to 65, once the break has moved.
    method TagChunk()
      requires mem.Length < 0x1_0000_0000 && blocks != [] && FIRST <= listEnd - Bytes(TailFree(blocks))
      requires listEnd + CHUNK <= mem.Length && Placed(listEnd) && 0 <= PrevBlkp(listEnd) && Placed(PrevBlkp(listEnd))
      requires GetAlloc(Hdrp(PrevBlkp(listEnd))) == blocks[|blocks| - 1].used
      requires GetSize(Hdrp(PrevBlkp(listEnd))) == blocks[|blocks| - 1].Size()
      requires !blocks[|blocks| - 1].used ==> PrevBlkp(listEnd) == listEnd - Bytes(TailFree(blocks))
      modifies this`listEnd, mem
      ensures listEnd == old(listEnd) + CHUNK && Placed(listEnd)
      ensures mem[..] == WithTags(old(mem[..]), old(listEnd) - Bytes(TailFree(blocks)), Block(TailFree(blocks) + CHUNK_UNITS, false))
    {
      PlacedOn(listEnd, CHUNK_UNITS);
      if GetAlloc(Hdrp(PrevBlkp(listEnd))) {  // REPAIR of line 52, which tests the epilogue itself
        PutTags(listEnd, CHUNK, false, Block(CHUNK_UNITS, false));
        listEnd := NextBlkp(listEnd);
      } else {
        var blockSize := CHUNK + GetSize(Hdrp(PrevBlkp(listEnd)));
        var preBlk := PrevBlkp(listEnd);
        PutTags(preBlk, blockSize, false, Block(TailFree(blocks) + CHUNK_UNITS, false));
        listEnd := NextBlkp(preBlk);
      }
    }

    // What new_chunk reads at the end of the heap.
    lemma {:induction false} LastTags()
      requires Valid() && freeList != 0
      ensures FIRST <= listEnd == brk <= mem.Length && Placed(listEnd)
      ensures PrevBlkp(listEnd) == Addr(blocks, |blocks| - 1)
      ensures GetAlloc(Hdrp(PrevBlkp(listEnd))) == blocks[|blocks| - 1].used
      ensures GetSize(Hdrp(PrevBlkp(listEnd))) == blocks[|blocks| - 1].Size()
      ensures FIRST <= listEnd - Bytes(TailFree(blocks))
      ensures !blocks[|blocks| - 1].used ==> PrevBlkp(listEnd) == listEnd - Bytes(TailFree(blocks))
    {
      WalkBack(|blocks| - 1);
      WalkForward(|blocks| - 1);
      SettledTail(blocks);
    }

    // Lines 72 to 77: the lowest free block of at least size bytes, or list_end.
    method Scan(size: nat, ghost n: nat) returns (p: nat)
      requires Valid() && freeList != 0 && size == Bytes(n)
      ensures p == Addr(blocks, FirstFit(blocks, n))
      ensures p == listEnd <==> FirstFit(blocks, n) == |blocks|
    {
      WalkForward(0);
      p := NextBlkp(freeList);
      ghost var k := 0;
      while p != listEnd
        invariant k <= |blocks| && p == Addr(blocks, k)
        invariant p == listEnd <==> k == |blocks|
        invariant forall j | 0 <= j < k :: !Fits(blocks[j], n)
        decreases |blocks| - k
      {
        WalkForward(k);
        WalkBack(k);
        // REPAIR of line 75, which asks for an allocated block
        if !GetAlloc(Hdrp(p)) && GetSize(Hdrp(p)) >= size {
          FirstFitIs(blocks, n, k);
          return;
        }
        p := NextBlkp(p);
        k := k + 1;
      }
      FirstFitIs(blocks, n, k);
    }

    // The lowest free block of at least size bytes, growing the heap only when
    // there is none.
    method FirstFitBlock(size: nat, ghost n: nat) returns (ok: bool, p: nat)
      requires Valid() && freeList != 0 && n >= 1 && size == Bytes(n)
      modifies this`brk, this`listEnd, this`blocks, mem
      ensures Valid()
      ensures ok ==> FirstFit(blocks, n) < |blocks| && p == Addr(blocks, FirstFit(blocks, n))
      ensures FirstFit(old(blocks), n) < |old(blocks)| ==> ok && blocks == old(blocks)
      ensures FirstFit(old(blocks), n) == |old(blocks)| ==>
                var need, room := ChunksFor(old(blocks), n), ChunksLeft(old(blocks), limit);
                (ok <==> need <= room) && blocks == GrowBy(old(blocks), if ok then need else room)
                && (ok ==> FirstFit(blocks, n) == |blocks| - 1)
      ensures Kept(old(mem[..]), mem[..], old(blocks))
    {
      p := Scan(size, n);
      ok := true;
      if p == listEnd {
        ok, p := Extend(size, n);
      }
    }

    // REPAIR of line 78, which adds one chunk and returns it whatever its size.
    method Extend(size: nat, ghost n: nat) returns (ok: bool, p: nat)
      requires Valid() && freeList != 0 && n >= 1 && size == Bytes(n)
      requires FirstFit(blocks, n) == |blocks|
      modifies this`brk, this`listEnd, this`blocks, mem
      ensures Valid()
      ensures ok ==> FirstFit(blocks, n) == |blocks| - 1 && p == Addr(blocks, |blocks| - 1)
      ensures var need, room := ChunksFor(old(blocks), n), ChunksLeft(old(blocks), limit);
              (ok <==> need <= room) && blocks == GrowBy(old(blocks), if ok then need else room)
      ensures Kept(old(mem[..]), mem[..], old(blocks))
    {
      ghost var m, bs, c := mem[..], blocks, 0;
      GrowthIsLeast(bs, n, 0);
      ghost var need := ChunksFor(bs, n);
      ok, p := true, 0;
      var fits := false;
      while !fits
        invariant Valid() && freeList != 0 && blocks == GrowBy(bs, c)
        invariant Kept(m, mem[..], bs)
        invariant if fits then c == need && p == Addr(blocks, |blocks| - 1) else c < need
        decreases need - c
      {
        ghost var w := mem[..];
        ok, p := NewChunk();
        KeptTwice(m, w, mem[..], bs, c);
        if !ok {
          LastChunk(bs, c, limit);
          return;
        }
        OneMore(bs, n, c);
        c := c + 1;
        WalkBack(|blocks| - 1);
        fits := GetSize(Hdrp(p)) >= size;
      }
      RoomLeft(bs, c, limit);
      GrowthIsLeast(bs, n, c);
    }

    // Lines 88 and 89.
    method RealSize(size: nat) returns (realSize: nat)
      ensures realSize == Bytes(RealUnits(size))
    {
      UnitsForIs(size);
      // REPAIR of line 89, which rounds up only when size <= DSIZE
      realSize := DSIZE + ((size + (DSIZE - 1)) / DSIZE) * DSIZE;
    }

    method Malloc(size: nat) returns (out: Outcome)
      requires Valid()
      modifies this, mem
      ensures Valid()
      ensures old(freeList) == 0 && limit < CHUNK ==> out == Exit && freeList == 0
      ensures old(freeList) != 0 || limit >= CHUNK ==>
                freeList != 0 && (blocks, out) == MallocSpec(old(Opened()), size, limit)
      ensures Kept(old(mem[..]), mem[..], old(blocks))
    {
      if freeList == 0 {
        var ok := MmInit();
        if !ok { return Exit; }
      }
      if size == 0 { return Null; }
      var realSize := RealSize(size);
      ghost var m, bs, n := mem[..], blocks, RealUnits(size);
      var ok, blk := FirstFitBlock(realSize, n);
      if !ok { return Exit; }
      ghost var w := mem[..];
      Carve(blk, realSize, FirstFit(blocks, n), n);
      KeptTwice(m, w, mem[..], bs, if FirstFit(bs, n) < |bs| then 0 else ChunksFor(bs, n));
      return Payload(blk);
    }

    // Lines 92 to 100: cut the block when it is too long.
    method Carve(blk: nat, realSize: nat, ghost k: nat, ghost n: nat)
      requires Valid() && freeList != 0 && k < |blocks| && blk == Addr(blocks, k)
      requires Fits(blocks[k], n) && n >= 1 && realSize == Bytes(n)
      modifies mem, this`blocks
      ensures Valid() && blocks == Place(old(blocks), k, n)
      ensures Kept(old(mem[..]), mem[..], old(blocks))
    {
      ghost var m, bs := mem[..], blocks;
      TagsAfter(k);
      SizesAt(bs, k);
      TagParts(blk, realSize, bs[k], n);
      PlacedTags(m, mem[..], brk, bs, k, n);
      blocks := Place(bs, k, n);
    }

    method TagParts(blk: nat, realSize: nat, ghost b: Block, ghost n: nat)
      requires Placed(blk) && BlockOk(b) && blk + b.Size() <= mem.Length < 0x1_0000_0000
      requires GetSize(Hdrp(blk)) == b.Size() && 1 <= n <= b.units && realSize == Bytes(n)
      modifies mem
      ensures mem[..] == Carved(old(mem[..]), blk, b, n)
    {
      var blkSize := GetSize(Hdrp(blk));
      PutTags(blk, realSize, true, Block(n, true));  // REPAIR: lines 93 to 100 leave an exact fit tagged free
      if blkSize > realSize {
        PlacedOn(blk, n);
        var next := NextBlkp(blk);
        PutTags(next, blkSize - realSize, false, Block(b.units - n, false));
      }
    }

    // A caller writing one word of its payload.
    method Write(ptr: nat, i: nat, val: Word)
      requires Valid() && ptr <= i < ptr + Len(blocks, ptr) && Aligned(i)
      modifies mem
      ensures Valid() && i < |old(mem[..])| && mem[..] == old(mem[..])[i := val]
    {
      ghost var k := IndexOf(blocks, FIRST, ptr);
      LiveAt(blocks, k);
      ReadTags(mem[..], brk, blocks, k);
      PayloadTags(mem[..], brk, blocks, k, i, val);
      Put(i, val);
    }

    // Lines 106 to 119: where the merged block starts and how long it is.
    method Merge(ptr: nat, ghost k: nat) returns (blk: nat, size: nat)
      requires Valid() && freeList != 0 && k < |blocks| && ptr == Addr(blocks, k)
      ensures Lo(blocks, k) <= k && blk == Addr(blocks, Lo(blocks, k)) && size == Bytes(Units(Merged(blocks, k)))
    {
      TagsBefore(k);
      TagsAfter(k);
      MergedUnits(blocks, k);
      var prev := PrevBlkp(ptr);
      var next := NextBlkp(ptr);
      blk := ptr;
      size := GetSize(Hdrp(ptr));  // REPAIR of line 109, which reads the payload
      if !GetAlloc(Hdrp(prev)) {  // REPAIR of line 111, which tests the block itself
        blk := prev;
        size := size + GetSize(Hdrp(prev));
      }
      if !GetAlloc(Hdrp(next)) {  // REPAIR of line 116, likewise
        size := size + GetSize(Hdrp(next));
      }
    }

    method Free(ptr: nat)
      requires Valid() && Len(blocks, ptr) >= 0
      modifies mem, this`blocks
      ensures Valid()
      ensures blocks == Release(old(blocks), IndexOf(old(blocks), FIRST, ptr))
      ensures KeptBut(old(mem[..]), mem[..], old(blocks), ptr)
    {
      ghost var m, k := mem[..], IndexOf(blocks, FIRST, ptr);
      var blk, size := Merge(ptr, k);
      MergedBounds(m, brk, blocks, k);
      PutTags(blk, size, false, Block(Units(Merged(blocks, k)), false));
      ReleasedTags(m, mem[..], brk, blocks, k);
      blocks := Release(blocks, k);
    }

    // ------------------------------------------------------------ whole runs

    // A payload that was live and was not freed is as it was, to the word.
    ghost predicate Untouched(bs: seq<Block>, m: seq<Word>, p: nat)
      requires Valid()
      reads this, mem
    {
      Len(bs, p) >= 0 ==> Len(Opened(), p) == Len(bs, p) && SameWords(m, mem[..], p, Len(bs, p))
    }

    // One request; exited says that the program has stopped.
    method Answer(r: Request) returns (exited: bool)
      requires Valid() && Fitting(Opened(), limit) && Allowed(Opened(), r)
      modifies this, mem
      ensures Valid() && Opened() == Serve(old(Opened()), r, limit)
      ensures exited <==> Refused(old(Opened()), r, limit)
      ensures forall p: nat | r != Request.Free(p) :: Untouched(old(Opened()), old(mem[..]), p)
    {
      ghost var bs, m := Opened(), mem[..];
      match r {
        case Alloc(size) =>
          FreshLive();
          var out := Malloc(size);
          exited := out.Exit?;
        case Free(ptr) =>
          FreshLive();
          Free(ptr);
          exited := false;
      }
      forall p: nat | r != Request.Free(p) ensures Untouched(bs, m, p) {
        if Len(bs, p) >= 0 { ServeLeaves(bs, r, limit, p); }
      }
    }

    // Before the first request nothing is live.
    lemma {:induction false} FreshLive()
      requires Valid()
      ensures freeList == 0 ==> forall p: nat :: Len(Opened(), p) == -1
    {
      var bs := Opened();
      if freeList == 0 {
        forall p: nat ensures Len(bs, p) == -1 { LenOne(bs[0], FIRST, p); }
      }
    }

    // Any legal run of requests, until one of them makes the program exit. The
    // block list is the one that the run makes (when it does not exit), and
    // every payload live at the start and not freed is as it was, to the word. It
    // exits exactly when some my_malloc of the run does.
    method Session(rs: seq<Request>) returns (exited: bool)
      requires Valid() && Fitting(Opened(), limit) && Legal(Opened(), rs, limit)
      modifies this, mem
      ensures Valid() && Fitting(Opened(), limit)
      ensures exited <==> Exits(old(Opened()), rs, limit)
      ensures !exited ==> Opened() == ServeAll(old(Opened()), rs, limit)
      ensures forall p: nat | Request.Free(p) !in rs :: Untouched(old(Opened()), old(mem[..]), p)
    {
      ghost var bs, m := Opened(), mem[..];
      var todo := rs;
      exited := false;
      while todo != [] && !exited
        invariant Valid() && Fitting(Opened(), limit) && Legal(Opened(), todo, limit)
        invariant ServeAll(Opened(), todo, limit) == ServeAll(bs, rs, limit)
        invariant Exits(bs, rs, limit) <==> exited || Exits(Opened(), todo, limit)
        invariant forall r | r in todo :: r in rs
        invariant forall p: nat | Request.Free(p) !in rs :: Untouched(bs, m, p)
        decreases |todo|
      {
        ghost var cs, w := Opened(), mem[..];
        var r := todo[0];
        assert r in rs;
        exited := Answer(r);
        forall p: nat | Request.Free(p) !in rs ensures Untouched(bs, m, p) {
          assert Untouched(cs, w, p);
        }
        todo := todo[1..];
      }
    }

    // What my_free reads at block k, in front of it and behind it.
    lemma {:induction false} TagsBefore(k: nat)
      requires Valid() && freeList != 0 && k < |blocks|
      ensures FIRST <= Addr(blocks, k) < mem.Length
      ensures PrevBlkp(Addr(blocks, k)) == (if k > 0 then Addr(blocks, k - 1) else DSIZE)
      ensures Placed(PrevBlkp(Addr(blocks, k)))
      ensures GetAlloc(Hdrp(PrevBlkp(Addr(blocks, k)))) <==> !FreeAt(blocks, k - 1)
      ensures FreeAt(blocks, k - 1) ==> GetSize(Hdrp(PrevBlkp(Addr(blocks, k)))) == blocks[k - 1].Size()
    {
      ReadTags(mem[..], brk, blocks, k);
      ReadBefore(mem[..], brk, blocks, k);
      if k > 0 { ReadTags(mem[..], brk, blocks, k - 1); }
    }

    lemma {:induction false} TagsAfter(k: nat)
      requires Valid() && freeList != 0 && k < |blocks|
      ensures FIRST <= Addr(blocks, k) < Addr(blocks, k + 1) <= mem.Length
      ensures GetSize(Hdrp(Addr(blocks, k))) == blocks[k].Size()
      ensures NextBlkp(Addr(blocks, k)) == Addr(blocks, k + 1)
      ensures GetAlloc(Hdrp(Addr(blocks, k + 1))) <==> !FreeAt(blocks, k + 1)
      ensures FreeAt(blocks, k + 1) ==> GetSize(Hdrp(Addr(blocks, k + 1))) == blocks[k + 1].Size()
    {
      ReadTags(mem[..], brk, blocks, k);
      ReadTags(mem[..], brk, blocks, k + 1);
    }
  }

  // ------------------------------------------------------------- small lemmas

  lemma {:induction false} MergedBounds(m: seq<Word>, end: nat, bs: seq<Block>, k: nat)
    requires Layout(m, end, bs) && k < |bs|
    ensures var a, ms := Addr(bs, Lo(bs, k)), Merged(bs, k);
            a >= FIRST && a + Bytes(Units(ms)) <= end && Units(ms) >= 1
  {
    CutMerged(bs, k);
    Around(bs, bs[..Lo(bs, k)], Merged(bs, k), bs[Hi(bs, k)..]);
    UnitsPositive(Merged(bs, k));
  }

  lemma {:induction false} FirstFitIs(bs: seq<Block>, n: nat, k: nat)
    requires k <= |bs| && forall j | 0 <= j < k :: !Fits(bs[j], n)
    requires k < |bs| ==> Fits(bs[k], n)
    ensures FirstFit(bs, n) == k
  {
    var f := FirstFit(bs, n);
    if f < k || k < f { assert false; }
  }

  // Growth changes no live payload, so what is kept over it and after it is
  // kept over both.
  lemma {:induction false} KeptTwice(m: seq<Word>, v: seq<Word>, w: seq<Word>, bs: seq<Block>, c: nat)
    requires WellFormed(bs) && Kept(m, v, bs) && Kept(v, w, GrowBy(bs, c))
    ensures Kept(m, w, bs)
  {
    forall p: nat, i: nat | i < |m| && p <= i < p + Len(bs, p) ensures m[i] == w[i] {
      GrowByLive(bs, c, p);
    }
  }

  lemma {:induction false} LastChunk(bs: seq<Block>, c: nat, limit: nat)
    requires WellFormed(bs) && FIRST + Bytes(Units(GrowBy(bs, c))) <= limit
    requires limit < FIRST + Bytes(Units(GrowBy(bs, c))) + CHUNK
    ensures c == ChunksLeft(bs, limit)
  {
    GrowByKeeps(bs, c);
    GrowByKeeps(bs, c + 1);
    Affordable(bs, c, limit);
    Affordable(bs, c + 1, limit);
  }

  lemma {:induction false} RoomLeft(bs: seq<Block>, c: nat, limit: nat)
    requires WellFormed(bs) && FIRST + Bytes(Units(GrowBy(bs, c))) <= limit
    ensures c <= ChunksLeft(bs, limit)
  {
    GrowByKeeps(bs, c);
    Affordable(bs, c, limit);
  }

  // One more chunk fits the request exactly when it was the last one needed.
  lemma {:induction false} OneMore(bs: seq<Block>, n: nat, c: nat)
    requires WellFormed(bs) && FirstFit(bs, n) == |bs| && n > 0
    ensures TailFree(bs) < n && GrowBy(bs, c) != [] && GrowBy(bs, c + 1) == Grow(GrowBy(bs, c))
    ensures var g := GrowBy(bs, c + 1); g[|g| - 1].units >= n <==> c + 1 >= ChunksFor(bs, n)
  {
    GrowthIsLeast(bs, n, c + 1);
    GrowByKeeps(bs, c + 1);
  }
}
