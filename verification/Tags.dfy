/**
  How a block list is written in memory: 32-bit words, one header and one
  footer word a block, each packing the size with the allocated bit. Memory is
  indexed by byte address; a word lives at the address of its first byte, and
  only addresses that are multiples of WSIZE are read or written: the macros
  require it.
 */
module Tags {
  import opened BlockList
  import opened LiveBlocks

  newtype Word = x: int | 0 <= x < 0x1_0000_0000

  // x & ~0x7
  function Mask(x: nat): nat {
    if x < 8 then 0 else 8 + Mask(x - 8)
  }

  // x & 0x1
  predicate Odd(x: nat) {
    if x < 2 then x == 1 else Odd(x - 2)
  }

  lemma {:induction false} MaskClears(x: nat) returns (q: nat)
    ensures Mask(x) == Bytes(q) <= x < Bytes(q) + 8
  {
    if x < 8 {
      q := 0;
    } else {
      var p := MaskClears(x - 8);
      q := p + 1;
    }
  }

  lemma {:induction false} OddIsLowBit(x: nat) returns (q: nat)
    ensures x == q + q + if Odd(x) then 1 else 0
  {
    if x < 2 {
      q := 0;
    } else {
      var p := OddIsLowBit(x - 2);
      q := p + 1;
    }
  }

  // PACK on a block's size, whose three low bits are zero, and its used bit.
  function Pack(units: nat, used: bool): Word
    requires Bytes(units) < 0x1_0000_0000
  {
    (Bytes(units) + if used then 1 else 0) as Word
  }

  // PACK on a size in bytes.
  function PackSize(size: nat, used: bool): Word
    requires Mask(size) == size < 0x1_0000_0000 - 1
  {
    (size + if used then 1 else 0) as Word
  }

  function SizeBits(w: Word): nat {
    Mask(w as nat)
  }

  predicate UsedBit(w: Word) {
    Odd(w as nat)
  }

  lemma {:induction false} MaskUnits(u: nat, bit: nat)
    requires bit < 8
    ensures Mask(Bytes(u) + bit) == Bytes(u)
  {
    if u > 0 { MaskUnits(u - 1, bit); }
  }

  lemma {:induction false} OddHalves(h: nat, bit: nat)
    requires bit < 2
    ensures Odd(h + h + bit) <==> bit == 1
  {
    if h > 0 { OddHalves(h - 1, bit); }
  }

  lemma {:induction false} PackRoundTrip(units: nat, used: bool)
    requires Bytes(units) < 0x1_0000_0000
    ensures SizeBits(Pack(units, used)) == Bytes(units)
    ensures UsedBit(Pack(units, used)) == used
  {
    var bit := if used then 1 else 0;
    MaskUnits(units, bit);
    var half := units + units + units + units;
    OddHalves(half, bit);
    assert Pack(units, used) as nat == Bytes(units) + bit == half + half + bit;
  }

  // Block b with payload address a has its header and its footer in m.
  ghost predicate Tagged(m: seq<Word>, a: nat, b: Block) {
    && a >= FIRST && BlockOk(b)
    && a + b.Size() <= |m| && b.Size() < 0x1_0000_0000
    && m[a - WSIZE] == Pack(b.units, b.used)
    && m[a + b.Size() - DSIZE] == Pack(b.units, b.used)
  }

  // Memory after the header and the footer of block b at a are written.
  ghost function WithTags(m: seq<Word>, a: nat, b: Block): seq<Word>
    requires a >= DSIZE && BlockOk(b) && a + b.Size() <= |m| < 0x1_0000_0000
  {
    m[a - WSIZE := Pack(b.units, b.used)][a + b.Size() - DSIZE := Pack(b.units, b.used)]
  }

  ghost predicate Encodes(m: seq<Word>, a: nat, bs: seq<Block>)
    decreases |bs|
  {
    bs == [] || (Tagged(m, a, bs[0]) && Encodes(m, a + bs[0].Size(), bs[1..]))
  }

  // m and w agree on every word outside [lo, hi).
  ghost predicate AgreeOutside(m: seq<Word>, w: seq<Word>, lo: int, hi: int) {
    |m| == |w| && forall i | 0 <= i < |m| && !(lo <= i < hi) :: m[i] == w[i]
  }

  // No word of a live payload differs between m and w.
  ghost predicate Kept(m: seq<Word>, w: seq<Word>, bs: seq<Block>) {
    |m| == |w|
    && forall p: nat, i: nat | i < |m| && p <= i < p + Len(bs, p) :: m[i] == w[i]
  }

  // The words of one payload.
  ghost predicate SameWords(m: seq<Word>, w: seq<Word>, p: nat, len: int) {
    |m| == |w| && forall i | p <= i < p + len && i < |m| :: m[i] == w[i]
  }

  // The same for every payload but the one at q.
  ghost predicate KeptBut(m: seq<Word>, w: seq<Word>, bs: seq<Block>, q: nat) {
    |m| == |w|
    && forall p: nat, i: nat | p != q && i < |m| && p <= i < p + Len(bs, p) :: m[i] == w[i]
  }

  lemma {:induction false} EncodesConcat(m: seq<Word>, a: nat, xs: seq<Block>, ys: seq<Block>)
    ensures Encodes(m, a, xs + ys) <==> Encodes(m, a, xs) && Encodes(m, a + Bytes(Units(xs)), ys)
    decreases |xs|
  {
    if xs == [] {
      assert xs + ys == ys;
    } else {
      assert (xs + ys)[1..] == xs[1..] + ys;
      EncodesConcat(m, a + xs[0].Size(), xs[1..], ys);
    }
  }

  lemma {:induction false} EncodesFrame(m: seq<Word>, w: seq<Word>, a: nat, bs: seq<Block>, lo: int, hi: int)
    requires Encodes(m, a, bs) && AgreeOutside(m, w, lo, hi)
    requires a + Bytes(Units(bs)) - WSIZE <= lo || hi <= a - WSIZE
    ensures Encodes(w, a, bs)
    decreases |bs|
  {
    if bs != [] {
      EncodesAligned(m, a, bs);
      EncodesFrame(m, w, a + bs[0].Size(), bs[1..], lo, hi);
    }
  }

  lemma {:induction false} EncodesAligned(m: seq<Word>, a: nat, bs: seq<Block>)
    requires Encodes(m, a, bs) && bs != []
    ensures Units(bs) >= bs[0].units >= 1
    ensures a + Bytes(Units(bs)) <= |m|
    ensures SizesOk(bs)
    decreases |bs|
  {
    if |bs| > 1 {
      EncodesAligned(m, a + bs[0].Size(), bs[1..]);
    } else {
      assert bs[1..] == [];
    }
  }

  // The tags of block k are where its address says.
  lemma {:induction false} EncodesAt(m: seq<Word>, bs: seq<Block>, k: nat)
    requires Encodes(m, FIRST, bs) && k < |bs|
    ensures Tagged(m, Addr(bs, k), bs[k])
    ensures Addr(bs, k + 1) == Addr(bs, k) + bs[k].Size()
  {
    Cut(bs, k);
    EncodesConcat(m, FIRST, bs[..k] + [bs[k]], bs[k + 1..]);
    EncodesConcat(m, FIRST, bs[..k], [bs[k]]);
  }

  lemma {:induction false} EncodesOne(m: seq<Word>, a: nat, b: Block)
    ensures Encodes(m, a, [b]) <==> Tagged(m, a, b)
  {
    assert [b][1..] == [];
  }

  lemma {:induction false} EncodesTwo(m: seq<Word>, a: nat, b: Block, c: Block)
    ensures Encodes(m, a, [b, c]) <==> Tagged(m, a, b) && Tagged(m, a + b.Size(), c)
  {
    assert [b, c][1..] == [c];
    EncodesOne(m, a + b.Size(), c);
  }

  lemma {:induction false} EncodesSplice(m: seq<Word>, xs: seq<Block>, ms: seq<Block>, ys: seq<Block>)
    ensures Encodes(m, FIRST, xs + ms + ys)
       <==> Encodes(m, FIRST, xs) && Encodes(m, FIRST + Bytes(Units(xs)), ms)
            && Encodes(m, FIRST + Bytes(Units(xs)) + Bytes(Units(ms)), ys)
  {
    EncodesConcat(m, FIRST, xs + ms, ys);
    EncodesConcat(m, FIRST, xs, ms);
    UnitsConcat(xs, ms);
  }

  // Writing only the tags of a run of blocks replaces that run in the list.
  lemma {:induction false} Respliced(m: seq<Word>, w: seq<Word>, xs: seq<Block>, was: seq<Block>, now: seq<Block>, ys: seq<Block>)
    requires Encodes(m, FIRST, xs + was + ys) && Bytes(Units(was)) == Bytes(Units(now))
    requires var a := FIRST + Bytes(Units(xs)); AgreeOutside(m, w, a - WSIZE, a + Bytes(Units(was)) - WSIZE)
    requires Encodes(w, FIRST + Bytes(Units(xs)), now)
    ensures Encodes(w, FIRST, xs + now + ys)
  {
    var a := FIRST + Bytes(Units(xs));
    var lo, hi := a - WSIZE, a + Bytes(Units(was)) - WSIZE;
    EncodesSplice(m, xs, was, ys);
    EncodesFrame(m, w, FIRST, xs, lo, hi);
    EncodesFrame(m, w, a + Bytes(Units(was)), ys, lo, hi);
    EncodesSplice(w, xs, now, ys);
  }

  // Writing inside a run of blocks leaves the live payloads of the others; was
  // is the list of what must be left.
  lemma {:induction false} OthersKept(m: seq<Word>, w: seq<Word>, xs: seq<Block>, ms: seq<Block>, ys: seq<Block>, p: nat, i: nat)
    requires SizesOk(xs) && SizesOk(ms) && SizesOk(ys)
    requires var a := FIRST + Bytes(Units(xs)); AgreeOutside(m, w, a - WSIZE, a + Bytes(Units(ms)) - WSIZE)
    requires i < |m| && p <= i < p + Len(xs + ms + ys, p)
    requires LenAt(ms, FIRST + Bytes(Units(xs)), p) == -1
    ensures m[i] == w[i]
  {
    var a := FIRST + Bytes(Units(xs));
    LenSplice(xs, ms, ys, p);
    if p < a {
      LiveInside(xs, FIRST, p);
    } else {
      LiveInside(ys, a + Bytes(Units(ms)), p);
    }
  }

  // ----------------------------------------------------------- whole heap

  // The heap in memory: prologue, the blocks, and the epilogue header in the
  // last word below the break.
  ghost predicate Layout(m: seq<Word>, end: nat, bs: seq<Block>) {
    && |m| < 0x1_0000_0000
    && WellFormed(bs) && FIRST + Bytes(Units(bs)) == end <= |m|
    && Encodes(m, FIRST, bs)
    && m[WSIZE] == Pack(1, true) && m[2 * WSIZE] == Pack(1, true)
    && m[end - WSIZE] == Pack(0, true)
  }

  // What the tags at and below the payload address of block k say.
  lemma {:induction false} ReadTags(m: seq<Word>, end: nat, bs: seq<Block>, k: nat)
    requires Layout(m, end, bs) && k <= |bs|
    ensures FIRST <= Addr(bs, k) <= end
    ensures k == |bs| ==> Addr(bs, k) == end
    ensures k == |bs| ==> SizeBits(m[Addr(bs, k) - WSIZE]) == 0 && UsedBit(m[Addr(bs, k) - WSIZE])
    ensures k < |bs| ==> BlockOk(bs[k]) && Addr(bs, k + 1) == Addr(bs, k) + bs[k].Size() <= end
    ensures k < |bs| ==> SizeBits(m[Addr(bs, k) - WSIZE]) == bs[k].Size()
    ensures k < |bs| ==> UsedBit(m[Addr(bs, k) - WSIZE]) == bs[k].used
  {
    assert bs[..|bs|] == bs;
    if k < |bs| {
      EncodesAt(m, bs, k);
      AroundOne(bs, k);
      PackRoundTrip(bs[k].units, bs[k].used);
    } else {
      EncodesAligned(m, FIRST, bs);
      PackRoundTrip(0, true);
    }
  }

  lemma {:induction false} ReadBefore(m: seq<Word>, end: nat, bs: seq<Block>, k: nat)
    requires Layout(m, end, bs) && k <= |bs|
    ensures FIRST <= Addr(bs, k) <= end
    ensures k == 0 ==> Addr(bs, k) == FIRST && SizeBits(m[FIRST - DSIZE]) == DSIZE && UsedBit(m[WSIZE])
    ensures k > 0 ==> SizeBits(m[Addr(bs, k) - DSIZE]) == bs[k - 1].Size()
                      && Addr(bs, k - 1) == Addr(bs, k) - bs[k - 1].Size()
  {
    ReadTags(m, end, bs, k);
    if k == 0 {
      assert bs[..0] == [];
      PackRoundTrip(1, true);
    } else {
      EncodesAt(m, bs, k - 1);
      PackRoundTrip(bs[k - 1].units, bs[k - 1].used);
    }
  }

  // Tagging the new last block and the new epilogue makes the heap grow.
  lemma {:induction false} GrownTags(m: seq<Word>, w: seq<Word>, end: nat, bs: seq<Block>)
    requires Layout(m, end, bs) && end + CHUNK <= |m|
    requires end - Bytes(TailFree(bs)) >= FIRST && BlockOk(Block(TailFree(bs) + CHUNK_UNITS, false))
    requires w == WithTags(m, end - Bytes(TailFree(bs)), Block(TailFree(bs) + CHUNK_UNITS, false))[end + CHUNK - WSIZE := Pack(0, true)]
    ensures Layout(w, end + CHUNK, Grow(bs)) && Kept(m, w, bs)
    ensures Addr(Grow(bs), |Grow(bs)| - 1) == end - Bytes(TailFree(bs))
  {
    var a := end - Bytes(TailFree(bs));
    var b := Block(TailFree(bs) + CHUNK_UNITS, false);
    assert AgreeOutside(m, w, a - WSIZE, end + CHUNK) && Tagged(w, a, b);
    EncodesOne(w, a, b);
    GrowKeeps(bs);
    GrownEncodes(m, w, end, bs);
    GrownKept(m, w, end, bs);
  }

  // A block written where xs ends takes the place of what followed.
  lemma {:induction false} EncodesLast(m: seq<Word>, w: seq<Word>, xs: seq<Block>, tail: seq<Block>, b: Block, hi: nat)
    requires Encodes(m, FIRST, xs + tail)
    requires AgreeOutside(m, w, FIRST + Bytes(Units(xs)) - WSIZE, hi) && Encodes(w, FIRST + Bytes(Units(xs)), [b])
    ensures Encodes(w, FIRST, xs + [b]) && Addr(xs + [b], |xs|) == FIRST + Bytes(Units(xs))
  {
    EncodesConcat(m, FIRST, xs, tail);
    EncodesFrame(m, w, FIRST, xs, FIRST + Bytes(Units(xs)) - WSIZE, hi);
    EncodesConcat(w, FIRST, xs, [b]);
    assert (xs + [b])[..|xs|] == xs;
  }

  lemma {:induction false} GrownEncodes(m: seq<Word>, w: seq<Word>, end: nat, bs: seq<Block>)
    requires WellFormed(bs) && Encodes(m, FIRST, bs) && FIRST + Bytes(Units(bs)) == end
    requires AgreeOutside(m, w, end - Bytes(TailFree(bs)) - WSIZE, end + CHUNK)
    requires end - Bytes(TailFree(bs)) >= FIRST
    requires Encodes(w, end - Bytes(TailFree(bs)), [Block(TailFree(bs) + CHUNK_UNITS, false)])
    ensures Encodes(w, FIRST, Grow(bs))
    ensures Addr(Grow(bs), |Grow(bs)| - 1) == end - Bytes(TailFree(bs))
  {
    SettledTail(bs);
    EncodesLast(m, w, Settled(bs), LastFree(bs), Block(TailFree(bs) + CHUNK_UNITS, false), end + CHUNK);
  }

  lemma {:induction false} GrownKept(m: seq<Word>, w: seq<Word>, end: nat, bs: seq<Block>)
    requires WellFormed(bs) && FIRST + Bytes(Units(bs)) == end
    requires AgreeOutside(m, w, end - Bytes(TailFree(bs)) - WSIZE, end + CHUNK)
    ensures Kept(m, w, bs)
  {
    var xs, tail := Settled(bs), LastFree(bs);
    SettledTail(bs);
    forall p: nat, i: nat | i < |m| && p <= i < p + Len(bs, p) ensures m[i] == w[i] {
      LenFree(tail, FIRST + Bytes(Units(xs)), p);
      LenConcat(xs, tail, FIRST, p);
      LiveInside(xs, FIRST, p);
    }
  }

  // Memory after the tags that lines 92 to 100 write.
  ghost function Carved(m: seq<Word>, a: nat, b: Block, n: nat): seq<Word>
    requires a >= DSIZE && BlockOk(b) && a + b.Size() <= |m| < 0x1_0000_0000
    requires n <= b.units && BlockOk(Block(n, true))
  {
    var w := WithTags(m, a, Block(n, true));
    if b.units > n then WithTags(w, a + Bytes(n), Block(b.units - n, false))
    else w
  }

  lemma {:induction false} CarvedParts(m: seq<Word>, a: nat, b: Block, n: nat)
    requires a >= FIRST && BlockOk(b) && a + b.Size() <= |m| < 0x1_0000_0000
    requires n <= b.units && BlockOk(Block(n, true))
    ensures Encodes(Carved(m, a, b, n), a, PlaceParts(b, n))
    ensures AgreeOutside(m, Carved(m, a, b, n), a - WSIZE, a + b.Size() - WSIZE)
  {
    if b.units > n {
      EncodesTwo(Carved(m, a, b, n), a, Block(n, true), Block(b.units - n, false));
    } else {
      EncodesOne(Carved(m, a, b, n), a, Block(n, true));
    }
  }

  // Those tags turn the heap into Place(bs, k, n).
  lemma {:induction false} PlacedTags(m: seq<Word>, w: seq<Word>, end: nat, bs: seq<Block>, k: nat, n: nat)
    requires Layout(m, end, bs) && k < |bs| && Fits(bs[k], n) && BlockOk(Block(n, true))
    requires BlockOk(bs[k]) && Addr(bs, k) + bs[k].Size() <= |m| && w == Carved(m, Addr(bs, k), bs[k], n)
    ensures Layout(w, end, Place(bs, k, n)) && Kept(m, w, bs)
  {
    ReadTags(m, end, bs, k);
    CarvedParts(m, Addr(bs, k), bs[k], n);
    var xs, b, ys := bs[..k], bs[k], bs[k + 1..];
    AroundOne(bs, k);
    PlaceKeeps(bs, k, n);
    PartsKeep(b, n);
    UnitsOne(b);
    Respliced(m, w, xs, [b], PlaceParts(b, n), ys);
    forall p: nat, i: nat | i < |m| && p <= i < p + Len(bs, p) ensures m[i] == w[i] {
      LenOne(b, Addr(bs, k), p);
      OthersKept(m, w, xs, [b], ys, p, i);
    }
  }

  // Tagging one block where there was a run of blocks.
  lemma {:induction false} Retagged(m: seq<Word>, w: seq<Word>, end: nat, xs: seq<Block>, ms: seq<Block>, ys: seq<Block>, b: Block)
    requires Layout(m, end, xs + ms + ys) && WellFormed(xs + [b] + ys)
    requires BlockOk(b) && b.units == Units(ms)
    requires var a := FIRST + Bytes(Units(xs)); a + b.Size() <= |m| && w == WithTags(m, a, b)
    ensures Layout(w, end, xs + [b] + ys)
  {
    UnitsOne(b);
    UnitsSplice(xs, ms, ys);
    UnitsSplice(xs, [b], ys);
    EncodesOne(w, FIRST + Bytes(Units(xs)), b);
    Respliced(m, w, xs, ms, [b], ys);
  }

  // Tagging the merged block turns the heap into Release(bs, k).
  lemma {:induction false} ReleasedTags(m: seq<Word>, w: seq<Word>, end: nat, bs: seq<Block>, k: nat)
    requires Layout(m, end, bs) && k < |bs| && bs[k].used
    requires var a, b := Addr(bs, Lo(bs, k)), Block(Units(Merged(bs, k)), false);
             BlockOk(b) && a + b.Size() <= |m| && w == WithTags(m, a, b)
    ensures Layout(w, end, Release(bs, k)) && KeptBut(m, w, bs, Addr(bs, k))
  {
    CutMerged(bs, k);
    ReleaseKeeps(bs, k);
    Retagged(m, w, end, bs[..Lo(bs, k)], Merged(bs, k), bs[Hi(bs, k)..], Block(Units(Merged(bs, k)), false));
    ReleasedKept(m, w, bs, k);
  }

  lemma {:induction false} ReleasedKept(m: seq<Word>, w: seq<Word>, bs: seq<Block>, k: nat)
    requires WellFormed(bs) && k < |bs| && bs[k].used
    requires var a := Addr(bs, Lo(bs, k));
             AgreeOutside(m, w, a - WSIZE, a + Bytes(Units(Merged(bs, k))) - WSIZE)
    ensures KeptBut(m, w, bs, Addr(bs, k))
  {
    var xs, ms, ys := bs[..Lo(bs, k)], Merged(bs, k), bs[Hi(bs, k)..];
    CutMerged(bs, k);
    Around(bs, xs, ms, ys);
    forall p: nat, i: nat | p != Addr(bs, k) && i < |m| && p <= i < p + Len(bs, p) ensures m[i] == w[i] {
      MergedLen(bs, k, p);
      OthersKept(m, w, xs, ms, ys, p, i);
    }
  }

  // A caller may write anywhere in its payload.
  lemma {:induction false} PayloadTags(m: seq<Word>, end: nat, bs: seq<Block>, k: nat, i: nat, val: Word)
    requires Layout(m, end, bs) && k < |bs| && Addr(bs, k) <= i < Addr(bs, k) + bs[k].Size() - DSIZE && i < |m|
    ensures Layout(m[i := val], end, bs)
  {
    var w, a, b := m[i := val], Addr(bs, k), bs[k];
    ReadTags(m, end, bs, k);
    AroundOne(bs, k);
    EncodesAt(m, bs, k);
    assert Tagged(w, a, b);
    EncodesOne(w, a, b);
    UnitsOne(b);
    Respliced(m, w, bs[..k], [b], [b], bs[k + 1..]);
  }

  // What mm_init writes is a heap of one free block.
  lemma {:induction false} FirstTags(m: seq<Word>)
    requires CHUNK <= |m| < 0x1_0000_0000
    requires m[WSIZE] == Pack(1, true) && m[2 * WSIZE] == Pack(1, true)
    requires m[FIRST - WSIZE] == Pack(CHUNK_UNITS - 2, false) && m[CHUNK - DSIZE] == Pack(CHUNK_UNITS - 2, false)
    requires m[CHUNK - WSIZE] == Pack(0, true)
    ensures Layout(m, CHUNK, [Block(CHUNK_UNITS - 2, false)])
  {
    var b := Block(CHUNK_UNITS - 2, false);
    UnitsOne(b);
    EncodesOne(m, FIRST, b);
    assert [b][1..] == [];
  }
}
