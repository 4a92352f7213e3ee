/**
  The copy loop of 4-2-cp.c, which seeks over zero bytes instead of writing
  them, so that the copy has holes where the input has zeros. The destination
  is opened without being truncated, so it may have a content of its own.
 */
module Copy {
  import opened Sequences

  const BUF_SIZE := 1024

  type byte = b: nat | b < 256

  function Zeros(n: nat): seq<byte> {
    seq(n, _ => 0)
  }

  // ------------------------------------------------------ what a file holds

  // write at an offset: a gap before it reads back as zeros.
  function WriteAt(file: seq<byte>, pos: nat, data: seq<byte>): seq<byte>
    requires data != []
  {
    seq(if |file| < pos + |data| then pos + |data| else |file|, k requires 0 <= k =>
      if pos <= k < pos + |data| then data[k - pos] else if k < |file| then file[k] else 0)
  }

  // The least prefix that leaves only zeros out.
  function Trim(s: seq<byte>): seq<byte> {
    if s == [] || s[|s| - 1] != 0 then s else Trim(s[..|s| - 1])
  }

  lemma {:induction false} TrimIs(s: seq<byte>)
    ensures |Trim(s)| <= |s| && s == Trim(s) + Zeros(|s| - |Trim(s)|)
    ensures Trim(s) == [] || Trim(s)[|Trim(s)| - 1] != 0
  {
    if s != [] && s[|s| - 1] == 0 {
      TrimIs(s[..|s| - 1]);
      assert s == s[..|s| - 1] + [0];
    }
  }

  lemma {:induction false} TrimZeros(s: seq<byte>, n: nat)
    ensures Trim(s + Zeros(n)) == Trim(s)
  {
    if n == 0 {
      assert s + Zeros(0) == s;
    } else {
      assert (s + Zeros(n))[..|s| + n - 1] == s + Zeros(n - 1);
      TrimZeros(s, n - 1);
    }
  }

  // The bytes of s over those of the file, with the zeros of s transparent.
  function Over(file: seq<byte>, s: seq<byte>): (r: seq<byte>)
    ensures |r| == if |file| < |s| then |s| else |file|
    ensures forall k | 0 <= k < |r| :: r[k] == if k < |s| && s[k] != 0 then s[k] else if k < |file| then file[k] else 0
  {
    seq(if |file| < |s| then |s| else |file|, k requires 0 <= k =>
      if k < |s| && s[k] != 0 then s[k] else if k < |file| then file[k] else 0)
  }

  // What the destination holds when s was copied but its last zeros were not.
  function Laid(file: seq<byte>, s: seq<byte>): seq<byte> {
    Over(file, Trim(s))
  }

  predicate NoZero(s: seq<byte>) {
    forall k | 0 <= k < |s| :: s[k] != 0
  }

  lemma {:induction false} TrimAt(s: seq<byte>, k: nat)
    requires k < |s|
    ensures s[k] == if k < |Trim(s)| then Trim(s)[k] else 0
  {
    TrimIs(s);
    assert s[k] == (Trim(s) + Zeros(|s| - |Trim(s)|))[k];
  }

  // Writing a run without zeros continues the copy.
  lemma {:induction false} WriteLays(file: seq<byte>, s: seq<byte>, data: seq<byte>)
    requires NoZero(data) && data != []
    ensures WriteAt(Laid(file, s), |s|, data) == Over(file, s + data)
    ensures Laid(file, s + data) == Over(file, s + data)
  {
    var w, o := WriteAt(Laid(file, s), |s|, data), Over(file, s + data);
    TrimIs(s);
    forall k | 0 <= k < |w| ensures w[k] == o[k] {
      if k < |s| { TrimAt(s, k); }
    }
    assert w == o;
    assert Trim(s + data) == s + data;
  }

  // Zeros at the end are what is missing from what was laid down.
  lemma {:induction false} ExtendLays(file: seq<byte>, s: seq<byte>, n: nat)
    ensures var f := Laid(file, s);
            Over(file, s + Zeros(n)) == f + Zeros(if |f| < |s| + n then |s| + n - |f| else 0)
  {
    TrimIs(s);
    var f, r := Laid(file, s), Over(file, s + Zeros(n));
    forall k | 0 <= k < |r| ensures r[k] == if k < |f| then f[k] else 0 {
      if k < |s| { TrimAt(s, k); }
    }
  }

  // The copy is the input exactly when the destination was not longer and was
  // zero wherever the input is; in particular when it was empty.
  lemma {:induction false} OverIsCopy(file: seq<byte>, s: seq<byte>)
    ensures Over(file, s) == s <==>
            |file| <= |s| && forall k | 0 <= k < |file| :: s[k] == 0 ==> file[k] == 0
  {
    if Over(file, s) == s {
      forall k | 0 <= k < |file| ensures s[k] == 0 ==> file[k] == 0 {
        assert Over(file, s)[k] == s[k];
      }
    }
  }

  // As written, with nothing done about zeros at the end, the copy into an
  // empty file is the input exactly when the input does not end in a zero.
  lemma {:induction false} AsWrittenCopy(s: seq<byte>)
    ensures Laid([], s) == s <==> s == [] || s[|s| - 1] != 0
    ensures exists n: nat :: Laid([], s) + Zeros(n) == s
  {
    TrimIs(s);
    OverIsCopy([], Trim(s));
    assert Laid([], s) + Zeros(|s| - |Trim(s)|) == s;
    if s != [] && s[|s| - 1] == 0 { TrimIs(s[..|s| - 1]); }
  }

  // -------------------------------------------------------------- the loop

  class Copier {
    var file: seq<byte>    // the destination, and the offset of wfd in it
    var pos: nat
    var wbuf: array<byte>
    var writeIndex: nat
    var zeroCnt: nat
    ghost var was: seq<byte>  // the destination at the start
    ghost var laid: seq<byte> // the input that was written or skipped

    // The input consumed so far: what was laid down, zeros not yet skipped, and
    // bytes not yet written.
    ghost function Eaten(): seq<byte>
      requires writeIndex <= wbuf.Length
      reads this, wbuf
    {
      laid + Zeros(zeroCnt) + wbuf[..writeIndex]
    }

    ghost predicate Valid()
      reads this, wbuf
    {
      && wbuf.Length == BUF_SIZE && writeIndex <= BUF_SIZE && (zeroCnt == 0 || writeIndex == 0)
      && NoZero(wbuf[..writeIndex])
      && pos == |laid| && file == Laid(was, laid)
    }

    // A hole is never the last thing.
    ghost predicate Between()
      reads this
    {
      zeroCnt == 0 && writeIndex == 0 ==> Trim(laid) == laid
    }

    constructor (content: seq<byte>)
      ensures Valid() && Between() && fresh(wbuf) && was == content && Eaten() == []
    {
      file, pos, writeIndex, zeroCnt, was, laid := content, 0, 0, 0, content, [];
      wbuf := new byte[BUF_SIZE];
    }

    // Lines 39 to 41: writes what wbuf holds.
    method Flush()
      requires Valid()
      modifies this`file, this`pos, this`writeIndex, this`laid
      ensures Valid() && writeIndex == 0 && Eaten() == old(Eaten())
      ensures old(Between()) ==> Between()
    {
      if writeIndex > 0 {
        var data := wbuf[..writeIndex];
        WriteLays(was, laid, data);
        assert laid + Zeros(0) + data == laid + data;
        file := WriteAt(file, pos, data);
        pos := pos + writeIndex;
        writeIndex := 0;
        laid := laid + data;
        assert laid + Zeros(0) + [] == laid;
      }
    }

    // Lines 47 to 52: a hole for the zeros.
    method Skip()
      requires Valid()
      modifies this`pos, this`zeroCnt, this`laid
      ensures Valid() && zeroCnt == 0 && Eaten() == old(Eaten())
    {
      if zeroCnt > 0 {
        TrimZeros(laid, zeroCnt);
        ghost var hole := laid + Zeros(zeroCnt);
        assert hole + wbuf[..0] == hole + Zeros(0) + wbuf[..0];
        pos := pos + zeroCnt;
        zeroCnt := 0;
        laid := hole;
      }
    }

    // Lines 35 to 44.
    method EatZero()
      requires Valid() && Between()
      modifies this
      ensures Valid() && Between() && wbuf == old(wbuf) && was == old(was) && Eaten() == old(Eaten()) + [0]
    {
      Flush();
      assert Zeros(zeroCnt) + [0] == Zeros(zeroCnt + 1);
      assert wbuf[..0] == [];
      zeroCnt := zeroCnt + 1;
    }

    // Lines 46 to 54.
    method EatOther(b: byte)
      requires Valid() && Between() && b != 0
      modifies this, wbuf
      ensures Valid() && Between() && wbuf == old(wbuf) && was == old(was) && Eaten() == old(Eaten()) + [b]
    {
      Skip();
      // REPAIR: the program never writes a full buffer, and runs past its end
      if writeIndex == BUF_SIZE { Flush(); }
      Append(b);
    }

    // Line 53.
    method Append(b: byte)
      requires Valid() && b != 0 && zeroCnt == 0 && writeIndex < BUF_SIZE
      modifies this`writeIndex, wbuf
      ensures Valid() && Between() && Eaten() == old(Eaten()) + [b]
    {
      wbuf[writeIndex] := b;
      writeIndex := writeIndex + 1;
      assert wbuf[..writeIndex] == wbuf[..writeIndex - 1] + [b];
    }

    // Lines 35 to 54: one byte of the input.
    method Eat(b: byte)
      requires Valid() && Between()
      modifies this, wbuf
      ensures Valid() && Between() && wbuf == old(wbuf) && was == old(was) && Eaten() == old(Eaten()) + [b]
    {
      if b == 0 { EatZero(); } else { EatOther(b); }
    }

    // Lines 33 to 55: what one read returned.
    method EatAll(rbuf: seq<byte>)
      requires Valid() && Between()
      modifies this, wbuf
      ensures Valid() && Between() && wbuf == old(wbuf) && was == old(was) && Eaten() == old(Eaten()) + rbuf
    {
      var i := 0;
      while i < |rbuf|
        invariant i <= |rbuf| && Valid() && Between() && wbuf == old(wbuf) && was == old(was)
        invariant Eaten() == old(Eaten()) + rbuf[..i]
      {
        Eat(rbuf[i]);
        i := i + 1;
        assert rbuf[..i] == rbuf[..i - 1] + [rbuf[i - 1]];
      }
      assert rbuf[..i] == rbuf;
    }

    // Lines 59 to 63, and the file is extended over zeros at the end.
    method Finish()
      requires Valid() && Between()
      modifies this`file, this`pos, this`writeIndex, this`laid
      ensures file == Over(was, old(Eaten()))
    {
      Flush();
      ExtendLays(was, laid, zeroCnt);
      assert Eaten() == laid + Zeros(zeroCnt);
      // REPAIR: the program leaves zeros at the end of the input out
      if zeroCnt > 0 && |file| < pos + zeroCnt {
        file := file + Zeros(pos + zeroCnt - |file|);
      }
    }
  }

  // Lines 31 to 65. For every input and however read cuts it into chunks, the
  // destination ends up with the input over what it held; if it held nothing,
  // with the input.
  method Run(chunks: seq<seq<byte>>, content: seq<byte>) returns (file: seq<byte>)
    requires forall c | 0 <= c < |chunks| :: 0 < |chunks[c]| <= BUF_SIZE
    ensures file == Over(content, Flat(chunks))
    ensures content == [] ==> file == Flat(chunks)
  {
    var copier := new Copier(content);
    var c := 0;
    while c < |chunks|
      invariant c <= |chunks| && copier.Valid() && copier.Between() && fresh(copier) && fresh(copier.wbuf)
      invariant copier.was == content && copier.Eaten() == Flat(chunks[..c])
    {
      copier.EatAll(chunks[c]);
      c := c + 1;
      assert chunks[..c][..c - 1] == chunks[..c - 1];
    }
    assert chunks[..c] == chunks;
    copier.Finish();
    file := copier.file;
    OverIsCopy(content, Flat(chunks));
  }
}
