/**
  The last lines of a file, as 13-5-my_tail.c finds them: a ring of line buffers
  that grow by doubling, filled one byte at a time while the file goes by.
 */
module Tail {
  import opened Sequences

  const BUF_SIZE := 4096
  const FIRST_SIZE := 512

  // -------------------------------------------------------------- the lines

  // The lines of s that a newline ends, and what follows the last newline.
  function Ended(s: seq<char>): seq<seq<char>> {
    if s == [] then []
    else if s[|s| - 1] == '\n' then Ended(s[..|s| - 1]) + [Rest(s[..|s| - 1])]
    else Ended(s[..|s| - 1])
  }

  function Rest(s: seq<char>): seq<char> {
    if s == [] || s[|s| - 1] == '\n' then [] else Rest(s[..|s| - 1]) + [s[|s| - 1]]
  }

  // All lines: an unterminated last line counts when it is not empty.
  function Lines(s: seq<char>): seq<seq<char>> {
    Ended(s) + if Rest(s) == [] then [] else [Rest(s)]
  }

  function Joined(ls: seq<seq<char>>): seq<char> {
    if ls == [] then [] else Joined(ls[..|ls| - 1]) + ls[|ls| - 1] + ['\n']
  }

  lemma {:induction false} JoinedOneMore(ls: seq<seq<char>>, l: seq<char>)
    ensures Joined(ls + [l]) == Joined(ls) + l + ['\n']
  {
    assert (ls + [l])[..|ls|] == ls;
  }

  // Ended and Rest take s apart without loss, at its newlines and nowhere else.
  lemma {:induction false} LinesMakeUp(s: seq<char>, k: nat)
    ensures Joined(Ended(s)) + Rest(s) == s
    ensures '\n' !in Rest(s)
    ensures k < |Ended(s)| ==> '\n' !in Ended(s)[k]
    decreases |s|
  {
    if s != [] {
      var t, ch := s[..|s| - 1], s[|s| - 1];
      LinesMakeUp(t, k);
      if ch == '\n' { JoinedOneMore(Ended(t), Rest(t)); }
      assert s == t + [ch];
    }
  }

  // The lines, each with a newline, are s, with a newline more if s does not end
  // in one; and none has a newline inside.
  lemma {:induction false} LinesExactly(s: seq<char>, k: nat)
    ensures Joined(Lines(s)) == if s == [] || s[|s| - 1] == '\n' then s else s + ['\n']
    ensures k < |Lines(s)| ==> '\n' !in Lines(s)[k]
  {
    LinesMakeUp(s, k);
    if Rest(s) == [] {
      assert Ended(s) + [] == Ended(s) && Joined(Ended(s)) + [] == s;
    } else {
      JoinedOneMore(Ended(s), Rest(s));
    }
  }

  // One byte more.
  lemma {:induction false} OneByte(s: seq<char>, ch: char)
    ensures Ended(s + [ch]) == if ch == '\n' then Ended(s) + [Rest(s)] else Ended(s)
    ensures Rest(s + [ch]) == if ch == '\n' then [] else Rest(s) + [ch]
  {
    assert (s + [ch])[..|s|] == s;
  }

  // The last n of them.
  function Last<T>(ls: seq<T>, n: nat): seq<T> {
    ls[if |ls| <= n then 0 else |ls| - n..]
  }

  lemma {:induction false} LastAt<T>(ls: seq<T>, n: nat, k: nat)
    ensures |Last(ls, n)| == if |ls| <= n then |ls| else n
    ensures k < |Last(ls, n)| ==> Last(ls, n)[k] == ls[|ls| - |Last(ls, n)| + k]
  {
  }

  // What printf shows of a line: the bytes before the first null.
  function Shown(l: seq<char>): seq<char> {
    if l == [] || l[0] == '\0' then [] else [l[0]] + Shown(l[1..])
  }

  lemma {:induction false} ShownAll(l: seq<char>)
    ensures Shown(l) == l <==> '\0' !in l
  {
    if l != [] && l[0] != '\0' {
      ShownAll(l[1..]);
      assert l == [l[0]] + l[1..];
    }
  }

  function ShownEach(ls: seq<seq<char>>): (r: seq<seq<char>>)
    ensures |r| == |ls| && forall k | 0 <= k < |ls| :: r[k] == Shown(ls[k])
  {
    seq(|ls|, k requires 0 <= k < |ls| => Shown(ls[k]))
  }

  // Nothing is hidden exactly when no line shown has a null byte.
  lemma {:induction false} ShownExactly(ls: seq<seq<char>>)
    ensures ShownEach(ls) == ls <==> forall k | 0 <= k < |ls| :: '\0' !in ls[k]
  {
    forall k | 0 <= k < |ls| ensures Shown(ls[k]) == ls[k] <==> '\0' !in ls[k] { ShownAll(ls[k]); }
    if ShownEach(ls) == ls {
      forall k | 0 <= k < |ls| ensures '\0' !in ls[k] { assert ShownEach(ls)[k] == Shown(ls[k]); }
    }
  }

  // It is the longest beginning without a null byte.
  lemma {:induction false} ShownUpToNull(l: seq<char>)
    ensures |Shown(l)| <= |l| && Shown(l) == l[..|Shown(l)|] && '\0' !in Shown(l)
    ensures |Shown(l)| < |l| ==> l[|Shown(l)|] == '\0'
  {
    if l != [] && l[0] != '\0' { ShownUpToNull(l[1..]); }
  }

  // --------------------------------------------------------------- the ring

  // The slot of line k, k % n.
  function Slot(k: nat, n: nat): (r: nat)
    requires n > 0
    ensures r < n
  {
    if k < n then k else Slot(k - n, n)
  }

  lemma {:induction false} SlotIsRemainder(k: nat, n: nat) returns (q: nat)
    requires n > 0
    ensures k == q * n + Slot(k, n)
  {
    if k < n {
      q := 0;
    } else {
      var p := SlotIsRemainder(k - n, n);
      q := p + 1;
      assert q * n == p * n + n;
    }
  }

  // Lines less than n apart are in different slots.
  lemma {:induction false} SlotsDiffer(j: nat, k: nat, n: nat)
    requires j < k < j + n
    ensures Slot(j, n) != Slot(k, n)
  {
    if j >= n { SlotsDiffer(j - n, k - n, n); }
  }

  predicate StartsWith(buf: seq<char>, l: seq<char>) {
    |l| < |buf| && forall i | 0 <= i < |l| :: buf[i] == l[i]
  }

  // A buffer that holds l with its terminator.
  predicate Holds(buf: seq<char>, l: seq<char>) {
    StartsWith(buf, l) && buf[|l|] == '\0'
  }

  lemma {:induction false} ShownOfBuffer(buf: seq<char>, l: seq<char>)
    requires Holds(buf, l)
    ensures Shown(buf) == Shown(l)
  {
    if l != [] && l[0] != '\0' {
      ShownOfBuffer(buf[1..], l[1..]);
    }
  }

  // The slot of line k still has it.
  predicate Keeps(bufs: seq<seq<char>>, n: nat, lines: seq<seq<char>>, k: int) {
    && 0 <= k < |lines| && 0 < n == |bufs|
    && Holds(bufs[Slot(k, n)], lines[k])
  }

  // The ring has the last lines that ended (n of them until the next line
  // begins, then one less) and what there is of the next one.
  ghost predicate RingOk(bufs: seq<seq<char>>, n: nat, ended: seq<seq<char>>, rest: seq<char>) {
    && 0 < n == |bufs|
    && StartsWith(bufs[Slot(|ended|, n)], rest)
    && (forall k | 0 <= k < n :: bufs[k] != [])
    && (forall k: nat | |ended| - n < k < |ended| :: Keeps(bufs, n, ended, k))
    && (rest == [] && |ended| >= n ==> Keeps(bufs, n, ended, |ended| - n))
  }

  // A write into the slot in use leaves an earlier line alone.
  lemma {:induction false} KeepsOther(bufs: seq<seq<char>>, n: nat, ended: seq<seq<char>>, b: seq<char>, k: nat)
    requires Keeps(bufs, n, ended, k) && |ended| - n < k
    ensures Keeps(bufs[Slot(|ended|, n) := b], n, ended, k)
  {
    SlotsDiffer(k, |ended|, n);
  }

  lemma {:induction false} PutNewline(bufs: seq<seq<char>>, n: nat, ended: seq<seq<char>>, rest: seq<char>)
    requires RingOk(bufs, n, ended, rest)
    ensures var ind := Slot(|ended|, n);
            RingOk(bufs[ind := bufs[ind][|rest| := '\0']], n, ended + [rest], [])
  {
    var c, ind := |ended|, Slot(|ended|, n);
    var b := bufs[ind][|rest| := '\0'];
    var bufs1, ended1 := bufs[ind := b], ended + [rest];
    assert Keeps(bufs1, n, ended1, c);
    forall k: nat | c - n < k < c ensures Keeps(bufs1, n, ended1, k) {
      assert Keeps(bufs, n, ended, k);
      KeepsOther(bufs, n, ended, b, k);
    }
  }

  // junk is what realloc adds, when it is called.
  lemma {:induction false} PutOther(bufs: seq<seq<char>>, n: nat, ended: seq<seq<char>>, rest: seq<char>,
                                    ch: char, junk: seq<char>)
    requires RingOk(bufs, n, ended, rest)
    requires |rest| + 1 == |bufs[Slot(|ended|, n)]| ==> junk != []
    ensures var ind := Slot(|ended|, n);
            RingOk(bufs[ind := bufs[ind][|rest| := ch] + junk], n, ended, rest + [ch])
  {
    var c, ind := |ended|, Slot(|ended|, n);
    var b := bufs[ind][|rest| := ch] + junk;
    var bufs1 := bufs[ind := b];
    forall k: nat | c - n < k < c ensures Keeps(bufs1, n, ended, k) {
      assert Keeps(bufs, n, ended, k);
      KeepsOther(bufs, n, ended, b, k);
    }
  }

  // The ring after the byte ch is stored; junk is what realloc adds.
  function Stored(bufs: seq<seq<char>>, n: nat, s: seq<char>, ch: char, junk: seq<char>): seq<seq<char>>
    requires RingOk(bufs, n, Ended(s), Rest(s))
  {
    var ind := Slot(|Ended(s)|, n);
    bufs[ind := bufs[ind][|Rest(s)| := if ch == '\n' then '\0' else ch] + junk]
  }

  // realloc is called when the buffer in use is full, and doubles it.
  ghost function Growth(bufs: seq<seq<char>>, n: nat, s: seq<char>, ch: char): nat
    requires RingOk(bufs, n, Ended(s), Rest(s))
  {
    var size := |bufs[Slot(|Ended(s)|, n)]|;
    if ch != '\n' && |Rest(s)| + 1 == size then size else 0
  }

  lemma {:induction false} StoredOk(bufs: seq<seq<char>>, n: nat, s: seq<char>, ch: char, junk: seq<char>)
    requires RingOk(bufs, n, Ended(s), Rest(s)) && |junk| == Growth(bufs, n, s, ch)
    ensures RingOk(Stored(bufs, n, s, ch, junk), n, Ended(s + [ch]), Rest(s + [ch]))
  {
    OneByte(s, ch);
    if ch == '\n' {
      var b := bufs[Slot(|Ended(s)|, n)][|Rest(s)| := '\0'];
      assert b + junk == b;
      PutNewline(bufs, n, Ended(s), Rest(s));
    } else {
      PutOther(bufs, n, Ended(s), Rest(s), ch, junk);
    }
  }

  // At the end of the file the ring has the last n lines.
  ghost predicate RingDone(bufs: seq<seq<char>>, n: nat, all: seq<seq<char>>) {
    0 < n == |bufs| && forall k: nat | |all| - n <= k < |all| :: Holds(bufs[Slot(k, n)], all[k])
  }

  lemma {:induction false} DoneOk(bufs: seq<seq<char>>, n: nat, s: seq<char>)
    requires RingOk(bufs, n, Ended(s), Rest(s))
    ensures Rest(s) == [] ==> RingDone(bufs, n, Lines(s))
    ensures Rest(s) != [] ==> var ind := Slot(|Ended(s)|, n);
                              RingDone(bufs[ind := bufs[ind][|Rest(s)| := '\0']], n, Lines(s))
  {
    var c, ind, ended := |Ended(s)|, Slot(|Ended(s)|, n), Ended(s);
    forall k: nat | c - n < k < c ensures Keeps(bufs, n, ended, k) && Slot(k, n) != ind {
      SlotsDiffer(k, c, n);
    }
  }

  // A capacity: FIRST_SIZE doubled e times.
  function Capacity(e: nat): (r: nat)
    ensures r > 0
  {
    if e == 0 then FIRST_SIZE else 2 * Capacity(e - 1)
  }

  ghost predicate IsCapacity(size: nat) {
    exists e: nat :: size == Capacity(e)
  }

  lemma {:induction false} Doubles(size: nat)
    requires IsCapacity(size)
    ensures IsCapacity(2 * size)
  {
    var e: nat :| size == Capacity(e);
    assert 2 * size == Capacity(e + 1);
  }

  // A block of memory of undefined content.
  method Malloc(size: nat) returns (buf: seq<char>)
    ensures |buf| == size
  {
    buf := seq(size, _ => '?');
  }

  class Ring {
    const n: nat
    var lines: array<seq<char>>  // each lines[k] is a buffer of |lines[k]| bytes
    var lineCount: nat
    var j: nat
    ghost var seen: seq<char>    // the bytes read so far

    ghost predicate Valid()
      reads this, lines
    {
      && lines.Length == n && lineCount == |Ended(seen)| && j == |Rest(seen)|
      && RingOk(lines[..], n, Ended(seen), Rest(seen))
    }

    // Every buffer has grown by doubling and by nothing else.
    ghost predicate Doubled()
      reads this, lines
    {
      forall k | 0 <= k < lines.Length :: IsCapacity(|lines[k]|)
    }

    // Lines 38 to 51.
    constructor (lineNum: nat)
      requires lineNum > 0
      ensures Valid() && Doubled() && fresh(lines) && n == lineNum && seen == []
    {
      var first := Malloc(FIRST_SIZE);
      n := lineNum;
      lines := new seq<char>[lineNum](_ => first);
      lineCount, j, seen := 0, 0, [];
      new;
      assert FIRST_SIZE == Capacity(0);
    }

    // Lines 75 to 80: realloc doubles a full buffer and keeps what was there.
    method Grow(ind: nat) returns (ghost junk: seq<char>)
      requires Doubled() && ind < lines.Length && lines[ind] != []
      modifies lines
      ensures Doubled() && lines[..] == old(lines[..])[ind := old(lines[ind]) + junk]
      ensures |junk| == if j == old(|lines[ind]|) then old(|lines[ind]|) else 0
    {
      ghost var bufs := lines[..];
      junk := [];
      if j == |lines[ind]| {
        Doubles(|lines[ind]|);
        var more := Malloc(|lines[ind]|);
        lines[ind] := lines[ind] + more;
        junk := more;
      } else {
        assert bufs[ind] + [] == bufs[ind] && bufs[ind := bufs[ind]] == bufs;
      }
    }

    // Lines 66 to 73.
    method Store(ch: char, ind: nat)
      requires Valid() && Doubled() && ind == Slot(lineCount, n)
      modifies this`lineCount, this`j, lines
      ensures Doubled() && lines[..] == old(lines[..])[ind := old(lines[ind][j := if ch == '\n' then '\0' else ch])]
      ensures lineCount == |Ended(seen + [ch])| && j == |Rest(seen + [ch])|
    {
      OneByte(seen, ch);
      if ch == '\n' {
        lines[ind] := lines[ind][j := '\0'];
        lineCount := lineCount + 1;
        j := 0;
      } else {
        lines[ind] := lines[ind][j := ch];
        j := j + 1;
      }
    }

    method StoreAndGrow(ch: char) returns (ghost junk: seq<char>)
      requires Valid() && Doubled()
      modifies this`lineCount, this`j, lines
      ensures Doubled() && lines[..] == Stored(old(lines[..]), n, seen, ch, junk)
      ensures |junk| == Growth(old(lines[..]), n, seen, ch)
      ensures lineCount == |Ended(seen + [ch])| && j == |Rest(seen + [ch])|
    {
      ghost var bufs := lines[..];
      var ind := Slot(lineCount, n);
      OneByte(seen, ch);
      Store(ch, ind);
      ghost var b := bufs[ind][|Rest(seen)| := if ch == '\n' then '\0' else ch];
      assert lines[..][ind] == b;
      junk := Grow(ind);
      assert bufs[ind := b][ind := b + junk] == bufs[ind := b + junk];
    }

    // Lines 64 to 80: one byte of the file. The buffer in use doubles when the
    // byte fills it; no other buffer changes its capacity.
    method Put(ch: char)
      requires Valid() && Doubled()
      modifies this, lines
      ensures Valid() && Doubled() && lines == old(lines) && seen == old(seen) + [ch]
      ensures forall k | 0 <= k < lines.Length ::
                |lines[k]| == if k == old(Slot(lineCount, n)) && ch != '\n' && old(j) + 1 == old(|lines[k]|)
                              then 2 * old(|lines[k]|) else old(|lines[k]|)
    {
      ghost var bufs, s := lines[..], seen;
      ghost var junk := StoreAndGrow(ch);
      StoredOk(bufs, n, s, ch, junk);
      ghost var after := lines[..];
      seen := seen + [ch];
      forall k | 0 <= k < lines.Length
        ensures |lines[k]| == |bufs[k]| + if k == Slot(|Ended(s)|, n) then |junk| else 0
      {
        assert lines[k] == after[k];
      }
    }

    // Lines 61 to 82: what one read returned.
    method PutAll(buffer: seq<char>)
      requires Valid() && Doubled()
      modifies this, lines
      ensures Valid() && Doubled() && lines == old(lines) && seen == old(seen) + buffer
    {
      var i := 0;
      while i < |buffer|
        invariant i <= |buffer| && Valid() && Doubled() && lines == old(lines) && seen == old(seen) + buffer[..i]
      {
        Put(buffer[i]);
        i := i + 1;
        assert buffer[..i] == buffer[..i - 1] + [buffer[i - 1]];
      }
      assert buffer[..i] == buffer;
    }

    // Lines 84 and 85.
    method Finish()
      requires Valid()
      modifies this`lineCount, lines
      ensures lineCount == |Lines(seen)| && lines.Length == n && RingDone(lines[..], n, Lines(seen))
    {
      ghost var bufs := lines[..];
      DoneOk(bufs, n, seen);
      if j != 0 {
        var ind := Slot(lineCount, n);
        lineCount := lineCount + 1;
        lines[ind] := lines[ind][j := '\0'];
        assert lines[..] == bufs[ind := bufs[ind][|Rest(seen)| := '\0']];
      }
    }

    // Lines 89 and 90.
    method Print() returns (printed: seq<seq<char>>)
      requires lineCount == |Lines(seen)| && lines.Length == n && RingDone(lines[..], n, Lines(seen))
      ensures printed == ShownEach(Last(Lines(seen), n))
    {
      // REPAIR: the program starts one line later, at line_count - line_num + 1
      var first := if lineCount < n then 0 else lineCount - n;
      var i := first;
      printed := [];
      while i < lineCount
        invariant first <= i <= lineCount && |printed| == i - first
        invariant forall k | 0 <= k < |printed| :: printed[k] == Shown(Lines(seen)[first + k])
      {
        ShownOfBuffer(lines[..][Slot(i, n)], Lines(seen)[i]);
        printed := printed + [Shown(lines[Slot(i, n)])];
        i := i + 1;
      }
    }
  }

  // Lines 38 to 90. For every file, however read cuts it into chunks, the last
  // lines are printed in order, and only is set (with the number of lines) when
  // there are fewer than asked for.
  method Run(chunks: seq<seq<char>>, lineNum: nat) returns (only: bool, count: nat, printed: seq<seq<char>>)
    requires lineNum > 0 && forall c | 0 <= c < |chunks| :: 0 < |chunks[c]| <= BUF_SIZE
    ensures count == |Lines(Flat(chunks))| && (only <==> count < lineNum)
    ensures printed == ShownEach(Last(Lines(Flat(chunks)), lineNum))
  {
    var ring := new Ring(lineNum);
    var c := 0;
    while c < |chunks|
      invariant c <= |chunks| && ring.Valid() && ring.Doubled() && fresh(ring) && fresh(ring.lines)
      invariant ring.n == lineNum && ring.seen == Flat(chunks[..c])
    {
      ring.PutAll(chunks[c]);
      c := c + 1;
      assert chunks[..c][..c - 1] == chunks[..c - 1];
    }
    assert chunks[..c] == chunks;
    ring.Finish();
    count := ring.lineCount;
    only := count < lineNum;
    printed := ring.Print();
  }

  // The program as written leaves out the first of the lines to print, so it
  // is right exactly when the file has fewer lines than asked for.
  lemma {:induction false} AsWritten(ls: seq<seq<char>>, n: nat)
    requires n > 0
    ensures Last(ls, n - 1) == Last(ls, n) <==> |ls| < n
    ensures |ls| >= n ==> Last(ls, n) == [ls[|ls| - n]] + Last(ls, n - 1)
  {
    if |ls| >= n {
      assert |Last(ls, n)| == n && |Last(ls, n - 1)| == n - 1;
    }
  }
}
